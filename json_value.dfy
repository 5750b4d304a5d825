/** The JSON element tree (JsonElement and its subclasses) as values, the
    LinkedHashMap that backs a JsonObject, element equality and the compact
    toString form. */
module JsonValues {
  import opened Wrappers
  import opened JavaText
  import opened JsonStrings

  /** A JSON element. A JsonNumber keeps the Java type the parser chose for it:
      JInt for an Integer, JLong for a Long, JDouble for a Double (kept as the
      text given to Double.parseDouble). */
  datatype Json =
    | JNull
    | JBool(b: bool)
    | JInt(i: int)
    | JLong(l: int)
    | JDouble(text: string)
    | JString(s: string)
    | JList(items: seq<Json>)
    | JObject(members: seq<Member>)

  /** One entry of a JsonObject, in insertion order. */
  datatype Member = Member(key: string, value: Json)

  // ---------------------------------------------------------------------------
  // The LinkedHashMap of a JsonObject: entries in first-insertion order.

  predicate DistinctKeys(ms: seq<Member>) {
    forall i, j :: 0 <= i < j < |ms| ==> ms[i].key != ms[j].key
  }

  predicate HasKey(ms: seq<Member>, key: string) {
    exists i :: 0 <= i < |ms| && ms[i].key == key
  }

  /** The index of the entry for key, or -1. */
  function Find(ms: seq<Member>, key: string): (i: int)
    ensures -1 <= i < |ms|
    ensures i >= 0 ==> ms[i].key == key
    ensures i == -1 <==> !HasKey(ms, key)
    ensures forall j :: 0 <= j < i ==> ms[j].key != key
  {
    if ms == [] then -1
    else if ms[0].key == key then 0
    else
      var j := Find(ms[1..], key);
      assert forall k :: 1 <= k < |ms| ==> ms[k] == ms[1..][k - 1];
      if j == -1 then -1 else j + 1
  }

  /** Map.get: the element stored under key, or null. */
  function Get(ms: seq<Member>, key: string): (r: Option<Json>)
    ensures r.Some? <==> HasKey(ms, key)
  {
    var i := Find(ms, key);
    if i >= 0 then Some(ms[i].value) else None
  }

  /** LinkedHashMap.put: a present key keeps its position and gets the new
      element; a new key is appended. */
  function Put(ms: seq<Member>, key: string, v: Json): (r: seq<Member>)
    ensures Get(r, key) == Some(v)
    ensures forall k :: k != key ==> Get(r, k) == Get(ms, k)
    ensures HasKey(ms, key) ==> |r| == |ms|
    ensures !HasKey(ms, key) ==> |r| == |ms| + 1 && r[|ms|] == Member(key, v)
    ensures forall i :: 0 <= i < |ms| ==> r[i].key == ms[i].key
    ensures DistinctKeys(ms) ==> DistinctKeys(r)
  {
    var i := Find(ms, key);
    if i >= 0 then
      var r := ms[i := Member(key, v)];
      FindSameKeys(ms, r, key);
      assert forall k :: k != key ==> Find(r, k) == Find(ms, k) by {
        forall k | k != key ensures Find(r, k) == Find(ms, k) {
          FindSameKeys(ms, r, k);
        }
      }
      r
    else
      var r := ms + [Member(key, v)];
      assert Find(r, key) == |ms| by {
        FindAppend(ms, Member(key, v), key);
      }
      assert forall k :: k != key ==> Get(r, k) == Get(ms, k) by {
        forall k | k != key ensures Get(r, k) == Get(ms, k) {
          FindAppend(ms, Member(key, v), k);
        }
      }
      r
  }

  lemma FindSameKeys(ms: seq<Member>, ns: seq<Member>, key: string)
    requires |ms| == |ns|
    requires forall i :: 0 <= i < |ms| ==> ms[i].key == ns[i].key
    ensures Find(ms, key) == Find(ns, key)
  {
    if ms != [] {
      FindSameKeys(ms[1..], ns[1..], key);
    }
  }

  lemma FindAppend(ms: seq<Member>, m: Member, key: string)
    ensures Find(ms + [m], key) == if HasKey(ms, key) then Find(ms, key) else if m.key == key then |ms| else -1
  {
    if ms != [] {
      assert (ms + [m])[1..] == ms[1..] + [m];
      FindAppend(ms[1..], m, key);
      if ms[0].key != key && HasKey(ms, key) {
        var i :| 0 <= i < |ms| && ms[i].key == key;
        assert ms[1..][i - 1].key == key;
      }
    }
  }

  /** A second put under the same key replaces the first one's value and
      leaves the entry where the first put placed it. */
  lemma PutPut(ms: seq<Member>, key: string, v1: Json, v2: Json)
    ensures Put(Put(ms, key, v1), key, v2) == Put(ms, key, v2)
  {
    var m1 := Put(ms, key, v1);
    var i := Find(ms, key);
    if i >= 0 {
      FindSameKeys(ms, m1, key);
    } else {
      FindAppend(ms, Member(key, v1), key);
    }
  }

  /** Map.remove: the entry for key disappears, the others keep their order. */
  function Remove(ms: seq<Member>, key: string): (r: seq<Member>)
    requires DistinctKeys(ms)
    ensures DistinctKeys(r)
    ensures Get(r, key) == None
    ensures forall k :: k != key ==> Get(r, k) == Get(ms, k)
    ensures |r| == if HasKey(ms, key) then |ms| - 1 else |ms|
  {
    var i := Find(ms, key);
    if i < 0 then ms
    else
      var r := ms[..i] + ms[i + 1..];
      assert forall k :: k != key ==> Get(r, k) == Get(ms, k) by {
        forall k | k != key ensures Get(r, k) == Get(ms, k) {
          RemoveAtGet(ms, i, k);
        }
      }
      assert !HasKey(r, key) by {
        forall j | 0 <= j < |r| ensures r[j].key != key {
          if j < i { assert r[j] == ms[j]; } else { assert r[j] == ms[j + 1]; }
        }
      }
      r
  }

  lemma RemoveAtGet(ms: seq<Member>, i: nat, k: string)
    requires DistinctKeys(ms) && i < |ms| && ms[i].key != k
    ensures Get(ms[..i] + ms[i + 1..], k) == Get(ms, k)
  {
    var r := ms[..i] + ms[i + 1..];
    var f := Find(ms, k);
    if f >= 0 {
      var g := if f < i then f else f - 1;
      assert r[g] == ms[f];
      var h := Find(r, k);
      assert h >= 0;
      var h' := if h < i then h else h + 1;
      assert ms[h'] == r[h];
      assert h' == f;
    } else {
      forall j | 0 <= j < |r| ensures r[j].key != k {
        if j < i { assert r[j] == ms[j]; } else { assert r[j] == ms[j + 1]; }
      }
    }
  }

  // ---------------------------------------------------------------------------
  // equals

  /** JsonElement.equals: lists compare element by element in order, objects
      compare as maps (AbstractMap.equals: same size and every entry of one is an
      equal entry of the other), everything else by value. */
  predicate Equiv(a: Json, b: Json)
    decreases a
  {
    match a
    case JList(xs) =>
      b.JList? && |xs| == |b.items| && forall i :: 0 <= i < |xs| ==> Equiv(xs[i], b.items[i])
    case JObject(ms) =>
      b.JObject? && |ms| == |b.members| &&
      forall i :: 0 <= i < |ms| ==>
        Get(b.members, ms[i].key).Some? && Equiv(ms[i].value, Get(b.members, ms[i].key).value)
    case _ => a == b
  }

  lemma {:induction false} EquivReflexive(a: Json)
    requires WellFormed(a)
    ensures Equiv(a, a)
    decreases a
  {
    match a
    case JList(xs) =>
      forall i | 0 <= i < |xs| ensures Equiv(xs[i], xs[i]) {
        EquivReflexive(xs[i]);
      }
    case JObject(ms) =>
      forall i | 0 <= i < |ms|
        ensures Get(ms, ms[i].key).Some? && Equiv(ms[i].value, Get(ms, ms[i].key).value)
      {
        assert HasKey(ms, ms[i].key);
        assert Find(ms, ms[i].key) == i;
        EquivReflexive(ms[i].value);
      }
    case _ =>
  }

  /** Every object in the tree has distinct keys, as a LinkedHashMap does. */
  predicate WellFormed(a: Json)
    decreases a
  {
    match a
    case JList(xs) => forall i :: 0 <= i < |xs| ==> WellFormed(xs[i])
    case JObject(ms) => DistinctKeys(ms) && forall i :: 0 <= i < |ms| ==> WellFormed(ms[i].value)
    case _ => true
  }

  /** Key order does not matter: two objects holding the same entries in a
      different order are equal. */
  lemma ObjectEquivIgnoresOrder(ms: seq<Member>, ns: seq<Member>)
    requires DistinctKeys(ms) && DistinctKeys(ns)
    requires forall i :: 0 <= i < |ms| ==> WellFormed(ms[i].value)
    requires multiset(ms) == multiset(ns)
    ensures Equiv(JObject(ms), JObject(ns))
  {
    assert |ms| == |multiset(ms)| == |multiset(ns)| == |ns|;
    forall i | 0 <= i < |ms|
      ensures Get(ns, ms[i].key).Some? && Equiv(ms[i].value, Get(ns, ms[i].key).value)
    {
      assert ms[i] in multiset(ns);
      var j :| 0 <= j < |ns| && ns[j] == ms[i];
      assert Find(ns, ms[i].key) == j;
      EquivReflexive(ms[i].value);
    }
  }

  // ---------------------------------------------------------------------------
  // toString

  /** The toString of every element: "null", "true"/"false", the decimal number,
      the quoted escaped string, "[ a, b ]" and "{ "k": v }" (keys are written
      without escaping), with "[]" and "{}" for empty containers. */
  function ToString(j: Json): string
    decreases j
  {
    match j
    case JNull => "null"
    case JBool(b) => if b then "true" else "false"
    case JInt(i) => IntToString(i)
    case JLong(l) => IntToString(l)
    case JDouble(t) => t
    case JString(s) => Quote(s)
    case JList(xs) =>
      if xs == [] then "[]"
      else "[ " + Join(seq(|xs|, i requires 0 <= i < |xs| => ToString(xs[i])), ", ") + " ]"
    case JObject(ms) =>
      if ms == [] then "{}"
      else "{ " + Join(seq(|ms|, i requires 0 <= i < |ms| => MemberText(ms[i].key, ToString(ms[i].value))), ", ") + " }"
  }

  /** One entry as JsonObject.toString writes it: the key in quotes, unescaped. */
  function MemberText(key: string, valueText: string): string
  {
    "\"" + key + "\": " + valueText
  }
}
