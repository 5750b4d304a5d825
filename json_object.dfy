/** JsonObject: a JSON object whose entries live in a LinkedHashMap, with the
    typed getters that turn a missing key or a wrong element kind into a
    FormatException. */
module JsonObjects {
  import opened Wrappers
  import opened JavaText
  import opened JsonValues

  /** The set of keys of a member sequence. */
  function Keys(ms: seq<Member>): (ks: set<string>)
    ensures forall k :: k in ks <==> HasKey(ms, k)
  {
    if ms == [] then {}
    else
      var rest := Keys(ms[1..]);
      assert forall k :: HasKey(ms, k) <==> ms[0].key == k || HasKey(ms[1..], k) by {
        forall k ensures HasKey(ms, k) <==> ms[0].key == k || HasKey(ms[1..], k) {
          if HasKey(ms, k) && ms[0].key != k {
            var i :| 0 <= i < |ms| && ms[i].key == k;
            assert ms[1..][i - 1].key == k;
          }
          if HasKey(ms[1..], k) {
            var i :| 0 <= i < |ms[1..]| && ms[1..][i].key == k;
            assert ms[i + 1].key == k;
          }
        }
      }
      {ms[0].key} + rest
  }

  /** With distinct keys, the number of entries is the number of keys. */
  lemma {:induction false} SizeCountsKeys(ms: seq<Member>)
    requires DistinctKeys(ms)
    ensures |Keys(ms)| == |ms|
  {
    if ms != [] {
      SizeCountsKeys(ms[1..]);
      assert ms[0].key !in Keys(ms[1..]) by {
        forall i | 0 <= i < |ms[1..]| ensures ms[1..][i].key != ms[0].key {
          assert ms[1..][i] == ms[i + 1];
        }
      }
    }
  }

  /** put adds the key to the key set. */
  lemma PutKeys(ms: seq<Member>, key: string, v: Json)
    ensures Keys(Put(ms, key, v)) == Keys(ms) + {key}
  {
    var p := Put(ms, key, v);
    forall k ensures k in Keys(p) <==> k in Keys(ms) + {key} {
      if k != key {
        assert Get(p, k) == Get(ms, k);
      }
    }
  }

  /** remove takes the key out of the key set. */
  lemma RemoveKeys(ms: seq<Member>, key: string)
    requires DistinctKeys(ms)
    ensures Keys(Remove(ms, key)) == Keys(ms) - {key}
  {
    var r := Remove(ms, key);
    forall k ensures k in Keys(r) <==> k in Keys(ms) - {key} {
      if k != key {
        assert Get(r, k) == Get(ms, k);
      }
    }
  }

  // ---------------------------------------------------------------------------
  // The typed getters on the entries of an object, also for objects nested in lists

  /** getString on the entries ms. */
  function StringIn(ms: seq<Member>, key: string): (r: Result<string>)
    ensures r.Ok? <==> Get(ms, key).Some? && Get(ms, key).value.JString?
    ensures r.Ok? ==> Get(ms, key) == Some(JString(r.value))
    ensures r.Fail? ==> r.exc == FormatException
  {
    match Get(ms, key)
    case None => Fail(FormatException)
    case Some(e) => if e.JString? then Ok(e.s) else Fail(FormatException)
  }

  /** getInt on the entries ms. */
  function IntIn(ms: seq<Member>, key: string): (r: Result<int>)
    ensures r.Ok? <==> Get(ms, key).Some? && Get(ms, key).value.JInt?
    ensures r.Ok? ==> Get(ms, key) == Some(JInt(r.value))
    ensures r.Fail? ==> r.exc == FormatException
  {
    match Get(ms, key)
    case None => Fail(FormatException)
    case Some(e) => if e.JInt? then Ok(e.i) else Fail(FormatException)
  }

  /** getList on the entries ms. */
  function ListIn(ms: seq<Member>, key: string): (r: Result<seq<Json>>)
    ensures r.Ok? <==> Get(ms, key).Some? && Get(ms, key).value.JList?
    ensures r.Ok? ==> Get(ms, key) == Some(JList(r.value))
    ensures r.Fail? ==> r.exc == FormatException
  {
    match Get(ms, key)
    case None => Fail(FormatException)
    case Some(e) => if e.JList? then Ok(e.items) else Fail(FormatException)
  }

  class JsonObject {
    /** The LinkedHashMap's entries in iteration (first-insertion) order. */
    var elements: seq<Member>

    ghost predicate Valid()
      reads this
    {
      DistinctKeys(elements)
    }

    constructor()
      ensures Valid() && elements == []
    {
      elements := [];
    }

    /** putElement: inserts the key at the end, or overwrites its element in place. */
    method PutElement(key: string, element: Json)
      requires Valid()
      modifies this
      ensures Valid() && elements == Put(old(elements), key, element)
    {
      elements := Put(elements, key, element);
    }

    /** removeElement: the key's entry disappears; the others keep their order. */
    method RemoveElement(key: string)
      requires Valid()
      modifies this
      ensures Valid() && elements == Remove(old(elements), key)
    {
      elements := Remove(elements, key);
    }

    /** getSize: the number of entries, which is the number of distinct keys. */
    function GetSize(): (n: nat)
      reads this
      requires Valid()
      ensures n == |Keys(elements)|
    {
      SizeCountsKeys(elements);
      |elements|
    }

    /** getElement: the element stored under key, or null. */
    function GetElement(key: string): (r: Option<Json>)
      reads this
      ensures r.Some? <==> key in Keys(elements)
      ensures r.Some? ==> exists i :: 0 <= i < |elements| && elements[i] == Member(key, r.value)
    {
      var i := Find(elements, key);
      if i >= 0 then Some(elements[i].value) else None
    }

    /** getString: the value of a JsonString under key. */
    function GetString(key: string): (r: Result<string>)
      reads this
      ensures r.Ok? <==> GetElement(key).Some? && GetElement(key).value.JString?
      ensures r.Ok? ==> GetElement(key) == Some(JString(r.value))
      ensures r.Fail? ==> r.exc == FormatException
    {
      StringIn(elements, key)
    }

    /** getBoolean: the value of a JsonBoolean under key. */
    function GetBoolean(key: string): (r: Result<bool>)
      reads this
      ensures r.Ok? <==> GetElement(key).Some? && GetElement(key).value.JBool?
      ensures r.Ok? ==> GetElement(key) == Some(JBool(r.value))
      ensures r.Fail? ==> r.exc == FormatException
    {
      match GetElement(key)
      case None => Fail(FormatException)
      case Some(e) => if e.JBool? then Ok(e.b) else Fail(FormatException)
    }

    /** getInt: only a number that the parser made an Integer. */
    function GetInt(key: string): (r: Result<int>)
      reads this
      ensures r.Ok? <==> GetElement(key).Some? && GetElement(key).value.JInt?
      ensures r.Ok? ==> GetElement(key) == Some(JInt(r.value))
      ensures r.Fail? ==> r.exc == FormatException
    {
      IntIn(elements, key)
    }

    /** getLong: an Integer or a Long number, widened to long. */
    function GetLong(key: string): (r: Result<int>)
      reads this
      ensures r.Ok? <==> GetElement(key).Some? && (GetElement(key).value.JInt? || GetElement(key).value.JLong?)
      ensures r.Ok? ==> GetElement(key) == Some(JInt(r.value)) || GetElement(key) == Some(JLong(r.value))
      ensures r.Fail? ==> r.exc == FormatException
    {
      match GetElement(key)
      case None => Fail(FormatException)
      case Some(e) =>
        if e.JInt? then Ok(e.i) else if e.JLong? then Ok(e.l) else Fail(FormatException)
    }

    /** getDouble: only a number that the parser made a Double (its text). */
    function GetDouble(key: string): (r: Result<string>)
      reads this
      ensures r.Ok? <==> GetElement(key).Some? && GetElement(key).value.JDouble?
      ensures r.Ok? ==> GetElement(key) == Some(JDouble(r.value))
      ensures r.Fail? ==> r.exc == FormatException
    {
      match GetElement(key)
      case None => Fail(FormatException)
      case Some(e) => if e.JDouble? then Ok(e.text) else Fail(FormatException)
    }

    /** getList: the JsonList under key. */
    function GetList(key: string): (r: Result<seq<Json>>)
      reads this
      ensures r.Ok? <==> GetElement(key).Some? && GetElement(key).value.JList?
      ensures r.Ok? ==> GetElement(key) == Some(JList(r.value))
      ensures r.Fail? ==> r.exc == FormatException
    {
      ListIn(elements, key)
    }

    /** getObject: the JsonObject under key. */
    function GetObject(key: string): (r: Result<seq<Member>>)
      reads this
      ensures r.Ok? <==> GetElement(key).Some? && GetElement(key).value.JObject?
      ensures r.Ok? ==> GetElement(key) == Some(JObject(r.value))
      ensures r.Fail? ==> r.exc == FormatException
    {
      match GetElement(key)
      case None => Fail(FormatException)
      case Some(e) => if e.JObject? then Ok(e.members) else Fail(FormatException)
    }

    /** equals: map equality of the entries, so the order of keys does not matter. */
    predicate Equals(other: JsonObject)
      reads this, other
    {
      Equiv(JObject(elements), JObject(other.elements))
    }

    /** toString: "{}" when empty, else each entry as "key": value followed by
        ", ", with the last ", " deleted and " }" appended. */
    method ToText() returns (text: string)
      ensures text == ToString(JObject(elements))
    {
      if |elements| == 0 {
        return "{}";
      }
      var es := elements;
      ghost var parts := seq(|es|, k requires 0 <= k < |es| => MemberText(es[k].key, ToString(es[k].value)));
      var result := "{ ";
      var i := 0;
      while i < |elements|
        invariant 0 <= i <= |elements|
        invariant JoinedSoFar(result, "{ ", parts, i, ", ")
      {
        var entry := "\"" + es[i].key + "\": " + ToString(es[i].value);
        assert entry == parts[i];
        JoinedStep(result, "{ ", parts, i, ", ");
        result := result + entry + ", ";
        i := i + 1;
      }
      JoinedDone(result, "{ ", parts, ", ");
      result := result[..|result| - 2];
      text := result + " }";
    }
  }

  /** Putting an element under an existing key keeps the entry count; a new
      key adds one entry, at the end. */
  lemma PutElementSize(ms: seq<Member>, key: string, v: Json)
    requires DistinctKeys(ms)
    ensures |Put(ms, key, v)| == if key in Keys(ms) then |ms| else |ms| + 1
    ensures key !in Keys(ms) ==> Put(ms, key, v)[|ms|] == Member(key, v)
  {
  }

  /** Two objects that received the same entries in different orders are equal. */
  lemma EqualsIgnoresOrder(a: JsonObject, b: JsonObject)
    requires a.Valid() && b.Valid()
    requires forall i :: 0 <= i < |a.elements| ==> WellFormed(a.elements[i].value)
    requires multiset(a.elements) == multiset(b.elements)
    ensures a.Equals(b)
  {
    ObjectEquivIgnoresOrder(a.elements, b.elements);
  }
}
