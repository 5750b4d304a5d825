/** JsonList: a JSON list backed by an ArrayList; index operations outside the
    list raise IndexOutOfBoundsException. */
module JsonLists {
  import opened Wrappers
  import opened JavaText
  import opened JsonValues

  class JsonList {
    /** The ArrayList's elements in order. */
    var elements: seq<Json>

    constructor()
      ensures elements == []
    {
      elements := [];
    }

    /** addElement: appends at the end. */
    method AddElement(element: Json)
      modifies this
      ensures elements == old(elements) + [element]
    {
      elements := elements + [element];
    }

    /** setElement: replaces the element at index; a bad index changes nothing
        and raises IndexOutOfBoundsException. */
    method SetElement(index: int, element: Json) returns (r: Result<()>)
      modifies this
      ensures r.Ok? <==> 0 <= index < |old(elements)|
      ensures r.Ok? ==> elements == old(elements)[index := element] && |elements| == |old(elements)|
      ensures r.Fail? ==> elements == old(elements) && r.exc == IndexOutOfBoundsException
    {
      if index < 0 || index >= |elements| {
        return Fail(IndexOutOfBoundsException);
      }
      elements := elements[index := element];
      r := Ok(());
    }

    /** removeElement: drops the element at index, later ones move one place
        to the front; a bad index raises IndexOutOfBoundsException. */
    method RemoveElement(index: int) returns (r: Result<()>)
      modifies this
      ensures r.Ok? <==> 0 <= index < |old(elements)|
      ensures r.Ok? ==> elements == old(elements)[..index] + old(elements)[index + 1..]
      ensures r.Ok? ==> |elements| == |old(elements)| - 1
      ensures r.Ok? ==> forall k :: index <= k < |elements| ==> elements[k] == old(elements)[k + 1]
      ensures r.Fail? ==> elements == old(elements) && r.exc == IndexOutOfBoundsException
    {
      if index < 0 || index >= |elements| {
        return Fail(IndexOutOfBoundsException);
      }
      elements := elements[..index] + elements[index + 1..];
      r := Ok(());
    }

    /** getElement: the element at index. */
    function GetElement(index: int): (r: Result<Json>)
      reads this
      ensures r.Ok? <==> 0 <= index < |elements|
      ensures r.Ok? ==> r.value == elements[index]
      ensures r.Fail? ==> r.exc == IndexOutOfBoundsException
    {
      if 0 <= index < |elements| then Ok(elements[index]) else Fail(IndexOutOfBoundsException)
    }

    /** getSize: the number of elements. */
    function GetSize(): (n: nat)
      reads this
      ensures n == |elements|
    {
      |elements|
    }

    /** equals: element-wise equality in order. */
    predicate Equals(other: JsonList)
      reads this, other
    {
      Equiv(JList(elements), JList(other.elements))
    }

    /** toString: "[]" when empty, else "[ " then the elements with ", " between
        consecutive ones, then " ]". */
    method ToText() returns (text: string)
      ensures text == ToString(JList(elements))
    {
      if |elements| == 0 {
        return "[]";
      }
      var es := elements;
      ghost var parts := seq(|es|, k requires 0 <= k < |es| => ToString(es[k]));
      var result := "[ ";
      var i := 0;
      while i < |es|
        invariant 0 <= i <= |es|
        invariant i < |es| ==> JoinedSoFar(result, "[ ", parts, i, ", ")
        invariant i == |es| ==> result == "[ " + Join(parts, ", ")
      {
        if i + 1 < |es| {
          JoinedStep(result, "[ ", parts, i, ", ");
        } else {
          JoinedLast(result, "[ ", parts, ", ");
        }
        result := result + ToString(es[i]);
        if i != |es| - 1 {
          result := result + ", ";
        }
        i := i + 1;
      }
      text := result + " ]";
    }
  }

  /** List equality is order-sensitive: two different scalars in swapped order
      give unequal lists. */
  lemma EqualsOrderSensitive(a: Json, b: Json)
    requires !a.JList? && !a.JObject? && a != b
    ensures !Equiv(JList([a, b]), JList([b, a]))
  {
    assert [a, b][0] == a && [b, a][0] == b;
  }
}
