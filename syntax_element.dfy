/** SyntaxElement of the simple AST: a code element with nested elements, a type,
    and for every nested element a relation string naming its role. The nested
    elements and their relations are two lists kept in step. */
module SyntaxElements {
  import opened Wrappers
  import opened Formulas

  /** The source file of an element nobody has placed yet. */
  const UNKNOWN_FILE: string := "<unknown>"

  /** ISyntaxElementType: a literal with its text, an error with its message, or one
      of the named SyntaxElementTypes constants (by name). */
  datatype ElementType = Literal(content: string) | Error(message: string) | Named(name: string)

  /** Everything an element carries apart from its nested elements and relations. */
  datatype Header = Header(
    lineStart: int,
    lineEnd: int,
    sourceFile: string,
    condition: Option<Formula>,
    presenceCondition: Formula,
    elementType: ElementType)

  /** An element as the CSV format stores it: its header and the relations of its
      nested elements. */
  datatype ElementData = ElementData(header: Header, relations: seq<string>)

  /** The relations after n nested elements were added one by one with
      addNestedElement(element) to an element whose relations were set to rel:
      each added element without a pre-set relation gets "". */
  function Padded(rel: seq<string>, n: nat): (r: seq<string>)
    ensures |r| == if |rel| < n then n else |rel|
    ensures forall i :: 0 <= i < |r| ==> r[i] == if i < |rel| then rel[i] else ""
  {
    if |rel| < n then rel + seq(n - |rel|, _ => "") else rel
  }

  /** Adding one more nested element extends the padding by one step. */
  lemma PaddedStep(rel: seq<string>, n: nat)
    ensures Padded(rel, n + 1) == if |Padded(rel, n)| < n + 1 then Padded(rel, n) + [""] else Padded(rel, n)
  {
    var a := Padded(rel, n + 1);
    var b := if |Padded(rel, n)| < n + 1 then Padded(rel, n) + [""] else Padded(rel, n);
    assert |a| == |b|;
    assert forall i :: 0 <= i < |a| ==> a[i] == b[i];
  }

  /** The index of the first relation equal to relation, or |rels| when there is none. */
  function FirstWithRelation(rels: seq<string>, relation: string): (i: nat)
    ensures i <= |rels|
    ensures i < |rels| ==> rels[i] == relation
    ensures forall j :: 0 <= j < i ==> rels[j] != relation
  {
    if rels == [] then 0
    else if rels[0] == relation then 0
    else 1 + FirstWithRelation(rels[1..], relation)
  }

  class SyntaxElement {
    var nested: seq<SyntaxElement>
    var relations: seq<string>
    const elementType: ElementType
    var condition: Option<Formula>
    var presenceCondition: Formula
    var lineStart: int
    var lineEnd: int
    var sourceFile: string

    /** Every nested element has a relation; relations set for deserialization may
        run ahead of the nested elements added so far. */
    ghost predicate Valid()
      reads this
    {
      |nested| <= |relations|
    }

    function Head(): Header
      reads this
    {
      Header(lineStart, lineEnd, sourceFile, condition, presenceCondition, elementType)
    }

    /** A new element: no nested elements and no relations, at an unknown place. */
    constructor (elementType: ElementType, condition: Option<Formula>, presenceCondition: Formula)
      ensures Valid() && nested == [] && relations == []
      ensures Head() == Header(-1, -1, UNKNOWN_FILE, condition, presenceCondition, elementType)
    {
      this.elementType := elementType;
      this.condition := condition;
      this.presenceCondition := presenceCondition;
      lineStart := -1;
      lineEnd := -1;
      sourceFile := UNKNOWN_FILE;
      nested := [];
      relations := [];
    }

    /** addNestedElement(element): the element is appended; it takes the pre-set
        relation at its position when there is one, else the relation "". */
    method AddNestedElement(element: SyntaxElement)
      requires Valid()
      modifies this
      ensures Valid()
      ensures nested == old(nested) + [element]
      ensures relations == if |old(relations)| == |old(nested)| then old(relations) + [""] else old(relations)
      ensures Head() == old(Head())
    {
      nested := nested + [element];
      if |relations| < |nested| {
        relations := relations + [""];
      }
    }

    /** addNestedElement(element, relation): both lists grow by one. */
    method AddNestedElementWithRelation(element: SyntaxElement, relation: string)
      requires Valid()
      modifies this
      ensures Valid()
      ensures nested == old(nested) + [element]
      ensures relations == old(relations) + [relation]
      ensures Head() == old(Head())
    {
      nested := nested + [element];
      relations := relations + [relation];
    }

    /** setDeserializedRelations: the relations of the nested elements still to be
        added, set before any is added. */
    method SetDeserializedRelations(relation: seq<string>)
      requires nested == []
      modifies this
      ensures Valid()
      ensures nested == [] && relations == relation
      ensures Head() == old(Head())
    {
      relations := relation;
    }

    /** getRelation(index): the relation at index, or IndexOutOfBoundsException. */
    function GetRelation(index: int): (r: Result<string>)
      reads this
      ensures r.Ok? <==> 0 <= index < |relations|
      ensures r.Fail? ==> r.exc == IndexOutOfBoundsException
      ensures r.Ok? ==> r.value == relations[index]
    {
      if 0 <= index < |relations| then Ok(relations[index]) else Fail(IndexOutOfBoundsException)
    }

    /** getNestedElement(relation): the first nested element whose relation is the
        given one, or null when no nested element has it. */
    method GetNestedElement(relation: string) returns (r: SyntaxElement?)
      requires Valid()
      ensures r == null <==> forall j :: 0 <= j < |nested| ==> relations[j] != relation
      ensures r != null ==> exists j :: 0 <= j < |nested| && r == nested[j] && relations[j] == relation
      ensures var i := FirstWithRelation(relations[..|nested|], relation);
        r == if i == |nested| then null else nested[i]
    {
      var i := 0;
      while i < |nested|
        invariant 0 <= i <= |nested|
        invariant forall j :: 0 <= j < i ==> relations[j] != relation
      {
        if relations[i] == relation {
          break;
        }
        i := i + 1;
      }
      FirstWithRelationIs(relations[..|nested|], relation, i);
      r := if i == |nested| then null else nested[i];
    }
  }

  /** FirstWithRelation is characterised by its two properties. */
  lemma FirstWithRelationIs(rels: seq<string>, relation: string, i: nat)
    requires i <= |rels| && (i < |rels| ==> rels[i] == relation)
    requires forall j :: 0 <= j < i ==> rels[j] != relation
    ensures FirstWithRelation(rels, relation) == i
  {
  }
}
