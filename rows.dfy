/**
 * The row the service inserts for one XML element, and the attribute
 * dictionary it carries.
 */
module Rows {
  import opened Wrappers
  import opened XmlDom

  /** The file's last write time, already converted to UTC, in clock ticks. */
  type Timestamp = int

  /** The per-file fields every row of one upload carries. */
  datatype Provenance = Provenance(fileName: string, modificationTime: Timestamp)

  /** One inserted row: the columns id, parent_id, tag, attributes, text, file_name, modification_time. */
  datatype Row = Row(
    id: int,
    parentId: Option<int>,
    tag: string,
    attributes: map<string, string>,
    text: string,
    fileName: string,
    modificationTime: Timestamp)

  /**
   * The dictionary built by assigning every attribute in order, so that a
   * later attribute of the same name overwrites an earlier one.
   */
  function AttributeMap(attributes: seq<Attribute>): map<string, string>
  {
    if |attributes| == 0 then map[]
    else
      var last := attributes[|attributes| - 1];
      AttributeMap(attributes[..|attributes| - 1])[last.name := last.value]
  }

  /** The attribute names of an element. */
  function Names(attributes: seq<Attribute>): set<string>
  {
    set a | a in attributes :: a.name
  }

  /** Well-formed XML never repeats an attribute name on one element. */
  predicate DistinctNames(attributes: seq<Attribute>)
  {
    forall i, j :: 0 <= i < j < |attributes| ==> attributes[i].name != attributes[j].name
  }

  /** The loop that fills the attribute dictionary, one attribute at a time. */
  method BuildAttributes(attributes: seq<Attribute>) returns (dict: map<string, string>)
    ensures dict == AttributeMap(attributes)
  {
    dict := map[];
    var i := 0;
    while i < |attributes|
      invariant 0 <= i <= |attributes|
      invariant dict == AttributeMap(attributes[..i])
    {
      assert attributes[..i + 1][..i] == attributes[..i];
      dict := dict[attributes[i].name := attributes[i].value];
      i := i + 1;
    }
    assert attributes[..i] == attributes;
  }

  /** The dictionary holds exactly the element's attribute names; no attributes gives the empty map. */
  lemma {:induction false} AttributeMapKeys(attributes: seq<Attribute>)
    ensures AttributeMap(attributes).Keys == Names(attributes)
    ensures AttributeMap(attributes) == map[] <==> |attributes| == 0
  {
    if |attributes| > 0 {
      var init, last := attributes[..|attributes| - 1], attributes[|attributes| - 1];
      AttributeMapKeys(init);
      assert attributes == init + [last];
      assert Names(attributes) == Names(init) + {last.name};
      assert last.name in AttributeMap(attributes).Keys;
    }
  }

  /** Every name is mapped to the value of the LAST attribute carrying it. */
  lemma {:induction false} AttributeMapLastWins(attributes: seq<Attribute>, k: nat)
    requires k < |attributes|
    requires forall j :: k < j < |attributes| ==> attributes[j].name != attributes[k].name
    ensures attributes[k].name in AttributeMap(attributes)
    ensures AttributeMap(attributes)[attributes[k].name] == attributes[k].value
  {
    if k < |attributes| - 1 {
      AttributeMapLastWins(attributes[..|attributes| - 1], k);
    }
  }

  /** With distinct names, each attribute name is mapped to its own value. */
  lemma AttributeMapExact(attributes: seq<Attribute>)
    requires DistinctNames(attributes)
    ensures AttributeMap(attributes).Keys == Names(attributes)
    ensures forall k :: 0 <= k < |attributes| ==> AttributeMap(attributes)[attributes[k].name] == attributes[k].value
  {
    AttributeMapKeys(attributes);
    forall k | 0 <= k < |attributes|
      ensures AttributeMap(attributes)[attributes[k].name] == attributes[k].value
    {
      AttributeMapLastWins(attributes, k);
    }
  }

  /** The row the service builds for element `e` (its Name, attributes and trimmed InnerText). */
  function MakeRow(e: Node, id: int, parentId: Option<int>, prov: Provenance): Row
    requires e.Element?
  {
    Row(id, parentId, e.name, AttributeMap(e.attributes), Trim(InnerText(e)),
        prov.fileName, prov.modificationTime)
  }

  /** `row` is the row of element `e` with id `id` in the upload of `prov`, whatever its parent. */
  predicate Describes(row: Row, e: Node, id: int, prov: Provenance)
    requires e.Element?
  {
    row == MakeRow(e, id, row.parentId, prov)
  }
}
