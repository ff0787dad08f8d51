/**
 * The row sequence one upload produces for a tree, as a pure function of the
 * tree, the first id and the parent id: one row per element, in pre-order,
 * ids counted up from the first one, non-element nodes skipped.
 */
module Flatten {
  import opened Wrappers
  import opened XmlDom
  import opened Rows

  /** The rows of the tree rooted at `n`; a non-element yields none. */
  function Preorder(n: Node, firstId: int, parentId: Option<int>, prov: Provenance): seq<Row>
  {
    match n
    case Element(_, _, children) =>
      [MakeRow(n, firstId, parentId, prov)] + ChildRows(children, firstId + 1, firstId, prov)
    case _ => []
  }

  /** The rows of the trees rooted at `nodes`, siblings in document order, all under `parentId`. */
  function ChildRows(nodes: seq<Node>, firstId: int, parentId: int, prov: Provenance): seq<Row>
  {
    if |nodes| == 0 then []
    else
      var before := ChildRows(nodes[..|nodes| - 1], firstId, parentId, prov);
      before + Preorder(nodes[|nodes| - 1], firstId + |before|, Some(parentId), prov)
  }

  /**
   * One row per element: the rows of a tree number exactly its elements.
   * PreorderDescribesElements restates this count alongside what each row
   * holds; this lemma is the count alone, which the walk's proofs use.
   */
  lemma {:induction false} PreorderLength(n: Node, firstId: int, parentId: Option<int>, prov: Provenance)
    ensures |Preorder(n, firstId, parentId, prov)| == |Elements(n)|
    decreases n, 1
  {
    if n.Element? {
      ChildRowsLength(n.children, firstId + 1, firstId, prov);
    }
  }

  lemma {:induction false} ChildRowsLength(nodes: seq<Node>, firstId: int, parentId: int, prov: Provenance)
    ensures |ChildRows(nodes, firstId, parentId, prov)| == |ElementsOf(nodes)|
    decreases nodes, 0
  {
    if |nodes| > 0 {
      var init, last := nodes[..|nodes| - 1], nodes[|nodes| - 1];
      var before := ChildRows(init, firstId, parentId, prov);
      var after := Preorder(last, firstId + |before|, Some(parentId), prov);
      assert ChildRows(nodes, firstId, parentId, prov) == before + after;
      assert ElementsOf(nodes) == ElementsOf(init) + Elements(last);
      ChildRowsLength(init, firstId, parentId, prov);
      PreorderLength(last, firstId + |before|, Some(parentId), prov);
    }
  }

  /**
   * Row k is the row of the k-th element in pre-order and carries id
   * firstId + k: ids are dense, increasing and assigned in visiting order,
   * and every row carries the upload's file name and modification time.
   */
  lemma {:induction false} PreorderDescribesElements(n: Node, firstId: int, parentId: Option<int>, prov: Provenance)
    ensures |Preorder(n, firstId, parentId, prov)| == |Elements(n)|
    ensures forall k :: 0 <= k < |Elements(n)| ==>
      Describes(Preorder(n, firstId, parentId, prov)[k], Elements(n)[k], firstId + k, prov)
    decreases n, 1
  {
    match n
    case Element(_, _, children) =>
      ChildRowsDescribeElements(children, firstId + 1, firstId, prov);
      var rows, es := Preorder(n, firstId, parentId, prov), Elements(n);
      forall k | 0 <= k < |es| ensures Describes(rows[k], es[k], firstId + k, prov) {
        if k > 0 {
          assert rows[k] == ChildRows(children, firstId + 1, firstId, prov)[k - 1];
          assert es[k] == ElementsOf(children)[k - 1];
        }
      }
    case _ =>
  }

  lemma {:induction false} ChildRowsDescribeElements(nodes: seq<Node>, firstId: int, parentId: int, prov: Provenance)
    ensures |ChildRows(nodes, firstId, parentId, prov)| == |ElementsOf(nodes)|
    ensures forall k :: 0 <= k < |ElementsOf(nodes)| ==>
      Describes(ChildRows(nodes, firstId, parentId, prov)[k], ElementsOf(nodes)[k], firstId + k, prov)
    decreases nodes, 0
  {
    if |nodes| > 0 {
      var init, last := nodes[..|nodes| - 1], nodes[|nodes| - 1];
      ChildRowsDescribeElements(init, firstId, parentId, prov);
      var before := ChildRows(init, firstId, parentId, prov);
      var after := Preorder(last, firstId + |before|, Some(parentId), prov);
      PreorderDescribesElements(last, firstId + |before|, Some(parentId), prov);
      var rows, es := ChildRows(nodes, firstId, parentId, prov), ElementsOf(nodes);
      assert rows == before + after;
      assert es == ElementsOf(init) + Elements(last);
      forall k | 0 <= k < |es| ensures Describes(rows[k], es[k], firstId + k, prov) {
        if k < |before| {
          assert rows[k] == before[k] && es[k] == ElementsOf(init)[k];
        } else {
          assert rows[k] == after[k - |before|] && es[k] == Elements(last)[k - |before|];
        }
      }
    }
  }

  /**
   * The first row has the parent id it was given; every later row points
   * at a row emitted earlier in the same sequence (never forward).
   */
  lemma {:induction false} PreorderParents(n: Node, firstId: int, parentId: Option<int>, prov: Provenance)
    requires n.Element?
    ensures Preorder(n, firstId, parentId, prov)[0].parentId == parentId
    ensures forall k :: 1 <= k < |Preorder(n, firstId, parentId, prov)| ==>
      Preorder(n, firstId, parentId, prov)[k].parentId.Some? &&
      firstId <= Preorder(n, firstId, parentId, prov)[k].parentId.value < firstId + k
    decreases n, 1
  {
    ChildRowsParents(n.children, firstId + 1, firstId, prov);
    var rows := Preorder(n, firstId, parentId, prov);
    forall k | 1 <= k < |rows|
      ensures rows[k].parentId.Some? && firstId <= rows[k].parentId.value < firstId + k
    {
      assert rows[k] == ChildRows(n.children, firstId + 1, firstId, prov)[k - 1];
    }
  }

  /** A sibling run's rows point either at the enclosing element or at an earlier row of the run. */
  lemma {:induction false} ChildRowsParents(nodes: seq<Node>, firstId: int, parentId: int, prov: Provenance)
    ensures forall k :: 0 <= k < |ChildRows(nodes, firstId, parentId, prov)| ==>
      ChildRows(nodes, firstId, parentId, prov)[k].parentId.Some? &&
      (ChildRows(nodes, firstId, parentId, prov)[k].parentId.value == parentId ||
       firstId <= ChildRows(nodes, firstId, parentId, prov)[k].parentId.value < firstId + k)
    decreases nodes, 0
  {
    if |nodes| > 0 {
      var init, last := nodes[..|nodes| - 1], nodes[|nodes| - 1];
      ChildRowsParents(init, firstId, parentId, prov);
      var before := ChildRows(init, firstId, parentId, prov);
      var after := Preorder(last, firstId + |before|, Some(parentId), prov);
      if last.Element? {
        PreorderParents(last, firstId + |before|, Some(parentId), prov);
      }
      var rows := ChildRows(nodes, firstId, parentId, prov);
      assert rows == before + after;
      forall k | 0 <= k < |rows|
        ensures rows[k].parentId.Some? &&
          (rows[k].parentId.value == parentId || firstId <= rows[k].parentId.value < firstId + k)
      {
        if k < |before| {
          assert rows[k] == before[k];
        } else {
          assert rows[k] == after[k - |before|];
        }
      }
    }
  }

  /** The rows of a prefix of the siblings are a prefix of the rows of all of them. */
  lemma {:induction false} ChildRowsPrefix(nodes: seq<Node>, i: nat, firstId: int, parentId: int, prov: Provenance)
    requires i <= |nodes|
    ensures ChildRows(nodes[..i], firstId, parentId, prov) <= ChildRows(nodes, firstId, parentId, prov)
    decreases |nodes| - i
  {
    if i < |nodes| {
      ChildRowsPrefix(nodes, i + 1, firstId, parentId, prov);
      assert nodes[..i + 1][..i] == nodes[..i];
    } else {
      assert nodes[..i] == nodes;
    }
  }

  /** Visiting one more sibling appends the rows of its subtree. */
  lemma ChildRowsSnoc(nodes: seq<Node>, i: nat, firstId: int, parentId: int, prov: Provenance)
    requires i < |nodes|
    ensures ChildRows(nodes[..i + 1], firstId, parentId, prov) ==
      ChildRows(nodes[..i], firstId, parentId, prov) +
      Preorder(nodes[i], firstId + |ChildRows(nodes[..i], firstId, parentId, prov)|, Some(parentId), prov)
  {
    assert nodes[..i + 1][..i] == nodes[..i];
    assert nodes[..i + 1][i] == nodes[i];
  }

  /** The subtree of the i-th sibling occupies the rows right after those of the earlier siblings. */
  lemma SiblingBlock(nodes: seq<Node>, i: nat, firstId: int, parentId: int, prov: Provenance)
    requires i < |nodes|
    ensures var before := ChildRows(nodes[..i], firstId, parentId, prov);
      var block := Preorder(nodes[i], firstId + |before|, Some(parentId), prov);
      var all := ChildRows(nodes, firstId, parentId, prov);
      && |before| + |block| <= |all|
      && all[|before|..|before| + |block|] == block
  {
    var before := ChildRows(nodes[..i], firstId, parentId, prov);
    var block := Preorder(nodes[i], firstId + |before|, Some(parentId), prov);
    var all := ChildRows(nodes, firstId, parentId, prov);
    ChildRowsPrefix(nodes, i + 1, firstId, parentId, prov);
    ChildRowsSnoc(nodes, i, firstId, parentId, prov);
    assert all[..|before| + |block|] == before + block;
    assert all[|before|..|before| + |block|] == (before + block)[|before|..];
  }

  /**
   * The subtree of the i-th child of an element occupies one contiguous,
   * non-empty block of the element's rows, starting right after the row of
   * the element and the rows of the earlier children.
   */
  lemma SubtreeBlock(n: Node, i: nat, firstId: int, parentId: Option<int>, prov: Provenance)
    requires n.Element? && i < |n.children| && n.children[i].Element?
    ensures var start := 1 + |ElementsOf(n.children[..i])|;
      var rows := Preorder(n, firstId, parentId, prov);
      var block := Preorder(n.children[i], firstId + start, Some(firstId), prov);
      && |block| >= 1
      && start + |block| <= |rows|
      && rows[start..start + |block|] == block
  {
    var children := n.children;
    var rows := Preorder(n, firstId, parentId, prov);
    var before := ChildRows(children[..i], firstId + 1, firstId, prov);
    var block := Preorder(children[i], firstId + 1 + |before|, Some(firstId), prov);
    var all := ChildRows(children, firstId + 1, firstId, prov);
    ChildRowsLength(children[..i], firstId + 1, firstId, prov);
    SiblingBlock(children, i, firstId + 1, firstId, prov);
    assert rows == [rows[0]] + all;
    assert rows[1 + |before|..1 + |before| + |block|] == all[|before|..|before| + |block|];
  }

  /**
   * The parent id of a child element's row is the id of the enclosing
   * element's row. Since the child's block is its own Preorder, applying
   * this at every level gives each row the id of its enclosing element.
   */
  lemma ChildRowPointsAtParent(n: Node, i: nat, firstId: int, parentId: Option<int>, prov: Provenance)
    requires n.Element? && i < |n.children| && n.children[i].Element?
    ensures var start := 1 + |ElementsOf(n.children[..i])|;
      var rows := Preorder(n, firstId, parentId, prov);
      && start < |rows|
      && rows[start].id == firstId + start
      && rows[start].parentId == Some(rows[0].id)
  {
    var start := 1 + |ElementsOf(n.children[..i])|;
    var rows := Preorder(n, firstId, parentId, prov);
    var block := Preorder(n.children[i], firstId + start, Some(firstId), prov);
    SubtreeBlock(n, i, firstId, parentId, prov);
    PreorderParents(n.children[i], firstId + start, Some(firstId), prov);
    PreorderDescribesElements(n.children[i], firstId + start, Some(firstId), prov);
    assert rows[start] == rows[start..start + |block|][0] == block[0];
    assert Describes(block[0], Elements(n.children[i])[0], firstId + start, prov);
  }

  /** Children that are not elements (text, comments, processing instructions) produce no rows. */
  lemma {:induction false} NonElementsEmitNothing(nodes: seq<Node>, firstId: int, parentId: int, prov: Provenance)
    requires forall k :: 0 <= k < |nodes| ==> !nodes[k].Element?
    ensures ChildRows(nodes, firstId, parentId, prov) == []
  {
    if |nodes| > 0 {
      NonElementsEmitNothing(nodes[..|nodes| - 1], firstId, parentId, prov);
    }
  }
}
