/**
 * The service that flattens one XML document into rows and inserts them into
 * a table in batches: the recursive element walk with its shared id counter
 * and shared row buffer, and the final flush of a partial batch.
 */
module BigQuery {
  import opened Wrappers
  import opened XmlDom
  import opened Rows
  import opened Flatten
  import opened Batching

  /**
   * The destination table, seen only through its insert call. `received`
   * holds every batch handed to InsertRows, in call order; `rejected` says
   * which calls (numbered from 0) report insert errors.
   */
  class TableSink {
    var received: seq<seq<Row>>
    const rejected: set<nat>

    constructor (rejected: set<nat>)
      ensures received == [] && this.rejected == rejected
    {
      received := [];
      this.rejected := rejected;
    }

    /** Hands one batch to the table; `ok` is false when the table reports errors for it. */
    method InsertRows(rows: seq<Row>) returns (ok: bool)
      modifies this
      ensures received == old(received) + [rows]
      ensures ok <==> |old(received)| !in rejected
    {
      ok := |received| !in rejected;
      received := received + [rows];
    }
  }

  /** What one upload threads through the recursive walk: the id counter passed by reference and the row list. */
  class ParseState {
    var idCounter: int
    var rowsBatch: seq<Row>

    constructor (firstId: int)
      ensures idCounter == firstId && rowsBatch == []
    {
      idCounter := firstId;
      rowsBatch := [];
    }
  }

  /**
   * What one upload with a root element hands over when every insert is
   * accepted: the batches joined give the root's pre-order rows, one per
   * element; row k carries id k + 1 and the file's name and modification
   * time; the root row has no parent and every other row's parent was
   * emitted before it. That this parent is the enclosing element's row is
   * Flatten.ChildRowPointsAtParent, applied level by level through
   * Flatten.SubtreeBlock.
   */
  lemma UploadedRows(root: Node, prov: Provenance)
    requires root.Element?
    ensures var rows := Preorder(root, 1, None, prov);
      && Concat(Batches(rows)) == rows
      && |rows| == |Elements(root)|
      && (forall k :: 0 <= k < |rows| ==>
            rows[k].id == k + 1 && rows[k].fileName == prov.fileName && rows[k].modificationTime == prov.modificationTime)
      && rows[0].parentId == None
      && (forall k :: 1 <= k < |rows| ==> rows[k].parentId.Some? && 1 <= rows[k].parentId.value < rows[k].id)
  {
    var rows := Preorder(root, 1, None, prov);
    BatchesKeepEveryItem(rows);
    PreorderDescribesElements(root, 1, None, prov);
    PreorderParents(root, 1, None, prov);
    forall k | 0 <= k < |rows|
      ensures rows[k].id == k + 1 && rows[k].fileName == prov.fileName && rows[k].modificationTime == prov.modificationTime
    {
      assert Describes(rows[k], Elements(root)[k], 1 + k, prov);
    }
  }

  /**
   * The state of the walk over `children` after the first i of them: the
   * counter is past their rows, the buffer and the sink hold what feeding
   * their rows produced, and every insert so far was accepted.
   */
  ghost predicate WalkedSoFar(children: seq<Node>, i: nat, firstId: int, parentId: int, prov: Provenance,
                              buffer0: seq<Row>, received0: seq<seq<Row>>, rejected: set<nat>,
                              counter: int, pending: seq<Row>, received: seq<seq<Row>>)
    requires i <= |children|
  {
    var done := ChildRows(children[..i], firstId, parentId, prov);
    var acc := Feed(buffer0, done);
    && counter == firstId + |done|
    && pending == acc.pending
    && received == received0 + acc.flushed
    && AllAccepted(|received0|, rejected, |acc.flushed|)
  }

  /** A child that is not an element is skipped: the walk advances with nothing emitted. */
  lemma ChildSkipped(children: seq<Node>, i: nat, firstId: int, parentId: int, prov: Provenance,
                     buffer0: seq<Row>, received0: seq<seq<Row>>, rejected: set<nat>,
                     counter: int, pending: seq<Row>, received: seq<seq<Row>>)
    requires i < |children| && !children[i].Element?
    requires WalkedSoFar(children, i, firstId, parentId, prov, buffer0, received0, rejected, counter, pending, received)
    ensures WalkedSoFar(children, i + 1, firstId, parentId, prov, buffer0, received0, rejected, counter, pending, received)
  {
    ChildRowsSnoc(children, i, firstId, parentId, prov);
    var done := ChildRows(children[..i], firstId, parentId, prov);
    assert Preorder(children[i], firstId + |done|, Some(parentId), prov) == [];
    assert ChildRows(children[..i + 1], firstId, parentId, prov) == done;
  }

  /**
   * A child element walked with every insert accepted, from the state
   * (counter0, pending0, sent0) the walk had reached before it: the walk
   * advances past the child's rows.
   */
  lemma ChildWalked(children: seq<Node>, i: nat, firstId: int, parentId: int, prov: Provenance,
                    buffer0: seq<Row>, received0: seq<seq<Row>>, rejected: set<nat>,
                    counter0: int, pending0: seq<Row>, sent0: seq<seq<Row>>,
                    counter: int, pending: seq<Row>, received: seq<seq<Row>>)
    requires i < |children| && children[i].Element?
    requires WalkedSoFar(children, i, firstId, parentId, prov, buffer0, received0, rejected, counter0, pending0, sent0)
    requires var acc := Feed(pending0, Preorder(children[i], counter0, Some(parentId), prov));
      && received == sent0 + Delivered(|sent0|, rejected, acc.flushed)
      && AllAccepted(|sent0|, rejected, |acc.flushed|)
      && counter == counter0 + |Elements(children[i])|
      && pending == acc.pending
    ensures WalkedSoFar(children, i + 1, firstId, parentId, prov, buffer0, received0, rejected, counter, pending, received)
  {
    var done := ChildRows(children[..i], firstId, parentId, prov);
    var block := Preorder(children[i], firstId + |done|, Some(parentId), prov);
    var a := Feed(buffer0, done);
    assert counter0 == firstId + |done| && pending0 == a.pending && sent0 == received0 + a.flushed;
    PreorderLength(children[i], counter0, Some(parentId), prov);
    FeedThenDeliver(|received0|, rejected, buffer0, done, block, received0, received);
    ChildRowsSnoc(children, i, firstId, parentId, prov);
    assert ChildRows(children[..i + 1], firstId, parentId, prov) == done + block;
  }

  /**
   * A child element whose walk, from the state (counter0, pending0, sent0),
   * had an insert rejected: the sink holds what feeding all the children's
   * rows delivers, which is not accepted in full.
   */
  lemma ChildFailed(children: seq<Node>, i: nat, firstId: int, parentId: int, prov: Provenance,
                    buffer0: seq<Row>, received0: seq<seq<Row>>, rejected: set<nat>,
                    counter0: int, pending0: seq<Row>, sent0: seq<seq<Row>>, received: seq<seq<Row>>)
    requires i < |children|
    requires WalkedSoFar(children, i, firstId, parentId, prov, buffer0, received0, rejected, counter0, pending0, sent0)
    requires var acc := Feed(pending0, Preorder(children[i], counter0, Some(parentId), prov));
      && received == sent0 + Delivered(|sent0|, rejected, acc.flushed)
      && !AllAccepted(|sent0|, rejected, |acc.flushed|)
    ensures var acc := Feed(buffer0, ChildRows(children, firstId, parentId, prov));
      && received == received0 + Delivered(|received0|, rejected, acc.flushed)
      && !AllAccepted(|received0|, rejected, |acc.flushed|)
  {
    var done := ChildRows(children[..i], firstId, parentId, prov);
    var block := Preorder(children[i], firstId + |done|, Some(parentId), prov);
    ChildRowsSnoc(children, i, firstId, parentId, prov);
    ChildRowsPrefix(children, i + 1, firstId, parentId, prov);
    FeedThenDeliver(|received0|, rejected, buffer0, done, block, received0, received);
    FailureIsFinal(|received0|, rejected, buffer0, done + block, ChildRows(children, firstId, parentId, prov));
  }

  /**
   * The row of an element fills the buffer and the insert of that batch is
   * rejected: nothing more reaches the sink, whatever the element's children.
   */
  lemma RowRejected(element: Node, firstId: int, parentId: Option<int>, prov: Provenance,
                    buffer0: seq<Row>, received0: seq<seq<Row>>, rejected: set<nat>, received: seq<seq<Row>>)
    requires element.Element?
    requires |buffer0| + 1 >= BatchSize && |received0| in rejected
    requires received == received0 + [buffer0 + [MakeRow(element, firstId, parentId, prov)]]
    ensures var acc := Feed(buffer0, Preorder(element, firstId, parentId, prov));
      && received == received0 + Delivered(|received0|, rejected, acc.flushed)
      && !AllAccepted(|received0|, rejected, |acc.flushed|)
  {
    var row := MakeRow(element, firstId, parentId, prov);
    FeedOne(buffer0, row);
    assert Preorder(element, firstId, parentId, prov) == [row] + ChildRows(element.children, firstId + 1, firstId, prov);
    FailureIsFinal(|received0|, rejected, buffer0, [row], Preorder(element, firstId, parentId, prov));
  }

  /**
   * An element whose row went into the buffer (flushed and accepted, if it
   * filled it), leaving the state (firstId + 1, pending1, sent1), and whose
   * children were then walked: the element's walk is that of feeding its
   * pre-order rows.
   */
  lemma ElementWalked(element: Node, firstId: int, parentId: Option<int>, prov: Provenance,
                      buffer0: seq<Row>, received0: seq<seq<Row>>, rejected: set<nat>,
                      pending1: seq<Row>, sent1: seq<seq<Row>>,
                      counter: int, pending: seq<Row>, received: seq<seq<Row>>, ok: bool)
    requires element.Element?
    requires var a := Feed(buffer0, [MakeRow(element, firstId, parentId, prov)]);
      && sent1 == received0 + a.flushed
      && AllAccepted(|received0|, rejected, |a.flushed|)
      && pending1 == a.pending
    requires var acc := Feed(pending1, ChildRows(element.children, firstId + 1, firstId, prov));
      && received == sent1 + Delivered(|sent1|, rejected, acc.flushed)
      && (ok <==> AllAccepted(|sent1|, rejected, |acc.flushed|))
      && (ok ==> counter == firstId + 1 + |ElementsOf(element.children)| && pending == acc.pending)
    ensures var acc := Feed(buffer0, Preorder(element, firstId, parentId, prov));
      && received == received0 + Delivered(|received0|, rejected, acc.flushed)
      && (ok <==> AllAccepted(|received0|, rejected, |acc.flushed|))
      && (ok ==> counter == firstId + |Elements(element)| && pending == acc.pending)
  {
    var row := MakeRow(element, firstId, parentId, prov);
    var childRows := ChildRows(element.children, firstId + 1, firstId, prov);
    assert Preorder(element, firstId, parentId, prov) == [row] + childRows;
    FeedThenDeliver(|received0|, rejected, buffer0, [row], childRows, received0, received);
    PreorderLength(element, firstId, parentId, prov);
    ChildRowsLength(element.children, firstId + 1, firstId, prov);
  }

  class BigQueryService {
    const client: TableSink

    constructor (client: TableSink)
      ensures this.client == client
    {
      this.client := client;
    }

    /**
     * Emits the rows of `element`'s tree in pre-order, feeding each into
     * the shared buffer and flushing the buffer whenever it reaches
     * BatchSize rows. When every insert succeeds, `ok` holds, the counter
     * has advanced by one per element, the sink has received exactly the
     * batches the buffer flushed and the buffer holds the rest. When an
     * insert is rejected, the walk stops at once: the sink has received the
     * flushed batches up to and including the rejected one, and no more.
     */
    method ParseElement(element: Node, parentId: Option<int>, state: ParseState, prov: Provenance)
      returns (ok: bool)
      requires element.Element?
      modifies state, client
      decreases element
      ensures var acc := Feed(old(state.rowsBatch), Preorder(element, old(state.idCounter), parentId, prov));
        && client.received == old(client.received) + Delivered(|old(client.received)|, client.rejected, acc.flushed)
        && (ok <==> AllAccepted(|old(client.received)|, client.rejected, |acc.flushed|))
        && (ok ==> state.idCounter == old(state.idCounter) + |Elements(element)| && state.rowsBatch == acc.pending)
    {
      ghost var buffer0, received0 := state.rowsBatch, client.received;
      var currentId := state.idCounter;
      state.idCounter := currentId + 1;
      var attributes := BuildAttributes(element.attributes);
      var row := Row(currentId, parentId, element.name, attributes, Trim(InnerText(element)),
                     prov.fileName, prov.modificationTime);
      assert row == MakeRow(element, currentId, parentId, prov);
      FeedOne(buffer0, row);
      state.rowsBatch := state.rowsBatch + [row];
      if |state.rowsBatch| >= BatchSize {
        ok := client.InsertRows(state.rowsBatch);
        if !ok {
          RowRejected(element, currentId, parentId, prov, buffer0, received0, client.rejected, client.received);
          return;
        }
        state.rowsBatch := [];
      }
      ghost var pending1, sent1 := state.rowsBatch, client.received;
      ok := ParseChildren(element.children, currentId, state, prov);
      ElementWalked(element, currentId, parentId, prov, buffer0, received0, client.rejected,
                    pending1, sent1, state.idCounter, state.rowsBatch, client.received, ok);
    }

    /**
     * The walk over an element's child nodes in document order: each child
     * that is an element is walked in turn, the others are skipped, and the
     * walk stops at the first rejected insert. Its effect is that of feeding
     * the children's rows to the buffer.
     */
    method ParseChildren(children: seq<Node>, parentId: int, state: ParseState, prov: Provenance)
      returns (ok: bool)
      modifies state, client
      decreases children
      ensures var acc := Feed(old(state.rowsBatch), ChildRows(children, old(state.idCounter), parentId, prov));
        && client.received == old(client.received) + Delivered(|old(client.received)|, client.rejected, acc.flushed)
        && (ok <==> AllAccepted(|old(client.received)|, client.rejected, |acc.flushed|))
        && (ok ==> state.idCounter == old(state.idCounter) + |ElementsOf(children)| && state.rowsBatch == acc.pending)
    {
      ghost var buffer0, received0, firstId := state.rowsBatch, client.received, state.idCounter;
      ok := true;
      var i := 0;
      while i < |children|
        invariant 0 <= i <= |children|
        invariant WalkedSoFar(children, i, firstId, parentId, prov, buffer0, received0, client.rejected,
                              state.idCounter, state.rowsBatch, client.received)
      {
        if children[i].Element? {
          ghost var counter0, pending0, sent0 := state.idCounter, state.rowsBatch, client.received;
          ok := ParseElement(children[i], Some(parentId), state, prov);
          if !ok {
            ChildFailed(children, i, firstId, parentId, prov, buffer0, received0, client.rejected,
                        counter0, pending0, sent0, client.received);
            return;
          }
          ChildWalked(children, i, firstId, parentId, prov, buffer0, received0, client.rejected,
                      counter0, pending0, sent0, state.idCounter, state.rowsBatch, client.received);
        } else {
          ChildSkipped(children, i, firstId, parentId, prov, buffer0, received0, client.rejected,
                       state.idCounter, state.rowsBatch, client.received);
        }
        i := i + 1;
      }
      assert children[..i] == children;
      ChildRowsLength(children, firstId, parentId, prov);
      DeliveredOutcome(|received0|, client.rejected, Feed(buffer0, ChildRows(children, firstId, parentId, prov)).flushed);
    }

    /**
     * Uploads one parsed document. Without a root element nothing is
     * emitted and nothing is inserted. Otherwise the sink receives the
     * batches of the root's pre-order rows (ids from 1, root parent null),
     * the final partial batch only when non-empty, up to and including the
     * first rejected batch; `ok` says whether every batch was accepted.
     */
    method UploadXmlToBigQuery(doc: Document, prov: Provenance) returns (ok: bool)
      modifies client
      ensures DocumentElement(doc).None? ==> ok && client.received == old(client.received)
      ensures DocumentElement(doc).Some? ==>
        var batches := Batches(Preorder(DocumentElement(doc).value, 1, None, prov));
        && client.received == old(client.received) + Delivered(|old(client.received)|, client.rejected, batches)
        && (ok <==> AllAccepted(|old(client.received)|, client.rejected, |batches|))
    {
      var root := DocumentElement(doc);
      ok := true;
      if root.Some? {
        ghost var calls0, received0 := |client.received|, client.received;
        ghost var acc := Feed([], Preorder(root.value, 1, None, prov));
        var state := new ParseState(1);
        ok := ParseElement(root.value, None, state, prov);
        if !ok {
          if |acc.pending| > 0 {
            DeliveredAppend(calls0, client.rejected, acc.flushed, [acc.pending]);
          }
        } else if |state.rowsBatch| > 0 {
          DeliveredOutcome(calls0, client.rejected, acc.flushed);
          ok := client.InsertRows(state.rowsBatch);
          DeliverLast(calls0, client.rejected, acc.flushed, acc.pending);
        } else {
          DeliveredOutcome(calls0, client.rejected, acc.flushed);
        }
      }
    }
  }
}
