/**
 * The size-triggered batch buffer, as pure functions: rows are added one at
 * a time, the buffer is handed to the sink as soon as it holds BatchSize
 * rows and is then cleared, and what remains at the end goes out as one last
 * batch if it is not empty. A sink that reports errors for a batch ends the
 * upload: no later batch is handed over.
 */
module Batching {
  /** The row count at which the buffer is flushed. */
  const BatchSize: nat := 10000

  /** The batches flushed so far and the rows still waiting in the buffer. */
  datatype Accumulated<T> = Accumulated(flushed: seq<seq<T>>, pending: seq<T>)

  /** Add one item to the buffer, flushing it when it then holds BatchSize items. */
  function Step<T>(acc: Accumulated<T>, x: T): (next: Accumulated<T>)
    ensures |acc.pending| + 1 >= BatchSize <==> |next.flushed| == |acc.flushed| + 1
    ensures |acc.pending| + 1 < BatchSize <==> next.flushed == acc.flushed
  {
    var buffer := acc.pending + [x];
    if |buffer| >= BatchSize then Accumulated(acc.flushed + [buffer], [])
    else Accumulated(acc.flushed, buffer)
  }

  /** Add `items` one at a time to a buffer holding `pending`, flushing each time the buffer reaches BatchSize. */
  function Feed<T>(pending: seq<T>, items: seq<T>): Accumulated<T>
  {
    if |items| == 0 then Accumulated([], pending)
    else Step(Feed(pending, items[..|items| - 1]), items[|items| - 1])
  }

  /** Feeding one more item is one more step. */
  lemma FeedSnoc<T>(pending: seq<T>, items: seq<T>, x: T)
    ensures Feed(pending, items + [x]) == Step(Feed(pending, items), x)
  {
    assert (items + [x])[..|items|] == items;
  }

  /** Feeding one item flushes exactly when the buffer then reaches BatchSize. */
  lemma FeedOne<T>(pending: seq<T>, x: T)
    ensures Feed(pending, [x]) ==
      if |pending| + 1 >= BatchSize then Accumulated([pending + [x]], []) else Accumulated([], pending + [x])
  {
    assert [x][..0] == [];
  }

  /** All the batches of an upload that starts with an empty buffer, the final partial one included when non-empty. */
  function Batches<T>(items: seq<T>): seq<seq<T>>
  {
    var acc := Feed([], items);
    if |acc.pending| == 0 then acc.flushed else acc.flushed + [acc.pending]
  }

  /** The batches joined end to end. */
  function Concat<T>(batches: seq<seq<T>>): seq<T>
  {
    if |batches| == 0 then [] else Concat(batches[..|batches| - 1]) + batches[|batches| - 1]
  }

  /** The insert calls numbered firstCall .. firstCall + count - 1 all succeed. */
  predicate AllAccepted(firstCall: nat, rejected: set<nat>, count: nat)
  {
    forall call :: firstCall <= call < firstCall + count ==> call !in rejected
  }

  /**
   * The batches actually handed to a sink whose next insert call is number
   * `firstCall`: every batch up to and including the first one rejected.
   */
  function Delivered<T>(firstCall: nat, rejected: set<nat>, batches: seq<seq<T>>): seq<seq<T>>
    decreases |batches|
  {
    if |batches| == 0 then []
    else if firstCall in rejected then [batches[0]]
    else [batches[0]] + Delivered(firstCall + 1, rejected, batches[1..])
  }

  /** Feeding two runs of items is feeding the first, then the second into what the first left pending. */
  lemma {:induction false} FeedAppend<T>(pending: seq<T>, xs: seq<T>, ys: seq<T>)
    ensures Feed(pending, xs + ys) ==
      var a := Feed(pending, xs);
      var b := Feed(a.pending, ys);
      Accumulated(a.flushed + b.flushed, b.pending)
  {
    if |ys| > 0 {
      var init, last := ys[..|ys| - 1], ys[|ys| - 1];
      var a := Feed(pending, xs);
      var b := Feed(a.pending, init);
      FeedAppend(pending, xs, init);
      assert xs + ys == (xs + init) + [last];
      FeedSnoc(pending, xs + init, last);
      StepAfter(a.flushed, b, last);
    } else {
      assert xs + ys == xs;
    }
  }

  /** A step only looks at the buffer: batches flushed earlier stay in front of whatever it flushes. */
  lemma StepAfter<T>(earlier: seq<seq<T>>, acc: Accumulated<T>, x: T)
    ensures Step(Accumulated(earlier + acc.flushed, acc.pending), x) ==
      Accumulated(earlier + Step(acc, x).flushed, Step(acc, x).pending)
  {
    var buffer := acc.pending + [x];
    assert (earlier + acc.flushed) + [buffer] == earlier + (acc.flushed + [buffer]);
  }

  /**
   * Starting from a buffer below the threshold: the flushed batches followed
   * by the buffer give back the buffer's rows and the fed rows in order,
   * every flushed batch holds exactly BatchSize rows, and the buffer stays
   * below BatchSize. This is the combined statement of FeedKeepsOrder and
   * FeedBatchSizes.
   */
  lemma {:induction false} FeedKeepsEveryItem<T>(pending: seq<T>, items: seq<T>)
    requires |pending| < BatchSize
    ensures Concat(Feed(pending, items).flushed) + Feed(pending, items).pending == pending + items
    ensures forall k :: 0 <= k < |Feed(pending, items).flushed| ==> |Feed(pending, items).flushed[k]| == BatchSize
    ensures |Feed(pending, items).pending| < BatchSize
  {
    FeedKeepsOrder(pending, items);
    FeedBatchSizes(pending, items);
  }

  lemma {:induction false} FeedKeepsOrder<T>(pending: seq<T>, items: seq<T>)
    ensures Concat(Feed(pending, items).flushed) + Feed(pending, items).pending == pending + items
  {
    if |items| > 0 {
      var init, last := items[..|items| - 1], items[|items| - 1];
      FeedKeepsOrder(pending, init);
      var prev := Feed(pending, init);
      var buffer := prev.pending + [last];
      var before := Concat(prev.flushed);
      assert items == init + [last];
      assert pending + items == (before + prev.pending) + [last];
      assert before + buffer == (before + prev.pending) + [last];
      if |buffer| >= BatchSize {
        ConcatSnoc(prev.flushed, buffer);
        assert Concat(Feed(pending, items).flushed) + Feed(pending, items).pending == (before + buffer) + [];
      }
    }
  }

  lemma {:induction false} FeedBatchSizes<T>(pending: seq<T>, items: seq<T>)
    requires |pending| < BatchSize
    ensures forall k :: 0 <= k < |Feed(pending, items).flushed| ==> |Feed(pending, items).flushed[k]| == BatchSize
    ensures |Feed(pending, items).pending| < BatchSize
  {
    if |items| > 0 {
      FeedBatchSizes(pending, items[..|items| - 1]);
    }
  }

  lemma ConcatSnoc<T>(batches: seq<seq<T>>, batch: seq<T>)
    ensures Concat(batches + [batch]) == Concat(batches) + batch
  {
    assert (batches + [batch])[..|batches|] == batches;
  }

  /** Concatenating batches of one size multiplies that size by their number. */
  lemma {:induction false} ConcatLength<T>(batches: seq<seq<T>>, size: nat)
    requires forall k :: 0 <= k < |batches| ==> |batches[k]| == size
    ensures |Concat(batches)| == |batches| * size
  {
    if |batches| > 0 {
      ConcatLength(batches[..|batches| - 1], size);
    }
  }

  /** q whole batches plus r < BatchSize further items need q batches, one more when r > 0. */
  lemma BatchCount(q: nat, r: nat)
    requires r < BatchSize
    ensures (q * BatchSize + r + BatchSize - 1) / BatchSize == if r == 0 then q else q + 1
  {
  }

  /**
   * The whole upload: the batches joined give back every item in order, none
   * is empty, all but the last hold exactly BatchSize items, the last at most
   * BatchSize, and there are ceil(|items| / BatchSize) of them.
   */
  lemma BatchesKeepEveryItem<T>(items: seq<T>)
    ensures Concat(Batches(items)) == items
    ensures forall k :: 0 <= k < |Batches(items)| ==> 0 < |Batches(items)[k]| <= BatchSize
    ensures forall k :: 0 <= k < |Batches(items)| - 1 ==> |Batches(items)[k]| == BatchSize
    ensures |Batches(items)| == (|items| + BatchSize - 1) / BatchSize
  {
    var acc := Feed([], items);
    FeedKeepsEveryItem([], items);
    ConcatLength(acc.flushed, BatchSize);
    BatchCount(|acc.flushed|, |acc.pending|);
    if |acc.pending| > 0 {
      ConcatSnoc(acc.flushed, acc.pending);
    } else {
      assert acc.pending == [];
      assert Concat(acc.flushed) + [] == Concat(acc.flushed);
    }
  }

  /**
   * Handing over two runs of batches: if the first run is accepted in full
   * the second follows it; otherwise nothing after the rejected batch of the
   * first run is handed over.
   */
  lemma {:induction false} DeliveredAppend<T>(firstCall: nat, rejected: set<nat>, xs: seq<seq<T>>, ys: seq<seq<T>>)
    ensures Delivered(firstCall, rejected, xs + ys) ==
      if AllAccepted(firstCall, rejected, |xs|) then xs + Delivered(firstCall + |xs|, rejected, ys)
      else Delivered(firstCall, rejected, xs)
    ensures AllAccepted(firstCall, rejected, |xs + ys|) <==>
      AllAccepted(firstCall, rejected, |xs|) && AllAccepted(firstCall + |xs|, rejected, |ys|)
    decreases |xs|
  {
    if |xs| > 0 {
      DeliveredAppend(firstCall + 1, rejected, xs[1..], ys);
      assert (xs + ys)[1..] == xs[1..] + ys;
      if firstCall !in rejected {
        assert AllAccepted(firstCall, rejected, |xs|) <==> AllAccepted(firstCall + 1, rejected, |xs| - 1);
      }
    } else {
      assert xs + ys == ys;
    }
  }

  /**
   * The outcome of handing over a run of batches: all of them when every
   * insert succeeds; otherwise a non-empty prefix whose last batch was the
   * first one rejected, every earlier one having been accepted.
   */
  lemma {:induction false} DeliveredOutcome<T>(firstCall: nat, rejected: set<nat>, batches: seq<seq<T>>)
    ensures AllAccepted(firstCall, rejected, |batches|) ==> Delivered(firstCall, rejected, batches) == batches
    ensures !AllAccepted(firstCall, rejected, |batches|) ==>
      var sent := Delivered(firstCall, rejected, batches);
      && 0 < |sent| <= |batches|
      && sent == batches[..|sent|]
      && firstCall + |sent| - 1 in rejected
      && AllAccepted(firstCall, rejected, |sent| - 1)
    decreases |batches|
  {
    if |batches| > 0 && firstCall !in rejected {
      DeliveredOutcome(firstCall + 1, rejected, batches[1..]);
      assert AllAccepted(firstCall, rejected, |batches|) <==> AllAccepted(firstCall + 1, rejected, |batches| - 1);
      if !AllAccepted(firstCall, rejected, |batches|) {
        var rest := Delivered(firstCall + 1, rejected, batches[1..]);
        assert AllAccepted(firstCall, rejected, |rest|) <==> AllAccepted(firstCall + 1, rejected, |rest| - 1);
      }
    }
  }

  /**
   * Handing over a second run of batches after a first run that was
   * accepted in full: if the sink held `sent` plus the first run and then
   * received what reaches it of the second, it holds `sent` plus what
   * reaches it of both runs together, and both runs are accepted exactly
   * when the second is.
   */
  lemma DeliverThen<T>(firstCall: nat, rejected: set<nat>, xs: seq<seq<T>>, ys: seq<seq<T>>,
                       sent: seq<seq<T>>, later: seq<seq<T>>)
    requires AllAccepted(firstCall, rejected, |xs|)
    requires later == (sent + xs) + Delivered(firstCall + |xs|, rejected, ys)
    ensures later == sent + Delivered(firstCall, rejected, xs + ys)
    ensures AllAccepted(firstCall + |xs|, rejected, |ys|) <==> AllAccepted(firstCall, rejected, |xs + ys|)
    ensures AllAccepted(firstCall, rejected, |xs + ys|) ==> later == sent + (xs + ys)
  {
    DeliveredAppend(firstCall, rejected, xs, ys);
    DeliveredOutcome(firstCall + |xs|, rejected, ys);
  }

  /**
   * Feeding a second run of items after a first run whose flushes were all
   * accepted: DeliverThen for the batches the two runs flush, and the buffer
   * ends as after the second run.
   */
  lemma FeedThenDeliver<T>(firstCall: nat, rejected: set<nat>, pending: seq<T>, xs: seq<T>, ys: seq<T>,
                           sent: seq<seq<T>>, later: seq<seq<T>>)
    requires AllAccepted(firstCall, rejected, |Feed(pending, xs).flushed|)
    requires later == (sent + Feed(pending, xs).flushed) +
      Delivered(firstCall + |Feed(pending, xs).flushed|, rejected, Feed(Feed(pending, xs).pending, ys).flushed)
    ensures later == sent + Delivered(firstCall, rejected, Feed(pending, xs + ys).flushed)
    ensures AllAccepted(firstCall + |Feed(pending, xs).flushed|, rejected, |Feed(Feed(pending, xs).pending, ys).flushed|)
      <==> AllAccepted(firstCall, rejected, |Feed(pending, xs + ys).flushed|)
    ensures AllAccepted(firstCall, rejected, |Feed(pending, xs + ys).flushed|) ==>
      later == sent + Feed(pending, xs + ys).flushed
    ensures Feed(pending, xs + ys).pending == Feed(Feed(pending, xs).pending, ys).pending
  {
    var a := Feed(pending, xs);
    FeedAppend(pending, xs, ys);
    DeliverThen(firstCall, rejected, a.flushed, Feed(a.pending, ys).flushed, sent, later);
  }

  /** The final partial batch, handed over after every earlier batch was accepted. */
  lemma DeliverLast<T>(firstCall: nat, rejected: set<nat>, batches: seq<seq<T>>, last: seq<T>)
    requires AllAccepted(firstCall, rejected, |batches|)
    ensures Delivered(firstCall, rejected, batches + [last]) == batches + [last]
    ensures AllAccepted(firstCall, rejected, |batches| + 1) <==> firstCall + |batches| !in rejected
  {
    DeliveredAppend(firstCall, rejected, batches, [last]);
    assert Delivered(firstCall + |batches|, rejected, [last]) == [last];
  }

  /**
   * Once a batch has been rejected, rows fed afterwards change nothing that
   * reaches the sink: feeding any continuation `items` of `done` delivers
   * what feeding `done` delivered, and is not accepted either.
   */
  lemma FailureIsFinal<T>(firstCall: nat, rejected: set<nat>, pending: seq<T>, done: seq<T>, items: seq<T>)
    requires done <= items
    requires !AllAccepted(firstCall, rejected, |Feed(pending, done).flushed|)
    ensures Delivered(firstCall, rejected, Feed(pending, items).flushed) ==
      Delivered(firstCall, rejected, Feed(pending, done).flushed)
    ensures !AllAccepted(firstCall, rejected, |Feed(pending, items).flushed|)
  {
    var a := Feed(pending, done);
    var rest := items[|done|..];
    assert items == done + rest;
    FeedAppend(pending, done, rest);
    DeliveredAppend(firstCall, rejected, a.flushed, Feed(a.pending, rest).flushed);
  }
}
