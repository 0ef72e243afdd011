/**
 * The batching loop of `process_all`: walk the extraction outcomes in the
 * order they complete, buffer the successful records, flush the buffer as
 * soon as it holds `batch_size` records, and count the successes. What is
 * left in the buffer after the walk is flushed once more by the caller.
 */
module Batching {
  import opened Wrappers
  import opened Seqs

  /** The successful records, in completion order. */
  function Successes<T(!new)>(outcomes: seq<Option<T>>): (r: seq<T>)
    ensures |r| <= |outcomes|
    ensures forall x :: x in r <==> Some(x) in outcomes
  {
    if |outcomes| == 0 then []
    else
      var rest := Successes(outcomes[1..]);
      assert forall x :: Some(x) in outcomes <==> Some(x) == outcomes[0] || Some(x) in outcomes[1..];
      match outcomes[0]
      case Some(x) => [x] + rest
      case None => rest
  }

  lemma {:induction false} SuccessesAppend<T(!new)>(outcomes: seq<Option<T>>, o: Option<T>)
    ensures Successes(outcomes + [o]) == Successes(outcomes) + (if o.Some? then [o.value] else [])
    decreases |outcomes|
  {
    if |outcomes| == 0 {
      assert outcomes + [o] == [o];
      assert [o][1..] == [];
    } else {
      assert (outcomes + [o])[1..] == outcomes[1..] + [o];
      SuccessesAppend(outcomes[1..], o);
    }
  }

  /**
   * The buffer length at which a flush happens. The check is
   * `len(batch) >= batch_size` right after a record is added, so a batch
   * size of zero or less flushes every record on its own.
   */
  function Threshold(batchSize: int): (n: nat)
    ensures n >= 1
    ensures batchSize >= 1 ==> n == batchSize
  {
    if batchSize >= 1 then batchSize else 1
  }

  /** The full chunks of `n` elements `xs` splits into, in order (the reference for the in-loop flushes). */
  function Chunks<T>(xs: seq<T>, n: nat): seq<seq<T>>
    requires n >= 1
    decreases |xs|
  {
    if |xs| < n then [] else [xs[..n]] + Chunks(xs[n..], n)
  }

  /** What remains of `xs` after its full chunks of `n` are taken. */
  function Leftover<T>(xs: seq<T>, n: nat): seq<T>
    requires n >= 1
    decreases |xs|
  {
    if |xs| < n then xs else Leftover(xs[n..], n)
  }

  /** The chunks and the leftover make up `xs` again; every chunk is full and the leftover is not. */
  lemma {:induction false} ChunksCover<T>(xs: seq<T>, n: nat)
    requires n >= 1
    ensures Flatten(Chunks(xs, n)) + Leftover(xs, n) == xs
    ensures forall i :: 0 <= i < |Chunks(xs, n)| ==> |Chunks(xs, n)[i]| == n
    ensures |Leftover(xs, n)| < n
    decreases |xs|
  {
    if |xs| >= n {
      ChunksCover(xs[n..], n);
      var tail := Chunks(xs[n..], n);
      assert Chunks(xs, n) == [xs[..n]] + tail;
      assert ([xs[..n]] + tail)[1..] == tail;
      assert xs == xs[..n] + xs[n..];
    }
  }

  /**
   * Full chunks of `n` followed by a short remainder that together make up
   * `xs` can only be the chunks and the leftover of `xs`.
   */
  lemma {:induction false} ChunksUnique<T>(xs: seq<T>, n: nat, full: seq<seq<T>>, rest: seq<T>)
    requires n >= 1
    requires Flatten(full) + rest == xs
    requires forall i :: 0 <= i < |full| ==> |full[i]| == n
    requires |rest| < n
    ensures full == Chunks(xs, n)
    ensures rest == Leftover(xs, n)
    decreases |full|
  {
    if |full| == 0 {
      assert xs == rest;
    } else {
      var tail := Flatten(full[1..]) + rest;
      assert Flatten(full) == full[0] + Flatten(full[1..]);
      assert xs == full[0] + tail;
      assert xs[..n] == full[0] && xs[n..] == tail;
      ChunksUnique(tail, n, full[1..], rest);
      assert full == [full[0]] + full[1..];
    }
  }

  /** The successes seen after one more completed outcome. */
  lemma SuccessesStep<T(!new)>(outcomes: seq<Option<T>>, i: nat)
    requires i < |outcomes|
    ensures Successes(outcomes[..i + 1]) ==
      Successes(outcomes[..i]) + (if outcomes[i].Some? then [outcomes[i].value] else [])
  {
    assert outcomes[..i + 1] == outcomes[..i] + [outcomes[i]];
    SuccessesAppend(outcomes[..i], outcomes[i]);
  }

  /** Flushing a full buffer moves its records, unchanged, into the flushed batches. */
  lemma FlushStep<T>(flushed: seq<seq<T>>, batch: seq<T>, n: nat)
    requires forall k :: 0 <= k < |flushed| ==> |flushed[k]| == n
    requires |batch| == n
    ensures Flatten(flushed + [batch]) == Flatten(flushed) + batch
    ensures forall k :: 0 <= k < |flushed + [batch]| ==> |(flushed + [batch])[k]| == n
  {
    FlattenAppend(flushed, batch);
  }

  /**
   * The loop of `process_all` over completed extractions. `flushed` are the
   * batches inserted inside the loop, `rest` the buffer left at the end and
   * `successful` the success counter.
   */
  method CollectBatches<T(!new)>(outcomes: seq<Option<T>>, batchSize: int)
    returns (flushed: seq<seq<T>>, rest: seq<T>, successful: nat)
    ensures Flatten(flushed) + rest == Successes(outcomes)
    ensures forall i :: 0 <= i < |flushed| ==> |flushed[i]| == Threshold(batchSize)
    ensures |rest| < Threshold(batchSize)
    ensures flushed == Chunks(Successes(outcomes), Threshold(batchSize))
    ensures rest == Leftover(Successes(outcomes), Threshold(batchSize))
    ensures successful == |Successes(outcomes)| && successful <= |outcomes|
  {
    var n := Threshold(batchSize);
    flushed := [];
    var batch: seq<T> := [];
    successful := 0;
    var i := 0;
    while i < |outcomes|
      invariant 0 <= i <= |outcomes|
      invariant Flatten(flushed) + batch == Successes(outcomes[..i])
      invariant forall k :: 0 <= k < |flushed| ==> |flushed[k]| == n
      invariant |batch| < n
      invariant successful == |Successes(outcomes[..i])|
    {
      var result := outcomes[i];
      SuccessesStep(outcomes, i);
      if result.Some? {
        batch := batch + [result.value];
        successful := successful + 1;
        if |batch| >= batchSize {
          FlushStep(flushed, batch, n);
          flushed := flushed + [batch];
          batch := [];
        }
      }
      i := i + 1;
    }
    assert outcomes[..i] == outcomes;
    rest := batch;
    ChunksUnique(Successes(outcomes), Threshold(batchSize), flushed, rest);
  }
}
