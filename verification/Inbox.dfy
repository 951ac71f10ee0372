/**
 The buffer between the monitor's delivering threads and the one consumer that merges: deliveries
 and the swap are atomic (they hold the lock), the merge that follows a swap is not.
 */
module Inbox {
  import opened Options
  import opened Sequences

  /** `taken` is what the consumer swapped out and has not merged yet; the rest is history. */
  datatype Box<F> = Box(records: seq<F>, taken: Option<seq<F>>, merged: seq<seq<F>>, delivered: seq<F>)

  datatype Step<F> = Deliver(frame: F) | Swap | Merge

  predicate Enabled<F>(b: Box<F>, step: Step<F>) {
    match step
    case Deliver(_) => true
    case Swap => b.taken.None?
    case Merge => b.taken.Some?
  }

  function Apply<F>(b: Box<F>, step: Step<F>): Box<F>
    requires Enabled(b, step)
  {
    match step
    case Deliver(frame) => b.(records := b.records + [frame], delivered := b.delivered + [frame])
    case Swap => b.(records := [], taken := Some(b.records))
    case Merge => b.(taken := None, merged := b.merged + [b.taken.value])
  }

  predicate Runs<F(==)>(b: Box<F>, steps: seq<Step<F>>, b': Box<F>)
    decreases |steps|
  {
    if steps == [] then b == b'
    else Enabled(b, steps[0]) && Runs(Apply(b, steps[0]), steps[1..], b')
  }

  function Empty<F>(): Box<F> {
    Box([], None, [], [])
  }

  function Flatten<F>(ss: seq<seq<F>>): seq<F> {
    if ss == [] then [] else Flatten(ss[..|ss| - 1]) + ss[|ss| - 1]
  }

  lemma FlattenOne<F>(fs: seq<F>)
    ensures Flatten([fs]) == fs
  {
    assert [fs][..0] == [];
    assert Flatten<F>([]) == [];
  }

  lemma {:induction false} FlattenSplits<F>(a: seq<seq<F>>, b: seq<seq<F>>)
    ensures Flatten(a + b) == Flatten(a) + Flatten(b)
  {
    if b == [] {
      assert a + b == a;
    } else {
      FlattenSplits(a, b[..|b| - 1]);
      assert (a + b)[..|a + b| - 1] == a + b[..|b| - 1];
    }
  }

  function Frames<F>(step: Step<F>): seq<F> {
    if step.Deliver? then [step.frame] else []
  }

  /** The frames that were sent, in order. */
  function Sent<F>(steps: seq<Step<F>>): seq<F> {
    if steps == [] then [] else Frames(steps[0]) + Sent(steps[1..])
  }

  /** What has been delivered is what was sent. */
  lemma {:induction false} DeliveredWasSent<F>(b: Box<F>, steps: seq<Step<F>>, b': Box<F>)
    requires Runs(b, steps, b')
    ensures b'.delivered == b.delivered + Sent(steps)
    decreases |steps|
  {
    if steps == [] {
      assert b.delivered + [] == b.delivered;
    } else {
      var b1, first := Apply(b, steps[0]), Frames(steps[0]);
      DeliverAppends(b, steps[0]);
      assert Sent(steps) == first + Sent(steps[1..]);
      hide Apply, Sent;
      DeliveredWasSent(b1, steps[1..], b');
      JoinAssociates(b.delivered, first, Sent(steps[1..]));
    }
  }

  lemma DeliverAppends<F>(b: Box<F>, step: Step<F>)
    requires Enabled(b, step)
    ensures Apply(b, step).delivered == b.delivered + Frames(step)
  {
  }

  /** A swap takes all that is buffered and merges nothing yet; a merge adds what was taken. */
  lemma SwapTakesAll<F>(b: Box<F>)
    ensures b.taken.None? ==> Apply(b, Swap) == Box([], Some(b.records), b.merged, b.delivered)
    ensures b.taken.Some? ==> Apply(b, Merge) == Box(b.records, None, b.merged + [b.taken.value], b.delivered)
  {
  }

  function Taken<F>(b: Box<F>): seq<F> {
    if b.taken.Some? then b.taken.value else []
  }

  predicate Conserved<F(==)>(b: Box<F>) {
    b.delivered == Flatten(b.merged) + Taken(b) + b.records
  }

  lemma {:induction false} RunsConserve<F>(b: Box<F>, steps: seq<Step<F>>, b': Box<F>)
    requires Conserved(b) && Runs(b, steps, b')
    ensures Conserved(b')
    decreases |steps|
  {
    if steps == [] {
    } else {
      var b1 := Apply(b, steps[0]);
      if steps[0].Merge? {
        assert b1.merged[..|b1.merged| - 1] == b.merged;
      }
      RunsConserve(b1, steps[1..], b');
    }
  }

  /** Under any interleaving, every delivered frame is merged once, waits once, or is buffered once, in order. */
  lemma NothingLostOrDoubled<F>(steps: seq<Step<F>>, b: Box<F>)
    requires Runs(Empty(), steps, b)
    ensures b.delivered == Flatten(b.merged) + Taken(b) + b.records
  {
    RunsConserve(Empty(), steps, b);
  }
}
