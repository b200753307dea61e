/** The transmit-submission trace: a ring of the last 18 echo words whose reader
    skips what the writer has overwritten. */
module TxRing {
  import opened Common
  import NumberTheory
  import RingBuffer

  const SLOTS: nat := 18

  type Slots = s: seq<u32> | |s| == SLOTS witness seq(SLOTS, _ => 0)

  datatype Submission = Submission(echo: u32, time: u32)

  datatype Ring = Ring(total: u32, consumed: u32, slots: Slots, times: Slots)

  function Empty(): Ring {
    Ring(0, 0, seq(SLOTS, _ => 0), seq(SLOTS, _ => 0))
  }

  function Oldest(total: nat): nat {
    if total >= SLOTS then total - SLOTS else 0
  }

  function Max(a: nat, b: nat): nat {
    if a < b then b else a
  }

  function Record(r: Ring, s: Submission): Ring {
    var slot := r.total % SLOTS;
    Ring(Increment(r.total), r.consumed, r.slots[slot := s.echo], r.times[slot := s.time])
  }

  function Consume(r: Ring): (Ring, u32) {
    var consumed := Max(r.consumed, Oldest(r.total));
    if consumed >= r.total then (r.(consumed := consumed), 0)
    else (r.(consumed := Increment(consumed)), r.slots[consumed % SLOTS])
  }

  /** The atomics of the trace, with each call run to completion. */
  class TxTrace {
    var total: u32
    var consumed: u32
    const slots: array<u32>
    const times: array<u32>

    ghost predicate Valid()
      reads this
    {
      slots.Length == SLOTS && times.Length == SLOTS && slots != times
    }

    ghost function View(): Ring
      requires Valid()
      reads this, slots, times
    {
      Ring(total, consumed, slots[..], times[..])
    }

    constructor ()
      ensures Valid() && fresh(slots) && fresh(times) && View() == Empty()
    {
      total, consumed := 0, 0;
      slots := new u32[SLOTS](_ => 0);
      times := new u32[SLOTS](_ => 0);
      new;
      assert slots[..] == seq(SLOTS, _ => 0) && times[..] == seq(SLOTS, _ => 0);
    }

    method RecordSubmission(echo: u32, time: u32)
      requires Valid()
      modifies this, slots, times
      ensures Valid() && View() == Record(old(View()), Submission(echo, time))
    {
      var before := total;
      total := Increment(before);
      var slot := before % SLOTS;
      slots[slot] := echo;
      times[slot] := time;
    }

    method ConsumeSubmission() returns (word: u32)
      requires Valid()
      modifies this
      ensures Valid() && (View(), word) == Consume(old(View()))
    {
      var current := total;
      var oldest := if current >= SLOTS then current - SLOTS else 0;
      if consumed < oldest {
        consumed := oldest;
      }
      if consumed >= current {
        return 0;
      }
      var sequence := consumed;
      consumed := Increment(sequence);
      return slots[sequence % SLOTS];
    }
  }

  // ----- the lossy queue it stands for -----

  /** Every submission ever made, and what became of each: the indices handed out
      in order, and those skipped. */
  datatype Fifo = Fifo(log: seq<Submission>, next: nat, taken: seq<nat>, lost: set<nat>)

  datatype Op = Submit(submission: Submission) | Take

  function FifoNext(f: Fifo, op: Op): Fifo {
    match op
    case Submit(s) => f.(log := f.log + [s])
    case Take =>
      var first := Max(f.next, Oldest(|f.log|));
      var g := f.(lost := f.lost + Range(f.next, first), next := first);
      if first < |f.log| then g.(taken := g.taken + [first], next := first + 1) else g
  }

  function FifoWord(f: Fifo): u32 {
    var first := Max(f.next, Oldest(|f.log|));
    if first < |f.log| then f.log[first].echo else 0
  }

  function FifoRun(ops: seq<Op>): Fifo {
    if ops == [] then Fifo([], 0, [], {}) else FifoNext(FifoRun(ops[..|ops| - 1]), ops[|ops| - 1])
  }

  function RingNext(r: Ring, op: Op): Ring {
    match op
    case Submit(s) => Record(r, s)
    case Take => Consume(r).0
  }

  function RingRun(ops: seq<Op>): Ring {
    if ops == [] then Empty() else RingNext(RingRun(ops[..|ops| - 1]), ops[|ops| - 1])
  }

  ghost predicate FifoInv(f: Fifo) {
    && f.next <= |f.log|
    && (forall i, j :: 0 <= i < j < |f.taken| ==> f.taken[i] < f.taken[j])
    && (forall i :: i in f.taken ==> i < f.next)
    && (forall i :: i in f.lost ==> i < f.next && i + SLOTS < |f.log|)
    && (forall i: nat :: i < f.next ==> (i in f.taken <==> i !in f.lost))
  }

  lemma FifoStep(f: Fifo, op: Op)
    requires FifoInv(f)
    ensures FifoInv(FifoNext(f, op))
  {
    var g := FifoNext(f, op);
    forall i, j | 0 <= i < j < |g.taken|
      ensures g.taken[i] < g.taken[j]
    {
      assert g.taken[i] == f.taken[i] && f.taken[i] in f.taken;
    }
  }

  /** Over every run: indices are handed out in increasing order, so none twice;
      every index passed over is either handed out or lost, never both; and only
      submissions whose slot was written again are lost. */
  lemma {:induction false} TakenOrOverwritten(ops: seq<Op>)
    ensures FifoInv(FifoRun(ops))
  {
    if ops == [] {
    } else {
      TakenOrOverwritten(ops[..|ops| - 1]);
      FifoStep(FifoRun(ops[..|ops| - 1]), ops[|ops| - 1]);
    }
  }

  /** A take skips exactly the overwritten submissions: it hands out the oldest one
      not yet passed over whose slot still holds it. */
  lemma TakeIsOldestKept(f: Fifo, i: nat)
    requires FifoInv(f) && f.next <= i < |f.log|
    ensures i + SLOTS < |f.log| ==> i in FifoNext(f, Take).lost
    ensures i + SLOTS >= |f.log| ==>
              && FifoNext(f, Take).taken != [] && FifoNext(f, Take).taken[|f.taken|] <= i
              && FifoWord(f) == f.log[FifoNext(f, Take).taken[|f.taken|]].echo
  {
  }

  ghost predicate Matches(r: Ring, f: Fifo) {
    && r.total == |f.log|
    && r.consumed == f.next
    && (forall i :: Oldest(|f.log|) <= i < |f.log| ==>
          r.slots[i % SLOTS] == f.log[i].echo && r.times[i % SLOTS] == f.log[i].time)
  }

  lemma StepMatches(r: Ring, f: Fifo, op: Op)
    requires Matches(r, f) && FifoInv(f)
    requires op.Submit? ==> |f.log| + 1 < WORDS
    ensures Matches(RingNext(r, op), FifoNext(f, op))
    ensures op.Take? ==> Consume(r).1 == FifoWord(f)
  {
    if op.Submit? {
      var n := |f.log|;
      forall i | Oldest(n + 1) <= i < n
        ensures i % SLOTS != n % SLOTS
      {
        RingBuffer.SlotsDiffer(i, n, SLOTS);
      }
    }
  }

  function Submissions(ops: seq<Op>): nat {
    if ops == [] then 0
    else Submissions(ops[..|ops| - 1]) + if ops[|ops| - 1].Submit? then 1 else 0
  }

  /** While fewer than 2^32 submissions were made the ring is the lossy queue, word
      for word. */
  lemma {:induction false} RingRefinesFifo(ops: seq<Op>)
    requires Submissions(ops) < WORDS
    ensures Matches(RingRun(ops), FifoRun(ops))
    ensures Consume(RingRun(ops)).1 == FifoWord(FifoRun(ops))
    ensures |FifoRun(ops).log| == Submissions(ops)
  {
    TakenOrOverwritten(ops);
    if ops == [] {
    } else {
      var before := ops[..|ops| - 1];
      RingRefinesFifo(before);
      TakenOrOverwritten(before);
      StepMatches(RingRun(before), FifoRun(before), ops[|ops| - 1]);
    }
    StepMatches(RingRun(ops), FifoRun(ops), Take);
  }

  lemma {:induction false} TotalCountsSubmissions(ops: seq<Op>)
    ensures RingRun(ops).total == Submissions(ops) % WORDS
  {
    if ops == [] {
    } else {
      TotalCountsSubmissions(ops[..|ops| - 1]);
      NumberTheory.NextWord(Submissions(ops[..|ops| - 1]), WORDS);
    }
  }

  /** The bound is sharp: after 2^32 submissions the counter reads zero, so the
      reader gets nothing although the submission just made is waiting. */
  lemma WrappedTotalStopsReader(ops: seq<Op>)
    requires Submissions(ops) == WORDS && ops != [] && ops[|ops| - 1].Submit?
    ensures Consume(RingRun(ops)).1 == 0 && Consume(RingRun(ops)).0 == RingRun(ops)
    ensures |FifoNext(FifoRun(ops), Take).taken| == |FifoRun(ops).taken| + 1
  {
    TotalCountsSubmissions(ops);
    TakenOrOverwritten(ops[..|ops| - 1]);
  }

  lemma {:induction false} LogCountsSubmissions(ops: seq<Op>)
    ensures |FifoRun(ops).log| == Submissions(ops)
  {
    if ops == [] {
    } else {
      LogCountsSubmissions(ops[..|ops| - 1]);
    }
  }

  lemma {:induction false} PrefixSubmitsLess(ops: seq<Op>, m: nat)
    requires m <= |ops|
    ensures Submissions(ops[..m]) <= Submissions(ops)
  {
    if m == |ops| {
      assert ops[..m] == ops;
    } else {
      PrefixSubmitsLess(ops[..|ops| - 1], m);
      assert ops[..|ops| - 1][..m] == ops[..m];
    }
  }

  lemma {:induction false} PrefixWith(ops: seq<Op>, n: nat) returns (m: nat)
    requires n <= Submissions(ops)
    ensures m <= |ops| && Submissions(ops[..m]) == n
  {
    if n == Submissions(ops) {
      m := |ops|;
      assert ops[..m] == ops;
    } else {
      m := PrefixWith(ops[..|ops| - 1], n);
      assert ops[..|ops| - 1][..m] == ops[..m];
    }
  }

  /** The ring is the lossy queue all along a run if and only if the run makes fewer
      than 2^32 submissions. */
  lemma RefinesIff(ops: seq<Op>)
    ensures Submissions(ops) < WORDS <==>
            forall m :: 0 <= m <= |ops| ==> Matches(RingRun(ops[..m]), FifoRun(ops[..m]))
  {
    if Submissions(ops) < WORDS {
      forall m | 0 <= m <= |ops|
        ensures Matches(RingRun(ops[..m]), FifoRun(ops[..m]))
      {
        PrefixSubmitsLess(ops, m);
        RingRefinesFifo(ops[..m]);
      }
    } else {
      var m := PrefixWith(ops, WORDS);
      WrappedDoesNotMatch(ops[..m]);
    }
  }

  lemma WrappedDoesNotMatch(ops: seq<Op>)
    requires Submissions(ops) == WORDS
    ensures !Matches(RingRun(ops), FifoRun(ops))
  {
    TotalCountsSubmissions(ops);
    LogCountsSubmissions(ops);
  }
}
