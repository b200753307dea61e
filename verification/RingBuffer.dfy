/** A circular buffer read from `head` for `len` slots, and the two updates that
    append and remove. */
module RingBuffer {
  import NumberTheory

  /** Fewer than a lap apart, two positions have different slots. */
  lemma SlotsDiffer(i: nat, j: nat, size: nat)
    requires i < j < i + size
    ensures i % size != j % size
  {
    if i % size == j % size {
      NumberTheory.SameRemainder(j, i, size);
      NumberTheory.SmallRemainder(j - i, size);
    }
  }

  /** `(head + i) % size` for offsets inside one lap. */
  function Slot(head: nat, i: nat, size: nat): (r: nat)
    requires head < size && i < size
    ensures r < size
  {
    if head + i < size then head + i else head + i - size
  }

  function Window<T>(slots: seq<T>, head: nat, len: nat): (r: seq<T>)
    requires head < |slots| && len <= |slots|
    ensures |r| == len
  {
    seq(len, i requires 0 <= i < len => slots[Slot(head, i, |slots|)])
  }

  lemma Appends<T>(slots: seq<T>, head: nat, len: nat, x: T)
    requires head < |slots| && len < |slots|
    ensures Window(slots[Slot(head, len, |slots|) := x], head, len + 1) == Window(slots, head, len) + [x]
  {
  }

  lemma Removes<T>(slots: seq<T>, head: nat, len: nat, x: T)
    requires head < |slots| && 0 < len <= |slots|
    ensures Window(slots[head := x], if head + 1 < |slots| then head + 1 else 0, len - 1) == Window(slots, head, len)[1..]
  {
  }
}
