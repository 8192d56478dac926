/** The single-producer single-consumer ring (include/infra/SPSCRingBuffer.h). */
module Ring {
  import opened Protocol
  import opened Bits

  /** What a run of ones at the top of a k-bit word still leaves open below it. */
  function Gap(k: nat, ones: nat): nat {
    if ones < k then Pow2(k - ones) else 1
  }

  /** If the top `s` bits are ones, or-ing with the word shifted by `s` doubles their number. */
  lemma SmearStep(v: nat, k: nat, s: nat)
    requires v < Pow2(k) <= v + Gap(k, s) && s > 0
    ensures var w := Or(v, Shr(v, s));
            w < Pow2(k) <= w + Gap(k, 2 * s)
  {
    hide Pow2, Or, Shr;
    var b := Shr(v, s);
    OrBounds(v, b, k);
    if s < k {
      var j := k - s;
      ShrFits(v, k, s);
      GapDoubles(k, s);
      ShrMisses(v, k, s, Gap(k, 2 * s));
      Pow2Positive(s);
      Pow2Add(s, j);
      var h := Pow2(s) - 1;
      OneLess(Pow2(s), Pow2(j));
      var l := v - h * Pow2(j);
      OrHigh(h, l, b, j);
      OrBounds(l, b, j);
    }
  }

  lemma OneLess(a: int, b: int)
    ensures (a - 1) * b == a * b - b
  {
  }

  lemma GapDoubles(k: nat, s: nat)
    requires 0 < s < k
    ensures Pow2(k - s) <= Gap(k, 2 * s) * Pow2(s)
  {
    hide Pow2;
    if 2 * s < k {
      Pow2Add(k - 2 * s, s);
      assert k - 2 * s + s == k - s;
    } else {
      Pow2Grows(k - s, s);
    }
  }

  /** The number of bits of `m`. */
  ghost function Width(m: nat): (k: nat)
    ensures m < Pow2(k) && (if m == 0 then k == 0 else k > 0 && Pow2(k - 1) <= m)
  {
    if m == 0 then 0 else
      var k := Width(m / 2);
      OneBitMore(m, k);
      1 + k
  }

  lemma OneBitMore(m: nat, k: nat)
    requires m > 0 && m / 2 < Pow2(k) && (if m / 2 == 0 then k == 0 else k > 0 && Pow2(k - 1) <= m / 2)
    ensures m < Pow2(1 + k) && Pow2(k) <= m
  {
  }

  lemma WidthBound(m: nat, w: nat)
    requires 0 < m < Pow2(w)
    ensures Width(m) <= w
  {
    hide Pow2;
    if w < Width(m) {
      Pow2Grows(w, Width(m) - 1);
    }
  }

  lemma FullGap(k: nat)
    requires k <= 64
    ensures Gap(k, 64) == 1
  {
  }

  lemma WordWidth(n: u64)
    requires 2 < n
    ensures var k := Width(n - 1);
            && 0 < k <= 64 && Pow2(k - 1) < n <= Pow2(k) && Pow2(k) <= n - 1 + Gap(k, 1)
            && (if n <= Pow2(63) then k <= 63 && Pow2(k) < TWO_64 else Pow2(k) == TWO_64)
  {
    hide Pow2, Width;
    Pow2Base();
    var k := Width(n - 1);
    WordSize();
    WidthBound(n - 1, 64);
    Pow2Step(k);
    if n <= Pow2(63) {
      WidthBound(n - 1, 63);
      Pow2Grows(k, 63);
    } else if k <= 63 {
      Pow2Grows(k, 63);
    }
  }

  /** The least power of two that is at least `n` and at least 2, when one fits in 64 bits; zero when none does. */
  method NextPowerOfTwo(n: u64) returns (r: u64)
    ensures n <= 2 ==> r == 2
    ensures 2 < n <= Pow2(63) ==> exists k: nat :: 0 < k < 64 && r == Pow2(k) && Pow2(k - 1) < n <= Pow2(k)
    ensures n > Pow2(63) ==> r == 0
  {
    hide Pow2, Or, Shr, Width, Gap;
    WordSize();
    if n <= 2 {
      return 2;
    }
    var v: nat := n - 1;
    ghost var k := Width(v);
    WordWidth(n);
    var shift := 1;
    while shift < 64
      invariant shift in {1, 2, 4, 8, 16, 32, 64}
      invariant v < Pow2(k) <= v + Gap(k, shift)
    {
      SmearStep(v, k, shift);
      v := Or(v, Shr(v, shift));
      shift := 2 * shift;
    }
    FullGap(k);
    r := if v + 1 < TWO_64 then v + 1 else 0;
  }

  /** The ring between calls: the queue is what lies between the two indices. */
  class SpscRing<T(0)> {
    const capacity: nat
    const mask: nat
    const slots: array<T>
    var head: nat
    var tail: nat
    ghost const width: nat
    ghost var popped: nat
    ghost var queue: seq<T>

    ghost predicate Valid()
      reads this, slots
    {
      && capacity == Pow2(width) == slots.Length && capacity >= 2 && mask == capacity - 1
      && tail == Slot(popped, capacity) && head == Slot(popped + |queue|, capacity) && |queue| < capacity
      && forall i | popped <= i < popped + |queue| :: slots[Slot(i, capacity)] == queue[i - popped]
    }

    /** Room for at least the requested number of items. */
    constructor (requested: nat)
      requires requested < Pow2(63)
      ensures Valid() && queue == [] && requested <= capacity - 1 && fresh(slots)
    {
      hide Pow2, Slot;
      Pow2Base();
      WordSize();
      var c := NextPowerOfTwo(requested + 1);
      ghost var k := 1;
      if requested >= 2 {
        k :| 0 < k < 64 && c == Pow2(k) && Pow2(k - 1) < requested + 1 <= Pow2(k);
      }
      Pow2Grows(1, k);
      SlotZero(c);
      capacity, mask, slots, width := c, c - 1, new T[c], k;
      head, tail, popped, queue := 0, 0, 0, [];
    }

    function Increment(i: nat): nat {
      And(i + 1, mask)
    }

    lemma IncrementIsSuccessor(x: nat)
      requires Valid()
      ensures Increment(Slot(x, capacity)) == Slot(x + 1, capacity)
    {
      hide Slot, Pow2, And;
      MaskIsSlot(Slot(x, capacity) + 1, width);
      SlotAfter(x, capacity);
    }

    /** False exactly when `capacity - 1` items are queued. */
    method TryPush(value: T) returns (pushed: bool)
      requires Valid()
      modifies this, slots
      ensures Valid() && popped == old(popped)
      ensures pushed <==> old(|queue|) < capacity - 1
      ensures queue == if pushed then old(queue) + [value] else old(queue)
    {
      hide Slot, Pow2, And;
      var next := Increment(head);
      IncrementIsSuccessor(popped + |queue|);
      if next == tail {
        if |queue| + 1 < capacity {
          SlotsDistinct(popped, popped + |queue| + 1, capacity);
        }
        return false;
      }
      SlotWraps(popped, capacity);
      SlotsSpread(popped, |queue|, capacity);
      slots[head] := value;
      head := next;
      queue := queue + [value];
      return true;
    }

    /** False exactly when nothing is queued; otherwise the oldest item. */
    method TryPop() returns (found: bool, value: T)
      requires Valid()
      modifies this
      ensures Valid()
      ensures found <==> old(queue) != []
      ensures if found then old(queue) == [value] + queue else queue == old(queue)
    {
      hide Slot, Pow2, And;
      value := slots[tail];
      if tail == head {
        if queue != [] {
          SlotsDistinct(popped, popped + |queue|, capacity);
        }
        return false, value;
      }
      IncrementIsSuccessor(popped);
      tail := Increment(tail);
      popped, queue := popped + 1, queue[1..];
      return true, value;
    }
  }
}
