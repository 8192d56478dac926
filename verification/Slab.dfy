/** The order slab (include/core/SlabPool.h): a fixed block of slots. A pointer is a slot number, so that a stale
    pointer and a freed slot are things the model can speak about. A free slot keeps the free-list link in its first
    word, which is the `next` field of an order (include/core/Order.h). */
module Slab {
  import opened Protocol

  const NULL: int := -1

  datatype Cell = Cell(next: int, prev: int, ticket: Ticket, orderType: OrderType)

  const BLANK_TICKET: Ticket := Ticket(0, 0, 0, 0, 0, BUY)
  const BLANK_CELL: Cell := Cell(NULL, NULL, BLANK_TICKET, LIMIT)

  type Mem = seq<Cell>

  ghost predicate NoDup(s: seq<int>) {
    forall i, j | 0 <= i < j < |s| :: s[i] != s[j]
  }

  ghost predicate InMem(mem: Mem, s: seq<int>) {
    forall i | 0 <= i < |s| :: 0 <= s[i] < |mem|
  }

  predicate IsSlot(a: int, n: nat) {
    0 <= a < n
  }

  ghost function Slots(n: nat): set<int> {
    set a {:trigger IsSlot(a, n)} | 0 <= a < n && IsSlot(a, n)
  }

  ghost function Elements(s: seq<int>): set<int> {
    set a | a in s
  }

  lemma {:induction false} NoDupCount(s: seq<int>)
    requires NoDup(s)
    ensures |Elements(s)| == |s|
  {
    if s != [] {
      NoDupCount(s[1..]);
      assert Elements(s) == {s[0]} + Elements(s[1..]);
    }
  }

  lemma {:induction false} SlotsCount(n: nat)
    ensures |Slots(n)| == n
  {
    if n > 0 {
      SlotsCount(n - 1);
      assert Slots(n) == Slots(n - 1) + {n - 1};
    }
  }

  lemma SubsetCount(a: set<int>, b: set<int>)
    requires a <= b
    ensures |a| <= |b| && |b - a| == |b| - |a|
  {
  }

  /** `s` is the chain of `next` links from `head`: acyclic, inside the slab, and null at its end. */
  ghost predicate FreeChain(mem: Mem, head: int, s: seq<int>) {
    && InMem(mem, s) && NoDup(s)
    && head == (if s == [] then NULL else s[0])
    && (s != [] ==> mem[s[|s| - 1]].next == NULL)
    && (forall i | 0 <= i < |s| - 1 :: mem[s[i]].next == s[i + 1])
  }

  /** A free list survives any write to slots it does not hold. */
  lemma FreeChainFrame(mem: Mem, mem': Mem, head: int, s: seq<int>)
    requires FreeChain(mem, head, s) && |mem'| == |mem|
    requires forall a | a in s :: mem'[a] == mem[a]
    ensures FreeChain(mem', head, s)
  {
  }

  lemma FreeChainTail(mem: Mem, head: int, s: seq<int>)
    requires FreeChain(mem, head, s) && s != []
    ensures FreeChain(mem, mem[head].next, s[1..]) && Elements(s[1..]) == Elements(s) - {head}
  {
    hide Elements;
    ElementsTail(s);
    var r := s[1..];
    forall i | 0 <= i < |r| - 1 ensures mem[r[i]].next == r[i + 1] {
      assert r[i] == s[i + 1] && r[i + 1] == s[i + 2];
    }
  }

  lemma ElementsTail(s: seq<int>)
    requires s != [] && NoDup(s)
    ensures Elements(s[1..]) == Elements(s) - {s[0]} && NoDup(s[1..])
  {
    var r := s[1..];
    assert s == [s[0]] + r;
    assert s[0] !in r;
  }

  lemma FreeChainPush(mem: Mem, head: int, s: seq<int>, a: int)
    requires FreeChain(mem, head, s) && 0 <= a < |mem| && a !in s
    ensures FreeChain(mem[a := mem[a].(next := head)], a, [a] + s)
  {
  }

  class SlabPool {
    var cells: Mem
    var freeHead: int
    var allocatedCount: nat
    ghost var free: seq<int>

    /** The free list is an acyclic chain of distinct slots, and `allocatedCount` counts the other slots. */
    ghost predicate Valid()
      reads this
    {
      FreeChain(cells, freeHead, free) && allocatedCount + |free| == |cells|
    }

    /** The slots in use. */
    ghost function Leased(): set<int>
      reads this
    {
      Slots(|cells|) - Elements(free)
    }

    lemma LeasedCount()
      requires Valid()
      ensures allocatedCount == |Leased()|
    {
      NoDupCount(free);
      SlotsCount(|cells|);
      SubsetCount(Elements(free), Slots(|cells|));
    }

    /** Every slot starts on the free list. */
    constructor (capacity: nat)
      ensures Valid() && |cells| == capacity && Leased() == {} && allocatedCount == 0
    {
      cells, freeHead, free := seq(capacity, _ => BLANK_CELL), NULL, [];
      allocatedCount := capacity;
      new;
      for i := 0 to capacity
        invariant Valid() && |cells| == capacity && |free| == i && Elements(free) == Slots(i)
      {
        assert i !in Elements(free);
        PushFree(i);
        allocatedCount := allocatedCount - 1;
      }
    }

    method PushFree(a: int)
      requires FreeChain(cells, freeHead, free) && 0 <= a < |cells| && a !in free
      modifies this`cells, this`freeHead, this`free
      ensures FreeChain(cells, freeHead, free)
      ensures free == [a] + old(free) && Elements(free) == Elements(old(free)) + {a}
      ensures cells == old(cells)[a := cells[a]] && cells[a].ticket == old(cells[a].ticket)
    {
      FreeChainPush(cells, freeHead, free, a);
      cells := cells[a := cells[a].(next := freeHead)];
      freeHead := a;
      free := [a] + free;
    }

    method PopFree() returns (a: int)
      requires FreeChain(cells, freeHead, free) && free != []
      modifies this`freeHead, this`free
      ensures FreeChain(cells, freeHead, free)
      ensures old(free) == [a] + free && Elements(free) == Elements(old(free)) - {a}
    {
      FreeChainTail(cells, freeHead, free);
      a := freeHead;
      freeHead := cells[a].next;
      free := free[1..];
    }

    /** NULL exactly when no slot is free; otherwise a slot that was free, default-constructed. */
    method Allocate() returns (a: int)
      requires Valid()
      modifies this
      ensures Valid()
      ensures a == NULL <==> old(free) == []
      ensures a == NULL ==> cells == old(cells) && free == old(free) && allocatedCount == old(allocatedCount)
      ensures a != NULL ==>
                && a in old(free) && a !in free && a !in old(Leased()) && Leased() == old(Leased()) + {a}
                && cells == old(cells)[a := BLANK_CELL]
    {
      if freeHead == NULL {
        a := NULL;
      } else {
        a := PopFree();
        allocatedCount := allocatedCount + 1;
        assert a in old(free) && a !in Elements(free);
        cells := cells[a := BLANK_CELL];
        FreeChainFrame(old(cells), cells, freeHead, free);
      }
    }

    /** Give back a slot that is in use; the count cannot run below zero. NULL is ignored. */
    method Deallocate(a: int)
      requires Valid() && (a == NULL || a in Leased())
      modifies this
      ensures Valid()
      ensures a == NULL ==> cells == old(cells) && free == old(free) && allocatedCount == old(allocatedCount)
      ensures a != NULL ==>
                && Leased() == old(Leased()) - {a} && Elements(free) == Elements(old(free)) + {a}
                && cells == old(cells)[a := cells[a]]
    {
      if a == NULL {
        return;
      }
      assert allocatedCount > 0 by {
        LeasedCount();
        assert |Leased()| > 0;
      }
      assert a !in Elements(free);
      PushFree(a);
      allocatedCount := allocatedCount - 1;
    }
  }
}
