/** The intrusive FIFO of one price level (include/core/PriceLevel.h). A level is a value inside the book's maps; its
    orders are slots of the slab, linked both ways. */
module PriceLevels {
  import opened Protocol
  import opened Ladders
  import opened Slab

  datatype PriceLevel = PriceLevel(head: int, tail: int, totalQty: u64, orderCount: u32)

  const EMPTY_LEVEL: PriceLevel := PriceLevel(NULL, NULL, 0, 0)

  /** `s` is a doubly linked chain: acyclic, inside the slab, null at both ends. */
  ghost predicate Linked(mem: Mem, s: seq<int>) {
    && InMem(mem, s) && NoDup(s)
    && (s != [] ==> mem[s[0]].prev == NULL && mem[s[|s| - 1]].next == NULL)
    && (forall i | 0 <= i < |s| - 1 :: mem[s[i]].next == s[i + 1])
    && (forall i | 0 < i < |s| :: mem[s[i]].prev == s[i - 1])
  }

  /** The orders of a chain, as values. */
  ghost function Tickets(mem: Mem, s: seq<int>): (r: seq<Ticket>)
    requires InMem(mem, s)
    ensures |r| == |s|
  {
    seq(|s|, i requires 0 <= i < |s| => mem[s[i]].ticket)
  }

  /** Head and tail delimit the chain, and both caches are exact. */
  ghost predicate LevelExact(mem: Mem, lv: PriceLevel, s: seq<int>) {
    && Linked(mem, s)
    && lv.head == (if s == [] then NULL else s[0])
    && lv.tail == (if s == [] then NULL else s[|s| - 1])
    && lv.orderCount == |s|
    && lv.totalQty == Remains(Tickets(mem, s))
  }

  /** From `mem` to `mem'` only the list links of the slots in `touched` may change. */
  ghost predicate LinksWithin(mem: Mem, mem': Mem, touched: set<int>) {
    && |mem'| == |mem|
    && (forall a | 0 <= a < |mem| :: mem'[a].ticket == mem[a].ticket && mem'[a].orderType == mem[a].orderType)
    && (forall a | 0 <= a < |mem| && a !in touched :: mem'[a] == mem[a])
  }

  /** Only the links of the chain `s` may change. */
  ghost predicate Relinked(mem: Mem, mem': Mem, s: seq<int>) {
    LinksWithin(mem, mem', Elements(s))
  }

  lemma TicketsFrame(mem: Mem, mem': Mem, s: seq<int>)
    requires InMem(mem, s) && |mem'| == |mem|
    requires forall a | a in s :: mem'[a].ticket == mem[a].ticket
    ensures InMem(mem', s) && Tickets(mem', s) == Tickets(mem, s)
  {
  }

  lemma LevelFrame(mem: Mem, mem': Mem, lv: PriceLevel, s: seq<int>)
    requires LevelExact(mem, lv, s) && |mem'| == |mem|
    requires forall a | a in s :: mem'[a] == mem[a]
    ensures LevelExact(mem', lv, s)
  {
    assert forall i | 0 <= i < |s| :: s[i] in s;
    TicketsFrame(mem, mem', s);
  }

  /** The chain after linking `a` behind its tail. */
  function LinkTail(mem: Mem, tail: int, a: int): Mem
    requires 0 <= a < |mem| && (tail == NULL || 0 <= tail < |mem|) && tail != a
  {
    var mem' := mem[a := mem[a].(next := NULL, prev := tail)];
    if tail != NULL then mem'[tail := mem'[tail].(next := a)] else mem'
  }

  lemma LinkedIf(mem: Mem, s: seq<int>)
    requires InMem(mem, s) && NoDup(s)
    requires s != [] ==> mem[s[0]].prev == NULL && mem[s[|s| - 1]].next == NULL
    requires forall i | 0 <= i < |s| - 1 :: mem[s[i]].next == s[i + 1] && mem[s[i + 1]].prev == s[i]
    ensures Linked(mem, s)
  {
    forall i | 0 < i < |s| ensures mem[s[i]].prev == s[i - 1] {
      assert mem[s[i - 1]].next == s[i - 1 + 1];
    }
  }

  lemma LinkTailPair(mem: Mem, s: seq<int>, a: int, i: nat)
    requires Linked(mem, s) && 0 <= a < |mem| && a !in s && i < |s|
    ensures var mem' := LinkTail(mem, s[|s| - 1], a);
            && mem'[s[i]].next == (if i + 1 < |s| then s[i + 1] else a)
            && mem'[s[i]].prev == (if i > 0 then s[i - 1] else NULL)
  {
    assert s[i] != a && (i + 1 < |s| ==> s[i] != s[|s| - 1]);
  }

  lemma LinkTailLinks(mem: Mem, s: seq<int>, a: int)
    requires Linked(mem, s) && 0 <= a < |mem| && a !in s
    ensures var tail := if s == [] then NULL else s[|s| - 1];
            tail != a && Linked(LinkTail(mem, tail, a), s + [a]) && Relinked(mem, LinkTail(mem, tail, a), s + [a])
  {
    var tail := if s == [] then NULL else s[|s| - 1];
    var mem' := LinkTail(mem, tail, a);
    var r := s + [a];
    assert |mem'| == |mem| && InMem(mem, s) && NoDup(s) && mem'[a].prev == tail && mem'[a].next == NULL;
    assert forall i | 0 <= i < |s| :: r[i] == s[i] && s[i] != a;
    LinkTailWithin(mem, tail, a, Elements(r));
    hide LinksWithin, Linked, LinkTail, Elements;
    if s != [] {
      LinkTailPair(mem, s, a, 0);
    }
    forall i | 0 <= i < |r| - 1 ensures mem'[r[i]].next == r[i + 1] && mem'[r[i + 1]].prev == r[i] {
      LinkTailPair(mem, s, a, i);
      if i + 1 < |s| {
        LinkTailPair(mem, s, a, i + 1);
      }
    }
    LinkedIf(mem', r);
  }

  lemma LinkTailWithin(mem: Mem, tail: int, a: int, touched: set<int>)
    requires 0 <= a < |mem| && a in touched && tail != a
    requires tail == NULL || (0 <= tail < |mem| && tail in touched)
    ensures LinksWithin(mem, LinkTail(mem, tail, a), touched)
  {
  }

  lemma TicketsAppend(mem: Mem, s: seq<int>, a: int)
    requires InMem(mem, s) && 0 <= a < |mem|
    ensures Tickets(mem, s + [a]) == Tickets(mem, s) + [mem[a].ticket]
    ensures Remains(Tickets(mem, s + [a])) == Remains(Tickets(mem, s)) + mem[a].ticket.Remaining()
    ensures Remains(Tickets(mem, s + [a])) <= (|s| + 1) * (TWO_32 - 1)
  {
    assert Tickets(mem, s + [a]) == Tickets(mem, s) + [mem[a].ticket];
    RemainsConcat(Tickets(mem, s), [mem[a].ticket]);
    RemainsBound(Tickets(mem, s + [a]));
  }

  /** Tail insert. The caches do not overflow while a level holds fewer than 2^32 orders. */
  method AddOrder(pool: SlabPool, lv: PriceLevel, a: int, ghost s: seq<int>) returns (r: PriceLevel)
    requires LevelExact(pool.cells, lv, s) && 0 <= a < |pool.cells| && a !in s && |s| + 1 < TWO_32
    modifies pool`cells
    ensures LevelExact(pool.cells, r, s + [a]) && Relinked(old(pool.cells), pool.cells, s + [a])
  {
    LinkTailLinks(pool.cells, s, a);
    TicketsAppend(pool.cells, s, a);
    ghost var mem := pool.cells;
    pool.cells := pool.cells[a := pool.cells[a].(next := NULL, prev := lv.tail)];
    var head := lv.head;
    if lv.tail != NULL {
      pool.cells := pool.cells[lv.tail := pool.cells[lv.tail].(next := a)];
    } else {
      head := a;
    }
    assert pool.cells == LinkTail(mem, lv.tail, a);
    TicketsFrame(mem, pool.cells, s + [a]);
    r := PriceLevel(head, a, lv.totalQty + pool.cells[a].ticket.Remaining(), lv.orderCount + 1);
  }

  /** Memory after taking `a` out of its chain. */
  function Unlinked(mem: Mem, a: int): Mem
    requires 0 <= a < |mem|
    requires mem[a].prev == NULL || 0 <= mem[a].prev < |mem|
    requires mem[a].next == NULL || 0 <= mem[a].next < |mem|
  {
    var prev, next := mem[a].prev, mem[a].next;
    var m1 := if prev != NULL then mem[prev := mem[prev].(next := next)] else mem;
    var m2 := if next != NULL then m1[next := m1[next].(prev := prev)] else m1;
    m2[a := m2[a].(next := NULL, prev := NULL)]
  }

  /** From `mem` to `mem'`, `a`'s two neighbours are joined; tickets are untouched. */
  ghost predicate Spliced(mem: Mem, mem': Mem, a: int)
    requires 0 <= a < |mem|
  {
    && |mem'| == |mem|
    && (forall x | 0 <= x < |mem| :: mem'[x].ticket == mem[x].ticket && mem'[x].orderType == mem[x].orderType)
    && (forall x | 0 <= x < |mem| && x != a ::
          && mem'[x].next == (if x == mem[a].prev then mem[a].next else mem[x].next)
          && mem'[x].prev == (if x == mem[a].next then mem[a].prev else mem[x].prev))
  }

  lemma UnlinkedSplices(mem: Mem, a: int)
    requires 0 <= a < |mem|
    requires mem[a].prev == NULL || 0 <= mem[a].prev < |mem|
    requires mem[a].next == NULL || 0 <= mem[a].next < |mem|
    requires mem[a].prev != a && mem[a].next != a
    ensures Spliced(mem, Unlinked(mem, a), a)
  {
  }

  ghost predicate Neighbours(mem: Mem, s: seq<int>, k: nat)
    requires InMem(mem, s) && k < |s|
  {
    && mem[s[k]].prev == (if k > 0 then s[k - 1] else NULL)
    && mem[s[k]].next == (if k + 1 < |s| then s[k + 1] else NULL)
  }

  /** Position `i` of the chain without position `k`. */
  function Past(k: nat, i: nat): nat {
    if i < k then i else i + 1
  }

  lemma SplicedPair(mem: Mem, mem': Mem, s: seq<int>, k: nat, i: nat)
    requires Linked(mem, s) && k < |s| && Neighbours(mem, s, k) && Spliced(mem, mem', s[k]) && i + 2 < |s|
    ensures mem'[s[Past(k, i)]].next == s[Past(k, i + 1)] && mem'[s[Past(k, i + 1)]].prev == s[Past(k, i)]
  {
    var x, y := Past(k, i), Past(k, i + 1);
    assert s[x] != s[k] && s[y] != s[k];
    if i + 1 == k {
      assert s[x] == mem[s[k]].prev && s[y] == mem[s[k]].next;
    } else {
      assert mem[s[x]].next == s[y] && mem[s[y]].prev == s[x];
    }
  }

  lemma SplicedEnds(mem: Mem, mem': Mem, s: seq<int>, k: nat)
    requires Linked(mem, s) && k < |s| && Neighbours(mem, s, k) && Spliced(mem, mem', s[k]) && |s| > 1
    ensures mem'[s[Past(k, 0)]].prev == NULL && mem'[s[Past(k, |s| - 2)]].next == NULL
  {
    assert s[Past(k, 0)] != s[k] && s[Past(k, |s| - 2)] != s[k];
  }

  lemma PastPositions(s: seq<int>, k: nat)
    requires k < |s|
    ensures forall i | 0 <= i < |s| - 1 :: (s[..k] + s[k + 1..])[i] == s[Past(k, i)]
  {
  }

  lemma SplicedLinks(mem: Mem, mem': Mem, s: seq<int>, k: nat)
    requires Linked(mem, s) && k < |s| && Neighbours(mem, s, k) && Spliced(mem, mem', s[k])
    ensures Linked(mem', s[..k] + s[k + 1..])
  {
    PastPositions(s, k);
    SplicedChain(mem, mem', s, k, s[..k] + s[k + 1..]);
  }

  lemma SplicedChain(mem: Mem, mem': Mem, s: seq<int>, k: nat, r: seq<int>)
    requires Linked(mem, s) && k < |s| && Neighbours(mem, s, k) && Spliced(mem, mem', s[k])
    requires |r| == |s| - 1 && forall i | 0 <= i < |r| :: r[i] == s[Past(k, i)]
    ensures Linked(mem', r)
  {
    assert |mem'| == |mem| && InMem(mem, s) && NoDup(s);
    hide Linked, Neighbours, Spliced;
    if r != [] {
      SplicedEnds(mem, mem', s, k);
    }
    forall i | 0 <= i < |r| - 1 ensures mem'[r[i]].next == r[i + 1] && mem'[r[i + 1]].prev == r[i] {
      SplicedPair(mem, mem', s, k, i);
    }
    LinkedIf(mem', r);
  }

  lemma SplicedRelinks(mem: Mem, mem': Mem, s: seq<int>, k: nat)
    requires Linked(mem, s) && k < |s| && Neighbours(mem, s, k) && Spliced(mem, mem', s[k])
    ensures Relinked(mem, mem', s)
  {
  }

  lemma TicketsDrop(mem: Mem, s: seq<int>, k: nat)
    requires InMem(mem, s) && k < |s|
    ensures var r := s[..k] + s[k + 1..];
            var t := Tickets(mem, s);
            && InMem(mem, r) && Tickets(mem, r) == t[..k] + t[k + 1..]
            && Remains(Tickets(mem, r)) == Remains(t) - mem[s[k]].ticket.Remaining()
  {
    var r := s[..k] + s[k + 1..];
    var t := Tickets(mem, s);
    assert Tickets(mem, r) == t[..k] + t[k + 1..];
    assert t == t[..k] + [t[k]] + t[k + 1..];
    RemainsConcat(t[..k] + [t[k]], t[k + 1..]);
    RemainsConcat(t[..k], [t[k]]);
    RemainsConcat(t[..k], t[k + 1..]);
  }

  lemma UnlinkOk(mem: Mem, s: seq<int>, k: nat)
    requires Linked(mem, s) && k < |s|
    ensures Neighbours(mem, s, k)
    ensures var r, mem' := s[..k] + s[k + 1..], Unlinked(mem, s[k]);
            && Linked(mem', r) && Relinked(mem, mem', s)
            && Remains(Tickets(mem', r)) == Remains(Tickets(mem, s)) - mem[s[k]].ticket.Remaining()
  {
    assert Neighbours(mem, s, k);
    var mem' := Unlinked(mem, s[k]);
    UnlinkedSplices(mem, s[k]);
    SplicedLinks(mem, mem', s, k);
    SplicedRelinks(mem, mem', s, k);
    TicketsDrop(mem, s, k);
    TicketsFrame(mem, mem', s[..k] + s[k + 1..]);
  }

  /** Unlink the order at position `k`, wherever it is in the chain; neither cache underflows. */
  method RemoveOrder(pool: SlabPool, lv: PriceLevel, a: int, ghost s: seq<int>, ghost k: nat) returns (r: PriceLevel)
    requires LevelExact(pool.cells, lv, s) && k < |s| && s[k] == a
    modifies pool`cells
    ensures LevelExact(pool.cells, r, s[..k] + s[k + 1..]) && Relinked(old(pool.cells), pool.cells, s)
    ensures pool.cells[a].next == NULL && pool.cells[a].prev == NULL
  {
    hide Relinked, Remains;
    UnlinkOk(pool.cells, s, k);
    var mem := pool.cells;
    var prev, next := mem[a].prev, mem[a].next;
    var head, tail := lv.head, lv.tail;
    if prev != NULL {
      mem := mem[prev := mem[prev].(next := next)];
    } else {
      head := next;
    }
    if next != NULL {
      mem := mem[next := mem[next].(prev := prev)];
    } else {
      tail := prev;
    }
    mem := mem[a := mem[a].(next := NULL, prev := NULL)];
    assert mem == Unlinked(pool.cells, a);
    pool.cells := mem;
    r := PriceLevel(head, tail, lv.totalQty - mem[a].ticket.Remaining(), lv.orderCount - 1);
  }

  /** Saturating subtraction. */
  function DecreaseTotalQty(lv: PriceLevel, q: u32): PriceLevel {
    lv.(totalQty := if q > lv.totalQty then 0 else lv.totalQty - q)
  }
}
