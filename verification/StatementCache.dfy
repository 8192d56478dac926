/** The least-recently-used cache of prepared statements (include/store/TradeStore.h). */
module StatementCaches {
  /** The text of a statement. */
  datatype Sql = Sql(text: string)

  function Without(keys: seq<Sql>, k: Sql): seq<Sql> {
    if keys == [] then [] else (if keys[0] == k then [] else [keys[0]]) + Without(keys[1..], k)
  }

  function Take(keys: seq<Sql>, n: nat): seq<Sql> {
    if |keys| <= n then keys else keys[..n]
  }

  /** The distinct keys of a history of uses, the most recently used first. */
  function Recent(uses: seq<Sql>): seq<Sql> {
    if uses == [] then []
    else
      var k := uses[|uses| - 1];
      [k] + Without(Recent(uses[..|uses| - 1]), k)
  }

  ghost predicate Distinct(s: seq<Sql>) {
    forall i, j | 0 <= i < j < |s| :: s[i] != s[j]
  }

  lemma DistinctCons(k: Sql, s: seq<Sql>)
    requires Distinct(s) && k !in s
    ensures Distinct([k] + s)
  {
  }

  lemma {:induction false} WithoutAbsent(keys: seq<Sql>, k: Sql)
    requires k !in keys
    ensures Without(keys, k) == keys
  {
    if keys != [] {
      WithoutAbsent(keys[1..], k);
    }
  }

  lemma {:induction false} WithoutAt(keys: seq<Sql>, i: nat)
    requires i < |keys| && Distinct(keys)
    ensures Without(keys, keys[i]) == keys[..i] + keys[i + 1..]
  {
    if i == 0 {
      WithoutAbsent(keys[1..], keys[0]);
    } else {
      WithoutAt(keys[1..], i - 1);
    }
  }

  lemma {:induction false} RecentDistinct(uses: seq<Sql>)
    ensures Distinct(Recent(uses)) && forall k :: k in Recent(uses) <==> k in uses
  {
    if uses != [] {
      var init, k := uses[..|uses| - 1], uses[|uses| - 1];
      RecentDistinct(init);
      WithoutDistinct(Recent(init), k);
      DistinctCons(k, Without(Recent(init), k));
      assert uses == init + [k];
    }
  }

  /** The key was used at position `u` and not after it. */
  ghost predicate LastUsedAt(uses: seq<Sql>, k: Sql, u: nat) {
    u < |uses| && uses[u] == k && forall v | u < v < |uses| :: uses[v] != k
  }

  lemma {:induction false} WithoutKeepsOrder(keys: seq<Sql>, k: Sql, i: nat, j: nat) returns (i': nat, j': nat)
    requires i < j < |Without(keys, k)|
    ensures i' < j' < |keys| && keys[i'] == Without(keys, k)[i] && keys[j'] == Without(keys, k)[j]
    ensures keys[i'] != k && keys[j'] != k
  {
    if keys[0] == k {
      i', j' := WithoutKeepsOrder(keys[1..], k, i, j);
      i', j' := i' + 1, j' + 1;
    } else if i == 0 {
      j' := WithoutFrom(keys[1..], k, j - 1);
      i', j' := 0, j' + 1;
    } else {
      i', j' := WithoutKeepsOrder(keys[1..], k, i - 1, j - 1);
      i', j' := i' + 1, j' + 1;
    }
  }

  lemma {:induction false} WithoutFrom(keys: seq<Sql>, k: Sql, j: nat) returns (j': nat)
    requires j < |Without(keys, k)|
    ensures j' < |keys| && keys[j'] == Without(keys, k)[j] && keys[j'] != k
  {
    if keys[0] == k {
      j' := WithoutFrom(keys[1..], k, j);
      j' := j' + 1;
    } else if j == 0 {
      j' := 0;
    } else {
      j' := WithoutFrom(keys[1..], k, j - 1);
      j' := j' + 1;
    }
  }

  /** Of two keys the one in front was used later. */
  lemma {:induction false} RecentByLastUse(uses: seq<Sql>, i: nat, j: nat) returns (u: nat, v: nat)
    requires i < j < |Recent(uses)|
    ensures LastUsedAt(uses, Recent(uses)[i], u) && LastUsedAt(uses, Recent(uses)[j], v) && v < u
  {
    hide Recent, Without, LastUsedAt;
    var n := |uses| - 1;
    RecentUnfolds(uses);
    var init, k := uses[..n], uses[n];
    var before := Recent(init);
    if i == 0 {
      var j' := WithoutFrom(before, k, j - 1);
      RecentDistinct(init);
      v := SomeLastUse(init, before[j']);
      u := n;
      StillLast(uses, before[j'], v);
      UsedLast(uses);
    } else {
      var i', j' := WithoutKeepsOrder(before, k, i - 1, j - 1);
      u, v := RecentByLastUse(init, i', j');
      StillLast(uses, before[i'], u);
      StillLast(uses, before[j'], v);
    }
  }

  lemma RecentUnfolds(uses: seq<Sql>)
    requires Recent(uses) != []
    ensures uses != []
    ensures Recent(uses) == [uses[|uses| - 1]] + Without(Recent(uses[..|uses| - 1]), uses[|uses| - 1])
  {
  }

  lemma UsedLast(uses: seq<Sql>)
    requires uses != []
    ensures LastUsedAt(uses, uses[|uses| - 1], |uses| - 1)
  {
  }

  lemma StillLast(uses: seq<Sql>, x: Sql, u: nat)
    requires uses != [] && LastUsedAt(uses[..|uses| - 1], x, u) && x != uses[|uses| - 1]
    ensures LastUsedAt(uses, x, u) && u < |uses| - 1
  {
  }

  lemma {:induction false} SomeLastUse(uses: seq<Sql>, k: Sql) returns (u: nat)
    requires k in uses
    ensures LastUsedAt(uses, k, u)
  {
    var n := |uses| - 1;
    if uses[n] == k {
      u := n;
    } else {
      assert uses == uses[..n] + [uses[n]];
      u := SomeLastUse(uses[..n], k);
    }
  }

  lemma {:induction false} WithoutDistinct(keys: seq<Sql>, k: Sql)
    requires Distinct(keys)
    ensures Distinct(Without(keys, k)) && forall x :: x in Without(keys, k) <==> x in keys && x != k
  {
    if keys != [] {
      WithoutDistinct(keys[1..], k);
      if keys[0] != k {
        DistinctCons(keys[0], Without(keys[1..], k));
        assert Without(keys, k) == [keys[0]] + Without(keys[1..], k);
      } else {
        assert Without(keys, k) == Without(keys[1..], k);
      }
    }
  }

  /** The list with its element `i` moved to the front. */
  function ToFront<T>(s: seq<T>, i: nat): seq<T>
    requires i < |s|
  {
    seq(|s|, j requires 0 <= j < |s| => if j == 0 then s[i] else if j <= i then s[j - 1] else s[j])
  }

  lemma ToFrontMember<T>(s: seq<T>, i: nat, x: T)
    requires i < |s|
    ensures x in ToFront(s, i) <==> x in s
  {
    var r := ToFront(s, i);
    if x in s {
      var j :| 0 <= j < |s| && s[j] == x;
      assert r[if j == i then 0 else if j < i then j + 1 else j] == x;
    }
  }

  lemma Spliced(s: seq<Sql>, i: nat)
    requires i < |s|
    ensures [s[i]] + (s[..i] + s[i + 1..]) == ToFront(s, i)
  {
  }

  lemma TakeToFront(s: seq<Sql>, n: nat, i: nat)
    requires i < n && i < |s|
    ensures Take(ToFront(s, i), n) == ToFront(Take(s, n), i)
  {
  }

  /** Using a cached key moves it to the front. */
  lemma HitIsRecent(all: seq<Sql>, n: nat, i: nat)
    requires Distinct(all) && i < n && i < |all|
    ensures Take([all[i]] + Without(all, all[i]), n) == ToFront(Take(all, n), i)
  {
    hide Without, Take, ToFront;
    WithoutAt(all, i);
    Spliced(all, i);
    TakeToFront(all, n, i);
  }

  /** Using a new key puts it in front and drops what no longer fits. */
  lemma MissIsRecent(all: seq<Sql>, n: nat, k: Sql)
    requires Distinct(all) && n >= 1 && k !in Take(all, n)
    ensures Take([k] + Without(all, k), n) == [k] + Take(Take(all, n), n - 1)
  {
    hide Without, Take;
    if k in all {
      var i :| 0 <= i < |all| && all[i] == k;
      if i < n {
        TakeHas(all, n, i);
        assert false;
      }
      WithoutAt(all, i);
      EvictedAlready(all, n, i);
    } else {
      WithoutAbsent(all, k);
      TakeCons(all, n, k);
    }
  }

  lemma TakeHas(s: seq<Sql>, n: nat, i: nat)
    requires i < n && i < |s|
    ensures s[i] in Take(s, n)
  {
    assert Take(s, n)[i] == s[i];
  }

  lemma TakeCons(s: seq<Sql>, n: nat, k: Sql)
    requires n >= 1
    ensures Take([k] + s, n) == [k] + Take(Take(s, n), n - 1)
  {
  }

  lemma EvictedAlready(s: seq<Sql>, n: nat, i: nat)
    requires 1 <= n <= i < |s|
    ensures Take([s[i]] + (s[..i] + s[i + 1..]), n) == [s[i]] + Take(Take(s, n), n - 1)
  {
  }

  /** A list node: its identity is what the index refers to. */
  datatype Entry = Entry(node: nat, sql: Sql)

  function Keys(lru: seq<Entry>): seq<Sql> {
    seq(|lru|, i requires 0 <= i < |lru| => lru[i].sql)
  }

  /** The index maps exactly the listed keys, each to its own node. */
  ghost predicate Indexed(lru: seq<Entry>, index: map<Sql, nat>) {
    forall e :: e in lru <==> e.sql in index && index[e.sql] == e.node
  }

  ghost predicate NodesBelow(lru: seq<Entry>, bound: nat) {
    && (forall e | e in lru :: e.node < bound)
    && (forall e, e' | e in lru && e' in lru && e.node == e'.node :: e == e')
  }

  lemma ToFrontIndexed(lru: seq<Entry>, index: map<Sql, nat>, i: nat, bound: nat)
    requires Indexed(lru, index) && NodesBelow(lru, bound) && i < |lru|
    ensures Indexed(ToFront(lru, i), index) && NodesBelow(ToFront(lru, i), bound)
    ensures Keys(ToFront(lru, i)) == ToFront(Keys(lru), i)
  {
    forall e ensures e in ToFront(lru, i) <==> e in lru {
      ToFrontMember(lru, i, e);
    }
  }

  lemma DropLastIndexed(lru: seq<Entry>, index: map<Sql, nat>, bound: nat)
    requires Indexed(lru, index) && NodesBelow(lru, bound) && Distinct(Keys(lru)) && lru != []
    ensures var init := lru[..|lru| - 1];
            && Indexed(init, index - {lru[|lru| - 1].sql}) && NodesBelow(init, bound)
            && Keys(init) == Keys(lru)[..|lru| - 1]
  {
    var init, last := lru[..|lru| - 1], lru[|lru| - 1];
    assert lru == init + [last];
    forall e | e in init ensures e.sql != last.sql {
      var i :| 0 <= i < |init| && init[i] == e;
      assert Keys(lru)[i] != Keys(lru)[|lru| - 1];
    }
  }

  lemma PushIndexed(lru: seq<Entry>, index: map<Sql, nat>, sql: Sql, node: nat)
    requires Indexed(lru, index) && NodesBelow(lru, node) && sql !in index
    ensures var r := [Entry(node, sql)] + lru;
            Indexed(r, index[sql := node]) && NodesBelow(r, node + 1) && Keys(r) == [sql] + Keys(lru)
  {
  }

  method Position(lru: seq<Entry>, node: nat) returns (i: nat)
    requires exists j | 0 <= j < |lru| :: lru[j].node == node
    ensures i < |lru| && lru[i].node == node
  {
    i := 0;
    while lru[i].node != node
      invariant i < |lru| && forall j | 0 <= j < i :: lru[j].node != node
      decreases |lru| - i
    {
      i := i + 1;
    }
  }

  class StatementCache {
    const capacity: nat
    var lru: seq<Entry>
    var index: map<Sql, nat>
    var nextNode: nat
    ghost var uses: seq<Sql>

    /** The list is the most recently used distinct keys, newest first, as many as fit; the index maps exactly these
        keys, each to its own node. */
    ghost predicate Valid()
      reads this
    {
      && capacity >= 1 && Keys(lru) == Take(Recent(uses), capacity)
      && Indexed(lru, index) && NodesBelow(lru, nextNode)
    }

    constructor (capacity: nat)
      requires capacity >= 1
      ensures Valid() && this.capacity == capacity && uses == []
    {
      this.capacity, lru, index, nextNode, uses := capacity, [], map[], 0, [];
    }

    method Hit(sql: Sql) returns (node: nat)
      requires Valid() && sql in index
      modifies this`lru, this`uses
      ensures Valid() && uses == old(uses) + [sql]
      ensures lru != [] && lru[0] == Entry(node, sql) && node == index[sql]
    {
      RecentDistinct(uses);
      RecentStep(uses, sql);
      node := index[sql];
      assert Entry(node, sql) in lru;
      var i := Position(lru, node);
      assert lru[i] in lru;
      ToFrontIndexed(lru, index, i, nextNode);
      HitIsRecent(Recent(uses), capacity, i);
      assert Keys(lru)[i] == Recent(uses)[i];
      hide Indexed, NodesBelow, Take, Without, Recent;
      lru := ToFront(lru, i);
      uses := uses + [sql];
    }

    /** Make room for one more entry. */
    method Evict()
      requires capacity >= 1 && |lru| <= capacity && Indexed(lru, index)
      requires NodesBelow(lru, nextNode) && Distinct(Keys(lru))
      modifies this`lru, this`index
      ensures Indexed(lru, index) && NodesBelow(lru, nextNode) && Keys(lru) == Take(old(Keys(lru)), capacity - 1)
      ensures index.Keys <= old(index.Keys)
    {
      if |lru| == capacity {
        hide Indexed, NodesBelow, Distinct;
        DropLastIndexed(lru, index, nextNode);
        index := index - {lru[|lru| - 1].sql};
        lru := lru[..|lru| - 1];
      }
    }

    method Miss(sql: Sql) returns (node: nat)
      requires Valid() && sql !in index
      modifies this
      ensures Valid() && uses == old(uses) + [sql]
      ensures lru != [] && lru[0] == Entry(node, sql) && node == old(nextNode)
    {
      RecentDistinct(uses);
      RecentStep(uses, sql);
      NotListed(lru, index, sql);
      MissIsRecent(Recent(uses), capacity, sql);
      TakeDistinct(Recent(uses), capacity);
      assert |Keys(lru)| == |lru|;
      hide Indexed, NodesBelow, Without, Recent, Keys, Distinct, Take;
      Evict();
      node := nextNode;
      PushIndexed(lru, index, sql, node);
      nextNode := nextNode + 1;
      lru := [Entry(node, sql)] + lru;
      index := index[sql := node];
      uses := uses + [sql];
    }

    /** A statement leaves the cache only for want of room. */
    lemma HoldsAllThatFits()
      requires Valid()
      ensures |lru| <= capacity
      ensures |lru| < capacity ==> forall k :: k in index <==> k in uses
    {
      RecentDistinct(uses);
      assert |Keys(lru)| == |lru|;
      if |lru| < capacity {
        assert Keys(lru) == Recent(uses);
        forall k ensures k in index <==> k in Keys(lru) {
          if k in index {
            assert Entry(index[k], k) in lru;
            var i :| 0 <= i < |lru| && lru[i] == Entry(index[k], k);
            assert Keys(lru)[i] == k;
          }
          if k in Keys(lru) {
            var i :| 0 <= i < |lru| && Keys(lru)[i] == k;
            assert lru[i] in lru;
          }
        }
      }
    }

    /** A cached statement is returned as it is; any other is prepared anew. */
    method Get(sql: Sql) returns (node: nat)
      requires Valid()
      modifies this
      ensures Valid() && uses == old(uses) + [sql]
      ensures lru != [] && lru[0] == Entry(node, sql)
      ensures if sql in old(index) then node == old(index[sql]) else forall e | e in old(lru) :: e.node != node
    {
      if sql in index {
        node := Hit(sql);
      } else {
        node := Miss(sql);
      }
    }
  }

  lemma TakeDistinct(s: seq<Sql>, n: nat)
    requires Distinct(s)
    ensures Distinct(Take(s, n)) && |Take(s, n)| <= n
  {
  }

  lemma RecentStep(uses: seq<Sql>, k: Sql)
    ensures Recent(uses + [k]) == [k] + Without(Recent(uses), k)
  {
  }

  lemma NotListed(lru: seq<Entry>, index: map<Sql, nat>, k: Sql)
    requires Indexed(lru, index) && k !in index
    ensures k !in Keys(lru)
  {
  }
}
