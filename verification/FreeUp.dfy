/**
 server/backend/backend.c:169-206: making room in a cache tier, over the policy of LruPolicy and
 a driver that keeps a count of free bytes (server/backend/be_localfs.c:545-558, 812-877). The
 callbacks that call each other are a loop here.
 */
module FreeUp {
  import opened Wrappers
  import LruPolicy

  type Key = string

  datatype State = State(policy: LruPolicy.State, sizes: map<Key, nat>, free: nat)

  function SizeOf(sizes: map<Key, nat>, k: Key): nat { if k in sizes then sizes[k] else 0 }

  /** The driver's evict, for the key its policy chose. */
  ghost function Drop(st: State, policy: LruPolicy.State, k: Key): State {
    State(policy, st.sizes - {k}, st.free + SizeOf(st.sizes, k))
  }

  /** Evict until the value fits, nothing more can be evicted, or a file cannot be unlinked; by then
      the policy has already dropped that key. */
  ghost function Freed(st: State, len: nat, unlinks: Key -> bool): (State, bool)
    requires LruPolicy.Inv(st.policy)
    decreases |st.policy.list|
  {
    if len <= st.free then (st, true)
    else
      var (policy, k) := LruPolicy.Evicted(st.policy);
      if k.None? then (st, false)
      else if !unlinks(k.value) then (st.(policy := policy), false)
      else
        EvictShrinks(st.policy);
        Freed(Drop(st, policy, k.value), len, unlinks)
  }

  lemma {:induction false} EvictShrinks(p: LruPolicy.State)
    requires LruPolicy.Inv(p) && LruPolicy.Evicted(p).1.Some?
    ensures |LruPolicy.Evicted(p).0.list| < |p.list| && LruPolicy.Inv(LruPolicy.Evicted(p).0)
  {
    LruPolicy.StepInv(p, LruPolicy.OpEvict);
    var i :| LruPolicy.Victim(p, i) && LruPolicy.Evicted(p) == (LruPolicy.Remove(p, p.list[i]), Some(p.list[i]));
    LessShorter(p.list, p.list[i]);
  }

  lemma {:induction false} NothingToEvict(p: LruPolicy.State)
    requires LruPolicy.Evicted(p).1.None?
    ensures LruPolicy.Evicted(p).0 == p
  {
  }

  lemma {:induction false} LessShorter(list: seq<Key>, k: Key)
    requires k in list
    ensures |LruPolicy.Less(list, k)| == |list| - 1
  {
    if list[0] != k { LessShorter(list[1..], k); }
  }

  // ---------------------------------------------------------------- which keys, in which order

  predicate IdleKey(refs: map<Key, nat>, k: Key) { k in refs && refs[k] == 0 }

  /** The idle keys from the old end on, up to the point where 128 keys in use are older. */
  function Order(list: seq<Key>, refs: map<Key, nat>, busy: nat): seq<Key> {
    if list == [] || busy >= LruPolicy.MAX_ATTEMPTS then []
    else
      var n := |list| - 1;
      if IdleKey(refs, list[n]) then [list[n]] + Order(list[..n], refs, busy) else Order(list[..n], refs, busy + 1)
  }

  ghost function Victims(p: LruPolicy.State): seq<Key> { Order(p.list, p.refs, 0) }

  function Sum(sizes: map<Key, nat>, ks: seq<Key>): nat {
    if ks == [] then 0 else SizeOf(sizes, ks[0]) + Sum(sizes, ks[1..])
  }

  lemma {:induction false} OrderIdle(list: seq<Key>, refs: map<Key, nat>, busy: nat)
    ensures forall k | k in Order(list, refs, busy) :: k in list && IdleKey(refs, k)
  {
    if list != [] && busy < LruPolicy.MAX_ATTEMPTS {
      var n := |list| - 1;
      OrderIdle(list[..n], refs, busy);
      OrderIdle(list[..n], refs, busy + 1);
    }
  }

  /** Where the first key of the order stands. */
  lemma {:induction false} OrderFirst(list: seq<Key>, refs: map<Key, nat>, busy: nat) returns (i: nat)
    requires Order(list, refs, busy) != []
    ensures i < |list| && list[i] == Order(list, refs, busy)[0] && IdleKey(refs, list[i])
    ensures forall j | i < j < |list| :: !IdleKey(refs, list[j])
    ensures busy + (|list| - 1 - i) < LruPolicy.MAX_ATTEMPTS
    ensures Order(list, refs, busy)[1..] == Order(list[..i], refs, busy + (|list| - 1 - i))
  {
    var n := |list| - 1;
    if IdleKey(refs, list[n]) {
      i := n;
    } else {
      i := OrderFirst(list[..n], refs, busy + 1);
      assert list[..n][..i] == list[..i];
      forall j | i < j < |list| ensures !IdleKey(refs, list[j]) {
        if j < n { assert list[j] == list[..n][j]; }
      }
    }
  }

  lemma {:induction false} OrderNone(list: seq<Key>, refs: map<Key, nat>, busy: nat)
    requires Order(list, refs, busy) == []
    ensures forall j: nat | j < |list| && busy + (|list| - 1 - j) < LruPolicy.MAX_ATTEMPTS :: !IdleKey(refs, list[j])
  {
    if list != [] && busy < LruPolicy.MAX_ATTEMPTS {
      var n := |list| - 1;
      OrderNone(list[..n], refs, busy + 1);
      forall j: nat | j < |list| && busy + (|list| - 1 - j) < LruPolicy.MAX_ATTEMPTS ensures !IdleKey(refs, list[j]) {
        if j < n { assert list[j] == list[..n][j]; }
      }
    }
  }

  /** Keys in use at the old end only count. */
  lemma {:induction false} OrderBusy(list: seq<Key>, tail: seq<Key>, refs: map<Key, nat>, busy: nat)
    requires forall j | 0 <= j < |tail| :: !IdleKey(refs, tail[j])
    ensures Order(list + tail, refs, busy) == Order(list, refs, busy + |tail|)
  {
    if tail == [] {
      assert list + tail == list;
    } else {
      var n := |tail| - 1;
      assert (list + tail)[..|list| + n] == list + tail[..n];
      OrderBusy(list, tail[..n], refs, busy + 1);
    }
  }

  lemma {:induction false} OrderRefs(list: seq<Key>, refs: map<Key, nat>, k: Key, busy: nat)
    requires k !in list
    ensures Order(list, refs - {k}, busy) == Order(list, refs, busy)
  {
    if list != [] && busy < LruPolicy.MAX_ATTEMPTS {
      var n := |list| - 1;
      assert list[n] in list;
      OrderRefs(list[..n], refs, k, busy);
      OrderRefs(list[..n], refs, k, busy + 1);
    }
  }

  /** The policy evicts the first key of the order and leaves the rest of it. */
  lemma {:induction false} EvictsFirst(p: LruPolicy.State)
    requires LruPolicy.Inv(p)
    ensures Victims(p) == [] ==> LruPolicy.Evicted(p) == (p, None)
    ensures Victims(p) != [] ==>
              && LruPolicy.Evicted(p) == (LruPolicy.Remove(p, Victims(p)[0]), Some(Victims(p)[0]))
              && Victims(LruPolicy.Remove(p, Victims(p)[0])) == Victims(p)[1..]
  {
    hide Order, LruPolicy.Inv, LruPolicy.Evicted;
    if Victims(p) == [] {
      OrderNone(p.list, p.refs, 0);
      LruPolicy.EvictChoice(p, 0);
    } else {
      var i := OrderFirst(p.list, p.refs, 0);
      assert LruPolicy.Victim(p, i);
      LruPolicy.EvictChoice(p, i);
      RestOrder(p, i);
    }
  }

  lemma {:induction false} RestOrder(p: LruPolicy.State, i: nat)
    requires LruPolicy.Inv(p) && i < |p.list| && forall j | i < j < |p.list| :: !IdleKey(p.refs, p.list[j])
    ensures Victims(LruPolicy.Remove(p, p.list[i])) == Order(p.list[..i], p.refs, |p.list| - 1 - i)
  {
    hide Order;
    var k, tail := p.list[i], p.list[i + 1..];
    LruPolicy.LessAt(p.list, k, i);
    OrderBusy(p.list[..i], tail, p.refs - {k}, 0);
    OrderRefs(p.list[..i], p.refs, k, |tail|);
  }

  // ---------------------------------------------------------------- what the loop achieves

  /** st after evicting the first m keys of the order, of which the policy dropped p. */
  ghost predicate Evicted(st: State, st': State, m: nat, p: nat) {
    var vs := Victims(st.policy);
    && m <= p <= |vs|
    && Victims(st'.policy) == vs[p..]
    && st'.free == st.free + Sum(st.sizes, vs[..m])
    && (forall k :: k in st'.policy.refs <==> k in st.policy.refs && k !in vs[..p])
    && (forall k :: k in st'.sizes <==> k in st.sizes && k !in vs[..m])
    && (forall k | k in st'.sizes :: st'.sizes[k] == st.sizes[k])
  }

  /** How many keys from the front on can be unlinked. */
  function Good(vs: seq<Key>, unlinks: Key -> bool): (r: nat)
    ensures r <= |vs| && (r < |vs| ==> !unlinks(vs[r])) && forall i | 0 <= i < r :: unlinks(vs[i])
  {
    if vs == [] || !unlinks(vs[0]) then 0 else 1 + Good(vs[1..], unlinks)
  }

  lemma {:induction false} VictimsIdle(p: LruPolicy.State)
    ensures forall k | k in Victims(p) :: k in p.list && IdleKey(p.refs, k)
  {
    OrderIdle(p.list, p.refs, 0);
  }

  lemma {:induction false} NoneEvicted(st: State)
    ensures Evicted(st, st, 0, 0)
  {
  }

  lemma {:induction false} OnlyDropped(st: State)
    requires LruPolicy.Inv(st.policy) && Victims(st.policy) != []
    requires Victims(LruPolicy.Remove(st.policy, Victims(st.policy)[0])) == Victims(st.policy)[1..]
    ensures Evicted(st, st.(policy := LruPolicy.Remove(st.policy, Victims(st.policy)[0])), 0, 1)
  {
    assert Victims(st.policy)[..1] == [Victims(st.policy)[0]];
  }

  lemma {:induction false} OneMore(st: State, st1: State, st': State, m: nat, p: nat)
    requires LruPolicy.Inv(st.policy) && Victims(st.policy) != []
    requires st1 == Drop(st, LruPolicy.Remove(st.policy, Victims(st.policy)[0]), Victims(st.policy)[0])
    requires Victims(st1.policy) == Victims(st.policy)[1..] && Evicted(st1, st', m, p)
    requires forall j | 0 < j < |Victims(st.policy)| :: Victims(st.policy)[j] != Victims(st.policy)[0]
    ensures Evicted(st, st', m + 1, p + 1) && m <= p < |Victims(st.policy)|
  {
    hide Victims, LruPolicy.Inv, LruPolicy.Less;
    var vs := Victims(st.policy);
    assert vs[1..][p..] == vs[p + 1..];
    FrontMembers(vs, m);
    FrontMembers(vs, p);
    SumOne(st.sizes, vs, m + 1);
  }

  lemma {:induction false} FrontMembers(vs: seq<Key>, m: nat)
    requires m < |vs|
    ensures forall x :: x in vs[..m + 1] <==> x == vs[0] || x in vs[1..][..m]
  {
    assert vs[..m + 1] == [vs[0]] + vs[1..][..m];
  }

  lemma {:induction false} SumDrop(sizes: map<Key, nat>, k: Key, ks: seq<Key>)
    requires k !in ks
    ensures Sum(sizes - {k}, ks) == Sum(sizes, ks)
  {
    if ks != [] { SumDrop(sizes, k, ks[1..]); }
  }

  lemma {:induction false} VictimsDistinct(p: LruPolicy.State)
    requires LruPolicy.Inv(p) && Victims(p) != []
    ensures forall j | 0 < j < |Victims(p)| :: Victims(p)[j] != Victims(p)[0]
  {
    var i := OrderFirst(p.list, p.refs, 0);
    var rest := Order(p.list[..i], p.refs, |p.list| - 1 - i);
    OrderIdle(p.list[..i], p.refs, |p.list| - 1 - i);
    forall j | 0 < j < |Victims(p)| ensures Victims(p)[j] != Victims(p)[0] {
      assert Victims(p)[1..][j - 1] == Victims(p)[j];
      assert rest[j - 1] in rest;
    }
  }

  /** The loop evicts idle keys only, from the old end, no more than needed. It finds room exactly
      when the free bytes and the keys it may evict before one that cannot be unlinked are enough; a
      key that cannot be unlinked is lost to the policy. */
  lemma {:induction false} FreedExact(st: State, len: nat, unlinks: Key -> bool) returns (m: nat, p: nat)
    requires LruPolicy.Inv(st.policy)
    ensures var (st', ok) := Freed(st, len, unlinks);
            var vs := Victims(st.policy);
            var g := Good(vs, unlinks);
            && Evicted(st, st', m, p) && LruPolicy.Inv(st'.policy)
            && m <= g && p == (if ok || g == |vs| then m else m + 1)
            && (ok <==> len <= st'.free) && (!ok ==> m == g)
            && (forall j: nat | j < m :: st.free + Sum(st.sizes, vs[..j]) < len)
            && (ok <==> len <= st.free + Sum(st.sizes, vs[..g]))
    ensures forall k | k in Victims(st.policy) :: k in st.policy.list && IdleKey(st.policy.refs, k)
    decreases |st.policy.list|
  {
    hide LruPolicy.Inv, LruPolicy.Evicted, Victims, LruPolicy.Remove, Evicted, Sum;
    var vs := Victims(st.policy);
    SumNone(st.sizes, vs);
    VictimsIdle(st.policy);
    EvictsFirst(st.policy);
    if len <= st.free || vs == [] {
      NoneEvicted(st);
      m, p := 0, 0;
    } else if !unlinks(vs[0]) {
      OnlyDropped(st);
      EvictShrinks(st.policy);
      m, p := 0, 1;
    } else {
      EvictShrinks(st.policy);
      VictimsDistinct(st.policy);
      var st1 := Drop(st, LruPolicy.Remove(st.policy, vs[0]), vs[0]);
      var n, q := FreedExact(st1, len, unlinks);
      var (st', ok) := Freed(st1, len, unlinks);
      OneMore(st, st1, st', n, q);
      m, p := n + 1, q + 1;
      assert vs[0] !in vs[1..];
      SumOne(st.sizes, vs, Good(vs, unlinks));
      forall j: nat | j < m ensures st.free + Sum(st.sizes, vs[..j]) < len { SumOne(st.sizes, vs, j); }
    }
  }

  lemma {:induction false} SumOne(sizes: map<Key, nat>, vs: seq<Key>, j: nat)
    requires vs != [] && vs[0] !in vs[1..] && j <= |vs|
    ensures j > 0 ==> Sum(sizes, vs[..j]) == SizeOf(sizes, vs[0]) + Sum(sizes - {vs[0]}, vs[1..][..j - 1])
  {
    if j > 0 {
      assert vs[..j] == [vs[0]] + vs[1..][..j - 1];
      SumDrop(sizes, vs[0], vs[1..][..j - 1]);
    }
  }

  lemma {:induction false} SumNone(sizes: map<Key, nat>, vs: seq<Key>)
    ensures Sum(sizes, vs[..0]) == 0
  {
  }

  // ---------------------------------------------------------------- in place

  class Tier {
    const policy: LruPolicy.Policy
    var sizes: map<Key, nat>
    var free: nat

    ghost function Abs(): State
      reads this, policy
    {
      State(policy.Abs(), sizes, free)
    }

    constructor (free: nat)
      ensures fresh(policy) && policy.Valid() && sizes == map[] && this.free == free
    {
      policy := new LruPolicy.Policy();
      sizes := map[];
      this.free := free;
    }

    method FreeUp(len: nat, unlinks: Key -> bool) returns (ok: bool)
      requires policy.Valid()
      modifies this, policy
      ensures policy.Valid() && (Abs(), ok) == Freed(old(Abs()), len, unlinks)
    {
      hide LruPolicy.Inv, LruPolicy.Evicted;
      ghost var st := Abs();
      while len > free
        invariant policy.Valid() && Freed(Abs(), len, unlinks) == Freed(st, len, unlinks)
        decreases |policy.list|
      {
        ghost var p := policy.Abs();
        if LruPolicy.Evicted(p).1.Some? { EvictShrinks(p); } else { NothingToEvict(p); }
        var k := policy.Evict();
        if k.None? || !unlinks(k.value) { return false; }
        free := free + SizeOf(sizes, k.value);
        sizes := sizes - {k.value};
      }
      return true;
    }
  }
}
