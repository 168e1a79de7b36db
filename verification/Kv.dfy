/**
 server/kv.c in place: the hash chains, LRU list and key nodes of one store, over the slab
 and buddy allocators. Each call is one atomic step and is proved to do what the function
 of the same name in KvOps says. The clock is an argument.
 */
module Kv {
  import opened Wrappers
  import opened Clock
  import opened KvState
  import BuddyTree
  import KvOps
  import KvRuns
  import Buddy
  import Slab

  // ---------------------------------------------------------------- lists

  /** list_del of the element at position i. */
  function Cut(s: seq<Slot>, i: nat): seq<Slot>
    requires i < |s|
  {
    s[..i] + s[i + 1..]
  }

  lemma {:induction false} CutKeeps(s: seq<Slot>, i: nat)
    requires NoDup(s) && i < |s|
    ensures Cut(s, i) == Keep(s, {s[i]})
  {
    assert s == s[..i] + [s[i]] + s[i + 1..];
    KeepAppend(s[..i] + [s[i]], s[i + 1..], {s[i]});
    KeepAppend(s[..i], [s[i]], {s[i]});
    KeepAll(s[..i], {s[i]});
    KeepAll(s[i + 1..], {s[i]});
    KeepNone([s[i]], {s[i]});
    assert s[..i] + [] == s[..i];
  }

  method Remove(s: seq<Slot>, x: Slot) returns (r: seq<Slot>)
    requires NoDup(s)
    ensures r == Keep(s, {x})
  {
    for i := 0 to |s|
      invariant forall j | 0 <= j < i :: s[j] != x
    {
      if s[i] == x {
        CutKeeps(s, i);
        return Cut(s, i);
      }
    }
    KeepAll(s, {x});
    return s;
  }

  /** Taking one node out of its own bucket is taking it out of all of them. */
  lemma {:induction false} OwnBucket(chains: seq<seq<Slot>>, b: nat, s: Slot)
    requires b < |chains| && forall i | 0 <= i < |chains| && i != b :: s !in chains[i]
    ensures DropChains(chains, {s}) == chains[b := Keep(chains[b], {s})]
  {
    forall i | 0 <= i < |chains|
      ensures DropChains(chains, {s})[i] == chains[b := Keep(chains[b], {s})][i]
    {
      if i != b { KeepAll(chains[i], {s}); }
    }
  }

  // ---------------------------------------------------------------- what removal needs

  /** Node s is listed, in its bucket only, referenced, and owns its two allocations. */
  ghost predicate Removable(c: Config, st: State, s: Slot) {
    && c.buckets > 0 && |st.chains| == c.buckets
    && s in st.nodes && st.nodes[s].refcnt > 0 && st.nodes[s].block in st.live && s in st.used
    && NoDup(st.lru) && NoDup(st.chains[Bucket(c, st.nodes[s].key)])
    && (forall i | 0 <= i < |st.chains| && i != Bucket(c, st.nodes[s].key) :: s !in st.chains[i])
  }

  lemma {:induction false} InvRemovable(c: Config, st: State, s: Slot)
    requires Inv(c, st) && s in st.lru
    ensures Removable(c, st, s)
  {
    hide BuddyTree.LiveOk, Buddy.UnitsFor;
    assert HasBlock(c.unit, st.live, st.nodes[s]);
    assert st.nodes[s].refcnt == Listed(st, s) + st.pins[s];
  }

  /** The loop of lines 720-727 on one chain: list_del each expired node and collect it. */
  method SplitExpired(todo: seq<Slot>, nodes: Nodes, now: Time) returns (chain: seq<Slot>, expired: seq<Slot>)
    requires NoDup(todo) && forall s | s in todo :: s in nodes
    ensures NoDup(expired) && Members(expired) == Late(todo, nodes, now)
    ensures chain == Keep(todo, Members(expired))
  {
    hide Late, Members, Expired, NoDup, Keep;
    chain, expired := todo, [];
    LateStart(todo, nodes, now);
    for m := 0 to |todo|
      invariant NoDup(expired) && Members(expired) == Late(todo[..m], nodes, now)
      invariant chain == Keep(todo, Members(expired))
    {
      var s := todo[m];
      LateNext(todo, nodes, now, m);
      if Expired(nodes[s].expire, now) {
        AppendNew(expired, s);
        KeepTwice(todo, Members(expired), {s});
        KeepDistinct(todo, Members(expired));
        chain := Remove(chain, s);
        expired := expired + [s];
      }
    }
    assert todo[..|todo|] == todo;
  }

  lemma {:induction false} LateStart(todo: seq<Slot>, nodes: Nodes, now: Time)
    ensures NoDup([]) && Members([]) == Late(todo[..0], nodes, now) && todo == Keep(todo, Members([]))
  {
    KeepAll(todo, Members([]));
  }

  /** The bucket of k is a list of nodes. */
  ghost predicate Searchable(c: Config, st: State, k: Key) {
    && c.buckets > 0 && |st.chains| == c.buckets
    && (forall s | s in st.chains[Bucket(c, k)] :: s in st.nodes)
    && NoDup(st.chains[Bucket(c, k)])
  }

  lemma {:induction false} InvSearch(c: Config, st: State, k: Key)
    requires Inv(c, st)
    ensures Searchable(c, st, k)
    ensures KvOps.Find(c, st, k).Some? ==>
              var s := KvOps.Find(c, st, k).value;
              s in st.lru && s in st.nodes && st.nodes[s].key == k && Removable(c, st, s)
  {
    hide RefsOk, SlotsOk, BlocksOk, BuddyTree.LiveOk, Removable;
    KvOps.FindListed(c, st, k);
    if KvOps.Find(c, st, k).Some? { InvRemovable(c, st, KvOps.Find(c, st, k).value); }
  }

  lemma {:induction false} InvLists(c: Config, st: State)
    requires Inv(c, st)
    ensures NoDup(st.lru) && c.buckets > 0 && c.unit > 0 && |st.chains| == c.buckets
  {
    hide RefsOk, SlotsOk, BlocksOk, BuddyTree.LiveOk;
  }

  lemma {:induction false} InvPinned(c: Config, st: State, s: Slot)
    requires Inv(c, st) && s in st.pins
    ensures s in st.nodes && st.nodes[s].refcnt > 0 && st.nodes[s].block in st.live && s in st.used
  {
    hide ListsOk, BlocksOk, BuddyTree.LiveOk;
    KvRuns.PinnedHasBlock(c, st, s);
  }

  /** DropSet of one node, field by field. */
  lemma {:induction false} DropOne(c: Config, st: State, s: Slot)
    requires Removable(c, st, s)
    ensures var n := st.nodes[s];
            var b := Bucket(c, n.key);
            KvOps.Drop(st, s) == State(
              st.chains[b := Keep(st.chains[b], {s})],
              Keep(st.lru, {s}),
              if n.refcnt == 1 then st.nodes - {s} else st.nodes[s := Less(n)],
              if n.refcnt == 1 then st.used - {s} else st.used,
              st.cursor,
              if n.refcnt == 1 then st.live - {n.block} else st.live,
              st.pins)
  {
    hide Keep, DropChains;
    var n := st.nodes[s];
    OwnBucket(st.chains, Bucket(c, n.key), s);
    assert Gone(st.nodes, {s}) == if n.refcnt == 1 then {s} else {};
    DropOneNode(st.nodes, s);
    assert BlocksOf(st.nodes, {}) == {};
    assert st.live - {} == st.live && st.used - {} == st.used;
  }

  lemma {:induction false} DropOneNode(nodes: Nodes, s: Slot)
    requires s in nodes
    ensures DropNodes(nodes, {s}) == if nodes[s].refcnt == 1 then nodes - {s} else nodes[s := Less(nodes[s])]
    ensures BlocksOf(nodes, {s}) == {nodes[s].block}
  {
  }

  /** A state in which SET already holds an object, a block, or both. */
  ghost function Held(st: State, slot: Option<Slot>, block: Option<nat>, want: nat): State {
    st.(used := if slot.Some? then st.used + {slot.value} else st.used,
        cursor := if slot.Some? then slot.value / Slab.BITS else st.cursor,
        live := if block.Some? then st.live[block.value := want] else st.live)
  }

  lemma {:induction false} HeldDrop(st: State, slot: Option<Slot>, block: Option<nat>, want: nat, s: Slot)
    requires s in st.nodes && st.nodes[s].block in st.live
    requires slot.Some? ==> slot.value !in st.nodes
    requires block.Some? ==> block.value !in st.live
    ensures KvOps.Drop(Held(st, slot, block, want), s) == Held(KvOps.Drop(st, s), slot, block, want)
  {
    hide Keep, DropChains, DropNodes;
    var g := Gone(st.nodes, {s});
    assert g <= {s};
    assert BlocksOf(st.nodes, g) <= {st.nodes[s].block};
    if slot.Some? { assert st.used + {slot.value} - g == st.used - g + {slot.value}; }
    if block.Some? {
      assert st.live[block.value := want] - BlocksOf(st.nodes, g)
          == (st.live - BlocksOf(st.nodes, g))[block.value := want];
    }
  }

  lemma {:induction false} HeldRemovable(c: Config, st: State, slot: Option<Slot>, block: Option<nat>, want: nat,
                                         s: Slot)
    requires Inv(c, st) && s in st.lru && (block.Some? ==> block.value !in st.live)
    ensures Removable(c, Held(st, slot, block, want), s) && s in st.nodes && st.nodes[s].block in st.live
  {
    hide Inv;
    InvRemovable(c, st, s);
  }

  lemma {:induction false} EvictionsIs(c: Config, st: State, want: nat, i: nat, j: nat)
    requires i <= j <= |st.lru| && j <= MAX_EVICTIONS
    requires forall m: nat | i <= m < j :: !KvOps.Served(c, st, want, m)
    requires KvOps.Served(c, st, want, j) || j == |st.lru| || j == MAX_EVICTIONS
    ensures KvOps.Evictions(c, st, want, i) == j
    decreases j - i
  {
    hide KvOps.Served;
    if i < j { EvictionsIs(c, st, want, i + 1, j); }
  }

  class Store {
    const c: Config
    var chains: seq<seq<Slot>>
    var lru: seq<Slot>
    var nodes: Nodes
    const slab: Slab.Allocator
    const buddy: Buddy.Allocator
    ghost var pins: multiset<Slot>

    ghost function Abs(): State
      reads this, slab, buddy
    {
      State(chains, lru, nodes, slab.used, slab.lindex, buddy.live, pins)
    }

    /** The allocators are in order and are this store's. */
    ghost predicate Wired()
      reads slab, slab.bitmap, buddy, buddy.meta
    {
      && ConfigOk(c)
      && slab.Valid() && buddy.Valid()
      && slab.objects == c.objects && buddy.nmemb == c.nmemb && buddy.unit == c.unit
      && slab.bitmap != buddy.meta
    }

    ghost predicate Valid()
      reads this, slab, slab.bitmap, buddy, buddy.meta
    {
      Wired() && Inv(c, Abs())
    }

    constructor (c: Config)
      requires ConfigOk(c)
      ensures Valid() && Abs() == Empty(c) && this.c == c
      ensures fresh(slab) && fresh(slab.bitmap) && fresh(buddy) && fresh(buddy.meta)
    {
      this.c := c;
      chains := seq(c.buckets, _ => []);
      lru, nodes, pins := [], map[], multiset{};
      slab := new Slab.Allocator(c.objects);
      buddy := new Buddy.Allocator(0, c.nmemb, c.unit);
      new;
      EmptyInv(c);
    }

    /** priskv_keynode_deref */
    method Deref(s: Slot)
      requires Wired() && s in nodes && nodes[s].refcnt > 0 && nodes[s].block in buddy.live && s in slab.used
      modifies this`nodes, slab, slab.bitmap, buddy, buddy.meta
      ensures Wired()
      ensures Abs() == (if old(nodes[s].refcnt) == 1
                        then old(Abs()).(nodes := old(nodes) - {s}, used := old(slab.used) - {s},
                                         live := old(buddy.live) - {old(nodes[s].block)})
                        else old(Abs()).(nodes := old(nodes)[s := Less(old(nodes[s]))]))
    {
      var n := nodes[s];
      nodes := nodes[s := n.(refcnt := n.refcnt - 1)];
      if n.refcnt - 1 == 0 {
        FreeBlock(n.block);
        nodes := nodes - {s};
        slab.Free(s);
        assert nodes == old(nodes) - {s};
      }
    }

    method FreeBlock(o: nat)
      requires Wired() && o in buddy.live
      modifies buddy, buddy.meta
      ensures Wired() && buddy.live == old(buddy.live) - {o}
    {
      Buddy.FreeAtStart(buddy.nmemb, buddy.live, o);
      assert BuddyTree.IsBlock(buddy.nmemb, o, buddy.live[o]);
      buddy.Free(o);
    }
  
    /** priskv_find_key: search the bucket; pop or an expired key unlinks the node, otherwise
        the node gets the new expiry time (EXPIRE only) and a reference. */
    method FindKey(k: Key, timeout: nat, pop: bool, now: Time) returns (r: Option<Slot>, expired: bool)
      requires Searchable(c, Abs(), k)
      modifies this`chains, this`nodes
      ensures r == KvOps.Find(c, old(Abs()), k)
      ensures r.Some? ==> r.value in old(nodes)
      ensures expired == (r.Some? && !pop && Expired(old(nodes)[r.value].expire, now))
      ensures chains == (if r.Some? && (pop || expired)
                         then old(chains)[Bucket(c, k) := Keep(old(chains)[Bucket(c, k)], {r.value})] else old(chains))
      ensures nodes == (if r.Some? && !pop && !expired
                        then old(nodes)[r.value := old(nodes)[r.value].(
                               refcnt := old(nodes)[r.value].refcnt + 1,
                               expire := if timeout < MAX_TIMEOUT then AddMs(now, timeout)
                                         else old(nodes)[r.value].expire)]
                        else old(nodes))
    {
      var b := Bucket(c, k);
      var i := Search(chains[b], k);
      expired := false;
      if i == |chains[b]| {
        return None, false;
      }
      var s := chains[b][i];
      if pop {
        CutKeeps(chains[b], i);
        chains := chains[b := Cut(chains[b], i)];
      } else if Expired(nodes[s].expire, now) {
        expired := true;
        CutKeeps(chains[b], i);
        chains := chains[b := Cut(chains[b], i)];
      } else {
        var n := nodes[s];
        if timeout < MAX_TIMEOUT {
          n := n.(expire := AddMs(now, timeout));
        }
        nodes := nodes[s := n.(refcnt := n.refcnt + 1)];
      }
      r := Some(s);
    }

    method Search(chain: seq<Slot>, k: Key) returns (i: nat)
      requires forall s | s in chain :: s in nodes
      ensures i <= |chain| && (i < |chain| ==> KvOps.FindIn(chain, nodes, k) == Some(chain[i]))
      ensures i == |chain| ==> KvOps.FindIn(chain, nodes, k) == None
    {
      i := 0;
      while i < |chain|
        invariant i <= |chain|
        invariant KvOps.FindIn(chain, nodes, k) == KvOps.FindIn(chain[i..], nodes, k)
      {
        assert chain[i] in chain;
        if nodes[chain[i]].key == k {
          return;
        }
        assert chain[i..][1..] == chain[i + 1..];
        i := i + 1;
      }
    }
  
    /** priskv_lru_del_key and __priskv_del_key of a node already out of its bucket. */
    method DelKey(s: Slot, ghost st: State)
      requires Wired() && Removable(c, st, s)
      requires Abs() == st.(chains := st.chains[Bucket(c, st.nodes[s].key) :=
                              Keep(st.chains[Bucket(c, st.nodes[s].key)], {s})])
      modifies this`lru, this`nodes, slab, slab.bitmap, buddy, buddy.meta
      ensures Wired() && Abs() == KvOps.Drop(st, s)
    {
      DropOne(c, st, s);
      DropRef(s, st);
    }

    method DropRef(s: Slot, ghost st: State)
      requires Wired() && Removable(c, st, s) && Abs() == st.(chains := chains)
      modifies this`lru, this`nodes, slab, slab.bitmap, buddy, buddy.meta
      ensures Wired() && Abs() == KvOps.Drop(st, s).(chains := chains)
    {
      DropOne(c, st, s);
      hide Wired, Keep;
      lru := Remove(lru, s);
      Deref(s);
    }

    method Delete(k: Key) returns (found: bool)
      requires Valid()
      modifies this, slab, slab.bitmap, buddy, buddy.meta
      ensures Valid() && Abs() == KvOps.Delete(c, old(Abs()), k)
      ensures found <==> KvOps.Find(c, old(Abs()), k).Some?
    {
      hide Inv, Wired, Removable, ConfigOk, Searchable;
      ghost var st := Abs();
      KvRuns.DeleteInv(c, st, k);
      InvSearch(c, st, k);
      var f, expired := FindKey(k, MAX_TIMEOUT, true, NEVER);
      if f.None? {
        return false;
      }
      DelKey(f.value, st);
      return true;
    }

    method Get(k: Key, now: Time) returns (r: KvOps.GetResult)
      requires Valid()
      modifies this, slab, slab.bitmap, buddy, buddy.meta
      ensures Valid() && (Abs(), r) == KvOps.Get(c, old(Abs()), k, now)
      ensures pins == old(pins) + (if r.NoSuchKey? then multiset{} else multiset{r.slot})
    {
      hide Inv, Wired, Removable, ConfigOk, Searchable, Keep, DropSet, NoDup;
      ghost var st := Abs();
      KvRuns.GetInv(c, st, k, now);
      InvSearch(c, st, k);
      InvLists(c, st);
      var f, expired := FindKey(k, MAX_TIMEOUT, false, now);
      if f.None? {
        return KvOps.NoSuchKey;
      }
      var s := f.value;
      if expired {
        DelKey(s, st);
        return KvOps.NoSuchKey;
      }
      pins := pins + multiset{s};
      if nodes[s].inprocess {
        return KvOps.Updating(s);
      }
      var rest := Remove(lru, s);
      lru := [s] + rest;
      r := KvOps.Found(s);
    }

    method GetEnd(a: Option<Slot>)
      requires Valid() && (a.Some? ==> a.value in pins)
      modifies this, slab, slab.bitmap, buddy, buddy.meta
      ensures Valid() && Abs() == if a.Some? then KvOps.GetEnd(old(Abs()), a.value) else old(Abs())
      ensures pins == old(pins) - (if a.Some? then multiset{a.value} else multiset{})
    {
      hide Inv, Wired;
      if a.None? {
        return;
      }
      ghost var st := Abs();
      InvPinned(c, st, a.value);
      UnpinInv(c, st, a.value);
      pins := pins - multiset{a.value};
      Deref(a.value);
    }

    method SetEnd(a: Option<Slot>)
      requires Valid()
      modifies this
      ensures Valid() && Abs() == if a.Some? then KvOps.SetEnd(old(Abs()), a.value) else old(Abs())
    {
      hide Inv, Wired, Removable, ConfigOk, Searchable;
      if a.Some? && a.value in nodes {
        RewriteInv(c, Abs(), a.value, nodes[a.value].expire, false);
        nodes := nodes[a.value := nodes[a.value].(inprocess := false)];
      }
    }

    method Expire(k: Key, timeout: nat, now: Time) returns (found: bool)
      requires Valid()
      modifies this, slab, slab.bitmap, buddy, buddy.meta
      ensures Valid() && Abs() == KvOps.Expire(c, old(Abs()), k, timeout, now)
      ensures found <==> KvOps.Find(c, old(Abs()), k).Some? &&
                         !Expired(old(nodes)[KvOps.Find(c, old(Abs()), k).value].expire, now)
    {
      hide Inv, Wired, ConfigOk, Searchable;
      ghost var st := Abs();
      KvRuns.ExpireInv(c, st, k, timeout, now);
      InvSearch(c, st, k);
      var f, expired := FindKey(k, timeout, false, now);
      if f.None? {
        return false;
      }
      if expired {
        DelKey(f.value, st);
        return false;
      }
      Deref(f.value);
      assert nodes == st.nodes[f.value := st.nodes[f.value].(
                        expire := if timeout < MAX_TIMEOUT then AddMs(now, timeout) else st.nodes[f.value].expire)];
      if timeout >= MAX_TIMEOUT { assert nodes == st.nodes; }
      return true;
    }
  
    /** Evicts the tail of the LRU list; the bucket search always finds it again. */
    method EvictTail()
      requires Wired() && ListsOk(c, Abs()) && lru != [] && Removable(c, Abs(), lru[|lru| - 1])
      modifies this`chains, this`lru, this`nodes, slab, slab.bitmap, buddy, buddy.meta
      ensures Wired() && Abs() == KvOps.Drop(old(Abs()), old(lru[|lru| - 1]))
    {
      ghost var st := Abs();
      var tail := lru[|lru| - 1];
      KvOps.FindListed(c, st, nodes[tail].key);
      hide Wired, ListsOk;
      var f, expired := FindKey(nodes[tail].key, MAX_TIMEOUT, true, NEVER);
      if f.Some? {
        DelKey(f.value, st);
      }
    }

    /** One pass of SET's eviction loop: lines 441-464. */
    method Retry(valuelen: nat, slot: Option<Slot>, block: Option<nat>, ghost st: State, ghost j: nat)
      returns (slot': Option<Slot>, block': Option<nat>)
      requires Wired() && Inv(c, st) && Buddy.Representable(valuelen, c.unit) && j < |st.lru|
      requires slot == KvOps.SlotAfter(c, st, j)
      requires block == KvOps.BlockAfter(c, st, Buddy.UnitsFor(valuelen, c.unit), j)
      requires Abs() == Held(KvOps.Evict(st, j), slot, block, Buddy.UnitsFor(valuelen, c.unit))
      modifies this`chains, this`lru, this`nodes, slab, slab.bitmap, buddy, buddy.meta
      ensures Wired() && slot' == KvOps.SlotAfter(c, st, j + 1)
      ensures block' == KvOps.BlockAfter(c, st, Buddy.UnitsFor(valuelen, c.unit), j + 1)
      ensures Abs() == Held(KvOps.Evict(st, j + 1), slot', block', Buddy.UnitsFor(valuelen, c.unit))
    {
      hide Inv, Wired, ConfigOk, Removable, ListsOk, DropSet, KvOps.Evict, Buddy.UnitsFor;
      ghost var want := Buddy.UnitsFor(valuelen, c.unit);
      RetryTail(c, st, j, slot, block, valuelen);
      EvictTail();
      slot', block' := TryAlloc(valuelen, slot, block, KvOps.Evict(st, j + 1));
    }

    method TryAlloc(valuelen: nat, slot: Option<Slot>, block: Option<nat>, ghost st: State)
      returns (slot': Option<Slot>, block': Option<nat>)
      requires Wired() && Buddy.Representable(valuelen, c.unit)
      requires Abs() == Held(st, slot, block, Buddy.UnitsFor(valuelen, c.unit))
      modifies slab, slab.bitmap, buddy, buddy.meta
      ensures Wired()
      ensures slot' == if slot.Some? then slot else KvOps.SlotNow(c, st)
      ensures block' == if block.Some? then block else KvOps.BlockNow(c, st, Buddy.UnitsFor(valuelen, c.unit))
      ensures Abs() == Held(st, slot', block', Buddy.UnitsFor(valuelen, c.unit))
    {
      hide ConfigOk, Slab.Pick, Buddy.FirstRun, Buddy.UnitsFor, Buddy.Representable;
      slot', block' := slot, block;
      if slot'.None? {
        slot' := slab.Alloc();
      }
      if block'.None? {
        block' := buddy.Alloc(valuelen);
      }
    }

    /** Lines 433-465: allocate, evicting from the tail until both allocators serve. */
    method Acquire(valuelen: nat, ghost st: State) returns (slot: Option<Slot>, block: Option<nat>, ghost j: nat)
      requires Valid() && st == Abs() && Buddy.Representable(valuelen, c.unit)
      modifies this`chains, this`lru, this`nodes, slab, slab.bitmap, buddy, buddy.meta
      ensures Wired() && j <= |st.lru| && j == KvOps.Evictions(c, st, Buddy.UnitsFor(valuelen, c.unit), 0)
      ensures slot == KvOps.SlotAfter(c, st, j)
      ensures block == KvOps.BlockAfter(c, st, Buddy.UnitsFor(valuelen, c.unit), j)
      ensures Abs() == Held(KvOps.Evict(st, j), slot, block, Buddy.UnitsFor(valuelen, c.unit))
    {
      hide Inv, Wired, DropSet, KvOps.Evict, Buddy.UnitsFor, KvOps.SlotNow, KvOps.BlockNow;
      ghost var want := Buddy.UnitsFor(valuelen, c.unit);
      KvOps.EvictZero(st);
      slot, block := TryAlloc(valuelen, None, None, st);
      j := 0;
      var retries, gaveUp := 0, false;
      while !gaveUp && (block.None? || slot.None?)
        invariant Wired() && j <= |st.lru| && j <= MAX_EVICTIONS
        invariant !gaveUp ==> retries == j
        invariant gaveUp ==> j == |st.lru| || j == MAX_EVICTIONS
        invariant slot == KvOps.SlotAfter(c, st, j) && block == KvOps.BlockAfter(c, st, want, j)
        invariant Abs() == Held(KvOps.Evict(st, j), slot, block, want)
        invariant forall i: nat | i < j :: !KvOps.Served(c, st, want, i)
        decreases |st.lru| - j, !gaveUp
      {
        if retries > 128 {
          gaveUp := true;
        } else {
          retries := retries + 1;
          EvictedLength(c, st, j);
          if lru == [] {
            gaveUp := true;
          } else {
            slot, block := Retry(valuelen, slot, block, st, j);
            j := j + 1;
          }
        }
      }
      EvictionsIs(c, st, want, 0, j);
    }

    method Place(k: Key, valuelen: nat, timeout: nat, now: Time) returns (r: Option<Slot>)
      requires Valid() && KvRuns.Absent(Abs(), k) && Buddy.Representable(valuelen, c.unit)
      modifies this, slab, slab.bitmap, buddy, buddy.meta
      ensures Valid()
      ensures (Abs(), r) == KvOps.Place(c, old(Abs()), k, valuelen, KvOps.ExpiryFor(timeout, now))
    {
      hide Inv, Wired, DropSet, KvOps.Evict, Buddy.UnitsFor, KvOps.SlotAfter, KvOps.BlockAfter;
      ghost var st := Abs();
      ghost var want := Buddy.UnitsFor(valuelen, c.unit);
      KvRuns.PlaceInv(c, st, k, valuelen, KvOps.ExpiryFor(timeout, now));
      InvLists(c, st);
      var slot, block; ghost var j;
      slot, block, j := Acquire(valuelen, st);
      HeldFresh(c, st, j, slot, block, valuelen);
      if slot.Some? && block.Some? {
        var expire := if timeout < MAX_TIMEOUT then AddMs(now, timeout) else NEVER;
        var s, n := slot.value, Node(k, block.value, valuelen, expire, true, 0);
        nodes := nodes[s := n.(refcnt := n.refcnt + 1)];
        lru := [s] + lru;
        var b := Bucket(c, k);
        chains := chains[b := chains[b] + [s]];
        return slot;
      }
      GiveBack(slot, block, KvOps.Evict(st, j), want);
      return None;
    }

    /** Lines 494-502 */
    method GiveBack(slot: Option<Slot>, block: Option<nat>, ghost st: State, ghost want: nat)
      requires Wired() && Abs() == Held(st, slot, block, want)
      requires slot.Some? ==> slot.value !in st.used
      requires block.Some? ==> block.value !in st.live
      modifies slab, slab.bitmap, buddy, buddy.meta
      ensures Wired()
      ensures Abs() == st.(cursor := if slot.Some? then slot.value / Slab.BITS else st.cursor)
    {
      hide ConfigOk;
      if block.Some? {
        Buddy.AddDrop(st.live, block.value, want);
        FreeBlock(block.value);
      }
      if slot.Some? {
        assert st.used + {slot.value} - {slot.value} == st.used;
        slab.Free(slot.value);
      }
    }

    method Set(k: Key, valuelen: nat, timeout: nat, now: Time) returns (r: Option<Slot>)
      requires Valid() && Buddy.Representable(valuelen, c.unit)
      modifies this, slab, slab.bitmap, buddy, buddy.meta
      ensures Valid() && (Abs(), r) == KvOps.Set(c, old(Abs()), k, valuelen, timeout, now)
    {
      hide Inv, Wired, DropSet, Buddy.Representable, KvOps.Place;
      KvRuns.DeleteAbsent(c, Abs(), k);
      var found := Delete(k);
      r := Place(k, valuelen, timeout, now);
    }

    /** Unlinks node s of bucket i and drops the table's reference (lines 688-690). */
    method Unlink(s: Slot, i: nat, ghost st: State, ghost now: set<Slot>)
      requires Wired() && Inv(c, st) && now <= Members(st.lru) && s in st.lru && s !in now
      requires Abs() == DropSet(st, now) && s in nodes && c.buckets > 0 && Bucket(c, nodes[s].key) == i
      modifies this`chains, this`lru, this`nodes, slab, slab.bitmap, buddy, buddy.meta
      ensures Wired() && Abs() == DropSet(st, now + {s})
    {
      hide Inv, Wired, DropSet, Removable, Members, Keep;
      ghost var st1 := Abs();
      BucketRemovable(c, st, now, s);
      DropSetTwice(st, now, {s});
      var chain := Remove(chains[i], s);
      chains := chains[i := chain];
      DelKey(s, st1);
    }

    /** One bucket of priskv_flush_keys (lines 679-694). */
    method FlushBucket(i: nat, p: Key -> bool, ghost st: State) returns (n: nat)
      requires Wired() && Inv(c, st) && i < c.buckets
      requires Abs() == DropSet(st, Upto(c, st, KvOps.Matching(st, p), i))
      modifies this`chains, this`lru, this`nodes, slab, slab.bitmap, buddy, buddy.meta
      ensures Wired() && Abs() == DropSet(st, Upto(c, st, KvOps.Matching(st, p), i + 1))
      ensures |Upto(c, st, KvOps.Matching(st, p), i + 1)| == |Upto(c, st, KvOps.Matching(st, p), i)| + n
    {
      hide Inv, Wired, DropSet, Upto, Hits;
      ghost var d := KvOps.Matching(st, p);
      ghost var now := Upto(c, st, d, i);
      BucketIntact(c, st, d, i);
      var todo := chains[i];
      n := 0;
      for m := 0 to |todo|
        invariant Wired() && now == Upto(c, st, d, i) + Hits(todo, d, m)
        invariant Abs() == DropSet(st, now) && |now| == |Upto(c, st, d, i)| + n
      {
        BucketNode(c, st, d, i, m);
        HitsNext(todo, d, m);
        if p(nodes[todo[m]].key) {
          Unlink(todo[m], i, st, now);
          now := now + {todo[m]};
          n := n + 1;
        }
      }
      BucketDone(c, st, d, i);
    }

    method Flush(p: Key -> bool) returns (nkey: nat)
      requires Valid()
      modifies this, slab, slab.bitmap, buddy, buddy.meta
      ensures Valid() && Abs() == KvOps.Flush(old(Abs()), p) && nkey == |KvOps.Matching(old(Abs()), p)|
    {
      hide Inv, Wired, DropSet, Upto;
      ghost var st := Abs();
      ghost var d := KvOps.Matching(st, p);
      DropSetNone(st);
      UptoEnds(c, st, d);
      nkey := 0;
      for i := 0 to c.buckets
        invariant Wired() && Abs() == DropSet(st, Upto(c, st, d, i)) && nkey == |Upto(c, st, d, i)|
        invariant pins == st.pins
      {
        var n := FlushBucket(i, p, st);
        nkey := nkey + n;
      }
      DropSetInv(c, st, d);
    }

    /** Lines 719-729: move the expired nodes of a bucket to a private list. */
    method TakeExpired(i: nat, now: Time) returns (expired: seq<Slot>)
      requires i < |chains| && NoDup(chains[i]) && forall s | s in chains[i] :: s in nodes
      modifies this`chains
      ensures NoDup(expired) && Members(expired) == Late(old(chains)[i], nodes, now)
      ensures chains == old(chains)[i := Keep(old(chains)[i], Members(expired))]
    {
      var chain;
      chain, expired := SplitExpired(chains[i], nodes, now);
      chains := chains[i := chain];
    }

    /** Lines 731-735: drop the table's reference to every node of that list. */
    method DropExpired(expired: seq<Slot>, ghost st: State)
      requires Wired() && Inv(c, st) && NoDup(expired) && Members(expired) <= Members(st.lru)
      requires Abs() == st.(chains := DropChains(st.chains, Members(expired)))
      modifies this`lru, this`nodes, slab, slab.bitmap, buddy, buddy.meta
      ensures Wired() && Abs() == DropSet(st, Members(expired))
    {
      hide Inv, Wired, Removable, DropNodes, Keep;
      ghost var chains' := chains;
      ghost var done: set<Slot> := {};
      DropSetNone(st);
      for m := 0 to |expired|
        invariant Wired() && done == Members(expired[..m])
        invariant Abs() == DropSet(st, done).(chains := chains')
      {
        var s := expired[m];
        NextExpired(c, st, expired, m);
        DropOne(c, DropSet(st, done), s);
        DropSetTwice(st, done, {s});
        DropRef(s, DropSet(st, done));
        done := done + {s};
      }
      assert expired[..|expired|] == expired;
    }

    method SweepBucket(i: nat, now: Time, ghost st: State)
      requires Wired() && Inv(c, st) && i < c.buckets
      requires Abs() == DropSet(st, Upto(c, st, KvOps.Overdue(st, now), i))
      modifies this`chains, this`lru, this`nodes, slab, slab.bitmap, buddy, buddy.meta
      ensures Wired() && Abs() == DropSet(st, Upto(c, st, KvOps.Overdue(st, now), i + 1))
    {
      hide Inv, Wired, DropSet, Upto, Hits, DropChains;
      ghost var d := KvOps.Overdue(st, now);
      ghost var st1 := Abs();
      SweepStart(c, st, d, i);
      var expired := TakeExpired(i, now);
      SweepSplit(c, st, now, i, expired);
      DropExpired(expired, st1);
    }

    /** priskv_clear_expired_kv */
    method Sweep(now: Time)
      requires Valid()
      modifies this, slab, slab.bitmap, buddy, buddy.meta
      ensures Valid() && Abs() == KvOps.Sweep(old(Abs()), now)
    {
      hide Inv, Wired, DropSet, Upto;
      ghost var st := Abs();
      ghost var d := KvOps.Overdue(st, now);
      DropSetNone(st);
      UptoEnds(c, st, d);
      for i := 0 to c.buckets
        invariant Wired() && Abs() == DropSet(st, Upto(c, st, d, i))
      {
        SweepBucket(i, now, st);
      }
      DropSetInv(c, st, d);
    }
  }

  /** The tail of the list after j evictions can be removed, and removing it is eviction j+1. */
  lemma {:induction false} RetryTail(c: Config, st: State, j: nat, slot: Option<Slot>, block: Option<nat>,
                                     valuelen: nat)
    requires Inv(c, st) && Buddy.Representable(valuelen, c.unit) && j < |st.lru|
    requires slot == KvOps.SlotAfter(c, st, j)
    requires block == KvOps.BlockAfter(c, st, Buddy.UnitsFor(valuelen, c.unit), j)
    ensures var want := Buddy.UnitsFor(valuelen, c.unit);
            var st1 := Held(KvOps.Evict(st, j), slot, block, want);
            && c.buckets > 0 && ListsOk(c, st1) && st1.lru != []
            && Removable(c, st1, st1.lru[|st1.lru| - 1])
            && KvOps.Drop(st1, st1.lru[|st1.lru| - 1]) == Held(KvOps.Evict(st, j + 1), slot, block, want)
  {
    hide RefsOk, BlocksOk, BuddyTree.LiveOk, DropSet, Removable, KvOps.FreeBlock, Buddy.UnitsFor;
    var want := Buddy.UnitsFor(valuelen, c.unit);
    var e := KvOps.Evict(st, j);
    Buddy.UnitsEnough(valuelen, c.unit);
    KvOps.EvictInv(c, st, j);
    KvOps.EvictNext(st, j);
    KvOps.SlotAfterFree(c, st, j);
    KvOps.BlockAfterFree(c, st, want, j);
    var tail := st.lru[|st.lru| - j - 1];
    if block.Some? { KvRuns.FoundBlockOk(c, e.live, want, block.value); }
    SameKeysLists(c, e, Held(e, slot, block, want));
    HeldRemovable(c, e, slot, block, want, tail);
    HeldDrop(e, slot, block, want, tail);
  }

  lemma {:induction false} EvictedLength(c: Config, st: State, j: nat)
    requires Inv(c, st) && j <= |st.lru|
    ensures |KvOps.Evict(st, j).lru| == |st.lru| - j
  {
    InvLists(c, st);
    KvOps.EvictLru(st, j);
  }

  lemma {:induction false} HeldFresh(c: Config, st: State, j: nat, slot: Option<Slot>, block: Option<nat>,
                                     valuelen: nat)
    requires Inv(c, st) && Buddy.Representable(valuelen, c.unit) && j <= |st.lru|
    requires slot == KvOps.SlotAfter(c, st, j)
    requires block == KvOps.BlockAfter(c, st, Buddy.UnitsFor(valuelen, c.unit), j)
    ensures var e := KvOps.Evict(st, j);
            (slot.Some? ==> slot.value !in e.used) && (block.Some? ==> block.value !in e.live)
            && |e.chains| == c.buckets
  {
    hide RefsOk, BlocksOk, BuddyTree.LiveOk, DropSet, KvOps.FreeBlock, Buddy.UnitsFor;
    var want := Buddy.UnitsFor(valuelen, c.unit);
    Buddy.UnitsEnough(valuelen, c.unit);
    KvOps.EvictInv(c, st, j);
    KvOps.SlotAfterFree(c, st, j);
    KvOps.BlockAfterFree(c, st, want, j);
    if block.Some? { KvRuns.FoundBlockOk(c, KvOps.Evict(st, j).live, want, block.value); }
  }

  // ---------------------------------------------------------------- whole-table walks

  /** The members of d in the first i buckets. */
  ghost function Upto(c: Config, st: State, d: set<Slot>, i: nat): set<Slot> {
    set s | s in d && s in st.nodes && c.buckets > 0 && Bucket(c, st.nodes[s].key) < i
  }

  /** The members of d among the first m of a chain. */
  ghost function Hits(chain: seq<Slot>, d: set<Slot>, m: nat): set<Slot> {
    set s | s in d && s in chain[..if m <= |chain| then m else |chain|]
  }

  lemma {:induction false} UptoEnds(c: Config, st: State, d: set<Slot>)
    requires Inv(c, st) && d <= Members(st.lru)
    ensures Upto(c, st, d, 0) == {} && Upto(c, st, d, c.buckets) == d
  {
    hide RefsOk, SlotsOk, BlocksOk, BuddyTree.LiveOk;
  }

  /** A bucket is untouched until its turn. */
  lemma {:induction false} BucketIntact(c: Config, st: State, d: set<Slot>, i: nat)
    requires Inv(c, st) && d <= Members(st.lru) && i < c.buckets
    ensures |st.chains| == |DropSet(st, Upto(c, st, d, i)).chains| == c.buckets
    ensures DropSet(st, Upto(c, st, d, i)).chains[i] == st.chains[i]
    ensures Upto(c, st, d, i) + Hits(st.chains[i], d, 0) == Upto(c, st, d, i)
  {
    hide RefsOk, SlotsOk, BlocksOk, BuddyTree.LiveOk;
    KeepAll(st.chains[i], Upto(c, st, d, i));
    assert Hits(st.chains[i], d, 0) == {};
  }

  lemma {:induction false} HitsNext(chain: seq<Slot>, d: set<Slot>, m: nat)
    requires m < |chain|
    ensures Hits(chain, d, m + 1) == Hits(chain, d, m) + if chain[m] in d then {chain[m]} else {}
  {
    assert chain[..m + 1] == chain[..m] + [chain[m]];
  }

  /** Node m of bucket i is still what it was at the start. */
  lemma {:induction false} BucketNode(c: Config, st: State, d: set<Slot>, i: nat, m: nat)
    requires Inv(c, st) && d <= Members(st.lru) && i < c.buckets && |st.chains| == c.buckets && m < |st.chains[i]|
    ensures var now, s := Upto(c, st, d, i) + Hits(st.chains[i], d, m), st.chains[i][m];
            && now <= Members(st.lru) && s !in now && s in st.lru && s in st.nodes && Bucket(c, st.nodes[s].key) == i
            && s in DropSet(st, now).nodes && DropSet(st, now).nodes[s] == st.nodes[s]
  {
    hide RefsOk, SlotsOk, BlocksOk, BuddyTree.LiveOk;
    var s := st.chains[i][m];
    assert s in st.chains[i];
    assert s !in st.chains[i][..m];
  }

  lemma {:induction false} BucketRemovable(c: Config, st: State, now: set<Slot>, s: Slot)
    requires Inv(c, st) && now <= Members(st.lru) && s in st.lru && s !in now
    ensures var st1 := DropSet(st, now);
            Removable(c, st1, s) && c.buckets > 0 && |st1.chains| == c.buckets
            && forall b | 0 <= b < c.buckets :: NoDup(st1.chains[b])
  {
    hide RefsOk, SlotsOk, BlocksOk, BuddyTree.LiveOk, Removable;
    DropSetInv(c, st, now);
    InvRemovable(c, DropSet(st, now), s);
  }

  lemma {:induction false} BucketDone(c: Config, st: State, d: set<Slot>, i: nat)
    requires Inv(c, st) && d <= Members(st.lru) && i < c.buckets && |st.chains| == c.buckets
    ensures Upto(c, st, d, i) + Hits(st.chains[i], d, |st.chains[i]|) == Upto(c, st, d, i + 1)
  {
    hide RefsOk, SlotsOk, BlocksOk, BuddyTree.LiveOk;
    assert st.chains[i][..|st.chains[i]|] == st.chains[i];
    forall s | s in d
      ensures s in st.chains[i] <==> s in st.nodes && Bucket(c, st.nodes[s].key) == i
    {
      assert s in st.lru;
    }
  }

  lemma {:induction false} NextExpired(c: Config, st: State, expired: seq<Slot>, m: nat)
    requires Inv(c, st) && NoDup(expired) && Members(expired) <= Members(st.lru) && m < |expired|
    ensures expired[m] !in Members(expired[..m])
    ensures Members(expired[..m + 1]) == Members(expired[..m]) + {expired[m]}
    ensures Removable(c, DropSet(st, Members(expired[..m])), expired[m])
  {
    hide Inv, Removable, DropSet;
    var s, now := expired[m], Members(expired[..m]);
    assert expired[..m + 1] == expired[..m] + [s];
    assert s in Members(expired);
    assert forall t | t in now :: t in Members(expired);
    BucketRemovable(c, st, now, s);
  }

  lemma {:induction false} SweepStart(c: Config, st: State, d: set<Slot>, i: nat)
    requires Inv(c, st) && d <= Members(st.lru) && i < c.buckets
    ensures var st1 := DropSet(st, Upto(c, st, d, i));
            && Inv(c, st1) && |st1.chains| == c.buckets && NoDup(st1.chains[i])
            && (forall s | s in st1.chains[i] :: s in st1.nodes)
  {
    hide RefsOk, SlotsOk, BlocksOk, BuddyTree.LiveOk, DropSet;
    assert Upto(c, st, d, i) <= Members(st.lru);
    DropSetInv(c, st, Upto(c, st, d, i));
  }

  /** The expired nodes of bucket i are what the sweep owes next. */
  lemma {:induction false} SweepSplit(c: Config, st: State, now: Time, i: nat, expired: seq<Slot>)
    requires Inv(c, st) && i < c.buckets
    requires var st1 := DropSet(st, Upto(c, st, KvOps.Overdue(st, now), i));
             |st1.chains| == c.buckets &&
             Members(expired) == Late(st1.chains[i], st1.nodes, now)
    ensures var d := KvOps.Overdue(st, now);
            var st1, e := DropSet(st, Upto(c, st, d, i)), Members(expired);
            && e <= Members(st1.lru)
            && st1.chains[i := Keep(st1.chains[i], e)] == DropChains(st1.chains, e)
            && DropSet(st1, e) == DropSet(st, Upto(c, st, d, i + 1))
  {
    hide RefsOk, SlotsOk, BlocksOk, BuddyTree.LiveOk, DropSet;
    var d := KvOps.Overdue(st, now);
    var u, e := Upto(c, st, d, i), Members(expired);
    var st1 := DropSet(st, u);
    BucketIntact(c, st, d, i);
    SweepMembers(c, st, now, i, expired);
    DropSetTwice(st, u, e);
    SweepStart(c, st, d, i);
    OnlyBucket(c, st1, i, e);
  }

  lemma {:induction false} SweepMembers(c: Config, st: State, now: Time, i: nat, expired: seq<Slot>)
    requires Inv(c, st) && i < c.buckets
    requires var st1 := DropSet(st, Upto(c, st, KvOps.Overdue(st, now), i));
             |st1.chains| == c.buckets && st1.chains[i] == st.chains[i] &&
             Members(expired) == Late(st1.chains[i], st1.nodes, now)
    ensures var d := KvOps.Overdue(st, now);
            var u, e := Upto(c, st, d, i), Members(expired);
            u !! e && u + e == Upto(c, st, d, i + 1) && e <= Members(DropSet(st, u).lru)
            && forall s | s in e :: s in DropSet(st, u).chains[i]
  {
    hide RefsOk, SlotsOk, BlocksOk, BuddyTree.LiveOk, Expired;
    var d := KvOps.Overdue(st, now);
    var u := Upto(c, st, d, i);
    var st1 := DropSet(st, u);
    forall s | s in st.chains[i]
      ensures s in st.lru && s in st.nodes && s !in u && s in st1.nodes && st1.nodes[s] == st.nodes[s] && s in st1.lru
      ensures Bucket(c, st.nodes[s].key) == i
    {
    }
  }

  lemma {:induction false} OnlyBucket(c: Config, st: State, i: nat, e: set<Slot>)
    requires c.buckets > 0 && ListsOk(c, st) && i < c.buckets && forall s | s in e :: s in st.chains[i]
    ensures st.chains[i := Keep(st.chains[i], e)] == DropChains(st.chains, e)
  {
    forall b | 0 <= b < c.buckets && b != i
      ensures Keep(st.chains[b], e) == st.chains[b]
    {
      forall s | s in st.chains[b]
        ensures s !in e
      {
        assert Bucket(c, st.nodes[s].key) == b;
        assert s !in st.chains[i];
      }
      KeepAll(st.chains[b], e);
    }
  }

  ghost function Late(chain: seq<Slot>, nodes: Nodes, now: Time): set<Slot> {
    set s | s in chain && s in nodes && Expired(nodes[s].expire, now)
  }

  lemma {:induction false} LateNext(chain: seq<Slot>, nodes: Nodes, now: Time, m: nat)
    requires m < |chain| && NoDup(chain) && forall s | s in chain :: s in nodes
    ensures chain[m] in nodes && chain[m] !in Late(chain[..m], nodes, now)
    ensures Late(chain[..m + 1], nodes, now)
         == Late(chain[..m], nodes, now) + if Expired(nodes[chain[m]].expire, now) then {chain[m]} else {}
  {
    hide Expired;
    assert chain[..m + 1] == chain[..m] + [chain[m]];
    assert chain[m] in chain;
  }

  lemma {:induction false} AppendNew(s: seq<Slot>, x: Slot)
    requires NoDup(s) && x !in Members(s)
    ensures NoDup(s + [x]) && Members(s + [x]) == Members(s) + {x}
  {
  }

  lemma {:induction false} KeepDistinct(s: seq<Slot>, d: set<Slot>)
    requires NoDup(s)
    ensures NoDup(Keep(s, d))
  {
  }
}
