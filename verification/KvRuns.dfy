/**
 What server/kv.c guarantees over every run of SET, GET, GET-end, SET-end, DELETE, EXPIRE,
 FLUSH and expiry sweeps, from the empty store on.
 */
module KvRuns {
  import opened Wrappers
  import opened Clock
  import opened BuddyTree
  import opened KvState
  import opened KvOps
  import Powers
  import Buddy
  import Slab

  datatype Op =
    | OpGet(key: Key, now: Time)
    | OpGetEnd(slot: Slot)
    | OpSet(key: Key, valuelen: nat, timeout: nat, now: Time)
    | OpSetEnd(slot: Slot)
    | OpDelete(key: Key)
    | OpExpire(key: Key, timeout: nat, now: Time)
    | OpFlush(p: Key -> bool)
    | OpSweep(now: Time)

  /** A value's length has 32 bits, and its units stay within the allocator's rounding. */
  predicate Legal(c: Config, op: Op) {
    op.OpSet? ==> Buddy.Representable(op.valuelen, c.unit)
  }

  ghost function Step(c: Config, st: State, op: Op): State {
    match op
    case OpGet(k, now) => Get(c, st, k, now).0
    case OpGetEnd(s) => GetEnd(st, s)
    case OpSet(k, valuelen, timeout, now) => Set(c, st, k, valuelen, timeout, now).0
    case OpSetEnd(s) => SetEnd(st, s)
    case OpDelete(k) => Delete(c, st, k)
    case OpExpire(k, timeout, now) => Expire(c, st, k, timeout, now)
    case OpFlush(p) => Flush(st, p)
    case OpSweep(now) => Sweep(st, now)
  }

  ghost function Run(c: Config, st: State, ops: seq<Op>): State {
    if ops == [] then st else Step(c, Run(c, st, ops[..|ops| - 1]), ops[|ops| - 1])
  }

  // ---------------------------------------------------------------- the invariant

  lemma {:induction false} DropInv(c: Config, st: State, s: Slot)
    requires Inv(c, st) && s in st.lru
    ensures Inv(c, Drop(st, s))
  {
    hide ListsOk, RefsOk, SlotsOk, BlocksOk, LiveOk;
    DropSetInv(c, st, {s});
  }

  lemma {:induction false} GetInv(c: Config, st: State, k: Key, now: Time)
    requires Inv(c, st)
    ensures Inv(c, Get(c, st, k, now).0)
  {
    hide ListsOk, RefsOk, SlotsOk, BlocksOk, LiveOk;
    FindListed(c, st, k);
    if Find(c, st, k).Some? {
      var s := Find(c, st, k).value;
      DropInv(c, st, s);
      PinInv(c, st, s);
      TouchInv(c, Pin(st, s), s);
    }
  }

  lemma {:induction false} DeleteInv(c: Config, st: State, k: Key)
    requires Inv(c, st)
    ensures Inv(c, Delete(c, st, k))
    ensures forall s | s in Delete(c, st, k).lru :: s in st.lru && s in st.nodes && st.nodes[s].key != k
  {
    FindListed(c, st, k);
    if Find(c, st, k).Some? { DropInv(c, st, Find(c, st, k).value); }
  }

  lemma {:induction false} ExpireInv(c: Config, st: State, k: Key, timeout: nat, now: Time)
    requires Inv(c, st)
    ensures Inv(c, Expire(c, st, k, timeout, now))
  {
    hide ListsOk, RefsOk, SlotsOk, BlocksOk, LiveOk;
    FindListed(c, st, k);
    if Find(c, st, k).Some? {
      var s := Find(c, st, k).value;
      DropInv(c, st, s);
      RewriteInv(c, st, s, AddMs(now, timeout), st.nodes[s].inprocess);
    }
  }

  lemma {:induction false} FoundBlockOk(c: Config, live: Live, want: nat, o: nat)
    requires Powers.IsPow2(c.nmemb) && LiveOk(c.nmemb, live) && FreeBlock(c, live, want, o)
    ensures o !in live && LiveOk(c.nmemb, live[o := want])
  {
    var x := BlockNode(c.nmemb, o, want);
    AddLiveOk(c.nmemb, live, x);
  }

  lemma {:induction false} CursorInv(c: Config, st: State, s: Slot)
    requires Inv(c, st) && s < c.objects
    ensures Inv(c, st.(cursor := s / Slab.BITS))
  {
    hide ListsOk, RefsOk, BlocksOk, LiveOk;
    var st' := st.(cursor := s / Slab.BITS);
    SameKeysLists(c, st, st');
    SameBlocks(c, st, st');
    SameRefs(st, st');
  }

  lemma {:induction false} SameRefs(st: State, st': State)
    requires RefsOk(st) && st'.nodes == st.nodes && st'.lru == st.lru && st'.pins == st.pins
    ensures RefsOk(st')
  {
    assert forall s :: Listed(st', s) == Listed(st, s);
  }

  /** The key is in no listed node. */
  ghost predicate Absent(st: State, k: Key) {
    forall s | s in st.lru && s in st.nodes :: st.nodes[s].key != k
  }

  lemma {:induction false} EvictAbsent(st: State, k: Key, j: nat)
    requires Absent(st, k)
    ensures Absent(Evict(st, j), k)
  {
  }

  lemma {:induction false} PlaceInv(c: Config, st: State, k: Key, valuelen: nat, expire: Time)
    requires Inv(c, st) && Absent(st, k) && Buddy.Representable(valuelen, c.unit)
    ensures Inv(c, Place(c, st, k, valuelen, expire).0)
  {
    var want := Buddy.UnitsFor(valuelen, c.unit);
    Buddy.UnitsEnough(valuelen, c.unit);
    EvictionsBound(c, st, want, 0);
    var j := Evictions(c, st, want, 0);
    PlaceAfter(c, st, k, valuelen, expire, j);
  }

  lemma {:induction false} PlaceAfter(c: Config, st: State, k: Key, valuelen: nat, expire: Time, j: nat)
    requires Inv(c, st) && Absent(st, k) && Buddy.Representable(valuelen, c.unit) && j <= |st.lru|
    requires var want := Buddy.UnitsFor(valuelen, c.unit); want == 0 || Powers.IsPow2(want)
    ensures Inv(c, Evict(st, j))
    ensures var slot, block := SlotAfter(c, st, j), BlockAfter(c, st, Buddy.UnitsFor(valuelen, c.unit), j);
            (slot.Some? ==> Inv(c, Evict(st, j).(cursor := slot.value / Slab.BITS)))
            && (slot.Some? && block.Some? ==>
                 |Evict(st, j).chains| == c.buckets
                 && Inv(c, Insert(c, Evict(st, j), slot.value, NewNode(k, block.value, valuelen, expire))))
  {
    hide RefsOk, BlocksOk, LiveOk, Buddy.UnitsFor, Buddy.Representable, FreeBlock, DropSet, Absent;
    var want := Buddy.UnitsFor(valuelen, c.unit);
    EvictInv(c, st, j);
    EvictAbsent(st, k, j);
    SlotAfterFree(c, st, j);
    BlockAfterFree(c, st, want, j);
    var slot, block := SlotAfter(c, st, j), BlockAfter(c, st, want, j);
    if slot.Some? {
      CursorInv(c, Evict(st, j), slot.value);
      if block.Some? {
        FoundBlockOk(c, Evict(st, j).live, want, block.value);
        InsertFresh(c, Evict(st, j), slot.value, NewNode(k, block.value, valuelen, expire));
      }
    }
  }

  lemma {:induction false} InsertFresh(c: Config, st: State, s: Slot, n: Node)
    requires Inv(c, st) && Absent(st, n.key) && n.refcnt == 1
    requires s !in st.used && s < c.objects && n.block !in st.live
    requires LiveOk(c.nmemb, st.live[n.block := Buddy.UnitsFor(n.valuelen, c.unit)])
    ensures |st.chains| == c.buckets && Inv(c, Insert(c, st, s, n))
  {
    hide RefsOk, BlocksOk, LiveOk, Buddy.UnitsFor;
    InsertInv(c, st, s, n);
  }

  lemma {:induction false} SetInv(c: Config, st: State, k: Key, valuelen: nat, timeout: nat, now: Time)
    requires Inv(c, st) && Buddy.Representable(valuelen, c.unit)
    ensures Inv(c, Set(c, st, k, valuelen, timeout, now).0)
  {
    hide ListsOk, RefsOk, SlotsOk, BlocksOk, LiveOk, Buddy.Representable;
    DeleteInv(c, st, k);
    DeleteAbsent(c, st, k);
    PlaceInv(c, WithoutKey(c, st, k), k, valuelen, ExpiryFor(timeout, now));
  }

  lemma {:induction false} DeleteAbsent(c: Config, st: State, k: Key)
    requires Inv(c, st)
    ensures Absent(Delete(c, st, k), k)
  {
    DeleteInv(c, st, k);
    var st' := Delete(c, st, k);
    forall s | s in st'.lru && s in st'.nodes
      ensures st'.nodes[s].key != k
    {
      assert st'.nodes[s].key == st.nodes[s].key;
    }
  }

  /** Every call keeps the invariant, failed SETs included. */
  lemma {:induction false} StepInv(c: Config, st: State, op: Op)
    requires Inv(c, st) && Legal(c, op)
    ensures Inv(c, Step(c, st, op))
  {
    hide ListsOk, RefsOk, SlotsOk, BlocksOk, LiveOk, Buddy.Representable;
    match op
    case OpGet(k, now) => GetInv(c, st, k, now);
    case OpGetEnd(s) => if s in st.pins && s in st.nodes { UnpinInv(c, st, s); }
    case OpSet(k, valuelen, timeout, now) => SetInv(c, st, k, valuelen, timeout, now);
    case OpSetEnd(s) => if s in st.nodes { RewriteInv(c, st, s, st.nodes[s].expire, false); }
    case OpDelete(k) => DeleteInv(c, st, k);
    case OpExpire(k, timeout, now) => ExpireInv(c, st, k, timeout, now);
    case OpFlush(p) => DropSetInv(c, st, Matching(st, p));
    case OpSweep(now) => DropSetInv(c, st, Overdue(st, now));
  }

  lemma {:induction false} RunInv(c: Config, ops: seq<Op>)
    requires ConfigOk(c) && forall op | op in ops :: Legal(c, op)
    ensures Inv(c, Run(c, Empty(c), ops))
  {
    hide ListsOk, RefsOk, SlotsOk, BlocksOk, LiveOk, Buddy.Representable;
    if ops == [] {
      EmptyInv(c);
    } else {
      RunInv(c, ops[..|ops| - 1]);
      StepInv(c, Run(c, Empty(c), ops[..|ops| - 1]), ops[|ops| - 1]);
    }
  }

  // ---------------------------------------------------------------- nothing leaks

  ghost function Pinned(st: State): set<Slot> { set s | s in st.pins }

  /** Units of the blocks of all nodes. */
  ghost function UnitsHeld(unit: nat, nodes: Nodes): nat
    requires unit > 0
  {
    if nodes == map[] then 0 else
      var s :| s in nodes;
      Buddy.UnitsFor(nodes[s].valuelen, unit) + UnitsHeld(unit, nodes - {s})
  }

  /** Both allocators hold exactly the nodes in the table or pinned by a GET. */
  lemma {:induction false} NoLeak(c: Config, st: State)
    requires Inv(c, st)
    ensures st.used == st.nodes.Keys == Members(st.lru) + Pinned(st)
    ensures Buddy.Total(st.live) == UnitsHeld(c.unit, st.nodes)
  {
    UnitsMatch(c.unit, st.nodes, st.live) by { hide LiveOk, ListsOk, RefsOk; }
    NodesReferred(c, st);
  }

  lemma {:induction false} NodesReferred(c: Config, st: State)
    requires c.buckets > 0 && ListsOk(c, st) && RefsOk(st)
    ensures st.nodes.Keys == Members(st.lru) + Pinned(st)
  {
    forall s | s in st.nodes
      ensures s in st.lru || s in st.pins
    {
      assert st.nodes[s].refcnt == Listed(st, s) + st.pins[s] > 0;
    }
  }

  ghost predicate Backed(unit: nat, nodes: Nodes, live: Live) {
    && OwnBlocks(nodes)
    && (forall s | s in nodes :: HasBlock(unit, live, nodes[s]))
    && (forall o | o in live :: Owned(nodes, o))
  }

  lemma {:induction false} UnitsMatch(unit: nat, nodes: Nodes, live: Live)
    requires unit > 0 && Backed(unit, nodes, live)
    ensures Buddy.Total(live) == UnitsHeld(unit, nodes)
    decreases |nodes|
  {
    hide Backed, Buddy.UnitsFor;
    if nodes == map[] {
      NothingBacked(unit, live);
    } else {
      var s :| s in nodes
        && UnitsHeld(unit, nodes) == Buddy.UnitsFor(nodes[s].valuelen, unit) + UnitsHeld(unit, nodes - {s});
      OneLess(unit, nodes, live, s);
      Buddy.TotalDrop(live, nodes[s].block);
      UnitsMatch(unit, nodes - {s}, live - {nodes[s].block});
    }
  }

  lemma {:induction false} NothingBacked(unit: nat, live: Live)
    requires Backed(unit, map[], live)
    ensures live == map[]
  {
    assert forall o :: !Owned(map[], o);
  }

  lemma {:induction false} OneLess(unit: nat, nodes: Nodes, live: Live, s: Slot)
    requires unit > 0 && Backed(unit, nodes, live) && s in nodes
    ensures HasBlock(unit, live, nodes[s]) && Backed(unit, nodes - {s}, live - {nodes[s].block})
  {
    hide Buddy.UnitsFor;
    forall t | t in nodes - {s}
      ensures HasBlock(unit, live - {nodes[s].block}, nodes[t])
    {
      assert HasBlock(unit, live, nodes[t]);
    }
    forall o | o in live - {nodes[s].block}
      ensures Owned(nodes - {s}, o)
    {
      assert Owned(nodes, o);
      var t :| t in nodes && nodes[t].block == o;
      assert t in nodes - {s};
    }
  }

  // ---------------------------------------------------------------- pinned values

  /** Node s still has its key, its length and its block. */
  ghost predicate Kept(st: State, st': State, s: Slot) {
    && s in st.nodes && s in st'.nodes
    && st'.nodes[s].key == st.nodes[s].key && st'.nodes[s].valuelen == st.nodes[s].valuelen
    && st'.nodes[s].block == st.nodes[s].block
    && st.nodes[s].block in st.live && st.nodes[s].block in st'.live
    && st'.live[st.nodes[s].block] == st.live[st.nodes[s].block]
  }

  lemma {:induction false} PinnedHasBlock(c: Config, st: State, s: Slot)
    requires Inv(c, st) && s in st.pins
    ensures s in st.nodes && st.nodes[s].block in st.live && Kept(st, st, s)
  {
    hide ListsOk, SlotsOk, LiveOk;
    assert HasBlock(c.unit, st.live, st.nodes[s]);
  }

  lemma {:induction false} DropSetKept(c: Config, st: State, d: set<Slot>, s: Slot)
    requires Inv(c, st) && d <= Members(st.lru) && s in st.pins
    ensures Kept(st, DropSet(st, d), s)
  {
    PinnedHasBlock(c, st, s);
    hide ListsOk, SlotsOk, LiveOk, HasBlock;
    assert st.nodes[s].refcnt == Listed(st, s) + st.pins[s];
    assert s !in Gone(st.nodes, d);
    KeepsBlock(st.nodes, d, s);
  }

  lemma {:induction false} KeptTrans(st: State, st1: State, st2: State, s: Slot)
    requires Kept(st, st1, s) && Kept(st1, st2, s)
    ensures Kept(st, st2, s)
  {
  }

  lemma {:induction false} DeleteKept(c: Config, st: State, k: Key, s: Slot)
    requires Inv(c, st) && s in st.pins
    ensures Kept(st, Delete(c, st, k), s) && Delete(c, st, k).pins == st.pins
  {
    hide ListsOk, RefsOk, SlotsOk, BlocksOk, LiveOk, Kept;
    PinnedHasBlock(c, st, s);
    FindListed(c, st, k);
    if Find(c, st, k).Some? { DropSetKept(c, st, {Find(c, st, k).value}, s); }
  }

  lemma {:induction false} PlaceKept(c: Config, st: State, k: Key, valuelen: nat, expire: Time, s: Slot)
    requires Inv(c, st) && Absent(st, k) && Buddy.Representable(valuelen, c.unit) && s in st.pins
    ensures Kept(st, Place(c, st, k, valuelen, expire).0, s)
    ensures Place(c, st, k, valuelen, expire).0.pins == st.pins
    ensures Place(c, st, k, valuelen, expire).1 != Some(s)
  {
    hide ListsOk, RefsOk, BlocksOk, LiveOk, Served, FreeBlock, Buddy.FirstRun, Slab.Pick, Members, Absent;
    var want := Buddy.UnitsFor(valuelen, c.unit);
    Buddy.UnitsEnough(valuelen, c.unit);
    EvictionsBound(c, st, want, 0);
    var j := Evictions(c, st, want, 0);
    OldestListed(st, j);
    DropSetKept(c, st, Oldest(st, j), s);
    EvictInv(c, st, j);
    SlotAfterFree(c, st, j);
    BlockAfterFree(c, st, want, j);
    if BlockAfter(c, st, want, j).Some? {
      FoundBlockOk(c, Evict(st, j).live, want, BlockAfter(c, st, want, j).value);
    }
  }

  lemma {:induction false} SetKept(c: Config, st: State, k: Key, valuelen: nat, timeout: nat, now: Time, s: Slot)
    requires Inv(c, st) && Buddy.Representable(valuelen, c.unit) && s in st.pins
    ensures Kept(st, Set(c, st, k, valuelen, timeout, now).0, s)
    ensures Set(c, st, k, valuelen, timeout, now).1 != Some(s)
  {
    hide ListsOk, RefsOk, SlotsOk, BlocksOk, LiveOk, Kept, Buddy.Representable, Place;
    var st1 := WithoutKey(c, st, k);
    DeleteInv(c, st, k);
    DeleteAbsent(c, st, k);
    DeleteKept(c, st, k, s);
    PlaceKept(c, st1, k, valuelen, ExpiryFor(timeout, now), s);
    KeptTrans(st, st1, Place(c, st1, k, valuelen, ExpiryFor(timeout, now)).0, s);
  }

  lemma {:induction false} UnpinKept(c: Config, st: State, t: Slot, s: Slot)
    requires Inv(c, st) && s in st.pins && t in st.pins && t in st.nodes && s in Unpin(st, t).pins
    ensures Kept(st, Unpin(st, t), s)
  {
    hide ListsOk, RefsOk, SlotsOk, LiveOk, HasBlock, Owned, OwnBlocks, Kept;
    PinnedHasBlock(c, st, s);
    if s == t { StillPinned(st, s); } else { DistinctBlocks(st.nodes, s, t); }
    UnpinOther(st, t, s);
  }

  lemma {:induction false} StillPinned(st: State, s: Slot)
    requires RefsOk(st) && s in st.nodes && s in (st.pins - multiset{s})
    ensures st.nodes[s].refcnt > 1
  {
  }

  lemma {:induction false} UnpinOther(st: State, t: Slot, s: Slot)
    requires Kept(st, st, s) && t in st.nodes
    requires if s == t then st.nodes[t].refcnt > 1 else st.nodes[s].block != st.nodes[t].block
    ensures Kept(st, Unpin(st, t), s)
  {
  }

  lemma {:induction false} DistinctBlocks(nodes: Nodes, s: Slot, t: Slot)
    requires OwnBlocks(nodes) && s in nodes && t in nodes && s != t
    ensures nodes[s].block != nodes[t].block
  {
  }

  /** No call touches the node or the block of an open GET, nor hands either out again. */
  lemma {:induction false} StepKept(c: Config, st: State, op: Op, s: Slot)
    requires Inv(c, st) && Legal(c, op) && s in st.pins && s in Step(c, st, op).pins
    ensures Kept(st, Step(c, st, op), s)
  {
    hide ListsOk, RefsOk, SlotsOk, BlocksOk, LiveOk, Buddy.Representable, Place, Unpin, DropSet;
    PinnedHasBlock(c, st, s);
    match op
    case OpGet(k, now) =>
      FindListed(c, st, k);
      if Find(c, st, k).Some? { DropSetKept(c, st, {Find(c, st, k).value}, s); }
    case OpGetEnd(t) => if t in st.pins && t in st.nodes { UnpinKept(c, st, t, s); }
    case OpSet(k, valuelen, timeout, now) => SetKept(c, st, k, valuelen, timeout, now, s);
    case OpSetEnd(t) =>
    case OpDelete(k) => DeleteKept(c, st, k, s);
    case OpExpire(k, timeout, now) =>
      FindListed(c, st, k);
      if Find(c, st, k).Some? { DropSetKept(c, st, {Find(c, st, k).value}, s); }
    case OpFlush(p) => DropSetKept(c, st, Matching(st, p), s);
    case OpSweep(now) => DropSetKept(c, st, Overdue(st, now), s);
  }

  /** Over a run during which a GET on node s stays open, its block stays its own. */
  lemma {:induction false} RunKept(c: Config, st: State, ops: seq<Op>, s: Slot)
    requires Inv(c, st) && forall op | op in ops :: Legal(c, op)
    requires forall i | 0 <= i <= |ops| :: s in Run(c, st, ops[..i]).pins
    ensures Inv(c, Run(c, st, ops)) && Kept(st, Run(c, st, ops), s)
  {
    hide ListsOk, RefsOk, SlotsOk, BlocksOk, LiveOk, Buddy.Representable, Step, Kept;
    assert ops[..|ops|] == ops;
    if ops == [] {
      assert s in Run(c, st, ops[..0]).pins;
      PinnedHasBlock(c, st, s);
    } else {
      var front := ops[..|ops| - 1];
      assert forall i | 0 <= i <= |front| :: front[..i] == ops[..i];
      RunKept(c, st, front, s);
      assert s in Run(c, st, ops[..|ops| - 1]).pins && s in Run(c, st, ops[..|ops|]).pins;
      StepInv(c, Run(c, st, front), ops[|ops| - 1]);
      StepKept(c, Run(c, st, front), ops[|ops| - 1], s);
      KeptTrans(st, Run(c, st, front), Run(c, st, ops), s);
    }
  }

  // ---------------------------------------------------------------- when SET succeeds

  /** With j evictions from rest, and no fewer, SET reached its end: success with the new node at
      the head of what is left, or failure because nothing more may be evicted. */
  ghost predicate EvictedFor(c: Config, rest: State, want: nat, st': State, r: Option<Slot>, j: nat) {
    && j <= |rest.lru| && j <= MAX_EVICTIONS
    && (forall i: nat | i < j :: !CanServe(c, Evict(rest, i), want))
    && (r.Some? <==> CanServe(c, Evict(rest, j), want))
    && (r.None? ==> j == |rest.lru| || j == MAX_EVICTIONS)
    && st'.lru == (if r.Some? then [r.value] else []) + rest.lru[..|rest.lru| - j]
  }

  /** SET evicts the fewest least-recently-used keys, at most 129, that let both allocators
      serve it, and succeeds exactly when some such number exists. */
  lemma {:induction false} SetOutcome(c: Config, st: State, k: Key, valuelen: nat, timeout: nat, now: Time)
    requires Inv(c, st) && Buddy.Representable(valuelen, c.unit)
    ensures var (st', r) := Set(c, st, k, valuelen, timeout, now);
            var rest := WithoutKey(c, st, k);
            var want := Buddy.UnitsFor(valuelen, c.unit);
            exists j: nat :: EvictedFor(c, rest, want, st', r, j)
  {
    hide RefsOk, SlotsOk, BlocksOk, LiveOk, CanServe, DropSet, Oldest, Buddy.UnitsFor;
    var rest, want := WithoutKey(c, st, k), Buddy.UnitsFor(valuelen, c.unit);
    DeleteInv(c, st, k);
    Buddy.UnitsEnough(valuelen, c.unit);
    EvictionsBound(c, rest, want, 0);
    var j := Evictions(c, rest, want, 0);
    EvictLru(rest, j);
    forall i: nat | i <= j
      ensures Served(c, rest, want, i) <==> CanServe(c, Evict(rest, i), want)
    {
      ServedIff(c, rest, want, i);
    }
    assert Evict(rest, j).lru == [] + Evict(rest, j).lru;
    var (st', r) := Set(c, st, k, valuelen, timeout, now);
    assert EvictedFor(c, rest, want, st', r, j);
  }

  lemma {:induction false} EvictEverything(c: Config, st: State)
    requires Inv(c, st) && st.pins == multiset{}
    ensures Evict(st, |st.lru|).nodes == map[] && Evict(st, |st.lru|).used == {} && Evict(st, |st.lru|).live == map[]
  {
    var st' := Evict(st, |st.lru|);
    EvictInv(c, st, |st.lru|);
    assert st.lru[|st.lru| - |st.lru|..] == st.lru;
    assert st'.lru == [] by { EvictLru(st, |st.lru|); }
    NodesReferred(c, st');
    assert forall o :: !Owned(st'.nodes, o);
    assert st'.live == map[];
  }

  /** With nothing pinned and at most 129 other keys, every SET that fits the region succeeds. */
  lemma {:induction false} SetSucceeds(c: Config, st: State, k: Key, valuelen: nat, timeout: nat, now: Time)
    requires Inv(c, st) && Buddy.Representable(valuelen, c.unit)
    requires st.pins == multiset{} && |WithoutKey(c, st, k).lru| <= MAX_EVICTIONS
    requires 0 < valuelen && Buddy.UnitsFor(valuelen, c.unit) <= c.nmemb
    ensures Set(c, st, k, valuelen, timeout, now).1.Some?
  {
    hide ListsOk, RefsOk, BlocksOk, LiveOk, CanServe, Set, Evict, Buddy.UnitsFor;
    var rest, want := WithoutKey(c, st, k), Buddy.UnitsFor(valuelen, c.unit);
    var n := |rest.lru|;
    DeleteInv(c, st, k);
    assert rest.pins == st.pins;
    EvictEverything(c, rest);
    SetOutcome(c, st, k, valuelen, timeout, now);
    Buddy.UnitsEnough(valuelen, c.unit);
    EmptyServes(c, Evict(rest, n), want);
  }

  /** A SET of length zero, which a tiering GET with an empty list makes (server/rdma.c:928), always
      fails, after evicting the 129 least recent keys, or all when there are fewer. */
  lemma {:induction false} SetOfNothing(c: Config, st: State, k: Key, timeout: nat, now: Time)
    requires Inv(c, st)
    ensures var (st', r) := Set(c, st, k, 0, timeout, now);
            var rest := WithoutKey(c, st, k).lru;
            r.None? && st'.lru == rest[..if |rest| <= MAX_EVICTIONS then 0 else |rest| - MAX_EVICTIONS]
  {
    hide ListsOk, RefsOk, BlocksOk, LiveOk, Set, Evict, Buddy.UnitsFor;
    Buddy.UnitsEnough(0, c.unit);
    Buddy.RepresentableIff(0, c.unit);
    SetOutcome(c, st, k, 0, timeout, now);
    var (st', r) := Set(c, st, k, 0, timeout, now);
    var rest := WithoutKey(c, st, k);
    var j: nat :| EvictedFor(c, rest, 0, st', r, j);
    assert rest.lru[..|rest.lru| - j] == [] + rest.lru[..|rest.lru| - j];
  }

  lemma {:induction false} EmptyServes(c: Config, st: State, want: nat)
    requires st.used == {} && st.live == map[] && c.objects > 0 && 0 < want <= c.nmemb
    ensures CanServe(c, st, want)
  {
    assert RunFree(map[], 0, want);
    assert 0 !in st.used;
  }
}
