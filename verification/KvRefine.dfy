/**
 The store seen from outside: one list of entries, most recently used first, at most one
 per key. Every call of server/kv.c acts on that list as on a plain map with a recency
 order; buckets, references and allocators only decide how many old entries a SET evicts.
 */
module KvRefine {
  import opened Wrappers
  import opened Clock
  import opened KvState
  import opened KvOps
  import opened KvRuns
  import opened Recency
  import BuddyTree
  import Buddy

  datatype Entry = Entry(slot: Slot, key: Key, block: nat, valuelen: nat, expire: Time, inprocess: bool)

  function EntryOf(s: Slot, n: Node): Entry {
    Entry(s, n.key, n.block, n.valuelen, n.expire, n.inprocess)
  }

  ghost function ViewOf(lru: seq<Slot>, nodes: Nodes): seq<Entry> {
    if lru == [] then []
    else (if lru[0] in nodes then [EntryOf(lru[0], nodes[lru[0]])] else []) + ViewOf(lru[1..], nodes)
  }

  ghost function View(st: State): seq<Entry> { ViewOf(st.lru, st.nodes) }

  ghost function Select(v: seq<Entry>, q: Entry -> bool): seq<Entry> {
    if v == [] then []
    else if q(v[0]) then [v[0]] + Select(v[1..], q)
    else Select(v[1..], q)
  }

  ghost function Except(v: seq<Entry>, k: Key): seq<Entry> { Select(v, (e: Entry) => e.key != k) }

  ghost function Lookup(v: seq<Entry>, k: Key): Option<Entry> {
    if v == [] then None else if v[0].key == k then Some(v[0]) else Lookup(v[1..], k)
  }

  ghost function Updated(v: seq<Entry>, s: Slot, expire: Option<Time>, done: bool): seq<Entry> {
    if v == [] then []
    else
      [if v[0].slot == s
       then v[0].(expire := if expire.Some? then expire.value else v[0].expire,
                  inprocess := if done then false else v[0].inprocess)
       else v[0]] + Updated(v[1..], s, expire, done)
  }

  /** The plain store: what each call does to the list. For SET, the number of evicted
      entries and the new entry (if any) come from the allocators. */
  ghost function PlainStep(v: seq<Entry>, op: Op, evicted: nat, added: Option<Entry>): seq<Entry> {
    match op
    case OpGet(k, now) =>
      (match Lookup(v, k)
       case None => v
       case Some(e) =>
         if Expired(e.expire, now) then Except(v, k)
         else if e.inprocess then v
         else [e] + Except(v, k))
    case OpGetEnd(_) => v
    case OpSet(k, _, _, _) =>
      var rest := Except(v, k);
      (if added.Some? then [added.value] else []) + (if evicted <= |rest| then rest[..|rest| - evicted] else [])
    case OpSetEnd(s) => Updated(v, s, None, true)
    case OpDelete(k) => Except(v, k)
    case OpExpire(k, timeout, now) =>
      (match Lookup(v, k)
       case None => v
       case Some(e) =>
         if Expired(e.expire, now) then Except(v, k)
         else if timeout < MAX_TIMEOUT then Updated(v, e.slot, Some(AddMs(now, timeout)), false)
         else v)
    case OpFlush(p) => Select(v, (e: Entry) => !p(e.key))
    case OpSweep(now) => Select(v, (e: Entry) => !Expired(e.expire, now))
  }

  // ---------------------------------------------------------------- views of primitive changes

  lemma {:induction false} ViewSlots(lru: seq<Slot>, nodes: Nodes, i: nat)
    requires i < |ViewOf(lru, nodes)|
    ensures var e := ViewOf(lru, nodes)[i]; e.slot in lru && e.slot in nodes && e == EntryOf(e.slot, nodes[e.slot])
  {
    if lru[0] in nodes {
      if i > 0 { ViewSlots(lru[1..], nodes, i - 1); }
    } else {
      ViewSlots(lru[1..], nodes, i);
    }
  }

  /** Nodes that agree up to the reference count give the same view. */
  lemma {:induction false} ViewSame(lru: seq<Slot>, nodes: Nodes, nodes': Nodes)
    requires forall s | s in lru ::
               (s in nodes <==> s in nodes') && (s in nodes ==> EntryOf(s, nodes[s]) == EntryOf(s, nodes'[s]))
    ensures ViewOf(lru, nodes) == ViewOf(lru, nodes')
  {
    if lru != [] {
      assert lru[0] in lru;
      ViewSame(lru[1..], nodes, nodes');
    }
  }

  lemma {:induction false} ViewDrop(lru: seq<Slot>, nodes: Nodes, d: set<Slot>)
    ensures ViewOf(Keep(lru, d), DropNodes(nodes, d)) == Select(ViewOf(lru, nodes), (e: Entry) => e.slot !in d)
  {
    if lru != [] {
      ViewDrop(lru[1..], nodes, d);
      var s := lru[0];
      var k := Keep(lru[1..], d);
      var v := ViewOf(lru[1..], nodes);
      if s !in d { assert ([s] + k)[1..] == k; }
      if s in nodes { assert ([EntryOf(s, nodes[s])] + v)[1..] == v; } else { assert [] + v == v; }
    }
  }

  lemma {:induction false} SelectSame(v: seq<Entry>, p: Entry -> bool, q: Entry -> bool)
    requires forall i | 0 <= i < |v| :: p(v[i]) == q(v[i])
    ensures Select(v, p) == Select(v, q)
  {
    if v != [] { SelectSame(v[1..], p, q); }
  }

  lemma {:induction false} LookupView(c: Config, st: State, k: Key)
    requires c.buckets > 0 && ListsOk(c, st)
    ensures Lookup(View(st), k) == match Find(c, st, k)
                                   case None => None
                                   case Some(s) => if s in st.nodes then Some(EntryOf(s, st.nodes[s])) else None
  {
    FindListed(c, st, k);
    if Find(c, st, k).Some? {
      var s := Find(c, st, k).value;
      LookupHit(st.lru, st.nodes, k, s);
    } else {
      LookupMiss(st.lru, st.nodes, k);
    }
  }

  lemma {:induction false} LookupHit(lru: seq<Slot>, nodes: Nodes, k: Key, s: Slot)
    requires s in lru && s in nodes && nodes[s].key == k
    requires forall t | t in lru && t in nodes && nodes[t].key == k :: t == s
    ensures Lookup(ViewOf(lru, nodes), k) == Some(EntryOf(s, nodes[s]))
  {
    var t := lru[0];
    var v := ViewOf(lru[1..], nodes);
    if t != s {
      LookupHit(lru[1..], nodes, k, s);
      if t in nodes {
        assert nodes[t].key != k;
        assert ([EntryOf(t, nodes[t])] + v)[1..] == v;
      } else {
        assert [] + v == v;
      }
    }
  }

  lemma {:induction false} LookupMiss(lru: seq<Slot>, nodes: Nodes, k: Key)
    requires forall t | t in lru && t in nodes :: nodes[t].key != k
    ensures Lookup(ViewOf(lru, nodes), k) == None
  {
    if lru != [] {
      LookupMiss(lru[1..], nodes, k);
      var t, v := lru[0], ViewOf(lru[1..], nodes);
      if t in nodes {
        assert t in lru;
        assert ([EntryOf(t, nodes[t])] + v)[1..] == v;
      } else {
        assert [] + v == v;
      }
    }
  }

  /** Dropping the one node of a key is dropping the key's entry. */
  lemma {:induction false} ViewDropKey(c: Config, st: State, k: Key, s: Slot)
    requires c.buckets > 0 && ListsOk(c, st) && Find(c, st, k) == Some(s)
    ensures View(Drop(st, s)) == Except(View(st), k)
    ensures ViewOf(Keep(st.lru, {s}), st.nodes) == Except(View(st), k)
  {
    hide ListsOk, Keep, Select, ViewOf;
    var d := {s};
    ViewDrop(st.lru, st.nodes, d);
    ViewSame(Keep(st.lru, d), st.nodes, DropNodes(st.nodes, d));
    SlotIsKey(c, st, k, s);
    SelectSame(View(st), (e: Entry) => e.slot !in d, (e: Entry) => e.key != k);
  }

  lemma {:induction false} SlotIsKey(c: Config, st: State, k: Key, s: Slot)
    requires c.buckets > 0 && ListsOk(c, st) && Find(c, st, k) == Some(s)
    ensures forall i | 0 <= i < |View(st)| :: View(st)[i].slot != s <==> View(st)[i].key != k
  {
    FindListed(c, st, k);
    forall i | 0 <= i < |View(st)|
      ensures View(st)[i].slot != s <==> View(st)[i].key != k
    {
      ViewSlots(st.lru, st.nodes, i);
    }
  }

  lemma {:induction false} ViewDropAbsent(c: Config, st: State, k: Key)
    requires c.buckets > 0 && ListsOk(c, st) && Find(c, st, k) == None
    ensures View(st) == Except(View(st), k)
  {
    FindListed(c, st, k);
    var v := View(st);
    forall i | 0 <= i < |v|
      ensures v[i].key != k
    {
      ViewSlots(st.lru, st.nodes, i);
    }
    SelectAll(v, (e: Entry) => e.key != k);
  }

  lemma {:induction false} SelectAll(v: seq<Entry>, p: Entry -> bool)
    requires forall i | 0 <= i < |v| :: p(v[i])
    ensures Select(v, p) == v
  {
    if v != [] { SelectAll(v[1..], p); }
  }

  lemma {:induction false} ViewDelete(c: Config, st: State, k: Key)
    requires c.buckets > 0 && ListsOk(c, st)
    ensures View(Delete(c, st, k)) == Except(View(st), k)
  {
    match Find(c, st, k)
    case None => ViewDropAbsent(c, st, k);
    case Some(s) => ViewDropKey(c, st, k, s);
  }

  lemma {:induction false} ViewGet(c: Config, st: State, k: Key, now: Time)
    requires c.buckets > 0 && ListsOk(c, st)
    ensures View(Get(c, st, k, now).0) == PlainStep(View(st), OpGet(k, now), 0, None)
  {
    hide ListsOk;
    LookupView(c, st, k);
    match Find(c, st, k)
    case None =>
    case Some(s) =>
      ViewDropKey(c, st, k, s);
      FindListed(c, st, k);
      var st1 := Pin(st, s);
      ViewSame(st.lru, st.nodes, st1.nodes);
      var keep := Keep(st.lru, {s});
      ViewSame(keep, st.nodes, st1.nodes);
      assert ([s] + keep)[1..] == keep;
      assert ViewOf([s] + keep, st1.nodes) == [EntryOf(s, st.nodes[s])] + ViewOf(keep, st1.nodes);
  }

  lemma {:induction false} ViewUpdated(lru: seq<Slot>, nodes: Nodes, s: Slot, expire: Option<Time>, done: bool)
    requires s in nodes
    ensures var n := nodes[s];
            var n' := n.(expire := if expire.Some? then expire.value else n.expire,
                         inprocess := if done then false else n.inprocess);
            ViewOf(lru, nodes[s := n']) == Updated(ViewOf(lru, nodes), s, expire, done)
  {
    if lru != [] {
      ViewUpdated(lru[1..], nodes, s, expire, done);
      var t, v := lru[0], ViewOf(lru[1..], nodes);
      if t in nodes { assert ([EntryOf(t, nodes[t])] + v)[1..] == v; } else { assert [] + v == v; }
    }
  }

  lemma {:induction false} UpdatedNone(v: seq<Entry>, s: Slot, expire: Option<Time>, done: bool)
    requires forall i | 0 <= i < |v| :: v[i].slot != s
    ensures Updated(v, s, expire, done) == v
  {
    if v != [] { UpdatedNone(v[1..], s, expire, done); }
  }

  lemma {:induction false} ViewSetEnd(st: State, s: Slot)
    ensures View(SetEnd(st, s)) == Updated(View(st), s, None, true)
  {
    if s in st.nodes {
      ViewUpdated(st.lru, st.nodes, s, None, true);
    } else {
      forall i | 0 <= i < |View(st)|
        ensures View(st)[i].slot != s
      {
        ViewSlots(st.lru, st.nodes, i);
      }
      UpdatedNone(View(st), s, None, true);
    }
  }

  lemma {:induction false} ViewExpire(c: Config, st: State, k: Key, timeout: nat, now: Time)
    requires c.buckets > 0 && ListsOk(c, st)
    ensures View(Expire(c, st, k, timeout, now)) == PlainStep(View(st), OpExpire(k, timeout, now), 0, None)
  {
    hide ListsOk;
    LookupView(c, st, k);
    match Find(c, st, k)
    case None =>
    case Some(s) =>
      ViewDropKey(c, st, k, s);
      FindListed(c, st, k);
      ViewUpdated(st.lru, st.nodes, s, Some(AddMs(now, timeout)), false);
  }

  lemma {:induction false} ViewGetEnd(c: Config, st: State, s: Slot)
    requires RefsOk(st)
    ensures View(GetEnd(st, s)) == View(st)
  {
    if s in st.pins && s in st.nodes {
      if st.nodes[s].refcnt == 1 { UnpinRefs(st, s); }
      ViewSame(st.lru, st.nodes, GetEnd(st, s).nodes);
    }
  }

  lemma {:induction false} ViewFlush(st: State, p: Key -> bool)
    ensures View(Flush(st, p)) == Select(View(st), (e: Entry) => !p(e.key))
  {
    var d, v := Matching(st, p), View(st);
    ViewDrop(st.lru, st.nodes, d);
    forall i | 0 <= i < |v|
      ensures v[i].slot !in d <==> !p(v[i].key)
    {
      ViewSlots(st.lru, st.nodes, i);
    }
    SelectSame(v, (e: Entry) => e.slot !in d, (e: Entry) => !p(e.key));
  }

  lemma {:induction false} ViewSweep(st: State, now: Time)
    ensures View(Sweep(st, now)) == Select(View(st), (e: Entry) => !Expired(e.expire, now))
  {
    var d, v := Overdue(st, now), View(st);
    ViewDrop(st.lru, st.nodes, d);
    forall i | 0 <= i < |v|
      ensures v[i].slot !in d <==> !Expired(v[i].expire, now)
    {
      ViewSlots(st.lru, st.nodes, i);
    }
    SelectSame(v, (e: Entry) => e.slot !in d, (e: Entry) => !Expired(e.expire, now));
  }

  // ---------------------------------------------------------------- SET

  lemma {:induction false} ViewPrefix(lru: seq<Slot>, nodes: Nodes, n: nat)
    requires n <= |lru| && forall s | s in lru :: s in nodes
    ensures |ViewOf(lru, nodes)| == |lru| && ViewOf(lru[..n], nodes) == ViewOf(lru, nodes)[..n]
  {
    if lru != [] {
      assert lru[0] in lru;
      var v := ViewOf(lru[1..], nodes);
      if n == 0 {
        ViewPrefix(lru[1..], nodes, 0);
      } else {
        ViewPrefix(lru[1..], nodes, n - 1);
        assert lru[..n][1..] == lru[1..][..n - 1];
        assert lru[..n][0] == lru[0];
        assert ([EntryOf(lru[0], nodes[lru[0]])] + v)[..n] == [EntryOf(lru[0], nodes[lru[0]])] + v[..n - 1];
      }
    }
  }

  lemma {:induction false} ViewEvict(c: Config, st: State, j: nat)
    requires c.buckets > 0 && ListsOk(c, st) && j <= |st.lru|
    ensures |View(st)| == |st.lru| && View(Evict(st, j)) == View(st)[..|st.lru| - j]
  {
    var n := |st.lru| - j;
    EvictLru(st, j);
    ViewPrefix(st.lru, st.nodes, n);
    var d := Oldest(st, j);
    forall s | s in st.lru[..n]
      ensures s in st.nodes && s !in d
    {
    }
    ViewSame(st.lru[..n], st.nodes, DropNodes(st.nodes, d));
  }

  lemma {:induction false} ViewInsert(c: Config, st: State, s: Slot, n: Node)
    requires c.buckets > 0 && |st.chains| == c.buckets && c.unit > 0 && s !in st.lru
    ensures View(Insert(c, st, s, n)) == [EntryOf(s, n)] + View(st)
  {
    var nodes' := st.nodes[s := n];
    assert ([s] + st.lru)[1..] == st.lru;
    assert ViewOf([s] + st.lru, nodes') == [EntryOf(s, n)] + ViewOf(st.lru, nodes');
    ViewOther(st.lru, st.nodes, s, n);
  }

  lemma {:induction false} ViewOther(lru: seq<Slot>, nodes: Nodes, s: Slot, n: Node)
    requires s !in lru
    ensures ViewOf(lru, nodes[s := n]) == ViewOf(lru, nodes)
  {
    ViewSame(lru, nodes, nodes[s := n]);
  }

  /** The entry a successful SET adds. */
  ghost predicate AddedBy(e: Entry, k: Key, valuelen: nat, expire: Time) {
    e.key == k && e.valuelen == valuelen && e.expire == expire && e.inprocess
  }

  lemma {:induction false} ViewPlace(c: Config, st: State, k: Key, valuelen: nat, expire: Time)
    returns (evicted: nat, added: Option<Entry>)
    requires Inv(c, st) && Absent(st, k) && Buddy.Representable(valuelen, c.unit)
    ensures evicted <= |View(st)| && evicted <= MAX_EVICTIONS
    ensures added.Some? <==> Place(c, st, k, valuelen, expire).1.Some?
    ensures added.Some? ==> AddedBy(added.value, k, valuelen, expire)
    ensures View(Place(c, st, k, valuelen, expire).0)
         == (if added.Some? then [added.value] else []) + View(st)[..|View(st)| - evicted]
  {
    hide RefsOk, BlocksOk, BuddyTree.LiveOk, Served, Buddy.UnitsFor, Absent, DropSet;
    var want := Buddy.UnitsFor(valuelen, c.unit);
    Buddy.UnitsEnough(valuelen, c.unit);
    EvictionsBound(c, st, want, 0);
    evicted := Evictions(c, st, want, 0);
    EvictInv(c, st, evicted);
    ViewEvict(c, st, evicted);
    SlotAfterFree(c, st, evicted);
    var slot, block := SlotAfter(c, st, evicted), BlockAfter(c, st, want, evicted);
    var st1 := Evict(st, evicted);
    if slot.Some? && block.Some? {
      var n := NewNode(k, block.value, valuelen, expire);
      ViewInsert(c, st1, slot.value, n);
      added := Some(EntryOf(slot.value, n));
    } else {
      added := None;
      assert View(st1) == [] + View(st1);
    }
  }

  /** Every call is a call of the plain store. */
  lemma {:induction false} Refines(c: Config, st: State, op: Op) returns (evicted: nat, added: Option<Entry>)
    requires Inv(c, st) && Legal(c, op)
    ensures View(Step(c, st, op)) == PlainStep(View(st), op, evicted, added)
    ensures evicted <= MAX_EVICTIONS
    ensures op.OpSet? ==> (added.Some? <==> Set(c, st, op.key, op.valuelen, op.timeout, op.now).1.Some?)
    ensures op.OpSet? && added.Some? ==> AddedBy(added.value, op.key, op.valuelen, ExpiryFor(op.timeout, op.now))
  {
    hide ListsOk, RefsOk, SlotsOk, BlocksOk, BuddyTree.LiveOk, Buddy.Representable, View, Place, Except, Lookup;
    evicted, added := 0, None;
    match op
    case OpGet(k, now) => ViewGet(c, st, k, now);
    case OpGetEnd(s) => ViewGetEnd(c, st, s);
    case OpSet(k, valuelen, timeout, now) =>
      DeleteInv(c, st, k);
      DeleteAbsent(c, st, k);
      ViewDelete(c, st, k);
      evicted, added := ViewPlace(c, WithoutKey(c, st, k), k, valuelen, ExpiryFor(timeout, now));
    case OpSetEnd(s) => ViewSetEnd(st, s);
    case OpDelete(k) => ViewDelete(c, st, k);
    case OpExpire(k, timeout, now) => ViewExpire(c, st, k, timeout, now);
    case OpFlush(p) => ViewFlush(st, p);
    case OpSweep(now) => ViewSweep(st, now);
  }

  // ---------------------------------------------------------------- recency

  /** The key a call uses: a GET that finds it or a SET that stores it. */
  ghost function UsedBy(c: Config, st: State, op: Op): Option<Key> {
    match op
    case OpGet(k, now) => if Get(c, st, k, now).1.Found? then Some(k) else None
    case OpSet(k, valuelen, timeout, now) =>
      if Set(c, st, k, valuelen, timeout, now).1.Some? then Some(k) else None
    case _ => None
  }

  ghost function Uses(c: Config, ops: seq<Op>): seq<Option<Key>> {
    if ops == [] then []
    else
      var front := ops[..|ops| - 1];
      Uses(c, front) + [UsedBy(c, Run(c, Empty(c), front), ops[|ops| - 1])]
  }

  ghost predicate ByRecency(v: seq<Entry>, h: seq<Option<Key>>) {
    && (forall i | 0 <= i < |v| :: 0 <= LastUse(h, v[i].key))
    && (forall i, j | 0 <= i < j < |v| :: LastUse(h, v[i].key) > LastUse(h, v[j].key))
  }

  ghost predicate AllBefore(v: seq<Entry>, h: seq<Option<Key>>, t: int) {
    forall i | 0 <= i < |v| :: LastUse(h, v[i].key) < t
  }

  lemma {:induction false} SelectBefore(v: seq<Entry>, q: Entry -> bool, h: seq<Option<Key>>, t: int)
    requires AllBefore(v, h, t)
    ensures AllBefore(Select(v, q), h, t)
  {
    if v != [] { SelectBefore(v[1..], q, h, t); }
  }

  lemma {:induction false} SelectRecency(v: seq<Entry>, q: Entry -> bool, h: seq<Option<Key>>)
    requires ByRecency(v, h)
    ensures ByRecency(Select(v, q), h)
    ensures forall i | 0 <= i < |Select(v, q)| :: q(Select(v, q)[i])
  {
    hide ByRecency, AllBefore, LastUse;
    if v == [] {
      assert ByRecency([], h) by { NoneRecency(h); }
    } else {
      HeadRecency(v, h);
      SelectRecency(v[1..], q, h);
      SelectBefore(v[1..], q, h, LastUse(h, v[0].key));
      if q(v[0]) { ConsRecency(v[0], Select(v[1..], q), h); }
    }
  }

  lemma {:induction false} NoneRecency(h: seq<Option<Key>>)
    ensures ByRecency([], h)
  {
  }

  lemma {:induction false} HeadRecency(v: seq<Entry>, h: seq<Option<Key>>)
    requires v != [] && ByRecency(v, h)
    ensures 0 <= LastUse(h, v[0].key) && AllBefore(v[1..], h, LastUse(h, v[0].key)) && ByRecency(v[1..], h)
  {
    hide LastUse;
  }

  lemma {:induction false} ConsRecency(e: Entry, v: seq<Entry>, h: seq<Option<Key>>)
    requires 0 <= LastUse(h, e.key) && AllBefore(v, h, LastUse(h, e.key)) && ByRecency(v, h)
    ensures ByRecency([e] + v, h)
  {
    hide LastUse;
  }

  lemma {:induction false} UpdatedKeys(v: seq<Entry>, s: Slot, expire: Option<Time>, done: bool)
    ensures |Updated(v, s, expire, done)| == |v|
    ensures forall i | 0 <= i < |v| :: Updated(v, s, expire, done)[i].key == v[i].key
  {
    if v != [] { UpdatedKeys(v[1..], s, expire, done); }
  }

  lemma {:induction false} LongerHistory(v: seq<Entry>, h: seq<Option<Key>>, u: Option<Key>)
    requires ByRecency(v, h) && forall i | 0 <= i < |v| :: u != Some(v[i].key)
    ensures ByRecency(v, h + [u])
  {
    assert (h + [u])[..|h|] == h;
    assert forall i | 0 <= i < |v| :: LastUse(h + [u], v[i].key) == LastUse(h, v[i].key);
  }

  lemma {:induction false} FrontRecency(v: seq<Entry>, h: seq<Option<Key>>, e: Entry)
    requires ByRecency(v, h) && forall i | 0 <= i < |v| :: v[i].key != e.key
    ensures ByRecency([e] + v, h + [Some(e.key)])
  {
    var h' := h + [Some(e.key)];
    LongerHistory(v, h, Some(e.key));
    assert LastUse(h', e.key) == |h|;
    assert h'[..|h|] == h;
    forall i | 0 <= i < |v|
      ensures LastUse(h', v[i].key) < |h|
    {
      LastUseBound(h, v[i].key);
    }
  }

  lemma {:induction false} LookupKey(v: seq<Entry>, k: Key)
    ensures Lookup(v, k).Some? ==> Lookup(v, k).value.key == k
  {
    if v != [] { LookupKey(v[1..], k); }
  }

  lemma {:induction false} PrefixRecency(v: seq<Entry>, h: seq<Option<Key>>, n: nat)
    requires ByRecency(v, h) && n <= |v|
    ensures ByRecency(v[..n], h)
  {
  }

  lemma {:induction false} ExceptRecency(v: seq<Entry>, h: seq<Option<Key>>, k: Key)
    requires ByRecency(v, h)
    ensures ByRecency(Except(v, k), h)
    ensures forall i | 0 <= i < |Except(v, k)| :: Except(v, k)[i].key != k
  {
    SelectRecency(v, (e: Entry) => e.key != k, h);
  }

  /** A call of the plain store keeps the list ordered by last use. */
  lemma {:induction false} PlainRecency(v: seq<Entry>, op: Op, evicted: nat, added: Option<Entry>, h: seq<Option<Key>>)
    requires ByRecency(v, h)
    requires op.OpSet? && added.Some? ==> added.value.key == op.key
    ensures var used := match op
                        case OpGet(k, now) =>
                          if Lookup(v, k).Some? && !Expired(Lookup(v, k).value.expire, now)
                             && !Lookup(v, k).value.inprocess then Some(k) else None
                        case OpSet(k, _, _, _) => if added.Some? then Some(k) else None
                        case _ => None;
            ByRecency(PlainStep(v, op, evicted, added), h + [used])
  {
    hide ByRecency, Lookup, Except, Select, Updated;
    LongerHistoryNone(v, h);
    match op
    case OpGet(k, now) => GetRecency(v, k, now, h);
    case OpGetEnd(_) =>
    case OpSet(k, valuelen, timeout, now) => SetRecency(v, op, evicted, added, h);
    case OpSetEnd(s) => UpdatedRecency(v, s, None, true, h);
    case OpDelete(k) =>
      ExceptRecency(v, h, k);
      LongerHistoryNone(Except(v, k), h);
    case OpExpire(k, timeout, now) =>
      ExceptRecency(v, h, k);
      LongerHistoryNone(Except(v, k), h);
      if Lookup(v, k).Some? { UpdatedRecency(v, Lookup(v, k).value.slot, Some(AddMs(now, timeout)), false, h); }
    case OpFlush(p) =>
      SelectRecency(v, (e: Entry) => !p(e.key), h);
      LongerHistoryNone(Select(v, (e: Entry) => !p(e.key)), h);
    case OpSweep(now) =>
      SelectRecency(v, (e: Entry) => !Expired(e.expire, now), h);
      LongerHistoryNone(Select(v, (e: Entry) => !Expired(e.expire, now)), h);
  }

  lemma {:induction false} LongerHistoryNone(v: seq<Entry>, h: seq<Option<Key>>)
    requires ByRecency(v, h)
    ensures ByRecency(v, h + [None])
  {
    LongerHistory(v, h, None);
  }

  lemma {:induction false} GetRecency(v: seq<Entry>, k: Key, now: Time, h: seq<Option<Key>>)
    requires ByRecency(v, h)
    ensures var found := Lookup(v, k).Some? && !Expired(Lookup(v, k).value.expire, now) && !Lookup(v, k).value.inprocess;
            ByRecency(PlainStep(v, OpGet(k, now), 0, None), h + [if found then Some(k) else None])
  {
    hide ByRecency, Lookup, Except;
    LookupKey(v, k);
    ExceptRecency(v, h, k);
    LongerHistoryNone(v, h);
    LongerHistoryNone(Except(v, k), h);
    if Lookup(v, k).Some? { FrontRecency(Except(v, k), h, Lookup(v, k).value); }
  }

  lemma {:induction false} SetRecency(v: seq<Entry>, op: Op, evicted: nat, added: Option<Entry>, h: seq<Option<Key>>)
    requires op.OpSet? && ByRecency(v, h) && (added.Some? ==> added.value.key == op.key)
    ensures ByRecency(PlainStep(v, op, evicted, added), h + [if added.Some? then Some(op.key) else None])
  {
    hide ByRecency, Except;
    var rest := Except(v, op.key);
    ExceptRecency(v, h, op.key);
    var n := if evicted <= |rest| then |rest| - evicted else 0;
    PrefixRecency(rest, h, n);
    assert (if evicted <= |rest| then rest[..|rest| - evicted] else []) == rest[..n];
    if added.Some? {
      FrontRecency(rest[..n], h, added.value);
    } else {
      assert [] + rest[..n] == rest[..n];
      LongerHistoryNone(rest[..n], h);
    }
  }

  lemma {:induction false} UpdatedRecency(v: seq<Entry>, s: Slot, expire: Option<Time>, done: bool, h: seq<Option<Key>>)
    requires ByRecency(v, h)
    ensures ByRecency(Updated(v, s, expire, done), h + [None])
  {
    UpdatedKeys(v, s, expire, done);
    LongerHistory(Updated(v, s, expire, done), h, None);
  }

  /** In every reachable state the list is in the order of last successful SET or GET. */
  lemma {:induction false} RunRecency(c: Config, ops: seq<Op>)
    requires ConfigOk(c) && forall op | op in ops :: Legal(c, op)
    ensures ByRecency(View(Run(c, Empty(c), ops)), Uses(c, ops))
  {
    hide ListsOk, RefsOk, SlotsOk, BlocksOk, BuddyTree.LiveOk, Buddy.Representable;
    hide ByRecency, View, Step, PlainStep, UsedBy;
    if ops == [] {
      EmptyRecency(c);
    } else {
      var front, op := ops[..|ops| - 1], ops[|ops| - 1];
      var st := Run(c, Empty(c), front);
      RunRecency(c, front);
      RunInv(c, front);
      var evicted, added := Refines(c, st, op);
      UsedKey(c, st, op, added);
      PlainRecency(View(st), op, evicted, added, Uses(c, front));
    }
  }

  lemma {:induction false} EmptyRecency(c: Config)
    ensures ByRecency(View(Empty(c)), [])
  {
  }

  lemma {:induction false} UsedKey(c: Config, st: State, op: Op, added: Option<Entry>)
    requires Inv(c, st)
    requires op.OpSet? ==> (added.Some? <==> Set(c, st, op.key, op.valuelen, op.timeout, op.now).1.Some?)
    ensures UsedBy(c, st, op) == match op
                                 case OpGet(k, now) =>
                                   var v := View(st);
                                   if Lookup(v, k).Some? && !Expired(Lookup(v, k).value.expire, now)
                                      && !Lookup(v, k).value.inprocess then Some(k) else None
                                 case OpSet(k, _, _, _) => if added.Some? then Some(k) else None
                                 case _ => None
  {
    hide ListsOk, RefsOk, SlotsOk, BlocksOk, BuddyTree.LiveOk, View, Set;
    if op.OpGet? {
      LookupView(c, st, op.key);
      FindListed(c, st, op.key);
    }
  }
}
