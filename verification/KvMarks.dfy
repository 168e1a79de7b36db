/**
 The in-process mark of a stored value: SET sets it, SET-end clears it, and a GET answers only
 when it is clear (server/kv.c:374-386, 468, 505-514). SET takes no reference, so its SET-end
 clears the mark of whatever node is at the slot by then. When that is the value's own SET-end,
 and when it is another's, over every run.
 */
module KvMarks {
  import opened Wrappers
  import opened Clock
  import opened KvState
  import opened KvOps
  import opened KvRuns
  import BuddyTree
  import Buddy

  // ---------------------------------------------------------------- one call

  /** The slot a call gives to a new value. */
  ghost function Gives(c: Config, st: State, op: Op): Option<Slot> {
    match op
    case OpSet(k, valuelen, timeout, now) => Set(c, st, k, valuelen, timeout, now).1
    case _ => None
  }

  /** Nodes change key or mark only by being given out again or by a SET-end. */
  ghost predicate SameMark(nodes: Nodes, nodes': Nodes, s: Slot) {
    s in nodes' ==> s in nodes && nodes'[s].key == nodes[s].key && nodes'[s].inprocess == nodes[s].inprocess
  }

  lemma {:induction false} DropSetMark(st: State, d: set<Slot>, s: Slot)
    ensures SameMark(st.nodes, DropSet(st, d).nodes, s)
  {
  }

  lemma {:induction false} DeleteMark(c: Config, st: State, k: Key, s: Slot)
    ensures SameMark(st.nodes, Delete(c, st, k).nodes, s)
  {
    hide DropSet;
    if Find(c, st, k).Some? { DropSetMark(st, {Find(c, st, k).value}, s); }
  }

  lemma {:induction false} PlaceMark(c: Config, st: State, k: Key, valuelen: nat, expire: Time, s: Slot)
    requires c.unit > 0
    ensures var (st', r) := Place(c, st, k, valuelen, expire);
            if r == Some(s) then s in st'.nodes && st'.nodes[s].key == k && st'.nodes[s].inprocess
            else SameMark(st.nodes, st'.nodes, s)
  {
    hide DropSet, SlotAfter, BlockAfter, Buddy.UnitsFor, Evictions;
    var j := Evictions(c, st, Buddy.UnitsFor(valuelen, c.unit), 0);
    DropSetMark(st, Oldest(st, j), s);
  }

  lemma {:induction false} GetMark(c: Config, st: State, k: Key, now: Time, s: Slot)
    ensures SameMark(st.nodes, Get(c, st, k, now).0.nodes, s)
  {
    hide DropSet, Find;
    if Find(c, st, k).Some? { DropSetMark(st, {Find(c, st, k).value}, s); }
  }

  lemma {:induction false} ExpireMark(c: Config, st: State, k: Key, timeout: nat, now: Time, s: Slot)
    ensures SameMark(st.nodes, Expire(c, st, k, timeout, now).nodes, s)
  {
    hide DropSet, Find;
    if Find(c, st, k).Some? { DropSetMark(st, {Find(c, st, k).value}, s); }
  }

  lemma {:induction false} GetEndMark(st: State, t: Slot, s: Slot)
    ensures SameMark(st.nodes, GetEnd(st, t).nodes, s)
  {
  }

  lemma {:induction false} SetMark(c: Config, st: State, k: Key, valuelen: nat, timeout: nat, now: Time, s: Slot)
    requires c.unit > 0
    ensures var (st', r) := Set(c, st, k, valuelen, timeout, now);
            if r == Some(s) then s in st'.nodes && st'.nodes[s].key == k && st'.nodes[s].inprocess
            else SameMark(st.nodes, st'.nodes, s)
  {
    hide Place, Delete;
    DeleteMark(c, st, k, s);
    PlaceMark(c, WithoutKey(c, st, k), k, valuelen, ExpiryFor(timeout, now), s);
  }

  lemma {:induction false} SetEndMark(st: State, t: Slot, s: Slot)
    ensures if t == s then
              s in SetEnd(st, t).nodes ==>
                s in st.nodes && SetEnd(st, t).nodes[s].key == st.nodes[s].key && !SetEnd(st, t).nodes[s].inprocess
            else SameMark(st.nodes, SetEnd(st, t).nodes, s)
  {
  }

  lemma {:induction false} StepMark(c: Config, st: State, op: Op, s: Slot)
    requires c.unit > 0
    ensures var st' := Step(c, st, op);
            if Gives(c, st, op) == Some(s) then
              op.OpSet? && s in st'.nodes && st'.nodes[s].key == op.key && st'.nodes[s].inprocess
            else if op == OpSetEnd(s) then
              s in st'.nodes ==> s in st.nodes && st'.nodes[s].key == st.nodes[s].key && !st'.nodes[s].inprocess
            else SameMark(st.nodes, st'.nodes, s)
  {
    hide DropSet, Get, GetEnd, Set, SetEnd, Delete, Expire, SameMark;
    match op
    case OpGet(k, now) => GetMark(c, st, k, now, s);
    case OpGetEnd(t) => GetEndMark(st, t, s);
    case OpSet(k, valuelen, timeout, now) => SetMark(c, st, k, valuelen, timeout, now, s);
    case OpSetEnd(t) => SetEndMark(st, t, s);
    case OpDelete(k) => DeleteMark(c, st, k, s);
    case OpExpire(k, timeout, now) => ExpireMark(c, st, k, timeout, now, s);
    case OpFlush(p) => DropSetMark(st, Matching(st, p), s);
    case OpSweep(now) => DropSetMark(st, Overdue(st, now), s);
  }

  // ---------------------------------------------------------------- every run

  ghost function After(c: Config, ops: seq<Op>): State { Run(c, Empty(c), ops) }

  /** Call number i gave slot s to a new value. */
  ghost predicate Gave(c: Config, ops: seq<Op>, i: int, s: Slot) {
    0 <= i < |ops| && Gives(c, After(c, ops[..i]), ops[i]) == Some(s)
  }

  /** Call number i was the last to give slot s. */
  ghost predicate Owner(c: Config, ops: seq<Op>, i: int, s: Slot) {
    Gave(c, ops, i, s) && forall j | i < j < |ops| :: !Gave(c, ops, j, s)
  }

  lemma {:induction false} GavePrefix(c: Config, ops: seq<Op>, n: nat, i: int, s: Slot)
    requires i < n <= |ops|
    ensures Gave(c, ops[..n], i, s) <==> Gave(c, ops, i, s)
  {
    if 0 <= i { assert ops[..n][..i] == ops[..i]; }
  }

  /** Over every run: a stored node belongs to the last SET that was given its slot, and is marked
      exactly while no SET-end on that slot has followed. */
  lemma {:induction false} MarkExact(c: Config, ops: seq<Op>, s: Slot) returns (i: nat)
    requires c.unit > 0 && s in After(c, ops).nodes
    ensures Owner(c, ops, i, s) && ops[i].OpSet? && After(c, ops).nodes[s].key == ops[i].key
    ensures After(c, ops).nodes[s].inprocess <==> forall j | i < j < |ops| :: ops[j] != OpSetEnd(s)
  {
    hide Step, Gives;
    assert ops != [];
    var n := |ops| - 1;
    var front, op := ops[..n], ops[n];
    StepMark(c, After(c, front), op, s);
    assert Gave(c, ops, n, s) <==> Gives(c, After(c, front), op) == Some(s);
    if Gave(c, ops, n, s) {
      i := n;
    } else {
      i := MarkExact(c, front, s);
      GavePrefix(c, ops, n, i, s);
      forall j | i < j < |ops| ensures !Gave(c, ops, j, s) {
        if j < n { GavePrefix(c, ops, n, j, s); }
      }
      assert forall j | i < j < n :: front[j] == ops[j];
      if op != OpSetEnd(s) && !After(c, ops).nodes[s].inprocess {
        var j :| i < j < |front| && front[j] == OpSetEnd(s);
        assert ops[j] == OpSetEnd(s);
      }
    }
  }

  /** When a GET is answered. */
  lemma {:induction false} FoundIff(c: Config, st: State, k: Key, now: Time, s: Slot)
    requires c.buckets > 0 && ListsOk(c, st)
    ensures Get(c, st, k, now).1 == Found(s) <==>
            s in st.lru && s in st.nodes && st.nodes[s].key == k && !st.nodes[s].inprocess
            && !Expired(st.nodes[s].expire, now)
  {
    FindListed(c, st, k);
  }

  /** A listed node with a clear mark is answered by a GET of its key, say at its expiry time. */
  lemma {:induction false} ClearReads(c: Config, st: State, s: Slot)
    requires c.buckets > 0 && ListsOk(c, st) && s in st.lru
    ensures s in st.nodes
    ensures !st.nodes[s].inprocess <==> exists k: Key, now: Time :: Get(c, st, k, now).1 == Found(s)
  {
    hide ListsOk, Get;
    assert s in st.nodes by { ListedNode(c, st, s); }
    var n := st.nodes[s];
    FoundIff(c, st, n.key, n.expire, s);
    assert !Expired(n.expire, n.expire);
    if k: Key, now: Time :| Get(c, st, k, now).1 == Found(s) { FoundIff(c, st, k, now, s); }
  }

  lemma {:induction false} ListedNode(c: Config, st: State, s: Slot)
    requires c.buckets > 0 && ListsOk(c, st) && s in st.lru
    ensures s in st.nodes
  {
  }

  lemma {:induction false} StoredNode(c: Config, st: State, k: Key, valuelen: nat, expire: Time)
    requires Place(c, st, k, valuelen, expire).1.Some?
    ensures var (st', r) := Place(c, st, k, valuelen, expire);
            && r.value in st'.lru && r.value in st'.nodes
            && st'.nodes[r.value].key == k && st'.nodes[r.value].expire == expire
            && st'.nodes[r.value].valuelen == valuelen
  {
    hide DropSet, SlotAfter, BlockAfter, Buddy.UnitsFor, Evictions;
  }

  /** What was stored is answered: after a SET and its SET-end, a GET before the expiry finds the
      node, with the length that was set. */
  lemma {:induction false} ReadBack(c: Config, st: State, k: Key, valuelen: nat, timeout: nat, now: Time, later: Time)
    requires Inv(c, st) && Buddy.Representable(valuelen, c.unit)
    requires Set(c, st, k, valuelen, timeout, now).1.Some? && !Expired(ExpiryFor(timeout, now), later)
    ensures var (st', r) := Set(c, st, k, valuelen, timeout, now);
            var st2 := SetEnd(st', r.value);
            && Get(c, st2, k, later).1 == Found(r.value)
            && r.value in st2.nodes && st2.nodes[r.value].valuelen == valuelen
  {
    hide ListsOk, RefsOk, SlotsOk, BlocksOk, BuddyTree.LiveOk, Buddy.Representable, Place, Get;
    SetInv(c, st, k, valuelen, timeout, now);
    StoredNode(c, WithoutKey(c, st, k), k, valuelen, ExpiryFor(timeout, now));
    var (st', r) := Set(c, st, k, valuelen, timeout, now);
    ListsAfterEnd(c, st', r.value);
    FoundIff(c, SetEnd(st', r.value), k, later, r.value);
  }

  // ---------------------------------------------------------------- whose SET-end

  /** A trace says of every SET-end which SET it ends, by the SET's place in the trace. */
  datatype Event = Do(op: Op) | End(of: nat)

  /** The call an event makes after trace t. */
  ghost function CallOf(c: Config, t: seq<Event>, e: Event): Op
    decreases |t|, 1
  {
    match e
    case Do(op) => op
    case End(n) => OpSetEnd(if SlotOf(c, t, n).Some? then SlotOf(c, t, n).value else 0)
  }

  ghost function Calls(c: Config, t: seq<Event>): seq<Op>
    decreases |t|, 1
  {
    if t == [] then [] else Calls(c, t[..|t| - 1]) + [CallOf(c, t[..|t| - 1], t[|t| - 1])]
  }

  /** The slot that event i of the trace, a SET, was given. */
  ghost function SlotOf(c: Config, t: seq<Event>, i: nat): Option<Slot>
    decreases |t|, 0
  {
    if i < |t| && t[i].Do? then Gives(c, After(c, Calls(c, t[..i])), t[i].op) else None
  }

  ghost predicate Ended(t: seq<Event>, i: nat) { End(i) in t }

  /** Callers end only SETs that succeeded, after them, and once. */
  ghost predicate EventOk(c: Config, t: seq<Event>, e: Event) {
    match e
    case Do(op) => Legal(c, op) && !op.OpSetEnd?
    case End(n) => SlotOf(c, t, n).Some? && !Ended(t, n)
  }

  ghost predicate TraceOk(c: Config, t: seq<Event>) {
    forall i | 0 <= i < |t| :: EventOk(c, t[..i], t[i])
  }

  ghost function Reached(c: Config, t: seq<Event>): State { After(c, Calls(c, t)) }

  lemma {:induction false} CallsPrefix(c: Config, t: seq<Event>, i: nat)
    requires i <= |t|
    ensures |Calls(c, t)| == |t| && Calls(c, t)[..i] == Calls(c, t[..i])
    ensures i < |t| ==> Calls(c, t)[i] == CallOf(c, t[..i], t[i])
    decreases |t| - i
  {
    CallsLength(c, t);
    if i == |t| {
      assert t[..i] == t;
    } else {
      CallsPrefix(c, t, i + 1);
      var u := t[..i + 1];
      assert u[..i] == t[..i];
      CallsLength(c, t[..i]);
      assert Calls(c, u) == Calls(c, t[..i]) + [CallOf(c, t[..i], t[i])];
      assert Calls(c, t)[..i] == Calls(c, t)[..i + 1][..i];
      assert Calls(c, t)[i] == Calls(c, t)[..i + 1][i];
    }
  }

  lemma {:induction false} CallsMore(c: Config, t: seq<Event>, e: Event)
    ensures Calls(c, t + [e]) == Calls(c, t) + [CallOf(c, t, e)]
    ensures Reached(c, t + [e]) == Step(c, Reached(c, t), CallOf(c, t, e))
  {
    hide Step, CallOf, SlotOf;
    var u := t + [e];
    assert u[..|u| - 1] == t && u[|u| - 1] == e;
    var ops := Calls(c, u);
    assert ops[..|ops| - 1] == Calls(c, t) && ops[|ops| - 1] == CallOf(c, t, e);
  }

  lemma {:induction false} CallsLength(c: Config, t: seq<Event>)
    ensures |Calls(c, t)| == |t|
  {
    if t != [] { CallsLength(c, t[..|t| - 1]); }
  }

  lemma {:induction false} SlotPrefix(c: Config, t: seq<Event>, n: nat, i: nat)
    requires i < n <= |t|
    ensures SlotOf(c, t[..n], i) == SlotOf(c, t, i)
  {
    assert t[..n][..i] == t[..i];
  }

  lemma {:induction false} GaveSlot(c: Config, t: seq<Event>, i: nat, s: Slot)
    requires i < |t|
    ensures Gave(c, Calls(c, t), i, s) <==> SlotOf(c, t, i) == Some(s)
  {
    CallsPrefix(c, t, i);
  }

  lemma {:induction false} EndCall(c: Config, t: seq<Event>, j: nat, s: Slot)
    requires TraceOk(c, t) && j < |t|
    ensures |Calls(c, t)| == |t|
    ensures Calls(c, t)[j] == OpSetEnd(s) <==> t[j].End? && t[j].of < j && SlotOf(c, t, t[j].of) == Some(s)
  {
    CallsPrefix(c, t, j);
    assert EventOk(c, t[..j], t[j]);
    if t[j].End? {
      assert t[j].of < j;
      SlotPrefix(c, t, j, t[j].of);
    }
  }

  /** SET number i of the trace is the last that was given slot s. */
  ghost predicate Owns(c: Config, t: seq<Event>, i: nat, s: Slot) {
    SlotOf(c, t, i) == Some(s) && forall j: nat | i < j < |t| :: SlotOf(c, t, j) != Some(s)
  }

  /** Some GET is answered with the value SET number i put at slot s, though that SET has not ended. */
  ghost predicate Early(c: Config, t: seq<Event>, i: nat, s: Slot) {
    && Owns(c, t, i, s) && !Ended(t, i)
    && exists k: Key, now: Time :: Get(c, Reached(c, t), k, now).1 == Found(s)
  }

  /** SET number n was given the slot before SET number i, and ended after it. */
  ghost predicate EndedLate(c: Config, t: seq<Event>, n: nat, i: nat, s: Slot) {
    n < i && SlotOf(c, t, n) == Some(s) && exists j: nat :: i < j < |t| && t[j] == End(n)
  }

  lemma {:induction false} OwnsUnique(c: Config, t: seq<Event>, i: nat, j: nat, s: Slot)
    requires Owns(c, t, i, s) && Owns(c, t, j, s)
    ensures i == j
  {
    assert i < |t| && j < |t|;
  }

  lemma {:induction false} OwnerOwns(c: Config, t: seq<Event>, i: nat, s: Slot)
    requires Owner(c, Calls(c, t), i, s)
    ensures i < |t| && Owns(c, t, i, s)
  {
    CallsLength(c, t);
    GaveSlot(c, t, i, s);
    forall j: nat | i < j < |t| ensures SlotOf(c, t, j) != Some(s) { GaveSlot(c, t, j, s); }
  }

  /** While its own SET has not ended, a node's mark is clear exactly when an earlier SET on its slot
      ended after it was stored. */
  lemma {:induction false} ClearIff(c: Config, t: seq<Event>, i: nat, s: Slot)
    requires c.unit > 0 && TraceOk(c, t) && Owns(c, t, i, s) && !Ended(t, i) && s in Reached(c, t).nodes
    ensures !Reached(c, t).nodes[s].inprocess <==> exists n: nat :: EndedLate(c, t, n, i, s)
  {
    hide Calls, SlotOf, After;
    var ops := Calls(c, t);
    CallsLength(c, t);
    var o := MarkExact(c, ops, s);
    OwnerOwns(c, t, o, s);
    OwnsUnique(c, t, i, o, s);
    if !Reached(c, t).nodes[s].inprocess {
      var j :| i < j < |ops| && ops[j] == OpSetEnd(s);
      EndCall(c, t, j, s);
      var n := t[j].of;
      assert t[j] == End(n) && n != i;
      assert EndedLate(c, t, n, i, s);
    }
    if n: nat :| EndedLate(c, t, n, i, s) {
      var j: nat :| i < j < |t| && t[j] == End(n);
      EndCall(c, t, j, s);
    }
  }

  /** Every trace keeps the store's invariant. */
  lemma {:induction false} TraceInv(c: Config, t: seq<Event>)
    requires ConfigOk(c) && TraceOk(c, t)
    ensures Inv(c, Reached(c, t))
  {
    hide Calls, SlotOf, ListsOk, RefsOk, SlotsOk, BlocksOk, BuddyTree.LiveOk, Buddy.Representable;
    var ops := Calls(c, t);
    CallsLength(c, t);
    forall j | 0 <= j < |ops| ensures Legal(c, ops[j]) {
      CallsPrefix(c, t, j);
      assert EventOk(c, t[..j], t[j]);
    }
    RunInv(c, ops);
  }

  /** In every trace: a listed value whose own SET has not ended is answered by some GET exactly when
      an earlier SET on its slot ended after it was stored. */
  lemma {:induction false} EarlyIff(c: Config, t: seq<Event>, i: nat, s: Slot)
    requires ConfigOk(c) && TraceOk(c, t) && Owns(c, t, i, s) && !Ended(t, i) && s in Reached(c, t).lru
    ensures Early(c, t, i, s) <==> exists n: nat :: EndedLate(c, t, n, i, s)
  {
    hide Calls, SlotOf, After, Get, Owns, EndedLate, ListsOk;
    TraceInv(c, t);
    ClearReads(c, Reached(c, t), s);
    ClearIff(c, t, i, s);
  }

  /** When the trace's last event gave slot s out, SET number n on it was still to end. */
  ghost predicate Pending(c: Config, t: seq<Event>, n: nat, s: Slot) {
    n < |t| - 1 && SlotOf(c, t, n) == Some(s) && !Ended(t, n)
  }

  /** With the continuation w of the trace, its last SET is answered before it has ended. */
  ghost predicate Leads(c: Config, t: seq<Event>, w: seq<Event>, s: Slot)
    requires t != []
  {
    TraceOk(c, t + w) && Early(c, t + w, |t| - 1, s)
  }

  lemma {:induction false} TraceMore(c: Config, t: seq<Event>, e: Event)
    requires TraceOk(c, t) && EventOk(c, t, e)
    ensures TraceOk(c, t + [e])
  {
    forall i | 0 <= i < |t| + 1 ensures EventOk(c, (t + [e])[..i], (t + [e])[i]) {
      if i < |t| {
        assert (t + [e])[..i] == t[..i];
        assert EventOk(c, t[..i], t[i]);
      } else {
        assert (t + [e])[..i] == t;
      }
    }
  }

  lemma {:induction false} NotYetEnded(c: Config, t: seq<Event>, i: nat)
    requires TraceOk(c, t) && i >= |t| - 1
    ensures !Ended(t, i)
  {
    forall j | 0 <= j < |t| ensures t[j] != End(i) { assert EventOk(c, t[..j], t[j]); }
  }

  /** Right after a SET its node is listed. */
  lemma {:induction false} JustStored(c: Config, t: seq<Event>, s: Slot)
    requires t != [] && SlotOf(c, t, |t| - 1) == Some(s)
    ensures s in Reached(c, t).lru
  {
    hide Step;
    var n := |t| - 1;
    CallsPrefix(c, t, n);
    var ops := Calls(c, t);
    assert ops[..|ops| - 1] == Calls(c, t[..n]) && ops[n] == t[n].op;
    GivenListed(c, Reached(c, t[..n]), t[n].op);
  }

  lemma {:induction false} GivenListed(c: Config, st: State, op: Op)
    requires Gives(c, st, op).Some?
    ensures Gives(c, st, op).value in Step(c, st, op).lru
  {
    hide Place;
    StoredNode(c, WithoutKey(c, st, op.key), op.key, op.valuelen, ExpiryFor(op.timeout, op.now));
  }

  /** The SET-end of SET number n, right after its slot went to another. */
  lemma {:induction false} EndNow(c: Config, t: seq<Event>, n: nat, s: Slot)
    requires ConfigOk(c) && t != [] && TraceOk(c, t) && SlotOf(c, t, |t| - 1) == Some(s) && Pending(c, t, n, s)
    ensures Leads(c, t, [End(n)], s)
  {
    hide Step, Calls, SlotOf;
    var m, u := |t| - 1, t + [End(n)];
    TraceMore(c, t, End(n));
    assert u[..|t|] == t;
    forall i: nat | i < |t| ensures SlotOf(c, u, i) == SlotOf(c, t, i) { SlotPrefix(c, u, |t|, i); }
    assert SlotOf(c, u, m + 1) == None by { EndGives(c, u, m + 1); }
    NotYetEnded(c, t, m);
    assert !Ended(u, m);
    assert u[m + 1] == End(n);
    assert EndedLate(c, u, n, m, s);
    StillStored(c, t, n, s);
    EarlyIff(c, u, m, s);
  }

  lemma {:induction false} EndGives(c: Config, t: seq<Event>, i: nat)
    requires i < |t| && t[i].End?
    ensures SlotOf(c, t, i) == None
  {
  }

  lemma {:induction false} StillStored(c: Config, t: seq<Event>, n: nat, s: Slot)
    requires t != [] && SlotOf(c, t, |t| - 1) == Some(s) && SlotOf(c, t, n) == Some(s)
    ensures s in Reached(c, t + [End(n)]).lru
  {
    hide Calls, SlotOf, After;
    JustStored(c, t, s);
    CallsMore(c, t, End(n));
  }

  /** Exactly when a value can be answered before its own SET has ended: its slot was given out
      while an earlier SET on it was still to end. */
  lemma {:induction false} ReissueIff(c: Config, t: seq<Event>, s: Slot)
    requires ConfigOk(c) && t != [] && TraceOk(c, t) && SlotOf(c, t, |t| - 1) == Some(s)
    ensures (exists w: seq<Event> :: Leads(c, t, w, s)) <==> exists n: nat :: Pending(c, t, n, s)
  {
    hide Calls, SlotOf, After;
    if n: nat :| Pending(c, t, n, s) {
      EndNow(c, t, n, s);
    }
    if w: seq<Event> :| Leads(c, t, w, s) {
      var m, u := |t| - 1, t + w;
      assert u[..|t|] == t;
      AnsweredNode(c, u, m, s);
      ClearIff(c, u, m, s);
      var n: nat :| EndedLate(c, u, n, m, s);
      var j: nat :| m < j < |u| && u[j] == End(n);
      assert EventOk(c, u[..j], u[j]);
      assert forall e | e in t :: e in u[..j] by { assert u[..j][..|t|] == t; }
      SlotPrefix(c, u, |t|, n);
      assert Pending(c, t, n, s);
    }
  }

  lemma {:induction false} AnsweredNode(c: Config, t: seq<Event>, i: nat, s: Slot)
    requires ConfigOk(c) && TraceOk(c, t) && Early(c, t, i, s)
    ensures s in Reached(c, t).nodes && !Reached(c, t).nodes[s].inprocess
  {
    hide Calls, SlotOf, After, Get, Owns, ListsOk;
    TraceInv(c, t);
    var k: Key, now: Time :| Get(c, Reached(c, t), k, now).1 == Found(s);
    FoundIff(c, Reached(c, t), k, now, s);
  }

  /** Callers that let every SET on a slot end before the slot is given out again. */
  ghost predicate Careful(c: Config, t: seq<Event>) {
    forall i | 0 <= i < |t| ::
      forall n: nat, s: Slot | n < i && SlotOf(c, t, n) == Some(s) == SlotOf(c, t, i) :: Ended(t[..i], n)
  }

  /** Then a GET answers only with a value whose own SET has ended. */
  lemma {:induction false} FoundEnded(c: Config, t: seq<Event>, k: Key, now: Time, s: Slot) returns (i: nat)
    requires ConfigOk(c) && TraceOk(c, t) && Careful(c, t)
    requires Get(c, Reached(c, t), k, now).1 == Found(s)
    ensures Owns(c, t, i, s) && Ended(t, i)
  {
    hide Calls, SlotOf, After, ListsOk, Get;
    TraceInv(c, t);
    FoundIff(c, Reached(c, t), k, now, s);
    i := MarkExact(c, Calls(c, t), s);
    OwnerOwns(c, t, i, s);
    if !Ended(t, i) {
      ClearIff(c, t, i, s);
      var n: nat :| EndedLate(c, t, n, i, s);
      StillPending(c, t, n, i, s);
    }
  }

  lemma {:induction false} StillPending(c: Config, t: seq<Event>, n: nat, i: nat, s: Slot)
    requires TraceOk(c, t) && i < |t| && EndedLate(c, t, n, i, s)
    ensures !Ended(t[..i], n)
  {
    var j: nat :| i < j < |t| && t[j] == End(n);
    assert EventOk(c, t[..j], t[j]);
    assert forall b | 0 <= b < i :: t[..i][b] == t[..j][b];
  }

  // ---------------------------------------------------------------- a run that is answered early

  /** From a store without keys, a SET that fits gets slot 0 and is the only key. */
  lemma {:induction false} FirstSet(c: Config, st: State, k: Key, valuelen: nat, now: Time)
    requires Inv(c, st) && st.lru == [] && st.used == {} && st.cursor == 0 && st.pins == multiset{}
    requires 0 < valuelen && Buddy.Representable(valuelen, c.unit) && Buddy.UnitsFor(valuelen, c.unit) <= c.nmemb
    ensures var (st', r) := Set(c, st, k, valuelen, MAX_TIMEOUT, now);
            && r == Some(0) && Inv(c, st') && st'.lru == [0] && st'.cursor == 0 && st'.pins == multiset{}
            && 0 in st'.nodes && st'.nodes[0].key == k && st'.nodes[0].expire == NEVER
  {
    hide ListsOk, RefsOk, BlocksOk, SlotsOk, BuddyTree.LiveOk, Buddy.UnitsFor, Buddy.Representable, Place;
    FindNone(c, st, k);
    SetSucceeds(c, st, k, valuelen, MAX_TIMEOUT, now);
    SetInv(c, st, k, valuelen, MAX_TIMEOUT, now);
    FirstPlace(c, st, k, valuelen, NEVER);
  }

  lemma {:induction false} FindNone(c: Config, st: State, k: Key)
    requires Inv(c, st) && st.lru == []
    ensures Find(c, st, k) == None
  {
    FindListed(c, st, k);
  }

  lemma {:induction false} FirstPlace(c: Config, st: State, k: Key, valuelen: nat, expire: Time)
    requires c.objects > 0 && st.lru == [] && st.used == {} && st.cursor == 0
    requires Place(c, st, k, valuelen, expire).1.Some?
    ensures var (st', r) := Place(c, st, k, valuelen, expire);
            && r == Some(0) && st'.lru == [0] && st'.cursor == 0 && st'.pins == st.pins
            && 0 in st'.nodes && st'.nodes[0].key == k && st'.nodes[0].expire == expire
  {
    hide Buddy.UnitsFor, BlockAfter, DropSet;
    EvictionsBound(c, st, Buddy.UnitsFor(valuelen, c.unit), 0);
    EvictZero(st);
  }

  /** Deleting the only key leaves an empty store with the same cursor. */
  lemma {:induction false} OnlyDeleted(c: Config, st: State, k: Key)
    requires Inv(c, st) && st.lru == [0] && 0 in st.nodes && st.nodes[0].key == k && st.pins == multiset{}
    ensures var st' := Delete(c, st, k);
            Inv(c, st') && st'.lru == [] && st'.used == {} && st'.cursor == st.cursor && st'.pins == multiset{}
  {
    hide RefsOk, BlocksOk, BuddyTree.LiveOk;
    var st' := Delete(c, st, k);
    FindListed(c, st, k);
    assert 0 in st.lru;
    DeleteInv(c, st, k);
    NodesReferred(c, st');
  }

  lemma {:induction false} OneMore(c: Config, t: seq<Event>, op: Op)
    ensures Reached(c, t + [Do(op)]) == Step(c, Reached(c, t), op)
    ensures SlotOf(c, t + [Do(op)], |t|) == Gives(c, Reached(c, t), op)
  {
    hide Step, Gives;
    CallsMore(c, t, Do(op));
    assert (t + [Do(op)])[..|t|] == t;
  }

  /** SET a, DELETE a, SET b, and then the SET-end of a: b is answered before its own SET-end. In
      every configuration, b gets the slot a had. */
  lemma {:induction false} EarlyAnswer(c: Config, a: Key, b: Key, valuelen: nat, now: Time)
    requires ConfigOk(c)
    requires 0 < valuelen && Buddy.Representable(valuelen, c.unit) && Buddy.UnitsFor(valuelen, c.unit) <= c.nmemb
    ensures var t := [Do(OpSet(a, valuelen, MAX_TIMEOUT, now)), Do(OpDelete(a)),
                      Do(OpSet(b, valuelen, MAX_TIMEOUT, now)), End(0)];
            && TraceOk(c, t) && SlotOf(c, t, 2) == Some(0) && !Ended(t, 2)
            && Get(c, Reached(c, t), b, now).1 == Found(0)
  {
    hide ListsOk, RefsOk, BlocksOk, BuddyTree.LiveOk, Buddy.UnitsFor, Buddy.Representable;
    hide Set, Delete, Calls, SlotOf, After;
    var set1, del, set2 := OpSet(a, valuelen, MAX_TIMEOUT, now), OpDelete(a), OpSet(b, valuelen, MAX_TIMEOUT, now);
    var t1: seq<Event> := [Do(set1)];
    var t2, t3 := t1 + [Do(del)], t1 + [Do(del)] + [Do(set2)];
    ReachedNone(c);
    EmptyInv(c);
    OneMore(c, [], set1);
    assert [] + [Do(set1)] == t1;
    FirstSet(c, Empty(c), a, valuelen, now);
    OneMore(c, t1, del);
    OnlyDeleted(c, Reached(c, t1), a);
    OneMore(c, t2, set2);
    FirstSet(c, Reached(c, t2), b, valuelen, now);
    TraceNone(c);
    TraceMore(c, [], Do(set1));
    TraceMore(c, t1, Do(del));
    TraceMore(c, t2, Do(set2));
    assert t3[..1] == t1;
    SlotPrefix(c, t3, 1, 0);
    assert Pending(c, t3, 0, 0);
    EndNow(c, t3, 0, 0);
    var t := t3 + [End(0)];
    assert t == [Do(set1), Do(del), Do(set2), End(0)];
    EndReached(c, t3, 0, 0);
    ListsAfterEnd(c, Reached(c, t3), 0);
    FoundIff(c, Reached(c, t), b, now, 0);
  }

  lemma {:induction false} ReachedNone(c: Config)
    ensures Reached(c, []) == Empty(c)
  {
  }

  lemma {:induction false} TraceNone(c: Config)
    ensures TraceOk(c, [])
  {
  }

  lemma {:induction false} EndReached(c: Config, t: seq<Event>, n: nat, s: Slot)
    requires SlotOf(c, t, n) == Some(s)
    ensures Reached(c, t + [End(n)]) == SetEnd(Reached(c, t), s)
  {
    hide SetEnd, Calls, SlotOf, After;
    CallsMore(c, t, End(n));
  }

  lemma {:induction false} ListsAfterEnd(c: Config, st: State, s: Slot)
    requires Inv(c, st)
    ensures Inv(c, SetEnd(st, s))
  {
    hide ListsOk, RefsOk, SlotsOk, BlocksOk, BuddyTree.LiveOk;
    if s in st.nodes { RewriteInv(c, st, s, st.nodes[s].expire, false); }
  }
}
