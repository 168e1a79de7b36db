/**
 cluster/client/client.c: one cluster client on its event loop. Requests go to the node that
 owns the key's slot. When newer metadata appears, new and failing requests are queued, the
 client waits until no request is in flight, swaps the table and submits the queue again.
 */
module Cluster {
  import opened Wrappers
  import opened ClusterMap

  type Id = nat

  /** inflight: where each request handed to a node's client went. The last three fields are
      history: submissions, user callbacks, and requests handed to nodes in order. */
  datatype State = State(
    crc: string -> nat,
    table: Table,
    refs: seq<int>,            // refCount of each node
    updating: bool,
    version: int,
    keys: map<Id, string>,     // live requests
    inflight: map<Id, nat>,
    retry: seq<Id>,            // retry_req_list
    asked: multiset<Id>,
    called: multiset<Id>,
    sent: seq<(Id, nat)>)

  // ---------------------------------------------------------------- the calls

  /** priskvClusterGetNode */
  function Owner(st: State, key: string): Option<nat> { st.table[Slot(st.crc, key)] }

  /** The submit of a request whose node is known, outside an update. */
  function Start(st: State, id: Id, n: nat): State
    requires n < |st.refs|
  {
    st.(refs := st.refs[n := st.refs[n] + 1], inflight := st.inflight[id := n], sent := st.sent + [(id, n)])
  }

  /** priskvClusterGetRequest, then priskvClusterSubmitRequest */
  function Submit(st: State, id: Id, key: string): (r: State)
    requires Shape(st)
    ensures Shape(r)
  {
    if id in st.keys then st
    else if Owner(st, key).None? then
      st.(asked := st.asked + multiset{id}, called := st.called + multiset{id})
    else
      var st1 := st.(asked := st.asked + multiset{id}, keys := st.keys[id := key]);
      if st.updating then st1.(retry := st.retry + [id]) else Start(st1, id, Owner(st, key).value)
  }

  function SubmitAll(st: State, news: seq<(Id, string)>): (r: State)
    requires Shape(st)
    ensures Shape(r)
  {
    if news == [] then st
    else Submit(SubmitAll(st, news[..|news| - 1]), news[|news| - 1].0, news[|news| - 1].1)
  }

  function Drop(st: State, id: Id): State
    requires id in st.inflight && st.inflight[id] < |st.refs|
  {
    var n := st.inflight[id];
    st.(refs := st.refs[n := st.refs[n] - 1], inflight := st.inflight - {id})
  }

  /** The request is reported to the user and freed. */
  function Finish(st: State, id: Id): State
    requires id in st.inflight && st.inflight[id] < |st.refs|
  {
    var st1 := Drop(st, id);
    st1.(keys := st1.keys - {id}, called := st1.called + multiset{id})
  }

  /** priskvClusterRequestCallback: the user's callback may submit more requests. */
  function Callback(st: State, id: Id, ok: bool, news: seq<(Id, string)>): State
    requires Inv(st)
  {
    if id !in st.inflight then st
    else if st.updating && !ok then Drop(st, id).(retry := st.retry + [id])
    else
      SubmitAllInv(st, news);
      Finish(SubmitAll(st, news), id)
  }

  /** The retry loop: every queued request goes to its key's owner; None when one has no owner. */
  function Resubmit(st: State, ids: seq<Id>): (r: Option<State>)
    requires Shape(st)
    ensures r.Some? ==> Shape(r.value) && r.value.table == st.table && r.value.crc == st.crc
                        && r.value.keys == st.keys && |r.value.refs| == |st.refs|
  {
    if ids == [] then Some(st)
    else ResubmitOne(Resubmit(st, ids[..|ids| - 1]), ids[|ids| - 1])
  }

  function ResubmitOne(st: Option<State>, id: Id): Option<State>
    requires st.Some? ==> Shape(st.value)
  {
    if st.None? || id !in st.value.keys || Owner(st.value, st.value.keys[id]).None? then None
    else Some(Start(st.value, id, Owner(st.value, st.value.keys[id]).value))
  }

  function Zeros(n: nat): seq<int> { seq(n, _ => 0) }

  /** priskvClusterMetaDataUnload and priskvClusterMetaDataLoad */
  function Swap(st: State, meta: Meta, table: Table): State {
    st.(table := table, refs := Zeros(|meta.nodes|), version := meta.version, updating := false, retry := [])
  }

  predicate Idle(st: State) { forall n | 0 <= n < |st.refs| :: st.refs[n] <= 0 }

  /** priskvClusterTimerHandler; None when an assert of the load fails or a queued request has
      no owner, which ends the process. */
  function Timer(st: State, meta: Option<Meta>): Option<State> {
    if meta.None? || meta.value.version <= st.version then Some(st)
    else if !Idle(st) then Some(st.(updating := true))
    else
      FillShape(meta.value);
      Reload(st, meta.value, Load(meta.value))
  }

  function Reload(st: State, meta: Meta, table: Option<Table>): Option<State>
    requires table.Some? ==> Shape(Swap(st, meta, table.value))
  {
    if table.None? then None else Resubmit(Swap(st, meta, table.value), st.retry)
  }

  // ---------------------------------------------------------------- invariant

  /** Every owner is a node. */
  ghost predicate Shape(st: State) {
    forall s | 0 <= s < SLOTS && st.table[s].Some? :: st.table[s].value < |st.refs|
  }

  function At(inflight: map<Id, nat>, n: nat): set<Id> { set id | id in inflight && inflight[id] == n }

  function Count(inflight: map<Id, nat>, n: nat): nat { |At(inflight, n)| }

  /** refCount of a node is the number of its requests in flight. */
  ghost predicate RefsOk(st: State) {
    forall n | 0 <= n < |st.refs| :: st.refs[n] == Count(st.inflight, n)
  }

  /** Every request in flight is at the node that owns its key's slot. */
  ghost predicate PlacesOk(st: State) {
    forall id | id in st.inflight :: id in st.keys && Owner(st, st.keys[id]) == Some(st.inflight[id])
  }

  ghost predicate NoDup(s: seq<Id>) { forall i, j | 0 <= i < j < |s| :: s[i] != s[j] }

  /** The live requests not in flight are queued, once each, and only during an update. */
  ghost predicate QueueOk(st: State) {
    && NoDup(st.retry)
    && (forall id | id in st.retry :: id in st.keys)
    && (forall id | id in st.keys :: (id in st.inflight) != (id in st.retry))
    && (!st.updating ==> st.retry == [])
  }

  /** Every submission has been called back once, or is live. */
  ghost predicate CalledOk(st: State) {
    forall id :: st.asked[id] == st.called[id] + (if id in st.keys then 1 else 0)
  }

  ghost predicate Inv(st: State) {
    Shape(st) && RefsOk(st) && PlacesOk(st) && QueueOk(st) && CalledOk(st)
  }

  // ---------------------------------------------------------------- counting

  lemma {:induction false} CountAdd(m: map<Id, nat>, id: Id, n: nat, k: nat)
    requires id !in m
    ensures Count(m[id := n], k) == Count(m, k) + if k == n then 1 else 0
  {
    assert At(m[id := n], k) == At(m, k) + if k == n then {id} else {};
  }

  lemma {:induction false} CountDrop(m: map<Id, nat>, id: Id, k: nat)
    requires id in m
    ensures Count(m - {id}, k) == Count(m, k) - if k == m[id] then 1 else 0
  {
    assert At(m, k) == At(m - {id}, k) + if k == m[id] then {id} else {};
  }

  lemma {:induction false} CountZero(m: map<Id, nat>, id: Id)
    requires id in m
    ensures Count(m, m[id]) > 0
  {
    assert id in At(m, m[id]);
  }

  // ---------------------------------------------------------------- steps keep it

  lemma {:induction false} FillShape(meta: Meta)
    ensures Load(meta).Some? ==>
              forall s | 0 <= s < SLOTS && Load(meta).value[s].Some? ::
                Load(meta).value[s].value < |meta.nodes|
  {
    var es := Entries(meta.nodes);
    FillExact(es);
    if Load(meta).Some? {
      var t := Load(meta).value;
      forall s | 0 <= s < SLOTS && t[s].Some? ensures t[s].value < |meta.nodes| {
        assert Given(es, s, t[s].value);
        var k :| 0 <= k < |es| && es[k].node == t[s].value && Covers(es[k], s);
        assert es[k] in es;
      }
    }
  }

  lemma {:induction false} StartRefs(st: State, id: Id, n: nat)
    requires n < |st.refs| && id !in st.inflight && RefsOk(st)
    ensures RefsOk(Start(st, id, n))
  {
    forall k | 0 <= k < |st.refs| ensures Start(st, id, n).refs[k] == Count(Start(st, id, n).inflight, k) {
      CountAdd(st.inflight, id, n, k);
    }
  }

  lemma {:induction false} DropRefs(st: State, id: Id)
    requires id in st.inflight && st.inflight[id] < |st.refs| && RefsOk(st)
    ensures RefsOk(Drop(st, id))
  {
    forall k | 0 <= k < |st.refs| ensures Drop(st, id).refs[k] == Count(Drop(st, id).inflight, k) {
      CountDrop(st.inflight, id, k);
    }
  }

  lemma {:induction false} SubmitInv(st: State, id: Id, key: string)
    requires Inv(st)
    ensures Inv(Submit(st, id, key))
    ensures forall k | k in st.inflight :: k in Submit(st, id, key).inflight
  {
    hide PlacesOk, QueueOk, CalledOk;
    SubmitQueue(st, id, key);
    SubmitPlaces(st, id, key);
    SubmitCalls(st, id, key);
    if id !in st.keys && Owner(st, key).Some? && !st.updating {
      NotInFlight(st, id);
      StartRefs(st.(asked := st.asked + multiset{id}, keys := st.keys[id := key]), id, Owner(st, key).value);
    }
  }

  lemma {:induction false} NotInFlight(st: State, id: Id)
    requires PlacesOk(st) && QueueOk(st) && id !in st.keys
    ensures id !in st.inflight && id !in st.retry
  {
  }

  lemma {:induction false} SubmitQueue(st: State, id: Id, key: string)
    requires Shape(st) && PlacesOk(st) && QueueOk(st)
    ensures QueueOk(Submit(st, id, key))
  {
    if id !in st.keys {
      NotInFlight(st, id);
      assert forall k :: k in st.retry + [id] <==> k in st.retry || k == id;
    }
  }

  lemma {:induction false} SubmitPlaces(st: State, id: Id, key: string)
    requires Shape(st) && PlacesOk(st)
    ensures PlacesOk(Submit(st, id, key))
  {
  }

  lemma {:induction false} SubmitCalls(st: State, id: Id, key: string)
    requires Shape(st) && CalledOk(st)
    ensures CalledOk(Submit(st, id, key))
  {
  }

  lemma {:induction false} SubmitAllInv(st: State, news: seq<(Id, string)>)
    requires Inv(st)
    ensures Inv(SubmitAll(st, news))
    ensures forall k | k in st.inflight :: k in SubmitAll(st, news).inflight
  {
    hide Shape, RefsOk, PlacesOk, QueueOk, CalledOk, Submit;
    if news != [] {
      SubmitAllInv(st, news[..|news| - 1]);
      SubmitInv(SubmitAll(st, news[..|news| - 1]), news[|news| - 1].0, news[|news| - 1].1);
    }
  }

  lemma {:induction false} FinishInv(st: State, id: Id)
    requires Inv(st) && id in st.inflight
    ensures st.inflight[id] < |st.refs| && Inv(Finish(st, id))
  {
    assert Owner(st, st.keys[id]) == Some(st.inflight[id]);
    DropRefs(st, id);
    FinishQueue(st, id);
    hide QueueOk, PlacesOk;
  }

  lemma {:induction false} FinishQueue(st: State, id: Id)
    requires PlacesOk(st) && QueueOk(st) && id in st.inflight && st.inflight[id] < |st.refs|
    ensures QueueOk(Finish(st, id)) && PlacesOk(Finish(st, id))
  {
    assert id in st.keys;
  }

  lemma {:induction false} RequeueInv(st: State, id: Id)
    requires Inv(st) && id in st.inflight && st.updating
    ensures st.inflight[id] < |st.refs| && Inv(Drop(st, id).(retry := st.retry + [id]))
  {
    assert Owner(st, st.keys[id]) == Some(st.inflight[id]);
    DropRefs(st, id);
    RequeueQueue(st, id);
    hide QueueOk, PlacesOk;
  }

  lemma {:induction false} RequeueQueue(st: State, id: Id)
    requires PlacesOk(st) && QueueOk(st) && id in st.inflight && st.inflight[id] < |st.refs| && st.updating
    ensures QueueOk(Drop(st, id).(retry := st.retry + [id])) && PlacesOk(Drop(st, id).(retry := st.retry + [id]))
  {
    assert id in st.keys && id !in st.retry;
    assert forall k :: k in st.retry + [id] <==> k in st.retry || k == id;
  }

  lemma {:induction false} CallbackInv(st: State, id: Id, ok: bool, news: seq<(Id, string)>)
    requires Inv(st)
    ensures Inv(Callback(st, id, ok, news))
  {
    hide Shape, RefsOk, PlacesOk, QueueOk, CalledOk, SubmitAll, Finish, Drop;
    if id in st.inflight {
      if st.updating && !ok { RequeueInv(st, id); }
      else {
        SubmitAllInv(st, news);
        FinishInv(SubmitAll(st, news), id);
      }
    }
  }

  // ---------------------------------------------------------------- the swap

  lemma {:induction false} IdleEmpty(st: State)
    requires Inv(st) && Idle(st)
    ensures st.inflight == map[]
  {
    forall id | id in st.inflight ensures false {
      assert Owner(st, st.keys[id]) == Some(st.inflight[id]);
      CountZero(st.inflight, id);
    }
  }

  /** Every request of the list is live and its key has an owner. */
  ghost predicate Served(st: State, ids: seq<Id>) {
    forall i | 0 <= i < |ids| :: ids[i] in st.keys && Owner(st, st.keys[ids[i]]).Some?
  }

  /** The owners of the requests, in the order of the list. */
  ghost function Targets(st: State, ids: seq<Id>): (r: seq<(Id, nat)>)
    requires Served(st, ids)
    ensures |r| == |ids|
    ensures forall i | 0 <= i < |r| :: r[i].0 == ids[i] && Owner(st, st.keys[ids[i]]) == Some(r[i].1)
  {
    seq(|ids|, i requires 0 <= i < |ids| => (ids[i], Owner(st, st.keys[ids[i]]).value))
  }

  lemma {:induction false} ServedLast(st: State, ids: seq<Id>)
    requires ids != []
    ensures Served(st, ids) <==>
            Served(st, ids[..|ids| - 1]) && ids[|ids| - 1] in st.keys && Owner(st, st.keys[ids[|ids| - 1]]).Some?
  {
    var p := ids[..|ids| - 1];
    assert forall i | 0 <= i < |p| :: p[i] == ids[i];
    if Served(st, p) && ids[|ids| - 1] in st.keys && Owner(st, st.keys[ids[|ids| - 1]]).Some? {
      forall i | 0 <= i < |ids| ensures ids[i] in st.keys && Owner(st, st.keys[ids[i]]).Some? {
        if i < |p| { assert p[i] in st.keys; }
      }
    }
  }

  lemma {:induction false} ResubmitIff(st: State, ids: seq<Id>)
    requires Shape(st)
    ensures Resubmit(st, ids).Some? <==> Served(st, ids)
  {
    if ids != [] {
      ResubmitIff(st, ids[..|ids| - 1]);
      ServedLast(st, ids);
      hide Served, Start, Shape;
    }
  }

  /** r is st after every listed request was handed, once and in order, to its key's owner. */
  ghost predicate Resent(st: State, ids: seq<Id>, r: State)
    requires Served(st, ids)
  {
    && r == st.(refs := r.refs, inflight := r.inflight, sent := st.sent + Targets(st, ids))
    && |r.refs| == |st.refs|
    && r.inflight.Keys == st.inflight.Keys + (set id | id in ids)
  }

  lemma {:induction false} ResentStep(st: State, ids: seq<Id>, id: Id, r: State)
    requires Shape(st) && Served(st, ids) && Served(st, ids + [id]) && Resent(st, ids, r)
    requires id in st.keys && Owner(st, st.keys[id]).Some? && Owner(st, st.keys[id]).value < |st.refs|
    ensures Resent(st, ids + [id], Start(r, id, Owner(st, st.keys[id]).value))
  {
    hide Served, Shape, Owner, Targets;
    var n := Owner(st, st.keys[id]).value;
    TargetsLast(st, ids, id);
    assert st.sent + Targets(st, ids) + [(id, n)] == st.sent + (Targets(st, ids) + [(id, n)]);
    assert (set k | k in ids + [id]) == (set k | k in ids) + {id};
  }

  lemma {:induction false} TargetsLast(st: State, ids: seq<Id>, id: Id)
    requires Served(st, ids) && Served(st, ids + [id])
    ensures id in st.keys && Owner(st, st.keys[id]).Some?
    ensures Targets(st, ids + [id]) == Targets(st, ids) + [(id, Owner(st, st.keys[id]).value)]
  {
    assert (ids + [id])[|ids|] == id;
    var t := Targets(st, ids + [id]);
    assert forall i | 0 <= i < |ids| :: (ids + [id])[i] == ids[i];
    assert t[|ids|].0 == id;
    forall i | 0 <= i < |ids| ensures t[i] == Targets(st, ids)[i] {
      assert t[i].0 == ids[i];
      assert Owner(st, st.keys[ids[i]]) == Some(t[i].1);
    }
  }

  lemma {:induction false} StartPlaces(st: State, id: Id)
    requires Shape(st) && PlacesOk(st) && id in st.keys && Owner(st, st.keys[id]).Some?
    ensures Owner(st, st.keys[id]).value < |st.refs|
    ensures PlacesOk(Start(st, id, Owner(st, st.keys[id]).value))
  {
  }

  lemma {:induction false} ResubmitEffect(st: State, ids: seq<Id>)
    requires Shape(st) && RefsOk(st) && PlacesOk(st) && NoDup(ids) && Served(st, ids)
    requires forall id | id in ids :: id !in st.inflight
    ensures Resubmit(st, ids).Some? && Resent(st, ids, Resubmit(st, ids).value)
    ensures RefsOk(Resubmit(st, ids).value) && PlacesOk(Resubmit(st, ids).value)
  {
    hide Served, Shape, RefsOk, PlacesOk, Start, Owner;
    ResubmitIff(st, ids);
    if ids == [] {
      assert Targets(st, ids) == [];
      assert st.sent + [] == st.sent;
    } else {
      var p, id := ids[..|ids| - 1], ids[|ids| - 1];
      assert ids == p + [id] && id !in p && id in ids;
      ServedLast(st, ids);
      assert forall k | k in p :: k in ids;
      ResubmitEffect(st, p);
      var r := Resubmit(st, p).value;
      assert Owner(r, r.keys[id]) == Owner(st, st.keys[id]) by { SameOwner(st, r, id); }
      StartPlaces(r, id);
      StartRefs(r, id, Owner(r, r.keys[id]).value);
      ResentStep(st, p, id, r);
    }
  }

  lemma {:induction false} SameOwner(st: State, r: State, id: Id)
    requires r.table == st.table && r.crc == st.crc && r.keys == st.keys && id in st.keys
    ensures Owner(r, r.keys[id]) == Owner(st, st.keys[id])
  {
  }

  /** Every node can be connected, the metadata gives every slot at most one owner and the keys of
      all queued requests one. */
  ghost predicate Serves(st: State, meta: Meta) {
    && Connected(meta)
    && Loadable(Entries(meta.nodes))
    && forall i | 0 <= i < |st.retry| && st.retry[i] in st.keys ::
         Owned(Entries(meta.nodes), Slot(st.crc, st.keys[st.retry[i]]))
  }

  ghost predicate Owned(es: seq<Entry>, s: nat) {
    exists n: nat :: Given(es, s, n)
  }

  lemma {:induction false} ServesIff(st: State, meta: Meta, t: Table)
    requires QueueOk(st) && Connected(meta) && Loadable(Entries(meta.nodes)) && TableOf(t, Entries(meta.nodes))
    ensures Serves(st, meta) <==> Served(Swap(st, meta, t), st.retry)
  {
    var st1, es := Swap(st, meta, t), Entries(meta.nodes);
    forall i | 0 <= i < |st.retry|
      ensures st.retry[i] in st.keys
      ensures Owner(st1, st1.keys[st.retry[i]]).Some? <==> Owned(es, Slot(st.crc, st.keys[st.retry[i]]))
    {
      assert st.retry[i] in st.retry;
      OwnedIff(t, es, Slot(st.crc, st.keys[st.retry[i]]));
    }
  }

  lemma {:induction false} OwnedIff(t: Table, es: seq<Entry>, s: nat)
    requires TableOf(t, es) && s < SLOTS
    ensures t[s].Some? <==> Owned(es, s)
  {
    if t[s].Some? { assert Given(es, s, t[s].value); }
    if Owned(es, s) {
      var n: nat :| Given(es, s, n);
      assert t[s] == Some(n);
    }
  }

  /** The timer ends the process exactly when nothing is in flight and the newer metadata has a node
      that cannot be connected, an overlap, a range out of bounds, or no owner for a queued key. */
  lemma {:induction false} TimerOk(st: State, meta: Meta)
    requires Inv(st)
    ensures Timer(st, Some(meta)).Some? <==> meta.version <= st.version || !Idle(st) || Serves(st, meta)
  {
    if meta.version > st.version && Idle(st) {
      var es := Entries(meta.nodes);
      FillExact(es);
      FillShape(meta);
      if Connected(meta) && Loadable(es) {
        ServesIff(st, meta, Fill(es).value);
        ResubmitIff(Swap(st, meta, Fill(es).value), st.retry);
      }
    }
  }

  /** A failing tick: one request is queued, and the newer metadata gives no slot to any node. */
  lemma {:induction false} NoOwner(st: State, id: Id, version: int)
    requires Inv(st) && Idle(st) && st.retry == [id] && version > st.version
    ensures Timer(st, Some(Meta(version, [], (_: nat) => true))) == None
  {
    var meta := Meta(version, [], (_: nat) => true);
    assert id in st.retry;
    TimerOk(st, meta);
    assert !Owned(Entries([]), Slot(st.crc, st.keys[st.retry[0]]));
  }

  /** The swap: taken only when nothing is in flight; the table becomes the one the metadata
      describes, and every queued request is handed once, in order, to its key's new owner. */
  lemma {:induction false} TimerSwaps(st: State, meta: Meta)
    requires Inv(st) && meta.version > st.version && Idle(st) && Serves(st, meta)
    ensures st.inflight == map[]
    ensures Timer(st, Some(meta)).Some?
    ensures var r := Timer(st, Some(meta)).value;
            && Inv(r)
            && TableOf(r.table, Entries(meta.nodes)) && r.version == meta.version && !r.updating && r.retry == []
            && r.keys == st.keys && r.inflight.Keys == (set id | id in st.retry) && Served(r, st.retry)
            && r.sent == st.sent + Targets(r, st.retry)
  {
    var es := Entries(meta.nodes);
    FillExact(es);
    FillShape(meta);
    IdleEmpty(st);
    var t := Fill(es).value;
    var st1 := Swap(st, meta, t);
    ServesIff(st, meta, t);
    SwapParts(st, meta, t);
    ResubmitEffect(st1, st.retry);
    SwapInv(st, st1, Resubmit(st1, st.retry).value);
  }

  lemma {:induction false} SwapParts(st: State, meta: Meta, t: Table)
    requires QueueOk(st) && st.inflight == map[]
    ensures var st1 := Swap(st, meta, t); RefsOk(st1) && PlacesOk(st1) && NoDup(st.retry)
    ensures forall id | id in st.keys :: id in st.retry
  {
    assert forall n: nat :: At(map[], n) == {};
  }

  lemma {:induction false} SwapInv(st: State, st1: State, r: State)
    requires QueueOk(st) && CalledOk(st) && st.inflight == map[] && Served(st1, st.retry) && Resent(st1, st.retry, r)
    requires st1.keys == st.keys && st1.inflight == st.inflight && st1.retry == []
    requires st1.asked == st.asked && st1.called == st.called
    ensures QueueOk(r) && CalledOk(r) && r.inflight.Keys == set id | id in st.retry
    ensures Served(r, st.retry) && Targets(r, st.retry) == Targets(st1, st.retry)
  {
    forall id | id in st.keys ensures id in st.retry && id in r.inflight {}
    SameTargets(st1, r, st.retry);
  }

  lemma {:induction false} SameTargets(st: State, r: State, ids: seq<Id>)
    requires Served(st, ids) && r.table == st.table && r.crc == st.crc && r.keys == st.keys
    ensures Served(r, ids) && Targets(r, ids) == Targets(st, ids)
  {
    forall i | 0 <= i < |ids| ensures ids[i] in r.keys && Owner(r, r.keys[ids[i]]) == Owner(st, st.keys[ids[i]]) {}
  }

  // ---------------------------------------------------------------- runs

  datatype Step =
    | DoSubmit(id: Id, key: string)
    | DoCallback(id: Id, ok: bool, news: seq<(Id, string)>)
    | Tick(meta: Option<Meta>)

  function Next(st: State, s: Step): Option<State>
    requires Inv(st)
  {
    match s
    case DoSubmit(id, key) => Some(Submit(st, id, key))
    case DoCallback(id, ok, news) => Some(Callback(st, id, ok, news))
    case Tick(meta) => Timer(st, meta)
  }

  /** The client after priskvClusterConnect loaded its first metadata. */
  function Loaded(crc: string -> nat, meta: Meta, table: Table): State {
    State(crc, table, Zeros(|meta.nodes|), false, meta.version, map[], map[], [], multiset{}, multiset{}, [])
  }

  function Init(crc: string -> nat, meta: Meta): Option<State> {
    if Load(meta).None? then None else Some(Loaded(crc, meta, Load(meta).value))
  }

  /** None once the process has ended. */
  function Run(crc: string -> nat, meta: Meta, steps: seq<Step>): (r: Option<State>)
    ensures r.Some? ==> Inv(r.value)
  {
    if steps == [] then
      InitInv(crc, meta);
      Init(crc, meta)
    else RunNext(Run(crc, meta, steps[..|steps| - 1]), steps[|steps| - 1])
  }

  function RunNext(st: Option<State>, s: Step): (r: Option<State>)
    requires st.Some? ==> Inv(st.value)
    ensures r.Some? ==> Inv(r.value)
  {
    if st.None? then None
    else
      NextInv(st.value, s);
      Next(st.value, s)
  }

  lemma {:induction false} InitInv(crc: string -> nat, meta: Meta)
    ensures Init(crc, meta).Some? ==> Inv(Init(crc, meta).value)
  {
    FillShape(meta);
    assert forall n: nat :: At(map[], n) == {};
  }

  lemma {:induction false} NextInv(st: State, s: Step)
    requires Inv(st)
    ensures Next(st, s).Some? ==> Inv(Next(st, s).value)
  {
    hide Shape, RefsOk, PlacesOk, QueueOk, CalledOk, Submit, Callback;
    match s
    case DoSubmit(id, key) => SubmitInv(st, id, key);
    case DoCallback(id, ok, news) => CallbackInv(st, id, ok, news);
    case Tick(meta) => TimerInv(st, meta);
  }

  lemma {:induction false} TimerInv(st: State, meta: Option<Meta>)
    requires Inv(st)
    ensures Timer(st, meta).Some? ==> Inv(Timer(st, meta).value)
  {
    if meta.None? || meta.value.version <= st.version {
    } else if !Idle(st) {
      hide Timer;
      UpdatingInv(st);
      assert Timer(st, meta) == Some(st.(updating := true)) by { TimerWaits(st, meta.value); }
    } else {
      hide Timer;
      TimerOk(st, meta.value);
      if Timer(st, meta).Some? { TimerSwaps(st, meta.value); }
    }
  }

  lemma {:induction false} TimerWaits(st: State, meta: Meta)
    requires meta.version > st.version && !Idle(st)
    ensures Timer(st, Some(meta)) == Some(st.(updating := true))
  {
  }

  lemma {:induction false} UpdatingInv(st: State)
    requires Inv(st)
    ensures Inv(st.(updating := true))
  {
  }

  /** No request starts while the metadata is being updated. */
  lemma {:induction false} NoStartWhileUpdating(st: State, s: Step)
    requires Inv(st) && Next(st, s).Some? && Next(st, s).value.updating
    ensures Next(st, s).value.sent == st.sent
    ensures forall id | id in Next(st, s).value.inflight :: id in st.inflight
  {
    hide RefsOk, PlacesOk, QueueOk, CalledOk;
    match s
    case DoSubmit(id, key) =>
    case DoCallback(id, ok, news) => SubmitAllInv(st, news); SubmitAllQuiet(st, news);
    case Tick(meta) =>
      if meta.Some? && meta.value.version > st.version && Idle(st) {
        TimerOk(st, meta.value);
        TimerSwaps(st, meta.value);
      }
  }

  lemma {:induction false} SubmitAllQuiet(st: State, news: seq<(Id, string)>)
    requires Shape(st)
    ensures SubmitAll(st, news).updating == st.updating && SubmitAll(st, news).table == st.table
    ensures SubmitAll(st, news).version == st.version
    ensures st.updating ==> SubmitAll(st, news).sent == st.sent && SubmitAll(st, news).inflight == st.inflight
  {
    hide Shape;
    if news != [] { SubmitAllQuiet(st, news[..|news| - 1]); }
  }

  /** The table changes only at a timer tick with newer metadata and nothing in flight. */
  lemma {:induction false} SwapsOnlyIdle(st: State, s: Step)
    requires Inv(st) && Next(st, s).Some?
    requires Next(st, s).value.table != st.table || Next(st, s).value.version != st.version
    ensures s.Tick? && s.meta.Some? && s.meta.value.version > st.version
    ensures st.inflight == map[] && forall n | 0 <= n < |st.refs| :: st.refs[n] == 0
  {
    match s
    case DoSubmit(id, key) =>
    case DoCallback(id, ok, news) => SubmitAllInv(st, news); SubmitAllQuiet(st, news);
    case Tick(meta) => IdleEmpty(st); assert forall n: nat :: At(map[], n) == {};
  }

  // ---------------------------------------------------------------- when the queue empties

  /** A tick with newer metadata while nothing is in flight. */
  ghost predicate Swaps(st: State, s: Step) {
    s.Tick? && s.meta.Some? && s.meta.value.version > st.version && st.inflight == map[]
  }

  lemma {:induction false} IdleIff(st: State)
    requires Inv(st)
    ensures Idle(st) <==> st.inflight == map[]
  {
    assert forall n: nat :: At(map[], n) == {};
    if Idle(st) { IdleEmpty(st); }
  }

  lemma {:induction false} SubmitAllQueues(st: State, news: seq<(Id, string)>)
    requires Shape(st) && st.updating
    ensures st.retry <= SubmitAll(st, news).retry
  {
    SubmitAllQuiet(st, news);
    if news != [] {
      SubmitAllQuiet(st, news[..|news| - 1]);
      SubmitAllQueues(st, news[..|news| - 1]);
    }
  }

  /** The queue is emptied by such a tick and by nothing else; until then it only grows. */
  lemma {:induction false} QueueStep(st: State, s: Step)
    requires Inv(st) && st.updating && Next(st, s).Some?
    ensures Swaps(st, s) ==> Next(st, s).value.retry == [] && !Next(st, s).value.updating
    ensures !Swaps(st, s) ==>
              && Next(st, s).value.updating && st.retry <= Next(st, s).value.retry
              && Next(st, s).value.sent == st.sent && Next(st, s).value.version == st.version
  {
    hide Shape, RefsOk, PlacesOk, QueueOk, CalledOk;
    match s
    case DoSubmit(id, key) =>
    case DoCallback(id, ok, news) =>
      SubmitAllInv(st, news);
      SubmitAllQuiet(st, news);
      SubmitAllQueues(st, news);
    case Tick(meta) =>
      IdleIff(st);
      if Swaps(st, s) {
        TimerOk(st, meta.value);
        TimerSwaps(st, meta.value);
      }
  }

  /** During an update every callback takes its request out of flight and starts none. */
  lemma {:induction false} CallbackDrains(st: State, id: Id, ok: bool, news: seq<(Id, string)>)
    requires Inv(st) && st.updating && id in st.inflight
    ensures Callback(st, id, ok, news).inflight == st.inflight - {id}
  {
    hide Shape, RefsOk, PlacesOk, QueueOk, CalledOk, SubmitAll;
    SubmitAllInv(st, news);
    SubmitAllQuiet(st, news);
  }

  /** The client after more events. */
  function From(st: State, steps: seq<Step>): (r: Option<State>)
    requires Inv(st)
    ensures r.Some? ==> Inv(r.value)
  {
    if steps == [] then Some(st) else RunNext(From(st, steps[..|steps| - 1]), steps[|steps| - 1])
  }

  /** Event number i of the run finds nothing in flight and brings newer metadata. */
  ghost predicate SwapsAt(st: State, steps: seq<Step>, i: nat)
    requires Inv(st)
  {
    i < |steps| && From(st, steps[..i]).Some? && Swaps(From(st, steps[..i]).value, steps[i])
  }

  lemma {:induction false} FromStep(st: State, steps: seq<Step>, i: nat)
    requires Inv(st) && i < |steps|
    ensures From(st, steps[..i + 1]) == RunNext(From(st, steps[..i]), steps[i])
  {
    hide Inv, RunNext;
    var u := steps[..i + 1];
    assert u[..|u| - 1] == steps[..i] && u[|u| - 1] == steps[i];
  }

  lemma {:induction false} FromPrefix(st: State, steps: seq<Step>, i: nat)
    requires Inv(st) && i <= |steps| && From(st, steps).Some?
    ensures From(st, steps[..i]).Some?
    decreases |steps| - i
  {
    hide Inv, Next;
    if i == |steps| {
      assert steps[..i] == steps;
    } else {
      FromPrefix(st, steps, i + 1);
      FromStep(st, steps, i);
    }
  }

  /** Without such an event an update never ends: nothing starts and the queue only grows. */
  lemma {:induction false} Stalls(st: State, steps: seq<Step>)
    requires Inv(st) && st.updating && From(st, steps).Some? && forall i: nat :: !SwapsAt(st, steps, i)
    ensures var r := From(st, steps).value;
            r.updating && st.retry <= r.retry && r.sent == st.sent && r.version == st.version
  {
    hide Inv, Next, Swaps;
    if steps != [] {
      var n := |steps| - 1;
      var front := steps[..n];
      forall i: nat ensures !SwapsAt(st, front, i) {
        if i < n { assert front[..i] == steps[..i] && !SwapsAt(st, steps, i); }
      }
      assert !SwapsAt(st, steps, n);
      Stalls(st, front);
      QueueStep(From(st, front).value, steps[n]);
    }
  }

  ghost predicate EmptyAt(st: State, steps: seq<Step>, i: nat)
    requires Inv(st)
  {
    i <= |steps| && From(st, steps[..i]).Some? && From(st, steps[..i]).value.retry == []
  }

  /** Requests are queued: within a run the queue empties exactly when some event of the run finds
      nothing in flight and brings newer metadata. */
  lemma {:induction false} EmptiesIff(st: State, steps: seq<Step>)
    requires Inv(st) && st.retry != [] && From(st, steps).Some?
    ensures (exists i: nat :: EmptyAt(st, steps, i)) <==> exists i: nat :: SwapsAt(st, steps, i)
  {
    assert st.updating;
    hide Inv, Next, Swaps;
    if i: nat :| SwapsAt(st, steps, i) {
      FromPrefix(st, steps, i + 1);
      FromStep(st, steps, i);
      SwapEmpties(From(st, steps[..i]).value, steps[i]);
      assert EmptyAt(st, steps, i + 1);
    }
    if j: nat :| EmptyAt(st, steps, j) {
      if forall i: nat :: !SwapsAt(st, steps, i) { StallsUpto(st, steps, j); }
    }
  }

  lemma {:induction false} StallsUpto(st: State, steps: seq<Step>, j: nat)
    requires Inv(st) && st.updating && st.retry != [] && j <= |steps| && From(st, steps[..j]).Some?
    requires forall i: nat :: !SwapsAt(st, steps, i)
    ensures From(st, steps[..j]).value.retry != []
  {
    hide Inv, Next, Swaps;
    var front := steps[..j];
    forall i: nat ensures !SwapsAt(st, front, i) {
      if i < j { assert front[..i] == steps[..i] && !SwapsAt(st, steps, i); }
    }
    Stalls(st, front);
  }

  lemma {:induction false} SwapEmpties(st: State, s: Step)
    requires Inv(st) && Swaps(st, s) && Next(st, s).Some?
    ensures Next(st, s).value.retry == []
  {
    hide Shape, RefsOk, PlacesOk, QueueOk, CalledOk;
    IdleIff(st);
    TimerOk(st, s.meta.value);
    TimerSwaps(st, s.meta.value);
  }
}
