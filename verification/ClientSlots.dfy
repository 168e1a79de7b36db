/**
 client/rdma.c: the request slots of one connection. A request occupies a slot until both
 its send completion and its response have arrived. When every slot is busy, requests are
 delayed and sent later, in order. The connection is established and free of errors: every
 sent request gets one send completion and one response, in either order.
 */
module ClientSlots {
  import opened Wrappers

  type Id = nat

  /** priskv_rdma_req: its slot and its two completion flags. */
  datatype Req = Req(slot: Option<nat>, sent: bool, received: bool, delaying: bool)

  const FRESH := Req(None, false, false, false)

  /** What the callback of a completed request does: report to the user, who may submit more,
      or (KEYS with a buffer too small) send the same request again. */
  datatype After = Finish(news: seq<Id>) | Again

  /** The last six fields are history: submissions and user callbacks, slots taken and freed,
      requests delayed and delayed requests sent since. */
  datatype State = State(
    slots: seq<Option<Id>>,   // the request whose command is in the slot
    reqs: map<Id, Req>,
    delayed: seq<Id>,         // conn->inflight_list
    complete: seq<Id>,        // conn->complete_list
    asked: multiset<Id>, called: multiset<Id>,
    taken: multiset<Id>, freed: multiset<Id>,
    order: seq<Id>, left: seq<Id>)

  // ---------------------------------------------------------------- the calls

  /** The first free slot, or the number of slots. */
  function FirstFree(slots: seq<Option<Id>>): (r: nat)
    ensures r <= |slots| && (r < |slots| ==> slots[r] == None)
    ensures forall i | 0 <= i < r :: slots[i].Some?
  {
    if slots == [] || slots[0].None? then 0 else 1 + FirstFree(slots[1..])
  }

  predicate Full(st: State) { FirstFree(st.slots) == |st.slots| }

  /** Take slot i for request id. */
  function Occupy(st: State, id: Id, r: Req, i: nat): State
    requires i < |st.slots|
  {
    st.(slots := st.slots[i := Some(id)], reqs := st.reqs[id := r.(slot := Some(i))],
        taken := st.taken + multiset{id},
        left := if r.delaying then st.left + [id] else st.left)
  }

  /** priskv_rdma_req_send with no free slot. */
  function Delay(st: State, id: Id, r: Req): State {
    if r.delaying then st.(delayed := [id] + st.delayed, reqs := st.reqs[id := r])
    else st.(delayed := st.delayed + [id], order := st.order + [id], reqs := st.reqs[id := r.(delaying := true)])
  }

  function Send(st: State, id: Id, r: Req): State {
    var i := FirstFree(st.slots);
    if i < |st.slots| then Occupy(st, id, r, i) else Delay(st, id, r)
  }

  function Submit(st: State, id: Id): State {
    if id in st.reqs then st
    else Send(st.(asked := st.asked + multiset{id}), id, FRESH)
  }

  function SubmitAll(st: State, ids: seq<Id>): State {
    if ids == [] then st else Submit(SubmitAll(st, ids[..|ids| - 1]), ids[|ids| - 1])
  }

  /** priskv_rdma_handle_send or priskv_rdma_handle_recv, then priskv_rdma_req_done */
  function Arrive(st: State, id: Id, response: bool): State {
    if id !in st.reqs || st.reqs[id].slot.None? then st
    else
      var r := st.reqs[id];
      if (if response then r.received else r.sent) then st
      else
        var r' := if response then r.(received := true) else r.(sent := true);
        st.(reqs := st.reqs[id := r'], complete := if r'.sent && r'.received then st.complete + [id] else st.complete)
  }

  /** priskv_request_free on the head of the complete list. */
  function Release(st: State): State
    requires Inv(st) && st.complete != []
  {
    var id := st.complete[0];
    st.(complete := st.complete[1..], slots := st.slots[st.reqs[id].slot.value := None], reqs := st.reqs - {id},
        freed := st.freed + multiset{id})
  }

  function AfterCallback(st: State, id: Id, after: After): State {
    match after
    case Finish(news) => SubmitAll(st.(called := st.called + multiset{id}), news)
    case Again => Send(st, id, FRESH)
  }

  /** One turn of priskv_rdma_req_complete. */
  function CompleteOne(st: State, after: Id -> After): State
    requires Inv(st) && st.complete != []
  {
    AfterCallback(Release(st), st.complete[0], after(st.complete[0]))
  }

  function CompleteAll(st: State, after: Id -> After): (r: State)
    requires Inv(st)
    ensures Inv(r) && r.complete == []
    decreases |st.complete|
  {
    if st.complete == [] then st
    else
      CompleteOneInv(st, after);
      CompleteAll(CompleteOne(st, after), after)
  }

  /** Take the first delayed request off the list and send it. */
  function Pop(st: State): State
    requires st.delayed != [] && st.delayed[0] in st.reqs
  {
    Send(st.(delayed := st.delayed[1..]), st.delayed[0], st.reqs[st.delayed[0]])
  }

  /** priskv_rdma_req_delay_send: send from the head until one has to wait again. */
  function DelaySend(st: State): (r: State)
    requires Inv(st)
    ensures Inv(r) && r.complete == st.complete
    decreases |st.delayed|
  {
    if st.delayed == [] then st
    else
      HeadListed(st);
      PopInv(st);
      if Full(st) then Pop(st) else DelaySend(Pop(st))
  }

  /** priskv_rdma_handle_cq once the queue is empty. */
  function FinishCq(st: State, after: Id -> After): (r: State)
    requires Inv(st)
    ensures Inv(r)
  {
    DelaySend(CompleteAll(st, after))
  }

  // ---------------------------------------------------------------- invariant

  /** A slot and the request in it name each other, so no two requests share a slot. */
  ghost predicate SlotsOk(st: State) {
    && (forall i | 0 <= i < |st.slots| && st.slots[i].Some? ::
          st.slots[i].value in st.reqs && st.reqs[st.slots[i].value].slot == Some(i))
    && (forall id | id in st.reqs && st.reqs[id].slot.Some? ::
          st.reqs[id].slot.value < |st.slots| && st.slots[st.reqs[id].slot.value] == Some(id))
  }

  ghost predicate NoDup(s: seq<Id>) {
    forall i, j | 0 <= i < j < |s| :: s[i] != s[j]
  }

  /** The delayed list holds exactly the requests with no slot. */
  ghost predicate DelayedOk(st: State) {
    && NoDup(st.delayed)
    && (forall id | id in st.delayed :: id in st.reqs)
    && (forall id | id in st.reqs :: st.reqs[id].slot.None? <==> id in st.delayed)
    && (forall id | id in st.delayed :: st.reqs[id].delaying)
  }

  /** The complete list holds exactly the requests with both completions. */
  ghost predicate CompleteOk(st: State) {
    && NoDup(st.complete)
    && (forall id | id in st.complete :: id in st.reqs)
    && (forall id | id in st.reqs :: st.reqs[id].sent && st.reqs[id].received <==> id in st.complete)
    && (forall id | id in st.reqs && (st.reqs[id].sent || st.reqs[id].received) :: st.reqs[id].slot.Some?)
  }

  /** Every slot taken has been freed once, or is still occupied. */
  ghost predicate FreedOk(st: State) {
    forall id :: st.taken[id] == st.freed[id] + (if id in st.reqs && st.reqs[id].slot.Some? then 1 else 0)
  }

  /** Every submission has been called back once, or is outstanding. */
  ghost predicate CalledOk(st: State, held: set<Id>) {
    forall id :: st.asked[id] == st.called[id] + (if id in st.reqs || id in held then 1 else 0)
  }

  /** Delayed requests leave in the order in which they were delayed. */
  ghost predicate OrderOk(st: State) { st.order == st.left + st.delayed }

  ghost predicate Core(st: State) {
    SlotsOk(st) && DelayedOk(st) && CompleteOk(st) && FreedOk(st) && OrderOk(st)
  }

  ghost predicate Inv(st: State) { Core(st) && CalledOk(st, {}) }

  /** While requests are delayed, every slot is occupied. */
  ghost predicate Stable(st: State) { st.delayed != [] ==> Full(st) }

  // ---------------------------------------------------------------- steps keep it

  lemma {:induction false} EnterCore(st: State, id: Id)
    requires Core(st) && id !in st.reqs
    ensures Core(Send(st, id, FRESH)) && Send(st, id, FRESH).complete == st.complete
    ensures Send(st, id, FRESH).reqs.Keys == st.reqs.Keys + {id}
    ensures Stable(st) ==> Stable(Send(st, id, FRESH))
  {
    hide SlotsOk, DelayedOk, CompleteOk, FreedOk, OrderOk;
    EnterSlots(st, id);
    EnterDelayed(st, id);
    EnterComplete(st, id);
    EnterHistory(st, id);
  }

  lemma {:induction false} EnterSlots(st: State, id: Id)
    requires SlotsOk(st) && id !in st.reqs
    ensures SlotsOk(Send(st, id, FRESH))
  {
    var i := FirstFree(st.slots);
    assert forall k | k in st.reqs && st.reqs[k].slot.Some? :: st.reqs[k].slot.value != i;
  }

  lemma {:induction false} EnterDelayed(st: State, id: Id)
    requires DelayedOk(st) && id !in st.reqs
    ensures DelayedOk(Send(st, id, FRESH))
  {
    assert id !in st.delayed;
    assert forall k :: k in st.delayed + [id] <==> k in st.delayed || k == id;
  }

  lemma {:induction false} EnterComplete(st: State, id: Id)
    requires CompleteOk(st) && id !in st.reqs
    ensures CompleteOk(Send(st, id, FRESH))
  {
    assert id !in st.complete;
  }

  lemma {:induction false} EnterHistory(st: State, id: Id)
    requires FreedOk(st) && OrderOk(st) && id !in st.reqs
    ensures FreedOk(Send(st, id, FRESH)) && OrderOk(Send(st, id, FRESH))
  {
    assert st.taken[id] == st.freed[id];
  }

  lemma {:induction false} AskCore(st: State, id: Id)
    requires Inv(st) && id !in st.reqs
    ensures Core(st.(asked := st.asked + multiset{id})) && CalledOk(st.(asked := st.asked + multiset{id}), {id})
  {
  }

  lemma {:induction false} SubmitInv(st: State, id: Id)
    requires Inv(st)
    ensures Inv(Submit(st, id)) && Submit(st, id).complete == st.complete
    ensures Stable(st) ==> Stable(Submit(st, id))
  {
    if id !in st.reqs {
      var st1 := st.(asked := st.asked + multiset{id});
      AskCore(st, id);
      hide Core, CalledOk, Send;
      EnterCore(st1, id);
      SendCalls(st1, id);
    }
  }

  lemma {:induction false} SubmitAllInv(st: State, ids: seq<Id>)
    requires Inv(st)
    ensures Inv(SubmitAll(st, ids)) && SubmitAll(st, ids).complete == st.complete
  {
    hide Inv, Stable, Submit;
    if ids != [] {
      SubmitAllInv(st, ids[..|ids| - 1]);
      SubmitInv(SubmitAll(st, ids[..|ids| - 1]), ids[|ids| - 1]);
    }
  }

  lemma {:induction false} ReleaseCore(st: State)
    requires Inv(st) && st.complete != []
    ensures Core(Release(st)) && CalledOk(Release(st), {st.complete[0]})
    ensures Release(st).reqs.Keys == st.reqs.Keys - {st.complete[0]}
  {
    var id := st.complete[0];
    assert id in st.complete && id in st.reqs;
    ReleaseLists(st);
    ReleaseSlots(st);
    hide SlotsOk, CompleteOk, DelayedOk, FreedOk, OrderOk;
  }

  lemma {:induction false} ReleaseSlots(st: State)
    requires Inv(st) && st.complete != []
    ensures SlotsOk(Release(st)) && FreedOk(Release(st))
  {
    hide DelayedOk, CalledOk, OrderOk;
    assert st.complete[0] in st.complete;
  }

  lemma {:induction false} ReleaseLists(st: State)
    requires Inv(st) && st.complete != []
    ensures CompleteOk(Release(st)) && DelayedOk(Release(st)) && OrderOk(Release(st))
  {
    var id := st.complete[0];
    assert id in st.complete && id in st.reqs && id !in st.delayed;
    assert forall k | k in st.complete :: k == id || k in st.complete[1..];
    assert forall k | k in st.complete[1..] :: k != id && k in st.complete;
  }

  lemma {:induction false} CompleteOneInv(st: State, after: Id -> After)
    requires Inv(st) && st.complete != []
    ensures Inv(CompleteOne(st, after)) && CompleteOne(st, after).complete == st.complete[1..]
  {
    hide Core, Send, Release, SubmitAll;
    var id, st1 := st.complete[0], Release(st);
    ReleaseCore(st);
    assert st1.complete == st.complete[1..] && st1.called == st.called by { ReleaseFields(st); }
    match after(id)
    case Finish(news) =>
      var st2 := st1.(called := st1.called + multiset{id});
      CallCore(st1, id);
      SubmitAllInv(st2, news);
    case Again =>
      EnterCore(st1, id);
      SendCalls(st1, id);
  }

  lemma {:induction false} ReleaseFields(st: State)
    requires Inv(st) && st.complete != []
    ensures Release(st).complete == st.complete[1..] && Release(st).called == st.called
  {
  }

  lemma {:induction false} CallCore(st: State, id: Id)
    requires Core(st) && CalledOk(st, {id}) && id !in st.reqs
    ensures Inv(st.(called := st.called + multiset{id}))
  {
  }

  lemma {:induction false} SendCalls(st: State, id: Id)
    requires CalledOk(st, {id}) && id !in st.reqs
    ensures CalledOk(Send(st, id, FRESH), {})
  {
  }

  lemma {:induction false} HeadListed(st: State)
    requires Inv(st) && st.delayed != []
    ensures st.delayed[0] in st.delayed && st.delayed[0] in st.reqs && st.reqs[st.delayed[0]].slot.None?
  {
  }

  lemma {:induction false} PopInv(st: State)
    requires Inv(st) && st.delayed != [] && st.delayed[0] in st.reqs
    ensures Inv(Pop(st)) && Pop(st).complete == st.complete
    ensures Full(st) ==> Pop(st) == st
    ensures !Full(st) ==> Pop(st).delayed == st.delayed[1..]
  {
    hide SlotsOk, DelayedOk, CompleteOk, FreedOk, CalledOk;
    var id := st.delayed[0];
    HeadListed(st);
    if Full(st) {
      assert st.reqs[id].delaying by { DelayedFlag(st, id); }
      assert [id] + st.delayed[1..] == st.delayed;
      assert st.reqs[id := st.reqs[id]] == st.reqs;
    } else {
      PopSlots(st);
      PopHistory(st);
      PopDelayed(st);
      PopComplete(st);
      assert st.left + st.delayed == (st.left + [id]) + st.delayed[1..];
      DelayedFlag(st, id);
    }
  }

  lemma {:induction false} DelayedFlag(st: State, id: Id)
    requires DelayedOk(st) && id in st.delayed
    ensures st.reqs[id].delaying
  {
  }

  lemma {:induction false} PopSlots(st: State)
    requires SlotsOk(st) && st.delayed != [] && !Full(st)
    requires st.delayed[0] in st.reqs && st.reqs[st.delayed[0]].slot.None?
    ensures SlotsOk(Pop(st))
  {
  }

  lemma {:induction false} PopHistory(st: State)
    requires FreedOk(st) && CalledOk(st, {}) && st.delayed != [] && !Full(st)
    requires st.delayed[0] in st.reqs && st.reqs[st.delayed[0]].slot.None?
    ensures FreedOk(Pop(st)) && CalledOk(Pop(st), {})
  {
  }

  lemma {:induction false} PopComplete(st: State)
    requires CompleteOk(st) && st.delayed != [] && !Full(st)
    requires st.delayed[0] in st.reqs && st.reqs[st.delayed[0]].slot.None?
    ensures CompleteOk(Pop(st))
  {
    assert st.delayed[0] !in st.complete;
  }

  lemma {:induction false} PopDelayed(st: State)
    requires DelayedOk(st) && st.delayed != [] && !Full(st) && st.delayed[0] in st.reqs
    ensures DelayedOk(Pop(st))
  {
    var id := st.delayed[0];
    assert forall k | k in st.delayed :: k == id || k in st.delayed[1..];
    assert forall k | k in st.delayed[1..] :: k != id && k in st.delayed;
  }

  lemma {:induction false} ArriveInv(st: State, id: Id, response: bool)
    requires Inv(st)
    ensures Inv(Arrive(st, id, response))
    ensures Stable(st) ==> Stable(Arrive(st, id, response))
  {
    hide SlotsOk, CompleteOk, DelayedOk, FreedOk;
    ArriveComplete(st, id, response);
    ArriveDelayed(st, id, response);
    ArriveSlots(st, id, response);
  }

  lemma {:induction false} ArriveSlots(st: State, id: Id, response: bool)
    requires SlotsOk(st) && FreedOk(st)
    ensures SlotsOk(Arrive(st, id, response)) && FreedOk(Arrive(st, id, response))
  {
  }

  lemma {:induction false} ArriveDelayed(st: State, id: Id, response: bool)
    requires DelayedOk(st)
    ensures DelayedOk(Arrive(st, id, response))
  {
  }

  lemma {:induction false} ArriveComplete(st: State, id: Id, response: bool)
    requires CompleteOk(st)
    ensures CompleteOk(Arrive(st, id, response))
  {
    var st' := Arrive(st, id, response);
    if st' != st {
      assert id !in st.complete;
      assert forall k :: k in st.complete + [id] <==> k in st.complete || k == id;
      assert NoDup(st'.complete);
    }
  }

  // ---------------------------------------------------------------- runs

  /** When the handler ends, either nothing is delayed or every slot is occupied. */
  lemma {:induction false} DelaySendSettles(st: State)
    requires Inv(st)
    ensures Stable(DelaySend(st))
    decreases |st.delayed|
  {
    hide Inv, Pop;
    if st.delayed != [] {
      HeadListed(st);
      PopInv(st);
      if !Full(st) { DelaySendSettles(Pop(st)); }
    }
  }

  datatype Step = DoSubmit(id: Id) | Response(id: Id) | SendDone(id: Id) | CqEmpty(after: Id -> After)

  function Next(st: State, s: Step): (r: State)
    requires Inv(st)
  {
    match s
    case DoSubmit(id) => Submit(st, id)
    case Response(id) => Arrive(st, id, true)
    case SendDone(id) => Arrive(st, id, false)
    case CqEmpty(after) => FinishCq(st, after)
  }

  function Init(depth: nat): State {
    State(seq(depth, _ => None), map[], [], [], multiset{}, multiset{}, multiset{}, multiset{}, [], [])
  }

  function Run(depth: nat, steps: seq<Step>): (st: State)
    ensures Inv(st)
  {
    if steps == [] then Init(depth)
    else
      var st0 := Run(depth, steps[..|steps| - 1]);
      NextInv(st0, steps[|steps| - 1]);
      Next(st0, steps[|steps| - 1])
  }

  lemma {:induction false} NextInv(st: State, s: Step)
    requires Inv(st)
    ensures Inv(Next(st, s))
    ensures Stable(st) ==> Stable(Next(st, s))
  {
    hide Inv, Stable, Submit, Arrive, CompleteAll, DelaySend;
    match s
    case DoSubmit(id) => SubmitInv(st, id);
    case Response(id) => ArriveInv(st, id, true);
    case SendDone(id) => ArriveInv(st, id, false);
    case CqEmpty(after) => DelaySendSettles(CompleteAll(st, after));
  }

  lemma {:induction false} RunStable(depth: nat, steps: seq<Step>)
    ensures Stable(Run(depth, steps))
  {
    hide Inv, Stable, Next;
    if steps == [] {
      assert Stable(Init(depth)) by { InitStable(depth); }
    } else {
      RunStable(depth, steps[..|steps| - 1]);
      NextInv(Run(depth, steps[..|steps| - 1]), steps[|steps| - 1]);
    }
  }

  lemma {:induction false} InitStable(depth: nat)
    ensures Stable(Init(depth))
  {
  }

  // ---------------------------------------------------------------- a slot is held until both completions

  predicate Sits(st: State, id: Id, i: nat) { id in st.reqs && st.reqs[id].slot == Some(i) }

  lemma {:induction false} SubmitAllSits(st: State, ids: seq<Id>, id: Id, i: nat)
    requires Sits(st, id, i)
    ensures Sits(SubmitAll(st, ids), id, i)
  {
    if ids != [] { SubmitAllSits(st, ids[..|ids| - 1], id, i); }
  }

  lemma {:induction false} CompleteOneSits(st: State, after: Id -> After, id: Id, i: nat)
    requires Inv(st) && st.complete != [] && Sits(st, id, i) && id !in st.complete
    ensures Sits(CompleteOne(st, after), id, i)
  {
    hide Inv, SubmitAll;
    var c := st.complete[0];
    assert c in st.complete;
    match after(c)
    case Finish(news) =>
      var st1 := Release(st);
      SubmitAllSits(st1.(called := st1.called + multiset{c}), news, id, i);
    case Again =>
  }

  lemma {:induction false} CompleteAllSits(st: State, after: Id -> After, id: Id, i: nat)
    requires Inv(st) && Sits(st, id, i) && id !in st.complete
    ensures Sits(CompleteAll(st, after), id, i)
    decreases |st.complete|
  {
    hide Inv, CompleteOne, Sits;
    if st.complete != [] {
      CompleteOneInv(st, after);
      CompleteOneSits(st, after, id, i);
      CompleteAllSits(CompleteOne(st, after), after, id, i);
    }
  }

  lemma {:induction false} DelaySendSits(st: State, id: Id, i: nat)
    requires Inv(st) && Sits(st, id, i)
    ensures Sits(DelaySend(st), id, i)
    decreases |st.delayed|
  {
    hide Inv, Sits, Pop;
    if st.delayed != [] {
      HeadListed(st);
      PopInv(st);
      PopSits(st, id, i);
      if !Full(st) { DelaySendSits(Pop(st), id, i); }
    }
  }

  lemma {:induction false} PopSits(st: State, id: Id, i: nat)
    requires Inv(st) && st.delayed != [] && Sits(st, id, i)
    ensures Sits(Pop(st), id, i)
  {
    assert st.delayed[0] in st.delayed;
  }

  /** A request leaves its slot only at the end of the handler, after both completions. */
  lemma {:induction false} HeldUntilBoth(depth: nat, steps: seq<Step>, s: Step, id: Id, i: nat)
    requires Sits(Run(depth, steps), id, i) && !Sits(Next(Run(depth, steps), s), id, i)
    ensures s.CqEmpty?
    ensures Run(depth, steps).reqs[id].sent && Run(depth, steps).reqs[id].received
  {
    hide Run, CompleteAll, DelaySend, SlotsOk, DelayedOk, FreedOk, CalledOk, OrderOk;
    var st := Run(depth, steps);
    match s
    case DoSubmit(k) =>
    case Response(k) =>
    case SendDone(k) =>
    case CqEmpty(after) =>
      if id !in st.complete {
        CompleteAllSits(st, after, id, i);
        DelaySendSits(CompleteAll(st, after), id, i);
      }
  }

  /** In every reachable state: one request per slot, every slot taken freed at most once, every
      submission called back at most once, delayed requests leave in order, and no slot is free
      while a request waits. */
  lemma {:induction false} RunSafe(depth: nat, steps: seq<Step>)
    ensures var st := Run(depth, steps);
            && (forall a, b | a in st.reqs && b in st.reqs && a != b && st.reqs[a].slot.Some? ::
                  st.reqs[a].slot != st.reqs[b].slot)
            && (forall id :: st.freed[id] <= st.taken[id] <= st.freed[id] + 1)
            && (forall id :: st.called[id] <= st.asked[id] <= st.called[id] + 1)
            && st.order == st.left + st.delayed
            && (st.delayed == [] || forall i | 0 <= i < |st.slots| :: st.slots[i].Some?)
  {
    RunStable(depth, steps);
    hide Run;
  }

  // ---------------------------------------------------------------- the connection object

  lemma {:induction false} SendOver(st: State, id: Id, r: Req)
    ensures Send(st.(reqs := st.reqs[id := r]), id, r) == Send(st, id, r)
  {
    var i := FirstFree(st.slots);
    assert st.reqs[id := r][id := r.(slot := Some(i))] == st.reqs[id := r.(slot := Some(i))];
    assert st.reqs[id := r][id := r.(delaying := true)] == st.reqs[id := r.(delaying := true)];
    assert st.reqs[id := r][id := r] == st.reqs[id := r];
  }

  lemma {:induction false} SlotOwner(st: State, i: nat)
    requires Inv(st) && i < |st.slots| && st.slots[i].Some?
    ensures st.slots[i].value in st.reqs && st.reqs[st.slots[i].value].slot == Some(i)
  {
  }

  lemma {:induction false} ReleaseGone(st: State)
    requires Inv(st) && st.complete != []
    ensures st.complete[0] !in Release(st).reqs
  {
  }

  class Conn {
    const command: array<Option<Id>>
    var reqs: map<Id, Req>
    var inflight: seq<Id>
    var complete: seq<Id>
    ghost var asked: multiset<Id>
    ghost var called: multiset<Id>
    ghost var taken: multiset<Id>
    ghost var freed: multiset<Id>
    ghost var order: seq<Id>
    ghost var left: seq<Id>

    ghost function Abs(): State
      reads this, command
    {
      State(command[..], reqs, inflight, complete, asked, called, taken, freed, order, left)
    }

    constructor (depth: nat)
      ensures Abs() == Init(depth) && fresh(command)
    {
      command := new Option<Id>[depth](_ => None);
      reqs, inflight, complete := map[], [], [];
      asked, called, taken, freed, order, left := multiset{}, multiset{}, multiset{}, multiset{}, [], [];
    }

    method UnusedCommand() returns (i: nat)
      ensures i == FirstFree(command[..])
    {
      i := 0;
      while i < command.Length && command[i].Some?
        invariant i <= command.Length
        invariant forall k | 0 <= k < i :: command[k].Some?
      {
        i := i + 1;
      }
    }

    method ReqSend(id: Id) returns (again: bool)
      requires id in reqs && reqs[id].slot.None?
      modifies this, command
      ensures Abs() == Send(old(Abs()), id, old(reqs[id]))
      ensures again == Full(old(Abs()))
    {
      var i := UnusedCommand();
      var r := reqs[id];
      again := i == command.Length;
      if again {
        if r.delaying {
          inflight := [id] + inflight;
          reqs := reqs[id := r];
        } else {
          inflight := inflight + [id];
          order := order + [id];
          reqs := reqs[id := r.(delaying := true)];
        }
      } else {
        command[i] := Some(id);
        reqs := reqs[id := r.(slot := Some(i))];
        taken := taken + multiset{id};
        if r.delaying { left := left + [id]; }
      }
    }

    method ReqSubmit(id: Id)
      modifies this, command
      ensures Abs() == Submit(old(Abs()), id)
    {
      // A request still in use is never handed out again by the allocator.
      if id in reqs { return; }
      asked := asked + multiset{id};
      ghost var st := Abs();
      reqs := reqs[id := FRESH];
      var _ := ReqSend(id);
      SendOver(st, id, FRESH);
    }

    method SubmitNews(ids: seq<Id>)
      modifies this, command
      ensures Abs() == SubmitAll(old(Abs()), ids)
    {
      ghost var st := Abs();
      var k := 0;
      while k < |ids|
        invariant k <= |ids| && Abs() == SubmitAll(st, ids[..k])
      {
        assert ids[..k + 1][..k] == ids[..k];
        ReqSubmit(ids[k]);
        k := k + 1;
      }
      assert ids[..k] == ids;
    }

    method ReqDone(id: Id)
      requires id in reqs
      modifies this`complete
      ensures complete == if reqs[id].sent && reqs[id].received then old(complete) + [id] else old(complete)
    {
      if reqs[id].sent && reqs[id].received { complete := complete + [id]; }
    }

    method HandleRecv(id: Id)
      requires Inv(Abs()) && id in reqs && reqs[id].slot.Some? && !reqs[id].received
      modifies this
      ensures Abs() == Arrive(old(Abs()), id, true) && Inv(Abs())
      ensures reqs == old(reqs)[id := old(reqs)[id].(received := true)]
      ensures complete == if old(reqs)[id].sent then old(complete) + [id] else old(complete)
    {
      hide Inv, Stable;
      ArriveInv(Abs(), id, true);
      reqs := reqs[id := reqs[id].(received := true)];
      ReqDone(id);
    }

    method HandleSend(i: nat)
      requires Inv(Abs()) && i < command.Length && command[i].Some? && !reqs[command[i].value].sent
      modifies this
      ensures Abs() == Arrive(old(Abs()), command[i].value, false) && Inv(Abs())
      ensures reqs == old(reqs)[command[i].value := old(reqs)[command[i].value].(sent := true)]
      ensures complete == if old(reqs)[command[i].value].received then old(complete) + [command[i].value]
                          else old(complete)
    {
      hide Inv, Stable;
      SlotOwner(Abs(), i);
      var id := command[i].value;
      ArriveInv(Abs(), id, false);
      reqs := reqs[id := reqs[id].(sent := true)];
      ReqDone(id);
    }

    method RequestFree()
      requires Inv(Abs()) && complete != []
      modifies this, command
      ensures Abs() == Release(old(Abs()))
    {
      var id := complete[0];
      assert id in complete;
      complete := complete[1..];
      command[reqs[id].slot.value] := None;
      reqs := reqs - {id};
      freed := freed + multiset{id};
    }

    method Callback(id: Id, after: After)
      requires id !in reqs
      modifies this, command
      ensures Abs() == AfterCallback(old(Abs()), id, after)
    {
      match after
      case Finish(news) =>
        called := called + multiset{id};
        SubmitNews(news);
      case Again =>
        ghost var st := Abs();
        reqs := reqs[id := FRESH];
        var _ := ReqSend(id);
        SendOver(st, id, FRESH);
    }

    method ReqComplete(after: Id -> After)
      requires Inv(Abs())
      modifies this, command
      ensures Abs() == CompleteAll(old(Abs()), after)
    {
      hide Inv, Release, AfterCallback;
      ghost var st := Abs();
      while complete != []
        invariant Inv(Abs()) && CompleteAll(Abs(), after) == CompleteAll(st, after)
        decreases |complete|
      {
        ghost var before := Abs();
        var id := complete[0];
        CompleteOneInv(before, after);
        ReleaseGone(before);
        RequestFree();
        Callback(id, after(id));
      }
    }

    method ReqDelaySend()
      requires Inv(Abs())
      modifies this, command
      ensures Abs() == DelaySend(old(Abs()))
    {
      hide Inv, Send;
      ghost var st := Abs();
      while inflight != []
        invariant Inv(Abs()) && DelaySend(Abs()) == DelaySend(st)
        decreases |inflight|
      {
        ghost var before := Abs();
        HeadListed(before);
        PopInv(before);
        var id := inflight[0];
        inflight := inflight[1..];
        var again := ReqSend(id);
        if again { return; }
      }
    }

    /** priskv_rdma_handle_cq once the completion queue is empty */
    method HandleCqEmpty(after: Id -> After)
      requires Inv(Abs())
      modifies this, command
      ensures Abs() == FinishCq(old(Abs()), after)
      ensures Inv(Abs()) && Stable(Abs())
    {
      hide Inv, Stable, CompleteAll, DelaySend;
      ReqComplete(after);
      DelaySendSettles(Abs());
      ReqDelaySend();
    }
  }
}
