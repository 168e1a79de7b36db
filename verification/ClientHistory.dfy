/**
 client/rdma.c: what the steps of a run say about a request slot. The two flags of a request are
 the two arrivals since it took its slot; both together free the slot at the next handler end.
 */
module ClientHistory {
  import opened Wrappers
  import opened ClientSlots

  predicate Holds(st: State, id: Id) { id in st.reqs && st.reqs[id].slot.Some? }

  function Arrival(id: Id, response: bool): Step { if response then Response(id) else SendDone(id) }

  /** The response, or the send completion, of id arrived at step j, in the occupation of a slot
      that is still going on at the end. */
  ghost predicate HeardAt(depth: nat, steps: seq<Step>, id: Id, response: bool, j: int) {
    && 0 <= j < |steps| && steps[j] == Arrival(id, response)
    && Holds(Run(depth, steps[..j]), id)
    && Run(depth, steps[..j]).taken[id] == Run(depth, steps).taken[id]
  }

  ghost predicate Heard(depth: nat, steps: seq<Step>, id: Id, response: bool) {
    exists j :: HeardAt(depth, steps, id, response, j)
  }

  // ---------------------------------------------------------------- one occupation at a time

  /** From st to st' no completion of id arrives: id keeps its slot and flags, or enters one anew. */
  ghost predicate Quiet(st: State, st': State, id: Id) {
    && st.taken[id] <= st'.taken[id] && st.asked[id] <= st'.asked[id]
    && (Holds(st', id) ==>
          if st'.taken[id] == st.taken[id] then Holds(st, id) && st'.reqs[id] == st.reqs[id]
          else !st'.reqs[id].sent && !st'.reqs[id].received)
  }

  lemma {:induction false} SendQuiet(st: State, k: Id, r: Req, id: Id)
    requires k in st.reqs ==> st.reqs[k].slot == None && r == st.reqs[k]
    requires !r.sent && !r.received && r.slot == None
    ensures Quiet(st, Send(st, k, r), id)
  {
  }

  lemma {:induction false} SubmitQuiet(st: State, k: Id, id: Id)
    ensures Quiet(st, Submit(st, k), id)
    ensures Submit(st, k).freed == st.freed && Submit(st, k).called == st.called
    ensures k in Submit(st, k).reqs && (id in st.reqs ==> id in Submit(st, k).reqs)
    ensures id !in st.reqs && id in Submit(st, k).reqs ==> st.asked[id] < Submit(st, k).asked[id]
  {
    if k !in st.reqs { SendQuiet(st.(asked := st.asked + multiset{k}), k, FRESH, id); }
  }

  lemma {:induction false} SubmitAllQuiet(st: State, ids: seq<Id>, id: Id)
    ensures Quiet(st, SubmitAll(st, ids), id)
    ensures SubmitAll(st, ids).freed == st.freed && SubmitAll(st, ids).called == st.called
    ensures id in ids || id in st.reqs ==> id in SubmitAll(st, ids).reqs
    ensures id !in st.reqs && id in SubmitAll(st, ids).reqs ==> st.asked[id] < SubmitAll(st, ids).asked[id]
  {
    hide Submit, Holds;
    if ids != [] {
      SubmitAllQuiet(st, ids[..|ids| - 1], id);
      SubmitQuiet(SubmitAll(st, ids[..|ids| - 1]), ids[|ids| - 1], id);
      assert ids == ids[..|ids| - 1] + [ids[|ids| - 1]];
    }
  }

  lemma {:induction false} CompleteOneQuiet(st: State, after: Id -> After, id: Id)
    requires Inv(st) && st.complete != []
    ensures Quiet(st, CompleteOne(st, after), id)
    ensures var c, st' := st.complete[0], CompleteOne(st, after);
            && st'.freed == st.freed + multiset{c}
            && st'.called == st.called + (if after(c).Finish? then multiset{c} else multiset{})
            && (after(c).Finish? && id in after(c).news ==> id in st'.reqs)
            && (id !in st.reqs && id in st'.reqs ==> st.asked[id] < st'.asked[id])
  {
    hide SubmitAll, Send, DelayedOk, FreedOk, OrderOk, CalledOk, NoDup;
    var c, st1 := st.complete[0], Release(st);
    assert c in st.complete && c in st.reqs && c !in st1.reqs;
    assert Quiet(st, st1, id);
    match after(c)
    case Finish(news) => SubmitAllQuiet(st1.(called := st1.called + multiset{c}), news, id);
    case Again => SendAgain(st1, c, id);
  }

  lemma {:induction false} SendAgain(st: State, c: Id, id: Id)
    requires c !in st.reqs
    ensures var st' := Send(st, c, FRESH);
            && Quiet(st, st', id)
            && st'.freed == st.freed && st'.called == st.called && st'.reqs.Keys == st.reqs.Keys + {c}
  {
    SendQuiet(st, c, FRESH, id);
  }

  /** Draining the complete list frees each request on it once, reports those that are finished, and
      submits what their callbacks ask for. */
  lemma {:induction false} CompleteAllQuiet(st: State, after: Id -> After, id: Id)
    requires Inv(st)
    ensures var st' := CompleteAll(st, after);
            && Quiet(st, st', id)
            && st'.freed[id] == st.freed[id] + (if id in st.complete then 1 else 0)
            && st'.called[id] == st.called[id] + (if id in st.complete && after(id).Finish? then 1 else 0)
            && (id !in st.reqs && (exists c :: Asks(st, after, c, id)) ==> st.asked[id] < st'.asked[id])
    decreases |st.complete|
  {
    hide Inv, CompleteOne, Quiet, NoDup;
    if st.complete == [] {
      assert Quiet(st, st, id) by { QuietSame(st, id); }
    } else {
      var st1 := CompleteOne(st, after);
      CompleteOneInv(st, after);
      CompleteOneQuiet(st, after, id);
      CompleteAllQuiet(st1, after, id);
      QuietTwice(st, st1, CompleteAll(st1, after), id);
      assert st.complete == [st.complete[0]] + st.complete[1..];
      assert st.complete[0] !in st.complete[1..] by { HeadOnce(st); }
      if c :| Asks(st, after, c, id) {
        if c != st.complete[0] { assert Asks(st1, after, c, id); }
      }
    }
  }

  /** The callback of c, which is on the complete list, submits k. */
  predicate Asks(st: State, after: Id -> After, c: Id, k: Id) {
    c in st.complete && after(c).Finish? && k in after(c).news
  }

  lemma {:induction false} HeadOnce(st: State)
    requires Inv(st) && st.complete != []
    ensures st.complete[0] !in st.complete[1..]
  {
  }

  lemma {:induction false} QuietSame(st: State, id: Id)
    ensures Quiet(st, st, id)
  {
  }

  lemma {:induction false} QuietTwice(st: State, st1: State, st2: State, id: Id)
    requires Quiet(st, st1, id) && Quiet(st1, st2, id)
    ensures Quiet(st, st2, id) && st.asked[id] <= st1.asked[id] <= st2.asked[id]
  {
  }

  lemma {:induction false} PopQuiet(st: State, id: Id)
    requires Inv(st) && st.delayed != [] && st.delayed[0] in st.reqs
    ensures Quiet(st, Pop(st), id) && Pop(st).freed == st.freed && Pop(st).called == st.called
    ensures Pop(st).asked == st.asked
  {
    hide SlotsOk, FreedOk, OrderOk, CalledOk, Quiet;
    HeadListed(st);
    var k := st.delayed[0];
    SendQuiet(st.(delayed := st.delayed[1..]), k, st.reqs[k], id);
    assert Quiet(st, Pop(st), id) by { QuietList(st, st.delayed[1..], Pop(st), id); }
  }

  lemma {:induction false} QuietList(st: State, list: seq<Id>, st': State, id: Id)
    requires Quiet(st.(delayed := list), st', id)
    ensures Quiet(st, st', id)
  {
  }

  lemma {:induction false} DelaySendQuiet(st: State, id: Id)
    requires Inv(st)
    ensures var st' := DelaySend(st);
            Quiet(st, st', id) && st'.freed == st.freed && st'.called == st.called && st'.asked == st.asked
    decreases |st.delayed|
  {
    hide Inv, Quiet, Pop;
    if st.delayed == [] {
      QuietSame(st, id);
    } else {
      HeadListed(st);
      PopInv(st);
      PopQuiet(st, id);
      if !Full(st) {
        DelaySendQuiet(Pop(st), id);
        QuietTwice(st, Pop(st), DelaySend(Pop(st)), id);
      }
    }
  }

  /** The end of the handler: what it frees, what it reports and what it submits. */
  lemma {:induction false} FinishQuiet(st: State, after: Id -> After, id: Id)
    requires Inv(st)
    ensures var st' := FinishCq(st, after);
            && Quiet(st, st', id)
            && st'.freed[id] == st.freed[id] + (if id in st.complete then 1 else 0)
            && st'.called[id] == st.called[id] + (if id in st.complete && after(id).Finish? then 1 else 0)
            && (id !in st.reqs && (exists c :: Asks(st, after, c, id)) ==> st.asked[id] < st'.asked[id])
  {
    hide Inv, Quiet, CompleteAll, DelaySend;
    var st1 := CompleteAll(st, after);
    CompleteAllQuiet(st, after, id);
    DelaySendQuiet(st1, id);
    QuietTwice(st, st1, DelaySend(st1), id);
  }

  // ---------------------------------------------------------------- the flags are the arrivals

  lemma {:induction false} NextQuiet(st: State, s: Step, id: Id)
    requires Inv(st) && s != Response(id) && s != SendDone(id)
    ensures Quiet(st, Next(st, s), id)
  {
    hide Inv, Submit, CompleteAll, DelaySend;
    match s
    case DoSubmit(k) => SubmitQuiet(st, k, id);
    case Response(k) =>
    case SendDone(k) =>
    case CqEmpty(after) => FinishQuiet(st, after, id);
  }

  lemma {:induction false} ArrivalSets(st: State, id: Id, response: bool)
    requires Inv(st)
    ensures var st' := Next(st, Arrival(id, response));
            && st'.taken == st.taken && (Holds(st', id) <==> Holds(st, id))
            && (Holds(st, id) ==> st'.reqs[id] == if response then st.reqs[id].(received := true)
                                                  else st.reqs[id].(sent := true))
  {
  }

  lemma {:induction false} TakenGrows(depth: nat, steps: seq<Step>, j: nat, id: Id)
    requires j <= |steps|
    ensures Run(depth, steps[..j]).taken[id] <= Run(depth, steps).taken[id]
  {
    hide Inv, Next, Quiet;
    if j == |steps| {
      assert steps[..j] == steps;
    } else {
      var front, s := steps[..|steps| - 1], steps[|steps| - 1];
      assert front[..j] == steps[..j];
      TakenGrows(depth, front, j, id);
      NextTaken(Run(depth, front), s, id);
    }
  }

  lemma {:induction false} NextTaken(st: State, s: Step, id: Id)
    requires Inv(st)
    ensures st.taken[id] <= Next(st, s).taken[id]
  {
    hide Inv, Next;
    if s == Response(id) || s == SendDone(id) {
      ArrivalSets(st, id, s.Response?);
    } else {
      NextQuiet(st, s, id);
    }
  }

  /** One more step leaves the arrivals of a going occupation, and adds its own. */
  lemma {:induction false} HeardMore(depth: nat, front: seq<Step>, s: Step, id: Id, response: bool)
    ensures var st, steps := Run(depth, front), front + [s];
            Heard(depth, steps, id, response) <==>
              && Run(depth, steps).taken[id] == st.taken[id]
              && (Heard(depth, front, id, response) || (s == Arrival(id, response) && Holds(st, id)))
  {
    hide Run, Next, Holds;
    var steps := front + [s];
    assert steps[..|front|] == front;
    assert forall j | 0 <= j < |front| :: steps[..j] == front[..j];
    TakenGrows(depth, steps, |front|, id);
    if j :| HeardAt(depth, steps, id, response, j) {
      if j < |front| {
        TakenGrows(depth, front, j, id);
        assert HeardAt(depth, front, id, response, j);
      }
    }
    if Run(depth, steps).taken[id] == Run(depth, front).taken[id] {
      if j :| HeardAt(depth, front, id, response, j) { assert HeardAt(depth, steps, id, response, j); }
      if s == Arrival(id, response) && Holds(Run(depth, front), id) {
        assert HeardAt(depth, steps, id, response, |front|);
      }
    }
  }

  /** In every run: a request in a slot has its flags set exactly by the arrivals since it took it. */
  lemma {:induction false} FlagsExact(depth: nat, steps: seq<Step>, id: Id)
    requires Holds(Run(depth, steps), id)
    ensures var r := Run(depth, steps).reqs[id];
            (r.received <==> Heard(depth, steps, id, true)) && (r.sent <==> Heard(depth, steps, id, false))
  {
    hide Inv, Next, Heard;
    if steps != [] {
      var front, s := steps[..|steps| - 1], steps[|steps| - 1];
      var st0 := Run(depth, front);
      assert front + [s] == steps;
      HeardMore(depth, front, s, id, true);
      HeardMore(depth, front, s, id, false);
      if s == Response(id) || s == SendDone(id) {
        ArrivalSets(st0, id, s.Response?);
        FlagsExact(depth, front, id);
      } else {
        NextQuiet(st0, s, id);
        if Run(depth, steps).taken[id] == st0.taken[id] { FlagsExact(depth, front, id); }
      }
    }
  }

  // ---------------------------------------------------------------- leaving a slot

  /** Both completions of id have arrived since it took its slot. */
  ghost predicate Both(depth: nat, steps: seq<Step>, id: Id) {
    Heard(depth, steps, id, true) && Heard(depth, steps, id, false)
  }

  lemma {:induction false} OnComplete(st: State, id: Id)
    requires Inv(st) && Holds(st, id)
    ensures id in st.complete <==> st.reqs[id].received && st.reqs[id].sent
  {
  }

  /** A request in a slot leaves it at a step exactly when that step ends the handler and both its
      response and its send completion have arrived since it took the slot; else it stays there. */
  lemma {:induction false} LeavesIffBoth(depth: nat, steps: seq<Step>, s: Step, id: Id, i: nat)
    requires Sits(Run(depth, steps), id, i)
    ensures var st, st' := Run(depth, steps), Next(Run(depth, steps), s);
            if s.CqEmpty? && Both(depth, steps, id) then st'.freed[id] == st.freed[id] + 1
            else Sits(st', id, i) && st'.freed[id] == st.freed[id] && st'.taken[id] == st.taken[id]
  {
    hide Run, Next, Inv, Heard;
    var st := Run(depth, steps);
    FlagsExact(depth, steps, id);
    OnComplete(st, id);
    if s.CqEmpty? && id in st.complete {
      assert Next(st, s) == FinishCq(st, s.after) by { NextFinish(st, s.after); }
      FinishQuiet(st, s.after, id);
    } else {
      StaysPut(depth, steps, s, id, i);
    }
  }

  lemma {:induction false} NextFinish(st: State, after: Id -> After)
    requires Inv(st)
    ensures Next(st, CqEmpty(after)) == FinishCq(st, after)
  {
  }

  lemma {:induction false} StaysPut(depth: nat, steps: seq<Step>, s: Step, id: Id, i: nat)
    requires Sits(Run(depth, steps), id, i) && (s.CqEmpty? ==> id !in Run(depth, steps).complete)
    ensures var st, st' := Run(depth, steps), Next(Run(depth, steps), s);
            Sits(st', id, i) && st'.freed[id] == st.freed[id] && st'.taken[id] == st.taken[id]
  {
    hide Run, CompleteAll, DelaySend, SlotsOk, DelayedOk, CompleteOk, CalledOk, OrderOk, Quiet;
    var st := Run(depth, steps);
    NextInv(st, s);
    match s
    case DoSubmit(k) =>
    case Response(k) =>
    case SendDone(k) =>
    case CqEmpty(after) =>
      CompleteAllSits(st, after, id, i);
      DelaySendSits(CompleteAll(st, after), id, i);
      FinishQuiet(st, after, id);
  }

  /** Once both have arrived, the next handler end reports the request to the user exactly once, or
      (KEYS) sends it again with neither completion; what a callback submits is submitted. */
  lemma {:induction false} BothThenDone(depth: nat, steps: seq<Step>, after: Id -> After, id: Id)
    requires Holds(Run(depth, steps), id) && Both(depth, steps, id)
    ensures var st, st' := Run(depth, steps), Next(Run(depth, steps), CqEmpty(after));
            match after(id)
            case Finish(news) =>
              && st'.called[id] == st.called[id] + 1
              && forall k | k in news && k !in st.reqs :: st.asked[k] < st'.asked[k]
            case Again =>
              && st'.called[id] == st.called[id] && st'.asked[id] == st.asked[id] && id in st'.reqs
              && (id in st'.delayed || (Holds(st', id) && st'.taken[id] == st.taken[id] + 1
                                        && !st'.reqs[id].sent && !st'.reqs[id].received))
  {
    hide Run, Next, Inv, Heard, FinishCq;
    var st, st' := Run(depth, steps), FinishCq(Run(depth, steps), after);
    FlagsExact(depth, steps, id);
    OnComplete(st, id);
    NextFinish(st, after);
    FinishQuiet(st, after, id);
    match after(id)
    case Finish(news) =>
      forall k | k in news && k !in st.reqs
        ensures st.asked[k] < st'.asked[k]
      {
        assert Asks(st, after, id, k);
        FinishQuiet(st, after, k);
      }
    case Again => AgainIn(st, st', id);
  }

  lemma {:induction false} AgainIn(st: State, st': State, id: Id)
    requires Inv(st) && Inv(st') && Holds(st, id) && Quiet(st, st', id)
    requires st'.freed[id] == st.freed[id] + 1 && st'.called[id] == st.called[id]
    ensures st'.asked[id] == st.asked[id] && id in st'.reqs
    ensures id in st'.delayed || (Holds(st', id) && st'.taken[id] == st.taken[id] + 1
                                  && !st'.reqs[id].sent && !st'.reqs[id].received)
  {
    hide SlotsOk, CompleteOk, OrderOk;
  }
}
