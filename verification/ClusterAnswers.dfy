/**
 cluster/client/client.c: what becomes of a request, event by event: when an answer is reported to
 the user, when it is retried, and when the client is updating.
 */
module ClusterAnswers {
  import opened Wrappers
  import opened ClusterMap
  import opened Cluster

  // ---------------------------------------------------------------- a submission

  /** A request not yet live: no owner means one callback and nothing more; during an update it is
      queued last; otherwise it goes to the owner of its key. */
  lemma {:induction false} SubmitOutcome(st: State, id: Id, key: string)
    requires Inv(st) && id !in st.keys
    ensures var st', n := Next(st, DoSubmit(id, key)).value, st.table[Slot(st.crc, key)];
            && st'.asked[id] == st.asked[id] + 1
            && st'.called[id] == st.called[id] + (if n.None? then 1 else 0)
            && (id in st'.keys <==> n.Some?) && (n.Some? ==> st'.keys[id] == key)
            && st'.retry == (if n.Some? && st.updating then st.retry + [id] else st.retry)
            && st'.sent == (if n.Some? && !st.updating then st.sent + [(id, n.value)] else st.sent)
  {
    hide RefsOk, PlacesOk, QueueOk, CalledOk;
  }

  /** What a submission leaves alone: requests already live, and every other id. */
  ghost predicate Kept(st: State, st': State, id: Id) {
    && (id in st.keys ==> id in st'.keys && st'.keys[id] == st.keys[id])
    && st'.called[id] == st.called[id] && st'.asked[id] == st.asked[id]
    && st.sent <= st'.sent && forall j | |st.sent| <= j < |st'.sent| :: st'.sent[j].0 != id
  }

  lemma {:induction false} SubmitKeeps(st: State, k: Id, key: string, id: Id)
    requires Shape(st) && (id == k ==> id in st.keys)
    ensures Kept(st, Submit(st, k, key), id) && (id !in st.keys ==> id !in Submit(st, k, key).keys)
  {
  }

  predicate Named(news: seq<(Id, string)>, id: Id) { exists i :: 0 <= i < |news| && news[i].0 == id }

  lemma {:induction false} KeptTwice(st: State, st1: State, st2: State, id: Id)
    requires Kept(st, st1, id) && Kept(st1, st2, id)
    ensures Kept(st, st2, id)
  {
  }

  lemma {:induction false} SubmitAllKeeps(st: State, news: seq<(Id, string)>, id: Id)
    requires Shape(st) && (id in st.keys || !Named(news, id))
    ensures Kept(st, SubmitAll(st, news), id) && (id !in st.keys ==> id !in SubmitAll(st, news).keys)
  {
    hide Shape, Submit;
    if news != [] {
      var front := news[..|news| - 1];
      if i :| 0 <= i < |front| && front[i].0 == id { assert news[i].0 == id; }
      SubmitAllKeeps(st, front, id);
      SubmitKeeps(SubmitAll(st, front), news[|news| - 1].0, news[|news| - 1].1, id);
      KeptTwice(st, SubmitAll(st, front), SubmitAll(st, news), id);
    }
  }

  // ---------------------------------------------------------------- an answer

  /** The event answers id, which is in flight, and the answer counts: it is OK, or no update is on. */
  predicate Answers(st: State, s: Step, id: Id) {
    s.DoCallback? && s.id == id && id in st.inflight && (s.ok || !st.updating)
  }

  /** At every event a live request is reported to the user, and stops being live, exactly when the
      event is its answer and the answer is OK or no update is on. */
  lemma {:induction false} ReportedIff(st: State, s: Step, id: Id)
    requires Inv(st) && id in st.keys && Next(st, s).Some?
    ensures var st' := Next(st, s).value;
            && (id !in st'.keys <==> Answers(st, s, id))
            && (id in st'.keys ==> st'.keys[id] == st.keys[id])
            && st'.called[id] == st.called[id] + (if Answers(st, s, id) then 1 else 0)
            && st'.asked[id] == st.asked[id]
  {
    hide Shape, RefsOk, PlacesOk, QueueOk, CalledOk, SubmitAll, Timer;
    match s
    case DoSubmit(k, key) =>
    case DoCallback(k, ok, news) =>
      SubmitAllInv(st, news);
      SubmitAllKeeps(st, news, id);
    case Tick(meta) => TickKeeps(st, meta);
  }

  lemma {:induction false} OneAsks(st: State, k: Id, key: string, id: Id)
    requires Shape(st)
    ensures st.asked[id] <= Submit(st, k, key).asked[id]
    ensures Submit(st, k, key).asked[id] == st.asked[id] ==>
              (id in Submit(st, k, key).keys ==> id in st.keys) && (k == id ==> id in st.keys)
  {
    hide Shape, Slot;
  }

  lemma {:induction false} SubmitAllAsks(st: State, news: seq<(Id, string)>, id: Id)
    requires Shape(st)
    ensures st.asked[id] <= SubmitAll(st, news).asked[id]
    ensures SubmitAll(st, news).asked[id] == st.asked[id] ==>
              (id in SubmitAll(st, news).keys ==> id in st.keys) && (Named(news, id) ==> id in st.keys)
  {
    hide Shape, Submit;
    if news != [] {
      var front, last := news[..|news| - 1], news[|news| - 1];
      SubmitAllAsks(st, front, id);
      OneAsks(SubmitAll(st, front), last.0, last.1, id);
      if i :| 0 <= i < |news| && news[i].0 == id {
        if i < |front| { assert front[i].0 == id; }
      }
    }
  }

  /** What the user submits inside the callback of a reported answer is submitted. */
  lemma {:induction false} NewsSubmitted(st: State, k: Id, ok: bool, news: seq<(Id, string)>, id: Id)
    requires Inv(st) && k in st.inflight && (ok || !st.updating) && Named(news, id) && id !in st.keys
    ensures Next(st, DoCallback(k, ok, news)).value.asked[id] > st.asked[id]
  {
    hide Shape, RefsOk, PlacesOk, QueueOk, CalledOk, SubmitAll;
    SubmitAllInv(st, news);
    SubmitAllAsks(st, news, id);
  }

  /** A tick reports nothing and forgets no request. */
  lemma {:induction false} TickKeeps(st: State, meta: Option<Meta>)
    requires Inv(st) && Timer(st, meta).Some?
    ensures var st' := Timer(st, meta).value;
            st'.keys == st.keys && st'.called == st.called && st'.asked == st.asked
  {
    if meta.Some? && meta.value.version > st.version && Idle(st) {
      FillShape(meta.value);
      ResubmitKeeps(Swap(st, meta.value, Load(meta.value).value), st.retry);
    }
  }

  lemma {:induction false} ResubmitKeeps(st: State, ids: seq<Id>)
    requires Shape(st) && Resubmit(st, ids).Some?
    ensures var r := Resubmit(st, ids).value; r.called == st.called && r.asked == st.asked
  {
    hide Shape, Owner;
    if ids != [] { ResubmitKeeps(st, ids[..|ids| - 1]); }
  }

  /** The event submits id, directly or inside a callback. */
  predicate Submits(s: Step, id: Id) {
    match s
    case DoSubmit(k, _) => k == id
    case DoCallback(_, _, news) => Named(news, id)
    case Tick(_) => false
  }

  /** A request that is not live, and not submitted, is neither handed to a node nor reported. */
  lemma {:induction false} NotLiveKept(st: State, s: Step, id: Id)
    requires Inv(st) && id !in st.keys && !Submits(s, id) && Next(st, s).Some?
    ensures Kept(st, Next(st, s).value, id) && id !in Next(st, s).value.keys
  {
    hide Shape, RefsOk, PlacesOk, CalledOk, SubmitAll, Timer;
    match s
    case DoSubmit(k, key) => SubmitKeeps(st, k, key, id);
    case DoCallback(k, ok, news) =>
      SubmitAllInv(st, news);
      SubmitAllKeeps(st, news, id);
      NotFlying(st, id);
    case Tick(meta) =>
      TickKeeps(st, meta);
      TickSends(st, meta, id);
  }

  lemma {:induction false} NotFlying(st: State, id: Id)
    requires Inv(st) && id !in st.keys
    ensures id !in st.inflight && id !in st.retry
  {
  }

  /** A tick hands over only queued requests, each of them once, to its key's owner in the new table. */
  lemma {:induction false} TickSends(st: State, meta: Option<Meta>, id: Id)
    requires Inv(st) && Timer(st, meta).Some?
    ensures var st' := Timer(st, meta).value;
            if Swaps(st, Tick(meta)) then SentQueue(st, st') else st'.sent == st.sent
    ensures var st' := Timer(st, meta).value;
            && st.sent <= st'.sent
            && (id !in st.retry ==> forall j | |st.sent| <= j < |st'.sent| :: st'.sent[j].0 != id)
  {
    hide Inv, Timer, SentQueue;
    if Swaps(st, Tick(meta)) {
      SwapSends(st, meta.value);
      SentOnly(st, Timer(st, meta).value, id);
    } else {
      WaitSends(st, meta);
    }
  }

  /** The queue of st was handed over, in order, each request to the owner of its key in st'. */
  ghost predicate SentQueue(st: State, st': State) {
    && |st'.sent| == |st.sent| + |st.retry| && st.sent <= st'.sent
    && forall i | 0 <= i < |st.retry| ::
         && st'.sent[|st.sent| + i].0 == st.retry[i] && st.retry[i] in st'.keys
         && st'.table[Slot(st'.crc, st'.keys[st.retry[i]])] == Some(st'.sent[|st.sent| + i].1)
  }

  lemma {:induction false} WaitSends(st: State, meta: Option<Meta>)
    requires Inv(st) && Timer(st, meta).Some? && !Swaps(st, Tick(meta))
    ensures Timer(st, meta).value.sent == st.sent
  {
    IdleIff(st);
    hide Inv, Idle;
  }

  lemma {:induction false} SwapSends(st: State, meta: Meta)
    requires Inv(st) && Swaps(st, Tick(Some(meta))) && Timer(st, Some(meta)).Some?
    ensures SentQueue(st, Timer(st, Some(meta)).value)
  {
    hide Inv, Timer, Idle, Slot, Cluster.Served, TableOf;
    IdleIff(st);
    TimerOk(st, meta);
    TimerSwaps(st, meta);
    var st' := Timer(st, Some(meta)).value;
    TargetsSent(st, st', Targets(st', st.retry));
  }

  lemma {:induction false} TargetsSent(st: State, st': State, t: seq<(Id, nat)>)
    requires Cluster.Served(st', st.retry) && t == Targets(st', st.retry) && st'.sent == st.sent + t
    ensures SentQueue(st, st')
  {
    hide Slot;
    forall i | 0 <= i < |st.retry|
      ensures st'.sent[|st.sent| + i] == t[i] && t[i].0 == st.retry[i] && st.retry[i] in st'.keys
      ensures Owner(st', st'.keys[st.retry[i]]) == Some(t[i].1)
    {
    }
  }

  lemma {:induction false} SentOnly(st: State, st': State, id: Id)
    requires SentQueue(st, st')
    ensures st.sent <= st'.sent
    ensures id !in st.retry ==> forall j | |st.sent| <= j < |st'.sent| :: st'.sent[j].0 != id
  {
    forall j | |st.sent| <= j < |st'.sent|
      ensures st'.sent[j].0 in st.retry
    {
      assert st'.sent[|st.sent| + (j - |st.sent|)].0 == st.retry[j - |st.sent|];
    }
  }

  /** The client is updating after an event exactly when the event is a tick with newer metadata that
      finds requests in flight, or it was updating and the event is not the swap. */
  lemma {:induction false} UpdatingIff(st: State, s: Step)
    requires Inv(st) && Next(st, s).Some?
    ensures Next(st, s).value.updating <==>
              || (s.Tick? && s.meta.Some? && s.meta.value.version > st.version && st.inflight != map[])
              || (st.updating && !Swaps(st, s))
  {
    hide Shape, RefsOk, PlacesOk, QueueOk, CalledOk;
    if st.updating { QueueStep(st, s); }
    IdleIff(st);
    match s
    case DoSubmit(id, key) =>
    case DoCallback(id, ok, news) =>
      SubmitAllInv(st, news);
      SubmitAllQuiet(st, news);
    case Tick(meta) =>
      if Swaps(st, s) {
        TimerOk(st, meta.value);
        TimerSwaps(st, meta.value);
      }
  }

  // ---------------------------------------------------------------- over a run

  /** Once reported, a request not submitted anew is never handed to a node or reported again. */
  lemma {:induction false} NeverAgain(st: State, steps: seq<Step>, id: Id)
    requires Inv(st) && id !in st.keys && From(st, steps).Some?
    requires forall i | 0 <= i < |steps| :: !Submits(steps[i], id)
    ensures Kept(st, From(st, steps).value, id) && id !in From(st, steps).value.keys
  {
    hide Inv, Next, Kept, Submits;
    if steps == [] {
      KeptSame(st, id);
    } else {
      var front := steps[..|steps| - 1];
      NeverAgain(st, front, id);
      NotLiveKept(From(st, front).value, steps[|steps| - 1], id);
      KeptTwice(st, From(st, front).value, From(st, steps).value, id);
    }
  }

  lemma {:induction false} KeptSame(st: State, id: Id)
    ensures Kept(st, st, id)
  {
  }

  /** A queued request stays queued and unreported until the swap. */
  lemma {:induction false} QueuedUntilSwap(st: State, steps: seq<Step>, id: Id)
    requires Inv(st) && id in st.retry && From(st, steps).Some? && forall i: nat :: !SwapsAt(st, steps, i)
    ensures var r := From(st, steps).value;
            id in r.retry && r.called[id] == st.called[id] && r.asked[id] == st.asked[id] && r.sent == st.sent
  {
    hide Inv, Next, Swaps;
    Queued(st, id);
    Stalls(st, steps);
    if steps != [] {
      var n := |steps| - 1;
      var front := steps[..n];
      forall i: nat ensures !SwapsAt(st, front, i) {
        if i < n { assert front[..i] == steps[..i] && !SwapsAt(st, steps, i); }
      }
      QueuedUntilSwap(st, front, id);
      QueuedQuiet(From(st, front).value, steps[n], id);
    }
  }

  lemma {:induction false} Queued(st: State, id: Id)
    requires Inv(st) && id in st.retry
    ensures st.updating && id in st.keys && id !in st.inflight
  {
  }

  lemma {:induction false} QueuedQuiet(st: State, s: Step, id: Id)
    requires Inv(st) && id in st.retry && Next(st, s).Some?
    ensures Next(st, s).value.called[id] == st.called[id] && Next(st, s).value.asked[id] == st.asked[id]
  {
    hide Next, Inv;
    Queued(st, id);
    ReportedIff(st, s, id);
  }

  /** What becomes of an answer, over every continuation: OK, or outside an update, it is reported at
      once and the request is never handed to a node again; a failure during an update is not
      reported, and waits in the queue until the swap. */
  lemma {:induction false} AnswerFate(st: State, id: Id, ok: bool, news: seq<(Id, string)>, steps: seq<Step>)
    requires Inv(st) && id in st.inflight
    requires From(st, [DoCallback(id, ok, news)] + steps).Some?
    ensures var r := From(st, [DoCallback(id, ok, news)] + steps).value;
            && (ok || !st.updating ==>
                  (forall i | 0 <= i < |steps| :: !Submits(steps[i], id)) ==>
                    && r.called[id] == st.called[id] + 1 && id !in r.keys
                    && forall j | |st.sent| <= j < |r.sent| :: r.sent[j].0 != id)
            && (!ok && st.updating ==>
                  (forall i: nat :: !SwapsAt(st, [DoCallback(id, ok, news)] + steps, i)) ==>
                    r.called[id] == st.called[id] && id in r.retry)
  {
    hide Inv, Next, SwapsAt, Submits, Callback;
    var s := DoCallback(id, ok, news);
    var st1 := Callback(st, id, ok, news);
    AnswerStep(st, id, ok, news);
    FromAfter(st, s, steps);
    if ok || !st.updating {
      if forall i | 0 <= i < |steps| :: !Submits(steps[i], id) {
        NeverAgain(st1, steps, id);
        var r := From(st1, steps).value;
        forall j | |st.sent| <= j < |r.sent|
          ensures r.sent[j].0 != id
        {
          if j < |st1.sent| { assert r.sent[j] == st1.sent[j]; }
        }
      }
    } else if forall i: nat :: !SwapsAt(st, [s] + steps, i) {
      NoSwapAfter(st, s, steps);
      QueuedUntilSwap(st1, steps, id);
    }
  }

  /** The answer itself. */
  lemma {:induction false} AnswerStep(st: State, id: Id, ok: bool, news: seq<(Id, string)>)
    requires Inv(st) && id in st.inflight
    ensures var s, st1 := DoCallback(id, ok, news), Callback(st, id, ok, news);
            && Next(st, s) == Some(st1) && Inv(st1)
            && st1.called[id] == st.called[id] + (if ok || !st.updating then 1 else 0)
            && (ok || !st.updating ==> id !in st1.keys)
            && (!ok && st.updating ==> st1.retry == st.retry + [id])
            && st.sent <= st1.sent && forall j | |st.sent| <= j < |st1.sent| :: st1.sent[j].0 != id
  {
    hide Shape, RefsOk, QueueOk, CalledOk, SubmitAll;
    assert id in st.keys;
    CallbackInv(st, id, ok, news);
    ReportedIff(st, DoCallback(id, ok, news), id);
    SubmitAllInv(st, news);
    SubmitAllKeeps(st, news, id);
  }

  lemma {:induction false} FromAfter(st: State, s: Step, steps: seq<Step>)
    requires Inv(st) && Next(st, s).Some? && Inv(Next(st, s).value)
    ensures From(st, [s] + steps) == From(Next(st, s).value, steps)
  {
    hide Inv, Next;
    if steps == [] {
      assert [s] + steps == [s] && [s][..0] == [];
      assert From(st, []) == Some(st);
    } else {
      var n := |steps| - 1;
      assert ([s] + steps)[..n + 1] == [s] + steps[..n];
      FromAfter(st, s, steps[..n]);
    }
  }

  lemma {:induction false} NoSwapAfter(st: State, s: Step, steps: seq<Step>)
    requires Inv(st) && Next(st, s).Some? && Inv(Next(st, s).value)
    requires forall i: nat :: !SwapsAt(st, [s] + steps, i)
    ensures forall i: nat :: !SwapsAt(Next(st, s).value, steps, i)
  {
    hide Inv, Next, Swaps, From;
    forall i: nat
      ensures !SwapsAt(Next(st, s).value, steps, i)
    {
      assert !SwapsAt(st, [s] + steps, i + 1);
      if i < |steps| {
        assert ([s] + steps)[..i + 1] == [s] + steps[..i] && ([s] + steps)[i + 1] == steps[i];
        FromAfter(st, s, steps[..i]);
      }
    }
  }
}
