/**
 server/rdma.c:781-1149: which events end a tiering request, make it wait and give its turn up,
 command by command, and what a finished request has gone through.
 */
module TieringEnds {
  import opened Tiering

  /** A request in its handler or waiting for a callback. */
  predicate Active(st: State, id: Id) {
    id in st.reqs && st.reqs[id].pc in {Handler, AwaitBackend, AwaitRdma}
  }

  /** The event answers the request: a handler that has the answer at hand or cannot post, a backend
      callback, or an RDMA completion. DEL is never answered by its handler. */
  predicate Ends(st: State, s: Step, id: Id) {
    Active(st, id) && Moves(st, s, id) &&
    match (s, st.reqs[id].cmd)
    case (Handle(_, quick, posted), GET) => quick && !posted
    case (Handle(_, quick, posted), SET) => quick || !posted
    case (Handle(_, quick, posted), TEST) => quick
    case (BackendCb(_, ok, posted), GET) => !ok || !posted
    case (BackendCb(_, ok, posted), _) => true
    case (RdmaCb(_, backend), GET) => true
    case (RdmaCb(_, backend), SET) => !backend
    case _ => false
  }

  /** The event hands the request to the backend. */
  predicate AsksBackend(st: State, s: Step, id: Id) {
    Active(st, id) && Moves(st, s, id) &&
    match (s, st.reqs[id].cmd)
    case (Handle(_, quick, _), GET) => !quick
    case (Handle(_, quick, _), TEST) => !quick
    case (Handle(_, _, _), DEL) => true
    case (RdmaCb(_, backend), SET) => backend
    case _ => false
  }

  /** The event posts RDMA for the request. */
  predicate Posts(st: State, s: Step, id: Id) {
    Active(st, id) && Moves(st, s, id) &&
    match (s, st.reqs[id].cmd)
    case (Handle(_, quick, posted), GET) => quick && posted
    case (Handle(_, quick, posted), SET) => !quick && posted
    case (BackendCb(_, ok, posted), GET) => ok && posted
    case _ => false
  }

  /** The event gives the turn up: a GET does so before its data goes out, the others at the end. */
  predicate GivesUp(st: State, s: Step, id: Id) {
    Active(st, id) && Moves(st, s, id) &&
    match (s, st.reqs[id].cmd)
    case (Handle(_, quick, _), GET) => quick
    case (BackendCb(_, _, _), GET) => true
    case (RdmaCb(_, _), GET) => false
    case _ => Ends(st, s, id)
  }

  // ---------------------------------------------------------------- one event

  lemma {:induction false} ExitSelf(st: State, id: Id)
    requires Inv(st) && id in st.reqs && st.reqs[id].execute
    ensures id in Exit(st, id).reqs
    ensures Exit(st, id).reqs[id] == st.reqs[id].(execute := false, exits := st.reqs[id].exits + 1)
  {
    InvAt(st, id);
    hide Inv, HeadSane;
    var h := HeadOf(st, st.reqs[id].bucket);
    if h.pending != [] { assert h.pending[0] in h.pending; }
  }

  lemma {:induction false} ExitOther(st: State, a: Id, id: Id)
    requires Inv(st) && a in st.reqs && st.reqs[a].execute && id in st.reqs && a != id && st.reqs[id].pc != Waiting
    ensures id in Exit(st, a).reqs && Exit(st, a).reqs[id] == st.reqs[id]
  {
    InvAt(st, a);
    InvAt(st, id);
    hide Inv, HeadSane;
    var h := HeadOf(st, st.reqs[a].bucket);
    if h.pending != [] {
      PendingHead(h);
      assert h.pending[0] in h.pending && h.pending[0] in st.reqs && st.reqs[h.pending[0]].bucket == st.reqs[a].bucket;
    }
  }

  /** An event of the request: where it stands afterwards, and whether it has given its turn up. */
  lemma {:induction false} Outcome(st: State, s: Step, id: Id)
    requires Inv(st) && Active(st, id) && Moves(st, s, id)
    ensures id in Next(st, s).reqs
    ensures var r, r' := st.reqs[id], Next(st, s).reqs[id];
            && r'.cmd == r.cmd
            && (r'.pc == Done <==> Ends(st, s, id))
            && (r'.pc == AwaitBackend <==> AsksBackend(st, s, id))
            && (r'.pc == AwaitRdma <==> Posts(st, s, id))
            && r'.exits == r.exits + (if GivesUp(st, s, id) then 1 else 0)
  {
    hide Inv, HeadOf, Exit, Enter;
    HandlerInv(st, id);
    if st.reqs[id].execute { ExitSelf(st, id); }
  }

  /** Other events leave an active or finished request as it is. */
  lemma {:induction false} Untouched(st: State, s: Step, id: Id)
    requires Inv(st) && id in st.reqs && st.reqs[id].pc in {Handler, AwaitBackend, AwaitRdma, Done}
    requires !Moves(st, s, id)
    ensures id in Next(st, s).reqs && Next(st, s).reqs[id] == st.reqs[id]
  {
    hide Inv, HeadOf, Exit;
    match s
    case Arrive(a, b, cmd) =>
    case Call(a) =>
    case Mark(a) =>
    case Resume(a) =>
    case Handle(a, _, _) => if a != id { OtherMoves(st, a, id); }
    case BackendCb(a, _, _) => if a != id { OtherMoves(st, a, id); }
    case RdmaCb(a, _) => if a != id { OtherMoves(st, a, id); }
  }

  lemma {:induction false} OtherMoves(st: State, a: Id, id: Id)
    requires Inv(st) && id in st.reqs && st.reqs[id].pc != Waiting && a != id
    ensures a in st.reqs && st.reqs[a].execute ==>
              && id in Exit(st, a).reqs && Exit(st, a).reqs[id] == st.reqs[id]
              && a in Exit(st, a).reqs && !Exit(st, a).reqs[a].execute
    ensures a in st.reqs && st.reqs[a].pc in {Handler, AwaitBackend} ==> st.reqs[a].execute
  {
    if a in st.reqs {
      HandlerInv(st, a);
      hide Inv, Exit;
      if st.reqs[a].execute {
        ExitOther(st, a, id);
        ExitSelf(st, a);
      }
    }
  }

  /** Before its handler runs, a request does not wait for callbacks, is not finished, and has given
      nothing up. */
  lemma {:induction false} Early(st: State, s: Step, id: Id)
    requires Inv(st) && Inv(Next(st, s)) && (id in st.reqs ==> st.reqs[id].pc in {New, Waiting, Popped, Resumed})
    ensures id in Next(st, s).reqs ==> Next(st, s).reqs[id].pc in {New, Waiting, Popped, Resumed, Handler}
    ensures id in Next(st, s).reqs ==> Next(st, s).reqs[id].exits == 0
  {
    hide Inv, Next;
    if id in st.reqs { NextEarly(st, s, id); } else if id in Next(st, s).reqs { NextNew(st, s, id); }
    if id in Next(st, s).reqs { InvAt(Next(st, s), id); }
  }

  /** What giving a turn up does to any request. */
  lemma {:induction false} ExitAny(st: State, a: Id, id: Id)
    requires a in st.reqs && id in st.reqs
    ensures id in Exit(st, a).reqs && Exit(st, a).reqs[id].cmd == st.reqs[id].cmd
    ensures Exit(st, a).reqs[id].pc == st.reqs[id].pc || Exit(st, a).reqs[id].pc == Popped
  {
    hide HeadOf;
  }

  lemma {:induction false} NextEarly(st: State, s: Step, id: Id)
    requires id in st.reqs && st.reqs[id].pc in {New, Waiting, Popped, Resumed}
    ensures id in Next(st, s).reqs && Next(st, s).reqs[id].pc in {New, Waiting, Popped, Resumed, Handler}
  {
    hide HeadOf, Exit;
    match s
    case Arrive(a, b, cmd) =>
    case Call(a) =>
    case Mark(a) =>
    case Resume(a) =>
    case Handle(a, _, _) => ExitTwice(st, a, id);
    case BackendCb(a, _, _) => ExitTwice(st, a, id);
    case RdmaCb(a, _) => ExitTwice(st, a, id);
  }

  lemma {:induction false} ExitTwice(st: State, a: Id, id: Id)
    requires id in st.reqs
    ensures a in st.reqs ==>
              var st1 := Exit(st, a);
              && id in st1.reqs && a in st1.reqs && st1.reqs[id].cmd == st.reqs[id].cmd
              && (st1.reqs[id].pc == st.reqs[id].pc || st1.reqs[id].pc == Popped)
              && id in Exit(st1, a).reqs && a in Exit(st1, a).reqs && Exit(st1, a).reqs[id].cmd == st.reqs[id].cmd
              && (Exit(st1, a).reqs[id].pc == st.reqs[id].pc || Exit(st1, a).reqs[id].pc == Popped)
  {
    hide Exit;
    if a in st.reqs {
      ExitAny(st, a, id);
      ExitAny(st, a, a);
      ExitAny(Exit(st, a), a, id);
      ExitAny(Exit(st, a), a, a);
    }
  }

  /** Only its arrival brings a request in. */
  lemma {:induction false} NextNew(st: State, s: Step, id: Id)
    requires id !in st.reqs && id in Next(st, s).reqs
    ensures Next(st, s).reqs[id].pc == New
  {
    hide HeadOf;
  }

  lemma {:induction false} NextCmd(st: State, s: Step, id: Id)
    requires id in st.reqs
    ensures id in Next(st, s).reqs && Next(st, s).reqs[id].cmd == st.reqs[id].cmd
  {
    hide HeadOf, Exit;
    match s
    case Arrive(a, b, cmd) =>
    case Call(a) =>
    case Mark(a) =>
    case Resume(a) =>
    case Handle(a, _, _) => ExitTwice(st, a, id);
    case BackendCb(a, _, _) => ExitTwice(st, a, id);
    case RdmaCb(a, _) => ExitTwice(st, a, id);
  }

  // ---------------------------------------------------------------- over a run

  /** Event j of the run ends, hands over, posts or gives up. */
  ghost predicate EndsAt(steps: seq<Step>, id: Id, j: int) {
    0 <= j < |steps| && Ends(Run(steps[..j]), steps[j], id)
  }

  ghost predicate AsksAt(steps: seq<Step>, id: Id, j: int) {
    0 <= j < |steps| && AsksBackend(Run(steps[..j]), steps[j], id)
  }

  ghost predicate PostsAt(steps: seq<Step>, id: Id, j: int) {
    0 <= j < |steps| && Posts(Run(steps[..j]), steps[j], id)
  }

  ghost predicate GivesUpAt(steps: seq<Step>, id: Id, j: int) {
    0 <= j < |steps| && GivesUp(Run(steps[..j]), steps[j], id)
  }

  lemma {:induction false} Earlier(front: seq<Step>, s: Step, id: Id, j: int)
    requires 0 <= j < |front|
    ensures EndsAt(front + [s], id, j) <==> EndsAt(front, id, j)
    ensures AsksAt(front + [s], id, j) <==> AsksAt(front, id, j)
    ensures PostsAt(front + [s], id, j) <==> PostsAt(front, id, j)
    ensures GivesUpAt(front + [s], id, j) <==> GivesUpAt(front, id, j)
  {
    hide Ends, AsksBackend, Posts, GivesUp, Run;
    assert (front + [s])[..j] == front[..j];
  }

  /** What the events of a run say about a request. */
  ghost predicate Tells(steps: seq<Step>, id: Id) {
    && (At(Run(steps), id, Done) <==> exists j :: EndsAt(steps, id, j))
    && (At(Run(steps), id, AwaitBackend) ==> exists j :: AsksAt(steps, id, j))
    && (At(Run(steps), id, AwaitRdma) ==> exists j :: PostsAt(steps, id, j))
    && ((id in Run(steps).reqs && Run(steps).reqs[id].exits > 0) <==> exists j :: GivesUpAt(steps, id, j))
  }

  /** In every run: a request is finished exactly if some event ended it, waits for the backend or for
      RDMA only if some event said so, and has given its turn up exactly if some event did. */
  lemma {:induction false} RunTells(steps: seq<Step>, id: Id)
    ensures Tells(steps, id)
  {
    hide Next, Inv, Ends, AsksBackend, Posts, GivesUp;
    if steps == [] {
      assert Run([]) == State(map[], map[]);
    } else {
      var front, s := steps[..|steps| - 1], steps[|steps| - 1];
      assert steps == front + [s];
      RunTells(front, id);
      RunInv(front);
      RunInv(steps);
      StepTells(front, s, id);
    }
  }

  /** The last event of the run, with what the earlier ones said. */
  lemma {:induction false} StepTells(front: seq<Step>, s: Step, id: Id)
    requires Tells(front, id) && Inv(Run(front)) && Inv(Run(front + [s]))
    ensures Tells(front + [s], id)
  {
    hide Next, Inv, Run, Ends, AsksBackend, Posts, GivesUp, EndsAt, AsksAt, PostsAt, GivesUpAt;
    var st, steps := Run(front), front + [s];
    LastEvent(front, s, id);
    forall j | 0 <= j < |front|
      ensures EndsAt(steps, id, j) <==> EndsAt(front, id, j)
      ensures AsksAt(steps, id, j) <==> AsksAt(front, id, j)
      ensures PostsAt(steps, id, j) <==> PostsAt(front, id, j)
      ensures GivesUpAt(steps, id, j) <==> GivesUpAt(front, id, j)
    {
      Earlier(front, s, id, j);
    }
    Within(front, id);
    Within(steps, id);
    Change(st, s, id);
  }

  lemma {:induction false} LastEvent(front: seq<Step>, s: Step, id: Id)
    ensures Run(front + [s]) == Next(Run(front), s)
    ensures EndsAt(front + [s], id, |front|) <==> Ends(Run(front), s, id)
    ensures AsksAt(front + [s], id, |front|) <==> AsksBackend(Run(front), s, id)
    ensures PostsAt(front + [s], id, |front|) <==> Posts(Run(front), s, id)
    ensures GivesUpAt(front + [s], id, |front|) <==> GivesUp(Run(front), s, id)
  {
    hide Next, Ends, AsksBackend, Posts, GivesUp;
    assert (front + [s])[..|front|] == front;
  }

  lemma {:induction false} Within(steps: seq<Step>, id: Id)
    ensures forall j | EndsAt(steps, id, j) :: 0 <= j < |steps|
    ensures forall j | AsksAt(steps, id, j) :: 0 <= j < |steps|
    ensures forall j | PostsAt(steps, id, j) :: 0 <= j < |steps|
    ensures forall j | GivesUpAt(steps, id, j) :: 0 <= j < |steps|
  {
  }

  /** One event, whatever the request is at. */
  lemma {:induction false} Change(st: State, s: Step, id: Id)
    requires Inv(st) && Inv(Next(st, s))
    ensures var st' := Next(st, s);
            && (At(st', id, Done) <==> At(st, id, Done) || Ends(st, s, id))
            && (At(st', id, AwaitBackend) ==> At(st, id, AwaitBackend) || AsksBackend(st, s, id))
            && (At(st', id, AwaitRdma) ==> At(st, id, AwaitRdma) || Posts(st, s, id))
            && (id in st.reqs ==> id in st'.reqs)
            && ((id in st'.reqs && st'.reqs[id].exits > 0) <==>
                  (id in st.reqs && st.reqs[id].exits > 0) || GivesUp(st, s, id))
  {
    hide Next, Inv;
    if id in st.reqs {
      NextCmd(st, s, id);
      PcCases(st.reqs[id].pc);
    }
    if Active(st, id) && Moves(st, s, id) {
      Outcome(st, s, id);
    } else if id in st.reqs && st.reqs[id].pc in {Handler, AwaitBackend, AwaitRdma, Done} {
      Untouched(st, s, id);
    } else {
      Early(st, s, id);
      if id in st.reqs { InvAt(st, id); }
    }
  }

  lemma {:induction false} PcCases(pc: Pc)
    ensures pc in {New, Waiting, Popped, Resumed} || pc in {Handler, AwaitBackend, AwaitRdma, Done}
  {
    match pc
    case New => case Waiting => case Popped => case Resumed =>
    case Handler => case AwaitBackend => case AwaitRdma => case Done =>
  }

  /** The turn is held from its grant until an event gives it up. */
  lemma {:induction false} TurnHeld(steps: seq<Step>, id: Id)
    requires id in Run(steps).reqs && Granted(Run(steps).reqs[id])
    ensures Holds(Run(steps).reqs[id]) <==> !exists j :: GivesUpAt(steps, id, j)
  {
    hide GivesUpAt, Run;
    RunInv(steps);
    RunTells(steps, id);
    InvAt(Run(steps), id);
  }

  /** A finished DEL has had its own backend callback, after its handler asked the backend; a finished
      TEST likewise unless the answer was at hand. */
  lemma {:induction false} AnsweredByBackend(steps: seq<Step>, id: Id)
    requires At(Run(steps), id, Done) && Run(steps).reqs[id].cmd in {DEL, TEST}
    ensures (exists i, j :: 0 <= i < j < |steps| && steps[i].Handle? && AsksAt(steps, id, i)
                            && steps[j].BackendCb? && EndsAt(steps, id, j))
            || (Run(steps).reqs[id].cmd == TEST
                && exists j :: EndsAt(steps, id, j) && steps[j].Handle? && steps[j].quick)
  {
    hide Run, Ends, AsksBackend, Moves;
    RunTells(steps, id);
    var j :| EndsAt(steps, id, j);
    EndKind(Run(steps[..j]), steps[j], id);
    SameCmd(steps, id, j);
    if steps[j].BackendCb? {
      RunTells(steps[..j], id);
      var i :| AsksAt(steps[..j], id, i);
      assert steps[..j][..i] == steps[..i] && AsksAt(steps, id, i);
      AskKind(Run(steps[..i]), steps[i], id);
      SameCmd(steps, id, i);
      assert 0 <= i < j < |steps| && steps[i].Handle? && AsksAt(steps, id, i)
             && steps[j].BackendCb? && EndsAt(steps, id, j);
    }
  }

  /** A finished SET whose answer was not at hand has had an RDMA completion of its own after its
      handler posted, and, if that asked the backend, a backend callback after it. */
  lemma {:induction false} SetAnswered(steps: seq<Step>, id: Id)
    requires At(Run(steps), id, Done) && Run(steps).reqs[id].cmd == SET
    ensures || (exists j :: EndsAt(steps, id, j) && steps[j].Handle? && (steps[j].quick || !steps[j].posted))
            || (exists i, j :: 0 <= i < j < |steps| && PostsAt(steps, id, i)
                               && EndsAt(steps, id, j) && steps[j].RdmaCb? && !steps[j].backend)
            || (exists i, j :: 0 <= i < j < |steps| && AsksAt(steps, id, i) && steps[i].RdmaCb? && steps[i].backend
                               && EndsAt(steps, id, j) && steps[j].BackendCb?)
  {
    hide Run, Ends, AsksBackend, Posts, Moves;
    RunTells(steps, id);
    var j :| EndsAt(steps, id, j);
    EndKind(Run(steps[..j]), steps[j], id);
    SameCmd(steps, id, j);
    RunTells(steps[..j], id);
    if steps[j].BackendCb? {
      var i :| AsksAt(steps[..j], id, i);
      assert steps[..j][..i] == steps[..i] && AsksAt(steps, id, i);
      AskKind(Run(steps[..i]), steps[i], id);
      SameCmd(steps, id, i);
    } else if steps[j].RdmaCb? {
      var i :| PostsAt(steps[..j], id, i);
      assert steps[..j][..i] == steps[..i] && PostsAt(steps, id, i);
    }
  }

  /** A finished GET whose answer was not sent by its handler has had a failing backend callback after
      its handler asked, or an RDMA completion of its own after a post. */
  lemma {:induction false} GetAnswered(steps: seq<Step>, id: Id)
    requires At(Run(steps), id, Done) && Run(steps).reqs[id].cmd == GET
    ensures || (exists j :: EndsAt(steps, id, j) && steps[j].Handle? && steps[j].quick && !steps[j].posted)
            || (exists i, j :: 0 <= i < j < |steps| && AsksAt(steps, id, i) && steps[i].Handle?
                               && EndsAt(steps, id, j) && steps[j].BackendCb? && (!steps[j].ok || !steps[j].posted))
            || (exists i, j :: 0 <= i < j < |steps| && PostsAt(steps, id, i)
                               && EndsAt(steps, id, j) && steps[j].RdmaCb?)
  {
    hide Run, Ends, AsksBackend, Posts, Moves;
    RunTells(steps, id);
    var j :| EndsAt(steps, id, j);
    EndKind(Run(steps[..j]), steps[j], id);
    SameCmd(steps, id, j);
    RunTells(steps[..j], id);
    if steps[j].BackendCb? {
      var i :| AsksAt(steps[..j], id, i);
      assert steps[..j][..i] == steps[..i] && AsksAt(steps, id, i);
      AskKind(Run(steps[..i]), steps[i], id);
      SameCmd(steps, id, i);
    } else if steps[j].RdmaCb? {
      var i :| PostsAt(steps[..j], id, i);
      assert steps[..j][..i] == steps[..i] && PostsAt(steps, id, i);
    }
  }

  lemma {:induction false} EndKind(st: State, s: Step, id: Id)
    requires Ends(st, s, id)
    ensures s.BackendCb? ==> At(st, id, AwaitBackend)
    ensures s.RdmaCb? ==> At(st, id, AwaitRdma) && (st.reqs[id].cmd == SET ==> !s.backend)
    ensures s.Handle? || s.BackendCb? || s.RdmaCb?
    ensures id in st.reqs && (st.reqs[id].cmd == DEL ==> s.BackendCb?)
    ensures st.reqs[id].cmd == TEST ==> s.BackendCb? || (s.Handle? && s.quick)
    ensures st.reqs[id].cmd == SET && s.Handle? ==> s.quick || !s.posted
    ensures st.reqs[id].cmd == GET && s.Handle? ==> s.quick && !s.posted
    ensures st.reqs[id].cmd == GET && s.BackendCb? ==> !s.ok || !s.posted
  {
  }

  lemma {:induction false} AskKind(st: State, s: Step, id: Id)
    requires AsksBackend(st, s, id)
    ensures id in st.reqs && (st.reqs[id].cmd == SET ==> s.RdmaCb? && s.backend)
    ensures st.reqs[id].cmd != SET ==> s.Handle?
  {
  }

  /** A request keeps its command. */
  lemma {:induction false} SameCmd(steps: seq<Step>, id: Id, j: int)
    requires 0 <= j <= |steps| && id in Run(steps[..j]).reqs
    ensures id in Run(steps).reqs && Run(steps).reqs[id].cmd == Run(steps[..j]).reqs[id].cmd
  {
    hide Next;
    if j == |steps| {
      assert steps[..j] == steps;
    } else {
      var front := steps[..|steps| - 1];
      assert front[..j] == steps[..j];
      SameCmd(front, id, j);
      NextCmd(Run(front), steps[|steps| - 1], id);
    }
  }
}
