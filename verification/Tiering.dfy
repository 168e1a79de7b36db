/**
 Turn-taking of tiering requests on one hash bucket: priskv_key_serialize_enter/exit
 (server/kv.c:557-597) and the request handlers and callbacks that use them
 (server/rdma.c:781-1149). A state machine over the atomic steps of any number of
 requests and threads; what keys, backends and the network answer is chosen by the step.
 */
module Tiering {

  type Id = nat
  type Bucket = nat

  datatype Cmd = GET | SET | TEST | DEL

  /** Where a request stands: not yet at the lock; in the wait list; taken off it by an exiting
      request; marked and submitted to its thread; running its handler; waiting for the
      backend or for RDMA completion; finished. */
  datatype Pc = New | Waiting | Popped | Resumed | Handler | AwaitBackend | AwaitRdma | Done

  datatype Req = Req(bucket: Bucket, cmd: Cmd, pc: Pc, execute: bool, exits: nat)

  /** priskv_tiering_wait_head, with the request the turn belongs to and the order of entries
      and grants as history. */
  datatype Head = Head(inflight: bool, pending: seq<Id>, owner: set<Id>, entered: seq<Id>, granted: seq<Id>)

  const FREE: Head := Head(false, [], {}, [], [])

  datatype State = State(reqs: map<Id, Req>, heads: map<Bucket, Head>)

  function HeadOf(st: State, b: Bucket): Head {
    if b in st.heads then st.heads[b] else FREE
  }

  function With(st: State, id: Id, r: Req): State { st.(reqs := st.reqs[id := r]) }

  // ---------------------------------------------------------------- primitives

  /** priskv_key_serialize_enter, called with execute false; line 572 or 565-567. */
  function Enter(st: State, id: Id): State
    requires id in st.reqs
  {
    var r, h := st.reqs[id], HeadOf(st, st.reqs[id].bucket);
    if h.inflight then
      State(st.reqs[id := r.(pc := Waiting)],
            st.heads[r.bucket := h.(pending := h.pending + [id], entered := h.entered + [id])])
    else
      State(st.reqs[id := r.(pc := Handler, execute := true)],
            st.heads[r.bucket := h.(inflight := true, owner := {id}, entered := h.entered + [id],
                                    granted := h.granted + [id])])
  }

  /** priskv_key_serialize_exit up to the unlock: the turn is dropped or goes to the first waiter. */
  function Exit(st: State, id: Id): State
    requires id in st.reqs
  {
    var r, h := st.reqs[id], HeadOf(st, st.reqs[id].bucket);
    var reqs := st.reqs[id := r.(execute := false, exits := r.exits + 1)];
    if h.pending == [] then
      State(reqs, st.heads[r.bucket := h.(inflight := false, owner := {})])
    else
      var next := h.pending[0];
      State(if next in reqs then reqs[next := reqs[next].(pc := Popped)] else reqs,
            st.heads[r.bucket := h.(pending := h.pending[1..], owner := {next}, granted := h.granted + [next])])
  }

  /** `if (treq->execute) exit` */
  function Release(st: State, id: Id): State
    requires id in st.reqs
  {
    if st.reqs[id].execute then Exit(st, id) else st
  }

  function Goto(st: State, id: Id, pc: Pc): State
    requires id in st.reqs
  {
    With(st, id, st.reqs[id].(pc := pc))
  }

  /** priskv_tiering_finish */
  function Finish(st: State, id: Id): State
    requires id in st.reqs
  {
    var st1 := Release(st, id);
    if id in st1.reqs then Goto(st1, id, Done) else st1
  }

  // ---------------------------------------------------------------- steps

  datatype Step =
    | Arrive(id: Id, bucket: Bucket, cmd: Cmd)
    | Call(id: Id)             // the handler's first call: try to enter
    | Mark(id: Id)             // the exiting thread sets execute and submits the request
    | Resume(id: Id)           // its own thread picks it up
    | Handle(id: Id, quick: bool, posted: bool)
    | BackendCb(id: Id, ok: bool, posted: bool)
    | RdmaCb(id: Id, backend: bool)

  /** The handler body once the turn is held (priskv_tiering_get/set/test/del). `quick`: the
      answer is at hand (cached, or an early error); `posted`: RDMA was posted. */
  function HandleBody(st: State, id: Id, quick: bool, posted: bool): State
    requires id in st.reqs
  {
    match st.reqs[id].cmd
    case GET =>
      if !quick then Goto(st, id, AwaitBackend)
      else if posted then (var st1 := Release(st, id); if id in st1.reqs then Goto(st1, id, AwaitRdma) else st1)
      else Finish(st, id)
    case SET => if quick || !posted then Finish(st, id) else Goto(st, id, AwaitRdma)
    case TEST => if quick then Finish(st, id) else Goto(st, id, AwaitBackend)
    case DEL => Goto(st, id, AwaitBackend)
  }

  /** priskv_tiering_{get,set,test,del}_backend_cb */
  function BackendBody(st: State, id: Id, ok: bool, posted: bool): State
    requires id in st.reqs
  {
    if st.reqs[id].cmd != GET || !ok then Finish(st, id)
    else
      var st1 := Release(st, id);
      if id !in st1.reqs then st1
      else if posted then Goto(st1, id, AwaitRdma)
      else Finish(st1, id)
  }

  /** priskv_tiering_get_rdma_complete_cb and priskv_tiering_set_rdma_complete_cb */
  function RdmaBody(st: State, id: Id, backend: bool): State
    requires id in st.reqs
  {
    if st.reqs[id].cmd == GET then Goto(st, id, Done)
    else if backend then Goto(st, id, AwaitBackend)
    else Finish(st, id)
  }

  function At(st: State, id: Id, pc: Pc): bool { id in st.reqs && st.reqs[id].pc == pc }

  function Next(st: State, s: Step): State {
    match s
    case Arrive(id, b, cmd) => if id in st.reqs then st else With(st, id, Req(b, cmd, New, false, 0))
    case Call(id) => if At(st, id, New) then Enter(st, id) else st
    case Mark(id) => if At(st, id, Popped) then With(st, id, st.reqs[id].(pc := Resumed, execute := true)) else st
    case Resume(id) => if At(st, id, Resumed) then Goto(st, id, Handler) else st
    case Handle(id, quick, posted) => if At(st, id, Handler) then HandleBody(st, id, quick, posted) else st
    case BackendCb(id, ok, posted) => if At(st, id, AwaitBackend) then BackendBody(st, id, ok, posted) else st
    case RdmaCb(id, backend) => if At(st, id, AwaitRdma) then RdmaBody(st, id, backend) else st
  }

  function Run(steps: seq<Step>): State {
    if steps == [] then State(map[], map[]) else Next(Run(steps[..|steps| - 1]), steps[|steps| - 1])
  }

  // ---------------------------------------------------------------- invariant

  /** The request has the turn of its bucket. */
  predicate Holds(r: Req) {
    r.pc == Popped || r.execute
  }

  predicate Granted(r: Req) { r.pc != New && r.pc != Waiting }

  ghost predicate ReqOk(st: State, id: Id)
    requires id in st.reqs
  {
    var r := st.reqs[id];
    var h := HeadOf(st, r.bucket);
    && (Holds(r) <==> id in h.owner)
    && (r.pc == Waiting <==> id in h.pending)
    && (id in h.entered <==> r.pc != New)
    && (r.pc in {New, Waiting, Popped, Done} ==> !r.execute)
    && (r.pc in {Resumed, Handler, AwaitBackend} ==> r.execute)
    && (r.pc == AwaitRdma ==> r.execute == (r.cmd == SET) && (r.cmd == GET || r.cmd == SET))
    && r.exits == (if Granted(r) && !Holds(r) then 1 else 0)
  }

  ghost predicate HeadSane(h: Head) {
    && (h.inflight <==> h.owner != {}) && |h.owner| <= 1
    && (!h.inflight ==> h.pending == [])
    && h.entered == h.granted + h.pending
    && forall i, j | 0 <= i < j < |h.entered| :: h.entered[i] != h.entered[j]
  }

  ghost predicate HeadOk(st: State, b: Bucket) {
    var h := HeadOf(st, b);
    && HeadSane(h)
    && (forall id | id in h.entered :: id in st.reqs && st.reqs[id].bucket == b)
    && (forall id | id in h.owner :: id in st.reqs && st.reqs[id].bucket == b)
  }

  ghost predicate Inv(st: State) {
    && (forall id | id in st.reqs :: ReqOk(st, id))
    && (forall b: Bucket :: HeadOk(st, b))
  }

  lemma {:induction false} InvAt(st: State, id: Id)
    requires Inv(st) && id in st.reqs
    ensures ReqOk(st, id) && HeadOk(st, st.reqs[id].bucket)
  {
  }

  lemma {:induction false} OnlyOwner(st: State, id: Id)
    requires Inv(st) && id in st.reqs && Holds(st.reqs[id])
    ensures HeadOf(st, st.reqs[id].bucket).owner == {id}
    ensures HeadOf(st, st.reqs[id].bucket).inflight
  {
    var h := HeadOf(st, st.reqs[id].bucket);
    assert ReqOk(st, id) && HeadOk(st, st.reqs[id].bucket);
    Singleton(h.owner, id);
  }

  lemma {:induction false} Singleton(s: set<Id>, x: Id)
    requires x in s && |s| <= 1
    ensures s == {x}
  {
    assert |s - {x}| == |s| - 1;
    assert s == s - {x} + {x};
  }

  /** Other requests and other buckets are untouched by a change to one request and its head. */
  lemma {:induction false} OthersOk(st: State, st': State, b: Bucket, changed: set<Id>)
    requires Inv(st) && st'.reqs.Keys == st.reqs.Keys + changed
    requires forall id | id in st.reqs && id !in changed :: st'.reqs[id] == st.reqs[id]
    requires forall id | id in changed :: st'.reqs[id].bucket == b && (id in st.reqs ==> st.reqs[id].bucket == b)
    requires forall c: Bucket | c != b :: HeadOf(st', c) == HeadOf(st, c)
    requires forall id | id in st.reqs && id !in changed && st.reqs[id].bucket == b ::
               var h, h' := HeadOf(st, b), HeadOf(st', b);
               (id in h'.owner <==> id in h.owner) && (id in h'.pending <==> id in h.pending)
               && (id in h'.entered <==> id in h.entered)
    requires (forall id | id in changed :: ReqOk(st', id)) && HeadOk(st', b)
    ensures Inv(st')
  {
    forall id | id in st'.reqs
      ensures ReqOk(st', id)
    {
      if id !in changed { assert ReqOk(st, id); }
    }
    forall c: Bucket
      ensures HeadOk(st', c)
    {
      if c != b { assert HeadOk(st, c); }
    }
  }

  lemma {:induction false} ArriveInv(st: State, id: Id, b: Bucket, cmd: Cmd)
    requires Inv(st) && id !in st.reqs
    ensures Inv(With(st, id, Req(b, cmd, New, false, 0)))
  {
    assert HeadOk(st, b);
    hide Inv;
    OthersOk(st, With(st, id, Req(b, cmd, New, false, 0)), b, {id});
  }

  lemma {:induction false} EnterInv(st: State, id: Id)
    requires Inv(st) && At(st, id, New)
    ensures Inv(Enter(st, id))
  {
    hide Inv, HeadSane;
    var b := st.reqs[id].bucket;
    InvAt(st, id);
    EnterSane(HeadOf(st, b), id);
    EnterParts(st, id);
    OthersOk(st, Enter(st, id), b, {id}) by { hide ReqOk, HeadOk; }
  }

  lemma {:induction false} EnterParts(st: State, id: Id)
    requires At(st, id, New) && ReqOk(st, id) && HeadOk(st, st.reqs[id].bucket)
    requires id !in HeadOf(st, st.reqs[id].bucket).entered
    requires HeadSane(HeadOf(Enter(st, id), st.reqs[id].bucket))
    ensures ReqOk(Enter(st, id), id) && HeadOk(Enter(st, id), st.reqs[id].bucket)
    ensures var h, h' := HeadOf(st, st.reqs[id].bucket), HeadOf(Enter(st, id), st.reqs[id].bucket);
            forall k | k != id :: (k in h'.pending <==> k in h.pending) && (k in h'.entered <==> k in h.entered)
                                  && (k in h'.owner <==> k in h.owner)
  {
    hide HeadSane;
    var h := HeadOf(st, st.reqs[id].bucket);
    assert h.inflight || h.owner == {} by { SaneOwner(h); }
  }

  lemma {:induction false} SaneOwner(h: Head)
    requires HeadSane(h)
    ensures h.inflight || h.owner == {}
  {
  }

  lemma {:induction false} EnterSane(h: Head, id: Id)
    requires HeadSane(h) && id !in h.entered
    ensures h.inflight ==> HeadSane(h.(pending := h.pending + [id], entered := h.entered + [id]))
    ensures !h.inflight ==> HeadSane(h.(inflight := true, owner := {id}, entered := h.entered + [id],
                                        granted := h.granted + [id]))
    ensures !h.inflight ==> h.owner == {} && h.pending == []
  {
    assert h.entered + [id] == h.granted + (h.pending + [id]);
    if !h.inflight { assert h.entered + [id] == h.granted + [id] + []; }
  }

  /** A request that keeps its turn moves on. */
  lemma {:induction false} MoveInv(st: State, id: Id, r: Req)
    requires Inv(st) && id in st.reqs && r.bucket == st.reqs[id].bucket
    requires Granted(st.reqs[id]) && Granted(r) && Holds(r) == Holds(st.reqs[id]) && r.exits == st.reqs[id].exits
    requires r.pc in {New, Waiting, Popped, Done} ==> !r.execute
    requires r.pc in {Resumed, Handler, AwaitBackend} ==> r.execute
    requires r.pc == AwaitRdma ==> r.execute == (r.cmd == SET) && (r.cmd == GET || r.cmd == SET)
    ensures Inv(With(st, id, r))
  {
    assert ReqOk(st, id) && HeadOk(st, r.bucket);
    OthersOk(st, With(st, id, r), r.bucket, {id});
  }

  /** The holder exits and moves to a state without the turn. */
  lemma {:induction false} ExitInv(st: State, id: Id, pc: Pc)
    requires Inv(st) && id in st.reqs && st.reqs[id].execute
    requires pc == Done || (pc == AwaitRdma && st.reqs[id].cmd == GET)
    ensures id in Exit(st, id).reqs && Inv(Goto(Exit(st, id), id, pc))
  {
    hide Inv, HeadSane;
    var b := st.reqs[id].bucket;
    var h := HeadOf(st, b);
    OnlyOwner(st, id);
    InvAt(st, id);
    if h.pending == [] {
      FreeSane(h);
      OthersOk(st, Goto(Exit(st, id), id, pc), b, {id});
    } else {
      HandOver(st, id, pc);
    }
  }

  lemma {:induction false} FreeSane(h: Head)
    requires HeadSane(h) && h.pending == []
    ensures HeadSane(h.(inflight := false, owner := {}))
  {
  }

  /** An exit with waiters passes the turn to the first of them. */
  lemma {:induction false} HandOver(st: State, id: Id, pc: Pc)
    requires Inv(st) && id in st.reqs && st.reqs[id].execute
    requires pc == Done || (pc == AwaitRdma && st.reqs[id].cmd == GET)
    requires HeadOf(st, st.reqs[id].bucket).pending != []
    ensures id in Exit(st, id).reqs && Inv(Goto(Exit(st, id), id, pc))
    ensures var h, st' := HeadOf(st, st.reqs[id].bucket), Goto(Exit(st, id), id, pc);
            && HeadOf(st', st.reqs[id].bucket).owner == {h.pending[0]}
            && HeadOf(st', st.reqs[id].bucket).pending == h.pending[1..]
            && At(st', h.pending[0], Popped)
  {
    hide Inv, HeadSane;
    var b := st.reqs[id].bucket;
    var h := HeadOf(st, b);
    OnlyOwner(st, id);
    InvAt(st, id);
    var next := h.pending[0];
    PendingHead(h);
    assert next in st.reqs;
    InvAt(st, next);
    var st' := Goto(Exit(st, id), id, pc);
    assert st'.reqs[next] == st.reqs[next].(pc := Popped);
    assert HeadOf(st', b) == h.(pending := h.pending[1..], owner := {next}, granted := h.granted + [next]);
    OthersOk(st, st', b, {id, next});
  }

  lemma {:induction false} PendingHead(h: Head)
    requires h.pending != [] && HeadSane(h)
    ensures h.pending[0] in h.entered && h.pending[0] !in h.pending[1..]
    ensures forall id | id != h.pending[0] :: id in h.pending[1..] <==> id in h.pending
    ensures HeadSane(h.(pending := h.pending[1..], owner := {h.pending[0]}, granted := h.granted + [h.pending[0]]))
  {
    assert h.pending == [h.pending[0]] + h.pending[1..];
    assert h.entered == h.granted + [h.pending[0]] + h.pending[1..];
    assert h.entered[|h.granted|] == h.pending[0];
    forall i | 0 < i < |h.pending|
      ensures h.pending[i] != h.pending[0]
    {
      assert h.entered[|h.granted| + i] == h.pending[i];
    }
  }

  lemma {:induction false} FinishInv(st: State, id: Id)
    requires Inv(st) && id in st.reqs && st.reqs[id].execute
    ensures Inv(Finish(st, id))
  {
    ExitInv(st, id, Done);
  }

  lemma {:induction false} HandlerInv(st: State, id: Id)
    requires Inv(st) && id in st.reqs
    ensures st.reqs[id].pc in {Handler, AwaitBackend, Resumed} ==> st.reqs[id].execute
    ensures st.reqs[id].pc == AwaitRdma ==>
              st.reqs[id].execute == (st.reqs[id].cmd == SET) && st.reqs[id].cmd in {GET, SET}
    ensures st.reqs[id].pc == Popped ==> !st.reqs[id].execute
  {
    assert ReqOk(st, id);
  }

  lemma {:induction false} NextInv(st: State, s: Step)
    requires Inv(st)
    ensures Inv(Next(st, s))
  {
    hide Inv, HeadOf, Exit, Enter;
    match s
    case Arrive(id, b, cmd) => if id !in st.reqs { ArriveInv(st, id, b, cmd); }
    case Call(id) => if At(st, id, New) { EnterInv(st, id); }
    case Mark(id) =>
      if At(st, id, Popped) { MoveInv(st, id, st.reqs[id].(pc := Resumed, execute := true)); }
    case Resume(id) =>
      if At(st, id, Resumed) {
        HandlerInv(st, id);
        MoveInv(st, id, st.reqs[id].(pc := Handler));
      }
    case Handle(id, quick, posted) =>
      if At(st, id, Handler) {
        HandlerInv(st, id);
        var r := st.reqs[id];
        FinishInv(st, id);
        if r.cmd == GET { ExitInv(st, id, AwaitRdma); }
        if r.cmd == SET { MoveInv(st, id, r.(pc := AwaitRdma)); }
        MoveInv(st, id, r.(pc := AwaitBackend));
      }
    case BackendCb(id, ok, posted) =>
      if At(st, id, AwaitBackend) {
        HandlerInv(st, id);
        FinishInv(st, id);
        if st.reqs[id].cmd == GET {
          ExitInv(st, id, AwaitRdma);
          ExitInv(st, id, Done);
          ExitDropsTurn(st, id);
        }
      }
    case RdmaCb(id, backend) =>
      if At(st, id, AwaitRdma) {
        HandlerInv(st, id);
        var r := st.reqs[id];
        if r.cmd == GET {
          MoveInv(st, id, r.(pc := Done));
        } else {
          FinishInv(st, id);
          MoveInv(st, id, r.(pc := AwaitBackend));
        }
      }
  }

  lemma {:induction false} ExitDropsTurn(st: State, id: Id)
    requires Inv(st) && id in st.reqs && st.reqs[id].execute
    ensures id in Exit(st, id).reqs && !Exit(st, id).reqs[id].execute
  {
    ExitInv(st, id, Done);
    OnlyOwner(st, id);
    var h := HeadOf(st, st.reqs[id].bucket);
    assert ReqOk(st, id) && HeadOk(st, st.reqs[id].bucket);
    assert id !in h.pending;
  }

  lemma {:induction false} RunInv(steps: seq<Step>)
    ensures Inv(Run(steps))
  {
    if steps == [] {
      assert forall b: Bucket :: HeadOk(Run(steps), b);
    } else {
      RunInv(steps[..|steps| - 1]);
      NextInv(Run(steps[..|steps| - 1]), steps[|steps| - 1]);
    }
  }

  // ---------------------------------------------------------------- what it guarantees

  /** At most one request per bucket has the turn, and a waiting request implies a holder. */
  lemma {:induction false} MutualExclusion(steps: seq<Step>, x: Id, y: Id)
    requires var st := Run(steps); x in st.reqs && y in st.reqs && st.reqs[x].bucket == st.reqs[y].bucket
    ensures var st := Run(steps);
            && (Holds(st.reqs[x]) && Holds(st.reqs[y]) ==> x == y)
            && (st.reqs[x].pc == Waiting ==> exists z | z in st.reqs ::
                  st.reqs[z].bucket == st.reqs[x].bucket && Holds(st.reqs[z]))
  {
    var st := Run(steps);
    RunInv(steps);
    assert ReqOk(st, x) && ReqOk(st, y) && HeadOk(st, st.reqs[x].bucket);
    var h := HeadOf(st, st.reqs[x].bucket);
    if Holds(st.reqs[x]) { OnlyOwner(st, x); }
    if st.reqs[x].pc == Waiting {
      var z :| z in h.owner;
      assert ReqOk(st, z);
    }
  }

  /** Turns are granted in the order requests reached the lock. */
  lemma {:induction false} FirstInFirstOut(steps: seq<Step>, b: Bucket)
    ensures var h := HeadOf(Run(steps), b);
            h.entered == h.granted + h.pending
            && forall i, j | 0 <= i < j < |h.entered| :: h.entered[i] != h.entered[j]
  {
    RunInv(steps);
    assert HeadOk(Run(steps), b);
  }

  /** A request gives its turn up at most once, and exactly once by the time it is finished. */
  lemma {:induction false} ExitsOnce(steps: seq<Step>, id: Id)
    requires id in Run(steps).reqs
    ensures Run(steps).reqs[id].exits <= 1
    ensures Run(steps).reqs[id].pc == Done ==> Run(steps).reqs[id].exits == 1
  {
    RunInv(steps);
    assert ReqOk(Run(steps), id);
  }

  // ---------------------------------------------------------------- progress

  /** How far the holder of a turn is from giving it up. */
  function Rank(pc: Pc): nat {
    match pc
    case Popped => 5
    case Resumed => 4
    case Handler => 3
    case AwaitRdma => 2
    case AwaitBackend => 1
    case _ => 0
  }

  function Position(s: seq<Id>, x: Id): nat {
    if s == [] || s[0] == x then 0 else 1 + Position(s[1..], x)
  }

  /** x waits for a turn that z has. */
  ghost predicate Waits(st: State, x: Id, z: Id) {
    && At(st, x, Waiting) && z in st.reqs
    && st.reqs[z].bucket == st.reqs[x].bucket && Holds(st.reqs[z])
  }

  /** What x still waits for: the requests before it, and what the holder has left to do. */
  ghost function Distance(st: State, x: Id, z: Id): nat
    requires Waits(st, x, z)
  {
    8 * Position(HeadOf(st, st.reqs[x].bucket).pending, x) + Rank(st.reqs[z].pc)
  }

  /** A step of z that does something: marking, resuming, handling, or an awaited callback. */
  predicate Moves(st: State, s: Step, z: Id) {
    match s
    case Mark(id) => id == z && At(st, z, Popped)
    case Resume(id) => id == z && At(st, z, Resumed)
    case Handle(id, _, _) => id == z && At(st, z, Handler)
    case BackendCb(id, _, _) => id == z && At(st, z, AwaitBackend)
    case RdmaCb(id, _) => id == z && At(st, z, AwaitRdma)
    case _ => false
  }

  /** In st', x has its turn or waits for no longer than in st, and for less if strict. */
  ghost predicate Nearer(st: State, st': State, x: Id, z: Id, strict: bool)
    requires Waits(st, x, z)
  {
    || At(st', x, Popped)
    || (exists y: Id :: Waits(st', x, y) &&
          if strict then Distance(st', x, y) < Distance(st, x, z) else Distance(st', x, y) <= Distance(st, x, z))
  }

  /** Some step of the holder is always enabled. */
  lemma {:induction false} HolderCanMove(st: State, x: Id, z: Id)
    requires Inv(st) && Waits(st, x, z)
    ensures exists s: Step :: Moves(st, s, z)
  {
    assert ReqOk(st, z);
    var s := match st.reqs[z].pc
             case Popped => Mark(z)
             case Resumed => Resume(z)
             case Handler => Handle(z, true, false)
             case AwaitBackend => BackendCb(z, true, false)
             case _ => RdmaCb(z, false);
    assert Moves(st, s, z);
  }

  lemma {:induction false} MoveNearer(st: State, a: Id, r: Req, x: Id, z: Id, strict: bool)
    requires Inv(st) && Waits(st, x, z) && a in st.reqs && a != x && r.bucket == st.reqs[a].bucket
    requires a == z ==> Holds(r) && Rank(r.pc) < Rank(st.reqs[z].pc)
    requires strict ==> a == z
    ensures Nearer(st, With(st, a, r), x, z, strict)
  {
    assert Waits(With(st, a, r), x, z);
  }

  lemma {:induction false} ExitNearer(st: State, a: Id, pc: Pc, x: Id, z: Id, strict: bool)
    requires Inv(st) && Waits(st, x, z) && a in st.reqs && st.reqs[a].execute
    requires pc == Done || (pc == AwaitRdma && st.reqs[a].cmd == GET)
    requires strict ==> a == z
    ensures a in Exit(st, a).reqs && Nearer(st, Goto(Exit(st, a), a, pc), x, z, strict)
  {
    hide Inv, HeadSane;
    var st', b := Goto(Exit(st, a), a, pc), st.reqs[x].bucket;
    var h := HeadOf(st, b);
    InvAt(st, x);
    InvAt(st, z);
    InvAt(st, a);
    if st.reqs[a].bucket == b {
      OnlyOwner(st, a);
      OnlyOwner(st, z);
      assert a == z && h.pending != [];
      HandOver(st, a, pc);
      if h.pending[0] != x {
        OtherWaiter(st, a, pc, x);
        assert Waits(st', x, h.pending[0]);
        RankPositive(st, z);
      }
    } else {
      Elsewhere(st, a, pc, x, z);
    }
  }

  lemma {:induction false} RankPositive(st: State, z: Id)
    requires z in st.reqs && ReqOk(st, z) && Holds(st.reqs[z])
    ensures Rank(st.reqs[z].pc) > 0
  {
  }

  lemma {:induction false} OtherWaiter(st: State, a: Id, pc: Pc, x: Id)
    requires Inv(st) && a in st.reqs && st.reqs[a].execute && At(st, x, Waiting)
    requires st.reqs[a].bucket == st.reqs[x].bucket
    requires var h := HeadOf(st, st.reqs[x].bucket); h.pending != [] && h.pending[0] != x
    ensures a in Exit(st, a).reqs && Goto(Exit(st, a), a, pc).reqs[x] == st.reqs[x]
    ensures var b, st' := st.reqs[x].bucket, Goto(Exit(st, a), a, pc);
            var next := HeadOf(st, b).pending[0];
            next in st'.reqs && st'.reqs[next].bucket == b
  {
    InvAt(st, a);
    InvAt(st, x);
    var h := HeadOf(st, st.reqs[x].bucket);
    hide Inv;
    PendingHead(h);
    assert h.pending[0] in st.reqs;
    InvAt(st, h.pending[0]);
  }

  lemma {:induction false} Elsewhere(st: State, a: Id, pc: Pc, x: Id, z: Id)
    requires Inv(st) && Waits(st, x, z) && a in st.reqs && st.reqs[a].execute
    requires st.reqs[a].bucket != st.reqs[x].bucket
    ensures a in Exit(st, a).reqs && Nearer(st, Goto(Exit(st, a), a, pc), x, z, false)
  {
    hide Inv, HeadSane;
    InvAt(st, a);
    var st' := Goto(Exit(st, a), a, pc);
    var h := HeadOf(st, st.reqs[a].bucket);
    if h.pending != [] {
      PendingHead(h);
      assert h.pending[0] in st.reqs && st.reqs[h.pending[0]].bucket == st.reqs[a].bucket;
    }
    assert Waits(st', x, z);
  }

  lemma {:induction false} PositionAppend(s: seq<Id>, x: Id, y: Id)
    requires x in s
    ensures Position(s + [y], x) == Position(s, x)
  {
    if s[0] != x {
      assert (s + [y])[1..] == s[1..] + [y];
      PositionAppend(s[1..], x, y);
    }
  }

  lemma {:induction false} EnterNearer(st: State, a: Id, x: Id, z: Id)
    requires Inv(st) && Waits(st, x, z) && At(st, a, New)
    ensures Nearer(st, Enter(st, a), x, z, false)
  {
    hide Inv, HeadSane;
    InvAt(st, x);
    InvAt(st, z);
    InvAt(st, a);
    OnlyOwner(st, z);
    var h := HeadOf(st, st.reqs[x].bucket);
    PositionAppend(h.pending, x, a);
    assert Waits(Enter(st, a), x, z);
  }

  lemma {:induction false} ArriveNearer(st: State, a: Id, r: Req, x: Id, z: Id)
    requires Waits(st, x, z) && a !in st.reqs
    ensures Nearer(st, With(st, a, r), x, z, false)
  {
    assert Waits(With(st, a, r), x, z);
  }

  lemma {:induction false} SameNearer(st: State, x: Id, z: Id)
    requires Waits(st, x, z)
    ensures Nearer(st, st, x, z, false)
  {
  }

  /** No step makes a waiting request wait longer, and every step of the holder brings its turn
      nearer: after at most Distance steps of holders it has the turn. */
  lemma {:induction false} WaitEnds(st: State, s: Step, x: Id, z: Id)
    requires Inv(st) && Waits(st, x, z)
    ensures Nearer(st, Next(st, s), x, z, Moves(st, s, z))
  {
    hide Inv, HeadOf, Exit, Enter, Nearer;
    SameNearer(st, x, z);
    match s
    case Arrive(id, b, cmd) => if id !in st.reqs { ArriveNearer(st, id, Req(b, cmd, New, false, 0), x, z); }
    case Call(id) => if At(st, id, New) { EnterNearer(st, id, x, z); }
    case Mark(id) =>
      if At(st, id, Popped) { MoveNearer(st, id, st.reqs[id].(pc := Resumed, execute := true), x, z, id == z); }
    case Resume(id) =>
      if At(st, id, Resumed) {
        HandlerInv(st, id);
        MoveNearer(st, id, st.reqs[id].(pc := Handler), x, z, id == z);
      }
    case Handle(id, quick, posted) => if At(st, id, Handler) { HandleNearer(st, id, quick, posted, x, z); }
    case BackendCb(id, ok, posted) => if At(st, id, AwaitBackend) { BackendNearer(st, id, ok, posted, x, z); }
    case RdmaCb(id, backend) => if At(st, id, AwaitRdma) { RdmaNearer(st, id, backend, x, z); }
  }

  lemma {:induction false} HandleNearer(st: State, id: Id, quick: bool, posted: bool, x: Id, z: Id)
    requires Inv(st) && Waits(st, x, z) && At(st, id, Handler)
    ensures Nearer(st, HandleBody(st, id, quick, posted), x, z, id == z)
  {
    hide Inv, HeadOf, Exit, Nearer;
    HandlerInv(st, id);
    var r := st.reqs[id];
    ExitNearer(st, id, Done, x, z, id == z);
    if r.cmd == GET { ExitNearer(st, id, AwaitRdma, x, z, id == z); }
    if r.cmd == SET { MoveNearer(st, id, r.(pc := AwaitRdma), x, z, id == z); }
    MoveNearer(st, id, r.(pc := AwaitBackend), x, z, id == z);
  }

  lemma {:induction false} BackendNearer(st: State, id: Id, ok: bool, posted: bool, x: Id, z: Id)
    requires Inv(st) && Waits(st, x, z) && At(st, id, AwaitBackend)
    ensures Nearer(st, BackendBody(st, id, ok, posted), x, z, id == z)
  {
    hide Inv, HeadOf, Exit, Nearer;
    HandlerInv(st, id);
    ExitNearer(st, id, Done, x, z, id == z);
    if st.reqs[id].cmd == GET {
      ExitNearer(st, id, AwaitRdma, x, z, id == z);
      ExitDropsTurn(st, id);
    }
  }

  lemma {:induction false} RdmaNearer(st: State, id: Id, backend: bool, x: Id, z: Id)
    requires Inv(st) && Waits(st, x, z) && At(st, id, AwaitRdma)
    ensures Nearer(st, RdmaBody(st, id, backend), x, z, id == z)
  {
    hide Inv, HeadOf, Exit, Nearer;
    HandlerInv(st, id);
    var r := st.reqs[id];
    if r.cmd == GET {
      MoveNearer(st, id, r.(pc := Done), x, z, false);
    } else {
      ExitNearer(st, id, Done, x, z, id == z);
      MoveNearer(st, id, r.(pc := AwaitBackend), x, z, id == z);
    }
  }
}
