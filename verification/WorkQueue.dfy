/**
 lib/workqueue.c: any number of producers append work under a lock and then write an
 eventfd; one consumer reads the eventfd and runs the works, dropping the lock around each.
 The protocol is a state machine over its atomic steps. Works are numbered in append order.
 */
module WorkQueue {
  import opened Wrappers

  type Work = nat

  /** Where priskv_workqueue_process stands. `next` is the node list_for_each_safe saved
      while it held the lock, None for the end of the list. */
  datatype Consumer =
    | Idle
    | Acked
    | Running(work: Work, next: Option<Work>)
    | Relocking(next: Option<Work>)

  datatype State = State(
    list: seq<Work>,
    counter: nat,           // the eventfd
    owed: set<Work>,        // producers between append and kick
    consumer: Consumer,
    submitted: seq<Work>,   // every work ever appended, in order
    ran: seq<Work>,         // every work whose function was called, in order
    done: set<Work>,        // work->done
    returned: set<Work>)    // synchronous calls that have returned

  datatype Step = Append | Kick(work: Work) | Ack | Lock | Finish | Relock | Return(work: Work)

  /** The loop head under the lock: take the first work and remember the one after it. */
  ghost function Take(st: State): State
    requires st.list != []
  {
    st.(list := st.list[1..], ran := st.ran + [st.list[0]],
        consumer := Running(st.list[0], if |st.list| > 1 then Some(st.list[1]) else None))
  }

  /** What a step does; a step that is not enabled leaves the state alone. */
  ghost function Next(st: State, s: Step): State {
    match s
    case Append =>
      var w := |st.submitted|;
      st.(list := st.list + [w], owed := st.owed + {w}, submitted := st.submitted + [w])
    case Kick(w) =>
      if w in st.owed then st.(counter := st.counter + 1, owed := st.owed - {w}) else st
    case Ack =>
      if st.consumer.Idle? && st.counter > 0 then st.(counter := 0, consumer := Acked) else st
    case Lock =>
      if !st.consumer.Acked? then st else if st.list == [] then st.(consumer := Idle) else Take(st)
    case Finish =>
      if st.consumer.Running?
      then st.(consumer := Relocking(st.consumer.next), done := st.done + {st.consumer.work}) else st
    case Relock =>
      if !st.consumer.Relocking? then st
      else if st.consumer.next.None? || st.list == [] then st.(consumer := Idle)
      else Take(st)
    case Return(w) =>
      if w in st.done then st.(returned := st.returned + {w}) else st
  }

  ghost function Run(steps: seq<Step>): State {
    if steps == [] then State([], 0, {}, Idle, [], [], {}, {})
    else Next(Run(steps[..|steps| - 1]), steps[|steps| - 1])
  }

  /** Works run once each and in submission order: those run, then those queued. */
  ghost predicate InOrder(st: State) {
    && st.ran + st.list == st.submitted
    && forall i | 0 <= i < |st.submitted| :: st.submitted[i] == i
  }

  /** The saved next node is still the head of the list. */
  ghost predicate NextIsHead(st: State) {
    var next := match st.consumer case Running(_, n) => n case Relocking(n) => n case _ => None;
    next.Some? ==> st.list != [] && st.list[0] == next.value
  }

  /** The consumer will not look at the list again before it sees a signal. */
  predicate Leaving(st: State) {
    match st.consumer
    case Idle => true
    case Acked => false
    case Running(_, n) => n.None?
    case Relocking(n) => n.None?
  }

  /** No lost wake-up: queued work implies a signal, or a producer about to give one. */
  ghost predicate Signalled(st: State) {
    Leaving(st) && st.list != [] ==> st.counter > 0 || st.owed != {}
  }

  /** A synchronous caller returns only after its work has run; every work whose function was called
      is done, unless it is running now. */
  ghost predicate DoneRan(st: State) {
    && (forall w | w in st.done :: w in st.ran)
    && (forall w | w in st.ran :: w in st.done || (st.consumer.Running? && st.consumer.work == w))
    && (st.consumer.Running? ==> st.consumer.work !in st.done)
    && st.returned <= st.done
    && (st.consumer.Running? ==> st.consumer.work in st.ran)
  }

  ghost predicate Inv(st: State) {
    InOrder(st) && NextIsHead(st) && Signalled(st) && DoneRan(st)
  }

  lemma {:induction false} TakeInv(st: State)
    requires Inv(st) && st.list != [] && !st.consumer.Running?
    ensures Inv(Take(st))
  {
    assert st.submitted[|st.ran|] == st.list[0] && forall i | 0 <= i < |st.ran| :: st.submitted[i] == st.ran[i];
    assert st.ran + st.list == st.ran + [st.list[0]] + st.list[1..];
  }

  lemma {:induction false} NextInv(st: State, s: Step)
    requires Inv(st)
    ensures Inv(Next(st, s))
  {
    match s
    case Append =>
      var w := |st.submitted|;
      assert st.ran + (st.list + [w]) == st.ran + st.list + [w];
      assert w in st.owed + {w};
    case Lock => if st.consumer.Acked? && st.list != [] { TakeInv(st); }
    case Relock => if st.consumer.Relocking? && st.consumer.next.Some? { TakeInv(st); }
    case _ =>
  }

  /** In every interleaving: exactly once, in order, and never asleep on queued work. */
  lemma {:induction false} RunInv(steps: seq<Step>)
    ensures Inv(Run(steps))
  {
    if steps != [] {
      RunInv(steps[..|steps| - 1]);
      NextInv(Run(steps[..|steps| - 1]), steps[|steps| - 1]);
    }
  }

  /** When nobody has a step left to take, every submitted work has run. */
  lemma {:induction false} QuietMeansDrained(steps: seq<Step>)
    requires var st := Run(steps); st.consumer.Idle? && st.counter == 0 && st.owed == {}
    ensures Run(steps).ran == Run(steps).submitted
  {
    RunInv(steps);
    var st := Run(steps);
    assert st.ran + [] == st.ran;
  }

  /** A synchronous call returns at its step exactly when its work has run to its end. */
  lemma {:induction false} ReturnsIffRan(steps: seq<Step>, w: Work)
    ensures var st := Run(steps);
            w in Next(st, Return(w)).returned <==>
              w in st.ran && !(st.consumer.Running? && st.consumer.work == w)
  {
    RunInv(steps);
  }

  /** A work never runs twice. */
  lemma {:induction false} RunOnce(steps: seq<Step>, i: nat, j: nat)
    requires i < j < |Run(steps).ran|
    ensures Run(steps).ran[i] < Run(steps).ran[j]
  {
    RunInv(steps);
    var st := Run(steps);
    assert st.ran[i] == st.submitted[i] && st.ran[j] == st.submitted[j];
  }

  /** Bounds the steps left before everything queued so far has run. */
  function Left(st: State): nat {
    16 * |st.owed| + 8 * |st.list| + (if st.counter > 0 then 4 else 0)
      + match st.consumer case Acked => 3 case Running(_, _) => 2 case Relocking(_) => 1 case Idle => 0
  }

  /** Every kick and every consumer step that does anything brings the end nearer. */
  lemma {:induction false} Progress(st: State, s: Step)
    requires Inv(st) && !s.Append? && !s.Return? && Next(st, s) != st
    ensures Left(Next(st, s)) < Left(st)
  {
    if s.Kick? { assert st.owed == st.owed - {s.work} + {s.work}; }
  }

  /** And unless all is quiet, some such step is enabled. */
  lemma {:induction false} NotStuck(st: State)
    requires Inv(st) && !(st.consumer.Idle? && st.counter == 0 && st.owed == {})
    ensures exists s: Step :: !s.Append? && !s.Return? && Next(st, s) != st
  {
    var s := match st.consumer
             case Acked => Lock
             case Running(_, _) => Finish
             case Relocking(_) => Relock
             case Idle => if st.counter > 0 then Ack else var w :| w in st.owed; Kick(w);
    assert Next(st, s).consumer != st.consumer || Next(st, s).owed != st.owed || Next(st, s).list != st.list;
  }
}
