/**
 server/backend/policy_lru.c: the reference count of a key against the calls made on it.
 */
module LruCounts {
  import opened Wrappers
  import opened LruPolicy

  /** The references taken and not given back since k last entered, from the calls and the answers
      of evict; None when k is not cached. */
  ghost function Count(ops: seq<Op>, k: Key): Option<nat> {
    if ops == [] then None
    else
      var front, op := ops[..|ops| - 1], ops[|ops| - 1];
      Move(Count(front, k), k, op, Evicted(Run(front)).1)
  }

  /** What one call does to the count of k; `out` is the key an evict returns. */
  ghost function Move(c: Option<nat>, k: Key, op: Op, out: Option<Key>): Option<nat> {
    match op
    case OpAccess(x) => if x == k && c == None then Some(0) else c
    case OpEvict => if out == Some(k) then None else c
    case OpDel(x) => if x == k then None else c
    case OpTryRef(x) => if x == k && c.Some? then Some(c.value + 1) else c
    case OpUnref(x) => if x == k && c.Some? && c.value > 0 then Some(c.value - 1) else c
  }

  ghost function Get(st: State, k: Key): Option<nat> { if k in st.refs then Some(st.refs[k]) else None }

  lemma {:induction false} StepCount(st: State, op: Op, k: Key)
    ensures Get(Step(st, op), k) == Move(Get(st, k), k, op, Evicted(st).1)
  {
    hide Less;
    if op == OpEvict && exists i :: Victim(st, i) {
      var i :| Victim(st, i) && Evicted(st) == (Remove(st, st.list[i]), Some(st.list[i]));
    }
  }

  /** The stored count is the number of references taken and not given back. */
  lemma {:induction false} CountExact(ops: seq<Op>, k: Key)
    ensures Get(Run(ops), k) == Count(ops, k)
  {
    hide Step, Move, Evicted;
    if ops != [] {
      CountExact(ops[..|ops| - 1], k);
      StepCount(Run(ops[..|ops| - 1]), ops[|ops| - 1], k);
    }
  }

  /** Evict returns exactly the least recent key of the 128 oldest with no reference outstanding. */
  lemma {:induction false} EvictsUnheld(ops: seq<Op>, i: nat)
    requires i < |Run(ops).list|
    ensures var list := Run(ops).list;
            Evicted(Run(ops)).1 == Some(list[i]) <==>
              && i + 128 >= |list| && Count(ops, list[i]) == Some(0)
              && forall j | i < j < |list| :: Count(ops, list[j]) != Some(0)
  {
    hide Run, Count, Evicted;
    var st := Run(ops);
    RunOrdered(ops);
    forall j | 0 <= j < |st.list|
      ensures Idle(st, j) <==> Count(ops, st.list[j]) == Some(0)
    {
      CountExact(ops, st.list[j]);
    }
    EvictChoice(st, i);
    if exists j :: Victim(st, j) {
      var j :| Victim(st, j);
      EvictChoice(st, j);
    } else {
      NoVictim(st);
      EvictChoice(st, i);
    }
  }

  /** Without a victim none of the 128 oldest keys is idle. */
  lemma {:induction false} NoVictim(st: State)
    requires !exists i :: Victim(st, i)
    ensures forall j | Oldest(st) <= j < |st.list| :: !Idle(st, j)
  {
    var i := |st.list|;
    while i > Oldest(st)
      invariant Oldest(st) <= i <= |st.list| && forall j | i <= j < |st.list| :: !Idle(st, j)
    {
      i := i - 1;
      assert !Victim(st, i);
    }
  }

  /** Try_refs minus unrefs of k in a run of calls. */
  ghost function Balance(ops: seq<Op>, k: Key): int {
    multiset(ops)[OpTryRef(k)] as int - multiset(ops)[OpUnref(k)]
  }

  /** No call in `tail` removes k, and no unref finds the count at zero. */
  ghost predicate Stays(front: seq<Op>, tail: seq<Op>, k: Key, from: nat) {
    && OpDel(k) !in tail
    && (forall j | 0 <= j <= |tail| :: from + Balance(tail[..j], k) >= 0)
    && (forall j | 0 <= j < |tail| && tail[j] == OpEvict :: Evicted(Run(front + tail[..j])).1 != Some(k))
  }

  /** While a key stays cached its count moves by the try_refs minus the unrefs. */
  lemma {:induction false} CountMoves(front: seq<Op>, tail: seq<Op>, k: Key, from: nat)
    requires Count(front, k) == Some(from) && Stays(front, tail, k, from)
    ensures from + Balance(tail, k) >= 0 && Count(front + tail, k) == Some(from + Balance(tail, k))
  {
    hide Run, Evicted, Balance, Move;
    assert tail[..|tail|] == tail;
    if tail == [] {
      assert front + tail == front;
      assert Balance([], k) == 0 by { BalanceNone(k); }
    } else {
      var rest, op := tail[..|tail| - 1], tail[|tail| - 1];
      assert (front + tail)[..|front + tail| - 1] == front + rest;
      assert forall j | 0 <= j <= |rest| :: rest[..j] == tail[..j];
      assert Stays(front, rest, k, from);
      CountMoves(front, rest, k, from);
      assert tail == rest + [op];
      BalanceMove(rest, op, k, from, Evicted(Run(front + rest)).1);
    }
  }

  lemma {:induction false} BalanceNone(k: Key)
    ensures Balance([], k) == 0
  {
  }

  lemma {:induction false} BalanceMove(ops: seq<Op>, op: Op, k: Key, from: nat, out: Option<Key>)
    requires from + Balance(ops, k) >= 0 && from + Balance(ops + [op], k) >= 0
    requires op != OpDel(k) && (op == OpEvict ==> out != Some(k))
    ensures Move(Some(from + Balance(ops, k)), k, op, out) == Some(from + Balance(ops + [op], k))
  {
    assert multiset(ops + [op]) == multiset(ops) + multiset{op};
  }

  /** A key with more try_refs than unrefs ever since is still cached, and evict never returns it. */
  lemma {:induction false} HeldStays(front: seq<Op>, tail: seq<Op>, k: Key, from: nat)
    requires Count(front, k) == Some(from) && OpDel(k) !in tail
    requires forall j | 0 <= j <= |tail| :: from + Balance(tail[..j], k) > 0
    ensures Stays(front, tail, k, from) && k in Run(front + tail).refs
    ensures Evicted(Run(front + tail)).1 != Some(k)
  {
    hide Run, Evicted, Balance, Count;
    assert tail[..|tail|] == tail;
    if tail == [] {
      assert front + tail == front && tail[..0] == [];
    } else {
      var rest, op := tail[..|tail| - 1], tail[|tail| - 1];
      assert tail == rest + [op];
      assert forall j | 0 <= j <= |rest| :: rest[..j] == tail[..j];
      HeldStays(front, rest, k, from);
    }
    CountMoves(front, tail, k, from);
    HeldNot(front + tail, k);
  }

  lemma {:induction false} HeldNot(ops: seq<Op>, k: Key)
    requires Count(ops, k).Some? && Count(ops, k).value > 0
    ensures k in Run(ops).refs && Evicted(Run(ops)).1 != Some(k)
  {
    hide Run, Count;
    CountExact(ops, k);
  }
}
