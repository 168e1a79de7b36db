/**
 server/backend/backend.c: a chain of backend devices, each a cache of the one below it.
 Drivers are maps from key to value; what a tier's eviction loop achieved and which driver
 calls fail are inputs, given per tier. Requests run to completion one at a time.
 */
module TierChain {
  import opened Wrappers

  type Key = string
  type Value = seq<bv8>
  type Store = map<Key, Value>

  datatype Status = Ok | TooBig | NotFound | Error

  /** The answer to a GET: status, reported length, the reader's buffer. */
  datatype Reply = Reply(status: Status, length: nat, buf: Value)

  /** What priskv_backend_freeup did in one tier: the evicted keys, and whether room was found. */
  datatype Room = Room(gone: set<Key>, found: bool)

  function Last(ts: seq<Store>): Store
    requires ts != []
  {
    ts[|ts| - 1]
  }

  /** Every entry of an upper tier is the last tier's. */
  ghost predicate Coherent(ts: seq<Store>) {
    ts != [] && forall i | 0 <= i < |ts| :: Agrees(ts[i], Last(ts))
  }

  ghost predicate Agrees(s: Store, m: Store) {
    forall k | k in s :: k in m && s[k] == m[k]
  }

  /** A driver's get fills the front of the buffer, if the value fits. */
  function DriverGet(s: Store, k: Key, buf: Value): Reply {
    if k !in s then Reply(NotFound, 0, buf)
    else if |s[k]| > |buf| then Reply(TooBig, |s[k]|, buf)
    else Reply(Ok, |s[k]|, s[k] + buf[|s[k]|..])
  }

  /** priskv_backend_get and its callbacks: a miss asks the child and caches its answer;
      the cache stores the whole buffer and reports that length. */
  ghost function Get(ts: seq<Store>, k: Key, buf: Value, room: nat -> Room, i: nat): (seq<Store>, Reply)
    requires ts != []
  {
    var r := DriverGet(ts[0], k, buf);
    if r.status == Ok || |ts| == 1 then (ts, r) else
    var (rest, c) := Get(ts[1..], k, buf, room, i + 1);
    if c.status != Ok then ([ts[0]] + rest, c) else
    var top := ts[0] - room(i).gone;
    if room(i).found then ([top[k := c.buf]] + rest, Reply(Ok, |buf|, c.buf)) else ([top] + rest, c)
  }

  /** priskv_backend_set: bottom-up, the last tier stores and every other tier deletes;
      a failing call stops the rest. */
  ghost function Set(ts: seq<Store>, k: Key, v: Value, ok: nat -> bool, i: nat): (seq<Store>, bool)
    requires ts != []
  {
    if |ts| == 1 then (if ok(i) then ([ts[0][k := v]], true) else (ts, false)) else
    var (rest, s) := Set(ts[1..], k, v, ok, i + 1);
    if s && ok(i) then ([ts[0] - {k}] + rest, true) else ([ts[0]] + rest, false)
  }

  /** priskv_backend_del, likewise. */
  ghost function Del(ts: seq<Store>, k: Key, ok: nat -> bool, i: nat): (seq<Store>, bool)
    requires ts != []
  {
    if |ts| == 1 then (if ok(i) then ([ts[0] - {k}], true) else (ts, false)) else
    var (rest, s) := Del(ts[1..], k, ok, i + 1);
    if s && ok(i) then ([ts[0] - {k}] + rest, true) else ([ts[0]] + rest, false)
  }

  /** priskv_backend_test: the first tier that has the key answers. */
  function Test(ts: seq<Store>, k: Key): Option<nat>
    requires ts != []
  {
    if k in ts[0] then Some(|ts[0][k]|) else if |ts| == 1 then None else Test(ts[1..], k)
  }

  // ---------------------------------------------------------------- reading

  lemma {:induction false} CoherentTail(ts: seq<Store>)
    requires Coherent(ts) && |ts| > 1
    ensures Coherent(ts[1..]) && Last(ts[1..]) == Last(ts)
    ensures Agrees(ts[0], Last(ts))
  {
    hide Agrees;
    forall i | 0 <= i < |ts[1..]|
      ensures Agrees(ts[1..][i], Last(ts))
    {
      assert ts[1..][i] == ts[i + 1];
    }
  }

  lemma {:induction false} CoherentCons(top: Store, rest: seq<Store>)
    requires Coherent(rest) && Agrees(top, Last(rest))
    ensures Coherent([top] + rest) && Last([top] + rest) == Last(rest)
  {
    hide Agrees;
    var ts := [top] + rest;
    assert Last(ts) == Last(rest);
    forall i | 0 <= i < |ts|
      ensures Agrees(ts[i], Last(ts))
    {
      if i > 0 { assert ts[i] == rest[i - 1]; }
    }
  }

  /** With a buffer no longer than the value, a chained GET returns what the last tier alone would,
      and leaves the chain coherent and the last tier as it was. */
  lemma {:induction false} GetExact(ts: seq<Store>, k: Key, buf: Value, room: nat -> Room, i: nat)
    requires ts != [] && Coherent(ts) && (k in Last(ts) ==> |buf| <= |Last(ts)[k]|)
    ensures var (ts', r) := Get(ts, k, buf, room, i);
            && r == DriverGet(Last(ts), k, buf)
            && |ts'| == |ts| && Coherent(ts') && Last(ts') == Last(ts)
            && (k in Last(ts) && |buf| == |Last(ts)[k]| ==> r == Reply(Ok, |buf|, Last(ts)[k]))
  {
    hide Coherent;
    if |ts| == 1 {
      assert ts[0] == Last(ts);
    } else {
      CoherentTail(ts);
      GetExact(ts[1..], k, buf, room, i + 1);
      var (rest, c) := Get(ts[1..], k, buf, room, i + 1);
      var top := ts[0] - room(i).gone;
      CoherentCons(ts[0], rest);
      CoherentCons(top, rest);
      if k in Last(ts) && c.status == Ok { CoherentCons(top[k := c.buf], rest); }
      assert [ts[0]] + ts[1..] == ts;
    }
  }

  /** The chain never invents or loses an answer: TEST agrees with the last tier. */
  lemma {:induction false} TestLast(ts: seq<Store>, k: Key)
    requires Coherent(ts)
    ensures Test(ts, k) == if k in Last(ts) then Some(|Last(ts)[k]|) else None
  {
    if |ts| > 1 {
      CoherentTail(ts);
      if k !in ts[0] { TestLast(ts[1..], k); }
    }
  }

  /** Tier h is the first whose value of k fits the buffer. */
  ghost predicate Serves(ts: seq<Store>, k: Key, buf: Value, h: nat) {
    && h < |ts| && k in ts[h] && |ts[h][k]| <= |buf|
    && forall j | 0 <= j < h && k in ts[j] :: |ts[j][k]| > |buf|
  }

  /** A GET answers from the first tier whose value fits; every tier above it loses what its policy
      evicted and, where room was found, caches the buffer. Tiers from there on stay. */
  lemma {:induction false} GetFills(ts: seq<Store>, k: Key, buf: Value, room: nat -> Room, i: nat, h: nat)
    requires Serves(ts, k, buf, h)
    ensures var (ts', r) := Get(ts, k, buf, room, i);
            var v := ts[h][k] + buf[|ts[h][k]|..];
            && r.status == Ok && r.buf == v && |ts'| == |ts| && ts'[h..] == ts[h..]
            && forall j | 0 <= j < h ::
                 ts'[j] == if room(i + j).found then (ts[j] - room(i + j).gone)[k := v] else ts[j] - room(i + j).gone
  {
    if h > 0 {
      assert ts[1..][h - 1] == ts[h];
      assert forall j | 0 <= j < h - 1 :: ts[1..][j] == ts[j + 1];
      GetFills(ts[1..], k, buf, room, i + 1, h - 1);
      var ts', rest := Get(ts, k, buf, room, i).0, Get(ts[1..], k, buf, room, i + 1).0;
      assert ts'[1..] == rest && ts'[h..] == rest[h - 1..];
      forall j | 0 < j < h
        ensures ts'[j] == rest[j - 1] && ts[j] == ts[1..][j - 1]
      {
      }
    }
  }

  /** Without such a tier a GET changes nothing and gives the last tier's refusal. */
  lemma {:induction false} GetRefused(ts: seq<Store>, k: Key, buf: Value, room: nat -> Room, i: nat)
    requires ts != [] && forall j | 0 <= j < |ts| && k in ts[j] :: |ts[j][k]| > |buf|
    ensures Get(ts, k, buf, room, i) ==
              (ts, if k in Last(ts) then Reply(TooBig, |Last(ts)[k]|, buf) else Reply(NotFound, 0, buf))
  {
    if |ts| > 1 {
      assert forall j | 0 <= j < |ts| - 1 :: ts[1..][j] == ts[j + 1];
      GetRefused(ts[1..], k, buf, room, i + 1);
      assert [ts[0]] + ts[1..] == ts;
    }
  }

  /** Some tier above the first one that has the key found room and cached the buffer. */
  ghost predicate Caches(ts: seq<Store>, k: Key, room: nat -> Room, i: nat)
    requires ts != []
  {
    k !in ts[0] && |ts| > 1 && (room(i).found || Caches(ts[1..], k, room, i + 1))
  }

  /** With a longer buffer the chain stays coherent, and the reported length is right,
      exactly when no tier caches the answer. */
  lemma {:induction false} GetLonger(ts: seq<Store>, k: Key, buf: Value, room: nat -> Room, i: nat)
    requires ts != [] && Coherent(ts) && k in Last(ts) && |Last(ts)[k]| < |buf|
    ensures var (ts', r) := Get(ts, k, buf, room, i);
            && |ts'| == |ts| && Last(ts') == Last(ts)
            && r.status == Ok && r.buf == Last(ts)[k] + buf[|Last(ts)[k]|..]
            && (Coherent(ts') <==> !Caches(ts, k, room, i))
            && (r.length == |Last(ts)[k]| <==> !Caches(ts, k, room, i))
  {
    hide Coherent;
    if |ts| == 1 {
      assert ts[0] == Last(ts);
    } else {
      CoherentTail(ts);
      if k !in ts[0] {
        GetLonger(ts[1..], k, buf, room, i + 1);
        var (rest, c) := Get(ts[1..], k, buf, room, i + 1);
        var top := ts[0] - room(i).gone;
        CoherentIff(top, rest);
        CoherentIff(top[k := c.buf], rest);
      }
    }
  }

  /** A failing read: a two-byte buffer for a one-byte value is cached whole. */
  lemma {:induction false} LongBuffer(k: Key, b: bv8, room: Room)
    requires room.found
    ensures var ts: seq<Store> := [map[], map[k := [b]]];
            var (ts', r) := Get(ts, k, [0, 0], (_: nat) => room, 0);
            Coherent(ts) && k in ts'[0] && ts'[0][k] == [b, 0] && !Coherent(ts') && r.length == 2
  {
    var ts: seq<Store>, f := [map[], map[k := [b]]], (_: nat) => room;
    assert ts[1..] == [map[k := [b]]];
    assert DriverGet(map[k := [b]], k, [0, 0]) == Reply(Ok, 1, [b, 0]);
    GetLonger(ts, k, [0, 0], f, 0);
  }

  lemma {:induction false} CoherentIff(top: Store, rest: seq<Store>)
    requires rest != []
    ensures Last([top] + rest) == Last(rest)
    ensures Coherent([top] + rest) <==>
            Coherent(rest) && Agrees(top, Last(rest))
  {
    if Coherent([top] + rest) {
      CoherentTail([top] + rest);
      assert ([top] + rest)[1..] == rest;
      assert ([top] + rest)[0] == top;
    } else if Coherent(rest) && Agrees(top, Last(rest)) {
      CoherentCons(top, rest);
    }
  }

  // ---------------------------------------------------------------- writing

  /** No driver call of the chain fails. */
  ghost predicate AllOk(ts: seq<Store>, ok: nat -> bool, i: nat) {
    forall j | i <= j < i + |ts| :: ok(j)
  }

  /** An OK SET leaves the key in the last tier only; every other key keeps its values. */
  lemma {:induction false} SetOk(ts: seq<Store>, k: Key, v: Value, ok: nat -> bool, i: nat)
    requires ts != []
    ensures var (ts', s) := Set(ts, k, v, ok, i);
            && |ts'| == |ts| && (s <==> AllOk(ts, ok, i))
            && (s ==> Last(ts') == Last(ts)[k := v])
            && (s ==> forall j | 0 <= j < |ts| - 1 :: ts'[j] == ts[j] - {k})
  {
    if |ts| > 1 {
      SetOk(ts[1..], k, v, ok, i + 1);
      var (rest, s) := Set(ts[1..], k, v, ok, i + 1);
      assert AllOk(ts, ok, i) <==> ok(i) && AllOk(ts[1..], ok, i + 1);
    }
  }

  lemma {:induction false} SetCoherent(ts: seq<Store>, k: Key, v: Value, ok: nat -> bool)
    requires Coherent(ts) && AllOk(ts, ok, 0)
    ensures Coherent(Set(ts, k, v, ok, 0).0)
  {
    SetOk(ts, k, v, ok, 0);
  }

  /** The tiers a failing SET leaves alone: those above the deepest failing call. */
  ghost function Reached(ts: seq<Store>, ok: nat -> bool, i: nat): nat
    requires ts != []
  {
    if |ts| == 1 then (if ok(i) then 1 else 0)
    else var n := Reached(ts[1..], ok, i + 1);
         if n == |ts| - 1 && ok(i) then n + 1 else n
  }

  /** After a SET in which only the n deepest calls took effect, the chain is coherent
      exactly when nothing took effect or no tier above holds a different value. */
  lemma {:induction false} SetFailed(ts: seq<Store>, k: Key, v: Value, ok: nat -> bool)
    requires Coherent(ts)
    ensures var n := Reached(ts, ok, 0);
            Coherent(Set(ts, k, v, ok, 0).0) <==>
            n == 0 || forall j | 0 <= j < |ts| - n && k in ts[j] :: ts[j][k] == v
  {
    SetShape(ts, k, v, ok, 0);
    var n, ts' := Reached(ts, ok, 0), Set(ts, k, v, ok, 0).0;
    if n == 0 {
      assert ts' == ts;
    } else {
      assert Last(ts') == Last(ts)[k := v];
      if forall j | 0 <= j < |ts| - n && k in ts[j] :: ts[j][k] == v {
        assert Coherent(ts');
      } else {
        var j :| 0 <= j < |ts| - n && k in ts[j] && ts[j][k] != v;
        assert k in ts'[j] && ts'[j][k] != Last(ts')[k];
        assert !Agrees(ts'[j], Last(ts'));
      }
    }
  }

  lemma {:induction false} SetShape(ts: seq<Store>, k: Key, v: Value, ok: nat -> bool, i: nat)
    requires ts != []
    ensures var n, (ts', s) := Reached(ts, ok, i), Set(ts, k, v, ok, i);
            && n <= |ts| == |ts'| && (s <==> n == |ts|)
            && (forall j | 0 <= j < |ts| - n :: ts'[j] == ts[j])
            && (n > 0 ==> Last(ts') == Last(ts)[k := v])
            && (forall j | |ts| - n <= j < |ts| - 1 :: ts'[j] == ts[j] - {k})
  {
    if |ts| > 1 { SetShape(ts[1..], k, v, ok, i + 1); }
  }

  /** An OK DELETE leaves the key in no tier; a failing one never breaks the chain unless
      the last tier forgot a key that a tier above still holds. */
  lemma {:induction false} DelOutcome(ts: seq<Store>, k: Key, ok: nat -> bool)
    requires Coherent(ts)
    ensures var n, (ts', s) := Reached(ts, ok, 0), Del(ts, k, ok, 0);
            && |ts'| == |ts| && (s <==> n == |ts|)
            && (s ==> forall j | 0 <= j < |ts| :: ts'[j] == ts[j] - {k})
            && (Coherent(ts') <==> n == 0 || forall j | 0 <= j < |ts| - n :: k !in ts[j])
  {
    DelShape(ts, k, ok, 0);
    var n, ts' := Reached(ts, ok, 0), Del(ts, k, ok, 0).0;
    if n == 0 {
      assert ts' == ts;
    } else {
      assert Last(ts') == Last(ts) - {k};
      if forall j | 0 <= j < |ts| - n :: k !in ts[j] {
        assert Coherent(ts');
      } else {
        var j :| 0 <= j < |ts| - n && k in ts[j];
        assert k in ts'[j] && !Agrees(ts'[j], Last(ts'));
      }
    }
  }

  lemma {:induction false} DelShape(ts: seq<Store>, k: Key, ok: nat -> bool, i: nat)
    requires ts != []
    ensures var n, (ts', s) := Reached(ts, ok, i), Del(ts, k, ok, i);
            && n <= |ts| == |ts'| && (s <==> n == |ts|)
            && (forall j | 0 <= j < |ts| - n :: ts'[j] == ts[j])
            && (forall j | |ts| - n <= j < |ts| :: ts'[j] == ts[j] - {k})
  {
    if |ts| > 1 { DelShape(ts[1..], k, ok, i + 1); }
  }

  // ---------------------------------------------------------------- whole runs

  datatype Op = OpGet(key: Key, buf: Value, room: nat -> Room) | OpSet(key: Key, value: Value) | OpDel(key: Key)

  ghost function Step(ts: seq<Store>, op: Op): seq<Store> {
    if ts == [] then ts else
    match op
    case OpGet(k, buf, room) => Get(ts, k, buf, room, 0).0
    case OpSet(k, v) => Set(ts, k, v, (_: nat) => true, 0).0
    case OpDel(k) => Del(ts, k, (_: nat) => true, 0).0
  }

  /** The plain map the chain stands for. */
  function Plain(m: Store, ops: seq<Op>): Store {
    if ops == [] then m
    else
      var m1 := Plain(m, ops[..|ops| - 1]);
      match ops[|ops| - 1]
      case OpGet(_, _, _) => m1
      case OpSet(k, v) => m1[k := v]
      case OpDel(k) => m1 - {k}
  }

  ghost function Run(ts: seq<Store>, ops: seq<Op>): seq<Store> {
    if ops == [] then ts else Step(Run(ts, ops[..|ops| - 1]), ops[|ops| - 1])
  }

  /** No reader's buffer is longer than the value. */
  ghost predicate Fits(ts: seq<Store>, op: Op) {
    ts != [] ==> op.OpGet? ==> op.key in Last(ts) ==> |op.buf| <= |Last(ts)[op.key]|
  }

  /** Over any run of requests whose driver calls succeed, the chain stays coherent and its
      last tier is the plain map of the SETs and DELETEs. */
  lemma {:induction false} RunCoherent(ts: seq<Store>, ops: seq<Op>)
    requires Coherent(ts) && forall n | 0 <= n < |ops| :: Fits(Run(ts, ops[..n]), ops[n])
    ensures Coherent(Run(ts, ops)) && Last(Run(ts, ops)) == Plain(Last(ts), ops)
  {
    if ops != [] {
      var front := ops[..|ops| - 1];
      forall n | 0 <= n < |front|
        ensures Fits(Run(ts, front[..n]), front[n])
      {
        assert front[..n] == ops[..n];
      }
      RunCoherent(ts, front);
      StepCoherent(Run(ts, front), ops[|ops| - 1]);
    }
  }

  /** So a GET at the end of any such run returns what the plain map holds. */
  lemma {:induction false} RunReads(ts: seq<Store>, ops: seq<Op>, k: Key, buf: Value, room: nat -> Room)
    requires Coherent(ts) && forall n | 0 <= n < |ops| :: Fits(Run(ts, ops[..n]), ops[n])
    requires k in Plain(Last(ts), ops) ==> |buf| <= |Plain(Last(ts), ops)[k]|
    ensures Run(ts, ops) != []
    ensures Get(Run(ts, ops), k, buf, room, 0).1 == DriverGet(Plain(Last(ts), ops), k, buf)
  {
    RunCoherent(ts, ops);
    GetExact(Run(ts, ops), k, buf, room, 0);
  }

  lemma {:induction false} StepCoherent(ts: seq<Store>, op: Op)
    requires Coherent(ts) && Fits(ts, op)
    ensures Step(ts, op) != [] && Coherent(Step(ts, op))
    ensures Last(Step(ts, op)) == match op
                                  case OpGet(_, _, _) => Last(ts)
                                  case OpSet(k, v) => Last(ts)[k := v]
                                  case OpDel(k) => Last(ts) - {k}
  {
    hide Get, Set, Del;
    match op
    case OpGet(k, buf, room) => GetExact(ts, k, buf, room, 0);
    case OpSet(k, v) =>
      SetOk(ts, k, v, (_: nat) => true, 0);
      SetCoherent(ts, k, v, (_: nat) => true);
    case OpDel(k) =>
      DelOutcome(ts, k, (_: nat) => true);
      ReachedAll(ts, (_: nat) => true, 0);
  }

  lemma {:induction false} ReachedAll(ts: seq<Store>, ok: nat -> bool, i: nat)
    requires ts != [] && AllOk(ts, ok, i)
    ensures Reached(ts, ok, i) == |ts|
  {
    if |ts| > 1 { ReachedAll(ts[1..], ok, i + 1); }
  }
}
