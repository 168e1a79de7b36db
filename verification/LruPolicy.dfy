/**
 server/backend/policy_lru.c: the cache policy of a backend tier. A list of keys, most
 recent first, and a hash map from key to reference count; keys in use are not evicted.
 */
module LruPolicy {
  import opened Wrappers
  import opened Recency

  type Key = string

  const MAX_ATTEMPTS: nat := 128

  datatype State = State(list: seq<Key>, refs: map<Key, nat>)

  ghost predicate Inv(st: State) {
    && (forall i, j | 0 <= i < j < |st.list| :: st.list[i] != st.list[j])
    && (forall k :: k in st.refs <==> k in st.list)
  }

  /** list_del of k. */
  ghost function Less(list: seq<Key>, k: Key): seq<Key> {
    if list == [] then [] else if list[0] == k then list[1..] else [list[0]] + Less(list[1..], k)
  }

  // ---------------------------------------------------------------- the calls

  ghost function Accessed(st: State, k: Key): State {
    State([k] + Less(st.list, k), if k in st.refs then st.refs else st.refs[k := 0])
  }

  ghost function Remove(st: State, k: Key): State { State(Less(st.list, k), st.refs - {k}) }

  ghost function TryRef(st: State, k: Key): State {
    if k in st.refs then State([k] + Less(st.list, k), st.refs[k := st.refs[k] + 1]) else st
  }

  ghost function Unref(st: State, k: Key): State {
    if k in st.refs && st.refs[k] > 0 then st.(refs := st.refs[k := st.refs[k] - 1]) else st
  }

  function Oldest(st: State): nat {
    if |st.list| > MAX_ATTEMPTS then |st.list| - MAX_ATTEMPTS else 0
  }

  /** Position i holds the least recent key without references among the 128 oldest. */
  ghost predicate Victim(st: State, i: int) {
    && Oldest(st) <= i < |st.list| && Idle(st, i)
    && forall j | i < j < |st.list| :: !Idle(st, j)
  }

  predicate Idle(st: State, i: int) {
    0 <= i < |st.list| && st.list[i] in st.refs && st.refs[st.list[i]] == 0
  }

  ghost function Evicted(st: State): (State, Option<Key>) {
    if exists i :: Victim(st, i) then
      var i :| Victim(st, i);
      (Remove(st, st.list[i]), Some(st.list[i]))
    else (st, None)
  }

  /** Evict returns the least recent idle key of the 128 oldest, or nothing and changes nothing. */
  lemma {:induction false} EvictChoice(st: State, i: int)
    ensures Victim(st, i) ==> Evicted(st) == (Remove(st, st.list[i]), Some(st.list[i]))
    ensures (forall j | Oldest(st) <= j < |st.list| :: !Idle(st, j)) ==> Evicted(st) == (st, None)
  {
    if Victim(st, i) {
      forall j | Victim(st, j)
        ensures j == i
      {
      }
    }
  }

  // ---------------------------------------------------------------- invariant

  lemma {:induction false} LessMembers(list: seq<Key>, k: Key)
    requires forall i, j | 0 <= i < j < |list| :: list[i] != list[j]
    ensures forall x :: x in Less(list, k) <==> x in list && x != k
    ensures forall i, j | 0 <= i < j < |Less(list, k)| :: Less(list, k)[i] != Less(list, k)[j]
  {
    if list != [] {
      assert list == [list[0]] + list[1..];
      if list[0] == k {
        assert forall x :: x in list[1..] ==> x != k;
      } else {
        LessMembers(list[1..], k);
        assert list[0] !in Less(list[1..], k);
      }
    }
  }

  datatype Op = OpAccess(key: Key) | OpEvict | OpDel(key: Key) | OpTryRef(key: Key) | OpUnref(key: Key)

  ghost function Step(st: State, op: Op): State {
    match op
    case OpAccess(k) => Accessed(st, k)
    case OpEvict => Evicted(st).0
    case OpDel(k) => if k in st.refs then Remove(st, k) else st
    case OpTryRef(k) => TryRef(st, k)
    case OpUnref(k) => Unref(st, k)
  }

  ghost function Run(ops: seq<Op>): State {
    if ops == [] then State([], map[]) else Step(Run(ops[..|ops| - 1]), ops[|ops| - 1])
  }

  /** List and hash map hold the same keys after every call. */
  lemma {:induction false} StepInv(st: State, op: Op)
    requires Inv(st)
    ensures Inv(Step(st, op))
  {
    match op
    case OpAccess(k) => LessMembers(st.list, k);
    case OpEvict =>
      if exists i :: Victim(st, i) {
        var i :| Victim(st, i) && Evicted(st) == (Remove(st, st.list[i]), Some(st.list[i]));
        LessMembers(st.list, st.list[i]);
      }
    case OpDel(k) => LessMembers(st.list, k);
    case OpTryRef(k) => LessMembers(st.list, k);
    case OpUnref(k) =>
  }

  lemma {:induction false} TryRefInv(st: State, k: Key)
    requires Inv(st)
    ensures Inv(TryRef(st, k))
  {
    StepInv(st, OpTryRef(k));
  }

  // ---------------------------------------------------------------- recency

  /** Access and a successful try_ref use a key. */
  ghost function UsedBy(st: State, op: Op): Option<Key> {
    match op
    case OpAccess(k) => Some(k)
    case OpTryRef(k) => if k in st.refs then Some(k) else None
    case _ => None
  }

  ghost function Uses(ops: seq<Op>): seq<Option<Key>> {
    if ops == [] then []
    else Uses(ops[..|ops| - 1]) + [UsedBy(Run(ops[..|ops| - 1]), ops[|ops| - 1])]
  }

  ghost predicate Ordered(list: seq<Key>, h: seq<Option<Key>>) {
    && (forall i | 0 <= i < |list| :: 0 <= LastUse(h, list[i]))
    && (forall i, j | 0 <= i < j < |list| :: LastUse(h, list[i]) > LastUse(h, list[j]))
  }

  lemma {:induction false} LessOrdered(list: seq<Key>, k: Key, h: seq<Option<Key>>)
    requires Ordered(list, h)
    ensures Ordered(Less(list, k), h)
  {
    if list != [] && list[0] != k {
      LessOrdered(list[1..], k, h);
      LessBefore(list[1..], k, h, LastUse(h, list[0]));
    }
  }

  lemma {:induction false} LessBefore(list: seq<Key>, k: Key, h: seq<Option<Key>>, t: int)
    requires forall i | 0 <= i < |list| :: LastUse(h, list[i]) < t
    ensures forall i | 0 <= i < |Less(list, k)| :: LastUse(h, Less(list, k)[i]) < t
  {
    if list != [] && list[0] != k { LessBefore(list[1..], k, h, t); }
  }

  lemma {:induction false} FrontOrdered(list: seq<Key>, k: Key, h: seq<Option<Key>>)
    requires Ordered(list, h) && k !in list
    ensures Ordered([k] + list, h + [Some(k)])
  {
    var h' := h + [Some(k)];
    assert h'[..|h|] == h;
    forall i | 0 <= i < |list|
      ensures LastUse(h', list[i]) == LastUse(h, list[i]) < |h|
    {
      assert list[i] in list;
      LastUseBound(h, list[i]);
    }
  }

  lemma {:induction false} IdleOrdered(list: seq<Key>, h: seq<Option<Key>>)
    requires Ordered(list, h)
    ensures Ordered(list, h + [None])
  {
    assert (h + [None])[..|h|] == h;
  }

  /** In every reachable state the list is in the order of last access or try_ref. */
  lemma {:induction false} RunOrdered(ops: seq<Op>)
    ensures Inv(Run(ops)) && Ordered(Run(ops).list, Uses(ops))
  {
    hide Ordered, Step, UsedBy, Inv;
    if ops == [] {
      EmptyOrdered();
    } else {
      var front, op := ops[..|ops| - 1], ops[|ops| - 1];
      RunOrdered(front);
      StepInv(Run(front), op);
      StepOrdered(Run(front), op, Uses(front));
    }
  }

  lemma {:induction false} EmptyOrdered()
    ensures Inv(State([], map[])) && Ordered([], [])
  {
  }

  lemma {:induction false} StepOrdered(st: State, op: Op, h: seq<Option<Key>>)
    requires Inv(st) && Ordered(st.list, h)
    ensures Ordered(Step(st, op).list, h + [UsedBy(st, op)])
  {
    hide Ordered;
    IdleOrdered(st.list, h);
    match op
    case OpAccess(k) => ToFront(st.list, k, h);
    case OpTryRef(k) => ToFront(st.list, k, h);
    case OpEvict =>
      if exists i :: Victim(st, i) {
        var i :| Victim(st, i) && Evicted(st).0 == Remove(st, st.list[i]);
        LessOrdered(st.list, st.list[i], h);
        IdleOrdered(Less(st.list, st.list[i]), h);
      }
    case OpDel(k) =>
      LessOrdered(st.list, k, h);
      IdleOrdered(Less(st.list, k), h);
    case OpUnref(k) =>
  }

  lemma {:induction false} ToFront(list: seq<Key>, k: Key, h: seq<Option<Key>>)
    requires Ordered(list, h) && forall i, j | 0 <= i < j < |list| :: list[i] != list[j]
    ensures Ordered([k] + Less(list, k), h + [Some(k)])
  {
    LessMembers(list, k);
    LessOrdered(list, k, h);
    FrontOrdered(Less(list, k), k, h);
  }

  // ---------------------------------------------------------------- in place

  class Policy {
    var list: seq<Key>
    var hashmap: map<Key, nat>

    ghost function Abs(): State
      reads this
    {
      State(list, hashmap)
    }

    ghost predicate Valid()
      reads this
    {
      Inv(Abs())
    }

    constructor ()
      ensures Valid() && Abs() == Run([])
    {
      list, hashmap := [], map[];
    }

    method ListDel(k: Key)
      requires Valid()
      modifies this`list
      ensures list == Less(old(list), k)
    {
      for i := 0 to |list|
        invariant list == old(list)
        invariant forall j | 0 <= j < i :: list[j] != k
      {
        if list[i] == k {
          LessAt(list, k, i);
          list := list[..i] + list[i + 1..];
          return;
        }
      }
      LessNone(list, k);
    }

    method Access(k: Key)
      requires Valid()
      modifies this
      ensures Valid() && Abs() == Accessed(old(Abs()), k)
    {
      StepInv(Abs(), OpAccess(k));
      if k in hashmap {
        ListDel(k);
      } else {
        LessNone(list, k);
        hashmap := hashmap[k := 0];
      }
      list := [k] + list;
    }

    method Evict() returns (r: Option<Key>)
      requires Valid()
      modifies this
      ensures Valid() && (Abs(), r) == Evicted(old(Abs()))
    {
      ghost var st := Abs();
      StepInv(st, OpEvict);
      var i := |list| - 1;
      var attempts := MAX_ATTEMPTS;
      while i >= 0 && attempts > 0
        invariant -1 <= i < |list| && attempts == MAX_ATTEMPTS - (|list| - 1 - i) >= 0
        invariant Abs() == st && forall j | i < j < |list| :: !Idle(st, j)
        decreases i
      {
        attempts := attempts - 1;
        assert list[i] in list;
        if hashmap[list[i]] == 0 {
          EvictChoice(st, i);
          var k := list[i];
          ListDel(k);
          hashmap := hashmap - {k};
          return Some(k);
        }
        i := i - 1;
      }
      EvictChoice(st, 0);
      return None;
    }

    method DelKey(k: Key)
      requires Valid()
      modifies this
      ensures Valid() && Abs() == Step(old(Abs()), OpDel(k))
    {
      StepInv(Abs(), OpDel(k));
      if k in hashmap {
        ListDel(k);
        hashmap := hashmap - {k};
      }
    }

    method TryRefKey(k: Key) returns (found: bool)
      requires Valid()
      modifies this
      ensures Valid() && Abs() == TryRef(old(Abs()), k) && found == (k in old(hashmap))
      ensures found ==> hashmap == old(hashmap)[k := old(hashmap)[k] + 1] && list == [k] + Less(old(list), k)
      ensures !found ==> hashmap == old(hashmap) && list == old(list)
    {
      hide Inv, Less;
      TryRefInv(Abs(), k);
      found := k in hashmap;
      if !found { return; }
      ListDel(k);
      list := [k] + list;
      hashmap := hashmap[k := hashmap[k] + 1];
    }

    method UnrefKey(k: Key)
      requires Valid()
      modifies this
      ensures Valid() && Abs() == Unref(old(Abs()), k) && list == old(list)
      ensures hashmap == if k in old(hashmap) && old(hashmap)[k] > 0 then old(hashmap)[k := old(hashmap)[k] - 1]
                         else old(hashmap)
    {
      StepInv(Abs(), OpUnref(k));
      if k in hashmap && hashmap[k] > 0 {
        hashmap := hashmap[k := hashmap[k] - 1];
      }
    }
  }

  lemma {:induction false} LessAt(list: seq<Key>, k: Key, i: nat)
    requires i < |list| && list[i] == k && forall j | 0 <= j < i :: list[j] != k
    ensures Less(list, k) == list[..i] + list[i + 1..]
  {
    if i > 0 { LessAt(list[1..], k, i - 1); }
  }

  lemma {:induction false} LessNone(list: seq<Key>, k: Key)
    requires k !in list
    ensures Less(list, k) == list
  {
    if list != [] { LessNone(list[1..], k); }
  }
}
