/**
 A tiering GET that misses stores a new node for its key, asks the backend, and in the callback
 looks the key up again and asserts that it finds that node (server/rdma.c:928-949, 843-850).
 Its turn keeps other requests off the keys of its bucket, so nothing sets its key in between;
 calls on other keys, and FLUSH, are not kept off. When the assert holds, over every run.
 */
module KvTurn {
  import opened Wrappers
  import opened Clock
  import opened KvState
  import opened KvOps
  import opened KvRuns
  import KvMarks
  import BuddyTree
  import Buddy

  /** Node s is in the table under key k. */
  ghost predicate Stored(st: State, s: Slot, k: Key) {
    s in st.lru && s in st.nodes && st.nodes[s].key == k
  }

  /** The lookup of the callback finds node s, in process or not. */
  ghost predicate Finds(c: Config, st: State, k: Key, now: Time, s: Slot) {
    Get(c, st, k, now).1 == Found(s) || Get(c, st, k, now).1 == Updating(s)
  }

  lemma {:induction false} FindsIff(c: Config, st: State, k: Key, now: Time, s: Slot)
    requires c.buckets > 0 && ListsOk(c, st)
    ensures Finds(c, st, k, now, s) <==> Stored(st, s, k) && !Expired(st.nodes[s].expire, now)
  {
    FindListed(c, st, k);
  }

  // ---------------------------------------------------------------- one call

  /** A call lists no slot that was not listed, but for the one it gives out. */
  lemma {:induction false} StepListed(c: Config, st: State, op: Op, s: Slot)
    requires c.buckets > 0 && ListsOk(c, st) && s in Step(c, st, op).lru
    ensures s in st.lru || KvMarks.Gives(c, st, op) == Some(s)
  {
    hide ListsOk, Find, Place, DropSet;
    match op
    case OpGet(k, now) => FindListed(c, st, k); GetListed(c, st, k, now, s);
    case OpGetEnd(t) =>
    case OpSet(k, valuelen, timeout, now) =>
      DeleteListed(c, st, k, s);
      PlaceListed(c, WithoutKey(c, st, k), k, valuelen, ExpiryFor(timeout, now), s);
    case OpSetEnd(t) =>
    case OpDelete(k) => DeleteListed(c, st, k, s);
    case OpExpire(k, timeout, now) => if Find(c, st, k).Some? { DropListed(st, {Find(c, st, k).value}, s); }
    case OpFlush(p) => DropListed(st, Matching(st, p), s);
    case OpSweep(now) => DropListed(st, Overdue(st, now), s);
  }

  lemma {:induction false} DropListed(st: State, d: set<Slot>, s: Slot)
    ensures s in DropSet(st, d).lru <==> s in st.lru && s !in d
  {
  }

  lemma {:induction false} GetListed(c: Config, st: State, k: Key, now: Time, s: Slot)
    requires Find(c, st, k).Some? ==> Find(c, st, k).value in st.lru
    ensures s in Get(c, st, k, now).0.lru ==> s in st.lru
  {
    hide Find, DropSet;
    if Find(c, st, k).Some? { DropListed(st, {Find(c, st, k).value}, s); }
  }

  lemma {:induction false} DeleteListed(c: Config, st: State, k: Key, s: Slot)
    ensures s in Delete(c, st, k).lru ==> s in st.lru
  {
    hide Find, DropSet;
    if Find(c, st, k).Some? { DropListed(st, {Find(c, st, k).value}, s); }
  }

  lemma {:induction false} PlaceListed(c: Config, st: State, k: Key, valuelen: nat, expire: Time, s: Slot)
    ensures var (st', r) := Place(c, st, k, valuelen, expire); s in st'.lru ==> s in st.lru || r == Some(s)
  {
    hide DropSet, SlotAfter, BlockAfter, Buddy.UnitsFor, Evictions;
    if c.unit > 0 {
      DropListed(st, Oldest(st, Evictions(c, st, Buddy.UnitsFor(valuelen, c.unit), 0)), s);
    }
  }

  /** The call leaves node s in the table: it neither unlinks it nor, having evicted it, gives its
      slot to a new value. */
  ghost predicate Keeps(c: Config, st: State, op: Op, s: Slot) {
    s in Step(c, st, op).lru && KvMarks.Gives(c, st, op) != Some(s)
  }

  /** But for a SET of k, a node is under k after a call exactly when it was before and was kept. */
  lemma {:induction false} StepStored(c: Config, st: State, op: Op, s: Slot, k: Key)
    requires Inv(c, st) && Legal(c, op) && (op.OpSet? ==> op.key != k)
    ensures Stored(Step(c, st, op), s, k) <==> Stored(st, s, k) && Keeps(c, st, op, s)
  {
    hide ListsOk, RefsOk, SlotsOk, BlocksOk, BuddyTree.LiveOk, Buddy.Representable, Step, KvMarks.Gives;
    var st' := Step(c, st, op);
    StepInv(c, st, op);
    KvMarks.StepMark(c, st, op, s);
    if s in st'.lru {
      KvMarks.ListedNode(c, st', s);
      StepListed(c, st, op, s);
    }
  }

  // ---------------------------------------------------------------- between miss and callback

  /** No call of the run takes node s out of the table. */
  ghost predicate KeptBy(c: Config, st: State, w: seq<Op>, s: Slot) {
    forall i | 0 <= i < |w| :: Keeps(c, Run(c, st, w[..i]), w[i], s)
  }

  /** Nothing in the run sets k: the request has the turn of k's bucket. */
  ghost predicate Alone(c: Config, w: seq<Op>, k: Key) {
    forall i | 0 <= i < |w| :: Legal(c, w[i]) && (w[i].OpSet? ==> w[i].key != k)
  }

  lemma {:induction false} RunStored(c: Config, st: State, w: seq<Op>, s: Slot, k: Key)
    requires Inv(c, st) && Stored(st, s, k) && Alone(c, w, k)
    ensures Inv(c, Run(c, st, w)) && (Stored(Run(c, st, w), s, k) <==> KeptBy(c, st, w, s))
  {
    hide Inv, Stored, Keeps, Step, Legal;
    if w != [] {
      var n := |w| - 1;
      var front := w[..n];
      assert forall i | 0 <= i < n :: front[i] == w[i] && front[..i] == w[..i];
      RunStored(c, st, front, s, k);
      StepStored(c, Run(c, st, front), w[n], s, k);
      StepInv(c, Run(c, st, front), w[n]);
    }
  }

  ghost predicate Unexpired(st: State, s: Slot, now: Time) {
    s in st.nodes && !Expired(st.nodes[s].expire, now)
  }

  /** The request's own node is in the table when the backend is asked. */
  lemma {:induction false} StoredAtMiss(c: Config, st: State, k: Key, valuelen: nat, timeout: nat, now: Time)
    requires Inv(c, st) && Buddy.Representable(valuelen, c.unit)
    requires Set(c, st, k, valuelen, timeout, now).1.Some?
    ensures var (st', r) := Set(c, st, k, valuelen, timeout, now);
            Inv(c, SetEnd(st', r.value)) && Stored(SetEnd(st', r.value), r.value, k)
  {
    hide ListsOk, RefsOk, SlotsOk, BlocksOk, BuddyTree.LiveOk, Buddy.Representable, Place;
    SetInv(c, st, k, valuelen, timeout, now);
    KvMarks.StoredNode(c, WithoutKey(c, st, k), k, valuelen, ExpiryFor(timeout, now));
    var (st', r) := Set(c, st, k, valuelen, timeout, now);
    KvMarks.ListsAfterEnd(c, st', r.value);
  }

  /** The assert of the callback holds exactly when no call in between took the request's node out of
      the table and nobody let it expire. */
  lemma {:induction false} TurnIff(c: Config, st: State, w: seq<Op>, k: Key, s: Slot, now: Time)
    requires Inv(c, st) && Stored(st, s, k) && Alone(c, w, k)
    ensures Finds(c, Run(c, st, w), k, now, s) <==> KeptBy(c, st, w, s) && Unexpired(Run(c, st, w), s, now)
  {
    hide ListsOk, Finds, KeptBy;
    RunStored(c, st, w, s, k);
    FindsIff(c, Run(c, st, w), k, now, s);
  }

  // ---------------------------------------------------------------- runs where it fails

  lemma {:induction false} RunOne(c: Config, st: State, op: Op)
    ensures Run(c, st, [op]) == Step(c, st, op)
  {
    hide Step;
    var w := [op];
    assert w[..|w| - 1] == [] && w[|w| - 1] == op;
    assert Run(c, st, []) == st;
  }

  /** A FLUSH in between: the lookup finds nothing. */
  lemma {:induction false} FlushBetween(c: Config, st: State, k: Key, s: Slot, now: Time)
    requires Inv(c, st) && Stored(st, s, k)
    ensures var w := [OpFlush((_: Key) => true)];
            Alone(c, w, k) && Get(c, Run(c, st, w), k, now).1 == NoSuchKey
  {
    hide ListsOk, RefsOk, SlotsOk, BlocksOk, BuddyTree.LiveOk, DropSet, Find;
    var all := (_: Key) => true;
    var w := [OpFlush(all)];
    var st' := Run(c, st, w);
    RunOne(c, st, w[0]);
    StepInv(c, st, w[0]);
    FlushedAll(c, st, all);
    FindListed(c, st', k);
  }

  lemma {:induction false} FlushedAll(c: Config, st: State, all: Key -> bool)
    requires c.buckets > 0 && ListsOk(c, st) && forall k :: all(k)
    ensures Flush(st, all).lru == []
  {
    KeepNone(st.lru, Matching(st, all));
  }

  /** A SET of another key in between, in a store with one node: its slot goes to that key, and it is
      that key's length the callback overwrites. */
  lemma {:induction false} SetBetween(c: Config, st: State, k: Key, b: Key, valuelen: nat, timeout: nat, now: Time)
    requires Inv(c, st) && Stored(st, 0, k) && c.objects == 1 && st.pins == multiset{} && b != k
    requires 0 < valuelen && Buddy.Representable(valuelen, c.unit) && Buddy.UnitsFor(valuelen, c.unit) <= c.nmemb
    ensures var w := [OpSet(b, valuelen, timeout, now)];
            && Alone(c, w, k) && Get(c, Run(c, st, w), k, now).1 == NoSuchKey
            && 0 in Run(c, st, w).nodes && Run(c, st, w).nodes[0].key == b
  {
    hide RefsOk, BlocksOk, BuddyTree.LiveOk, Buddy.Representable, Buddy.UnitsFor, Find, Set, Delete;
    var op := OpSet(b, valuelen, timeout, now);
    var w := [op];
    var st' := Run(c, st, w);
    RunOne(c, st, op);
    StepInv(c, st, op);
    assert |WithoutKey(c, st, b).lru| <= MAX_EVICTIONS by { FewKeys(c, st, b); }
    SetSucceeds(c, st, b, valuelen, timeout, now);
    var s := KvMarks.Gives(c, st, op).value;
    KvMarks.StepMark(c, st, op, s);
    assert s in st'.nodes && s == 0;
    FindListed(c, st', k);
  }

  lemma {:induction false} FewKeys(c: Config, st: State, b: Key)
    requires Inv(c, st) && c.objects == 1
    ensures |WithoutKey(c, st, b).lru| <= MAX_EVICTIONS
  {
    hide RefsOk, BlocksOk, BuddyTree.LiveOk;
    DeleteInv(c, st, b);
    var rest := WithoutKey(c, st, b);
    forall i | 0 <= i < |rest.lru| ensures rest.lru[i] == 0 {
      var s := rest.lru[i];
      assert s in rest.lru && s in rest.nodes && s in rest.used && s < c.objects;
    }
    AtMostOne(rest.lru);
  }

  lemma {:induction false} AtMostOne(s: seq<Slot>)
    requires NoDup(s) && forall i | 0 <= i < |s| :: s[i] == 0
    ensures |s| <= 1
  {
    FirstsDiffer(s);
  }

  lemma {:induction false} FirstsDiffer(s: seq<Slot>)
    requires NoDup(s)
    ensures |s| > 1 ==> s[0] != s[1]
  {
  }
}
