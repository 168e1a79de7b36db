/**
 Open GETs, counted from the calls and their answers: a GET that is answered with a node, in
 process or not, opens one on its slot; a GET-end on the slot closes one if any is open
 (server/kv.c:341, 358-403). What the store's references amount to, over every run.
 */
module KvPins {
  import opened Wrappers
  import opened Clock
  import opened KvState
  import opened KvOps
  import opened KvRuns
  import KvMarks
  import BuddyTree
  import Buddy

  /** The slot a GET is answered with. */
  ghost function Answer(c: Config, st: State, op: Op): Option<Slot> {
    if !op.OpGet? then None
    else match Get(c, st, op.key, op.now).1
         case NoSuchKey => None
         case Updating(s) => Some(s)
         case Found(s) => Some(s)
  }

  /** GETs on slot s answered and not yet ended. */
  ghost function Open(c: Config, ops: seq<Op>, s: Slot): nat {
    if ops == [] then 0
    else
      var front, op := ops[..|ops| - 1], ops[|ops| - 1];
      var n := Open(c, front, s);
      if Answer(c, KvMarks.After(c, front), op) == Some(s) then n + 1
      else if op == OpGetEnd(s) && n > 0 then n - 1
      else n
  }

  // ---------------------------------------------------------------- references are the open GETs

  lemma {:induction false} DropPins(st: State, d: set<Slot>)
    ensures DropSet(st, d).pins == st.pins
  {
    hide DropNodes, DropChains, Keep, BlocksOf, Gone;
  }

  lemma {:induction false} GetPins(c: Config, st: State, k: Key, now: Time, s: Slot)
    ensures Get(c, st, k, now).0.pins[s] ==
            st.pins[s] + if Answer(c, st, OpGet(k, now)) == Some(s) then 1 else 0
  {
    hide Find, DropSet;
    if Find(c, st, k).Some? { DropPins(st, {Find(c, st, k).value}); }
  }

  lemma {:induction false} GetEndPins(st: State, t: Slot, s: Slot)
    requires RefsOk(st)
    ensures GetEnd(st, t).pins[s] == if t == s && st.pins[s] > 0 then st.pins[s] - 1 else st.pins[s]
  {
    assert t in st.pins ==> t in st.nodes;
  }

  lemma {:induction false} StepPins(c: Config, st: State, op: Op, s: Slot)
    requires Inv(c, st)
    ensures Step(c, st, op).pins[s] ==
            if Answer(c, st, op) == Some(s) then st.pins[s] + 1
            else if op == OpGetEnd(s) && st.pins[s] > 0 then st.pins[s] - 1
            else st.pins[s]
  {
    hide ListsOk, RefsOk, SlotsOk, BlocksOk, BuddyTree.LiveOk, Find, DropSet, Get, GetEnd, Set;
    match op
    case OpGet(k, now) => GetPins(c, st, k, now, s);
    case OpGetEnd(t) => GetEndPins(st, t, s);
    case OpSet(k, valuelen, timeout, now) => SetPins(c, st, k, valuelen, timeout, now);
    case OpSetEnd(t) =>
    case OpDelete(k) => if Find(c, st, k).Some? { DropPins(st, {Find(c, st, k).value}); }
    case OpExpire(k, timeout, now) => if Find(c, st, k).Some? { DropPins(st, {Find(c, st, k).value}); }
    case OpFlush(p) => DropPins(st, Matching(st, p));
    case OpSweep(now) => DropPins(st, Overdue(st, now));
  }

  lemma {:induction false} SetPins(c: Config, st: State, k: Key, valuelen: nat, timeout: nat, now: Time)
    ensures Set(c, st, k, valuelen, timeout, now).0.pins == st.pins
  {
    hide Find, SlotAfter, BlockAfter, Evictions, Buddy.UnitsFor;
  }

  /** In every run a slot has exactly as many references beside the table's as it has open GETs. */
  lemma {:induction false} PinsExact(c: Config, ops: seq<Op>, s: Slot)
    requires ConfigOk(c) && forall op | op in ops :: Legal(c, op)
    ensures KvMarks.After(c, ops).pins[s] == Open(c, ops, s)
    ensures s in KvMarks.After(c, ops).nodes ==>
              KvMarks.After(c, ops).nodes[s].refcnt
              == Open(c, ops, s) + if s in KvMarks.After(c, ops).lru then 1 else 0
  {
    hide ListsOk, SlotsOk, BlocksOk, BuddyTree.LiveOk, Step, Answer;
    RunInv(c, ops);
    if ops != [] {
      var front := ops[..|ops| - 1];
      PinsExact(c, front, s);
      RunInv(c, front);
      StepPins(c, KvMarks.After(c, front), ops[|ops| - 1], s);
    }
  }

  /** A slot is in use exactly while its node is in the table or a GET on it is open. */
  lemma {:induction false} UsedExact(c: Config, ops: seq<Op>, s: Slot)
    requires ConfigOk(c) && forall op | op in ops :: Legal(c, op)
    ensures s in KvMarks.After(c, ops).used <==> s in KvMarks.After(c, ops).lru || Open(c, ops, s) > 0
  {
    hide ListsOk, RefsOk, SlotsOk, BlocksOk, BuddyTree.LiveOk;
    RunInv(c, ops);
    PinsExact(c, ops, s);
    NoLeak(c, KvMarks.After(c, ops));
  }

  // ---------------------------------------------------------------- what an open GET protects

  /** Call number j of the run gives a new value slot t and a block. */
  ghost predicate GivesAt(c: Config, ops: seq<Op>, j: nat, t: Slot, block: nat) {
    && j < |ops| && KvMarks.Gives(c, KvMarks.After(c, ops[..j]), ops[j]) == Some(t)
    && t in KvMarks.After(c, ops[..j + 1]).nodes && KvMarks.After(c, ops[..j + 1]).nodes[t].block == block
  }

  lemma {:induction false} LegalPrefix(c: Config, ops: seq<Op>, i: nat)
    requires i <= |ops| && forall op | op in ops :: Legal(c, op)
    ensures forall op | op in ops[..i] :: Legal(c, op)
  {
  }

  lemma {:induction false} RunMore(c: Config, ops: seq<Op>, i: nat)
    requires i < |ops|
    ensures KvMarks.After(c, ops[..i + 1]) == Step(c, KvMarks.After(c, ops[..i]), ops[i])
  {
    hide Step;
    var u := ops[..i + 1];
    assert u[..|u| - 1] == ops[..i] && u[|u| - 1] == ops[i];
  }

  /** A GET is open on slot s from call a on up to call b. */
  ghost predicate OpenThrough(c: Config, ops: seq<Op>, a: nat, b: nat, s: Slot) {
    forall i: nat | a <= i <= b && i <= |ops| :: Open(c, ops[..i], s) > 0
  }

  /** While a GET on a slot is open, the node at that slot keeps key, length and block. */
  lemma {:induction false} OpenKeeps(c: Config, ops: seq<Op>, a: nat, b: nat, s: Slot)
    requires ConfigOk(c) && (forall op | op in ops :: Legal(c, op)) && a <= b <= |ops| && OpenThrough(c, ops, a, b, s)
    ensures Kept(KvMarks.After(c, ops[..a]), KvMarks.After(c, ops[..b]), s)
    decreases b
  {
    hide ListsOk, RefsOk, SlotsOk, BlocksOk, BuddyTree.LiveOk, Step, Kept, Open, KvMarks.After;
    LegalPrefix(c, ops, b);
    assert Open(c, ops[..b], s) > 0;
    PinsExact(c, ops[..b], s);
    AfterInv(c, ops[..b]);
    if a == b {
      PinnedHasBlock(c, KvMarks.After(c, ops[..b]), s);
    } else {
      OpenKeeps(c, ops, a, b - 1, s);
      LegalPrefix(c, ops, b - 1);
      assert Open(c, ops[..b - 1], s) > 0;
      PinsExact(c, ops[..b - 1], s);
      AfterInv(c, ops[..b - 1]);
      RunMore(c, ops, b - 1);
      assert ops[b - 1] in ops;
      StepKept(c, KvMarks.After(c, ops[..b - 1]), ops[b - 1], s);
      KeptTrans(KvMarks.After(c, ops[..a]), KvMarks.After(c, ops[..b - 1]), KvMarks.After(c, ops[..b]), s);
    }
  }

  lemma {:induction false} AfterInv(c: Config, ops: seq<Op>)
    requires ConfigOk(c) && forall op | op in ops :: Legal(c, op)
    ensures Inv(c, KvMarks.After(c, ops))
  {
    hide Inv;
    RunInv(c, ops);
  }

  /** Between a GET's answer and its GET-end neither its slot nor its block is given out. */
  lemma {:induction false} OpenNotGiven(c: Config, ops: seq<Op>, a: nat, j: nat, s: Slot, t: Slot, block: nat)
    requires ConfigOk(c) && (forall op | op in ops :: Legal(c, op)) && a <= j < |ops|
    requires OpenThrough(c, ops, a, j + 1, s) && GivesAt(c, ops, j, t, block)
    ensures t != s && s in KvMarks.After(c, ops[..a]).nodes && KvMarks.After(c, ops[..a]).nodes[s].block != block
  {
    hide ListsOk, RefsOk, SlotsOk, BlocksOk, BuddyTree.LiveOk, Step, Open, KvMarks.After, Buddy.Representable;
    OpenKeeps(c, ops, a, j + 1, s);
    LegalPrefix(c, ops, j);
    LegalPrefix(c, ops, j + 1);
    AfterInv(c, ops[..j]);
    AfterInv(c, ops[..j + 1]);
    assert Open(c, ops[..j], s) > 0;
    PinsExact(c, ops[..j], s);
    assert ops[j] in ops;
    GivesNew(c, KvMarks.After(c, ops[..j]), ops[j], s);
    if KvMarks.After(c, ops[..j + 1]).nodes[s].block == block {
      SameBlockSameSlot(c, KvMarks.After(c, ops[..j + 1]), s, t);
    }
  }

  lemma {:induction false} GivesNew(c: Config, st: State, op: Op, s: Slot)
    requires Inv(c, st) && Legal(c, op) && s in st.pins
    ensures KvMarks.Gives(c, st, op) != Some(s)
  {
    hide Inv, Set;
    if op.OpSet? { SetKept(c, st, op.key, op.valuelen, op.timeout, op.now, s); }
  }

  lemma {:induction false} SameBlockSameSlot(c: Config, st: State, s: Slot, t: Slot)
    requires Inv(c, st) && s in st.nodes && t in st.nodes && st.nodes[s].block == st.nodes[t].block
    ensures s == t
  {
  }

  /** GET a, DELETE a, SET b with the GET open: the node of a stays, and b gets another slot and
      another block. */
  lemma {:induction false} ReadersKept(c: Config, st: State, op: Op, k: Key, now: Time, s: Slot)
    requires Inv(c, st) && Legal(c, op) && Get(c, st, k, now).1 == Found(s)
    ensures var st1 := Delete(c, Get(c, st, k, now).0, k);
            && s in st.nodes && s in st1.nodes && s !in st1.lru && KvMarks.Gives(c, st1, op) != Some(s)
            && Kept(st1, st1, s) && st1.nodes[s].block == st.nodes[s].block
  {
    hide ListsOk, RefsOk, SlotsOk, BlocksOk, BuddyTree.LiveOk, Set;
    var st0 := Get(c, st, k, now).0;
    GetInv(c, st, k, now);
    DeleteInv(c, st0, k);
    var st1 := Delete(c, st0, k);
    StepPins(c, st, OpGet(k, now), s);
    StepPins(c, st0, OpDelete(k), s);
    assert s in st0.pins && s in st1.pins;
    PinnedHasBlock(c, st1, s);
    GivesNew(c, st1, op, s);
    FoundNode(c, st, k, now, s);
    DeleteKept(c, st0, k, s);
    DeleteAbsent(c, st0, k);
  }

  lemma {:induction false} FoundNode(c: Config, st: State, k: Key, now: Time, s: Slot)
    requires Inv(c, st) && Get(c, st, k, now).1 == Found(s)
    ensures s in st.nodes && st.nodes[s].key == k && s in Get(c, st, k, now).0.nodes
    ensures Get(c, st, k, now).0.nodes[s].block == st.nodes[s].block
    ensures Get(c, st, k, now).0.nodes[s].key == k
  {
    FindListed(c, st, k);
  }
}
