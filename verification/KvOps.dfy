/**
 What each call of server/kv.c does to the store's state, and what holds over every run.
 */
module KvOps {
  import opened Wrappers
  import opened Clock
  import opened BuddyTree
  import opened KvState
  import Powers
  import Buddy
  import Slab

  // ---------------------------------------------------------------- lookup

  ghost function FindIn(chain: seq<Slot>, nodes: Nodes, k: Key): (r: Option<Slot>)
    ensures r.Some? ==> r.value in chain && r.value in nodes && nodes[r.value].key == k
    ensures r.None? ==> forall s | s in chain && s in nodes :: nodes[s].key != k
  {
    if chain == [] then None
    else if chain[0] in nodes && nodes[chain[0]].key == k then Some(chain[0])
    else FindIn(chain[1..], nodes, k)
  }

  ghost function Find(c: Config, st: State, k: Key): Option<Slot> {
    if c.buckets > 0 && Bucket(c, k) < |st.chains| then FindIn(st.chains[Bucket(c, k)], st.nodes, k) else None
  }

  /** A bucket search finds exactly the listed node with that key. */
  lemma {:induction false} FindListed(c: Config, st: State, k: Key)
    requires c.buckets > 0 && ListsOk(c, st)
    ensures Find(c, st, k).Some? ==>
              var s := Find(c, st, k).value; s in st.lru && s in st.nodes && st.nodes[s].key == k
    ensures forall s | s in st.lru && s in st.nodes && st.nodes[s].key == k :: Find(c, st, k) == Some(s)
  {
    var b := Bucket(c, k);
    var chain := st.chains[b];
    forall s | s in st.lru && s in st.nodes && st.nodes[s].key == k
      ensures Find(c, st, k) == Some(s)
    {
      assert s in chain;
    }
  }

  // ---------------------------------------------------------------- the calls

  ghost function Drop(st: State, s: Slot): State { DropSet(st, {s}) }

  datatype GetResult = NoSuchKey | Updating(slot: Slot) | Found(slot: Slot)

  /** priskv_get_key: both Updating and Found leave a reference to be ended. */
  ghost function Get(c: Config, st: State, k: Key, now: Time): (State, GetResult) {
    match Find(c, st, k)
    case None => (st, NoSuchKey)
    case Some(s) =>
      if s !in st.nodes then (st, NoSuchKey)
      else if Expired(st.nodes[s].expire, now) then (Drop(st, s), NoSuchKey)
      else if st.nodes[s].inprocess then (Pin(st, s), Updating(s))
      else (Touch(Pin(st, s), s), Found(s))
  }

  ghost function GetEnd(st: State, s: Slot): State {
    if s in st.pins && s in st.nodes then Unpin(st, s) else st
  }

  /** priskv_set_key_end writes the node at that object, whatever key lives there by then. */
  ghost function SetEnd(st: State, s: Slot): State {
    if s in st.nodes then Rewrite(st, s, st.nodes[s].expire, false) else st
  }

  ghost function Delete(c: Config, st: State, k: Key): State {
    match Find(c, st, k)
    case None => st
    case Some(s) => Drop(st, s)
  }

  function ExpiryFor(timeout: nat, now: Time): Time {
    if timeout < MAX_TIMEOUT then AddMs(now, timeout) else NEVER
  }

  ghost function Expire(c: Config, st: State, k: Key, timeout: nat, now: Time): State {
    match Find(c, st, k)
    case None => st
    case Some(s) =>
      if s !in st.nodes then st
      else if Expired(st.nodes[s].expire, now) then Drop(st, s)
      else if timeout < MAX_TIMEOUT then Rewrite(st, s, AddMs(now, timeout), st.nodes[s].inprocess)
      else st
  }

  ghost function Matching(st: State, p: Key -> bool): set<Slot> {
    set s | s in st.lru && s in st.nodes && p(st.nodes[s].key)
  }

  ghost function Overdue(st: State, now: Time): set<Slot> {
    set s | s in st.lru && s in st.nodes && Expired(st.nodes[s].expire, now)
  }

  ghost function Flush(st: State, p: Key -> bool): State { DropSet(st, Matching(st, p)) }

  ghost function Sweep(st: State, now: Time): State { DropSet(st, Overdue(st, now)) }

  // ---------------------------------------------------------------- SET and eviction

  /** The j least recently used nodes. */
  ghost function Oldest(st: State, j: nat): set<Slot> {
    if j <= |st.lru| then Members(st.lru[|st.lru| - j..]) else Members(st.lru)
  }

  ghost function Evict(st: State, j: nat): State { DropSet(st, Oldest(st, j)) }

  ghost function SlotNow(c: Config, st: State): Option<Slot> {
    Slab.Pick(c.objects, st.used, st.cursor)
  }

  ghost function BlockNow(c: Config, st: State, want: nat): Option<nat> {
    Buddy.RunFor(c.nmemb, st.live, want)
  }

  /** The slab object SET holds after j evictions: the first one any attempt obtained. */
  ghost function SlotAfter(c: Config, st: State, j: nat): Option<Slot> {
    if j > 0 && SlotAfter(c, st, j - 1).Some? then SlotAfter(c, st, j - 1) else SlotNow(c, Evict(st, j))
  }

  ghost function BlockAfter(c: Config, st: State, want: nat, j: nat): Option<nat> {
    if j > 0 && BlockAfter(c, st, want, j - 1).Some? then BlockAfter(c, st, want, j - 1)
    else BlockNow(c, Evict(st, j), want)
  }

  ghost predicate Served(c: Config, st: State, want: nat, j: nat) {
    SlotAfter(c, st, j).Some? && BlockAfter(c, st, want, j).Some?
  }

  /** How many evictions SET makes, having made j already. */
  ghost function Evictions(c: Config, st: State, want: nat, j: nat): nat
    decreases |st.lru| - j
  {
    if Served(c, st, want, j) || j >= |st.lru| || j >= MAX_EVICTIONS then j
    else Evictions(c, st, want, j + 1)
  }

  /** SET first unlinks any old value of the key. */
  ghost function WithoutKey(c: Config, st: State, k: Key): State { Delete(c, st, k) }

  ghost function NewNode(k: Key, block: nat, valuelen: nat, expire: Time): Node {
    Node(k, block, valuelen, expire, true, 1)
  }

  /** SET once the old value is gone: evict, then insert or give up. */
  ghost function Place(c: Config, st: State, k: Key, valuelen: nat, expire: Time): (State, Option<Slot>) {
    if c.unit == 0 || c.buckets == 0 || |st.chains| != c.buckets then (st, None) else
    var want := Buddy.UnitsFor(valuelen, c.unit);
    var j := Evictions(c, st, want, 0);
    var slot, block, st1 := SlotAfter(c, st, j), BlockAfter(c, st, want, j), Evict(st, j);
    if slot.Some? && block.Some? then
      (Insert(c, st1, slot.value, NewNode(k, block.value, valuelen, expire)), slot)
    else
      (st1.(cursor := if slot.Some? then slot.value / Slab.BITS else st1.cursor), None)
  }

  ghost function Set(c: Config, st: State, k: Key, valuelen: nat, timeout: nat, now: Time): (State, Option<Slot>) {
    Place(c, WithoutKey(c, st, k), k, valuelen, ExpiryFor(timeout, now))
  }

  // ---------------------------------------------------------------- eviction lemmas

  lemma {:induction false} OldestListed(st: State, j: nat)
    ensures Oldest(st, j) <= Members(st.lru)
  {
  }

  lemma {:induction false} EvictLru(st: State, j: nat)
    requires NoDup(st.lru) && j <= |st.lru|
    ensures Evict(st, j).lru == st.lru[..|st.lru| - j]
  {
    KeepPrefix(st.lru, |st.lru| - j);
  }

  /** One more eviction drops the tail of what the evictions so far left. */
  lemma {:induction false} EvictNext(st: State, j: nat)
    requires NoDup(st.lru) && j < |st.lru|
    ensures Evict(st, j).lru != [] && Evict(st, j).lru[|Evict(st, j).lru| - 1] == st.lru[|st.lru| - j - 1]
    ensures Evict(st, j + 1) == Drop(Evict(st, j), st.lru[|st.lru| - j - 1])
  {
    var n := |st.lru| - j;
    EvictLru(st, j);
    var tail := st.lru[n - 1];
    assert st.lru[n - 1..] == [tail] + st.lru[n..];
    assert Oldest(st, j + 1) == Oldest(st, j) + {tail};
    DropSetTwice(st, Oldest(st, j), {tail});
  }

  lemma {:induction false} EvictZero(st: State)
    ensures Evict(st, 0) == st
  {
    assert Oldest(st, 0) == {};
    DropSetNone(st);
  }

  /** Evicting more never takes a free object or a free run away. */
  lemma {:induction false} EvictFrees(st: State, i: nat, j: nat)
    requires i <= j <= |st.lru|
    ensures Evict(st, j).used <= Evict(st, i).used
    ensures Evict(st, j).live.Keys <= Evict(st, i).live.Keys
    ensures forall o | o in Evict(st, j).live :: Evict(st, j).live[o] == Evict(st, i).live[o]
  {
    var n := |st.lru|;
    assert st.lru[n - j..] == st.lru[n - j..n - i] + st.lru[n - i..];
    assert Oldest(st, i) <= Oldest(st, j);
    assert Gone(st.nodes, Oldest(st, i)) <= Gone(st.nodes, Oldest(st, j));
  }

  lemma {:induction false} EvictInv(c: Config, st: State, j: nat)
    requires Inv(c, st)
    ensures Inv(c, Evict(st, j))
  {
    OldestListed(st, j);
    DropSetInv(c, st, Oldest(st, j));
  }

  /** The object obtained at some attempt is still unused after all j evictions. */
  lemma {:induction false} SlotAfterFree(c: Config, st: State, j: nat)
    requires Slab.BITS * st.cursor <= c.objects && j <= |st.lru|
    ensures SlotAfter(c, st, j).Some? ==>
              SlotAfter(c, st, j).value !in Evict(st, j).used && SlotAfter(c, st, j).value < c.objects
    ensures SlotAfter(c, st, j).Some? <==> SlotNow(c, Evict(st, j)).Some?
  {
    if j > 0 && SlotAfter(c, st, j - 1).Some? {
      SlotAfterFree(c, st, j - 1);
      EvictFrees(st, j - 1, j);
    }
  }

  /** SET keeps the object it could get first: the pick after as few evictions as give one. */
  lemma {:induction false} SlotFirst(c: Config, st: State, i: nat, j: nat)
    requires i <= j && SlotNow(c, Evict(st, i)).Some? && forall k: nat | k < i :: SlotNow(c, Evict(st, k)).None?
    ensures SlotAfter(c, st, j) == SlotNow(c, Evict(st, i))
    decreases j
  {
    hide SlotNow, Evict;
    if j > 0 {
      if i < j { SlotFirst(c, st, i, j - 1); } else { SlotNone(c, st, j - 1); }
    }
  }

  lemma {:induction false} SlotNone(c: Config, st: State, j: nat)
    requires forall k: nat | k <= j :: SlotNow(c, Evict(st, k)).None?
    ensures SlotAfter(c, st, j).None?
  {
    hide SlotNow, Evict;
    if j > 0 { SlotNone(c, st, j - 1); }
  }

  /** And the value block likewise. */
  lemma {:induction false} BlockFirst(c: Config, st: State, want: nat, i: nat, j: nat)
    requires i <= j && BlockNow(c, Evict(st, i), want).Some?
    requires forall k: nat | k < i :: BlockNow(c, Evict(st, k), want).None?
    ensures BlockAfter(c, st, want, j) == BlockNow(c, Evict(st, i), want)
    decreases j
  {
    hide BlockNow, Evict;
    if j > 0 {
      if i < j { BlockFirst(c, st, want, i, j - 1); } else { BlockNone(c, st, want, j - 1); }
    }
  }

  lemma {:induction false} BlockNone(c: Config, st: State, want: nat, j: nat)
    requires forall k: nat | k <= j :: BlockNow(c, Evict(st, k), want).None?
    ensures BlockAfter(c, st, want, j).None?
  {
    hide BlockNow, Evict;
    if j > 0 { BlockNone(c, st, want, j - 1); }
  }

  ghost predicate FreeBlock(c: Config, live: Live, want: nat, o: nat) {
    IsBlock(c.nmemb, o, want) && RunFree(live, o, want)
  }

  lemma {:induction false} FewerLive(live: Live, live': Live, o: nat, s: nat)
    requires RunFree(live, o, s) && live'.Keys <= live.Keys && forall p | p in live' :: live'[p] == live[p]
    ensures RunFree(live', o, s)
  {
  }

  lemma {:induction false} BlockAfterFree(c: Config, st: State, want: nat, j: nat)
    requires (want == 0 || Powers.IsPow2(want)) && j <= |st.lru|
    ensures BlockAfter(c, st, want, j).Some? ==>
              FreeBlock(c, Evict(st, j).live, want, BlockAfter(c, st, want, j).value)
    ensures BlockAfter(c, st, want, j).Some? <==> BlockNow(c, Evict(st, j), want).Some?
  {
    if want > 0 { Buddy.FirstRunIsLowest(c.nmemb, Evict(st, j).live, want, 0); }
    if j > 0 && BlockAfter(c, st, want, j - 1).Some? {
      BlockAfterFree(c, st, want, j - 1);
      EvictFrees(st, j - 1, j);
      FewerLive(Evict(st, j - 1).live, Evict(st, j).live, BlockAfter(c, st, want, j).value, want);
    }
  }

  /** Both allocators could serve the request in state st. */
  ghost predicate CanServe(c: Config, st: State, want: nat) {
    SlotNow(c, st).Some? && BlockNow(c, st, want).Some?
  }

  lemma {:induction false} ServedIff(c: Config, st: State, want: nat, j: nat)
    requires Inv(c, st) && (want == 0 || Powers.IsPow2(want)) && j <= |st.lru|
    ensures Served(c, st, want, j) <==> CanServe(c, Evict(st, j), want)
  {
    SlotAfterFree(c, st, j);
    BlockAfterFree(c, st, want, j);
  }

  /** The loop stops at the first eviction count that serves the request, or at its bounds. */
  lemma {:induction false} EvictionsBound(c: Config, st: State, want: nat, j: nat)
    requires j <= |st.lru| && j <= MAX_EVICTIONS
    ensures var k := Evictions(c, st, want, j);
            j <= k <= |st.lru| && k <= MAX_EVICTIONS
            && (Served(c, st, want, k) || k == |st.lru| || k == MAX_EVICTIONS)
            && forall i | j <= i < k :: !Served(c, st, want, i)
    decreases |st.lru| - j
  {
    hide Served;
    if !(Served(c, st, want, j) || j >= |st.lru| || j >= MAX_EVICTIONS) {
      EvictionsBound(c, st, want, j + 1);
    }
  }
}
