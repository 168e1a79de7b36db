/**
 The state of the key-value store (server/kv.c) between two API calls, and what every
 call does to it. Key nodes are slab objects; a node's value is a buddy block. The hash
 chains, the LRU list (most recent first), the nodes, both allocators and the open GETs
 are one value here; class Kv.Store implements these functions in place.
 */
module KvState {
  import opened Wrappers
  import opened Clock
  import opened BuddyTree
  import Powers
  import Buddy
  import Slab

  type Key = Bytes
  type Slot = nat

  const MAX_EVICTIONS: nat := 129

  datatype Config = Config(hash: Key -> nat, buckets: nat, objects: nat, nmemb: nat, unit: nat)

  datatype Node = Node(key: Key, block: nat, valuelen: nat, expire: Time, inprocess: bool, refcnt: nat)

  type Nodes = map<Slot, Node>

  datatype State = State(
    chains: seq<seq<Slot>>,
    lru: seq<Slot>,
    nodes: Nodes,
    used: set<Slot>,
    cursor: nat,
    live: Live,
    pins: multiset<Slot>)

  // ---------------------------------------------------------------- lists

  ghost predicate NoDup(s: seq<Slot>) {
    forall i, j | 0 <= i < j < |s| :: s[i] != s[j]
  }

  /** The list without the members of d, order kept. */
  ghost function Keep(s: seq<Slot>, d: set<Slot>): (r: seq<Slot>)
    ensures forall x :: x in r <==> x in s && x !in d
    ensures NoDup(s) ==> NoDup(r)
    ensures |r| <= |s|
  {
    if s == [] then []
    else if s[0] in d then Keep(s[1..], d)
    else [s[0]] + Keep(s[1..], d)
  }

  ghost function Members(s: seq<Slot>): set<Slot> { set x | x in s }

  lemma {:induction false} KeepTwice(s: seq<Slot>, d: set<Slot>, e: set<Slot>)
    ensures Keep(Keep(s, d), e) == Keep(s, d + e)
  {
    if s != [] {
      KeepTwice(s[1..], d, e);
      var k := Keep(s[1..], d);
      if s[0] !in d { assert ([s[0]] + k)[1..] == k; }
    }
  }

  lemma {:induction false} KeepAll(s: seq<Slot>, d: set<Slot>)
    requires forall x | x in s :: x !in d
    ensures Keep(s, d) == s
  {
    if s != [] {
      assert s[0] in s;
      KeepAll(s[1..], d);
    }
  }

  lemma {:induction false} KeepAppend(s: seq<Slot>, t: seq<Slot>, d: set<Slot>)
    ensures Keep(s + t, d) == Keep(s, d) + Keep(t, d)
  {
    if s == [] {
      assert s + t == t;
    } else {
      assert (s + t)[1..] == s[1..] + t;
      KeepAppend(s[1..], t, d);
    }
  }

  lemma {:induction false} KeepNone(s: seq<Slot>, d: set<Slot>)
    requires forall x | x in s :: x in d
    ensures Keep(s, d) == []
  {
    if Keep(s, d) != [] { assert Keep(s, d)[0] in Keep(s, d); }
  }

  /** Dropping the last j members of a duplicate-free list takes exactly its tail. */
  lemma {:induction false} KeepPrefix(s: seq<Slot>, n: nat)
    requires NoDup(s) && n <= |s|
    ensures Keep(s, Members(s[n..])) == s[..n]
  {
    var d := Members(s[n..]);
    assert s == s[..n] + s[n..];
    KeepAppend(s[..n], s[n..], d);
    KeepAll(s[..n], d);
    KeepNone(s[n..], d);
  }

  // ---------------------------------------------------------------- the invariant

  function Bucket(c: Config, k: Key): nat
    requires c.buckets > 0
  {
    c.hash(k) % c.buckets
  }

  ghost predicate ConfigOk(c: Config) {
    c.buckets > 0 && c.objects > 0 && c.unit > 0 && Powers.IsPow2(c.nmemb) && c.nmemb <= Buddy.MAX_UNITS
  }

  /** Hash chains and LRU list hold the same nodes, each key once and in its bucket. */
  ghost predicate ListsOk(c: Config, st: State)
    requires c.buckets > 0
  {
    && |st.chains| == c.buckets
    && NoDup(st.lru)
    && (forall s | s in st.lru :: s in st.nodes)
    && (forall b | 0 <= b < |st.chains| :: NoDup(st.chains[b]))
    && (forall b, s | 0 <= b < |st.chains| ::
          s in st.chains[b] <==> s in st.lru && s in st.nodes && Bucket(c, st.nodes[s].key) == b)
    && (forall s, t | s in st.lru && t in st.lru && s in st.nodes && t in st.nodes
          && st.nodes[s].key == st.nodes[t].key :: s == t)
  }

  function Listed(st: State, s: Slot): nat { if s in st.lru then 1 else 0 }

  /** A node's count is one for the table plus one for every open GET, and never zero. */
  ghost predicate RefsOk(st: State) {
    && (forall s | s in st.nodes :: st.nodes[s].refcnt == Listed(st, s) + st.pins[s] > 0)
    && (forall s | s in st.pins :: s in st.nodes)
  }

  /** The slab has handed out exactly the nodes. */
  ghost predicate SlotsOk(c: Config, st: State) {
    && st.used == st.nodes.Keys
    && (forall s | s in st.used :: s < c.objects)
    && Slab.BITS * st.cursor < c.objects
  }

  ghost predicate Owned(nodes: Nodes, o: nat) {
    exists s :: s in nodes && nodes[s].block == o
  }

  ghost predicate HasBlock(unit: nat, live: Live, n: Node) {
    unit > 0 && n.block in live && live[n.block] == Buddy.UnitsFor(n.valuelen, unit)
  }

  ghost predicate OwnBlocks(nodes: Nodes) {
    forall s, t | s in nodes && t in nodes && nodes[s].block == nodes[t].block :: s == t
  }

  /** The buddy tree has handed out exactly one block per node, of the size asked for. */
  ghost predicate BlocksOk(c: Config, st: State) {
    && (forall s | s in st.nodes :: HasBlock(c.unit, st.live, st.nodes[s]))
    && OwnBlocks(st.nodes)
    && (forall o | o in st.live :: Owned(st.nodes, o))
  }

  ghost predicate Inv(c: Config, st: State) {
    ConfigOk(c) && ListsOk(c, st) && RefsOk(st) && SlotsOk(c, st) && BlocksOk(c, st)
    && LiveOk(c.nmemb, st.live)
  }

  ghost function Empty(c: Config): State {
    State(seq(c.buckets, _ => []), [], map[], {}, 0, map[], multiset{})
  }

  lemma {:induction false} EmptyInv(c: Config)
    requires ConfigOk(c)
    ensures Inv(c, Empty(c))
  {
  }

  // ---------------------------------------------------------------- removing keys

  /** Members of d that nothing else refers to. */
  ghost function Gone(nodes: Nodes, d: set<Slot>): set<Slot> {
    set s | s in d && s in nodes && nodes[s].refcnt == 1
  }

  ghost function BlocksOf(nodes: Nodes, g: set<Slot>): set<nat> {
    set s | s in g && s in nodes :: nodes[s].block
  }

  function Less(n: Node): Node {
    n.(refcnt := if n.refcnt == 0 then 0 else n.refcnt - 1)
  }

  ghost function DropNodes(nodes: Nodes, d: set<Slot>): Nodes {
    map s | s in nodes && s !in Gone(nodes, d) :: if s in d then Less(nodes[s]) else nodes[s]
  }

  ghost function DropChains(chains: seq<seq<Slot>>, d: set<Slot>): (r: seq<seq<Slot>>)
    ensures |r| == |chains|
  {
    seq(|chains|, b requires 0 <= b < |chains| => Keep(chains[b], d))
  }

  /** Unlinks the nodes d from their chains and the LRU list and drops the table's
      reference to each; those without an open GET give both allocations back. */
  ghost function DropSet(st: State, d: set<Slot>): State {
    var g := Gone(st.nodes, d);
    State(DropChains(st.chains, d), Keep(st.lru, d), DropNodes(st.nodes, d),
          st.used - g, st.cursor, st.live - BlocksOf(st.nodes, g), st.pins)
  }

  lemma {:induction false} DropSetInv(c: Config, st: State, d: set<Slot>)
    requires Inv(c, st) && d <= Members(st.lru)
    ensures Inv(c, DropSet(st, d))
  {
    DropSetLists(c, st, d);
    DropSetRefs(st, d);
    DropSetSlots(c, st, d);
    DropSetBlocks(c, st, d);
    LiveOkLess(c.nmemb, st.live, BlocksOf(st.nodes, Gone(st.nodes, d)));
  }

  lemma {:induction false} DropSetLists(c: Config, st: State, d: set<Slot>)
    requires c.buckets > 0 && ListsOk(c, st) && RefsOk(st) && d <= Members(st.lru)
    ensures ListsOk(c, DropSet(st, d))
  {
  }

  lemma {:induction false} DropSetRefs(st: State, d: set<Slot>)
    requires RefsOk(st) && d <= Members(st.lru)
    ensures RefsOk(DropSet(st, d))
  {
    var st' := DropSet(st, d);
    forall s | s in st'.nodes
      ensures st'.nodes[s].refcnt == Listed(st', s) + st'.pins[s] > 0
    {
      assert s in d ==> s in st.lru;
    }
    forall s | s in st'.pins
      ensures s in st'.nodes
    {
      assert s in st.nodes;
    }
  }

  lemma {:induction false} DropSetSlots(c: Config, st: State, d: set<Slot>)
    requires SlotsOk(c, st)
    ensures SlotsOk(c, DropSet(st, d))
  {
  }

  lemma {:induction false} LiveOkLess(n: nat, live: Live, x: set<nat>)
    requires LiveOk(n, live)
    ensures LiveOk(n, live - x)
  {
  }

  lemma {:induction false} DropSetBlocks(c: Config, st: State, d: set<Slot>)
    requires BlocksOk(c, st)
    ensures BlocksOk(c, DropSet(st, d))
  {
    var st' := DropSet(st, d);
    OwnBlocksLess(st.nodes, d);
    forall s | s in st'.nodes
      ensures HasBlock(c.unit, st'.live, st'.nodes[s])
    {
      assert HasBlock(c.unit, st.live, st.nodes[s]);
      KeepsBlock(st.nodes, d, s);
    }
    forall o | o in st'.live
      ensures Owned(st'.nodes, o)
    {
      assert Owned(st.nodes, o);
      KeepsOwner(st.nodes, d, o);
    }
  }

  lemma {:induction false} OwnBlocksLess(nodes: Nodes, d: set<Slot>)
    requires OwnBlocks(nodes)
    ensures OwnBlocks(DropNodes(nodes, d))
  {
  }

  lemma {:induction false} KeepsBlock(nodes: Nodes, d: set<Slot>, s: Slot)
    requires OwnBlocks(nodes) && s in DropNodes(nodes, d)
    ensures DropNodes(nodes, d)[s].block == nodes[s].block
    ensures nodes[s].block !in BlocksOf(nodes, Gone(nodes, d))
  {
  }

  lemma {:induction false} KeepsOwner(nodes: Nodes, d: set<Slot>, o: nat)
    requires Owned(nodes, o) && o !in BlocksOf(nodes, Gone(nodes, d))
    ensures Owned(DropNodes(nodes, d), o)
  {
    var s :| s in nodes && nodes[s].block == o;
    assert s !in Gone(nodes, d);
    assert s in DropNodes(nodes, d) && DropNodes(nodes, d)[s].block == o;
  }

  /** Dropping two disjoint sets one after the other is dropping their union. */
  lemma {:induction false} DropSetTwice(st: State, d: set<Slot>, e: set<Slot>)
    requires d !! e
    ensures DropSet(DropSet(st, d), e) == DropSet(st, d + e)
  {
    KeepTwice(st.lru, d, e);
    ChainsTwice(st.chains, d, e);
    NodesTwice(st.nodes, d, e);
    var st1 := DropSet(st, d);
    assert Gone(st.nodes, d + e) == Gone(st.nodes, d) + Gone(st.nodes, e);
    assert BlocksOf(st.nodes, Gone(st.nodes, d + e))
        == BlocksOf(st.nodes, Gone(st.nodes, d)) + BlocksOf(st.nodes, Gone(st.nodes, e));
    MinusTwice(st.live, BlocksOf(st.nodes, Gone(st.nodes, d)), BlocksOf(st.nodes, Gone(st.nodes, e)));
    assert st.used - Gone(st.nodes, d) - Gone(st.nodes, e) == st.used - Gone(st.nodes, d + e);
  }

  lemma {:induction false} MinusTwice(m: Live, a: set<nat>, b: set<nat>)
    ensures m - a - b == m - (a + b)
  {
  }

  lemma {:induction false} ChainsTwice(chains: seq<seq<Slot>>, d: set<Slot>, e: set<Slot>)
    ensures DropChains(DropChains(chains, d), e) == DropChains(chains, d + e)
  {
    forall i | 0 <= i < |chains|
      ensures DropChains(DropChains(chains, d), e)[i] == DropChains(chains, d + e)[i]
    {
      KeepTwice(chains[i], d, e);
    }
  }

  lemma {:induction false} NodesTwice(nodes: Nodes, d: set<Slot>, e: set<Slot>)
    requires d !! e
    ensures DropNodes(DropNodes(nodes, d), e) == DropNodes(nodes, d + e)
    ensures Gone(DropNodes(nodes, d), e) == Gone(nodes, e)
    ensures BlocksOf(DropNodes(nodes, d), Gone(nodes, e)) == BlocksOf(nodes, Gone(nodes, e))
  {
    assert Gone(DropNodes(nodes, d), e) == Gone(nodes, e);
  }

  lemma {:induction false} ChainsNone(chains: seq<seq<Slot>>)
    ensures DropChains(chains, {}) == chains
  {
    forall i | 0 <= i < |chains|
      ensures DropChains(chains, {})[i] == chains[i]
    {
      KeepAll(chains[i], {});
    }
  }

  lemma {:induction false} DropSetNone(st: State)
    ensures DropSet(st, {}) == st
  {
    hide Keep, DropChains;
    KeepAll(st.lru, {});
    ChainsNone(st.chains);
    assert DropNodes(st.nodes, {}) == st.nodes;
    assert st.live - {} == st.live;
  }

  // ---------------------------------------------------------------- other primitive changes

  /** A GET takes a reference. */
  ghost function Pin(st: State, s: Slot): State
    requires s in st.nodes
  {
    st.(nodes := st.nodes[s := st.nodes[s].(refcnt := st.nodes[s].refcnt + 1)], pins := st.pins + multiset{s})
  }

  lemma {:induction false} PinInv(c: Config, st: State, s: Slot)
    requires Inv(c, st) && s in st.nodes
    ensures Inv(c, Pin(st, s))
  {
    hide ListsOk, RefsOk, SlotsOk, BlocksOk, LiveOk;
    NodeFieldsInv(c, st, s, Pin(st, s).nodes[s], Pin(st, s));
    PinRefs(st, s);
  }

  lemma {:induction false} PinRefs(st: State, s: Slot)
    requires RefsOk(st) && s in st.nodes
    ensures RefsOk(Pin(st, s))
  {
  }

  /** Rewriting a node without changing its key, block or length keeps lists and allocations. */
  lemma {:induction false} NodeFieldsInv(c: Config, st: State, s: Slot, n: Node, st': State)
    requires Inv(c, st) && s in st.nodes
    requires n.key == st.nodes[s].key && n.block == st.nodes[s].block && n.valuelen == st.nodes[s].valuelen
    requires st' == st.(nodes := st.nodes[s := n], pins := st'.pins)
    ensures ListsOk(c, st') && SlotsOk(c, st') && BlocksOk(c, st')
  {
    hide ListsOk, RefsOk, BlocksOk, LiveOk;
    SameKeysLists(c, st, st');
    SameBlocks(c, st, st');
  }

  lemma {:induction false} SameKeysLists(c: Config, st: State, st': State)
    requires c.buckets > 0 && ListsOk(c, st) && st'.chains == st.chains && st'.lru == st.lru
    requires st'.nodes.Keys == st.nodes.Keys && forall s | s in st.nodes :: st'.nodes[s].key == st.nodes[s].key
    ensures ListsOk(c, st')
  {
  }

  lemma {:induction false} SameBlocks(c: Config, st: State, st': State)
    requires BlocksOk(c, st) && st'.live == st.live && st'.nodes.Keys == st.nodes.Keys
    requires forall s | s in st.nodes ::
               st'.nodes[s].block == st.nodes[s].block && st'.nodes[s].valuelen == st.nodes[s].valuelen
    ensures BlocksOk(c, st')
  {
    var nodes := st'.nodes;
    forall s | s in nodes
      ensures HasBlock(c.unit, st.live, nodes[s])
    {
      assert HasBlock(c.unit, st.live, st.nodes[s]);
    }
    forall o | o in st.live
      ensures Owned(nodes, o)
    {
      assert Owned(st.nodes, o);
      var s :| s in st.nodes && st.nodes[s].block == o;
      assert s in nodes && nodes[s].block == o;
    }
  }

  /** The expiry time or the in-process mark of a node changes. */
  ghost function Rewrite(st: State, s: Slot, expire: Time, inprocess: bool): State
    requires s in st.nodes
  {
    st.(nodes := st.nodes[s := st.nodes[s].(expire := expire, inprocess := inprocess)])
  }

  lemma {:induction false} RewriteInv(c: Config, st: State, s: Slot, expire: Time, inprocess: bool)
    requires Inv(c, st) && s in st.nodes
    ensures Inv(c, Rewrite(st, s, expire, inprocess))
  {
    hide ListsOk, RefsOk, SlotsOk, BlocksOk, LiveOk;
    var st' := Rewrite(st, s, expire, inprocess);
    NodeFieldsInv(c, st, s, st'.nodes[s], st');
    RewriteRefs(st, s, expire, inprocess);
  }

  lemma {:induction false} RewriteRefs(st: State, s: Slot, expire: Time, inprocess: bool)
    requires RefsOk(st) && s in st.nodes
    ensures RefsOk(Rewrite(st, s, expire, inprocess))
  {
  }

  /** A listed node moves to the front of the LRU list. */
  ghost function Touch(st: State, s: Slot): State {
    st.(lru := [s] + Keep(st.lru, {s}))
  }

  lemma {:induction false} TouchInv(c: Config, st: State, s: Slot)
    requires Inv(c, st) && s in st.lru
    ensures Inv(c, Touch(st, s))
  {
    hide ListsOk, RefsOk, SlotsOk, BlocksOk, LiveOk;
    TouchLists(c, st, s);
    TouchRefs(st, s);
    SameAllocations(c, st, Touch(st, s));
  }

  lemma {:induction false} TouchLists(c: Config, st: State, s: Slot)
    requires c.buckets > 0 && ListsOk(c, st) && s in st.lru
    ensures ListsOk(c, Touch(st, s))
  {
  }

  lemma {:induction false} TouchRefs(st: State, s: Slot)
    requires RefsOk(st) && s in st.lru
    ensures RefsOk(Touch(st, s))
  {
    assert forall t :: Listed(Touch(st, s), t) == Listed(st, t);
  }

  lemma {:induction false} SameAllocations(c: Config, st: State, st': State)
    requires SlotsOk(c, st) && BlocksOk(c, st)
    requires st'.nodes == st.nodes && st'.used == st.used && st'.cursor == st.cursor && st'.live == st.live
    ensures SlotsOk(c, st') && BlocksOk(c, st')
  {
  }

  /** A GET ends: its reference goes, and a node no longer in the table goes with the last one. */
  ghost function Unpin(st: State, s: Slot): State
    requires s in st.nodes
  {
    var st1 := st.(pins := st.pins - multiset{s});
    if st.nodes[s].refcnt == 1 then
      st1.(nodes := st.nodes - {s}, used := st.used - {s}, live := st.live - {st.nodes[s].block})
    else
      st1.(nodes := st.nodes[s := Less(st.nodes[s])])
  }

  lemma {:induction false} UnpinInv(c: Config, st: State, s: Slot)
    requires Inv(c, st) && s in st.pins && s in st.nodes
    ensures Inv(c, Unpin(st, s))
  {
    hide ListsOk, RefsOk, SlotsOk, BlocksOk, LiveOk;
    var st' := Unpin(st, s);
    UnpinRefs(st, s);
    if st.nodes[s].refcnt == 1 {
      RemoveNodeLists(c, st, s, st');
      LiveOkLess(c.nmemb, st.live, {st.nodes[s].block});
      RemoveNodeBlocks(c, st, s, st');
    } else {
      NodeFieldsInv(c, st, s, Less(st.nodes[s]), st');
    }
  }

  lemma {:induction false} UnpinRefs(st: State, s: Slot)
    requires RefsOk(st) && s in st.pins
    ensures RefsOk(Unpin(st, s)) && (st.nodes[s].refcnt == 1 ==> s !in st.lru)
  {
    var st' := Unpin(st, s);
    forall t | t in st'.nodes
      ensures st'.nodes[t].refcnt == Listed(st', t) + st'.pins[t] > 0
    {
      assert st.nodes[t].refcnt == Listed(st, t) + st.pins[t];
    }
  }

  lemma {:induction false} RemoveNodeLists(c: Config, st: State, s: Slot, st': State)
    requires c.buckets > 0 && ListsOk(c, st) && SlotsOk(c, st) && s !in st.lru
    requires st'.chains == st.chains && st'.lru == st.lru && st'.cursor == st.cursor
    requires st'.nodes == st.nodes - {s} && st'.used == st.used - {s}
    ensures ListsOk(c, st') && SlotsOk(c, st')
  {
  }

  lemma {:induction false} RemoveNodeBlocks(c: Config, st: State, s: Slot, st': State)
    requires BlocksOk(c, st) && s in st.nodes
    requires st'.nodes == st.nodes - {s} && st'.live == st.live - {st.nodes[s].block}
    ensures BlocksOk(c, st')
  {
    forall t | t in st'.nodes
      ensures HasBlock(c.unit, st'.live, st'.nodes[t])
    {
      assert HasBlock(c.unit, st.live, st.nodes[t]);
    }
    forall o | o in st'.live
      ensures Owned(st'.nodes, o)
    {
      assert Owned(st.nodes, o);
      var t :| t in st.nodes && st.nodes[t].block == o;
      assert t in st'.nodes && st'.nodes[t].block == o;
    }
  }

  /** A new key enters the table on a fresh slab object and a fresh block. */
  ghost function Insert(c: Config, st: State, s: Slot, n: Node): State
    requires c.buckets > 0 && |st.chains| == c.buckets && c.unit > 0
  {
    var b := Bucket(c, n.key);
    State(st.chains[b := st.chains[b] + [s]], [s] + st.lru, st.nodes[s := n],
          st.used + {s}, s / Slab.BITS, st.live[n.block := Buddy.UnitsFor(n.valuelen, c.unit)], st.pins)
  }

  ghost predicate Fresh(c: Config, st: State, s: Slot, n: Node) {
    && s !in st.used && s < c.objects && n.block !in st.live && n.refcnt == 1
    && c.unit > 0 && LiveOk(c.nmemb, st.live[n.block := Buddy.UnitsFor(n.valuelen, c.unit)])
    && forall t | t in st.lru && t in st.nodes :: st.nodes[t].key != n.key
  }

  lemma {:induction false} InsertInv(c: Config, st: State, s: Slot, n: Node)
    requires Inv(c, st) && Fresh(c, st, s, n) && |st.chains| == c.buckets
    ensures Inv(c, Insert(c, st, s, n))
  {
    hide ListsOk, RefsOk, SlotsOk, BlocksOk, LiveOk;
    InsertSlots(c, st, s, n);
    InsertLists(c, st, s, n);
    InsertRefs(c, st, s, n);
    InsertBlocks(c, st, s, n);
  }

  lemma {:induction false} InsertSlots(c: Config, st: State, s: Slot, n: Node)
    requires c.buckets > 0 && |st.chains| == c.buckets && c.unit > 0
    requires SlotsOk(c, st) && s !in st.used && s < c.objects
    ensures SlotsOk(c, Insert(c, st, s, n)) && s !in st.nodes
  {
  }

  lemma {:induction false} InsertRefs(c: Config, st: State, s: Slot, n: Node)
    requires c.buckets > 0 && |st.chains| == c.buckets && c.unit > 0
    requires RefsOk(st) && ListsOk(c, st) && s !in st.nodes && n.refcnt == 1
    ensures RefsOk(Insert(c, st, s, n))
  {
    var st' := Insert(c, st, s, n);
    forall t | t in st'.nodes
      ensures st'.nodes[t].refcnt == Listed(st', t) + st'.pins[t] > 0
    {
      if t != s { assert st.nodes[t].refcnt == Listed(st, t) + st.pins[t]; }
    }
  }

  lemma {:induction false} InsertLists(c: Config, st: State, s: Slot, n: Node)
    requires c.buckets > 0 && c.unit > 0 && ListsOk(c, st) && s !in st.nodes
    requires forall t | t in st.lru && t in st.nodes :: st.nodes[t].key != n.key
    ensures ListsOk(c, Insert(c, st, s, n))
  {
    var st' := Insert(c, st, s, n);
    assert s !in st.lru;
    forall b | 0 <= b < |st.chains|
      ensures s !in st.chains[b]
    {
    }
  }

  lemma {:induction false} InsertBlocks(c: Config, st: State, s: Slot, n: Node)
    requires c.buckets > 0 && |st.chains| == c.buckets && c.unit > 0
    requires BlocksOk(c, st) && s !in st.nodes && n.block !in st.live
    ensures BlocksOk(c, Insert(c, st, s, n))
  {
    var st' := Insert(c, st, s, n);
    forall t | t in st'.nodes
      ensures HasBlock(c.unit, st'.live, st'.nodes[t])
    {
      if t != s { assert HasBlock(c.unit, st.live, st.nodes[t]); }
    }
    forall o | o in st'.live
      ensures Owned(st'.nodes, o)
    {
      if o == n.block {
        assert s in st'.nodes && st'.nodes[s].block == o;
      } else {
        assert Owned(st.nodes, o);
        var t :| t in st.nodes && st.nodes[t].block == o;
        assert t in st'.nodes && st'.nodes[t].block == o;
      }
    }
    forall t | t in st.nodes
      ensures st.nodes[t].block != n.block
    {
      assert HasBlock(c.unit, st.live, st.nodes[t]);
    }
  }
}
