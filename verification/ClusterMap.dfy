/**
 cluster/client/client.c: how a key finds its slot and how metadata fills the slot table.
 */
module ClusterMap {
  import opened Wrappers

  const SLOTS := 4096

  /** The slot table: the index of the node that owns each slot. */
  type Table = s: seq<Option<nat>> | |s| == SLOTS witness seq(SLOTS, _ => None)

  function Empty(): Table { seq(SLOTS, _ => None) }

  // ---------------------------------------------------------------- keys to slots

  /** The first index from i on that holds c, or the length. */
  function IndexFrom(key: string, c: char, i: nat): (r: nat)
    requires i <= |key|
    ensures i <= r <= |key| && (r < |key| ==> key[r] == c)
    ensures forall k | i <= k < r :: key[k] != c
    decreases |key| - i
  {
    if i == |key| || key[i] == c then i else IndexFrom(key, c, i + 1)
  }

  /** What is hashed: the text between the first '{' and the next '}', or the whole key. */
  function Tag(key: string): string {
    var s := IndexFrom(key, '{', 0);
    if s == |key| then key
    else
      var e := IndexFrom(key, '}', s + 1);
      if e == |key| || e == s + 1 then key else key[s + 1..e]
  }

  /** The key's slot; crc16 is any function. Masking with 0x0FFF keeps the remainder by 4096. */
  function Slot(crc: string -> nat, key: string): (r: nat)
    ensures r < SLOTS
  {
    crc(Tag(key)) % SLOTS
  }

  /** Keys with the same non-empty text between their first braces share a slot. */
  lemma {:induction false} SameTag(crc: string -> nat, a: string, b: string, tag: string, c: string, d: string)
    requires '{' !in a && '{' !in b && '}' !in tag && tag != ""
    ensures Tag(a + "{" + tag + "}" + c) == tag
    ensures Slot(crc, a + "{" + tag + "}" + c) == crc(tag) % 4096 == Slot(crc, b + "{" + tag + "}" + d)
  {
    TagBetween(a, tag, c);
    TagBetween(b, tag, d);
  }

  lemma {:induction false} TagBetween(a: string, tag: string, c: string)
    requires '{' !in a && '}' !in tag && tag != ""
    ensures Tag(a + "{" + tag + "}" + c) == tag
  {
    var key := a + "{" + tag + "}" + c;
    assert key[|a|] == '{' && forall k | 0 <= k < |a| :: key[k] == a[k];
    assert IndexFrom(key, '{', 0) == |a|;
    var m := |a| + 1 + |tag|;
    assert key[m] == '}' && forall k | |a| < k < m :: key[k] == tag[k - |a| - 1];
    assert IndexFrom(key, '}', |a| + 1) == m;
    assert key[|a| + 1..m] == tag;
  }

  /** The text between s and e, not empty, stands between the first '{' and the next '}'. */
  ghost predicate Braced(key: string, s: nat, e: nat) {
    && s + 1 < e < |key| && key[s] == '{' && key[e] == '}'
    && '{' !in key[..s] && '}' !in key[s + 1..e]
  }

  /** The slot is the hash modulo 4096, of the text between the braces if there is one and otherwise
      of the whole key. */
  lemma {:induction false} SlotCases(crc: string -> nat, key: string)
    ensures forall s: nat, e: nat | Braced(key, s, e) :: Slot(crc, key) == crc(key[s + 1..e]) % 4096
    ensures (forall s: nat, e: nat :: !Braced(key, s, e)) ==> Slot(crc, key) == crc(key) % 4096
  {
    forall s: nat, e: nat | Braced(key, s, e)
      ensures Tag(key) == key[s + 1..e]
    {
      assert key == key[..s] + "{" + key[s + 1..e] + "}" + key[e + 1..];
      TagBetween(key[..s], key[s + 1..e], key[e + 1..]);
    }
    if forall s: nat, e: nat :: !Braced(key, s, e) { TagWhole(key); }
  }

  /** Otherwise the whole key is hashed. */
  lemma {:induction false} TagWhole(key: string)
    requires forall s: nat, e: nat :: !Braced(key, s, e)
    ensures Tag(key) == key
  {
    var s := IndexFrom(key, '{', 0);
    if s < |key| {
      var e := IndexFrom(key, '}', s + 1);
      if s + 1 < e < |key| { assert Braced(key, s, e); }
    }
  }

  method KeyHashSlot(crc: string -> nat, key: string) returns (slot: nat)
    ensures slot == Slot(crc, key)
    ensures forall s: nat, e: nat | Braced(key, s, e) :: slot == crc(key[s + 1..e]) % 4096
    ensures (forall s: nat, e: nat :: !Braced(key, s, e)) ==> slot == crc(key) % 4096
  {
    hide Braced;
    SlotCases(crc, key);
    var s := 0;
    while s < |key| && key[s] != '{'
      invariant s <= |key| && IndexFrom(key, '{', 0) == IndexFrom(key, '{', s)
    {
      s := s + 1;
    }
    if s == |key| { return crc(key) % SLOTS; }
    var e := s + 1;
    while e < |key| && key[e] != '}'
      invariant s < e <= |key| && IndexFrom(key, '}', s + 1) == IndexFrom(key, '}', e)
    {
      e := e + 1;
    }
    if e == |key| || e == s + 1 { return crc(key) % SLOTS; }
    return crc(key[s + 1..e]) % SLOTS;
  }

  // ---------------------------------------------------------------- metadata to table

  datatype Range = Range(start: int, end: int)

  /** The slot ranges of each node; up: whether a connection to the node succeeds. */
  datatype Meta = Meta(version: int, nodes: seq<seq<Range>>, up: nat -> bool)

  predicate Connected(meta: Meta) { forall i | 0 <= i < |meta.nodes| :: meta.up(i) }

  /** A range and the node it belongs to. */
  datatype Entry = Entry(node: nat, range: Range)

  predicate Covers(e: Entry, s: int) { e.range.start <= s <= e.range.end }

  /** The asserts of the load; a negative start would write before the table. */
  predicate InBounds(e: Entry) { 0 <= e.range.start <= e.range.end < SLOTS }

  function Tagged(node: nat, ranges: seq<Range>): (r: seq<Entry>)
    ensures |r| == |ranges| && forall i | 0 <= i < |r| :: r[i] == Entry(node, ranges[i])
  {
    seq(|ranges|, i requires 0 <= i < |ranges| => Entry(node, ranges[i]))
  }

  /** All ranges of the first nodes, in loading order. */
  function Entries(nodes: seq<seq<Range>>): (r: seq<Entry>)
    ensures forall e | e in r :: e.node < |nodes|
  {
    if nodes == [] then []
    else Entries(nodes[..|nodes| - 1]) + Tagged(|nodes| - 1, nodes[|nodes| - 1])
  }

  /** Some entry gives slot s to node n. */
  ghost predicate Given(es: seq<Entry>, s: int, n: nat) {
    exists k :: 0 <= k < |es| && es[k].node == n && Covers(es[k], s)
  }

  /** No range is out of bounds and no slot is in two ranges. */
  ghost predicate Loadable(es: seq<Entry>) {
    && (forall k | 0 <= k < |es| :: InBounds(es[k]))
    && (forall j, k, s | 0 <= j < k < |es| :: !(Covers(es[j], s) && Covers(es[k], s)))
  }

  /** The table says exactly what the entries say. */
  ghost predicate TableOf(t: seq<Option<nat>>, es: seq<Entry>) {
    |t| == SLOTS && forall s, n: nat | 0 <= s < SLOTS :: t[s] == Some(n) <==> Given(es, s, n)
  }

  /** With Loadable metadata the table it describes is unique. */
  lemma {:induction false} TableUnique(t: seq<Option<nat>>, u: seq<Option<nat>>, es: seq<Entry>)
    requires TableOf(t, es) && TableOf(u, es)
    ensures t == u
  {
    forall s | 0 <= s < SLOTS ensures t[s] == u[s] {
      if t[s].Some? { assert Given(es, s, t[s].value); }
      if u[s].Some? { assert Given(es, s, u[s].value); }
    }
  }

  // ---------------------------------------------------------------- one range

  /** Slots taken by the range so far: all of it, up to but not including `upto`. */
  function Painted(t: Table, e: Entry, upto: int): Table {
    seq(|t|, s requires 0 <= s < |t| => if Covers(e, s) && s < upto then Some(e.node) else t[s])
  }

  predicate Unowned(t: Table, e: Entry) { forall s | 0 <= s < SLOTS && Covers(e, s) :: t[s].None? }

  /** The innermost loop: stops at a slot that already has an owner. */
  function AddRange(t: Table, e: Entry): Option<Table> {
    if InBounds(e) && Unowned(t, e) then Some(Painted(t, e, SLOTS)) else None
  }

  function AddTo(t: Option<Table>, e: Entry): Option<Table> {
    if t.None? then None else AddRange(t.value, e)
  }

  /** All ranges, in order; None when an assert of the load fails. */
  function Fill(es: seq<Entry>): Option<Table> {
    if es == [] then Some(Empty())
    else AddTo(Fill(es[..|es| - 1]), es[|es| - 1])
  }

  lemma {:induction false} GivenLast(es: seq<Entry>, s: int, n: nat)
    requires es != []
    ensures Given(es, s, n) <==> Given(es[..|es| - 1], s, n) || (es[|es| - 1].node == n && Covers(es[|es| - 1], s))
  {
    var p, l := es[..|es| - 1], |es| - 1;
    if Given(p, s, n) {
      var k :| 0 <= k < |p| && p[k].node == n && Covers(p[k], s);
      assert es[k].node == n && Covers(es[k], s);
    }
    if Given(es, s, n) {
      var k :| 0 <= k < |es| && es[k].node == n && Covers(es[k], s);
      if k < l { assert p[k] == es[k]; }
    }
  }

  lemma {:induction false} LoadableLast(es: seq<Entry>, t: Table)
    requires es != [] && TableOf(t, es[..|es| - 1])
    ensures Loadable(es) <==>
            Loadable(es[..|es| - 1]) && InBounds(es[|es| - 1])
            && Unowned(t, es[|es| - 1])
  {
    var p, l := es[..|es| - 1], |es| - 1;
    assert forall k | 0 <= k < l :: p[k] == es[k];
    if Loadable(es) {
      forall s | 0 <= s < SLOTS && Covers(es[l], s) ensures t[s].None? {
        assert forall n: nat :: !Given(p, s, n);
      }
    }
    if Loadable(p) && InBounds(es[l]) && Unowned(t, es[l]) {
      forall j, k, s | 0 <= j < k < |es| ensures !(Covers(es[j], s) && Covers(es[k], s)) {
        if k == l && Covers(es[j], s) {
          assert p[j].node == es[j].node && Covers(p[j], s);
          assert InBounds(p[j]);
          assert Given(p, s, es[j].node);
        } else if k < l {
          assert !(Covers(p[j], s) && Covers(p[k], s));
        }
      }
    }
  }

  lemma {:induction false} PaintedTable(es: seq<Entry>, t: Table)
    requires es != [] && TableOf(t, es[..|es| - 1])
    requires Unowned(t, es[|es| - 1])
    ensures TableOf(Painted(t, es[|es| - 1], SLOTS), es)
  {
    var u := Painted(t, es[|es| - 1], SLOTS);
    forall s, n: nat | 0 <= s < SLOTS ensures u[s] == Some(n) <==> Given(es, s, n) {
      GivenLast(es, s, n);
      if Covers(es[|es| - 1], s) { assert t[s] != Some(n); }
    }
  }

  /** Loading succeeds exactly on disjoint in-bounds ranges, and then each slot's owner is the
      node whose range holds it. */
  lemma {:induction false} FillExact(es: seq<Entry>)
    ensures Fill(es).Some? <==> Loadable(es)
    ensures Fill(es).Some? ==> TableOf(Fill(es).value, es)
  {
    if es == [] {
    } else {
      var p, l := es[..|es| - 1], es[|es| - 1];
      FillExact(p);
      if Loadable(es) { assert Loadable(p) by { LoadablePrefix(es); } }
      if Fill(p).Some? {
        var t := Fill(p).value;
        LoadableLast(es, t);
        if Fill(es).Some? { PaintedTable(es, t); }
      }
    }
  }

  lemma {:induction false} LoadablePrefix(es: seq<Entry>)
    requires es != [] && Loadable(es)
    ensures Loadable(es[..|es| - 1])
  {
    var p := es[..|es| - 1];
    forall j, k, s | 0 <= j < k < |p| ensures !(Covers(p[j], s) && Covers(p[k], s)) {
      assert !(Covers(es[j], s) && Covers(es[k], s));
    }
  }

  /** priskvClusterMetaDataLoad: every node is opened, then its ranges are added. */
  function Load(meta: Meta): Option<Table> {
    if Connected(meta) then Fill(Entries(meta.nodes)) else None
  }
}
