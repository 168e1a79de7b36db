/**
 server/buddy.c: the value allocator. The class keeps the source's flat metadata array
 and its descent and climb loops; the ghost map of live blocks is what they implement.
 Addresses are block offsets here; Address and Offset relate the two.
 */
module Buddy {
  import opened Wrappers
  import opened Powers
  import opened BuddyTree

  const MAX_UNITS: nat := 0x4000_0000
  const WORD: nat := 0x1_0000_0000

  /** The lowest aligned free run of s units at or after o: a plain scan, no tree. */
  ghost function FirstRun(n: nat, live: Live, s: nat, o: nat): Option<nat>
    requires s > 0
    decreases n - o
  {
    if o + s > n then None
    else if RunFree(live, o, s) then Some(o)
    else FirstRun(n, live, s, o + s)
  }

  /** What the allocator hands out for `want` units: the lowest free run, and nothing for none. */
  ghost function RunFor(n: nat, live: Live, want: nat): Option<nat> {
    if want > 0 then FirstRun(n, live, want, 0) else None
  }

  lemma {:induction false} FirstRunIsLowest(n: nat, live: Live, s: nat, o: nat)
    requires IsPow2(s) && o % s == 0
    ensures FirstRun(n, live, s, o).Some? ==>
              var r := FirstRun(n, live, s, o).value;
              o <= r && IsBlock(n, r, s) && RunFree(live, r, s) &&
              forall p: nat | o <= p < r && IsBlock(n, p, s) :: !RunFree(live, p, s)
    ensures FirstRun(n, live, s, o).None? ==>
              forall p: nat | o <= p && IsBlock(n, p, s) :: !RunFree(live, p, s)
    decreases n - o
  {
    if o + s <= n && !RunFree(live, o, s) {
      NextAligned(o, s);
      FirstRunIsLowest(n, live, s, o + s);
      forall p: nat | o <= p && IsBlock(n, p, s) && RunFree(live, p, s)
        ensures o + s <= p
      {
        NextMultiple(o, p, s);
      }
    }
  }

  lemma {:induction false} NextAligned(o: nat, s: nat)
    requires s > 0 && o % s == 0
    ensures (o + s) % s == 0
  {
    MulAdd(o / s, 1, s);
    Quotient(o / s + 1, s);
  }

  lemma {:induction false} NextMultiple(o: nat, p: nat, s: nat)
    requires s > 0 && o % s == 0 && p % s == 0 && o < p
    ensures o + s <= p
  {
    var a, b := o / s, p / s;
    if b <= a { MulMono(b, a, s); } else { MulMono(a + 1, b, s); MulAdd(a, 1, s); }
  }

  /** The block the tree search picks is the one the scan picks. */
  lemma {:induction false} LowestNode(n: nat, live: Live, x: nat)
    requires IsPow2(n) && IsNode(n, x) && RunFree(live, Start(n, x), Size(n, x))
    requires FreeFrom(n, live, Size(n, x), Start(n, x))
    ensures Size(n, x) > 0 && FirstRun(n, live, Size(n, x), 0) == Some(Start(n, x))
  {
    NodeFacts(n, x);
    NodeIsBlock(n, x);
    var s := Size(n, x);
    FirstRunIsLowest(n, live, s, 0);
    if FirstRun(n, live, s, 0).Some? {
      var y := BlockNode(n, FirstRun(n, live, s, 0).value, s);
    }
  }

  lemma {:induction false} NoRun(n: nat, live: Live, m: seq<nat>, s: nat)
    requires IsPow2(n) && LiveOk(n, live) && MetaOk(n, live, m) && IsPow2(s) && m[0] < s
    ensures FirstRun(n, live, s, 0).None?
  {
    FirstRunIsLowest(n, live, s, 0);
    if FirstRun(n, live, s, 0).Some? {
      var y := BlockNode(n, FirstRun(n, live, s, 0).value, s);
      RootAnc(y);
      MetaCovers(n, live, m, 0, y);
    }
  }

  /** Units held by all live blocks. */
  ghost function Total(live: Live): nat {
    if live == map[] then 0 else
      var o :| o in live;
      live[o] + Total(live - {o})
  }

  lemma {:induction false} TotalDrop(live: Live, x: nat)
    requires x in live
    ensures Total(live) == live[x] + Total(live - {x})
    decreases |live|
  {
    var o :| o in live && Total(live) == live[o] + Total(live - {o});
    if o != x {
      TotalDrop(live - {o}, x);
      TotalDrop(live - {x}, o);
      assert live - {o} - {x} == live - {x} - {o};
    }
  }

  lemma {:induction false} TotalAdd(live: Live, x: nat, s: nat)
    requires x !in live
    ensures Total(live[x := s]) == Total(live) + s
  {
    TotalDrop(live[x := s], x);
    assert live[x := s] - {x} == live;
  }

  /** Units reserved for a request of `size` bytes (server/buddy.c:134-140). */
  function UnitsFor(size: nat, unit: nat): nat
    requires unit > 0
  {
    RoundUp((size + unit - 1) / unit)
  }

  /** Lines 134-140 stay inside 32 bits: with more than 2^31 units the shift is undefined. */
  predicate Representable(size: nat, unit: nat) {
    unit > 0 && size < WORD && (size + unit - 1) / unit <= 0x8000_0000
  }

  /** Only one-byte units and more than 2 GiB are outside. */
  lemma {:induction false} RepresentableIff(size: nat, unit: nat)
    requires size < WORD && unit > 0
    ensures Representable(size, unit) <==> unit > 1 || size <= 0x8000_0000
  {
    Ceiling(size, unit);
    if unit > 1 { CeilingBound(size, (size + unit - 1) / unit, unit); }
  }

  lemma {:induction false} CeilingBound(size: nat, k: nat, unit: nat)
    requires k * unit < size + unit && size < WORD && unit > 1
    ensures k <= 0x8000_0000
  {
    if k > 0x8000_0000 { MulMono(0x8000_0001, k, unit); }
  }

  method AlignUp(size: nat, unit: nat) returns (alignup: nat)
    requires Representable(size, unit)
    ensures alignup == UnitsFor(size, unit) && (alignup == 0 || IsPow2(alignup)) && size <= alignup * unit
    ensures forall p: nat | IsPow2(p) && size <= p * unit :: alignup <= p
  {
    alignup := (size + unit - 1) / unit;
    UnitsEnough(size, unit);
    UnitsLeast(size, unit);
    if !PassesPow2Test(alignup) {
      alignup := Shift(BitLength(alignup));
    }
  }

  /** Line 134 rounds up. */
  lemma {:induction false} Ceiling(size: nat, unit: nat)
    requires unit > 0
    ensures var k := (size + unit - 1) / unit; size <= k * unit < size + unit
  {
  }

  /** A request reserves enough, a power of two unless it asks for nothing. */
  lemma {:induction false} UnitsEnough(size: nat, unit: nat)
    requires unit > 0
    ensures size <= UnitsFor(size, unit) * unit
    ensures if size == 0 then UnitsFor(size, unit) == 0 else IsPow2(UnitsFor(size, unit))
  {
    var k := (size + unit - 1) / unit;
    Ceiling(size, unit);
    if size > 0 {
      CeilingPositive(size, k, unit);
      RoundUpLeast(k);
      MulMono(k, RoundUp(k), unit);
    } else {
      CeilingZero(k, unit);
    }
  }

  lemma {:induction false} CeilingPositive(size: nat, k: nat, unit: nat)
    requires 0 < size <= k * unit
    ensures k > 0
  {
  }

  lemma {:induction false} CeilingZero(k: nat, unit: nat)
    requires k * unit < unit
    ensures k == 0
  {
    if k > 0 { MulMono(1, k, unit); }
  }

  lemma {:induction false} UnitsLeast(size: nat, unit: nat)
    requires unit > 0
    ensures forall p: nat | IsPow2(p) && size <= p * unit :: UnitsFor(size, unit) <= p
  {
    var k := (size + unit - 1) / unit;
    Ceiling(size, unit);
    forall p: nat | IsPow2(p) && size <= p * unit
      ensures RoundUp(k) <= p
    {
      CeilingLeast(size, k, p, unit);
      if k > 0 { RoundUpLeast(k); }
    }
  }

  lemma {:induction false} CeilingLeast(size: nat, k: nat, p: nat, unit: nat)
    requires k * unit < size + unit && size <= p * unit
    ensures k <= p
  {
    if p < k {
      MulMono(p + 1, k, unit);
      MulAdd(p, 1, unit);
    }
  }

  /** What freeing block offset o does to the live blocks: the block holding o goes. */
  ghost predicate Holds(live: Live, b: nat, o: nat) {
    b in live && b <= o < b + live[b]
  }

  ghost function FreeAt(live: Live, o: nat): Live {
    if exists b :: Holds(live, b, o) then
      var b :| Holds(live, b, o);
      live - {b}
    else live
  }

  lemma {:induction false} FreeAtHolder(n: nat, live: Live, b: nat, o: nat)
    requires LiveOk(n, live) && Holds(live, b, o)
    ensures FreeAt(live, o) == live - {b}
  {
    assert forall c | Holds(live, c, o) :: c == b;
  }

  lemma {:induction false} FreeAtStart(n: nat, live: Live, o: nat)
    requires LiveOk(n, live) && o in live
    ensures FreeAt(live, o) == live - {o}
  {
    assert IsBlock(n, o, live[o]);
    FreeAtHolder(n, live, o, o);
  }

  // ---------------------------------------------------------------- creation

  lemma {:induction false} RowStep(n: nat, i: nat)
    requires i > 0
    ensures Size(n, i) == if IsPow2(i + 1) then Size(n, i - 1) / 2 else Size(n, i - 1)
  {
    if i % 2 == 0 {
      assert Parent(i) == Parent(i - 1);
    } else if i > 1 {
      var p := Parent(i);
      assert (i + 1) / 2 == p + 1 && Parent(i - 1) == p - 1;
      RowStep(n, p);
    }
  }

  lemma {:induction false} NextSize(w: nat, i: nat, nodes: nat)
    requires nodes == if i == 0 then 2 * w else Size(w, i - 1)
    ensures Size(w, i) == if PassesPow2Test(i + 1) then nodes / 2 else nodes
  {
    Pow2Test(i + 1);
    if i > 0 { RowStep(w, i); }
  }

  /** The region holds two words per unit (server/buddy.h:38-41) and is zero-filled when it is
      mapped; the loop leaves the last word alone. */
  method FillMeta(nmemb: nat, doubled: nat) returns (meta: array<nat>)
    requires nmemb > 0 && doubled % 2 == 0
    ensures fresh(meta) && meta.Length == 2 * nmemb && meta[2 * nmemb - 1] == 0
    ensures forall k: nat {:trigger meta[k]} | k < 2 * nmemb - 1 :: meta[k] == Size(doubled / 2, k)
  {
    meta := new nat[2 * nmemb](_ => 0);
    var nodes := doubled;
    ghost var w := doubled / 2;
    var i := 0;
    while i < 2 * nmemb - 1
      invariant 0 <= i <= 2 * nmemb - 1
      invariant nodes == if i == 0 then doubled else Size(w, i - 1)
      invariant forall k: nat {:trigger meta[k]} | k < i :: meta[k] == Size(w, k)
      invariant meta[2 * nmemb - 1] == 0
    {
      NextSize(w, i, nodes);
      if PassesPow2Test(i + 1) {
        nodes := nodes / 2;
      }
      meta[i] := nodes;
      i := i + 1;
    }
  }

  /** The metadata loop of priskv_buddy_create, with its 32-bit doubling of nmemb.
      The array is the one for an empty region exactly when nmemb stays below 2^31. */
  method InitMeta(nmemb: nat) returns (meta: array<nat>)
    requires IsPow2(nmemb) && 2 * nmemb <= WORD
    ensures fresh(meta) && meta.Length == 2 * nmemb && meta[2 * nmemb - 1] == 0
    ensures nmemb <= MAX_UNITS ==> MetaOk(nmemb, map[], meta[..2 * nmemb - 1])
    ensures nmemb > MAX_UNITS ==> forall i: nat | i < 2 * nmemb - 1 :: meta[i] == 0
  {
    meta := FillMeta(nmemb, (nmemb * 2) % WORD);
    if nmemb <= MAX_UNITS {
      EmptyOk(nmemb, meta[..2 * nmemb - 1]);
    } else {
      Wraps(nmemb);
      AllZero(meta[..2 * nmemb - 1]);
    }
  }

  lemma {:induction false} AllZero(m: seq<nat>)
    requires forall k: nat {:trigger m[k]} | k < |m| :: m[k] == Size(0, k)
    ensures forall k: nat | k < |m| :: m[k] == 0
  {
    forall k: nat | k < |m|
      ensures m[k] == 0
    {
      SizeZero(k);
    }
  }

  lemma {:induction false} Wraps(nmemb: nat)
    requires IsPow2(nmemb) && MAX_UNITS < nmemb && 2 * nmemb <= WORD
    ensures (nmemb * 2) % WORD == 0
  {
    assert IsPow2(0x40);
    Pow2Mul(0x40, 0x40);
    Pow2Mul(0x1000, 0x1000);
    Pow2Mul(0x100_0000, 0x40);
    Pow2Gap(0x4000_0000, nmemb);
  }

  lemma {:induction false} SizeZero(i: nat)
    ensures Size(0, i) == 0
  {
    if i > 0 { SizeZero(Parent(i)); }
  }

  lemma {:induction false} NothingCovered(n: nat, i: nat)
    ensures !Covered(n, map[], i)
  {
    if i > 0 { NothingCovered(n, Parent(i)); }
  }

  lemma {:induction false} EmptyOk(n: nat, m: seq<nat>)
    requires IsPow2(n) && |m| == 2 * n - 1
    requires forall k: nat {:trigger m[k]} | k < |m| :: m[k] == Size(n, k)
    ensures MetaOk(n, map[], m)
  {
    forall i: nat | IsNode(n, i)
      ensures NodeOk(n, map[], m, i)
    {
      NodeFacts(n, i);
      NothingCovered(n, i);
      if i < n - 1 { ChildFacts(n, i); }
    }
  }

  // ---------------------------------------------------------------- the allocator

  class Allocator {
    const base: int
    const nmemb: nat
    const unit: nat
    var inuse: nat
    const meta: array<nat>
    ghost var live: Live

    /** Two words per unit: the tree's 2 * nmemb - 1 entries and a spare word, always zero. */
    ghost predicate Sized()
      reads meta
    {
      nmemb > 0 && meta.Length == 2 * nmemb && meta[2 * nmemb - 1] == 0
    }

    ghost function Tree(): seq<nat>
      requires Sized()
      reads meta
    {
      meta[..2 * nmemb - 1]
    }

    ghost predicate Valid()
      reads this, meta
    {
      && IsPow2(nmemb) && nmemb <= MAX_UNITS && unit > 0
      && Sized()
      && LiveOk(nmemb, live)
      && MetaOk(nmemb, live, Tree())
      && inuse == Total(live)
    }

    constructor (base: int, nmemb: nat, unit: nat)
      requires IsPow2(nmemb) && nmemb <= MAX_UNITS && unit > 0
      ensures Valid() && fresh(meta)
      ensures this.base == base && this.nmemb == nmemb && this.unit == unit
      ensures live == map[] && inuse == 0
    {
      var m := InitMeta(nmemb);
      this.base, this.nmemb, this.unit := base, nmemb, unit;
      this.inuse, this.meta, this.live := 0, m, map[];
    }

    /** The address handed out for a block offset, and the way back (lines 165, 181-184). */
    function Address(o: nat): int { base + o * unit }

    function Offset(addr: int): int
      requires unit > 0
    {
      (addr - base) / unit
    }

    lemma {:induction false} AddressRoundTrip(o: nat)
      requires unit > 0
      ensures Offset(Address(o)) == o
    {
      Quotient(o, unit);
    }

    method Alloc(size: nat) returns (r: Option<nat>)
      requires Valid() && Representable(size, unit)
      modifies this, meta
      ensures Valid() && r == RunFor(nmemb, old(live), UnitsFor(size, unit))
      ensures r.None? ==> live == old(live) && inuse == old(inuse) && meta[..] == old(meta[..])
      ensures r.Some? ==> live == old(live)[r.value := UnitsFor(size, unit)]
      ensures r.Some? ==> r.value !in old(live) && inuse == old(inuse) + UnitsFor(size, unit)
    {
      var alignup := AlignUp(size, unit);
      if meta[0] < alignup {
        NoRun(nmemb, live, Tree(), alignup);
        return None;
      }
      var index := Descend(alignup);
      if meta[index] == 0 {
        // Line 154: only a request for nothing gets here, at the spare word.
        return None;
      }
      var o := (index + 1) * alignup - nmemb;
      assert o == Start(nmemb, index) by { NodeOffset(nmemb, index); }
      LowestNode(nmemb, live, index);
      Reserve(index, alignup);
      r := Some(o);
    }

    method Reserve(index: nat, nodes: nat)
      requires Valid() && IsNode(nmemb, index) && nodes == Size(nmemb, index)
      requires RunFree(live, Start(nmemb, index), nodes)
      modifies this, meta
      ensures Valid() && Start(nmemb, index) !in old(live)
      ensures live == old(live)[Start(nmemb, index) := nodes] && inuse == old(inuse) + nodes
    {
      ghost var m := Tree();
      Allocated(nmemb, live, m, index);
      AddLiveOk(nmemb, live, index);
      TotalAdd(live, Start(nmemb, index), nodes);
      meta[index] := 0;
      live := AddLive(nmemb, live, index);
      inuse := inuse + nodes;
      assert Tree() == m[index := 0];
      ClimbMax(index);
    }

    /** Lines 146-152: walk down to the lowest free block of the wanted size. A request for
        nothing always goes left and ends at the spare word, one past the tree. */
    method Descend(want: nat) returns (index: nat)
      requires Valid() && (want == 0 || IsPow2(want)) && want <= meta[0]
      ensures want == 0 ==> index == 2 * nmemb - 1
      ensures want > 0 ==> IsNode(nmemb, index) && Size(nmemb, index) == want == meta[index]
      ensures want > 0 ==> RunFree(live, Start(nmemb, index), want)
      ensures want > 0 ==> FreeFrom(nmemb, live, want, Start(nmemb, index))
    {
      index := 0;
      var nodes := nmemb;
      MetaBound(nmemb, live, Tree(), 0);
      while nodes != want
        invariant Reached(want, index, nodes)
        decreases nodes
      {
        Goes(want, index, nodes);
        if meta[Left(index)] >= want {
          index := Left(index);
        } else {
          index := Right(index);
        }
        nodes := nodes / 2;
      }
      if want > 0 {
        MetaBound(nmemb, live, Tree(), index);
        FullIsFree(nmemb, live, Tree(), index);
      }
    }

    /** Where the descent may stand with `nodes` units per node at hand. */
    ghost predicate Reached(want: nat, index: nat, nodes: nat)
      reads this, meta
    {
      && Valid()
      && (want > 0 ==>
           && IsNode(nmemb, index) && nodes == Size(nmemb, index)
           && want <= nodes && want <= Tree()[index] && !Covered(nmemb, live, index)
           && FreeFrom(nmemb, live, want, Start(nmemb, index)))
      && (want == 0 ==>
           if nodes == 0 then index == 2 * nmemb - 1
           else IsNode(nmemb, index) && nodes == Size(nmemb, index) && Start(nmemb, index) == 0)
    }

    /** One turn of the descent. */
    lemma {:induction false} Goes(want: nat, index: nat, nodes: nat)
      requires (want == 0 || IsPow2(want)) && nodes != want && Reached(want, index, nodes)
      ensures Left(index) < meta.Length && nodes > 0
      ensures Reached(want, if meta[Left(index)] >= want then Left(index) else Right(index), nodes / 2)
    {
      NodeFacts(nmemb, index);
      if want == 0 {
        NodeOffset(nmemb, index);
        if index < nmemb - 1 { ChildFacts(nmemb, index); }
      } else {
        Pow2Gap(want, nodes);
        ChildFacts(nmemb, index);
        DescendStep(nmemb, live, Tree(), index, want);
        assert Tree()[Left(index)] == meta[Left(index)] && Tree()[Right(index)] == meta[Right(index)];
        if meta[Left(index)] < want { GoRight(nmemb, live, Tree(), index, want); }
      }
    }

    /** Lines 161-164: recompute the ancestors of a newly allocated node. */
    method ClimbMax(start: nat)
      requires IsPow2(nmemb) && Sized() && LiveOk(nmemb, live)
      requires IsNode(nmemb, start) && IsLive(nmemb, live, start) && meta[start] == 0
      requires MetaOkBut(nmemb, live, Tree(), if start == 0 then -1 else Parent(start))
      modifies meta
      ensures Sized() && MetaOk(nmemb, live, Tree())
    {
      hide Covered, MetaOkBut, NodeOk, Size;
      var index := start;
      NodeFacts(nmemb, index);
      LiveNotCovered(nmemb, live, index);
      while index != 0
        invariant Sized() && IsNode(nmemb, index)
        invariant !Covered(nmemb, live, index) && meta[index] < Size(nmemb, index)
        invariant MetaOkBut(nmemb, live, Tree(), if index == 0 then -1 else Parent(index))
      {
        ghost var child, m := index, Tree();
        index := Parent(index);
        MaxIsJoin(nmemb, live, m, child);
        Repaired(nmemb, live, m, index);
        var l, r := meta[Left(index)], meta[Right(index)];
        meta[index] := if l > r then l else r;
        assert Tree() == m[index := Join(l, r, Size(nmemb, index))];
      }
    }

    /** Lines 189-194: climb from the unit to the first zero entry, or past the root. */
    method Holder(o: nat) returns (found: bool, index: nat, nodes: nat)
      requires Valid() && o < nmemb
      ensures found ==> IsNode(nmemb, index) && IsLive(nmemb, live, index) && nodes == Size(nmemb, index)
      ensures found ==> Holds(live, Start(nmemb, index), o)
      ensures !found ==> forall b | b in live :: !Holds(live, b, o)
    {
      index, nodes := o + nmemb - 1, 1;
      ghost var leaf := index;
      NodeFacts(nmemb, leaf);
      assert Start(nmemb, leaf) == o by { NodeOffset(nmemb, leaf); }
      while meta[index] != 0
        invariant IsNode(nmemb, index) && Anc(index, leaf) && nodes == Size(nmemb, index)
        invariant IsLive(nmemb, live, leaf) || Covered(nmemb, live, leaf) ==>
                    IsLive(nmemb, live, index) || Covered(nmemb, live, index)
        decreases index
      {
        assert NodeOk(nmemb, live, Tree(), index);
        nodes := nodes * 2;
        if index == 0 {
          NothingHolds(nmemb, live, leaf);
          return false, 0, 0;
        }
        ParentFacts(nmemb, index);
        AncUp(index, leaf);
        index := Parent(index);
      }
      ZeroIsLive(nmemb, live, Tree(), index, leaf);
      AncRange(nmemb, index, leaf);
      found := true;
    }

    method Free(o: nat)
      requires Valid() && o < nmemb
      modifies this, meta
      ensures Valid() && live == FreeAt(old(live), o)
      ensures live == old(live) ==> inuse == old(inuse) && Tree() == old(Tree())
    {
      var found, index, nodes := Holder(o);
      if found {
        FreeAtHolder(nmemb, live, Start(nmemb, index), o);
        Release(index, nodes);
      }
    }

    method Release(index: nat, nodes: nat)
      requires Valid() && IsNode(nmemb, index) && IsLive(nmemb, live, index) && nodes == Size(nmemb, index)
      modifies this, meta
      ensures Valid() && live == old(live) - {Start(nmemb, index)}
    {
      ghost var m := Tree();
      Released(nmemb, live, m, index);
      TotalDrop(live, Start(nmemb, index));
      DropUncovered(nmemb, live, index);
      meta[index] := nodes;
      inuse := inuse - nodes;
      live := DropLive(nmemb, live, index);
      assert Tree() == m[index := nodes];
      ClimbJoin(index, nodes);
    }

    /** Lines 196-209: coalesce on the way up. */
    method ClimbJoin(start: nat, size: nat)
      requires IsPow2(nmemb) && Sized()
      requires IsNode(nmemb, start) && size == Size(nmemb, start) && !Covered(nmemb, live, start)
      requires MetaOkBut(nmemb, live, Tree(), if start == 0 then -1 else Parent(start))
      modifies meta
      ensures Sized() && MetaOk(nmemb, live, Tree())
    {
      hide Covered, MetaOkBut, NodeOk, Size;
      var index, nodes := start, size;
      while index != 0
        invariant Sized() && IsNode(nmemb, index) && nodes == Size(nmemb, index) && !Covered(nmemb, live, index)
        invariant MetaOkBut(nmemb, live, Tree(), if index == 0 then -1 else Parent(index))
      {
        ghost var m := Tree();
        ParentFacts(nmemb, index);
        ParentUncovered(nmemb, live, index);
        index := Parent(index);
        nodes := nodes * 2;
        Repaired(nmemb, live, m, index);
        var l, r := meta[Left(index)], meta[Right(index)];
        meta[index] := if l + r == nodes then nodes else if l > r then l else r;
        assert Tree() == m[index := Join(l, r, nodes)];
      }
    }
  }

  lemma {:induction false} ParentFacts(n: nat, i: nat)
    requires IsPow2(n) && IsNode(n, i) && i > 0
    ensures Parent(i) < n - 1 && Size(n, Parent(i)) == 2 * Size(n, i)
    ensures i == Left(Parent(i)) || i == Right(Parent(i))
  {
    ChildFacts(n, Parent(i));
  }

  lemma {:induction false} ParentUncovered(n: nat, live: Live, i: nat)
    requires i > 0 && !Covered(n, live, i)
    ensures !IsLive(n, live, Parent(i)) && !Covered(n, live, Parent(i))
  {
  }

  lemma {:induction false} AncUp(i: nat, j: nat)
    requires Anc(i, j) && i > 0
    ensures Anc(Parent(i), j)
  {
    AncTrans(Parent(i), i, j);
  }

  /** Below a node that records enough, one child does. */
  lemma {:induction false} DescendStep(n: nat, live: Live, m: seq<nat>, i: nat, want: nat)
    requires IsPow2(n) && MetaOk(n, live, m) && i < n - 1
    requires !Covered(n, live, i) && IsPow2(want) && want <= m[i] && want < Size(n, i)
    ensures !Covered(n, live, Left(i)) && !Covered(n, live, Right(i))
    ensures m[Left(i)] >= want || m[Right(i)] >= want
  {
    NodeFacts(n, i);
    ChildFacts(n, i);
    Pow2Gap(want, Size(n, i));
    MetaBound(n, live, m, Left(i));
    MetaBound(n, live, m, Right(i));
    assert NodeOk(n, live, m, i);
    JoinEither(m[Left(i)], m[Right(i)], Size(n, i), want);
  }

  lemma {:induction false} JoinEither(l: nat, r: nat, s: nat, want: nat)
    requires want <= Join(l, r, s) && 2 * want <= s && 2 * l <= s && 2 * r <= s
    ensures l >= want || r >= want
  {
  }

  ghost predicate FreeFrom(n: nat, live: Live, want: nat, o: nat) {
    forall y: nat | IsNode(n, y) && Size(n, y) == want && RunFree(live, Start(n, y), want) :: o <= Start(n, y)
  }

  /** What the left child lacks lies to the right. */
  lemma {:induction false} GoRight(n: nat, live: Live, m: seq<nat>, i: nat, want: nat)
    requires IsPow2(n) && LiveOk(n, live) && MetaOk(n, live, m) && i < n - 1
    requires 0 < want && 2 * want <= Size(n, i) && m[Left(i)] < want && FreeFrom(n, live, want, Start(n, i))
    ensures FreeFrom(n, live, want, Start(n, Right(i)))
  {
    ChildFacts(n, i);
    forall y: nat | IsNode(n, y) && Size(n, y) == want && RunFree(live, Start(n, y), want)
      ensures Start(n, Right(i)) <= Start(n, y)
    {
      assert Start(n, i) <= Start(n, y);
      if Start(n, y) < Start(n, Right(i)) {
        Laminar(n, Left(i), y);
        MetaCovers(n, live, m, Left(i), y);
      }
    }
  }

  /** Next to a node that is not wholly free, the larger half is what coalescing gives. */
  lemma {:induction false} MaxIsJoin(n: nat, live: Live, m: seq<nat>, c: nat)
    requires IsPow2(n) && LiveOk(n, live) && IsNode(n, c) && c > 0 && !Covered(n, live, c)
    requires MetaOkBut(n, live, m, Parent(c)) && m[c] < Size(n, c)
    ensures var p := Parent(c);
            p < n - 1 && !IsLive(n, live, p) && !Covered(n, live, p) &&
            Join(m[Left(p)], m[Right(p)], Size(n, p)) ==
              (if m[Left(p)] > m[Right(p)] then m[Left(p)] else m[Right(p)]) < Size(n, p)
  {
    var p := Parent(c);
    ParentFacts(n, c);
    ChildFacts(n, p);
    BoundBut(n, live, m, p, Left(p));
    BoundBut(n, live, m, p, Right(p));
  }

  lemma {:induction false} BoundBut(n: nat, live: Live, m: seq<nat>, skip: nat, i: nat)
    requires IsPow2(n) && MetaOkBut(n, live, m, skip) && IsNode(n, i) && skip < i
    ensures m[i] <= Size(n, i)
    decreases 2 * n - i
  {
    NodeFacts(n, i);
    assert NodeOk(n, live, m, i);
    if i < n - 1 {
      ChildFacts(n, i);
      BoundBut(n, live, m, skip, Left(i));
      BoundBut(n, live, m, skip, Right(i));
    }
  }

  /** The first zero above a leaf is a live block: everything else on that path is positive. */
  lemma {:induction false} ZeroIsLive(n: nat, live: Live, m: seq<nat>, i: nat, leaf: nat)
    requires IsPow2(n) && LiveOk(n, live) && MetaOk(n, live, m) && IsNode(n, leaf) && leaf >= n - 1
    requires IsNode(n, i) && Anc(i, leaf) && m[i] == 0
    requires IsLive(n, live, leaf) || Covered(n, live, leaf) ==> IsLive(n, live, i) || Covered(n, live, i)
    ensures IsLive(n, live, i)
  {
    assert NodeOk(n, live, m, i) && NodeOk(n, live, m, leaf);
    NodeFacts(n, i);
    if !IsLive(n, live, i) && !Covered(n, live, i) {
      MetaGrows(n, live, m, i, leaf);
    }
  }

  lemma {:induction false} NothingHolds(n: nat, live: Live, leaf: nat)
    requires IsPow2(n) && LiveOk(n, live) && IsNode(n, leaf) && leaf >= n - 1
    requires !IsLive(n, live, leaf) && !Covered(n, live, leaf)
    ensures forall b | b in live :: !Holds(live, b, Start(n, leaf))
  {
    UnitFree(n, live, leaf);
  }

  lemma {:induction false} DropUncovered(n: nat, live: Live, x: nat)
    requires IsPow2(n) && LiveOk(n, live) && IsNode(n, x) && IsLive(n, live, x)
    ensures !Covered(n, DropLive(n, live, x), x)
  {
    DropLiveOk(n, live, x);
    FreeNode(n, DropLive(n, live, x), x);
  }

  // ---------------------------------------------------------------- whole runs

  lemma {:induction false} AddDrop(live: Live, o: nat, s: nat)
    requires o !in live
    ensures live[o := s] - {o} == live
  {
  }

  method AllocFree(b: Allocator, size: nat)
    requires b.Valid() && Representable(size, b.unit)
    modifies b, b.meta
    ensures b.Valid() && b.live == old(b.live)
  {
    var r := b.Alloc(size);
    if r.Some? {
      FreeAtStart(b.nmemb, b.live, r.value);
      assert IsBlock(b.nmemb, r.value, b.live[r.value]);
      b.Free(r.value);
      AddDrop(old(b.live), r.value, UnitsFor(size, b.unit));
    }
  }

  /** An allocation followed by its free restores the array and the counter. */
  method AllocThenFree(b: Allocator, size: nat)
    requires b.Valid() && Representable(size, b.unit)
    modifies b, b.meta
    ensures b.Valid() && b.live == old(b.live)
    ensures b.meta[..] == old(b.meta[..]) && b.inuse == old(b.inuse)
  {
    AllocFree(b, size);
    MetaUnique(b.nmemb, b.live, b.Tree(), old(b.Tree()));
    assert b.meta[..] == b.Tree() + [0] && old(b.meta[..]) == old(b.Tree()) + [0];
  }

  /** Frees every live block, in the order given. */
  method FreeAll(b: Allocator, order: seq<nat>)
    requires b.Valid() && (set o | o in order) == b.live.Keys
    modifies b, b.meta
    ensures b.Valid() && b.live == map[]
    decreases |order|
  {
    if order != [] {
      var o := order[0];
      assert o in b.live && IsBlock(b.nmemb, o, b.live[o]);
      if o !in order[1..] {
        FreeAtStart(b.nmemb, b.live, o);
        b.Free(o);
      }
      FreeAll(b, order[1..]);
    }
  }

  /** Freeing everything, in any order, restores the array priskv_buddy_create builds. */
  method Drain(b: Allocator, order: seq<nat>)
    requires b.Valid() && (set o | o in order) == b.live.Keys
    modifies b, b.meta
    ensures b.Valid() && b.inuse == 0
    ensures b.Tree() == seq(2 * b.nmemb - 1, i requires 0 <= i => Size(b.nmemb, i))
  {
    FreeAll(b, order);
    EmptyMeta(b.nmemb, b.Tree());
  }

  lemma {:induction false} EmptyMeta(n: nat, m: seq<nat>)
    requires IsPow2(n) && MetaOk(n, map[], m)
    ensures m == seq(2 * n - 1, i requires 0 <= i => Size(n, i))
  {
    var m' := seq(2 * n - 1, i requires 0 <= i => Size(n, i));
    EmptyOk(n, m');
    MetaUnique(n, map[], m, m');
  }
}
