/**
 The implicit binary tree of server/buddy.c: node 0 is the root, the children of i
 are 2i+1 and 2i+2, and a tree over n units has 2n-1 nodes. This file gives every node
 its range of units, says what the metadata array means for a set of live blocks, and
 proves how one update of the array changes that meaning.
 */
module BuddyTree {
  import opened Powers

  function Parent(i: nat): nat
    requires i > 0
  {
    (i + 1) / 2 - 1
  }

  function Left(i: nat): nat { 2 * i + 1 }

  function Right(i: nat): nat { 2 * i + 2 }

  function Size(n: nat, i: nat): nat {
    if i == 0 then n else Size(n, Parent(i)) / 2
  }

  function Start(n: nat, i: nat): nat {
    if i == 0 then 0 else Start(n, Parent(i)) + (if i % 2 == 0 then Size(n, i) else 0)
  }

  predicate IsNode(n: nat, i: nat) { i < 2 * n - 1 }

  /** i is j or an ancestor of j. */
  predicate Anc(i: nat, j: nat) {
    i == j || (j > 0 && Anc(i, Parent(j)))
  }

  // ---------------------------------------------------------------- geometry

  /** (i+1) * Size - n is the offset the allocator computes at server/buddy.c:159. */
  lemma {:induction false} NodeOffset(n: nat, i: nat)
    requires IsPow2(n) && IsNode(n, i)
    ensures IsPow2(Size(n, i))
    ensures (i + 1) * Size(n, i) == Start(n, i) + n
    ensures Start(n, i) + Size(n, i) <= n
  {
    if i == 0 {
    } else {
      var p := Parent(i);
      NodeOffset(n, p);
      var s := Size(n, p);
      LeafBySize(n, p, s, Start(n, p));
      MulHalf(p + 1, s);
    }
  }

  lemma {:induction false} LeafBySize(n: nat, i: nat, s: nat, o: nat)
    requires s >= 1 && i < 2 * n - 1 && (i + 1) * s == o + n && o + s <= n
    ensures s == 1 <==> i >= n - 1
  {
    if i >= n - 1 {
      MulMono(n, i + 1, s);
      if s >= 2 { MulMono(2, s, n); }
    }
  }

  lemma {:induction false} NodeFacts(n: nat, i: nat)
    requires IsPow2(n) && IsNode(n, i)
    ensures IsPow2(Size(n, i))
    ensures Start(n, i) + Size(n, i) <= n
    ensures Size(n, i) == 1 <==> i >= n - 1
  {
    NodeOffset(n, i);
    LeafBySize(n, i, Size(n, i), Start(n, i));
  }

  lemma {:induction false} ChildFacts(n: nat, i: nat)
    requires IsPow2(n) && IsNode(n, i) && i < n - 1
    ensures IsNode(n, Left(i)) && IsNode(n, Right(i))
    ensures Parent(Left(i)) == i && Parent(Right(i)) == i
    ensures Size(n, i) == 2 * Size(n, Left(i)) == 2 * Size(n, Right(i))
    ensures Start(n, Left(i)) == Start(n, i)
    ensures Start(n, Right(i)) == Start(n, i) + Size(n, Right(i))
  {
    InnerEven(n, i);
    ParentOfChild(i);
  }

  lemma {:induction false} InnerEven(n: nat, i: nat)
    requires IsPow2(n) && IsNode(n, i) && i < n - 1
    ensures Size(n, i) % 2 == 0
  {
    NodeFacts(n, i);
  }

  lemma {:induction false} ParentOfChild(i: nat)
    ensures Parent(Left(i)) == i && Parent(Right(i)) == i
  {
  }

  lemma {:induction false} AncRange(n: nat, i: nat, j: nat)
    requires IsPow2(n) && IsNode(n, j) && Anc(i, j)
    ensures IsNode(n, i) && Size(n, j) <= Size(n, i)
    ensures Start(n, i) <= Start(n, j) && Start(n, j) + Size(n, j) <= Start(n, i) + Size(n, i)
    ensures i != j ==> Size(n, j) < Size(n, i)
  {
    if i != j {
      NodeFacts(n, j);
      AncRange(n, i, Parent(j));
      NodeFacts(n, Parent(j));
    }
  }

  lemma {:induction false} AncTrans(i: nat, j: nat, k: nat)
    requires Anc(i, j) && Anc(j, k)
    ensures Anc(i, k)
  {
    if j != k { AncTrans(i, j, Parent(k)); }
  }

  lemma {:induction false} RootAnc(i: nat)
    ensures Anc(0, i)
  {
    if i > 0 { RootAnc(Parent(i)); }
  }

  predicate Overlap(o: nat, s: nat, p: nat, t: nat) {
    o < p + t && p < o + s
  }

  /** The ranges of two nodes are nested or disjoint. */
  lemma {:induction false} Laminar(n: nat, i: nat, j: nat)
    requires IsPow2(n) && IsNode(n, i) && IsNode(n, j)
    requires Overlap(Start(n, i), Size(n, i), Start(n, j), Size(n, j))
    requires Size(n, j) <= Size(n, i)
    ensures Anc(i, j)
    decreases j
  {
    NodeFacts(n, i);
    NodeFacts(n, j);
    if Size(n, i) == Size(n, j) {
      NodeOffset(n, i);
      NodeOffset(n, j);
      SameLevel(i, j, Size(n, i), Start(n, i), Start(n, j), n);
    } else {
      Pow2Gap(Size(n, j), Size(n, i));
      if j == 0 {
        assert false;
      } else {
        NodeFacts(n, Parent(j));
        Laminar(n, i, Parent(j));
      }
    }
  }

  lemma {:induction false} SameLevel(i: nat, j: nat, s: nat, o: nat, p: nat, n: nat)
    requires s > 0 && (i + 1) * s == o + n && (j + 1) * s == p + n
    requires o < p + s && p < o + s
    ensures i == j
  {
    if i < j {
      MulMono(i + 2, j + 1, s);
      MulAdd(i + 1, 1, s);
    } else if j < i {
      MulMono(j + 2, i + 1, s);
      MulAdd(j + 1, 1, s);
    }
  }

  // ---------------------------------------------------------------- blocks

  /** A block the allocator can hand out: a power-of-two run aligned to its size. */
  ghost predicate IsBlock(n: nat, o: nat, s: nat) {
    IsPow2(s) && o % s == 0 && o + s <= n
  }

  /** Every aligned power-of-two run is the range of exactly one node. */
  lemma {:induction false} BlockNode(n: nat, o: nat, s: nat) returns (i: nat)
    requires IsPow2(n) && IsBlock(n, o, s)
    ensures IsNode(n, i) && Start(n, i) == o && Size(n, i) == s
  {
    var m := Pow2Divides(s, n);
    var q := RowIndex(n, m, o, s);
    NodeInRow(n, m, q, s);
    i := m - 1 + q;
  }

  lemma {:induction false} RowIndex(n: nat, m: nat, o: nat, s: nat) returns (q: nat)
    requires s > 0 && n == m * s && o % s == 0 && o + s <= n
    ensures q < m && o == q * s
  {
    q := o / s;
    if q >= m { MulMono(m, q, s); }
  }

  /** Node q of the row of m nodes, each of s units. */
  lemma {:induction false} NodeInRow(n: nat, m: nat, q: nat, s: nat)
    requires IsPow2(n) && IsPow2(m) && s > 0 && n == m * s && q < m
    ensures IsNode(n, m - 1 + q)
    ensures Size(n, m - 1 + q) == s && Start(n, m - 1 + q) == q * s
    decreases m
  {
    if m == 1 {
    } else {
      MulHalf(s, m);
      NodeInRow(n, m / 2, q / 2, 2 * s);
      RowStart(q, s);
      RowBound(n, m, s);
      RowChild(n, m, q, m / 2 - 1 + q / 2);
    }
  }

  lemma {:induction false} RowChild(n: nat, m: nat, q: nat, p: nat)
    requires IsPow2(n) && q < m <= n && m % 2 == 0 && p == m / 2 - 1 + q / 2
    ensures IsNode(n, p) && IsNode(n, m - 1 + q)
    ensures Size(n, m - 1 + q) == Size(n, p) / 2
    ensures Start(n, m - 1 + q) == Start(n, p) + if q % 2 == 1 then Size(n, p) / 2 else 0
  {
    hide Size, Start, IsPow2;
    assert m - 1 + q == if q % 2 == 1 then Right(p) else Left(p);
    ChildFacts(n, p);
  }

  lemma {:induction false} RowStart(q: nat, s: nat)
    ensures q * s == (q / 2) * (2 * s) + (if q % 2 == 1 then s else 0)
  {
    MulAdd(2 * (q / 2), q % 2, s);
  }

  lemma {:induction false} RowBound(n: nat, m: nat, s: nat)
    requires n == m * s && s > 0
    ensures m <= n
  {
    MulMono(1, s, m);
  }

  lemma {:induction false} NodeIsBlock(n: nat, i: nat)
    requires IsPow2(n) && IsNode(n, i)
    ensures IsBlock(n, Start(n, i), Size(n, i))
  {
    NodeOffset(n, i);
    var m := Pow2Divides(Size(n, i), n);
    AlignedStart(i + 1, m, Size(n, i), Start(n, i));
  }

  lemma {:induction false} AlignedStart(k: nat, m: nat, s: nat, o: nat)
    requires s > 0 && k * s == o + m * s
    ensures o % s == 0
  {
    if k < m { MulMono(k, m - 1, s); MulAdd(m - 1, 1, s); }
    MulAdd(k - m, m, s);
    Quotient(k - m, s);
  }

  /** Live blocks: offset to size, in units. */
  type Live = map<nat, nat>

  ghost predicate LiveOk(n: nat, live: Live) {
    && (forall o | o in live :: IsBlock(n, o, live[o]))
    && (forall o, p | o in live && p in live && o != p :: o + live[o] <= p || p + live[p] <= o)
  }

  /** No live block meets the run [o, o+s). */
  ghost predicate RunFree(live: Live, o: nat, s: nat) {
    forall p | p in live :: p + live[p] <= o || o + s <= p
  }

  predicate IsLive(n: nat, live: Live, i: nat) {
    Start(n, i) in live && live[Start(n, i)] == Size(n, i)
  }

  /** Some proper ancestor of i is a live block. */
  predicate Covered(n: nat, live: Live, i: nat) {
    i > 0 && (IsLive(n, live, Parent(i)) || Covered(n, live, Parent(i)))
  }

  lemma {:induction false} CoveredBy(n: nat, live: Live, j: nat, i: nat)
    requires Anc(j, i) && j != i && IsLive(n, live, j)
    ensures Covered(n, live, i)
  {
    if j != Parent(i) { CoveredBy(n, live, j, Parent(i)); }
  }

  lemma {:induction false} Coverer(n: nat, live: Live, i: nat) returns (j: nat)
    requires Covered(n, live, i)
    ensures Anc(j, i) && j != i && IsLive(n, live, j) && j < i
  {
    j := Parent(i);
    if !IsLive(n, live, j) { j := Coverer(n, live, Parent(i)); }
  }

  /** A live node is never below another live node. */
  lemma {:induction false} LiveNotCovered(n: nat, live: Live, i: nat)
    requires IsPow2(n) && LiveOk(n, live) && IsNode(n, i) && IsLive(n, live, i)
    ensures !Covered(n, live, i)
  {
    if Covered(n, live, i) {
      var j := Coverer(n, live, i);
      AncRange(n, j, i);
      NodeFacts(n, i);
    }
  }

  /** Nothing live at, above or inside node i means its range is a free run, and conversely. */
  lemma {:induction false} FreeNode(n: nat, live: Live, i: nat)
    requires IsPow2(n) && LiveOk(n, live) && IsNode(n, i) && RunFree(live, Start(n, i), Size(n, i))
    ensures !IsLive(n, live, i) && !Covered(n, live, i)
  {
    NodeFacts(n, i);
    if Covered(n, live, i) {
      var j := Coverer(n, live, i);
      AncRange(n, j, i);
    }
  }

  /** A live block that meets a node no larger than itself is that node or covers it. */
  lemma {:induction false} LiveMeets(n: nat, live: Live, o: nat, i: nat)
    requires IsPow2(n) && LiveOk(n, live) && IsNode(n, i) && o in live
    requires Overlap(o, live[o], Start(n, i), Size(n, i)) && Size(n, i) <= live[o]
    ensures IsLive(n, live, i) || Covered(n, live, i)
  {
    var j := BlockNode(n, o, live[o]);
    Laminar(n, j, i);
    if i != j { CoveredBy(n, live, j, i); }
  }

  // ---------------------------------------------------------------- metadata

  /** server/buddy.c:203-207: two wholly free halves coalesce, otherwise the larger half counts. */
  function Join(l: nat, r: nat, s: nat): nat {
    if l + r == s then s else if l > r then l else r
  }

  /** What entry i of the metadata must hold for the live blocks. */
  predicate NodeOk(n: nat, live: Live, m: seq<nat>, i: nat)
    requires |m| == 2 * n - 1 && IsNode(n, i)
  {
    if IsLive(n, live, i) then m[i] == 0
    else if Covered(n, live, i) then m[i] == Size(n, i)
    else if i >= n - 1 then m[i] == 1
    else m[i] == Join(m[Left(i)], m[Right(i)], Size(n, i))
  }

  ghost predicate MetaOkBut(n: nat, live: Live, m: seq<nat>, skip: int) {
    && |m| == 2 * n - 1
    && forall i: nat | IsNode(n, i) && i != skip :: NodeOk(n, live, m, i)
  }

  ghost predicate MetaOk(n: nat, live: Live, m: seq<nat>) {
    MetaOkBut(n, live, m, -1)
  }

  lemma {:induction false} MetaBound(n: nat, live: Live, m: seq<nat>, i: nat)
    requires IsPow2(n) && MetaOk(n, live, m) && IsNode(n, i)
    ensures m[i] <= Size(n, i)
    decreases 2 * n - i
  {
    NodeFacts(n, i);
    assert NodeOk(n, live, m, i);
    if i < n - 1 {
      ChildFacts(n, i);
      MetaBound(n, live, m, Left(i));
      MetaBound(n, live, m, Right(i));
    }
  }

  /** Above a node with nothing live at or above it, the recorded free size only grows. */
  lemma {:induction false} MetaGrows(n: nat, live: Live, m: seq<nat>, i: nat, y: nat)
    requires IsPow2(n) && MetaOk(n, live, m) && IsNode(n, y) && Anc(i, y)
    requires !IsLive(n, live, y) && !Covered(n, live, y)
    ensures IsNode(n, i) && m[i] >= m[y]
    decreases y
  {
    if i != y {
      ParentGrows(n, live, m, Parent(y));
      MetaGrows(n, live, m, i, Parent(y));
    }
  }

  lemma {:induction false} ParentGrows(n: nat, live: Live, m: seq<nat>, p: nat)
    requires IsPow2(n) && MetaOk(n, live, m) && p < n - 1
    requires !IsLive(n, live, p) && !Covered(n, live, p)
    ensures m[p] >= m[Left(p)] && m[p] >= m[Right(p)]
  {
    ChildFacts(n, p);
    MetaBound(n, live, m, Left(p));
    MetaBound(n, live, m, Right(p));
    assert NodeOk(n, live, m, p);
    JoinGrows(m[Left(p)], m[Right(p)], Size(n, p));
  }

  lemma {:induction false} JoinGrows(l: nat, r: nat, s: nat)
    requires 2 * l <= s && 2 * r <= s
    ensures l <= Join(l, r, s) <= s && r <= Join(l, r, s)
    ensures Join(l, r, s) == s ==> s == 0 || 2 * l == s == 2 * r
  {
  }

  /** A node recorded as full has a free range, and everything below it is recorded as full. */
  lemma {:induction false} FullIsFree(n: nat, live: Live, m: seq<nat>, i: nat)
    requires IsPow2(n) && LiveOk(n, live) && MetaOk(n, live, m) && IsNode(n, i)
    requires !Covered(n, live, i) && m[i] == Size(n, i)
    ensures RunFree(live, Start(n, i), Size(n, i))
    decreases 2 * n - i
  {
    NodeFacts(n, i);
    if i >= n - 1 {
      assert NodeOk(n, live, m, i);
      UnitFree(n, live, i);
    } else {
      FullChildren(n, live, m, i);
      ChildFacts(n, i);
      FullIsFree(n, live, m, Left(i));
      FullIsFree(n, live, m, Right(i));
      HalvesFree(n, live, Start(n, i), Size(n, Left(i)));
    }
  }

  lemma {:induction false} FullChildren(n: nat, live: Live, m: seq<nat>, i: nat)
    requires IsPow2(n) && MetaOk(n, live, m) && i < n - 1
    requires !Covered(n, live, i) && m[i] == Size(n, i)
    ensures m[Left(i)] == Size(n, Left(i)) && m[Right(i)] == Size(n, Right(i))
    ensures !Covered(n, live, Left(i)) && !Covered(n, live, Right(i))
  {
    NodeFacts(n, i);
    ChildFacts(n, i);
    MetaBound(n, live, m, Left(i));
    MetaBound(n, live, m, Right(i));
    assert NodeOk(n, live, m, i);
    JoinGrows(m[Left(i)], m[Right(i)], Size(n, i));
  }

  lemma {:induction false} UnitFree(n: nat, live: Live, i: nat)
    requires IsPow2(n) && LiveOk(n, live) && IsNode(n, i) && i >= n - 1
    requires !IsLive(n, live, i) && !Covered(n, live, i)
    ensures RunFree(live, Start(n, i), 1)
  {
    NodeFacts(n, i);
    forall p | p in live
      ensures p + live[p] <= Start(n, i) || Start(n, i) + 1 <= p
    {
      assert IsBlock(n, p, live[p]);
      if Overlap(p, live[p], Start(n, i), 1) { LiveMeets(n, live, p, i); }
    }
  }

  lemma {:induction false} HalvesFree(n: nat, live: Live, o: nat, h: nat)
    requires LiveOk(n, live) && RunFree(live, o, h) && RunFree(live, o + h, h)
    ensures RunFree(live, o, 2 * h)
  {
    forall p | p in live
      ensures p + live[p] <= o || o + 2 * h <= p
    {
      assert IsBlock(n, p, live[p]);
    }
  }

  /** The converse: a free range is recorded as full. */
  lemma {:induction false} FreeIsFull(n: nat, live: Live, m: seq<nat>, i: nat)
    requires IsPow2(n) && LiveOk(n, live) && MetaOk(n, live, m) && IsNode(n, i)
    requires RunFree(live, Start(n, i), Size(n, i))
    ensures m[i] == Size(n, i)
    decreases 2 * n - i
  {
    NodeFacts(n, i);
    assert NodeOk(n, live, m, i);
    FreeNode(n, live, i);
    if i < n - 1 {
      ChildFacts(n, i);
      FreeIsFull(n, live, m, Left(i));
      FreeIsFull(n, live, m, Right(i));
    }
  }

  /** Every node below a free node is recorded as full. */
  lemma {:induction false} FullBelow(n: nat, live: Live, m: seq<nat>, i: nat, j: nat)
    requires IsPow2(n) && LiveOk(n, live) && MetaOk(n, live, m) && IsNode(n, j) && Anc(i, j)
    requires IsNode(n, i) && RunFree(live, Start(n, i), Size(n, i))
    ensures m[j] == Size(n, j)
  {
    AncRange(n, i, j);
    FreeIsFull(n, live, m, j);
  }

  /** Some aligned free run of s units lies below node i exactly when the node records at least s. */
  lemma {:induction false} MetaWitness(n: nat, live: Live, m: seq<nat>, i: nat, s: nat) returns (y: nat)
    requires IsPow2(n) && LiveOk(n, live) && MetaOk(n, live, m) && IsNode(n, i)
    requires !Covered(n, live, i) && IsPow2(s) && s <= m[i]
    ensures IsNode(n, y) && Anc(i, y) && Size(n, y) == s && RunFree(live, Start(n, y), s)
    decreases 2 * n - i
  {
    NodeFacts(n, i);
    MetaBound(n, live, m, i);
    assert NodeOk(n, live, m, i);
    if s == Size(n, i) {
      FullIsFree(n, live, m, i);
      y := i;
    } else {
      Pow2Gap(s, Size(n, i));
      ChildFacts(n, i);
      MetaBound(n, live, m, Left(i));
      MetaBound(n, live, m, Right(i));
      var c := if m[Left(i)] >= s then Left(i) else Right(i);
      y := MetaWitness(n, live, m, c, s);
      AncTrans(i, c, y);
    }
  }

  lemma {:induction false} MetaCovers(n: nat, live: Live, m: seq<nat>, i: nat, y: nat)
    requires IsPow2(n) && LiveOk(n, live) && MetaOk(n, live, m) && IsNode(n, y) && Anc(i, y)
    requires RunFree(live, Start(n, y), Size(n, y))
    ensures IsNode(n, i) && m[i] >= Size(n, y)
  {
    FreeNode(n, live, y);
    FreeIsFull(n, live, m, y);
    MetaGrows(n, live, m, i, y);
  }

  // ---------------------------------------------------------------- updates

  lemma {:induction false} SameRange(n: nat, i: nat, j: nat)
    requires IsPow2(n) && IsNode(n, i) && IsNode(n, j)
    requires Start(n, i) == Start(n, j) && Size(n, i) == Size(n, j)
    ensures i == j
  {
    NodeFacts(n, i);
    Laminar(n, i, j);
    if i != j { AncRange(n, i, j); }
  }

  function AddLive(n: nat, live: Live, x: nat): Live {
    live[Start(n, x) := Size(n, x)]
  }

  function DropLive(n: nat, live: Live, x: nat): Live {
    live - {Start(n, x)}
  }

  lemma {:induction false} AddLiveOk(n: nat, live: Live, x: nat)
    requires IsPow2(n) && LiveOk(n, live) && IsNode(n, x) && RunFree(live, Start(n, x), Size(n, x))
    ensures LiveOk(n, AddLive(n, live, x)) && Start(n, x) !in live
  {
    NodeFacts(n, x);
    NodeIsBlock(n, x);
    forall o | o in live
      ensures o != Start(n, x) && IsBlock(n, o, live[o])
    {
      assert IsBlock(n, o, live[o]);
    }
  }

  lemma {:induction false} AddIsLive(n: nat, live: Live, x: nat, j: nat)
    requires IsPow2(n) && LiveOk(n, live) && IsNode(n, x) && RunFree(live, Start(n, x), Size(n, x))
    requires IsNode(n, j)
    ensures IsLive(n, AddLive(n, live, x), j) <==> j == x || IsLive(n, live, j)
  {
    AddLiveOk(n, live, x);
    if j != x && Start(n, j) == Start(n, x) && Size(n, j) == Size(n, x) { SameRange(n, x, j); }
  }

  lemma {:induction false} AddCovered(n: nat, live: Live, x: nat, j: nat)
    requires IsPow2(n) && LiveOk(n, live) && IsNode(n, x) && RunFree(live, Start(n, x), Size(n, x))
    requires IsNode(n, j)
    ensures Covered(n, AddLive(n, live, x), j) <==> Covered(n, live, j) || (Anc(x, j) && x != j)
    decreases j
  {
    if j > 0 {
      AddIsLive(n, live, x, Parent(j));
      AddCovered(n, live, x, Parent(j));
      if x == j && Anc(x, Parent(j)) { AncRange(n, x, Parent(j)); }
      if Anc(j, Parent(j)) { AncRange(n, j, Parent(j)); NodeFacts(n, j); }
    }
  }

  /** Marking a free node live leaves only its parent to be recomputed. */
  lemma {:induction false} Allocated(n: nat, live: Live, m: seq<nat>, x: nat)
    requires IsPow2(n) && LiveOk(n, live) && MetaOk(n, live, m)
    requires IsNode(n, x) && RunFree(live, Start(n, x), Size(n, x))
    ensures LiveOk(n, AddLive(n, live, x))
    ensures MetaOkBut(n, AddLive(n, live, x), m[x := 0], if x == 0 then -1 else Parent(x))
  {
    AddLiveOk(n, live, x);
    forall j: nat | IsNode(n, j) && !(x > 0 && j == Parent(x))
      ensures NodeOk(n, AddLive(n, live, x), m[x := 0], j)
    {
      AllocatedAt(n, live, m, x, j);
    }
  }

  lemma {:induction false} AllocatedAt(n: nat, live: Live, m: seq<nat>, x: nat, j: nat)
    requires IsPow2(n) && LiveOk(n, live) && MetaOk(n, live, m)
    requires IsNode(n, x) && RunFree(live, Start(n, x), Size(n, x))
    requires IsNode(n, j) && !(x > 0 && j == Parent(x))
    ensures NodeOk(n, AddLive(n, live, x), m[x := 0], j)
  {
    AddIsLive(n, live, x, j);
    AddCovered(n, live, x, j);
    if j == x {
    } else if Anc(x, j) {
      FullBelow(n, live, m, x, j);
      AncRange(n, x, j);
      FreeNode(n, live, j);
    } else {
      assert NodeOk(n, live, m, j);
      if j < n - 1 { assert Left(j) != x && Right(j) != x; }
    }
  }

  lemma {:induction false} DropLiveOk(n: nat, live: Live, x: nat)
    requires IsPow2(n) && LiveOk(n, live) && IsNode(n, x) && IsLive(n, live, x)
    ensures LiveOk(n, DropLive(n, live, x)) && RunFree(DropLive(n, live, x), Start(n, x), Size(n, x))
    ensures AddLive(n, DropLive(n, live, x), x) == live
  {
    var live' := DropLive(n, live, x);
    forall o | o in live'
      ensures IsBlock(n, o, live'[o])
    {
      assert IsBlock(n, o, live[o]);
    }
  }

  /** The converse of Allocated: giving a live node its size back leaves only its parent. */
  lemma {:induction false} Released(n: nat, live: Live, m: seq<nat>, x: nat)
    requires IsPow2(n) && LiveOk(n, live) && MetaOk(n, live, m) && IsNode(n, x) && IsLive(n, live, x)
    ensures LiveOk(n, DropLive(n, live, x))
    ensures MetaOkBut(n, DropLive(n, live, x), m[x := Size(n, x)], if x == 0 then -1 else Parent(x))
  {
    DropLiveOk(n, live, x);
    forall j: nat | IsNode(n, j) && !(x > 0 && j == Parent(x))
      ensures NodeOk(n, DropLive(n, live, x), m[x := Size(n, x)], j)
    {
      ReleasedAt(n, live, m, x, j);
    }
  }

  lemma {:induction false} ReleasedAt(n: nat, live: Live, m: seq<nat>, x: nat, j: nat)
    requires IsPow2(n) && LiveOk(n, live) && MetaOk(n, live, m) && IsNode(n, x) && IsLive(n, live, x)
    requires IsNode(n, j) && !(x > 0 && j == Parent(x))
    ensures NodeOk(n, DropLive(n, live, x), m[x := Size(n, x)], j)
  {
    var live' := DropLive(n, live, x);
    DropLiveOk(n, live, x);
    AddIsLive(n, live', x, j);
    AddCovered(n, live', x, j);
    if Anc(x, j) {
      ReleasedInside(n, live, m, x, j);
    } else {
      assert NodeOk(n, live, m, j);
      if j < n - 1 { assert Left(j) != x && Right(j) != x; }
    }
  }

  lemma {:induction false} ReleasedInside(n: nat, live: Live, m: seq<nat>, x: nat, j: nat)
    requires IsPow2(n) && LiveOk(n, live) && MetaOk(n, live, m) && IsNode(n, x) && IsLive(n, live, x)
    requires IsNode(n, j) && Anc(x, j)
    ensures NodeOk(n, DropLive(n, live, x), m[x := Size(n, x)], j)
  {
    var live' := DropLive(n, live, x);
    DropLiveOk(n, live, x);
    AncRange(n, x, j);
    NodeFacts(n, j);
    FreeNode(n, live', j);
    if j != x { CoveredFull(n, live, m, x, j); }
    if j < n - 1 {
      ChildFacts(n, j);
      AncTrans(x, j, Left(j));
      AncTrans(x, j, Right(j));
      AncRange(n, j, Left(j));
      AncRange(n, j, Right(j));
      CoveredFull(n, live, m, x, Left(j));
      CoveredFull(n, live, m, x, Right(j));
    }
  }

  lemma {:induction false} CoveredFull(n: nat, live: Live, m: seq<nat>, x: nat, j: nat)
    requires IsPow2(n) && LiveOk(n, live) && MetaOk(n, live, m) && IsNode(n, x) && IsLive(n, live, x)
    requires IsNode(n, j) && Anc(x, j) && x != j
    ensures m[j] == Size(n, j)
  {
    CoveredBy(n, live, x, j);
    if IsLive(n, live, j) { LiveNotCovered(n, live, j); }
    assert NodeOk(n, live, m, j);
  }

  /** Recomputing one node moves the only possible error to its parent. */
  lemma {:induction false} Repaired(n: nat, live: Live, m: seq<nat>, p: nat)
    requires IsPow2(n) && MetaOkBut(n, live, m, p) && p < n - 1
    requires !IsLive(n, live, p) && !Covered(n, live, p)
    ensures MetaOkBut(n, live, m[p := Join(m[Left(p)], m[Right(p)], Size(n, p))],
                      if p == 0 then -1 else Parent(p))
  {
    var m' := m[p := Join(m[Left(p)], m[Right(p)], Size(n, p))];
    forall j: nat | IsNode(n, j) && !(p > 0 && j == Parent(p))
      ensures NodeOk(n, live, m', j)
    {
      if j != p {
        assert NodeOk(n, live, m, j);
        if j < n - 1 { assert Left(j) != p && Right(j) != p; }
      }
    }
  }

  // ---------------------------------------------------------------- what the array says

  /** The metadata is a function of the live blocks. */
  lemma {:induction false} MetaUnique(n: nat, live: Live, m: seq<nat>, m': seq<nat>)
    requires IsPow2(n) && MetaOk(n, live, m) && MetaOk(n, live, m')
    ensures m == m'
  {
    forall i: nat | IsNode(n, i)
      ensures m[i] == m'[i]
    {
      MetaUniqueAt(n, live, m, m', i);
    }
  }

  lemma {:induction false} MetaUniqueAt(n: nat, live: Live, m: seq<nat>, m': seq<nat>, i: nat)
    requires IsPow2(n) && MetaOk(n, live, m) && MetaOk(n, live, m') && IsNode(n, i)
    ensures m[i] == m'[i]
    decreases 2 * n - i
  {
    assert NodeOk(n, live, m, i) && NodeOk(n, live, m', i);
    if i < n - 1 {
      MetaUniqueAt(n, live, m, m', Left(i));
      MetaUniqueAt(n, live, m, m', Right(i));
    }
  }

  ghost predicate FreeRunUnder(n: nat, live: Live, i: nat, s: nat) {
    exists y: nat :: FreeRunAt(n, live, i, s, y)
  }

  ghost predicate FreeRunAt(n: nat, live: Live, i: nat, s: nat, y: nat) {
    IsNode(n, y) && Anc(i, y) && Size(n, y) == s && RunFree(live, Start(n, y), s)
  }

  /** A live node holds 0, a node below one its full size, and any other node
      the size of the largest free aligned block under it. */
  lemma {:induction false} MetaMeaning(n: nat, live: Live, m: seq<nat>, i: nat)
    requires IsPow2(n) && LiveOk(n, live) && MetaOk(n, live, m) && IsNode(n, i)
    ensures IsLive(n, live, i) ==> m[i] == 0
    ensures Covered(n, live, i) ==> m[i] == Size(n, i)
    ensures !Covered(n, live, i) ==> m[i] == 0 || IsPow2(m[i])
    ensures !Covered(n, live, i) ==>
              forall s: nat | IsPow2(s) :: s <= m[i] <==> FreeRunUnder(n, live, i, s)
  {
    assert NodeOk(n, live, m, i);
    if IsLive(n, live, i) { LiveNotCovered(n, live, i); }
    if !Covered(n, live, i) {
      MetaPow2(n, live, m, i);
      forall s: nat | IsPow2(s)
        ensures s <= m[i] <==> FreeRunUnder(n, live, i, s)
      {
        if s <= m[i] {
          var y := MetaWitness(n, live, m, i, s);
          assert FreeRunAt(n, live, i, s, y);
        }
        if FreeRunUnder(n, live, i, s) {
          var y :| FreeRunAt(n, live, i, s, y);
          MetaCovers(n, live, m, i, y);
        }
      }
    }
  }

  lemma {:induction false} MetaPow2(n: nat, live: Live, m: seq<nat>, i: nat)
    requires IsPow2(n) && MetaOk(n, live, m) && IsNode(n, i)
    ensures m[i] == 0 || IsPow2(m[i])
    decreases 2 * n - i
  {
    NodeFacts(n, i);
    assert NodeOk(n, live, m, i);
    if i < n - 1 {
      MetaPow2(n, live, m, Left(i));
      MetaPow2(n, live, m, Right(i));
    }
  }
}
