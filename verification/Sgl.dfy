/**
 server/rdma.c:646-681: cutting a value into RDMA operations along the client's
 scatter-gather list, and server/rdma.c:1238-1256: running the completion action once.
 The offsets and the remaining length are 32-bit and wrap.
 */
module Sgl {

  const WORD: nat := 0x1_0000_0000
  const MAX_RW: nat := 0x4000_0000

  datatype Segment = Segment(addr: nat, length: nat)

  /** One posted operation: value offset, remote address, length. */
  datatype Post = Post(local: nat, remote: nat, length: nat)

  function Min(a: nat, b: nat): nat { if a < b then a else b }

  function Wrap(x: int): nat { x % WORD }

  /** priskv_sgl_size_from_be */
  method SizeOf(sgl: seq<Segment>) returns (size: nat)
    ensures size == Wrap(Total(sgl))
  {
    size := 0;
    for i := 0 to |sgl|
      invariant size == Wrap(Total(sgl[..i]))
    {
      size := Wrap(size + sgl[i].length);
      TotalSnoc(sgl, i);
    }
    assert sgl[..|sgl|] == sgl;
  }

  function Total(sgl: seq<Segment>): nat {
    if sgl == [] then 0 else sgl[0].length + Total(sgl[1..])
  }

  lemma {:induction false} TotalAppend(a: seq<Segment>, b: seq<Segment>)
    ensures Total(a + b) == Total(a) + Total(b)
  {
    if a == [] {
      assert a + b == b;
    } else {
      assert (a + b)[1..] == a[1..] + b;
      TotalAppend(a[1..], b);
    }
  }

  lemma {:induction false} TotalSnoc(sgl: seq<Segment>, i: nat)
    requires i < |sgl|
    ensures Total(sgl[..i + 1]) == Total(sgl[..i]) + sgl[i].length
  {
    assert sgl[..i + 1] == sgl[..i] + [sgl[i]];
    TotalAppend(sgl[..i], [sgl[i]]);
  }

  // ---------------------------------------------------------------- one segment

  /** Lines 658-659: the length of the operation posted at offset o. */
  function Len(length: nat, rem: nat, o: nat): nat
    requires o <= length
  {
    Min(Min(length - o, rem), MAX_RW)
  }

  /** Line 677: another operation follows the one posted at offset o. */
  predicate More(length: nat, rem: nat, o: nat)
    requires o <= length
  {
    o + Len(length, rem, o) < Min(length, rem)
  }

  lemma {:induction false} LenFacts(length: nat, rem: nat, o: nat)
    requires o <= length
    ensures o + Len(length, rem, o) <= length && Len(length, rem, o) <= MAX_RW
    ensures More(length, rem, o) ==> Len(length, rem, o) > 0
  {
  }

  /** The operations for one segment from offset o on, with rem bytes of value left. */
  function Chunks(s: Segment, base: nat, rem: nat, o: nat): seq<Post>
    requires o <= s.length
    decreases s.length - o
  {
    var n := Len(s.length, rem, o);
    [Post(base + o, s.addr + o, n)] + (if More(s.length, rem, o) then Chunks(s, base, rem, o + n) else [])
  }

  lemma {:induction false} ChunksUnfold(s: Segment, base: nat, rem: nat, o: nat)
    requires o <= s.length
    ensures Chunks(s, base, rem, o) ==
            [Post(base + o, s.addr + o, Len(s.length, rem, o))]
              + (if More(s.length, rem, o) then Chunks(s, base, rem, o + Len(s.length, rem, o)) else [])
  {
  }

  function All(sgl: seq<Segment>, base: nat, rem: nat): seq<Post> {
    if sgl == [] then []
    else Chunks(sgl[0], base, rem, 0) + All(sgl[1..], Wrap(base + sgl[0].length), Wrap(rem - sgl[0].length))
  }

  /** The do-while of lines 653-677. */
  method PostSegment(s: Segment, offset: nat, rem: nat) returns (posts: seq<Post>)
    ensures posts == Chunks(s, offset, rem, 0)
  {
    hide Len, More, Min, Chunks;
    var o, again := 0, true;
    posts := [];
    while again
      invariant o <= s.length
      invariant posts + (if again then Chunks(s, offset, rem, o) else []) == Chunks(s, offset, rem, 0)
      decreases again, s.length - o
    {
      LenFacts(s.length, rem, o);
      ChunksUnfold(s, offset, rem, o);
      var n := Len(s.length, rem, o);
      var p := Post(offset + o, s.addr + o, n);
      Assoc(posts, [p], if More(s.length, rem, o) then Chunks(s, offset, rem, o + n) else []);
      posts := posts + [p];
      again := More(s.length, rem, o);
      o := o + n;
    }
  }

  /** The loop of priskv_rdma_rw_req. */
  method PostAll(sgl: seq<Segment>, valuelen: nat) returns (posts: seq<Post>)
    ensures posts == All(sgl, 0, valuelen)
  {
    hide Chunks, Wrap;
    posts := [];
    var offset: nat, rem: nat := 0, valuelen;
    assert sgl[0..] == sgl;
    for i := 0 to |sgl|
      invariant posts + All(sgl[i..], offset, rem) == All(sgl, 0, valuelen)
    {
      var chunks := PostSegment(sgl[i], offset, rem);
      assert sgl[i..][1..] == sgl[i + 1..];
      Assoc(posts, chunks, All(sgl[i + 1..], Wrap(offset + sgl[i].length), Wrap(rem - sgl[i].length)));
      posts := posts + chunks;
      offset := Wrap(offset + sgl[i].length);
      rem := Wrap(rem - sgl[i].length);
    }
  }

  lemma {:induction false} Assoc(a: seq<Post>, b: seq<Post>, c: seq<Post>)
    ensures a + (b + c) == a + b + c
  {
  }

  // ---------------------------------------------------------------- exact tiling

  /** The operations move the bytes [from, end) of the value once each and in order;
      operations of length zero move nothing. */
  predicate Tiles(posts: seq<Post>, from: nat, end: nat) {
    if posts == [] then from == end
    else if posts[0].length == 0 then Tiles(posts[1..], from, end)
    else posts[0].local == from && Tiles(posts[1..], from + posts[0].length, end)
  }

  /** Every operation posted for segment j stays inside it, at the same distance from its start
      on both sides. */
  ghost predicate Aligned(posts: seq<Post>, sgl: seq<Segment>, j: nat) {
    forall i | 0 <= i < |posts| && posts[i].length > 0 :: posts[i].length <= MAX_RW && InSegment(posts[i], sgl, j)
  }

  predicate InSegment(p: Post, sgl: seq<Segment>, j: nat) {
    && j < |sgl|
    && Total(sgl[..j]) <= p.local && p.local + p.length <= Total(sgl[..j]) + sgl[j].length
    && p.remote == sgl[j].addr + (p.local - Total(sgl[..j]))
  }

  predicate NoMore(sgl: seq<Segment>) {
    forall i | 0 <= i < |sgl| :: sgl[i].length == 0
  }

  /** When the loop is right: the value ends exactly at a segment's end, or inside the last
      non-empty segment with at most 1 GiB (or a whole number of GiB) of it in use. */
  predicate Exact(sgl: seq<Segment>, v: nat) {
    if sgl == [] then v == 0
    else if sgl[0].length <= v then Exact(sgl[1..], v - sgl[0].length)
    else (v <= MAX_RW || v % MAX_RW == 0) && NoMore(sgl[1..])
  }

  function Moved(posts: seq<Post>): nat {
    if posts == [] then 0 else posts[0].length + Moved(posts[1..])
  }

  lemma {:induction false} MovedAppend(a: seq<Post>, b: seq<Post>)
    ensures Moved(a + b) == Moved(a) + Moved(b)
  {
    if a == [] {
      assert a + b == b;
    } else {
      assert (a + b)[1..] == a[1..] + b;
      MovedAppend(a[1..], b);
    }
  }

  lemma {:induction false} TilesMoved(posts: seq<Post>, from: nat, end: nat)
    requires Tiles(posts, from, end)
    ensures Moved(posts) == end - from
  {
    if posts != [] {
      TilesMoved(posts[1..], if posts[0].length == 0 then from else from + posts[0].length, end);
    }
  }

  lemma {:induction false} TilesAppend(a: seq<Post>, b: seq<Post>, from: nat, mid: nat, end: nat)
    requires Tiles(a, from, mid) && Tiles(b, mid, end)
    ensures Tiles(a + b, from, end)
  {
    if a == [] {
      assert a + b == b;
    } else {
      assert (a + b)[1..] == a[1..] + b;
      TilesAppend(a[1..], b, if a[0].length == 0 then from else from + a[0].length, mid, end);
    }
  }

  /** Where the operations of one segment stop. */
  function Stop(length: nat, rem: nat, o: nat): nat
    requires o <= length
    decreases length - o
  {
    var n := Len(length, rem, o);
    if More(length, rem, o) then Stop(length, rem, o + n) else o + n
  }

  lemma {:induction false} ChunksTile(s: Segment, base: nat, rem: nat, o: nat)
    requires o <= s.length
    ensures o <= Stop(s.length, rem, o) <= s.length
    ensures Tiles(Chunks(s, base, rem, o), base + o, base + Stop(s.length, rem, o))
    decreases s.length - o
  {
    hide Len, More, Min, Tiles;
    LenFacts(s.length, rem, o);
    var n := Len(s.length, rem, o);
    TilesNone(base + o + n);
    if More(s.length, rem, o) {
      ChunksTile(s, base, rem, o + n);
      OneTile(Post(base + o, s.addr + o, n), Chunks(s, base, rem, o + n), base + o, base + Stop(s.length, rem, o + n));
    } else {
      OneTile(Post(base + o, s.addr + o, n), [], base + o, base + o + n);
    }
  }

  lemma {:induction false} TilesNone(at: nat)
    ensures Tiles([], at, at)
  {
  }

  lemma {:induction false} OneTile(p: Post, rest: seq<Post>, from: nat, end: nat)
    requires p.local == from && Tiles(rest, from + p.length, end)
    ensures Tiles([p] + rest, from, end)
  {
    assert ([p] + rest)[1..] == rest;
  }

  /** A segment that the value fills is covered to its end. */
  lemma {:induction false} StopFull(length: nat, rem: nat, o: nat)
    requires o <= length <= rem
    ensures Stop(length, rem, o) == length
    decreases length - o
  {
    if More(length, rem, o) { StopFull(length, rem, o + Len(length, rem, o)); }
  }

  /** In a longer segment the operations reach the value's end, and stop there exactly when
      the part used is at most 1 GiB or a whole number of GiB. */
  lemma {:induction false} StopPartial(length: nat, rem: nat, o: nat)
    requires rem < length && o <= length && o % MAX_RW == 0 && (o == 0 || o < rem)
    ensures Stop(length, rem, o) >= rem
    ensures Stop(length, rem, o) == rem <==> rem % MAX_RW == 0 || (o == 0 && rem <= MAX_RW)
    decreases length - o
  {
    if More(length, rem, o) { StopPartial(length, rem, o + Len(length, rem, o)); }
  }

  /** Empty segments post operations that move nothing. */
  lemma {:induction false} EmptyMoves(sgl: seq<Segment>, base: nat, rem: nat, at: nat)
    requires NoMore(sgl)
    ensures Tiles(All(sgl, base, rem), at, at)
  {
    if sgl != [] {
      EmptyMoves(sgl[1..], Wrap(base + sgl[0].length), Wrap(rem - sgl[0].length), at);
      TilesAppend(Chunks(sgl[0], base, rem, 0),
                  All(sgl[1..], Wrap(base + sgl[0].length), Wrap(rem - sgl[0].length)), at, at, at);
    }
  }

  /** While bytes remain to be moved, any non-empty segment moves some. */
  lemma {:induction false} Moves(sgl: seq<Segment>, base: nat, rem: nat)
    requires 0 < rem < WORD && !NoMore(sgl)
    ensures Moved(All(sgl, base, rem)) > 0
  {
    var c, r := Chunks(sgl[0], base, rem, 0), All(sgl[1..], Wrap(base + sgl[0].length), Wrap(rem - sgl[0].length));
    MovedAppend(c, r);
    if sgl[0].length > 0 {
      assert c[0].length > 0;
    } else {
      Moves(sgl[1..], Wrap(base + sgl[0].length), Wrap(rem - sgl[0].length));
    }
  }

  /** Every length fits the 32-bit field it is sent in. */
  predicate Lengths(sgl: seq<Segment>) {
    forall i | 0 <= i < |sgl| :: sgl[i].length < WORD
  }

  /** The loop tiles the value exactly when Exact holds, for every list and value length. */
  lemma {:induction false} TilesIff(sgl: seq<Segment>, base: nat, v: nat)
    requires Lengths(sgl) && base + v < WORD
    ensures Tiles(All(sgl, base, v), base, base + v) <==> Exact(sgl, v)
  {
    hide Chunks, Stop, Tiles, Moved, Wrap, NoMore;
    if sgl == [] {
      assert Tiles([], base, base + v) <==> v == 0 by { TilesNothing(base, base + v); }
    } else if sgl[0].length <= v {
      var l := sgl[0].length;
      TilesIff(sgl[1..], base + l, v - l);
      TilesFull(sgl, base, v);
    } else {
      TilesPartial(sgl, base, v);
    }
  }

  lemma {:induction false} TilesNothing(from: nat, end: nat)
    ensures Tiles([], from, end) <==> from == end
  {
  }

  lemma {:induction false} TilesFull(sgl: seq<Segment>, base: nat, v: nat)
    requires sgl != [] && base + v < WORD && sgl[0].length <= v
    ensures var l := sgl[0].length;
            Tiles(All(sgl, base, v), base, base + v) <==> Tiles(All(sgl[1..], base + l, v - l), base + l, base + v)
  {
    hide Chunks, Stop, Tiles, Wrap;
    var l := sgl[0].length;
    ChunksTile(sgl[0], base, v, 0);
    StopFull(l, v, 0);
    WrapFits(base + l);
    WrapFits(v - l);
    TilesSplit(Chunks(sgl[0], base, v, 0), All(sgl[1..], base + l, v - l), base, base + l, base + v);
  }

  lemma {:induction false} TilesPartial(sgl: seq<Segment>, base: nat, v: nat)
    requires sgl != [] && v < sgl[0].length < WORD
    ensures Tiles(All(sgl, base, v), base, base + v) <==> Exact(sgl, v)
  {
    hide Chunks, Stop, Tiles, Moved, Wrap, NoMore;
    var l := sgl[0].length;
    var c, r := Chunks(sgl[0], base, v, 0), All(sgl[1..], Wrap(base + l), Wrap(v - l));
    ChunksTile(sgl[0], base, v, 0);
    StopPartial(l, v, 0);
    if Exact(sgl, v) {
      EmptyMoves(sgl[1..], Wrap(base + l), Wrap(v - l), base + v);
      TilesAppend(c, r, base, base + v, base + v);
    } else {
      Overshoots(sgl, base, v);
      if Tiles(c + r, base, base + v) { TilesMoved(c + r, base, base + v); }
    }
  }

  lemma {:induction false} WrapFits(x: nat)
    requires x < WORD
    ensures Wrap(x) == x
  {
  }

  /** Otherwise the operations move more bytes than the value has. */
  lemma {:induction false} Overshoots(sgl: seq<Segment>, base: nat, v: nat)
    requires sgl != [] && v < sgl[0].length < WORD && !Exact(sgl, v)
    ensures Moved(All(sgl, base, v)) > v
  {
    hide Chunks, Stop, Tiles, Moved, NoMore;
    var l := sgl[0].length;
    var c, r := Chunks(sgl[0], base, v, 0), All(sgl[1..], Wrap(base + l), Wrap(v - l));
    ChunksTile(sgl[0], base, v, 0);
    TilesMoved(c, base, base + Stop(l, v, 0));
    MovedAppend(c, r);
    StopPartial(l, v, 0);
    if Stop(l, v, 0) == v {
      assert Wrap(v - l) == v - l + WORD;
      Moves(sgl[1..], Wrap(base + l), Wrap(v - l));
    }
  }

  lemma {:induction false} TilesSplit(a: seq<Post>, b: seq<Post>, from: nat, mid: nat, end: nat)
    requires Tiles(a, from, mid)
    ensures Tiles(a + b, from, end) <==> Tiles(b, mid, end)
  {
    if a == [] {
      assert a + b == b;
    } else {
      assert (a + b)[1..] == a[1..] + b;
      TilesSplit(a[1..], b, if a[0].length == 0 then from else from + a[0].length, mid, end);
    }
  }

  /** SET takes the value's length from the list itself, modulo 2^32: the operations tile the
      value exactly when the sum did not wrap. */
  lemma {:induction false} SetTiles(sgl: seq<Segment>)
    requires Lengths(sgl)
    ensures var v := Wrap(Total(sgl)); Tiles(All(sgl, 0, v), 0, v) <==> Total(sgl) < WORD
  {
    hide Tiles, Exact, All;
    var v := Wrap(Total(sgl));
    TilesIff(sgl, 0, v);
    if Total(sgl) < WORD {
      ExactTotal(sgl);
    } else if Exact(sgl, v) {
      ExactShort(sgl, v);
    }
  }

  lemma {:induction false} ExactTotal(sgl: seq<Segment>)
    ensures Exact(sgl, Total(sgl))
  {
    if sgl != [] { ExactTotal(sgl[1..]); }
  }

  /** Where the loop is right, the list is longer than the value by less than one segment. */
  lemma {:induction false} ExactShort(sgl: seq<Segment>, v: nat)
    requires Lengths(sgl) && Exact(sgl, v)
    ensures v <= Total(sgl) < v + WORD
  {
    if sgl != [] {
      if sgl[0].length <= v { ExactShort(sgl[1..], v - sgl[0].length); } else { NoMoreTotal(sgl[1..]); }
    }
  }

  lemma {:induction false} NoMoreTotal(sgl: seq<Segment>)
    requires NoMore(sgl)
    ensures Total(sgl) == 0
  {
    if sgl != [] { NoMoreTotal(sgl[1..]); }
  }

  /** A failing SET: the two lengths sum to 8 modulo 2^32, so 8 bytes are reserved, and the second
      segment's first operation moves 1 GiB to offset 2 GiB. */
  lemma {:induction false} SetWraps(a: nat, b: nat)
    ensures var sgl := [Segment(a, 0x8000_0000), Segment(b, 0x8000_0008)];
            && Wrap(Total(sgl)) == 8 && !Tiles(All(sgl, 0, 8), 0, 8)
            && Post(0x8000_0000, b, MAX_RW) in All(sgl, 0, 8)
  {
    var s, t := Segment(a, 0x8000_0000), Segment(b, 0x8000_0008);
    var sgl := [s, t];
    assert sgl[1..] == [t] && [t][1..] == [];
    assert Total([t]) == 0x8000_0008 && Total(sgl) == 0x1_0000_0008;
    SetTiles(sgl);
    var second := Chunks(t, 0x8000_0000, 0x8000_0008, 0);
    assert All(sgl, 0, 8) == Chunks(s, 0, 8, 0) + All([t], 0x8000_0000, 0x8000_0008);
    assert second[0] == Post(0x8000_0000, b, MAX_RW) && second[0] in second;
    assert All([t], 0x8000_0000, 0x8000_0008) == second + [];
  }

  /** A failing GET: a list of two 4-byte segments for a 2-byte value moves 4 bytes too many. */
  lemma {:induction false} LongList(a: nat, b: nat)
    ensures var sgl := [Segment(a, 4), Segment(b, 4)];
            !Exact(sgl, 2) && All(sgl, 0, 2) == [Post(0, a, 2), Post(4, b, 4)]
  {
    var s, t := Segment(a, 4), Segment(b, 4);
    var sgl := [s, t];
    assert sgl[1..] == [t] && [t][1..] == [] && t in [t] && [t][0].length != 0;
    assert All(sgl, 0, 2) == Chunks(s, 0, 2, 0) + All([t], 4, 0xFFFF_FFFE);
    assert All([t], 4, 0xFFFF_FFFE) == Chunks(t, 4, 0xFFFF_FFFE, 0) + [];
  }

  // ---------------------------------------------------------------- matching addresses

  /** The operations posted for segment j, with wrapped offset and remaining length. */
  function For(sgl: seq<Segment>, v: nat, j: nat): seq<Post>
    requires j < |sgl|
  {
    Chunks(sgl[j], Wrap(Total(sgl[..j])), Wrap(v - Total(sgl[..j])), 0)
  }

  function Upto(sgl: seq<Segment>, v: nat, j: nat): seq<Post>
    requires j <= |sgl|
  {
    if j == 0 then [] else Upto(sgl, v, j - 1) + For(sgl, v, j - 1)
  }

  /** All operations are those of the segments, one segment after the other. */
  lemma {:induction false} AllSplit(sgl: seq<Segment>, v: nat, j: nat)
    requires j <= |sgl| && v < WORD
    ensures All(sgl, 0, v) == Upto(sgl, v, j) + All(sgl[j..], Wrap(Total(sgl[..j])), Wrap(v - Total(sgl[..j])))
  {
    hide Chunks, Wrap;
    if j == 0 {
      assert sgl[0..] == sgl && sgl[..0] == [];
      WrapFits(0);
      WrapFits(v);
    } else {
      AllSplit(sgl, v, j - 1);
      TotalSnoc(sgl, j - 1);
      assert sgl[j - 1..][1..] == sgl[j..];
      WrapSum(Total(sgl[..j - 1]), sgl[j - 1].length, v);
      Assoc(Upto(sgl, v, j - 1), For(sgl, v, j - 1),
            All(sgl[j..], Wrap(Total(sgl[..j])), Wrap(v - Total(sgl[..j]))));
    }
  }

  lemma {:induction false} WrapSum(t: nat, l: nat, v: nat)
    ensures Wrap(Wrap(t) + l) == Wrap(t + l) && Wrap(Wrap(v - t) - l) == Wrap(v - (t + l))
  {
  }

  lemma {:induction false} PostsSplit(sgl: seq<Segment>, v: nat)
    requires v < WORD
    ensures All(sgl, 0, v) == Upto(sgl, v, |sgl|)
  {
    AllSplit(sgl, v, |sgl|);
    assert sgl[|sgl|..] == [];
  }

  /** Local and remote sides of a segment's operations match exactly when it starts below 4 GiB
      or moves nothing. */
  lemma {:induction false} PostsAligned(sgl: seq<Segment>, v: nat, j: nat)
    requires j < |sgl|
    ensures Aligned(For(sgl, v, j), sgl, j) <==>
            Total(sgl[..j]) < WORD || sgl[j].length == 0 || Wrap(v - Total(sgl[..j])) == 0
  {
    var t, rem := Total(sgl[..j]), Wrap(v - Total(sgl[..j]));
    if t < WORD {
      WrapFits(t);
      ChunksAligned(sgl, j, rem, 0);
    } else {
      ChunksUnfold(sgl[j], Wrap(t), rem, 0);
      var p := For(sgl, v, j)[0];
      assert p.length > 0 <==> sgl[j].length > 0 && rem > 0;
      assert !InSegment(p, sgl, j);
      if p.length == 0 { assert For(sgl, v, j) == [p]; }
    }
  }

  lemma {:induction false} ChunksAligned(sgl: seq<Segment>, k: nat, rem: nat, o: nat)
    requires k < |sgl| && o <= sgl[k].length
    ensures Aligned(Chunks(sgl[k], Total(sgl[..k]), rem, o), sgl, k)
    decreases sgl[k].length - o
  {
    hide Len, More, Min, Aligned;
    var s, base := sgl[k], Total(sgl[..k]);
    LenFacts(s.length, rem, o);
    var n := Len(s.length, rem, o);
    assert InSegment(Post(base + o, s.addr + o, n), sgl, k);
    if More(s.length, rem, o) {
      ChunksAligned(sgl, k, rem, o + n);
      OneAligned(Post(base + o, s.addr + o, n), Chunks(s, base, rem, o + n), sgl, k);
    } else {
      NoneAligned(sgl, k);
      OneAligned(Post(base + o, s.addr + o, n), [], sgl, k);
    }
  }

  lemma {:induction false} NoneAligned(sgl: seq<Segment>, k: nat)
    ensures Aligned([], sgl, k)
  {
  }

  lemma {:induction false} OneAligned(p: Post, rest: seq<Post>, sgl: seq<Segment>, k: nat)
    requires p.length <= MAX_RW && InSegment(p, sgl, k) && Aligned(rest, sgl, k)
    ensures Aligned([p] + rest, sgl, k)
  {
    hide InSegment;
  }

  // ---------------------------------------------------------------- completion

  /** The operations of one request: at most one per segment, and one more per GiB. */
  lemma {:induction false} PostCount(sgl: seq<Segment>, base: nat, rem: nat)
    ensures |All(sgl, base, rem)| <= |sgl| + Total(sgl) / MAX_RW
  {
    if sgl != [] {
      ChunkCount(sgl[0], base, rem, 0);
      PostCount(sgl[1..], Wrap(base + sgl[0].length), Wrap(rem - sgl[0].length));
    }
  }

  lemma {:induction false} ChunkCount(s: Segment, base: nat, rem: nat, o: nat)
    requires o <= s.length
    ensures |Chunks(s, base, rem, o)| <= 1 + (s.length - o) / MAX_RW
    decreases s.length - o
  {
    if More(s.length, rem, o) { ChunkCount(s, base, rem, o + Len(s.length, rem, o)); }
  }

  /** The server refuses longer lists (server/rdma.c:1336). */
  const MAX_SGL: nat := 8

  /** So a request posts at most 40 operations, far below what its 16-bit counts hold. */
  lemma {:induction false} FewPosts(sgl: seq<Segment>, base: nat, rem: nat)
    requires Lengths(sgl) && |sgl| <= MAX_SGL
    ensures |All(sgl, base, rem)| <= 40
  {
    PostCount(sgl, base, rem);
    TotalBound(sgl);
  }

  lemma {:induction false} TotalBound(sgl: seq<Segment>)
    requires Lengths(sgl)
    ensures Total(sgl) <= |sgl| * WORD
  {
    if sgl != [] { TotalBound(sgl[1..]); }
  }

  /** priskv_rdma_rw_work: 16-bit counts of posted and completed operations. */
  class Work {
    var nsgl: nat
    var completed: nat
    ghost var posted: nat
    ghost var ran: nat

    ghost predicate Valid()
      reads this
    {
      && posted <= 40 && nsgl == posted && completed <= posted
      && ran == if 0 < posted == completed then 1 else 0
    }

    /** The work of one request after its operations were posted. */
    constructor (sgl: seq<Segment>, valuelen: nat)
      requires Lengths(sgl) && |sgl| <= MAX_SGL
      ensures Valid() && posted == |All(sgl, 0, valuelen)| && completed == 0
    {
      var posts := PostAll(sgl, valuelen);
      FewPosts(sgl, 0, valuelen);
      nsgl := |posts| % 0x1_0000;
      completed, posted, ran := 0, |posts|, 0;
    }

    /** priskv_rdma_handle_rw: the action runs with the last completion and only then. */
    method HandleRw() returns (done: bool)
      requires Valid() && completed < posted
      modifies this
      ensures Valid() && posted == old(posted) && completed == old(completed) + 1
      ensures done <==> completed == posted
      ensures ran == old(ran) + if done then 1 else 0
    {
      completed := (completed + 1) % 0x1_0000;
      if completed < nsgl {
        return false;
      }
      ran := ran + 1;
      return true;
    }
  }
}
