/**
 server/slab.c: the key-node allocator, a bitmap of 64-bit words (a set bit is a free
 object) scanned word by word from a rotating cursor. Objects are numbered; the address
 of object s is base + s * size.
 */
module Slab {
  import opened Wrappers

  const BITS: nat := 64

  // ---------------------------------------------------------------- bits of a word

  predicate Bit(w: nat, b: nat) {
    if b == 0 then w % 2 == 1 else Bit(w / 2, b - 1)
  }

  /** *val |= 1UL << bit */
  function SetBit(w: nat, b: nat): nat {
    if b == 0 then w - w % 2 + 1 else 2 * SetBit(w / 2, b - 1) + w % 2
  }

  /** *val &= ~(1UL << bit) */
  function ClearBit(w: nat, b: nat): nat {
    if b == 0 then w - w % 2 else 2 * ClearBit(w / 2, b - 1) + w % 2
  }

  /** __builtin_ffsl(w) - 1 */
  function LowestBit(w: nat): nat
    requires w > 0
  {
    if w % 2 == 1 then 0 else 1 + LowestBit(w / 2)
  }

  lemma {:induction false} SetBitAt(w: nat, b: nat, j: nat)
    ensures Bit(SetBit(w, b), j) <==> j == b || Bit(w, j)
  {
    if b > 0 && j > 0 { SetBitAt(w / 2, b - 1, j - 1); }
  }

  lemma {:induction false} ClearBitAt(w: nat, b: nat, j: nat)
    ensures Bit(ClearBit(w, b), j) <==> j != b && Bit(w, j)
  {
    if b > 0 && j > 0 { ClearBitAt(w / 2, b - 1, j - 1); }
  }

  lemma {:induction false} LowestBitAt(w: nat, j: nat)
    requires w > 0
    ensures Bit(w, LowestBit(w)) && (j < LowestBit(w) ==> !Bit(w, j))
  {
    if w % 2 == 0 { LowestBitAt(w / 2, if j == 0 then 0 else j - 1); }
  }

  lemma {:induction false} ZeroBits(j: nat)
    ensures !Bit(0, j)
  {
    if j > 0 { ZeroBits(j - 1); }
  }

  // ---------------------------------------------------------------- which object

  /** The first unused object in [from, end). */
  function FirstFree(used: set<nat>, from: nat, end: nat): (r: Option<nat>)
    ensures r.Some? ==> from <= r.value < end && r.value !in used
    ensures r.Some? ==> forall s | from <= s < r.value :: s in used
    ensures r.None? ==> forall s | from <= s < end :: s in used
    decreases end - from
  {
    if from >= end then None
    else if from !in used then Some(from)
    else FirstFree(used, from + 1, end)
  }

  /** Object order from the cursor's word to the end, then from the start to that word. */
  function Pick(objects: nat, used: set<nat>, cursor: nat): (r: Option<nat>)
    ensures r.Some? ==> r.value !in used
    ensures r.None? ==> forall s: nat | s < objects :: s in used
    ensures r.Some? && r.value >= BITS * cursor ==>
              r.value < objects && forall s | BITS * cursor <= s < r.value :: s in used
    ensures r.Some? && r.value < BITS * cursor ==>
              (forall s | BITS * cursor <= s < objects :: s in used) && forall s: nat | s < r.value :: s in used
  {
    match FirstFree(used, BITS * cursor, objects)
    case Some(s) => Some(s)
    case None => FirstFree(used, 0, BITS * cursor)
  }

  /** The words say exactly which objects are free. */
  ghost predicate BitmapOk(objects: nat, used: set<nat>, words: seq<nat>) {
    && objects <= BITS * |words|
    && forall w: nat, b: nat | w < |words| ::
         Bit(words[w], b) <==> b < BITS && BITS * w + b < objects && BITS * w + b !in used
  }

  /** A zero word has no free object; otherwise its lowest set bit is its first one. */
  lemma {:induction false} WordFree(objects: nat, used: set<nat>, words: seq<nat>, w: nat)
    requires BitmapOk(objects, used, words) && w < |words|
    ensures words[w] == 0 ==> forall t | BITS * w <= t < BITS * w + BITS && t < objects :: t in used
    ensures words[w] > 0 ==>
              var s := BITS * w + LowestBit(words[w]);
              LowestBit(words[w]) < BITS && s < objects && s !in used &&
              forall t | BITS * w <= t < s :: t in used
  {
    if words[w] == 0 {
      forall t | BITS * w <= t < BITS * w + BITS && t < objects
        ensures t in used
      {
        ZeroBits(t - BITS * w);
      }
    } else {
      LowestBitAt(words[w], 0);
      forall t | BITS * w <= t < BITS * w + LowestBit(words[w])
        ensures t in used
      {
        LowestBitAt(words[w], t - BITS * w);
      }
    }
  }

  lemma {:induction false} TakeBit(objects: nat, used: set<nat>, words: seq<nat>, w: nat, b: nat)
    requires BitmapOk(objects, used, words) && w < |words| && b < BITS
    ensures BitmapOk(objects, used + {BITS * w + b}, words[w := ClearBit(words[w], b)])
  {
    forall j: nat
      ensures Bit(ClearBit(words[w], b), j) <==> j != b && Bit(words[w], j)
    {
      ClearBitAt(words[w], b, j);
    }
  }

  lemma {:induction false} GiveBit(objects: nat, used: set<nat>, words: seq<nat>, w: nat, b: nat)
    requires BitmapOk(objects, used, words) && w < |words| && b < BITS && BITS * w + b < objects
    ensures BitmapOk(objects, used - {BITS * w + b}, words[w := SetBit(words[w], b)])
  {
    forall j: nat
      ensures Bit(SetBit(words[w], b), j) <==> j == b || Bit(words[w], j)
    {
      SetBitAt(words[w], b, j);
    }
  }

  lemma {:induction false} MarkBit(index: nat, words: seq<nat>)
    requires BitmapOk(index, {}, words) && index < BITS * |words|
    ensures BitmapOk(index + 1, {}, words[index / BITS := SetBit(words[index / BITS], index % BITS)])
  {
    var w, b := index / BITS, index % BITS;
    forall j: nat
      ensures Bit(SetBit(words[w], b), j) <==> j == b || Bit(words[w], j)
    {
      SetBitAt(words[w], b, j);
    }
  }

  class Allocator {
    const objects: nat
    var inuse: nat
    var lindex: nat
    const bitmap: array<nat>
    ghost var used: set<nat>

    ghost predicate Valid()
      reads this, bitmap
    {
      && objects > 0
      && BitmapOk(objects, used, bitmap[..])
      && (forall s | s in used :: s < objects)
      && BITS * lindex < objects && lindex < bitmap.Length
      && inuse == |used|
    }

    constructor (objects: nat)
      requires objects > 0
      ensures Valid() && fresh(bitmap)
      ensures this.objects == objects && used == {} && inuse == 0 && lindex == 0
    {
      var bits := (objects + BITS - 1) / BITS * BITS;
      var words := new nat[bits / BITS](_ => 0);
      this.objects := objects;
      inuse, lindex, used := 0, 0, {};
      bitmap := words;
      new;
      MarkAll();
    }

    method MarkAll()
      requires 0 < objects <= BITS * bitmap.Length
      requires forall w | 0 <= w < bitmap.Length :: bitmap[w] == 0
      modifies bitmap
      ensures BitmapOk(objects, {}, bitmap[..])
    {
      forall j: nat
        ensures !Bit(0, j)
      {
        ZeroBits(j);
      }
      for index := 0 to objects
        invariant BitmapOk(index, {}, bitmap[..])
      {
        ghost var words := bitmap[..];
        MarkBit(index, words);
        bitmap[index / BITS] := SetBit(bitmap[index / BITS], index % BITS);
        assert bitmap[..] == words[index / BITS := SetBit(words[index / BITS], index % BITS)];
      }
    }

    /** __slab_alloc: hand out the lowest free object of a non-zero word. */
    method TakeFrom(index: nat) returns (s: nat)
      requires Valid() && index < bitmap.Length && bitmap[index] != 0
      modifies this, bitmap
      ensures Valid() && BITS * index <= s < objects && s !in old(used) && used == old(used) + {s}
      ensures s / BITS == index && lindex == old(lindex) && inuse == old(inuse) + 1
      ensures forall t | BITS * index <= t < s :: t in old(used)
    {
      ghost var words := bitmap[..];
      var found := LowestBit(bitmap[index]);
      WordFree(objects, used, words, index);
      TakeBit(objects, used, words, index, found);
      bitmap[index] := ClearBit(bitmap[index], found);
      assert bitmap[..] == words[index := ClearBit(words[index], found)];
      s := index * BITS + found;
      assert s / BITS == index by { assert found < BITS; }
      used := used + {s};
      inuse := inuse + 1;
    }

    /** The scanning loop of priskv_slab_alloc over the words [from, to). */
    method FindWord(from: nat, to: nat) returns (index: nat)
      requires Valid() && from <= to <= bitmap.Length
      ensures from <= index <= to && (index < to ==> bitmap[index] != 0)
      ensures forall t | BITS * from <= t < BITS * index && t < objects :: t in used
    {
      index := from;
      while index < to
        invariant from <= index <= to
        invariant forall t | BITS * from <= t < BITS * index && t < objects :: t in used
      {
        WordFree(objects, used, bitmap[..], index);
        if bitmap[index] != 0 {
          return;
        }
        index := index + 1;
      }
    }

    method Alloc() returns (r: Option<nat>)
      requires Valid()
      modifies this, bitmap
      ensures Valid() && r == Pick(objects, old(used), old(lindex))
      ensures r.None? ==> used == old(used) && lindex == old(lindex) && inuse == old(inuse)
      ensures r.Some? ==> r.value < objects && used == old(used) + {r.value}
      ensures r.Some? ==> lindex == r.value / BITS && inuse == old(inuse) + 1
    {
      var index := FindWord(lindex, bitmap.Length);
      if index == bitmap.Length {
        index := FindWord(0, lindex);
        if index == lindex {
          return None;
        }
      }
      var s := TakeFrom(index);
      lindex := index;
      r := Some(s);
    }

    method Free(s: nat)
      requires Valid() && s in used
      modifies this, bitmap
      ensures Valid() && used == old(used) - {s}
      ensures lindex == old(lindex) && inuse == old(inuse) - 1
    {
      ghost var words := bitmap[..];
      GiveBit(objects, used, words, s / BITS, s % BITS);
      bitmap[s / BITS] := SetBit(bitmap[s / BITS], s % BITS);
      assert bitmap[..] == words[s / BITS := SetBit(words[s / BITS], s % BITS)];
      used := used - {s};
      inuse := inuse - 1;
    }
  }
}
