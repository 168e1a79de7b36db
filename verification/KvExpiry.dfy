/**
 When a stored key expires, in microseconds of the clock: SET and EXPIRE with a timeout, then a
 GET at any later or earlier reading (server/kv.c:302-309, 336-351, 469-475).
 */
module KvExpiry {
  import opened Wrappers
  import opened Clock
  import opened KvState
  import opened KvOps
  import opened KvRuns
  import KvMarks
  import BuddyTree
  import Buddy

  /** The time m microseconds after the epoch. */
  function At(m: int): Time { Time(m / 1000000, m % 1000000) }

  /** Seen at `now`, a timeout of ms milliseconds set at t has passed: by a millisecond or more, by
      less with the second changed, or because it is so far ahead that the difference wraps. */
  predicate Passed(t: Time, ms: nat, now: Time) {
    var due := Micros(t) + 1000 * ms;
    var late := Micros(now) - due;
    late >= 1000 || (late > 0 && now.sec != due / 1000000) || TooFar(At(due), now)
  }

  lemma {:induction false} DueTime(t: Time, ms: nat)
    requires IsReading(t) && ms <= MAX_TIMEOUT
    ensures AddMs(t, ms) == At(Micros(t) + 1000 * ms)
  {
    AddMsExact(t, ms);
  }

  lemma {:induction false} PassedIff(t: Time, ms: nat, now: Time)
    requires IsReading(t) && IsReading(now) && ms <= MAX_TIMEOUT
    ensures Expired(AddMs(t, ms), now) <==> Passed(t, ms, now)
  {
    hide Expired, TooFar, AddMs;
    DueTime(t, ms);
    ExpiryBound(t, ms, now);
  }

  /** After a SET at t with a timeout, and its SET-end, a GET is answered exactly until the timeout
      has passed; the largest timeout never passes. */
  lemma {:induction false} SetExpires(c: Config, st: State, k: Key, valuelen: nat, ms: nat, t: Time, now: Time)
    requires Inv(c, st) && Buddy.Representable(valuelen, c.unit) && IsReading(t) && IsReading(now)
    requires ms <= MAX_TIMEOUT && Set(c, st, k, valuelen, ms, t).1.Some?
    ensures var (st', r) := Set(c, st, k, valuelen, ms, t);
            Get(c, SetEnd(st', r.value), k, now).1 ==
              if ms == MAX_TIMEOUT || !Passed(t, ms, now) then Found(r.value) else NoSuchKey
  {
    hide ListsOk, RefsOk, SlotsOk, BlocksOk, BuddyTree.LiveOk, Buddy.Representable, Place, Get, AddMs, Passed;
    var (st', r) := Set(c, st, k, valuelen, ms, t);
    PassedIff(t, ms, now);
    SetInv(c, st, k, valuelen, ms, t);
    KvMarks.StoredNode(c, WithoutKey(c, st, k), k, valuelen, ExpiryFor(ms, t));
    KvMarks.ListsAfterEnd(c, st', r.value);
    ReadOnly(c, SetEnd(st', r.value), k, now, r.value);
  }

  /** The answer of a GET on an unmarked node. */
  lemma {:induction false} ReadOnly(c: Config, st: State, k: Key, now: Time, s: Slot)
    requires Inv(c, st) && s in st.lru && s in st.nodes && st.nodes[s].key == k && !st.nodes[s].inprocess
    ensures Get(c, st, k, now).1 == if Expired(st.nodes[s].expire, now) then NoSuchKey else Found(s)
  {
    hide ListsOk, RefsOk, SlotsOk, BlocksOk, BuddyTree.LiveOk, Find;
    FindListed(c, st, k);
  }

  /** An EXPIRE at t of a live key puts its end at t plus the timeout; with the largest timeout it
      leaves the end as it was. */
  lemma {:induction false} ExpireExpires(c: Config, st: State, k: Key, ms: nat, t: Time, now: Time, s: Slot)
    requires Inv(c, st) && IsReading(t) && IsReading(now) && ms <= MAX_TIMEOUT
    requires s in st.lru && s in st.nodes && st.nodes[s].key == k && !st.nodes[s].inprocess
    requires !Expired(st.nodes[s].expire, t)
    ensures Get(c, Expire(c, st, k, ms, t), k, now).1 ==
              if ms == MAX_TIMEOUT then Get(c, st, k, now).1
              else if Passed(t, ms, now) then NoSuchKey else Found(s)
  {
    hide ListsOk, RefsOk, SlotsOk, BlocksOk, BuddyTree.LiveOk, Find, Get, AddMs, Passed, Expired;
    PassedIff(t, ms, now);
    FindListed(c, st, k);
    ExpireInv(c, st, k, ms, t);
    ReadOnly(c, Expire(c, st, k, ms, t), k, now, s);
    ReadOnly(c, st, k, now, s);
  }

  /** An EXPIRE of a key that is past its end removes it. */
  lemma {:induction false} ExpireDrops(c: Config, st: State, k: Key, ms: nat, t: Time, now: Time, s: Slot)
    requires Inv(c, st) && s in st.lru && s in st.nodes && st.nodes[s].key == k && Expired(st.nodes[s].expire, t)
    ensures Get(c, Expire(c, st, k, ms, t), k, now).1 == NoSuchKey
  {
    hide ListsOk, RefsOk, SlotsOk, BlocksOk, BuddyTree.LiveOk, Find, DropSet;
    FindListed(c, st, k);
    DeleteInv(c, st, k);
    DeleteAbsent(c, st, k);
    FindListed(c, Delete(c, st, k), k);
  }
}
