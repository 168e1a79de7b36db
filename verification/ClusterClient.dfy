/**
 cluster/client/client.c: the cluster client object, updated in place, proved against the
 state functions of module Cluster.
 */
module ClusterClient {
  import opened Wrappers
  import opened ClusterMap
  import opened Cluster
  import opened ClusterAnswers

  // ---------------------------------------------------------------- loading in pieces

  lemma {:induction false} FillNone(es: seq<Entry>, more: seq<Entry>)
    requires Fill(es).None?
    ensures Fill(es + more).None?
    decreases |more|
  {
    if more == [] {
      assert es + more == es;
    } else {
      var all := es + more;
      assert all[..|all| - 1] == es + more[..|more| - 1];
      FillNone(es, more[..|more| - 1]);
    }
  }

  lemma {:induction false} FillStep(es: seq<Entry>, e: Entry)
    ensures Fill(es + [e]) == AddTo(Fill(es), e)
  {
    assert (es + [e])[..|es|] == es && (es + [e])[|es|] == e;
  }

  lemma {:induction false} EntriesStep(nodes: seq<seq<Range>>, k: nat)
    requires k < |nodes|
    ensures Entries(nodes[..k + 1]) == Entries(nodes[..k]) + Tagged(k, nodes[k])
  {
    assert nodes[..k + 1][..k] == nodes[..k];
  }

  lemma {:induction false} EntriesNone(nodes: seq<seq<Range>>)
    ensures Fill(Entries(nodes[..0])) == Some(Empty())
  {
  }

  /** The entries of the first nodes are a prefix of all entries. */
  lemma {:induction false} EntriesPrefix(nodes: seq<seq<Range>>, k: nat)
    requires k <= |nodes| && Fill(Entries(nodes[..k])).None?
    ensures Fill(Entries(nodes)).None?
    decreases |nodes| - k
  {
    if k == |nodes| {
      assert nodes[..k] == nodes;
    } else {
      EntriesStep(nodes, k);
      FillNone(Entries(nodes[..k]), Tagged(k, nodes[k]));
      EntriesPrefix(nodes, k + 1);
    }
  }

  lemma {:induction false} ResubmitNone(st: State, ids: seq<Id>, k: nat)
    requires Shape(st) && k <= |ids| && Resubmit(st, ids[..k]).None?
    ensures Resubmit(st, ids).None?
    decreases |ids| - k
  {
    hide Shape;
    if k == |ids| {
      assert ids[..k] == ids;
    } else {
      assert ids[..k + 1][..k] == ids[..k];
      ResubmitNone(st, ids, k + 1);
    }
  }

  class Client {
    const crc: string -> nat
    const table: array<Option<nat>>
    var refs: seq<int>
    var updating: bool
    var version: int
    var keys: map<Id, string>
    var inflight: map<Id, nat>
    var retry: seq<Id>
    ghost var asked: multiset<Id>
    ghost var called: multiset<Id>
    ghost var sent: seq<(Id, nat)>

    predicate Wide() { table.Length == SLOTS }

    ghost function Abs(): State
      requires Wide()
      reads this, table
    {
      State(crc, table[..], refs, updating, version, keys, inflight, retry, asked, called, sent)
    }

    /** priskvClusterConnect, when its first metadata can be loaded */
    constructor (crc: string -> nat, meta: Meta)
      requires Init(crc, meta).Some?
      ensures Wide() && fresh(table) && Some(Abs()) == Init(crc, meta)
    {
      this.crc := crc;
      table := new Option<nat>[SLOTS](_ => None);
      updating := false;
      keys, inflight, retry := map[], map[], [];
      asked, called, sent := multiset{}, multiset{}, [];
      new;
      var _ := MetaDataLoad(meta);
    }

    // -------------------------------------------------------------- the slot table

    method SlotAdd(n: nat, slot: int) returns (ok: bool)
      requires Wide()
      modifies table
      ensures ok <==> 0 <= slot < SLOTS && old(table[..])[slot].None?
      ensures table[..] == if ok then old(table[..])[slot := Some(n)] else old(table[..])
    {
      ok := 0 <= slot < SLOTS && table[slot].None?;
      if ok { table[slot] := Some(n); }
    }

    method RangeLoad(e: Entry) returns (ok: bool)
      requires Wide()
      modifies table
      ensures ok <==> AddRange(old(table[..]), e).Some?
      ensures ok ==> Some(table[..]) == AddRange(old(table[..]), e)
    {
      ghost var t := table[..];
      if !(e.range.start <= e.range.end && e.range.end < SLOTS) { return false; }
      var slot := e.range.start;
      while slot <= e.range.end
        invariant e.range.start <= slot <= e.range.end + 1
        invariant slot > e.range.start ==> 0 <= e.range.start
        invariant table[..] == Painted(t, e, slot)
        invariant forall s | 0 <= s < slot && Covers(e, s) :: t[s].None?
        decreases e.range.end + 1 - slot
      {
        ok := SlotAdd(e.node, slot);
        if !ok {
          assert 0 <= slot < SLOTS ==> Covers(e, slot) && t[slot].Some?;
          return false;
        }
        slot := slot + 1;
      }
      ok := true;
      assert Painted(t, e, slot) == Painted(t, e, SLOTS);
    }

    method NodeLoad(ghost es: seq<Entry>, n: nat, ranges: seq<Range>) returns (ok: bool)
      requires Wide() && Fill(es) == Some(table[..])
      modifies table
      ensures ok <==> Fill(es + Tagged(n, ranges)).Some?
      ensures ok ==> Fill(es + Tagged(n, ranges)) == Some(table[..])
    {
      hide Fill, AddRange;
      ghost var all := Tagged(n, ranges);
      var i := 0;
      assert es + all[..0] == es;
      while i < |ranges|
        invariant i <= |ranges| && Fill(es + all[..i]) == Some(table[..])
      {
        assert es + all[..i + 1] == es + all[..i] + [all[i]];
        FillStep(es + all[..i], all[i]);
        ok := RangeLoad(Entry(n, ranges[i]));
        if !ok {
          FillNone(es + all[..i + 1], all[i + 1..]);
          assert es + all[..i + 1] + all[i + 1..] == es + all;
          return;
        }
        i := i + 1;
      }
      ok := true;
      assert all[..i] == all;
    }

    method MetaDataLoad(meta: Meta) returns (ok: bool)
      requires Wide() && table[..] == Empty()
      modifies this`refs, this`version, table
      ensures ok <==> Load(meta).Some?
      ensures ok ==> Some(table[..]) == Load(meta)
      ensures refs == Zeros(|meta.nodes|) && version == meta.version
    {
      hide Fill, Entries, Empty;
      refs, version := Zeros(|meta.nodes|), meta.version;
      EntriesNone(meta.nodes);
      var i := 0;
      while i < |meta.nodes|
        invariant i <= |meta.nodes| && Fill(Entries(meta.nodes[..i])) == Some(table[..])
        invariant forall k | 0 <= k < i :: meta.up(k)
        modifies table
      {
        if !meta.up(i) { return false; }
        EntriesStep(meta.nodes, i);
        ok := NodeLoad(Entries(meta.nodes[..i]), i, meta.nodes[i]);
        if !ok {
          EntriesPrefix(meta.nodes, i + 1);
          return;
        }
        i := i + 1;
      }
      ok := true;
      assert meta.nodes[..i] == meta.nodes;
    }

    method NodeUnload(n: nat)
      requires Wide()
      modifies table
      ensures forall s | 0 <= s < SLOTS :: table[s] == if old(table[s]) == Some(n) then None else old(table[s])
    {
      var i := 0;
      while i < SLOTS
        invariant i <= SLOTS
        invariant forall s | 0 <= s < i :: table[s] == if old(table[s]) == Some(n) then None else old(table[s])
        invariant forall s | i <= s < SLOTS :: table[s] == old(table[s])
      {
        if table[i] == Some(n) { table[i] := None; }
        i := i + 1;
      }
    }

    method MetaDataUnload()
      requires Wide() && Shape(Abs())
      modifies table
      ensures table[..] == Empty()
    {
      assert forall s | 0 <= s < SLOTS && table[s].Some? :: Abs().table[s] == table[s];
      var n := 0;
      while n < |refs|
        invariant n <= |refs|
        invariant forall s | 0 <= s < SLOTS && table[s].Some? :: n <= table[s].value < |refs|
      {
        NodeUnload(n);
        n := n + 1;
      }
    }

    // -------------------------------------------------------------- requests

    method GetNode(key: string) returns (n: Option<nat>)
      requires Wide()
      ensures n == Owner(Abs(), key)
    {
      var slot := KeyHashSlot(crc, key);
      n := table[slot];
    }

    /** priskvClusterSubmitRequest on a live request whose node is n */
    method SubmitRequest(id: Id, n: nat)
      requires Wide() && n < |refs|
      modifies this
      ensures Abs() == if old(updating) then old(Abs()).(retry := old(retry) + [id]) else Start(old(Abs()), id, n)
    {
      if updating {
        retry := retry + [id];
      } else {
        refs := refs[n := refs[n] + 1];
        inflight := inflight[id := n];
        sent := sent + [(id, n)];
      }
    }

    method Request(id: Id, key: string)
      requires Wide() && Inv(Abs())
      modifies this
      ensures Abs() == Submit(old(Abs()), id, key) && Inv(Abs())
    {
      hide RefsOk, PlacesOk, QueueOk, CalledOk;
      // A live request's memory is never handed out again.
      if id in keys { return; }
      SubmitInv(Abs(), id, key);
      var n := GetNode(key);
      asked := asked + multiset{id};
      if n.None? {
        called := called + multiset{id};
      } else {
        keys := keys[id := key];
        SubmitRequest(id, n.value);
      }
    }

    method SubmitNews(news: seq<(Id, string)>)
      requires Wide() && Inv(Abs())
      modifies this
      ensures Abs() == SubmitAll(old(Abs()), news) && Inv(Abs())
    {
      hide RefsOk, PlacesOk, QueueOk, CalledOk, Submit;
      ghost var st := Abs();
      var k := 0;
      while k < |news|
        invariant k <= |news| && Inv(Abs()) && Abs() == SubmitAll(st, news[..k])
      {
        assert news[..k + 1][..k] == news[..k];
        Request(news[k].0, news[k].1);
        k := k + 1;
      }
      assert news[..k] == news;
    }

    method Release(id: Id)
      requires Wide() && id in inflight && inflight[id] < |refs|
      modifies this
      ensures Abs() == Finish(old(Abs()), id)
    {
      var n := inflight[id];
      called := called + multiset{id};
      refs := refs[n := refs[n] - 1];
      inflight := inflight - {id};
      keys := keys - {id};
    }

    /** The node client reports a request; the user's callback then submits the given requests. */
    method RequestCallback(id: Id, ok: bool, news: seq<(Id, string)>)
      requires Wide() && Inv(Abs()) && id in inflight
      modifies this
      ensures Abs() == Callback(old(Abs()), id, ok, news) && Inv(Abs())
      ensures ok || !old(updating) ==> called[id] == old(called)[id] + 1 && id !in keys && id !in inflight
      ensures !ok && old(updating) ==>
                called == old(called) && keys == old(keys) && retry == old(retry) + [id] && id !in inflight
    {
      hide Shape, RefsOk, PlacesOk, QueueOk, CalledOk, SubmitAll, Finish;
      ghost var st := Abs();
      CallbackInv(st, id, ok, news);
      AnswerStep(st, id, ok, news);
      if updating && !ok {
        RequeueInv(st, id);
        var n := inflight[id];
        retry := retry + [id];
        refs := refs[n := refs[n] - 1];
        inflight := inflight - {id};
        return;
      }
      SubmitAllInv(st, news);
      SubmitNews(news);
      FinishInv(Abs(), id);
      Release(id);
      NotFlying(Abs(), id);
    }

    // -------------------------------------------------------------- the timer

    method AnyReference() returns (busy: bool)
      requires Wide()
      ensures busy == !Idle(Abs())
    {
      var i := 0;
      while i < |refs|
        invariant i <= |refs| && forall n | 0 <= n < i :: refs[n] <= 0
      {
        if refs[i] > 0 { return true; }
        i := i + 1;
      }
      return false;
    }

    /** priskvClusterUpdateRequest and the submit, for the head of the retry list */
    method RetryOne() returns (ok: bool)
      requires Wide() && Shape(Abs()) && !updating && retry != [] && retry[0] in keys
      modifies this
      ensures ok <==> ResubmitOne(Some(old(Abs()).(retry := [])), old(retry[0])).Some?
      ensures ok ==> Some(Abs().(retry := [])) == ResubmitOne(Some(old(Abs()).(retry := [])), old(retry[0]))
      ensures ok ==> retry == old(retry)[1..] && !updating
    {
      var id := retry[0];
      var n := GetNode(keys[id]);
      if n.None? { return false; }
      SubmitRequest(id, n.value);
      retry := retry[1..];
      ok := true;
    }

    /** The retry loop of the timer, after the new table is in place. */
    method RetryAll() returns (ok: bool)
      requires Wide() && Shape(Abs()) && !updating && forall id | id in retry :: id in keys
      modifies this
      ensures ok <==> Resubmit(old(Abs()).(retry := []), old(retry)).Some?
      ensures ok ==> Some(Abs()) == Resubmit(old(Abs()).(retry := []), old(retry))
    {
      hide ResubmitOne;
      ghost var st, ids, k := Abs().(retry := []), retry, 0;
      while retry != []
        invariant k <= |ids| && retry == ids[k..] && !updating
        invariant Resubmit(st, ids[..k]) == Some(Abs().(retry := []))
        decreases |retry|
      {
        assert retry[0] == ids[k] && ids[k] in ids;
        assert ids[..k + 1][..k] == ids[..k] && ids[..k + 1][k] == ids[k];
        assert Resubmit(st, ids[..k + 1]) == ResubmitOne(Some(Abs().(retry := [])), ids[k]);
        ok := RetryOne();
        if !ok {
          ResubmitNone(st, ids, k + 1);
          return;
        }
        k := k + 1;
      }
      assert ids[..k] == ids;
      ok := true;
    }

    method TimerHandler(meta: Option<Meta>) returns (ok: bool)
      requires Wide() && Inv(Abs())
      modifies this, table
      ensures ok <==> Timer(old(Abs()), meta).Some?
      ensures ok ==> Some(Abs()) == Timer(old(Abs()), meta) && Inv(Abs())
    {
      hide RefsOk, PlacesOk, CalledOk;
      ghost var st := Abs();
      TimerInv(st, meta);
      if meta.None? || meta.value.version <= version { return true; }
      updating := true;
      var busy := AnyReference();
      if busy { return true; }
      FillShape(meta.value);
      MetaDataUnload();
      ok := MetaDataLoad(meta.value);
      if !ok { return; }
      updating := false;
      ok := RetryAll();
    }
  }
}
