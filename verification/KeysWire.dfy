/**
 The KEYS command: the server writes matching keys into a buffer (server/kv.c:616-655),
 the client reads them back and retries with a larger buffer when told it is too small
 (client/rdma.c:1281-1341). Header fields are big-endian.
 */
module KeysWire {
  import opened Wrappers
  import Powers

  const HEADER: nat := 8
  const WORD: nat := 0x1_0000_0000

  datatype Entry = Entry(key: Bytes, valuelen: nat)

  predicate EntryOk(e: Entry) { |e.key| < 0x1_0000 && e.valuelen < WORD }

  // ---------------------------------------------------------------- wire format

  function Be16(n: nat): Bytes
    requires n < 0x1_0000
  {
    [n / 256, n % 256]
  }

  function Be32(n: nat): Bytes
    requires n < WORD
  {
    Be16(n / 0x1_0000) + Be16(n % 0x1_0000)
  }

  function From16(b: Bytes, o: nat): nat
    requires o + 2 <= |b|
  {
    (b[o] as nat) * 256 + b[o + 1]
  }

  function From32(b: Bytes, o: nat): nat
    requires o + 4 <= |b|
  {
    From16(b, o) * 0x1_0000 + From16(b, o + 2)
  }

  /** One entry: key length, a reserved zero, value length, the key. */
  function One(e: Entry): Bytes
    requires EntryOk(e)
  {
    Be16(|e.key|) + Be16(0) + Be32(e.valuelen) + e.key
  }

  predicate AllOk(es: seq<Entry>) { forall i | 0 <= i < |es| :: EntryOk(es[i]) }

  function Wire(es: seq<Entry>): Bytes
    requires AllOk(es)
  {
    if es == [] then [] else One(es[0]) + Wire(es[1..])
  }

  /** The matching entries, in bucket and chain order. */
  function Matching(chain: seq<Entry>, p: Bytes -> bool): (r: seq<Entry>)
    ensures AllOk(chain) ==> AllOk(r)
  {
    if chain == [] then []
    else (if p(chain[0].key) then [chain[0]] else []) + Matching(chain[1..], p)
  }

  function AllMatching(chains: seq<seq<Entry>>, p: Bytes -> bool): (r: seq<Entry>)
    ensures (forall i | 0 <= i < |chains| :: AllOk(chains[i])) ==> AllOk(r)
  {
    if chains == [] then [] else Matching(chains[0], p) + AllMatching(chains[1..], p)
  }

  /** What the client reads from offset o up to length n. */
  function Parse(b: Bytes, o: nat, n: nat): Option<seq<Entry>>
    decreases n - o
  {
    if o >= n then (if o == n then Some([]) else None)
    else if o + HEADER > |b| then None
    else
      var next := o + HEADER + From16(b, o);
      match Parse(b, next, n)
      case None => None
      case Some(rest) => if next > |b| then None else Some([Entry(b[o + HEADER..next], From32(b, o + 4))] + rest)
  }

  // ---------------------------------------------------------------- round trip

  lemma {:induction false} OneLength(e: Entry)
    requires EntryOk(e)
    ensures |One(e)| == HEADER + |e.key|
  {
  }

  /** The bytes of an entry: lengths in network order, the reserved field zero. */
  lemma {:induction false} HeaderBytes(e: Entry)
    requires EntryOk(e)
    ensures var n, hi, lo := |e.key|, e.valuelen / 0x1_0000, e.valuelen % 0x1_0000;
            One(e) == [n / 256, n % 256, 0, 0, hi / 256, hi % 256, lo / 256, lo % 256] + e.key
  {
    assert Be16(0) == [0, 0];
  }

  /** Reading a header back. */
  lemma {:induction false} HeaderAt(b: Bytes, o: nat, e: Entry)
    requires EntryOk(e) && o + HEADER + |e.key| <= |b| && b[o..o + HEADER + |e.key|] == One(e)
    ensures From16(b, o) == |e.key| && From32(b, o + 4) == e.valuelen
    ensures b[o + HEADER..o + HEADER + |e.key|] == e.key
  {
    var w := One(e);
    var n := o + HEADER + |e.key|;
    assert forall i | 0 <= i < |w| :: b[o..n][i] == b[o + i];
    assert b[o..n][0] == w[0] == |e.key| / 256 && b[o..n][1] == w[1] == |e.key| % 256;
    var hi, lo := e.valuelen / 0x1_0000, e.valuelen % 0x1_0000;
    assert b[o..n][4] == w[4] == hi / 256 && b[o..n][5] == w[5] == hi % 256;
    assert b[o..n][6] == w[6] == lo / 256 && b[o..n][7] == w[7] == lo % 256;
    assert b[o + HEADER..n] == b[o..n][HEADER..] == w[HEADER..] == e.key;
  }

  /** Whatever follows it in the buffer, encoded data decodes to the entries. */
  lemma {:induction false} ParseWire(b: Bytes, o: nat, es: seq<Entry>)
    requires AllOk(es) && o + |Wire(es)| <= |b| && b[o..o + |Wire(es)|] == Wire(es)
    ensures Parse(b, o, o + |Wire(es)|) == Some(es)
    ensures Walkable(b, o, o + |Wire(es)|)
    decreases |es|
  {
    if es == [] {
      ParseDone(b, o);
    } else {
      hide One, Wire, From16, From32, Parse, Walkable;
      var e, n := es[0], o + |Wire(es)|;
      var next := o + HEADER + |e.key|;
      SplitWire(b, o, es);
      OneLength(e);
      HeaderAt(b, o, e);
      ParseWire(b, next, es[1..]);
      ParseStep(b, o, n);
      WalkBack(b, o, n);
      assert es == [e] + es[1..];
    }
  }

  lemma {:induction false} WalkBack(b: Bytes, o: nat, n: nat)
    requires o < n && o + HEADER <= |b| && Walkable(b, o + HEADER + From16(b, o), n)
    ensures Walkable(b, o, n)
  {
  }

  lemma {:induction false} SplitWire(b: Bytes, o: nat, es: seq<Entry>)
    requires es != [] && AllOk(es) && o + |Wire(es)| <= |b| && b[o..o + |Wire(es)|] == Wire(es)
    ensures var next, n := o + HEADER + |es[0].key|, o + |Wire(es)|;
            next <= n && b[o..next] == One(es[0]) && b[next..n] == Wire(es[1..]) && n == next + |Wire(es[1..])|
  {
    OneLength(es[0]);
    var next, n := o + HEADER + |es[0].key|, o + |Wire(es)|;
    var w, k := Wire(es), HEADER + |es[0].key|;
    assert w[..k] == One(es[0]) && w[k..] == Wire(es[1..]);
    assert b[o..next] == b[o..n][..k];
    assert b[next..n] == b[o..n][k..];
  }

  /** Every header the client looks at lies inside its buffer. */
  predicate Walkable(b: Bytes, o: nat, n: nat)
    decreases n - o
  {
    o < n ==> o + HEADER <= |b| && Walkable(b, o + HEADER + From16(b, o), n)
  }

  lemma {:induction false} WireAppend(a: seq<Entry>, b: seq<Entry>)
    requires AllOk(a) && AllOk(b)
    ensures AllOk(a + b) && Wire(a + b) == Wire(a) + Wire(b)
  {
    hide One;
    if a == [] {
      assert a + b == b;
    } else {
      assert (a + b)[1..] == a[1..] + b;
      WireAppend(a[1..], b);
      assert One(a[0]) + (Wire(a[1..]) + Wire(b)) == One(a[0]) + Wire(a[1..]) + Wire(b);
    }
  }

  // ---------------------------------------------------------------- the server

  method Write(buf: array<Byte>, pos: nat, data: Bytes)
    requires pos + |data| <= buf.Length
    modifies buf
    ensures buf[..pos + |data|] == old(buf[..pos]) + data
  {
    forall i | 0 <= i < |data| {
      buf[pos + i] := data[i];
    }
    assert buf[..pos] == old(buf[..pos]);
    assert buf[pos..pos + |data|] == data;
    assert buf[..pos + |data|] == buf[..pos] + buf[pos..pos + |data|];
  }

  /** The state of priskv_get_keys after the entries es: lengths counted, and the entries
      written as long as they fit. */
  ghost predicate Written(es: seq<Entry>, buf: Bytes, pos: nat, reallen: nat, nkey: nat) {
    && AllOk(es) && reallen == |Wire(es)| && nkey == |es|
    && (reallen <= |buf| ==> pos == reallen && buf[..pos] == Wire(es))
  }

  method EncodeChain(chain: seq<Entry>, p: Bytes -> bool, buf: array<Byte>, pos0: nat, reallen0: nat, nkey0: nat,
                     ghost es: seq<Entry>)
    returns (pos: nat, reallen: nat, nkey: nat)
    requires AllOk(chain) && Written(es, buf[..], pos0, reallen0, nkey0)
    requires AllOk(es + Matching(chain, p)) && |Wire(es + Matching(chain, p))| < WORD
    modifies buf
    ensures Written(es + Matching(chain, p), buf[..], pos, reallen, nkey)
  {
    hide Wire, One, Written;
    pos, reallen, nkey := pos0, reallen0, nkey0;
    ghost var done := es;
    assert es + Matching(chain, p) == done + Matching(chain[0..], p);
    for i := 0 to |chain|
      invariant Written(done, buf[..], pos, reallen, nkey)
      invariant es + Matching(chain, p) == done + Matching(chain[i..], p)
    {
      var e := chain[i];
      assert chain[i..][1..] == chain[i + 1..];
      if p(e.key) {
        assert done + Matching(chain[i..], p) == (done + [e]) + Matching(chain[i + 1..], p);
        WrittenOk(done, buf[..], pos, reallen, nkey);
        PrefixFits(done + [e], Matching(chain[i + 1..], p));
        pos, reallen, nkey := EncodeOne(e, buf, pos, reallen, nkey, done);
        done := done + [e];
      } else {
        assert Matching(chain[i..], p) == Matching(chain[i + 1..], p);
      }
    }
    assert done + Matching(chain[|chain|..], p) == done;
  }

  lemma {:induction false} WrittenOk(es: seq<Entry>, buf: Bytes, pos: nat, reallen: nat, nkey: nat)
    requires Written(es, buf, pos, reallen, nkey)
    ensures AllOk(es)
  {
  }

  /** Lines 630-642 */
  method EncodeOne(e: Entry, buf: array<Byte>, pos0: nat, reallen0: nat, nkey0: nat, ghost es: seq<Entry>)
    returns (pos: nat, reallen: nat, nkey: nat)
    requires EntryOk(e) && Written(es, buf[..], pos0, reallen0, nkey0)
    requires AllOk(es + [e]) && |Wire(es + [e])| < WORD
    modifies buf
    ensures Written(es + [e], buf[..], pos, reallen, nkey)
  {
    pos, reallen, nkey := pos0, reallen0, nkey0;
    OneLength(e);
    SnocWire(es, e);
    hide One, Wire;
    if reallen + HEADER + |e.key| <= buf.Length {
      assert buf[..][..pos] == buf[..pos];
      Write(buf, pos, One(e));
      pos := pos + HEADER + |e.key|;
      assert buf[..][..pos] == buf[..pos];
    }
    reallen := (reallen + HEADER + |e.key|) % WORD;
    nkey := nkey + 1;
  }

  lemma {:induction false} PrefixFits(a: seq<Entry>, b: seq<Entry>)
    requires AllOk(a) && AllOk(a + b)
    ensures |Wire(a)| <= |Wire(a + b)|
  {
    assert AllOk(b) by { assert forall i | 0 <= i < |b| :: b[i] == (a + b)[|a| + i]; }
    WireAppend(a, b);
  }

  lemma {:induction false} SnocWire(es: seq<Entry>, e: Entry)
    requires AllOk(es) && EntryOk(e)
    ensures AllOk(es + [e]) && Wire(es + [e]) == Wire(es) + One(e)
  {
    WireAppend(es, [e]);
    assert Wire([e]) == One(e) + [];
  }

  /** priskv_get_keys: exact length and count always, the data when the buffer holds it. */
  method Encode(chains: seq<seq<Entry>>, p: Bytes -> bool, buf: array<Byte>)
    returns (tooBig: bool, reallen: nat, nkey: nat)
    requires forall i | 0 <= i < |chains| :: AllOk(chains[i])
    requires |Wire(AllMatching(chains, p))| < WORD
    modifies buf
    ensures reallen == |Wire(AllMatching(chains, p))| && nkey == |AllMatching(chains, p)|
    ensures tooBig <==> reallen > buf.Length
    ensures !tooBig ==> buf[..reallen] == Wire(AllMatching(chains, p))
  {
    hide Wire, Written, Matching, AllMatching;
    var pos := 0;
    reallen, nkey := 0, 0;
    ghost var done: seq<Entry> := [];
    EncodeBegins(chains, p, buf[..]);
    for i := 0 to |chains|
      invariant Written(done, buf[..], pos, reallen, nkey)
      invariant done + AllMatching(chains[i..], p) == AllMatching(chains, p)
    {
      WrittenOk(done, buf[..], pos, reallen, nkey);
      ChainNext(chains, p, i, done);
      pos, reallen, nkey := EncodeChain(chains[i], p, buf, pos, reallen, nkey, done);
      done := done + Matching(chains[i], p);
    }
    tooBig := reallen > buf.Length;
    EncodeEnds(chains, p, done, buf[..], pos, reallen, nkey);
    if !tooBig { assert buf[..][..reallen] == buf[..reallen]; }
  }

  lemma {:induction false} EncodeBegins(chains: seq<seq<Entry>>, p: Bytes -> bool, buf: Bytes)
    ensures Written([], buf, 0, 0, 0) && [] + AllMatching(chains[0..], p) == AllMatching(chains, p)
  {
    assert chains[0..] == chains;
  }

  lemma {:induction false} ChainNext(chains: seq<seq<Entry>>, p: Bytes -> bool, i: nat, done: seq<Entry>)
    requires forall k | 0 <= k < |chains| :: AllOk(chains[k])
    requires i < |chains| && AllOk(done) && done + AllMatching(chains[i..], p) == AllMatching(chains, p)
    ensures AllOk(done + Matching(chains[i], p))
    ensures (done + Matching(chains[i], p)) + AllMatching(chains[i + 1..], p) == AllMatching(chains, p)
    ensures |Wire(done + Matching(chains[i], p))| <= |Wire(AllMatching(chains, p))|
  {
    hide Wire, Matching;
    assert chains[i..][1..] == chains[i + 1..];
    PrefixFits(done + Matching(chains[i], p), AllMatching(chains[i + 1..], p));
  }

  lemma {:induction false} EncodeEnds(chains: seq<seq<Entry>>, p: Bytes -> bool, done: seq<Entry>, buf: Bytes,
                                      pos: nat, reallen: nat, nkey: nat)
    requires Written(done, buf, pos, reallen, nkey)
    requires done + AllMatching(chains[|chains|..], p) == AllMatching(chains, p)
    ensures AllOk(AllMatching(chains, p))
    ensures reallen == |Wire(AllMatching(chains, p))| && nkey == |AllMatching(chains, p)|
    ensures reallen <= |buf| ==> buf[..reallen] == Wire(AllMatching(chains, p))
  {
    hide Wire;
    assert done + [] == done;
  }

  /** The entries stand in the order of the chains. */
  lemma {:induction false} InChainOrder(a: seq<seq<Entry>>, b: seq<seq<Entry>>, p: Bytes -> bool)
    ensures AllMatching(a + b, p) == AllMatching(a, p) + AllMatching(b, p)
  {
    if a == [] {
      assert a + b == b;
    } else {
      assert (a + b)[1..] == a[1..] + b;
      InChainOrder(a[1..], b, p);
    }
  }

  // ---------------------------------------------------------------- the client

  /** The first walk (lines 1286-1293): counts entries and ends at or past the length. */
  method CountKeys(b: Bytes, valuelen: nat) returns (end: nat, nkey: nat)
    requires valuelen <= |b| && Walkable(b, 0, valuelen)
    ensures end == valuelen <==> Parse(b, 0, valuelen).Some?
    ensures end == valuelen ==> nkey == |Parse(b, 0, valuelen).value|
  {
    end, nkey := 0, 0;
    while end < valuelen
      invariant Walkable(b, end, valuelen)
      invariant Parse(b, 0, valuelen).Some? <==> Parse(b, end, valuelen).Some?
      invariant Parse(b, 0, valuelen).Some? ==>
                  |Parse(b, 0, valuelen).value| == nkey + |Parse(b, end, valuelen).value|
      decreases valuelen - end
    {
      ParseStep(b, end, valuelen);
      end := end + HEADER + From16(b, end);
      nkey := nkey + 1;
    }
  }

  lemma {:induction false} ParseStep(b: Bytes, o: nat, n: nat)
    requires n <= |b| && o < n && o + HEADER <= |b|
    ensures var next := o + HEADER + From16(b, o);
            && (Parse(b, o, n).Some? <==> Parse(b, next, n).Some?)
            && (Parse(b, o, n).Some? ==>
                 next <= n
                 && Parse(b, o, n).value == [Entry(b[o + HEADER..next], From32(b, o + 4))] + Parse(b, next, n).value)
  {
    var next := o + HEADER + From16(b, o);
    if Parse(b, next, n).Some? { ParseEnds(b, next, n); }
  }

  lemma {:induction false} ParseEnds(b: Bytes, o: nat, n: nat)
    requires Parse(b, o, n).Some?
    ensures o <= n
  {
  }

  /** priskv_rdma_keys_req_cb on success: one walk to check and count, one to copy. */
  method Decode(b: Bytes, valuelen: nat) returns (r: Option<seq<Entry>>)
    requires valuelen <= |b| && Walkable(b, 0, valuelen)
    ensures r == Parse(b, 0, valuelen)
  {
    hide Parse, Walkable, From16, From32;
    var end, nkey := CountKeys(b, valuelen);
    if end != valuelen {
      return None;
    }
    var o, keys := 0, [];
    ghost var all := Parse(b, 0, valuelen).value;
    while o < valuelen
      invariant o <= valuelen && Walkable(b, o, valuelen) && Parse(b, o, valuelen).Some?
      invariant keys + Parse(b, o, valuelen).value == all
      decreases valuelen - o
    {
      WalkStep(b, o, valuelen);
      ParseStep(b, o, valuelen);
      var next := o + HEADER + From16(b, o);
      var e := Entry(b[o + HEADER..next], From32(b, o + 4));
      Assoc(keys, e, Parse(b, next, valuelen).value);
      keys := keys + [e];
      o := next;
    }
    ParseDone(b, valuelen);
    assert keys + [] == keys;
    return Some(keys);
  }

  lemma {:induction false} WalkStep(b: Bytes, o: nat, n: nat)
    requires Walkable(b, o, n) && o < n
    ensures o + HEADER <= |b| && Walkable(b, o + HEADER + From16(b, o), n)
  {
  }

  lemma {:induction false} Assoc(a: seq<Entry>, e: Entry, r: seq<Entry>)
    ensures a + ([e] + r) == (a + [e]) + r
  {
  }

  lemma {:induction false} ParseDone(b: Bytes, n: nat)
    ensures Parse(b, n, n) == Some([])
  {
  }

  function AlignUp(x: nat, page: nat): nat
    requires page > 0
  {
    (x + page - 1) / page * page
  }

  /** The buffer size the client asks for after VALUE_TOO_BIG. */
  function Resized(length: nat, page: nat): nat
    requires page > 0
  {
    AlignUp(length + length / 8, page)
  }

  lemma {:induction false} ResizedEnough(length: nat, page: nat)
    requires page > 0
    ensures length + length / 8 <= Resized(length, page) < length + length / 8 + page
    ensures Resized(length, page) % page == 0
  {
    var x := length + length / 8;
    var q := (x + page - 1) / page;
    assert q * page <= x + page - 1 < q * page + page;
    Powers.Quotient(q, page);
  }

  /** KEYS on an unchanged store: whatever size the client starts with, it ends with exactly
      the matching keys, after at most one retry. */
  method Keys(chains: seq<seq<Entry>>, p: Bytes -> bool, size: nat, page: nat)
    returns (keys: Option<seq<Entry>>, retries: nat)
    requires page > 0 && forall i | 0 <= i < |chains| :: AllOk(chains[i])
    requires var n := |Wire(AllMatching(chains, p))|; n + n / 8 + page <= WORD
    ensures keys == Some(AllMatching(chains, p)) && retries <= 1
    ensures (retries == 0 <==> |Wire(AllMatching(chains, p))| <= size)
  {
    hide Parse, Wire, Walkable;
    retries := 0;
    var buf := new Byte[size](_ => 0);
    var tooBig, length, nkey := Encode(chains, p, buf);
    if tooBig {
      ResizedEnough(length, page);
      buf := new Byte[Resized(length, page)](_ => 0);
      retries := 1;
      tooBig, length, nkey := Encode(chains, p, buf);
    }
    ParseWire(buf[..], 0, AllMatching(chains, p)) by { assert buf[..][0..length] == buf[..length]; }
    keys := Decode(buf[..], length);
  }
}
