/**
 KEYS on the store (server/kv.c:599-656): the writer of KeysWire walks the store's hash chains,
 and what the client gets is exactly the matching entries of the store's recency list.
 */
module KvKeys {
  import opened Wrappers
  import opened KvState
  import KvRefine
  import KeysWire
  import Kv

  function EntryOf(n: Node): KeysWire.Entry { KeysWire.Entry(n.key, n.valuelen) }

  /** Lengths fit the fields of the wire format. */
  ghost predicate Fits(nodes: Nodes) {
    forall s | s in nodes :: KeysWire.EntryOk(EntryOf(nodes[s]))
  }

  function ChainEntries(chain: seq<Slot>, nodes: Nodes): (r: seq<KeysWire.Entry>)
    ensures Fits(nodes) ==> KeysWire.AllOk(r)
  {
    if chain == [] then []
    else (if chain[0] in nodes then [EntryOf(nodes[chain[0]])] else []) + ChainEntries(chain[1..], nodes)
  }

  /** What the writer walks: bucket after bucket, each in chain order. */
  function Chains(chains: seq<seq<Slot>>, nodes: Nodes): seq<seq<KeysWire.Entry>> {
    seq(|chains|, b requires 0 <= b < |chains| => ChainEntries(chains[b], nodes))
  }

  /** What KEYS returns for the keys that match p. */
  function KeysOf(st: State, p: Key -> bool): (r: seq<KeysWire.Entry>)
    ensures Fits(st.nodes) ==> KeysWire.AllOk(r)
  {
    KeysWire.AllMatching(Chains(st.chains, st.nodes), p)
  }

  // ---------------------------------------------------------------- which entries

  lemma {:induction false} InChain(chain: seq<Slot>, nodes: Nodes, e: KeysWire.Entry)
    ensures e in ChainEntries(chain, nodes) <==> exists s :: s in chain && s in nodes && EntryOf(nodes[s]) == e
  {
    if chain != [] {
      InChain(chain[1..], nodes, e);
      assert forall s :: s in chain <==> s == chain[0] || s in chain[1..];
    }
  }

  lemma {:induction false} InMatching(es: seq<KeysWire.Entry>, p: Key -> bool, e: KeysWire.Entry)
    ensures e in KeysWire.Matching(es, p) <==> e in es && p(e.key)
  {
    if es != [] { InMatching(es[1..], p, e); }
  }

  lemma {:induction false} InAll(chains: seq<seq<KeysWire.Entry>>, p: Key -> bool, e: KeysWire.Entry)
    ensures e in KeysWire.AllMatching(chains, p) <==> p(e.key) && exists b :: 0 <= b < |chains| && e in chains[b]
  {
    if chains != [] {
      InMatching(chains[0], p, e);
      InAll(chains[1..], p, e);
      if b :| 0 <= b < |chains| && e in chains[b] {
        if b > 0 { assert e in chains[1..][b - 1]; }
      }
      if b :| 0 <= b < |chains[1..]| && e in chains[1..][b] { assert e in chains[b + 1]; }
    }
  }

  lemma {:induction false} InView(lru: seq<Slot>, nodes: Nodes, e: KvRefine.Entry)
    ensures e in KvRefine.ViewOf(lru, nodes) <==>
            e.slot in lru && e.slot in nodes && KvRefine.EntryOf(e.slot, nodes[e.slot]) == e
  {
    if lru != [] {
      InView(lru[1..], nodes, e);
      assert e.slot in lru <==> e.slot == lru[0] || e.slot in lru[1..];
    }
  }

  ghost predicate Shown(v: seq<KvRefine.Entry>, e: KeysWire.Entry) {
    exists x: KvRefine.Entry :: x in v && x.key == e.key && x.valuelen == e.valuelen
  }

  /** KEYS returns an entry exactly when it matches and the recency list shows it. */
  lemma {:induction false} KeysAreView(c: Config, st: State, p: Key -> bool, e: KeysWire.Entry)
    requires c.buckets > 0 && ListsOk(c, st)
    ensures e in KeysOf(st, p) <==> p(e.key) && Shown(KvRefine.View(st), e)
  {
    hide KvRefine.ViewOf, ChainEntries, KeysWire.AllMatching;
    var chains := Chains(st.chains, st.nodes);
    InAll(chains, p, e);
    if b :| 0 <= b < |chains| && e in chains[b] {
      InChain(st.chains[b], st.nodes, e);
      var s :| s in st.chains[b] && s in st.nodes && EntryOf(st.nodes[s]) == e;
      InView(st.lru, st.nodes, KvRefine.EntryOf(s, st.nodes[s]));
    }
    if x: KvRefine.Entry :| x in KvRefine.View(st) && x.key == e.key && x.valuelen == e.valuelen {
      InView(st.lru, st.nodes, x);
      var b := Bucket(c, e.key);
      assert x.slot in st.chains[b];
      InChain(st.chains[b], st.nodes, e);
      assert e in chains[b];
    }
  }

  // ---------------------------------------------------------------- each once

  ghost predicate Distinct(es: seq<KeysWire.Entry>) {
    forall i, j | 0 <= i < j < |es| :: es[i].key != es[j].key
  }

  /** Every key of es lies in bucket b. */
  ghost predicate InBucket(c: Config, es: seq<KeysWire.Entry>, b: int)
    requires c.buckets > 0
  {
    forall i | 0 <= i < |es| :: Bucket(c, es[i].key) == b
  }

  lemma {:induction false} ChainDistinct(c: Config, chain: seq<Slot>, nodes: Nodes, b: int)
    requires c.buckets > 0 && NoDup(chain)
    requires forall s | s in chain && s in nodes :: Bucket(c, nodes[s].key) == b
    requires forall s, t | s in chain && t in chain && s in nodes && t in nodes && nodes[s].key == nodes[t].key :: s == t
    ensures Distinct(ChainEntries(chain, nodes)) && InBucket(c, ChainEntries(chain, nodes), b)
  {
    if chain != [] {
      var rest := ChainEntries(chain[1..], nodes);
      ChainDistinct(c, chain[1..], nodes, b);
      if chain[0] in nodes {
        forall j | 0 <= j < |rest| ensures rest[j].key != nodes[chain[0]].key {
          assert rest[j] in rest;
          InChain(chain[1..], nodes, rest[j]);
        }
      }
    }
  }

  lemma {:induction false} MatchingDistinct(c: Config, es: seq<KeysWire.Entry>, p: Key -> bool, b: int)
    requires c.buckets > 0 && Distinct(es) && InBucket(c, es, b)
    ensures Distinct(KeysWire.Matching(es, p)) && InBucket(c, KeysWire.Matching(es, p), b)
  {
    if es != [] {
      var rest := KeysWire.Matching(es[1..], p);
      MatchingDistinct(c, es[1..], p, b);
      forall j | 0 <= j < |rest| ensures rest[j].key != es[0].key {
        InMatching(es[1..], p, rest[j]);
        assert rest[j] in rest;
      }
    }
  }

  lemma {:induction false} AllDistinct(c: Config, chains: seq<seq<KeysWire.Entry>>, p: Key -> bool, from: nat)
    requires c.buckets > 0
    requires forall b | 0 <= b < |chains| :: Distinct(chains[b]) && InBucket(c, chains[b], from + b)
    ensures Distinct(KeysWire.AllMatching(chains, p))
    ensures forall e | e in KeysWire.AllMatching(chains, p) :: Bucket(c, e.key) >= from
  {
    hide Distinct, InBucket;
    if chains == [] {
      assert Distinct([]) by { NoneDistinct(); }
    } else {
      MatchingDistinct(c, chains[0], p, from);
      AllDistinct(c, chains[1..], p, from + 1);
      Joined(c, KeysWire.Matching(chains[0], p), KeysWire.AllMatching(chains[1..], p), from);
    }
  }

  lemma {:induction false} NoneDistinct()
    ensures Distinct([])
  {
  }

  lemma {:induction false} Joined(c: Config, a: seq<KeysWire.Entry>, r: seq<KeysWire.Entry>, b: nat)
    requires c.buckets > 0 && Distinct(a) && InBucket(c, a, b) && Distinct(r)
    requires forall e | e in r :: Bucket(c, e.key) >= b + 1
    ensures Distinct(a + r) && forall e | e in a + r :: Bucket(c, e.key) >= b
  {
  }

  /** And no key is returned twice. */
  lemma {:induction false} KeysOnce(c: Config, st: State, p: Key -> bool)
    requires c.buckets > 0 && ListsOk(c, st)
    ensures Distinct(KeysOf(st, p))
  {
    hide Distinct, InBucket, ChainEntries;
    var chains := Chains(st.chains, st.nodes);
    forall b | 0 <= b < |chains| ensures Distinct(chains[b]) && InBucket(c, chains[b], b) {
      ChainDistinct(c, st.chains[b], st.nodes, b);
    }
    AllDistinct(c, chains, p, 0);
  }

  // ---------------------------------------------------------------- the command

  /** KEYS against an unchanging store: every matching entry of the store, once, after at most one
      retry of the client. */
  method Keys(store: Kv.Store, p: Key -> bool, size: nat, page: nat)
    returns (keys: Option<seq<KeysWire.Entry>>, retries: nat)
    requires store.Valid() && Fits(store.nodes) && page > 0
    requires var n := |KeysWire.Wire(KeysOf(store.Abs(), p))|; n + n / 8 + page <= KeysWire.WORD
    ensures keys == Some(KeysOf(store.Abs(), p)) && retries <= 1
    ensures Distinct(keys.value)
    ensures forall e | e in keys.value :: p(e.key) && Shown(KvRefine.View(store.Abs()), e)
    ensures forall e: KeysWire.Entry | p(e.key) && Shown(KvRefine.View(store.Abs()), e) :: e in keys.value
  {
    hide KeysWire.Wire, KeysWire.AllMatching, ChainEntries, Shown, Distinct, KvRefine.ViewOf;
    var chains := Chains(store.chains, store.nodes);
    keys, retries := KeysWire.Keys(chains, p, size, page);
    ghost var st := store.Abs();
    KeysOnce(store.c, st, p);
    forall e: KeysWire.Entry ensures e in KeysOf(st, p) <==> p(e.key) && Shown(KvRefine.View(st), e) {
      KeysAreView(store.c, st, p, e);
    }
  }
}
