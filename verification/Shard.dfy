/** Namespace-hash sharding of the cache's List and Watch, and the informers that use it. */
module Shard {
  import opened Wrappers
  import opened Model
  import opened Protocol
  import opened Snapshots
  import opened Watch
  import opened Agreement

  datatype ShardSpec = ShardSpec(modulus: int, owned: seq<int>)

  datatype ShardError = BadModulus | NothingOwned | OutOfRange(value: int) | Repeated(value: int)

  ghost predicate WellFormed(s: ShardSpec) {
    && s.modulus > 0
    && s.owned != []
    && (forall i | 0 <= i < |s.owned| :: 0 <= s.owned[i] < s.modulus)
    && (forall i, j | 0 <= i < j < |s.owned| :: s.owned[i] != s.owned[j])
  }

  lemma {:induction false} OnceEach(values: seq<int>)
    requires forall i, j | 0 <= i < j < |values| :: values[i] != values[j]
    ensures forall v | v in values :: multiset(values)[v] == 1
  {
    if values != [] {
      var n := |values| - 1;
      OnceEach(values[..n]);
      assert values == values[..n] + [values[n]];
      assert values[n] !in values[..n];
    }
  }

  lemma CountedTwice(values: seq<int>, i: nat, j: nat)
    requires i < j < |values| && values[i] == values[j]
    ensures multiset(values)[values[i]] > 1
  {
    assert values == values[..i] + [values[i]] + values[i + 1..j] + [values[j]] + values[j + 1..];
  }

  /** A well-formed spec owns some of the residues, each once. */
  lemma WellFormedExactly(s: ShardSpec)
    ensures WellFormed(s) <==> && s.modulus > 0 && s.owned != [] && (forall v | v in s.owned :: 0 <= v < s.modulus)
                               && forall v | v in s.owned :: multiset(s.owned)[v] == 1
  {
    assert forall i | 0 <= i < |s.owned| :: s.owned[i] in s.owned;
    if i, j :| 0 <= i < j < |s.owned| && s.owned[i] == s.owned[j] {
      CountedTwice(s.owned, i, j);
    } else {
      OnceEach(s.owned);
    }
  }

  /** Validate accepts exactly the well-formed specs, and blames a value that is really at fault. */
  method Validate(s: ShardSpec) returns (error: Option<ShardError>)
    ensures error.None? <==> WellFormed(s)
    ensures error.Some? ==> match error.value
                            case BadModulus => s.modulus <= 0
                            case NothingOwned => s.owned == []
                            case OutOfRange(v) => v in s.owned && !(0 <= v < s.modulus)
                            case Repeated(v) => multiset(s.owned)[v] > 1
  {
    if s.modulus <= 0 {
      return Some(BadModulus);
    }
    if s.owned == [] {
      return Some(NothingOwned);
    }
    var seen: set<int> := {};
    for i := 0 to |s.owned|
      invariant forall v :: v in seen <==> v in s.owned[..i]
      invariant forall k | 0 <= k < i :: 0 <= s.owned[k] < s.modulus
      invariant forall k, l | 0 <= k < l < i :: s.owned[k] != s.owned[l]
    {
      var o := s.owned[i];
      if o < 0 || o >= s.modulus {
        return Some(OutOfRange(o));
      }
      if o in seen {
        assert s.owned == s.owned[..i] + [o] + s.owned[i + 1..];
        return Some(Repeated(o));
      }
      seen := seen + {o};
    }
    error := None;
  }

  const INT32_LIMIT: int := 0x8000_0000

  /** abs(hashtext(namespace)::bigint) % modulus. The cast is what makes abs total: the magnitude of
      the least int4 is not an int4. */
  function Residue(hash: int, modulus: int): int
    requires modulus > 0
  {
    (if hash < 0 then -hash else hash) % modulus
  }

  lemma ResidueInRange(hash: int, modulus: int)
    requires -INT32_LIMIT <= hash < INT32_LIMIT && modulus > 0
    ensures 0 <= Residue(hash, modulus) < modulus
    ensures -INT64_LIMIT <= (if hash < 0 then -hash else hash) < INT64_LIMIT
  {
  }

  lemma ResidueBounds(hash: int, modulus: int)
    requires modulus > 0
    ensures 0 <= Residue(hash, modulus) < modulus
  {
  }

  /** What a residue is: sign is ignored, small hashes are their own, and a modulus more changes nothing. */
  lemma ResidueExactly(hash: int, modulus: int)
    requires hash >= 0 && modulus > 0
    ensures Residue(-hash, modulus) == Residue(hash, modulus)
    ensures hash < modulus ==> Residue(hash, modulus) == hash
    ensures Residue(hash + modulus, modulus) == Residue(hash, modulus)
  {
    if hash < modulus { QuotientIsUnique(hash, modulus, 0, hash); }
    var q, r := hash / modulus, hash % modulus;
    assert hash + modulus == (q + 1) * modulus + r;
    QuotientIsUnique(hash + modulus, modulus, q + 1, r);
  }

  /** The residues of non-negative hashes below the modulus are themselves: exactly the values a spec may
      own occur as residues. */
  lemma ResiduesAreOwnable(v: int, modulus: int)
    requires modulus > 0
    ensures 0 <= v < modulus <==> exists hash :: Residue(hash, modulus) == v
  {
    if 0 <= v < modulus {
      ResidueExactly(v, modulus);
    }
    if hash :| Residue(hash, modulus) == v {
      ResidueBounds(hash, modulus);
    }
  }

  /** The shard predicate in a WHERE clause; nil means unsharded. */
  function Owner(shard: Option<ShardSpec>, hash: string -> int): string -> bool {
    (namespace: string) =>
      shard.None? || (shard.value.modulus > 0 && Residue(hash(namespace), shard.value.modulus) in shard.value.owned)
  }

  function SelectorOf(gvk: string, shard: Option<ShardSpec>, hash: string -> int): Selector {
    Selector(gvk, Owner(shard, hash))
  }

  ghost predicate IsOwned(shards: seq<ShardSpec>, r: int) {
    exists i | 0 <= i < |shards| :: r in shards[i].owned
  }

  /** The replicas' residue sets partition [0, modulus). */
  ghost predicate Partition(shards: seq<ShardSpec>, modulus: int) {
    && modulus > 0
    && (forall i | 0 <= i < |shards| :: shards[i].modulus == modulus && WellFormed(shards[i]))
    && (forall r | 0 <= r < modulus :: IsOwned(shards, r))
    && (forall i, j, r | 0 <= i < j < |shards| :: !(r in shards[i].owned && r in shards[j].owned))
  }

  /** Every namespace has exactly one replica. */
  lemma OneOwnerPerNamespace(shards: seq<ShardSpec>, modulus: int, hash: string -> int, namespace: string)
      returns (i: nat)
    requires Partition(shards, modulus)
    ensures i < |shards| && Owner(Some(shards[i]), hash)(namespace)
    ensures forall j | 0 <= j < |shards| && Owner(Some(shards[j]), hash)(namespace) :: j == i
  {
    var r := Residue(hash(namespace), modulus);
    assert IsOwned(shards, r);
    i :| 0 <= i < |shards| && r in shards[i].owned;
  }

  function ShardCache(snap: Snapshot, gvk: string, shard: Option<ShardSpec>, hash: string -> int): Cache {
    ListCache(snap, SelectorOf(gvk, shard, hash))
  }

  lemma ShardCacheAt(snap: Snapshot, gvk: string, shard: ShardSpec, hash: string -> int, k: Key)
    ensures Lookup(ShardCache(snap, gvk, Some(shard), hash), k)
            == if Owner(Some(shard), hash)(k.namespace) then Lookup(ShardCache(snap, gvk, None, hash), k) else None
  {
    assert Selects(SelectorOf(gvk, None, hash), k) <==> k.gvk == gvk;
    assert Selects(SelectorOf(gvk, Some(shard), hash), k) <==> k.gvk == gvk && Owner(Some(shard), hash)(k.namespace);
  }

  /** Every row List shows of a GVK is in the cache of exactly one replica. */
  lemma ShardsPartitionTheCache(snap: Snapshot, gvk: string, shards: seq<ShardSpec>, modulus: int, hash: string -> int)
    requires Partition(shards, modulus)
    ensures forall i, j | 0 <= i < j < |shards| ::
              ShardCache(snap, gvk, Some(shards[i]), hash).Keys !! ShardCache(snap, gvk, Some(shards[j]), hash).Keys
    ensures forall k, row :: Lookup(ShardCache(snap, gvk, None, hash), k) == Some(row)
              <==> exists i | 0 <= i < |shards| :: Lookup(ShardCache(snap, gvk, Some(shards[i]), hash), k) == Some(row)
  {
    forall i, j, k | 0 <= i < j < |shards|
      ensures !(k in ShardCache(snap, gvk, Some(shards[i]), hash) && k in ShardCache(snap, gvk, Some(shards[j]), hash))
    {
      var owner := OneOwnerPerNamespace(shards, modulus, hash, k.namespace);
      ShardCacheAt(snap, gvk, shards[i], hash, k);
      ShardCacheAt(snap, gvk, shards[j], hash, k);
    }
    forall k, row
      ensures Lookup(ShardCache(snap, gvk, None, hash), k) == Some(row)
              <==> exists i | 0 <= i < |shards| :: Lookup(ShardCache(snap, gvk, Some(shards[i]), hash), k) == Some(row)
    {
      var owner := OneOwnerPerNamespace(shards, modulus, hash, k.namespace);
      forall i | 0 <= i < |shards| { ShardCacheAt(snap, gvk, shards[i], hash, k); }
    }
  }

  /** One watch per replica, each somewhere along the run. */
  ghost predicate ReplicaWatches(t: seq<Db>, gvk: string, shards: seq<ShardSpec>, hash: string -> int,
                                 watches: seq<Watching>, polls: seq<nat>, point: nat)
  {
    && |watches| == |polls| == |shards|
    && forall i | 0 <= i < |shards| ::
         var w, n := watches[i], polls[i];
         var sel := SelectorOf(gvk, Some(shards[i]), hash);
         && Follows(t, sel, w) && n < |w.at| && w.at[n] == point
         && forall m | 0 < m <= n :: Alike(At(t, w, m), sel, w.marks[m - 1])
  }

  /** Sharded replicas that have polled the same snapshot hold pairwise disjoint caches whose union is
      the unsharded cache. */
  lemma ShardedCachesCover(t: seq<Db>, gvk: string, shards: seq<ShardSpec>, modulus: int, hash: string -> int,
                           watches: seq<Watching>, polls: seq<nat>, point: nat)
    requires Run(t) && XidsFit(t) && Partition(shards, modulus) && point < |t|
    requires ReplicaWatches(t, gvk, shards, hash, watches, polls, point)
    ensures forall i, j | 0 <= i < j < |shards| ::
              watches[i].caches[polls[i]].Keys !! watches[j].caches[polls[j]].Keys
    ensures forall k, row :: Lookup(ShardCache(Snap(t[point]), gvk, None, hash), k) == Some(row)
              <==> exists i | 0 <= i < |shards| :: Lookup(watches[i].caches[polls[i]], k) == Some(row)
  {
    ShardsPartitionTheCache(Snap(t[point]), gvk, shards, modulus, hash);
    forall i | 0 <= i < |shards|
      ensures watches[i].caches[polls[i]] == ShardCache(Snap(t[point]), gvk, Some(shards[i]), hash)
    {
      CacheAgreesWithTable(t, SelectorOf(gvk, Some(shards[i]), hash), watches[i], polls[i]);
    }
  }

  /******* pgCache.getOrCreateInformer *******/

  /** What an informer's list and watch closures captured. */
  datatype Informer = Informer(gvk: string, listShard: Option<ShardSpec>, watchShard: Option<ShardSpec>)

  function ShardFor(shard: Option<ShardSpec>, unsharded: set<string>, gvk: string): Option<ShardSpec> {
    if gvk in unsharded then None else shard
  }

  class PgCache {
    const shard: Option<ShardSpec>
    const unsharded: set<string>
    var informers: map<string, Informer>

    /** Each informer lists and watches the same slice of its own GVK. */
    ghost predicate Valid()
      reads this
    {
      forall g | g in informers :: informers[g] == Informer(g, ShardFor(shard, unsharded, g), ShardFor(shard, unsharded, g))
    }

    constructor (shard: Option<ShardSpec>, unsharded: set<string>)
      ensures Valid() && informers == map[] && this.shard == shard && this.unsharded == unsharded
    {
      this.shard, this.unsharded, informers := shard, unsharded, map[];
    }

    method GetOrCreateInformer(gvk: string) returns (inf: Informer)
      requires Valid()
      modifies this`informers
      ensures Valid()
      ensures informers == old(informers)[gvk := inf]
      ensures gvk in old(informers) ==> inf == old(informers)[gvk]
      ensures inf.gvk == gvk && inf.listShard == inf.watchShard == ShardFor(shard, unsharded, gvk)
      ensures inf.watchShard == if gvk in unsharded then None else shard
    {
      if gvk in informers {
        return informers[gvk];
      }
      var gvkShard: Option<ShardSpec> := None;
      if shard.Some? && gvk !in unsharded {
        gvkShard := shard;
      }
      inf := Informer(gvk, gvkShard, gvkShard);
      informers := informers[gvk := inf];
    }
  }
}
