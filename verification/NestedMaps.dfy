/** Go's nested maps, and the flat pair-keyed maps they represent. Reading a
    missing inner map gives an empty one, so two nestings that differ only in
    empty inner maps represent the same flat map. */
module NestedMaps {
  import opened Model

  function At<K, V>(m: map<string, map<K, V>>, r: string): map<K, V> {
    if r in m then m[r] else map[]
  }

  function AtShard<V>(m: Sharded<V>, r: string, s: nat): map<string, V> {
    if s in At(m, r) then m[r][s] else map[]
  }

  function Get0<K>(m: map<K, int>, k: K): int {
    if k in m then m[k] else 0
  }

  // Two levels: repository, then digest or name ------------------------------

  function Find<V>(m: map<string, map<string, V>>, r: string, k: string): Option<V> {
    if k in At(m, r) then Some(m[r][k]) else None
  }

  function Lookup<V>(flat: map<Key, V>, r: string, k: string): Option<V> {
    if (r, k) in flat then Some(flat[(r, k)]) else None
  }

  /** The flat map a nested map represents. */
  ghost predicate Nests<V>(m: map<string, map<string, V>>, flat: map<Key, V>) {
    forall r, k {:trigger Find(m, r, k)} :: Find(m, r, k) == Lookup(flat, r, k)
  }

  function WithEntry<V>(m: map<string, map<string, V>>, r: string, k: string, v: V): map<string, map<string, V>> {
    m[r := At(m, r)[k := v]]
  }

  /** delete(m[r], k), which Go allows on a missing inner map too. */
  function WithoutEntry<V>(m: map<string, map<string, V>>, r: string, k: string): map<string, map<string, V>> {
    if r in m then m[r := m[r] - {k}] else m
  }

  lemma EntryPut<V>(m: map<string, map<string, V>>, flat: map<Key, V>, r: string, k: string, v: V)
    requires Nests(m, flat)
    ensures Nests(WithEntry(m, r, k, v), flat[(r, k) := v])
  {
    forall r', k' ensures Find(WithEntry(m, r, k, v), r', k') == Lookup(flat[(r, k) := v], r', k') {
      assert Find(m, r', k') == Lookup(flat, r', k');
    }
  }

  lemma EntryDrop<V>(m: map<string, map<string, V>>, flat: map<Key, V>, r: string, k: string)
    requires Nests(m, flat)
    ensures Nests(WithoutEntry(m, r, k), flat - {(r, k)})
  {
    forall r', k' ensures Find(WithoutEntry(m, r, k), r', k') == Lookup(flat - {(r, k)}, r', k') {
      assert Find(m, r', k') == Lookup(flat, r', k');
    }
  }

  /** One repository's part of a flat map. */
  ghost predicate Slices<V(!new)>(flat: map<Key, V>, r: string, part: map<string, V>) {
    forall k {:trigger (r, k) in flat} {:trigger k in part} ::
      && (k in part <==> (r, k) in flat)
      && (k in part ==> part[k] == flat[(r, k)])
  }

  lemma InnerSlices<V(!new)>(m: map<string, map<string, V>>, flat: map<Key, V>, r: string)
    requires Nests(m, flat)
    ensures Slices(flat, r, At(m, r))
  {
    forall k
      ensures k in At(m, r) <==> (r, k) in flat
      ensures k in At(m, r) ==> At(m, r)[k] == flat[(r, k)]
    {
      assert Find(m, r, k) == Lookup(flat, r, k);
    }
  }

  // Three levels: repository, shard, digest --------------------------------

  type Sharded<V> = map<string, map<nat, map<string, V>>>

  /** Every digest sits in the shard it hashes to, and nowhere else. */
  ghost predicate Placed<V>(m: Sharded<V>, shard: string -> nat) {
    forall r, s, d | r in m && s in m[r] && d in m[r][s] :: s == shard(d)
  }

  /** The flat map a sharded table represents. */
  ghost predicate Represents<V>(m: Sharded<V>, shard: string -> nat, flat: map<Key, V>) {
    && Placed(m, shard)
    && (forall r, d {:trigger AtShard(m, r, shard(d))} ::
          && ((r, d) in flat <==> d in AtShard(m, r, shard(d)))
          && ((r, d) in flat ==> flat[(r, d)] == AtShard(m, r, shard(d))[d]))
  }

  function WithShard<V>(m: Sharded<V>, r: string, s: nat, t: map<string, V>):
      Sharded<V>
  {
    m[r := At(m, r)[s := t]]
  }

  lemma WithShardAt<V>(m: Sharded<V>, r: string, s: nat, t: map<string, V>, r': string, s': nat)
    ensures AtShard(WithShard(m, r, s, t), r', s') == if r' == r && s' == s then t else AtShard(m, r', s')
  {
  }

  lemma WithShardPlaced<V>(m: Sharded<V>, shard: string -> nat, r: string, s: nat, t: map<string, V>)
    requires Placed(m, shard) && forall d <- t :: shard(d) == s
    ensures Placed(WithShard(m, r, s, t), shard)
  {
  }

  /** Writing one shard entry writes one flat entry. */
  lemma ShardPut<V>(m: Sharded<V>, shard: string -> nat, flat: map<Key, V>, r: string, d: string, v: V)
    requires Represents(m, shard, flat)
    ensures Represents(WithShard(m, r, shard(d), AtShard(m, r, shard(d))[d := v]), shard, flat[(r, d) := v])
  {
    var t := AtShard(m, r, shard(d))[d := v];
    WithShardPlaced(m, shard, r, shard(d), t);
    forall r', d' { WithShardAt(m, r, shard(d), t, r', shard(d')); }
  }

  /** Deleting one shard entry deletes one flat entry. */
  lemma ShardDrop<V>(m: Sharded<V>, shard: string -> nat, flat: map<Key, V>, r: string, d: string)
    requires Represents(m, shard, flat)
    ensures Represents(WithShard(m, r, shard(d), AtShard(m, r, shard(d)) - {d}), shard, flat - {(r, d)})
  {
    var t := AtShard(m, r, shard(d)) - {d};
    WithShardPlaced(m, shard, r, shard(d), t);
    forall r', d' { WithShardAt(m, r, shard(d), t, r', shard(d')); }
  }
}
