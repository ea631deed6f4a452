/** Namespace-hash sharding of the readers. */
module Shard {
  import opened Basics
  import opened Rows
  import opened Watch

  datatype ShardSpec = ShardSpec(mod: int, owned: seq<int>)

  datatype ShardError = BadModulus | NothingOwned | OutOfRange(value: int) | Duplicate(value: int)

  /** What a valid spec is. */
  ghost predicate Valid(s: ShardSpec) {
    && s.mod > 0 && s.owned != []
    && (forall i :: 0 <= i < |s.owned| ==> 0 <= s.owned[i] < s.mod)
    && (forall i, j :: 0 <= i < j < |s.owned| ==> s.owned[i] != s.owned[j])
  }

  /** Validation accepts exactly the valid specs and names the offending value. */
  method Validate(s: ShardSpec) returns (err: Option<ShardError>)
    ensures err.None? <==> Valid(s)
    ensures err == Some(BadModulus) <==> s.mod <= 0
    ensures err.Some? && err.value.OutOfRange? ==>
              err.value.value in s.owned && !(0 <= err.value.value < s.mod)
    ensures err.Some? && err.value.Duplicate? ==>
              exists i, j :: 0 <= i < j < |s.owned| && s.owned[i] == s.owned[j] == err.value.value
  {
    if s.mod <= 0 {
      return Some(BadModulus);
    }
    if s.owned == [] {
      return Some(NothingOwned);
    }
    var seen: set<int> := {};
    for n := 0 to |s.owned|
      invariant forall o :: o in seen <==> o in s.owned[..n]
      invariant forall i :: 0 <= i < n ==> 0 <= s.owned[i] < s.mod
      invariant forall i, j :: 0 <= i < j < n ==> s.owned[i] != s.owned[j]
    {
      var o := s.owned[n];
      if o < 0 || o >= s.mod {
        return Some(OutOfRange(o));
      }
      if o in seen {
        var i :| 0 <= i < |s.owned[..n]| && s.owned[..n][i] == o;
        assert s.owned[i] == s.owned[n] == o;
        return Some(Duplicate(o));
      }
      seen := seen + {o};
      assert s.owned[..n + 1] == s.owned[..n] + [o];
    }
    return None;
  }

  function Abs(n: int): int { if n < 0 then -n else n }

  /** `abs(hashtext(namespace)::bigint) % mod`; the hash is the database's. */
  function Residue(hash: string -> int, mod: int, ns: string): int
    requires mod > 0
  {
    Abs(hash(ns)) % mod
  }

  predicate Owns(s: ShardSpec, hash: string -> int, ns: string) {
    s.mod > 0 && Residue(hash, s.mod, ns) in s.owned
  }

  function ShardScope(gvk: string, s: ShardSpec, hash: string -> int): Scope {
    Scope(gvk, ns => Owns(s, hash, ns))
  }

  // ---- The clause both queries append ----

  datatype Arg = Text(text: string) | Number(number: int) | Numbers(numbers: seq<int>)

  /** The shard predicate as SQL text: the numbers of its two parameters. */
  datatype Clause = Clause(modParam: nat, ownedParam: nat)

  function ShardClause(s: ShardSpec, start: nat): (Clause, seq<Arg>) {
    (Clause(start, start + 1), [Number(s.mod), Numbers(s.owned)])
  }

  /** The poll's query: the clause is numbered after the arguments already there. */
  function AppendQuery(s: ShardSpec, args: seq<Arg>): (Clause, seq<Arg>) {
    var (clause, extra) := ShardClause(s, |args| + 1);
    (clause, args + extra)
  }

  /** The list's filter: numbered from 2, since the group is always parameter 1. */
  function ToListFilter(s: ShardSpec): (Clause, seq<Arg>) { ShardClause(s, 2) }

  /** Parameter `$n` of a query, if it is there. */
  function Param(args: seq<Arg>, n: nat): Option<Arg> {
    if 1 <= n <= |args| then Some(args[n - 1]) else None
  }

  /** What the database makes of the clause. */
  predicate Evaluates(c: Clause, args: seq<Arg>, hash: string -> int, ns: string) {
    match (Param(args, c.modParam), Param(args, c.ownedParam))
    case (Some(Number(mod)), Some(Numbers(owned))) => mod > 0 && Residue(hash, mod, ns) in owned
    case _ => false
  }

  /** List and poll apply one and the same predicate, whatever arguments precede it. */
  lemma ListAndPollAgree(s: ShardSpec, gvk: string, args: seq<Arg>, hash: string -> int, ns: string)
    ensures var (clause, all) := AppendQuery(s, args);
            args <= all && (Evaluates(clause, all, hash, ns) <==> Owns(s, hash, ns))
    ensures var (clause, extra) := ToListFilter(s);
            Evaluates(clause, [Text(gvk)] + extra, hash, ns) <==> Owns(s, hash, ns)
  {
    var all := AppendQuery(s, args).1;
    assert all[|args|] == Number(s.mod) && all[|args| + 1] == Numbers(s.owned);
  }

  /** `h`, up to its sign, is `q` times `mod` and `r` more. */
  predicate Leaves(h: int, q: nat, mod: int, r: int) { h == q * mod + r || -h == q * mod + r }

  lemma RemainderUnique(q: nat, mod: int, r: int)
    requires 0 <= r < mod
    ensures (q * mod + r) % mod == r
  {
    var a := q * mod + r;
    var d := a / mod - q;
    assert d * mod == (a / mod) * mod - q * mod;
    assert (d >= 1 ==> d * mod >= mod) && (d <= -1 ==> d * mod <= -mod);
  }

  /** What the test computes: the remainder that the hash's absolute value leaves. */
  lemma ResidueIsRemainder(hash: string -> int, mod: int, ns: string, r: int)
    requires 0 <= r < mod
    ensures Residue(hash, mod, ns) == r <==> exists q: nat :: Leaves(hash(ns), q, mod, r)
  {
    var a := Abs(hash(ns));
    if Residue(hash, mod, ns) == r {
      assert Leaves(hash(ns), a / mod, mod, r);
    } else {
      forall q: nat
        ensures !Leaves(hash(ns), q, mod, r)
      {
        RemainderUnique(q, mod, r);
      }
    }
  }

  // ---- Partition ----

  function Unsharded(gvk: string): Scope { Scope(gvk, ns => true) }

  ghost predicate Covered(specs: seq<ShardSpec>, r: int) {
    exists i :: 0 <= i < |specs| && r in specs[i].owned
  }

  /** The replicas' residues cover every residue exactly once. */
  ghost predicate Partition(specs: seq<ShardSpec>, mod: int) {
    && mod > 0
    && (forall i :: 0 <= i < |specs| ==> Valid(specs[i]) && specs[i].mod == mod)
    && (forall r :: 0 <= r < mod ==> Covered(specs, r))
    && (forall i, j, r :: 0 <= i < j < |specs| && r in specs[i].owned ==> r !in specs[j].owned)
  }

  /** One replica per residue, as the manager is configured, is a partition. */
  lemma OrdinalsPartition(mod: nat)
    requires mod > 0
    ensures Partition(seq(mod, i => ShardSpec(mod, [i])), mod)
  {
    var specs := seq(mod, i => ShardSpec(mod, [i]));
    forall r | 0 <= r < mod
      ensures Covered(specs, r)
    {
      assert r in specs[r].owned;
    }
  }

  /** At any one snapshot the shards' caches are pairwise disjoint and together hold
      exactly the unsharded cache. */
  lemma ShardsPartitionTheView(specs: seq<ShardSpec>, mod: int, hash: string -> int,
                               gvk: string, rows: map<Key, Row>)
    requires Partition(specs, mod)
    ensures forall i, j :: 0 <= i < j < |specs| ==>
              View(rows, ShardScope(gvk, specs[i], hash)).Keys !! View(rows, ShardScope(gvk, specs[j], hash)).Keys
    ensures forall k :: k in View(rows, Unsharded(gvk)) <==>
              exists i :: 0 <= i < |specs| && k in View(rows, ShardScope(gvk, specs[i], hash))
    ensures forall i, k :: 0 <= i < |specs| && k in View(rows, ShardScope(gvk, specs[i], hash)) ==>
              View(rows, ShardScope(gvk, specs[i], hash))[k] == rows[k]
  {
    forall k | k in View(rows, Unsharded(gvk))
      ensures exists i :: 0 <= i < |specs| && k in View(rows, ShardScope(gvk, specs[i], hash))
    {
      var r := Residue(hash, mod, k.ns);
      assert Covered(specs, r);
      var i :| 0 <= i < |specs| && r in specs[i].owned;
      assert k in View(rows, ShardScope(gvk, specs[i], hash));
    }
    forall i, j | 0 <= i < j < |specs|
      ensures View(rows, ShardScope(gvk, specs[i], hash)).Keys !! View(rows, ShardScope(gvk, specs[j], hash)).Keys
    {
      forall k | k in View(rows, ShardScope(gvk, specs[i], hash))
        ensures k !in View(rows, ShardScope(gvk, specs[j], hash))
      {
        assert Residue(hash, mod, k.ns) in specs[i].owned;
      }
    }
  }

  /** No object changes shard: replicas that hold one key, at any two times, are one. */
  lemma NoObjectChangesShard(specs: seq<ShardSpec>, mod: int, hash: string -> int, gvk: string,
                             rows: map<Key, Row>, later: map<Key, Row>, k: Key, i: nat, j: nat)
    requires Partition(specs, mod) && i < |specs| && j < |specs|
    requires k in View(rows, ShardScope(gvk, specs[i], hash))
    requires k in View(later, ShardScope(gvk, specs[j], hash))
    ensures i == j
  {
    assert Residue(hash, mod, k.ns) in specs[i].owned;
    assert Residue(hash, mod, k.ns) in specs[j].owned;
  }
}
