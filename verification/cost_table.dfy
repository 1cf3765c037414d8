/** The flattened cost table, the static configuration of a run, and the
    algebra of the current-level map: applying a build order to it and the
    notion of a build order that is legal from a given level state. */
module CostTable {

  /** One row of the flattened cost table: upgrading `name` to `level`.
      `cost` is the resource total, `time` the build time (in whole seconds),
      `cpDelta` the culture points this level adds. */
  datatype Row = Row(name: string, level: nat, cost: int, time: int, cpDelta: int)

  /** The read-only inputs of a run: the table, the (name, level) -> row
      index mapping, the prerequisite map, and a rank on building names that
      witnesses that the prerequisite map is acyclic. */
  datatype Config = Config(
    table: seq<Row>,
    index: map<(string, nat), nat>,
    prereq: map<string, seq<(string, nat)>>,
    ghost rank: map<string, nat>)

  /** The row of `cfg` that holds level `l` of building `n` exists. */
  predicate HasLevel(cfg: Config, n: string, l: nat) {
    (n, l) in cfg.index
  }

  /** The configuration the scheduler relies on: the index mapping and the
      table agree, every lower level of a tabled building is tabled, every
      prerequisite names a tabled row, and prerequisites strictly decrease
      the rank (so the prerequisite map has no cycle). */
  ghost predicate WellFormed(cfg: Config) {
    && (forall i :: 0 <= i < |cfg.table| ==>
          cfg.table[i].name in cfg.rank
          && HasLevel(cfg, cfg.table[i].name, cfg.table[i].level)
          && cfg.index[(cfg.table[i].name, cfg.table[i].level)] == i)
    && (forall key :: key in cfg.index ==>
          cfg.index[key] < |cfg.table|
          && cfg.table[cfg.index[key]].name == key.0
          && cfg.table[cfg.index[key]].level == key.1)
    && (forall i, l :: 0 <= i < |cfg.table| && 1 <= l <= cfg.table[i].level ==>
          HasLevel(cfg, cfg.table[i].name, l))
    && (forall n :: n in cfg.prereq ==> n in cfg.rank)
    && (forall n, k :: n in cfg.prereq && 0 <= k < |cfg.prereq[n]| ==>
          HasLevel(cfg, cfg.prereq[n][k].0, cfg.prereq[n][k].1)
          && cfg.prereq[n][k].0 in cfg.rank
          && cfg.rank[cfg.prereq[n][k].0] < cfg.rank[n])
  }

  /** The configurations the scheduler runs on. */
  type ValidConfig = cfg: Config | WellFormed(cfg) witness Config([], map[], map[], map[])

  /** No two rows of the table are the same level of the same building. */
  predicate UniqueRows(cfg: Config) {
    forall i, j :: 0 <= i < |cfg.table| && 0 <= j < |cfg.table|
      && cfg.table[i].name == cfg.table[j].name && cfg.table[i].level == cfg.table[j].level
      ==> i == j
  }

  lemma ValidUnique(cfg: ValidConfig)
    ensures UniqueRows(cfg)
  {
  }

  /** Every building of the table has a current level. */
  predicate Covers(cfg: Config, cur: map<string, nat>) {
    forall i :: 0 <= i < |cfg.table| ==> cfg.table[i].name in cur
  }

  /** Every element of `s` is a row of the table. */
  predicate ValidIndices(cfg: Config, s: seq<nat>) {
    forall k :: 0 <= k < |s| ==> s[k] < |cfg.table|
  }

  /** No row index occurs twice in `s`. */
  predicate NoDup(s: seq<nat>) {
    forall a, b :: 0 <= a < b < |s| ==> s[a] != s[b]
  }

  /** The row `i` is already built: its level is at most its building's current level. */
  predicate Met(cfg: Config, cur: map<string, nat>, i: nat)
    requires i < |cfg.table| && Covers(cfg, cur)
  {
    cfg.table[i].level <= cur[cfg.table[i].name]
  }

  /** `l` is the run of levels `base + 1, base + 2, ...` with no gap. */
  predicate Consecutive(l: seq<nat>, base: nat) {
    forall k :: 0 <= k < |l| ==> l[k] == base + 1 + k
  }

  /** The levels of building `x` in `s`, in the order they occur. */
  function LevelsOf(cfg: Config, s: seq<nat>, x: string): seq<nat>
    requires ValidIndices(cfg, s)
  {
    if s == [] then []
    else
      var last := cfg.table[s[|s| - 1]];
      LevelsOf(cfg, s[..|s| - 1], x) + (if last.name == x then [last.level] else [])
  }

  /** The names of the buildings that `s` touches. */
  function Names(cfg: Config, s: seq<nat>): (r: set<string>)
    requires ValidIndices(cfg, s)
    ensures r == {} <==> s == []
  {
    if s == [] then {}
    else Names(cfg, s[..|s| - 1]) + {cfg.table[s[|s| - 1]].name}
  }

  /** The level map after setting, for each row of `s` in turn, its
      building's level to the row's level. */
  function Applied(cfg: Config, cur: map<string, nat>, s: seq<nat>): (r: map<string, nat>)
    requires ValidIndices(cfg, s)
    ensures forall x :: x in cur ==> x in r
  {
    if s == [] then cur
    else
      var last := cfg.table[s[|s| - 1]];
      Applied(cfg, cur, s[..|s| - 1])[last.name := last.level]
  }

  /** `s` is a legal build order from `cur`: for every building, the levels
      of `s` that belong to it are exactly the next ones after its current
      level, in increasing order with no gap and no repetition. */
  predicate Legal(cfg: Config, cur: map<string, nat>, s: seq<nat>) {
    && ValidIndices(cfg, s)
    && forall x :: x in cur ==> Consecutive(LevelsOf(cfg, s, x), cur[x])
  }

  // ---------------------------------------------------------------------
  // Lemmas about the level-map algebra

  lemma {:induction false} LevelsOfAppend(cfg: Config, a: seq<nat>, b: seq<nat>, x: string)
    requires ValidIndices(cfg, a) && ValidIndices(cfg, b)
    ensures ValidIndices(cfg, a + b)
    ensures LevelsOf(cfg, a + b, x) == LevelsOf(cfg, a, x) + LevelsOf(cfg, b, x)
    decreases |b|
  {
    if b == [] {
      assert a + b == a;
    } else {
      var b' := b[..|b| - 1];
      assert (a + b)[..|a + b| - 1] == a + b';
      LevelsOfAppend(cfg, a, b', x);
    }
  }

  lemma {:induction false} NamesAppend(cfg: Config, a: seq<nat>, b: seq<nat>)
    requires ValidIndices(cfg, a) && ValidIndices(cfg, b)
    ensures ValidIndices(cfg, a + b)
    ensures Names(cfg, a + b) == Names(cfg, a) + Names(cfg, b)
    decreases |b|
  {
    if b == [] {
      assert a + b == a;
    } else {
      var b' := b[..|b| - 1];
      assert (a + b)[..|a + b| - 1] == a + b';
      NamesAppend(cfg, a, b');
    }
  }

  /** A building is touched by `s` exactly when one of the rows of `s` belongs to it. */
  lemma {:induction false} NamesMember(cfg: Config, s: seq<nat>, x: string)
    requires ValidIndices(cfg, s)
    ensures x in Names(cfg, s) <==> exists k :: 0 <= k < |s| && cfg.table[s[k]].name == x
    ensures x !in Names(cfg, s) ==> LevelsOf(cfg, s, x) == []
  {
    if s != [] {
      var s' := s[..|s| - 1];
      NamesMember(cfg, s', x);
      if x in Names(cfg, s') {
        var k :| 0 <= k < |s'| && cfg.table[s'[k]].name == x;
        assert s[k] == s'[k];
      }
      if exists k :: 0 <= k < |s| && cfg.table[s[k]].name == x {
        var k :| 0 <= k < |s| && cfg.table[s[k]].name == x;
        if k < |s'| {
          assert s'[k] == s[k];
        }
      }
    }
  }

  /** The level of every row of `s` is among the levels of its building in `s`. */
  lemma {:induction false} LevelOccurs(cfg: Config, s: seq<nat>, k: nat)
    requires ValidIndices(cfg, s) && k < |s|
    ensures cfg.table[s[k]].level in LevelsOf(cfg, s, cfg.table[s[k]].name)
  {
    if k < |s| - 1 {
      var s' := s[..|s| - 1];
      assert s'[k] == s[k];
      LevelOccurs(cfg, s', k);
    }
  }

  /** Each level of `x` in `s` comes from a row of `s` that is that level of `x`. */
  lemma {:induction false} LevelWitness(cfg: Config, s: seq<nat>, x: string, l: nat)
    requires ValidIndices(cfg, s) && l in LevelsOf(cfg, s, x)
    ensures exists k :: 0 <= k < |s| && cfg.table[s[k]].name == x && cfg.table[s[k]].level == l
  {
    var s' := s[..|s| - 1];
    if l in LevelsOf(cfg, s', x) {
      LevelWitness(cfg, s', x, l);
      var k :| 0 <= k < |s'| && cfg.table[s'[k]].name == x && cfg.table[s'[k]].level == l;
      assert s[k] == s'[k];
    } else {
      assert cfg.table[s[|s| - 1]].name == x && cfg.table[s[|s| - 1]].level == l;
    }
  }

  lemma {:induction false} AppliedKeys(cfg: Config, cur: map<string, nat>, s: seq<nat>)
    requires ValidIndices(cfg, s) && Covers(cfg, cur)
    ensures Applied(cfg, cur, s).Keys == cur.Keys
    ensures Covers(cfg, Applied(cfg, cur, s))
  {
    if s != [] {
      AppliedKeys(cfg, cur, s[..|s| - 1]);
    }
  }

  /** A building that `s` does not touch keeps its level. */
  lemma {:induction false} AppliedFrame(cfg: Config, cur: map<string, nat>, s: seq<nat>, x: string)
    requires ValidIndices(cfg, s) && x in cur && x !in Names(cfg, s)
    ensures x in Applied(cfg, cur, s) && Applied(cfg, cur, s)[x] == cur[x]
  {
    if s != [] {
      AppliedFrame(cfg, cur, s[..|s| - 1], x);
    }
  }

  lemma {:induction false} AppliedAppend(cfg: Config, cur: map<string, nat>, a: seq<nat>, b: seq<nat>)
    requires ValidIndices(cfg, a) && ValidIndices(cfg, b)
    ensures ValidIndices(cfg, a + b)
    ensures Applied(cfg, cur, a + b) == Applied(cfg, Applied(cfg, cur, a), b)
    decreases |b|
  {
    if b == [] {
      assert a + b == a;
    } else {
      var b' := b[..|b| - 1];
      assert (a + b)[..|a + b| - 1] == a + b';
      AppliedAppend(cfg, cur, a, b');
    }
  }

  /** A prefix of a legal order is legal. */
  lemma LegalPrefix(cfg: Config, cur: map<string, nat>, a: seq<nat>, b: seq<nat>)
    requires Legal(cfg, cur, a + b) && ValidIndices(cfg, a) && ValidIndices(cfg, b)
    ensures Legal(cfg, cur, a)
  {
    forall x | x in cur
      ensures Consecutive(LevelsOf(cfg, a, x), cur[x])
    {
      LevelsOfAppend(cfg, a, b, x);
      var la := LevelsOf(cfg, a, x);
      assert forall k :: 0 <= k < |la| ==> la[k] == LevelsOf(cfg, a + b, x)[k];
    }
  }

  /** The first `m` rows of a legal order are a legal order. */
  lemma LegalTake(cfg: Config, cur: map<string, nat>, s: seq<nat>, m: nat)
    requires Legal(cfg, cur, s) && m <= |s|
    ensures Legal(cfg, cur, s[..m])
  {
    assert s == s[..m] + s[m..];
    LegalPrefix(cfg, cur, s[..m], s[m..]);
  }

  /** Applying a legal order raises each building by the number of its
      levels in the order, and keeps the set of buildings. */
  lemma {:induction false} AppliedLegal(cfg: Config, cur: map<string, nat>, s: seq<nat>)
    requires Legal(cfg, cur, s) && Covers(cfg, cur)
    ensures Applied(cfg, cur, s).Keys == cur.Keys
    ensures forall x :: x in cur ==> Applied(cfg, cur, s)[x] == cur[x] + |LevelsOf(cfg, s, x)|
  {
    AppliedKeys(cfg, cur, s);
    if s != [] {
      var s' := s[..|s| - 1];
      var y := s[|s| - 1];
      assert s == s' + [y];
      LegalPrefix(cfg, cur, s', [y]);
      AppliedLegal(cfg, cur, s');
      forall x | x in cur
        ensures Applied(cfg, cur, s)[x] == cur[x] + |LevelsOf(cfg, s, x)|
      {
        if cfg.table[y].name == x {
          var l := LevelsOf(cfg, s, x);
          assert l[|l| - 1] == cfg.table[y].level;
        }
      }
    }
  }

  /** Applying a legal order never lowers a level. */
  lemma AppliedGrows(cfg: Config, cur: map<string, nat>, s: seq<nat>)
    requires Legal(cfg, cur, s) && Covers(cfg, cur)
    ensures Applied(cfg, cur, s).Keys == cur.Keys
    ensures forall x :: x in cur ==> Applied(cfg, cur, s)[x] >= cur[x]
  {
    AppliedLegal(cfg, cur, s);
  }

  /** After a legal order is applied, every row of it is met. */
  lemma AppliedMeets(cfg: Config, cur: map<string, nat>, s: seq<nat>)
    requires Legal(cfg, cur, s) && Covers(cfg, cur)
    ensures Covers(cfg, Applied(cfg, cur, s))
    ensures forall k :: 0 <= k < |s| ==> Met(cfg, Applied(cfg, cur, s), s[k])
  {
    AppliedLegal(cfg, cur, s);
    AppliedKeys(cfg, cur, s);
    forall k | 0 <= k < |s|
      ensures Met(cfg, Applied(cfg, cur, s), s[k])
    {
      LevelOccurs(cfg, s, k);
    }
  }

  /** Two legal orders in a row are one legal order. */
  lemma LegalAppend(cfg: Config, cur: map<string, nat>, a: seq<nat>, b: seq<nat>)
    requires Covers(cfg, cur) && Legal(cfg, cur, a) && Legal(cfg, Applied(cfg, cur, a), b)
    ensures Legal(cfg, cur, a + b)
    ensures Applied(cfg, cur, a + b) == Applied(cfg, Applied(cfg, cur, a), b)
  {
    AppliedAppend(cfg, cur, a, b);
    AppliedLegal(cfg, cur, a);
    var mid := Applied(cfg, cur, a);
    forall x | x in cur
      ensures Consecutive(LevelsOf(cfg, a + b, x), cur[x])
    {
      LevelsOfAppend(cfg, a, b, x);
      assert x in mid;
      ConsecutiveJoin(LevelsOf(cfg, a, x), LevelsOf(cfg, b, x), cur[x]);
    }
  }

  lemma ConsecutiveJoin(la: seq<nat>, lb: seq<nat>, c: nat)
    requires Consecutive(la, c) && Consecutive(lb, c + |la|)
    ensures Consecutive(la + lb, c)
  {
  }

  /** A legal order stays legal when only buildings it does not touch change. */
  lemma LegalFrame(cfg: Config, cur: map<string, nat>, cur': map<string, nat>, s: seq<nat>)
    requires Covers(cfg, cur) && Legal(cfg, cur, s)
    requires forall x :: x in Names(cfg, s) ==> x in cur && x in cur' && cur'[x] == cur[x]
    ensures Legal(cfg, cur', s)
  {
    forall x | x in cur'
      ensures Consecutive(LevelsOf(cfg, s, x), cur'[x])
    {
      NamesMember(cfg, s, x);
      if x in Names(cfg, s) {
        var k :| 0 <= k < |s| && cfg.table[s[k]].name == x;
        assert x in cur;
      }
    }
  }

  // ---------------------------------------------------------------------
  // Prerequisites come first

  /** `hi` has every building of `lo`, each at the same or a higher level. */
  predicate Raised(lo: map<string, nat>, hi: map<string, nat>) {
    forall x :: x in lo ==> x in hi && lo[x] <= hi[x]
  }

  /** The declared prerequisites of row `i` hold in the level map `c`: when
      `i` is level 1 of a building that has prerequisites, every one of them
      is at or above its required level. */
  predicate PrereqsHold(cfg: Config, c: map<string, nat>, i: nat)
    requires i < |cfg.table|
  {
    var row := cfg.table[i];
    row.level == 1 && row.name in cfg.prereq ==>
      forall t :: 0 <= t < |cfg.prereq[row.name]| ==>
        cfg.prereq[row.name][t].0 in c && c[cfg.prereq[row.name][t].0] >= cfg.prereq[row.name][t].1
  }

  /** `s` never starts a building before its prerequisites: whenever a row
      of `s` is level 1 of a building with prerequisites, the rows before it,
      applied to `cur`, have brought each prerequisite to its required level. */
  predicate PrereqsFirst(cfg: Config, cur: map<string, nat>, s: seq<nat>) {
    && ValidIndices(cfg, s)
    && forall k {:trigger PrereqsHold(cfg, Applied(cfg, cur, s[..k]), s[k])} :: 0 <= k < |s| ==>
         PrereqsHold(cfg, Applied(cfg, cur, s[..k]), s[k])
  }

  /** Starting from higher levels ends at higher levels. */
  lemma {:induction false} AppliedRaised(cfg: Config, cur: map<string, nat>, cur': map<string, nat>, s: seq<nat>)
    requires ValidIndices(cfg, s) && Raised(cur, cur')
    ensures Raised(Applied(cfg, cur, s), Applied(cfg, cur', s))
  {
    if s != [] {
      AppliedRaised(cfg, cur, cur', s[..|s| - 1]);
    }
  }

  /** Prerequisites that hold keep holding when levels rise. */
  lemma HoldRaised(cfg: Config, c: map<string, nat>, c': map<string, nat>, i: nat)
    requires i < |cfg.table| && Raised(c, c') && PrereqsHold(cfg, c, i)
    ensures PrereqsHold(cfg, c', i)
  {
  }

  /** An order that puts prerequisites first still does so from higher
      starting levels. */
  lemma PrereqsFirstRaised(cfg: Config, cur: map<string, nat>, cur': map<string, nat>, s: seq<nat>)
    requires PrereqsFirst(cfg, cur, s) && Raised(cur, cur')
    ensures PrereqsFirst(cfg, cur', s)
  {
    forall k | 0 <= k < |s|
      ensures PrereqsHold(cfg, Applied(cfg, cur', s[..k]), s[k])
    {
      AppliedRaised(cfg, cur, cur', s[..k]);
      HoldRaised(cfg, Applied(cfg, cur, s[..k]), Applied(cfg, cur', s[..k]), s[k]);
    }
  }

  /** Two orders that put prerequisites first, the second one from the
      levels the first leads to, are one such order. */
  lemma PrereqsFirstAppend(cfg: Config, cur: map<string, nat>, a: seq<nat>, b: seq<nat>)
    requires PrereqsFirst(cfg, cur, a) && PrereqsFirst(cfg, Applied(cfg, cur, a), b)
    ensures PrereqsFirst(cfg, cur, a + b)
  {
    AppliedAppend(cfg, cur, a, []);
    forall k | 0 <= k < |a + b|
      ensures PrereqsHold(cfg, Applied(cfg, cur, (a + b)[..k]), (a + b)[k])
    {
      PrereqsAppendAt(cfg, cur, a, b, k);
    }
  }

  /** One row of `a + b` in `PrereqsFirstAppend`. */
  lemma PrereqsAppendAt(cfg: Config, cur: map<string, nat>, a: seq<nat>, b: seq<nat>, k: nat)
    requires PrereqsFirst(cfg, cur, a) && PrereqsFirst(cfg, Applied(cfg, cur, a), b)
    requires k < |a + b| && ValidIndices(cfg, a + b)
    ensures PrereqsHold(cfg, Applied(cfg, cur, (a + b)[..k]), (a + b)[k])
  {
    TakeAppend(a, b, k);
    if k >= |a| {
      AppliedAppend(cfg, cur, a, b[..k - |a|]);
    }
  }

  /** The first `k` elements of `a + b`, and the `k`-th, in terms of `a` and `b`. */
  lemma TakeAppend(a: seq<nat>, b: seq<nat>, k: nat)
    requires k < |a + b|
    ensures k < |a| ==> (a + b)[..k] == a[..k] && (a + b)[k] == a[k]
    ensures k >= |a| ==> (a + b)[..k] == a + b[..k - |a|] && (a + b)[k] == b[k - |a|]
  {
    if k >= |a| {
      assert (a + b)[..k] == a + b[..k - |a|];
    } else {
      assert (a + b)[..k] == a[..k];
    }
  }

  /** The levels of `x` in a legal order that contains every row of another
      legal order from the same levels are at least as many. */
  lemma SubsetCount(cfg: Config, cur: map<string, nat>, s: seq<nat>, t: seq<nat>, x: string)
    requires Legal(cfg, cur, s) && Legal(cfg, cur, t) && x in cur
    requires forall y :: y in s ==> y in t
    ensures |LevelsOf(cfg, s, x)| <= |LevelsOf(cfg, t, x)|
  {
    var ls, lt := LevelsOf(cfg, s, x), LevelsOf(cfg, t, x);
    if ls != [] {
      var l := ls[|ls| - 1];
      LevelWitness(cfg, s, x, l);
      var k :| 0 <= k < |s| && cfg.table[s[k]].name == x && cfg.table[s[k]].level == l;
      assert s[k] in t;
      var m :| 0 <= m < |t| && t[m] == s[k];
      LevelOccurs(cfg, t, m);
      var u :| 0 <= u < |lt| && lt[u] == l;
    }
  }

  /** From the same levels, a legal order that contains every row of
      another legal order raises every building at least as far. */
  lemma AppliedSubset(cfg: Config, cur: map<string, nat>, s: seq<nat>, t: seq<nat>)
    requires Covers(cfg, cur) && Legal(cfg, cur, s) && Legal(cfg, cur, t)
    requires forall y :: y in s ==> y in t
    ensures Raised(Applied(cfg, cur, s), Applied(cfg, cur, t))
  {
    AppliedLegal(cfg, cur, s);
    AppliedLegal(cfg, cur, t);
    forall x | x in cur
      ensures |LevelsOf(cfg, s, x)| <= |LevelsOf(cfg, t, x)|
    {
      SubsetCount(cfg, cur, s, t, x);
    }
  }
}
