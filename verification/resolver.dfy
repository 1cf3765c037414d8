/** The dependency resolver `_find_build_order`: the ordered, de-duplicated
    list of table rows that must be built to bring a building to a target
    level, given the current level map. It only reads the level map. */
module Resolver {
  import opened CostTable

  /** The rows of levels `lo .. hi - 1` of building `n`, in increasing order
      (the source's `range(current_level[name] + 1, level)` loop). */
  function MissingLevels(cfg: Config, n: string, lo: nat, hi: nat): (r: seq<nat>)
    requires forall l :: lo <= l < hi ==> HasLevel(cfg, n, l)
    ensures |r| == if lo < hi then hi - lo else 0
    decreases hi - lo
  {
    if lo >= hi then []
    else
      assert HasLevel(cfg, n, lo);
      [cfg.index[(n, lo)]] + MissingLevels(cfg, n, lo + 1, hi)
  }

  /** `acc` followed by the rows of `c` that are not already present, in
      first-seen order. In the source the `added_buildings` set holds exactly
      the rows appended so far, so membership in `acc` is the same test. */
  function AppendNew(acc: seq<nat>, c: seq<nat>): (r: seq<nat>)
    ensures |acc| <= |r| <= |acc| + |c|
    decreases |c|
  {
    if c == [] then acc
    else AppendNew(if c[0] in acc then acc else acc + [c[0]], c[1..])
  }

  /** The prerequisite chains of the first `k` prerequisites of `n`, in
      declaration order, merged without repetition. */
  function Merged(cfg: ValidConfig, cur: map<string, nat>, n: string, k: nat): (r: seq<nat>)
    requires Covers(cfg, cur)
    requires n in cfg.prereq && k <= |cfg.prereq[n]|
    ensures ValidIndices(cfg, r)
    decreases cfg.rank[n], 0, k
  {
    if k == 0 then []
    else
      var p := cfg.prereq[n][k - 1];
      assert HasLevel(cfg, p.0, p.1);
      var j := cfg.index[(p.0, p.1)];
      var acc := Merged(cfg, cur, n, k - 1);
      var chain := Resolve(cfg, cur, j);
      AppendNewValid(cfg, acc, chain);
      AppendNew(acc, chain)
  }

  /** `_find_build_order`: the rows needed to reach row `i`. Empty when row
      `i` is already met; otherwise (when the building is at level 0 and has
      prerequisites) the merged prerequisite chains, then the building's
      missing lower levels, then `i` itself. */
  function Resolve(cfg: ValidConfig, cur: map<string, nat>, i: nat): (r: seq<nat>)
    requires Covers(cfg, cur) && i < |cfg.table|
    ensures ValidIndices(cfg, r)
    ensures r == [] <==> Met(cfg, cur, i)
    ensures r != [] ==> r[|r| - 1] == i
    ensures cur[cfg.table[i].name] > 0 && cfg.table[i].level == cur[cfg.table[i].name] + 1 ==> r == [i]
    decreases cfg.rank[cfg.table[i].name], 1, 0
  {
    var row := cfg.table[i];
    var c := cur[row.name];
    if row.level <= c then []
    else
      var early :=
        if c == 0 || row.level > c + 1 then
          (if row.name in cfg.prereq && c == 0
           then Merged(cfg, cur, row.name, |cfg.prereq[row.name]|)
           else [])
          + MissingLevels(cfg, row.name, c + 1, row.level)
        else [];
      MissingLevelsRows(cfg, row.name, c + 1, row.level);
      early + [i]
  }

  // ---------------------------------------------------------------------
  // Helper facts

  /** The position of the first occurrence of `y` in `s`. */
  function FirstIndex(s: seq<nat>, y: nat): (k: nat)
    requires y in s
    ensures k < |s| && s[k] == y && y !in s[..k]
  {
    if s[0] == y then 0
    else
      var k' := FirstIndex(s[1..], y);
      assert s[..k' + 1] == [s[0]] + s[1..][..k'];
      k' + 1
  }

  /** The merge keeps `acc` as its prefix and appends exactly the rows of
      `c` that `acc` lacks, each once, in the order of their first
      occurrence in `c`. */
  lemma AppendNewElements(acc: seq<nat>, c: seq<nat>)
    ensures |AppendNew(acc, c)| >= |acc| && AppendNew(acc, c)[..|acc|] == acc
    ensures forall y :: y in AppendNew(acc, c) ==> y in acc || y in c
    ensures forall y :: y in c ==> y in AppendNew(acc, c)
    ensures forall a :: |acc| <= a < |AppendNew(acc, c)| ==> AppendNew(acc, c)[a] !in acc && AppendNew(acc, c)[a] in c
    ensures forall a, b :: |acc| <= a < b < |AppendNew(acc, c)| ==>
      FirstIndex(c, AppendNew(acc, c)[a]) < FirstIndex(c, AppendNew(acc, c)[b])
    ensures NoDup(acc) ==> NoDup(AppendNew(acc, c))
  {
    AppendNewKeeps(acc, c);
    AppendNewFirstSeen(acc, c);
  }

  /** The merge keeps `acc` as its prefix, holds exactly the rows of `acc`
      and `c`, and repeats none when `acc` repeats none. */
  lemma {:induction false} AppendNewKeeps(acc: seq<nat>, c: seq<nat>)
    ensures |AppendNew(acc, c)| >= |acc| && AppendNew(acc, c)[..|acc|] == acc
    ensures forall y :: y in AppendNew(acc, c) ==> y in acc || y in c
    ensures forall y :: y in c ==> y in AppendNew(acc, c)
    ensures NoDup(acc) ==> NoDup(AppendNew(acc, c))
    decreases |c|
  {
    if c != [] {
      var acc' := if c[0] in acc then acc else acc + [c[0]];
      var r := AppendNew(acc', c[1..]);
      AppendNewKeeps(acc', c[1..]);
      assert acc'[..|acc|] == acc;
      assert c[0] in acc' && r[..|acc'|] == acc';
      forall y | y in acc'
        ensures y in acc || y in c
      {
      }
      forall y | y in c
        ensures y in r
      {
        if y != c[0] {
          assert y in c[1..];
        }
      }
    }
  }

  /** The rows the merge appends are rows of `c` missing from `acc`, in the
      order of their first occurrence in `c`. */
  lemma {:induction false} AppendNewFirstSeen(acc: seq<nat>, c: seq<nat>)
    ensures |AppendNew(acc, c)| >= |acc|
    ensures forall a :: |acc| <= a < |AppendNew(acc, c)| ==> AppendNew(acc, c)[a] !in acc && AppendNew(acc, c)[a] in c
    ensures forall a, b :: |acc| <= a < b < |AppendNew(acc, c)| ==>
      FirstIndex(c, AppendNew(acc, c)[a]) < FirstIndex(c, AppendNew(acc, c)[b])
    decreases |c|
  {
    if c != [] {
      var acc' := if c[0] in acc then acc else acc + [c[0]];
      var r := AppendNew(acc', c[1..]);
      AppendNewFirstSeen(acc', c[1..]);
      AppendNewKeeps(acc', c[1..]);
      assert c[0] in acc' && r[..|acc'|] == acc';
      if c[0] !in acc {
        assert r[|acc|] == r[..|acc'|][|acc|];
      }
      forall a | |acc| <= a < |r|
        ensures r[a] !in acc && r[a] in c
      {
      }
      forall a, b | |acc| <= a < b < |r|
        ensures FirstIndex(c, r[a]) < FirstIndex(c, r[b])
      {
        AppendNewTailIndex(c, r[b]);
        if a >= |acc'| {
          AppendNewTailIndex(c, r[a]);
        }
      }
    }
  }

  /** A row other than the head of `c` is first found one step later in `c`
      than in its tail. */
  lemma AppendNewTailIndex(c: seq<nat>, y: nat)
    requires c != [] && y in c && y != c[0]
    ensures y in c[1..] && FirstIndex(c, y) == FirstIndex(c[1..], y) + 1
  {
  }

  /** The first occurrence of a row comes no later than any occurrence. */
  lemma FirstIndexLeast(c: seq<nat>, u: nat)
    requires u < |c|
    ensures FirstIndex(c, c[u]) <= u
  {
  }

  /** Every row of `c` before the first occurrence of a newly appended row
      already precedes that row in the merge. */
  lemma AppendNewBefore(acc: seq<nat>, c: seq<nat>, a: nat)
    requires |acc| <= a < |AppendNew(acc, c)|
    ensures AppendNew(acc, c)[a] in c
    ensures var m := FirstIndex(c, AppendNew(acc, c)[a]);
      forall y :: y in c[..m] ==> y in AppendNew(acc, c)[..a]
  {
    AppendNewElements(acc, c);
    var r := AppendNew(acc, c);
    var m := FirstIndex(c, r[a]);
    forall y | y in c[..m]
      ensures y in r[..a]
    {
      var u :| 0 <= u < m && c[u] == y;
      AppendNewBeforeOne(acc, c, a, u);
    }
  }

  /** One row of `c` before the first occurrence of a newly appended row. */
  lemma AppendNewBeforeOne(acc: seq<nat>, c: seq<nat>, a: nat, u: nat)
    requires |acc| <= a < |AppendNew(acc, c)|
    requires AppendNew(acc, c)[a] in c && u < FirstIndex(c, AppendNew(acc, c)[a])
    ensures c[u] in AppendNew(acc, c)[..a]
  {
    AppendNewElements(acc, c);
    var r := AppendNew(acc, c);
    FirstIndexLeast(c, u);
    if c[u] in acc {
      assert r[..a][..|acc|] == acc;
    } else {
      var b :| 0 <= b < |r| && r[b] == c[u];
      assert r[..|acc|] == acc;
      assert b >= |acc|;
      AppendNewRank(acc, c, b, a);
      assert r[..a][b] == c[u];
    }
  }

  /** Of two appended rows, the one first seen earlier in `c` sits earlier
      in the merge. */
  lemma AppendNewRank(acc: seq<nat>, c: seq<nat>, a: nat, b: nat)
    requires |acc| <= a < |AppendNew(acc, c)| && |acc| <= b < |AppendNew(acc, c)|
    requires AppendNew(acc, c)[a] in c && AppendNew(acc, c)[b] in c
    requires FirstIndex(c, AppendNew(acc, c)[a]) < FirstIndex(c, AppendNew(acc, c)[b])
    ensures a < b
  {
    AppendNewElements(acc, c);
  }


  lemma {:induction false} AppendNewValid(cfg: Config, acc: seq<nat>, c: seq<nat>)
    requires ValidIndices(cfg, acc) && ValidIndices(cfg, c)
    ensures ValidIndices(cfg, AppendNew(acc, c))
    decreases |c|
  {
    if c != [] {
      AppendNewValid(cfg, if c[0] in acc then acc else acc + [c[0]], c[1..]);
    }
  }

  /** The missing levels of `n` between `lo` and `hi` are the rows of `n`
      with levels `lo, lo + 1, ...`. */
  lemma {:induction false} MissingLevelsRows(cfg: ValidConfig, n: string, lo: nat, hi: nat)
    requires forall l :: lo <= l < hi ==> HasLevel(cfg, n, l)
    ensures var r := MissingLevels(cfg, n, lo, hi);
      && ValidIndices(cfg, r)
      && |r| == (if lo <= hi then hi - lo else 0)
      && forall k :: 0 <= k < |r| ==> cfg.table[r[k]].name == n && cfg.table[r[k]].level == lo + k
    decreases hi - lo
  {
    if lo < hi {
      MissingLevelsRows(cfg, n, lo + 1, hi);
      assert HasLevel(cfg, n, lo);
    }
  }

  /** A sequence of consecutive levels of one building is legal from the level below it. */
  lemma {:induction false} SingleBuildingLevels(cfg: Config, s: seq<nat>, n: string, c: nat)
    requires ValidIndices(cfg, s)
    requires forall k :: 0 <= k < |s| ==> cfg.table[s[k]].name == n && cfg.table[s[k]].level == c + 1 + k
    ensures Consecutive(LevelsOf(cfg, s, n), c) && |LevelsOf(cfg, s, n)| == |s|
    ensures NoDup(s)
  {
    if s != [] {
      SingleBuildingLevels(cfg, s[..|s| - 1], n, c);
    }
  }

  /** Per building: merging a chain into an accumulator, both consecutive
      from the same level, keeps the accumulator's levels consecutive. */
  lemma {:induction false} AppendNewRun(cfg: Config, acc: seq<nat>, c: seq<nat>, x: string, base: nat, m: nat)
    requires UniqueRows(cfg) && ValidIndices(cfg, acc) && ValidIndices(cfg, c)
    requires Consecutive(LevelsOf(cfg, acc, x), base)
    requires Consecutive(LevelsOf(cfg, c, x), m)
    requires base <= m <= base + |LevelsOf(cfg, acc, x)|
    ensures ValidIndices(cfg, AppendNew(acc, c))
    ensures Consecutive(LevelsOf(cfg, AppendNew(acc, c), x), base)
    decreases |c|
  {
    AppendNewValid(cfg, acc, c);
    if c != [] {
      var acc', m' := MergeStepLevels(cfg, acc, c, x, base, m);
      AppendNewRun(cfg, acc', c[1..], x, base, m');
    }
  }

  /** Per building: merging a chain into an accumulator, both consecutive
      from the same level, yields the longer of the two runs. */
  lemma {:induction false} AppendNewCount(cfg: Config, acc: seq<nat>, c: seq<nat>, x: string, base: nat, m: nat)
    requires UniqueRows(cfg) && ValidIndices(cfg, acc) && ValidIndices(cfg, c)
    requires Consecutive(LevelsOf(cfg, acc, x), base)
    requires Consecutive(LevelsOf(cfg, c, x), m)
    requires base <= m <= base + |LevelsOf(cfg, acc, x)|
    ensures ValidIndices(cfg, AppendNew(acc, c))
    ensures |LevelsOf(cfg, AppendNew(acc, c), x)| >= |LevelsOf(cfg, acc, x)|
    ensures base + |LevelsOf(cfg, AppendNew(acc, c), x)| >= m + |LevelsOf(cfg, c, x)|
    decreases |c|
  {
    AppendNewValid(cfg, acc, c);
    if c != [] {
      var acc', m' := MergeStepLevels(cfg, acc, c, x, base, m);
      AppendNewCount(cfg, acc', c[1..], x, base, m');
    }
  }

  /** One step of the merge, seen from building `x`. */
  lemma MergeStepLevels(cfg: Config, acc: seq<nat>, c: seq<nat>, x: string, base: nat, m: nat)
      returns (acc': seq<nat>, m': nat)
    requires UniqueRows(cfg) && ValidIndices(cfg, acc) && ValidIndices(cfg, c) && c != []
    requires Consecutive(LevelsOf(cfg, acc, x), base)
    requires Consecutive(LevelsOf(cfg, c, x), m)
    requires base <= m <= base + |LevelsOf(cfg, acc, x)|
    ensures AppendNew(acc, c) == AppendNew(acc', c[1..])
    ensures ValidIndices(cfg, acc') && ValidIndices(cfg, c[1..])
    ensures Consecutive(LevelsOf(cfg, acc', x), base)
    ensures Consecutive(LevelsOf(cfg, c[1..], x), m')
    ensures base <= m' <= base + |LevelsOf(cfg, acc', x)|
    ensures |LevelsOf(cfg, acc', x)| >= |LevelsOf(cfg, acc, x)|
    ensures m' + |LevelsOf(cfg, c[1..], x)| == m + |LevelsOf(cfg, c, x)|
  {
    var y := c[0];
    acc' := if y in acc then acc else acc + [y];
    m' := ChainHead(cfg, c, x, m);
    AccumulatorStep(cfg, acc, y, x, base);
    if cfg.table[y].name == x && y !in acc {
      ConsecutiveSnoc(LevelsOf(cfg, acc, x), base);
    }
  }

  lemma ConsecutiveSnoc(l: seq<nat>, base: nat)
    requires Consecutive(l, base)
    ensures Consecutive(l + [base + 1 + |l|], base)
  {
  }

  /** The first row of a chain that is consecutive from `m`: if it belongs
      to `x` it is level `m + 1` and the rest is consecutive from `m + 1`. */
  lemma ChainHead(cfg: Config, c: seq<nat>, x: string, m: nat) returns (m': nat)
    requires ValidIndices(cfg, c) && c != [] && Consecutive(LevelsOf(cfg, c, x), m)
    ensures ValidIndices(cfg, c[1..]) && Consecutive(LevelsOf(cfg, c[1..], x), m')
    ensures cfg.table[c[0]].name == x ==>
      && cfg.table[c[0]].level == m + 1 && m' == m + 1
      && |LevelsOf(cfg, c[1..], x)| + 1 == |LevelsOf(cfg, c, x)|
    ensures cfg.table[c[0]].name != x ==> m' == m && LevelsOf(cfg, c[1..], x) == LevelsOf(cfg, c, x)
  {
    var y, c' := c[0], c[1..];
    assert c == [y] + c';
    LevelsOfAppend(cfg, [y], c', x);
    assert [y][..0] == [];
    var lc := LevelsOf(cfg, c, x);
    if cfg.table[y].name == x {
      assert lc == [cfg.table[y].level] + LevelsOf(cfg, c', x);
      assert lc[0] == m + 1;
      m' := m + 1;
      ConsecutiveTail(m + 1, LevelsOf(cfg, c', x), m);
    } else {
      assert lc == LevelsOf(cfg, c', x);
      m' := m;
    }
  }

  /** What one more row `y` does to the accumulator's run of levels of `x`. */
  lemma AccumulatorStep(cfg: Config, acc: seq<nat>, y: nat, x: string, base: nat)
    requires UniqueRows(cfg) && ValidIndices(cfg, acc) && y < |cfg.table|
    requires Consecutive(LevelsOf(cfg, acc, x), base)
    ensures ValidIndices(cfg, acc + [y])
    ensures cfg.table[y].name != x ==> LevelsOf(cfg, acc + [y], x) == LevelsOf(cfg, acc, x)
    ensures cfg.table[y].name == x && base < cfg.table[y].level <= base + |LevelsOf(cfg, acc, x)| ==> y in acc
    ensures cfg.table[y].name == x && y in acc ==> cfg.table[y].level <= base + |LevelsOf(cfg, acc, x)|
    ensures cfg.table[y].name == x && cfg.table[y].level == base + |LevelsOf(cfg, acc, x)| + 1 ==>
      && y !in acc
      && LevelsOf(cfg, acc + [y], x) == LevelsOf(cfg, acc, x) + [cfg.table[y].level]
  {
    var la := LevelsOf(cfg, acc, x);
    assert (acc + [y])[..|acc|] == acc;
    var l := cfg.table[y].level;
    if cfg.table[y].name == x && base < l <= base + |la| {
      assert la[l - base - 1] == l;
      LevelWitness(cfg, acc, x, l);
      var k :| 0 <= k < |acc| && cfg.table[acc[k]].name == x && cfg.table[acc[k]].level == l;
      assert acc[k] == y;
    }
    if cfg.table[y].name == x && y in acc {
      var k :| 0 <= k < |acc| && acc[k] == y;
      LevelOccurs(cfg, acc, k);
    }
  }

  lemma ConsecutiveTail(h: nat, t: seq<nat>, m: nat)
    requires Consecutive([h] + t, m)
    ensures Consecutive(t, m + 1)
  {
    assert forall k :: 0 <= k < |t| ==> t[k] == ([h] + t)[k + 1];
  }

  /** Merging a legal chain into a legal accumulator keeps it legal. */
  lemma AppendNewLegal(cfg: ValidConfig, cur: map<string, nat>, acc: seq<nat>, c: seq<nat>)
    requires Legal(cfg, cur, acc) && Legal(cfg, cur, c)
    ensures Legal(cfg, cur, AppendNew(acc, c))
  {
    ValidUnique(cfg);
    AppendNewValid(cfg, acc, c);
    forall x | x in cur
      ensures Consecutive(LevelsOf(cfg, AppendNew(acc, c), x), cur[x])
    {
      AppendNewRun(cfg, acc, c, x, cur[x], cur[x]);
    }
  }

  // ---------------------------------------------------------------------
  // The shape of the resolver's result

  /** Every row of `s` belongs to a building of rank below `bound`. */
  ghost predicate RankedBelow(cfg: Config, s: seq<nat>, bound: nat)
    requires ValidIndices(cfg, s)
  {
    forall k :: 0 <= k < |s| ==>
      cfg.table[s[k]].name in cfg.rank && cfg.rank[cfg.table[s[k]].name] < bound
  }

  /** Every row of `s` belongs to building `n` or to a building of lower rank. */
  ghost predicate OwnOrBelow(cfg: Config, s: seq<nat>, n: string)
    requires ValidIndices(cfg, s) && n in cfg.rank
  {
    forall k :: 0 <= k < |s| ==>
      cfg.table[s[k]].name == n
      || (cfg.table[s[k]].name in cfg.rank && cfg.rank[cfg.table[s[k]].name] < cfg.rank[n])
  }

  /** The rows the resolver puts before the building's own levels: the
      merged prerequisite chains when the building is at level 0 and has
      prerequisites, nothing otherwise. */
  function Prior(cfg: ValidConfig, cur: map<string, nat>, i: nat): (r: seq<nat>)
    requires Covers(cfg, cur) && i < |cfg.table|
    ensures ValidIndices(cfg, r)
    ensures r != [] ==> cfg.table[i].name in cfg.prereq && cur[cfg.table[i].name] == 0
  {
    var n := cfg.table[i].name;
    if n in cfg.prereq && cur[n] == 0 then Merged(cfg, cur, n, |cfg.prereq[n]|) else []
  }

  /** The building's own missing levels followed by the target row. */
  function Own(cfg: ValidConfig, cur: map<string, nat>, i: nat): (r: seq<nat>)
    requires Covers(cfg, cur) && i < |cfg.table|
    ensures r != [] && r[|r| - 1] == i
    ensures !Met(cfg, cur, i) ==> |r| == cfg.table[i].level - cur[cfg.table[i].name]
  {
    var row := cfg.table[i];
    MissingLevels(cfg, row.name, cur[row.name] + 1, row.level) + [i]
  }

  /** The own rows of an unmet target are the levels `current + 1 .. level`
      of the target building, in increasing order. */
  lemma OwnRows(cfg: ValidConfig, cur: map<string, nat>, i: nat)
    requires Covers(cfg, cur) && i < |cfg.table| && !Met(cfg, cur, i)
    ensures var row := cfg.table[i]; var o := Own(cfg, cur, i);
      && ValidIndices(cfg, o)
      && |o| == row.level - cur[row.name]
      && forall k :: 0 <= k < |o| ==>
           cfg.table[o[k]].name == row.name && cfg.table[o[k]].level == cur[row.name] + 1 + k
  {
    var row := cfg.table[i];
    MissingLevelsRows(cfg, row.name, cur[row.name] + 1, row.level);
  }

  /** An unmet target resolves to the prior rows followed by its own rows. */
  lemma ResolveShape(cfg: ValidConfig, cur: map<string, nat>, i: nat)
    requires Covers(cfg, cur) && i < |cfg.table| && !Met(cfg, cur, i)
    ensures Resolve(cfg, cur, i) == Prior(cfg, cur, i) + Own(cfg, cur, i)
  {
    var row := cfg.table[i];
    var c := cur[row.name];
    if !(c == 0 || row.level > c + 1) {
      assert MissingLevels(cfg, row.name, c + 1, row.level) == [];
    }
  }

  /** A building that no row of `s` belongs to has no levels in `s`. */
  lemma NoLevelsOf(cfg: Config, s: seq<nat>, x: string)
    requires ValidIndices(cfg, s)
    requires forall k :: 0 <= k < |s| ==> cfg.table[s[k]].name != x
    ensures LevelsOf(cfg, s, x) == []
  {
    NamesMember(cfg, s, x);
  }

  // ---------------------------------------------------------------------
  // Ranks: prerequisite chains stay below the building they serve

  lemma JoinRanks(cfg: Config, prior: seq<nat>, own: seq<nat>, n: string)
    requires n in cfg.rank && ValidIndices(cfg, prior) && ValidIndices(cfg, own)
    requires RankedBelow(cfg, prior, cfg.rank[n])
    requires forall k :: 0 <= k < |own| ==> cfg.table[own[k]].name == n
    ensures ValidIndices(cfg, prior + own) && OwnOrBelow(cfg, prior + own, n)
  {
    var r := prior + own;
    forall k | 0 <= k < |r|
      ensures cfg.table[r[k]].name == n
        || (cfg.table[r[k]].name in cfg.rank && cfg.rank[cfg.table[r[k]].name] < cfg.rank[n])
    {
      if k < |prior| {
        assert r[k] == prior[k];
      } else {
        assert r[k] == own[k - |prior|];
      }
    }
  }

  lemma MergeRanks(cfg: Config, acc: seq<nat>, chain: seq<nat>, n: string, p: string)
    requires n in cfg.rank && p in cfg.rank && cfg.rank[p] < cfg.rank[n]
    requires ValidIndices(cfg, acc) && ValidIndices(cfg, chain)
    requires RankedBelow(cfg, acc, cfg.rank[n]) && OwnOrBelow(cfg, chain, p)
    ensures ValidIndices(cfg, AppendNew(acc, chain))
    ensures RankedBelow(cfg, AppendNew(acc, chain), cfg.rank[n])
  {
    AppendNewValid(cfg, acc, chain);
    AppendNewElements(acc, chain);
    var r := AppendNew(acc, chain);
    forall t | 0 <= t < |r|
      ensures cfg.table[r[t]].name in cfg.rank && cfg.rank[cfg.table[r[t]].name] < cfg.rank[n]
    {
      assert r[t] in acc || r[t] in chain;
      if r[t] in chain {
        var u :| 0 <= u < |chain| && chain[u] == r[t];
      } else {
        var u :| 0 <= u < |acc| && acc[u] == r[t];
      }
    }
  }

  /** Every row of the resolver's result is a level of the target building
      or of a building of lower rank. */
  lemma {:induction false} ResolveRanks(cfg: ValidConfig, cur: map<string, nat>, i: nat)
    requires Covers(cfg, cur) && i < |cfg.table|
    ensures cfg.table[i].name in cfg.rank
    ensures OwnOrBelow(cfg, Resolve(cfg, cur, i), cfg.table[i].name)
    decreases cfg.rank[cfg.table[i].name], 1, 0
  {
    var row := cfg.table[i];
    if !Met(cfg, cur, i) {
      ResolveShape(cfg, cur, i);
      OwnRows(cfg, cur, i);
      if row.name in cfg.prereq && cur[row.name] == 0 {
        MergedRanks(cfg, cur, row.name, |cfg.prereq[row.name]|);
      }
      JoinRanks(cfg, Prior(cfg, cur, i), Own(cfg, cur, i), row.name);
    }
  }

  /** The merged prerequisite chains of `n` touch only buildings of lower rank. */
  lemma {:induction false} MergedRanks(cfg: ValidConfig, cur: map<string, nat>, n: string, k: nat)
    requires Covers(cfg, cur)
    requires n in cfg.prereq && k <= |cfg.prereq[n]|
    ensures n in cfg.rank && RankedBelow(cfg, Merged(cfg, cur, n, k), cfg.rank[n])
    decreases cfg.rank[n], 0, k
  {
    if k > 0 {
      var j := MergedUnfold(cfg, cur, n, k);
      MergedRanks(cfg, cur, n, k - 1);
      ResolveRanks(cfg, cur, j);
      MergeRanks(cfg, Merged(cfg, cur, n, k - 1), Resolve(cfg, cur, j), n, cfg.table[j].name);
    }
  }

  // ---------------------------------------------------------------------
  // No repetition

  lemma JoinNoDup(cfg: Config, prior: seq<nat>, own: seq<nat>, n: string)
    requires ValidIndices(cfg, prior) && ValidIndices(cfg, own) && NoDup(prior) && NoDup(own)
    requires forall k :: 0 <= k < |prior| ==> cfg.table[prior[k]].name != n
    requires forall k :: 0 <= k < |own| ==> cfg.table[own[k]].name == n
    ensures NoDup(prior + own)
  {
    var r := prior + own;
    forall a, b | 0 <= a < b < |r|
      ensures r[a] != r[b]
    {
      if a < |prior| <= b {
        assert r[a] == prior[a] && r[b] == own[b - |prior|];
      } else if b < |prior| {
        assert r[a] == prior[a] && r[b] == prior[b];
      } else {
        assert r[a] == own[a - |prior|] && r[b] == own[b - |prior|];
      }
    }
  }

  /** The merged prerequisite chains repeat no row. */
  lemma {:induction false} MergedNoDup(cfg: ValidConfig, cur: map<string, nat>, n: string, k: nat)
    requires Covers(cfg, cur)
    requires n in cfg.prereq && k <= |cfg.prereq[n]|
    ensures NoDup(Merged(cfg, cur, n, k))
  {
    if k > 0 {
      var j := MergedUnfold(cfg, cur, n, k);
      MergedNoDup(cfg, cur, n, k - 1);
      AppendNewElements(Merged(cfg, cur, n, k - 1), Resolve(cfg, cur, j));
    }
  }

  /** The prior rows repeat no row and touch no level of the target building. */
  lemma PriorNoDup(cfg: ValidConfig, cur: map<string, nat>, i: nat)
    requires Covers(cfg, cur) && i < |cfg.table|
    ensures ValidIndices(cfg, Prior(cfg, cur, i)) && NoDup(Prior(cfg, cur, i))
    ensures forall k :: 0 <= k < |Prior(cfg, cur, i)| ==> cfg.table[Prior(cfg, cur, i)[k]].name != cfg.table[i].name
  {
    var n := cfg.table[i].name;
    if n in cfg.prereq && cur[n] == 0 {
      var prior := Merged(cfg, cur, n, |cfg.prereq[n]|);
      MergedNoDup(cfg, cur, n, |cfg.prereq[n]|);
      MergedRanks(cfg, cur, n, |cfg.prereq[n]|);
      RankedBelowOthers(cfg, prior, n);
    }
  }

  /** The resolver's result repeats no row. */
  lemma ResolveNoDup(cfg: ValidConfig, cur: map<string, nat>, i: nat)
    requires Covers(cfg, cur) && i < |cfg.table|
    ensures NoDup(Resolve(cfg, cur, i))
  {
    if !Met(cfg, cur, i) {
      ResolveShape(cfg, cur, i);
      UnmetNoDup(cfg, cur, i);
    }
  }

  lemma UnmetNoDup(cfg: ValidConfig, cur: map<string, nat>, i: nat)
    requires Covers(cfg, cur) && i < |cfg.table| && !Met(cfg, cur, i)
    ensures NoDup(Prior(cfg, cur, i) + Own(cfg, cur, i))
  {
    var row := cfg.table[i];
    OwnRows(cfg, cur, i);
    PriorNoDup(cfg, cur, i);
    var prior, own := Prior(cfg, cur, i), Own(cfg, cur, i);
    SingleBuildingLevels(cfg, own, row.name, cur[row.name]);
    JoinNoDup(cfg, prior, own, row.name);
  }

  // ---------------------------------------------------------------------
  // Legality

  /** The rows of `s` all belong to buildings other than `n`. */
  lemma RankedBelowOthers(cfg: Config, s: seq<nat>, n: string)
    requires n in cfg.rank && ValidIndices(cfg, s) && RankedBelow(cfg, s, cfg.rank[n])
    ensures forall k :: 0 <= k < |s| ==> cfg.table[s[k]].name != n
  {
  }

  lemma JoinLegal(cfg: Config, cur: map<string, nat>, prior: seq<nat>, own: seq<nat>, n: string)
    requires n in cur && ValidIndices(cfg, own) && Legal(cfg, cur, prior)
    requires forall k :: 0 <= k < |prior| ==> cfg.table[prior[k]].name != n
    requires forall k :: 0 <= k < |own| ==>
      cfg.table[own[k]].name == n && cfg.table[own[k]].level == cur[n] + 1 + k
    ensures Legal(cfg, cur, prior + own)
  {
    SingleBuildingLevels(cfg, own, n, cur[n]);
    forall x | x in cur
      ensures Consecutive(LevelsOf(cfg, prior + own, x), cur[x])
    {
      LevelsOfAppend(cfg, prior, own, x);
      if x == n {
        NoLevelsOf(cfg, prior, x);
      } else {
        NoLevelsOf(cfg, own, x);
      }
    }
  }

  lemma JoinCount(cfg: Config, prior: seq<nat>, own: seq<nat>, n: string)
    requires ValidIndices(cfg, prior) && ValidIndices(cfg, own)
    requires forall k :: 0 <= k < |prior| ==> cfg.table[prior[k]].name != n
    requires forall k :: 0 <= k < |own| ==> cfg.table[own[k]].name == n
    ensures |LevelsOf(cfg, prior + own, n)| == |own|
  {
    LevelsOfAppend(cfg, prior, own, n);
    NoLevelsOf(cfg, prior, n);
    OneBuildingCount(cfg, own, n);
  }

  lemma {:induction false} OneBuildingCount(cfg: Config, s: seq<nat>, n: string)
    requires ValidIndices(cfg, s)
    requires forall k :: 0 <= k < |s| ==> cfg.table[s[k]].name == n
    ensures |LevelsOf(cfg, s, n)| == |s|
  {
    if s != [] {
      OneBuildingCount(cfg, s[..|s| - 1], n);
    }
  }

  /** The resolver's result is a legal build order from the current levels:
      for every building, its levels in the result are the next ones after
      its current level, in increasing order with no gap. */
  lemma {:induction false} ResolveLegal(cfg: ValidConfig, cur: map<string, nat>, i: nat)
    requires Covers(cfg, cur) && i < |cfg.table|
    ensures Legal(cfg, cur, Resolve(cfg, cur, i))
    decreases cfg.rank[cfg.table[i].name], 1, 0
  {
    var n := cfg.table[i].name;
    if !Met(cfg, cur, i) {
      ResolveShape(cfg, cur, i);
      if n in cfg.prereq && cur[n] == 0 {
        MergedLegal(cfg, cur, n, |cfg.prereq[n]|);
      }
      UnmetLegal(cfg, cur, i);
    }
  }

  /** Legal prior rows followed by the own rows form a legal order. */
  lemma UnmetLegal(cfg: ValidConfig, cur: map<string, nat>, i: nat)
    requires Covers(cfg, cur) && i < |cfg.table| && !Met(cfg, cur, i)
    requires Legal(cfg, cur, Prior(cfg, cur, i))
    ensures Legal(cfg, cur, Prior(cfg, cur, i) + Own(cfg, cur, i))
  {
    var n := cfg.table[i].name;
    OwnRows(cfg, cur, i);
    PriorNoDup(cfg, cur, i);
    JoinLegal(cfg, cur, Prior(cfg, cur, i), Own(cfg, cur, i), n);
  }

  /** The merged prerequisite chains of `n` are a legal build order. */
  lemma {:induction false} MergedLegal(cfg: ValidConfig, cur: map<string, nat>, n: string, k: nat)
    requires Covers(cfg, cur)
    requires n in cfg.prereq && k <= |cfg.prereq[n]|
    ensures Legal(cfg, cur, Merged(cfg, cur, n, k))
    decreases cfg.rank[n], 0, k
  {
    if k > 0 {
      var j := MergedUnfold(cfg, cur, n, k);
      var acc, chain := Merged(cfg, cur, n, k - 1), Resolve(cfg, cur, j);
      MergedLegal(cfg, cur, n, k - 1);
      ResolveLegal(cfg, cur, j);
      AppendNewLegal(cfg, cur, acc, chain);
    }
  }

  // ---------------------------------------------------------------------
  // The target and its prerequisites are reached

  /** The resolver brings the target building from its current level
      exactly to the target level. */
  lemma ResolveReaches(cfg: ValidConfig, cur: map<string, nat>, i: nat)
    requires Covers(cfg, cur) && i < |cfg.table|
    ensures !Met(cfg, cur, i) ==>
      cur[cfg.table[i].name] + |LevelsOf(cfg, Resolve(cfg, cur, i), cfg.table[i].name)| == cfg.table[i].level
  {
    var row := cfg.table[i];
    if !Met(cfg, cur, i) {
      ResolveShape(cfg, cur, i);
      OwnRows(cfg, cur, i);
      if row.name in cfg.prereq && cur[row.name] == 0 {
        MergedRanks(cfg, cur, row.name, |cfg.prereq[row.name]|);
        RankedBelowOthers(cfg, Prior(cfg, cur, i), row.name);
      }
      JoinCount(cfg, Prior(cfg, cur, i), Own(cfg, cur, i), row.name);
    }
  }

  /** The resolver brings the target building to at least the target level. */
  lemma ResolveAtLeast(cfg: ValidConfig, cur: map<string, nat>, i: nat)
    requires Covers(cfg, cur) && i < |cfg.table|
    ensures cur[cfg.table[i].name] + |LevelsOf(cfg, Resolve(cfg, cur, i), cfg.table[i].name)| >= cfg.table[i].level
  {
    ResolveReaches(cfg, cur, i);
  }

  /** Merging keeps what the accumulator reaches for building `x`. */
  lemma ReachMergeAcc(cfg: ValidConfig, cur: map<string, nat>, acc: seq<nat>, chain: seq<nat>, x: string, need: nat)
    requires Legal(cfg, cur, acc) && Legal(cfg, cur, chain) && x in cur
    requires cur[x] + |LevelsOf(cfg, acc, x)| >= need
    ensures ValidIndices(cfg, AppendNew(acc, chain))
    ensures cur[x] + |LevelsOf(cfg, AppendNew(acc, chain), x)| >= need
  {
    ValidUnique(cfg);
    var la, lc := LevelsOf(cfg, acc, x), LevelsOf(cfg, chain, x);
    assert Consecutive(la, cur[x]) && Consecutive(lc, cur[x]);
    AppendNewCount(cfg, acc, chain, x, cur[x], cur[x]);
  }

  /** Merging keeps what the chain reaches for building `x`. */
  lemma ReachMergeChain(cfg: ValidConfig, cur: map<string, nat>, acc: seq<nat>, chain: seq<nat>, x: string, need: nat)
    requires Legal(cfg, cur, acc) && Legal(cfg, cur, chain) && x in cur
    requires cur[x] + |LevelsOf(cfg, chain, x)| >= need
    ensures ValidIndices(cfg, AppendNew(acc, chain))
    ensures cur[x] + |LevelsOf(cfg, AppendNew(acc, chain), x)| >= need
  {
    ValidUnique(cfg);
    var la, lc := LevelsOf(cfg, acc, x), LevelsOf(cfg, chain, x);
    assert Consecutive(la, cur[x]) && Consecutive(lc, cur[x]);
    AppendNewCount(cfg, acc, chain, x, cur[x], cur[x]);
  }

  /** The table row a declared prerequisite names. */
  lemma PrereqRow(cfg: ValidConfig, n: string, t: nat) returns (j: nat)
    requires n in cfg.prereq && t < |cfg.prereq[n]|
    ensures j < |cfg.table| && cfg.table[j].name == cfg.prereq[n][t].0 && cfg.table[j].level == cfg.prereq[n][t].1
  {
    var p := cfg.prereq[n][t];
    assert HasLevel(cfg, p.0, p.1);
    j := cfg.index[(p.0, p.1)];
  }

  /** One step of `Merged`: the chain of the `k`-th prerequisite, a row of
      a building of lower rank, merged into the first `k - 1`. */
  lemma MergedUnfold(cfg: ValidConfig, cur: map<string, nat>, n: string, k: nat) returns (j: nat)
    requires Covers(cfg, cur)
    requires n in cfg.prereq && 0 < k <= |cfg.prereq[n]|
    ensures j < |cfg.table| && cfg.table[j].name == cfg.prereq[n][k - 1].0
    ensures cfg.table[j].level == cfg.prereq[n][k - 1].1
    ensures n in cfg.rank && cfg.table[j].name in cfg.rank && cfg.rank[cfg.table[j].name] < cfg.rank[n]
    ensures Merged(cfg, cur, n, k) == AppendNew(Merged(cfg, cur, n, k - 1), Resolve(cfg, cur, j))
  {
    var p := cfg.prereq[n][k - 1];
    assert HasLevel(cfg, p.0, p.1);
    j := cfg.index[(p.0, p.1)];
  }

  /** The last step of `Merged`: the chain of the `k`-th prerequisite
      merged into the first `k - 1`, both legal. */
  lemma MergedStep(cfg: ValidConfig, cur: map<string, nat>, n: string, k: nat) returns (j: nat)
    requires Covers(cfg, cur)
    requires n in cfg.prereq && 0 < k <= |cfg.prereq[n]|
    ensures j < |cfg.table| && cfg.table[j].name == cfg.prereq[n][k - 1].0
    ensures cfg.table[j].level == cfg.prereq[n][k - 1].1
    ensures n in cfg.rank && cfg.table[j].name in cfg.rank && cfg.rank[cfg.table[j].name] < cfg.rank[n]
    ensures Merged(cfg, cur, n, k) == AppendNew(Merged(cfg, cur, n, k - 1), Resolve(cfg, cur, j))
    ensures Legal(cfg, cur, Merged(cfg, cur, n, k - 1)) && Legal(cfg, cur, Resolve(cfg, cur, j))
  {
    j := MergedUnfold(cfg, cur, n, k);
    MergedLegal(cfg, cur, n, k - 1);
    ResolveLegal(cfg, cur, j);
  }

  /** The merged chains of the first `k` prerequisites of `n` bring the
      `k`-th prerequisite to at least its required level. */
  lemma MergedReachesLast(cfg: ValidConfig, cur: map<string, nat>, n: string, k: nat)
    requires Covers(cfg, cur)
    requires n in cfg.prereq && 0 < k <= |cfg.prereq[n]|
    ensures cfg.prereq[n][k - 1].0 in cur
    ensures cur[cfg.prereq[n][k - 1].0] + |LevelsOf(cfg, Merged(cfg, cur, n, k), cfg.prereq[n][k - 1].0)|
            >= cfg.prereq[n][k - 1].1
  {
    var j := MergedStep(cfg, cur, n, k);
    ResolveAtLeast(cfg, cur, j);
    ReachMergeChain(cfg, cur, Merged(cfg, cur, n, k - 1), Resolve(cfg, cur, j), cfg.table[j].name, cfg.table[j].level);
  }

  /** The merged chains of the first `k` prerequisites of `n` bring the
      `t`-th prerequisite to at least its required level. */
  lemma {:induction false} MergedReaches(cfg: ValidConfig, cur: map<string, nat>, n: string, k: nat, t: nat)
    requires Covers(cfg, cur)
    requires n in cfg.prereq && t < k <= |cfg.prereq[n]|
    ensures cfg.prereq[n][t].0 in cur
    ensures cur[cfg.prereq[n][t].0] + |LevelsOf(cfg, Merged(cfg, cur, n, k), cfg.prereq[n][t].0)|
            >= cfg.prereq[n][t].1
  {
    var j := PrereqRow(cfg, n, t);
    var x, need := cfg.table[j].name, cfg.table[j].level;
    assert x in cur;
    if t == k - 1 {
      MergedReachesLast(cfg, cur, n, k);
    } else {
      MergedReaches(cfg, cur, n, k - 1, t);
      MergedKeepsReach(cfg, cur, n, k, x, need);
    }
  }

  /** Merging one more chain keeps what the earlier chains reach. */
  lemma MergedKeepsReach(cfg: ValidConfig, cur: map<string, nat>, n: string, k: nat, x: string, need: nat)
    requires Covers(cfg, cur) && x in cur
    requires n in cfg.prereq && 0 < k <= |cfg.prereq[n]|
    requires cur[x] + |LevelsOf(cfg, Merged(cfg, cur, n, k - 1), x)| >= need
    ensures cur[x] + |LevelsOf(cfg, Merged(cfg, cur, n, k), x)| >= need
  {
    var j := MergedStep(cfg, cur, n, k);
    ReachMergeAcc(cfg, cur, Merged(cfg, cur, n, k - 1), Resolve(cfg, cur, j), x, need);
  }

  // ---------------------------------------------------------------------
  // Summary

  /** Building the prior rows first brings every declared prerequisite of
      the target building to at least its required level, so the target's
      own levels come after their prerequisites. */
  lemma ResolvePrereqsFirst(cfg: ValidConfig, cur: map<string, nat>, i: nat, t: nat)
    requires Covers(cfg, cur) && i < |cfg.table| && !Met(cfg, cur, i)
    requires cfg.table[i].name in cfg.prereq && cur[cfg.table[i].name] == 0
    requires t < |cfg.prereq[cfg.table[i].name]|
    ensures ValidIndices(cfg, Prior(cfg, cur, i))
    ensures Resolve(cfg, cur, i)[..|Prior(cfg, cur, i)|] == Prior(cfg, cur, i)
    ensures var q := cfg.prereq[cfg.table[i].name][t];
      q.0 in Applied(cfg, cur, Prior(cfg, cur, i)) && Applied(cfg, cur, Prior(cfg, cur, i))[q.0] >= q.1
  {
    var n := cfg.table[i].name;
    var k := |cfg.prereq[n]|;
    ResolveShape(cfg, cur, i);
    MergedLegal(cfg, cur, n, k);
    MergedReaches(cfg, cur, n, k, t);
    AppliedLegal(cfg, cur, Prior(cfg, cur, i));
    assert (Prior(cfg, cur, i) + Own(cfg, cur, i))[..|Prior(cfg, cur, i)|] == Prior(cfg, cur, i);
  }

  /** Building the resolver's rows in order meets the target row. */
  lemma ResolveMeetsTarget(cfg: ValidConfig, cur: map<string, nat>, i: nat)
    requires Covers(cfg, cur) && i < |cfg.table|
    ensures Covers(cfg, Applied(cfg, cur, Resolve(cfg, cur, i)))
    ensures Met(cfg, Applied(cfg, cur, Resolve(cfg, cur, i)), i)
  {
    var r := Resolve(cfg, cur, i);
    ResolveLegal(cfg, cur, i);
    AppliedMeets(cfg, cur, r);
    if r != [] {
      assert Met(cfg, Applied(cfg, cur, r), r[|r| - 1]);
    }
  }

  // ---------------------------------------------------------------------
  // Prerequisites come first

  /** A row the merge appends comes after every row that precedes its first
      occurrence in `c`, so its prerequisites hold before it at least as
      well as they do in `c`. */
  lemma AppendNewRowPrereqs(cfg: ValidConfig, cur: map<string, nat>, acc: seq<nat>, c: seq<nat>, a: nat)
    requires Covers(cfg, cur) && Legal(cfg, cur, c) && Legal(cfg, cur, AppendNew(acc, c))
    requires PrereqsFirst(cfg, cur, c)
    requires |acc| <= a < |AppendNew(acc, c)|
    ensures PrereqsHold(cfg, Applied(cfg, cur, AppendNew(acc, c)[..a]), AppendNew(acc, c)[a])
  {
    var r := AppendNew(acc, c);
    AppendNewBefore(acc, c, a);
    var m := FirstIndex(c, r[a]);
    LegalTake(cfg, cur, c, m);
    LegalTake(cfg, cur, r, a);
    AppliedSubset(cfg, cur, c[..m], r[..a]);
    HoldRaised(cfg, Applied(cfg, cur, c[..m]), Applied(cfg, cur, r[..a]), r[a]);
  }

  /** Merging a chain that puts prerequisites first into an accumulator
      that does keeps that property. */
  lemma AppendNewPrereqs(cfg: ValidConfig, cur: map<string, nat>, acc: seq<nat>, c: seq<nat>)
    requires Covers(cfg, cur) && Legal(cfg, cur, acc) && Legal(cfg, cur, c)
    requires PrereqsFirst(cfg, cur, acc) && PrereqsFirst(cfg, cur, c)
    ensures PrereqsFirst(cfg, cur, AppendNew(acc, c))
  {
    AppendNewLegal(cfg, cur, acc, c);
    AppendNewKeeps(acc, c);
    var r := AppendNew(acc, c);
    forall a | 0 <= a < |r|
      ensures PrereqsHold(cfg, Applied(cfg, cur, r[..a]), r[a])
    {
      if a < |acc| {
        AppendNewKeptPrereqs(cfg, cur, acc, r, a);
      } else {
        AppendNewRowPrereqs(cfg, cur, acc, c, a);
      }
    }
  }

  /** A row the merge keeps from `acc` has the same rows before it. */
  lemma AppendNewKeptPrereqs(cfg: Config, cur: map<string, nat>, acc: seq<nat>, r: seq<nat>, a: nat)
    requires PrereqsFirst(cfg, cur, acc) && ValidIndices(cfg, r)
    requires a < |acc| <= |r| && r[..|acc|] == acc
    ensures PrereqsHold(cfg, Applied(cfg, cur, r[..a]), r[a])
  {
    assert r[..a] == acc[..a] && r[a] == acc[a];
  }

  /** Only the first own row can be level 1 of the target building, and
      then the prior rows have already brought every prerequisite to its
      required level. */
  lemma OwnPrereqs(cfg: ValidConfig, cur: map<string, nat>, i: nat)
    requires Covers(cfg, cur) && i < |cfg.table| && !Met(cfg, cur, i)
    ensures ValidIndices(cfg, Prior(cfg, cur, i))
    ensures PrereqsFirst(cfg, Applied(cfg, cur, Prior(cfg, cur, i)), Own(cfg, cur, i))
  {
    var n := cfg.table[i].name;
    var prior, own := Prior(cfg, cur, i), Own(cfg, cur, i);
    OwnRows(cfg, cur, i);
    forall k | 0 <= k < |own|
      ensures PrereqsHold(cfg, Applied(cfg, Applied(cfg, cur, prior), own[..k]), own[k])
    {
      if k == 0 && cur[n] == 0 && n in cfg.prereq {
        assert own[..0] == [];
        forall t | 0 <= t < |cfg.prereq[n]|
          ensures cfg.prereq[n][t].0 in Applied(cfg, cur, prior)
          ensures Applied(cfg, cur, prior)[cfg.prereq[n][t].0] >= cfg.prereq[n][t].1
        {
          ResolvePrereqsFirst(cfg, cur, i, t);
        }
      }
    }
  }

  /** The resolver never starts a building before its prerequisites: in
      its result, level 1 of a building with prerequisites comes after the
      rows that bring each prerequisite to its required level. */
  lemma {:induction false} ResolvePrereqs(cfg: ValidConfig, cur: map<string, nat>, i: nat)
    requires Covers(cfg, cur) && i < |cfg.table|
    ensures PrereqsFirst(cfg, cur, Resolve(cfg, cur, i))
    decreases cfg.rank[cfg.table[i].name], 1, 0
  {
    var n := cfg.table[i].name;
    if !Met(cfg, cur, i) {
      ResolveShape(cfg, cur, i);
      if n in cfg.prereq && cur[n] == 0 {
        MergedPrereqs(cfg, cur, n, |cfg.prereq[n]|);
      }
      OwnPrereqs(cfg, cur, i);
      PrereqsFirstAppend(cfg, cur, Prior(cfg, cur, i), Own(cfg, cur, i));
    }
  }

  /** The merged prerequisite chains never start a building before its
      prerequisites. */
  lemma {:induction false} MergedPrereqs(cfg: ValidConfig, cur: map<string, nat>, n: string, k: nat)
    requires Covers(cfg, cur)
    requires n in cfg.prereq && k <= |cfg.prereq[n]|
    ensures PrereqsFirst(cfg, cur, Merged(cfg, cur, n, k))
    decreases cfg.rank[n], 0, k
  {
    if k > 0 {
      var j := MergedStep(cfg, cur, n, k);
      MergedPrereqs(cfg, cur, n, k - 1);
      ResolvePrereqs(cfg, cur, j);
      MergedStepPrereqs(cfg, cur, n, k, j);
    }
  }

  /** One step of `Merged` keeps the prerequisites first. */
  lemma MergedStepPrereqs(cfg: ValidConfig, cur: map<string, nat>, n: string, k: nat, j: nat)
    requires Covers(cfg, cur)
    requires n in cfg.prereq && 0 < k <= |cfg.prereq[n]| && j < |cfg.table|
    requires Merged(cfg, cur, n, k) == AppendNew(Merged(cfg, cur, n, k - 1), Resolve(cfg, cur, j))
    requires Legal(cfg, cur, Merged(cfg, cur, n, k - 1)) && Legal(cfg, cur, Resolve(cfg, cur, j))
    requires PrereqsFirst(cfg, cur, Merged(cfg, cur, n, k - 1)) && PrereqsFirst(cfg, cur, Resolve(cfg, cur, j))
    ensures PrereqsFirst(cfg, cur, Merged(cfg, cur, n, k))
  {
    AppendNewPrereqs(cfg, cur, Merged(cfg, cur, n, k - 1), Resolve(cfg, cur, j));
  }
}
