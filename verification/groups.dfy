/** `Group` and `GroupPriorityQueue`: chains of upgrades that must be
    built together, ranked by effective efficiency, with the union of the
    buildings they touch kept for a quick disjointness test, and the lazy
    re-resolution pass `update_priorty_queue`. */
module Groups {
  import opened CostTable
  import opened Efficiencies
  import opened Resolver

  /** A chain of table rows to build in sequence, its effective efficiency
      and the names of the buildings it touches. */
  datatype Group = Group(efficiency: Eff, order: seq<nat>, dependency: set<string>)

  /** A group as the scheduler creates it: a non-empty chain of table rows
      whose dependency set is the set of names in the chain. */
  predicate GroupOk(cfg: Config, g: Group) {
    g.order != [] && ValidIndices(cfg, g.order) && g.dependency == Names(cfg, g.order)
  }

  predicate QueueOk(cfg: Config, q: seq<Group>) {
    forall k :: 0 <= k < |q| ==> GroupOk(cfg, q[k])
  }

  /** Appending a well-formed group keeps a queue well formed. */
  lemma QueueOkSnoc(cfg: Config, q: seq<Group>, g: Group)
    requires QueueOk(cfg, q) && GroupOk(cfg, g)
    ensures QueueOk(cfg, q + [g])
  {
    forall k | 0 <= k < |q + [g]|
      ensures GroupOk(cfg, (q + [g])[k])
    {
      if k < |q| {
        assert (q + [g])[k] == q[k];
      }
    }
  }

  /** The row a group was resolved for: the last row of its chain. */
  function Target(g: Group): nat
    requires g.order != []
  {
    g.order[|g.order| - 1]
  }

  /** `Group.__init__` with `_update_dependency`: the dependency set is
      filled by a loop over the chain. */
  method NewGroup(cfg: Config, efficiency: Eff, order: seq<nat>) returns (g: Group)
    requires ValidIndices(cfg, order)
    ensures g.efficiency == efficiency && g.order == order
    ensures g.dependency == Names(cfg, order)
    ensures order != [] ==> GroupOk(cfg, g)
  {
    var dependency: set<string> := {};
    var k := 0;
    while k < |order|
      invariant 0 <= k <= |order|
      invariant dependency == Names(cfg, order[..k])
    {
      assert order[..k + 1][..k] == order[..k];
      dependency := dependency + {cfg.table[order[k]].name};
      k := k + 1;
    }
    assert order[..k] == order;
    g := Group(efficiency, order, dependency);
  }

  // ---------------------------------------------------------------------
  // The union of the members' dependencies

  function UnionDeps(q: seq<Group>): (r: set<string>)
    ensures forall k :: 0 <= k < |q| ==> q[k].dependency <= r
  {
    if q == [] then {} else UnionDeps(q[..|q| - 1]) + q[|q| - 1].dependency
  }

  /** A name is in the union exactly when some member depends on it. */
  lemma {:induction false} UnionDepsMember(q: seq<Group>, x: string)
    ensures x in UnionDeps(q) <==> exists k :: 0 <= k < |q| && x in q[k].dependency
  {
    if q != [] {
      var front := q[..|q| - 1];
      UnionDepsMember(front, x);
      if x in UnionDeps(front) {
        var k :| 0 <= k < |front| && x in front[k].dependency;
        assert q[k] == front[k];
      }
      if exists k :: 0 <= k < |q| && x in q[k].dependency {
        var k :| 0 <= k < |q| && x in q[k].dependency;
        if k < |front| {
          assert front[k] == q[k];
        }
      }
    }
  }

  /** The union is disjoint from `u` exactly when every member is. */
  lemma UnionDepsDisjoint(q: seq<Group>, u: set<string>)
    ensures UnionDeps(q) !! u <==> forall k :: 0 <= k < |q| ==> q[k].dependency !! u
  {
    if !(UnionDeps(q) !! u) {
      var x :| x in UnionDeps(q) && x in u;
      UnionDepsMember(q, x);
    }
    if exists k :: 0 <= k < |q| && !(q[k].dependency !! u) {
      var k :| 0 <= k < |q| && !(q[k].dependency !! u);
      var x :| x in q[k].dependency && x in u;
      UnionDepsMember(q, x);
    }
  }

  // ---------------------------------------------------------------------
  // The top of the queue

  /** The position of a most efficient group: no member is strictly more
      efficient, and among several such the earliest is chosen. */
  function TopIndex(q: seq<Group>): (t: nat)
    requires q != []
    ensures t < |q|
    ensures forall k :: 0 <= k < |q| ==> !Less(q[k].efficiency, q[t].efficiency)
  {
    if |q| == 1 then 0
    else
      var t := TopIndex(q[..|q| - 1]);
      var last := q[|q| - 1];
      if Less(last.efficiency, q[t].efficiency) then
        LessTransitiveAll(q, |q| - 1, t);
        |q| - 1
      else t
  }

  /** Nothing before the end beats the old top, so nothing beats a new
      top that beats the old one. */
  lemma LessTransitiveAll(q: seq<Group>, n: nat, t: nat)
    requires n < |q| && t < n
    requires forall k :: 0 <= k < n ==> !Less(q[k].efficiency, q[t].efficiency)
    requires Less(q[n].efficiency, q[t].efficiency)
    ensures forall k :: 0 <= k <= n ==> !Less(q[k].efficiency, q[n].efficiency)
  {
    forall k | 0 <= k < n
      ensures !Less(q[k].efficiency, q[n].efficiency)
    {
      if Less(q[k].efficiency, q[n].efficiency) {
        LessTransitive(q[k].efficiency, q[n].efficiency, q[t].efficiency);
      }
    }
    LessIrreflexive(q[n].efficiency);
  }

  /** A most efficient group of a non-empty queue. */
  function Best(q: seq<Group>): (g: Group)
    requires q != []
    ensures g in q
    ensures forall k :: 0 <= k < |q| ==> !Less(q[k].efficiency, g.efficiency)
  {
    q[TopIndex(q)]
  }

  /** `q` without its `t`-th member. */
  function RemoveAt(q: seq<Group>, t: nat): (r: seq<Group>)
    requires t < |q|
    ensures |r| == |q| - 1
    ensures multiset(r) + multiset{q[t]} == multiset(q)
  {
    assert q == q[..t] + [q[t]] + q[t + 1..];
    q[..t] + q[t + 1..]
  }

  /** Removing a member keeps the queue well formed, and every remaining
      member was a member before. */
  lemma RemoveAtOk(cfg: Config, q: seq<Group>, t: nat)
    requires QueueOk(cfg, q) && t < |q|
    ensures QueueOk(cfg, RemoveAt(q, t))
    ensures forall k :: 0 <= k < |RemoveAt(q, t)| ==> RemoveAt(q, t)[k] == q[if k < t then k else k + 1]
  {
  }

  // ---------------------------------------------------------------------
  // The invalidation pass

  /** What `update_priorty_queue` makes of one group: kept as it is when it
      touches none of the updated buildings; otherwise re-resolved from its
      target under the new levels, and dropped when the target is met. A
      group without a target row, which the queue never holds, is kept. */
  function RefreshOne(cfg: ValidConfig, cur: map<string, nat>, updated: set<string>, metric: Metric, g: Group)
      : (r: seq<Group>)
    requires Covers(cfg, cur)
    ensures |r| <= 1
    ensures g.dependency !! updated ==> r == [g]
    ensures GroupOk(cfg, g) && !(g.dependency !! updated) ==> (r == [] <==> Met(cfg, cur, Target(g)))
    ensures GroupOk(cfg, g) ==> forall k :: 0 <= k < |r| ==> GroupOk(cfg, r[k]) && Target(r[k]) == Target(g)
  {
    if g.dependency !! updated || g.order == [] || g.order[|g.order| - 1] >= |cfg.table| then [g]
    else
      var order := Resolve(cfg, cur, Target(g));
      if order == [] then [] else [Group(Efficiency(cfg, order, metric), order, Names(cfg, order))]
  }

  /** The body of the loop of `update_priorty_queue` for one group. */
  method RefreshGroup(cfg: ValidConfig, cur: map<string, nat>, updated: set<string>, metric: Metric, group: Group)
      returns (r: seq<Group>)
    requires Covers(cfg, cur)
    ensures r == RefreshOne(cfg, cur, updated, metric, group)
  {
    if group.dependency !! updated || group.order == [] || group.order[|group.order| - 1] >= |cfg.table| {
      r := [group];
    } else {
      var order := Resolve(cfg, cur, Target(group));
      if order == [] {
        r := [];
      } else {
        var eff := EffectiveEfficiency(cfg, order, metric);
        var newGroup := NewGroup(cfg, eff, order);
        r := [newGroup];
      }
    }
  }

  /** The queue `update_priorty_queue` rebuilds, one group at a time in queue order. */
  function Refreshed(cfg: ValidConfig, cur: map<string, nat>, updated: set<string>, metric: Metric, q: seq<Group>)
      : (r: seq<Group>)
    requires Covers(cfg, cur)
    ensures |r| <= |q|
  {
    if q == [] then []
    else Refreshed(cfg, cur, updated, metric, q[..|q| - 1]) + RefreshOne(cfg, cur, updated, metric, q[|q| - 1])
  }

  /** One more group of the old queue adds its own refreshed groups at the end. */
  lemma RefreshedSnoc(cfg: ValidConfig, cur: map<string, nat>, updated: set<string>, metric: Metric,
                      q: seq<Group>, k: nat)
    requires Covers(cfg, cur) && k < |q|
    ensures Refreshed(cfg, cur, updated, metric, q[..k + 1])
      == Refreshed(cfg, cur, updated, metric, q[..k]) + RefreshOne(cfg, cur, updated, metric, q[k])
  {
    assert q[..k + 1][..k] == q[..k];
  }

  /** The rebuilt queue is the rebuilt front followed by the refreshed last group. */
  lemma RefreshedLast(cfg: ValidConfig, cur: map<string, nat>, updated: set<string>, metric: Metric,
                      q: seq<Group>)
    requires Covers(cfg, cur) && q != []
    ensures Refreshed(cfg, cur, updated, metric, q)
      == Refreshed(cfg, cur, updated, metric, q[..|q| - 1]) + RefreshOne(cfg, cur, updated, metric, q[|q| - 1])
  {
  }

  /** The pass never grows the queue, and its groups are well formed and
      keep the targets of groups already queued. */
  lemma {:induction false} RefreshedShape(cfg: ValidConfig, cur: map<string, nat>, updated: set<string>,
                                          metric: Metric, q: seq<Group>)
    requires Covers(cfg, cur) && QueueOk(cfg, q)
    ensures var r := Refreshed(cfg, cur, updated, metric, q);
      && |r| <= |q|
      && QueueOk(cfg, r)
      && forall k :: 0 <= k < |r| ==> Aims(q, Target(r[k]))
  {
    if q != [] {
      var front, g := q[..|q| - 1], q[|q| - 1];
      RefreshedShape(cfg, cur, updated, metric, front);
      var rf := Refreshed(cfg, cur, updated, metric, front);
      var one := RefreshOne(cfg, cur, updated, metric, g);
      RefreshedLast(cfg, cur, updated, metric, q);
      SnocLast(q);
      ShapeJoin(cfg, front, g, rf, one);
    }
  }

  /** The shape facts of a rebuilt prefix and of one more rebuilt group
      combine. */
  lemma ShapeJoin(cfg: Config, front: seq<Group>, g: Group, rf: seq<Group>, one: seq<Group>)
    requires QueueOk(cfg, front) && GroupOk(cfg, g)
    requires |rf| <= |front| && QueueOk(cfg, rf) && forall k :: 0 <= k < |rf| ==> Aims(front, Target(rf[k]))
    requires |one| <= 1 && QueueOk(cfg, one) && forall k :: 0 <= k < |one| ==> Target(one[k]) == Target(g)
    ensures |rf + one| <= |front + [g]| && QueueOk(cfg, rf + one)
    ensures forall k :: 0 <= k < |rf + one| ==> Aims(front + [g], Target((rf + one)[k]))
  {
    var r, q := rf + one, front + [g];
    forall k | 0 <= k < |r|
      ensures GroupOk(cfg, r[k]) && Aims(q, Target(r[k]))
    {
      if k < |rf| {
        assert r[k] == rf[k];
        AimsAppend(front, [g], Target(rf[k]));
      } else {
        assert r[k] == one[k - |rf|];
        AimsAt([g], 0);
        AimsAppend(front, [g], Target(g));
      }
    }
  }

  /** When no group touches an updated building the pass changes nothing,
      which is what the early return of `update_priorty_queue` relies on. */
  lemma {:induction false} RefreshedNoop(cfg: ValidConfig, cur: map<string, nat>, updated: set<string>,
                                         metric: Metric, q: seq<Group>)
    requires Covers(cfg, cur)
    requires UnionDeps(q) !! updated
    ensures Refreshed(cfg, cur, updated, metric, q) == q
  {
    if q != [] {
      var front, g := q[..|q| - 1], q[|q| - 1];
      RefreshedLast(cfg, cur, updated, metric, q);
      assert UnionDeps(q) == UnionDeps(front) + g.dependency;
      RefreshedNoop(cfg, cur, updated, metric, front);
      assert RefreshOne(cfg, cur, updated, metric, g) == [g];
      SnocLast(q);
    }
  }

  /** A group that touches none of the updated buildings is kept as it is. */
  lemma {:induction false} RefreshedKeeps(cfg: ValidConfig, cur: map<string, nat>, updated: set<string>,
                                          metric: Metric, q: seq<Group>, k: nat)
    requires Covers(cfg, cur) && k < |q|
    requires q[k].dependency !! updated
    ensures q[k] in Refreshed(cfg, cur, updated, metric, q)
  {
    var front := q[..|q| - 1];
    RefreshedLast(cfg, cur, updated, metric, q);
    var rf, one := Refreshed(cfg, cur, updated, metric, front), RefreshOne(cfg, cur, updated, metric, q[|q| - 1]);
    if k < |q| - 1 {
      assert front[k] == q[k];
      RefreshedKeeps(cfg, cur, updated, metric, front, k);
      InAppend(rf, one, q[k]);
    } else {
      assert one == [q[k]];
      InAppend(rf, one, q[k]);
    }
  }

  /** A group that touches an updated building and whose target is not yet
      met comes back re-resolved from its target under the new levels. */
  lemma {:induction false} RefreshedRenews(cfg: ValidConfig, cur: map<string, nat>, updated: set<string>,
                                           metric: Metric, q: seq<Group>, k: nat)
    requires Covers(cfg, cur) && QueueOk(cfg, q) && k < |q|
    requires !(q[k].dependency !! updated) && !Met(cfg, cur, Target(q[k]))
    ensures var order := Resolve(cfg, cur, Target(q[k]));
      Group(Efficiency(cfg, order, metric), order, Names(cfg, order)) in Refreshed(cfg, cur, updated, metric, q)
  {
    var front := q[..|q| - 1];
    RefreshedLast(cfg, cur, updated, metric, q);
    var rf, one := Refreshed(cfg, cur, updated, metric, front), RefreshOne(cfg, cur, updated, metric, q[|q| - 1]);
    var order := Resolve(cfg, cur, Target(q[k]));
    var renewed := Group(Efficiency(cfg, order, metric), order, Names(cfg, order));
    if k < |q| - 1 {
      assert front[k] == q[k];
      RefreshedRenews(cfg, cur, updated, metric, front, k);
      InAppend(rf, one, renewed);
    } else {
      RenewLast(cfg, cur, updated, metric, q[k]);
      InAppend(rf, one, renewed);
    }
  }

  lemma RenewLast(cfg: ValidConfig, cur: map<string, nat>, updated: set<string>, metric: Metric, g: Group)
    requires Covers(cfg, cur) && GroupOk(cfg, g)
    requires !(g.dependency !! updated) && !Met(cfg, cur, Target(g))
    ensures var order := Resolve(cfg, cur, Target(g));
      RefreshOne(cfg, cur, updated, metric, g) == [Group(Efficiency(cfg, order, metric), order, Names(cfg, order))]
  {
  }

  lemma SnocLast(q: seq<Group>)
    requires q != []
    ensures q[..|q| - 1] + [q[|q| - 1]] == q
  {
  }

  lemma InAppend(a: seq<Group>, b: seq<Group>, g: Group)
    requires g in a || g in b
    ensures g in a + b
  {
  }

  /** Some group of `q` is resolved for row `i`. */
  predicate Aims(q: seq<Group>, i: nat) {
    exists j :: 0 <= j < |q| && q[j].order != [] && Target(q[j]) == i
  }

  lemma AimsAt(q: seq<Group>, j: nat)
    requires j < |q| && q[j].order != []
    ensures Aims(q, Target(q[j]))
  {
  }

  /** Appending groups on either side keeps a group aimed at a row. */
  lemma AimsAppend(a: seq<Group>, b: seq<Group>, i: nat)
    requires Aims(a, i) || Aims(b, i)
    ensures Aims(a + b, i)
  {
    if Aims(a, i) {
      var j :| 0 <= j < |a| && a[j].order != [] && Target(a[j]) == i;
      assert (a + b)[j] == a[j];
    } else {
      var j :| 0 <= j < |b| && b[j].order != [] && Target(b[j]) == i;
      assert (a + b)[|a| + j] == b[j];
    }
  }

  /** Removing the `t`-th group keeps a group aimed at a row, unless the
      removed group was the one. */
  lemma AimsRemoveAt(q: seq<Group>, t: nat, i: nat)
    requires t < |q| && Aims(q, i)
    ensures Aims(RemoveAt(q, t), i) || (q[t].order != [] && Target(q[t]) == i)
  {
    var j :| 0 <= j < |q| && q[j].order != [] && Target(q[j]) == i;
    var r := RemoveAt(q, t);
    if j < t {
      assert r[j] == q[j];
    } else if j > t {
      assert r[j - 1] == q[j];
    }
  }

  /** A single group that touches an updated building is dropped only when
      its target is met. */
  lemma RefreshOneCovers(cfg: ValidConfig, cur: map<string, nat>, updated: set<string>, metric: Metric, g: Group)
    requires Covers(cfg, cur) && GroupOk(cfg, g)
    ensures Met(cfg, cur, Target(g)) || Aims(RefreshOne(cfg, cur, updated, metric, g), Target(g))
  {
    var one := RefreshOne(cfg, cur, updated, metric, g);
    if one != [] {
      AimsAt(one, 0);
    }
  }

  /** The target of every group survives the pass unless it is met: the
      rebuilt queue holds a group for the same target. */
  lemma {:induction false} RefreshedCovers(cfg: ValidConfig, cur: map<string, nat>, updated: set<string>,
                                           metric: Metric, q: seq<Group>, k: nat)
    requires Covers(cfg, cur) && QueueOk(cfg, q) && k < |q|
    ensures Met(cfg, cur, Target(q[k])) || Aims(Refreshed(cfg, cur, updated, metric, q), Target(q[k]))
  {
    var t := Target(q[k]);
    var front := q[..|q| - 1];
    var rf := Refreshed(cfg, cur, updated, metric, front);
    var one := RefreshOne(cfg, cur, updated, metric, q[|q| - 1]);
    RefreshedLast(cfg, cur, updated, metric, q);
    if k < |q| - 1 {
      assert front[k] == q[k];
      RefreshedCovers(cfg, cur, updated, metric, front, k);
    } else {
      RefreshOneCovers(cfg, cur, updated, metric, q[k]);
    }
    if !Met(cfg, cur, t) {
      AimsAppend(rf, one, t);
    }
  }


  /** Every group of the rebuilt queue is a legal build order under the
      new levels, provided the old groups were legal under the old levels
      and the levels changed only for the updated buildings. */
  lemma {:induction false} RefreshedLegal(cfg: ValidConfig, cur: map<string, nat>, cur': map<string, nat>,
                                          updated: set<string>, metric: Metric, q: seq<Group>)
    requires Covers(cfg, cur) && Covers(cfg, cur') && QueueOk(cfg, q)
    requires forall x :: x in cur && x !in updated ==> x in cur' && cur'[x] == cur[x]
    requires forall k :: 0 <= k < |q| ==> Legal(cfg, cur, q[k].order)
    ensures var r := Refreshed(cfg, cur', updated, metric, q);
      QueueOk(cfg, r) && forall k :: 0 <= k < |r| ==> Legal(cfg, cur', r[k].order)
  {
    RefreshedShape(cfg, cur', updated, metric, q);
    if q != [] {
      var front, g := q[..|q| - 1], q[|q| - 1];
      RefreshedLegal(cfg, cur, cur', updated, metric, front);
      RefreshedLast(cfg, cur', updated, metric, q);
      RefreshOneLegal(cfg, cur, cur', updated, metric, g);
      LegalJoin(cfg, cur', Refreshed(cfg, cur', updated, metric, front), RefreshOne(cfg, cur', updated, metric, g));
    }
  }

  /** One group refreshed under the new levels is a legal build order from
      them: a kept group because none of its buildings changed level, a
      re-resolved one because the resolver's result is legal. */
  lemma RefreshOneLegal(cfg: ValidConfig, cur: map<string, nat>, cur': map<string, nat>,
                        updated: set<string>, metric: Metric, g: Group)
    requires Covers(cfg, cur) && Covers(cfg, cur') && GroupOk(cfg, g) && Legal(cfg, cur, g.order)
    requires forall x :: x in cur && x !in updated ==> x in cur' && cur'[x] == cur[x]
    ensures var one := RefreshOne(cfg, cur', updated, metric, g);
      forall k :: 0 <= k < |one| ==> Legal(cfg, cur', one[k].order)
  {
    if g.dependency !! updated {
      KeptLegal(cfg, cur, cur', updated, g);
    } else {
      ResolveLegal(cfg, cur', Target(g));
    }
  }

  /** A group none of whose buildings changed level stays legal. */
  lemma KeptLegal(cfg: ValidConfig, cur: map<string, nat>, cur': map<string, nat>, updated: set<string>, g: Group)
    requires Covers(cfg, cur) && GroupOk(cfg, g) && Legal(cfg, cur, g.order) && g.dependency !! updated
    requires forall x :: x in cur && x !in updated ==> x in cur' && cur'[x] == cur[x]
    ensures Legal(cfg, cur', g.order)
  {
    forall x | x in Names(cfg, g.order)
      ensures x in cur && x in cur' && cur'[x] == cur[x]
    {
      NamesMember(cfg, g.order, x);
    }
    LegalFrame(cfg, cur, cur', g.order);
  }

  /** Every queued chain puts prerequisites first from the levels `cur`. */
  predicate QueuePrereqs(cfg: Config, cur: map<string, nat>, q: seq<Group>) {
    forall k :: 0 <= k < |q| ==> PrereqsFirst(cfg, cur, q[k].order)
  }

  /** The pass keeps every queued chain putting prerequisites first: a kept
      group once levels have risen, a re-resolved group because the
      resolver does. */
  lemma {:induction false} RefreshedPrereqs(cfg: ValidConfig, cur: map<string, nat>, cur': map<string, nat>,
                                            updated: set<string>, metric: Metric, q: seq<Group>)
    requires Covers(cfg, cur') && Raised(cur, cur')
    requires QueuePrereqs(cfg, cur, q)
    ensures QueuePrereqs(cfg, cur', Refreshed(cfg, cur', updated, metric, q))
  {
    if q != [] {
      var front, g := q[..|q| - 1], q[|q| - 1];
      RefreshedPrereqs(cfg, cur, cur', updated, metric, front);
      RefreshedLast(cfg, cur', updated, metric, q);
      RefreshOnePrereqs(cfg, cur, cur', updated, metric, g);
      PrereqsJoin(cfg, cur', Refreshed(cfg, cur', updated, metric, front), RefreshOne(cfg, cur', updated, metric, g));
    }
  }

  lemma RefreshOnePrereqs(cfg: ValidConfig, cur: map<string, nat>, cur': map<string, nat>,
                          updated: set<string>, metric: Metric, g: Group)
    requires Covers(cfg, cur') && Raised(cur, cur') && PrereqsFirst(cfg, cur, g.order)
    ensures QueuePrereqs(cfg, cur', RefreshOne(cfg, cur', updated, metric, g))
  {
    if g.dependency !! updated || g.order == [] || g.order[|g.order| - 1] >= |cfg.table| {
      PrereqsFirstRaised(cfg, cur, cur', g.order);
    } else {
      ResolvePrereqs(cfg, cur', Target(g));
    }
  }

  lemma PrereqsJoin(cfg: Config, cur: map<string, nat>, a: seq<Group>, b: seq<Group>)
    requires QueuePrereqs(cfg, cur, a) && QueuePrereqs(cfg, cur, b)
    ensures QueuePrereqs(cfg, cur, a + b)
  {
    forall k | 0 <= k < |a + b|
      ensures PrereqsFirst(cfg, cur, (a + b)[k].order)
    {
      if k < |a| {
        assert (a + b)[k] == a[k];
      } else {
        assert (a + b)[k] == b[k - |a|];
      }
    }
  }

  lemma LegalJoin(cfg: Config, cur: map<string, nat>, a: seq<Group>, b: seq<Group>)
    requires forall k :: 0 <= k < |a| ==> Legal(cfg, cur, a[k].order)
    requires forall k :: 0 <= k < |b| ==> Legal(cfg, cur, b[k].order)
    ensures forall k :: 0 <= k < |a + b| ==> Legal(cfg, cur, (a + b)[k].order)
  {
    forall k | 0 <= k < |a + b|
      ensures Legal(cfg, cur, (a + b)[k].order)
    {
      if k < |a| {
        assert (a + b)[k] == a[k];
      } else {
        assert (a + b)[k] == b[k - |a|];
      }
    }
  }

  // ---------------------------------------------------------------------
  // The queue object

  /** A priority queue of groups with the most efficient group at the top
      and the union of the members' dependency sets. The heap is kept as
      the sequence of its members; the top is a member that no other
      member strictly beats. */
  class GroupPriorityQueue {
    var dependency: set<string>
    var pQueue: seq<Group>
    const valueType: Metric

    ghost predicate Valid()
      reads this
    {
      dependency == UnionDeps(pQueue)
    }

    constructor (dependency: set<string>, pQueue: seq<Group>, valueType: Metric)
      ensures this.dependency == dependency && this.pQueue == pQueue && this.valueType == valueType
    {
      this.dependency := dependency;
      this.pQueue := pQueue;
      this.valueType := valueType;
    }

    /** `__len__`: the number of queued groups. */
    function Len(): (n: nat)
      reads this
      ensures n == |pQueue|
      ensures n == 0 <==> pQueue == []
    {
      |pQueue|
    }

    /** `peek`: the efficiency of a most efficient queued group. */
    function Peek(): (e: Eff)
      reads this
      requires pQueue != []
      ensures exists k :: 0 <= k < |pQueue| && pQueue[k].efficiency == e
      ensures forall k :: 0 <= k < |pQueue| ==> !Less(pQueue[k].efficiency, e)
    {
      Best(pQueue).efficiency
    }

    /** `_update_dependency`: recompute the union from scratch. */
    method UpdateDependency()
      modifies this`dependency
      ensures Valid()
    {
      var deps: set<string> := {};
      var k := 0;
      while k < |pQueue|
        invariant 0 <= k <= |pQueue|
        invariant deps == UnionDeps(pQueue[..k])
      {
        assert pQueue[..k + 1][..k] == pQueue[..k];
        deps := deps + pQueue[k].dependency;
        k := k + 1;
      }
      assert pQueue[..k] == pQueue;
      dependency := deps;
    }

    /** `push`: add a group and recompute the union. */
    method Push(g: Group)
      modifies this
      ensures pQueue == old(pQueue) + [g]
      ensures Valid()
    {
      pQueue := pQueue + [g];
      UpdateDependency();
    }

    /** `pop`: remove and return a most efficient group, and recompute the union. */
    method Pop() returns (popped: Group)
      requires pQueue != []
      modifies this
      ensures popped == Best(old(pQueue))
      ensures pQueue == RemoveAt(old(pQueue), TopIndex(old(pQueue)))
      ensures forall k :: 0 <= k < |old(pQueue)| ==> !Less(old(pQueue)[k].efficiency, popped.efficiency)
      ensures Valid()
    {
      var t := TopIndex(pQueue);
      popped := pQueue[t];
      pQueue := RemoveAt(pQueue, t);
      UpdateDependency();
    }

    /** `update_priorty_queue`: when some queued group touches an updated
        building, rebuild the queue group by group, re-resolving the groups
        that touch one; otherwise leave it as it is. */
    method UpdatePriorityQueue(cfg: ValidConfig, updated: set<string>, cur: map<string, nat>)
      requires Valid() && QueueOk(cfg, pQueue) && Covers(cfg, cur)
      modifies this
      ensures pQueue == Refreshed(cfg, cur, updated, valueType, old(pQueue))
      ensures Valid()
    {
      if dependency !! updated {
        RefreshedNoop(cfg, cur, updated, valueType, pQueue);
        return;
      }
      var q := pQueue;
      var newQueue: seq<Group> := [];
      var k := 0;
      while k < |q|
        invariant 0 <= k <= |q|
        invariant newQueue == Refreshed(cfg, cur, updated, valueType, q[..k])
      {
        var one := RefreshGroup(cfg, cur, updated, valueType, q[k]);
        RefreshedSnoc(cfg, cur, updated, valueType, q, k);
        newQueue := newQueue + one;
        k := k + 1;
      }
      assert q[..k] == q;
      pQueue := newQueue;
      UpdateDependency();
    }
  }
}
