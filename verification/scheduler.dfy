/** The driver `sort_by_efficiency` and the commit step
    `_create_build_order_df`: candidate rows arrive in a given order; each
    is resolved into the chain that reaches it; single upgrades are
    committed directly when they beat the best queued group, chains are
    queued, and otherwise the best queued group is committed first. */
module Scheduler {
  import opened CostTable
  import opened Efficiencies
  import opened Resolver
  import opened Groups

  // ---------------------------------------------------------------------
  // Initial level maps (`construct_current_level_*`)

  /** The names of the buildings in the table. */
  function TableNames(cfg: Config): set<string> {
    set i | 0 <= i < |cfg.table| :: cfg.table[i].name
  }

  const MainBuilding: string := "Main Building"

  /** `construct_current_level_all_empty`: every building at level 0, the
      main building at level 1. */
  function AllEmpty(cfg: Config): (cur: map<string, nat>)
    ensures Covers(cfg, cur)
    ensures cur.Keys == TableNames(cfg) + {MainBuilding}
    ensures cur[MainBuilding] == 1
    ensures forall x :: x in cur && x != MainBuilding ==> cur[x] == 0
  {
    (map x | x in TableNames(cfg) :: 0)[MainBuilding := 1]
  }

  /** The buildings `construct_current_level_only_core` switches off by
      putting them at level 100. */
  const NonCore: set<string> := {
    "Warehouse", "Granary", "Iron Foundry", "Brickyard", "Sawmill", "Bakery", "Grain Mill",
    "Stonemason's Lodge", "Brewery", "Trapper", "Great Warehouse", "Great Granary",
    "Horse Drinking Pool" }

  /** `construct_current_level_only_core`: the all-empty map with the
      non-core buildings at level 100. */
  function OnlyCore(cfg: Config): (cur: map<string, nat>)
    ensures Covers(cfg, cur)
    ensures cur.Keys == TableNames(cfg) + {MainBuilding} + NonCore
    ensures forall x :: x in NonCore ==> cur[x] == 100
    ensures forall x :: x in AllEmpty(cfg) && x !in NonCore ==> cur[x] == AllEmpty(cfg)[x]
  {
    var empty := AllEmpty(cfg);
    map x | x in empty.Keys + NonCore :: if x in NonCore then 100 else empty[x]
  }

  // ---------------------------------------------------------------------
  // Committing a chain (`_create_build_order_df`)

  /** The level map the scheduler owns and updates in place. */
  class LevelState {
    var level: map<string, nat>

    constructor (level: map<string, nat>)
      ensures this.level == level
    {
      this.level := level;
    }
  }

  /** The table rows of `order`, in order. */
  function RowsOf(cfg: Config, order: seq<nat>): (rows: seq<Row>)
    requires ValidIndices(cfg, order)
    ensures |rows| == |order|
    ensures forall k :: 0 <= k < |order| ==> rows[k] == cfg.table[order[k]]
  {
    seq(|order|, k requires 0 <= k < |order| => cfg.table[order[k]])
  }

  /** `_create_build_order_df`: set each row's building to the row's level,
      in order; return the rows and the names of the buildings touched. */
  method Commit(cfg: Config, ls: LevelState, order: seq<nat>) returns (rows: seq<Row>, updated: set<string>)
    requires ValidIndices(cfg, order)
    modifies ls
    ensures ls.level == Applied(cfg, old(ls.level), order)
    ensures updated == Names(cfg, order)
    ensures rows == RowsOf(cfg, order)
  {
    updated := {};
    var k := 0;
    while k < |order|
      invariant 0 <= k <= |order|
      invariant ls.level == Applied(cfg, old(ls.level), order[..k])
      invariant updated == Names(cfg, order[..k])
    {
      assert order[..k + 1][..k] == order[..k];
      var row := cfg.table[order[k]];
      updated := updated + {row.name};
      ls.level := ls.level[row.name := row.level];
      k := k + 1;
    }
    assert order[..k] == order;
    rows := RowsOf(cfg, order);
  }

  // ---------------------------------------------------------------------
  // One iteration of the driver

  /** An output row: the table row and the efficiency it is tagged with. */
  datatype Emitted = Emitted(row: nat, eff: Eff)

  /** The rows of `order`, all tagged with `eff`. */
  function Tagged(order: seq<nat>, eff: Eff): (r: seq<Emitted>)
    ensures |r| == |order|
    ensures forall k :: 0 <= k < |order| ==> r[k] == Emitted(order[k], eff)
  {
    seq(|order|, k requires 0 <= k < |order| => Emitted(order[k], eff))
  }

  /** The table rows of an output, without their tags. */
  function EmittedRows(out: seq<Emitted>): (rows: seq<nat>)
    ensures |rows| == |out|
    ensures forall k :: 0 <= k < |out| ==> rows[k] == out[k].row
  {
    seq(|out|, k requires 0 <= k < |out| => out[k].row)
  }

  /** The driver's state between iterations: the position in the candidate
      stream, the queued groups, the level map and the output so far. */
  datatype State = State(pos: nat, queue: seq<Group>, cur: map<string, nat>, out: seq<Emitted>)

  /** A state from which an iteration can run. */
  predicate StateOk(cfg: Config, stream: seq<nat>, st: State) {
    && st.pos < |stream|
    && ValidIndices(cfg, stream)
    && Covers(cfg, st.cur)
    && QueueOk(cfg, st.queue)
  }

  /** What an iteration does with the current candidate. */
  datatype StepKind =
    | Skip      // already met: advance, no output
    | Enqueue   // a chain of several upgrades: queue it as a group and advance
    | Single    // one upgrade beating the best group: commit it and advance
    | PopGroup  // otherwise: commit the best group, do not advance

  function Kind(cfg: ValidConfig, metric: Metric, stream: seq<nat>, st: State): (k: StepKind)
    requires StateOk(cfg, stream, st)
    ensures var order := Resolve(cfg, st.cur, stream[st.pos]);
      && (k == Skip <==> order == [])
      && (k == Enqueue <==> |order| > 1)
      && (k == Single <==>
            |order| == 1 && (st.queue == [] || Less(Efficiency(cfg, order, metric), Best(st.queue).efficiency)))
      && (k == PopGroup <==>
            |order| == 1 && st.queue != [] && !Less(Efficiency(cfg, order, metric), Best(st.queue).efficiency))
  {
    var order := Resolve(cfg, st.cur, stream[st.pos]);
    if order == [] then Skip
    else if |order| > 1 then Enqueue
    else if st.queue == [] || Less(Efficiency(cfg, order, metric), Best(st.queue).efficiency) then Single
    else PopGroup
  }

  /** Committing `order`, tagged with `eff`: the levels are applied, the
      rows emitted, and the remaining queue refreshed against the touched
      buildings under the new levels. */
  function AfterCommit(cfg: ValidConfig, metric: Metric, queue: seq<Group>, cur: map<string, nat>,
                       out: seq<Emitted>, order: seq<nat>, eff: Eff, pos: nat): (st': State)
    requires Covers(cfg, cur) && QueueOk(cfg, queue) && ValidIndices(cfg, order)
    ensures Covers(cfg, st'.cur) && QueueOk(cfg, st'.queue) && |st'.queue| <= |queue| && st'.pos == pos
  {
    var cur' := Applied(cfg, cur, order);
    AppliedKeys(cfg, cur, order);
    RefreshedShape(cfg, cur', Names(cfg, order), metric, queue);
    State(pos, Refreshed(cfg, cur', Names(cfg, order), metric, queue), cur', out + Tagged(order, eff))
  }

  /** One iteration of the driver's loop. */
  function Step(cfg: ValidConfig, metric: Metric, stream: seq<nat>, st: State): (st': State)
    requires StateOk(cfg, stream, st)
    ensures Covers(cfg, st'.cur) && QueueOk(cfg, st'.queue) && st'.pos <= |stream|
    ensures st'.pos == st.pos + 1 || (st'.pos == st.pos && |st'.queue| < |st.queue|)
  {
    var order := Resolve(cfg, st.cur, stream[st.pos]);
    match Kind(cfg, metric, stream, st)
    case Skip => st.(pos := st.pos + 1)
    case Enqueue =>
      var g := Group(Efficiency(cfg, order, metric), order, Names(cfg, order));
      QueueOkSnoc(cfg, st.queue, g);
      st.(pos := st.pos + 1, queue := st.queue + [g])
    case Single =>
      AfterCommit(cfg, metric, st.queue, st.cur, st.out, order, Efficiency(cfg, order, metric), st.pos + 1)
    case PopGroup =>
      var t := TopIndex(st.queue);
      RemoveAtOk(cfg, st.queue, t);
      AfterCommit(cfg, metric, RemoveAt(st.queue, t), st.cur, st.out, st.queue[t].order, st.queue[t].efficiency, st.pos)
  }

  /** The driver's loop from `st` until the candidate stream runs out. */
  function Run(cfg: ValidConfig, metric: Metric, stream: seq<nat>, st: State): (fin: State)
    requires StateOk(cfg, stream, st)
    ensures Covers(cfg, fin.cur) && fin.pos == |stream|
    decreases |stream| - st.pos, |st.queue|
  {
    var st' := Step(cfg, metric, stream, st);
    if st'.pos == |stream| then st' else Run(cfg, metric, stream, st')
  }

  /** The iteration as the source writes it: a single upgrade on the last
      candidate is committed, then the stream runs out before its row is
      emitted and before the queue is refreshed. */
  function StepAsWritten(cfg: ValidConfig, metric: Metric, stream: seq<nat>, st: State): (st': State)
    requires StateOk(cfg, stream, st)
    ensures Covers(cfg, st'.cur) && QueueOk(cfg, st'.queue) && st'.pos <= |stream|
    ensures st'.pos == st.pos + 1 || (st'.pos == st.pos && |st'.queue| < |st.queue|)
  {
    if Kind(cfg, metric, stream, st) == Single && st.pos + 1 == |stream| then
      var order := Resolve(cfg, st.cur, stream[st.pos]);
      AppliedKeys(cfg, st.cur, order);
      st.(pos := st.pos + 1, cur := Applied(cfg, st.cur, order))
    else Step(cfg, metric, stream, st)
  }

  function RunAsWritten(cfg: ValidConfig, metric: Metric, stream: seq<nat>, st: State): (fin: State)
    requires StateOk(cfg, stream, st)
    ensures Covers(cfg, fin.cur) && fin.pos == |stream|
    decreases |stream| - st.pos, |st.queue|
  {
    var st' := StepAsWritten(cfg, metric, stream, st);
    if st'.pos == |stream| then st' else RunAsWritten(cfg, metric, stream, st')
  }

  /** One iteration unfolds the run: it either ends the run or the run
      carries on from the state it leaves. */
  lemma RunStep(cfg: ValidConfig, metric: Metric, stream: seq<nat>, st: State)
    requires StateOk(cfg, stream, st)
    ensures var st' := Step(cfg, metric, stream, st);
      Run(cfg, metric, stream, st) == if st'.pos == |stream| then st' else Run(cfg, metric, stream, st')
  {
  }

  /** A candidate that is already met is skipped. */
  lemma StepSkip(cfg: ValidConfig, metric: Metric, stream: seq<nat>, st: State)
    requires StateOk(cfg, stream, st) && Resolve(cfg, st.cur, stream[st.pos]) == []
    ensures Step(cfg, metric, stream, st) == st.(pos := st.pos + 1)
  {
  }

  /** A candidate that needs several upgrades is queued as a group. */
  lemma StepEnqueue(cfg: ValidConfig, metric: Metric, stream: seq<nat>, st: State, order: seq<nat>)
    requires StateOk(cfg, stream, st) && order == Resolve(cfg, st.cur, stream[st.pos]) && |order| > 1
    ensures Step(cfg, metric, stream, st)
      == st.(pos := st.pos + 1,
             queue := st.queue + [Group(Efficiency(cfg, order, metric), order, Names(cfg, order))])
  {
  }

  /** A single upgrade that beats every queued group (or meets an empty
      queue) is committed, and the stream advances. */
  lemma StepSingle(cfg: ValidConfig, metric: Metric, stream: seq<nat>, st: State, order: seq<nat>)
    requires StateOk(cfg, stream, st) && order == Resolve(cfg, st.cur, stream[st.pos]) && |order| == 1
    requires st.queue == [] || Less(Efficiency(cfg, order, metric), Best(st.queue).efficiency)
    ensures Step(cfg, metric, stream, st)
      == AfterCommit(cfg, metric, st.queue, st.cur, st.out, order, Efficiency(cfg, order, metric), st.pos + 1)
  {
  }

  /** Otherwise the best queued group is committed, and the same candidate
      is tried again. */
  lemma StepPop(cfg: ValidConfig, metric: Metric, stream: seq<nat>, st: State, order: seq<nat>) returns (t: nat)
    requires StateOk(cfg, stream, st) && order == Resolve(cfg, st.cur, stream[st.pos]) && |order| == 1
    requires st.queue != [] && !Less(Efficiency(cfg, order, metric), Best(st.queue).efficiency)
    ensures t == TopIndex(st.queue) && QueueOk(cfg, RemoveAt(st.queue, t))
    ensures Step(cfg, metric, stream, st)
      == AfterCommit(cfg, metric, RemoveAt(st.queue, t), st.cur, st.out,
                     st.queue[t].order, st.queue[t].efficiency, st.pos)
  {
    t := TopIndex(st.queue);
    RemoveAtOk(cfg, st.queue, t);
  }

  // ---------------------------------------------------------------------
  // What the run maintains

  /** The rows of an extended output. */
  lemma EmittedRowsAppend(out: seq<Emitted>, order: seq<nat>, eff: Eff)
    ensures EmittedRows(out + Tagged(order, eff)) == EmittedRows(out) + order
  {
    assert EmittedRows(out + Tagged(order, eff)) == EmittedRows(out) + order;
  }

  /** Candidate row `i` is dealt with: it is met, or a queued group still
      aims at it. */
  predicate Handled(cfg: Config, st: State, i: nat)
    requires i < |cfg.table| && Covers(cfg, st.cur) && QueueOk(cfg, st.queue)
  {
    Met(cfg, st.cur, i) || Aims(st.queue, i)
  }

  /** What every state of a run from the level map `cur0` satisfies: the
      output is a legal build order from `cur0` that puts prerequisites
      first, and the level map is what it leads to; every queued group is
      such an order from the current levels; and every candidate passed so
      far is met or queued. */
  predicate Inv(cfg: ValidConfig, stream: seq<nat>, cur0: map<string, nat>, st: State) {
    && ValidIndices(cfg, stream) && st.pos <= |stream|
    && Covers(cfg, cur0) && Covers(cfg, st.cur) && QueueOk(cfg, st.queue)
    && Legal(cfg, cur0, EmittedRows(st.out))
    && PrereqsFirst(cfg, cur0, EmittedRows(st.out))
    && st.cur == Applied(cfg, cur0, EmittedRows(st.out))
    && (forall k :: 0 <= k < |st.queue| ==> Legal(cfg, st.cur, st.queue[k].order))
    && QueuePrereqs(cfg, st.cur, st.queue)
    && (forall k :: 0 <= k < st.pos ==> Handled(cfg, st, stream[k]))
  }

  lemma InvInit(cfg: ValidConfig, stream: seq<nat>, cur0: map<string, nat>)
    requires ValidIndices(cfg, stream) && Covers(cfg, cur0)
    ensures Inv(cfg, stream, cur0, State(0, [], cur0, []))
  {
    assert EmittedRows([]) == [];
    forall x | x in cur0
      ensures Consecutive(LevelsOf(cfg, [], x), cur0[x])
    {
      assert LevelsOf(cfg, [], x) == [];
    }
  }

  /** A met row stays met when a legal order is committed. */
  lemma MetGrows(cfg: Config, cur: map<string, nat>, s: seq<nat>, i: nat)
    requires Legal(cfg, cur, s) && Covers(cfg, cur) && i < |cfg.table| && Met(cfg, cur, i)
    ensures Covers(cfg, Applied(cfg, cur, s)) && Met(cfg, Applied(cfg, cur, s), i)
  {
    AppliedGrows(cfg, cur, s);
    AppliedKeys(cfg, cur, s);
  }

  lemma InvSkip(cfg: ValidConfig, metric: Metric, stream: seq<nat>, cur0: map<string, nat>, st: State)
    requires Inv(cfg, stream, cur0, st) && st.pos < |stream| && Met(cfg, st.cur, stream[st.pos])
    ensures Inv(cfg, stream, cur0, st.(pos := st.pos + 1))
  {
    assert Handled(cfg, st, stream[st.pos]);
  }

  lemma InvEnqueue(cfg: ValidConfig, metric: Metric, stream: seq<nat>, cur0: map<string, nat>, st: State,
                   order: seq<nat>)
    requires Inv(cfg, stream, cur0, st) && st.pos < |stream|
    requires Legal(cfg, st.cur, order) && order != [] && order[|order| - 1] == stream[st.pos]
    requires PrereqsFirst(cfg, st.cur, order)
    ensures Inv(cfg, stream, cur0, st.(pos := st.pos + 1,
                 queue := st.queue + [Group(Efficiency(cfg, order, metric), order, Names(cfg, order))]))
  {
    var g := Group(Efficiency(cfg, order, metric), order, Names(cfg, order));
    var st' := st.(pos := st.pos + 1, queue := st.queue + [g]);
    assert GroupOk(cfg, g);
    assert QueueOk(cfg, st'.queue);
    forall k | 0 <= k < |st'.queue|
      ensures Legal(cfg, st'.cur, st'.queue[k].order) && PrereqsFirst(cfg, st'.cur, st'.queue[k].order)
    {
      if k < |st.queue| {
        assert st'.queue[k] == st.queue[k];
      }
    }
    forall k | 0 <= k < st'.pos
      ensures Handled(cfg, st', stream[k])
    {
      if k == st.pos {
        AimsAt([g], 0);
        AimsAppend(st.queue, [g], stream[k]);
      } else if !Met(cfg, st.cur, stream[k]) {
        assert Handled(cfg, st, stream[k]);
        AimsAppend(st.queue, [g], stream[k]);
      }
    }
  }

  /** Committing a legal order and refreshing the rest of the queue keeps
      the invariant, provided every candidate up to the new position is
      met after the commit or aimed at by a remaining group. */
  lemma InvCommit(cfg: ValidConfig, metric: Metric, stream: seq<nat>, cur0: map<string, nat>, st: State,
                  q: seq<Group>, order: seq<nat>, eff: Eff, pos: nat)
    requires Inv(cfg, stream, cur0, st) && pos <= |stream|
    requires QueueOk(cfg, q) && forall k :: 0 <= k < |q| ==> Legal(cfg, st.cur, q[k].order)
    requires QueuePrereqs(cfg, st.cur, q)
    requires Legal(cfg, st.cur, order) && PrereqsFirst(cfg, st.cur, order)
    requires Covers(cfg, Applied(cfg, st.cur, order))
    requires forall k :: 0 <= k < pos ==> Met(cfg, Applied(cfg, st.cur, order), stream[k]) || Aims(q, stream[k])
    ensures Inv(cfg, stream, cur0, AfterCommit(cfg, metric, q, st.cur, st.out, order, eff, pos))
  {
    var rows := EmittedRows(st.out);
    var cur' := Applied(cfg, st.cur, order);
    var st' := AfterCommit(cfg, metric, q, st.cur, st.out, order, eff, pos);
    AppliedKeys(cfg, st.cur, order);
    EmittedRowsAppend(st.out, order, eff);
    LegalAppend(cfg, cur0, rows, order);
    assert EmittedRows(st'.out) == rows + order;
    forall x | x in st.cur && x !in Names(cfg, order)
      ensures x in cur' && cur'[x] == st.cur[x]
    {
      AppliedFrame(cfg, st.cur, order, x);
    }
    RefreshedLegal(cfg, st.cur, cur', Names(cfg, order), metric, q);
    CommitPrereqs(cfg, metric, cur0, st, q, order, eff, pos);
    forall k | 0 <= k < pos
      ensures Handled(cfg, st', stream[k])
    {
      if !Met(cfg, cur', stream[k]) {
        var j :| 0 <= j < |q| && q[j].order != [] && Target(q[j]) == stream[k];
        RefreshedCovers(cfg, cur', Names(cfg, order), metric, q, j);
      }
    }
  }

  /** Committing an order that puts prerequisites first keeps the output
      and the refreshed queue doing so. */
  lemma CommitPrereqs(cfg: ValidConfig, metric: Metric, cur0: map<string, nat>, st: State,
                      q: seq<Group>, order: seq<nat>, eff: Eff, pos: nat)
    requires Covers(cfg, cur0) && Covers(cfg, st.cur) && QueueOk(cfg, q) && ValidIndices(cfg, EmittedRows(st.out))
    requires PrereqsFirst(cfg, cur0, EmittedRows(st.out)) && st.cur == Applied(cfg, cur0, EmittedRows(st.out))
    requires QueuePrereqs(cfg, st.cur, q)
    requires Legal(cfg, st.cur, order) && PrereqsFirst(cfg, st.cur, order)
    ensures var st' := AfterCommit(cfg, metric, q, st.cur, st.out, order, eff, pos);
      && PrereqsFirst(cfg, cur0, EmittedRows(st'.out))
      && QueuePrereqs(cfg, st'.cur, st'.queue)
  {
    var st' := AfterCommit(cfg, metric, q, st.cur, st.out, order, eff, pos);
    assert st'.out == st.out + Tagged(order, eff);
    EmittedRowsAppend(st.out, order, eff);
    PrereqsFirstAppend(cfg, cur0, EmittedRows(st.out), order);
    var cur' := Applied(cfg, st.cur, order);
    AppliedGrows(cfg, st.cur, order);
    AppliedKeys(cfg, st.cur, order);
    assert st'.cur == cur' && st'.queue == Refreshed(cfg, cur', Names(cfg, order), metric, q);
    RefreshedPrereqs(cfg, st.cur, cur', Names(cfg, order), metric, q);
  }

  lemma InvSingle(cfg: ValidConfig, metric: Metric, stream: seq<nat>, cur0: map<string, nat>, st: State,
                  order: seq<nat>)
    requires Inv(cfg, stream, cur0, st) && st.pos < |stream|
    requires Legal(cfg, st.cur, order) && order != [] && order[|order| - 1] == stream[st.pos]
    requires PrereqsFirst(cfg, st.cur, order)
    ensures Inv(cfg, stream, cur0,
                AfterCommit(cfg, metric, st.queue, st.cur, st.out, order, Efficiency(cfg, order, metric), st.pos + 1))
  {
    SingleHandled(cfg, stream, cur0, st, order);
    InvCommit(cfg, metric, stream, cur0, st, st.queue, order, Efficiency(cfg, order, metric), st.pos + 1);
  }

  /** After a single upgrade for the current candidate, every candidate up
      to and including it is met or still aimed at by a queued group. */
  lemma SingleHandled(cfg: ValidConfig, stream: seq<nat>, cur0: map<string, nat>, st: State, order: seq<nat>)
    requires Inv(cfg, stream, cur0, st) && st.pos < |stream|
    requires Legal(cfg, st.cur, order) && order != [] && order[|order| - 1] == stream[st.pos]
    ensures Covers(cfg, Applied(cfg, st.cur, order))
    ensures forall k :: 0 <= k < st.pos + 1 ==>
      Met(cfg, Applied(cfg, st.cur, order), stream[k]) || Aims(st.queue, stream[k])
  {
    AppliedMeets(cfg, st.cur, order);
    var cur' := Applied(cfg, st.cur, order);
    forall k | 0 <= k < st.pos + 1
      ensures Met(cfg, cur', stream[k]) || Aims(st.queue, stream[k])
    {
      if k == st.pos {
        assert stream[k] == order[|order| - 1];
      } else if Met(cfg, st.cur, stream[k]) {
        MetGrows(cfg, st.cur, order, stream[k]);
      } else {
        assert Handled(cfg, st, stream[k]);
      }
    }
  }

  lemma InvPop(cfg: ValidConfig, metric: Metric, stream: seq<nat>, cur0: map<string, nat>, st: State, t: nat)
    requires Inv(cfg, stream, cur0, st) && t < |st.queue|
    ensures QueueOk(cfg, RemoveAt(st.queue, t))
    ensures Inv(cfg, stream, cur0,
          AfterCommit(cfg, metric, RemoveAt(st.queue, t), st.cur, st.out, st.queue[t].order, st.queue[t].efficiency, st.pos))
  {
    RemoveAtOk(cfg, st.queue, t);
    var q := RemoveAt(st.queue, t);
    var order := st.queue[t].order;
    AppliedMeets(cfg, st.cur, order);
    var cur' := Applied(cfg, st.cur, order);
    forall k | 0 <= k < |q|
      ensures Legal(cfg, st.cur, q[k].order) && PrereqsFirst(cfg, st.cur, q[k].order)
    {
      assert q[k] == st.queue[if k < t then k else k + 1];
    }
    forall k | 0 <= k < st.pos
      ensures Met(cfg, cur', stream[k]) || Aims(q, stream[k])
    {
      if Met(cfg, st.cur, stream[k]) {
        MetGrows(cfg, st.cur, order, stream[k]);
      } else {
        assert Handled(cfg, st, stream[k]);
        AimsRemoveAt(st.queue, t, stream[k]);
      }
    }
    InvCommit(cfg, metric, stream, cur0, st, q, order, st.queue[t].efficiency, st.pos);
  }

  /** Every iteration keeps the invariant and never lowers a level. */
  lemma InvStep(cfg: ValidConfig, metric: Metric, stream: seq<nat>, cur0: map<string, nat>, st: State)
    requires Inv(cfg, stream, cur0, st) && st.pos < |stream|
    ensures Inv(cfg, stream, cur0, Step(cfg, metric, stream, st))
    ensures forall x :: x in st.cur ==>
      x in Step(cfg, metric, stream, st).cur && Step(cfg, metric, stream, st).cur[x] >= st.cur[x]
  {
    var order := Resolve(cfg, st.cur, stream[st.pos]);
    ResolveLegal(cfg, st.cur, stream[st.pos]);
    ResolvePrereqs(cfg, st.cur, stream[st.pos]);
    if order == [] {
      StepSkip(cfg, metric, stream, st);
      InvSkip(cfg, metric, stream, cur0, st);
    } else if |order| > 1 {
      StepEnqueue(cfg, metric, stream, st, order);
      InvEnqueue(cfg, metric, stream, cur0, st, order);
    } else if st.queue == [] || Less(Efficiency(cfg, order, metric), Best(st.queue).efficiency) {
      StepSingle(cfg, metric, stream, st, order);
      InvSingle(cfg, metric, stream, cur0, st, order);
      AppliedGrows(cfg, st.cur, order);
    } else {
      var t := StepPop(cfg, metric, stream, st, order);
      InvPop(cfg, metric, stream, cur0, st, t);
      AppliedGrows(cfg, st.cur, st.queue[t].order);
    }
  }

  lemma {:induction false} RunInv(cfg: ValidConfig, metric: Metric, stream: seq<nat>, cur0: map<string, nat>,
                                  st: State)
    requires Inv(cfg, stream, cur0, st) && st.pos < |stream|
    ensures Inv(cfg, stream, cur0, Run(cfg, metric, stream, st))
    ensures forall x :: x in st.cur ==>
      x in Run(cfg, metric, stream, st).cur && Run(cfg, metric, stream, st).cur[x] >= st.cur[x]
    decreases |stream| - st.pos, |st.queue|
  {
    var st' := Step(cfg, metric, stream, st);
    InvStep(cfg, metric, stream, cur0, st);
    RunStep(cfg, metric, stream, st);
    if st'.pos < |stream| {
      RunInv(cfg, metric, stream, cur0, st');
    }
  }

  /** The result of `sort_by_efficiency` from the level map `cur0`: the
      emitted rows form a legal build order from `cur0` (every building's
      levels appear once each, in increasing order, with no level skipped),
      the final level map is exactly what that order leads to, no level ever
      drops, no building is started before its declared prerequisites have
      reached their required levels, and every candidate row is met at the
      end or still sits in the queue as the target of a group. */
  lemma RunCorrect(cfg: ValidConfig, metric: Metric, stream: seq<nat>, cur0: map<string, nat>)
    requires stream != [] && ValidIndices(cfg, stream) && Covers(cfg, cur0)
    ensures var fin := Run(cfg, metric, stream, State(0, [], cur0, []));
      && Legal(cfg, cur0, EmittedRows(fin.out))
      && PrereqsFirst(cfg, cur0, EmittedRows(fin.out))
      && fin.cur == Applied(cfg, cur0, EmittedRows(fin.out))
      && (forall x :: x in cur0 ==> x in fin.cur && fin.cur[x] >= cur0[x])
      && QueueOk(cfg, fin.queue)
      && forall k :: 0 <= k < |stream| ==>
           Met(cfg, fin.cur, stream[k]) || Aims(fin.queue, stream[k])
  {
    InvInit(cfg, stream, cur0);
    RunInv(cfg, metric, stream, cur0, State(0, [], cur0, []));
    var fin := Run(cfg, metric, stream, State(0, [], cur0, []));
    forall k | 0 <= k < |stream|
      ensures Met(cfg, fin.cur, stream[k]) || Aims(fin.queue, stream[k])
    {
      assert Handled(cfg, fin, stream[k]);
    }
  }

  // ---------------------------------------------------------------------
  // The statement order as written

  lemma RunAsWrittenStep(cfg: ValidConfig, metric: Metric, stream: seq<nat>, st: State)
    requires StateOk(cfg, stream, st)
    ensures var st' := StepAsWritten(cfg, metric, stream, st);
      RunAsWritten(cfg, metric, stream, st)
        == if st'.pos == |stream| then st' else RunAsWritten(cfg, metric, stream, st')
  {
  }

  /** The iteration as written agrees with the corrected one except for a
      single upgrade on the last candidate, where it applies the level and
      stops without emitting the row. */
  lemma StepAsWrittenCases(cfg: ValidConfig, metric: Metric, stream: seq<nat>, st: State)
    requires StateOk(cfg, stream, st)
    ensures Kind(cfg, metric, stream, st) == Single && st.pos + 1 == |stream| ==>
      var order := Resolve(cfg, st.cur, stream[st.pos]);
      StepAsWritten(cfg, metric, stream, st) == st.(pos := st.pos + 1, cur := Applied(cfg, st.cur, order))
    ensures !(Kind(cfg, metric, stream, st) == Single && st.pos + 1 == |stream|) ==>
      StepAsWritten(cfg, metric, stream, st) == Step(cfg, metric, stream, st)
  {
  }

  /** A single upgrade on the last candidate: both runs end there with the
      same levels, and the run as written lacks the row the corrected run
      emits last. */
  lemma DropAtEnd(cfg: ValidConfig, metric: Metric, stream: seq<nat>, st: State)
    requires StateOk(cfg, stream, st) && Kind(cfg, metric, stream, st) == Single && st.pos + 1 == |stream|
    ensures var a, c := RunAsWritten(cfg, metric, stream, st), Run(cfg, metric, stream, st);
      a.cur == c.cur && c.out != [] && a.out + [c.out[|c.out| - 1]] == c.out
  {
    RunStep(cfg, metric, stream, st);
    RunAsWrittenStep(cfg, metric, stream, st);
    StepAsWrittenCases(cfg, metric, stream, st);
    var order := Resolve(cfg, st.cur, stream[st.pos]);
    var eff := Efficiency(cfg, order, metric);
    StepSingle(cfg, metric, stream, st, order);
    var c := AfterCommit(cfg, metric, st.queue, st.cur, st.out, order, eff, st.pos + 1);
    assert Tagged(order, eff) == [Emitted(order[0], eff)];
    assert c.out == st.out + [Emitted(order[0], eff)];
  }

  /** The run as written differs from the corrected run only in losing the
      last emitted row: the final levels agree, and the output is either
      the same or one row short. */
  lemma {:induction false} RunAsWrittenDrop(cfg: ValidConfig, metric: Metric, stream: seq<nat>, st: State)
    requires StateOk(cfg, stream, st)
    ensures var a, c := RunAsWritten(cfg, metric, stream, st), Run(cfg, metric, stream, st);
      a.cur == c.cur && (a.out == c.out || (c.out != [] && a.out + [c.out[|c.out| - 1]] == c.out))
    decreases |stream| - st.pos, |st.queue|
  {
    if Kind(cfg, metric, stream, st) == Single && st.pos + 1 == |stream| {
      DropAtEnd(cfg, metric, stream, st);
    } else {
      RunStep(cfg, metric, stream, st);
      RunAsWrittenStep(cfg, metric, stream, st);
      StepAsWrittenCases(cfg, metric, stream, st);
      var st' := Step(cfg, metric, stream, st);
      if st'.pos < |stream| {
        RunAsWrittenDrop(cfg, metric, stream, st');
      }
    }
  }

  /** A one-row table: a single building at level 0 whose level 1 is the
      only candidate. */
  const OneRow: ValidConfig :=
    Config([Row("Cranny", 1, 40, 60, 1)], map[("Cranny", 1) := 0], map[], map["Cranny" := 0])

  /** On the one-row table the run as written raises the building to level 1
      but returns no row, so its output no longer accounts for the level
      map; the corrected run emits the row. */
  lemma LastSingleLost()
    ensures var cur0 := map["Cranny" := 0];
      var a := RunAsWritten(OneRow, Res, [0], State(0, [], cur0, []));
      var c := Run(OneRow, Res, [0], State(0, [], cur0, []));
      && a.out == [] && a.cur["Cranny"] == 1 && a.cur != Applied(OneRow, cur0, EmittedRows(a.out))
      && c.out == [Emitted(0, Val(40.0))] && c.cur == a.cur
  {
    var cur0 := map["Cranny" := 0];
    var st := State(0, [], cur0, []);
    var order := Resolve(OneRow, cur0, 0);
    assert !Met(OneRow, cur0, 0);
    assert order == [0];
    EfficiencySingle(OneRow, 0, Res);
    StepSingle(OneRow, Res, [0], st, order);
    assert EmittedRows([]) == [];
  }

  // ---------------------------------------------------------------------
  // The driver (`sort_by_efficiency`)

  /** The tail of an iteration that commits: `_create_build_order_df` on
      `order`, then `update_priorty_queue` with the buildings it touched. */
  method Settle(cfg: ValidConfig, ls: LevelState, queue: GroupPriorityQueue, order: seq<nat>)
    requires ValidIndices(cfg, order) && Covers(cfg, ls.level)
    requires queue.Valid() && QueueOk(cfg, queue.pQueue)
    modifies ls, queue
    ensures ls.level == Applied(cfg, old(ls.level), order) && Covers(cfg, ls.level)
    ensures queue.pQueue == Refreshed(cfg, ls.level, Names(cfg, order), queue.valueType, old(queue.pQueue))
    ensures QueueOk(cfg, queue.pQueue) && |queue.pQueue| <= |old(queue.pQueue)| && queue.Valid()
  {
    AppliedKeys(cfg, ls.level, order);
    var _, updated := Commit(cfg, ls, order);
    RefreshedShape(cfg, ls.level, updated, queue.valueType, queue.pQueue);
    queue.UpdatePriorityQueue(cfg, updated, ls.level);
  }

  /** Commit the best queued group: pop it, apply its levels and refresh
      the rest of the queue against the buildings it touched. */
  method CommitBest(cfg: ValidConfig, ls: LevelState, queue: GroupPriorityQueue) returns (popped: Group)
    requires queue.pQueue != [] && queue.Valid() && QueueOk(cfg, queue.pQueue) && Covers(cfg, ls.level)
    modifies ls, queue
    ensures var q, t := old(queue.pQueue), TopIndex(old(queue.pQueue));
      && popped == q[t]
      && ls.level == Applied(cfg, old(ls.level), popped.order) && Covers(cfg, ls.level)
      && queue.pQueue == Refreshed(cfg, ls.level, Names(cfg, popped.order), queue.valueType, RemoveAt(q, t))
    ensures queue.Valid()
  {
    ghost var t := TopIndex(queue.pQueue);
    RemoveAtOk(cfg, queue.pQueue, t);
    popped := queue.Pop();
    Settle(cfg, ls, queue, popped.order);
  }

  /** One pass of the loop of `sort_by_efficiency`: resolve the current
      candidate and skip it, queue it, commit it, or commit the best
      queued group instead. */
  method Iterate(cfg: ValidConfig, stream: seq<nat>, ls: LevelState, queue: GroupPriorityQueue,
                 pos: nat, out: seq<Emitted>) returns (pos': nat, out': seq<Emitted>)
    requires StateOk(cfg, stream, State(pos, queue.pQueue, ls.level, out)) && queue.Valid()
    modifies ls, queue
    ensures State(pos', queue.pQueue, ls.level, out')
      == Step(cfg, queue.valueType, stream, State(pos, old(queue.pQueue), old(ls.level), out))
    ensures queue.Valid()
  {
    ghost var st := State(pos, queue.pQueue, ls.level, out);
    var order := Resolve(cfg, ls.level, stream[pos]);
    if order == [] {
      StepSkip(cfg, queue.valueType, stream, st);
      return pos + 1, out;
    }
    var eff := EffectiveEfficiency(cfg, order, queue.valueType);
    if |order| > 1 {
      StepEnqueue(cfg, queue.valueType, stream, st, order);
      var group := NewGroup(cfg, eff, order);
      queue.Push(group);
      return pos + 1, out;
    }
    pos', out' := IterateSingle(cfg, stream, ls, queue, pos, out, order, eff);
  }

  /** The single-upgrade half of one pass: the upgrade is committed when it
      beats the best queued group, and otherwise that group is. */
  method IterateSingle(cfg: ValidConfig, stream: seq<nat>, ls: LevelState, queue: GroupPriorityQueue,
                       pos: nat, out: seq<Emitted>, order: seq<nat>, eff: Eff) returns (pos': nat, out': seq<Emitted>)
    requires StateOk(cfg, stream, State(pos, queue.pQueue, ls.level, out)) && queue.Valid()
    requires order == Resolve(cfg, ls.level, stream[pos]) && |order| == 1
    requires eff == Efficiency(cfg, order, queue.valueType)
    modifies ls, queue
    ensures State(pos', queue.pQueue, ls.level, out')
      == Step(cfg, queue.valueType, stream, State(pos, old(queue.pQueue), old(ls.level), out))
    ensures queue.Valid()
  {
    ghost var st := State(pos, queue.pQueue, ls.level, out);
    if queue.Len() == 0 || Less(eff, queue.Peek()) {
      StepSingle(cfg, queue.valueType, stream, st, order);
      Settle(cfg, ls, queue, order);
      return pos + 1, out + Tagged(order, eff);
    }
    ghost var t := StepPop(cfg, queue.valueType, stream, st, order);
    var popped := CommitBest(cfg, ls, queue);
    return pos, out + Tagged(popped.order, popped.efficiency);
  }

  /** `sort_by_efficiency` over a candidate stream (the table's row indices
      in ascending order of the metric's ratio column): runs the loop on a
      priority queue of groups and the level map `ls`, and returns the rows
      it commits, each tagged with its effective efficiency. It emits a
      single upgrade before moving to the next candidate, so the last
      candidate's row is not lost (see `RunAsWritten`). */
  method SortByEfficiency(cfg: ValidConfig, stream: seq<nat>, ls: LevelState, valueType: Metric)
      returns (out: seq<Emitted>)
    requires stream != [] && ValidIndices(cfg, stream) && Covers(cfg, ls.level)
    modifies ls
    ensures var fin := Run(cfg, valueType, stream, State(0, [], old(ls.level), []));
      out == fin.out && ls.level == fin.cur
  {
    var queue := new GroupPriorityQueue({}, [], valueType);
    ghost var fin := Run(cfg, valueType, stream, State(0, [], ls.level, []));
    out := [];
    var pos := 0;
    while true
      invariant pos < |stream|
      invariant fresh(queue) && queue.valueType == valueType && queue.Valid()
      invariant QueueOk(cfg, queue.pQueue) && Covers(cfg, ls.level)
      invariant Run(cfg, valueType, stream, State(pos, queue.pQueue, ls.level, out)) == fin
      decreases |stream| - pos, |queue.pQueue|
    {
      RunStep(cfg, valueType, stream, State(pos, queue.pQueue, ls.level, out));
      pos, out := Iterate(cfg, stream, ls, queue, pos, out);
      if pos == |stream| {
        return;
      }
    }
  }
}
