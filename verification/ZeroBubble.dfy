/** The zero-bubble schedule: critical calls first inside an iteration, then a priority queue over
    (wavefront, microbatch, stage). */
module ZeroBubble {
  import opened Arithmetic
  import opened LoopTasks
  import opened Sequences
  import opened Wavefront
  import opened Wrappers

  // ---- critical calls first ----

  /** Criticality is a property of the column: all iterations of a call agree on it. */
  ghost predicate UniformCriticality(partition: Partition, tasks: seq<seq<Task>>, total: nat)
    requires IsGrid(tasks, total)
  {
    forall m, m', s :: 0 <= m < |tasks| && 0 <= m' < |tasks| && 0 <= s < total ==>
      partition.IsNonCritical(tasks[m][s].color) == partition.IsNonCritical(tasks[m'][s].color)
  }

  ghost predicate Critical(partition: Partition, row: seq<Task>, s: int)
    requires 0 <= s < |row|
  {
    !partition.IsNonCritical(row[s].color)
  }

  /** The last critical column that feeds a call, or 0. */
  function Partner(stageOf: map<nat, nat>, producers: seq<nat>): (partner: nat)
    ensures forall c :: c in producers && c in stageOf ==> stageOf[c] <= partner
    ensures partner == 0 || exists c :: c in producers && c in stageOf && stageOf[c] == partner
  {
    if producers == [] then 0
    else
      var c, rest := producers[0], Partner(stageOf, producers[1..]);
      if c in stageOf && stageOf[c] > rest then stageOf[c] else rest
  }

  /** How an iteration is reordered: the critical columns ascending, then the others, those that
      depend on the latest critical column first. */
  ghost predicate IsCriticalFirst(partition: Partition, row: seq<Task>, partner: map<nat, nat>, columns: seq<nat>) {
    && Distinct(columns)
    && (forall c: nat :: c in columns <==> c < |row|)
    && (forall i, j :: 0 <= i < j < |columns| ==> InReorder(partition, row, partner, columns[i], columns[j]))
  }

  ghost predicate InReorder(partition: Partition, row: seq<Task>, partner: map<nat, nat>, a: nat, b: nat) {
    a < |row| && b < |row| &&
    if Critical(partition, row, a) then !Critical(partition, row, b) || a < b
    else !Critical(partition, row, b) && a in partner && b in partner && partner[a] >= partner[b]
  }

  lemma ReorderAt(partition: Partition, row: seq<Task>, partner: map<nat, nat>, columns: seq<nat>, i: int, j: int)
    requires IsCriticalFirst(partition, row, partner, columns) && 0 <= i < |columns| && 0 <= j < |columns|
    ensures i < j ==> InReorder(partition, row, partner, columns[i], columns[j])
  {
  }

  /** Reordering an iteration keeps every data dependency inside it: a non-critical call feeds no other call. */
  lemma ReorderKeepsDependencies(partition: Partition, row: seq<Task>, partner: map<nat, nat>, columns: seq<nat>, i: int, j: int)
    requires IsCriticalFirst(partition, row, partner, columns)
    requires 0 <= i < |columns| && 0 <= j < |columns| && columns[i] < columns[j]
    requires columns[i] < |row| && Critical(partition, row, columns[i])
    ensures i < j
  {
    ReorderAt(partition, row, partner, columns, j, i);
  }

  /** Every call of the unrolled loop is its own instruction. */
  ghost predicate UniqueIds(tasks: seq<seq<Task>>, total: nat)
    requires IsGrid(tasks, total)
  {
    forall m, s, m', s' ::
      (0 <= m < |tasks| && 0 <= s < total && 0 <= m' < |tasks| && 0 <= s' < total && tasks[m][s].id == tasks[m'][s'].id) ==>
        m == m' && s == s'
  }

  /** `stageOf` maps the instances of the critical columns below `bound` to their column. */
  ghost predicate IsStageMap(partition: Partition, tasks: seq<seq<Task>>, total: nat, bound: nat, stageOf: map<nat, nat>)
    requires |tasks| > 0 && IsGrid(tasks, total) && bound <= total
  {
    && (forall id :: id in stageOf ==> stageOf[id] < bound && Critical(partition, tasks[0], stageOf[id]))
    && (forall m, s: nat :: 0 <= m < |tasks| && s < total ==>
         (tasks[m][s].id in stageOf <==> s < bound && Critical(partition, tasks[0], s)))
    && (forall m, s: nat :: 0 <= m < |tasks| && s < total && tasks[m][s].id in stageOf ==> stageOf[tasks[m][s].id] == s)
  }

  /** `stageOf` adds the first `iter` instances of column `stage` to `before`. */
  ghost predicate ExtendsStageMap(tasks: seq<seq<Task>>, total: nat, stage: nat, iter: nat, before: map<nat, nat>, stageOf: map<nat, nat>)
    requires IsGrid(tasks, total) && stage < total
  {
    && (forall id :: id in before ==> id in stageOf)
    && (forall id :: id in stageOf ==> if id in before then stageOf[id] == before[id] else stageOf[id] == stage)
    && (forall m, s: nat :: 0 <= m < |tasks| && s < total ==>
         (tasks[m][s].id in stageOf <==> tasks[m][s].id in before || (m < iter && s == stage)))
  }

  lemma StageMapStep(tasks: seq<seq<Task>>, total: nat, stage: nat, iter: nat, before: map<nat, nat>, stageOf: map<nat, nat>)
    requires IsGrid(tasks, total) && stage < total && iter < |tasks| && UniqueIds(tasks, total)
    requires tasks[iter][stage].id !in before
    requires ExtendsStageMap(tasks, total, stage, iter, before, stageOf)
    ensures ExtendsStageMap(tasks, total, stage, iter + 1, before, stageOf[tasks[iter][stage].id := stage])
  {
  }

  lemma StageMapExtended(partition: Partition, tasks: seq<seq<Task>>, total: nat, stage: nat, before: map<nat, nat>, stageOf: map<nat, nat>)
    requires |tasks| > 0 && IsGrid(tasks, total) && stage < total
    requires Critical(partition, tasks[0], stage) && IsStageMap(partition, tasks, total, stage, before)
    requires ExtendsStageMap(tasks, total, stage, |tasks|, before, stageOf)
    ensures IsStageMap(partition, tasks, total, stage + 1, stageOf)
  {
  }

  /** `reordered` holds the given columns of every iteration, in the given order. */
  ghost predicate IsProjection(tasks: seq<seq<Task>>, total: nat, columns: seq<nat>, reordered: seq<seq<Task>>)
    requires IsGrid(tasks, total)
  {
    && |reordered| == |tasks| && IsGrid(reordered, |columns|)
    && (forall k :: 0 <= k < |columns| ==> columns[k] < total)
    && (forall m, k :: 0 <= m < |tasks| && 0 <= k < |columns| ==> reordered[m][k] == tasks[m][columns[k]])
  }

  /** Appends column `stage` to every reordered iteration. */
  method PushColumn(tasks: seq<seq<Task>>, total: nat, ghost columns: seq<nat>, reordered: seq<seq<Task>>, stage: nat)
    returns (pushed: seq<seq<Task>>)
    requires IsGrid(tasks, total) && stage < total && IsProjection(tasks, total, columns, reordered)
    ensures IsProjection(tasks, total, columns + [stage], pushed)
  {
    pushed := reordered;
    for iter := 0 to |tasks|
      invariant |pushed| == |tasks|
      invariant forall m :: 0 <= m < |tasks| ==>
        pushed[m] == if m < iter then reordered[m] + [tasks[m][stage]] else reordered[m]
    {
      pushed := pushed[iter := pushed[iter] + [tasks[iter][stage]]];
    }
  }

  /** Every iteration's task of a critical column is in that column's stage. */
  method MapColumn(ghost partition: Partition, tasks: seq<seq<Task>>, total: nat, stage: nat, before: map<nat, nat>) returns (stageOf: map<nat, nat>)
    requires |tasks| > 0 && IsGrid(tasks, total) && UniqueIds(tasks, total) && stage < total
    requires IsStageMap(partition, tasks, total, stage, before) && !partition.IsNonCritical(tasks[0][stage].color)
    ensures IsStageMap(partition, tasks, total, stage + 1, stageOf)
  {
    stageOf := before;
    for iter := 0 to |tasks|
      invariant ExtendsStageMap(tasks, total, stage, iter, before, stageOf)
    {
      StageMapStep(tasks, total, stage, iter, before, stageOf);
      stageOf := stageOf[tasks[iter][stage].id := stage];
    }
    StageMapExtended(partition, tasks, total, stage, before, stageOf);
  }

  method CriticalColumns(partition: Partition, tasks: seq<seq<Task>>, total: nat)
    returns (columns: seq<nat>, stageOf: map<nat, nat>, reordered: seq<seq<Task>>)
    requires |tasks| > 0 && IsGrid(tasks, total) && UniqueIds(tasks, total)
    ensures forall i, j :: 0 <= i < j < |columns| ==> columns[i] < columns[j]
    ensures forall c: nat :: c in columns <==> c < total && Critical(partition, tasks[0], c)
    ensures IsStageMap(partition, tasks, total, total, stageOf)
    ensures IsProjection(tasks, total, columns, reordered)
  {
    columns, stageOf := [], map[];
    reordered := seq(|tasks|, _ => []);
    for stage := 0 to total
      invariant forall k :: 0 <= k < |columns| ==> columns[k] < stage
      invariant forall i, j :: 0 <= i < j < |columns| ==> columns[i] < columns[j]
      invariant forall c: nat :: c in columns <==> c < stage && Critical(partition, tasks[0], c)
      invariant IsStageMap(partition, tasks, total, stage, stageOf)
      invariant IsProjection(tasks, total, columns, reordered)
    {
      if !partition.IsNonCritical(tasks[0][stage].color) {
        stageOf := MapColumn(partition, tasks, total, stage, stageOf);
        reordered := PushColumn(tasks, total, columns, reordered, stage);
        columns := columns + [stage];
      }
    }
  }

  method NonCriticalStages(partition: Partition, row: seq<Task>, stageOf: map<nat, nat>) returns (queue: map<nat, nat>)
    ensures forall s: nat :: s in queue <==> s < |row| && !Critical(partition, row, s)
    ensures forall s :: s in queue ==> queue[s] == Partner(stageOf, row[s].producers)
  {
    queue := map[];
    for stage := 0 to |row|
      invariant forall s: nat :: s in queue <==> s < stage && !Critical(partition, row, s)
      invariant forall s :: s in queue ==> queue[s] == Partner(stageOf, row[s].producers)
    {
      if partition.IsNonCritical(row[stage].color) {
        queue := queue[stage := Partner(stageOf, row[stage].producers)];
      }
    }
  }

  lemma {:induction false} GreatestExists(queue: set<nat>, partner: map<nat, nat>) returns (top: nat)
    requires queue != {} && queue <= partner.Keys
    ensures top in queue && forall s :: s in queue ==> partner[s] <= partner[top]
    decreases |queue|
  {
    top :| top in queue;
    if queue != {top} {
      var other := GreatestExists(queue - {top}, partner);
      if partner[other] > partner[top] {
        top := other;
      }
    }
  }

  /** The columns chosen so far, while the queue still holds the non-critical columns to come. */
  ghost predicate PartlyReordered(partition: Partition, row: seq<Task>, partner: map<nat, nat>, columns: seq<nat>, queue: set<nat>) {
    && Distinct(columns) && queue <= partner.Keys
    && (forall c: nat :: c in columns <==> c < |row| && c !in queue)
    && (forall s: nat :: s in partner <==> s < |row| && !Critical(partition, row, s))
    && (forall i, j :: 0 <= i < j < |columns| ==> InReorder(partition, row, partner, columns[i], columns[j]))
    && (forall k, s :: 0 <= k < |columns| && s in queue && columns[k] in partner ==> partner[columns[k]] >= partner[s])
  }

  lemma PopKeepsOrder(partition: Partition, row: seq<Task>, partner: map<nat, nat>, columns: seq<nat>, queue: set<nat>, top: nat)
    requires PartlyReordered(partition, row, partner, columns, queue)
    requires top in queue && forall s :: s in queue ==> partner[s] <= partner[top]
    ensures PartlyReordered(partition, row, partner, columns + [top], queue - {top})
  {
    forall k | 0 <= k < |columns| ensures InReorder(partition, row, partner, columns[k], top) && columns[k] != top {
      assert columns[k] in columns;
    }
  }

  lemma CriticalColumnsStart(partition: Partition, row: seq<Task>, partner: map<nat, nat>, columns: seq<nat>)
    requires forall i, j :: 0 <= i < j < |columns| ==> columns[i] < columns[j]
    requires forall c: nat :: c in columns <==> c < |row| && Critical(partition, row, c)
    requires forall s: nat :: s in partner <==> s < |row| && !Critical(partition, row, s)
    ensures PartlyReordered(partition, row, partner, columns, partner.Keys)
    ensures |columns| == |CriticalSet(partition, row)|
  {
    forall k | 0 <= k < |columns| ensures columns[k] < |row| && Critical(partition, row, columns[k]) {
      assert columns[k] in columns;
    }
    DistinctSize(columns);
    assert CriticalSet(partition, row) == Elements(columns);
  }

  ghost function CriticalSet(partition: Partition, row: seq<Task>): set<nat> {
    set c: nat | c < |row| && Critical(partition, row, c)
  }

  /** Drains the priority queue of non-critical columns. Ties are broken arbitrarily. */
  method PushNonCritical(partition: Partition, tasks: seq<seq<Task>>, total: nat, nonCritical: map<nat, nat>, critical: seq<nat>, prefix: seq<seq<Task>>)
    returns (columns: seq<nat>, reordered: seq<seq<Task>>)
    requires |tasks| > 0 && IsGrid(tasks, total)
    requires PartlyReordered(partition, tasks[0], nonCritical, critical, nonCritical.Keys)
    requires IsProjection(tasks, total, critical, prefix)
    ensures PartlyReordered(partition, tasks[0], nonCritical, columns, {})
    ensures IsProjection(tasks, total, columns, reordered)
  {
    columns, reordered := critical, prefix;
    var queue := nonCritical.Keys;
    while queue != {}
      invariant PartlyReordered(partition, tasks[0], nonCritical, columns, queue)
      invariant IsProjection(tasks, total, columns, reordered)
      decreases |queue|
    {
      ghost var greatest := GreatestExists(queue, nonCritical);
      var top :| top in queue && forall s :: s in queue ==> nonCritical[s] <= nonCritical[top];
      PopKeepsOrder(partition, tasks[0], nonCritical, columns, queue, top);
      reordered := PushColumn(tasks, total, columns, reordered, top);
      columns := columns + [top];
      queue := queue - {top};
    }
  }

  /** The column order of one iteration, and the reordered tasks of every iteration. */
  method ReorderColumns(partition: Partition, tasks: seq<seq<Task>>, total: nat)
    returns (columns: seq<nat>, critical: nat, reordered: seq<seq<Task>>, ghost stageOf: map<nat, nat>, ghost partner: map<nat, nat>)
    requires |tasks| > 0 && IsGrid(tasks, total) && UniqueIds(tasks, total) && UniformCriticality(partition, tasks, total)
    ensures IsStageMap(partition, tasks, total, total, stageOf)
    ensures forall s :: s in partner ==> s < total && partner[s] == Partner(stageOf, tasks[|tasks| - 1][s].producers)
    ensures IsCriticalFirst(partition, tasks[0], partner, columns)
    ensures critical == |CriticalSet(partition, tasks[0])|
    ensures IsProjection(tasks, total, columns, reordered)
  {
    var stages;
    columns, stages, reordered := CriticalColumns(partition, tasks, total);
    critical, stageOf := |columns|, stages;
    var nonCritical := NonCriticalStages(partition, tasks[|tasks| - 1], stages);
    partner := nonCritical;
    CriticalColumnsStart(partition, tasks[0], partner, columns);
    columns, reordered := PushNonCritical(partition, tasks, total, nonCritical, columns, reordered);
  }

  // ---- the priority queue over wavefronts ----

  datatype StageGroup = StageGroup(wf: int, microbatch: int, stage: int)

  /** Smaller wavefront first, then the smaller microbatch, then the earlier stage. */
  predicate PopsBefore(a: StageGroup, b: StageGroup) {
    if a.wf != b.wf then a.wf < b.wf
    else if a.microbatch != b.microbatch then a.microbatch < b.microbatch
    else a.stage < b.stage
  }

  /** Whole minibatches are queued, also when the last one is only partly filled. */
  ghost predicate Queued(p: Pipeline, x: StageGroup)
    requires p.group > 0
  {
    && 0 <= x.microbatch < p.Minibatches() * p.group && 0 <= x.stage < p.stages
    && x.wf == WavefrontOf(p, Slot(x.microbatch, x.stage))
  }

  ghost predicate QueuedUpTo(p: Pipeline, bound: int, x: StageGroup)
    requires p.group > 0
  {
    0 <= x.microbatch < bound && 0 <= x.stage < p.stages && x.wf == WavefrontOf(p, Slot(x.microbatch, x.stage))
  }

  method FillQueue(p: Pipeline) returns (queue: set<StageGroup>)
    requires p.group > 0
    ensures forall x :: x in queue <==> Queued(p, x)
  {
    queue := {};
    for minibatch := 0 to p.Minibatches()
      invariant forall x :: x in queue <==> QueuedUpTo(p, minibatch * p.group, x)
    {
      var timeOffset := minibatch * p.delay;
      for mb := 0 to p.group
        invariant forall x :: x in queue <==> QueuedUpTo(p, minibatch * p.group + mb, x)
      {
        var microbatch := minibatch * p.group + mb;
        queue := FillMicrobatch(p, minibatch, mb, timeOffset, microbatch, queue);
      }
      MulDistributes(minibatch, 1, p.group);
    }
  }

  method FillMicrobatch(p: Pipeline, minibatch: nat, mb: nat, timeOffset: int, microbatch: int, queue: set<StageGroup>)
    returns (filled: set<StageGroup>)
    requires p.group > 0 && mb < p.group
    requires timeOffset == minibatch * p.delay && microbatch == minibatch * p.group + mb
    requires forall x :: x in queue <==> QueuedUpTo(p, microbatch, x)
    ensures forall x :: x in filled <==> QueuedUpTo(p, microbatch + 1, x)
  {
    DivModUnique(minibatch, mb, p.group);
    MulLe(0, minibatch, p.group);
    assert Tick(p, microbatch) == timeOffset + mb;
    filled := queue;
    for stage := 0 to p.stages
      invariant forall x :: x in filled <==> x in queue || (x.microbatch == microbatch && 0 <= x.stage < stage && x.wf == timeOffset + mb + x.stage)
    {
      filled := filled + {StageGroup(timeOffset + mb + stage, microbatch, stage)};
    }
  }

  lemma {:induction false} FirstExists(queue: set<StageGroup>) returns (top: StageGroup)
    requires queue != {}
    ensures top in queue && forall x :: x in queue && x != top ==> PopsBefore(top, x)
    decreases |queue|
  {
    var some :| some in queue;
    top := some;
    if queue != {some} {
      var other := FirstExists(queue - {some});
      top := if PopsBefore(other, some) then other else some;
      forall x | x in queue && x != top ensures PopsBefore(top, x) {
        if x != some {
          assert x in queue - {some};
        }
      }
    }
  }

  ghost predicate PopOrder(order: seq<StageGroup>) {
    forall i, j :: 0 <= i < j < |order| ==> PopsBefore(order[i], order[j])
  }

  ghost predicate IsZeroBubbleOrder(p: Pipeline, order: seq<StageGroup>)
    requires p.group > 0
  {
    PopOrder(order) && forall x :: x in order <==> Queued(p, x)
  }

  /** The slots behind the popped groups. */
  ghost function Origin(columns: seq<nat>, order: seq<StageGroup>): (r: seq<Slot>)
    requires forall k :: 0 <= k < |order| ==> 0 <= order[k].stage < |columns|
    ensures |r| == |order|
    ensures forall k :: 0 <= k < |r| ==> r[k] == Slot(order[k].microbatch, columns[order[k].stage])
  {
    seq(|order|, k requires 0 <= k < |order| => Slot(order[k].microbatch, columns[order[k].stage]))
  }

  /** The groups popped so far precede those still queued. */
  ghost predicate Popped(p: Pipeline, order: seq<StageGroup>, queue: set<StageGroup>)
    requires p.group > 0
  {
    && PopOrder(order)
    && (forall x :: Queued(p, x) <==> x in order || x in queue)
    && (forall k, x :: 0 <= k < |order| && x in queue ==> PopsBefore(order[k], x))
  }

  lemma PopStep(p: Pipeline, order: seq<StageGroup>, queue: set<StageGroup>, top: StageGroup)
    requires p.group > 0 && Popped(p, order, queue)
    requires top in queue && forall x :: x in queue && x != top ==> PopsBefore(top, x)
    ensures Popped(p, order + [top], queue - {top})
  {
  }

  /** Pops the queue, looking each group up in the reordered tasks. */
  method DrainQueue(p: Pipeline, ghost tasks: seq<seq<Task>>, ghost columns: seq<nat>, reordered: seq<seq<Task>>, groups: set<StageGroup>)
    returns (r: Result<seq<seq<Task>>>, ghost order: seq<StageGroup>)
    requires p.group > 0 && |tasks| == p.microbatches && IsGrid(tasks, p.stages) && |columns| == p.stages
    requires IsProjection(tasks, p.stages, columns, reordered)
    requires forall x :: x in groups <==> Queued(p, x)
    ensures forall k :: 0 <= k < |order| ==> 0 <= order[k].stage < |columns|
    ensures r.Failure? <==> p.microbatches % p.group != 0 && p.stages > 0
    ensures r.Success? ==> IsZeroBubbleOrder(p, order)
    ensures r.Success? ==> |r.value| == 1 && Realizes(tasks, p.stages, r.value[0], Origin(columns, order))
  {
    var queue := groups;
    var row := [];
    order := [];
    while queue != {}
      invariant Popped(p, order, queue)
      invariant forall k :: 0 <= k < |order| ==> 0 <= order[k].microbatch < |tasks| && 0 <= order[k].stage < p.stages
      invariant Realizes(tasks, p.stages, row, Origin(columns, order))
      decreases |queue|
    {
      ghost var first := FirstExists(queue);
      var group :| group in queue && forall x :: x in queue && x != group ==> PopsBefore(group, x);
      assert Queued(p, group);
      if group.microbatch >= |reordered| {
        OverfullQueue(p, group);
        r := Failure(IndexOutOfRange);
        return;
      }
      PopStep(p, order, queue, group);
      row := row + [reordered[group.microbatch][group.stage]];
      order := order + [group];
      queue := queue - {group};
    }
    QueueFits(p, order);
    r := Success([row]);
  }

  method ScheduleZeroBubble(partition: Partition, config: LoopConfig, tasks: seq<seq<Task>>)
    returns (r: Result<seq<seq<Task>>>, ghost p: Pipeline, ghost order: seq<StageGroup>, ghost columns: seq<nat>,
             ghost stageOf: map<nat, nat>, ghost partner: map<nat, nat>)
    requires config.numIterations == |tasks|
    requires |tasks| > 0 ==> IsGrid(tasks, |tasks[0]|) && Colored(partition, tasks[0])
    requires |tasks| > 0 ==> UniqueIds(tasks, |tasks[0]|) && UniformCriticality(partition, tasks, |tasks[0]|)
    ensures tasks == [] ==> r == Success([])
    ensures tasks != [] ==>
              && IsStageMap(partition, tasks, |tasks[0]|, |tasks[0]|, stageOf)
              && (forall s :: s in partner ==> s < |tasks[0]| && partner[s] == Partner(stageOf, tasks[|tasks| - 1][s].producers))
              && IsCriticalFirst(partition, tasks[0], partner, columns) && |columns| == |tasks[0]|
              && p.microbatches == |tasks| && p.stages == |tasks[0]|
              && p.group == (if Groups(partition, tasks[0]) == {} then 1 else |Groups(partition, tasks[0])|)
              && p.delay == (|CriticalSet(partition, tasks[0])| + 1) / 2
              && (r.Failure? <==> p.microbatches % p.group != 0 && p.stages > 0)
              && (r.Success? ==> IsZeroBubbleOrder(p, order))
              && (forall k :: 0 <= k < |order| ==> 0 <= order[k].stage < |columns|)
              && (r.Success? ==> |r.value| == 1 && Realizes(tasks, p.stages, r.value[0], Origin(columns, order)))
  {
    order, columns, stageOf, partner := [], [], map[], map[];
    p := Pipeline(0, 0, 1, 0);
    if |tasks| == 0 {
      return Success([]), p, order, columns, stageOf, partner;
    }
    var total := |tasks[0]|;
    var cols, numPipelineTasks, reordered;
    cols, numPipelineTasks, reordered, stageOf, partner := ReorderColumns(partition, tasks, total);
    columns := cols;
    ColumnsPermute(partition, tasks[0], partner, columns);
    var numGroups, _ := CountGroups(partition, tasks[0]);
    var shape := Pipeline(config.numIterations, total, numGroups, (numPipelineTasks + 1) / 2);
    p := shape;
    var queue := FillQueue(shape);
    r, order := DrainQueue(shape, tasks, columns, reordered, queue);
  }

  lemma ColumnsPermute(partition: Partition, row: seq<Task>, partner: map<nat, nat>, columns: seq<nat>)
    requires IsCriticalFirst(partition, row, partner, columns)
    ensures |columns| == |row|
  {
    DistinctSize(columns);
    assert Elements(columns) == NatsBelow(|row|);
  }

  /** The rounded-up last minibatch only runs past the grid when it is not full. */
  lemma OverfullQueue(p: Pipeline, x: StageGroup)
    requires p.group > 0 && Queued(p, x) && x.microbatch >= p.microbatches
    ensures p.microbatches % p.group != 0 && p.stages > 0
  {
    FullMinibatches(p);
  }

  lemma FullMinibatches(p: Pipeline)
    requires p.group > 0
    ensures p.microbatches % p.group == 0 ==> p.Minibatches() * p.group == p.microbatches
    ensures p.microbatches % p.group != 0 ==> p.Minibatches() * p.group > p.microbatches
  {
    var q, r := p.microbatches / p.group, p.microbatches % p.group;
    DivMod(p.microbatches, p.group);
    if r == 0 {
      DivModUnique(q, p.group - 1, p.group);
    } else {
      MulDistributes(q, 1, p.group);
      DivModUnique(q + 1, r - 1, p.group);
    }
  }

  lemma QueueFits(p: Pipeline, order: seq<StageGroup>)
    requires p.group > 0 && IsZeroBubbleOrder(p, order)
    requires forall k :: 0 <= k < |order| ==> order[k].microbatch < p.microbatches
    ensures !(p.microbatches % p.group != 0 && p.stages > 0)
  {
    FullMinibatches(p);
    if p.microbatches % p.group != 0 && p.stages > 0 {
      var extra := StageGroup(WavefrontOf(p, Slot(p.microbatches, 0)), p.microbatches, 0);
      assert Queued(p, extra);
      assert false;
    }
  }

  // ---- what the order guarantees ----

  /** Every task is scheduled exactly once. */
  lemma OriginIsPermutation(partition: Partition, tasks: seq<seq<Task>>, partner: map<nat, nat>, columns: seq<nat>, p: Pipeline, order: seq<StageGroup>)
    requires |tasks| > 0 && IsGrid(tasks, |tasks[0]|) && p.microbatches == |tasks| && p.stages == |tasks[0]|
    requires IsCriticalFirst(partition, tasks[0], partner, columns) && |columns| == p.stages
    requires p.group > 0 && (p.stages == 0 || p.microbatches % p.group == 0) && IsZeroBubbleOrder(p, order)
    requires forall k :: 0 <= k < |order| ==> 0 <= order[k].stage < |columns|
    ensures Distinct(Origin(columns, order)) && Complete(tasks, p.stages, Origin(columns, order))
  {
    var origin := Origin(columns, order);
    forall i, j | 0 <= i < j < |origin| ensures origin[i] != origin[j] {
      assert PopsBefore(order[i], order[j]);
      assert order[i] in order && order[j] in order;
      assert Queued(p, order[i]) && Queued(p, order[j]);
    }
    FullMinibatches(p);
    forall slot | InGrid(tasks, p.stages, slot) ensures slot in origin {
      var c: nat := slot.stage;
      assert c in columns;
      var s :| 0 <= s < |columns| && columns[s] == c;
      var x := StageGroup(WavefrontOf(p, Slot(slot.microbatch, s)), slot.microbatch, s);
      assert Queued(p, x);
      assert x in order;
      var k :| 0 <= k < |order| && order[k] == x;
      assert origin[k] == slot;
    }
  }

  ghost predicate KeepsProductOrder(order: seq<StageGroup>) {
    forall i, j :: 0 <= i < |order| && 0 <= j < |order| && GroupLess(order[i], order[j]) ==> i < j
  }

  ghost predicate GroupLess(a: StageGroup, b: StageGroup) {
    ProductLess(Slot(a.microbatch, a.stage), Slot(b.microbatch, b.stage))
  }

  lemma StartGap(p: Pipeline, m: int, m': int)
    requires p.group > 0 && 0 <= m < m'
    requires p.delay >= p.group - 1 || m / p.group == m' / p.group
    ensures Tick(p, m) <= Tick(p, m')
  {
    DivMonotone(m, m', p.group);
    DivMod(m, p.group);
    DivMod(m', p.group);
    MulLe(m / p.group + 1, m' / p.group, p.delay);
    MulDistributes(m / p.group, 1, p.delay);
  }

  /** Popping by (wavefront, microbatch, stage) is a linear extension of the product order exactly when
      consecutive minibatches are far enough apart, or there is only one. */
  lemma KeepsProductOrderIff(p: Pipeline, order: seq<StageGroup>)
    requires p.group > 0 && IsZeroBubbleOrder(p, order)
    ensures KeepsProductOrder(order) <==> p.stages == 0 || p.Minibatches() <= 1 || p.delay >= p.group - 1
  {
    if p.stages == 0 || p.Minibatches() <= 1 || p.delay >= p.group - 1 {
      forall i, j | 0 <= i < |order| && 0 <= j < |order| && GroupLess(order[i], order[j]) ensures i < j {
        OrderedPair(p, order, i, j);
      }
    } else {
      LateMinibatch(p, order);
    }
  }

  lemma OrderedPair(p: Pipeline, order: seq<StageGroup>, i: int, j: int)
    requires p.group > 0 && IsZeroBubbleOrder(p, order)
    requires p.stages == 0 || p.Minibatches() <= 1 || p.delay >= p.group - 1
    requires 0 <= i < |order| && 0 <= j < |order| && GroupLess(order[i], order[j])
    ensures i < j
  {
    var a, b := order[i], order[j];
    assert a in order && b in order;
    assert Queued(p, a) && Queued(p, b);
    if a.microbatch < b.microbatch {
      if p.Minibatches() <= 1 {
        assert p.Minibatches() * p.group <= p.group;
        DivModUnique(0, a.microbatch, p.group);
        DivModUnique(0, b.microbatch, p.group);
      }
      StartGap(p, a.microbatch, b.microbatch);
    }
    assert PopsBefore(a, b);
    assert j < i ==> PopsBefore(b, a);
  }

  lemma PopAt(order: seq<StageGroup>, i: int, j: int)
    requires PopOrder(order) && 0 <= i < |order| && 0 <= j < |order|
    ensures i < j ==> PopsBefore(order[i], order[j])
  {
  }

  /** Wavefront by wavefront; inside a wavefront the microbatches ascend, hence inside a minibatch the stages descend. */
  lemma WavefrontAscends(p: Pipeline, order: seq<StageGroup>, i: int, j: int)
    requires p.group > 0 && IsZeroBubbleOrder(p, order) && 0 <= i < j < |order|
    ensures var a, b := Slot(order[i].microbatch, order[i].stage), Slot(order[j].microbatch, order[j].stage);
            && WavefrontOf(p, a) <= WavefrontOf(p, b)
            && (WavefrontOf(p, a) == WavefrontOf(p, b) ==>
                 && a.microbatch < b.microbatch
                 && (a.microbatch / p.group == b.microbatch / p.group ==> a.stage > b.stage))
  {
    PopAt(order, i, j);
    assert Queued(p, order[i]) && Queued(p, order[j]);
    var a, b := Slot(order[i].microbatch, order[i].stage), Slot(order[j].microbatch, order[j].stage);
    DivMod(a.microbatch, p.group);
    DivMod(b.microbatch, p.group);
    assert WavefrontOf(p, a) == order[i].wf && WavefrontOf(p, b) == order[j].wf;
  }

  /** When minibatches start too close together, the last microbatch of the first minibatch is overtaken. */
  lemma LateMinibatch(p: Pipeline, order: seq<StageGroup>)
    requires p.group > 0 && IsZeroBubbleOrder(p, order)
    requires p.stages > 0 && p.Minibatches() > 1 && p.delay < p.group - 1
    ensures !KeepsProductOrder(order)
  {
    DivModUnique(0, p.group - 1, p.group);
    DivModUnique(1, 0, p.group);
    MulLe(2, p.Minibatches(), p.group);
    var a, b := StageGroup(p.group - 1, p.group - 1, 0), StageGroup(p.delay, p.group, 0);
    assert Queued(p, a) && Queued(p, b);
    assert a in order && b in order;
    var i :| 0 <= i < |order| && order[i] == a;
    var j :| 0 <= j < |order| && order[j] == b;
    assert GroupLess(order[i], order[j]);
    assert PopsBefore(b, a);
    PopAt(order, i, j);
  }

  /** End to end: a dependency of the loop body from a critical call, within an iteration or into a
      later one, is honoured by the schedule although iterations were reordered. */
  lemma ZeroBubbleRespectsBody(partition: Partition, row: seq<Task>, partner: map<nat, nat>, columns: seq<nat>, p: Pipeline, order: seq<StageGroup>, i: int, j: int)
    requires IsCriticalFirst(partition, row, partner, columns) && |columns| == |row| == p.stages
    requires p.group > 0 && IsZeroBubbleOrder(p, order)
    requires p.Minibatches() <= 1 || p.delay >= p.group - 1
    requires forall k :: 0 <= k < |order| ==> 0 <= order[k].stage < |columns|
    requires 0 <= i < |order| && 0 <= j < |order|
    requires var a, b := Origin(columns, order)[i], Origin(columns, order)[j];
             0 <= a.stage < |row| && ProductLess(a, b) && (a.stage == b.stage || Critical(partition, row, a.stage))
    ensures i < j
  {
    var s, t := order[i].stage, order[j].stage;
    if columns[s] < columns[t] {
      ReorderKeepsDependencies(partition, row, partner, columns, s, t);
    } else {
      assert columns[s] == columns[t];
      assert s == t;
    }
    KeepsProductOrderIff(p, order);
    assert GroupLess(order[i], order[j]);
  }
}
