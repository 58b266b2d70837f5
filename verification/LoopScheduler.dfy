/** Fill-drain, wavefront and prefetch-wavefront schedules of an unrolled microbatch loop. */
module LoopScheduler {
  import opened LoopTasks
  import opened Sequences
  import opened Wavefront
  import opened WavefrontProperties
  import opened Wrappers

  // ---- fill-drain ----

  /** Column by column, iterations ascending. */
  ghost predicate ColumnMajor(origin: seq<Slot>) {
    forall i, j :: 0 <= i < j < |origin| ==>
      origin[i].stage < origin[j].stage ||
      (origin[i].stage == origin[j].stage && origin[i].microbatch < origin[j].microbatch)
  }

  method ScheduleGpipe<T(!new)>(tasks: seq<seq<T>>) returns (row: seq<T>, ghost origin: seq<Slot>)
    requires |tasks| > 0 && IsGrid(tasks, |tasks[0]|)
    ensures Realizes(tasks, |tasks[0]|, row, origin)
    ensures ColumnMajor(origin) && Complete(tasks, |tasks[0]|, origin)
  {
    row, origin := [], [];
    for taskIndex := 0 to |tasks[0]|
      invariant Realizes(tasks, |tasks[0]|, row, origin)
      invariant ColumnMajor(origin)
      invariant forall slot :: slot in origin <==> InGrid(tasks, taskIndex, slot)
    {
      ghost var done := origin;
      for iter := 0 to |tasks|
        invariant Realizes(tasks, |tasks[0]|, row, origin)
        invariant ColumnMajor(origin)
        invariant forall slot :: slot in origin <==> slot in done ||
                                                     (0 <= slot.microbatch < iter && slot.stage == taskIndex)
      {
        forall k | 0 <= k < |origin| ensures origin[k].stage < taskIndex || (origin[k].microbatch < iter && origin[k].stage == taskIndex) {
          assert origin[k] in origin;
        }
        row, origin := row + [tasks[iter][taskIndex]], origin + [Slot(iter, taskIndex)];
      }
    }
  }

  /** Fill-drain order never repeats a task and honours every product-order dependency. */
  lemma ColumnMajorIsSound(origin: seq<Slot>)
    requires ColumnMajor(origin)
    ensures Distinct(origin) && ExtendsProductOrder(origin)
  {
    forall i, j | 0 <= i < |origin| && 0 <= j < |origin| && ProductLess(origin[i], origin[j]) ensures i < j {
      assert !(j < i);
    }
  }

  // ---- hoisting the loop counters ----

  method GetIndicesToUnroll(row: seq<Task>) returns (indices: set<nat>)
    ensures forall k: nat :: k in indices <==> k < |row| && IsLoopIncrement(row[k])
  {
    indices := {};
    for k := 0 to |row|
      invariant forall i: nat :: i in indices <==> i < k && IsLoopIncrement(row[i])
    {
      if IsLoopIncrement(row[k]) {
        indices := indices + {k};
      }
    }
  }

  /** The columns that stay in the pipeline, ascending. */
  ghost predicate IsRemaining(columns: seq<nat>, hoisted: set<nat>, total: nat) {
    && (forall i, j :: 0 <= i < j < |columns| ==> columns[i] < columns[j])
    && (forall c: nat :: c in columns <==> c < total && c !in hoisted)
    && (forall k :: 0 <= k < |columns| ==> columns[k] < total)
  }

  ghost function Project<T>(row: seq<T>, columns: seq<nat>): (r: seq<T>)
    requires forall k :: 0 <= k < |columns| ==> columns[k] < |row|
    ensures |r| == |columns|
    ensures forall k :: 0 <= k < |r| ==> r[k] == row[columns[k]]
  {
    seq(|columns|, k requires 0 <= k < |columns| => row[columns[k]])
  }

  /** Slots of `done` come first; one column after the other, iterations ascending. */
  ghost predicate HoistOrder(origin: seq<Slot>) {
    forall i, j :: 0 <= i < j < |origin| && origin[i].stage == origin[j].stage ==>
      origin[i].microbatch < origin[j].microbatch
  }

  /** Emits one hoisted column, iteration by iteration. */
  method HoistColumn<T(!new)>(tasks: seq<seq<T>>, total: nat, taskIndex: nat, before: seq<T>, ghost done: seq<Slot>)
    returns (prefix: seq<T>, ghost origin: seq<Slot>)
    requires IsGrid(tasks, total) && taskIndex < total
    requires Realizes(tasks, total, before, done) && HoistOrder(done)
    requires forall slot :: slot in done ==> slot.stage != taskIndex
    ensures Realizes(tasks, total, prefix, origin) && HoistOrder(origin)
    ensures forall slot :: slot in origin <==> slot in done || (0 <= slot.microbatch < |tasks| && slot.stage == taskIndex)
  {
    prefix, origin := before, done;
    for iter := 0 to |tasks|
      invariant Realizes(tasks, total, prefix, origin) && HoistOrder(origin)
      invariant forall slot :: slot in origin <==> slot in done || (0 <= slot.microbatch < iter && slot.stage == taskIndex)
    {
      forall k | 0 <= k < |origin| ensures origin[k].stage == taskIndex ==> origin[k].microbatch < iter {
        assert origin[k] in origin;
      }
      prefix, origin := prefix + [tasks[iter][taskIndex]], origin + [Slot(iter, taskIndex)];
    }
  }

  /** The tasks of one iteration outside the hoisted columns. */
  method RemainingRow<T(!new)>(row: seq<T>, hoisted: set<nat>) returns (rest: seq<T>)
    ensures rest == Project(row, RemainingColumns(hoisted, |row|))
  {
    rest := [];
    for taskIndex := 0 to |row|
      invariant rest == Project(row, RemainingColumns(hoisted, taskIndex))
    {
      if taskIndex !in hoisted {
        rest := rest + [row[taskIndex]];
      }
    }
  }

  /** Emits all iterations of the hoisted columns, in the unspecified order of a hash set, and
      returns the grid of the other columns. */
  method UnrollLoopIncrementTasks<T(!new)>(tasks: seq<seq<T>>, total: nat, hoisted: set<nat>)
    returns (prefix: seq<T>, remaining: seq<seq<T>>, ghost origin: seq<Slot>, ghost columns: seq<nat>)
    requires IsGrid(tasks, total) && forall c :: c in hoisted ==> c < total
    ensures Realizes(tasks, total, prefix, origin) && HoistOrder(origin)
    ensures forall slot :: slot in origin <==> 0 <= slot.microbatch < |tasks| && slot.stage in hoisted
    ensures IsRemaining(columns, hoisted, total) && IsGrid(remaining, |columns|)
    ensures |remaining| == |tasks|
    ensures forall m :: 0 <= m < |tasks| ==> remaining[m] == Project(tasks[m], columns)
  {
    prefix, origin := [], [];
    var todo := hoisted;
    while todo != {}
      invariant todo <= hoisted
      invariant Realizes(tasks, total, prefix, origin) && HoistOrder(origin)
      invariant forall slot :: slot in origin <==> 0 <= slot.microbatch < |tasks| && slot.stage in hoisted - todo
      decreases |todo|
    {
      var taskIndex :| taskIndex in todo;
      prefix, origin := HoistColumn(tasks, total, taskIndex, prefix, origin);
      todo := todo - {taskIndex};
    }
    columns := RemainingColumns(hoisted, total);
    remaining := [];
    for iter := 0 to |tasks|
      invariant |remaining| == iter
      invariant forall m :: 0 <= m < iter ==> remaining[m] == Project(tasks[m], columns)
    {
      var row := RemainingRow(tasks[iter], hoisted);
      remaining := remaining + [row];
    }
  }

  ghost function RemainingColumns(hoisted: set<nat>, total: nat): (columns: seq<nat>)
    ensures IsRemaining(columns, hoisted, total)
  {
    if total == 0 then []
    else if total - 1 in hoisted then RemainingColumns(hoisted, total - 1)
    else RemainingColumns(hoisted, total - 1) + [total - 1]
  }

  // ---- wavefront ----

  /**
   * The shape of the pipeline, read off the columns of the first iteration that are not hoisted: minibatches
   * as large as there are submeshes, started as many wavefronts apart as configured, or half the number
   * of pipeline tasks, rounded up.
   */
  ghost predicate IsPipelineOf(partition: Partition, config: LoopConfig, row: seq<Task>, hoisted: set<nat>, p: Pipeline) {
    var calls := PipelineCalls(partition, row, hoisted);
    var meshes := Submeshes(partition, row, calls);
    && p.microbatches == config.numIterations
    && (if meshes == {} then p.group == 1 else p.group == |meshes|)
    && (config.numStages.Some? ==> p.delay == config.numStages.value)
    && (config.numStages == None && calls == {} ==> p.delay == 1)
    && (config.numStages == None && calls != {} ==> |calls| <= 2 * p.delay <= |calls| + 1)
  }

  /** Where a column is found. */
  ghost function IndexOf(columns: seq<nat>, c: nat): (k: nat)
    ensures c in columns ==> k < |columns| && columns[k] == c
  {
    if c in columns then var k: nat :| k < |columns| && columns[k] == c; k else 0
  }

  ghost function ColumnAt(columns: seq<nat>, k: nat): nat {
    if k < |columns| then columns[k] else 0
  }

  lemma ProjectedCount(partition: Partition, row: seq<Task>, hoisted: set<nat>, columns: seq<nat>)
    requires IsRemaining(columns, hoisted, |row|)
    ensures |PipelineCalls(partition, Project(row, columns), {})| == |PipelineCalls(partition, row, hoisted)|
  {
    var inner, outer := PipelineCalls(partition, Project(row, columns), {}), PipelineCalls(partition, row, hoisted);
    forall k | k in inner ensures ColumnAt(columns, k) in outer {
      assert columns[k] in columns;
    }
    InjectiveImageSize(inner, (k: nat) => ColumnAt(columns, k), outer);
    forall c | c in outer ensures IndexOf(columns, c) in inner && columns[IndexOf(columns, c)] == c {
      assert c in columns;
    }
    InjectiveImageSize(outer, (c: nat) => IndexOf(columns, c), inner);
  }

  lemma ProjectedMeshes(partition: Partition, row: seq<Task>, hoisted: set<nat>, columns: seq<nat>)
    requires IsRemaining(columns, hoisted, |row|)
    ensures Submeshes(partition, Project(row, columns), PipelineCalls(partition, Project(row, columns), {})) ==
            Submeshes(partition, row, PipelineCalls(partition, row, hoisted))
  {
    var remaining := Project(row, columns);
    var inner, outer := PipelineCalls(partition, remaining, {}), PipelineCalls(partition, row, hoisted);
    forall mesh | mesh in Submeshes(partition, remaining, inner) ensures mesh in Submeshes(partition, row, outer) {
      var k :| k in inner && k < |remaining| && partition.colors[remaining[k].color].devices == mesh;
      assert columns[k] in columns && columns[k] in outer;
    }
    forall mesh | mesh in Submeshes(partition, row, outer) ensures mesh in Submeshes(partition, remaining, inner) {
      var c :| c in outer && c < |row| && partition.colors[row[c].color].devices == mesh;
      assert c in columns;
      assert IndexOf(columns, c) in inner;
    }
  }

  /** Projecting to the columns that are not hoisted loses no pipeline task. */
  lemma ProjectedPipeline(partition: Partition, config: LoopConfig, row: seq<Task>, hoisted: set<nat>, columns: seq<nat>, p: Pipeline)
    requires IsRemaining(columns, hoisted, |row|) && IsPipelineOf(partition, config, Project(row, columns), {}, p)
    ensures IsPipelineOf(partition, config, row, hoisted, p)
  {
    ProjectedCount(partition, row, hoisted, columns);
    ProjectedMeshes(partition, row, hoisted, columns);
  }

  /** The wavefront scheduler, appending to the single row of a schedule. */
  method ScheduleWavefront(partition: Partition, tasks: seq<seq<Task>>, config: LoopConfig, schedule: seq<seq<Task>>)
    returns (r: Result<seq<seq<Task>>>, ghost p: Pipeline, ghost order: seq<Slot>)
    requires config.Valid() && config.numIterations == |tasks|
    requires |tasks| > 0 ==> IsGrid(tasks, |tasks[0]|) && Colored(partition, tasks[0])
    ensures tasks == [] ==> r == Success(schedule)
    ensures tasks != [] && |schedule| != 1 ==> r == Failure(InvalidArgument)
    ensures tasks != [] && |schedule| == 1 ==>
              && r.Success? && |r.value| == 1
              && p.Valid() && p.stages == |tasks[0]| && IsPipelineOf(partition, config, tasks[0], {}, p)
              && IsWavefrontOrder(p, order) && Emits(p, tasks, schedule[0], order, r.value[0])
  {
    order, p := [], Pipeline(0, 0, 0, 0);
    if |tasks| == 0 {
      return Success(schedule), p, [];
    }
    if |schedule| != 1 {
      return Failure(InvalidArgument), p, [];
    }
    var numGroups, numPipelineTasks := CountGroups(partition, tasks[0]);
    GroupsAreSubmeshes(partition, tasks[0]);
    var nextMinibatchDelay;
    if config.numStages.Some? {
      nextMinibatchDelay := config.numStages.value;
    } else {
      var half := (numPipelineTasks + 1) / 2;
      nextMinibatchDelay := if half > 1 then half else 1;
    }
    var shape := Pipeline(config.numIterations, |tasks[0]|, numGroups, nextMinibatchDelay);
    p := shape;
    var row;
    row, order := Wavefront.ScheduleWavefront(shape, tasks, schedule[0]);
    r := Success([row]);
  }

  lemma GroupsAreSubmeshes(partition: Partition, row: seq<Task>)
    ensures Groups(partition, row) == Submeshes(partition, row, PipelineCalls(partition, row, {}))
  {
    var calls := PipelineCalls(partition, row, {});
    forall mesh ensures mesh in Groups(partition, row) <==> mesh in Submeshes(partition, row, calls) {
      if mesh in Groups(partition, row) {
        var task :| task in row && OnSubmesh(partition, task) && partition.colors[task.color].devices == mesh;
        var k: nat :| k < |row| && row[k] == task;
        assert k in calls;
      }
      if mesh in Submeshes(partition, row, calls) {
        var k :| k in calls && k < |row| && partition.colors[row[k].color].devices == mesh;
        assert row[k] in row;
      }
    }
  }

  // ---- prefetch wavefront: hoisted counters, then the wavefront over the other columns ----

  /** Hoisted columns run first and in iteration order; all other dependencies of the product order hold. */
  ghost predicate RespectsHoisting(hoisted: set<nat>, origin: seq<Slot>) {
    forall i, j :: 0 <= i < |origin| && 0 <= j < |origin| && MustPrecede(hoisted, origin[i], origin[j]) ==> i < j
  }

  ghost predicate MustPrecede(hoisted: set<nat>, a: Slot, b: Slot) {
    || (a.stage in hoisted && b.stage !in hoisted)
    || (ProductLess(a, b) && (a.stage == b.stage || (a.stage !in hoisted && b.stage !in hoisted)))
  }

  /** Slots of the remaining grid, named by their column in the full grid. */
  ghost function Lift(columns: seq<nat>, order: seq<Slot>): (r: seq<Slot>)
    requires forall k :: 0 <= k < |order| ==> 0 <= order[k].stage < |columns|
    ensures |r| == |order|
    ensures forall k :: 0 <= k < |r| ==> r[k] == Slot(order[k].microbatch, columns[order[k].stage])
  {
    seq(|order|, k requires 0 <= k < |order| => Slot(order[k].microbatch, columns[order[k].stage]))
  }

  lemma ColumnOrder(columns: seq<nat>, hoisted: set<nat>, total: nat, a: int, b: int)
    requires IsRemaining(columns, hoisted, total) && 0 <= a < |columns| && 0 <= b < |columns|
    ensures a < b <==> columns[a] < columns[b]
    ensures columns[a] !in hoisted
  {
    assert columns[a] in columns;
  }

  lemma LiftedPair(hoisted: set<nat>, total: nat, columns: seq<nat>, a: Slot, b: Slot)
    requires IsRemaining(columns, hoisted, total) && 0 <= a.stage < |columns| && 0 <= b.stage < |columns|
    ensures var a', b' := Slot(a.microbatch, columns[a.stage]), Slot(b.microbatch, columns[b.stage]);
            (MustPrecede(hoisted, a', b') ==> ProductLess(a, b)) && (a' == b' ==> a == b)
  {
    ColumnOrder(columns, hoisted, total, a.stage, b.stage);
    ColumnOrder(columns, hoisted, total, b.stage, a.stage);
  }

  lemma LiftedOrder(hoisted: set<nat>, total: nat, columns: seq<nat>, prefix: seq<Slot>, order: seq<Slot>)
    requires IsRemaining(columns, hoisted, total) && HoistOrder(prefix)
    requires forall slot :: slot in prefix ==> slot.stage in hoisted
    requires ExtendsProductOrder(order) && Distinct(order)
    requires forall k :: 0 <= k < |order| ==> 0 <= order[k].stage < |columns|
    ensures RespectsHoisting(hoisted, prefix + Lift(columns, order))
    ensures Distinct(prefix + Lift(columns, order))
  {
    var lifted := Lift(columns, order);
    var origin := prefix + lifted;
    forall k | 0 <= k < |lifted| ensures lifted[k].stage !in hoisted {
      ColumnOrder(columns, hoisted, total, order[k].stage, order[k].stage);
    }
    forall k | 0 <= k < |prefix| ensures prefix[k].stage in hoisted {
      assert prefix[k] in prefix;
    }
    forall i, j | 0 <= i < |origin| && 0 <= j < |origin| && MustPrecede(hoisted, origin[i], origin[j]) ensures i < j {
      if i >= |prefix| && j >= |prefix| {
        LiftedPair(hoisted, total, columns, order[i - |prefix|], order[j - |prefix|]);
      }
    }
    forall i, j | 0 <= i < j < |origin| ensures origin[i] != origin[j] {
      if i >= |prefix| {
        LiftedPair(hoisted, total, columns, order[i - |prefix|], order[j - |prefix|]);
      }
    }
  }

  /** A lifted order holds a slot of a remaining column exactly when the order holds it. */
  lemma LiftedSlot(hoisted: set<nat>, total: nat, columns: seq<nat>, order: seq<Slot>, m: int, s: int)
    requires IsRemaining(columns, hoisted, total) && 0 <= s < |columns|
    requires forall k :: 0 <= k < |order| ==> 0 <= order[k].stage < |columns|
    ensures Slot(m, columns[s]) in Lift(columns, order) <==> Slot(m, s) in order
  {
    var lifted := Lift(columns, order);
    if Slot(m, s) in order {
      var k :| 0 <= k < |order| && order[k] == Slot(m, s);
      assert lifted[k] == Slot(m, columns[s]);
    }
    if Slot(m, columns[s]) in lifted {
      var k :| 0 <= k < |lifted| && lifted[k] == Slot(m, columns[s]);
      ColumnOrder(columns, hoisted, total, order[k].stage, s);
      ColumnOrder(columns, hoisted, total, s, order[k].stage);
      assert order[k] == Slot(m, s);
    }
  }

  lemma LiftedComplete<T>(tasks: seq<seq<T>>, hoisted: set<nat>, total: nat, columns: seq<nat>, prefix: seq<Slot>, p: Pipeline, order: seq<Slot>)
    requires IsGrid(tasks, total) && |tasks| == p.microbatches && |tasks| > 0
    requires forall c :: c in hoisted ==> c < total
    requires IsRemaining(columns, hoisted, total)
    requires forall slot :: slot in prefix <==> 0 <= slot.microbatch < p.microbatches && slot.stage in hoisted
    requires p.Valid() && p.stages == |columns| && IsWavefrontOrder(p, order)
    requires forall k :: 0 <= k < |order| ==> p.Contains(order[k])
    ensures Complete(tasks, total, prefix + Lift(columns, order)) <==>
            columns == [] || p.delay >= Min(p.group, p.microbatches)
  {
    LiftedCovers(tasks, hoisted, total, columns, prefix, p, order);
    if columns != [] {
      CompleteIff(p, order);
    }
  }

  /** The whole loop is scheduled exactly when every remaining column is. */
  lemma LiftedCovers<T>(tasks: seq<seq<T>>, hoisted: set<nat>, total: nat, columns: seq<nat>, prefix: seq<Slot>, p: Pipeline, order: seq<Slot>)
    requires IsGrid(tasks, total) && |tasks| == p.microbatches && p.stages == |columns|
    requires IsRemaining(columns, hoisted, total)
    requires forall slot :: slot in prefix <==> 0 <= slot.microbatch < p.microbatches && slot.stage in hoisted
    requires forall k :: 0 <= k < |order| ==> p.Contains(order[k]) && 0 <= order[k].stage < |columns|
    ensures Complete(tasks, total, prefix + Lift(columns, order)) <==> forall slot :: p.Contains(slot) ==> slot in order
  {
    var origin := prefix + Lift(columns, order);
    if Complete(tasks, total, origin) {
      forall slot | p.Contains(slot) ensures slot in order {
        ColumnOrder(columns, hoisted, total, slot.stage, slot.stage);
        assert columns[slot.stage] in columns;
        LiftedSlot(hoisted, total, columns, order, slot.microbatch, slot.stage);
        assert InGrid(tasks, total, Slot(slot.microbatch, columns[slot.stage]));
      }
    }
    if forall slot :: p.Contains(slot) ==> slot in order {
      forall slot | InGrid(tasks, total, slot) ensures slot in origin {
        if slot.stage !in hoisted {
          var c: nat := slot.stage;
          assert c in columns;
          var s :| 0 <= s < |columns| && columns[s] == c;
          LiftedSlot(hoisted, total, columns, order, slot.microbatch, s);
          assert p.Contains(Slot(slot.microbatch, s));
        }
      }
    }
  }

  /** Hoisted columns first, then the wavefront order of the others. */
  lemma PrefetchFacts<T>(tasks: seq<seq<T>>, hoisted: set<nat>, total: nat, columns: seq<nat>, prefix: seq<Slot>, p: Pipeline, order: seq<Slot>)
    requires IsGrid(tasks, total) && |tasks| == p.microbatches && |tasks| > 0
    requires forall c :: c in hoisted ==> c < total
    requires IsRemaining(columns, hoisted, total) && HoistOrder(prefix)
    requires forall slot :: slot in prefix <==> 0 <= slot.microbatch < p.microbatches && slot.stage in hoisted
    requires p.Valid() && p.stages == |columns| && IsWavefrontOrder(p, order)
    requires forall k :: 0 <= k < |order| ==> p.Contains(order[k])
    ensures Distinct(prefix + Lift(columns, order)) && RespectsHoisting(hoisted, prefix + Lift(columns, order))
    ensures Complete(tasks, total, prefix + Lift(columns, order)) <==> columns == [] || p.delay >= Min(p.group, p.microbatches)
  {
    OrderIsDistinct(p, order);
    forall i, j | 0 <= i < |order| && 0 <= j < |order| && ProductLess(order[i], order[j]) ensures i < j {
      LinearExtension(p, order, i, j);
    }
    LiftedOrder(hoisted, total, columns, prefix, order);
    LiftedComplete(tasks, hoisted, total, columns, prefix, p, order);
  }

  lemma ProjectColored(partition: Partition, row: seq<Task>, columns: seq<nat>)
    requires Colored(partition, row) && forall k :: 0 <= k < |columns| ==> columns[k] < |row|
    ensures Colored(partition, Project(row, columns))
  {
    forall task: Task | task in Project(row, columns) ensures task.color in partition.colors {
      var k :| 0 <= k < |columns| && Project(row, columns)[k] == task;
      assert row[columns[k]] in row;
    }
  }

  lemma LiftRealizes<T>(tasks: seq<seq<T>>, total: nat, columns: seq<nat>, remaining: seq<seq<T>>, prefix: seq<T>, origin: seq<Slot>, row: seq<T>, order: seq<Slot>)
    requires IsGrid(tasks, total) && (forall k :: 0 <= k < |columns| ==> columns[k] < total) && IsGrid(remaining, |columns|)
    requires |remaining| == |tasks| && forall m :: 0 <= m < |tasks| ==> remaining[m] == Project(tasks[m], columns)
    requires Realizes(tasks, total, prefix, origin) && Realizes(remaining, |columns|, row, order)
    ensures forall k :: 0 <= k < |order| ==> 0 <= order[k].stage < |columns|
    ensures Realizes(tasks, total, prefix + row, origin + Lift(columns, order))
  {
    assert forall k :: 0 <= k < |order| ==> InGrid(remaining, |columns|, order[k]);
  }

  lemma NoneRemaining(columns: seq<nat>, hoisted: set<nat>, total: nat)
    requires IsRemaining(columns, hoisted, total)
    ensures columns == [] <==> forall c: nat :: c < total ==> c in hoisted
  {
    FirstIsMember(columns);
  }

  method SchedulePrefetchWavefrontWith(partition: Partition, config: LoopConfig, hoisted: set<nat>, tasks: seq<seq<Task>>)
    returns (r: Result<seq<seq<Task>>>, ghost p: Pipeline, ghost origin: seq<Slot>)
    requires config.Valid() && config.numIterations == |tasks| && |tasks| > 0
    requires IsGrid(tasks, |tasks[0]|) && Colored(partition, tasks[0])
    requires forall c :: c in hoisted ==> c < |tasks[0]|
    ensures r.Success? && |r.value| == 1
    ensures Realizes(tasks, |tasks[0]|, r.value[0], origin)
    ensures Distinct(origin) && RespectsHoisting(hoisted, origin)
    ensures IsPipelineOf(partition, config, tasks[0], hoisted, p)
    ensures Complete(tasks, |tasks[0]|, origin) <==>
            (forall c: nat :: c < |tasks[0]| ==> c in hoisted) || p.delay >= Min(p.group, p.microbatches)
  {
    var total := |tasks[0]|;
    var prefix, remaining, hoistOrigin, columns := UnrollLoopIncrementTasks(tasks, total, hoisted);
    ProjectColored(partition, tasks[0], columns);
    ghost var order;
    r, p, order := ScheduleWavefront(partition, remaining, config, [prefix]);
    ProjectedPipeline(partition, config, tasks[0], hoisted, columns, p);
    NoneRemaining(columns, hoisted, total);
    origin := hoistOrigin + Lift(columns, order);
    PrefetchFacts(tasks, hoisted, total, columns, hoistOrigin, p, order);
    LiftRealizes(tasks, total, columns, remaining, prefix, hoistOrigin, r.value[0][|prefix|..], order);
  }

  lemma {:induction false} ColumnsAreUnique(s: seq<nat>, t: seq<nat>, hoisted: set<nat>, total: nat)
    requires IsRemaining(s, hoisted, total) && IsRemaining(t, hoisted, total)
    ensures s == t
    decreases total
  {
    if total == 0 {
      FirstIsMember(s);
      FirstIsMember(t);
    } else if total - 1 in hoisted {
      ColumnsAreUnique(s, t, hoisted, total - 1);
    } else {
      DropLastColumn(s, hoisted, total);
      DropLastColumn(t, hoisted, total);
      ColumnsAreUnique(s[..|s| - 1], t[..|t| - 1], hoisted, total - 1);
    }
  }

  lemma LargestIsLast(s: seq<nat>, k: nat)
    requires k < |s| && (forall i, j :: 0 <= i < j < |s| ==> s[i] < s[j]) && s[|s| - 1] <= s[k]
    ensures k == |s| - 1
  {
  }

  lemma DropLastColumn(s: seq<nat>, hoisted: set<nat>, total: nat)
    requires total > 0 && total - 1 !in hoisted && IsRemaining(s, hoisted, total)
    ensures s != [] && s[|s| - 1] == total - 1 && IsRemaining(s[..|s| - 1], hoisted, total - 1)
  {
    var last: nat := total - 1;
    assert last in s;
    var k :| 0 <= k < |s| && s[k] == last;
    var top := s[|s| - 1];
    assert top in s;
    assert top <= s[k];
    LargestIsLast(s, k);
    assert s == s[..|s| - 1] + [last];
  }
}
