/** Choosing and running a loop schedule. */
module ScheduleLoops {
  import opened ControlEdges
  import opened LoopScheduler
  import opened LoopTasks
  import opened Sequences
  import opened Wavefront
  import opened WavefrontProperties
  import opened Wrappers
  import opened ZeroBubble

  function Columns(tasks: seq<seq<Task>>): nat {
    if tasks == [] then 0 else |tasks[0]|
  }

  /** What every scheduler is called with: clones of one loop body, one row per iteration. */
  ghost predicate IsUnrolledLoop(partition: Partition, config: LoopConfig, tasks: seq<seq<Task>>) {
    && config.Valid() && config.numIterations == |tasks|
    && IsGrid(tasks, Columns(tasks)) && UniqueIds(tasks, Columns(tasks)) && UniformCriticality(partition, tasks, Columns(tasks))
    && (tasks != [] ==> Colored(partition, tasks[0]))
  }

  ghost predicate Hoistable(row: seq<Task>, hoisted: set<nat>) {
    forall k: nat :: k in hoisted <==> k < |row| && IsLoopIncrement(row[k])
  }

  ghost function Hoisted(row: seq<Task>): (hoisted: set<nat>)
    ensures Hoistable(row, hoisted)
  {
    set k: nat | k < |row| && IsLoopIncrement(row[k])
  }

  /**
   * When a wavefront schedule reaches every task of the loop. The configured number of stages must reach
   * the number of submeshes or of iterations; without one, there must be about two pipeline calls per submesh.
   */
  ghost predicate WavefrontCovers(partition: Partition, config: LoopConfig, tasks: seq<seq<Task>>)
    requires tasks != []
  {
    var calls := PipelineCalls(partition, tasks[0], Hoisted(tasks[0]));
    var meshes := Submeshes(partition, tasks[0], calls);
    || |tasks[0]| <= 1 || (forall k: nat :: k < |tasks[0]| ==> IsLoopIncrement(tasks[0][k]))
    || (match config.numStages
        case Some(stages) => stages >= Min(if meshes == {} then 1 else |meshes|, |tasks|)
        case None => Min(|meshes|, |tasks|) <= 1 || 2 * Min(|meshes|, |tasks|) <= |calls| + 1)
  }

  lemma CoversIff(partition: Partition, config: LoopConfig, tasks: seq<seq<Task>>, p: Pipeline)
    requires tasks != [] && |tasks[0]| > 1 && p.Valid() && config.numIterations == |tasks|
    requires IsPipelineOf(partition, config, tasks[0], Hoisted(tasks[0]), p)
    ensures WavefrontCovers(partition, config, tasks) <==>
            (forall c: nat :: c < |tasks[0]| ==> c in Hoisted(tasks[0])) || p.delay >= Min(p.group, p.microbatches)
  {
    var calls := PipelineCalls(partition, tasks[0], Hoisted(tasks[0]));
    var meshes := Submeshes(partition, tasks[0], calls);
    if calls != {} {
      var k :| k in calls;
      assert partition.colors[tasks[0][k].color].devices in meshes;
    }
    assert (forall c: nat :: c < |tasks[0]| ==> c in Hoisted(tasks[0])) <==> forall k: nat :: k < |tasks[0]| ==> IsLoopIncrement(tasks[0][k]);
  }

  ghost function CallsOn(partition: Partition, row: seq<Task>, calls: set<nat>, meshes: set<DeviceList>): (r: set<nat>)
    ensures forall k :: k in r <==> k in calls && k < |row| && row[k].color in partition.colors && partition.colors[row[k].color].devices in meshes
  {
    set k | k in calls && k < |row| && row[k].color in partition.colors && partition.colors[row[k].color].devices in meshes
  }

  lemma {:induction false} TwoEach(partition: Partition, row: seq<Task>, calls: set<nat>, meshes: set<DeviceList>)
    requires forall mesh :: mesh in meshes ==> |CallsOn(partition, row, calls, {mesh})| >= 2
    ensures |CallsOn(partition, row, calls, meshes)| >= 2 * |meshes|
    decreases |meshes|
  {
    if meshes != {} {
      var mesh :| mesh in meshes;
      TwoEach(partition, row, calls, meshes - {mesh});
      var here, there := CallsOn(partition, row, calls, {mesh}), CallsOn(partition, row, calls, meshes - {mesh});
      assert CallsOn(partition, row, calls, meshes) == here + there && here !! there;
    }
  }

  /** Without a configured number of stages it is enough that each submesh runs two pipeline calls, as a
      forward and a backward call do. */
  lemma TwoCallsPerSubmeshCover(partition: Partition, config: LoopConfig, tasks: seq<seq<Task>>)
    requires tasks != [] && config.numStages == None
    requires var calls := PipelineCalls(partition, tasks[0], Hoisted(tasks[0]));
             forall mesh :: mesh in Submeshes(partition, tasks[0], calls) ==> |CallsOn(partition, tasks[0], calls, {mesh})| >= 2
    ensures WavefrontCovers(partition, config, tasks)
  {
    var calls := PipelineCalls(partition, tasks[0], Hoisted(tasks[0]));
    var meshes := Submeshes(partition, tasks[0], calls);
    TwoEach(partition, tasks[0], calls, meshes);
    assert CallsOn(partition, tasks[0], calls, meshes) == calls;
  }

  method ScheduleWavefrontLoop(partition: Partition, config: LoopConfig, tasks: seq<seq<Task>>)
    returns (r: Result<seq<seq<Task>>>, ghost origin: seq<Slot>)
    requires IsUnrolledLoop(partition, config, tasks)
    ensures r.Success? && |r.value| == 1 && Realizes(tasks, Columns(tasks), r.value[0], origin) && Distinct(origin)
    ensures tasks != [] ==> (Complete(tasks, |tasks[0]|, origin) <==> WavefrontCovers(partition, config, tasks))
    ensures tasks != [] && |tasks[0]| > 1 ==> RespectsHoisting(Hoisted(tasks[0]), origin)
  {
    if |tasks| == 0 || |tasks[0]| == 0 {
      return Success([[]]), [];
    }
    if |tasks[0]| == 1 {
      var row;
      row, origin := ScheduleGpipe(tasks);
      ColumnMajorIsSound(origin);
      return Success([row]), origin;
    }
    var indices := GetIndicesToUnroll(tasks[0]);
    assert indices == Hoisted(tasks[0]);
    ghost var p;
    r, p, origin := SchedulePrefetchWavefrontWith(partition, config, indices, tasks);
    CoversIff(partition, config, tasks, p);
  }

  method SchedulePrefetchWavefront(partition: Partition, config: LoopConfig, tasks: seq<seq<Task>>)
    returns (r: Result<seq<seq<Task>>>, ghost origin: seq<Slot>)
    requires IsUnrolledLoop(partition, config, tasks)
    ensures r.Success? && |r.value| == 1 && Realizes(tasks, Columns(tasks), r.value[0], origin) && Distinct(origin)
    ensures tasks != [] ==> (Complete(tasks, |tasks[0]|, origin) <==> WavefrontCovers(partition, config, tasks))
    ensures tasks != [] && |tasks[0]| > 1 ==> RespectsHoisting(Hoisted(tasks[0]), origin)
  {
    if |tasks| == 0 || |tasks[0]| == 0 {
      return Success([[]]), [];
    }
    if |tasks[0]| == 1 {
      var row;
      row, origin := ScheduleGpipe(tasks);
      ColumnMajorIsSound(origin);
      return Success([row]), origin;
    }
    var indices := GetIndicesToUnroll(tasks[0]);
    assert indices == Hoisted(tasks[0]);
    if indices != {} {
      ghost var p;
      r, p, origin := SchedulePrefetchWavefrontWith(partition, config, indices, tasks);
      CoversIff(partition, config, tasks, p);
    } else {
      r, origin := ScheduleWavefrontLoop(partition, config, tasks);
    }
  }

  /** The dispatcher. Whatever the schedule kind, no task is ever scheduled twice, and it is known in
      advance exactly when every task is scheduled. */
  method ScheduleLoops(partition: Partition, config: LoopConfig, tasks: seq<seq<Task>>)
    returns (r: Result<seq<seq<Task>>>, ghost origin: seq<Slot>)
    requires IsUnrolledLoop(partition, config, tasks)
    requires config.schedule.FillDrain? ==> tasks != []
    ensures tasks != [] && r.Success? ==> |r.value| == 1 && Realizes(tasks, |tasks[0]|, r.value[0], origin) && Distinct(origin)
    ensures config.schedule.FillDrain? ==> r.Success? && Complete(tasks, |tasks[0]|, origin) && ExtendsProductOrder(origin)
    ensures !config.schedule.FillDrain? && !config.schedule.ZeroBubbleH2? && tasks != [] ==>
              r.Success? && (Complete(tasks, |tasks[0]|, origin) <==> WavefrontCovers(partition, config, tasks))
    ensures config.schedule.ZeroBubbleH2? && tasks != [] ==>
              var groups := |Groups(partition, tasks[0])|;
              (r.Success? <==> groups == 0 || |tasks| % groups == 0 || |tasks[0]| == 0) &&
              (r.Success? ==> Complete(tasks, |tasks[0]|, origin))
  {
    match config.schedule {
      case FillDrain =>
        var row;
        row, origin := ScheduleGpipe(tasks);
        ColumnMajorIsSound(origin);
        r := Success([row]);
      case PrefetchWavefront =>
        r, origin := SchedulePrefetchWavefront(partition, config, tasks);
      case ZeroBubbleH2 =>
        r, origin := ScheduleZeroBubbleLoop(partition, config, tasks);
      case OneForwardOneBackward =>
        r, origin := ScheduleWavefrontLoop(partition, config, tasks);
      case WavefrontOrder =>
        r, origin := ScheduleWavefrontLoop(partition, config, tasks);
    }
  }

  method ScheduleZeroBubbleLoop(partition: Partition, config: LoopConfig, tasks: seq<seq<Task>>)
    returns (r: Result<seq<seq<Task>>>, ghost origin: seq<Slot>)
    requires IsUnrolledLoop(partition, config, tasks)
    ensures tasks != [] && r.Success? ==> |r.value| == 1 && Realizes(tasks, |tasks[0]|, r.value[0], origin) && Distinct(origin)
    ensures tasks != [] ==>
              var groups := |Groups(partition, tasks[0])|;
              (r.Success? <==> groups == 0 || |tasks| % groups == 0 || |tasks[0]| == 0) &&
              (r.Success? ==> Complete(tasks, |tasks[0]|, origin))
  {
    ghost var p, order, columns, stageOf, partner;
    r, p, order, columns, stageOf, partner := ScheduleZeroBubble(partition, config, tasks);
    origin := [];
    if r.Success? && tasks != [] {
      origin := Origin(columns, order);
      OriginIsPermutation(partition, tasks, partner, columns, p, order);
    }
  }

  // ---- the control edges of these schedules never deadlock ----

  /** Wavefront and prefetch schedules: dependencies between pipeline columns lie in the product order,
      loop counters depend only on their own earlier iterations. */
  lemma WavefrontNeverDeadlocks<D>(devices: seq<D>, hoisted: set<nat>, origin: seq<Slot>, data: (Slot, Slot) -> bool, path: seq<int>)
    requires |devices| == |origin| && RespectsHoisting(hoisted, origin)
    requires forall a, b :: data(a, b) ==> MustPrecede(hoisted, a, b)
    requires MixedPath(devices, origin, data, path)
    ensures path[0] != path[|path| - 1]
  {
    NoDeadlock(devices, origin, data, path);
  }

  /** Zero-bubble schedules: only critical calls have dependents inside the loop, and every call may
      depend on its own earlier iterations. */
  lemma ZeroBubbleNeverDeadlocks<D>(devices: seq<D>, partition: Partition, row: seq<Task>, partner: map<nat, nat>,
                                    columns: seq<nat>, p: Pipeline, order: seq<StageGroup>, data: (Slot, Slot) -> bool, path: seq<int>)
    requires IsCriticalFirst(partition, row, partner, columns) && |columns| == |row| == p.stages
    requires p.group > 0 && IsZeroBubbleOrder(p, order)
    requires p.Minibatches() <= 1 || p.delay >= p.group - 1
    requires forall k :: 0 <= k < |order| ==> 0 <= order[k].stage < |columns|
    requires |devices| == |order|
    requires forall a, b :: data(a, b) ==>
      0 <= a.stage < |row| && ProductLess(a, b) && (a.stage == b.stage || Critical(partition, row, a.stage))
    requires MixedPath(devices, Origin(columns, order), data, path)
    ensures path[0] != path[|path| - 1]
  {
    var origin := Origin(columns, order);
    forall i, j | 0 <= i < |origin| && 0 <= j < |origin| && data(origin[i], origin[j]) ensures i < j {
      ZeroBubbleRespectsBody(partition, row, partner, columns, p, order, i, j);
    }
    NoDeadlock(devices, origin, data, path);
  }
}
