/** Vocabulary of the loop schedulers: the tasks of an unrolled loop and the partition they run on. */
module LoopTasks {
  import opened Wavefront
  import opened Sequences
  import opened Wrappers

  /** A contiguous submesh. */
  datatype DeviceList = DeviceList(start: int, size: int)

  datatype ColorConfig = ColorConfig(devices: DeviceList, nonCritical: bool)

  datatype Partition = Partition(colors: map<string, ColorConfig>, totalDevices: int) {
    predicate IsNonCritical(color: string) {
      color in colors && colors[color].nonCritical
    }
  }

  /** A call of the unrolled loop. `producers` are the calls whose outputs it reads. */
  datatype Task = Task(id: nat, color: string, producers: seq<nat>)

  const LOOP_INCREMENT := "loop_increment"

  /** Colors of loop counters share a common prefix. */
  predicate IsLoopIncrement(task: Task) {
    LOOP_INCREMENT <= task.color
  }

  datatype ScheduleKind = FillDrain | OneForwardOneBackward | WavefrontOrder | PrefetchWavefront | ZeroBubbleH2

  datatype LoopConfig = LoopConfig(numIterations: nat, schedule: ScheduleKind, numStages: Option<int>) {
    ghost predicate Valid() {
      numStages.Some? ==> numStages.value > 0
    }
  }

  /** One row per iteration, one column per call of the loop body. */
  ghost predicate IsGrid<T>(tasks: seq<seq<T>>, columns: nat) {
    forall m :: 0 <= m < |tasks| ==> |tasks[m]| == columns
  }

  ghost predicate InGrid<T>(tasks: seq<seq<T>>, columns: nat, slot: Slot) {
    0 <= slot.microbatch < |tasks| && 0 <= slot.stage < columns
  }

  /** `row` lists the tasks found at the slots of `origin`. */
  ghost predicate Realizes<T>(tasks: seq<seq<T>>, columns: nat, row: seq<T>, origin: seq<Slot>)
    requires IsGrid(tasks, columns)
  {
    && |row| == |origin|
    && (forall k :: 0 <= k < |origin| ==> InGrid(tasks, columns, origin[k]))
    && (forall k :: 0 <= k < |origin| ==> row[k] == tasks[origin[k].microbatch][origin[k].stage])
  }

  /** Every task of the loop is scheduled; with `Distinct(origin)`, exactly once. */
  ghost predicate Complete<T>(tasks: seq<seq<T>>, columns: nat, origin: seq<Slot>) {
    forall slot :: InGrid(tasks, columns, slot) ==> slot in origin
  }

  /** The schedule is a linear extension of the product order on (iteration, column). */
  ghost predicate ExtendsProductOrder(origin: seq<Slot>) {
    forall i, j :: 0 <= i < |origin| && 0 <= j < |origin| && ProductLess(origin[i], origin[j]) ==> i < j
  }

  /** The submeshes that own a proper part of the machine. */
  ghost function Groups(partition: Partition, row: seq<Task>): set<DeviceList> {
    set task | task in row && task.color in partition.colors &&
               partition.colors[task.color].devices.size != partition.totalDevices
      :: partition.colors[task.color].devices
  }

  ghost predicate OnSubmesh(partition: Partition, task: Task) {
    task.color in partition.colors && partition.colors[task.color].devices.size != partition.totalDevices
  }

  /** The positions of the pipeline tasks: those on a proper part of the machine, without the given columns. */
  ghost function PipelineCalls(partition: Partition, row: seq<Task>, without: set<nat>): (calls: set<nat>)
    ensures forall k: nat :: k in calls <==> k < |row| && k !in without && OnSubmesh(partition, row[k])
  {
    set k: nat | k < |row| && k !in without && OnSubmesh(partition, row[k])
  }

  /** The submeshes of some positions. */
  ghost function Submeshes(partition: Partition, row: seq<Task>, calls: set<nat>): (meshes: set<DeviceList>)
    ensures forall k :: k in calls && k < |row| && row[k].color in partition.colors ==> partition.colors[row[k].color].devices in meshes
    ensures forall mesh :: mesh in meshes ==> exists k :: k in calls && k < |row| && row[k].color in partition.colors && partition.colors[row[k].color].devices == mesh
  {
    set k | k in calls && k < |row| && row[k].color in partition.colors :: partition.colors[row[k].color].devices
  }

  ghost predicate Colored(partition: Partition, row: seq<Task>) {
    forall task :: task in row ==> task.color in partition.colors
  }

  lemma OneMoreCall(partition: Partition, row: seq<Task>, k: nat)
    requires k < |row|
    ensures |PipelineCalls(partition, row[..k + 1], {})| == |PipelineCalls(partition, row[..k], {})| + if OnSubmesh(partition, row[k]) then 1 else 0
  {
    var before, after := PipelineCalls(partition, row[..k], {}), PipelineCalls(partition, row[..k + 1], {});
    assert after == if OnSubmesh(partition, row[k]) then before + {k} else before;
  }

  /** Counts the submeshes and the pipeline tasks of one iteration. */
  method CountGroups(partition: Partition, row: seq<Task>) returns (numGroups: nat, numPipelineTasks: nat)
    requires Colored(partition, row)
    ensures numGroups == if Groups(partition, row) == {} then 1 else |Groups(partition, row)|
    ensures numPipelineTasks == |PipelineCalls(partition, row, {})|
    ensures numGroups > 0
  {
    var uniqueGroups: set<DeviceList> := {};
    numPipelineTasks := 0;
    for k := 0 to |row|
      invariant uniqueGroups == Groups(partition, row[..k])
      invariant numPipelineTasks == |PipelineCalls(partition, row[..k], {})|
    {
      assert row[..k + 1][..k] == row[..k];
      assert forall task :: task in row[..k + 1] <==> task in row[..k] || task == row[k];
      OneMoreCall(partition, row, k);
      var devices := partition.colors[row[k].color].devices;
      if devices.size != partition.totalDevices {
        uniqueGroups := uniqueGroups + {devices};
        numPipelineTasks := numPipelineTasks + 1;
      }
    }
    assert row[..|row|] == row;
    numGroups := if |uniqueGroups| > 1 then |uniqueGroups| else 1;
  }
}
