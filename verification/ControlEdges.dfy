/** Control dependencies that pin a schedule: every task is linked to the next task of its row that
    runs on the same devices. */
module ControlEdges {
  import opened Wavefront

  /** A link inside one row of the schedule. */
  datatype Edge = Edge(row: nat, lhs: nat, rhs: nat)

  /** `rhs` is the first task after `lhs` on the devices of `lhs`. */
  ghost predicate IsNext<D>(devices: seq<D>, lhs: int, rhs: int) {
    && 0 <= lhs < rhs < |devices| && devices[lhs] == devices[rhs]
    && (forall k :: lhs < k < rhs ==> devices[k] != devices[lhs])
  }

  ghost predicate LinksOf<D>(devices: seq<seq<D>>, e: Edge) {
    e.row < |devices| && IsNext(devices[e.row], e.lhs, e.rhs)
  }

  /** The nested search with an early exit. */
  method AddControlDependencies<D(==)>(devices: seq<seq<D>>) returns (edges: set<Edge>)
    ensures forall e :: e in edges <==> LinksOf(devices, e)
  {
    edges := {};
    for row := 0 to |devices|
      invariant forall e :: e in edges <==> e.row < row && LinksOf(devices, e)
    {
      for lhs := 0 to |devices[row]|
        invariant forall e :: e in edges <==> (e.row < row || (e.row == row && e.lhs < lhs)) && LinksOf(devices, e)
      {
        ghost var before := edges;
        var rhs := lhs + 1;
        while rhs < |devices[row]|
          invariant lhs < rhs <= |devices[row]| && edges == before
          invariant forall k :: lhs < k < rhs ==> devices[row][k] != devices[row][lhs]
        {
          if devices[row][lhs] == devices[row][rhs] {
            edges := edges + {Edge(row, lhs, rhs)};
            break;
          }
          rhs := rhs + 1;
        }
      }
    }
  }

  // ---- paths ----

  ghost predicate ControlPath<D>(devices: seq<D>, path: seq<int>) {
    |path| >= 2 && forall k :: 0 <= k < |path| - 1 ==> IsNext(devices, path[k], path[k + 1])
  }

  ghost predicate PathFromTo(path: seq<int>, i: int, j: int) {
    |path| >= 2 && path[0] == i && path[|path| - 1] == j
  }

  lemma {:induction false} ControlPathSameDevices<D>(devices: seq<D>, path: seq<int>)
    requires ControlPath(devices, path)
    ensures 0 <= path[0] < path[|path| - 1] < |devices|
    ensures devices[path[0]] == devices[path[|path| - 1]]
    decreases |path|
  {
    assert IsNext(devices, path[0], path[1]);
    if |path| > 2 {
      var rest := path[1..];
      forall k | 0 <= k < |rest| - 1 ensures IsNext(devices, rest[k], rest[k + 1]) {
        assert IsNext(devices, path[k + 1], path[k + 2]);
      }
      ControlPathSameDevices(devices, rest);
    }
  }

  lemma {:induction false} NextOnDevices<D>(devices: seq<D>, i: int, j: int, lo: int) returns (next: int)
    requires 0 <= i < lo <= j < |devices| && devices[i] == devices[j]
    requires forall k :: i < k < lo ==> devices[k] != devices[i]
    ensures i < next <= j && IsNext(devices, i, next)
    decreases j - lo
  {
    if devices[lo] == devices[i] {
      next := lo;
    } else {
      next := NextOnDevices(devices, i, j, lo + 1);
    }
  }

  lemma {:induction false} PathBetween<D>(devices: seq<D>, i: int, j: int) returns (path: seq<int>)
    requires 0 <= i < j < |devices| && devices[i] == devices[j]
    ensures ControlPath(devices, path) && PathFromTo(path, i, j)
    decreases j - i
  {
    var next := NextOnDevices(devices, i, j, i + 1);
    if next == j {
      path := [i, j];
    } else {
      var rest := PathBetween(devices, next, j);
      path := [i] + rest;
      forall k | 0 <= k < |path| - 1 ensures IsNext(devices, path[k], path[k + 1]) {
        if k > 0 {
          assert IsNext(devices, rest[k - 1], rest[k]);
        }
      }
    }
  }

  /** The transitive closure of the links is, on each device list, exactly the schedule order. */
  lemma ClosureIsScheduleOrder<D>(devices: seq<D>, i: int, j: int)
    requires 0 <= i < |devices| && 0 <= j < |devices|
    ensures (exists path :: ControlPath(devices, path) && PathFromTo(path, i, j)) <==>
            i < j && devices[i] == devices[j]
  {
    if i < j && devices[i] == devices[j] {
      var path := PathBetween(devices, i, j);
    }
    forall path | ControlPath(devices, path) && PathFromTo(path, i, j) ensures i < j && devices[i] == devices[j] {
      ControlPathSameDevices(devices, path);
    }
  }

  // ---- control edges together with data edges ----

  /** One edge of the scheduled graph: a link, or a data dependency between two slots. */
  ghost predicate Step<D>(devices: seq<D>, origin: seq<Slot>, data: (Slot, Slot) -> bool, i: int, j: int)
    requires |devices| == |origin|
  {
    0 <= i < |origin| && 0 <= j < |origin| && (IsNext(devices, i, j) || data(origin[i], origin[j]))
  }

  ghost predicate MixedPath<D>(devices: seq<D>, origin: seq<Slot>, data: (Slot, Slot) -> bool, path: seq<int>)
    requires |devices| == |origin|
  {
    |path| >= 2 && forall k :: 0 <= k < |path| - 1 ==> Step(devices, origin, data, path[k], path[k + 1])
  }

  /** Every producer is scheduled before its consumers. */
  ghost predicate Respects(origin: seq<Slot>, data: (Slot, Slot) -> bool) {
    forall i, j :: 0 <= i < |origin| && 0 <= j < |origin| && data(origin[i], origin[j]) ==> i < j
  }

  /** A schedule that extends the data dependencies can never deadlock on its control edges. */
  lemma {:induction false} NoDeadlock<D>(devices: seq<D>, origin: seq<Slot>, data: (Slot, Slot) -> bool, path: seq<int>)
    requires |devices| == |origin| && Respects(origin, data)
    requires MixedPath(devices, origin, data, path)
    ensures path[0] < path[|path| - 1]
    decreases |path|
  {
    assert Step(devices, origin, data, path[0], path[1]);
    if |path| > 2 {
      var rest := path[1..];
      forall k | 0 <= k < |rest| - 1 ensures Step(devices, origin, data, rest[k], rest[k + 1]) {
        assert Step(devices, origin, data, path[k + 1], path[k + 2]);
      }
      NoDeadlock(devices, origin, data, rest);
    }
  }

  /** Conversely, scheduling a consumer before its producer on the same devices closes a cycle. */
  lemma InversionDeadlocks<D>(devices: seq<D>, origin: seq<Slot>, data: (Slot, Slot) -> bool, i: int, j: int) returns (cycle: seq<int>)
    requires |devices| == |origin| && 0 <= i < j < |origin|
    requires devices[i] == devices[j] && data(origin[j], origin[i])
    ensures MixedPath(devices, origin, data, cycle) && PathFromTo(cycle, i, i)
  {
    var path := PathBetween(devices, i, j);
    cycle := path + [i];
    forall k | 0 <= k < |cycle| - 1 ensures Step(devices, origin, data, cycle[k], cycle[k + 1]) {
      if k < |path| - 1 {
        assert IsNext(devices, path[k], path[k + 1]);
      }
    }
  }
}
