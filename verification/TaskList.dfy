/** The ordered list of tasks and transfers, and the buffers that they read and write. */
module TaskList {
  import opened Wrappers
  import opened Sequences

  /** A call lists its outputs by tuple index; a reshard has one operand. */
  datatype Opcode =
    | Parameter(number: nat)
    | Call(outputs: seq<nat>)
    | Get
    | Reshard
    | SliceOffset(offset: Option<int>)
    | Tuple
    | Other

  datatype Instruction = Instruction(op: Opcode, operands: seq<nat>, users: seq<nat>, name: string, color: Option<string>)

  /** The entry computation: its instructions in post-order, and its root. */
  datatype Graph = Graph(instructions: seq<Instruction>, root: nat)

  ghost predicate IsInstruction(graph: Graph, n: nat)
    requires n < |graph.instructions|
  {
    var i := graph.instructions[n];
    && (forall x :: x in i.operands ==> x < n)
    && (forall u :: u in i.users ==> u < |graph.instructions| && n in graph.instructions[u].operands)
    && (i.op.Get? ==> |i.operands| == 1 && i.operands[0] < n && graph.instructions[i.operands[0]].op.Call?)
    && (i.op.Reshard? ==> |i.operands| == 1)
    && (i.op.Call? ==> forall o :: o in i.op.outputs ==> o < |graph.instructions| && graph.instructions[o].op.Get?)
  }

  ghost predicate IsGraph(graph: Graph) {
    graph.root < |graph.instructions| && forall n :: 0 <= n < |graph.instructions| ==> IsInstruction(graph, n)
  }

  predicate IsTask(graph: Graph, n: nat)
    requires n < |graph.instructions|
  {
    graph.instructions[n].op.Call? || graph.instructions[n].op.Reshard?
  }

  // ---- stores ----

  datatype StoreType = PARAM | ROOT | TEMP

  datatype Store = Store(kind: StoreType, index: nat, name: string)

  function IndexOf(s: seq<nat>, x: nat): (r: Option<nat>)
    ensures r == None <==> x !in s
    ensures r.Some? ==> r.value < |s| && s[r.value] == x && x !in s[..r.value]
  {
    if s == [] then None
    else if s[0] == x then Some(0)
    else
      match IndexOf(s[1..], x)
      case None => None
      case Some(i) => assert s[..i + 1] == [s[0]] + s[1..][..i]; Some(i + 1)
  }

  /** The first position at which the root returns an instruction. */
  function RootIndex(graph: Graph, n: nat): Option<nat>
    requires n < |graph.instructions| && graph.root < |graph.instructions|
  {
    var root := graph.instructions[graph.root];
    if !root.op.Tuple? then (if n == graph.root then Some(0) else None)
    else if |graph.instructions[n].users| <= 4 && graph.root !in graph.instructions[n].users then None
    else IndexOf(root.operands, n)
  }

  /** Users are recorded for every operand. */
  ghost predicate UsersComplete(graph: Graph) {
    forall u, n :: 0 <= u < |graph.instructions| && n in graph.instructions[u].operands && n < |graph.instructions| ==> u in graph.instructions[n].users
  }

  /** Although the operands of the root are only searched for values that may be returned, every returned value
      is found, at the first place where it is returned. */
  lemma RootIndexIff(graph: Graph, n: nat)
    requires n < |graph.instructions| && graph.root < |graph.instructions| && UsersComplete(graph)
    ensures var root := graph.instructions[graph.root];
            match RootIndex(graph, n)
            case Some(i) =>
              if root.op.Tuple? then i < |root.operands| && root.operands[i] == n && forall j :: 0 <= j < i ==> root.operands[j] != n
              else n == graph.root && i == 0
            case None => if root.op.Tuple? then n !in root.operands else n != graph.root
  {
    var operands := graph.instructions[graph.root].operands;
    if IndexOf(operands, n).Some? {
      var i := IndexOf(operands, n).value;
      forall j | 0 <= j < i ensures operands[j] != n {
        assert operands[j] == operands[..i][j];
      }
    }
  }

  predicate IsValue(op: Opcode) {
    op.Get? || op.Reshard?
  }

  /** The store that one of the first loop's steps adds. */
  function FixedStore(graph: Graph, n: nat): Option<Store>
    requires n < |graph.instructions| && graph.root < |graph.instructions|
  {
    var i := graph.instructions[n];
    if i.op.Parameter? then Some(Store(PARAM, i.op.number, i.name))
    else if IsValue(i.op) && RootIndex(graph, n).Some? then Some(Store(ROOT, RootIndex(graph, n).value, i.name))
    else None
  }

  /** Some parameter or root output among the first `k` instructions carries this name. */
  ghost predicate IsFixedName(graph: Graph, name: string, k: nat)
    requires k <= |graph.instructions| && graph.root < |graph.instructions|
  {
    exists n :: 0 <= n < k && FixedStore(graph, n).Some? && graph.instructions[n].name == name
  }

  ghost predicate IsFixedStore(graph: Graph, store: Store)
    requires graph.root < |graph.instructions|
  {
    exists n :: 0 <= n < |graph.instructions| && FixedStore(graph, n) == Some(store)
  }

  /** Temporaries are numbered 0, 1, ... without gaps, each number for one name. */
  ghost predicate IsNumbered(stores: map<string, Store>, owners: seq<string>) {
    && (forall i :: 0 <= i < |owners| ==> owners[i] in stores && stores[owners[i]] == Store(TEMP, i, owners[i]))
    && (forall name :: name in stores && stores[name].kind == TEMP ==>
          stores[name].index < |owners| && owners[stores[name].index] == name)
  }

  // ---- the schedule ----

  datatype Input = Buffer(store: Store) | Scalar(offset: int)

  datatype Operation =
    | Task(call: nat, inputs: seq<Input>, outputs: seq<Store>)
    | Transfer(reshard: nat, input: Store, output: Store)

  function Id(operation: Operation): nat {
    match operation
    case Task(call, _, _) => call
    case Transfer(reshard, _, _) => reshard
  }

  /** The task or transfer that makes a value. */
  function Producer(graph: Graph, n: nat): Option<nat>
    requires n < |graph.instructions|
  {
    var i := graph.instructions[n];
    if i.op.Get? && i.operands != [] then Some(i.operands[0])
    else if i.op.Reshard? then Some(n)
    else None
  }

  ghost predicate ProducersIn(graph: Graph, n: nat, ids: set<nat>) {
    n < |graph.instructions| &&
    forall x :: x in graph.instructions[n].operands && x < |graph.instructions| && Producer(graph, x).Some? ==> Producer(graph, x).value in ids
  }

  ghost function Ids(schedule: seq<Operation>): (r: set<nat>)
    ensures forall j :: 0 <= j < |schedule| ==> Id(schedule[j]) in r
  {
    set j | 0 <= j < |schedule| :: Id(schedule[j])
  }

  /** No operation occurs twice, and each comes after the producers of its operands. */
  ghost predicate IsOrdered(graph: Graph, schedule: seq<Operation>) {
    && (forall i, j :: 0 <= i < j < |schedule| ==> Id(schedule[i]) != Id(schedule[j]))
    && (forall j :: 0 <= j < |schedule| ==> ProducersIn(graph, Id(schedule[j]), Ids(schedule[..j])))
  }

  /** Each operation reads and writes the buffers of its operands and outputs. */
  ghost predicate Uses(graph: Graph, stores: map<string, Store>, operation: Operation) {
    match operation
    case Task(call, inputs, outputs) =>
      && call < |graph.instructions| && graph.instructions[call].op.Call?
      && |inputs| == |graph.instructions[call].operands| && |outputs| == |graph.instructions[call].op.outputs|
      && (forall k :: 0 <= k < |inputs| ==> IsInput(graph, stores, graph.instructions[call].operands[k], inputs[k]))
      && (forall k :: 0 <= k < |outputs| ==> IsStoreOf(graph, stores, graph.instructions[call].op.outputs[k], outputs[k]))
    case Transfer(reshard, input, output) =>
      && reshard < |graph.instructions| && graph.instructions[reshard].op.Reshard?
      && graph.instructions[reshard].operands != []
      && IsStoreOf(graph, stores, graph.instructions[reshard].operands[0], input)
      && IsStoreOf(graph, stores, reshard, output)
  }

  ghost predicate IsStoreOf(graph: Graph, stores: map<string, Store>, n: nat, store: Store) {
    n < |graph.instructions| && graph.instructions[n].name in stores && stores[graph.instructions[n].name] == store
  }

  ghost predicate IsInput(graph: Graph, stores: map<string, Store>, n: nat, input: Input) {
    n < |graph.instructions| &&
    match graph.instructions[n].op
    case SliceOffset(offset) => offset.Some? && input == Scalar(offset.value)
    case _ => input.Buffer? && IsStoreOf(graph, stores, n, input.store)
  }

  lemma AppendOperation(graph: Graph, schedule: seq<Operation>, operation: Operation)
    requires IsOrdered(graph, schedule) && Id(operation) !in Ids(schedule) && ProducersIn(graph, Id(operation), Ids(schedule))
    ensures IsOrdered(graph, schedule + [operation]) && Ids(schedule + [operation]) == Ids(schedule) + {Id(operation)}
  {
    var after := schedule + [operation];
    forall j | 0 <= j < |after| ensures ProducersIn(graph, Id(after[j]), Ids(after[..j])) {
      assert after[..j] == if j < |schedule| then schedule[..j] else schedule;
    }
    forall x | x in Ids(schedule) ensures x in Ids(after) {
      var j :| 0 <= j < |schedule| && Id(schedule[j]) == x;
      assert Id(after[j]) == x;
    }
    assert Id(after[|schedule|]) == Id(operation);
  }

  // ---- the scheduler ----

  /** Before the second loop: a store for each name of a parameter or root output, and no others. */
  ghost predicate FixedAssigned(graph: Graph, stores: map<string, Store>, k: nat)
    requires k <= |graph.instructions| && graph.root < |graph.instructions|
  {
    && (forall name :: name in stores <==> IsFixedName(graph, name, k))
    && (forall name :: name in stores ==> stores[name].name == name && stores[name].kind != TEMP && IsFixedStore(graph, stores[name]))
  }

  /** Values have stores; a name is temporary exactly when no parameter or root output carries it. */
  ghost predicate StoresExplained(graph: Graph, stores: map<string, Store>, owners: seq<string>, k: nat)
    requires k <= |graph.instructions| && graph.root < |graph.instructions|
  {
    && IsNumbered(stores, owners)
    && (forall name :: name in stores ==> stores[name].name == name)
    && (forall name :: IsFixedName(graph, name, |graph.instructions|) ==> name in stores)
    && (forall name :: name in stores ==> (stores[name].kind == TEMP <==> !IsFixedName(graph, name, |graph.instructions|)))
    && (forall name :: name in stores && stores[name].kind != TEMP ==> IsFixedStore(graph, stores[name]))
    && (forall n :: 0 <= n < k && IsValue(graph.instructions[n].op) ==> graph.instructions[n].name in stores)
  }

  ghost predicate ValuesColored(graph: Graph) {
    forall n :: 0 <= n < |graph.instructions| && (IsValue(graph.instructions[n].op) || graph.instructions[n].op.Call?) ==>
      graph.instructions[n].color.Some?
  }

  /** The first `n` instructions: which operations must be in the schedule. */
  ghost predicate Visited(graph: Graph, ids: set<nat>, scheduled: set<nat>, n: nat)
    requires n <= |graph.instructions|
  {
    && (forall x :: x in ids ==> x < |graph.instructions| && IsTask(graph, x))
    && (forall x :: x in ids && x < |graph.instructions| ==> (graph.instructions[x].op.Reshard? <==> x in scheduled))
    && (forall x :: x in scheduled ==> x in ids)
    && (forall x :: 0 <= x < n && IsTask(graph, x) ==> x in ids)
    && (forall x :: x in ids && x < |graph.instructions| && graph.instructions[x].op.Call? ==> x < n)
  }

  lemma ProducersVisited(graph: Graph, ids: set<nat>, scheduled: set<nat>, n: nat, x: nat)
    requires IsGraph(graph) && n <= |graph.instructions| && Visited(graph, ids, scheduled, n)
    requires x < |graph.instructions| && forall o :: o in graph.instructions[x].operands ==> o < n || (o == n && n < |graph.instructions| && graph.instructions[n].op.Get?)
    ensures ProducersIn(graph, x, ids)
  {
    forall o | o in graph.instructions[x].operands && o < |graph.instructions| && Producer(graph, o).Some?
      ensures Producer(graph, o).value in ids
    {
      assert IsInstruction(graph, o);
      if graph.instructions[o].op.Get? {
        assert graph.instructions[o].operands[0] in graph.instructions[o].operands;
      }
    }
  }

  /** The instruction at which a task is scheduled: a transfer that reads an output goes with the output. */
  ghost function Trigger(graph: Graph, n: nat): nat {
    if n < |graph.instructions| && graph.instructions[n].op.Reshard? && IsPulled(graph, n) then graph.instructions[n].operands[0] else n
  }

  /** The transfer is a user of the output that it reads. */
  ghost predicate IsPulled(graph: Graph, n: nat)
    requires n < |graph.instructions|
  {
    && graph.instructions[n].operands != [] && graph.instructions[n].operands[0] < |graph.instructions|
    && graph.instructions[graph.instructions[n].operands[0]].op.Get? && n in graph.instructions[graph.instructions[n].operands[0]].users
  }

  /** The operations follow one another in the order in which they are triggered, and none before `n` is missing. */
  ghost predicate InTriggerOrder(graph: Graph, schedule: seq<Operation>, n: nat) {
    && (forall j, k :: 0 <= j < k < |schedule| ==> Trigger(graph, Id(schedule[j])) <= Trigger(graph, Id(schedule[k])))
    && (forall j :: 0 <= j < |schedule| ==> Trigger(graph, Id(schedule[j])) <= n)
    && (forall x :: 0 <= x < |graph.instructions| && IsTask(graph, x) && Trigger(graph, x) < n ==> x in Ids(schedule))
  }

  /** A user of an output that is a transfer is triggered by the output. */
  lemma UserTrigger(graph: Graph, n: nat, user: nat)
    requires IsGraph(graph) && n < |graph.instructions| && graph.instructions[n].op.Get? && user in graph.instructions[n].users
    ensures user < |graph.instructions| && (graph.instructions[user].op.Reshard? ==> Trigger(graph, user) == n)
  {
    assert IsInstruction(graph, n);
    assert IsInstruction(graph, user);
  }

  ghost predicate IsSchedule(graph: Graph, stores: map<string, Store>, schedule: seq<Operation>, scheduled: set<nat>, n: nat)
    requires n <= |graph.instructions|
  {
    && IsOrdered(graph, schedule) && Visited(graph, Ids(schedule), scheduled, n) && InTriggerOrder(graph, schedule, n)
    && forall j :: 0 <= j < |schedule| ==> Uses(graph, stores, schedule[j])
  }

  lemma AddTransfer(graph: Graph, stores: map<string, Store>, schedule: seq<Operation>, scheduled: set<nat>, n: nat, operation: Operation)
    requires n <= |graph.instructions| && IsSchedule(graph, stores, schedule, scheduled, n)
    requires operation.Transfer? && Uses(graph, stores, operation) && operation.reshard !in scheduled
    requires Trigger(graph, operation.reshard) == n
    requires ProducersIn(graph, operation.reshard, Ids(schedule))
    ensures IsSchedule(graph, stores, schedule + [operation], scheduled + {operation.reshard}, n)
    ensures Ids(schedule + [operation]) == Ids(schedule) + {operation.reshard}
  {
    AppendOperation(graph, schedule, operation);
  }

  lemma AddTask(graph: Graph, stores: map<string, Store>, schedule: seq<Operation>, scheduled: set<nat>, n: nat, operation: Operation)
    requires n < |graph.instructions| && IsSchedule(graph, stores, schedule, scheduled, n)
    requires operation.Task? && operation.call == n && Uses(graph, stores, operation)
    requires ProducersIn(graph, n, Ids(schedule))
    ensures IsSchedule(graph, stores, schedule + [operation], scheduled, n + 1)
  {
    AppendOperation(graph, schedule, operation);
  }

  /** An instruction that is no task, or is in the schedule already, needs nothing more. */
  lemma NothingToAdd(graph: Graph, stores: map<string, Store>, schedule: seq<Operation>, scheduled: set<nat>, n: nat)
    requires n < |graph.instructions| && IsSchedule(graph, stores, schedule, scheduled, n)
    requires forall x :: 0 <= x < |graph.instructions| && IsTask(graph, x) && Trigger(graph, x) == n ==> x in Ids(schedule)
    requires IsTask(graph, n) ==> n in Ids(schedule)
    ensures IsSchedule(graph, stores, schedule, scheduled, n + 1)
  {
  }

  /** What instruction `n` triggers: itself, or the transfers among the users of an output. */
  lemma TriggeredAt(graph: Graph, n: nat)
    requires n < |graph.instructions|
    ensures forall x: nat :: x < |graph.instructions| && Trigger(graph, x) == n && x != n ==>
              graph.instructions[n].op.Get? && x in graph.instructions[n].users && graph.instructions[x].op.Reshard?
  {
  }

  class MpmdScheduler {
    const graph: Graph
    var schedule: seq<Operation>
    var alreadyScheduled: set<nat>
    var stores: map<string, Store>
    var numTemps: nat
    ghost var owners: seq<string>

    constructor (graph: Graph)
      requires IsGraph(graph)
      ensures this.graph == graph && schedule == [] && alreadyScheduled == {} && stores == map[] && numTemps == 0 && owners == []
    {
      this.graph := graph;
      schedule, alreadyScheduled, stores, numTemps, owners := [], {}, map[], 0, [];
    }

    /** An existing store for the name is kept. */
    method AddStore(kind: StoreType, n: nat, index: nat) returns (ok: bool)
      requires n < |graph.instructions|
      requires kind == TEMP ==> graph.instructions[n].name !in stores && |owners| == numTemps
      modifies this`stores, this`numTemps, this`owners
      ensures ok <==> graph.instructions[n].color.Some? || graph.instructions[n].op.Parameter?
      ensures !ok ==> stores == old(stores) && owners == old(owners) && numTemps == old(numTemps)
      ensures ok && kind != TEMP ==>
                && stores == (if graph.instructions[n].name in old(stores) then old(stores)
                              else old(stores)[graph.instructions[n].name := Store(kind, index, graph.instructions[n].name)])
                && owners == old(owners) && numTemps == old(numTemps)
      ensures ok && kind == TEMP ==>
                && stores == old(stores)[graph.instructions[n].name := Store(TEMP, old(numTemps), graph.instructions[n].name)]
                && owners == old(owners) + [graph.instructions[n].name] && numTemps == old(numTemps) + 1
    {
      var i := graph.instructions[n];
      if i.color == None && !i.op.Parameter? {
        return false;
      }
      var number := index;
      if kind == TEMP {
        number := numTemps;
        numTemps := numTemps + 1;
        owners := owners + [i.name];
      }
      if i.name !in stores {
        stores := stores[i.name := Store(kind, number, i.name)];
      }
      ok := true;
    }

    method AssignFixedStores() returns (ok: bool)
      requires IsGraph(graph) && stores == map[] && owners == [] && numTemps == 0
      modifies this`stores, this`numTemps, this`owners
      ensures owners == [] && numTemps == 0
      ensures ok ==> FixedAssigned(graph, stores, |graph.instructions|)
      ensures ValuesColored(graph) ==> ok
    {
      for n := 0 to |graph.instructions|
        invariant FixedAssigned(graph, stores, n) && owners == [] && numTemps == 0
      {
        var i := graph.instructions[n];
        FixedStep(graph, stores, n);
        if i.op.Parameter? {
          ok := AddStore(PARAM, n, i.op.number);
        } else if IsValue(i.op) && RootIndex(graph, n).Some? {
          ok := AddStore(ROOT, n, RootIndex(graph, n).value);
          if !ok {
            return;
          }
        }
      }
      ok := true;
    }

    /** The remaining values get temporaries, numbered in order. */
    method AssignTemporaries() returns (ok: bool)
      requires IsGraph(graph) && FixedAssigned(graph, stores, |graph.instructions|) && owners == [] && numTemps == 0
      modifies this`stores, this`numTemps, this`owners
      ensures |owners| == numTemps
      ensures ok ==> StoresExplained(graph, stores, owners, |graph.instructions|)
      ensures ValuesColored(graph) ==> ok
    {
      for n := 0 to |graph.instructions|
        invariant StoresExplained(graph, stores, owners, n) && |owners| == numTemps
      {
        var i := graph.instructions[n];
        if IsValue(i.op) && i.name !in stores {
          TemporaryStep(graph, stores, owners, n);
          ok := AddStore(TEMP, n, 0);
          if !ok {
            return;
          }
        }
      }
      ok := true;
    }

    method GetStore(n: nat) returns (r: Result<Store>)
      requires n < |graph.instructions|
      ensures r.Success? <==> graph.instructions[n].name in stores
      ensures r.Success? ==> IsStoreOf(graph, stores, n, r.value)
    {
      var name := graph.instructions[n].name;
      r := if name in stores then Success(stores[name]) else Failure(InvalidArgument);
    }

    /** The schedule is ordered, its operations use the right buffers, and the first `n` instructions are in it. */
    ghost predicate Scheduled(n: nat)
      requires n <= |graph.instructions|
      reads this
    {
      IsGraph(graph) && IsSchedule(graph, stores, schedule, alreadyScheduled, n)
    }

    method AddReshardTask(reshard: nat, ghost n: nat) returns (ok: bool)
      requires n <= |graph.instructions| && Scheduled(n)
      requires reshard < |graph.instructions| && graph.instructions[reshard].op.Reshard?
      requires ProducersIn(graph, reshard, Ids(schedule)) && (reshard in alreadyScheduled || Trigger(graph, reshard) == n)
      modifies this`schedule, this`alreadyScheduled
      ensures Scheduled(n)
      ensures ok ==> reshard in Ids(schedule) && Ids(schedule) == old(Ids(schedule)) + {reshard}
      ensures IsAddressable(graph, stores, reshard) ==> ok
    {
      ok := true;
      if reshard !in alreadyScheduled {
        assert IsInstruction(graph, reshard);
        var operand := graph.instructions[reshard].operands[0];
        assert operand in graph.instructions[reshard].operands;
        var source := GetStore(operand);
        var destination := GetStore(reshard);
        if source.Failure? || destination.Failure? {
          return false;
        }
        AddTransfer(graph, stores, schedule, alreadyScheduled, n, Transfer(reshard, source.value, destination.value));
        schedule := schedule + [Transfer(reshard, source.value, destination.value)];
        alreadyScheduled := alreadyScheduled + {reshard};
      }
    }

    /** Send a value to every mesh that needs it as soon as it exists. */
    method PrioritizeReshardsInSchedule(source: nat) returns (ok: bool)
      requires source < |graph.instructions| && graph.instructions[source].op.Get? && Scheduled(source)
      modifies this`schedule, this`alreadyScheduled
      ensures Scheduled(source)
      ensures ok ==> forall u :: u in graph.instructions[source].users && u < |graph.instructions| && graph.instructions[u].op.Reshard? ==> u in Ids(schedule)
      ensures (forall r :: 0 <= r < |graph.instructions| && graph.instructions[r].op.Reshard? ==> IsAddressable(graph, stores, r)) ==> ok
    {
      var users := graph.instructions[source].users;
      assert IsInstruction(graph, source);
      for k := 0 to |users|
        invariant Scheduled(source)
        invariant forall j :: 0 <= j < k && users[j] < |graph.instructions| && graph.instructions[users[j]].op.Reshard? ==> users[j] in Ids(schedule)
      {
        var user := users[k];
        assert user in users;
        if graph.instructions[user].op.Reshard? {
          assert IsInstruction(graph, user);
          UserTrigger(graph, source, user);
          ProducersVisited(graph, Ids(schedule), alreadyScheduled, source, user);
          ok := AddReshardTask(user, source);
          if !ok {
            return;
          }
        }
      }
      ok := true;
    }

    method AddHloModuleTask(call: nat) returns (ok: bool)
      requires call < |graph.instructions| && graph.instructions[call].op.Call? && Scheduled(call)
      modifies this`schedule
      ensures !ok ==> schedule == old(schedule)
      ensures ok ==> Scheduled(call + 1)
      ensures ok <==> graph.instructions[call].color.Some? && IsAddressable(graph, stores, call)
    {
      var i := graph.instructions[call];
      if i.color == None {
        return false;
      }
      assert IsInstruction(graph, call);
      var inputs := [];
      for k := 0 to |i.operands|
        invariant schedule == old(schedule) && Scheduled(call)
        invariant |inputs| == k && forall j :: 0 <= j < k ==> IsInput(graph, stores, i.operands[j], inputs[j])
        invariant forall o :: o in i.operands[..k] ==> HasInput(graph, stores, o)
      {
        assert i.operands[k] in i.operands && i.operands[..k + 1] == i.operands[..k] + [i.operands[k]];
        var operand := graph.instructions[i.operands[k]];
        if operand.op.SliceOffset? {
          if operand.op.offset == None {
            return false;
          }
          inputs := inputs + [Scalar(operand.op.offset.value)];
        } else {
          var store := GetStore(i.operands[k]);
          if store.Failure? {
            return false;
          }
          inputs := inputs + [Buffer(store.value)];
        }
      }
      var outputs := [];
      for k := 0 to |i.op.outputs|
        invariant schedule == old(schedule) && Scheduled(call)
        invariant |outputs| == k && forall j :: 0 <= j < k ==> IsStoreOf(graph, stores, i.op.outputs[j], outputs[j])
        invariant forall o :: o in i.op.outputs[..k] ==> o < |graph.instructions| && graph.instructions[o].name in stores
      {
        assert i.op.outputs[k] in i.op.outputs && i.op.outputs[..k + 1] == i.op.outputs[..k] + [i.op.outputs[k]];
        var store := GetStore(i.op.outputs[k]);
        if store.Failure? {
          return false;
        }
        outputs := outputs + [store.value];
      }
      assert i.operands[..|i.operands|] == i.operands && i.op.outputs[..|i.op.outputs|] == i.op.outputs;
      ProducersVisited(graph, Ids(schedule), alreadyScheduled, call, call);
      AddTask(graph, stores, schedule, alreadyScheduled, call, Task(call, inputs, outputs));
      schedule := schedule + [Task(call, inputs, outputs)];
      ok := true;
    }

    /** The temporaries by number; no number is missing. */
    method Temporaries() returns (r: seq<Store>)
      requires IsNumbered(stores, owners) && |owners| == numTemps
      ensures |r| == numTemps && forall i :: 0 <= i < |r| ==> r[i] == Store(TEMP, i, owners[i]) && stores[owners[i]] == r[i]
    {
      var temps: seq<Option<Store>> := seq(numTemps, i => None);
      var remaining := stores.Keys;
      while remaining != {}
        invariant |temps| == numTemps && remaining <= stores.Keys
        invariant forall i :: 0 <= i < numTemps && owners[i] !in remaining ==> temps[i] == Some(stores[owners[i]])
        decreases |remaining|
      {
        var name :| name in remaining;
        var store := stores[name];
        if store.kind == TEMP {
          temps := temps[store.index := Some(store)];
        }
        remaining := remaining - {name};
      }
      r := [];
      for i := 0 to |temps|
        invariant |r| == i && forall j :: 0 <= j < i ==> r[j] == stores[owners[j]]
      {
        r := r + [temps[i].value];
      }
    }

    method AddTasksFromEntryComputation() returns (ok: bool)
      requires IsGraph(graph) && schedule == [] && alreadyScheduled == {} && stores == map[] && numTemps == 0 && owners == []
      modifies this
      ensures ok ==> StoresExplained(graph, stores, owners, |graph.instructions|) && |owners| == numTemps
      ensures ok ==> Scheduled(|graph.instructions|)
      ensures ok ==> CallsAreReady(graph, stores, |graph.instructions|)
      ensures ValuesColored(graph) && IsSelfContained(graph) ==> ok
    {
      ok := AssignFixedStores();
      if !ok {
        return;
      }
      ok := AssignTemporaries();
      if !ok {
        return;
      }
      SelfContainedIsAddressable(graph, stores, owners);
      assert Ids(schedule) == {};
      for n := 0 to |graph.instructions|
        invariant Scheduled(n) && CallsAreReady(graph, stores, n)
        modifies this`schedule, this`alreadyScheduled
      {
        ok := AddTasksFor(n);
        if !ok {
          return;
        }
      }
    }

    /** One step of the last loop. */
    method AddTasksFor(n: nat) returns (ok: bool)
      requires n < |graph.instructions| && Scheduled(n)
      modifies this`schedule, this`alreadyScheduled
      ensures ok ==> Scheduled(n + 1)
      ensures ok && graph.instructions[n].op.Call? ==> graph.instructions[n].color.Some? && IsAddressable(graph, stores, n)
      ensures ValuesColored(graph) && (forall x :: 0 <= x < |graph.instructions| && IsTask(graph, x) ==> IsAddressable(graph, stores, x)) ==> ok
    {
      ok := true;
      var op := graph.instructions[n].op;
      assert IsInstruction(graph, n);
      if op.Call? {
        ok := AddHloModuleTask(n);
        return;
      }
      TriggeredAt(graph, n);
      if op.Get? {
        ok := PrioritizeReshardsInSchedule(n);
      } else if op.Reshard? {
        ProducersVisited(graph, Ids(schedule), alreadyScheduled, n, n);
        assert IsTask(graph, n) && Trigger(graph, n) != n ==> graph.instructions[n].operands[0] in graph.instructions[n].operands;
        assert Trigger(graph, n) <= n;
        ok := AddReshardTask(n, n);
      }
      if ok {
        NothingToAdd(graph, stores, schedule, alreadyScheduled, n);
      }
    }
  }

  /** The first calls have a color, and stores for all operands and outputs. */
  ghost predicate CallsAreReady(graph: Graph, stores: map<string, Store>, n: nat)
    requires n <= |graph.instructions|
  {
    forall c :: 0 <= c < n && graph.instructions[c].op.Call? ==> graph.instructions[c].color.Some? && IsAddressable(graph, stores, c)
  }

  /** A call can read the operand: it has a store, or is a known slice offset. */
  ghost predicate HasInput(graph: Graph, stores: map<string, Store>, o: nat) {
    o < |graph.instructions| ==>
      if graph.instructions[o].op.SliceOffset? then graph.instructions[o].op.offset.Some? else graph.instructions[o].name in stores
  }

  /** Every operand and output of a task or transfer has a store, or is a known slice offset. */
  ghost predicate IsAddressable(graph: Graph, stores: map<string, Store>, n: nat)
    requires n < |graph.instructions|
  {
    var i := graph.instructions[n];
    && (forall o :: o in i.operands && o < |graph.instructions| ==>
          graph.instructions[o].name in stores || (i.op.Call? && graph.instructions[o].op.SliceOffset?))
    && (forall o :: o in i.operands && o < |graph.instructions| && i.op.Call? && graph.instructions[o].op.SliceOffset? ==>
          graph.instructions[o].op.offset.Some?)
    && (i.op.Reshard? ==> i.name in stores)
    && (i.op.Call? ==> forall o :: o in i.op.outputs && o < |graph.instructions| ==> graph.instructions[o].name in stores)
  }

  /** Tasks and transfers read parameters, outputs, transfers, and known slice offsets only. */
  ghost predicate IsSelfContained(graph: Graph) {
    forall n, o :: 0 <= n < |graph.instructions| && IsTask(graph, n) && o in graph.instructions[n].operands && o < |graph.instructions| ==>
      IsReadable(graph.instructions[n].op, graph.instructions[o].op)
  }

  predicate IsReadable(user: Opcode, op: Opcode) {
    IsValue(op) || op.Parameter? || (user.Call? && op.SliceOffset? && op.offset.Some?)
  }

  lemma SelfContainedIsAddressable(graph: Graph, stores: map<string, Store>, owners: seq<string>)
    requires IsGraph(graph) && StoresExplained(graph, stores, owners, |graph.instructions|)
    ensures IsSelfContained(graph) ==>
              forall n :: 0 <= n < |graph.instructions| && IsTask(graph, n) ==> IsAddressable(graph, stores, n)
  {
    if IsSelfContained(graph) {
      forall n | 0 <= n < |graph.instructions| && IsTask(graph, n) ensures IsAddressable(graph, stores, n) {
        var i := graph.instructions[n];
        assert IsInstruction(graph, n);
        forall o | o in i.operands && o < |graph.instructions|
          ensures graph.instructions[o].name in stores || (i.op.Call? && graph.instructions[o].op.SliceOffset?)
        {
          assert IsReadable(i.op, graph.instructions[o].op);
          if graph.instructions[o].op.Parameter? {
            assert FixedStore(graph, o).Some?;
            assert IsFixedName(graph, graph.instructions[o].name, |graph.instructions|);
          }
        }
      }
    }
  }

  /** What a finished schedule contains: every call and every reshard exactly once, after its producers. */
  lemma ScheduleIsComplete(scheduler: MpmdScheduler)
    requires scheduler.Scheduled(|scheduler.graph.instructions|)
    ensures forall n: nat :: n < |scheduler.graph.instructions| && IsTask(scheduler.graph, n) ==>
              multiset(OperationIds(scheduler.schedule))[n] == 1
    ensures |scheduler.schedule| == |TaskNumbers(scheduler.graph, |scheduler.graph.instructions|)|
    ensures multiset(OperationIds(scheduler.schedule)) == multiset(TaskNumbers(scheduler.graph, |scheduler.graph.instructions|))
  {
    var ids: seq<nat> := OperationIds(scheduler.schedule);
    var tasks: seq<nat> := TaskNumbers(scheduler.graph, |scheduler.graph.instructions|);
    forall x: nat ensures x in ids <==> x in tasks {
      assert x in ids <==> x in Ids(scheduler.schedule);
    }
    DistinctSameElements(ids, tasks);
    PermutationSameLength(ids, tasks);
    forall n: nat | n < |scheduler.graph.instructions| && IsTask(scheduler.graph, n) ensures multiset(ids)[n] == 1 {
      DistinctMultiplicity(ids, n);
    }
  }

  /**
   * Transfers are pulled forward, and no further than the output they read: a transfer that is a user of
   * an output precedes every call that comes after the output, and follows every call that comes before it.
   */
  lemma TransfersArePulledForward(scheduler: MpmdScheduler, output: nat, reshard: nat, call: nat, j: nat, k: nat)
    requires scheduler.Scheduled(|scheduler.graph.instructions|)
    requires j < |scheduler.schedule| && Id(scheduler.schedule[j]) == reshard
    requires k < |scheduler.schedule| && Id(scheduler.schedule[k]) == call
    requires output < |scheduler.graph.instructions| && scheduler.graph.instructions[output].op.Get?
    requires reshard in scheduler.graph.instructions[output].users && reshard < |scheduler.graph.instructions|
    requires scheduler.graph.instructions[reshard].op.Reshard?
    requires call < |scheduler.graph.instructions| && scheduler.graph.instructions[call].op.Call?
    ensures j < k <==> output < call
  {
    UserTrigger(scheduler.graph, output, reshard);
    assert IsInstruction(scheduler.graph, output);
  }

  /** Every other transfer keeps its place among the calls. */
  lemma OtherTransfersStay(scheduler: MpmdScheduler, reshard: nat, call: nat, j: nat, k: nat)
    requires scheduler.Scheduled(|scheduler.graph.instructions|)
    requires j < |scheduler.schedule| && Id(scheduler.schedule[j]) == reshard
    requires k < |scheduler.schedule| && Id(scheduler.schedule[k]) == call
    requires reshard < |scheduler.graph.instructions| && scheduler.graph.instructions[reshard].op.Reshard?
    requires call < |scheduler.graph.instructions| && scheduler.graph.instructions[call].op.Call?
    requires forall g :: 0 <= g < |scheduler.graph.instructions| && scheduler.graph.instructions[g].op.Get? ==>
               reshard !in scheduler.graph.instructions[g].users
    ensures j < k <==> reshard < call
  {
  }

  /** Calls keep their order. */
  lemma CallsKeepOrder(scheduler: MpmdScheduler, j: nat, k: nat)
    requires scheduler.Scheduled(|scheduler.graph.instructions|) && j < k < |scheduler.schedule|
    requires scheduler.schedule[j].Task? && scheduler.schedule[k].Task?
    ensures Id(scheduler.schedule[j]) < Id(scheduler.schedule[k])
  {
    assert OperationIds(scheduler.schedule)[j] != OperationIds(scheduler.schedule)[k];
  }

  function OperationIds(schedule: seq<Operation>): (r: seq<nat>)
    ensures |r| == |schedule| && forall j :: 0 <= j < |r| ==> r[j] == Id(schedule[j])
  {
    seq(|schedule|, j requires 0 <= j < |schedule| => Id(schedule[j]))
  }

  /** The calls and reshards among the first `n` instructions. */
  function TaskNumbers(graph: Graph, n: nat): (r: seq<nat>)
    requires n <= |graph.instructions|
    ensures forall x: nat :: x in r <==> x < n && IsTask(graph, x)
    ensures Distinct(r)
  {
    if n == 0 then []
    else if IsTask(graph, n - 1) then TaskNumbers(graph, n - 1) + [n - 1]
    else TaskNumbers(graph, n - 1)
  }

  lemma FixedStep(graph: Graph, stores: map<string, Store>, n: nat)
    requires IsGraph(graph) && n < |graph.instructions| && FixedAssigned(graph, stores, n)
    ensures var store := FixedStore(graph, n);
            FixedAssigned(graph, if store == None || graph.instructions[n].name in stores then stores
                                 else stores[graph.instructions[n].name := store.value], n + 1)
  {
    forall name ensures IsFixedName(graph, name, n + 1) <==>
        IsFixedName(graph, name, n) || (FixedStore(graph, n).Some? && graph.instructions[n].name == name)
    {
    }
  }

  lemma TemporaryStep(graph: Graph, stores: map<string, Store>, owners: seq<string>, n: nat)
    requires IsGraph(graph) && n < |graph.instructions| && StoresExplained(graph, stores, owners, n)
    requires graph.instructions[n].name !in stores
    ensures var name := graph.instructions[n].name;
            StoresExplained(graph, stores[name := Store(TEMP, |owners|, name)], owners + [name], n + 1)
  {
  }
}
