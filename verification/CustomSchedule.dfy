/** Schedules written by the user: rows of task names, one row per mesh. */
module CustomSchedule {
  import opened Arithmetic
  import opened LoopScheduler
  import opened LoopTasks
  import opened ScheduleLoops
  import opened Sequences
  import opened Wavefront
  import opened Wrappers

  /** One use of a task: the iteration and the task's name. */
  datatype Entry = Entry(iter: int, name: string)

  // ---- rows of plain names ----

  function Count(row: seq<string>, name: string): nat {
    if row == [] then 0 else Count(row[..|row| - 1], name) + if row[|row| - 1] == name then 1 else 0
  }

  /** The k-th occurrence of a name in a row stands for iteration k. */
  function CanonicalRow(row: seq<string>): (r: seq<Entry>)
    ensures |r| == |row|
  {
    if row == [] then []
    else
      var n := |row| - 1;
      CanonicalRow(row[..n]) + [Entry(Count(row[..n], row[n]), row[n])]
  }

  function CanonicalRows(rows: seq<seq<string>>): (r: seq<seq<Entry>>)
    ensures |r| == |rows| && forall k :: 0 <= k < |r| ==> r[k] == CanonicalRow(rows[k])
  {
    seq(|rows|, k requires 0 <= k < |rows| => CanonicalRow(rows[k]))
  }

  /** Every name of a row occurs there once per iteration. */
  ghost predicate RowIsFull(row: seq<string>, iterations: nat) {
    forall name :: name in row ==> Count(row, name) == iterations
  }

  lemma {:induction false} CountPositive(row: seq<string>, name: string)
    ensures Count(row, name) > 0 <==> name in row
  {
    if row != [] {
      var n := |row| - 1;
      assert row == row[..n] + [row[n]];
      CountPositive(row[..n], name);
    }
  }

  method CanonicalizeRow(row: seq<string>, iterations: nat) returns (r: Result<seq<Entry>>)
    ensures r.Success? <==> RowIsFull(row, iterations)
    ensures r.Success? ==> r.value == CanonicalRow(row)
  {
    var counter: map<string, nat> := map[];
    var entries := [];
    for k := 0 to |row|
      invariant entries == CanonicalRow(row[..k])
      invariant forall name :: name in counter <==> name in row[..k]
      invariant forall name :: (if name in counter then counter[name] else 0) == Count(row[..k], name)
    {
      var name := row[k];
      assert row[..k + 1][..k] == row[..k] && row[..k + 1] == row[..k] + [name];
      var count := if name in counter then counter[name] else 0;
      entries := entries + [Entry(count, name)];
      counter := counter[name := count + 1];
    }
    assert row[..|row|] == row;
    var remaining := counter.Keys;
    while remaining != {}
      invariant remaining <= counter.Keys
      invariant forall name :: name in counter && name !in remaining ==> counter[name] == iterations
      decreases |remaining|
    {
      var name :| name in remaining;
      if counter[name] != iterations {
        return Failure(InvalidArgument);
      }
      remaining := remaining - {name};
    }
    r := Success(entries);
  }

  /** Checks and numbers a schedule of plain names. */
  method Canonicalize(rows: seq<seq<string>>, iterations: nat) returns (r: Result<seq<seq<Entry>>>)
    ensures r.Success? <==> forall k :: 0 <= k < |rows| ==> RowIsFull(rows[k], iterations)
    ensures r.Success? ==> r.value == CanonicalRows(rows)
  {
    var canonical := [];
    for k := 0 to |rows|
      invariant forall j :: 0 <= j < k ==> RowIsFull(rows[j], iterations)
      invariant |canonical| == k && forall j :: 0 <= j < k ==> canonical[j] == CanonicalRow(rows[j])
    {
      var row := CanonicalizeRow(rows[k], iterations);
      if row.Failure? {
        return Failure(InvalidArgument);
      }
      canonical := canonical + [row.value];
    }
    assert canonical == CanonicalRows(rows);
    r := Success(canonical);
  }

  // ---- counting entries ----

  function Flatten(custom: seq<seq<Entry>>): seq<Entry> {
    if custom == [] then [] else Flatten(custom[..|custom| - 1]) + custom[|custom| - 1]
  }

  function CountName(entries: seq<Entry>, name: string): nat {
    if entries == [] then 0 else CountName(entries[..|entries| - 1], name) + if entries[|entries| - 1].name == name then 1 else 0
  }

  lemma {:induction false} CountNameConcat(a: seq<Entry>, b: seq<Entry>, name: string)
    ensures CountName(a + b, name) == CountName(a, name) + CountName(b, name)
  {
    if b == [] {
      assert a + b == a;
    } else {
      var n := |b| - 1;
      assert (a + b)[..|a + b| - 1] == a + b[..n];
      CountNameConcat(a, b[..n], name);
    }
  }

  lemma {:induction false} CountNamePositive(entries: seq<Entry>, name: string)
    ensures CountName(entries, name) > 0 <==> exists k :: 0 <= k < |entries| && entries[k].name == name
  {
    if entries != [] {
      var n := |entries| - 1;
      CountNamePositive(entries[..n], name);
      if CountName(entries[..n], name) > 0 {
        var k :| 0 <= k < n && entries[..n][k].name == name;
        assert entries[k].name == name;
      }
      if k :| 0 <= k < |entries| && entries[k].name == name {
        assert k < n ==> entries[..n][k].name == name;
      }
    }
  }

  lemma {:induction false} CanonicalCount(row: seq<string>, name: string)
    ensures CountName(CanonicalRow(row), name) == Count(row, name)
  {
    if row != [] {
      var n := |row| - 1;
      CanonicalCount(row[..n], name);
      assert CanonicalRow(row)[..n] == CanonicalRow(row[..n]);
    }
  }

  /** A numbered row holds exactly the iterations below the count of each name, each once. */
  lemma {:induction false} CanonicalMultiplicity(row: seq<string>, entry: Entry)
    ensures multiset(CanonicalRow(row))[entry] == if 0 <= entry.iter < Count(row, entry.name) then 1 else 0
  {
    if row != [] {
      var n := |row| - 1;
      CanonicalMultiplicity(row[..n], entry);
    }
  }

  /** In a numbered row the iterations of a name ascend. */
  lemma {:induction false} CanonicalAscends(row: seq<string>, i: nat, j: nat)
    requires i < j < |row| && row[i] == row[j]
    ensures CanonicalRow(row)[i].name == CanonicalRow(row)[j].name == row[i]
    ensures CanonicalRow(row)[i].iter < CanonicalRow(row)[j].iter
  {
    var n := |row| - 1;
    if j < n {
      CanonicalAscends(row[..n], i, j);
    } else {
      CanonicalAt(row[..n], i);
    }
  }

  lemma {:induction false} CanonicalAt(row: seq<string>, i: nat)
    requires i < |row|
    ensures CanonicalRow(row)[i].name == row[i] && 0 <= CanonicalRow(row)[i].iter < Count(row, row[i])
  {
    var n := |row| - 1;
    if i < n {
      CanonicalAt(row[..n], i);
    }
  }

  /** How many rows use a name. */
  function RowsUsing(rows: seq<seq<string>>, name: string): nat {
    if rows == [] then 0 else RowsUsing(rows[..|rows| - 1], name) + if name in rows[|rows| - 1] then 1 else 0
  }

  lemma {:induction false} FullRowsCount(rows: seq<seq<string>>, iterations: nat, name: string)
    requires forall k :: 0 <= k < |rows| ==> RowIsFull(rows[k], iterations)
    ensures CountName(Flatten(CanonicalRows(rows)), name) == RowsUsing(rows, name) * iterations
  {
    if rows != [] {
      var n := |rows| - 1;
      FullRowsCount(rows[..n], iterations, name);
      assert CanonicalRows(rows)[..n] == CanonicalRows(rows[..n]);
      CountNameConcat(Flatten(CanonicalRows(rows[..n])), CanonicalRow(rows[n]), name);
      CanonicalCount(rows[n], name);
      CountPositive(rows[n], name);
      MulDistributes(RowsUsing(rows[..n], name), if name in rows[n] then 1 else 0, iterations);
      FullRowsCountStep(rows, iterations, name);
    }
  }

  lemma FullRowsCountStep(rows: seq<seq<string>>, iterations: nat, name: string)
    requires rows != []
    ensures RowsUsing(rows, name) == RowsUsing(rows[..|rows| - 1], name) + if name in rows[|rows| - 1] then 1 else 0
  {
  }

  lemma {:induction false} FullRowsMultiplicity(rows: seq<seq<string>>, iterations: nat, entry: Entry)
    requires forall k :: 0 <= k < |rows| ==> RowIsFull(rows[k], iterations)
    ensures multiset(Flatten(CanonicalRows(rows)))[entry] == if 0 <= entry.iter < iterations then RowsUsing(rows, entry.name) else 0
  {
    if rows != [] {
      var n := |rows| - 1;
      FullRowsMultiplicity(rows[..n], iterations, entry);
      assert CanonicalRows(rows)[..n] == CanonicalRows(rows[..n]);
      CanonicalMultiplicity(rows[n], entry);
      CountPositive(rows[n], entry.name);
    }
  }

  /** What the scheduler's first check demands of every name. */
  ghost predicate CountsAgree(custom: seq<seq<Entry>>, iterations: nat) {
    forall name :: CountName(Flatten(custom), name) == 0 || CountName(Flatten(custom), name) == iterations
  }

  /** Every iteration of every scheduled name occurs once, and nothing else. */
  ghost predicate OnceEach(custom: seq<seq<Entry>>, iterations: nat) {
    forall entry: Entry :: multiset(Flatten(custom))[entry] ==
      if 0 <= entry.iter < iterations && CountName(Flatten(custom), entry.name) > 0 then 1 else 0
  }

  /**
   * A schedule of plain names that passes the row check and the scheduler's check holds every
   * iteration of every name once, all of a name in one row.
   */
  lemma NamesOnce(rows: seq<seq<string>>, iterations: nat)
    requires iterations > 0 && (forall k :: 0 <= k < |rows| ==> RowIsFull(rows[k], iterations))
    requires CountsAgree(CanonicalRows(rows), iterations)
    ensures OnceEach(CanonicalRows(rows), iterations)
    ensures forall i, j, name :: 0 <= i < j < |rows| && name in rows[i] ==> name !in rows[j]
  {
    var custom := CanonicalRows(rows);
    forall name ensures RowsUsing(rows, name) <= 1 && (RowsUsing(rows, name) > 0 <==> CountName(Flatten(custom), name) > 0) {
      FullRowsCount(rows, iterations, name);
      ProductIsSelf(iterations, RowsUsing(rows, name));
    }
    forall entry: Entry
      ensures multiset(Flatten(custom))[entry] == if 0 <= entry.iter < iterations && CountName(Flatten(custom), entry.name) > 0 then 1 else 0
    {
      FullRowsMultiplicity(rows, iterations, entry);
    }
    forall i, j, name | 0 <= i < j < |rows| && name in rows[i] ensures name !in rows[j] {
      TwoRowsUsing(rows, name, i, j);
    }
  }

  lemma ProductIsSelf(n: nat, k: nat)
    requires n > 0 && (k * n == 0 || k * n == n)
    ensures k <= 1 && (k > 0 <==> k * n > 0)
  {
    MulLe(1, k, n);
    MulLe(2, k, n);
  }

  lemma {:induction false} TwoRowsUsing(rows: seq<seq<string>>, name: string, i: nat, j: nat)
    requires i < j < |rows|
    ensures name in rows[i] && name in rows[j] ==> RowsUsing(rows, name) >= 2
    ensures name in rows[i] ==> RowsUsing(rows[..j], name) >= 1
  {
    UsesAt(rows[..j], name, i);
    RowsUsingGrows(rows, name, j + 1);
    assert rows[..j + 1][..j] == rows[..j];
  }

  lemma {:induction false} UsesAt(rows: seq<seq<string>>, name: string, i: nat)
    requires i < |rows|
    ensures name in rows[i] ==> RowsUsing(rows, name) >= 1
  {
    if i < |rows| - 1 {
      UsesAt(rows[..|rows| - 1], name, i);
    }
  }

  lemma {:induction false} RowsUsingGrows(rows: seq<seq<string>>, name: string, k: nat)
    requires k <= |rows|
    ensures RowsUsing(rows[..k], name) <= RowsUsing(rows, name)
  {
    if k < |rows| {
      RowsUsingGrows(rows[..|rows| - 1], name, k);
      assert rows[..|rows| - 1][..k] == rows[..k];
    } else {
      assert rows[..k] == rows;
    }
  }

  // ---- from names to tasks ----

  predicate Contains(s: string, part: string) {
    exists k :: 0 <= k <= |s| && OccursAt(s, part, k)
  }

  predicate OccursAt(s: string, part: string, k: nat) {
    k + |part| <= |s| && s[k..k + |part|] == part
  }

  /** A name stands for the tasks of an iteration whose color contains it. */
  ghost predicate Matches(tasks: seq<seq<Task>>, columns: nat, slot: Slot, name: string)
    requires IsGrid(tasks, columns)
  {
    InGrid(tasks, columns, slot) && Contains(tasks[slot.microbatch][slot.stage].color, name)
  }

  ghost predicate Resolves(tasks: seq<seq<Task>>, columns: nat, entry: Entry, slot: Slot)
    requires IsGrid(tasks, columns)
  {
    slot.microbatch == entry.iter && Matches(tasks, columns, slot, entry.name)
  }

  ghost predicate IsScheduled(custom: seq<seq<Entry>>, name: string) {
    CountName(Flatten(custom), name) > 0
  }

  /** The name stands for two tasks of one iteration. */
  ghost predicate Clash(tasks: seq<seq<Task>>, columns: nat, a: Slot, b: Slot, name: string)
    requires IsGrid(tasks, columns)
  {
    a != b && a.microbatch == b.microbatch && Matches(tasks, columns, a, name) && Matches(tasks, columns, b, name)
  }

  /** No scheduled name stands for two tasks of one iteration. */
  ghost predicate Unambiguous(custom: seq<seq<Entry>>, tasks: seq<seq<Task>>, columns: nat)
    requires IsGrid(tasks, columns)
  {
    forall a: Slot, b: Slot, name :: IsScheduled(custom, name) ==> !Clash(tasks, columns, a, b, name)
  }

  ghost predicate AllResolve(custom: seq<seq<Entry>>, tasks: seq<seq<Task>>, columns: nat)
    requires IsGrid(tasks, columns)
  {
    forall r, k :: 0 <= r < |custom| && 0 <= k < |custom[r]| ==> CanResolve(tasks, columns, custom[r][k])
  }

  ghost predicate CanResolve(tasks: seq<seq<Task>>, columns: nat, entry: Entry)
    requires IsGrid(tasks, columns)
  {
    exists slot :: Resolves(tasks, columns, entry, slot)
  }

  /** When the scheduler takes the schedule. */
  ghost predicate IsAccepted(custom: seq<seq<Entry>>, tasks: seq<seq<Task>>, columns: nat)
    requires IsGrid(tasks, columns)
  {
    CountsAgree(custom, |tasks|) && Unambiguous(custom, tasks, columns) && AllResolve(custom, tasks, columns)
  }

  function FlattenSlots(origins: seq<seq<Slot>>): seq<Slot> {
    if origins == [] then [] else FlattenSlots(origins[..|origins| - 1]) + origins[|origins| - 1]
  }

  /** The slots at which the entries' tasks are found, row by row. */
  ghost predicate RowsResolve(custom: seq<seq<Entry>>, tasks: seq<seq<Task>>, columns: nat, origins: seq<seq<Slot>>)
    requires IsGrid(tasks, columns)
  {
    |origins| == |custom| && forall r :: 0 <= r < |custom| ==> RowResolves(custom[r], tasks, columns, origins[r])
  }

  ghost predicate RowResolves(row: seq<Entry>, tasks: seq<seq<Task>>, columns: nat, origin: seq<Slot>)
    requires IsGrid(tasks, columns)
  {
    |origin| == |row| && forall k :: 0 <= k < |row| ==> Resolves(tasks, columns, row[k], origin[k])
  }

  lemma {:induction false} FlatResolves(custom: seq<seq<Entry>>, tasks: seq<seq<Task>>, columns: nat, origins: seq<seq<Slot>>)
    requires IsGrid(tasks, columns) && RowsResolve(custom, tasks, columns, origins)
    ensures RowResolves(Flatten(custom), tasks, columns, FlattenSlots(origins))
  {
    if custom != [] {
      var n := |custom| - 1;
      FlatResolves(custom[..n], tasks, columns, origins[..n]);
      assert RowResolves(custom[n], tasks, columns, origins[n]);
    }
  }

  // ---- when exactly every task runs once ----

  /** The color of every task contains exactly one scheduled name. */
  ghost predicate NamedOnce(custom: seq<seq<Entry>>, tasks: seq<seq<Task>>, columns: nat)
    requires IsGrid(tasks, columns)
  {
    forall slot: Slot :: InGrid(tasks, columns, slot) ==>
      && (exists name :: IsScheduled(custom, name) && Matches(tasks, columns, slot, name))
      && (forall x, y :: x != y && IsScheduled(custom, x) && IsScheduled(custom, y) ==>
            !(Matches(tasks, columns, slot, x) && Matches(tasks, columns, slot, y)))
  }

  lemma EntryOccurs(custom: seq<seq<Entry>>, iterations: nat, entry: Entry) returns (k: nat)
    requires OnceEach(custom, iterations) && 0 <= entry.iter < iterations && IsScheduled(custom, entry.name)
    ensures k < |Flatten(custom)| && Flatten(custom)[k] == entry
  {
    assert multiset(Flatten(custom))[entry] == 1;
    assert entry in Flatten(custom);
    k :| k < |Flatten(custom)| && Flatten(custom)[k] == entry;
  }

  lemma EntriesDistinct(custom: seq<seq<Entry>>, iterations: nat)
    requires OnceEach(custom, iterations)
    ensures Distinct(Flatten(custom))
  {
    var flat := Flatten(custom);
    forall i, j | 0 <= i < j < |flat| ensures flat[i] != flat[j] {
      if flat[i] == flat[j] {
        RepeatedTwice(flat, i, j);
      }
    }
  }

  lemma FlatEntry(custom: seq<seq<Entry>>, k: nat)
    requires k < |Flatten(custom)|
    ensures IsScheduled(custom, Flatten(custom)[k].name)
  {
    CountNamePositive(Flatten(custom), Flatten(custom)[k].name);
  }

  // ---- repeated entries ----

  /** The iterations for which a name is scheduled. */
  ghost function Iterations(entries: seq<Entry>, name: string): (r: set<int>)
    ensures forall i :: i in r <==> Entry(i, name) in entries
    ensures Distinct(entries) ==> |r| == CountName(entries, name)
  {
    if entries == [] then {}
    else
      var before, last := entries[..|entries| - 1], entries[|entries| - 1];
      assert entries == before + [last];
      Iterations(before, name) + if last.name == name then {last.iter} else {}
  }

  lemma SubsetOfSameSize<T>(s: set<T>, t: set<T>)
    requires s <= t && |s| == |t|
    ensures s == t
  {
    assert t == s + (t - s);
  }

  /** Entries that stand for tasks name existing iterations. */
  lemma EntryInRange(tasks: seq<seq<Task>>, columns: nat, entries: seq<Entry>, flat: seq<Slot>, entry: Entry)
    requires IsGrid(tasks, columns) && RowResolves(entries, tasks, columns, flat) && entry in entries
    ensures 0 <= entry.iter < |tasks|
  {
    var k :| 0 <= k < |entries| && entries[k] == entry;
    assert Resolves(tasks, columns, entries[k], flat[k]);
  }

  /** Every name has as many entries as there are iterations, so if no entry is repeated, none is missing. */
  lemma DistinctMeansOnce(custom: seq<seq<Entry>>, tasks: seq<seq<Task>>, columns: nat, flat: seq<Slot>)
    requires IsGrid(tasks, columns) && CountsAgree(custom, |tasks|) && RowResolves(Flatten(custom), tasks, columns, flat)
    requires Distinct(Flatten(custom))
    ensures OnceEach(custom, |tasks|)
  {
    var entries := Flatten(custom);
    forall entry: Entry ensures entry in entries <==> 0 <= entry.iter < |tasks| && CountName(entries, entry.name) > 0 {
      var iterations := Iterations(entries, entry.name);
      forall i | i in iterations ensures i in Below(|tasks|) {
        EntryInRange(tasks, columns, entries, flat, Entry(i, entry.name));
      }
      if CountName(entries, entry.name) > 0 {
        SubsetOfSameSize(iterations, Below(|tasks|));
      }
      assert entry == Entry(entry.iter, entry.name);
    }
    forall entry: Entry
      ensures multiset(entries)[entry] == if 0 <= entry.iter < |tasks| && CountName(entries, entry.name) > 0 then 1 else 0
    {
      DistinctMultiplicity(entries, entry);
    }
  }

  /** Equal entries stand for the same task. */
  lemma DistinctTasksDistinctEntries(custom: seq<seq<Entry>>, tasks: seq<seq<Task>>, columns: nat, flat: seq<Slot>)
    requires IsGrid(tasks, columns) && Unambiguous(custom, tasks, columns) && RowResolves(Flatten(custom), tasks, columns, flat)
    requires Distinct(flat)
    ensures Distinct(Flatten(custom))
  {
    var entries := Flatten(custom);
    forall i, j | 0 <= i < j < |entries| ensures entries[i] != entries[j] {
      if entries[i] == entries[j] {
        FlatEntry(custom, i);
        assert Resolves(tasks, columns, entries[i], flat[i]) && Resolves(tasks, columns, entries[j], flat[j]);
        SameSlot(custom, tasks, columns, entries[i].name, flat[i], flat[j]);
        assert false;
      }
    }
  }

  /** The exact condition, for every schedule that is accepted: every task runs exactly once if and only
      if no entry is repeated and each color contains exactly one scheduled name. */
  lemma CustomCompleteIff(custom: seq<seq<Entry>>, tasks: seq<seq<Task>>, columns: nat, origins: seq<seq<Slot>>)
    requires IsGrid(tasks, columns) && IsAccepted(custom, tasks, columns)
    requires RowsResolve(custom, tasks, columns, origins)
    ensures Distinct(FlattenSlots(origins)) && Complete(tasks, columns, FlattenSlots(origins)) <==>
            Distinct(Flatten(custom)) && NamedOnce(custom, tasks, columns)
  {
    var flat := FlattenSlots(origins);
    FlatResolves(custom, tasks, columns, origins);
    if Distinct(flat) {
      DistinctTasksDistinctEntries(custom, tasks, columns, flat);
    }
    if Distinct(Flatten(custom)) {
      DistinctMeansOnce(custom, tasks, columns, flat);
      if NamedOnce(custom, tasks, columns) {
        NamedOnceCompletes(custom, tasks, columns, flat);
        NamedOnceDistinct(custom, tasks, columns, flat);
      } else if Distinct(flat) && Complete(tasks, columns, flat) {
        CompleteNamesOnce(custom, tasks, columns, flat);
      }
    }
  }

  lemma SameSlot(custom: seq<seq<Entry>>, tasks: seq<seq<Task>>, columns: nat, name: string, a: Slot, b: Slot)
    requires IsGrid(tasks, columns) && Unambiguous(custom, tasks, columns) && IsScheduled(custom, name)
    requires a.microbatch == b.microbatch && Matches(tasks, columns, a, name) && Matches(tasks, columns, b, name)
    ensures a == b
  {
    assert !Clash(tasks, columns, a, b, name);
  }

  /** Where the scheduled task of a name in an iteration is found. */
  lemma SlotOccurs(custom: seq<seq<Entry>>, tasks: seq<seq<Task>>, columns: nat, flat: seq<Slot>, slot: Slot, name: string) returns (k: nat)
    requires IsGrid(tasks, columns) && Unambiguous(custom, tasks, columns) && OnceEach(custom, |tasks|)
    requires RowResolves(Flatten(custom), tasks, columns, flat)
    requires IsScheduled(custom, name) && Matches(tasks, columns, slot, name)
    ensures k < |flat| && flat[k] == slot && Flatten(custom)[k].name == name
  {
    k := EntryOccurs(custom, |tasks|, Entry(slot.microbatch, name));
    assert Resolves(tasks, columns, Flatten(custom)[k], flat[k]);
    SameSlot(custom, tasks, columns, name, flat[k], slot);
  }

  lemma NamedOnceCompletes(custom: seq<seq<Entry>>, tasks: seq<seq<Task>>, columns: nat, flat: seq<Slot>)
    requires IsGrid(tasks, columns) && Unambiguous(custom, tasks, columns) && OnceEach(custom, |tasks|)
    requires RowResolves(Flatten(custom), tasks, columns, flat) && NamedOnce(custom, tasks, columns)
    ensures Complete(tasks, columns, flat)
  {
    forall slot: Slot | InGrid(tasks, columns, slot) ensures slot in flat {
      var name :| IsScheduled(custom, name) && Matches(tasks, columns, slot, name);
      var k := SlotOccurs(custom, tasks, columns, flat, slot, name);
    }
  }

  lemma NamedOnceDistinct(custom: seq<seq<Entry>>, tasks: seq<seq<Task>>, columns: nat, flat: seq<Slot>)
    requires IsGrid(tasks, columns) && Distinct(Flatten(custom))
    requires RowResolves(Flatten(custom), tasks, columns, flat) && NamedOnce(custom, tasks, columns)
    ensures Distinct(flat)
  {
    forall i, j | 0 <= i < j < |flat| ensures flat[i] != flat[j] {
      FlatEntry(custom, i);
      FlatEntry(custom, j);
      assert Resolves(tasks, columns, Flatten(custom)[i], flat[i]);
      assert Resolves(tasks, columns, Flatten(custom)[j], flat[j]);
    }
  }

  lemma CompleteNamesOnce(custom: seq<seq<Entry>>, tasks: seq<seq<Task>>, columns: nat, flat: seq<Slot>)
    requires IsGrid(tasks, columns) && Unambiguous(custom, tasks, columns) && OnceEach(custom, |tasks|)
    requires RowResolves(Flatten(custom), tasks, columns, flat) && Distinct(flat) && Complete(tasks, columns, flat)
    ensures NamedOnce(custom, tasks, columns)
  {
    forall slot: Slot | InGrid(tasks, columns, slot)
      ensures exists name :: IsScheduled(custom, name) && Matches(tasks, columns, slot, name)
    {
      assert slot in flat;
      var k :| 0 <= k < |flat| && flat[k] == slot;
      FlatEntry(custom, k);
      assert Resolves(tasks, columns, Flatten(custom)[k], flat[k]);
      assert Matches(tasks, columns, slot, Flatten(custom)[k].name);
    }
    forall slot: Slot, x, y | InGrid(tasks, columns, slot) && x != y && IsScheduled(custom, x) && IsScheduled(custom, y)
      ensures !(Matches(tasks, columns, slot, x) && Matches(tasks, columns, slot, y))
    {
      if Matches(tasks, columns, slot, x) && Matches(tasks, columns, slot, y) {
        var i := SlotOccurs(custom, tasks, columns, flat, slot, x);
        var j := SlotOccurs(custom, tasks, columns, flat, slot, y);
      }
    }
  }

  // ---- the scheduler ----

  /** How often each name is used. */
  method CountNames(custom: seq<seq<Entry>>) returns (counts: map<string, nat>)
    ensures forall name :: name in counts <==> IsScheduled(custom, name)
    ensures forall name :: name in counts ==> counts[name] == CountName(Flatten(custom), name)
  {
    counts := map[];
    for r := 0 to |custom|
      invariant Tallies(counts, Flatten(custom[..r]))
    {
      assert custom[..r + 1][..r] == custom[..r];
      counts := CountRow(custom[r], counts, Flatten(custom[..r]));
    }
    assert custom[..|custom|] == custom;
  }

  method CountRow(row: seq<Entry>, before: map<string, nat>, ghost entries: seq<Entry>) returns (counts: map<string, nat>)
    requires Tallies(before, entries)
    ensures Tallies(counts, entries + row)
  {
    counts := before;
    assert entries + row[..0] == entries;
    for k := 0 to |row|
      invariant Tallies(counts, entries + row[..k])
    {
      var name := row[k].name;
      TallyStep(counts, entries + row[..k], row[k]);
      assert entries + row[..k + 1] == entries + row[..k] + [row[k]];
      counts := counts[name := (if name in counts then counts[name] else 0) + 1];
    }
    assert row[..|row|] == row;
  }

  lemma TallyStep(counts: map<string, nat>, entries: seq<Entry>, entry: Entry)
    requires Tallies(counts, entries)
    ensures Tallies(counts[entry.name := (if entry.name in counts then counts[entry.name] else 0) + 1], entries + [entry])
  {
    assert (entries + [entry])[..|entries|] == entries;
  }

  ghost predicate Tallies(counts: map<string, nat>, entries: seq<Entry>) {
    && (forall name :: name in counts <==> CountName(entries, name) > 0)
    && (forall name :: name in counts ==> counts[name] == CountName(entries, name))
  }

  /** Looks for the one task of an iteration whose color contains the name. */
  method FindTask(tasks: seq<seq<Task>>, columns: nat, iter: nat, name: string) returns (ok: bool, found: Option<nat>)
    requires IsGrid(tasks, columns) && iter < |tasks|
    ensures ok <==> forall a, b :: 0 <= a < b < columns ==> !(Contains(tasks[iter][a].color, name) && Contains(tasks[iter][b].color, name))
    ensures ok && found == None ==> forall c :: 0 <= c < columns ==> !Contains(tasks[iter][c].color, name)
    ensures ok && found.Some? ==> found.value < columns && Contains(tasks[iter][found.value].color, name)
  {
    found := None;
    for c := 0 to columns
      invariant found == None ==> forall a :: 0 <= a < c ==> !Contains(tasks[iter][a].color, name)
      invariant found.Some? ==> found.value < c && forall a :: 0 <= a < c ==> (Contains(tasks[iter][a].color, name) <==> a == found.value)
    {
      if Contains(tasks[iter][c].color, name) {
        if found.Some? {
          assert Contains(tasks[iter][found.value].color, name) && Contains(tasks[iter][c].color, name);
          return false, found;
        }
        found := Some(c);
      }
    }
    ok := true;
  }

  /** The map from entries to tasks. */
  ghost predicate MapsTasks(taskMap: map<Entry, Slot>, tasks: seq<seq<Task>>, columns: nat, names: set<string>, iterations: nat)
    requires IsGrid(tasks, columns) && iterations <= |tasks|
  {
    forall entry: Entry ::
      if entry in taskMap then Resolves(tasks, columns, entry, taskMap[entry]) && entry.name in names && entry.iter < iterations
      else entry.name in names && 0 <= entry.iter < iterations ==> !CanResolve(tasks, columns, entry)
  }

  ghost predicate NoClash(tasks: seq<seq<Task>>, columns: nat, names: set<string>, iterations: nat)
    requires IsGrid(tasks, columns)
  {
    forall a: Slot, b: Slot, name :: name in names && a.microbatch < iterations ==> !Clash(tasks, columns, a, b, name)
  }

  method MapRow(tasks: seq<seq<Task>>, columns: nat, names: set<string>, iter: nat, before: map<Entry, Slot>)
    returns (ok: bool, taskMap: map<Entry, Slot>)
    requires IsGrid(tasks, columns) && iter < |tasks|
    requires MapsTasks(before, tasks, columns, names, iter) && NoClash(tasks, columns, names, iter)
    ensures ok <==> NoClash(tasks, columns, names, iter + 1)
    ensures ok ==> MapsTasks(taskMap, tasks, columns, names, iter + 1)
  {
    taskMap := before;
    var remaining := names;
    while remaining != {}
      invariant remaining <= names
      invariant forall entry: Entry ::
        if entry in taskMap then
          Resolves(tasks, columns, entry, taskMap[entry]) && entry.name in names && entry.iter <= iter && (entry.iter == iter ==> entry.name !in remaining)
        else
          entry.name in names && (0 <= entry.iter < iter || (entry.iter == iter && entry.name !in remaining)) ==> !CanResolve(tasks, columns, entry)
      invariant forall a: Slot, b: Slot, name :: name in names - remaining && a.microbatch == iter ==> !Clash(tasks, columns, a, b, name)
      decreases |remaining|
    {
      var name :| name in remaining;
      var found;
      ok, found := FindTask(tasks, columns, iter, name);
      if !ok {
        ghost var a, b :| 0 <= a < b < columns && Contains(tasks[iter][a].color, name) && Contains(tasks[iter][b].color, name);
        assert Clash(tasks, columns, Slot(iter, a), Slot(iter, b), name);
        return;
      }
      if found.Some? {
        assert Resolves(tasks, columns, Entry(iter, name), Slot(iter, found.value));
        taskMap := taskMap[Entry(iter, name) := Slot(iter, found.value)];
      }
      remaining := remaining - {name};
    }
    ok := true;
  }

  method ScheduleCustomSchedule(custom: seq<seq<Entry>>, tasks: seq<seq<Task>>, columns: nat, rows: seq<seq<Task>>)
    returns (r: Result<seq<seq<Task>>>, ghost origins: seq<seq<Slot>>)
    requires tasks != [] && IsGrid(tasks, columns) && |rows| == |custom|
    ensures r.Success? <==> IsAccepted(custom, tasks, columns)
    ensures r.Success? ==> |r.value| == |custom| && RowsResolve(custom, tasks, columns, origins)
    ensures r.Success? ==> forall row :: 0 <= row < |custom| ==> Extends(tasks, columns, rows[row], r.value[row], origins[row])
  {
    origins := [];
    var counts := CountNames(custom);
    var remaining := counts.Keys;
    while remaining != {}
      invariant remaining <= counts.Keys
      invariant forall name :: name in counts && name !in remaining ==> counts[name] == |tasks|
      decreases |remaining|
    {
      var name :| name in remaining;
      if counts[name] != |tasks| {
        assert !CountsAgree(custom, |tasks|);
        return Failure(InvalidArgument), origins;
      }
      remaining := remaining - {name};
    }
    assert CountsAgree(custom, |tasks|);
    var taskMap: map<Entry, Slot> := map[];
    for iter := 0 to |tasks|
      invariant MapsTasks(taskMap, tasks, columns, counts.Keys, iter) && NoClash(tasks, columns, counts.Keys, iter)
    {
      var ok;
      ok, taskMap := MapRow(tasks, columns, counts.Keys, iter, taskMap);
      if !ok {
        assert !Unambiguous(custom, tasks, columns);
        return Failure(InvalidArgument), origins;
      }
    }
    var schedule := rows;
    for row := 0 to |custom|
      invariant |schedule| == |custom| && |origins| == row
      invariant forall j :: row <= j < |custom| ==> schedule[j] == rows[j]
      invariant forall j :: 0 <= j < row ==> RowResolves(custom[j], tasks, columns, origins[j]) && Extends(tasks, columns, rows[j], schedule[j], origins[j])
    {
      var ok, emitted;
      ghost var origin;
      ok, emitted, origin := EmitRow(custom, row, tasks, columns, taskMap, counts.Keys);
      if !ok {
        return Failure(InvalidArgument), origins;
      }
      schedule := schedule[row := schedule[row] + emitted];
      origins := origins + [origin];
    }
    r := Success(schedule);
  }

  /** `after` is `before` followed by the tasks of these slots. */
  ghost predicate Extends(tasks: seq<seq<Task>>, columns: nat, before: seq<Task>, after: seq<Task>, origin: seq<Slot>)
    requires IsGrid(tasks, columns)
  {
    before <= after && Realizes(tasks, columns, after[|before|..], origin)
  }

  method EmitRow(custom: seq<seq<Entry>>, row: nat, tasks: seq<seq<Task>>, columns: nat, taskMap: map<Entry, Slot>, names: set<string>)
    returns (ok: bool, emitted: seq<Task>, ghost origin: seq<Slot>)
    requires IsGrid(tasks, columns) && row < |custom| && MapsTasks(taskMap, tasks, columns, names, |tasks|)
    requires forall name :: name in names <==> IsScheduled(custom, name)
    ensures !ok ==> !AllResolve(custom, tasks, columns)
    ensures ok ==> RowResolves(custom[row], tasks, columns, origin) && Realizes(tasks, columns, emitted, origin)
  {
    emitted, origin := [], [];
    for k := 0 to |custom[row]|
      invariant RowResolves(custom[row][..k], tasks, columns, origin) && Realizes(tasks, columns, emitted, origin)
    {
      var entry := custom[row][k];
      EntryIsScheduled(custom, row, k);
      if entry !in taskMap {
        assert !CanResolve(tasks, columns, custom[row][k]);
        return false, emitted, origin;
      }
      var slot := taskMap[entry];
      assert Resolves(tasks, columns, entry, slot);
      emitted := emitted + [tasks[slot.microbatch][slot.stage]];
      origin := origin + [slot];
    }
    assert custom[row][..|custom[row]|] == custom[row];
    ok := true;
  }

  lemma {:induction false} EntryIsScheduled(custom: seq<seq<Entry>>, row: nat, k: nat)
    requires row < |custom| && k < |custom[row]|
    ensures IsScheduled(custom, custom[row][k].name)
  {
    var n := |custom| - 1;
    var name := custom[row][k].name;
    CountNameConcat(Flatten(custom[..n]), custom[n], name);
    if row < n {
      EntryIsScheduled(custom[..n], row, k);
    } else {
      CountNamePositive(custom[n], name);
    }
  }

  /** The tasks that are not loop increments. */
  ghost function Remaining(tasks: seq<seq<Task>>): (r: seq<seq<Task>>)
    requires tasks != [] && IsGrid(tasks, |tasks[0]|)
    ensures |r| == |tasks| && IsGrid(r, |RemainingColumns(Hoisted(tasks[0]), |tasks[0]|)|)
  {
    var columns := RemainingColumns(Hoisted(tasks[0]), |tasks[0]|);
    seq(|tasks|, m requires 0 <= m < |tasks| => Project(tasks[m], columns))
  }

  ghost function RemainingCount(tasks: seq<seq<Task>>): nat
    requires tasks != []
  {
    |RemainingColumns(Hoisted(tasks[0]), |tasks[0]|)|
  }

  /** The loop increments of all iterations run first on the first mesh, then each mesh follows its row. */
  method ScheduleCustom(custom: Option<seq<seq<Entry>>>, tasks: seq<seq<Task>>)
    returns (r: Result<seq<seq<Task>>>, ghost hoisted: seq<Slot>, ghost origins: seq<seq<Slot>>)
    requires tasks != [] && IsGrid(tasks, |tasks[0]|) && (custom.Some? ==> custom.value != [])
    ensures r.Success? <==> custom.Some? && IsAccepted(custom.value, Remaining(tasks), RemainingCount(tasks))
    ensures r.Success? ==> |r.value| == |custom.value| && RowsResolve(custom.value, Remaining(tasks), RemainingCount(tasks), origins)
    ensures r.Success? ==>
              && Distinct(hoisted) && HoistOrder(hoisted)
              && (forall slot :: slot in hoisted <==> 0 <= slot.microbatch < |tasks| && slot.stage in Hoisted(tasks[0]))
              && exists prefix :: Realizes(tasks, |tasks[0]|, prefix, hoisted) && StartsWith(r.value, prefix, Remaining(tasks), RemainingCount(tasks), origins)
  {
    hoisted, origins := [], [];
    if custom == None {
      return Failure(InvalidArgument), hoisted, origins;
    }
    var indices := GetIndicesToUnroll(tasks[0]);
    assert indices == Hoisted(tasks[0]);
    var prefix, remaining;
    ghost var columns;
    prefix, remaining, hoisted, columns := UnrollLoopIncrementTasks(tasks, |tasks[0]|, indices);
    ColumnsAreUnique(columns, RemainingColumns(indices, |tasks[0]|), indices, |tasks[0]|);
    assert remaining == Remaining(tasks);
    var rows := [prefix] + seq(|custom.value| - 1, i => []);
    r, origins := ScheduleCustomSchedule(custom.value, remaining, |remaining[0]|, rows);
    if r.Success? {
      forall row | 0 <= row < |r.value| ensures Extends(remaining, RemainingCount(tasks), if row == 0 then prefix else [], r.value[row], origins[row]) {
        assert rows[row] == if row == 0 then prefix else [];
      }
      assert StartsWith(r.value, prefix, Remaining(tasks), RemainingCount(tasks), origins);
    }
  }

  /** Every row lists the tasks of its slots; the first row runs the prefix before them. */
  ghost predicate StartsWith(schedule: seq<seq<Task>>, prefix: seq<Task>, tasks: seq<seq<Task>>, columns: nat, origins: seq<seq<Slot>>)
    requires IsGrid(tasks, columns)
  {
    |origins| == |schedule| &&
    forall row :: 0 <= row < |schedule| ==> Extends(tasks, columns, if row == 0 then prefix else [], schedule[row], origins[row])
  }

  /**
   * A schedule of plain names that both sides accept runs every task exactly once if and only if the
   * color of each task contains exactly one of the names.
   */
  lemma NamedScheduleCompleteIff(rows: seq<seq<string>>, tasks: seq<seq<Task>>, columns: nat, origins: seq<seq<Slot>>)
    requires tasks != [] && IsGrid(tasks, columns) && (forall k :: 0 <= k < |rows| ==> RowIsFull(rows[k], |tasks|))
    requires IsAccepted(CanonicalRows(rows), tasks, columns) && RowsResolve(CanonicalRows(rows), tasks, columns, origins)
    ensures Distinct(FlattenSlots(origins)) && Complete(tasks, columns, FlattenSlots(origins)) <==>
            NamedOnce(CanonicalRows(rows), tasks, columns)
  {
    NamesOnce(rows, |tasks|);
    EntriesDistinct(CanonicalRows(rows), |tasks|);
    CustomCompleteIff(CanonicalRows(rows), tasks, columns, origins);
  }

  /** Schedules of (iteration, name) pairs are only counted: repeating an iteration goes unnoticed. */
  lemma PairsMayRepeat(custom: seq<seq<Entry>>, tasks: seq<seq<Task>>, origins: seq<seq<Slot>>)
    requires custom == [[Entry(0, "a"), Entry(0, "a")]]
    requires tasks == [[Task(0, "a", [])], [Task(1, "a", [])]]
    ensures IsGrid(tasks, 1) && IsAccepted(custom, tasks, 1)
    ensures RowsResolve(custom, tasks, 1, origins) ==> !Distinct(FlattenSlots(origins)) && Slot(1, 0) !in FlattenSlots(origins)
  {
    assert custom[..0] == [] && Flatten(custom) == custom[0];
    RepeatedCounts(custom[0]);
    RepeatedAccepted(custom, tasks);
    if RowsResolve(custom, tasks, 1, origins) {
      assert origins[..0] == [] && FlattenSlots(origins) == origins[0];
      assert RowResolves(custom[0], tasks, 1, origins[0]);
      RepeatedRuns(custom[0], tasks, origins[0]);
    }
  }

  lemma RepeatedRuns(row: seq<Entry>, tasks: seq<seq<Task>>, origin: seq<Slot>)
    requires row == [Entry(0, "a"), Entry(0, "a")] && IsGrid(tasks, 1) && RowResolves(row, tasks, 1, origin)
    ensures origin == [Slot(0, 0), Slot(0, 0)] && !Distinct(origin) && Slot(1, 0) !in origin
  {
    assert Resolves(tasks, 1, row[0], origin[0]) && Resolves(tasks, 1, row[1], origin[1]);
    assert origin[0] == origin[1];
  }

  lemma RepeatedCounts(row: seq<Entry>)
    requires row == [Entry(0, "a"), Entry(0, "a")]
    ensures forall name :: CountName(row, name) == if name == "a" then 2 else 0
  {
    assert row[..1] == [row[0]] && row[..1][..0] == [];
    forall name ensures CountName(row, name) == if name == "a" then 2 else 0 {
      assert CountName(row[..1], name) == if name == "a" then 1 else 0;
    }
  }

  lemma RepeatedAccepted(custom: seq<seq<Entry>>, tasks: seq<seq<Task>>)
    requires custom == [[Entry(0, "a"), Entry(0, "a")]] && Flatten(custom) == custom[0]
    requires forall name :: CountName(Flatten(custom), name) == if name == "a" then 2 else 0
    requires tasks == [[Task(0, "a", [])], [Task(1, "a", [])]]
    ensures IsGrid(tasks, 1) && IsAccepted(custom, tasks, 1)
  {
    assert OccursAt("a", "a", 0);
    assert Contains("a", "a");
    forall k | 0 <= k < 2 ensures CanResolve(tasks, 1, custom[0][k]) {
      assert Resolves(tasks, 1, custom[0][k], Slot(0, 0));
    }
  }
}
