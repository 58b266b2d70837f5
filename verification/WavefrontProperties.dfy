/** What the wavefront order guarantees: exactness, dependency order and bounded memory. */
module WavefrontProperties {
  import opened Arithmetic
  import opened Sequences
  import opened Wavefront

  function Min(a: int, b: int): int {
    if a < b then a else b
  }

  function CeilDiv(a: int, b: int): int
    requires b > 0
  {
    (a + b - 1) / b
  }

  /** No task is emitted twice. */
  lemma OrderIsDistinct(p: Pipeline, order: seq<Slot>)
    requires p.Valid() && IsWavefrontOrder(p, order)
    ensures Distinct(order)
  {
    forall i, j | 0 <= i < j < |order| ensures order[i] != order[j] {
      assert Before(p, order[i], order[j]);
    }
  }

  /** The specification leaves no freedom: there is one wavefront order. */
  lemma {:induction false} OrderIsUnique(p: Pipeline, s: seq<Slot>, t: seq<Slot>)
    requires p.Valid() && Ordered(p, s) && Ordered(p, t)
    requires forall slot :: slot in s <==> slot in t
    ensures s == t
    decreases |s|
  {
    if s == [] {
      FirstIsMember(t);
    } else {
      assert s[0] in t && t != [];
      HeadsAgree(p, s, t);
      TailElements(p, s);
      TailElements(p, t);
      OrderIsUnique(p, s[1..], t[1..]);
    }
  }

  lemma FirstIsFirst(p: Pipeline, s: seq<Slot>, i: int)
    requires p.Valid() && Ordered(p, s) && 0 <= i < |s|
    ensures i == 0 || Before(p, s[0], s[i])
  {
  }

  lemma BeforeIsAsymmetric(p: Pipeline, a: Slot, b: Slot)
    requires p.Valid()
    ensures !(Before(p, a, b) && Before(p, b, a))
  {
  }

  lemma HeadsAgree(p: Pipeline, s: seq<Slot>, t: seq<Slot>)
    requires p.Valid() && Ordered(p, s) && Ordered(p, t) && s != [] && t != []
    requires forall slot :: slot in s <==> slot in t
    ensures s[0] == t[0]
  {
    assert s[0] in t && t[0] in s;
    var i :| 0 <= i < |t| && t[i] == s[0];
    var j :| 0 <= j < |s| && s[j] == t[0];
    FirstIsFirst(p, t, i);
    FirstIsFirst(p, s, j);
    BeforeIsAsymmetric(p, s[0], t[0]);
  }

  lemma TailElements(p: Pipeline, s: seq<Slot>)
    requires p.Valid() && Ordered(p, s) && s != []
    ensures Ordered(p, s[1..])
    ensures forall slot :: slot in s[1..] <==> slot in s && slot != s[0]
  {
    forall i | 1 <= i < |s| ensures s[i] != s[0] {
      assert Before(p, s[0], s[i]);
    }
    forall slot | slot in s && slot != s[0] ensures slot in s[1..] {
      var i :| 0 <= i < |s| && s[i] == slot;
      assert s[1..][i - 1] == slot;
    }
  }

  /** Every task is emitted exactly when the delay between minibatches covers a whole minibatch. */
  lemma CompleteIff(p: Pipeline, order: seq<Slot>)
    requires p.Valid() && IsWavefrontOrder(p, order) && p.stages > 0
    ensures (forall slot :: p.Contains(slot) ==> slot in order) <==> p.delay >= Min(p.group, p.microbatches)
  {
    if p.delay < Min(p.group, p.microbatches) {
      DivModUnique(0, p.delay, p.group);
      assert p.Contains(Slot(p.delay, 0)) && Slot(p.delay, 0) !in order;
    } else {
      forall slot | p.Contains(slot) ensures slot in order {
        DivMod(slot.microbatch, p.group);
        if p.microbatches < p.group {
          DivModUnique(0, slot.microbatch, p.group);
        }
        assert Reached(p, slot.microbatch);
      }
    }
  }

  /** Tasks that one wavefront runs together never depend on one another. */
  lemma SameWavefrontIncomparable(p: Pipeline, a: Slot, b: Slot)
    requires p.Valid() && Reached(p, a.microbatch) && WavefrontOf(p, a) == WavefrontOf(p, b)
    ensures !ProductLess(a, b)
  {
    if a.microbatch < b.microbatch {
      TickMonotone(p, a.microbatch, b.microbatch);
    }
  }

  /** The order is a linear extension of the product order on (microbatch, stage). */
  lemma LinearExtension(p: Pipeline, order: seq<Slot>, i: int, j: int)
    requires p.Valid() && IsWavefrontOrder(p, order)
    requires 0 <= i < |order| && 0 <= j < |order| && ProductLess(order[i], order[j])
    ensures i < j
  {
    var a, b := order[i], order[j];
    assert a in order;
    if a.microbatch < b.microbatch {
      TickMonotone(p, a.microbatch, b.microbatch);
    }
    assert !Before(p, b, a);
  }

  // ---- bounded memory ----

  /** Microbatches that have entered the pipeline but not left it after the first `k` tasks. */
  ghost function InFlight(p: Pipeline, order: seq<Slot>, k: nat): (s: set<int>)
    requires k <= |order|
  {
    set m | 0 <= m < p.microbatches && Slot(m, 0) in order[..k] && Slot(m, p.stages - 1) !in order[..k] :: m
  }

  lemma InFlightSpread(p: Pipeline, order: seq<Slot>, k: nat, m: int, m': int)
    requires p.Valid() && IsWavefrontOrder(p, order) && k <= |order| && p.stages > 0
    requires m in InFlight(p, order, k) && m' in InFlight(p, order, k)
    ensures Tick(p, m) < Tick(p, m') + p.stages - 1
  {
    var enter, leave := Slot(m, 0), Slot(m', p.stages - 1);
    var i :| 0 <= i < k && order[..k][i] == enter;
    assert Slot(m', 0) in order;
    assert leave in order;
    var j :| 0 <= j < |order| && order[j] == leave;
    PrefixMember(order, k, j);
    assert order[i] == enter && i < j;
    assert Before(p, enter, leave);
  }

  /** In `delay` consecutive ticks at most min(group, delay) microbatches start. */
  lemma OneMinibatchStarts(p: Pipeline, s: set<int>, lo: int)
    requires p.Valid()
    requires forall m :: m in s ==> 0 <= m < p.microbatches && Reached(p, m) && lo <= Tick(p, m) < lo + p.delay
    ensures |s| <= Min(p.group, p.delay)
  {
    var offset := (m: int) => m % p.group;
    var offsets := Below(Min(p.group, p.delay));
    forall m, m' | m in s && m' in s && offset(m) == offset(m') ensures m == m' {
      SameOffsetSameMicrobatch(p, m, m');
    }
    forall m | m in s ensures offset(m) in offsets {
      DivMod(m, p.group);
    }
    InjectiveImageSize(s, offset, offsets);
  }

  lemma SameOffsetSameMicrobatch(p: Pipeline, m: int, m': int)
    requires p.Valid() && m % p.group == m' % p.group
    requires Tick(p, m) < Tick(p, m') + p.delay && Tick(p, m') < Tick(p, m) + p.delay
    ensures m == m'
  {
    DivMod(m, p.group);
    DivMod(m', p.group);
    MulLe(m / p.group + 1, m' / p.group, p.delay);
    MulLe(m' / p.group + 1, m / p.group, p.delay);
    MulDistributes(m / p.group, 1, p.delay);
    MulDistributes(m' / p.group, 1, p.delay);
  }

  lemma {:induction false} StartsInWindow(p: Pipeline, s: set<int>, lo: int, windows: nat)
    requires p.Valid()
    requires forall m :: m in s ==> 0 <= m < p.microbatches && Reached(p, m) && lo <= Tick(p, m) < lo + windows * p.delay
    ensures |s| <= windows * Min(p.group, p.delay)
    decreases windows
  {
    if windows == 0 {
      if s != {} {
        var m := SomeElement(s);
      }
    } else {
      var first := set m | m in s && Tick(p, m) < lo + p.delay;
      OneMinibatchStarts(p, first, lo);
      MulDistributes(windows - 1, 1, p.delay);
      StartsInWindow(p, s - first, lo + p.delay, windows - 1);
      MulDistributes(windows - 1, 1, Min(p.group, p.delay));
    }
  }

  /** The 1F1B memory bound: after any number of scheduled tasks, the microbatches holding
      activations are bounded by the shape of the pipeline, however many microbatches there are. */
  lemma MemoryBound(p: Pipeline, order: seq<Slot>, k: nat)
    requires p.Valid() && IsWavefrontOrder(p, order) && k <= |order| && p.stages > 0
    ensures |InFlight(p, order, k)| <= CeilDiv(p.stages - 1, p.delay) * Min(p.group, p.delay)
  {
    var s := InFlight(p, order, k);
    var windows := CeilDiv(p.stages - 1, p.delay);
    DivMod(p.stages - 1 + p.delay - 1, p.delay);
    assert windows * p.delay >= p.stages - 1;
    if s == {} {
      MulLe(0, windows, Min(p.group, p.delay));
    } else {
      var m0 := EarliestStart(p, s);
      forall m | m in s ensures Reached(p, m) && Tick(p, m0) <= Tick(p, m) < Tick(p, m0) + windows * p.delay {
        InFlightSpread(p, order, k, m, m0);
        assert Slot(m, 0) in order;
      }
      StartsInWindow(p, s, Tick(p, m0), windows);
    }
  }

  lemma {:induction false} EarliestStart(p: Pipeline, s: set<int>) returns (m0: int)
    requires p.Valid() && s != {}
    ensures m0 in s && forall m :: m in s ==> Tick(p, m0) <= Tick(p, m)
    decreases |s|
  {
    m0 := SomeElement(s);
    if s != {m0} {
      var m1 := EarliestStart(p, s - {m0});
      if Tick(p, m1) < Tick(p, m0) {
        m0 := m1;
      }
    }
  }
}
