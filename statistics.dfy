/** The figures the `Statistics` panel shows, derived from the board. */
module Statistics {
  import opened TaskLists
  import opened Kanban

  /** The `stats` record: four counts and the completion percentage. */
  datatype Stats = Stats(total: nat, completed: nat, inProgress: nat, pending: nat, completionRate: nat)

  /**
   * `Math.round(part / whole * 100)` for `whole > 0`, over exact rationals:
   * the integer nearest to `100 * part / whole`, halves rounded up.
   */
  function RoundedPercent(part: nat, whole: nat): (r: nat)
    requires whole > 0
    ensures -(whole as int) <= 2 * (100 * part - r * whole) < whole
  {
    var n, d := 200 * part + whole, 2 * whole;
    var q := n / d;
    assert d * q <= n < d * q + d;
    q
  }

  /** The rounding condition pins down a single integer. */
  lemma RoundedPercentUnique(part: nat, whole: nat, q: int)
    requires whole > 0
    requires -(whole as int) <= 2 * (100 * part - q * whole) < whole
    ensures q == RoundedPercent(part, whole)
  {
    var r := RoundedPercent(part, whole);
    assert -2 * whole < 2 * (r - q) * whole < 2 * whole by {
      assert 2 * (r - q) * whole == 2 * (100 * part - q * whole) - 2 * (100 * part - r * whole);
    }
    assert r - q >= 1 ==> (r - q) * whole >= whole by {
      assert (r - q - 1) * whole >= 0 <== r - q >= 1;
    }
    assert r - q <= -1 ==> (q - r) * whole >= whole by {
      assert (q - r - 1) * whole >= 0 <== r - q <= -1;
    }
  }

  /** A share of the whole rounds to a percentage between 0 and 100. */
  lemma RoundedPercentBounds(part: nat, whole: nat)
    requires 0 < whole && part <= whole
    ensures RoundedPercent(part, whole) <= 100
    ensures RoundedPercent(part, whole) == 100 <== part == whole
    ensures RoundedPercent(part, whole) == 0 <== part == 0
  {
    var r := RoundedPercent(part, whole);
    assert r > 100 ==> r * whole >= 101 * whole by {
      assert (r - 101) * whole >= 0 <== r > 100;
    }
    if part == whole {
      RoundedPercentUnique(part, whole, 100);
    }
    if part == 0 {
      RoundedPercentUnique(part, whole, 0);
    }
  }

  /** The `stats` computation of the `Statistics` panel. */
  function StatsOf(b: Board): (r: Stats)
    ensures r.total == r.completed + r.inProgress + r.pending == b.Size()
    ensures r.completed == |b.done| && r.inProgress == |b.inProgress| && r.pending == |b.todo|
    ensures r.completionRate <= 100
    ensures r.total == 0 ==> r.completionRate == 0
    ensures r.total > 0 ==> -(r.total as int) <= 2 * (100 * r.completed - r.completionRate * r.total) < r.total
  {
    var total := |b.todo| + |b.inProgress| + |b.done|;
    var rate := if total == 0 then 0 else RoundedPercent(|b.done|, total);
    assert rate <= 100 by {
      if total > 0 {
        RoundedPercentBounds(|b.done|, total);
      }
    }
    Stats(total, |b.done|, |b.inProgress|, |b.todo|, rate)
  }

  /** An empty board, in particular a cleared one, shows zero everywhere. */
  lemma ClearedStats(b: Board)
    ensures StatsOf(Clear(b, true)) == Stats(0, 0, 0, 0, 0)
  {
  }

  /** Two tasks to do and one done: three in total, 33 percent complete. */
  lemma ThreeTaskStats(a: Task, b: Task, c: Task)
    ensures StatsOf(Board([a, b], [], [c])) == Stats(3, 1, 0, 2, 33)
  {
    RoundedPercentUnique(1, 3, 33);
  }
}
