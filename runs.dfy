/**
 * Splitting a list into consecutive runs, the shape shared by both message-grouping
 * utilities. A relation `joins(prev, cur)` decides whether `cur` may stay in the run
 * that `prev` ends; the two utilities differ only in that relation.
 */
module Runs {

  /** The groups laid end to end. */
  function Flatten<T>(gs: seq<seq<T>>): seq<T> {
    if gs == [] then [] else Flatten(gs[..|gs| - 1]) + gs[|gs| - 1]
  }

  function Last<T>(s: seq<T>): T
    requires s != []
  {
    s[|s| - 1]
  }

  /** Every element of `s` is joined to the one before it. */
  ghost predicate Chained<T>(s: seq<T>, joins: (T, T) -> bool) {
    forall i, j :: 0 <= i && j == i + 1 && j < |s| ==> joins(s[i], s[j])
  }

  /**
   * `gs` cuts `ms` into maximal runs: the groups, laid end to end, give `ms` back; every
   * group is non-empty and its neighbours are joined; and the last message of a group
   * and the first message of the next one are not.
   */
  ghost predicate IsRunPartition<T>(ms: seq<T>, gs: seq<seq<T>>, joins: (T, T) -> bool) {
    && Flatten(gs) == ms
    && (forall k :: 0 <= k < |gs| ==> gs[k] != [] && Chained(gs[k], joins))
    && (forall k, l :: 0 <= k && l == k + 1 && l < |gs| ==> !joins(Last(gs[k]), gs[l][0]))
  }

  /** The number of neighbouring pairs of `ms` that `joins` does not join. */
  function Breaks<T>(ms: seq<T>, joins: (T, T) -> bool): nat {
    if |ms| <= 1 then 0
    else Breaks(ms[..|ms| - 1], joins) + (if joins(ms[|ms| - 2], ms[|ms| - 1]) then 0 else 1)
  }

  lemma {:induction false} FlattenLength<T>(gs: seq<seq<T>>)
    requires forall k :: 0 <= k < |gs| ==> gs[k] != []
    ensures |Flatten(gs)| >= |gs|
  {
    if gs != [] {
      FlattenLength(gs[..|gs| - 1]);
    }
  }

  /** The first message of a non-empty partition opens its first group. */
  lemma {:induction false} FlattenFirst<T>(gs: seq<seq<T>>)
    requires gs != [] && forall k :: 0 <= k < |gs| ==> gs[k] != []
    ensures Flatten(gs) != [] && Flatten(gs)[0] == gs[0][0]
  {
    var init := gs[..|gs| - 1];
    if init == [] {
      assert Flatten(gs) == gs[0];
    } else {
      FlattenFirst(init);
    }
  }

  /** A partition of an empty list has no groups, and a partition with no groups is of the empty list. */
  lemma PartitionEmptyIff<T>(ms: seq<T>, gs: seq<seq<T>>, joins: (T, T) -> bool)
    requires IsRunPartition(ms, gs, joins)
    ensures ms == [] <==> gs == []
  {
    FlattenLength(gs);
  }

  /** The message that ends `ms` ends the last group. */
  lemma PartitionLast<T>(ms: seq<T>, gs: seq<seq<T>>, joins: (T, T) -> bool)
    requires IsRunPartition(ms, gs, joins) && gs != []
    ensures ms != [] && Last(ms) == Last(Last(gs))
  {
  }

  /** A chain stays a chain when an element joined to its end is appended. */
  lemma ChainedAppend<T>(s: seq<T>, x: T, joins: (T, T) -> bool)
    requires Chained(s, joins) && (s != [] ==> joins(Last(s), x))
    ensures Chained(s + [x], joins)
  {
    var t := s + [x];
    forall i, j | 0 <= i && j == i + 1 && j < |t|
      ensures joins(t[i], t[j])
    {
      if j < |s| {
        assert t[i] == s[i] && t[j] == s[j];
      }
    }
  }

  /** A message joined to the last one extends the last group. */
  lemma ExtendLastGroup<T>(ms: seq<T>, gs: seq<seq<T>>, x: T, joins: (T, T) -> bool)
    requires IsRunPartition(ms, gs, joins) && gs != []
    requires joins(Last(ms), x)
    ensures IsRunPartition(ms + [x], gs[..|gs| - 1] + [Last(gs) + [x]], joins)
  {
    var n := |gs| - 1;
    var gs' := gs[..n] + [Last(gs) + [x]];
    assert gs'[..n] == gs[..n];
    assert Flatten(gs') == ms + [x];
    PartitionLast(ms, gs, joins);
    ChainedAppend(gs[n], x, joins);
    forall k | 0 <= k < |gs'|
      ensures gs'[k] != [] && Chained(gs'[k], joins)
    {
      if k < n {
        assert gs'[k] == gs[k];
      }
    }
    forall k, l | 0 <= k && l == k + 1 && l < |gs'|
      ensures !joins(Last(gs'[k]), gs'[l][0])
    {
      assert gs'[k] == gs[k];
      assert gs'[l][0] == gs[l][0];
    }
  }

  /** A first message, or one not joined to the last one, opens a new group. */
  lemma OpenGroup<T>(ms: seq<T>, gs: seq<seq<T>>, x: T, joins: (T, T) -> bool)
    requires IsRunPartition(ms, gs, joins)
    requires ms != [] ==> !joins(Last(ms), x)
    ensures IsRunPartition(ms + [x], gs + [[x]], joins)
  {
    var gs' := gs + [[x]];
    assert gs'[..|gs|] == gs;
    PartitionEmptyIff(ms, gs, joins);
    forall k | 0 <= k < |gs'|
      ensures gs'[k] != [] && Chained(gs'[k], joins)
    {
      if k < |gs| {
        assert gs'[k] == gs[k];
      }
    }
    forall k, l | 0 <= k && l == k + 1 && l < |gs'|
      ensures !joins(Last(gs'[k]), gs'[l][0])
    {
      assert gs'[k] == gs[k];
      if l == |gs| {
        PartitionLast(ms, gs, joins);
      } else {
        assert gs'[l] == gs[l];
      }
    }
  }

  /** Dropping the last group leaves a partition of the messages before it. */
  lemma PartitionInit<T>(ms: seq<T>, gs: seq<seq<T>>, joins: (T, T) -> bool)
    requires IsRunPartition(ms, gs, joins) && gs != []
    ensures var init := gs[..|gs| - 1];
      && IsRunPartition(Flatten(init), init, joins)
      && ms == Flatten(init) + Last(gs)
  {
    var init := gs[..|gs| - 1];
    forall k | 0 <= k < |init|
      ensures init[k] != [] && Chained(init[k], joins)
    {
      assert init[k] == gs[k];
    }
    forall k, l | 0 <= k && l == k + 1 && l < |init|
      ensures !joins(Last(init[k]), init[l][0])
    {
      assert init[k] == gs[k] && init[l] == gs[l];
    }
  }

  /**
   * The last group of a partition starts at a position `p` that is either 0 or a break,
   * and every pair of neighbours from `p` on is joined.
   */
  lemma LastGroupStart<T>(ms: seq<T>, gs: seq<seq<T>>, joins: (T, T) -> bool)
    requires IsRunPartition(ms, gs, joins) && gs != []
    ensures var p := |Flatten(gs[..|gs| - 1])|;
      && p < |ms|
      && (p > 0 ==> !joins(ms[p - 1], ms[p]))
      && (forall q, r :: p <= q && r == q + 1 && r < |ms| ==> joins(ms[q], ms[r]))
  {
    var n := |gs| - 1;
    var init := gs[..n];
    PartitionInit(ms, gs, joins);
    var p := |Flatten(init)|;
    assert ms[p..] == gs[n];
    if p > 0 {
      PartitionEmptyIff(Flatten(init), init, joins);
      PartitionLast(Flatten(init), init, joins);
      assert ms[p - 1] == Last(Flatten(init));
      assert Last(Last(init)) == Last(gs[n - 1]);
      assert ms[p] == gs[n][0];
    }
    forall q, r | p <= q && r == q + 1 && r < |ms|
      ensures joins(ms[q], ms[r])
    {
      assert ms[q] == gs[n][q - p] && ms[r] == gs[n][r - p];
    }
  }

  /** Two partitions of the same list start their last groups at the same position. */
  lemma LastStartsAgree<T>(ms: seq<T>, gs1: seq<seq<T>>, gs2: seq<seq<T>>, joins: (T, T) -> bool)
    requires IsRunPartition(ms, gs1, joins) && gs1 != []
    requires IsRunPartition(ms, gs2, joins) && gs2 != []
    ensures |Flatten(gs1[..|gs1| - 1])| == |Flatten(gs2[..|gs2| - 1])|
  {
    LastGroupStart(ms, gs1, joins);
    LastGroupStart(ms, gs2, joins);
  }

  /**
   * A list has exactly one partition into maximal runs: whatever produces one,
   * produces the same groups.
   */
  lemma {:induction false} PartitionUnique<T>(ms: seq<T>, gs1: seq<seq<T>>, gs2: seq<seq<T>>, joins: (T, T) -> bool)
    requires IsRunPartition(ms, gs1, joins) && IsRunPartition(ms, gs2, joins)
    ensures gs1 == gs2
    decreases |gs1|
  {
    PartitionEmptyIff(ms, gs1, joins);
    PartitionEmptyIff(ms, gs2, joins);
    if ms != [] {
      var init1, init2 := gs1[..|gs1| - 1], gs2[..|gs2| - 1];
      LastStartsAgree(ms, gs1, gs2, joins);
      PartitionInit(ms, gs1, joins);
      PartitionInit(ms, gs2, joins);
      var p := |Flatten(init1)|;
      assert Flatten(init1) == ms[..p] == Flatten(init2);
      assert Last(gs1) == ms[p..] == Last(gs2);
      PartitionUnique(Flatten(init1), init1, init2, joins);
      assert gs1 == init1 + [Last(gs1)];
      assert gs2 == init2 + [Last(gs2)];
    }
  }

  /** One step of the grouping loops: extend the last group, or open a new one. */
  function Step<T>(gs: seq<seq<T>>, x: T, joined: bool): (r: seq<seq<T>>)
    requires joined ==> gs != []
    ensures r != []
  {
    if joined then gs[..|gs| - 1] + [Last(gs) + [x]] else gs + [[x]]
  }

  /**
   * The groups both loops build, one message at a time: the message at `n` extends the
   * last group when it is joined to the message at `n - 1`, and opens a group otherwise.
   */
  function RunsOf<T>(ms: seq<T>, joins: (T, T) -> bool): (r: seq<seq<T>>)
    ensures r == [] <==> ms == []
  {
    if ms == [] then []
    else
      var n := |ms| - 1;
      Step(RunsOf(ms[..n], joins), ms[n], n > 0 && joins(ms[n - 1], ms[n]))
  }

  /** Appending `x` adds a break exactly when `x` is not joined to the last message. */
  lemma BreaksSnoc<T>(ms: seq<T>, x: T, joins: (T, T) -> bool)
    ensures Breaks(ms + [x], joins) == Breaks(ms, joins) + (if ms != [] && !joins(Last(ms), x) then 1 else 0)
  {
    var s := ms + [x];
    assert s[..|s| - 1] == ms;
    if ms != [] {
      assert s[|s| - 2] == Last(ms);
    }
  }

  /**
   * Extending when `x` is joined to the last message and opening a group otherwise keeps
   * a partition into maximal runs, whose group count is one more than the number of breaks.
   */
  lemma StepKeepsPartition<T>(ms: seq<T>, gs: seq<seq<T>>, x: T, joins: (T, T) -> bool)
    requires IsRunPartition(ms, gs, joins)
    requires |gs| == if ms == [] then 0 else 1 + Breaks(ms, joins)
    ensures var joined := ms != [] && joins(Last(ms), x);
      && (joined ==> gs != [])
      && IsRunPartition(ms + [x], Step(gs, x, joined), joins)
      && |Step(gs, x, joined)| == 1 + Breaks(ms + [x], joins)
  {
    BreaksSnoc(ms, x, joins);
    PartitionEmptyIff(ms, gs, joins);
    if ms != [] && joins(Last(ms), x) {
      ExtendLastGroup(ms, gs, x, joins);
      assert Step(gs, x, true) == gs[..|gs| - 1] + [Last(gs) + [x]];
    } else {
      OpenGroup(ms, gs, x, joins);
      assert Step(gs, x, false) == gs + [[x]];
    }
  }

  /**
   * The same step, seen by a loop over the positions of `ms`: with `gs` a partition of the
   * first `i` messages, the step for message `i` gives a partition of the first `i + 1`.
   */
  lemma GroupStep<T>(ms: seq<T>, i: nat, gs: seq<seq<T>>, joins: (T, T) -> bool)
    requires i < |ms|
    requires IsRunPartition(ms[..i], gs, joins)
    requires |gs| == if i == 0 then 0 else 1 + Breaks(ms[..i], joins)
    ensures var joined := i > 0 && joins(ms[i - 1], ms[i]);
      && (joined ==> gs != [])
      && IsRunPartition(ms[..i + 1], Step(gs, ms[i], joined), joins)
      && |Step(gs, ms[i], joined)| == 1 + Breaks(ms[..i + 1], joins)
  {
    assert ms[..i + 1] == ms[..i] + [ms[i]];
    if i > 0 {
      assert Last(ms[..i]) == ms[i - 1];
    }
    StepKeepsPartition(ms[..i], gs, ms[i], joins);
  }

  /** Two joined messages form one run, and that is the only partition of them. */
  lemma OneRun<T>(a: T, b: T, gs: seq<seq<T>>, joins: (T, T) -> bool)
    requires joins(a, b) && IsRunPartition([a, b], gs, joins)
    ensures gs == [[a, b]]
  {
    var expected := [[a, b]];
    assert Flatten(expected) == [a, b] by {
      assert expected[..0] == [];
    }
    assert Chained([a, b], joins) by {
      forall i, j | 0 <= i && j == i + 1 && j < 2
        ensures joins([a, b][i], [a, b][j])
      {
      }
    }
    PartitionUnique([a, b], gs, expected, joins);
  }

  /** Two messages that are not joined form two runs. */
  lemma TwoRuns<T>(a: T, b: T, gs: seq<seq<T>>, joins: (T, T) -> bool)
    requires !joins(a, b) && IsRunPartition([a, b], gs, joins)
    ensures gs == [[a], [b]]
  {
    var expected := [[a], [b]];
    assert Flatten(expected[..1]) == [a] by {
      assert expected[..1][..0] == [];
    }
    assert Flatten(expected) == [a, b];
    assert !joins(Last(expected[0]), expected[1][0]);
    PartitionUnique([a, b], gs, expected, joins);
  }

  /** A joined pair followed by a message not joined to the second forms a run of two and a run of one. */
  lemma PairThenSingle<T>(a: T, b: T, c: T, gs: seq<seq<T>>, joins: (T, T) -> bool)
    requires joins(a, b) && !joins(b, c) && IsRunPartition([a, b, c], gs, joins)
    ensures gs == [[a, b], [c]]
  {
    var expected := [[a, b], [c]];
    assert Flatten(expected[..1]) == [a, b] by {
      assert expected[..1][..0] == [];
    }
    assert Flatten(expected) == [a, b, c];
    assert Chained([a, b], joins) by {
      forall i, j | 0 <= i && j == i + 1 && j < 2
        ensures joins([a, b][i], [a, b][j])
      {
      }
    }
    assert !joins(Last(expected[0]), expected[1][0]);
    PartitionUnique([a, b, c], gs, expected, joins);
  }

  /**
   * What the loops build is the partition into maximal runs, with one more group than
   * there are breaks.
   */
  lemma {:induction false} RunsOfIsRunPartition<T>(ms: seq<T>, joins: (T, T) -> bool)
    ensures IsRunPartition(ms, RunsOf(ms, joins), joins)
    ensures |RunsOf(ms, joins)| == if ms == [] then 0 else 1 + Breaks(ms, joins)
  {
    if ms != [] {
      var n := |ms| - 1;
      RunsOfIsRunPartition(ms[..n], joins);
      GroupStep(ms, n, RunsOf(ms[..n], joins), joins);
      assert ms[..n + 1] == ms;
    }
  }
}
