/**
 * Win and death conditions, the order the evaluator keeps them in, and the
 * specification of one evaluation: which conditions trigger, the priority
 * that wins, and the single outcome it decides.
 */
module Conditions {
  import opened Wrappers
  import opened JsText
  import opened ExpressionRewriting

  datatype WinLevel = S | A | B | C

  datatype DeathReason = HealthZero | SanityZero | HungerZero | RuleViolation | SpecialEvent

  /** `type: 'win'` with its `level`, or `type: 'death'` */
  datatype ConditionKind = Win(level: WinLevel) | Death

  datatype Condition = Condition(
    id: string,
    kind: ConditionKind,
    expression: string,
    priority: int,
    description: string,
    message: string)

  /** What `evaluateConditions` returns */
  datatype EvaluationResult = EvaluationResult(
    winLevel: Option<WinLevel>,
    deathReason: Option<DeathReason>,
    triggeredConditions: seq<Condition>,
    priority: int,
    timestamp: int)

  // ------------------------------------------------------------ death reason

  /** `parseDeathReason`: the first of `health`, `sanity`, `hunger`, `rule` that occurs in the text decides. */
  function ParseDeathReason(expr: string): (r: DeathReason)
    ensures r == HealthZero <==> Contains(expr, "health")
    ensures r == SanityZero <==> !Contains(expr, "health") && Contains(expr, "sanity")
    ensures r == HungerZero <==> !Contains(expr, "health") && !Contains(expr, "sanity") && Contains(expr, "hunger")
    ensures r == RuleViolation <==>
      !Contains(expr, "health") && !Contains(expr, "sanity") && !Contains(expr, "hunger") && Contains(expr, "rule")
    ensures r == SpecialEvent <==>
      !Contains(expr, "health") && !Contains(expr, "sanity") && !Contains(expr, "hunger") && !Contains(expr, "rule")
  {
    if Contains(expr, "health") then HealthZero
    else if Contains(expr, "sanity") then SanityZero
    else if Contains(expr, "hunger") then HungerZero
    else if Contains(expr, "rule") then RuleViolation
    else SpecialEvent
  }

  // ------------------------------------------------------ order by priority

  predicate SortedByPriority(cs: seq<Condition>) {
    forall i, j :: 0 <= i < j < |cs| ==> cs[i].priority >= cs[j].priority
  }

  /** The conditions of `cs` with priority `p`, in order */
  function WithPriority(cs: seq<Condition>, p: int): seq<Condition> {
    if cs == [] then []
    else WithPriority(cs[..|cs| - 1], p) + (if cs[|cs| - 1].priority == p then [cs[|cs| - 1]] else [])
  }

  /** Places `c` after every condition of `sorted` whose priority is at least its own. */
  function InsertByPriority(c: Condition, sorted: seq<Condition>): (r: seq<Condition>)
    ensures multiset(r) == multiset(sorted) + multiset{c}
  {
    if sorted == [] then [c]
    else if sorted[0].priority >= c.priority then
      assert sorted == [sorted[0]] + sorted[1..];
      [sorted[0]] + InsertByPriority(c, sorted[1..])
    else [c] + sorted
  }

  lemma {:induction false} InsertBounded(c: Condition, sorted: seq<Condition>, bound: int)
    requires c.priority <= bound
    requires forall i :: 0 <= i < |sorted| ==> sorted[i].priority <= bound
    ensures forall i :: 0 <= i < |InsertByPriority(c, sorted)| ==> InsertByPriority(c, sorted)[i].priority <= bound
    decreases |sorted|
  {
    if sorted != [] && sorted[0].priority >= c.priority {
      InsertBounded(c, sorted[1..], bound);
    }
  }

  lemma PrependSorted(x: Condition, rest: seq<Condition>)
    requires SortedByPriority(rest)
    requires forall i :: 0 <= i < |rest| ==> rest[i].priority <= x.priority
    ensures SortedByPriority([x] + rest)
  {
    var r := [x] + rest;
    forall i, j | 0 <= i < j < |r|
      ensures r[i].priority >= r[j].priority
    {
      assert r[j] == rest[j - 1];
      if i > 0 {
        assert r[i] == rest[i - 1];
      }
    }
  }

  lemma {:induction false} InsertKeepsSorted(c: Condition, sorted: seq<Condition>)
    requires SortedByPriority(sorted)
    ensures SortedByPriority(InsertByPriority(c, sorted))
    decreases |sorted|
  {
    if sorted == [] {
    } else if sorted[0].priority >= c.priority {
      InsertKeepsSorted(c, sorted[1..]);
      InsertBounded(c, sorted[1..], sorted[0].priority);
      PrependSorted(sorted[0], InsertByPriority(c, sorted[1..]));
    } else {
      PrependSorted(c, sorted);
    }
  }

  /**
   * `conditions.sort((a, b) => b.priority - a.priority)`: the stable sort
   * (as `Array.prototype.sort` is) by descending priority.
   */
  function SortByPriority(cs: seq<Condition>): (r: seq<Condition>)
    ensures multiset(r) == multiset(cs)
  {
    if cs == [] then []
    else
      assert cs == cs[..|cs| - 1] + [cs[|cs| - 1]];
      InsertByPriority(cs[|cs| - 1], SortByPriority(cs[..|cs| - 1]))
  }

  /** Inserting below a run of conditions that all rank at least as high puts it right after them. */
  lemma {:induction false} InsertAfterRun(c: Condition, xs: seq<Condition>, ys: seq<Condition>)
    requires forall i :: 0 <= i < |xs| ==> xs[i].priority >= c.priority
    requires ys == [] || ys[0].priority < c.priority
    ensures InsertByPriority(c, xs + ys) == xs + [c] + ys
    decreases |xs|
  {
    if xs != [] {
      assert (xs + ys)[0] == xs[0];
      assert (xs + ys)[1..] == xs[1..] + ys;
      InsertAfterRun(c, xs[1..], ys);
      assert [xs[0]] + (xs[1..] + [c] + ys) == xs + [c] + ys;
    }
  }

  lemma SortedPrefix(cs: seq<Condition>, k: nat)
    requires SortedByPriority(cs) && k <= |cs|
    ensures SortedByPriority(cs[..k])
  {
    var p := cs[..k];
    forall i, j | 0 <= i < j < |p|
      ensures p[i].priority >= p[j].priority
    {
      assert p[i] == cs[i] && p[j] == cs[j];
    }
  }

  lemma SortedLastLowest(cs: seq<Condition>, init: seq<Condition>)
    requires SortedByPriority(cs) && cs != [] && init == cs[..|cs| - 1]
    ensures forall i :: 0 <= i < |init| ==> init[i].priority >= cs[|cs| - 1].priority
  {
    forall i | 0 <= i < |init|
      ensures init[i].priority >= cs[|cs| - 1].priority
    {
      assert init[i] == cs[i];
    }
  }

  lemma SplitLast(cs: seq<Condition>)
    requires cs != []
    ensures cs[..|cs| - 1] + [] == cs[..|cs| - 1]
    ensures cs[..|cs| - 1] + [cs[|cs| - 1]] + [] == cs
  {
    assert cs[..|cs| - 1] + [cs[|cs| - 1]] == cs;
  }

  /** Sorting input that is already in order changes nothing. */
  lemma {:induction false} SortOfSorted(cs: seq<Condition>)
    requires SortedByPriority(cs)
    ensures SortByPriority(cs) == cs
  {
    if cs != [] {
      var init, last := cs[..|cs| - 1], cs[|cs| - 1];
      SortedPrefix(cs, |cs| - 1);
      SortedLastLowest(cs, init);
      SortOfSorted(init);
      InsertAfterRun(last, init, []);
      SplitLast(cs);
    }
  }

  /** Sorting twice is sorting once. */
  lemma SortIdempotent(cs: seq<Condition>)
    ensures SortByPriority(SortByPriority(cs)) == SortByPriority(cs)
  {
    SortIsSorted(cs);
    SortOfSorted(SortByPriority(cs));
  }

  /**
   * Appending a sorted run that outranks everything before it moves that
   * run to the front.
   */
  lemma {:induction false} SortHigherSuffix(ws: seq<Condition>, ds: seq<Condition>)
    requires SortedByPriority(ws) && SortedByPriority(ds)
    requires Outranks(ds, ws)
    ensures SortByPriority(ws + ds) == ds + ws
    decreases |ds|
  {
    if ds == [] {
      assert ws + ds == ws;
      SortOfSorted(ws);
    } else {
      var k := |ds| - 1;
      SplitAppended(ws, ds);
      SortedPrefix(ds, k);
      SortedLastLowest(ds, ds[..k]);
      OutranksPrefix(ds, ws, k);
      SortHigherSuffix(ws, ds[..k]);
      InsertAfterRun(ds[k], ds[..k], ws);
    }
  }

  /** Every condition of `ds` ranks above every condition of `ws`. */
  predicate Outranks(ds: seq<Condition>, ws: seq<Condition>) {
    forall i, j :: 0 <= i < |ds| && 0 <= j < |ws| ==> ds[i].priority > ws[j].priority
  }

  lemma OutranksPrefix(ds: seq<Condition>, ws: seq<Condition>, k: nat)
    requires Outranks(ds, ws) && k < |ds|
    ensures Outranks(ds[..k], ws)
    ensures ws == [] || ws[0].priority < ds[k].priority
  {
    forall i, j | 0 <= i < k && 0 <= j < |ws|
      ensures ds[..k][i].priority > ws[j].priority
    {
      assert ds[..k][i] == ds[i];
    }
  }

  lemma SplitAppended(ws: seq<Condition>, ds: seq<Condition>)
    requires ds != []
    ensures (ws + ds)[..|ws + ds| - 1] == ws + ds[..|ds| - 1]
    ensures (ws + ds)[|ws + ds| - 1] == ds[|ds| - 1]
    ensures ds[..|ds| - 1] + [ds[|ds| - 1]] + ws == ds + ws
  {
    assert ds[..|ds| - 1] + [ds[|ds| - 1]] == ds;
  }

  /** The sort puts higher priorities first. */
  lemma SortLength(cs: seq<Condition>)
    ensures |SortByPriority(cs)| == |cs|
  {
    var r := SortByPriority(cs);
    assert |r| == |multiset(r)|;
  }

  lemma {:induction false} SortIsSorted(cs: seq<Condition>)
    ensures SortedByPriority(SortByPriority(cs))
    decreases |cs|
  {
    if cs != [] {
      SortIsSorted(cs[..|cs| - 1]);
      InsertKeepsSorted(cs[|cs| - 1], SortByPriority(cs[..|cs| - 1]));
    }
  }

  lemma {:induction false} WithPriorityAppend(a: seq<Condition>, b: seq<Condition>, p: int)
    ensures WithPriority(a + b, p) == WithPriority(a, p) + WithPriority(b, p)
    decreases |b|
  {
    if b == [] {
      assert a + b == a;
    } else {
      var b' := b[..|b| - 1];
      assert (a + b)[..|a + b| - 1] == a + b';
      WithPriorityAppend(a, b', p);
    }
  }

  lemma {:induction false} WithPriorityAbove(cs: seq<Condition>, p: int)
    requires forall i :: 0 <= i < |cs| ==> cs[i].priority < p
    ensures WithPriority(cs, p) == []
    decreases |cs|
  {
    if cs != [] {
      WithPriorityAbove(cs[..|cs| - 1], p);
    }
  }

  lemma WithPrioritySingle(c: Condition, p: int)
    ensures WithPriority([c], p) == if c.priority == p then [c] else []
  {
    assert [c][..0] == [];
  }

  lemma {:induction false} WithPriorityInsert(c: Condition, sorted: seq<Condition>, p: int)
    requires SortedByPriority(sorted)
    ensures WithPriority(InsertByPriority(c, sorted), p)
         == WithPriority(sorted, p) + (if c.priority == p then [c] else [])
    decreases |sorted|
  {
    var t := if c.priority == p then [c] else [];
    WithPrioritySingle(c, p);
    if sorted == [] {
      assert WithPriority(sorted, p) == [];
    } else if sorted[0].priority >= c.priority {
      SortedPrefixFrom(sorted);
      WithPriorityInsert(c, sorted[1..], p);
      WithPriorityPrepend(sorted[0], sorted[1..], InsertByPriority(c, sorted[1..]), t, p);
      assert [sorted[0]] + sorted[1..] == sorted;
    } else {
      WithPriorityAppend([c], sorted, p);
      if c.priority == p {
        forall i | 0 <= i < |sorted|
          ensures sorted[i].priority < p
        {
          assert sorted[0].priority >= sorted[i].priority || i == 0;
        }
        WithPriorityAbove(sorted, p);
      }
    }
  }

  lemma SortedPrefixFrom(cs: seq<Condition>)
    requires SortedByPriority(cs) && cs != []
    ensures SortedByPriority(cs[1..])
  {
    var r := cs[1..];
    forall i, j | 0 <= i < j < |r|
      ensures r[i].priority >= r[j].priority
    {
      assert r[i] == cs[i + 1] && r[j] == cs[j + 1];
    }
  }

  lemma WithPriorityPrepend(x: Condition, xs: seq<Condition>, ys: seq<Condition>, t: seq<Condition>, p: int)
    requires WithPriority(ys, p) == WithPriority(xs, p) + t
    ensures WithPriority([x] + ys, p) == WithPriority([x] + xs, p) + t
  {
    WithPriorityAppend([x], ys, p);
    WithPriorityAppend([x], xs, p);
    assert WithPriority([x], p) + (WithPriority(xs, p) + t) == (WithPriority([x], p) + WithPriority(xs, p)) + t;
  }

  /** The sort is stable: the conditions of any one priority keep their input order. */
  lemma {:induction false} SortIsStable(cs: seq<Condition>, p: int)
    ensures WithPriority(SortByPriority(cs), p) == WithPriority(cs, p)
    decreases |cs|
  {
    if cs != [] {
      var init := cs[..|cs| - 1];
      SortIsStable(init, p);
      SortIsSorted(init);
      WithPriorityInsert(cs[|cs| - 1], SortByPriority(init), p);
    }
  }

  // ------------------------------------------------ one evaluation, specified

  /** The conditions of `cs` that satisfy `holds`, in order */
  function Filter(cs: seq<Condition>, holds: Condition -> bool): (r: seq<Condition>)
    ensures |r| <= |cs|
    ensures forall c :: c in r ==> c in cs && holds(c)
  {
    if cs == [] then []
    else
      var last := cs[|cs| - 1];
      Filter(cs[..|cs| - 1], holds) + (if holds(last) then [last] else [])
  }

  /** Whether the condition's expression is true in `st` */
  predicate Fires(c: Condition, st: GameState) {
    EvaluateExpression(c.expression, st)
  }

  /** The conditions of `cs` whose expression is true in `st`, in order */
  function Triggered(cs: seq<Condition>, st: GameState): seq<Condition> {
    Filter(cs, c => Fires(c, st))
  }

  function Max(a: int, b: int): int {
    if a < b then b else a
  }

  /** The largest of -1 and the priorities of `ts` */
  function MaxPriority(ts: seq<Condition>): (m: int)
    ensures m >= -1
    ensures forall i :: 0 <= i < |ts| ==> ts[i].priority <= m
    ensures m == -1 || exists i :: 0 <= i < |ts| && ts[i].priority == m
  {
    if ts == [] then -1
    else
      var m := MaxPriority(ts[..|ts| - 1]);
      assert forall i :: 0 <= i < |ts| - 1 ==> ts[..|ts| - 1][i] == ts[i];
      Max(m, ts[|ts| - 1].priority)
  }

  /** `ts[k]` is the first condition of `ts` that reaches the maximum priority */
  predicate IsFirstAtPeak(ts: seq<Condition>, k: int) {
    0 <= k < |ts| && ts[k].priority == MaxPriority(ts)
    && forall j :: 0 <= j < k ==> ts[j].priority < MaxPriority(ts)
  }

  /** The outcome fields as condition `c` sets them */
  predicate Decides(winLevel: Option<WinLevel>, deathReason: Option<DeathReason>, c: Condition) {
    match c.kind
    case Win(level) => winLevel == Some(level) && deathReason.None?
    case Death => deathReason == Some(ParseDeathReason(c.expression)) && winLevel.None?
  }

  /**
   * `r` is what one evaluation of `cs` against `st` yields: the triggered
   * conditions in order, the largest of -1 and their priorities, and, when
   * that priority is above -1, the outcome of the first triggered condition
   * that reaches it (otherwise no outcome at all).
   */
  predicate IsEvaluationOf(r: EvaluationResult, cs: seq<Condition>, st: GameState) {
    && r.triggeredConditions == Triggered(cs, st)
    && r.priority == MaxPriority(r.triggeredConditions)
    && (r.priority == -1 ==> r.winLevel.None? && r.deathReason.None?)
    && (r.priority > -1 ==>
          exists k :: 0 <= k < |r.triggeredConditions| && IsFirstAtPeak(r.triggeredConditions, k)
                   && Decides(r.winLevel, r.deathReason, r.triggeredConditions[k]))
  }

  /** An evaluation never reports a win and a death at once. */
  lemma OutcomesExclusive(r: EvaluationResult, cs: seq<Condition>, st: GameState)
    requires IsEvaluationOf(r, cs, st)
    ensures r.winLevel.None? || r.deathReason.None?
  {
    if r.priority > -1 {
      var k :| IsFirstAtPeak(r.triggeredConditions, k) && Decides(r.winLevel, r.deathReason, r.triggeredConditions[k]);
    }
  }

  /** An outcome is reported exactly when some triggered condition has a priority above -1. */
  lemma OutcomeIffPositivePeak(r: EvaluationResult, cs: seq<Condition>, st: GameState)
    requires IsEvaluationOf(r, cs, st)
    ensures (r.winLevel.Some? || r.deathReason.Some?) <==> r.priority > -1
  {
    if r.priority > -1 {
      var k :| IsFirstAtPeak(r.triggeredConditions, k) && Decides(r.winLevel, r.deathReason, r.triggeredConditions[k]);
    }
  }

  /** With nothing to evaluate, nothing triggers and there is no outcome. */
  lemma EmptyEvaluation(r: EvaluationResult, st: GameState)
    requires IsEvaluationOf(r, [], st)
    ensures r.triggeredConditions == [] && r.priority == -1
    ensures r.winLevel.None? && r.deathReason.None?
  {
  }

  /** The condition deciding an evaluation is unique: a later condition of equal priority never overrides it. */
  lemma FirstAtPeakUnique(ts: seq<Condition>, k: int, k': int)
    requires IsFirstAtPeak(ts, k) && IsFirstAtPeak(ts, k')
    ensures k == k'
  {
  }

  /** A condition that passes the test is kept. */
  lemma {:induction false} FilterKeeps(cs: seq<Condition>, holds: Condition -> bool, c: Condition)
    requires c in cs && holds(c)
    ensures c in Filter(cs, holds)
    decreases |cs|
  {
    var init, last := cs[..|cs| - 1], cs[|cs| - 1];
    if c != last {
      assert cs == init + [last];
      FilterKeeps(init, holds, c);
    }
  }

  /** Filtering is decided element by element: a head that passes stays at the head. */
  lemma {:induction false} FilterHead(cs: seq<Condition>, holds: Condition -> bool)
    requires cs != [] && holds(cs[0])
    ensures Filter(cs, holds) == [cs[0]] + Filter(cs[1..], holds)
    decreases |cs|
  {
    var last := cs[|cs| - 1];
    var tail := if holds(last) then [last] else [];
    if |cs| > 1 {
      var init := cs[..|cs| - 1];
      assert init[0] == cs[0];
      FilterHead(init, holds);
      assert cs[1..][..|cs[1..]| - 1] == init[1..];
      assert cs[1..][|cs[1..]| - 1] == last;
    } else {
      assert cs[..0] == [];
      assert cs[1..] == [];
    }
  }

  // ------------------------------------------------- one step of the scan

  lemma TriggeredStep(cs: seq<Condition>, i: nat, st: GameState)
    requires i < |cs|
    ensures Triggered(cs[..i + 1], st) == Triggered(cs[..i], st) + (if Fires(cs[i], st) then [cs[i]] else [])
  {
    assert cs[..i + 1][..i] == cs[..i];
  }

  lemma MaxPriorityStep(ts: seq<Condition>, c: Condition)
    ensures MaxPriority(ts + [c]) == Max(MaxPriority(ts), c.priority)
  {
    assert (ts + [c])[..|ts|] == ts;
  }

  /** A condition above the current maximum becomes the first at the new peak. */
  lemma PeakRaised(ts: seq<Condition>, c: Condition)
    requires c.priority > MaxPriority(ts)
    ensures IsFirstAtPeak(ts + [c], |ts|)
  {
    MaxPriorityStep(ts, c);
    forall j | 0 <= j < |ts|
      ensures (ts + [c])[j].priority < MaxPriority(ts + [c])
    {
      assert (ts + [c])[j] == ts[j];
    }
  }

  /** A condition at or below the current maximum leaves the first at the peak where it is. */
  lemma PeakKept(ts: seq<Condition>, c: Condition, k: int)
    requires c.priority <= MaxPriority(ts)
    requires IsFirstAtPeak(ts, k)
    ensures IsFirstAtPeak(ts + [c], k) && (ts + [c])[k] == ts[k]
  {
    MaxPriorityStep(ts, c);
    forall j | 0 <= j < k
      ensures (ts + [c])[j].priority < MaxPriority(ts + [c])
    {
      assert (ts + [c])[j] == ts[j];
    }
  }

  /** A condition that does not fire leaves an evaluation as it is. */
  lemma EvaluationSkip(r: EvaluationResult, cs: seq<Condition>, i: nat, st: GameState)
    requires i < |cs| && IsEvaluationOf(r, cs[..i], st) && !Fires(cs[i], st)
    ensures IsEvaluationOf(r, cs[..i + 1], st)
  {
    TriggeredStep(cs, i, st);
  }

  /** A firing condition at or below the peak is only appended. */
  lemma EvaluationKeep(r: EvaluationResult, cs: seq<Condition>, i: nat, st: GameState)
    requires i < |cs| && IsEvaluationOf(r, cs[..i], st) && Fires(cs[i], st) && cs[i].priority <= r.priority
    ensures IsEvaluationOf(r.(triggeredConditions := r.triggeredConditions + [cs[i]]), cs[..i + 1], st)
  {
    var c := cs[i];
    TriggeredStep(cs, i, st);
    var ts := r.triggeredConditions;
    MaxPriorityStep(ts, c);
    if r.priority > -1 {
      var k :| 0 <= k < |ts| && IsFirstAtPeak(ts, k) && Decides(r.winLevel, r.deathReason, ts[k]);
      PeakKept(ts, c, k);
    }
  }

  /** A firing condition above the peak becomes the new peak and decides the outcome. */
  lemma EvaluationRaise(r: EvaluationResult, cs: seq<Condition>, i: nat, st: GameState,
                        winLevel: Option<WinLevel>, deathReason: Option<DeathReason>)
    requires i < |cs| && IsEvaluationOf(r, cs[..i], st) && Fires(cs[i], st) && cs[i].priority > r.priority
    requires Decides(winLevel, deathReason, cs[i])
    ensures IsEvaluationOf(EvaluationResult(winLevel, deathReason, r.triggeredConditions + [cs[i]], cs[i].priority, r.timestamp),
                           cs[..i + 1], st)
  {
    var c := cs[i];
    TriggeredStep(cs, i, st);
    var ts := r.triggeredConditions;
    MaxPriorityStep(ts, c);
    PeakRaised(ts, c);
    assert (ts + [c])[|ts|] == c;
  }
}
