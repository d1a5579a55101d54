/**
 * The `ConditionEvaluator` class: it keeps the conditions sorted by
 * priority, evaluates them against a game state, memoises the result per
 * state for `cacheTimeout` milliseconds, and checks condition text before
 * it is used.  The clock is a parameter: `now` is the value `Date.now()`
 * returns during the call.
 */
module ConditionEngine {
  import opened Wrappers
  import opened JsText
  import opened ExpressionRewriting
  import opened Conditions

  /** What `getStats` returns */
  datatype Stats = Stats(cacheSize: nat, conditionCount: nat)

  /** What `validateConditionExpression` returns */
  datatype Validation = Validation(valid: bool, error: Option<string>)

  /** Equal numbers of `(` and `)`; their order does not matter */
  predicate Balanced(expr: string) {
    multiset(expr)['('] == multiset(expr)[')']
  }

  const ForbiddenNames: seq<string> :=
    ["eval", "Function", "setTimeout", "setInterval", "require", "module", "exports", "global", "process"]

  const ForbiddenKeywords: seq<string> := ["delete", "void", "with"]

  /** `\b(w1|w2|…)\b` finds a match in `s` (every word starts and ends with a word character) */
  predicate HasWholeWord(s: string, words: seq<string>) {
    exists i, w :: 0 <= i <= |s| && w in words && OccursAt(s, w, i)
                && BoundaryBefore(s, i) && BoundaryAfter(s, i + |w|)
  }

  /** One of the four patterns `parseExpression` refuses occurs in `s`. */
  predicate HasUnsafePattern(s: string) {
    || HasWholeWord(s, ForbiddenNames)
    || HasWholeWord(s, ForbiddenKeywords)
    || (exists i :: 0 <= i < |s| && s[i] in "{};")
    || '$' in s
  }

  class ConditionEvaluator {
    var conditions: seq<Condition>
    var cache: map<GameState, EvaluationResult>
    const cacheTimeout: int

    /**
     * The conditions stay sorted, and every cached result is an evaluation
     * of its own state against the stored conditions.
     */
    ghost predicate Valid()
      reads this
    {
      && cacheTimeout == 1000
      && SortedByPriority(conditions)
      && forall k :: k in cache ==> IsEvaluationOf(cache[k], conditions, k)
    }

    /** Sorts the caller's array in place and keeps the sorted conditions; the cache starts empty. */
    constructor (input: array<Condition>)
      modifies input
      ensures input[..] == SortByPriority(old(input[..]))
      ensures conditions == input[..]
      ensures cache == map[]
      ensures Valid()
    {
      var sorted := SortByPriority(input[..]);
      SortIsSorted(input[..]);
      SortLength(input[..]);
      conditions := sorted;
      cache := map[];
      cacheTimeout := 1000;
      new;
      CopyInto(input, sorted);
    }

    /**
     * `evaluateConditions`: a cached result for the same state younger than
     * `cacheTimeout` is returned unchanged; otherwise the conditions are
     * evaluated afresh and the result replaces the cache entry.  Either way
     * the result is an evaluation of `st`.
     */
    method EvaluateConditions(st: GameState, now: int) returns (r: EvaluationResult)
      requires Valid()
      modifies this
      ensures Valid()
      ensures conditions == old(conditions)
      ensures IsEvaluationOf(r, conditions, st)
      ensures st in old(cache) && now - old(cache)[st].timestamp < cacheTimeout ==>
                r == old(cache)[st] && cache == old(cache)
      ensures !(st in old(cache) && now - old(cache)[st].timestamp < cacheTimeout) ==>
                r.timestamp == now && cache == old(cache)[st := r]
    {
      if st in cache && now - cache[st].timestamp < cacheTimeout {
        return cache[st];
      }
      r := PerformEvaluation(st, now);
      cache := cache[st := r];
    }

    /**
     * `performEvaluation`: one pass over the stored conditions collecting
     * those that fire; a firing condition whose priority is above every
     * earlier one (and above -1) sets the outcome and clears the other one.
     */
    method PerformEvaluation(st: GameState, now: int) returns (r: EvaluationResult)
      ensures IsEvaluationOf(r, conditions, st)
      ensures r.timestamp == now
    {
      // the running outcome, triggered list and highest priority so far
      r := EvaluationResult(None, None, [], -1, now);
      var cs := conditions;
      var i := 0;
      while i < |cs|
        invariant 0 <= i <= |cs|
        invariant IsEvaluationOf(r, cs[..i], st) && r.timestamp == now
      {
        r := Absorb(r, cs, i, st);
        i := i + 1;
      }
      assert cs[..i] == cs;
    }

    /**
     * One iteration of the loop in `performEvaluation`: `cs[i]` is
     * evaluated; when it fires it is appended to the triggered list, and
     * when its priority is above the highest so far it sets the outcome.
     */
    static method Absorb(r: EvaluationResult, cs: seq<Condition>, i: nat, st: GameState) returns (r': EvaluationResult)
      requires i < |cs| && IsEvaluationOf(r, cs[..i], st)
      ensures IsEvaluationOf(r', cs[..i + 1], st) && r'.timestamp == r.timestamp
    {
      var c := cs[i];
      var fires := Test(c, st);
      if fires && c.priority > r.priority {
        var winLevel, deathReason;
        match c.kind {
          case Win(level) =>
            winLevel, deathReason := Some(level), None;
          case Death =>
            winLevel, deathReason := None, Some(ParseDeathReason(c.expression));
        }
        EvaluationRaise(r, cs, i, st, winLevel, deathReason);
        r' := EvaluationResult(winLevel, deathReason, r.triggeredConditions + [c], c.priority, r.timestamp);
      } else if fires {
        EvaluationKeep(r, cs, i, st);
        r' := r.(triggeredConditions := r.triggeredConditions + [c]);
      } else {
        EvaluationSkip(r, cs, i, st);
        r' := r;
      }
    }

    /** `checkWinConditions`: the level of the first win condition, in stored order, that fires */
    method CheckWinConditions(st: GameState) returns (r: Option<WinLevel>)
      ensures r.None? <==> forall i :: 0 <= i < |conditions| ==> !(conditions[i].kind.Win? && Fires(conditions[i], st))
      ensures r.Some? ==>
                exists i :: 0 <= i < |conditions|
                  && conditions[i].kind == Win(r.value) && Fires(conditions[i], st)
                  && forall j :: 0 <= j < i ==> !(conditions[j].kind.Win? && Fires(conditions[j], st))
    {
      var i := 0;
      while i < |conditions|
        invariant 0 <= i <= |conditions|
        invariant forall j :: 0 <= j < i ==> !(conditions[j].kind.Win? && Fires(conditions[j], st))
      {
        var c := conditions[i];
        var fires := Test(c, st);
        if c.kind.Win? && fires {
          return Some(c.kind.level);
        }
        NoWinStep(conditions, st, i);
        i := i + 1;
      }
      return None;
    }

    /** `checkDeathConditions`: the reason of the first death condition, in stored order, that fires */
    method CheckDeathConditions(st: GameState) returns (r: Option<DeathReason>)
      ensures r.None? <==> forall i :: 0 <= i < |conditions| ==> !(conditions[i].kind.Death? && Fires(conditions[i], st))
      ensures r.Some? ==>
                exists i :: 0 <= i < |conditions|
                  && conditions[i].kind.Death? && Fires(conditions[i], st)
                  && r.value == ParseDeathReason(conditions[i].expression)
                  && forall j :: 0 <= j < i ==> !(conditions[j].kind.Death? && Fires(conditions[j], st))
    {
      var i := 0;
      while i < |conditions|
        invariant 0 <= i <= |conditions|
        invariant forall j :: 0 <= j < i ==> !(conditions[j].kind.Death? && Fires(conditions[j], st))
      {
        var c := conditions[i];
        var fires := Test(c, st);
        if c.kind.Death? && fires {
          return Some(ParseDeathReason(c.expression));
        }
        NoDeathStep(conditions, st, i);
        i := i + 1;
      }
      return None;
    }

    /** The parenthesis count that both checks run */
    static method CountParentheses(expr: string) returns (left: nat, right: nat)
      ensures left == multiset(expr)['('] && right == multiset(expr)[')']
    {
      left, right := 0, 0;
      var i := 0;
      while i < |expr|
        invariant 0 <= i <= |expr|
        invariant left == multiset(expr[..i])['('] && right == multiset(expr[..i])[')']
      {
        assert expr[..i + 1] == expr[..i] + [expr[i]];
        if expr[i] == '(' {
          left := left + 1;
        }
        if expr[i] == ')' {
          right := right + 1;
        }
        i := i + 1;
      }
      assert expr[..i] == expr;
    }

    /**
     * `parseExpression`: the error it throws, if any — unbalanced
     * parentheses first, then any unsafe pattern.
     */
    static method ParseExpression(expr: string) returns (error: Option<string>)
      ensures error.None? <==> Balanced(expr) && !HasUnsafePattern(expr)
      ensures !Balanced(expr) ==> error == Some("Unbalanced parentheses")
      ensures Balanced(expr) && HasUnsafePattern(expr) ==> error == Some("Expression contains unsafe patterns")
    {
      var left, right := CountParentheses(expr);
      if left != right {
        return Some("Unbalanced parentheses");
      }
      if HasUnsafePattern(expr) {
        return Some("Expression contains unsafe patterns");
      }
      return None;
    }

    /**
     * `validateConditionExpression`: valid exactly when the parentheses
     * balance in number and no unsafe pattern occurs; the error message
     * names the first check that failed.
     */
    static method ValidateConditionExpression(expr: string) returns (r: Validation)
      ensures r.valid <==> Balanced(expr) && !HasUnsafePattern(expr)
      ensures r.valid ==> r.error.None?
      ensures !Balanced(expr) ==> r == Validation(false, Some("Unbalanced parentheses"))
      ensures Balanced(expr) && HasUnsafePattern(expr) ==> r == Validation(false, Some("Expression contains unsafe patterns"))
    {
      var left, right := CountParentheses(expr);
      if left != right {
        return Validation(false, Some("Unbalanced parentheses"));
      }
      var error := ParseExpression(expr);
      if error.Some? {
        return Validation(false, error);
      }
      return Validation(true, None);
    }

    /** `clearCache` */
    method ClearCache()
      requires Valid()
      modifies this
      ensures Valid()
      ensures cache == map[] && conditions == old(conditions)
      ensures GetStats() == Stats(0, |old(conditions)|)
    {
      cache := map[];
    }

    /** `getStats` */
    function GetStats(): (s: Stats)
      reads this
      ensures s.cacheSize == |cache| && s.conditionCount == |conditions|
    {
      Stats(|cache|, |conditions|)
    }
  }

  /** Evaluates one condition's expression against `st` */
  method Test(c: Condition, st: GameState) returns (fires: bool)
    ensures fires == Fires(c, st)
  {
    fires := EvaluateExpression(c.expression, st);
  }

  /** Overwrites the array with `values`, element by element */
  method CopyInto(a: array<Condition>, values: seq<Condition>)
    requires |values| == a.Length
    modifies a
    ensures a[..] == values
  {
    var i := 0;
    while i < a.Length
      invariant 0 <= i <= a.Length
      invariant a[..i] == values[..i]
    {
      a[i] := values[i];
      i := i + 1;
    }
    assert a[..] == a[..i];
  }

  lemma NoWinStep(cs: seq<Condition>, st: GameState, i: nat)
    requires i < |cs|
    requires forall j :: 0 <= j < i ==> !(cs[j].kind.Win? && Fires(cs[j], st))
    requires !(cs[i].kind.Win? && Fires(cs[i], st))
    ensures forall j :: 0 <= j < i + 1 ==> !(cs[j].kind.Win? && Fires(cs[j], st))
  {
  }

  lemma NoDeathStep(cs: seq<Condition>, st: GameState, i: nat)
    requires i < |cs|
    requires forall j :: 0 <= j < i ==> !(cs[j].kind.Death? && Fires(cs[j], st))
    requires !(cs[i].kind.Death? && Fires(cs[i], st))
    ensures forall j :: 0 <= j < i + 1 ==> !(cs[j].kind.Death? && Fires(cs[j], st))
  {
  }

  /** `createConditionEvaluator` */
  method CreateConditionEvaluator(input: array<Condition>) returns (e: ConditionEvaluator)
    modifies input
    ensures fresh(e) && e.Valid()
    ensures e.conditions == SortByPriority(old(input[..])) && e.cache == map[]
  {
    e := new ConditionEvaluator(input);
  }

  /** Only the parentheses are counted: `)(` passes the check. */
  lemma CountsOnly()
    ensures Balanced(")(") && !HasUnsafePattern(")(")
  {
    assert multiset(")(") == multiset{')', '('};
  }
}
