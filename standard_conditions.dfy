/**
 * The standard rule set of the game: four win conditions, S to C, and
 * three death conditions, one per exhausted attribute.
 */
module StandardConditions {
  import opened Wrappers
  import opened JsText
  import opened JsExpression
  import opened ExpressionRewriting
  import opened Conditions
  import opened ConditionEngine

  // The expression is written in two pieces: the item check starts where the first ends.
  const WinS := Condition("win_s", Win(S),
    "day >= 7 && attributes.health >= 80 && attributes.sanity >= 80 && " + "inventory.includes(\"golden_key\")", 100,
    "完美通关：存活7天且保持高属性并获得黄金钥匙", "恭喜！你以完美的表现通关了游戏！")
  const WinA := Condition("win_a", Win(A),
    "day >= 7 && attributes.health >= 60 && attributes.sanity >= 60", 90,
    "优秀通关：存活7天且保持良好状态", "很好！你成功通关了游戏！")
  const WinB := Condition("win_b", Win(B), "day >= 7", 80,
    "普通通关：存活7天", "你勉强通关了游戏。")
  const WinC := Condition("win_c", Win(C), "day >= 5 && attributes.health > 0", 70,
    "勉强通关：存活5天", "你以最低标准通关了游戏。")
  const DeathHealth := Condition("death_health", Death, "attributes.health <= 0", 1000,
    "生命值归零死亡", "你的生命走到了尽头...")
  const DeathSanity := Condition("death_sanity", Death, "attributes.sanity <= 0", 1000,
    "理智值归零死亡", "你的精神崩溃了...")
  const DeathHunger := Condition("death_hunger", Death, "attributes.hunger <= 0", 1000,
    "饥饿死亡", "你被饿死了...")

  /** The standard conditions in the order they are written */
  const Standard: seq<Condition> := [WinS, WinA, WinB, WinC, DeathHealth, DeathSanity, DeathHunger]

  /** `createStandardConditionEvaluator` */
  method CreateStandardConditionEvaluator() returns (e: ConditionEvaluator)
    ensures fresh(e) && e.Valid()
    ensures e.conditions == SortByPriority(Standard) && e.cache == map[]
  {
    var input := new Condition[|Standard|](i requires 0 <= i < |Standard| => Standard[i]);
    assert input[..] == Standard;
    e := new ConditionEvaluator(input);
  }

  /** Four wins of falling priority, then three deaths that share a higher one */
  lemma SortShape(a: Condition, b: Condition, c: Condition, d: Condition,
                  e: Condition, f: Condition, g: Condition)
    requires a.priority > b.priority > c.priority > d.priority
    requires e.priority == f.priority == g.priority > a.priority
    ensures SortByPriority([a, b, c, d, e, f, g]) == [e, f, g, a, b, c, d]
  {
    var ws, ds := [a, b, c, d], [e, f, g];
    assert [a, b, c, d, e, f, g] == ws + ds;
    assert [e, f, g, a, b, c, d] == ds + ws;
    SortHigherSuffix(ws, ds);
  }

  /**
   * Sorted, the three deaths come first in their written order, then the
   * wins from S to C.
   */
  lemma StandardOrder()
    ensures SortByPriority(Standard) == [DeathHealth, DeathSanity, DeathHunger, WinS, WinA, WinB, WinC]
  {
    SortShape(WinS, WinA, WinB, WinC, DeathHealth, DeathSanity, DeathHunger);
  }

  /** The standard conditions as the evaluator stores them */
  const Sorted: seq<Condition> := [DeathHealth, DeathSanity, DeathHunger, WinS, WinA, WinB, WinC]

  /** In the standard set priority 1000 belongs to the deaths alone, and nothing ranks higher. */
  lemma SortedPriorities()
    ensures forall c :: c in Sorted ==> c.priority <= 1000 && (c.priority == 1000 <==> c.kind.Death?)
  {
  }

  /**
   * With the standard conditions (which the evaluator holds as `Sorted`,
   * by `StandardOrder`), a death that fires outweighs every win:
   * the evaluation reports a death, no win, at priority 1000.
   */
  lemma DeathOutranksWins(st: GameState, r: EvaluationResult)
    requires IsEvaluationOf(r, Sorted, st)
    requires Fires(DeathHealth, st) || Fires(DeathSanity, st) || Fires(DeathHunger, st)
    ensures r.winLevel.None? && r.deathReason.Some? && r.priority == 1000
  {
    SortedPriorities();
    var c := if Fires(DeathHealth, st) then DeathHealth else if Fires(DeathSanity, st) then DeathSanity else DeathHunger;
    assert c in Sorted && c.kind.Death? && Fires(c, st);
    DeathsOnTop(Sorted, st, r, 1000);
  }

  /**
   * When the deaths alone hold the top priority of a list and one of them
   * fires, the evaluation reports a death at that priority.
   */
  lemma DeathsOnTop(cs: seq<Condition>, st: GameState, r: EvaluationResult, top: nat)
    requires IsEvaluationOf(r, cs, st)
    requires forall c :: c in cs ==> c.priority <= top && (c.priority == top <==> c.kind.Death?)
    requires exists c :: c in cs && c.kind.Death? && Fires(c, st)
    ensures r.winLevel.None? && r.deathReason.Some? && r.priority == top
  {
    var c :| c in cs && c.kind.Death? && Fires(c, st);
    var ts := r.triggeredConditions;
    FilterKeeps(cs, x => Fires(x, st), c);
    assert c in ts;
    PeakIsDeath(ts, r, top);
  }

  lemma PeakIsDeath(ts: seq<Condition>, r: EvaluationResult, top: nat)
    requires forall x :: x in ts ==> x.priority <= top && (x.priority == top <==> x.kind.Death?)
    requires exists x :: x in ts && x.kind.Death?
    requires r.priority == MaxPriority(ts)
    requires r.priority > -1 ==> exists k :: 0 <= k < |ts| && IsFirstAtPeak(ts, k) && Decides(r.winLevel, r.deathReason, ts[k])
    ensures r.winLevel.None? && r.deathReason.Some? && r.priority == top
  {
    var x :| x in ts && x.kind.Death?;
    var i :| 0 <= i < |ts| && ts[i] == x;
    assert ts[i].priority <= MaxPriority(ts);
    var j :| 0 <= j < |ts| && ts[j].priority == MaxPriority(ts);
    assert ts[j] in ts;
    var k :| 0 <= k < |ts| && IsFirstAtPeak(ts, k) && Decides(r.winLevel, r.deathReason, ts[k]);
    assert ts[k] in ts;
  }

  /** A death at the head of a list, of a priority no other condition exceeds, decides the evaluation when it fires. */
  lemma FirstDeathDecides(cs: seq<Condition>, st: GameState, r: EvaluationResult)
    requires IsEvaluationOf(r, cs, st)
    requires cs != [] && cs[0].kind.Death? && Fires(cs[0], st) && cs[0].priority >= 0
    requires forall c :: c in cs ==> c.priority <= cs[0].priority
    ensures r.deathReason == Some(ParseDeathReason(cs[0].expression)) && r.winLevel.None?
    ensures r.priority == cs[0].priority
  {
    var ts := r.triggeredConditions;
    FilterHead(cs, x => Fires(x, st));
    assert ts[0] == cs[0];
    var m := MaxPriority(ts);
    assert m <= cs[0].priority by {
      if m != -1 {
        var j :| 0 <= j < |ts| && ts[j].priority == m;
        assert ts[j] in ts;
      }
    }
    assert IsFirstAtPeak(ts, 0);
    var k :| 0 <= k < |ts| && IsFirstAtPeak(ts, k) && Decides(r.winLevel, r.deathReason, ts[k]);
    FirstAtPeakUnique(ts, k, 0);
  }

  lemma HealthText()
    ensures DeathHealth.expression == "attributes." + "health" + ComparisonTail(Le, 0)
    ensures ParseDeathReason(DeathHealth.expression) == HealthZero
  {
    assert NumText(0) == "0";
    ContainsAt(DeathHealth.expression, "health", 11);
  }

  /** `attributes.health <= 0` holds exactly when the health attribute is at most 0 (absent counts as 0). */
  lemma HealthFires(st: GameState)
    requires AttributeNumber(st, "health").Some?
    ensures Fires(DeathHealth, st) <==> AttributeNumber(st, "health").value <= 0
  {
    HealthText();
    AttributeComparison("health", Le, 0, st);
  }

  /**
   * With the standard conditions and health at or below 0, the evaluation
   * reports death by health at priority 1000, whatever else holds: the
   * health condition is the first of the deaths.
   */
  lemma HealthDeath(st: GameState, r: EvaluationResult)
    requires AttributeNumber(st, "health").Some? && AttributeNumber(st, "health").value <= 0
    requires IsEvaluationOf(r, Sorted, st)
    ensures r.deathReason == Some(HealthZero) && r.winLevel.None? && r.priority == 1000
  {
    HealthFires(st);
    HealthText();
    SortedPriorities();
    FirstDeathDecides(Sorted, st, r);
  }

  /** `day >= 7` holds exactly when the seventh day has been reached. */
  lemma WinBFires(st: GameState)
    ensures Fires(WinB, st) <==> st.day >= 7
  {
    assert WinB.expression == Lead(DayWord) + ComparisonTail(Ge, 7) by {
      assert NumText(7) == "7";
    }
    NumberWordComparison(DayWord, Ge, 7, st);
  }

  lemma WinCText()
    ensures WinC.expression == AndFront(DayWord, Ge, 5) + ("attributes." + "health") + ComparisonTail(Gt, 0)
  {
    assert NumText(5) == "5" && NumText(0) == "0";
    assert AndFront(DayWord, Ge, 5) == "day >= 5 && ";
    assert ComparisonTail(Gt, 0) == " > 0";
  }

  /**
   * `day >= 5 && attributes.health > 0` holds exactly when the fifth day
   * has been reached with health above 0 (absent counts as 0).
   */
  lemma WinCFires(st: GameState)
    requires AttributeNumber(st, "health").Some?
    ensures Fires(WinC, st) <==> st.day >= 5 && AttributeNumber(st, "health").value > 0
  {
    WinCText();
    NumberWordAndAttribute(DayWord, Ge, 5, "health", Gt, 0, st);
  }

  lemma OccursBetween(pre: string, t: string, rest: string)
    ensures OccursAt(pre + t + rest, t, |pre|)
  {
    assert (pre + t + rest)[|pre|..|pre| + |t|] == t;
  }

  /**
   * The perfect ending never fires, in any state: its last part,
   * `inventory.includes("golden_key")`, becomes `true` or `false`, and the
   * allowlist rejects the letters.
   */
  lemma WinSNeverFires(st: GameState)
    ensures !Fires(WinS, st)
  {
    WinSText();
    IncludesNeverTriggers(WinS.expression, st, 66);
  }

  lemma WinSText()
    ensures OccursAt(WinS.expression, "inventory.includes", 66)
  {
    var pre := "day >= 7 && attributes.health >= 80 && attributes.sanity >= 80 && ";
    assert "inventory.includes(\"golden_key\")" == "inventory.includes" + "(\"golden_key\")";
    OccursBetween(pre, "inventory.includes", "(\"golden_key\")");
  }
}
