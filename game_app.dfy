/**
 * The state of the game screen and the handlers that change it: following
 * a choice, the death check, restarting, marking rules, discovering and
 * paging through rule papers, and changing profession.  Every handler
 * computes the next state from the current one, as the component's state
 * setters do; `Apply` dispatches over all of them so that the invariants
 * of the screen can be stated once for every action.
 */
module GameApp {
  import opened Wrappers
  import opened JsText
  import opened GameData

  /** A choice of a passage; a missing change counts as zero. */
  datatype Choice = Choice(
    text: string,
    action: string,
    timeChange: Option<int>,
    hungerChange: Option<int>,
    energyChange: Option<int>,
    sanityChange: Option<int>,
    intelligenceChange: Option<int>,
    strengthChange: Option<int>,
    speedChange: Option<int>,
    luckChange: Option<int>)

  datatype Passage = Passage(text: string, choices: seq<Choice>)

  /** The screen's state: the text-speed and settings-panel state only affect rendering. */
  datatype App = App(
    gameState: GameState,
    currentPaperIndex: int,
    currentPassageId: string,
    passages: map<string, Passage>,
    papers: seq<RulePaper>,
    isPassageTextComplete: bool,
    isDead: bool)

  const StartText := "欢迎来到寝室规则怪谈！请加载一个故事文件开始游戏。"

  const DefaultPassages: map<string, Passage> := map["start" := Passage(StartText, [])]

  /** The marker text of a passage that kills the player */
  const DeathMarker := "你死了："

  const InitialApp := App(InitialGameState, 0, "start", DefaultPassages, RulePapers, false, false)

  /** `Math.max(0, Math.min(100, x))` */
  function Clamp(x: int): (r: int)
    ensures 0 <= r <= 100
    ensures 0 <= x <= 100 ==> r == x
    ensures x < 0 ==> r == 0
    ensures x > 100 ==> r == 100
  {
    if x > 100 then 100 else if x < 0 then 0 else x
  }

  /** The 24-hour wrap: 24 is subtracted once when the time reaches 24, and added once when it is negative. */
  function WrapTime(t: int): (r: int)
    ensures -24 <= t < 48 ==> r == t % 24 && 0 <= r < 24
    ensures t >= 48 ==> r == t - 24
    ensures t < -24 ==> r == t + 24
  {
    var a := if t >= 24 then t - 24 else t;
    if a < 0 then a + 24 else a
  }

  /** The new stats after a choice: the time wraps, every other stat is clamped to [0, 100]. */
  function ApplyChoice(gs: GameState, c: Choice): (r: GameState)
    ensures r.profession == gs.profession
    ensures 0 <= r.hunger <= 100 && 0 <= r.energy <= 100 && 0 <= r.sanity <= 100
    ensures 0 <= r.intelligence <= 100 && 0 <= r.strength <= 100
    ensures 0 <= r.speed <= 100 && 0 <= r.luck <= 100
    ensures 0 <= gs.hunger + c.hungerChange.GetOr(0) <= 100 ==> r.hunger == gs.hunger + c.hungerChange.GetOr(0)
    ensures 0 <= gs.energy + c.energyChange.GetOr(0) <= 100 ==> r.energy == gs.energy + c.energyChange.GetOr(0)
    ensures 0 <= gs.sanity + c.sanityChange.GetOr(0) <= 100 ==> r.sanity == gs.sanity + c.sanityChange.GetOr(0)
    ensures r.time == WrapTime(gs.time + c.timeChange.GetOr(0))
  {
    GameState(
      WrapTime(gs.time + c.timeChange.GetOr(0)),
      gs.profession,
      Clamp(gs.hunger + c.hungerChange.GetOr(0)),
      Clamp(gs.energy + c.energyChange.GetOr(0)),
      Clamp(gs.sanity + c.sanityChange.GetOr(0)),
      Clamp(gs.intelligence + c.intelligenceChange.GetOr(0)),
      Clamp(gs.strength + c.strengthChange.GetOr(0)),
      Clamp(gs.speed + c.speedChange.GetOr(0)),
      Clamp(gs.luck + c.luckChange.GetOr(0)))
  }

  /** A choice whose time change is under a day keeps every stat and the time of day in range. */
  lemma ApplyChoiceInRange(gs: GameState, c: Choice)
    requires 0 <= gs.time < 24
    requires -24 < c.timeChange.GetOr(0) < 24
    ensures InRange(ApplyChoice(gs, c))
    ensures ApplyChoice(gs, c).time == (gs.time + c.timeChange.GetOr(0)) % 24
  {
  }

  /** The death check of the death effect: for stats in range, one of sanity, energy and hunger is 0. */
  predicate ShouldDie(gs: GameState)
    ensures InRange(gs) ==> (ShouldDie(gs) <==> gs.sanity == 0 || gs.energy == 0 || gs.hunger == 0)
  {
    gs.sanity <= 0 || gs.energy <= 0 || gs.hunger <= 0
  }

  /** After a choice the player is due to die exactly when sanity, energy or hunger has hit 0. */
  lemma ShouldDieAfterChoice(gs: GameState, c: Choice)
    ensures var r := ApplyChoice(gs, c);
      ShouldDie(r) <==> r.sanity == 0 || r.energy == 0 || r.hunger == 0
  {
  }

  /** The death effect: it sets `isDead` when the check holds and the player is not dead yet. */
  function DeathEffect(app: App): (r: App)
    ensures r.isDead <==> app.isDead || ShouldDie(app.gameState)
    ensures r.(isDead := app.isDead) == app
  {
    if ShouldDie(app.gameState) && !app.isDead then app.(isDead := true) else app
  }

  /** The special actions of `goToPassage` that discover a rule paper */
  function DiscoveredPaper(action: string): Option<int> {
    if action == "findRule2" then Some(2)
    else if action == "findRule3" then Some(3)
    else if action == "findRule4" then Some(4)
    else None
  }

  /** A passage that exists and whose text holds the death marker */
  predicate IsDeathPassage(passages: map<string, Passage>, id: string) {
    id in passages && Contains(passages[id].text, DeathMarker)
  }

  /** `goToPassage(choice)` */
  function GoToPassage(app: App, c: Choice): (r: App)
    ensures r.currentPassageId == c.action
    ensures r.gameState == ApplyChoice(app.gameState, c)
    ensures r.isDead <==> app.isDead || IsDeathPassage(app.passages, c.action)
    ensures !r.isPassageTextComplete
    ensures DiscoveredPaper(c.action).None? ==> r.papers == app.papers
    ensures DiscoveredPaper(c.action).Some? ==> r.papers == FindRulePaper(app.papers, DiscoveredPaper(c.action).value)
    ensures r.passages == app.passages && r.currentPaperIndex == app.currentPaperIndex
  {
    var papers := match DiscoveredPaper(c.action)
      case Some(id) => FindRulePaper(app.papers, id)
      case None => app.papers;
    var dead := if IsDeathPassage(app.passages, c.action) then true else app.isDead;
    App(ApplyChoice(app.gameState, c), app.currentPaperIndex, c.action, app.passages, papers, false, dead)
  }

  /**
   * Following a choice, then the death effect that the new stats trigger:
   * the player is dead exactly when they already were, the target is a
   * death passage, or the new sanity, energy or hunger is 0.
   */
  function Choose(app: App, c: Choice): (r: App)
    ensures r.currentPassageId == c.action && r.gameState == ApplyChoice(app.gameState, c)
    ensures r.isDead <==>
      app.isDead || IsDeathPassage(app.passages, c.action) ||
      r.gameState.sanity == 0 || r.gameState.energy == 0 || r.gameState.hunger == 0
  {
    ShouldDieAfterChoice(app.gameState, c);
    DeathEffect(GoToPassage(app, c))
  }

  /** The mark cycle: unknown, true, false, unknown */
  function NextMark(m: Mark): (r: Mark)
    ensures r != m
  {
    match m
    case Unknown => MarkedTrue
    case MarkedTrue => MarkedFalse
    case MarkedFalse => Unknown
  }

  lemma NextMarkCycle(m: Mark)
    ensures NextMark(NextMark(NextMark(m))) == m
  {
  }

  /** Every rule with the given id advances its mark; the others are kept. */
  function ToggleRules(rules: seq<Rule>, ruleId: int): (r: seq<Rule>)
    ensures |r| == |rules|
    ensures forall j :: 0 <= j < |rules| ==>
      r[j].id == rules[j].id && r[j].text == rules[j].text
      && r[j].marked == (if rules[j].id == ruleId then NextMark(rules[j].marked) else rules[j].marked)
  {
    if rules == [] then []
    else
      var rule := rules[0];
      [if rule.id == ruleId then rule.(marked := NextMark(rule.marked)) else rule] + ToggleRules(rules[1..], ruleId)
  }

  /** Every paper with the given id toggles its rules; the other papers are kept. */
  function TogglePapers(papers: seq<RulePaper>, paperId: int, ruleId: int): (r: seq<RulePaper>)
    ensures |r| == |papers|
    ensures forall i :: 0 <= i < |papers| ==>
      r[i] == (if papers[i].id == paperId then papers[i].(rules := ToggleRules(papers[i].rules, ruleId)) else papers[i])
  {
    if papers == [] then []
    else
      var p := papers[0];
      [if p.id == paperId then p.(rules := ToggleRules(p.rules, ruleId)) else p] + TogglePapers(papers[1..], paperId, ruleId)
  }

  /** `toggleRuleMark(ruleId)` on the paper being shown */
  function ToggleRuleMark(app: App, ruleId: int): (r: App)
    requires 0 <= app.currentPaperIndex < |app.papers|
    ensures r.papers == TogglePapers(app.papers, app.papers[app.currentPaperIndex].id, ruleId)
    ensures r.(papers := app.papers) == app
  {
    app.(papers := TogglePapers(app.papers, app.papers[app.currentPaperIndex].id, ruleId))
  }

  /** Three toggles of the same rules give back the rules. */
  lemma {:induction false} ToggleRulesThrice(rules: seq<Rule>, ruleId: int)
    ensures ToggleRules(ToggleRules(ToggleRules(rules, ruleId), ruleId), ruleId) == rules
  {
    var r := ToggleRules(ToggleRules(ToggleRules(rules, ruleId), ruleId), ruleId);
    forall j | 0 <= j < |rules| ensures r[j] == rules[j] {
      NextMarkCycle(rules[j].marked);
    }
  }

  /** Three toggles of the same rule give back the papers. */
  lemma {:induction false} TogglePapersThrice(papers: seq<RulePaper>, paperId: int, ruleId: int)
    ensures TogglePapers(TogglePapers(TogglePapers(papers, paperId, ruleId), paperId, ruleId), paperId, ruleId) == papers
  {
    var r := TogglePapers(TogglePapers(TogglePapers(papers, paperId, ruleId), paperId, ruleId), paperId, ruleId);
    forall i | 0 <= i < |papers| ensures r[i] == papers[i] {
      ToggleRulesThrice(papers[i].rules, ruleId);
    }
  }

  /** Toggling the same rule three times leaves the screen as it was. */
  lemma ToggleRuleMarkThrice(app: App, ruleId: int)
    requires 0 <= app.currentPaperIndex < |app.papers|
    ensures ToggleRuleMark(ToggleRuleMark(ToggleRuleMark(app, ruleId), ruleId), ruleId) == app
  {
    var id := app.papers[app.currentPaperIndex].id;
    TogglePapersThrice(app.papers, id, ruleId);
  }

  /** JavaScript's `%`, whose remainder takes the sign of the dividend */
  function TruncRem(a: int, n: int): (r: int)
    requires n > 0
    ensures a >= 0 ==> 0 <= r < n
    ensures a <= 0 ==> -n < r <= 0
  {
    if a >= 0 then a % n else -((-a) % n)
  }

  /** `(prev - 1 + n) % n` */
  function PrevIndex(i: int, n: int): int
    requires n > 0
  {
    TruncRem(i - 1 + n, n)
  }

  /** `(prev + 1) % n` */
  function NextIndex(i: int, n: int): int
    requires n > 0
  {
    TruncRem(i + 1, n)
  }

  /** A remainder below twice the divisor is reached with at most one subtraction. */
  lemma ModOnce(a: int, n: int)
    requires n > 0 && 0 <= a < 2 * n
    ensures TruncRem(a, n) == if a < n then a else a - n
  {
    if a >= n {
      var q, r := a / n, a % n;
      assert a == n * q + r;
      if q <= 0 {
        MulNonPos(n, q);
        assert false;
      }
      if q >= 2 {
        MulAtLeastTwo(n, q);
        assert false;
      }
    }
  }

  lemma MulNonPos(n: int, q: int)
    requires n > 0 && q <= 0
    ensures n * q <= 0
  {
  }

  lemma MulAtLeastTwo(n: int, q: int)
    requires n > 0 && q >= 2
    ensures n * q >= 2 * n
  {
    assert n * q == 2 * n + n * (q - 2);
    MulNonNeg(n, q - 2);
  }

  lemma MulNonNeg(n: int, q: int)
    requires n >= 0 && q >= 0
    ensures n * q >= 0
  {
  }

  /** From a valid index, paging either way stays valid, and the two directions undo each other. */
  lemma PrevNextInverse(i: int, n: int)
    requires 0 <= i < n
    ensures 0 <= PrevIndex(i, n) < n && 0 <= NextIndex(i, n) < n
    ensures PrevIndex(NextIndex(i, n), n) == i
    ensures NextIndex(PrevIndex(i, n), n) == i
  {
    ModOnce(i + 1, n);
    ModOnce(i - 1 + n, n);
    var j := NextIndex(i, n);
    ModOnce(j - 1 + n, n);
    var k := PrevIndex(i, n);
    ModOnce(k + 1, n);
  }

  /** `prevRule`: only the shown paper changes, one back, the first wrapping to the last. */
  function PrevRule(app: App): (r: App)
    requires |app.papers| > 0
    ensures r == app.(currentPaperIndex := r.currentPaperIndex)
    ensures 0 < app.currentPaperIndex < |app.papers| ==> r.currentPaperIndex == app.currentPaperIndex - 1
    ensures app.currentPaperIndex == 0 ==> r.currentPaperIndex == |app.papers| - 1
  {
    var i, n := app.currentPaperIndex, |app.papers|;
    assert 0 <= i < n ==> PrevIndex(i, n) == if i == 0 then n - 1 else i - 1 by {
      if 0 <= i < n {
        ModOnce(i - 1 + n, n);
      }
    }
    app.(currentPaperIndex := PrevIndex(i, n))
  }

  /**
   * `nextRule`: only the shown paper changes, one on, the last wrapping to
   * the first; from a valid index `prevRule` undoes it.
   */
  function NextRule(app: App): (r: App)
    requires |app.papers| > 0
    ensures r == app.(currentPaperIndex := r.currentPaperIndex)
    ensures 0 <= app.currentPaperIndex < |app.papers| - 1 ==> r.currentPaperIndex == app.currentPaperIndex + 1
    ensures app.currentPaperIndex == |app.papers| - 1 ==> r.currentPaperIndex == 0
    ensures 0 <= app.currentPaperIndex < |app.papers| ==> PrevRule(r) == app
  {
    var i, n := app.currentPaperIndex, |app.papers|;
    assert 0 <= i < n ==> NextIndex(i, n) == (if i == n - 1 then 0 else i + 1) by {
      if 0 <= i < n {
        ModOnce(i + 1, n);
      }
    }
    app.(currentPaperIndex := NextIndex(i, n))
  }

  /** `xs.indexOf(x)`: the first position of `x`, or -1 */
  function SeqIndexOf(xs: seq<string>, x: string): (r: int)
    ensures -1 <= r < |xs|
    ensures r >= 0 ==> xs[r] == x && forall k :: 0 <= k < r ==> xs[k] != x
    ensures r == -1 <==> x !in xs
  {
    if xs == [] then -1
    else if xs[0] == x then 0
    else
      var k := SeqIndexOf(xs[1..], x);
      if k == -1 then -1 else k + 1
  }

  /** The element after `x` in `xs`, cyclically; the first one when `x` is absent */
  function NextInCycle(xs: seq<string>, x: string): (r: string)
    requires |xs| > 0
    ensures r in xs
    ensures x !in xs ==> r == xs[0]
  {
    xs[(SeqIndexOf(xs, x) + 1) % |xs|]
  }

  /** In a list without repeats, the element after position `k` follows `xs[k]`. */
  lemma NextInCycleAt(xs: seq<string>, k: nat)
    requires k < |xs|
    requires forall i, j :: 0 <= i < j < |xs| ==> xs[i] != xs[j]
    ensures NextInCycle(xs, xs[k]) == xs[(k + 1) % |xs|]
  {
    var i := SeqIndexOf(xs, xs[k]);
    assert i == k;
  }

  /** `changeProfession`: the next profession of the list, cyclically */
  function ChangeProfession(gs: GameState): (r: GameState)
    ensures r.profession in Professions
    ensures gs.profession !in Professions ==> r.profession == "学生"
    ensures r.(profession := gs.profession) == gs
  {
    gs.(profession := NextInCycle(Professions, gs.profession))
  }

  lemma ProfessionsDistinct()
    ensures forall i, j :: 0 <= i < j < |Professions| ==> Professions[i] != Professions[j]
  {
  }

  /** A listed profession becomes its successor, the last one the first. */
  lemma ChangeProfessionCycle(gs: GameState, k: nat)
    requires k < |Professions| && Professions[k] == gs.profession
    ensures ChangeProfession(gs).profession == Professions[(k + 1) % |Professions|]
  {
    ProfessionsDistinct();
    NextInCycleAt(Professions, k);
  }

  /**
   * What restarting does to the story.  `NoSavedStory`: the default
   * passages and `start`; `Reloaded`: the passages built from the saved
   * story, and its first node when it has one; `ReloadFailed`: a Python
   * story that does not parse leaves the passages as they are.
   */
  datatype Reload =
    | NoSavedStory
    | Reloaded(passages: map<string, Passage>, firstNodeId: Option<string>)
    | ReloadFailed

  /** `restartGame` */
  function RestartGame(app: App, reload: Reload): (r: App)
    ensures r.gameState == InitialGameState && r.papers == RulePapers && r.currentPaperIndex == 0
    ensures !r.isPassageTextComplete && !r.isDead
    ensures reload.NoSavedStory? ==> r.passages == DefaultPassages && r.currentPassageId == "start"
    ensures reload.Reloaded? ==> r.passages == reload.passages
    ensures reload.ReloadFailed? ==> r.passages == app.passages && r.currentPassageId == app.currentPassageId
  {
    var (passages, current) := match reload
      case NoSavedStory => (DefaultPassages, "start")
      case Reloaded(ps, first) => (ps, if first.Some? && first.value != "" then first.value else app.currentPassageId)
      case ReloadFailed => (app.passages, app.currentPassageId);
    App(InitialGameState, 0, current, passages, RulePapers, false, false)
  }

  /** Every action the screen takes */
  datatype Action =
    | Go(choice: Choice)
    | DeathCheck
    | Toggle(ruleId: int)
    | Find(paperId: int)
    | Prev
    | Next
    | NewProfession
    | Restart(reload: Reload)

  /** The screen's invariant: stats in range, four papers, the index on one of them, a listed profession */
  predicate Wellformed(app: App) {
    && 0 <= app.gameState.hunger <= 100 && 0 <= app.gameState.energy <= 100
    && 0 <= app.gameState.sanity <= 100 && 0 <= app.gameState.intelligence <= 100
    && 0 <= app.gameState.strength <= 100 && 0 <= app.gameState.speed <= 100
    && 0 <= app.gameState.luck <= 100
    && app.gameState.profession in Professions
    && |app.papers| == |RulePapers|
    && 0 <= app.currentPaperIndex < |app.papers|
  }

  /** One user action on the screen; every action keeps the screen's invariant. */
  function Apply(app: App, a: Action): (r: App)
    requires Wellformed(app)
    ensures Wellformed(r)
  {
    match a
    case Go(c) => GoToPassage(app, c)
    case DeathCheck => DeathEffect(app)
    case Toggle(id) => ToggleRuleMark(app, id)
    case Find(id) => app.(papers := FindRulePaper(app.papers, id))
    case Prev => PrevRule(app)
    case Next => NextRule(app)
    case NewProfession => app.(gameState := ChangeProfession(app.gameState))
    case Restart(reload) => InitialData(); RestartGame(app, reload)
  }

  lemma InitialWellformed()
    ensures Wellformed(InitialApp)
    ensures !InitialApp.isDead && InitialApp.currentPassageId in InitialApp.passages
  {
    InitialData();
  }

  /**
   * The death latch: only a restart clears `isDead`, and only following a
   * choice or the death effect sets it.
   */
  lemma DeathLatch(app: App, a: Action)
    requires Wellformed(app)
    ensures app.isDead && !a.Restart? ==> Apply(app, a).isDead
    ensures !app.isDead && Apply(app, a).isDead ==> a.Go? || a.DeathCheck?
    ensures a.Restart? ==> !Apply(app, a).isDead
  {
  }
}
