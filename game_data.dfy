/**
 * The player's state, the rule papers, and the fixed data the game starts
 * from, shared by the app and the game provider.
 */
module GameData {

  /** The player's time of day and stats */
  datatype GameState = GameState(
    time: int,
    profession: string,
    hunger: int,
    energy: int,
    sanity: int,
    intelligence: int,
    strength: int,
    speed: int,
    luck: int)

  /** A rule's mark: `"unknown"`, `"true"` or `"false"` */
  datatype Mark = Unknown | MarkedTrue | MarkedFalse

  datatype Rule = Rule(id: int, text: string, marked: Mark)

  datatype RulePaper = RulePaper(id: int, title: string, found: bool, rules: seq<Rule>)

  const InitialGameState := GameState(22, "学生", 80, 70, 60, 50, 50, 50, 50)

  const Professions: seq<string> := ["学生", "老人", "残疾人", "律师", "医生", "教师", "工人", "警察", "艺术家", "商人"]

  function Unmarked(id: int, text: string): Rule {
    Rule(id, text, Unknown)
  }

  const RulePapers: seq<RulePaper> := [
    RulePaper(1, "寝室规则一", true, [
      Unmarked(1, "晚上11点后不要照镜子"),
      Unmarked(2, "不要在黑暗中数床铺数量"),
      Unmarked(3, "听到脚步声要立即蒙头睡觉"),
      Unmarked(4, "不要回应门外的呼唤声"),
      Unmarked(5, "熄灯后不要开手电筒")]),
    RulePaper(2, "寝室规则二", false, [
      Unmarked(6, "不要穿室友的鞋子"),
      Unmarked(7, "衣柜里的衣服要按顺序摆放"),
      Unmarked(8, "不要触碰墙上的划痕"),
      Unmarked(9, "每天必须更换床单")]),
    RulePaper(3, "寝室规则三", false, [
      Unmarked(10, "不要在午夜12点后上厕所"),
      Unmarked(11, "发现异常要立即告诉宿管"),
      Unmarked(12, "不要独自留在寝室超过30分钟"),
      Unmarked(13, "窗户必须在晚上10点前关闭"),
      Unmarked(14, "不要移动床位的位置"),
      Unmarked(15, "听到哭声要数到10再行动")]),
    RulePaper(4, "寝室规则四", false, [
      Unmarked(16, "不要相信第4个室友说的话"),
      Unmarked(17, "发现红字要立即撕掉"),
      Unmarked(18, "不要在镜子里寻找自己")])
  ]

  /** Every stat lies in [0, 100] and the time in [0, 24). */
  predicate InRange(gs: GameState) {
    && 0 <= gs.time < 24
    && 0 <= gs.hunger <= 100 && 0 <= gs.energy <= 100 && 0 <= gs.sanity <= 100
    && 0 <= gs.intelligence <= 100 && 0 <= gs.strength <= 100
    && 0 <= gs.speed <= 100 && 0 <= gs.luck <= 100
  }

  /**
   * `findRulePaper`: the paper with the given id that is not yet found
   * becomes found; every other paper stays as it is.
   */
  function FindRulePaper(papers: seq<RulePaper>, paperId: int): (r: seq<RulePaper>)
    ensures |r| == |papers|
    ensures forall i :: 0 <= i < |papers| ==>
      r[i] == (if papers[i].id == paperId then papers[i].(found := true) else papers[i])
  {
    if papers == [] then []
    else
      var p := papers[0];
      [if p.id == paperId && !p.found then p.(found := true) else p] + FindRulePaper(papers[1..], paperId)
  }

  /** Finding a paper twice is finding it once. */
  lemma {:induction false} FindRulePaperIdempotent(papers: seq<RulePaper>, paperId: int)
    ensures FindRulePaper(FindRulePaper(papers, paperId), paperId) == FindRulePaper(papers, paperId)
  {
    var once := FindRulePaper(papers, paperId);
    var twice := FindRulePaper(once, paperId);
    assert forall i :: 0 <= i < |once| ==> twice[i] == once[i];
  }

  /** Nothing changes for an id that no paper has, or for a paper that is already found. */
  lemma {:induction false} FindRulePaperNoOp(papers: seq<RulePaper>, paperId: int)
    requires forall i :: 0 <= i < |papers| && papers[i].id == paperId ==> papers[i].found
    ensures FindRulePaper(papers, paperId) == papers
  {
    var r := FindRulePaper(papers, paperId);
    assert forall i :: 0 <= i < |papers| ==> r[i] == papers[i];
  }

  /** The initial stats are in range, only paper 1 is found, and every rule starts unmarked. */
  lemma InitialData()
    ensures InRange(InitialGameState)
    ensures InitialGameState.profession in Professions
    ensures forall i :: 0 <= i < |RulePapers| ==> (RulePapers[i].found <==> RulePapers[i].id == 1)
    ensures forall i, j :: 0 <= i < |RulePapers| && 0 <= j < |RulePapers[i].rules| ==> RulePapers[i].rules[j].marked == Unknown
  {
  }
}
