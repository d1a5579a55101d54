/**
 * `updatePassagesFromMapping`: the story graph, a list of labelled nodes
 * and a list of connections between them, becomes the map of passages
 * the game plays.  Each node gives one passage: a death node a death
 * text, a "next day" node a fixed text that leads back to `N1`, and any
 * other node its cleaned-up label with one choice per outgoing connection
 * whose target exists.
 */
module StoryGraph {
  import opened Wrappers
  import opened JsText
  import opened GameApp

  /** A node of the mapping: its key and its label, in the mapping's key order */
  datatype Node = Node(id: string, nodeLabel: string)

  /** An edge of the mapping; a change the story does not give is absent. */
  datatype Connection = Connection(
    from: string,
    to: string,
    condition: string,
    timeChange: Option<int>,
    hungerChange: Option<int>,
    energyChange: Option<int>,
    sanityChange: Option<int>,
    strengthChange: Option<int>,
    speedChange: Option<int>,
    luckChange: Option<int>)

  /** The nodes of a record: no key twice */
  predicate DistinctIds(nodes: seq<Node>) {
    forall i, j :: 0 <= i < j < |nodes| ==> nodes[i].id != nodes[j].id
  }

  function Ids(nodes: seq<Node>): set<string> {
    set k | 0 <= k < |nodes| :: nodes[k].id
  }

  /** `mapping.nodes[id]` */
  function Lookup(nodes: seq<Node>, id: string): (r: Option<string>)
    ensures r.None? <==> id !in Ids(nodes)
    ensures r.Some? ==> exists k :: 0 <= k < |nodes| && nodes[k].id == id && nodes[k].nodeLabel == r.value
  {
    if nodes == [] then None
    else if nodes[0].id == id then Some(nodes[0].nodeLabel)
    else
      var r := Lookup(nodes[1..], id);
      assert Ids(nodes) == {nodes[0].id} + Ids(nodes[1..]) by {
        forall x | x in Ids(nodes) ensures x in {nodes[0].id} + Ids(nodes[1..]) {
          var k :| 0 <= k < |nodes| && nodes[k].id == x;
          if k > 0 { assert nodes[1..][k - 1].id == x; }
        }
      }
      r
  }

  /** The length of the run of ASCII digits at the start of `s` */
  function DigitRun(s: string): (k: nat)
    ensures k <= |s| && AllDigits(s[..k])
    ensures k < |s| ==> !IsDigit(s[k])
  {
    if s == [] || !IsDigit(s[0]) then 0
    else
      var k := DigitRun(s[1..]);
      assert s[..k + 1] == [s[0]] + s[1..][..k];
      k + 1
  }

  predicate NoLineTerminator(s: string) {
    forall k :: 0 <= k < |s| ==> !IsLineTerminator(s[k])
  }

  /** The name captured by `^节点\d+：(.+)$`, if the label matches */
  function PrefixName(nodeLabel: string): Option<string> {
    if !StartsWith(nodeLabel, "节点") then None
    else
      var rest := nodeLabel[2..];
      var k := DigitRun(rest);
      if k == 0 || k == |rest| || rest[k] != '：' then None
      else
        var name := rest[k + 1..];
        if name != [] && NoLineTerminator(name) then Some(name) else None
  }

  predicate IsQuote(c: char) {
    c == '"' || c == '\''
  }

  /** `s.replace(/^["']|["']$/g, '')`: one quote removed from each end */
  function StripQuotes(s: string): (r: string)
    ensures |r| <= |s|
  {
    var a := if |s| > 0 && IsQuote(s[0]) then 1 else 0;
    var b := if |s| > a && IsQuote(s[|s| - 1]) then |s| - 1 else |s|;
    s[a..b]
  }

  /** The name a node shows: the label without its `节点N：` prefix and end quotes, trimmed */
  function NodeName(nodeLabel: string): string {
    var name := match PrefixName(nodeLabel)
      case Some(n) => n
      case None => nodeLabel;
    Trim(StripQuotes(name))
  }

  /** A numbered label gives the text after its colon. */
  lemma NodeNameOfNumbered(digits: string, name: string)
    requires digits != [] && AllDigits(digits)
    requires name != [] && NoLineTerminator(name)
    requires !IsQuote(name[0]) && !IsQuote(name[|name| - 1])
    ensures NodeName("节点" + digits + "：" + name) == Trim(name)
  {
    PrefixNameOf(digits, name);
    assert StripQuotes(name) == name;
  }

  lemma PrefixNameOf(digits: string, name: string)
    requires digits != [] && AllDigits(digits)
    requires name != [] && NoLineTerminator(name)
    ensures PrefixName("节点" + digits + "：" + name) == Some(name)
  {
    var nodeLabel := "节点" + digits + "：" + name;
    var tail := "：" + name;
    assert nodeLabel == "节点" + (digits + tail);
    assert StartsWith(nodeLabel, "节点");
    var rest := nodeLabel[2..];
    assert rest == digits + tail;
    DigitRunOf(digits, tail);
    assert rest[|digits|] == tail[0] == '：';
    assert rest[|digits| + 1..] == tail[1..] == name;
  }

  /** The digit run of digits followed by a non-digit is exactly those digits. */
  lemma {:induction false} DigitRunOf(digits: string, tail: string)
    requires AllDigits(digits)
    requires tail != [] && !IsDigit(tail[0])
    ensures DigitRun(digits + tail) == |digits|
  {
    if digits != [] {
      assert (digits + tail)[1..] == digits[1..] + tail;
      DigitRunOf(digits[1..], tail);
    }
  }

  /** The choice a connection gives; a change the connection lacks becomes 0. */
  function ChoiceOf(c: Connection): Choice {
    Choice(c.condition, c.to,
      Some(c.timeChange.GetOr(0)), Some(c.hungerChange.GetOr(0)), Some(c.energyChange.GetOr(0)),
      Some(c.sanityChange.GetOr(0)), None, Some(c.strengthChange.GetOr(0)),
      Some(c.speedChange.GetOr(0)), Some(c.luckChange.GetOr(0)))
  }

  /** A connection out of `id` whose target has a non-empty label becomes a choice. */
  predicate Offers(nodes: seq<Node>, c: Connection, id: string) {
    c.from == id && Lookup(nodes, c.to).Some? && Lookup(nodes, c.to).value != ""
  }

  /** The choices of node `id`, in connection order */
  function OutgoingChoices(nodes: seq<Node>, conns: seq<Connection>, id: string): (r: seq<Choice>)
    ensures |r| <= |conns|
  {
    if conns == [] then []
    else
      var last := conns[|conns| - 1];
      OutgoingChoices(nodes, conns[..|conns| - 1], id) + (if Offers(nodes, last, id) then [ChoiceOf(last)] else [])
  }

  const SecondDayText := "你成功度过了第一天，迎来了第二天。"

  const BackToStart := Choice("继续探索", "N1", None, None, None, None, None, None, None, None)

  /** The passage a node becomes */
  function NodePassage(nodes: seq<Node>, conns: seq<Connection>, n: Node): Passage {
    if Contains(n.nodeLabel, "死亡") then Passage(DeathMarker + NodeName(n.nodeLabel), [])
    else if Contains(n.nodeLabel, "第二天") then Passage(SecondDayText, [BackToStart])
    else Passage(NodeName(n.nodeLabel), OutgoingChoices(nodes, conns, n.id))
  }

  /**
   * `updatePassagesFromMapping`: one passage per node, and the first node's
   * key as the new current passage when there is one (an empty key is
   * falsy and is not used).
   */
  method UpdatePassagesFromMapping(nodes: seq<Node>, conns: seq<Connection>)
    returns (passages: map<string, Passage>, first: Option<string>)
    requires DistinctIds(nodes)
    ensures passages.Keys == Ids(nodes)
    ensures forall k :: 0 <= k < |nodes| ==> passages[nodes[k].id] == NodePassage(nodes, conns, nodes[k])
    ensures first == if |nodes| > 0 && nodes[0].id != "" then Some(nodes[0].id) else None
  {
    passages := map[];
    var i := 0;
    while i < |nodes|
      invariant 0 <= i <= |nodes|
      invariant passages.Keys == Ids(nodes[..i])
      invariant forall k :: 0 <= k < i ==> passages[nodes[k].id] == NodePassage(nodes, conns, nodes[k])
    {
      var node := nodes[i];
      var choices := NodeChoices(nodes, conns, node.id);
      var name := NodeName(node.nodeLabel);
      var passage;
      if Contains(node.nodeLabel, "死亡") {
        passage := Passage(DeathMarker + name, []);
      } else if Contains(node.nodeLabel, "第二天") {
        passage := Passage(SecondDayText, [BackToStart]);
      } else {
        passage := Passage(name, choices);
      }
      passages := passages[node.id := passage];
      IdsStep(nodes, i);
      i := i + 1;
    }
    assert nodes[..i] == nodes;
    first := if |nodes| > 0 && nodes[0].id != "" then Some(nodes[0].id) else None;
  }

  lemma IdsStep(nodes: seq<Node>, i: nat)
    requires i < |nodes|
    ensures Ids(nodes[..i + 1]) == Ids(nodes[..i]) + {nodes[i].id}
  {
    assert forall k :: 0 <= k < i ==> nodes[..i + 1][k] == nodes[..i][k];
  }

  /** The loop that collects a node's choices */
  method NodeChoices(nodes: seq<Node>, conns: seq<Connection>, id: string) returns (choices: seq<Choice>)
    ensures choices == OutgoingChoices(nodes, conns, id)
  {
    choices := [];
    var j := 0;
    while j < |conns|
      invariant 0 <= j <= |conns|
      invariant choices == OutgoingChoices(nodes, conns[..j], id)
    {
      var conn := conns[j];
      if conn.from == id {
        var target := Lookup(nodes, conn.to);
        if target.Some? && target.value != "" {
          choices := choices + [ChoiceOf(conn)];
        }
      }
      assert conns[..j + 1][..j] == conns[..j];
      j := j + 1;
    }
    assert conns[..j] == conns;
  }

  /** A node labelled with `死亡` becomes a passage that kills the player on arrival. */
  lemma DeathNodeKills(nodes: seq<Node>, conns: seq<Connection>, passages: map<string, Passage>, k: nat)
    requires k < |nodes| && Contains(nodes[k].nodeLabel, "死亡")
    requires nodes[k].id in passages && passages[nodes[k].id] == NodePassage(nodes, conns, nodes[k])
    ensures IsDeathPassage(passages, nodes[k].id)
    ensures passages[nodes[k].id].choices == []
  {
    var text := passages[nodes[k].id].text;
    assert OccursAt(text, DeathMarker, 0) by {
      assert text[..|DeathMarker|] == DeathMarker;
    }
    ContainsAt(text, DeathMarker, 0);
  }

  /** Every choice of a node is an outgoing connection whose target is a node. */
  lemma {:induction false} ChoicesLeadToNodes(nodes: seq<Node>, conns: seq<Connection>, id: string)
    ensures forall c :: c in OutgoingChoices(nodes, conns, id) ==> c.action in Ids(nodes)
    ensures forall c :: c in OutgoingChoices(nodes, conns, id) ==>
      exists j :: 0 <= j < |conns| && conns[j].from == id && c == ChoiceOf(conns[j])
  {
    if conns != [] {
      var init := conns[..|conns| - 1];
      ChoicesLeadToNodes(nodes, init, id);
      forall c | c in OutgoingChoices(nodes, conns, id)
        ensures c.action in Ids(nodes)
        ensures exists j :: 0 <= j < |conns| && conns[j].from == id && c == ChoiceOf(conns[j])
      {
        if c in OutgoingChoices(nodes, init, id) {
          var j :| 0 <= j < |init| && init[j].from == id && c == ChoiceOf(init[j]);
          assert conns[j] == init[j];
        } else {
          assert c == ChoiceOf(conns[|conns| - 1]);
        }
      }
    }
  }

  /** An outgoing connection to a node with a non-empty label is offered as a choice. */
  lemma {:induction false} OfferedConnection(nodes: seq<Node>, conns: seq<Connection>, id: string, j: nat)
    requires j < |conns| && Offers(nodes, conns[j], id)
    ensures ChoiceOf(conns[j]) in OutgoingChoices(nodes, conns, id)
  {
    var init := conns[..|conns| - 1];
    if j < |conns| - 1 {
      assert conns[j] == init[j];
      OfferedConnection(nodes, init, id, j);
    }
  }

  /**
   * In the passages built from a mapping, every choice of a node without
   * `死亡` or `第二天` in its label leads to a passage that exists.
   */
  lemma ChoicesStayInStory(nodes: seq<Node>, conns: seq<Connection>, passages: map<string, Passage>, k: nat)
    requires k < |nodes| && passages.Keys == Ids(nodes)
    requires passages[nodes[k].id] == NodePassage(nodes, conns, nodes[k])
    ensures forall c :: c in passages[nodes[k].id].choices ==> c.action in passages || c == BackToStart
  {
    ChoicesLeadToNodes(nodes, conns, nodes[k].id);
  }
}
