/**
 * How the condition evaluator turns a condition's text into something the
 * JavaScript executor can run (`processExpression`), the character
 * allowlist in front of the executor (`safeEvaluate`), and the resulting
 * truth value of a condition against a game state (`evaluateExpression`).
 *
 * Each of the seven rewrites is a global regular-expression replace: the
 * text is scanned left to right, a match is replaced and scanning resumes
 * after it, and `\b` looks at the text being scanned.
 */
module ExpressionRewriting {
  import opened Wrappers
  import opened JsText
  import opened JsExpression
  import Sequences
  import Scanning

  /** An attribute value as the tests use them: a number or a piece of text */
  datatype AttrValue = NumAttr(n: int) | TextAttr(text: string)

  /** The parts of the game state a condition can refer to */
  datatype GameState = GameState(
    attributes: map<string, AttrValue>,
    inventory: seq<string>,
    flags: map<string, bool>,
    day: int,
    time: int,
    location: string)

  /** The seven replaces of `processExpression`, in the order they run */
  datatype Rewrite =
    | AttributeRef       // /attributes\.(\w+)/g
    | InventoryLength    // /inventory\.length/g
    | InventoryIncludes  // /inventory\.includes\(['"](.+?)['"]\)/g
    | FlagRef            // /flags\.(\w+)/g
    | DayWord            // /\bday\b/g
    | TimeWord           // /\btime\b/g
    | LocationWord       // /\blocation\b/g

  /** The literal text every match of a rewrite begins with, in the order of `Rewrite` */
  const Leads: seq<string> :=
    ["attributes.", "inventory.length", "inventory.includes(", "flags.", "day", "time", "location"]

  /** The position of a rewrite in the order they run */
  function Rank(rw: Rewrite): (k: nat)
    ensures k < |Leads|
  {
    match rw
    case AttributeRef => 0
    case InventoryLength => 1
    case InventoryIncludes => 2
    case FlagRef => 3
    case DayWord => 4
    case TimeWord => 5
    case LocationWord => 6
  }

  /** The literal text every match of the rewrite begins with */
  function Lead(rw: Rewrite): string {
    Leads[Rank(rw)]
  }

  /** `String(v)` */
  function ValueText(v: AttrValue): string {
    match v
    case NumAttr(n) => NumText(n)
    case TextAttr(t) => t
  }

  /**
   * The text a replacement string stands for in `s.replace(pattern,
   * string)`: `$$` is a `$`, `$&` the matched text, `` $` `` the text
   * before the match and `$'` the text after it.  The pattern has no
   * groups, so any other `$` is itself.
   */
  function Substitution(template: string, matched: string, before: string, after: string): (r: string)
    ensures '$' !in template ==> r == template
  {
    if template == [] then []
    else if template[0] == '$' && |template| >= 2 && template[1] in "$&`'" then
      (match template[1]
       case '$' => "$"
       case '&' => matched
       case '`' => before
       case _ => after)
      + Substitution(template[2..], matched, before, after)
    else [template[0]] + Substitution(template[1..], matched, before, after)
  }

  /** `String(b)` */
  function BoolText(b: bool): string {
    if b then "true" else "false"
  }

  /**
   * The members every plain JavaScript object inherits from
   * `Object.prototype`: `obj[name]` finds them when the object has no
   * member of its own with that name.
   */
  const InheritedNames: set<string> := {
    "constructor", "hasOwnProperty", "isPrototypeOf", "propertyIsEnumerable",
    "toLocaleString", "toString", "valueOf", "__defineGetter__",
    "__defineSetter__", "__lookupGetter__", "__lookupSetter__", "__proto__"}

  /**
   * `String(obj[name])` for an inherited member: the source text of a
   * built-in function (the constructor is the function `Object`), or the
   * prototype object itself for `__proto__`.
   */
  function InheritedText(name: string): (r: string)
    requires name in InheritedNames
    ensures InheritedStart(r)
  {
    if name == "__proto__" then ObjectText
    else if name == "constructor" then "function Object" + NativeBody
    else "function " + name + NativeBody
  }

  /** `String` of a plain object */
  const ObjectText: string := "[object Object]"

  /** What follows a built-in function's name in its source text */
  const NativeBody: string := "() { [native code] }"

  /** The start of an inherited member's text: `fu` of `function`, or `[o` of `[object` */
  predicate InheritedStart(s: string) {
    |s| >= 2 && ((s[0] == 'f' && s[1] == 'u') || (s[0] == '[' && s[1] == 'o'))
  }

  /**
   * The replacement of `attributes.<name>`: the text of the state's own
   * value, else of an inherited member, else `0`.
   */
  function AttributeText(st: GameState, name: string): string {
    if name in st.attributes then ValueText(st.attributes[name])
    else if name in InheritedNames then InheritedText(name)
    else "0"
  }

  /**
   * `String(flags[name] || false)`: an inherited member is a function or
   * an object, hence truthy, and is what `||` gives.
   */
  function FlagText(st: GameState, name: string): string {
    if name in st.flags then BoolText(st.flags[name])
    else if name in InheritedNames then InheritedText(name)
    else "false"
  }

  /** The length of the run of `\w` characters starting at `i` */
  function WordRun(s: string, i: nat): (k: nat)
    requires i <= |s|
    decreases |s| - i
    ensures i + k <= |s|
    ensures forall j :: i <= j < i + k ==> IsWordChar(s[j])
    ensures i + k < |s| ==> !IsWordChar(s[i + k])
  {
    if i < |s| && IsWordChar(s[i]) then 1 + WordRun(s, i + 1) else 0
  }

  predicate IsQuote(c: char) {
    c == '\'' || c == '"'
  }

  /**
   * The lazy `(.+?)['"]\)` starting at `j`, where `s[j .. j + k]` has
   * already been taken by `.`: the shortest item length `k' >= k` after
   * which a quote and `)` follow, with no line terminator inside the item.
   */
  function LazyItem(s: string, j: nat, k: nat): (r: Option<nat>)
    requires 1 <= k && j + k <= |s|
    decreases |s| - j - k
    ensures r.Some? ==> k <= r.value && j + r.value + 2 <= |s|
    ensures r.Some? ==> IsQuote(s[j + r.value]) && s[j + r.value + 1] == ')'
  {
    if j + k + 1 < |s| && IsQuote(s[j + k]) && s[j + k + 1] == ')' then Some(k)
    else if j + k < |s| && !IsLineTerminator(s[j + k]) then LazyItem(s, j, k + 1)
    else None
  }

  /**
   * Whether the rewrite's pattern matches at `i`; if so, the length of the
   * match and the text that replaces it.
   */
  function MatchAt(rw: Rewrite, st: GameState, s: string, i: nat): (r: Option<(nat, string)>)
    requires i <= |s|
    ensures r.Some? ==> OccursAt(s, Lead(rw), i) && |Lead(rw)| <= r.value.0 && i + r.value.0 <= |s|
  {
    if !OccursAt(s, Lead(rw), i) then None
    else
      var j := i + |Lead(rw)|;
      match rw
      case AttributeRef =>
        var k := WordRun(s, j);
        if k == 0 then None else Some((|Lead(rw)| + k, AttributeText(st, s[j..j + k])))
      case InventoryLength =>
        Some((|Lead(rw)|, NumText(|st.inventory|)))
      case InventoryIncludes =>
        if j + 1 < |s| && IsQuote(s[j]) && !IsLineTerminator(s[j + 1]) then
          match LazyItem(s, j + 1, 1)
          case None => None
          case Some(k) => Some((|Lead(rw)| + 1 + k + 2, BoolText(s[j + 1..j + 1 + k] in st.inventory)))
        else None
      case FlagRef =>
        var k := WordRun(s, j);
        if k == 0 then None else Some((|Lead(rw)| + k, FlagText(st, s[j..j + k])))
      case DayWord =>
        if BoundaryBefore(s, i) && BoundaryAfter(s, j) then Some((|Lead(rw)|, NumText(st.day))) else None
      case TimeWord =>
        if BoundaryBefore(s, i) && BoundaryAfter(s, j) then Some((|Lead(rw)|, NumText(st.time))) else None
      case LocationWord =>
        // the only replacement given as a string that can hold a `$`
        if BoundaryBefore(s, i) && BoundaryAfter(s, j) then
          Some((|Lead(rw)|, Substitution("'" + st.location + "'", s[i..j], s[..i], s[j..])))
        else None
  }

  /** `s.replace(pattern, …)` with the `g` flag, scanning from `i` */
  function ReplaceFrom(rw: Rewrite, st: GameState, s: string, i: nat): string
    requires i <= |s|
  {
    MatcherFacts(rw, st, s);
    Scanning.Scan(MatcherOf(rw, st, s), s, i)
  }

  /** The rewrite's pattern as a matcher on `s` */
  function MatcherOf(rw: Rewrite, st: GameState, s: string): Scanning.Matcher {
    (j: nat) => if j <= |s| then MatchAt(rw, st, s, j) else None
  }

  lemma LeadNonEmpty(rw: Rewrite)
    ensures 1 <= |Lead(rw)|
  {
  }

  /** The matcher answers what `MatchAt` answers, and every match moves the scan on. */
  lemma MatcherFacts(rw: Rewrite, st: GameState, s: string)
    ensures forall j: nat :: j <= |s| ==> MatcherOf(rw, st, s)(j) == MatchAt(rw, st, s, j)
    ensures Scanning.Advances(MatcherOf(rw, st, s), |s|)
  {
    LeadNonEmpty(rw);
  }

  function ReplaceAll(rw: Rewrite, st: GameState, s: string): string {
    ReplaceFrom(rw, st, s, 0)
  }

  /**
   * `processExpression`: the seven replaces in source order.  Text
   * without letters comes through unchanged, and so does a first
   * character none of the patterns can start with.
   */
  function ProcessExpression(expr: string, st: GameState): (r: string)
    ensures LetterFree(expr) ==> r == expr
    ensures expr != [] && expr[0] !in "aifdtl" ==> r != [] && r[0] == expr[0]
  {
    var s1 := ReplaceAll(AttributeRef, st, expr);
    var s2 := ReplaceAll(InventoryLength, st, s1);
    var s3 := ReplaceAll(InventoryIncludes, st, s2);
    var s4 := ReplaceAll(FlagRef, st, s3);
    var s5 := ReplaceAll(DayWord, st, s4);
    var s6 := ReplaceAll(TimeWord, st, s5);
    var r := ReplaceAll(LocationWord, st, s6);
    assert LetterFree(expr) ==> r == expr by {
      if LetterFree(expr) {
        ReplaceAllLetterFree(AttributeRef, st, expr);
        ReplaceAllLetterFree(InventoryLength, st, expr);
        ReplaceAllLetterFree(InventoryIncludes, st, expr);
        ReplaceAllLetterFree(FlagRef, st, expr);
        ReplaceAllLetterFree(DayWord, st, expr);
        ReplaceAllLetterFree(TimeWord, st, expr);
        ReplaceAllLetterFree(LocationWord, st, expr);
      }
    }
    assert expr != [] && expr[0] !in "aifdtl" ==> r != [] && r[0] == expr[0] by {
      if expr != [] && expr[0] !in "aifdtl" {
        ReplaceAllKeepsFirst(AttributeRef, st, expr);
        ReplaceAllKeepsFirst(InventoryLength, st, s1);
        ReplaceAllKeepsFirst(InventoryIncludes, st, s2);
        ReplaceAllKeepsFirst(FlagRef, st, s3);
        ReplaceAllKeepsFirst(DayWord, st, s4);
        ReplaceAllKeepsFirst(TimeWord, st, s5);
        ReplaceAllKeepsFirst(LocationWord, st, s6);
      }
    }
    r
  }

  /** A character of the class `[0-9\s+\-*\/><=!&|()'."]` */
  predicate IsAllowedChar(c: char) {
    IsDigit(c) || IsJsSpace(c) || c in "+-*/><=!&|()'.\""
  }

  /** The allowlist `^[…]+$`: at least one character, all of them allowed */
  predicate SafeText(s: string) {
    |s| > 0 && forall i :: 0 <= i < |s| ==> IsAllowedChar(s[i])
  }

  /** A value, or an exception with its message */
  datatype Outcome = Value(b: bool) | Thrown(message: string)

  /**
   * `safeEvaluate`: throws `Unsafe expression` for text outside the
   * allowlist; otherwise runs it, and an error while running gives `false`.
   */
  function SafeEvaluate(expr: string): (r: Outcome)
    ensures r.Thrown? <==> !SafeText(expr)
    ensures r.Thrown? ==> r.message == "Unsafe expression"
    ensures r.Value? ==> (r.b <==> Execute(expr) == Some(true))
  {
    if !SafeText(expr) then Thrown("Unsafe expression")
    else
      match Execute(expr)
      case None => Value(false)
      case Some(b) => Value(b)
  }

  /** `evaluateExpression`: any exception becomes `false` */
  function EvaluateExpression(expr: string, st: GameState): (r: bool)
    ensures r <==> SafeText(ProcessExpression(expr, st)) && Execute(ProcessExpression(expr, st)) == Some(true)
  {
    match SafeEvaluate(ProcessExpression(expr, st))
    case Value(b) => b
    case Thrown(_) => false
  }

  // ------------------------------------------------------------- properties

  predicate LetterFree(s: string) {
    forall i :: 0 <= i < |s| ==> !IsAsciiLetter(s[i])
  }

  /** Scanning text where the pattern never matches copies it. */
  lemma {:induction false} ReplaceFromUnchanged(rw: Rewrite, st: GameState, s: string, i: nat)
    requires i <= |s|
    requires forall j :: i <= j < |s| ==> MatchAt(rw, st, s, j).None?
    ensures ReplaceFrom(rw, st, s, i) == s[i..]
    decreases |s| - i
  {
    if i < |s| {
      ReplaceFromUnchanged(rw, st, s, i + 1);
      Sequences.DropOne(s, i);
    }
  }

  /** No match can start at a character other than the first letter of the rewrite's lead. */
  lemma {:induction false} NoMatchAt(rw: Rewrite, st: GameState, s: string, j: nat)
    requires j < |s| && s[j] != Lead(rw)[0]
    ensures MatchAt(rw, st, s, j).None?
  {
    if j + |Lead(rw)| <= |s| {
      assert s[j..j + |Lead(rw)|][0] == s[j];
    }
  }

  /** Every rewrite leaves text without letters as it is. */
  lemma {:induction false} ReplaceAllLetterFree(rw: Rewrite, st: GameState, s: string)
    requires LetterFree(s)
    ensures ReplaceAll(rw, st, s) == s
  {
    forall j | 0 <= j < |s|
      ensures MatchAt(rw, st, s, j).None?
    {
      NoMatchAt(rw, st, s, j);
    }
    ReplaceFromUnchanged(rw, st, s, 0);
  }

  /** A first character where the pattern cannot start is copied to the front of the result. */
  lemma {:induction false} ReplaceAllKeepsFirst(rw: Rewrite, st: GameState, s: string)
    requires s != [] && s[0] != Lead(rw)[0]
    ensures ReplaceAll(rw, st, s) != [] && ReplaceAll(rw, st, s)[0] == s[0]
  {
    NoMatchAt(rw, st, s, 0);
  }

  /**
   * A condition that starts with a letter no rewrite starts with (a bare
   * attribute name such as `sanity > 80`, or `eval(…)`) keeps that letter
   * through every rewrite, so the allowlist rejects it and it never
   * triggers, whatever follows.
   */
  lemma {:induction false} LeadingLetterNeverTriggers(expr: string, st: GameState)
    requires expr != [] && IsAsciiLetter(expr[0]) && expr[0] !in "aifdtl"
    ensures !EvaluateExpression(expr, st)
  {
    LetterUnsafe(ProcessExpression(expr, st));
  }

  lemma LetterUnsafe(s: string)
    requires s != [] && IsAsciiLetter(s[0])
    ensures !SafeText(s)
  {
    assert !IsAllowedChar(s[0]);
  }

  /**
   * The number an attribute reference stands for: the attribute's value,
   * or 0 when neither the state nor `Object.prototype` has the name;
   * nothing for text and for inherited members.
   */
  function AttributeNumber(st: GameState, name: string): Option<int> {
    if name in st.attributes then
      match st.attributes[name]
      case NumAttr(n) => Some(n)
      case TextAttr(_) => None
    else if name in InheritedNames then None
    else Some(0)
  }

  lemma {:induction false} WordRunExact(s: string, j: nat, n: nat)
    requires j + n <= |s|
    requires forall i :: j <= i < j + n ==> IsWordChar(s[i])
    requires j + n == |s| || !IsWordChar(s[j + n])
    ensures WordRun(s, j) == n
    decreases n
  {
    if n > 0 {
      WordRunExact(s, j + 1, n - 1);
    }
  }

  lemma {:induction false} NumTextLetterFree(n: int)
    ensures LetterFree(NumText(n))
    ensures forall i :: 0 <= i < |NumText(n)| ==> IsAllowedChar(NumText(n)[i])
  {
    var t := NatText(if n < 0 then -n else n);
    assert AllDigits(t);
    if n < 0 {
      assert NumText(n) == "-" + t;
      forall i | 1 <= i < |NumText(n)|
        ensures IsDigit(NumText(n)[i])
      {
        assert NumText(n)[i] == t[i - 1];
      }
    }
  }

  lemma {:induction false} ComparisonTailIsPlain(op: Token, k: int)
    requires IsRelational(op)
    ensures LetterFree(ComparisonTail(op, k))
    ensures forall i :: 0 <= i < |ComparisonTail(op, k)| ==> IsAllowedChar(ComparisonTail(op, k)[i])
  {
    NumTextLetterFree(k);
    var pre := " " + RelationText(op) + " ";
    assert ComparisonTail(op, k) == pre + NumText(k);
    forall i | 0 <= i < |ComparisonTail(op, k)|
      ensures !IsAsciiLetter(ComparisonTail(op, k)[i]) && IsAllowedChar(ComparisonTail(op, k)[i])
    {
      if i >= |pre| {
        assert ComparisonTail(op, k)[i] == NumText(k)[i - |pre|];
      }
    }
  }

  /** `attributes.<name>` at the start of a condition is replaced by the attribute's number. */
  lemma {:induction false} AttributeRefReplaced(name: string, tail: string, st: GameState, v: int)
    requires name != [] && forall i :: 0 <= i < |name| ==> IsWordChar(name[i])
    requires AttributeNumber(st, name) == Some(v)
    requires LetterFree(tail) && (tail == [] || !IsWordChar(tail[0]))
    ensures ReplaceAll(AttributeRef, st, "attributes." + name + tail) == NumText(v) + tail
  {
    var expr := "attributes." + name + tail;
    var j := |"attributes."|;
    assert expr[..j] == "attributes.";
    assert expr[j..j + |name|] == name;
    WordRunExact(expr, j, |name|);
    assert MatchAt(AttributeRef, st, expr, 0) == Some((j + |name|, NumText(v)));
    forall i | j + |name| <= i < |expr|
      ensures MatchAt(AttributeRef, st, expr, i).None?
    {
      assert expr[i] == tail[i - j - |name|];
      NoMatchAt(AttributeRef, st, expr, i);
    }
    ReplaceFromUnchanged(AttributeRef, st, expr, j + |name|);
    assert expr[j + |name|..] == tail;
  }

  lemma {:induction false} PlainComparison(v: int, op: Token, k: int)
    requires IsRelational(op)
    ensures LetterFree(NumText(v) + ComparisonTail(op, k))
    ensures SafeText(NumText(v) + ComparisonTail(op, k))
  {
    var tail := ComparisonTail(op, k);
    var s1 := NumText(v) + tail;
    ComparisonTailIsPlain(op, k);
    NumTextLetterFree(v);
    forall i | 0 <= i < |s1|
      ensures !IsAsciiLetter(s1[i]) && IsAllowedChar(s1[i])
    {
      if i >= |NumText(v)| { assert s1[i] == tail[i - |NumText(v)|]; }
    }
  }

  /** The rewrites turn `attributes.<name> op k` into the comparison of two numbers. */
  lemma {:induction false} ProcessAttributeComparison(name: string, op: Token, k: int, st: GameState, v: int)
    requires IsRelational(op)
    requires name != [] && forall i :: 0 <= i < |name| ==> IsWordChar(name[i])
    requires AttributeNumber(st, name) == Some(v)
    ensures ProcessExpression("attributes." + name + ComparisonTail(op, k), st) == NumText(v) + ComparisonTail(op, k)
  {
    var tail := ComparisonTail(op, k);
    ComparisonTailIsPlain(op, k);
    AttributeRefReplaced(name, tail, st, v);
    var s1 := NumText(v) + tail;
    PlainComparison(v, op, k);
    ReplaceAllLetterFree(InventoryLength, st, s1);
    ReplaceAllLetterFree(InventoryIncludes, st, s1);
    ReplaceAllLetterFree(FlagRef, st, s1);
    ReplaceAllLetterFree(DayWord, st, s1);
    ReplaceAllLetterFree(TimeWord, st, s1);
    ReplaceAllLetterFree(LocationWord, st, s1);
  }

  /**
   * `attributes.<name> op k` is true exactly when the attribute's number
   * (0 when absent, and not inherited) stands in relation `op` to `k`.
   */
  lemma {:induction false} AttributeComparison(name: string, op: Token, k: int, st: GameState)
    requires IsRelational(op)
    requires name != [] && forall i :: 0 <= i < |name| ==> IsWordChar(name[i])
    requires AttributeNumber(st, name).Some?
    ensures EvaluateExpression("attributes." + name + ComparisonTail(op, k), st)
         == Holds(op, AttributeNumber(st, name).value, k)
  {
    var v := AttributeNumber(st, name).value;
    ProcessAttributeComparison(name, op, k, st, v);
    PlainComparison(v, op, k);
    ExecuteComparison(v, op, k);
  }
  /** Inherited names are made of word characters, so `(\w+)` takes each of them whole. */
  lemma InheritedWordName(name: string)
    requires name in InheritedNames
    ensures name != [] && forall i :: 0 <= i < |name| ==> IsWordChar(name[i])
  {
  }

  /** Two characters no rewrite can start a match at survive a rewrite in front of the text. */
  lemma KeepsStart(rw: Rewrite, st: GameState, s: string)
    requires InheritedStart(s)
    ensures var r := ReplaceAll(rw, st, s); |r| >= 2 && r[0] == s[0] && r[1] == s[1]
  {
    var lead := Lead(rw);
    assert |lead| >= 2 && (lead[0] != s[0] || lead[1] != s[1]);
    if |lead| <= |s| {
      assert s[..|lead|][0] == s[0] && s[..|lead|][1] == s[1];
    }
    assert MatchAt(rw, st, s, 0).None?;
    NoMatchAt(rw, st, s, 1);
    ScanStep(rw, st, s, 0);
    ScanStep(rw, st, s, 1);
    assert ReplaceFrom(rw, st, s, 0) == [s[0]] + ([s[1]] + ReplaceFrom(rw, st, s, 2));
  }

  /** The six rewrites after the attribute rewrite keep such a start. */
  lemma LaterRewritesKeepStart(s1: string, st: GameState)
    requires InheritedStart(s1)
    ensures InheritedStart(ReplaceAll(LocationWord, st, ReplaceAll(TimeWord, st, ReplaceAll(DayWord, st,
              ReplaceAll(FlagRef, st, ReplaceAll(InventoryIncludes, st, ReplaceAll(InventoryLength, st, s1)))))))
  {
    var s2 := ReplaceAll(InventoryLength, st, s1);
    KeepsStart(InventoryLength, st, s1);
    var s3 := ReplaceAll(InventoryIncludes, st, s2);
    KeepsStart(InventoryIncludes, st, s2);
    var s4 := ReplaceAll(FlagRef, st, s3);
    KeepsStart(FlagRef, st, s3);
    var s5 := ReplaceAll(DayWord, st, s4);
    KeepsStart(DayWord, st, s4);
    var s6 := ReplaceAll(TimeWord, st, s5);
    KeepsStart(TimeWord, st, s5);
    KeepsStart(LocationWord, st, s6);
  }

  /** The attribute rewrite puts an inherited member's text at the front. */
  lemma InheritedAttributeStart(name: string, tail: string, st: GameState)
    requires name in InheritedNames && name !in st.attributes
    requires tail == [] || !IsWordChar(tail[0])
    ensures InheritedStart(ReplaceAll(AttributeRef, st, "attributes." + name + tail))
  {
    var expr := "attributes." + name + tail;
    var j := |"attributes."|;
    InheritedWordName(name);
    assert expr[..j] == "attributes.";
    assert expr[j..j + |name|] == name;
    WordRunExact(expr, j, |name|);
    AttributeAtFront(expr, st, name);
  }

  /** An attribute reference at the front of the text is replaced by the attribute's text. */
  lemma AttributeAtFront(s: string, st: GameState, name: string)
    requires name != [] && |s| >= 11 + |name|
    requires s[..11] == "attributes." && s[11..11 + |name|] == name && WordRun(s, 11) == |name|
    ensures ReplaceAll(AttributeRef, st, s) == AttributeText(st, name) + ReplaceFrom(AttributeRef, st, s, 11 + |name|)
  {
    assert s[0..11] == s[..11];
    assert OccursAt(s, Lead(AttributeRef), 0);
    AttributeMatchAt(st, s, 0, |name|);
    ScanMatch(AttributeRef, st, s, 0, 11 + |name|, AttributeText(st, name));
  }

  /** Neither start is allowed by the allowlist. */
  lemma InheritedStartUnsafe(s: string)
    requires InheritedStart(s)
    ensures !SafeText(s)
  {
    assert !IsAllowedChar(s[0]);
  }

  /**
   * A condition that starts with `attributes.<name>`, for a name the state
   * lacks but `Object.prototype` has (`attributes.constructor >= 0`), never
   * triggers: the inherited member's text is outside the allowlist and no
   * later rewrite removes it.
   */
  lemma InheritedAttributeNeverTriggers(name: string, tail: string, st: GameState)
    requires name in InheritedNames && name !in st.attributes
    requires tail == [] || !IsWordChar(tail[0])
    ensures !EvaluateExpression("attributes." + name + tail, st)
  {
    var expr := "attributes." + name + tail;
    InheritedAttributeStart(name, tail, st);
    LaterRewritesKeepStart(ReplaceAll(AttributeRef, st, expr), st);
    InheritedStartUnsafe(ProcessExpression(expr, st));
  }
  /**
   * The location is inserted through a replacement string, so a `$`
   * pattern in it is expanded, taking text from around the match.  After
   * a prefix without letters the text after the match is empty.
   */
  lemma LocationAfterPrefix(pre: string, st: GameState)
    requires LetterFree(pre) && (pre == [] || !IsWordChar(pre[|pre| - 1]))
    ensures ReplaceAll(LocationWord, st, pre + "location")
         == pre + Substitution("'" + st.location + "'", "location", pre, [])
  {
    var s := pre + "location";
    var n := |pre|;
    assert s[n..] == "location" && s[..n] == pre;
    assert n == 0 || !IsWordChar(s[n - 1]) by {
      if n > 0 { assert s[n - 1] == pre[n - 1]; }
    }
    LocationLast(s, n, st);
  }

  /** The same, for a text that ends with the word */
  lemma LocationLast(s: string, n: nat, st: GameState)
    requires n + 8 == |s| && s[n..] == "location"
    requires LetterFree(s[..n]) && (n == 0 || !IsWordChar(s[n - 1]))
    ensures ReplaceAll(LocationWord, st, s) == s[..n] + Substitution("'" + st.location + "'", "location", s[..n], [])
  {
    assert s[n..n + 8] == s[n..];
    assert OccursAt(s, Lead(LocationWord), n);
    assert BoundaryBefore(s, n) && BoundaryAfter(s, n + 8);
    assert s[n + 8..] == [];
    assert ReplaceFrom(LocationWord, st, s, n + 8) == [];
    LetterFreeCopied(st, s, 0, n);
  }

  /** A match starts with a letter, so the location rewrite copies text without letters. */
  lemma {:induction false} LetterFreeCopied(st: GameState, s: string, i: nat, j: nat)
    requires i <= j <= |s| && LetterFree(s[..j])
    ensures ReplaceFrom(LocationWord, st, s, i) == s[i..j] + ReplaceFrom(LocationWord, st, s, j)
    decreases j - i
  {
    if i < j {
      assert s[i] == s[..j][i];
      NoMatchAt(LocationWord, st, s, i);
      LetterFreeCopied(st, s, i + 1, j);
      Sequences.DropOne(s[..j], i);
    }
  }

  /**
   * With the location `` $` ``, `1==1&&location` becomes `1==1&&'1==1&&'`:
   * the inserted text repeats what precedes the match.
   */
  lemma LocationBacktick(pre: string, st: GameState)
    requires st.location == "$`"
    requires LetterFree(pre) && (pre == [] || !IsWordChar(pre[|pre| - 1]))
    ensures ReplaceAll(LocationWord, st, pre + "location") == pre + "'" + pre + "'"
  {
    LocationAfterPrefix(pre, st);
    BacktickSubstitution(st.location, pre);
  }

  lemma BacktickSubstitution(location: string, before: string)
    requires location == "$`"
    ensures Substitution("'" + location + "'", "location", before, []) == "'" + before + "'"
  {
    var t := "'" + location + "'";
    assert t[0] == '\'' && t[1..] == "$`'";
    assert Substitution("'", "location", before, []) == "'";
    assert Substitution("$`'", "location", before, []) == before + "'";
  }

  /** Without a `$`, the location is inserted as it is, between single quotes. */
  lemma LocationQuoted(st: GameState)
    requires '$' !in st.location
    ensures ReplaceAll(LocationWord, st, "location") == "'" + st.location + "'"
  {
    var s := "location";
    assert s[0..8] == "location" && s[..0] == [] && s[8..] == [];
    assert OccursAt(s, Lead(LocationWord), 0);
    assert BoundaryBefore(s, 0) && BoundaryAfter(s, 8);
    assert '$' !in "'" + st.location + "'";
    assert ReplaceFrom(LocationWord, st, s, 8) == [];
  }

  // ------------------------------------------------ scanning, in general

  /** No match of the rewrite starts in `[i, j)`. */
  predicate NoMatchIn(rw: Rewrite, st: GameState, s: string, i: nat, j: nat)
    requires i <= j <= |s|
  {
    forall k :: i <= k < j ==> MatchAt(rw, st, s, k).None?
  }

  /** One step of the scan */
  lemma ScanStep(rw: Rewrite, st: GameState, s: string, i: nat)
    requires i < |s|
    ensures MatchAt(rw, st, s, i).None? ==> ReplaceFrom(rw, st, s, i) == [s[i]] + ReplaceFrom(rw, st, s, i + 1)
    ensures MatchAt(rw, st, s, i).Some? ==>
      ReplaceFrom(rw, st, s, i) == MatchAt(rw, st, s, i).value.1 + ReplaceFrom(rw, st, s, i + MatchAt(rw, st, s, i).value.0)
  {
    MatcherFacts(rw, st, s);
    var m := MatcherOf(rw, st, s);
    if m(i).None? {
      Scanning.ScanCopied(m, s, i);
    } else {
      Scanning.ScanMatched(m, s, i, m(i).value.0, m(i).value.1);
    }
  }

  lemma SliceStep(s: string, i: nat, j: nat, rest: string)
    requires i < j <= |s|
    ensures s[i..j] + rest == [s[i]] + (s[i + 1..j] + rest)
  {
    assert s[i..j] == [s[i]] + s[i + 1..j];
  }

  /** Where no match starts, the scan copies the text. */
  lemma {:induction false} CopiedWhileNoMatch(rw: Rewrite, st: GameState, s: string, i: nat, j: nat)
    requires i <= j <= |s| && NoMatchIn(rw, st, s, i, j)
    ensures ReplaceFrom(rw, st, s, i) == s[i..j] + ReplaceFrom(rw, st, s, j)
    decreases j - i
  {
    if i < j {
      assert MatchAt(rw, st, s, i).None?;
      ScanStep(rw, st, s, i);
      CopiedWhileNoMatch(rw, st, s, i + 1, j);
      SliceStep(s, i, j, ReplaceFrom(rw, st, s, j));
    }
  }

  lemma LetterFreeNoMatch(rw: Rewrite, st: GameState, s: string, i: nat, j: nat)
    requires i <= j <= |s|
    requires forall k :: i <= k < j ==> !IsAsciiLetter(s[k])
    ensures NoMatchIn(rw, st, s, i, j)
  {
    forall k | i <= k < j
      ensures MatchAt(rw, st, s, k).None?
    {
      NoMatchAt(rw, st, s, k);
    }
  }

  /** A text with exactly one match has that match replaced and nothing else. */
  lemma {:induction false} ReplacedOnce(rw: Rewrite, st: GameState, s: string, i: nat, len: nat, repl: string)
    requires i + len <= |s|
    requires NoMatchIn(rw, st, s, 0, i) && MatchAt(rw, st, s, i) == Some((len, repl))
    requires NoMatchIn(rw, st, s, i + len, |s|)
    ensures ReplaceAll(rw, st, s) == s[..i] + repl + s[i + len..]
  {
    MatcherFacts(rw, st, s);
    Scanning.ScanOnce(MatcherOf(rw, st, s), s, i, len, repl);
  }

  lemma ScanMatch(rw: Rewrite, st: GameState, s: string, i: nat, len: nat, repl: string)
    requires i <= |s| && MatchAt(rw, st, s, i) == Some((len, repl))
    ensures ReplaceFrom(rw, st, s, i) == repl + ReplaceFrom(rw, st, s, i + len)
  {
    MatcherFacts(rw, st, s);
    Scanning.ScanMatched(MatcherOf(rw, st, s), s, i, len, repl);
  }

  lemma ScanEnd(rw: Rewrite, st: GameState, s: string)
    ensures ReplaceFrom(rw, st, s, |s|) == []
  {
    MatcherFacts(rw, st, s);
    Scanning.ScanEnd(MatcherOf(rw, st, s), s);
  }

  /** A match that is the whole middle piece, between text without letters, is the only change. */
  lemma {:induction false} ReplacedBetween(rw: Rewrite, st: GameState, pre: string, m: string, tail: string, repl: string)
    requires LetterFree(pre) && LetterFree(tail)
    requires MatchAt(rw, st, pre + m + tail, |pre|) == Some((|m|, repl))
    ensures ReplaceAll(rw, st, pre + m + tail) == pre + repl + tail
  {
    var s := pre + m + tail;
    forall k | 0 <= k < |pre|
      ensures !IsAsciiLetter(s[k])
    {
      assert s[k] == pre[k];
    }
    LetterFreeNoMatch(rw, st, s, 0, |pre|);
    ReplacedAfter(rw, st, pre, m, tail, repl);
  }

  /** A match that is the whole middle piece, after text where no match starts and before text without letters, is the only change. */
  lemma {:induction false} ReplacedAfter(rw: Rewrite, st: GameState, pre: string, m: string, tail: string, repl: string)
    requires NoMatchIn(rw, st, pre + m + tail, 0, |pre|) && LetterFree(tail)
    requires MatchAt(rw, st, pre + m + tail, |pre|) == Some((|m|, repl))
    ensures ReplaceAll(rw, st, pre + m + tail) == pre + repl + tail
  {
    var s := pre + m + tail;
    forall k | |pre| + |m| <= k < |s|
      ensures !IsAsciiLetter(s[k])
    {
      assert s[k] == tail[k - |pre| - |m|];
    }
    LetterFreeNoMatch(rw, st, s, |pre| + |m|, |s|);
    ReplacedOnce(rw, st, s, |pre|, |m|, repl);
    assert s[..|pre|] == pre && s[|pre| + |m|..] == tail;
  }

  /** A text without the first letter of a rewrite's pattern comes through that rewrite unchanged. */
  lemma ReplaceAllWithoutLead(rw: Rewrite, st: GameState, s: string)
    requires Lead(rw)[0] !in s
    ensures ReplaceAll(rw, st, s) == s
  {
    forall j | 0 <= j < |s|
      ensures MatchAt(rw, st, s, j).None?
    {
      NoMatchAt(rw, st, s, j);
    }
    ReplaceFromUnchanged(rw, st, s, 0);
  }

  lemma LetterFreeLacks(s: string, c: char)
    requires LetterFree(s) && IsAsciiLetter(c)
    ensures c !in s
  {
  }

  lemma LetterFreeJoin(a: string, b: string)
    requires LetterFree(a) && LetterFree(b)
    ensures LetterFree(a + b)
  {
    forall i | 0 <= i < |a + b|
      ensures !IsAsciiLetter((a + b)[i])
    {
      if i >= |a| { assert (a + b)[i] == b[i - |a|]; }
    }
  }

  // ------------------------------------------------- what each rewrite gives

  /** `inventory.length` between text without letters becomes the number of items. */
  lemma InventoryLengthReplaced(pre: string, tail: string, st: GameState)
    requires LetterFree(pre) && LetterFree(tail)
    ensures ReplaceAll(InventoryLength, st, pre + "inventory.length" + tail) == pre + NumText(|st.inventory|) + tail
  {
    var s := pre + "inventory.length" + tail;
    assert s[|pre|..|pre| + 16] == "inventory.length";
    assert MatchAt(InventoryLength, st, s, |pre|) == Some((16, NumText(|st.inventory|)));
    ReplacedBetween(InventoryLength, st, pre, "inventory.length", tail, NumText(|st.inventory|));
  }

  /** An item with neither quotes nor line breaks in it */
  predicate PlainItem(item: string) {
    item != [] && forall i :: 0 <= i < |item| ==> !IsQuote(item[i]) && !IsLineTerminator(item[i])
  }

  /** The lazy item ends at the first quote that a `)` follows. */
  lemma {:induction false} LazyItemExact(s: string, j: nat, k: nat, n: nat)
    requires 1 <= k <= n && j + n + 2 <= |s|
    requires forall x :: j + k <= x < j + n ==> !IsQuote(s[x]) && !IsLineTerminator(s[x])
    requires IsQuote(s[j + n]) && s[j + n + 1] == ')'
    ensures LazyItem(s, j, k) == Some(n)
    decreases n - k
  {
    if k < n {
      LazyItemExact(s, j, k + 1, n);
    }
  }

  /** The pieces of `inventory.includes('item')` */
  function IncludesText(open: char, item: string, close: char): string {
    "inventory.includes(" + [open] + item + [close] + ")"
  }

  /** What the item check matches at `i`, in terms of the text there */
  lemma IncludesMatchAt(st: GameState, s: string, i: nat, n: nat)
    requires OccursAt(s, Lead(InventoryIncludes), i) && i + 21 < |s|
    requires IsQuote(s[i + 19]) && !IsLineTerminator(s[i + 20])
    requires LazyItem(s, i + 20, 1) == Some(n)
    ensures MatchAt(InventoryIncludes, st, s, i) == Some((22 + n, BoolText(s[i + 20..i + 20 + n] in st.inventory)))
  {
  }

  lemma IncludesTextParts(open: char, item: string, close: char)
    ensures var m := IncludesText(open, item, close);
      && |m| == 22 + |item| && m[..19] == Lead(InventoryIncludes) && m[19] == open
      && m[20..20 + |item|] == item && m[20 + |item|] == close && m[21 + |item|] == ')'
  {
    var m := IncludesText(open, item, close);
    assert m == Lead(InventoryIncludes) + [open] + item + [close] + ")";
  }

  lemma MiddleSlice(pre: string, m: string, tail: string, a: nat, b: nat)
    requires a <= b <= |m|
    ensures (pre + m + tail)[|pre| + a..|pre| + b] == m[a..b]
  {
    assert (pre + m + tail)[|pre|..|pre| + |m|] == m;
    assert (pre + m + tail)[|pre| + a..|pre| + b] == (pre + m + tail)[|pre|..|pre| + |m|][a..b];
  }

  lemma SliceChars(s: string, a: nat, t: string)
    requires a + |t| <= |s| && s[a..a + |t|] == t
    ensures forall x :: a <= x < a + |t| ==> s[x] == t[x - a]
  {
    forall x | a <= x < a + |t|
      ensures s[x] == t[x - a]
    {
      assert s[x] == s[a..a + |t|][x - a];
    }
  }

  lemma IncludesMatch(pre: string, open: char, item: string, close: char, tail: string, st: GameState)
    requires IsQuote(open) && IsQuote(close) && PlainItem(item)
    ensures var m := IncludesText(open, item, close);
      MatchAt(InventoryIncludes, st, pre + m + tail, |pre|) == Some((|m|, BoolText(item in st.inventory)))
  {
    var m := IncludesText(open, item, close);
    var s := pre + m + tail;
    var i, n := |pre|, |item|;
    IncludesTextParts(open, item, close);
    MiddleSlice(pre, m, tail, 0, 19);
    assert m[0..19] == m[..19];
    MiddleSlice(pre, m, tail, 20, 20 + n);
    SliceChars(s, i + 20, item);
    assert s[i + 19] == m[19] && s[i + 20 + n] == m[20 + n] && s[i + 21 + n] == m[21 + n];
    assert !IsLineTerminator(s[i + 20]) by {
      assert s[i + 20] == item[0];
    }
    LazyItemExact(s, i + 20, 1, n);
    IncludesMatchAt(st, s, i, n);
  }

  /**
   * `inventory.includes('item')`, with either quote at either end,
   * between text without letters becomes `true` or `false`, by whether
   * the inventory holds the item.
   */
  lemma InventoryIncludesReplaced(pre: string, open: char, item: string, close: char, tail: string, st: GameState)
    requires LetterFree(pre) && LetterFree(tail)
    requires IsQuote(open) && IsQuote(close) && PlainItem(item)
    ensures ReplaceAll(InventoryIncludes, st, pre + IncludesText(open, item, close) + tail)
         == pre + BoolText(item in st.inventory) + tail
  {
    IncludesMatch(pre, open, item, close, tail, st);
    ReplacedBetween(InventoryIncludes, st, pre, IncludesText(open, item, close), tail, BoolText(item in st.inventory));
  }

  /** A run of word characters */
  predicate IsWordText(w: string) {
    w != [] && forall i :: 0 <= i < |w| ==> IsWordChar(w[i])
  }

  /**
   * `flags.<name>` between text without letters becomes the flag's value,
   * and `false` for a flag the state does not have (an inherited member
   * of `Object.prototype` gives its own text instead).
   */
  lemma FlagRefReplaced(pre: string, name: string, tail: string, st: GameState)
    requires LetterFree(pre) && IsWordText(name)
    requires LetterFree(tail) && (tail == [] || !IsWordChar(tail[0]))
    ensures ReplaceAll(FlagRef, st, pre + ("flags." + name) + tail) == pre + FlagText(st, name) + tail
    ensures name in st.flags ==> FlagText(st, name) == BoolText(st.flags[name])
    ensures name !in st.flags && name !in InheritedNames ==> FlagText(st, name) == "false"
  {
    var m := "flags." + name;
    FlagMatch(pre, name, tail, st);
    ReplacedBetween(FlagRef, st, pre, m, tail, FlagText(st, name));
  }

  /** What the flag rewrite matches at `i`, in terms of the text there */
  lemma FlagMatchAt(st: GameState, s: string, i: nat, n: nat)
    requires OccursAt(s, Lead(FlagRef), i) && WordRun(s, i + 6) == n && n > 0
    ensures MatchAt(FlagRef, st, s, i) == Some((6 + n, FlagText(st, s[i + 6..i + 6 + n])))
  {
    assert |Lead(FlagRef)| == 6;
  }

  lemma FlagMatch(pre: string, name: string, tail: string, st: GameState)
    requires IsWordText(name) && (tail == [] || !IsWordChar(tail[0]))
    ensures MatchAt(FlagRef, st, pre + ("flags." + name) + tail, |pre|) == Some((6 + |name|, FlagText(st, name)))
  {
    var m := "flags." + name;
    var s := pre + m + tail;
    var i, n := |pre|, |name|;
    MiddleSlice(pre, m, tail, 0, 6);
    assert m[0..6] == Lead(FlagRef);
    MiddleSlice(pre, m, tail, 6, 6 + n);
    assert m[6..6 + n] == name;
    SliceChars(s, i + 6, name);
    assert i + 6 + n < |s| ==> s[i + 6 + n] == tail[0];
    WordRunExact(s, i + 6, n);
    FlagMatchAt(st, s, i, n);
  }

  /** The rewrite of `day` or `time` */
  predicate IsNumberRewrite(rw: Rewrite) {
    rw == DayWord || rw == TimeWord
  }

  /** The number the rewrite of `day` or `time` puts in */
  function NumberOf(rw: Rewrite, st: GameState): int
    requires IsNumberRewrite(rw)
  {
    if rw == DayWord then st.day else st.time
  }

  /**
   * `day` or `time` as a word of its own, between text without letters,
   * becomes the state's day or time.
   */
  lemma NumberWordReplaced(rw: Rewrite, pre: string, tail: string, st: GameState)
    requires IsNumberRewrite(rw)
    requires LetterFree(pre) && (pre == [] || !IsWordChar(pre[|pre| - 1]))
    requires LetterFree(tail) && (tail == [] || !IsWordChar(tail[0]))
    ensures ReplaceAll(rw, st, pre + Lead(rw) + tail) == pre + NumText(NumberOf(rw, st)) + tail
  {
    var s := pre + Lead(rw) + tail;
    var i := |pre|;
    var j := i + |Lead(rw)|;
    var n := NumberOf(rw, st);
    assert s[i..j] == Lead(rw);
    assert BoundaryBefore(s, i) by {
      if i > 0 { assert s[i - 1] == pre[i - 1]; }
    }
    assert BoundaryAfter(s, j) by {
      if j < |s| { assert s[j] == tail[0]; }
    }
    assert MatchAt(rw, st, s, i) == Some((|Lead(rw)|, NumText(n)));
    ReplacedBetween(rw, st, pre, Lead(rw), tail, NumText(n));
  }

  /** An attribute reference whose name a character outside `\w` ends is one match. */
  lemma AttributeMatch(st: GameState, s: string, i: nat, name: string)
    requires IsWordText(name) && i + 11 + |name| <= |s|
    requires s[i..i + 11] == "attributes." && s[i + 11..i + 11 + |name|] == name
    requires i + 11 + |name| == |s| || !IsWordChar(s[i + 11 + |name|])
    ensures MatchAt(AttributeRef, st, s, i) == Some((11 + |name|, AttributeText(st, name)))
  {
    forall x | i + 11 <= x < i + 11 + |name|
      ensures IsWordChar(s[x])
    {
      assert s[x] == s[i + 11..i + 11 + |name|][x - i - 11];
    }
    WordRunExact(s, i + 11, |name|);
    assert OccursAt(s, Lead(AttributeRef), i);
    AttributeMatchAt(st, s, i, |name|);
  }

  /** A match of the attribute rewrite is its pattern's text followed by the run of word characters. */
  lemma AttributeMatchShape(st: GameState, s: string, j: nat)
    requires j <= |s| && MatchAt(AttributeRef, st, s, j).Some?
    ensures j + 11 <= |s| && s[j..j + 11] == "attributes."
    ensures MatchAt(AttributeRef, st, s, j).value.0 == 11 + WordRun(s, j + 11)
  {
    assert |Lead(AttributeRef)| == 11;
  }

  lemma AttributeMatchAt(st: GameState, s: string, i: nat, n: nat)
    requires OccursAt(s, Lead(AttributeRef), i) && WordRun(s, i + 11) == n && n > 0
    ensures MatchAt(AttributeRef, st, s, i) == Some((11 + n, AttributeText(st, s[i + 11..i + 11 + n])))
  {
  }

  /** What any attribute match starts with and takes */
  lemma AttributeMatchFacts(st: GameState, s: string, j: nat)
    requires j <= |s|
    ensures MatchAt(AttributeRef, st, s, j).Some? ==>
      && j + 11 <= |s| && s[j] == 'a' && s[j + 1] == 't' && s[j + 10] == '.'
      && (forall x :: j <= x < j + 11 ==> s[x] in "attributes.")
      && (forall x :: j + 11 <= x < j + MatchAt(AttributeRef, st, s, j).value.0 ==> IsWordChar(s[x]))
  {
    if MatchAt(AttributeRef, st, s, j).Some? {
      AttributeMatchShape(st, s, j);
      var t := s[j..j + 11];
      assert s[j] == t[0] && s[j + 1] == t[1] && s[j + 10] == t[10];
      forall x | j <= x < j + 11
        ensures s[x] in "attributes."
      {
        assert s[x] == t[x - j];
      }
    }
  }

  // --------------------------------------------- conditions that never fire

  /** A letter anywhere fails the allowlist. */
  lemma LetterAnywhereUnsafe(s: string, p: nat)
    requires p < |s| && IsAsciiLetter(s[p])
    ensures !SafeText(s)
  {
    assert !IsAllowedChar(s[p]);
  }

  /** The letters of `inventory.length`, `day`, `time` and `location`, in that order */
  const LeadLetters: string := "inventory.length" + "day" + "time" + "location"

  /** Every character of each of four pieces is in their join. */
  lemma InJoin(a: string, b: string, c: string, d: string, x: nat)
    ensures x < |a| ==> a[x] in a + b + c + d
    ensures x < |b| ==> b[x] in a + b + c + d
    ensures x < |c| ==> c[x] in a + b + c + d
    ensures x < |d| ==> d[x] in a + b + c + d
  {
    var s := a + b + c + d;
    if x < |a| { assert s[x] == a[x]; }
    if x < |b| { assert s[|a| + x] == b[x]; }
    if x < |c| { assert s[|a| + |b| + x] == c[x]; }
    if x < |d| { assert s[|a| + |b| + |c| + x] == d[x]; }
  }

  /**
   * A letter outside `LeadLetters`: no rewrite that replaces exactly its
   * pattern's text (the item count, day, time and location) can take it.
   */
  predicate Stray(c: char) {
    IsAsciiLetter(c) && c !in LeadLetters
  }

  predicate HasStray(s: string) {
    exists k :: 0 <= k < |s| && Stray(s[k])
  }

  lemma StrayAt(s: string, k: nat)
    requires k < |s| && Stray(s[k])
    ensures HasStray(s)
  {
  }

  lemma StrayInFront(x: string, y: string)
    requires HasStray(y)
    ensures HasStray(x + y)
  {
    var k :| 0 <= k < |y| && Stray(y[k]);
    assert (x + y)[|x| + k] == y[k];
  }

  lemma StrayBehind(x: string, y: string)
    requires HasStray(x)
    ensures HasStray(x + y)
  {
    var k :| 0 <= k < |x| && Stray(x[k]);
    assert (x + y)[k] == x[k];
  }

  /** `true` has its `u`, `false` its `f`. */
  lemma BoolTextStray(b: bool)
    ensures HasStray(BoolText(b))
  {
    if b { StrayAt("true", 2); } else { StrayAt("false", 0); }
  }

  /** `function …` has its `f`, `[object Object]` its `b`. */
  lemma FlagTextStray(st: GameState, name: string)
    ensures HasStray(FlagText(st, name))
  {
    if name in st.flags {
      BoolTextStray(st.flags[name]);
    } else if name in InheritedNames {
      var t := InheritedText(name);
      if t[0] == 'f' { StrayAt(t, 0); } else { StrayAt(t, 2); }
    } else {
      BoolTextStray(false);
    }
  }

  /** The replacements of the item check and of a flag always hold a stray letter. */
  lemma ReplacementStray(rw: Rewrite, st: GameState, s: string, i: nat)
    requires i <= |s| && (rw == InventoryIncludes || rw == FlagRef) && MatchAt(rw, st, s, i).Some?
    ensures HasStray(MatchAt(rw, st, s, i).value.1)
  {
    if rw == InventoryIncludes {
      IncludesReplacementStray(st, s, i);
    } else {
      FlagReplacementStray(st, s, i);
    }
  }

  lemma IncludesReplacementStray(st: GameState, s: string, i: nat)
    requires i <= |s| && MatchAt(InventoryIncludes, st, s, i).Some?
    ensures HasStray(MatchAt(InventoryIncludes, st, s, i).value.1)
  {
    var j := i + |Lead(InventoryIncludes)|;
    var k := LazyItem(s, j + 1, 1).value;
    BoolTextStray(s[j + 1..j + 1 + k] in st.inventory);
  }

  lemma FlagReplacementStray(st: GameState, s: string, i: nat)
    requires i <= |s| && MatchAt(FlagRef, st, s, i).Some?
    ensures HasStray(MatchAt(FlagRef, st, s, i).value.1)
  {
    FlagMatchShape(st, s, i);
    FlagTextStray(st, s[i + 6..i + 6 + WordRun(s, i + 6)]);
  }

  /** What a match of the flag rewrite replaces and with what */
  lemma FlagMatchShape(st: GameState, s: string, i: nat)
    requires i <= |s| && MatchAt(FlagRef, st, s, i).Some?
    ensures i + 6 + WordRun(s, i + 6) <= |s|
    ensures MatchAt(FlagRef, st, s, i).value.1 == FlagText(st, s[i + 6..i + 6 + WordRun(s, i + 6)])
  {
    assert |Lead(FlagRef)| == 6;
  }

  /** Where `Lead(rw)` sits in `LeadLetters`, for the rewrites that replace exactly their pattern's text */
  lemma LeadInLetters(rw: Rewrite, x: nat)
    requires rw == InventoryLength || rw == DayWord || rw == TimeWord || rw == LocationWord
    requires x < |Lead(rw)|
    ensures Lead(rw)[x] in LeadLetters
  {
    InJoin("inventory.length", "day", "time", "location", x);
    if rw == InventoryLength {
      assert Lead(rw) == "inventory.length";
    } else if rw == DayWord {
      assert Lead(rw) == "day";
    } else if rw == TimeWord {
      assert Lead(rw) == "time";
    } else {
      assert Lead(rw) == "location";
    }
  }

  /** A match of such a rewrite takes its pattern's text and nothing more. */
  lemma FixedMatchNoStray(rw: Rewrite, st: GameState, s: string, i: nat, p: nat)
    requires rw == InventoryLength || rw == DayWord || rw == TimeWord || rw == LocationWord
    requires i <= p < |s| && MatchAt(rw, st, s, i).Some? && p < i + MatchAt(rw, st, s, i).value.0
    ensures !Stray(s[p])
  {
    assert MatchAt(rw, st, s, i).value.0 == |Lead(rw)|;
    assert s[p] == s[i..i + |Lead(rw)|][p - i];
    LeadInLetters(rw, p - i);
  }

  /** A match over a stray letter replaces it with text holding one. */
  lemma CoveringMatch(rw: Rewrite, st: GameState, s: string, i: nat, p: nat)
    requires rw != AttributeRef
    requires i <= p < |s| && MatchAt(rw, st, s, i).Some? && p < i + MatchAt(rw, st, s, i).value.0
    ensures HasStray(MatchAt(rw, st, s, i).value.1) || !Stray(s[p])
  {
    if rw == InventoryIncludes || rw == FlagRef {
      ReplacementStray(rw, st, s, i);
    } else {
      FixedMatchNoStray(rw, st, s, i, p);
    }
  }

  /**
   * Every rewrite after the attribute rewrite keeps a stray letter: one
   * that no match takes stays, and the replacement of a match that takes
   * one holds one.
   */
  lemma StrayKept(rw: Rewrite, st: GameState, s: string)
    requires rw != AttributeRef && HasStray(s)
    ensures HasStray(ReplaceAll(rw, st, s))
  {
    var p :| 0 <= p < |s| && Stray(s[p]);
    var m := MatcherOf(rw, st, s);
    MatcherFacts(rw, st, s);
    forall j: nat | j <= p && m(j).Some? && p < j + m(j).value.0
      ensures Scanning.Has(Stray, m(j).value.1)
    {
      CoveringMatch(rw, st, s, j, p);
      var k :| 0 <= k < |m(j).value.1| && Stray(m(j).value.1[k]);
    }
    Scanning.ScanKeeps(Stray, m, s, 0, p);
    var r := ReplaceAll(rw, st, s);
    var k :| 0 <= k < |r| && Stray(r[k]);
    StrayAt(r, k);
  }

  lemma LaterRewritesKeepStray(s1: string, st: GameState)
    requires HasStray(s1)
    ensures HasStray(ReplaceAll(LocationWord, st, ReplaceAll(TimeWord, st, ReplaceAll(DayWord, st,
              ReplaceAll(FlagRef, st, ReplaceAll(InventoryIncludes, st, ReplaceAll(InventoryLength, st, s1)))))))
  {
    var s2 := ReplaceAll(InventoryLength, st, s1);
    StrayKept(InventoryLength, st, s1);
    var s3 := ReplaceAll(InventoryIncludes, st, s2);
    StrayKept(InventoryIncludes, st, s2);
    var s4 := ReplaceAll(FlagRef, st, s3);
    StrayKept(FlagRef, st, s3);
    var s5 := ReplaceAll(DayWord, st, s4);
    StrayKept(DayWord, st, s4);
    var s6 := ReplaceAll(TimeWord, st, s5);
    StrayKept(TimeWord, st, s5);
    StrayKept(LocationWord, st, s6);
  }

  /**
   * A condition in which a stray letter is left after the attribute
   * rewrite never triggers: the later rewrites keep one, and the
   * allowlist rejects any letter.
   */
  lemma StrayNeverTriggers(expr: string, st: GameState)
    requires HasStray(ReplaceAll(AttributeRef, st, expr))
    ensures !EvaluateExpression(expr, st)
  {
    var r := ProcessExpression(expr, st);
    LaterRewritesKeepStray(ReplaceAll(AttributeRef, st, expr), st);
    var p :| 0 <= p < |r| && Stray(r[p]);
    LetterAnywhereUnsafe(r, p);
  }

  /** A character that neither continues a word nor is a `.` */
  predicate NotJoining(c: char) {
    !IsWordChar(c) && c != '.'
  }

  /** `s[lo..n]` is a word standing on its own: neither a word character nor a `.` on either side */
  predicate StandaloneWord(s: string, lo: nat, n: nat) {
    && lo < n <= |s|
    && (lo == 0 || NotJoining(s[lo - 1]))
    && (forall x :: lo <= x < n ==> IsWordChar(s[x]))
    && (n == |s| || NotJoining(s[n]))
  }

  /** No match starting at or before `p` reaches over `p`. */
  predicate Uncovered(rw: Rewrite, st: GameState, s: string, p: nat)
    requires p < |s|
  {
    forall j :: 0 <= j <= p ==> MatchAt(rw, st, s, j).None? || j + MatchAt(rw, st, s, j).value.0 <= p
  }

  /** A character no match reaches over comes through the rewrite. */
  lemma UncoveredKept(rw: Rewrite, st: GameState, s: string, p: nat)
    requires p < |s| && Uncovered(rw, st, s, p)
    ensures s[p] in ReplaceAll(rw, st, s)
  {
    var m := MatcherOf(rw, st, s);
    MatcherFacts(rw, st, s);
    var same := (c: char) => c == s[p];
    assert forall j: nat :: j <= p && m(j).Some? ==> j + m(j).value.0 <= p;
    Scanning.ScanKeeps(same, m, s, 0, p);
    var r := ReplaceAll(rw, st, s);
    var k :| 0 <= k < |r| && same(r[k]);
    assert r[k] == s[p];
  }

  /** A stray letter that no attribute reference reaches over makes the condition fail. */
  lemma UncoveredStrayNeverTriggers(expr: string, st: GameState, p: nat)
    requires p < |expr| && Stray(expr[p]) && Uncovered(AttributeRef, st, expr, p)
    ensures !EvaluateExpression(expr, st)
  {
    var s1 := ReplaceAll(AttributeRef, st, expr);
    UncoveredKept(AttributeRef, st, expr, p);
    var k :| 0 <= k < |s1| && s1[k] == expr[p];
    StrayAt(s1, k);
    StrayNeverTriggers(expr, st);
  }

  lemma NotInText(t: string, c: char)
    requires c !in t
    ensures forall x :: 0 <= x < |t| ==> t[x] != c
  {
  }

  /** No attribute reference starting at or before the `u` of `includes` reaches over it. */
  lemma IncludesNotCovered(st: GameState, s: string, q: nat, j: nat)
    requires OccursAt(s, "inventory.includes", q) && j <= q + 14
    ensures MatchAt(AttributeRef, st, s, j).None? || j + MatchAt(AttributeRef, st, s, j).value.0 <= q + 14
  {
    var t := "inventory.includes";
    SliceChars(s, q, t);
    NotInText(t, 'a');
    assert s[q] == 'i' && s[q + 9] == '.';
    AttributeMatchFacts(st, s, j);
  }

  lemma IncludesUncovered(st: GameState, s: string, q: nat)
    requires OccursAt(s, "inventory.includes", q)
    ensures Uncovered(AttributeRef, st, s, q + 14)
  {
    forall j | 0 <= j <= q + 14
      ensures MatchAt(AttributeRef, st, s, j).None? || j + MatchAt(AttributeRef, st, s, j).value.0 <= q + 14
    {
      IncludesNotCovered(st, s, q, j);
    }
  }

  /**
   * A condition that uses `inventory.includes` never triggers, wherever
   * it stands and whatever the item: the `u` of `includes` comes through
   * the attribute rewrite (no attribute reference can reach over it),
   * and the item check, where its pattern matches, replaces it by `true`
   * or `false`.
   */
  lemma IncludesNeverTriggers(expr: string, st: GameState, q: nat)
    requires OccursAt(expr, "inventory.includes", q)
    ensures !EvaluateExpression(expr, st)
  {
    assert expr[q + 14] == expr[q..q + 18][14];
    IncludesUncovered(st, expr, q);
    UncoveredStrayNeverTriggers(expr, st, q + 14);
  }

  lemma FlagUncovered(st: GameState, s: string, q: nat)
    requires OccursAt(s, "flags.", q) && (q == 0 || NotJoining(s[q - 1]))
    ensures Uncovered(AttributeRef, st, s, q)
  {
    assert s[q] == s[q..q + 6][0];
    assert 'f' !in "attributes.";
    forall j | 0 <= j <= q
      ensures MatchAt(AttributeRef, st, s, j).None? || j + MatchAt(AttributeRef, st, s, j).value.0 <= q
    {
      AttributeMatchFacts(st, s, j);
    }
  }

  /**
   * A condition that uses a flag, `flags.<name>` standing on its own,
   * never triggers: the flag rewrite puts `true`, `false` or an inherited
   * member's text in its place.
   */
  lemma FlagNeverTriggers(expr: string, st: GameState, q: nat)
    requires OccursAt(expr, "flags.", q) && (q == 0 || NotJoining(expr[q - 1]))
    ensures !EvaluateExpression(expr, st)
  {
    assert expr[q] == expr[q..q + 6][0];
    FlagUncovered(st, expr, q);
    UncoveredStrayNeverTriggers(expr, st, q);
  }

  /** No attribute reference reaches into a word standing on its own. */
  lemma WordNotCovered(st: GameState, s: string, lo: nat, n: nat, p: nat, j: nat)
    requires StandaloneWord(s, lo, n) && lo <= p < n && j <= p
    ensures MatchAt(AttributeRef, st, s, j).None? || j + MatchAt(AttributeRef, st, s, j).value.0 <= p
  {
    if lo > 0 {
      NotJoiningOutside(s[lo - 1]);
    }
    if n < |s| {
      NotJoiningOutside(s[n]);
    }
    AttributeMatchFacts(st, s, j);
  }

  lemma NotJoiningOutside(c: char)
    requires NotJoining(c)
    ensures c !in "attributes."
  {
  }

  /**
   * A condition holding, anywhere, a word of its own with a letter
   * outside `LeadLetters` (the `s` of `sanity`, say) never triggers,
   * whatever stands around the word: `day >= 7 && sanity > 5` is false.
   */
  lemma StrayWordNeverTriggers(expr: string, st: GameState, lo: nat, n: nat, p: nat)
    requires StandaloneWord(expr, lo, n) && lo <= p < n && Stray(expr[p])
    ensures !EvaluateExpression(expr, st)
  {
    forall j | 0 <= j <= p
      ensures MatchAt(AttributeRef, st, expr, j).None? || j + MatchAt(AttributeRef, st, expr, j).value.0 <= p
    {
      WordNotCovered(st, expr, lo, n, p, j);
    }
    UncoveredStrayNeverTriggers(expr, st, p);
  }

  /** `s` is `pre`, then the word `w`, then nothing or a character that does not join it */
  predicate BareWordShape(s: string, pre: string, w: string) {
    var n := |pre| + |w|;
    n <= |s| && s[..|pre|] == pre && s[|pre|..n] == w && (n == |s| || NotJoining(s[n]))
  }

  /** The words that the three word rewrites replace */
  predicate IsStateWord(w: string) {
    w == "day" || w == "time" || w == "location"
  }

  /** The rewrites of a whole word: `\bday\b`, `\btime\b` and `\blocation\b` */
  predicate IsWordRewrite(rw: Rewrite) {
    rw == DayWord || rw == TimeWord || rw == LocationWord
  }

  /** What a pattern with a `.` needs: its letters, then the `.` */
  lemma DottedLead(rw: Rewrite) returns (d: nat)
    requires rw == AttributeRef || rw == InventoryLength || rw == InventoryIncludes || rw == FlagRef
    ensures d < |Lead(rw)| && Lead(rw)[d] == '.'
    ensures forall x :: 0 <= x < d ==> IsAsciiLetter(Lead(rw)[x])
  {
    d := if rw == AttributeRef then 10 else if rw == FlagRef then 5 else 9;
  }

  /** The word patterns are letters only. */
  lemma WordLeadLetters(rw: Rewrite)
    requires IsWordRewrite(rw)
    ensures forall x :: 0 <= x < |Lead(rw)| ==> IsAsciiLetter(Lead(rw)[x])
  {
  }

  /** A pattern does not occur where one of its characters differs. */
  lemma DifferAt(s: string, t: string, k: nat, x: nat)
    requires x < |t| && k + x < |s| && s[k + x] != t[x]
    ensures !OccursAt(s, t, k)
  {
    if k + |t| <= |s| {
      assert s[k..k + |t|][x] == s[k + x];
    }
  }

  /**
   * No pattern with a `.` starts inside a word that a character other
   * than `.` ends: the `.` would have to lie in the word or be that
   * character.
   */
  lemma DottedNoMatchInWord(rw: Rewrite, s: string, k: nat, n: nat)
    requires rw == AttributeRef || rw == InventoryLength || rw == InventoryIncludes || rw == FlagRef
    requires k < n <= |s| && (forall x :: k <= x < n ==> IsWordChar(s[x])) && (n == |s| || NotJoining(s[n]))
    ensures !OccursAt(s, Lead(rw), k)
  {
    var d := DottedLead(rw);
    if k + d < n {
      DifferAt(s, Lead(rw), k, d);
    } else if n < |s| {
      DifferAt(s, Lead(rw), k, n - k);
    }
  }

  /**
   * A word rewrite matches inside a bounded word only at its start, and
   * only when the word is its pattern.
   */
  lemma StateWordNoMatchInWord(rw: Rewrite, st: GameState, s: string, lo: nat, k: nat, n: nat)
    requires IsWordRewrite(rw)
    requires lo <= k < n <= |s| && (forall x :: lo <= x < n ==> IsWordChar(s[x])) && (n == |s| || NotJoining(s[n]))
    requires s[lo..n] != Lead(rw)
    ensures MatchAt(rw, st, s, k).None?
  {
    var e := k + |Lead(rw)|;
    if k > lo {
      assert !BoundaryBefore(s, k);
    } else if e < n {
      assert !BoundaryAfter(s, e);
    } else if e > n && n < |s| {
      WordLeadLetters(rw);
      DifferAt(s, Lead(rw), k, n - k);
    } else if e == n {
      assert s[lo..n] != Lead(rw);
    }
  }

  /** No rewrite starts a match inside a bounded word other than its own pattern. */
  lemma WordNoMatch(rw: Rewrite, st: GameState, s: string, lo: nat, n: nat)
    requires lo < n <= |s| && (forall x :: lo <= x < n ==> IsWordChar(s[x])) && (n == |s| || NotJoining(s[n]))
    requires IsWordRewrite(rw) ==> s[lo..n] != Lead(rw)
    ensures NoMatchIn(rw, st, s, lo, n)
  {
    forall k | lo <= k < n
      ensures MatchAt(rw, st, s, k).None?
    {
      if IsWordRewrite(rw) {
        StateWordNoMatchInWord(rw, st, s, lo, k, n);
      } else {
        DottedNoMatchInWord(rw, s, k, n);
      }
    }
  }

  /**
   * Each rewrite leaves a bare word after text without letters where it
   * is, and what follows it still does not join it.
   */
  lemma BareWordKept(rw: Rewrite, st: GameState, s: string, pre: string, w: string)
    requires BareWordShape(s, pre, w) && LetterFree(pre) && IsWordText(w) && !IsStateWord(w)
    ensures BareWordShape(ReplaceAll(rw, st, s), pre, w)
  {
    var n := |pre| + |w|;
    BareWordNoMatch(rw, st, s, pre, w);
    CopiedWhileNoMatch(rw, st, s, 0, n);
    if n < |s| {
      NoMatchAt(rw, st, s, n);
      ScanStep(rw, st, s, n);
    }
    assert s[0..n] == pre + w;
  }

  lemma StateWordLead(rw: Rewrite)
    requires IsWordRewrite(rw)
    ensures IsStateWord(Lead(rw))
  {
  }

  lemma BareWordNoMatch(rw: Rewrite, st: GameState, s: string, pre: string, w: string)
    requires BareWordShape(s, pre, w) && LetterFree(pre) && IsWordText(w) && !IsStateWord(w)
    ensures NoMatchIn(rw, st, s, 0, |pre| + |w|)
  {
    var lo, n := |pre|, |pre| + |w|;
    forall k | 0 <= k < lo
      ensures !IsAsciiLetter(s[k])
    {
      assert s[k] == s[..lo][k];
    }
    SliceChars(s, lo, w);
    if IsWordRewrite(rw) {
      StateWordLead(rw);
    }
    LetterFreeNoMatch(rw, st, s, 0, lo);
    WordNoMatch(rw, st, s, lo, n);
  }

  lemma AllRewritesKeepBareWord(s: string, pre: string, w: string, st: GameState)
    requires BareWordShape(s, pre, w) && LetterFree(pre) && IsWordText(w) && !IsStateWord(w)
    ensures BareWordShape(ProcessExpression(s, st), pre, w)
  {
    var s1 := ReplaceAll(AttributeRef, st, s);
    BareWordKept(AttributeRef, st, s, pre, w);
    var s2 := ReplaceAll(InventoryLength, st, s1);
    BareWordKept(InventoryLength, st, s1, pre, w);
    var s3 := ReplaceAll(InventoryIncludes, st, s2);
    BareWordKept(InventoryIncludes, st, s2, pre, w);
    var s4 := ReplaceAll(FlagRef, st, s3);
    BareWordKept(FlagRef, st, s3, pre, w);
    var s5 := ReplaceAll(DayWord, st, s4);
    BareWordKept(DayWord, st, s4, pre, w);
    var s6 := ReplaceAll(TimeWord, st, s5);
    BareWordKept(TimeWord, st, s5, pre, w);
    BareWordKept(LocationWord, st, s6, pre, w);
  }

  /**
   * A bare name after text without letters (`1 > 0 && sanity > 5`,
   * `eval(…)`, `true`), standing on its own and other than `day`, `time`
   * and `location`, comes through every rewrite, so the allowlist rejects
   * the condition whatever follows the name.
   */
  lemma BareNameNeverTriggers(pre: string, w: string, tail: string, st: GameState)
    requires LetterFree(pre) && IsWordText(w) && !LetterFree(w) && !IsStateWord(w)
    requires tail == [] || NotJoining(tail[0])
    ensures !EvaluateExpression(pre + w + tail, st)
  {
    BareWordStart(pre, w, tail);
    AllRewritesKeepBareWord(pre + w + tail, pre, w, st);
    BareWordUnsafe(ProcessExpression(pre + w + tail, st), pre, w);
  }

  lemma BareWordStart(pre: string, w: string, tail: string)
    requires tail == [] || NotJoining(tail[0])
    ensures BareWordShape(pre + w + tail, pre, w)
  {
    var s := pre + w + tail;
    assert s[..|pre|] == pre && s[|pre|..|pre| + |w|] == w;
    assert |pre| + |w| < |s| ==> s[|pre| + |w|] == tail[0];
  }

  /** Text that holds a word with a letter fails the allowlist. */
  lemma BareWordUnsafe(r: string, pre: string, w: string)
    requires BareWordShape(r, pre, w) && !LetterFree(w)
    ensures !SafeText(r)
  {
    var i :| 0 <= i < |w| && IsAsciiLetter(w[i]);
    assert r[|pre| + i] == r[|pre|..|pre| + |w|][i];
    LetterAnywhereUnsafe(r, |pre| + i);
  }

  // ------------------------------------------- comparisons of day and time

  /** The letters of `s[..i]` are those of the word `s[lo..n]`, which a character other than `.` ends. */
  predicate LettersOnlyIn(s: string, i: nat, lo: nat, n: nat) {
    && lo < n <= i <= |s|
    && (forall x :: lo <= x < n ==> IsWordChar(s[x]))
    && (n == |s| || NotJoining(s[n]))
    && (forall x :: 0 <= x < i && (x < lo || n <= x) ==> !IsAsciiLetter(s[x]))
  }

  lemma NoMatchAroundWord(rw: Rewrite, st: GameState, s: string, i: nat, lo: nat, n: nat)
    requires LettersOnlyIn(s, i, lo, n) && (IsWordRewrite(rw) ==> s[lo..n] != Lead(rw))
    ensures NoMatchIn(rw, st, s, 0, i)
  {
    LetterFreeNoMatch(rw, st, s, 0, lo);
    WordNoMatch(rw, st, s, lo, n);
    LetterFreeNoMatch(rw, st, s, n, i);
  }

  /** A rewrite leaves a text whose one word is not its pattern as it is. */
  lemma WordUnchanged(rw: Rewrite, st: GameState, s: string, lo: nat, n: nat)
    requires LettersOnlyIn(s, |s|, lo, n) && (IsWordRewrite(rw) ==> s[lo..n] != Lead(rw))
    ensures ReplaceAll(rw, st, s) == s
  {
    NoMatchAroundWord(rw, st, s, |s|, lo, n);
    ReplaceFromUnchanged(rw, st, s, 0);
  }

  lemma NumberWordShape(rw: Rewrite, tail: string)
    requires IsNumberRewrite(rw) && LetterFree(tail) && (tail == [] || NotJoining(tail[0]))
    ensures LettersOnlyIn(Lead(rw) + tail, |Lead(rw) + tail|, 0, |Lead(rw)|)
    ensures (Lead(rw) + tail)[0..|Lead(rw)|] == Lead(rw)
  {
    var s := Lead(rw) + tail;
    var n := |Lead(rw)|;
    assert n < |s| ==> s[n] == tail[0];
    forall x | n <= x < |s|
      ensures !IsAsciiLetter(s[x])
    {
      assert s[x] == tail[x - n];
    }
  }

  /** The rewrites after the attribute rewrite turn `day` or `time`, then text without letters, into a number. */
  lemma LaterRewritesNumberWord(rw: Rewrite, tail: string, st: GameState)
    requires IsNumberRewrite(rw) && LetterFree(tail) && (tail == [] || NotJoining(tail[0]))
    ensures ReplaceAll(LocationWord, st, ReplaceAll(TimeWord, st, ReplaceAll(DayWord, st,
              ReplaceAll(FlagRef, st, ReplaceAll(InventoryIncludes, st, ReplaceAll(InventoryLength, st, Lead(rw) + tail))))))
         == NumText(NumberOf(rw, st)) + tail
  {
    var s := Lead(rw) + tail;
    var r := NumText(NumberOf(rw, st)) + tail;
    NumberWordUntouched(rw, tail, st);
    NumberWordTurned(rw, tail, st);
    if rw == DayWord {
      ReplaceAllLetterFree(TimeWord, st, r);
    } else {
      NumberWordShape(rw, tail);
      WordUnchanged(DayWord, st, s, 0, |Lead(rw)|);
    }
    ReplaceAllLetterFree(LocationWord, st, r);
  }

  lemma NumberWordUntouched(rw: Rewrite, tail: string, st: GameState)
    requires IsNumberRewrite(rw) && LetterFree(tail) && (tail == [] || NotJoining(tail[0]))
    ensures ReplaceAll(FlagRef, st, ReplaceAll(InventoryIncludes, st, ReplaceAll(InventoryLength, st, Lead(rw) + tail)))
         == Lead(rw) + tail
  {
    var s := Lead(rw) + tail;
    var n := |Lead(rw)|;
    NumberWordShape(rw, tail);
    WordUnchanged(InventoryLength, st, s, 0, n);
    WordUnchanged(InventoryIncludes, st, s, 0, n);
    WordUnchanged(FlagRef, st, s, 0, n);
  }

  lemma NumberWordTurned(rw: Rewrite, tail: string, st: GameState)
    requires IsNumberRewrite(rw) && LetterFree(tail) && (tail == [] || NotJoining(tail[0]))
    ensures ReplaceAll(rw, st, Lead(rw) + tail) == NumText(NumberOf(rw, st)) + tail
    ensures LetterFree(NumText(NumberOf(rw, st)) + tail)
  {
    NumberWordReplaced(rw, [], tail, st);
    EmptyFront(Lead(rw));
    EmptyFront(NumText(NumberOf(rw, st)));
    NumTextLetterFree(NumberOf(rw, st));
    LetterFreeJoin(NumText(NumberOf(rw, st)), tail);
  }

  lemma EmptyFront(s: string)
    ensures [] + s == s
  {
  }

  /** `day op k` and `time op k` become the comparison of two numbers. */
  lemma ProcessNumberWord(rw: Rewrite, tail: string, st: GameState)
    requires IsNumberRewrite(rw) && LetterFree(tail) && (tail == [] || NotJoining(tail[0]))
    ensures ProcessExpression(Lead(rw) + tail, st) == NumText(NumberOf(rw, st)) + tail
  {
    NumberWordShape(rw, tail);
    WordUnchanged(AttributeRef, st, Lead(rw) + tail, 0, |Lead(rw)|);
    LaterRewritesNumberWord(rw, tail, st);
  }

  lemma TailStartsPlain(op: Token, k: int)
    requires IsRelational(op)
    ensures ComparisonTail(op, k)[0] == ' ' && NotJoining(' ')
  {
  }

  /**
   * `day op k` (and `time op k`) is true exactly when the state's day
   * (time) stands in relation `op` to `k`.
   */
  lemma NumberWordComparison(rw: Rewrite, op: Token, k: int, st: GameState)
    requires IsNumberRewrite(rw) && IsRelational(op)
    ensures EvaluateExpression(Lead(rw) + ComparisonTail(op, k), st) == Holds(op, NumberOf(rw, st), k)
  {
    ComparisonTailIsPlain(op, k);
    TailStartsPlain(op, k);
    ProcessNumberWord(rw, ComparisonTail(op, k), st);
    PlainComparison(NumberOf(rw, st), op, k);
    ExecuteComparison(NumberOf(rw, st), op, k);
  }

  // ------------------------------------------------------ conjunctions

  /** Text without letters whose every character the allowlist accepts */
  predicate Plain(s: string) {
    LetterFree(s) && forall i :: 0 <= i < |s| ==> IsAllowedChar(s[i])
  }

  lemma PlainJoin(a: string, b: string)
    requires Plain(a) && Plain(b)
    ensures Plain(a + b)
  {
    forall i | 0 <= i < |a + b|
      ensures !IsAsciiLetter((a + b)[i]) && IsAllowedChar((a + b)[i])
    {
      if i >= |a| { assert (a + b)[i] == b[i - |a|]; }
    }
  }

  lemma ComparisonPlain(c: Comparison)
    ensures Plain(ComparisonText(c)) && ComparisonText(c) != []
  {
    PlainComparison(c.left, c.op, c.right);
  }

  lemma {:induction false} AndChainPlain(cs: seq<Comparison>)
    ensures Plain(AndChainText(cs))
    decreases |cs|
  {
    if cs != [] {
      assert Plain(" && ");
      ComparisonPlain(cs[0]);
      AndChainPlain(cs[1..]);
      PlainJoin(" && ", ComparisonText(cs[0]));
      PlainJoin(" && " + ComparisonText(cs[0]), AndChainText(cs[1..]));
    }
  }

  /** A conjunction of comparisons of numbers passes the allowlist. */
  lemma ConjunctionSafe(cs: seq<Comparison>)
    requires cs != []
    ensures SafeText(ConjunctionText(cs))
  {
    ComparisonPlain(cs[0]);
    AndChainPlain(cs[1..]);
    PlainJoin(ComparisonText(cs[0]), AndChainText(cs[1..]));
  }

  /** A condition that the rewrites turn into a conjunction of comparisons is true exactly when all of them hold. */
  lemma EvaluatesToConjunction(expr: string, st: GameState, cs: seq<Comparison>)
    requires cs != [] && ProcessExpression(expr, st) == ConjunctionText(cs)
    ensures EvaluateExpression(expr, st) == AllHold(cs)
  {
    ConjunctionSafe(cs);
    ExecuteConjunction(cs);
  }

  /** `day op1 k1 && `, the front of a two-part condition */
  function AndFront(rw: Rewrite, op: Token, k: int): string
    requires IsRelational(op)
  {
    Lead(rw) + ComparisonTail(op, k) + " && "
  }

  lemma AndFrontShape(rw: Rewrite, op: Token, k: int, rest: string)
    requires IsNumberRewrite(rw) && IsRelational(op)
    ensures LettersOnlyIn(AndFront(rw, op, k) + rest, |AndFront(rw, op, k)|, 0, |Lead(rw)|)
  {
    var t := ComparisonTail(op, k) + " && ";
    var s := AndFront(rw, op, k) + rest;
    var n := |Lead(rw)|;
    ComparisonTailIsPlain(op, k);
    assert Plain(" && ");
    LetterFreeJoin(ComparisonTail(op, k), " && ");
    assert AndFront(rw, op, k) == Lead(rw) + t;
    forall x | n <= x < |AndFront(rw, op, k)|
      ensures !IsAsciiLetter(s[x])
    {
      assert s[x] == t[x - n];
    }
    assert s[n] == t[0] == ComparisonTail(op, k)[0] == ' ';
  }

  lemma AttributeMatchAfter(pre: string, name: string, tail: string, st: GameState, v: int)
    requires IsWordText(name) && AttributeNumber(st, name) == Some(v)
    requires tail == [] || !IsWordChar(tail[0])
    ensures MatchAt(AttributeRef, st, pre + ("attributes." + name) + tail, |pre|) == Some((11 + |name|, NumText(v)))
  {
    var m := "attributes." + name;
    var s := pre + m + tail;
    MiddleSlice(pre, m, tail, 0, 11);
    assert m[0..11] == "attributes.";
    MiddleSlice(pre, m, tail, 11, 11 + |name|);
    assert m[11..11 + |name|] == name;
    assert |pre| + |m| < |s| ==> s[|pre| + |m|] == tail[0];
    AttributeMatch(st, s, |pre|, name);
  }

  /** The attribute rewrite of `day op1 k1 && attributes.<name> op2 k2` */
  lemma AttributeStepAfterNumberWord(rw: Rewrite, op1: Token, k1: int, name: string, op2: Token, k2: int, st: GameState, v: int)
    requires IsNumberRewrite(rw) && IsRelational(op1) && IsRelational(op2) && IsWordText(name)
    requires AttributeNumber(st, name) == Some(v)
    ensures ReplaceAll(AttributeRef, st, AndFront(rw, op1, k1) + ("attributes." + name) + ComparisonTail(op2, k2))
         == AndFront(rw, op1, k1) + NumText(v) + ComparisonTail(op2, k2)
  {
    var a := AndFront(rw, op1, k1);
    var m := "attributes." + name;
    var t := ComparisonTail(op2, k2);
    AndFrontShape(rw, op1, k1, m + t);
    assert a + (m + t) == a + m + t;
    NoMatchAroundWord(AttributeRef, st, a + m + t, |a|, 0, |Lead(rw)|);
    ComparisonTailIsPlain(op2, k2);
    TailStartsPlain(op2, k2);
    AttributeMatchAfter(a, name, t, st, v);
    ReplacedAfter(AttributeRef, st, a, m, t, NumText(v));
  }

  lemma TwoPartRegroup(w: string, t1: string, nv: string, t2: string)
    ensures w + t1 + " && " + nv + t2 == w + (t1 + (" && " + (nv + t2) + []))
  {
  }

  lemma TwoPartText(n: int, op1: Relation, k1: int, v: int, op2: Relation, k2: int)
    ensures ConjunctionText([Comparison(n, op1, k1), Comparison(v, op2, k2)])
         == NumText(n) + (ComparisonTail(op1, k1) + (" && " + (NumText(v) + ComparisonTail(op2, k2)) + []))
  {
    var cs := [Comparison(n, op1, k1), Comparison(v, op2, k2)];
    assert cs[1..] == [cs[1]] && cs[1..][1..] == [];
    var chain := " && " + (NumText(v) + ComparisonTail(op2, k2)) + [];
    assert AndChainText(cs[1..]) == chain;
    assert ConjunctionText(cs) == (NumText(n) + ComparisonTail(op1, k1)) + chain;
  }

  /**
   * `day op1 k1 && attributes.<name> op2 k2` (and the same with `time`)
   * is true exactly when the day (time) stands in relation `op1` to `k1`
   * and the attribute's number in relation `op2` to `k2`.
   */
  lemma NumberWordAndAttribute(rw: Rewrite, op1: Token, k1: int, name: string, op2: Token, k2: int, st: GameState)
    requires IsNumberRewrite(rw) && IsRelational(op1) && IsRelational(op2) && IsWordText(name)
    requires AttributeNumber(st, name).Some?
    ensures EvaluateExpression(AndFront(rw, op1, k1) + ("attributes." + name) + ComparisonTail(op2, k2), st)
         == (Holds(op1, NumberOf(rw, st), k1) && Holds(op2, AttributeNumber(st, name).value, k2))
  {
    var v := AttributeNumber(st, name).value;
    var n := NumberOf(rw, st);
    var cs := [Comparison(n, op1, k1), Comparison(v, op2, k2)];
    var rest := ComparisonTail(op1, k1) + (" && " + (NumText(v) + ComparisonTail(op2, k2)) + []);
    AttributeStepAfterNumberWord(rw, op1, k1, name, op2, k2, st, v);
    TwoPartRegroup(Lead(rw), ComparisonTail(op1, k1), NumText(v), ComparisonTail(op2, k2));
    TwoPartText(n, op1, k1, v, op2, k2);
    AndChainPlain(cs[1..]);
    assert cs[1..] == [Comparison(v, op2, k2)];
    ComparisonTailIsPlain(op1, k1);
    LetterFreeJoin(ComparisonTail(op1, k1), AndChainText(cs[1..]));
    TailStartsPlain(op1, k1);
    LaterRewritesNumberWord(rw, rest, st);
    EvaluatesToConjunction(AndFront(rw, op1, k1) + ("attributes." + name) + ComparisonTail(op2, k2), st, cs);
    assert AllHold(cs) <==> HoldsFor(cs[0]) && HoldsFor(cs[1]);
  }
}
