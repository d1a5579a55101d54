/**
 * The executor behind `safeEvaluate`: the game hands the rewritten condition
 * text to `new Function('return (' + text + ')')` and takes `Boolean` of the
 * result.  That is a call into the JavaScript engine; this module models the
 * part of the language that the character allowlist lets through and that
 * conditions use: decimal integer literals, parentheses, unary `! - +`,
 * `* + -`, the relational operators, loose and strict (in)equality, `&&` and
 * `||`, with JavaScript's precedence, left associativity and coercions
 * between numbers and booleans.
 *
 * `None` stands for text the engine rejects with a syntax error (or that
 * throws when run), and also for the allowed constructs the model does not
 * cover: division and comments (`/`), decimals (`.`), string literals (`'`,
 * `"`), legacy octal literals, `**`, shifts, bitwise `&`/`|`, assignments,
 * increments and arrow functions.
 */
module JsExpression {
  import opened Wrappers
  import opened JsText
  import Sequences

  datatype Token =
    | Num(value: nat)
    | LParen | RParen
    | Plus | Minus | Star | Bang
    | Lt | Le | Gt | Ge
    | LooseEq | LooseNe | StrictEq | StrictNe
    | And | Or

  /** A JavaScript value the fragment can produce */
  datatype Val = NumV(n: int) | BoolV(b: bool)

  // ---------------------------------------------------------------- lexing

  /** The character at `i`, or NUL past the end (a character no rule looks for) */
  function Peek(s: string, i: nat): char {
    if i < |s| then s[i] else '\0'
  }

  /** Longest-match punctuators; `None` for a character or operator outside the fragment */
  function LexPunctuator(s: string): (r: Option<(Token, nat)>)
    requires s != []
    ensures r.Some? ==> 1 <= r.value.1 <= |s|
  {
    var c, c1, c2 := s[0], Peek(s, 1), Peek(s, 2);
    if c == '(' then Some((LParen, 1))
    else if c == ')' then Some((RParen, 1))
    else if c == '+' then (if c1 == '+' || c1 == '=' then None else Some((Plus, 1)))
    else if c == '-' then (if c1 == '-' || c1 == '=' then None else Some((Minus, 1)))
    else if c == '*' then (if c1 == '*' || c1 == '=' then None else Some((Star, 1)))
    else if c == '!' then
      (if c1 != '=' then Some((Bang, 1)) else if c2 == '=' then Some((StrictNe, 3)) else Some((LooseNe, 2)))
    else if c == '<' then
      (if c1 == '<' then None else if c1 == '=' then Some((Le, 2)) else Some((Lt, 1)))
    else if c == '>' then
      (if c1 == '>' then None else if c1 == '=' then Some((Ge, 2)) else Some((Gt, 1)))
    else if c == '=' then
      (if c1 != '=' then None else if c2 == '=' then Some((StrictEq, 3)) else Some((LooseEq, 2)))
    else if c == '&' then (if c1 == '&' && c2 != '=' then Some((And, 2)) else None)
    else if c == '|' then (if c1 == '|' && c2 != '=' then Some((Or, 2)) else None)
    else None
  }

  /** The length of the run of digits `s` starts with */
  function DigitRun(s: string): (k: nat)
    ensures k <= |s|
    ensures forall i :: 0 <= i < k ==> IsDigit(s[i])
    ensures k < |s| ==> !IsDigit(s[k])
  {
    if s != [] && IsDigit(s[0]) then 1 + DigitRun(s[1..]) else 0
  }

  /** One token at the start of `s` and its length in characters */
  function LexOne(s: string): (r: Option<(Token, nat)>)
    requires s != []
    ensures r.Some? ==> 1 <= r.value.1 <= |s|
  {
    if IsDigit(s[0]) then
      var k := DigitRun(s);
      assert AllDigits(s[..k]);
      if s[0] == '0' && k > 1 then None else Some((Num(DigitsValue(s[..k])), k))
    else LexPunctuator(s)
  }

  function Prepend(t: Token, r: Option<seq<Token>>): Option<seq<Token>> {
    match r
    case None => None
    case Some(ts) => Some([t] + ts)
  }

  /** The token sequence of `s`, white space skipped; `None` on the first character that cannot start a token */
  function Tokenize(s: string): Option<seq<Token>>
    decreases |s|
  {
    if s == [] then Some([])
    else if IsJsSpace(s[0]) then Tokenize(s[1..])
    else
      match LexOne(s)
      case None => None
      case Some((t, k)) => Prepend(t, Tokenize(s[k..]))
  }

  // ------------------------------------------------------------- semantics

  /** `Number(v)` */
  function ToNumber(v: Val): int {
    match v
    case NumV(n) => n
    case BoolV(b) => if b then 1 else 0
  }

  /** `Boolean(v)` */
  function Truthy(v: Val): bool {
    match v
    case NumV(n) => n != 0
    case BoolV(b) => b
  }

  function Unary(op: Token, v: Val): Val {
    if op == Bang then BoolV(!Truthy(v))
    else if op == Minus then NumV(-ToNumber(v))
    else NumV(ToNumber(v))
  }

  /** A binary operator applied to two values; `&&` and `||` yield one of their operands */
  function Binary(op: Token, a: Val, b: Val): Val {
    match op
    case Star => NumV(ToNumber(a) * ToNumber(b))
    case Plus => NumV(ToNumber(a) + ToNumber(b))
    case Minus => NumV(ToNumber(a) - ToNumber(b))
    case Lt => BoolV(ToNumber(a) < ToNumber(b))
    case Le => BoolV(ToNumber(a) <= ToNumber(b))
    case Gt => BoolV(ToNumber(a) > ToNumber(b))
    case Ge => BoolV(ToNumber(a) >= ToNumber(b))
    case LooseEq => BoolV(ToNumber(a) == ToNumber(b))
    case LooseNe => BoolV(ToNumber(a) != ToNumber(b))
    case StrictEq => BoolV(a == b)
    case StrictNe => BoolV(a != b)
    case And => if Truthy(a) then b else a
    case Or => if Truthy(a) then a else b
    case _ => a
  }

  /** Binding strength of a binary operator (2 binds tightest); 0 for every other token */
  function OpLevel(t: Token): nat {
    match t
    case Star => 2
    case Plus => 3
    case Minus => 3
    case Lt => 4
    case Le => 4
    case Gt => 4
    case Ge => 4
    case LooseEq => 5
    case LooseNe => 5
    case StrictEq => 5
    case StrictNe => 5
    case And => 6
    case Or => 7
    case _ => 0
  }

  // --------------------------------------------------------------- parsing

  /** A left-associative chain of operators of `level` over operands of the next tighter level */
  function ParseBinary(level: nat, ts: seq<Token>): (r: Option<(Val, seq<Token>)>)
    requires 2 <= level <= 7
    decreases |ts|, level, 1
    ensures r.Some? ==> |r.value.1| < |ts|
  {
    var lhs := if level == 2 then ParseUnary(ts) else ParseBinary(level - 1, ts);
    if lhs.None? then None else ParseTail(level, lhs.value.0, lhs.value.1)
  }

  function ParseTail(level: nat, acc: Val, ts: seq<Token>): (r: Option<(Val, seq<Token>)>)
    requires 2 <= level <= 7
    decreases |ts|, level, 0
    ensures r.Some? ==> |r.value.1| <= |ts|
  {
    if ts == [] || OpLevel(ts[0]) != level then Some((acc, ts))
    else
      var rhs := if level == 2 then ParseUnary(ts[1..]) else ParseBinary(level - 1, ts[1..]);
      if rhs.None? then None else ParseTail(level, Binary(ts[0], acc, rhs.value.0), rhs.value.1)
  }

  function ParseUnary(ts: seq<Token>): (r: Option<(Val, seq<Token>)>)
    decreases |ts|, 0, 1
    ensures r.Some? ==> |r.value.1| < |ts|
  {
    if ts == [] then None
    else if ts[0] == Bang || ts[0] == Minus || ts[0] == Plus then
      var operand := ParseUnary(ts[1..]);
      if operand.None? then None else Some((Unary(ts[0], operand.value.0), operand.value.1))
    else ParsePrimary(ts)
  }

  function ParsePrimary(ts: seq<Token>): (r: Option<(Val, seq<Token>)>)
    decreases |ts|, 0, 0
    ensures r.Some? ==> |r.value.1| < |ts|
  {
    if ts == [] then None
    else match ts[0]
      case Num(n) => Some((NumV(n), ts[1..]))
      case LParen =>
        var inner := ParseBinary(7, ts[1..]);
        if inner.None? || inner.value.1 == [] || inner.value.1[0] != RParen then None
        else Some((inner.value.0, inner.value.1[1..]))
      case _ => None
  }

  /**
   * `Boolean(new Function('return (' + text + ')')())`, or `None` when the
   * text does not parse as one expression of the fragment.
   */
  function Execute(text: string): Option<bool> {
    match Tokenize("(" + text + ")")
    case None => None
    case Some(ts) =>
      var p := ParseBinary(7, ts);
      if p.Some? && p.value.1 == [] then Some(Truthy(p.value.0)) else None
  }

  // ------------------------------------------------ comparisons of numbers

  predicate IsRelational(op: Token) {
    op == Lt || op == Le || op == Gt || op == Ge
  }

  function RelationText(op: Token): string
    requires IsRelational(op)
  {
    match op
    case Lt => "<"
    case Le => "<="
    case Gt => ">"
    case Ge => ">="
  }

  /** ` op k`, the text after the left operand of a comparison */
  function ComparisonTail(op: Token, k: int): string
    requires IsRelational(op)
  {
    " " + RelationText(op) + " " + NumText(k)
  }

  /** What a relational operator means on integers */
  predicate Holds(op: Token, a: int, b: int)
    requires IsRelational(op)
  {
    match op
    case Lt => a < b
    case Le => a <= b
    case Gt => a > b
    case Ge => a >= b
  }

  /** The tokens of `String(n)`: a negative number lexes as a minus sign and a literal */
  function NumTokens(n: int): seq<Token> {
    if n < 0 then [Minus, Num(-n)] else [Num(n)]
  }

  lemma {:induction false} DigitRunOfDigits(t: string, rest: string)
    requires AllDigits(t)
    requires rest == [] || !IsDigit(rest[0])
    ensures DigitRun(t + rest) == |t|
    decreases |t|
  {
    if t != [] {
      assert (t + rest)[1..] == t[1..] + rest;
      DigitRunOfDigits(t[1..], rest);
    } else {
      assert t + rest == rest;
    }
  }

  /** The digits of a natural number lex as one literal with that value. */
  lemma {:induction false} TokenizeNatText(n: nat, rest: string)
    requires rest == [] || !IsDigit(rest[0])
    ensures Tokenize(NatText(n) + rest) == Prepend(Num(n), Tokenize(rest))
  {
    var t := NatText(n);
    var s := t + rest;
    assert s[0] == t[0];
    DigitRunOfDigits(t, rest);
    assert s[..|t|] == t;
    assert s[|t|..] == rest;
    NatTextRoundTrip(n);
  }

  lemma {:induction false} TokenizeToken(s: string, t: Token, k: nat)
    requires s != [] && !IsJsSpace(s[0])
    requires LexOne(s) == Some((t, k))
    ensures Tokenize(s) == Prepend(t, Tokenize(s[k..]))
  {
  }

  lemma {:induction false} TokenizeSpace(s: string)
    requires s != [] && IsJsSpace(s[0])
    ensures Tokenize(s) == Tokenize(s[1..])
  {
  }

  /** A minus sign followed by a digit lexes as a minus sign alone. */
  lemma LexMinus(s: string)
    requires |s| >= 2 && s[0] == '-' && IsDigit(s[1])
    ensures Tokenize(s) == Prepend(Minus, Tokenize(s[1..]))
  {
    assert LexPunctuator(s) == Some((Minus, 1));
  }

  lemma {:induction false} TokenizeNegative(m: nat, rest: string, ts: seq<Token>)
    requires rest == [] || !IsDigit(rest[0])
    requires Tokenize(rest) == Some(ts)
    ensures Tokenize("-" + NatText(m) + rest) == Some([Minus, Num(m)] + ts)
  {
    var t := NatText(m);
    var s := "-" + t + rest;
    Sequences.DropHead('-', t, rest);
    assert s[1] == t[0];
    LexMinus(s);
    TokenizeNatText(m, rest);
    assert [Minus] + ([Num(m)] + ts) == [Minus, Num(m)] + ts;
  }

  /** `String(n)` lexes as `NumTokens(n)`. */
  lemma {:induction false} TokenizeNumText(n: int, rest: string, ts: seq<Token>)
    requires rest == [] || !IsDigit(rest[0])
    requires Tokenize(rest) == Some(ts)
    ensures Tokenize(NumText(n) + rest) == Some(NumTokens(n) + ts)
  {
    if n < 0 {
      TokenizeNegative(-n, rest, ts);
    } else {
      TokenizeNatText(n, rest);
    }
  }

  lemma {:induction false} TokenizeRelation(op: Token, rest: string, ts: seq<Token>)
    requires IsRelational(op)
    requires rest != [] && rest[0] == ' '
    requires Tokenize(rest) == Some(ts)
    ensures Tokenize(RelationText(op) + rest) == Some([op] + ts)
  {
    var s := RelationText(op) + rest;
    assert s[|RelationText(op)|..] == rest;
    assert Peek(s, 1) == if op == Lt || op == Gt then ' ' else '=';
    assert Peek(s, 2) == if op == Lt || op == Gt then Peek(rest, 1) else ' ';
    assert LexOne(s) == Some((op, |RelationText(op)|));
    TokenizeToken(s, op, |RelationText(op)|);
  }

  lemma {:induction false} TokenizeClose()
    ensures Tokenize(")") == Some([RParen])
  {
    assert LexOne(")") == Some((RParen, 1));
    TokenizeToken(")", RParen, 1);
    assert ")"[1..] == [];
    assert Tokenize([]) == Some([]);
    assert [RParen] + [] == [RParen];
  }

  /** The right-hand side ` op b)` of a wrapped comparison */
  lemma {:induction false} TokenizeRightOperand(op: Token, b: int)
    requires IsRelational(op)
    ensures Tokenize(" " + (RelationText(op) + (" " + (NumText(b) + ")")))) == Some([op] + NumTokens(b) + [RParen])
  {
    var tail3 := NumText(b) + ")";
    var tail2 := " " + tail3;
    var tail1 := RelationText(op) + tail2;
    var tail0 := " " + tail1;
    TokenizeClose();
    TokenizeNumText(b, ")", [RParen]);
    assert tail2[1..] == tail3;
    TokenizeSpace(tail2);
    TokenizeRelation(op, tail2, NumTokens(b) + [RParen]);
    assert tail0[1..] == tail1;
    TokenizeSpace(tail0);
    assert [op] + (NumTokens(b) + [RParen]) == [op] + NumTokens(b) + [RParen];
  }

  lemma {:induction false} TokenizeOpen(body: string, ts: seq<Token>)
    requires Tokenize(body) == Some(ts)
    ensures Tokenize("(" + body) == Some([LParen] + ts)
  {
    assert ("(" + body)[1..] == body;
    assert LexOne("(" + body) == Some((LParen, 1));
    TokenizeToken("(" + body, LParen, 1);
  }

  /** The text of a comparison of two integers, wrapped as the executor wraps it, lexes as expected. */
  lemma {:induction false} TokenizeComparison(a: int, op: Token, b: int)
    requires IsRelational(op)
    ensures Tokenize("(" + (NumText(a) + (" " + (RelationText(op) + (" " + (NumText(b) + ")"))))))
         == Some([LParen] + (NumTokens(a) + ([op] + NumTokens(b) + [RParen])))
  {
    var tail0 := " " + (RelationText(op) + (" " + (NumText(b) + ")")));
    var rhs := [op] + NumTokens(b) + [RParen];
    TokenizeRightOperand(op, b);
    TokenizeNumText(a, tail0, rhs);
    TokenizeOpen(NumText(a) + tail0, NumTokens(a) + rhs);
  }

  /** No operator of a level in `(lo, hi]` follows: the chains of those levels end at once. */
  predicate EndsChain(rest: seq<Token>, lo: nat, hi: nat) {
    rest == [] || OpLevel(rest[0]) <= lo || OpLevel(rest[0]) > hi
  }

  lemma {:induction false} LiftUnary(level: nat, ts: seq<Token>, v: Val, rest: seq<Token>)
    requires 2 <= level <= 7
    requires ParseUnary(ts) == Some((v, rest))
    requires rest == [] || OpLevel(rest[0]) < 2 || OpLevel(rest[0]) > level
    ensures ParseBinary(level, ts) == Some((v, rest))
  {
    if level > 2 {
      LiftUnary(level - 1, ts, v, rest);
    }
  }

  lemma {:induction false} LiftBinary(lo: nat, hi: nat, ts: seq<Token>, v: Val, rest: seq<Token>)
    requires 2 <= lo <= hi <= 7
    requires ParseBinary(lo, ts) == Some((v, rest))
    requires EndsChain(rest, lo, hi)
    ensures ParseBinary(hi, ts) == Some((v, rest))
    decreases hi
  {
    if hi > lo {
      LiftBinary(lo, hi - 1, ts, v, rest);
    }
  }

  lemma {:induction false} ParseUnaryNumber(n: int, rest: seq<Token>)
    ensures ParseUnary(NumTokens(n) + rest) == Some((NumV(n), rest))
  {
    if n < 0 {
      var ts := NumTokens(n) + rest;
      assert ts[1..] == [Num(-n)] + rest;
      assert ParseUnary(ts[1..]) == Some((NumV(-n), rest));
    } else {
      assert ParsePrimary(NumTokens(n) + rest) == Some((NumV(n), rest));
    }
  }

  /** `a op b` followed by a closing parenthesis or the end parses as the comparison at every level from 4 up. */
  lemma {:induction false} ParseComparison(a: int, op: Token, b: int, rest: seq<Token>)
    requires IsRelational(op)
    requires rest == [] || OpLevel(rest[0]) == 0
    ensures ParseBinary(7, NumTokens(a) + [op] + NumTokens(b) + rest) == Some((BoolV(Holds(op, a, b)), rest))
  {
    var ts := NumTokens(a) + [op] + NumTokens(b) + rest;
    var rest1 := [op] + NumTokens(b) + rest;
    assert ts == NumTokens(a) + rest1;
    ParseUnaryNumber(a, rest1);
    LiftUnary(3, ts, NumV(a), rest1);
    assert rest1[1..] == NumTokens(b) + rest;
    ParseUnaryNumber(b, rest);
    LiftUnary(3, rest1[1..], NumV(b), rest);
    assert ParseTail(4, NumV(a), rest1) == ParseTail(4, Binary(op, NumV(a), NumV(b)), rest);
    assert ParseBinary(4, ts) == Some((BoolV(Holds(op, a, b)), rest));
    LiftBinary(4, 7, ts, BoolV(Holds(op, a, b)), rest);
  }

  /**
   * The text `a op b` of two integers and a relational operator executes to
   * the comparison of the integers.
   */
  lemma {:induction false} ExecuteComparison(a: int, op: Token, b: int)
    requires IsRelational(op)
    ensures Execute(NumText(a) + ComparisonTail(op, b)) == Some(Holds(op, a, b))
  {
    var inner := NumTokens(a) + ([op] + NumTokens(b) + [RParen]);
    ComparisonTokens(a, op, b);
    ComparisonParse(a, op, b);
    ExecuteOf(NumText(a) + ComparisonTail(op, b), [LParen] + inner, BoolV(Holds(op, a, b)));
  }

  lemma ComparisonTokens(a: int, op: Token, b: int)
    requires IsRelational(op)
    ensures Tokenize("(" + (NumText(a) + ComparisonTail(op, b)) + ")")
         == Some([LParen] + (NumTokens(a) + ([op] + NumTokens(b) + [RParen])))
  {
    WrappedComparison(a, op, b);
    TokenizeComparison(a, op, b);
  }

  lemma ComparisonParse(a: int, op: Token, b: int)
    requires IsRelational(op)
    ensures ParseBinary(7, [LParen] + (NumTokens(a) + ([op] + NumTokens(b) + [RParen])))
         == Some((BoolV(Holds(op, a, b)), []))
  {
    var inner := NumTokens(a) + ([op] + NumTokens(b) + [RParen]);
    ParseComparison(a, op, b, [RParen]);
    assert NumTokens(a) + [op] + NumTokens(b) + [RParen] == inner;
    ParseBracketed(inner, BoolV(Holds(op, a, b)));
  }

  /** Text whose bracketed tokens parse completely executes to the truth of the value. */
  lemma ExecuteOf(text: string, ts: seq<Token>, v: Val)
    requires Tokenize("(" + text + ")") == Some(ts)
    requires ParseBinary(7, ts) == Some((v, []))
    ensures Execute(text) == Some(Truthy(v))
  {
  }

  lemma {:induction false} WrappedComparison(a: int, op: Token, b: int)
    requires IsRelational(op)
    ensures "(" + (NumText(a) + ComparisonTail(op, b)) + ")"
         == "(" + (NumText(a) + (" " + (RelationText(op) + (" " + (NumText(b) + ")")))))
  {
    Sequences.Regroup("(", NumText(a), " ", RelationText(op), " ", NumText(b), ")");
  }

  /** A parenthesised expression that fills the whole input parses to the value inside. */
  lemma {:induction false} ParseBracketed(inner: seq<Token>, v: Val)
    requires ParseBinary(7, inner) == Some((v, [RParen]))
    ensures ParseBinary(7, [LParen] + inner) == Some((v, []))
  {
    var ts := [LParen] + inner;
    assert ts[1..] == inner;
    assert [RParen][1..] == [];
    assert ParsePrimary(ts) == Some((v, []));
    assert ParseUnary(ts) == Some((v, []));
    LiftUnary(7, ts, v, []);
  }

  // ------------------------------------------ conjunctions of comparisons

  /** One of the four relational operators */
  type Relation = op: Token | IsRelational(op) witness Lt

  /** `left op right` between two integers */
  datatype Comparison = Comparison(left: int, op: Relation, right: int)

  function ComparisonText(c: Comparison): string {
    NumText(c.left) + ComparisonTail(c.op, c.right)
  }

  predicate HoldsFor(c: Comparison) {
    Holds(c.op, c.left, c.right)
  }

  predicate AllHold(cs: seq<Comparison>) {
    forall i :: 0 <= i < |cs| ==> HoldsFor(cs[i])
  }

  /** `c1 && c2 && …`: the first comparison, then ` && c` for each further one */
  function ConjunctionText(cs: seq<Comparison>): string
    requires cs != []
  {
    ComparisonText(cs[0]) + AndChainText(cs[1..])
  }

  function AndChainText(cs: seq<Comparison>): string {
    if cs == [] then [] else " && " + ComparisonText(cs[0]) + AndChainText(cs[1..])
  }

  function TokensOf(c: Comparison): seq<Token> {
    NumTokens(c.left) + [c.op] + NumTokens(c.right)
  }

  function AndChainTokens(cs: seq<Comparison>): seq<Token> {
    if cs == [] then [] else [And] + TokensOf(cs[0]) + AndChainTokens(cs[1..])
  }

  lemma AllHoldCons(cs: seq<Comparison>)
    requires cs != []
    ensures AllHold(cs) <==> HoldsFor(cs[0]) && AllHold(cs[1..])
  {
    if HoldsFor(cs[0]) && AllHold(cs[1..]) {
      forall i | 0 < i < |cs|
        ensures HoldsFor(cs[i])
      {
        assert cs[i] == cs[1..][i - 1];
      }
    }
  }

  /** A leading space is skipped. */
  lemma TokenizeSpaced(rest: string, ts: seq<Token>)
    requires Tokenize(rest) == Some(ts)
    ensures Tokenize(" " + rest) == Some(ts)
  {
    assert (" " + rest)[1..] == rest;
  }

  lemma TailText(op: Token, b: int, rest: string)
    requires IsRelational(op)
    ensures ComparisonTail(op, b) + rest == " " + (RelationText(op) + (" " + (NumText(b) + rest)))
  {
  }

  /** ` op b` lexes as the operator and the number whatever space or `)` follows. */
  lemma {:induction false} TokenizeTail(op: Token, b: int, rest: string, ts: seq<Token>)
    requires IsRelational(op)
    requires rest != [] && (rest[0] == ' ' || rest[0] == ')')
    requires Tokenize(rest) == Some(ts)
    ensures Tokenize(ComparisonTail(op, b) + rest) == Some([op] + NumTokens(b) + ts)
  {
    var t3 := NumText(b) + rest;
    var t2 := " " + t3;
    var t1 := RelationText(op) + t2;
    TokenizeNumText(b, rest, ts);
    TokenizeSpaced(t3, NumTokens(b) + ts);
    TokenizeRelation(op, t2, NumTokens(b) + ts);
    TokenizeSpaced(t1, [op] + (NumTokens(b) + ts));
    TailText(op, b, rest);
    assert [op] + (NumTokens(b) + ts) == [op] + NumTokens(b) + ts;
  }

  lemma {:induction false} TokenizeComparisonText(c: Comparison, rest: string, ts: seq<Token>)
    requires rest != [] && (rest[0] == ' ' || rest[0] == ')')
    requires Tokenize(rest) == Some(ts)
    ensures Tokenize(ComparisonText(c) + rest) == Some(TokensOf(c) + ts)
  {
    var tail := ComparisonTail(c.op, c.right) + rest;
    TokenizeTail(c.op, c.right, rest, ts);
    assert tail[0] == ' ';
    TokenizeNumText(c.left, tail, [c.op] + NumTokens(c.right) + ts);
    Sequences.JoinThree(NumText(c.left), ComparisonTail(c.op, c.right), rest);
    Sequences.JoinThree([c.op], NumTokens(c.right), ts);
    Sequences.JoinFour(NumTokens(c.left), [c.op], NumTokens(c.right), ts);
  }

  lemma {:induction false} TokenizeAnd(rest: string, ts: seq<Token>)
    requires Tokenize(rest) == Some(ts)
    ensures Tokenize(" && " + rest) == Some([And] + ts)
  {
    var s0 := " && " + rest;
    var s1 := "&& " + rest;
    var s2 := " " + rest;
    assert s0[1..] == s1;
    TokenizeSpace(s0);
    assert LexOne(s1) == Some((And, 2));
    assert s1[2..] == s2;
    TokenizeToken(s1, And, 2);
    assert s2[1..] == rest;
    TokenizeSpace(s2);
  }

  /** What follows a comparison in a chain: ` && …` or the closing parenthesis */
  lemma AndChainStart(cs: seq<Comparison>)
    ensures var t := AndChainText(cs) + ")"; t != [] && (t[0] == ' ' || t[0] == ')')
    ensures var ts := AndChainTokens(cs) + [RParen]; ts != [] && (ts[0] == And || ts[0] == RParen)
  {
  }

  lemma {:induction false} TokenizeAndChain(cs: seq<Comparison>)
    ensures Tokenize(AndChainText(cs) + ")") == Some(AndChainTokens(cs) + [RParen])
    decreases |cs|
  {
    if cs == [] {
      TokenizeClose();
      assert AndChainText(cs) + ")" == ")";
      assert AndChainTokens(cs) + [RParen] == [RParen];
    } else {
      TokenizeAndChain(cs[1..]);
      TokenizeAndStep(cs);
    }
  }

  lemma {:induction false} TokenizeAndStep(cs: seq<Comparison>)
    requires cs != []
    requires Tokenize(AndChainText(cs[1..]) + ")") == Some(AndChainTokens(cs[1..]) + [RParen])
    ensures Tokenize(AndChainText(cs) + ")") == Some(AndChainTokens(cs) + [RParen])
  {
    var rest := AndChainText(cs[1..]) + ")";
    var ts := AndChainTokens(cs[1..]) + [RParen];
    AndChainStart(cs[1..]);
    TokenizeComparisonText(cs[0], rest, ts);
    TokenizeAnd(ComparisonText(cs[0]) + rest, TokensOf(cs[0]) + ts);
    AndChainRegroup(cs);
  }

  lemma AndChainRegroup(cs: seq<Comparison>)
    requires cs != []
    ensures AndChainText(cs) + ")" == " && " + (ComparisonText(cs[0]) + (AndChainText(cs[1..]) + ")"))
    ensures AndChainTokens(cs) + [RParen] == [And] + (TokensOf(cs[0]) + (AndChainTokens(cs[1..]) + [RParen]))
  {
    Sequences.JoinFour(" && ", ComparisonText(cs[0]), AndChainText(cs[1..]), ")");
    Sequences.JoinFour([And], TokensOf(cs[0]), AndChainTokens(cs[1..]), [RParen]);
  }

  /**
   * A comparison followed by nothing or by a token that binds more
   * loosely than level `hi` parses as one value at level `hi`.
   */
  lemma {:induction false} ParseComparisonUpTo(c: Comparison, rest: seq<Token>, hi: nat)
    requires 4 <= hi <= 7
    requires rest == [] || OpLevel(rest[0]) == 0 || OpLevel(rest[0]) > hi
    ensures ParseBinary(hi, TokensOf(c) + rest) == Some((BoolV(HoldsFor(c)), rest))
  {
    var a, op, b := c.left, c.op, c.right;
    var ts := TokensOf(c) + rest;
    var rest1 := [op] + NumTokens(b) + rest;
    assert ts == NumTokens(a) + rest1;
    ParseUnaryNumber(a, rest1);
    LiftUnary(3, ts, NumV(a), rest1);
    assert rest1[1..] == NumTokens(b) + rest;
    ParseUnaryNumber(b, rest);
    LiftUnary(3, rest1[1..], NumV(b), rest);
    assert ParseTail(4, NumV(a), rest1) == ParseTail(4, Binary(op, NumV(a), NumV(b)), rest);
    assert ParseBinary(4, ts) == Some((BoolV(HoldsFor(c)), rest));
    LiftBinary(4, hi, ts, BoolV(HoldsFor(c)), rest);
  }

  /** The `&&` chain after a first value `x` parses to `x` and every further comparison. */
  lemma {:induction false} ParseAndChain(x: bool, cs: seq<Comparison>)
    ensures ParseTail(6, BoolV(x), AndChainTokens(cs) + [RParen]) == Some((BoolV(x && AllHold(cs)), [RParen]))
    decreases |cs|
  {
    if cs == [] {
      assert AndChainTokens(cs) + [RParen] == [RParen];
    } else {
      var rest := AndChainTokens(cs[1..]) + [RParen];
      var ts := AndChainTokens(cs) + [RParen];
      var h := HoldsFor(cs[0]);
      AndChainRegroup(cs);
      Sequences.DropFirst(And, TokensOf(cs[0]) + rest);
      AndChainStart(cs[1..]);
      ParseComparisonUpTo(cs[0], rest, 5);
      assert Binary(And, BoolV(x), BoolV(h)) == BoolV(x && h);
      ParseAndChain(x && h, cs[1..]);
      AllHoldCons(cs);
    }
  }

  /**
   * A conjunction `c1 && c2 && …` of integer comparisons executes to
   * whether every one of them holds.
   */
  lemma {:induction false} ExecuteConjunction(cs: seq<Comparison>)
    requires cs != []
    ensures Execute(ConjunctionText(cs)) == Some(AllHold(cs))
  {
    var inner := TokensOf(cs[0]) + (AndChainTokens(cs[1..]) + [RParen]);
    var v := BoolV(AllHold(cs));
    TokenizeConjunction(cs);
    ParseConjunction(cs);
    ParseBracketed(inner, v);
    ExecuteOf(ConjunctionText(cs), [LParen] + inner, v);
  }

  lemma {:induction false} TokenizeConjunction(cs: seq<Comparison>)
    requires cs != []
    ensures Tokenize("(" + ConjunctionText(cs) + ")") == Some([LParen] + (TokensOf(cs[0]) + (AndChainTokens(cs[1..]) + [RParen])))
  {
    var body := AndChainText(cs[1..]) + ")";
    var rest := AndChainTokens(cs[1..]) + [RParen];
    TokenizeAndChain(cs[1..]);
    AndChainStart(cs[1..]);
    TokenizeComparisonText(cs[0], body, rest);
    TokenizeOpen(ComparisonText(cs[0]) + body, TokensOf(cs[0]) + rest);
    Sequences.JoinThree(ComparisonText(cs[0]), AndChainText(cs[1..]), ")");
    Sequences.JoinThree("(", ConjunctionText(cs), ")");
  }

  lemma {:induction false} ParseConjunction(cs: seq<Comparison>)
    requires cs != []
    ensures ParseBinary(7, TokensOf(cs[0]) + (AndChainTokens(cs[1..]) + [RParen])) == Some((BoolV(AllHold(cs)), [RParen]))
  {
    var rest := AndChainTokens(cs[1..]) + [RParen];
    var inner := TokensOf(cs[0]) + rest;
    AndChainStart(cs[1..]);
    ParseComparisonUpTo(cs[0], rest, 5);
    ParseAndChain(HoldsFor(cs[0]), cs[1..]);
    AllHoldCons(cs);
    assert ParseBinary(6, inner) == Some((BoolV(AllHold(cs)), [RParen]));
    LiftBinary(6, 7, inner, BoolV(AllHold(cs)), [RParen]);
  }
}
