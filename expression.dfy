/** The condition and assignment language of scripts (`ExpressionHandlerImpl` in src/parser.cpp).
    A condition is split into tokens at spaces and around parentheses, then read by a
    right-recursive descent: `AND` and `OR` bind equally and group to the right, `NOT`
    negates everything after it, and a comparison is an operand, optionally followed by a
    relational operator and a second operand. Every message an evaluation records is
    returned alongside its value. */
module Expression {
  import opened StrUtil
  import opened State

  // ---------------------------------------------------------------- tokens

  lemma AppendAssoc<T>(a: seq<T>, b: seq<T>, c: seq<T>)
    ensures a + b + c == a + (b + c)
  {
  }

  predicate IsParen(c: char) { c == '(' || c == ')' }

  /** A character that belongs to a word token. */
  predicate IsWordChar(c: char) { c != ' ' && !IsParen(c) }

  predicate IsWord(w: string) { forall k | 0 <= k < |w| :: IsWordChar(w[k]) }

  /** The shapes a token can take: a lone parenthesis, or a non-empty word. */
  predicate WellToken(t: string) {
    t == "(" || t == ")" || (t != [] && IsWord(t))
  }

  function Flush(word: string): seq<string> {
    if word == [] then [] else [word]
  }

  /** The tokens of `s` when the word `word` has been read just before it. */
  function TokensFrom(s: string, word: string): (ts: seq<string>)
    requires IsWord(word)
    ensures forall k | 0 <= k < |ts| :: WellToken(ts[k])
    decreases |s|
  {
    if s == [] then Flush(word)
    else if s[0] == ' ' then Flush(word) + TokensFrom(s[1..], [])
    else if IsParen(s[0]) then Flush(word) + [[s[0]]] + TokensFrom(s[1..], [])
    else TokensFrom(s[1..], word + [s[0]])
  }

  /** `tokenize`: words separated by spaces, each parenthesis a token of its own. */
  function Tokens(s: string): seq<string> {
    TokensFrom(s, [])
  }

  /** All characters of the tokens, in order. */
  function Concat(ts: seq<string>): string {
    if ts == [] then [] else ts[0] + Concat(ts[1..])
  }

  /** `s` without its spaces. */
  function NonSpace(s: string): (t: string)
    ensures ' ' !in t
  {
    if s == [] then [] else (if s[0] == ' ' then [] else [s[0]]) + NonSpace(s[1..])
  }

  lemma {:induction false} ConcatAppend(a: seq<string>, b: seq<string>)
    ensures Concat(a + b) == Concat(a) + Concat(b)
    decreases |a|
  {
    if a != [] {
      assert (a + b)[0] == a[0] && (a + b)[1..] == a[1..] + b;
      ConcatAppend(a[1..], b);
      assert Concat(a + b) == a[0] + (Concat(a[1..]) + Concat(b));
    } else {
      assert a + b == b;
    }
  }

  lemma {:induction false} TokensFromKeepsText(s: string, word: string)
    requires IsWord(word)
    ensures Concat(TokensFrom(s, word)) == word + NonSpace(s)
    decreases |s|
  {
    if s == [] {
      assert Concat(Flush(word)) == word;
      assert word + NonSpace(s) == word;
    } else if s[0] == ' ' {
      SpaceKeepsText(s, word);
    } else if IsParen(s[0]) {
      ParenKeepsText(s, word);
    } else {
      var c := s[0];
      assert NonSpace(s) == [c] + NonSpace(s[1..]);
      WordAppend(word, [c]);
      TokensFromKeepsText(s[1..], word + [c]);
      AppendAssoc(word, [c], NonSpace(s[1..]));
    }
  }

  /** The step of `TokensFromKeepsText` at a space. */
  lemma {:induction false} SpaceKeepsText(s: string, word: string)
    requires IsWord(word) && s != [] && s[0] == ' '
    ensures Concat(TokensFrom(s, word)) == word + NonSpace(s)
    decreases |s|, 0
  {
    var rest := TokensFrom(s[1..], []);
    assert TokensFrom(s, word) == Flush(word) + rest;
    assert NonSpace(s) == NonSpace(s[1..]);
    TokensFromKeepsText(s[1..], []);
    ConcatAppend(Flush(word), rest);
    assert Concat(Flush(word)) == word;
  }

  /** The step of `TokensFromKeepsText` at a parenthesis. */
  lemma {:induction false} ParenKeepsText(s: string, word: string)
    requires IsWord(word) && s != [] && IsParen(s[0])
    ensures Concat(TokensFrom(s, word)) == word + NonSpace(s)
    decreases |s|, 0
  {
    var c := s[0];
    var rest := TokensFrom(s[1..], []);
    var head := Flush(word) + [[c]];
    var n := NonSpace(s[1..]);
    assert TokensFrom(s, word) == head + rest;
    assert NonSpace(s) == [c] + n;
    TokensFromKeepsText(s[1..], []);
    assert Concat(rest) == n by { assert [] + n == n; }
    ConcatFlushChar(word, c);
    ConcatAppend(head, rest);
    AppendAssoc(word, [c], n);
  }

  lemma ConcatFlushChar(word: string, c: char)
    ensures Concat(Flush(word) + [[c]]) == word + [c]
  {
    ConcatAppend(Flush(word), [[c]]);
    assert Concat(Flush(word)) == word;
    assert Concat([[c]]) == [c];
  }

  /** Tokenizing loses nothing but the spaces. */
  lemma TokensKeepText(s: string)
    ensures Concat(Tokens(s)) == NonSpace(s)
  {
    TokensFromKeepsText(s, []);
  }

  /** A word read whole into the pending word. */
  lemma {:induction false} TokensFromWord(w: string, s: string, word: string)
    requires IsWord(word) && IsWord(w)
    ensures TokensFrom(w + s, word) == TokensFrom(s, word + w)
    decreases |w|
  {
    if w != [] {
      assert (w + s)[0] == w[0] && IsWordChar(w[0]);
      assert (w + s)[1..] == w[1..] + s;
      WordAppend(word, [w[0]]);
      assert IsWord(w[1..]) by {
        forall k | 0 <= k < |w[1..]| ensures IsWordChar(w[1..][k]) {
          assert w[1..][k] == w[k + 1];
        }
      }
      TokensFromWord(w[1..], s, word + [w[0]]);
      assert word + [w[0]] + w[1..] == word + w;
    } else {
      assert w + s == s && word + w == word;
    }
  }

  lemma WordAppend(a: string, b: string)
    requires IsWord(a) && IsWord(b)
    ensures IsWord(a + b)
  {
    forall k | 0 <= k < |a + b| ensures IsWordChar((a + b)[k]) {
      if k < |a| {
        assert (a + b)[k] == a[k];
      } else {
        assert (a + b)[k] == b[k - |a|];
      }
    }
  }

  /** Tokenizing tokens written out with single spaces between them gives the same tokens back. */
  lemma {:induction false} TokensOfJoin(ts: seq<string>)
    requires forall k | 0 <= k < |ts| :: WellToken(ts[k])
    ensures Tokens(Join(ts, " ")) == ts
    decreases |ts|
  {
    if |ts| == 1 {
      TokensOneToken(ts[0], "");
      assert ts[0] + "" == ts[0];
    } else if |ts| > 1 {
      var rest := Join(ts[1..], " ");
      TokensOfJoin(ts[1..]);
      TokensOneToken(ts[0], " " + rest);
      AppendAssoc(ts[0], " ", rest);
      assert ts == [ts[0]] + ts[1..];
    }
  }

  /** One token followed by a space or by the end. */
  lemma TokensOneToken(t: string, s: string)
    requires WellToken(t)
    requires s == [] || s[0] == ' '
    ensures TokensFrom(t + s, []) == [t] + TokensFrom(if s == [] then [] else s[1..], [])
  {
    if t == "(" || t == ")" {
      TokensParen(t, s);
      if s != [] {
        assert TokensFrom(s, []) == [] + TokensFrom(s[1..], []);
      }
    } else {
      TokensFromWord(t, s, []);
      assert [] + t == t;
    }
  }

  /** A parenthesis is a token on its own. */
  lemma TokensParen(t: string, s: string)
    requires t == "(" || t == ")"
    ensures TokensFrom(t + s, []) == [t] + TokensFrom(s, [])
  {
    var c := t[0];
    assert t == [c] && (t + s)[0] == c && (t + s)[1..] == s;
    assert TokensFrom(t + s, []) == [] + [[c]] + TokensFrom(s, []);
  }

  // ---------------------------------------------------------------- literals and operands

  /** `isIntLiteral`: non-empty, and only digits after an optional leading minus. A lone `-`
      passes this test. */
  predicate IntLiteral(val: string) {
    |val| > 0 && SkipDigits(val, if val[0] == '-' then 1 else 0) == |val|
  }

  /** Stands for the exception `std::stoi` throws on a literal it cannot read (`-`, or a value
      outside `int`); the model records it as an error and reads 0. */
  const StoiFailed := "std::stoi failed"

  /** `parseIntLiteral`: the value and the errors recorded. */
  function ParseIntLiteralSpec(val: string): (r: (i32, seq<string>))
    ensures IntLiteral(val) && Stoi(val).Some? ==> r == (Stoi(val).value, [])
    ensures Stoi(val).None? ==> r.0 == 0 && r.1 != []
  {
    var check := if IntLiteral(val) then [] else ["Expected int literal"];
    match Stoi(val)
    case Some(v) => (v, check)
    case None => (0, check + [StoiFailed])
  }

  /** `parseSingleIntValue`: a literal first, then a variable, otherwise 0 and an error. */
  function SingleIntValueSpec(vars: map<string, i32>, val: string): (r: (i32, seq<string>))
    ensures !IntLiteral(val) && val in vars ==> r == (vars[val], [])
    ensures !IntLiteral(val) && val !in vars ==> r == (0, ["Expected int literal or variable"])
  {
    if IntLiteral(val) then ParseIntLiteralSpec(val)
    else if val in vars then (vars[val], [])
    else (0, ["Expected int literal or variable"])
  }

  /** A token that the evaluator reads as a value. */
  predicate IsOperand(vars: map<string, i32>, t: string) {
    IntLiteral(t) || t in vars
  }

  /** The relational operators of a comparison. */
  datatype RelOp = Eq | Ge | Ne | Le | Lt | Gt

  /** How `evalCompExpr` compares its two values. */
  function Compare(op: RelOp, a: int, b: int): bool {
    match op
    case Eq => a == b
    case Ge => a >= b
    case Ne => a != b
    case Le => a <= b
    case Lt => a < b
    case Gt => a > b
  }

  /** The words `evalExpr` and `evalCompExpr` compare tokens with. */
  datatype Keyword = AndWord | OrWord | NotWord | LeftParen | RightParen | Relation(op: RelOp) | NoKeyword

  function Spelling(k: Keyword): string
    requires k != NoKeyword
  {
    match k
    case AndWord => "AND"
    case OrWord => "OR"
    case NotWord => "NOT"
    case LeftParen => "("
    case RightParen => ")"
    case Relation(op) =>
      match op
      case Eq => "=="
      case Ge => ">="
      case Ne => "!="
      case Le => "<="
      case Lt => "<"
      case Gt => ">"
  }

  /** The word a token spells, if any, told apart by its length and characters. */
  function KeywordOf(t: string): (k: Keyword)
    ensures k != NoKeyword ==> Spelling(k) == t
  {
    if |t| == 1 then
      match t[0]
      case '(' => LeftParen
      case ')' => RightParen
      case '<' => Relation(Lt)
      case '>' => Relation(Gt)
      case _ => NoKeyword
    else if |t| == 2 && t[1] == '=' then
      match t[0]
      case '=' => Relation(Eq)
      case '>' => Relation(Ge)
      case '!' => Relation(Ne)
      case '<' => Relation(Le)
      case _ => NoKeyword
    else if |t| == 2 && t[0] == 'O' && t[1] == 'R' then OrWord
    else if |t| == 3 && t[0] == 'A' && t[1] == 'N' && t[2] == 'D' then AndWord
    else if |t| == 3 && t[0] == 'N' && t[1] == 'O' && t[2] == 'T' then NotWord
    else NoKeyword
  }

  /** The six comparison operators are exactly the tokens that read as a relation. */
  lemma RelationTokens(t: string)
    ensures KeywordOf(t).Relation? <==> t == "==" || t == ">=" || t == "!=" || t == "<=" || t == "<" || t == ">"
  {
  }

  /** Every word is recognised by its spelling. */
  lemma KeywordOfSpelling(k: Keyword)
    requires k != NoKeyword
    ensures KeywordOf(Spelling(k)) == k
  {
  }

  // ---------------------------------------------------------------- evaluation

  /** How the evaluator reads one token: the word it spells, whether `evalExpr` and
      `evalCompExpr` take it as an operand (`isIntLiteral(t) || hasVar(t)`), and the value
      and errors `parseSingleIntValue` gives for it. */
  datatype Reading = Reading(word: Keyword, operand: bool, value: i32, errs: seq<string>)

  function Read(vars: map<string, i32>, t: string): (r: Reading)
    ensures r.word == KeywordOf(t)
    ensures r.operand <==> IntLiteral(t) || t in vars
    ensures !r.operand ==> r.value == 0 && r.errs == ["Expected int literal or variable"]
  {
    var v := SingleIntValueSpec(vars, t);
    Reading(KeywordOf(t), IsOperand(vars, t), v.0, v.1)
  }

  /** How `evalExpr` reads tokens while the variables are `vars`. */
  function Reader(vars: map<string, i32>): string -> Reading {
    t => Read(vars, t)
  }

  /** The reading of every token while the variables are `vars`. They do not change while a
      condition is evaluated, so a token reads the same whenever the evaluator reaches it; its
      errors are recorded only when the evaluator actually reads it. */
  function Readings(vars: map<string, i32>, toks: seq<string>): (rs: seq<Reading>)
    ensures |rs| == |toks|
  {
    if toks == [] then [] else [Read(vars, toks[0])] + Readings(vars, toks[1..])
  }

  lemma {:induction false} ReadingsAt(vars: map<string, i32>, toks: seq<string>, j: nat)
    requires j < |toks|
    ensures Readings(vars, toks)[j] == Read(vars, toks[j])
    decreases j
  {
    assert Readings(vars, toks) == [Read(vars, toks[0])] + Readings(vars, toks[1..]);
    if j > 0 {
      ReadingsAt(vars, toks[1..], j - 1);
    }
  }

  /** The word of the reading at `j`: a lighter consequence of `ReadingsAt`. */
  lemma WordAt(vars: map<string, i32>, toks: seq<string>, j: nat)
    requires j < |toks|
    ensures Readings(vars, toks)[j].word == KeywordOf(toks[j])
  {
    ReadingsAt(vars, toks, j);
  }

  /** What one evaluation step yields: its value, the index of the first token it did not
      consume, and the errors it recorded, in order. */
  datatype Eval = Eval(value: bool, next: nat, errs: seq<string>)

  /** `evalCompExpr` from token `i`, over the readings `rs` of the tokens. */
  function CompSpec(rs: seq<Reading>, i: nat): (r: Eval)
    requires i <= |rs|
    ensures i <= r.next <= |rs|
    ensures i < |rs| ==> i < r.next
  {
    if i == |rs| then Eval(false, i, ["Unexpected end"])
    else
      var first := rs[i];
      var k := i + 1;
      if k == |rs| || !rs[k].word.Relation? then Eval(first.value != 0, k, first.errs)
      else if k + 1 == |rs| then Eval(false, k + 1, first.errs + ["Unexpected end"])
      else if rs[k + 1].operand then
        Eval(Compare(rs[k].word.op, first.value, rs[k + 1].value), k + 2, first.errs + rs[k + 1].errs)
      else Eval(Compare(rs[k].word.op, first.value, 0), k + 1, first.errs)
  }

  /** `evalExpr` from token `i`. */
  function ExprSpec(rs: seq<Reading>, i: nat): (r: Eval)
    requires i <= |rs|
    ensures i <= r.next <= |rs|
    decreases |rs| - i, 1
  {
    if i == |rs| then Eval(false, i, ["Unexpected end"])
    else if rs[i].operand then
      var atom := CompSpec(rs, i);
      var rest := Continue(rs, atom.value, atom.next);
      Eval(rest.value, rest.next, atom.errs + rest.errs)
    else if rs[i].word == LeftParen then
      var inner := ExprSpec(rs, i + 1);
      if inner.next == |rs| || rs[inner.next].word != RightParen then
        Eval(false, inner.next, inner.errs + ["Unclosed parenthesis"])
      else
        var rest := Continue(rs, inner.value, inner.next + 1);
        Eval(rest.value, rest.next, inner.errs + rest.errs)
    else if rs[i].word == NotWord then
      var inner := ExprSpec(rs, i + 1);
      Eval(!inner.value, inner.next, inner.errs)
    else Eval(false, i, ["Unknown token"])
  }

  /** The rest of `evalExpr` once an atom of value `value` has been read up to token `j`: an
      `AND` or `OR` joins it to the condition after the keyword, both sides always evaluated;
      anything else ends the condition here. The errors are those recorded after the atom. */
  function Continue(rs: seq<Reading>, value: bool, j: nat): (r: Eval)
    requires j <= |rs|
    ensures j <= r.next <= |rs|
    decreases |rs| - j, 0
  {
    if j == |rs| then Eval(value, j, [])
    else if rs[j].word == AndWord then
      var right := ExprSpec(rs, j + 1);
      Eval(value && right.value, right.next, right.errs)
    else if rs[j].word == OrWord then
      var right := ExprSpec(rs, j + 1);
      Eval(value || right.value, right.next, right.errs)
    else Eval(value, j, [])
  }

  /** `evalAsBool`: the value of a whole condition and every error it records; tokens left over
      are an error of their own. */
  function EvalAsBoolSpec(vars: map<string, i32>, test: string): (bool, seq<string>) {
    var toks := Tokens(test);
    var r := ExprSpec(Readings(vars, toks), 0);
    (r.value, r.errs + if r.next < |toks| then ["Unhandled remainder in " + test] else [])
  }

  /** The message `getVar` / `setVar` record for a missing variable. */
  function NotFound(key: string): string {
    NotFoundPrefix + key + NotFoundSuffix
  }

  const NotFoundPrefix := "Variable: '"
  const NotFoundSuffix := "' not found!"

  /** `execAssignment` for `<dest> = <source>`: the variables afterwards and the errors
      recorded. A missing destination is still written (and so created). Fewer than three
      tokens would make the source read past the end of its token list; the model records
      `Incomplete assignment` and writes nothing. A source that is neither a variable nor a
      literal leaves the value uninitialised in the source; the model writes 0. */
  function AssignSpec(vars: map<string, i32>, param: string): (r: (map<string, i32>, seq<string>))
    ensures |Tokens(param)| < 3 ==> r == (vars, ["Incomplete assignment"])
    ensures |Tokens(param)| >= 3 ==> r.0.Keys == vars.Keys + {Tokens(param)[0]}
    ensures |Tokens(param)| >= 3 ==>
              forall k | k in vars && k != Tokens(param)[0] :: r.0[k] == vars[k]
    ensures |Tokens(param)| >= 3 && Tokens(param)[2] in vars ==>
              r.0[Tokens(param)[0]] == vars[Tokens(param)[2]]
    ensures |Tokens(param)| >= 3 && Tokens(param)[2] !in vars && IntLiteral(Tokens(param)[2])
            && Stoi(Tokens(param)[2]).Some? ==>
              r.0[Tokens(param)[0]] == Stoi(Tokens(param)[2]).value
    ensures |Tokens(param)| >= 3 ==>
              (r.1 == [] <==> && |Tokens(param)| == 3 && Tokens(param)[0] in vars
                              && Tokens(param)[1] == "="
                              && (Tokens(param)[2] in vars
                                  || (IntLiteral(Tokens(param)[2]) && Stoi(Tokens(param)[2]).Some?)))
  {
    var toks := Tokens(param);
    if |toks| < 3 then (vars, ["Incomplete assignment"])
    else
      var dest := toks[0];
      var e1 := if dest in vars then [] else ["LET must be followed by variable"];
      var e2 := if toks[1] == "=" then [] else ["LET variable must be followed by '='"];
      var src := SourceValue(vars, toks[2]);
      var e4 := if |toks| > 3 then ["Unhandled remainder in " + param] else [];
      var e5 := if dest in vars then [] else [NotFound(dest)];
      (vars[dest := src.0], e1 + e2 + src.1 + e4 + e5)
  }

  /** The value `execAssignment` reads after `=`, and the errors it records reading it: a
      variable first, then a literal. */
  function SourceValue(vars: map<string, i32>, t: string): (r: (i32, seq<string>))
    ensures t in vars ==> r == (vars[t], [])
    ensures t !in vars && !IntLiteral(t) ==> r == (0, ["Unexpected value after '='"])
  {
    if t in vars then (vars[t], [])
    else if IntLiteral(t) then ParseIntLiteralSpec(t)
    else (0, ["Unexpected value after '='"])
  }

  // ---------------------------------------------------------------- reference grammar

  /** An operand as written: a literal or a variable name. */
  datatype Operand = Lit(n: i32) | Name(name: string)

  /** What may stand before `AND` / `OR`: a comparison, a single operand, or a parenthesised condition. */
  datatype Atom = Cmp(left: Operand, op: RelOp, right: Operand) | Truth(operand: Operand) | Paren(inner: Cond)

  /** A condition: `NOT` over the rest, one atom, or an atom joined to the rest by `AND` / `OR`. */
  datatype Cond = Not(arg: Cond) | Single(atom: Atom) | And(first: Atom, rest: Cond) | Or(first: Atom, rest: Cond)

  function OperandToken(o: Operand): string {
    match o
    case Lit(n) => IntToString(n)
    case Name(x) => x
  }

  function RenderAtom(a: Atom): seq<string> {
    match a
    case Cmp(l, op, r) => [OperandToken(l), Spelling(Relation(op)), OperandToken(r)]
    case Truth(o) => [OperandToken(o)]
    case Paren(c) => ["("] + Render(c) + [")"]
  }

  /** The tokens of a condition. */
  function Render(c: Cond): seq<string> {
    match c
    case Not(c') => ["NOT"] + Render(c')
    case Single(a) => RenderAtom(a)
    case And(a, c') => RenderAtom(a) + ["AND"] + Render(c')
    case Or(a, c') => RenderAtom(a) + ["OR"] + Render(c')
  }

  /** Operands the evaluator reads as written: a variable must exist and must not look like a literal. */
  predicate OperandOk(vars: map<string, i32>, o: Operand) {
    o.Name? ==> o.name in vars && !IntLiteral(o.name)
  }

  predicate AtomOk(vars: map<string, i32>, a: Atom) {
    match a
    case Cmp(l, _, r) => OperandOk(vars, l) && OperandOk(vars, r)
    case Truth(o) => OperandOk(vars, o)
    case Paren(c) => CondOk(vars, c)
  }

  predicate CondOk(vars: map<string, i32>, c: Cond) {
    match c
    case Not(c') => CondOk(vars, c')
    case Single(a) => AtomOk(vars, a)
    case And(a, c') => AtomOk(vars, a) && CondOk(vars, c')
    case Or(a, c') => AtomOk(vars, a) && CondOk(vars, c')
  }

  /** No variable shadows the keywords that open a condition. */
  predicate KeywordsFree(vars: map<string, i32>) {
    "(" !in vars && "NOT" !in vars
  }

  function OperandValue(vars: map<string, i32>, o: Operand): int
    requires OperandOk(vars, o)
  {
    match o
    case Lit(n) => n
    case Name(x) => vars[x]
  }

  function AtomHolds(vars: map<string, i32>, a: Atom): bool
    requires AtomOk(vars, a)
  {
    match a
    case Cmp(l, op, r) => Compare(op, OperandValue(vars, l), OperandValue(vars, r))
    case Truth(o) => OperandValue(vars, o) != 0
    case Paren(c) => Holds(vars, c)
  }

  /** The meaning of a condition. */
  function Holds(vars: map<string, i32>, c: Cond): bool
    requires CondOk(vars, c)
  {
    match c
    case Not(c') => !Holds(vars, c')
    case Single(a) => AtomHolds(vars, a)
    case And(a, c') => AtomHolds(vars, a) && Holds(vars, c')
    case Or(a, c') => AtomHolds(vars, a) || Holds(vars, c')
  }

  lemma LiteralToken(n: i32)
    ensures IntLiteral(IntToString(n))
    ensures Stoi(IntToString(n)) == Some(n)
  {
    StoiIntToString(n);
    IntToStringDigits(n);
  }

  /** An operand token reads back as the operand's value, without error. */
  lemma OperandReads(vars: map<string, i32>, o: Operand)
    requires OperandOk(vars, o)
    ensures var r := Read(vars, OperandToken(o));
            r.operand && r.value as int == OperandValue(vars, o) && r.errs == []
  {
    if o.Lit? {
      LiteralToken(o.n);
    }
  }

  lemma OperandTokenWell(o: Operand)
    requires o.Lit?
    ensures WellToken(OperandToken(o))
  {
    var s := IntToString(o.n);
    IntToStringDigits(o.n);
    SkipDigitsEnd(s, if o.n < 0 then 1 else 0);
    forall k | 0 <= k < |s| ensures IsWordChar(s[k]) {
      if k == 0 && o.n < 0 {
        assert s[k] == '-';
      } else {
        assert IsDigit(s[k]);
      }
    }
  }

  // ---------------------------------------------------------------- the evaluator follows the grammar

  /** What the evaluator needs of a reader to follow the grammar: the keywords a condition is
      built from read as those keywords, the two that open a condition not as operands, and
      every well-formed operand as its value, without error. */
  ghost predicate ReadsGrammar(vars: map<string, i32>, rd: string -> Reading) {
    && rd("AND").word == AndWord
    && rd("OR").word == OrWord
    && rd(")").word == RightParen
    && rd("(").word == LeftParen && !rd("(").operand
    && rd("NOT").word == NotWord && !rd("NOT").operand
    && (forall op: RelOp :: rd(Spelling(Relation(op))).word == Relation(op))
    && (forall o | OperandOk(vars, o) ::
          rd(OperandToken(o)).operand && rd(OperandToken(o)).value as int == OperandValue(vars, o)
          && rd(OperandToken(o)).errs == [])
  }

  /** The evaluator's own reader does, as long as no variable is called `(` or `NOT`. */
  lemma ReaderReadsGrammar(vars: map<string, i32>)
    requires KeywordsFree(vars)
    ensures ReadsGrammar(vars, Reader(vars))
  {
    var rd := Reader(vars);
    forall op: RelOp ensures rd(Spelling(Relation(op))).word == Relation(op) {
      KeywordOfSpelling(Relation(op));
    }
    forall o | OperandOk(vars, o)
      ensures rd(OperandToken(o)).operand && rd(OperandToken(o)).value as int == OperandValue(vars, o)
              && rd(OperandToken(o)).errs == []
    {
      OperandReads(vars, o);
    }
    assert !IsDigit("("[0]) && !IsDigit("NOT"[0]);
  }

  /** From index `i` on, `rs` holds the readings of the tokens `xs`. */
  ghost predicate Reads(rd: string -> Reading, rs: seq<Reading>, i: nat, xs: seq<string>) {
    i + |xs| <= |rs| && forall k | 0 <= k < |xs| :: rs[i + k] == rd(xs[k])
  }

  /** Where the readings of `xs + [k] + ys` sit in `rs`. */
  lemma ReadsJoined(rd: string -> Reading, rs: seq<Reading>, i: nat, xs: seq<string>, k: string, ys: seq<string>)
    requires Reads(rd, rs, i, xs + [k] + ys)
    ensures Reads(rd, rs, i, xs)
    ensures i + |xs| < |rs| && rs[i + |xs|] == rd(k)
    ensures Reads(rd, rs, i + |xs| + 1, ys)
  {
    var zs := xs + [k] + ys;
    forall j | 0 <= j < |xs| ensures rs[i + j] == rd(xs[j]) {
      assert zs[j] == xs[j];
    }
    assert zs[|xs|] == k;
    forall j | 0 <= j < |ys| ensures rs[i + |xs| + 1 + j] == rd(ys[j]) {
      assert zs[|xs| + 1 + j] == ys[j];
    }
  }

  /** The evaluator stops a condition at the end or at `)`. */
  predicate EndsCond(rs: seq<Reading>, j: nat) {
    j >= |rs| || rs[j].word == RightParen
  }

  /** What may follow an atom: the end, `)`, or a keyword that joins it to more. */
  predicate EndsAtom(rs: seq<Reading>, j: nat) {
    j >= |rs| || rs[j].word == RightParen || rs[j].word == AndWord || rs[j].word == OrWord
  }

  /** A comparison or a single operand followed by something that ends it: `evalCompExpr`
      reads exactly its tokens, without error. */
  lemma CompRender(vars: map<string, i32>, rd: string -> Reading, a: Atom, rs: seq<Reading>, i: nat)
    requires ReadsGrammar(vars, rd) && (a.Cmp? || a.Truth?) && AtomOk(vars, a)
    requires Reads(rd, rs, i, RenderAtom(a)) && EndsAtom(rs, i + |RenderAtom(a)|)
    ensures CompSpec(rs, i) == Eval(AtomHolds(vars, a), i + |RenderAtom(a)|, [])
  {
    var xs := RenderAtom(a);
    assert rs[i] == rd(xs[0]);
    if a.Cmp? {
      assert rs[i + 1] == rd(xs[1]) && rs[i + 2] == rd(xs[2]);
    }
  }

  /** `evalExpr` at an operand: a comparison, then the rest. */
  lemma ExprAtOperand(rs: seq<Reading>, i: nat)
    requires i < |rs| && rs[i].operand
    ensures var atom := CompSpec(rs, i);
            var rest := Continue(rs, atom.value, atom.next);
            ExprSpec(rs, i) == Eval(rest.value, rest.next, atom.errs + rest.errs)
  {
  }

  /** `evalExpr` at `(` that is not an operand, when the inner condition stops at a `)` at `k`:
      the inner condition, the `)`, then the rest. */
  lemma ExprAtParen(rs: seq<Reading>, i: nat, k: nat)
    requires i < |rs| && !rs[i].operand && rs[i].word == LeftParen
    requires k < |rs| && rs[k].word == RightParen
    ensures var inner := ExprSpec(rs, i + 1);
            inner.next == k ==>
              var rest := Continue(rs, inner.value, k + 1);
              ExprSpec(rs, i) == Eval(rest.value, rest.next, inner.errs + rest.errs)
  {
  }

  /** `evalExpr` at `(` whose condition stops at `k`, where there is no `)`: an error, and the
      value is false. */
  lemma ExprAtUnclosed(rs: seq<Reading>, i: nat, k: nat)
    requires i < |rs| && !rs[i].operand && rs[i].word == LeftParen
    requires k == |rs| || (k < |rs| && rs[k].word != RightParen)
    ensures var inner := ExprSpec(rs, i + 1);
            inner.next == k ==> ExprSpec(rs, i) == Eval(false, k, inner.errs + ["Unclosed parenthesis"])
  {
  }

  /** `evalExpr` at `NOT` that is not an operand: the negated rest. */
  lemma ExprAtNot(rs: seq<Reading>, i: nat)
    requires i < |rs| && !rs[i].operand && rs[i].word == NotWord
    ensures var inner := ExprSpec(rs, i + 1);
            ExprSpec(rs, i) == Eval(!inner.value, inner.next, inner.errs)
  {
  }

  /** `AND` / `OR` after an atom: the condition after the keyword is evaluated and combined. */
  lemma ContinueJoin(rs: seq<Reading>, value: bool, j: nat)
    requires j < |rs| && (rs[j].word == AndWord || rs[j].word == OrWord)
    ensures var right := ExprSpec(rs, j + 1);
            Continue(rs, value, j)
            == Eval(if rs[j].word == AndWord then value && right.value else value || right.value, right.next, right.errs)
  {
  }

  /** Nothing to join: the condition ends with the atom. */
  lemma ContinueEnd(rs: seq<Reading>, value: bool, j: nat)
    requires j <= |rs| && EndsCond(rs, j)
    ensures Continue(rs, value, j) == Eval(value, j, [])
  {
  }

  /** The evaluator computes the meaning of every well-formed condition, consuming exactly its
      tokens and recording no error, when the condition is followed by the end or by `)`. */
  lemma {:induction false} ExprSpecRender(vars: map<string, i32>, rd: string -> Reading, c: Cond, rs: seq<Reading>, i: nat)
    requires ReadsGrammar(vars, rd) && CondOk(vars, c)
    requires Reads(rd, rs, i, Render(c)) && EndsCond(rs, i + |Render(c)|)
    ensures ExprSpec(rs, i) == Eval(Holds(vars, c), i + |Render(c)|, [])
    decreases c, 2
  {
    match c
    case Not(c') =>
      assert Render(c) == [] + ["NOT"] + Render(c');
      ReadsJoined(rd, rs, i, [], "NOT", Render(c'));
      ExprSpecRender(vars, rd, c', rs, i + 1);
      ExprAtNot(rs, i);
    case Single(a) =>
      AtomRender(vars, rd, a, rs, i);
      ContinueEnd(rs, AtomHolds(vars, a), i + |Render(c)|);
    case And(a, c') =>
      JoinRender(vars, rd, c, rs, i);
    case Or(a, c') =>
      JoinRender(vars, rd, c, rs, i);
  }

  /** An atom joined by `AND` or `OR` to a condition. */
  lemma {:induction false} JoinRender(vars: map<string, i32>, rd: string -> Reading, c: Cond, rs: seq<Reading>, i: nat)
    requires (c.And? || c.Or?) && ReadsGrammar(vars, rd) && CondOk(vars, c)
    requires Reads(rd, rs, i, Render(c)) && EndsCond(rs, i + |Render(c)|)
    ensures ExprSpec(rs, i) == Eval(Holds(vars, c), i + |Render(c)|, [])
    decreases c, 1
  {
    JoinAtom(vars, rd, c, rs, i);
    JoinRest(vars, rd, c, rs, i);
    JoinStep(vars, c, rs, i);
  }

  /** The atom of a joined condition is read up to the keyword after it. */
  lemma {:induction false} JoinAtom(vars: map<string, i32>, rd: string -> Reading, c: Cond, rs: seq<Reading>, i: nat)
    requires (c.And? || c.Or?) && ReadsGrammar(vars, rd) && CondOk(vars, c)
    requires Reads(rd, rs, i, Render(c)) && EndsCond(rs, i + |Render(c)|)
    ensures var m := |RenderAtom(c.first)|;
            && i + m < |rs| && rs[i + m].word == (if c.And? then AndWord else OrWord)
            && |Render(c)| == m + 1 + |Render(c.rest)|
            && ExprSpec(rs, i) == Continue(rs, AtomHolds(vars, c.first), i + m)
    decreases c, 0
  {
    JoinParts(vars, rd, c, rs, i);
    AtomRender(vars, rd, c.first, rs, i);
  }

  /** The condition after the keyword of a joined condition is read to the end. */
  lemma {:induction false} JoinRest(vars: map<string, i32>, rd: string -> Reading, c: Cond, rs: seq<Reading>, i: nat)
    requires (c.And? || c.Or?) && ReadsGrammar(vars, rd) && CondOk(vars, c)
    requires Reads(rd, rs, i, Render(c)) && EndsCond(rs, i + |Render(c)|)
    ensures var m := |RenderAtom(c.first)|;
            && i + m + 1 <= |rs|
            && ExprSpec(rs, i + m + 1) == Eval(Holds(vars, c.rest), i + m + 1 + |Render(c.rest)|, [])
    decreases c, 0
  {
    JoinParts(vars, rd, c, rs, i);
    var j := i + |RenderAtom(c.first)| + 1;
    assert EndsCond(rs, j + |Render(c.rest)|) by {
      assert j + |Render(c.rest)| == i + |Render(c)|;
    }
    ExprSpecRender(vars, rd, c.rest, rs, j);
  }

  /** Where the atom, the keyword and the rest of a joined condition sit among the readings. */
  lemma JoinParts(vars: map<string, i32>, rd: string -> Reading, c: Cond, rs: seq<Reading>, i: nat)
    requires (c.And? || c.Or?) && ReadsGrammar(vars, rd) && CondOk(vars, c)
    requires Reads(rd, rs, i, Render(c)) && EndsCond(rs, i + |Render(c)|)
    ensures AtomOk(vars, c.first) && CondOk(vars, c.rest)
    ensures Reads(rd, rs, i, RenderAtom(c.first)) && EndsAtom(rs, i + |RenderAtom(c.first)|)
    ensures i + |RenderAtom(c.first)| < |rs|
    ensures rs[i + |RenderAtom(c.first)|].word == (if c.And? then AndWord else OrWord)
    ensures Reads(rd, rs, i + |RenderAtom(c.first)| + 1, Render(c.rest))
    ensures |Render(c)| == |RenderAtom(c.first)| + 1 + |Render(c.rest)|
  {
    var a, c' := c.first, c.rest;
    var k := if c.And? then "AND" else "OR";
    assert Render(c) == RenderAtom(a) + [k] + Render(c');
    ReadsJoined(rd, rs, i, RenderAtom(a), k, Render(c'));
    assert rs[i + |RenderAtom(a)|].word == rd(k).word;
  }

  /** The last step of `JoinRender`: the atom, the keyword after it and the condition after
      that, each already read, combine into the whole condition. */
  lemma JoinStep(vars: map<string, i32>, c: Cond, rs: seq<Reading>, i: nat)
    requires (c.And? || c.Or?) && CondOk(vars, c)
    requires var m := |RenderAtom(c.first)|;
             && i + m < |rs| && rs[i + m].word == (if c.And? then AndWord else OrWord)
             && |Render(c)| == m + 1 + |Render(c.rest)|
    requires i + |RenderAtom(c.first)| <= |rs|
    requires ExprSpec(rs, i) == Continue(rs, AtomHolds(vars, c.first), i + |RenderAtom(c.first)|)
    requires ExprSpec(rs, i + |RenderAtom(c.first)| + 1)
             == Eval(Holds(vars, c.rest), i + |RenderAtom(c.first)| + 1 + |Render(c.rest)|, [])
    ensures ExprSpec(rs, i) == Eval(Holds(vars, c), i + |Render(c)|, [])
  {
    ContinueJoin(rs, AtomHolds(vars, c.first), i + |RenderAtom(c.first)|);
  }

  /** At a well-formed atom, `evalExpr` reads exactly the atom's tokens without error and goes
      on with what follows it. */
  lemma {:induction false} AtomRender(vars: map<string, i32>, rd: string -> Reading, a: Atom, rs: seq<Reading>, i: nat)
    requires ReadsGrammar(vars, rd) && AtomOk(vars, a)
    requires Reads(rd, rs, i, RenderAtom(a)) && EndsAtom(rs, i + |RenderAtom(a)|)
    ensures i + |RenderAtom(a)| <= |rs|
    ensures ExprSpec(rs, i) == Continue(rs, AtomHolds(vars, a), i + |RenderAtom(a)|)
    decreases a, 1
  {
    if a.Paren? {
      ParenRender(vars, rd, a, rs, i);
    } else {
      assert rs[i] == rd(RenderAtom(a)[0]);
      CompRender(vars, rd, a, rs, i);
      ExprAtOperand(rs, i);
    }
  }

  /** A parenthesised condition: `evalExpr` reads it up to its `)` and goes on after it. */
  lemma {:induction false} ParenRender(vars: map<string, i32>, rd: string -> Reading, a: Atom, rs: seq<Reading>, i: nat)
    requires a.Paren? && ReadsGrammar(vars, rd) && AtomOk(vars, a)
    requires Reads(rd, rs, i, RenderAtom(a))
    ensures i + |RenderAtom(a)| <= |rs|
    ensures ExprSpec(rs, i) == Continue(rs, AtomHolds(vars, a), i + |RenderAtom(a)|)
    decreases a, 0
  {
    var c := a.inner;
    assert RenderAtom(a) == [] + ["("] + (Render(c) + [")"]);
    ReadsJoined(rd, rs, i, [], "(", Render(c) + [")"]);
    assert Render(c) + [")"] == Render(c) + [")"] + [];
    ReadsJoined(rd, rs, i + 1, Render(c), ")", []);
    ExprSpecRender(vars, rd, c, rs, i + 1);
    ExprAtParen(rs, i, i + 1 + |Render(c)|);
  }

  /** A well-formed condition written out with single spaces: `evalAsBool` gives its meaning
      and records no error. */
  lemma EvalAsBoolRender(vars: map<string, i32>, c: Cond)
    requires KeywordsFree(vars) && CondOk(vars, c)
    requires forall k | 0 <= k < |Render(c)| :: WellToken(Render(c)[k])
    ensures EvalAsBoolSpec(vars, Join(Render(c), " ")) == (Holds(vars, c), [])
  {
    var toks := Render(c);
    TokensOfJoin(toks);
    var rs := Readings(vars, toks);
    forall k | 0 <= k < |toks| ensures rs[0 + k] == Reader(vars)(toks[k]) {
      ReadingsAt(vars, toks, k);
    }
    ReaderReadsGrammar(vars);
    ExprSpecRender(vars, Reader(vars), c, rs, 0);
    EvalAsBoolOf(vars, Join(toks, " "), ExprSpec(rs, 0));
  }

  /** `evalAsBool` once the evaluation of all of its tokens is known. */
  lemma EvalAsBoolOf(vars: map<string, i32>, test: string, e: Eval)
    requires e == ExprSpec(Readings(vars, Tokens(test)), 0) && e.next == |Tokens(test)|
    ensures EvalAsBoolSpec(vars, test) == (e.value, e.errs)
  {
    assert e.errs + [] == e.errs;
  }

  // ---------------------------------------------------------------- the handler

  class ExpressionHandler {
    /** Errors recorded since the last `evalAsBool` / `execAssignment`. */
    var errors: seq<string>

    constructor ()
      ensures errors == []
    {
      errors := [];
    }

    predicate IsValid()
      reads this
    {
      |errors| == 0
    }

    function GetErrors(): string
      reads this
    {
      Join(errors, "\n")
    }

    method Tokenize(test: string) returns (tokens: seq<string>)
      ensures tokens == Tokens(test)
    {
      tokens := [];
      var segstart := 0;
      var pos := 0;
      while pos < |test|
        invariant segstart <= pos <= |test|
        invariant IsWord(test[segstart..pos])
        invariant tokens + TokensFrom(test[pos..], test[segstart..pos]) == Tokens(test)
      {
        ghost var word := test[segstart..pos];
        ghost var before := tokens;
        assert test[pos..] == [test[pos]] + test[pos + 1..];
        if test[pos] == ' ' {
          if pos - segstart > 0 {
            tokens := tokens + [test[segstart..pos]];
          }
          segstart := pos + 1;
          assert tokens == before + Flush(word);
          AppendAssoc(before, Flush(word), TokensFrom(test[pos + 1..], []));
        } else if test[pos] == '(' || test[pos] == ')' {
          assert test[pos..pos + 1] == [test[pos]];
          if pos - segstart > 0 {
            tokens := tokens + [test[segstart..pos]];
            segstart := pos;
          }
          tokens := tokens + [test[segstart..segstart + 1]];
          segstart := pos + 1;
          assert tokens == before + Flush(word) + [[test[pos]]];
          AppendAssoc(before, Flush(word), [[test[pos]]]);
          AppendAssoc(before, Flush(word) + [[test[pos]]], TokensFrom(test[pos + 1..], []));
        } else {
          assert test[segstart..pos + 1] == word + [test[pos]];
          WordAppend(word, [test[pos]]);
        }
        pos := pos + 1;
      }
      assert test[pos..] == [] && test[segstart..pos] == test[segstart..];
      if |test| - segstart > 0 {
        tokens := tokens + [test[segstart..]];
      }
    }

    method IsIntLiteral(val: string) returns (b: bool)
      ensures b == IntLiteral(val)
    {
      if |val| == 0 {
        return false;
      }
      var i := 0;
      if val[i] == '-' {
        i := i + 1;
      }
      while i < |val|
        invariant i <= |val|
        invariant IntLiteral(val) <==> SkipDigits(val, i) == |val|
      {
        if val[i] < '0' || val[i] > '9' {
          return false;
        }
        i := i + 1;
      }
      return true;
    }

    method ParseIntLiteral(val: string) returns (result: i32)
      modifies this
      ensures (result, errors) == (ParseIntLiteralSpec(val).0, old(errors) + ParseIntLiteralSpec(val).1)
    {
      var literal := IsIntLiteral(val);
      if !literal {
        errors := errors + ["Expected int literal"];
      }
      ghost var check := errors[|old(errors)|..];
      assert errors == old(errors) + check;
      var v := Stoi(val);
      if v.None? {
        errors := errors + [StoiFailed];
        assert errors == old(errors) + (check + [StoiFailed]);
        result := 0;
      } else {
        result := v.value;
      }
    }

    /** Reads a variable; a missing one is reported, then created with 0 by the map lookup. */
    method GetVar(sstate: SimpleState, key: string) returns (v: i32)
      modifies this, sstate`gameVariables
      ensures key in old(sstate.gameVariables) ==> v == old(sstate.gameVariables)[key] && errors == old(errors)
      ensures key !in old(sstate.gameVariables) ==> v == 0 && errors == old(errors) + [NotFound(key)]
      ensures sstate.gameVariables == if key in old(sstate.gameVariables) then old(sstate.gameVariables)
                                      else old(sstate.gameVariables)[key := 0]
    {
      if !sstate.HasVar(key) {
        errors := errors + [NotFound(key)];
        sstate.gameVariables := sstate.gameVariables[key := 0];
      }
      v := sstate.gameVariables[key];
    }

    /** Writes a variable; a missing one is reported and created. */
    method SetVar(sstate: SimpleState, key: string, val: i32)
      modifies this, sstate`gameVariables
      ensures errors == old(errors) + if key in old(sstate.gameVariables) then [] else [NotFound(key)]
      ensures sstate.gameVariables == old(sstate.gameVariables)[key := val]
    {
      if !sstate.HasVar(key) {
        errors := errors + [NotFound(key)];
      }
      sstate.gameVariables := sstate.gameVariables[key := val];
    }

    method ParseSingleIntValue(sstate: SimpleState, val: string) returns (result: i32)
      modifies this, sstate`gameVariables
      ensures sstate.gameVariables == old(sstate.gameVariables)
      ensures var r := SingleIntValueSpec(old(sstate.gameVariables), val);
              result == r.0 && errors == old(errors) + r.1
    {
      result := 0;
      var literal := IsIntLiteral(val);
      if literal {
        result := ParseIntLiteral(val);
      } else if sstate.HasVar(val) {
        result := GetVar(sstate, val);
      } else {
        errors := errors + ["Expected int literal or variable"];
      }
    }

    method EvalCompExpr(sstate: SimpleState, tokens: seq<string>, ghost rs: seq<Reading>, i0: nat) returns (result: bool, i: nat)
      requires i0 <= |tokens| && rs == Readings(sstate.gameVariables, tokens)
      modifies this, sstate`gameVariables
      ensures sstate.gameVariables == old(sstate.gameVariables)
      ensures var r := CompSpec(rs, i0);
              result == r.value && i == r.next && errors == old(errors) + r.errs
    {
      i := i0;
      if i == |tokens| {
        errors := errors + ["Unexpected end"];
        return false, i;
      }
      ReadingsAt(sstate.gameVariables, tokens, i);
      var a1 := ParseSingleIntValue(sstate, tokens[i]);
      i := i + 1;
      if i == |tokens| {
        return a1 != 0, i;
      }
      ReadingsAt(sstate.gameVariables, tokens, i);
      RelationTokens(tokens[i]);
      var op;
      if tokens[i] == "==" || tokens[i] == ">=" || tokens[i] == "!=" || tokens[i] == "<=" || tokens[i] == "<" || tokens[i] == ">" {
        op := tokens[i];
        i := i + 1;
      } else {
        return a1 != 0, i;
      }
      if i == |tokens| {
        errors := errors + ["Unexpected end"];
        AppendAssoc(old(errors), rs[i0].errs, ["Unexpected end"]);
        return false, i;
      }
      ReadingsAt(sstate.gameVariables, tokens, i);
      var a2: i32 := 0;
      var literal := IsIntLiteral(tokens[i]);
      if literal || sstate.HasVar(tokens[i]) {
        a2 := ParseSingleIntValue(sstate, tokens[i]);
        i := i + 1;
        AppendAssoc(old(errors), rs[i0].errs, rs[i0 + 2].errs);
      }
      result := ApplyRelation(op, a1, a2);
    }

    /** The comparison that ends `evalCompExpr`, chosen by the operator's spelling. */
    method ApplyRelation(op: string, a1: i32, a2: i32) returns (result: bool)
      requires KeywordOf(op).Relation?
      ensures result == Compare(KeywordOf(op).op, a1 as int, a2 as int)
    {
      RelationTokens(op);
      if op == "==" {
        result := a1 == a2;
      } else if op == ">=" {
        result := a1 >= a2;
      } else if op == "!=" {
        result := a1 != a2;
      } else if op == "<=" {
        result := a1 <= a2;
      } else if op == "<" {
        result := a1 < a2;
      } else if op == ">" {
        result := a1 > a2;
      } else {
        // `Unexpected operand`: the operator was one of the six above
        assert false;
      }
    }

    method EvalExpr(sstate: SimpleState, tokens: seq<string>, ghost rs: seq<Reading>, i0: nat) returns (result: bool, i: nat)
      requires i0 <= |tokens| && rs == Readings(sstate.gameVariables, tokens)
      modifies this, sstate`gameVariables
      ensures sstate.gameVariables == old(sstate.gameVariables)
      ensures var r := ExprSpec(rs, i0);
              result == r.value && i == r.next && errors == old(errors) + r.errs
      decreases |tokens| - i0, 1
    {
      i := i0;
      if i == |tokens| {
        errors := errors + ["Unexpected end"];
        return false, i;
      }
      ReadingsAt(sstate.gameVariables, tokens, i);
      result := false;
      var literal := IsIntLiteral(tokens[i]);
      if literal || sstate.HasVar(tokens[i]) {
        result, i := EvalCompExpr(sstate, tokens, rs, i);
        ghost var atom := CompSpec(rs, i0);
        result, i := EvalContinue(sstate, tokens, rs, result, i);
        ExprAtOperand(rs, i0);
        AppendAssoc(old(errors), atom.errs, Continue(rs, atom.value, atom.next).errs);
      } else if tokens[i] == "(" {
        result, i := EvalParen(sstate, tokens, rs, i0);
      } else if tokens[i] == "NOT" {
        var inner;
        inner, i := EvalExpr(sstate, tokens, rs, i + 1);
        ExprAtNot(rs, i0);
        return !inner, i;
      } else {
        errors := errors + ["Unknown token"];
        return false, i;
      }
    }

    /** `evalExpr` at `(`: the inner condition, its `)`, then what follows. */
    method EvalParen(sstate: SimpleState, tokens: seq<string>, ghost rs: seq<Reading>, i0: nat) returns (result: bool, i: nat)
      requires rs == Readings(sstate.gameVariables, tokens)
      requires i0 < |tokens| && !rs[i0].operand && rs[i0].word == LeftParen
      modifies this, sstate`gameVariables
      ensures sstate.gameVariables == old(sstate.gameVariables)
      ensures var r := ExprSpec(rs, i0);
              result == r.value && i == r.next && errors == old(errors) + r.errs
      decreases |tokens| - i0, 0
    {
      result, i := EvalExpr(sstate, tokens, rs, i0 + 1);
      ghost var inner := ExprSpec(rs, i0 + 1);
      if i < |tokens| {
        WordAt(sstate.gameVariables, tokens, i);
      }
      if i == |tokens| || tokens[i] != ")" {
        errors := errors + ["Unclosed parenthesis"];
        ExprAtUnclosed(rs, i0, i);
        AppendAssoc(old(errors), inner.errs, ["Unclosed parenthesis"]);
        return false, i;
      }
      ExprAtParen(rs, i0, i);
      i := i + 1;
      ghost var rest := Continue(rs, inner.value, inner.next + 1);
      ghost var before := errors;
      result, i := EvalContinue(sstate, tokens, rs, result, i);
      assert errors == before + rest.errs && before == old(errors) + inner.errs;
      AppendAssoc(old(errors), inner.errs, rest.errs);
    }

    /** The tail of `evalExpr` after an atom: `AND` / `OR` and the condition after it. */
    method EvalContinue(sstate: SimpleState, tokens: seq<string>, ghost rs: seq<Reading>, value: bool, j: nat) returns (result: bool, i: nat)
      requires j <= |tokens| && rs == Readings(sstate.gameVariables, tokens)
      modifies this, sstate`gameVariables
      ensures sstate.gameVariables == old(sstate.gameVariables)
      ensures var r := Continue(rs, value, j);
              result == r.value && i == r.next && errors == old(errors) + r.errs
      decreases |tokens| - j, 0
    {
      result, i := value, j;
      if i == |tokens| {
        return;
      }
      ReadingsAt(sstate.gameVariables, tokens, i);
      if tokens[i] == "AND" {
        var rightExpr;
        rightExpr, i := EvalExpr(sstate, tokens, rs, i + 1);
        return result && rightExpr, i;
      }
      if tokens[i] == "OR" {
        var rightExpr;
        rightExpr, i := EvalExpr(sstate, tokens, rs, i + 1);
        return result || rightExpr, i;
      }
    }

    method EvalAsBool(sstate: SimpleState, test: string) returns (result: bool)
      modifies this, sstate`gameVariables
      ensures sstate.gameVariables == old(sstate.gameVariables)
      ensures (result, errors) == EvalAsBoolSpec(old(sstate.gameVariables), test)
    {
      errors := [];
      var tokens := Tokenize(test);
      var i;
      ghost var rs := Readings(sstate.gameVariables, tokens);
      ghost var r := ExprSpec(rs, 0);
      result, i := EvalExpr(sstate, tokens, rs, 0);
      assert [] + r.errs == r.errs;
      if i != |tokens| {
        errors := errors + ["Unhandled remainder in " + test];
      } else {
        assert errors == r.errs + [];
      }
    }

    method ExecAssignment(sstate: SimpleState, param: string)
      modifies this, sstate`gameVariables
      ensures (sstate.gameVariables, errors) == AssignSpec(old(sstate.gameVariables), param)
    {
      errors := [];
      var tokens := Tokenize(param);
      if |tokens| < 3 {
        errors := errors + ["Incomplete assignment"];
        assert errors == ["Incomplete assignment"];
        assert sstate.gameVariables == old(sstate.gameVariables);
        return;
      }
      ghost var vars := sstate.gameVariables;
      var i := 0;
      var check := sstate.HasVar(tokens[i]);
      if !check {
        errors := errors + ["LET must be followed by variable"];
      }
      var destVar := tokens[i];
      i := i + 1;
      check := tokens[i] == "=";
      if !check {
        errors := errors + ["LET variable must be followed by '='"];
      }
      ghost var e12 := errors;
      assert e12 == (if tokens[0] in vars then [] else ["LET must be followed by variable"])
                    + (if tokens[1] == "=" then [] else ["LET variable must be followed by '='"]);
      i := i + 1;
      ghost var src := SourceValue(vars, tokens[2]);
      var srcVal: i32 := 0;
      if sstate.HasVar(tokens[i]) {
        srcVal := GetVar(sstate, tokens[i]);
        assert sstate.gameVariables == vars && srcVal == src.0 && errors == e12 + [];
      } else {
        var literal := IsIntLiteral(tokens[i]);
        if literal {
          srcVal := ParseIntLiteral(tokens[i]);
        } else {
          errors := errors + ["Unexpected value after '='"];
        }
        assert srcVal == src.0 && errors == e12 + src.1;
      }
      i := i + 1;
      if i != |tokens| {
        errors := errors + ["Unhandled remainder in " + param];
      }
      ghost var e4 := if |tokens| > 3 then ["Unhandled remainder in " + param] else [];
      assert errors == e12 + src.1 + e4;
      SetVar(sstate, destVar, srcVal);
    }
  }
}
