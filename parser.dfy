/** The script reader (`Parser::doParse` in src/parser.cpp). It reads trimmed lines in two
    modes: before the first `NODE` header only `DEFINE` lines (flags), comments and blank
    lines are expected; from then on every line is a node header, a command or text of the
    node being read. A node is stored when the next header starts or the input ends. The
    script file is modelled as its sequence of lines. */
module ScriptParser {
  import opened StrUtil
  import opened Script

  // ---------------------------------------------------------------- classifying a line

  /** The commands that start with a keyword, in the order `doParse` tests their prefixes. */
  const KeywordOrder: seq<CommandType> :=
    [EFFECT, IMAGE, SAMPLE, ANSWER, GOTO, IF, ELSIF, ELSE, ENDIF, PASS, SET, LET, UNSET, TOGGLE, END]

  /** The prefixes that mark those commands, in the same order; those ending in a space
      carry the rest of the line as their parameter. */
  const KeywordText: seq<string> :=
    ["EFFECT ", "IMAGE ", "SAMPLE ", "ANSWER ", "GOTO ", "IF ", "ELSIF ", "ELSE", "ENDIF", "PASS",
     "SET ", "LET ", "UNSET ", "TOGGLE ", "END"]

  /** The place of a command type in `KeywordOrder`; TEXT comes after all of them. */
  function Rank(t: CommandType): (r: nat)
    ensures r <= |KeywordOrder| && (r == |KeywordOrder| <==> t == TEXT)
  {
    match t
    case EFFECT => 0
    case IMAGE => 1
    case SAMPLE => 2
    case ANSWER => 3
    case GOTO => 4
    case IF => 5
    case ELSIF => 6
    case ELSE => 7
    case ENDIF => 8
    case PASS => 9
    case SET => 10
    case LET => 11
    case UNSET => 12
    case TOGGLE => 13
    case END => 14
    case TEXT => 15
  }

  /** Each keyword is found at its own place in `KeywordOrder`. */
  lemma RankAt(k: nat)
    requires k < |KeywordOrder|
    ensures Rank(KeywordOrder[k]) == k
  {
  }

  /** The prefix that marks a command; TEXT has none. */
  function Keyword(t: CommandType): (kw: string)
    ensures t != TEXT ==> |kw| > 0
  {
    if t == TEXT then "" else KeywordText[Rank(t)]
  }

  predicate TakesParameter(t: CommandType) {
    t != TEXT && Keyword(t)[|Keyword(t)| - 1] == ' '
  }

  /** How a line inside a node is read. */
  datatype LineKind = Title(title: string) | Cmd(t: CommandType, param: string) | Skip

  /** The parameter of a TEXT command: the line and a separating space; a blank line stays empty. */
  function TextParameter(line: string): (p: string)
    ensures line == [] ==> p == []
    ensures line != [] ==> |p| == |line| + 1 && p[..|line|] == line && p[|line|] == ' '
  {
    if line == "" then "" else line + " "
  }

  /** Keyword `m` of `KeywordOrder` starts the line. */
  predicate KeywordStarts(line: string, m: nat)
    requires m < |KeywordOrder|
  {
    StartsWith(KeywordText[m], line)
  }

  /** The first keyword of `KeywordOrder` from position `j` on that starts `line`. */
  function ClassifyFrom(line: string, j: nat): (k: LineKind)
    requires j <= |KeywordOrder|
    ensures k.Cmd? && k.t != TEXT ==> StartsWith(Keyword(k.t), line)
    ensures k.Title? ==> false
    decreases |KeywordOrder| - j
  {
    if j == |KeywordOrder| then
      if StartsWith("----", line) then Skip else Cmd(TEXT, TextParameter(line))
    else
      var t := KeywordOrder[j];
      if KeywordStarts(line, j) then
        RankAt(j);
        Cmd(t, if TakesParameter(t) then line[|KeywordText[j]|..] else "")
      else ClassifyFrom(line, j + 1)
  }

  /** How `doParse` reads a trimmed line of a node: a header, a command, a comment or text. */
  function Classify(line: string): (k: LineKind)
    ensures k.Title? <==> StartsWith("NODE ", line)
    ensures k.Title? ==> line == "NODE " + k.title
  {
    if StartsWith("NODE ", line) then Title(line[|"NODE "|..]) else ClassifyFrom(line, 0)
  }

  /** No command type is listed twice, and TEXT, which has no keyword, is not listed. */
  lemma KeywordOrderDistinct(a: nat, b: nat)
    requires a < b < |KeywordOrder|
    ensures KeywordOrder[a] != KeywordOrder[b] && KeywordOrder[a] != TEXT
  {
    RankAt(a);
    RankAt(b);
  }

  /** The reader from `j` on gives TEXT or a keyword found at `j` or later. */
  lemma {:induction false} ClassifyFromLater(line: string, j: nat)
    requires j <= |KeywordOrder|
    ensures ClassifyFrom(line, j).Cmd? ==> j <= Rank(ClassifyFrom(line, j).t)
    decreases |KeywordOrder| - j
  {
    if j < |KeywordOrder| {
      RankAt(j);
      ClassifyFromLater(line, j + 1);
    }
  }

  /** The reader from `j` on takes keyword `k`. */
  predicate TakenFrom(line: string, j: nat, k: nat)
    requires j <= |KeywordOrder| && k < |KeywordOrder|
  {
    ClassifyFrom(line, j).Cmd? && ClassifyFrom(line, j).t == KeywordOrder[k]
  }

  /** Keyword `k` starts the line, and no keyword from `j` up to it does. */
  predicate FirstFrom(line: string, j: nat, k: nat)
    requires k < |KeywordOrder|
  {
    KeywordStarts(line, k) && forall m | j <= m < k :: !KeywordStarts(line, m)
  }

  /** At its own place, a keyword is taken exactly when it starts the line. */
  lemma ClassifyFromHere(line: string, k: nat)
    requires k < |KeywordOrder|
    ensures TakenFrom(line, k, k) <==> FirstFrom(line, k, k)
  {
    RankAt(k);
    if !KeywordStarts(line, k) {
      assert ClassifyFrom(line, k) == ClassifyFrom(line, k + 1);
      ClassifyFromLater(line, k + 1);
    }
  }

  /** A keyword that starts the line is taken before any keyword listed after it. */
  lemma ClassifyFromTaken(line: string, j: nat, k: nat)
    requires j < k < |KeywordOrder| && KeywordStarts(line, j)
    ensures !TakenFrom(line, j, k) && !FirstFrom(line, j, k)
  {
    KeywordOrderDistinct(j, k);
    assert ClassifyFrom(line, j).t == KeywordOrder[j];
  }

  /** A keyword that does not start the line passes the reader on to the next one. */
  lemma ClassifyFromPasses(line: string, j: nat)
    requires j < |KeywordOrder| && !KeywordStarts(line, j)
    ensures ClassifyFrom(line, j) == ClassifyFrom(line, j + 1)
  {
  }

  /** Passing over a keyword that does not start the line changes neither side. */
  lemma ClassifyFromPassed(line: string, j: nat, k: nat)
    requires j < k < |KeywordOrder| && !KeywordStarts(line, j)
    ensures TakenFrom(line, j, k) == TakenFrom(line, j + 1, k)
    ensures FirstFrom(line, j, k) == FirstFrom(line, j + 1, k)
  {
    ClassifyFromPasses(line, j);
  }

  /** The reader takes keyword `k` of `KeywordOrder` (from `j` on) exactly when it starts the
      line and no keyword tested before it does. */
  lemma {:induction false} ClassifyFromFirst(line: string, j: nat, k: nat)
    requires j <= k < |KeywordOrder|
    ensures TakenFrom(line, j, k) <==> FirstFrom(line, j, k)
    decreases k - j
  {
    if j == k {
      ClassifyFromHere(line, k);
    } else if KeywordStarts(line, j) {
      ClassifyFromTaken(line, j, k);
    } else {
      ClassifyFromFirst(line, j + 1, k);
      ClassifyFromPassed(line, j, k);
    }
  }

  /** Where no keyword from `j` on starts the line, it is a comment (`----`) or text. */
  lemma {:induction false} ClassifyFromNone(line: string, j: nat)
    requires j <= |KeywordOrder|
    requires forall m | j <= m < |KeywordOrder| :: !KeywordStarts(line, m)
    ensures ClassifyFrom(line, j) == if StartsWith("----", line) then Skip else Cmd(TEXT, TextParameter(line))
    decreases |KeywordOrder| - j
  {
    if j < |KeywordOrder| {
      ClassifyFromNone(line, j + 1);
    }
  }

  /** A line that is not a header is read as the command of the first keyword in
      `KeywordOrder` that starts it: the line is that command exactly when its keyword is a
      prefix and no earlier one is, and the parameter is what follows a keyword that ends in
      a space (nothing for ELSE, ENDIF, PASS and END). */
  lemma ClassifyFirstMatch(line: string, k: nat)
    requires !StartsWith("NODE ", line) && k < |KeywordOrder|
    ensures (Classify(line).Cmd? && Classify(line).t == KeywordOrder[k])
        <==> (KeywordStarts(line, k)
              && forall m | 0 <= m < k :: !KeywordStarts(line, m))
    ensures Classify(line).Cmd? && Classify(line).t == KeywordOrder[k] ==>
              Classify(line).param
                == if TakesParameter(KeywordOrder[k]) then line[|KeywordText[k]|..] else ""
  {
    ClassifyFromFirst(line, 0, k);
    if Classify(line).Cmd? && Classify(line).t == KeywordOrder[k] {
      ClassifyFromAt(line, 0, k);
    }
  }

  /** What the reader gives when keyword `k` is the first to match, from `j` on. */
  lemma {:induction false} ClassifyFromAt(line: string, j: nat, k: nat)
    requires j <= k < |KeywordOrder|
    requires KeywordStarts(line, k)
    requires forall m | j <= m < k :: !KeywordStarts(line, m)
    ensures ClassifyFrom(line, j)
         == Cmd(KeywordOrder[k], if TakesParameter(KeywordOrder[k]) then line[|KeywordText[k]|..] else "")
    decreases k - j
  {
    if j < k {
      ClassifyFromAt(line, j + 1, k);
      ClassifyFromPasses(line, j);
    }
  }

  /** A line that is not a header and starts with no keyword is a comment when it starts with
      `----`, and otherwise text carrying the whole line. */
  lemma ClassifyNoKeyword(line: string)
    requires !StartsWith("NODE ", line)
    requires forall m | 0 <= m < |KeywordOrder| :: !KeywordStarts(line, m)
    ensures Classify(line) == if StartsWith("----", line) then Skip else Cmd(TEXT, TextParameter(line))
  {
    ClassifyFromNone(line, 0);
  }

  // ---------------------------------------------------------------- messages

  /** `parseAssert`: the message is recorded only when the test fails, and only in a DEBUG build. */
  function Asserted(debug: bool, errors: seq<string>, test: bool, msg: string): (r: seq<string>)
    ensures |r| == |errors| + (if debug && !test then 1 else 0)
    ensures r[..|errors|] == errors
  {
    if debug && !test then errors + [msg] else errors
  }

  const UnexpectedLinePrefix := "Expected only DEFINE before first NODE but found something unexpected in line: "
  const UppercasePrefix := "Warning: Uppercase word "
  const UppercaseMiddle := ", which is not a command in line:"
  const DuplicateNode := "Duplicate node"

  function UnexpectedLine(lineno: int): string {
    UnexpectedLinePrefix + IntToString(lineno)
  }

  function UppercaseWarning(word: string, lineno: int): string {
    UppercasePrefix + word + UppercaseMiddle + IntToString(lineno)
  }

  /** The misspelled-keyword heuristic: a first word of two or more characters, all capitals. */
  predicate LooksLikeKeyword(line: string) {
    var w := FirstWord(line);
    IsAllCaps(w) && |w| >= 2
  }

  // ---------------------------------------------------------------- the reader as a fold

  /** Where the reader is: before the first node header, or inside a node. */
  datatype Mode = InHeader | InNode

  /** What the reader holds between two lines. */
  datatype Progress = Progress(mode: Mode, story: Story, current: Node, errors: seq<string>)

  function Start(errors: seq<string>): Progress {
    Progress(InHeader, Story([], map[]), NewNode(""), errors)
  }

  /** One trimmed line before the first node header. */
  function HeaderStep(debug: bool, p: Progress, line: string, lineno: int): Progress {
    if StartsWith("DEFINE ", line) then
      p.(story := p.story.(flags := p.story.flags + [line[|"DEFINE "|..]]))
    else if StartsWith("NODE ", line) then
      p.(mode := InNode, current := NewNode(line[|"NODE "|..]))
    else if StartsWith("--", line) || line == "" then p
    else p.(errors := Asserted(debug, p.errors, false, UnexpectedLine(lineno)))
  }

  /** One trimmed line inside a node. */
  function NodeStep(debug: bool, p: Progress, line: string, lineno: int): Progress {
    match Classify(line)
    case Title(title) =>
      p.(errors := Asserted(debug, p.errors, p.current.nodeTitle !in p.story.nodes, DuplicateNode),
         story := p.story.(nodes := p.story.nodes[p.current.nodeTitle := p.current]),
         current := NewNode(title))
    case Cmd(t, param) =>
      var errs := if t == TEXT && LooksLikeKeyword(line)
                  then Asserted(debug, p.errors, false, UppercaseWarning(FirstWord(line), lineno))
                  else p.errors;
      p.(errors := errs, current := p.current.(commands := p.current.commands + [Command(t, param, lineno)]))
    case Skip => p
  }

  function Step(debug: bool, p: Progress, line: string, lineno: int): Progress {
    match p.mode
    case InHeader => HeaderStep(debug, p, line, lineno)
    case InNode => NodeStep(debug, p, line, lineno)
  }

  /** The reader after the first `n` of the trimmed lines `tls`; line `n` has number `n`. */
  function Run(debug: bool, tls: seq<string>, n: nat, errors: seq<string>): Progress
    requires n <= |tls|
  {
    if n == 0 then Start(errors)
    else Step(debug, Run(debug, tls, n - 1, errors), tls[n - 1], n)
  }

  lemma RunStep(debug: bool, tls: seq<string>, n: nat, errors: seq<string>)
    requires 0 < n <= |tls|
    ensures Run(debug, tls, n, errors) == Step(debug, Run(debug, tls, n - 1, errors), tls[n - 1], n)
  {
  }

  /** Every line of the script with its surrounding white space dropped. */
  function Trimmed(lines: seq<string>): (tls: seq<string>)
    ensures |tls| == |lines|
  {
    seq(|lines|, k requires 0 <= k < |lines| => Trim(lines[k]))
  }

  /** The story `doParse` returns for the trimmed lines `tls`, and the messages recorded after
      `errors`: the node being read at the end of the input is stored as well. */
  function Parsed(debug: bool, tls: seq<string>, errors: seq<string>): (Story, seq<string>) {
    var p := Run(debug, tls, |tls|, errors);
    (p.story.(nodes := p.story.nodes[p.current.nodeTitle := p.current]), p.errors)
  }

  // ---------------------------------------------------------------- what the reader produces

  predicate IsTitleLine(line: string) {
    StartsWith("NODE ", line)
  }

  /** The index of the first node header, or the number of lines when there is none. */
  function FirstTitle(lines: seq<string>): (f: nat)
    ensures f <= |lines|
    ensures f < |lines| ==> IsTitleLine(lines[f])
  {
    if lines == [] then 0 else if IsTitleLine(lines[0]) then 0 else 1 + FirstTitle(lines[1..])
  }

  /** The flag a header line declares, if any. */
  function DefineArg(line: string): seq<string> {
    if StartsWith("DEFINE ", line) then [line[|"DEFINE "|..]] else []
  }

  /** The arguments of the `DEFINE` lines before the first node header, in order. */
  function Flags(lines: seq<string>): seq<string> {
    if lines == [] || IsTitleLine(lines[0]) then [] else DefineArg(lines[0]) + Flags(lines[1..])
  }

  /** The titles of all node headers. */
  function Titles(lines: seq<string>): set<string> {
    if lines == [] then {}
    else (if IsTitleLine(lines[0]) then {lines[0][|"NODE "|..]} else {}) + Titles(lines[1..])
  }

  lemma AppendAssoc<T>(a: seq<T>, b: seq<T>, c: seq<T>)
    ensures a + b + c == a + (b + c)
  {
  }

  lemma SnocParts(ls: seq<string>, l: string)
    requires ls != []
    ensures (ls + [l])[0] == ls[0] && (ls + [l])[1..] == ls[1..] + [l]
  {
  }

  lemma {:induction false} FirstTitleSnoc(ls: seq<string>, l: string)
    ensures FirstTitle(ls + [l]) == if FirstTitle(ls) < |ls| || IsTitleLine(l) then FirstTitle(ls) else |ls| + 1
    decreases |ls|
  {
    if ls == [] {
      assert [] + [l] == [l];
    } else {
      SnocParts(ls, l);
      FirstTitleSnoc(ls[1..], l);
    }
  }

  lemma {:induction false} FlagsSnoc(ls: seq<string>, l: string)
    ensures Flags(ls + [l]) == if FirstTitle(ls) < |ls| || IsTitleLine(l) then Flags(ls) else Flags(ls) + DefineArg(l)
    decreases |ls|
  {
    if ls == [] {
      assert [] + [l] == [l] && [l][1..] == [];
    } else {
      SnocParts(ls, l);
      FlagsSnoc(ls[1..], l);
      if !IsTitleLine(ls[0]) {
        AppendAssoc(DefineArg(ls[0]), Flags(ls[1..]), DefineArg(l));
      }
    }
  }

  lemma {:induction false} TitlesSnoc(ls: seq<string>, l: string)
    ensures Titles(ls + [l]) == Titles(ls) + if IsTitleLine(l) then {l[|"NODE "|..]} else {}
    decreases |ls|
  {
    if ls == [] {
      assert [] + [l] == [l] && [l][1..] == [];
    } else {
      SnocParts(ls, l);
      TitlesSnoc(ls[1..], l);
    }
  }

  /** A line starting with `DEFINE ` is not a node header. */
  lemma DefineIsNotTitle(line: string)
    requires StartsWith("DEFINE ", line)
    ensures !StartsWith("NODE ", line)
  {
    assert line[0] == "DEFINE "[0];
  }

  /** What the reader's mode, flags and node titles are after the lines `ls`. */
  ghost predicate HeadRead(ls: seq<string>, p: Progress) {
    && (p.mode == InHeader <==> FirstTitle(ls) == |ls|)
    && p.story.flags == Flags(ls)
    && (p.mode == InHeader ==> p.story.nodes == map[] && p.current == NewNode("") && Titles(ls) == {})
    && (p.mode == InNode ==> p.story.nodes.Keys + {p.current.nodeTitle} == Titles(ls))
  }

  /** What a line inside a node does to the stored nodes and the node being read. */
  predicate Advances(p: Progress, q: Progress, k: LineKind, lineno: int) {
    match k
    case Title(title) =>
      q.story.nodes == p.story.nodes[p.current.nodeTitle := p.current] && q.current == NewNode(title)
    case Cmd(t, param) =>
      q.story.nodes == p.story.nodes
      && q.current == p.current.(commands := p.current.commands + [Command(t, param, lineno)])
    case Skip => q.story.nodes == p.story.nodes && q.current == p.current
  }

  lemma NodeStepShape(debug: bool, p: Progress, line: string, lineno: int)
    ensures var q := NodeStep(debug, p, line, lineno);
            q.mode == p.mode && q.story.flags == p.story.flags && Advances(p, q, Classify(line), lineno)
  {
  }

  lemma HeadReadHeader(debug: bool, ls: seq<string>, l: string, n: int, p: Progress)
    requires HeadRead(ls, p) && p.mode == InHeader
    ensures HeadRead(ls + [l], HeaderStep(debug, p, l, n))
  {
    FirstTitleSnoc(ls, l);
    FlagsSnoc(ls, l);
    TitlesSnoc(ls, l);
    if StartsWith("DEFINE ", l) {
      DefineIsNotTitle(l);
    }
  }

  lemma HeadReadNode(ls: seq<string>, l: string, n: int, p: Progress, q: Progress)
    requires HeadRead(ls, p) && p.mode == InNode
    requires q.mode == InNode && q.story.flags == p.story.flags && Advances(p, q, Classify(l), n)
    ensures HeadRead(ls + [l], q)
  {
    FirstTitleSnoc(ls, l);
    FlagsSnoc(ls, l);
    TitlesSnoc(ls, l);
  }

  /** The command was read from its own line: the line number names a line of the script that
      reads as that command. */
  ghost predicate ReadFromLine(lines: seq<string>, c: Command) {
    1 <= c.lineno <= |lines| && Classify(lines[c.lineno - 1]) == Cmd(c.commandType, c.parameter)
  }

  /** Commands each read from its own line, in increasing line order. */
  ghost predicate FromLines(lines: seq<string>, cmds: seq<Command>)
    decreases |cmds|
  {
    cmds == []
    || (&& FromLines(lines, cmds[..|cmds| - 1])
        && ReadFromLine(lines, cmds[|cmds| - 1])
        && (|cmds| == 1 || cmds[|cmds| - 2].lineno < cmds[|cmds| - 1].lineno))
  }

  /** What `FromLines` says of each command. */
  lemma {:induction false} FromLinesAt(lines: seq<string>, cmds: seq<Command>, j: nat)
    requires FromLines(lines, cmds) && j < |cmds|
    ensures ReadFromLine(lines, cmds[j])
    ensures 0 < j ==> cmds[j - 1].lineno < cmds[j].lineno
    decreases |cmds|
  {
    if j < |cmds| - 1 {
      var init := cmds[..|cmds| - 1];
      FromLinesAt(lines, init, j);
      assert init[j] == cmds[j] && (0 < j ==> init[j - 1] == cmds[j - 1]);
    }
  }

  /** Every command the reader holds after `n` lines comes from one of those lines. */
  ghost predicate CommandsRead(lines: seq<string>, n: nat, p: Progress) {
    && FromLines(lines, p.current.commands)
    && (p.current.commands != [] ==> p.current.commands[|p.current.commands| - 1].lineno <= n)
    && (forall t | t in p.story.nodes :: FromLines(lines, p.story.nodes[t].commands))
  }

  lemma CommandsReadHeader(debug: bool, lines: seq<string>, n: nat, p: Progress)
    requires 0 < n <= |lines| && p.mode == InHeader
    requires CommandsRead(lines, n - 1, p) && p.current.commands == []
    ensures CommandsRead(lines, n, HeaderStep(debug, p, lines[n - 1], n))
  {
  }

  lemma CommandsReadTitle(lines: seq<string>, n: nat, p: Progress, q: Progress, title: string)
    requires 0 < n && CommandsRead(lines, n - 1, p)
    requires q.story.nodes == p.story.nodes[p.current.nodeTitle := p.current] && q.current == NewNode(title)
    ensures CommandsRead(lines, n, q)
  {
  }

  lemma CommandsReadCmd(lines: seq<string>, n: nat, p: Progress, q: Progress, c: Command)
    requires 0 < n && CommandsRead(lines, n - 1, p)
    requires c.lineno == n && ReadFromLine(lines, c)
    requires q.story.nodes == p.story.nodes && q.current.commands == p.current.commands + [c]
    ensures CommandsRead(lines, n, q)
  {
    var cs := q.current.commands;
    assert cs[..|cs| - 1] == p.current.commands;
  }

  lemma CommandsReadNode(lines: seq<string>, n: nat, p: Progress, q: Progress)
    requires 0 < n <= |lines|
    requires CommandsRead(lines, n - 1, p)
    requires Advances(p, q, Classify(lines[n - 1]), n)
    ensures CommandsRead(lines, n, q)
  {
    match Classify(lines[n - 1])
    case Title(title) => CommandsReadTitle(lines, n, p, q, title);
    case Cmd(t, param) => CommandsReadCmd(lines, n, p, q, Command(t, param, n));
    case Skip =>
  }

  lemma HeadReadStep(debug: bool, ls: seq<string>, l: string, n: int, p: Progress)
    requires HeadRead(ls, p)
    ensures HeadRead(ls + [l], Step(debug, p, l, n))
  {
    if p.mode == InHeader {
      HeadReadHeader(debug, ls, l, n, p);
    } else {
      NodeStepShape(debug, p, l, n);
      HeadReadNode(ls, l, n, p, NodeStep(debug, p, l, n));
    }
  }

  lemma CommandsReadStep(debug: bool, lines: seq<string>, n: nat, p: Progress)
    requires 0 < n <= |lines|
    requires CommandsRead(lines, n - 1, p)
    requires p.mode == InHeader ==> p.current.commands == []
    ensures CommandsRead(lines, n, Step(debug, p, lines[n - 1], n))
  {
    if p.mode == InHeader {
      CommandsReadHeader(debug, lines, n, p);
    } else {
      NodeStepShape(debug, p, lines[n - 1], n);
      CommandsReadNode(lines, n, p, NodeStep(debug, p, lines[n - 1], n));
    }
  }

  lemma RunHeadReadStep(debug: bool, lines: seq<string>, n: nat, errors: seq<string>)
    requires 0 < n <= |lines|
    requires HeadRead(lines[..n - 1], Run(debug, lines, n - 1, errors))
    ensures HeadRead(lines[..n], Run(debug, lines, n, errors))
  {
    assert lines[..n] == lines[..n - 1] + [lines[n - 1]];
    HeadReadStep(debug, lines[..n - 1], lines[n - 1], n, Run(debug, lines, n - 1, errors));
  }

  lemma {:induction false} RunHeadRead(debug: bool, lines: seq<string>, n: nat, errors: seq<string>)
    requires n <= |lines|
    ensures HeadRead(lines[..n], Run(debug, lines, n, errors))
    decreases n
  {
    if n == 0 {
      assert lines[..0] == [];
    } else {
      RunHeadRead(debug, lines, n - 1, errors);
      RunHeadReadStep(debug, lines, n, errors);
    }
  }

  lemma RunCommandsReadStep(debug: bool, lines: seq<string>, n: nat, errors: seq<string>)
    requires 0 < n <= |lines|
    requires CommandsRead(lines, n - 1, Run(debug, lines, n - 1, errors))
    requires HeadRead(lines[..n - 1], Run(debug, lines, n - 1, errors))
    ensures CommandsRead(lines, n, Run(debug, lines, n, errors))
  {
    CommandsReadStep(debug, lines, n, Run(debug, lines, n - 1, errors));
  }

  lemma {:induction false} RunCommandsRead(debug: bool, lines: seq<string>, n: nat, errors: seq<string>)
    requires n <= |lines|
    ensures CommandsRead(lines, n, Run(debug, lines, n, errors))
    decreases n
  {
    if n > 0 {
      RunCommandsRead(debug, lines, n - 1, errors);
      RunHeadRead(debug, lines, n - 1, errors);
      RunCommandsReadStep(debug, lines, n, errors);
    }
  }

  /** `DEFINE` lines before the first node header declare the flags, in order; those after it
      are text of a node. */
  lemma ParsedFlags(debug: bool, tls: seq<string>, errors: seq<string>)
    ensures Parsed(debug, tls, errors).0.flags == Flags(tls)
  {
    RunHeadRead(debug, tls, |tls|, errors);
    assert tls[..|tls|] == tls;
  }

  /** Every node header gives a node of that title, a later one with a title replacing the
      earlier; a script without a header gives a single node with the empty title. */
  lemma ParsedTitles(debug: bool, tls: seq<string>, errors: seq<string>)
    ensures Parsed(debug, tls, errors).0.nodes.Keys == if FirstTitle(tls) == |tls| then {""} else Titles(tls)
  {
    RunHeadRead(debug, tls, |tls|, errors);
    assert tls[..|tls|] == tls;
    StoredTitles(tls, Run(debug, tls, |tls|, errors));
  }

  /** Storing the node being read at the end gives the titles `HeadRead` promises. */
  lemma StoredTitles(ls: seq<string>, p: Progress)
    requires HeadRead(ls, p)
    ensures p.story.nodes[p.current.nodeTitle := p.current].Keys
         == if FirstTitle(ls) == |ls| then {""} else Titles(ls)
  {
  }

  lemma ParsedFromLines(debug: bool, tls: seq<string>, errors: seq<string>)
    ensures var nodes := Parsed(debug, tls, errors).0.nodes;
            forall t | t in nodes :: FromLines(tls, nodes[t].commands)
  {
    RunCommandsRead(debug, tls, |tls|, errors);
  }

  /** Every command of every node is what its own line, numbered from 1, reads as, and a node
      lists its commands in line order. */
  lemma ParsedCommands(debug: bool, tls: seq<string>, errors: seq<string>, t: string, j: nat)
    requires var nodes := Parsed(debug, tls, errors).0.nodes;
             t in nodes && j < |nodes[t].commands|
    ensures var cmds := Parsed(debug, tls, errors).0.nodes[t].commands;
            && 1 <= cmds[j].lineno <= |tls|
            && Classify(tls[cmds[j].lineno - 1]) == Cmd(cmds[j].commandType, cmds[j].parameter)
            && (0 < j ==> cmds[j - 1].lineno < cmds[j].lineno)
  {
    ParsedFromLines(debug, tls, errors);
    FromLinesAt(tls, Parsed(debug, tls, errors).0.nodes[t].commands, j);
  }

  lemma StepReleaseKeepsErrors(p: Progress, line: string, lineno: int)
    ensures Step(false, p, line, lineno).errors == p.errors
  {
  }

  lemma {:induction false} RunReleaseKeepsErrors(tls: seq<string>, n: nat, errors: seq<string>)
    requires n <= |tls|
    ensures Run(false, tls, n, errors).errors == errors
    decreases n
  {
    if n > 0 {
      RunReleaseKeepsErrors(tls, n - 1, errors);
      StepReleaseKeepsErrors(Run(false, tls, n - 1, errors), tls[n - 1], n);
    }
  }

  /** Without DEBUG, `parseAssert` records nothing, so parsing adds no message. */
  lemma ReleaseRecordsNothing(tls: seq<string>, errors: seq<string>)
    ensures Parsed(false, tls, errors).1 == errors
  {
    RunReleaseKeepsErrors(tls, |tls|, errors);
  }

  // ---------------------------------------------------------------- what each node holds

  /** The title a header line names. */
  function TitleOf(line: string): string
    requires IsTitleLine(line)
  {
    line[|"NODE "|..]
  }

  /** The index of the first node header at or after `j`, or the number of lines. */
  function NextTitle(tls: seq<string>, j: nat): (e: nat)
    requires j <= |tls|
    ensures j <= e <= |tls| && (e < |tls| ==> IsTitleLine(tls[e]))
    decreases |tls| - j
  {
    if j == |tls| || IsTitleLine(tls[j]) then j else NextTitle(tls, j + 1)
  }

  /** Before the next header there is none. */
  lemma {:induction false} NextTitleFirst(tls: seq<string>, j: nat, m: nat)
    requires j <= |tls| && j <= m < NextTitle(tls, j)
    ensures !IsTitleLine(tls[m])
    decreases m - j
  {
    if j < m {
      NextTitleFirst(tls, j + 1, m);
    }
  }

  /** The command line `b` (numbered from 1) reads as, if it is one. */
  function LineCommand(tls: seq<string>, b: nat): (cs: seq<Command>)
    requires 1 <= b <= |tls|
    ensures |cs| <= 1
  {
    var k := Classify(tls[b - 1]);
    if k.Cmd? then [Command(k.t, k.param, b)] else []
  }

  /** The commands read from the lines after the first `a` up to the first `b`, in order,
      each with its own line number; comments give none. */
  function LineCommands(tls: seq<string>, a: nat, b: nat): (cs: seq<Command>)
    requires a <= b <= |tls|
    ensures |cs| <= b - a
    decreases b - a
  {
    if b == a then [] else LineCommands(tls, a, b - 1) + LineCommand(tls, b)
  }

  /** No header after `h` has the title of the header at `h`. */
  predicate LastOfTitle(tls: seq<string>, h: nat)
    requires h < |tls| && IsTitleLine(tls[h])
  {
    forall m | h < m < |tls| && IsTitleLine(tls[m]) :: TitleOf(tls[m]) != TitleOf(tls[h])
  }

  /** A line inside a node that is not a header adds the command it reads as, if any. */
  lemma StepInNode(debug: bool, p: Progress, line: string, n: int)
    requires p.mode == InNode && !IsTitleLine(line)
    ensures var q := Step(debug, p, line, n);
            var k := Classify(line);
            && q.mode == InNode && q.story.nodes == p.story.nodes
            && q.current == p.current.(commands := p.current.commands
                                                  + if k.Cmd? then [Command(k.t, k.param, n)] else [])
  {
    NodeStepShape(debug, p, line, n);
  }

  /** A header inside a node stores the node being read, checked for a duplicate title, and
      starts a node of its own title. */
  lemma StepCloses(debug: bool, p: Progress, line: string, n: int)
    requires p.mode == InNode && IsTitleLine(line)
    ensures var q := Step(debug, p, line, n);
            && q.mode == InNode && q.story.nodes == p.story.nodes[p.current.nodeTitle := p.current]
            && q.current == Node(TitleOf(line), [])
            && q.errors == Asserted(debug, p.errors, p.current.nodeTitle !in p.story.nodes, DuplicateNode)
  {
  }

  /** No line takes a message back or forgets a stored title. */
  lemma StepGrows(debug: bool, p: Progress, line: string, n: int)
    ensures var q := Step(debug, p, line, n);
            p.errors <= q.errors && p.story.nodes.Keys <= q.story.nodes.Keys
  {
  }

  /** A line that is not a header of title `t` keeps a stored node of that title. */
  lemma StepKeepsStored(debug: bool, p: Progress, line: string, n: int, t: string, nd: Node)
    requires p.mode == InNode && t in p.story.nodes && p.story.nodes[t] == nd && p.current.nodeTitle != t
    requires IsTitleLine(line) ==> TitleOf(line) != t
    ensures var q := Step(debug, p, line, n);
            q.mode == InNode && t in q.story.nodes && q.story.nodes[t] == nd && q.current.nodeTitle != t
  {
    if IsTitleLine(line) {
      StepCloses(debug, p, line, n);
    } else {
      StepInNode(debug, p, line, n);
    }
  }

  /** Reading the header at `h` starts a node of its title, whatever the mode. */
  lemma HeaderStarts(debug: bool, tls: seq<string>, errors: seq<string>, h: nat)
    requires h < |tls| && IsTitleLine(tls[h])
    ensures var p := Run(debug, tls, h + 1, errors);
            p.mode == InNode && p.current == Node(TitleOf(tls[h]), [])
  {
    RunStep(debug, tls, h + 1, errors);
    if StartsWith("DEFINE ", tls[h]) {
      DefineIsNotTitle(tls[h]);
    }
  }

  /** From the header at `h` up to the next header, the node being read has the title of `h`
      and the commands of the lines read since. */
  lemma {:induction false} CurrentAfter(debug: bool, tls: seq<string>, errors: seq<string>, h: nat, n: nat)
    requires h < |tls| && IsTitleLine(tls[h])
    requires h < n <= NextTitle(tls, h + 1)
    ensures var p := Run(debug, tls, n, errors);
            p.mode == InNode && p.current == Node(TitleOf(tls[h]), LineCommands(tls, h + 1, n))
    decreases n
  {
    if n == h + 1 {
      HeaderStarts(debug, tls, errors, h);
    } else {
      CurrentAfter(debug, tls, errors, h, n - 1);
      NextTitleFirst(tls, h + 1, n - 1);
      RunStep(debug, tls, n, errors);
      StepInNode(debug, Run(debug, tls, n - 1, errors), tls[n - 1], n);
    }
  }

  /** Once stored, a node of title `t` stays as it is while no later header has that title. */
  lemma {:induction false} StoredKept(debug: bool, tls: seq<string>, errors: seq<string>,
                                      t: string, nd: Node, n: nat, m: nat)
    requires n <= m <= |tls|
    requires var p := Run(debug, tls, n, errors);
             p.mode == InNode && t in p.story.nodes && p.story.nodes[t] == nd && p.current.nodeTitle != t
    requires forall k | n <= k < |tls| && IsTitleLine(tls[k]) :: TitleOf(tls[k]) != t
    ensures var q := Run(debug, tls, m, errors);
            q.mode == InNode && t in q.story.nodes && q.story.nodes[t] == nd && q.current.nodeTitle != t
    decreases m - n
  {
    if n < m {
      StoredKept(debug, tls, errors, t, nd, n, m - 1);
      RunStep(debug, tls, m, errors);
      StepKeepsStored(debug, Run(debug, tls, m - 1, errors), tls[m - 1], m, t, nd);
    }
  }

  /** The node of a header's title holds the commands of the lines after its last header with
      that title, up to the next header or the end of the script, in order and with their line
      numbers; a later header of the same title replaces an earlier node, and the node read
      when the input ends is stored as well. */
  lemma ParsedNode(debug: bool, tls: seq<string>, errors: seq<string>, h: nat)
    requires h < |tls| && IsTitleLine(tls[h]) && LastOfTitle(tls, h)
    ensures var nodes := Parsed(debug, tls, errors).0.nodes;
            && TitleOf(tls[h]) in nodes
            && nodes[TitleOf(tls[h])] == Node(TitleOf(tls[h]), LineCommands(tls, h + 1, NextTitle(tls, h + 1)))
  {
    var t := TitleOf(tls[h]);
    var e := NextTitle(tls, h + 1);
    var nd := Node(t, LineCommands(tls, h + 1, e));
    CurrentAfter(debug, tls, errors, h, e);
    if e < |tls| {
      RunStep(debug, tls, e + 1, errors);
      StepCloses(debug, Run(debug, tls, e, errors), tls[e], e + 1);
      StoredKept(debug, tls, errors, t, nd, e + 1, |tls|);
    }
  }

  /** A script without a node header gives one empty node with the empty title. */
  lemma ParsedNoHeader(debug: bool, tls: seq<string>, errors: seq<string>)
    requires FirstTitle(tls) == |tls|
    ensures Parsed(debug, tls, errors).0.nodes == map["" := NewNode("")]
  {
    RunHeadRead(debug, tls, |tls|, errors);
    assert tls[..|tls|] == tls;
  }

  /** The reader never forgets a stored title. */
  lemma {:induction false} KeysGrow(debug: bool, tls: seq<string>, errors: seq<string>, n: nat, m: nat)
    requires n <= m <= |tls|
    ensures Run(debug, tls, n, errors).story.nodes.Keys <= Run(debug, tls, m, errors).story.nodes.Keys
    decreases m - n
  {
    if n < m {
      KeysGrow(debug, tls, errors, n, m - 1);
      RunStep(debug, tls, m, errors);
      StepGrows(debug, Run(debug, tls, m - 1, errors), tls[m - 1], m);
    }
  }

  /** The reader never takes a message back. */
  lemma {:induction false} ErrorsGrow(debug: bool, tls: seq<string>, errors: seq<string>, n: nat, m: nat)
    requires n <= m <= |tls|
    ensures Run(debug, tls, n, errors).errors <= Run(debug, tls, m, errors).errors
    decreases m - n
  {
    if n < m {
      ErrorsGrow(debug, tls, errors, n, m - 1);
      RunStep(debug, tls, m, errors);
      StepGrows(debug, Run(debug, tls, m - 1, errors), tls[m - 1], m);
    }
  }

  /** The header after the one at `g` stores the node of `g`'s title. */
  lemma ClosedStored(debug: bool, tls: seq<string>, errors: seq<string>, g: nat)
    requires g < |tls| && IsTitleLine(tls[g]) && NextTitle(tls, g + 1) < |tls|
    ensures TitleOf(tls[g]) in Run(debug, tls, NextTitle(tls, g + 1) + 1, errors).story.nodes
  {
    var d := NextTitle(tls, g + 1);
    CurrentAfter(debug, tls, errors, g, d);
    RunStep(debug, tls, d + 1, errors);
    StepCloses(debug, Run(debug, tls, d, errors), tls[d], d + 1);
  }

  /** In a DEBUG build, the header after the one at `h` reports a duplicate when `h`'s title
      was stored before. */
  lemma ClosedChecked(tls: seq<string>, errors: seq<string>, h: nat)
    requires h < |tls| && IsTitleLine(tls[h]) && NextTitle(tls, h + 1) < |tls|
    requires TitleOf(tls[h]) in Run(true, tls, NextTitle(tls, h + 1), errors).story.nodes
    ensures var e := NextTitle(tls, h + 1);
            Run(true, tls, e + 1, errors).errors == Run(true, tls, e, errors).errors + [DuplicateNode]
  {
    var e := NextTitle(tls, h + 1);
    CurrentAfter(true, tls, errors, h, e);
    RunStep(true, tls, e + 1, errors);
    StepCloses(true, Run(true, tls, e, errors), tls[e], e + 1);
  }

  /** In a DEBUG build, a second node of a title already read is reported as a duplicate when
      the next header closes it. */
  lemma DuplicateReported(tls: seq<string>, errors: seq<string>, g: nat, h: nat)
    requires g < h < |tls| && IsTitleLine(tls[g]) && IsTitleLine(tls[h])
    requires TitleOf(tls[g]) == TitleOf(tls[h])
    requires NextTitle(tls, h + 1) < |tls|
    ensures DuplicateNode in Parsed(true, tls, errors).1
  {
    var t := TitleOf(tls[h]);
    var d := NextTitle(tls, g + 1);
    var e := NextTitle(tls, h + 1);
    NextTitleUpTo(tls, g + 1, h);
    ClosedStored(true, tls, errors, g);
    KeysGrow(true, tls, errors, d + 1, e);
    StoredIn(t, Run(true, tls, d + 1, errors).story.nodes.Keys, Run(true, tls, e, errors).story.nodes.Keys);
    ClosedChecked(tls, errors, h);
    MessageKept(true, tls, errors, e, DuplicateNode);
  }

  lemma StoredIn(t: string, a: set<string>, b: set<string>)
    requires t in a && a <= b
    ensures t in b
  {
  }

  /** A message recorded by line `n + 1` is among those parsing records. */
  lemma MessageKept(debug: bool, tls: seq<string>, errors: seq<string>, n: nat, msg: string)
    requires n < |tls|
    requires Run(debug, tls, n + 1, errors).errors == Run(debug, tls, n, errors).errors + [msg]
    ensures msg in Parsed(debug, tls, errors).1
  {
    ErrorsGrow(debug, tls, errors, n + 1, |tls|);
    var es := Run(debug, tls, n + 1, errors).errors;
    assert es[|es| - 1] == msg;
  }

  /** The next header comes no later than any header. */
  lemma {:induction false} NextTitleUpTo(tls: seq<string>, j: nat, h: nat)
    requires j <= h < |tls| && IsTitleLine(tls[h])
    ensures NextTitle(tls, j) <= h
    decreases h - j
  {
    if j < h && !IsTitleLine(tls[j]) {
      NextTitleUpTo(tls, j + 1, h);
    }
  }

  /** A repeated title is not reported when its second node is the last of the script, since
      the node read when the input ends is stored without the check; it is when another
      header follows. */
  lemma LastDuplicateSilent()
    ensures Parsed(true, ["NODE a", "NODE a"], []).1 == []
    ensures Parsed(true, ["NODE a", "NODE a", "NODE b"], []).1 == [DuplicateNode]
  {
  }

  // ---------------------------------------------------------------- the parser

  class Parser {
    var errors: seq<string>
    /** Whether the program was built with DEBUG, which turns `parseAssert` on. */
    const debug: bool

    constructor (debug: bool)
      ensures this.debug == debug && errors == []
    {
      this.debug := debug;
      errors := [];
    }

    method ParseAssert(test: bool, str: string)
      modifies this
      ensures errors == Asserted(debug, old(errors), test, str)
    {
      if debug {
        if !test {
          errors := errors + [str];
        }
      }
    }

    function ErrorNum(): (n: nat)
      reads this
      ensures n == |errors|
    {
      |errors|
    }

    /** `doParse` over the lines of the script file. */
    method DoParse(lines: seq<string>) returns (result: Story)
      modifies this
      ensures (result, errors) == Parsed(debug, Trimmed(lines), old(errors))
    {
      result := Story([], map[]);
      var current := NewNode("");
      var state := InHeader;
      var lineno := 0;
      ghost var tls := Trimmed(lines);
      while lineno < |lines|
        invariant lineno <= |lines|
        invariant Run(debug, tls, lineno, old(errors)) == Progress(state, result, current, errors)
      {
        lineno := lineno + 1;
        var line := Trim(lines[lineno - 1]);
        assert line == tls[lineno - 1];
        RunStep(debug, tls, lineno, old(errors));
        state, result, current := ReadLine(state, result, current, line, lineno);
      }
      result := result.(nodes := result.nodes[current.nodeTitle := current]);
    }

    /** One trimmed line, read in the current mode. */
    method ReadLine(state0: Mode, result0: Story, current0: Node, line: string, lineno: int)
      returns (state: Mode, result: Story, current: Node)
      modifies this
      ensures Progress(state, result, current, errors)
              == Step(debug, Progress(state0, result0, current0, old(errors)), line, lineno)
    {
      match state0 {
        case InHeader =>
          state, result, current := HeaderLine(result0, current0, line, lineno);
        case InNode =>
          state := InNode;
          result, current := NodeLine(result0, current0, line, lineno);
      }
    }

    /** The `HEADER` case of `doParse`'s loop. */
    method HeaderLine(result0: Story, current0: Node, line: string, lineno: int)
      returns (state: Mode, result: Story, current: Node)
      modifies this
      ensures Progress(state, result, current, errors)
              == HeaderStep(debug, Progress(InHeader, result0, current0, old(errors)), line, lineno)
    {
      state, result, current := InHeader, result0, current0;
      if StartsWith("DEFINE ", line) {
        var flagname := line[|"DEFINE "|..];
        result := result.(flags := result.flags + [flagname]);
      } else if StartsWith("NODE ", line) {
        var title := line[|"NODE "|..];
        state := InNode;
        current := NewNode(title);
      } else if StartsWith("--", line) {
        // a comment
      } else if line == "" {
        // a blank line
      } else {
        ParseAssert(false, UnexpectedLine(lineno));
      }
    }

    /** The `NODE` case of `doParse`'s loop. */
    method NodeLine(result0: Story, current0: Node, line: string, lineno: int)
      returns (result: Story, current: Node)
      modifies this
      ensures Progress(InNode, result, current, errors)
              == NodeStep(debug, Progress(InNode, result0, current0, old(errors)), line, lineno)
    {
      result, current := result0, current0;
      match Classify(line) {
        case Title(title) =>
          ParseAssert(current.nodeTitle !in result.nodes, DuplicateNode);
          result := result.(nodes := result.nodes[current.nodeTitle := current]);
          current := NewNode(title);
        case Cmd(t, param) =>
          if t == TEXT {
            var firstword := FirstWord(line);
            if IsAllCaps(firstword) && |firstword| >= 2 {
              ParseAssert(false, UppercaseWarning(firstword, lineno));
            }
          }
          current := current.(commands := current.commands + [Command(t, param, lineno)]);
        case Skip =>
      }
    }
  }
}
