/** Running a node's commands (`InterpreterImpl` in src/parser.cpp). The interpreter walks a
    node's command list with a cursor: IF / ELSIF / ELSE / ENDIF are resolved on the flat list
    by skipping over nested blocks, ANSWER collects a choice for the player, and the other
    commands change the game variables, move to another node, or are handed on to the game as
    side effects. What the interpreter hands on, and every failed `gameAssert`, is an event of
    a trace. */
module Execution {
  import opened StrUtil
  import opened Script
  import opened State
  import opened Expression

  /** What the statement handler receives: a command to carry out, a failed check, a debug
      message; and two outcomes of the model itself: an exception the program does not catch,
      and a GOTO the model did not follow because its call depth was used up. */
  datatype Event =
    | SideEffect(cmd: Command)
    | Failed(msg: string)
    | Debug(msg: string)
    | Fault(key: string)
    | Exhausted(target: string)

  /** `gameAssert(test, msg)`: the message when the test fails. */
  function Check(test: bool, msg: string): (es: seq<Event>)
    ensures test <==> |es| == 0
  {
    if test then [] else [Failed(msg)]
  }

  const MissingEndif := "Missing ENDIF (skipIf)"
  const EndBeforeEndifSkip := "Reached END before ENDIF (skipIf)"
  const EndBeforeEndifBlock := "Reached END before ENDIF (executeIfBlock)"
  const TwoElse := "Two ELSE in a row"
  const ExpectedEndif := "Expected ENDIF but found something else"
  const PassWithoutAnswer := "PASS without ANSWER"
  const StrayBranch := "BUG, ELSE / ELSIF / ENDIF without IF"
  const IfInAnswerPrefix := "Not allowed to have an IF inside an ANSWER block in line: "

  function IfInAnswer(lineno: int): string {
    IfInAnswerPrefix + IntToString(lineno)
  }

  /** The message of `testNodeExists` for a missing node. */
  function NodeNotFound(id: string): string {
    NodePrefix + id + NotFoundSuffix
  }

  const NodePrefix := "Node: '"

  /** The debug message of `setCurrentNode`. */
  function GoingTo(id: string): string {
    GoingToPrefix + id + "'"
  }

  const GoingToPrefix := "DEBUG: Going to node: '"

  /** `testNodeExists`: the message when there is no node `id`. */
  function NodeCheck(nodes: map<string, Node>, id: string): seq<Event> {
    Check(id in nodes, NodeNotFound(id))
  }

  // ---------------------------------------------------------------- the state a run threads

  /** Everything a run reads and changes: the game variables and the current node (the
      `SimpleState`), the story's nodes, which looking up a missing node extends with an empty
      one, the events handed to the statement handler, and the answers collected. */
  datatype World = World(vars: map<string, i32>, node: string, nodes: map<string, Node>,
                         trace: seq<Event>, answers: seq<Answer>)

  /** The world with the events `es` handed on. */
  function Log(w: World, es: seq<Event>): World {
    w.(trace := w.trace + es)
  }

  lemma AppendAssoc4<T>(t: seq<T>, a: seq<T>, b: seq<T>, c: seq<T>)
    ensures t + a + b + c == t + (a + b + c)
  {
  }

  /** Where a cursor goes after a step: `if (i != end) i++`. */
  function Next(cs: seq<Command>, j: nat): (k: nat)
    requires j <= |cs|
    ensures k <= |cs| && (j < |cs| ==> k == j + 1) && (j == |cs| ==> k == j)
  {
    if j < |cs| then j + 1 else j
  }

  // ---------------------------------------------------------------- skipping blocks

  /** Where a skip stops, and the messages it recorded. */
  datatype Skip = Skip(next: nat, msgs: seq<Event>)

  /** `skipIfBlock` from `i`, the first command after an IF or ELSIF: up to the first ELSE,
      ELSIF or ENDIF of this block, stepping over nested IF ... ENDIF blocks whole. */
  function SkipIf(cs: seq<Command>, i: nat): (r: Skip)
    requires i <= |cs|
    ensures i <= r.next <= |cs|
    ensures r.next < |cs| ==> IsBranchKeyword(cs[r.next].commandType)
    decreases |cs| - i, 0
  {
    if i == |cs| then Skip(i, [Failed(MissingEndif)])
    else if cs[i].commandType == IF then
      var inner := SkipUntil(cs, i + 1);
      var rest := SkipIf(cs, Next(cs, inner.next));
      Skip(rest.next, inner.msgs + rest.msgs)
    else if IsBranchKeyword(cs[i].commandType) then Skip(i, [])
    else SkipIf(cs, i + 1)
  }

  /** One pass of the loop of `skipIfBlock`, on a command that does not end the branch: the
      messages it records come first, and the rest of the skip goes on from where it leaves
      the cursor. */
  lemma SkipIfPass(cs: seq<Command>, j: nat, k: nat, pre: seq<Event>)
    requires j < |cs| && !IsBranchKeyword(cs[j].commandType)
    requires k == if cs[j].commandType == IF then SkipUntil(cs, j + 1).next else j
    requires pre == if cs[j].commandType == IF then SkipUntil(cs, j + 1).msgs else []
    ensures k <= |cs|
    ensures SkipIf(cs, j).next == SkipIf(cs, Next(cs, k)).next
    ensures SkipIf(cs, j).msgs == pre + SkipIf(cs, Next(cs, k)).msgs
  {
    if cs[j].commandType != IF {
      assert [] + SkipIf(cs, j + 1).msgs == SkipIf(cs, j + 1).msgs;
    }
  }

  /** `skipUntilEndif` from `i`, the first command after an IF: up to the ENDIF closing the
      block, whatever ELSIF and ELSE it has. Once `skipIfBlock` has run out, the source reads
      the command at the end of the list; the model reads nothing there. */
  function SkipUntil(cs: seq<Command>, i: nat): (r: Skip)
    requires i <= |cs|
    ensures i <= r.next <= |cs|
    ensures r.next < |cs| ==> cs[r.next].commandType == ENDIF
    decreases |cs| - i, 1
  {
    if i == |cs| then Skip(i, [Failed(EndBeforeEndifSkip)])
    else
      var block := SkipIf(cs, i);
      if block.next < |cs| && cs[block.next].commandType == ENDIF then block
      else
        var rest := SkipUntil(cs, Next(cs, block.next));
        Skip(rest.next, block.msgs + rest.msgs)
  }

  // ---------------------------------------------------------------- answers

  /** `getCurrentNode`: the node looked up with `operator[]`, which adds an empty node under a
      title that is missing. */
  function CurrentNodes(nodes: map<string, Node>, node: string): (ns: map<string, Node>)
    ensures node in ns && ns.Keys == nodes.Keys + {node}
    ensures node in nodes ==> ns == nodes
    ensures node !in nodes ==> ns[node] == NewNode("") && forall t | t in nodes :: ns[t] == nodes[t]
  {
    if node in nodes then nodes else nodes[node := NewNode("")]
  }

  /** The GOTO an answer gets when it ends without one of its own: back to the current node. */
  function DefaultGoto(nodes: map<string, Node>, node: string): Command {
    Command(GOTO, CurrentNodes(nodes, node)[node].nodeTitle, -1)
  }

  /** What `executeAnswer` returns and leaves behind: the answer, the cursor, the nodes after
      any lookup of the current node, and the messages it recorded. */
  datatype Collected = Collected(answer: Answer, next: nat, nodes: map<string, Node>, msgs: seq<Event>)

  /** `executeAnswer` with the cursor on the ANSWER at `i`. */
  function AnswerAt(cs: seq<Command>, i: nat, node: string, nodes: map<string, Node>): (r: Collected)
    requires i < |cs|
    ensures i <= r.next <= |cs|
  {
    AnswerFrom(cs, i + 1, node, nodes, cs[i].parameter, [])
  }

  /** The loop of `executeAnswer` from `i`, with the commands `acc` collected so far. Another
      ANSWER steps the cursor back onto the command before it; an IF inside an answer is
      refused, and the source then moves the cursor past the end of the list, which the model
      reads as leaving it at the end. */
  function AnswerFrom(cs: seq<Command>, i: nat, node: string, nodes: map<string, Node>,
                      text: string, acc: seq<Command>): (r: Collected)
    requires 0 < i <= |cs|
    ensures i - 1 <= r.next <= |cs|
    decreases |cs| - i
  {
    if i == |cs| then Collected(Answer(text, acc), i, nodes, [])
    else match cs[i].commandType
      case ANSWER =>
        Collected(Answer(text, acc + [DefaultGoto(nodes, node)]), i - 1, CurrentNodes(nodes, node), [])
      case PASS =>
        Collected(Answer(text, acc + [DefaultGoto(nodes, node)]), i, CurrentNodes(nodes, node), [])
      case END | GOTO => Collected(Answer(text, acc + [cs[i]]), i, nodes, [])
      case IF => Collected(Answer(text, acc), |cs|, nodes, [Failed(IfInAnswer(cs[i].lineno))])
      case _ => AnswerFrom(cs, i + 1, node, nodes, text, acc + [cs[i]])
  }

  /** The world once the answer `a` has been collected. */
  function Answered(w: World, a: Collected): World {
    w.(nodes := a.nodes, trace := w.trace + a.msgs, answers := w.answers + [a.answer])
  }

  // ---------------------------------------------------------------- statements

  /** `setVar`: a missing variable is reported, and written (so created) all the same. */
  function SetVar(w: World, key: string, val: i32): (r: World)
    ensures r.vars == w.vars[key := val] && r.trace == w.trace + Check(key in w.vars, NotFound(key))
    ensures r.node == w.node && r.nodes == w.nodes && r.answers == w.answers
  {
    w.(vars := w.vars[key := val], trace := w.trace + Check(key in w.vars, NotFound(key)))
  }

  /** Every variable set to 0, as `UNSET ALL` does. */
  function Zeroed(vars: map<string, i32>): (r: map<string, i32>)
    ensures r.Keys == vars.Keys && forall k | k in r :: r[k] == 0
  {
    map k | k in vars :: 0
  }

  /** A step of the cursor and the world after it. */
  datatype Step = Step(next: nat, world: World)

  /** `executeStatement`: what one command other than IF, ANSWER and the branch keywords does.
      The cursor does not move. A TOGGLE of a missing variable reports it and then reads it
      with `map::at`, which throws; the model records the exception as a `Fault` and changes
      nothing. A GOTO runs the whole target node, `fuel` bounding how deep GOTOs nest. */
  function Exec(fuel: nat, c: Command, w: World): (r: World)
    decreases fuel, 0, 1
  {
    match c.commandType
      case END | TEXT | IMAGE | SAMPLE | EFFECT => Log(w, [SideEffect(c)])
      case SET => SetVar(w, c.parameter, 1)
      case LET =>
        var (vars, errs) := AssignSpec(w.vars, c.parameter);
        Log(w.(vars := vars), Check(|errs| == 0, Join(errs, "\n")))
      case UNSET => if c.parameter == "ALL" then w.(vars := Zeroed(w.vars)) else SetVar(w, c.parameter, 0)
      case TOGGLE =>
        if c.parameter in w.vars then SetVar(w, c.parameter, if w.vars[c.parameter] != 0 then 0 else 1)
        else Log(w, [Failed(NotFound(c.parameter)), Fault(c.parameter)])
      case GOTO => CallNode(fuel, c.parameter, w)
      case _ => w
  }

  /** GOTO `t`: the node is checked (twice: once by `testNodeExists`, once by
      `setCurrentNode`), becomes the current node, and its commands run to their end; then
      the caller goes on after the GOTO. */
  function CallNode(fuel: nat, t: string, w: World): (r: World)
    decreases fuel, 0, 0
  {
    var checked := Log(w, NodeCheck(w.nodes, t) + NodeCheck(w.nodes, t) + [Debug(GoingTo(t))]);
    var w1 := checked.(node := t, nodes := CurrentNodes(w.nodes, t));
    if fuel == 0 then Log(w1, [Exhausted(t)])
    else Statements(fuel - 1, w1.nodes[t].commands, 0, w1)
  }

  /** `executeStatements` from `i` to the end of `cs`. */
  function Statements(fuel: nat, cs: seq<Command>, i: nat, w: World): (r: World)
    requires i <= |cs|
    decreases fuel, |cs| - i, 5
  {
    if i == |cs| then w
    else
      var s := StatementStep(fuel, cs, i, w);
      Statements(fuel, cs, s.next, s.world)
  }

  /** One pass of the loop of `executeStatements`, with the cursor on `cs[i]`: where the
      cursor goes and the world after. */
  function StatementStep(fuel: nat, cs: seq<Command>, i: nat, w: World): (r: Step)
    requires i < |cs|
    ensures i < r.next <= |cs|
    decreases fuel, |cs| - i, 4
  {
    match cs[i].commandType
      case ANSWER =>
        var a := AnswerAt(cs, i, w.node, w.nodes);
        Step(Next(cs, a.next), Answered(w, a))
      case IF =>
        var s := EvalIf(fuel, cs, i, w);
        Step(Next(cs, s.next), s.world)
      case PASS => Step(i + 1, Log(w, [Failed(PassWithoutAnswer)]))
      case ELSE | ELSIF | ENDIF => Step(i + 1, Log(w, [Failed(StrayBranch)]))
      case _ => Step(i + 1, Exec(fuel, cs[i], w))
  }

  /** `executeIfBlock` from `i`, the first command of a branch: runs it up to the ELSE, ELSIF
      or ENDIF that ends it, which the cursor is left on. */
  function IfBlock(fuel: nat, cs: seq<Command>, i: nat, w: World): (r: Step)
    requires i <= |cs|
    ensures i <= r.next <= |cs|
    decreases fuel, |cs| - i, 3
  {
    if i == |cs| then Step(i, Log(w, [Failed(EndBeforeEndifBlock)]))
    else if IsBranchKeyword(cs[i].commandType) then Step(i, w)
    else
      var s := BlockStep(fuel, cs, i, w);
      IfBlock(fuel, cs, s.next, s.world)
  }

  /** One pass of the loop of `executeIfBlock`, with the cursor on a command that does not
      end the branch. */
  function BlockStep(fuel: nat, cs: seq<Command>, i: nat, w: World): (r: Step)
    requires i < |cs| && !IsBranchKeyword(cs[i].commandType)
    ensures i < r.next <= |cs|
    decreases fuel, |cs| - i, 2
  {
    if cs[i].commandType == IF then
      var s := EvalIf(fuel, cs, i, w);
      Step(Next(cs, s.next), s.world)
    else if cs[i].commandType == ANSWER then
      var a := AnswerAt(cs, i, w.node, w.nodes);
      Step(Next(cs, a.next), Answered(w, a))
    else Step(i + 1, Exec(fuel, cs[i], w))
  }

  /** `evaluateIf` with the cursor on an IF or ELSIF: the condition is evaluated (its errors
      reported); a true one runs its branch and skips the rest of the block, a false one skips
      its branch and goes on with the ELSE branch or the next ELSIF. The cursor is left on the
      ENDIF. Where the source would read the command at the end of the list, the model reads
      nothing. */
  function EvalIf(fuel: nat, cs: seq<Command>, i: nat, w: World): (r: Step)
    requires i < |cs|
    ensures i < r.next <= |cs|
    decreases fuel, |cs| - i, 1
  {
    var (test, errs) := EvalAsBoolSpec(w.vars, cs[i].parameter);
    var w1 := Log(w, Check(|errs| == 0, Join(errs, "\n")));
    var taken := if test then ThenBranch(fuel, cs, i + 1, w1) else ElseBranches(fuel, cs, i + 1, w1);
    Step(taken.next, Log(taken.world, EndifCheck(cs, taken.next)))
  }

  /** The check `evaluateIf` ends with: the cursor is on an ENDIF. */
  function EndifCheck(cs: seq<Command>, k: nat): (es: seq<Event>)
    ensures |es| == 0 <==> k >= |cs| || cs[k].commandType == ENDIF
  {
    if k < |cs| then Check(cs[k].commandType == ENDIF, ExpectedEndif) else []
  }

  /** The condition held (`i` is the first command after it): its branch runs, and an ELSE
      or ELSIF after it is skipped with the rest of the block. */
  function ThenBranch(fuel: nat, cs: seq<Command>, i: nat, w: World): (r: Step)
    requires i <= |cs|
    ensures i <= r.next <= |cs|
    decreases fuel, |cs| - i, 4
  {
    var body := IfBlock(fuel, cs, i, w);
    var k := body.next;
    if k < |cs| && (cs[k].commandType == ELSE || cs[k].commandType == ELSIF) then
      var s := SkipUntil(cs, k + 1);
      Step(s.next, Log(body.world, s.msgs))
    else body
  }

  /** The condition failed (`i` is the first command after it): its branch is skipped, then
      an ELSE branch runs (a second ELSE right after it is reported), or the next ELSIF is
      evaluated. */
  function ElseBranches(fuel: nat, cs: seq<Command>, i: nat, w: World): (r: Step)
    requires i <= |cs|
    ensures i <= r.next <= |cs|
    decreases fuel, |cs| - i, 2
  {
    var s := SkipIf(cs, i);
    var k := s.next;
    var w2 := Log(w, s.msgs);
    if k < |cs| && cs[k].commandType == ELSE then
      var body := IfBlock(fuel, cs, k + 1, w2);
      var e := if body.next < |cs| then Check(cs[body.next].commandType != ELSE, TwoElse) else [];
      Step(body.next, Log(body.world, e))
    else if k < |cs| && cs[k].commandType == ELSIF then EvalIf(fuel, cs, k, w2)
    else Step(k, w2)
  }

  // ---------------------------------------------------------------- the interpreter

  /** The interpreter: the story it runs (looking up a missing node title adds an empty node
      to it), the events handed to the statement handler so far, and its expression handler. */
  class Interpreter {
    var story: Story
    var trace: seq<Event>
    const expressions: ExpressionHandler

    constructor (story: Story)
      ensures this.story == story && trace == [] && fresh(expressions)
    {
      this.story := story;
      trace := [];
      expressions := new ExpressionHandler();
    }

    /** The world the functions above describe, read off the interpreter and the game state. */
    function Now(sstate: SimpleState, answers: seq<Answer>): World
      reads this, sstate
    {
      World(sstate.gameVariables, sstate.currentNodeName, story.nodes, trace, answers)
    }

    /** `gameAssert` of the statement handler. */
    method GameAssert(test: bool, msg: string)
      modifies this`trace
      ensures trace == old(trace) + Check(test, msg)
    {
      if !test {
        trace := trace + [Failed(msg)];
      }
    }

    method TestNodeExists(id: string) returns (result: bool)
      modifies this`trace
      ensures result == (id in story.nodes)
      ensures trace == old(trace) + NodeCheck(story.nodes, id)
    {
      result := id in story.nodes;
      if !result {
        GameAssert(result, NodeNotFound(id));
      }
    }

    /** `getVar`: a missing variable is reported, and reading it then throws (`None`). */
    method GetVar(sstate: SimpleState, key: string) returns (v: Option<i32>)
      modifies this`trace
      ensures trace == old(trace) + Check(key in sstate.gameVariables, NotFound(key))
      ensures key in sstate.gameVariables ==> v == Some(sstate.gameVariables[key])
      ensures key !in sstate.gameVariables ==> v == None
    {
      GameAssert(sstate.HasVar(key), NotFound(key));
      if sstate.HasVar(key) {
        v := Some(sstate.gameVariables[key]);
      } else {
        v := None;
      }
    }

    /** `setVar`: a missing variable is reported and written all the same. */
    method SetVar(sstate: SimpleState, key: string, val: i32)
      modifies this`trace, sstate`gameVariables
      ensures trace == old(trace) + Check(key in old(sstate.gameVariables), NotFound(key))
      ensures sstate.gameVariables == old(sstate.gameVariables)[key := val]
    {
      GameAssert(sstate.HasVar(key), NotFound(key));
      sstate.gameVariables := sstate.gameVariables[key := val];
    }

    method SetCurrentNode(sstate: SimpleState, id: string)
      modifies this`trace, sstate`currentNodeName
      ensures trace == old(trace) + NodeCheck(story.nodes, id) + [Debug(GoingTo(id))]
      ensures sstate.currentNodeName == id
    {
      var _ := TestNodeExists(id);
      trace := trace + [Debug(GoingTo(id))];
      sstate.currentNodeName := id;
    }

    /** `getCurrentNode`: `operator[]` adds an empty node when the title is missing. */
    method GetCurrentNode(sstate: SimpleState) returns (n: Node)
      modifies this`story
      ensures story == old(story).(nodes := CurrentNodes(old(story.nodes), sstate.currentNodeName))
      ensures n == story.nodes[sstate.currentNodeName]
    {
      if sstate.currentNodeName !in story.nodes {
        story := story.(nodes := story.nodes[sstate.currentNodeName := Node("", [])]);
      }
      n := story.nodes[sstate.currentNodeName];
    }

    method SkipIfBlock(cs: seq<Command>, i0: nat) returns (i: nat)
      requires i0 <= |cs|
      modifies this`trace
      ensures i == SkipIf(cs, i0).next && trace == old(trace) + SkipIf(cs, i0).msgs
      decreases |cs| - i0, 0
    {
      i := i0;
      while i != |cs|
        invariant i0 <= i <= |cs|
        invariant SkipIf(cs, i).next == SkipIf(cs, i0).next
        invariant trace + SkipIf(cs, i).msgs == old(trace) + SkipIf(cs, i0).msgs
        decreases |cs| - i
      {
        ghost var t, j, pre := trace, i, [];
        if cs[i].commandType == IF {
          i := SkipUntilEndif(cs, i + 1);
          pre := SkipUntil(cs, j + 1).msgs;
        } else if IsBranchKeyword(cs[i].commandType) {
          return;
        }
        ghost var k := i;
        SkipIfPass(cs, j, k, pre);
        if i != |cs| {
          i := i + 1;
        }
        assert i == Next(cs, k);
        assert trace == t + pre;
        AppendAssoc(t, pre, SkipIf(cs, i).msgs);
      }
      GameAssert(false, MissingEndif);
    }

    method SkipUntilEndif(cs: seq<Command>, i0: nat) returns (i: nat)
      requires i0 <= |cs|
      modifies this`trace
      ensures i == SkipUntil(cs, i0).next && trace == old(trace) + SkipUntil(cs, i0).msgs
      decreases |cs| - i0, 1
    {
      i := i0;
      while i != |cs|
        invariant i0 <= i <= |cs|
        invariant SkipUntil(cs, i).next == SkipUntil(cs, i0).next
        invariant trace + SkipUntil(cs, i).msgs == old(trace) + SkipUntil(cs, i0).msgs
        decreases |cs| - i
      {
        ghost var t, j := trace, i;
        i := SkipIfBlock(cs, i);
        if i < |cs| && cs[i].commandType == ENDIF {
          return;
        }
        if i != |cs| {
          i := i + 1;
        }
        AppendAssoc(t, SkipIf(cs, j).msgs, SkipUntil(cs, i).msgs);
      }
      GameAssert(false, EndBeforeEndifSkip);
    }

    method ExecuteAnswer(sstate: SimpleState, cs: seq<Command>, i0: nat) returns (a: Answer, i: nat)
      requires i0 < |cs|
      modifies this`trace, this`story
      ensures var r := AnswerAt(cs, i0, sstate.currentNodeName, old(story.nodes));
              && a == r.answer && i == r.next
              && story == old(story).(nodes := r.nodes) && trace == old(trace) + r.msgs
    {
      a := Answer(cs[i0].parameter, []);
      i := i0 + 1;
      while i != |cs|
        invariant i0 < i <= |cs|
        invariant story == old(story) && trace == old(trace)
        invariant AnswerFrom(cs, i, sstate.currentNodeName, story.nodes, a.text, a.commands)
                  == AnswerAt(cs, i0, sstate.currentNodeName, story.nodes)
        decreases |cs| - i
      {
        match cs[i].commandType {
          case ANSWER =>
            var n := GetCurrentNode(sstate);
            a := a.(commands := a.commands + [Command(GOTO, n.nodeTitle, -1)]);
            i := i - 1;
            return;
          case PASS =>
            var n := GetCurrentNode(sstate);
            a := a.(commands := a.commands + [Command(GOTO, n.nodeTitle, -1)]);
            return;
          case END | GOTO =>
            a := a.(commands := a.commands + [cs[i]]);
            return;
          case IF =>
            GameAssert(false, IfInAnswer(cs[i].lineno));
            i := |cs|;
            return;
          case _ =>
            a := a.(commands := a.commands + [cs[i]]);
        }
        i := i + 1;
      }
    }

    /** The loop of `UNSET ALL`: every stored variable becomes 0. */
    method UnsetAll(sstate: SimpleState)
      modifies sstate`gameVariables
      ensures sstate.gameVariables == Zeroed(old(sstate.gameVariables))
    {
      var todo := sstate.gameVariables.Keys;
      while todo != {}
        invariant sstate.gameVariables.Keys == old(sstate.gameVariables).Keys
        invariant todo <= sstate.gameVariables.Keys
        invariant forall k | k in sstate.gameVariables && k !in todo :: sstate.gameVariables[k] == 0
        decreases todo
      {
        var k :| k in todo;
        sstate.gameVariables := sstate.gameVariables[k := 0];
        todo := todo - {k};
      }
    }

    method ExecuteStatement(fuel: nat, sstate: SimpleState, answers0: seq<Answer>, cs: seq<Command>, i: nat)
      returns (answers: seq<Answer>)
      requires i < |cs|
      modifies this, sstate, expressions
      ensures Now(sstate, answers) == Exec(fuel, cs[i], old(Now(sstate, answers0)))
      decreases fuel, 0, 1
    {
      var c := cs[i];
      answers := answers0;
      match c.commandType {
        case END | TEXT | IMAGE | SAMPLE | EFFECT =>
          trace := trace + [SideEffect(c)];
        case SET =>
          SetVar(sstate, c.parameter, 1);
        case LET =>
          expressions.ExecAssignment(sstate, c.parameter);
          GameAssert(expressions.IsValid(), expressions.GetErrors());
        case UNSET =>
          if c.parameter == "ALL" {
            UnsetAll(sstate);
          } else {
            SetVar(sstate, c.parameter, 0);
          }
        case TOGGLE =>
          var v := GetVar(sstate, c.parameter);
          match v {
            case None => trace := trace + [Fault(c.parameter)];
            case Some(x) => SetVar(sstate, c.parameter, if x != 0 then 0 else 1);
          }
        case GOTO =>
          answers := ExecuteGoto(fuel, sstate, answers, c.parameter);
        case _ =>
      }
    }

    /** The GOTO case of `executeStatement`. */
    method ExecuteGoto(fuel: nat, sstate: SimpleState, answers0: seq<Answer>, t: string) returns (answers: seq<Answer>)
      modifies this, sstate, expressions
      ensures Now(sstate, answers) == CallNode(fuel, t, old(Now(sstate, answers0)))
      decreases fuel, 0, 0
    {
      answers := answers0;
      ghost var w := Now(sstate, answers);
      ghost var a := NodeCheck(w.nodes, t);
      var _ := TestNodeExists(t);
      SetCurrentNode(sstate, t);
      AppendAssoc4(w.trace, a, a, [Debug(GoingTo(t))]);
      var n := GetCurrentNode(sstate);
      if fuel == 0 {
        trace := trace + [Exhausted(t)];
      } else {
        var j;
        answers, j := ExecuteStatements(fuel - 1, sstate, answers, n.commands, 0);
      }
    }

    method ExecuteStatements(fuel: nat, sstate: SimpleState, answers0: seq<Answer>, cs: seq<Command>, i0: nat)
      returns (answers: seq<Answer>, i: nat)
      requires i0 <= |cs|
      modifies this, sstate, expressions
      ensures i == |cs| && Now(sstate, answers) == Statements(fuel, cs, i0, old(Now(sstate, answers0)))
      decreases fuel, |cs| - i0, 5
    {
      answers, i := answers0, i0;
      while i != |cs|
        invariant i0 <= i <= |cs|
        invariant Statements(fuel, cs, i, Now(sstate, answers)) == Statements(fuel, cs, i0, old(Now(sstate, answers0)))
        decreases |cs| - i
      {
        answers, i := StatementPass(fuel, sstate, answers, cs, i);
      }
    }

    /** The body of the loop of `executeStatements`. */
    method StatementPass(fuel: nat, sstate: SimpleState, answers0: seq<Answer>, cs: seq<Command>, i0: nat)
      returns (answers: seq<Answer>, i: nat)
      requires i0 < |cs|
      modifies this, sstate, expressions
      ensures Step(i, Now(sstate, answers)) == StatementStep(fuel, cs, i0, old(Now(sstate, answers0)))
      decreases fuel, |cs| - i0, 4
    {
      answers, i := answers0, i0;
      match cs[i].commandType {
        case ANSWER =>
          var a;
          a, i := ExecuteAnswer(sstate, cs, i);
          answers := answers + [a];
        case IF =>
          answers, i := EvaluateIf(fuel, sstate, answers, cs, i);
        case PASS =>
          GameAssert(false, PassWithoutAnswer);
        case ELSE | ELSIF | ENDIF =>
          GameAssert(false, StrayBranch);
        case _ =>
          answers := ExecuteStatement(fuel, sstate, answers, cs, i);
      }
      if i != |cs| {
        i := i + 1;
      }
    }

    method ExecuteIfBlock(fuel: nat, sstate: SimpleState, answers0: seq<Answer>, cs: seq<Command>, i0: nat)
      returns (answers: seq<Answer>, i: nat)
      requires i0 <= |cs|
      modifies this, sstate, expressions
      ensures Step(i, Now(sstate, answers)) == IfBlock(fuel, cs, i0, old(Now(sstate, answers0)))
      decreases fuel, |cs| - i0, 3
    {
      answers, i := answers0, i0;
      while i != |cs|
        invariant i0 <= i <= |cs|
        invariant IfBlock(fuel, cs, i, Now(sstate, answers)) == IfBlock(fuel, cs, i0, old(Now(sstate, answers0)))
        decreases |cs| - i
      {
        if IsBranchKeyword(cs[i].commandType) {
          return;
        }
        answers, i := BlockPass(fuel, sstate, answers, cs, i);
      }
      GameAssert(false, EndBeforeEndifBlock);
    }

    /** The body of the loop of `executeIfBlock`, on a command that does not end the branch. */
    method BlockPass(fuel: nat, sstate: SimpleState, answers0: seq<Answer>, cs: seq<Command>, i0: nat)
      returns (answers: seq<Answer>, i: nat)
      requires i0 < |cs| && !IsBranchKeyword(cs[i0].commandType)
      modifies this, sstate, expressions
      ensures Step(i, Now(sstate, answers)) == BlockStep(fuel, cs, i0, old(Now(sstate, answers0)))
      decreases fuel, |cs| - i0, 2
    {
      answers, i := answers0, i0;
      if cs[i].commandType == IF {
        answers, i := EvaluateIf(fuel, sstate, answers, cs, i);
      } else if cs[i].commandType == ANSWER {
        var a;
        a, i := ExecuteAnswer(sstate, cs, i);
        answers := answers + [a];
      } else {
        answers := ExecuteStatement(fuel, sstate, answers, cs, i);
      }
      if i != |cs| {
        i := i + 1;
      }
    }

    method EvaluateIf(fuel: nat, sstate: SimpleState, answers0: seq<Answer>, cs: seq<Command>, i0: nat)
      returns (answers: seq<Answer>, i: nat)
      requires i0 < |cs|
      modifies this, sstate, expressions
      ensures Step(i, Now(sstate, answers)) == EvalIf(fuel, cs, i0, old(Now(sstate, answers0)))
      decreases fuel, |cs| - i0, 1
    {
      answers, i := answers0, i0;
      var test := expressions.EvalAsBool(sstate, cs[i].parameter);
      GameAssert(expressions.IsValid(), expressions.GetErrors());
      i := i + 1;
      if test {
        answers, i := ExecuteThen(fuel, sstate, answers, cs, i);
      } else {
        answers, i := ExecuteElse(fuel, sstate, answers, cs, i);
      }
      if i < |cs| {
        GameAssert(cs[i].commandType == ENDIF, ExpectedEndif);
      }
    }

    /** `evaluateIf` after a condition that held. */
    method ExecuteThen(fuel: nat, sstate: SimpleState, answers0: seq<Answer>, cs: seq<Command>, i0: nat)
      returns (answers: seq<Answer>, i: nat)
      requires i0 <= |cs|
      modifies this, sstate, expressions
      ensures Step(i, Now(sstate, answers)) == ThenBranch(fuel, cs, i0, old(Now(sstate, answers0)))
      decreases fuel, |cs| - i0, 4
    {
      answers, i := ExecuteIfBlock(fuel, sstate, answers0, cs, i0);
      if i < |cs| && (cs[i].commandType == ELSE || cs[i].commandType == ELSIF) {
        i := SkipUntilEndif(cs, i + 1);
      }
    }

    /** `evaluateIf` after a condition that failed. */
    method ExecuteElse(fuel: nat, sstate: SimpleState, answers0: seq<Answer>, cs: seq<Command>, i0: nat)
      returns (answers: seq<Answer>, i: nat)
      requires i0 <= |cs|
      modifies this, sstate, expressions
      ensures Step(i, Now(sstate, answers)) == ElseBranches(fuel, cs, i0, old(Now(sstate, answers0)))
      decreases fuel, |cs| - i0, 2
    {
      answers := answers0;
      i := SkipIfBlock(cs, i0);
      if i < |cs| && cs[i].commandType == ELSE {
        answers, i := ExecuteIfBlock(fuel, sstate, answers, cs, i + 1);
        if i < |cs| {
          GameAssert(cs[i].commandType != ELSE, TwoElse);
        }
      } else if i < |cs| && cs[i].commandType == ELSIF {
        answers, i := EvaluateIf(fuel, sstate, answers, cs, i);
      }
    }
  }
}
