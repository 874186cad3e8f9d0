/** What single statements and answers of src/parser.cpp do, proved about the functions of
    `Execution`: an answer collects exactly the commands up to the one that ends it, the
    variable commands write what they promise and nothing else, and a node made only of side
    effects hands each of its commands on, in order. */
module StatementLaws {
  import opened StrUtil
  import opened Script
  import opened Expression
  import opened Execution

  // ---------------------------------------------------------------- answers

  /** `executeAnswer` from `i`, with `j` the first command at or after `i` that ends an
      answer (or the end of the list): every command before `j` is collected in order, and
      what happens at `j` depends on that command alone. ANSWER and PASS add the GOTO back to
      the current node (the next ANSWER is left for the caller, PASS is consumed); END and
      GOTO are the answer's last command; IF is refused and ends the walk at the end of the
      list; running out of commands adds nothing. */
  lemma {:induction false} AnswerFromCollects(cs: seq<Command>, i: nat, node: string,
                                              nodes: map<string, Node>, text: string,
                                              acc: seq<Command>, j: nat)
    requires 0 < i <= j <= |cs|
    requires forall m | i <= m < j :: !EndsAnswer(cs[m].commandType)
    requires j == |cs| || EndsAnswer(cs[j].commandType)
    ensures var r := AnswerFrom(cs, i, node, nodes, text, acc);
            var got := acc + cs[i..j];
            && (j == |cs| ==> r == Collected(Answer(text, got), j, nodes, []))
            && (j < |cs| && cs[j].commandType == ANSWER ==>
                  r == Collected(Answer(text, got + [DefaultGoto(nodes, node)]), j - 1,
                                 CurrentNodes(nodes, node), []))
            && (j < |cs| && cs[j].commandType == PASS ==>
                  r == Collected(Answer(text, got + [DefaultGoto(nodes, node)]), j,
                                 CurrentNodes(nodes, node), []))
            && (j < |cs| && (cs[j].commandType == END || cs[j].commandType == GOTO) ==>
                  r == Collected(Answer(text, got + [cs[j]]), j, nodes, []))
            && (j < |cs| && cs[j].commandType == IF ==>
                  r == Collected(Answer(text, got), |cs|, nodes, [Failed(IfInAnswer(cs[j].lineno))]))
    decreases j - i
  {
    if i < j {
      assert !EndsAnswer(cs[i].commandType);
      AnswerFromCollects(cs, i + 1, node, nodes, text, acc + [cs[i]], j);
      assert acc + [cs[i]] + cs[i + 1..j] == acc + cs[i..j];
    } else {
      assert acc + cs[i..j] == acc;
    }
  }

  /** `executeAnswer` on the ANSWER at `i`, with `j` the first command after it that ends
      the answer: the answer has the ANSWER's text, starts with the commands between the two,
      and ends with a GOTO or an END (so it leads somewhere) exactly when it was closed by a
      command other than IF; only an IF inside it is reported. */
  lemma AnswerLeadsSomewhere(cs: seq<Command>, i: nat, node: string, nodes: map<string, Node>, j: nat)
    requires i < j <= |cs|
    requires forall m | i < m < j :: !EndsAnswer(cs[m].commandType)
    requires j == |cs| || EndsAnswer(cs[j].commandType)
    ensures var a := AnswerAt(cs, i, node, nodes).answer;
            && a.text == cs[i].parameter
            && cs[i + 1..j] <= a.commands
            && (j < |cs| && cs[j].commandType != IF <==>
                  |a.commands| == j - i && (a.commands[j - i - 1].commandType == GOTO ||
                                             a.commands[j - i - 1].commandType == END))
    ensures AnswerAt(cs, i, node, nodes).msgs != [] <==> j < |cs| && cs[j].commandType == IF
  {
    AnswerFromCollects(cs, i + 1, node, nodes, cs[i].parameter, [], j);
    assert [] + cs[i + 1..j] == cs[i + 1..j];
  }

  // ---------------------------------------------------------------- variable commands

  /** SET, UNSET and TOGGLE of a variable `k` (not `UNSET ALL`): `k` then holds 1, 0, or 1
      exactly when it held 0; no other variable changes; a missing `k` is reported (and, but
      for TOGGLE, created). UNSET ALL sets every variable to 0 and creates none. */
  lemma VariableCommands(fuel: nat, c: Command, w: World)
    requires c.commandType == SET || c.commandType == UNSET || c.commandType == TOGGLE
    ensures var r := Exec(fuel, c, w);
            var k := c.parameter;
            && (c.commandType == UNSET && k == "ALL" ==>
                  r.vars.Keys == w.vars.Keys && (forall v | v in r.vars :: r.vars[v] == 0) && r.trace == w.trace)
            && (c.commandType == SET ==> k in r.vars && r.vars[k] == 1)
            && (c.commandType == UNSET && k != "ALL" ==> k in r.vars && r.vars[k] == 0)
            && (c.commandType == TOGGLE && k in w.vars ==> k in r.vars && (r.vars[k] == 1 <==> w.vars[k] == 0))
            && (c.commandType == TOGGLE && k !in w.vars ==> r.vars == w.vars)
            && (c.commandType != UNSET || k != "ALL" ==>
                  (forall v | v in w.vars && v != k :: v in r.vars && r.vars[v] == w.vars[v]) &&
                  r.vars.Keys <= w.vars.Keys + {k} &&
                  (k !in w.vars <==> |r.trace| > |w.trace|))
  {
  }

  /** `LET x = y` with single-word names: `x` takes the value of the variable `y`, or the
      number `y` spells when it is no variable; every other variable keeps its value and none
      but `x` appears; an error is reported exactly when `x` is undeclared or `y` is neither
      a variable nor a number `stoi` can read. */
  lemma LetAssigns(fuel: nat, c: Command, w: World, x: string, y: string)
    requires c.commandType == LET && c.parameter == x + " = " + y
    requires x != [] && IsWord(x) && y != [] && IsWord(y)
    ensures var r := Exec(fuel, c, w);
            && r.vars.Keys == w.vars.Keys + {x}
            && (y in w.vars ==> r.vars[x] == w.vars[y])
            && (y !in w.vars && IntLiteral(y) && Stoi(y).Some? ==> r.vars[x] == Stoi(y).value)
            && (forall k | k in w.vars && k != x :: r.vars[k] == w.vars[k])
            && r.node == w.node && r.nodes == w.nodes && r.answers == w.answers
            && w.trace <= r.trace && |r.trace| <= |w.trace| + 1
            && (|r.trace| > |w.trace| <==> x !in w.vars || (y !in w.vars && !(IntLiteral(y) && Stoi(y).Some?)))
  {
    assert WellToken("=");
    assert Join([x, "=", y], " ") == x + " = " + y by {
      assert Join([x, "=", y], " ") == x + " " + Join(["=", y], " ");
      assert Join(["=", y], " ") == "=" + " " + y;
    }
    TokensOfJoin([x, "=", y]);
  }

  /** On a variable that holds 0 or 1, TOGGLE twice changes no variable. */
  lemma ToggleTwice(fuel: nat, c: Command, w: World)
    requires c.commandType == TOGGLE && c.parameter in w.vars
    requires w.vars[c.parameter] == 0 || w.vars[c.parameter] == 1
    ensures Exec(fuel, c, Exec(fuel, c, w)).vars == w.vars
  {
    var k := c.parameter;
    var once := Exec(fuel, c, w);
    assert once.vars == w.vars[k := 1 - w.vars[k]];
    assert once.vars[k := w.vars[k]] == w.vars;
  }

  /** A command other than GOTO stays on the current node, adds no node and collects no
      answer; it only hands on events, which are appended to those already there. */
  lemma ExecStaysPut(fuel: nat, c: Command, w: World)
    requires c.commandType != GOTO
    ensures var r := Exec(fuel, c, w);
            r.node == w.node && r.nodes == w.nodes && r.answers == w.answers && w.trace <= r.trace
  {
  }

  // ---------------------------------------------------------------- side effects

  /** The commands handed to the statement handler as they are. */
  predicate IsSideEffect(t: CommandType) {
    t == END || t == TEXT || t == IMAGE || t == SAMPLE || t == EFFECT
  }

  /** The events that hand on each of `cs`, in order. */
  function Effects(cs: seq<Command>): (es: seq<Event>)
    ensures |es| == |cs| && forall m | 0 <= m < |cs| :: es[m] == SideEffect(cs[m])
  {
    if cs == [] then [] else [SideEffect(cs[0])] + Effects(cs[1..])
  }

  /** `executeStatements` over commands that are all side effects hands each of them on, in
      order, and changes nothing else. */
  lemma {:induction false} SideEffectsHandedOn(fuel: nat, cs: seq<Command>, i: nat, w: World)
    requires i <= |cs|
    requires forall m | 0 <= m < |cs| :: IsSideEffect(cs[m].commandType)
    ensures Statements(fuel, cs, i, w) == Log(w, Effects(cs[i..]))
    decreases |cs| - i
  {
    if i < |cs| {
      var w1 := Log(w, [SideEffect(cs[i])]);
      SideEffectStep(fuel, cs, i, w);
      assert Statements(fuel, cs, i, w) == Statements(fuel, cs, i + 1, w1);
      SideEffectsHandedOn(fuel, cs, i + 1, w1);
      assert [SideEffect(cs[i])] + Effects(cs[i + 1..]) == Effects(cs[i..]);
      AppendAssoc(w.trace, [SideEffect(cs[i])], Effects(cs[i + 1..]));
    } else {
      assert w.trace + [] == w.trace;
    }
  }

  /** One pass of `executeStatements` over a side effect. */
  lemma SideEffectStep(fuel: nat, cs: seq<Command>, i: nat, w: World)
    requires i < |cs| && IsSideEffect(cs[i].commandType)
    ensures StatementStep(fuel, cs, i, w) == Step(i + 1, Log(w, [SideEffect(cs[i])]))
  {
  }

  // ---------------------------------------------------------------- a run only adds

  /** `r` comes after `w`: the events handed on and the answers collected are kept and only
      added to, and every node of the story is still there, unchanged. */
  predicate Grows(w: World, r: World) {
    && w.trace <= r.trace
    && w.answers <= r.answers
    && forall t | t in w.nodes :: t in r.nodes && r.nodes[t] == w.nodes[t]
  }

  lemma GrowsTrans(a: World, b: World, c: World)
    requires Grows(a, b) && Grows(b, c)
    ensures Grows(a, c)
  {
    assert a.trace == b.trace[..|a.trace|] == c.trace[..|a.trace|];
    assert a.answers == b.answers[..|a.answers|] == c.answers[..|a.answers|];
  }

  lemma LogGrows(w: World, es: seq<Event>)
    ensures Grows(w, Log(w, es))
  {
  }

  /** Every command, a GOTO included, only adds to what has been handed on and collected. */
  lemma {:induction false} ExecGrows(fuel: nat, c: Command, w: World)
    ensures Grows(w, Exec(fuel, c, w))
    decreases fuel, 0, 1
  {
    if c.commandType == GOTO {
      CallNodeGrows(fuel, c.parameter, w);
    } else {
      ExecStaysPut(fuel, c, w);
    }
  }

  lemma {:induction false} CallNodeGrows(fuel: nat, t: string, w: World)
    ensures Grows(w, CallNode(fuel, t, w))
    decreases fuel, 0, 0
  {
    var checked := Log(w, NodeCheck(w.nodes, t) + NodeCheck(w.nodes, t) + [Debug(GoingTo(t))]);
    var w1 := checked.(node := t, nodes := CurrentNodes(w.nodes, t));
    assert Grows(w, w1);
    if fuel == 0 {
      LogGrows(w1, [Exhausted(t)]);
      GrowsTrans(w, w1, CallNode(fuel, t, w));
    } else {
      StatementsGrows(fuel - 1, w1.nodes[t].commands, 0, w1);
      GrowsTrans(w, w1, CallNode(fuel, t, w));
    }
  }

  /** `executeStatements` only adds to what has been handed on and collected. */
  lemma {:induction false} StatementsGrows(fuel: nat, cs: seq<Command>, i: nat, w: World)
    requires i <= |cs|
    ensures Grows(w, Statements(fuel, cs, i, w))
    decreases fuel, |cs| - i, 5
  {
    if i < |cs| {
      var s := StatementStep(fuel, cs, i, w);
      StatementStepGrows(fuel, cs, i, w);
      StatementsGrows(fuel, cs, s.next, s.world);
      GrowsTrans(w, s.world, Statements(fuel, cs, i, w));
    }
  }

  lemma {:induction false} StatementStepGrows(fuel: nat, cs: seq<Command>, i: nat, w: World)
    requires i < |cs|
    ensures Grows(w, StatementStep(fuel, cs, i, w).world)
    decreases fuel, |cs| - i, 4
  {
    var t := cs[i].commandType;
    if t == ANSWER {
      AnswerFromKeepsNodes(cs, i + 1, w.node, w.nodes, cs[i].parameter, []);
      AnsweredGrows(w, AnswerAt(cs, i, w.node, w.nodes));
    } else if t == IF {
      EvalIfGrows(fuel, cs, i, w);
    } else if t == PASS || IsBranchKeyword(t) {
    } else {
      ExecGrows(fuel, cs[i], w);
    }
  }

  lemma AnsweredGrows(w: World, a: Collected)
    requires forall t | t in w.nodes :: t in a.nodes && a.nodes[t] == w.nodes[t]
    ensures Grows(w, Answered(w, a))
  {
  }

  /** An answer only adds the current node, when it is missing, to the story. */
  lemma {:induction false} AnswerFromKeepsNodes(cs: seq<Command>, i: nat, node: string,
                                                nodes: map<string, Node>, text: string,
                                                acc: seq<Command>)
    requires 0 < i <= |cs|
    ensures var r := AnswerFrom(cs, i, node, nodes, text, acc);
            forall t | t in nodes :: t in r.nodes && r.nodes[t] == nodes[t]
    decreases |cs| - i
  {
    if i < |cs| && !EndsAnswer(cs[i].commandType) {
      AnswerFromKeepsNodes(cs, i + 1, node, nodes, text, acc + [cs[i]]);
    }
  }

  lemma {:induction false} IfBlockGrows(fuel: nat, cs: seq<Command>, i: nat, w: World)
    requires i <= |cs|
    ensures Grows(w, IfBlock(fuel, cs, i, w).world)
    decreases fuel, |cs| - i, 3
  {
    if i < |cs| && !IsBranchKeyword(cs[i].commandType) {
      var s := BlockStep(fuel, cs, i, w);
      BlockStepGrows(fuel, cs, i, w);
      IfBlockGrows(fuel, cs, s.next, s.world);
      GrowsTrans(w, s.world, IfBlock(fuel, cs, i, w).world);
    }
  }

  lemma {:induction false} BlockStepGrows(fuel: nat, cs: seq<Command>, i: nat, w: World)
    requires i < |cs| && !IsBranchKeyword(cs[i].commandType)
    ensures Grows(w, BlockStep(fuel, cs, i, w).world)
    decreases fuel, |cs| - i, 2
  {
    if cs[i].commandType == IF {
      EvalIfGrows(fuel, cs, i, w);
    } else if cs[i].commandType == ANSWER {
      AnswerFromKeepsNodes(cs, i + 1, w.node, w.nodes, cs[i].parameter, []);
      AnsweredGrows(w, AnswerAt(cs, i, w.node, w.nodes));
    } else {
      ExecGrows(fuel, cs[i], w);
    }
  }

  lemma {:induction false} EvalIfGrows(fuel: nat, cs: seq<Command>, i: nat, w: World)
    requires i < |cs|
    ensures Grows(w, EvalIf(fuel, cs, i, w).world)
    decreases fuel, |cs| - i, 1
  {
    var (test, errs) := EvalAsBoolSpec(w.vars, cs[i].parameter);
    var w1 := Log(w, Check(|errs| == 0, Join(errs, "\n")));
    var taken := if test then ThenBranch(fuel, cs, i + 1, w1) else ElseBranches(fuel, cs, i + 1, w1);
    if test {
      ThenBranchGrows(fuel, cs, i + 1, w1);
    } else {
      ElseBranchesGrows(fuel, cs, i + 1, w1);
    }
    GrowsTrans(w, w1, taken.world);
    LogGrows(taken.world, EndifCheck(cs, taken.next));
    GrowsTrans(w, taken.world, EvalIf(fuel, cs, i, w).world);
  }

  lemma {:induction false} ThenBranchGrows(fuel: nat, cs: seq<Command>, i: nat, w: World)
    requires i <= |cs|
    ensures Grows(w, ThenBranch(fuel, cs, i, w).world)
    decreases fuel, |cs| - i, 4
  {
    var body := IfBlock(fuel, cs, i, w);
    IfBlockGrows(fuel, cs, i, w);
    var k := body.next;
    if k < |cs| && (cs[k].commandType == ELSE || cs[k].commandType == ELSIF) {
      LogGrows(body.world, SkipUntil(cs, k + 1).msgs);
      GrowsTrans(w, body.world, ThenBranch(fuel, cs, i, w).world);
    }
  }

  lemma {:induction false} ElseBranchesGrows(fuel: nat, cs: seq<Command>, i: nat, w: World)
    requires i <= |cs|
    ensures Grows(w, ElseBranches(fuel, cs, i, w).world)
    decreases fuel, |cs| - i, 2
  {
    var s := SkipIf(cs, i);
    var k := s.next;
    var w2 := Log(w, s.msgs);
    LogGrows(w, s.msgs);
    if k < |cs| && cs[k].commandType == ELSE {
      var body := IfBlock(fuel, cs, k + 1, w2);
      IfBlockGrows(fuel, cs, k + 1, w2);
      GrowsTrans(w, w2, body.world);
      var e := if body.next < |cs| then Check(cs[body.next].commandType != ELSE, TwoElse) else [];
      LogGrows(body.world, e);
      GrowsTrans(w, body.world, ElseBranches(fuel, cs, i, w).world);
    } else if k < |cs| && cs[k].commandType == ELSIF {
      EvalIfGrows(fuel, cs, k, w2);
      GrowsTrans(w, w2, ElseBranches(fuel, cs, i, w).world);
    }
  }
}
