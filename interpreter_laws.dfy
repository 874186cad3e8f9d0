/** What the interpreter of src/parser.cpp promises, proved about the functions of `Execution`:
    where the skips of an IF block stop, where the cursor is left, what answers collect, and
    what single statements do. */
module ExecutionLaws {
  import opened StrUtil
  import opened Script
  import opened Expression
  import opened Execution

  // ---------------------------------------------------------------- nesting depth

  /** How a command changes the nesting depth of IF blocks. */
  function Delta(t: CommandType): int {
    if t == IF then 1 else if t == ENDIF then -1 else 0
  }

  /** The nesting depth at `m` of a scan that started at `i`: the IFs opened minus the ENDIFs
      closed in `cs[i..m]`. */
  function Depth(cs: seq<Command>, i: nat, m: nat): int
    requires i <= m <= |cs|
    decreases m - i
  {
    if m == i then 0 else Depth(cs, i, m - 1) + Delta(cs[m - 1].commandType)
  }

  lemma {:induction false} DepthSplit(cs: seq<Command>, i: nat, j: nat, m: nat)
    requires i <= j <= m <= |cs|
    ensures Depth(cs, i, m) == Depth(cs, i, j) + Depth(cs, j, m)
    decreases m - j
  {
    if m > j {
      DepthSplit(cs, i, j, m - 1);
    }
  }

  /** What ends a scan: any ELSE, ELSIF or ENDIF (`skipIfBlock`), or only an ENDIF
      (`skipUntilEndif`). */
  predicate Stops(t: CommandType, branch: bool) {
    if branch then IsBranchKeyword(t) else t == ENDIF
  }

  /** A scan from `i` to `k` stays inside the block it started in (the depth never drops
      below 0) and passes no command of that block (depth 0) that would have ended it. */
  predicate Passes(cs: seq<Command>, i: nat, k: nat, branch: bool)
    requires i <= k <= |cs|
    decreases k - i
  {
    k == i ||
    (Passes(cs, i, k - 1, branch) && Depth(cs, i, k) >= 0 &&
     (Depth(cs, i, k - 1) == 0 ==> !Stops(cs[k - 1].commandType, branch)))
  }

  /** What `Passes` asks of the command at `m`, for a scan from `i` to `k`. */
  predicate FineAt(cs: seq<Command>, i: nat, m: nat, k: nat, branch: bool)
    requires i <= m <= k <= |cs|
  {
    Depth(cs, i, m) >= 0 && (m < k && Depth(cs, i, m) == 0 ==> !Stops(cs[m].commandType, branch))
  }

  /** `Passes`, command by command. */
  lemma {:induction false} PassesMeans(cs: seq<Command>, i: nat, k: nat, branch: bool)
    requires i <= k <= |cs|
    ensures Passes(cs, i, k, branch) <==> forall m | i <= m <= k :: FineAt(cs, i, m, k, branch)
    decreases k - i
  {
    if k > i {
      var k1 := k - 1;
      PassesMeans(cs, i, k1, branch);
      if forall m | i <= m <= k :: FineAt(cs, i, m, k, branch) {
        forall m | i <= m <= k1
          ensures FineAt(cs, i, m, k1, branch)
        {
          assert FineAt(cs, i, m, k, branch);
        }
        assert FineAt(cs, i, k1, k, branch);
        assert FineAt(cs, i, k, k, branch);
      }
      if Passes(cs, i, k, branch) {
        forall m | i <= m <= k
          ensures FineAt(cs, i, m, k, branch)
        {
          if m < k {
            assert FineAt(cs, i, m, k1, branch);
          }
        }
      }
    }
  }

  lemma PassesDepth(cs: seq<Command>, i: nat, k: nat, branch: bool)
    requires i <= k <= |cs| && Passes(cs, i, k, branch)
    ensures Depth(cs, i, k) >= 0
  {
  }

  lemma {:induction false} Weaken(cs: seq<Command>, i: nat, k: nat)
    requires i <= k <= |cs| && Passes(cs, i, k, true)
    ensures Passes(cs, i, k, false)
    decreases k - i
  {
    if k > i {
      Weaken(cs, i, k - 1);
    }
  }

  /** Two scans one after the other, the first back at depth 0. */
  lemma {:induction false} Concat(cs: seq<Command>, i: nat, j: nat, k: nat, branch: bool)
    requires i <= j <= k <= |cs| && Depth(cs, i, j) == 0
    requires Passes(cs, i, j, branch) && Passes(cs, j, k, branch)
    ensures Passes(cs, i, k, branch) && Depth(cs, i, k) == Depth(cs, j, k)
    decreases k - j
  {
    DepthSplit(cs, i, j, k);
    if k > j {
      Concat(cs, i, j, k - 1, branch);
      DepthSplit(cs, i, j, k - 1);
    }
  }

  /** Inside a nested IF block opened at `i`, a scan from `i` is one level deeper than a scan
      from just after the IF. */
  lemma {:induction false} Inside(cs: seq<Command>, i: nat, m: nat, branch: bool)
    requires i < m <= |cs| && cs[i].commandType == IF && Passes(cs, i + 1, m, false)
    ensures Passes(cs, i, m, branch) && Depth(cs, i, m) == 1 + Depth(cs, i + 1, m)
    decreases m - i
  {
    DepthSplit(cs, i, i + 1, m);
    PassesDepth(cs, i + 1, m, false);
    assert Depth(cs, i, i + 1) == 1;
    if m > i + 1 {
      Inside(cs, i, m - 1, branch);
      PassesDepth(cs, i + 1, m - 1, false);
      assert Passes(cs, i, m - 1, branch);
      assert Depth(cs, i, m) >= 0;
      assert Depth(cs, i, m - 1) != 0;
    } else {
      assert Passes(cs, i, i, branch);
      assert !Stops(cs[i].commandType, branch);
    }
  }

  /** A scan over a nested IF block: the IF at `i`, then up to its ENDIF at `e` (or to the end
      of the commands, when it has none). */
  lemma {:induction false} Wrap(cs: seq<Command>, i: nat, e: nat, branch: bool)
    requires i < e <= |cs| && cs[i].commandType == IF && Passes(cs, i + 1, e, false)
    requires e < |cs| ==> cs[e].commandType == ENDIF && Depth(cs, i + 1, e) == 0
    ensures Passes(cs, i, Next(cs, e), branch)
    ensures e < |cs| ==> Depth(cs, i, e + 1) == 0
  {
    Inside(cs, i, e, branch);
  }

  /** A scan over one command that neither opens nor closes a block nor ends the scan. */
  lemma Over(cs: seq<Command>, i: nat, branch: bool)
    requires i < |cs| && cs[i].commandType != IF && cs[i].commandType != ENDIF
    requires !Stops(cs[i].commandType, branch)
    ensures Passes(cs, i, i + 1, branch) && Depth(cs, i, i + 1) == 0
  {
    assert Depth(cs, i, i) == 0 && Passes(cs, i, i, branch);
  }

  // ---------------------------------------------------------------- skipping blocks

  /** `skipIfBlock` records a message exactly when it runs out of commands, "Missing ENDIF"
      last. */
  lemma {:induction false} SkipIfReportsRunningOut(cs: seq<Command>, i: nat)
    requires i <= |cs|
    ensures var r := SkipIf(cs, i);
            && (r.msgs == [] <==> r.next < |cs|)
            && (r.next == |cs| ==> r.msgs[|r.msgs| - 1] == Failed(MissingEndif))
    decreases |cs| - i, 0
  {
    if i < |cs| && cs[i].commandType == IF {
      var inner := SkipUntil(cs, i + 1);
      SkipUntilReportsRunningOut(cs, i + 1);
      SkipIfReportsRunningOut(cs, Next(cs, inner.next));
    } else if i < |cs| && !IsBranchKeyword(cs[i].commandType) {
      SkipIfReportsRunningOut(cs, i + 1);
    }
  }

  /** `skipUntilEndif` records a message exactly when it runs out of commands, "Reached END
      before ENDIF" last. */
  lemma {:induction false} SkipUntilReportsRunningOut(cs: seq<Command>, i: nat)
    requires i <= |cs|
    ensures var r := SkipUntil(cs, i);
            && (r.msgs == [] <==> r.next < |cs|)
            && (r.next == |cs| ==> r.msgs[|r.msgs| - 1] == Failed(EndBeforeEndifSkip))
    decreases |cs| - i, 1
  {
    if i < |cs| {
      var block := SkipIf(cs, i);
      SkipIfReportsRunningOut(cs, i);
      if !(block.next < |cs| && cs[block.next].commandType == ENDIF) {
        SkipUntilReportsRunningOut(cs, Next(cs, block.next));
      }
    }
  }

  /** `skipIfBlock` stops on the first ELSE, ELSIF or ENDIF of its own block, stepping over
      those of nested blocks. */
  lemma {:induction false} SkipIfStopsAtBranchEnd(cs: seq<Command>, i: nat)
    requires i <= |cs|
    ensures var r := SkipIf(cs, i);
            && Passes(cs, i, r.next, true) && (r.next < |cs| ==> Depth(cs, i, r.next) == 0)
    decreases |cs| - i, 0, 1
  {
    if i == |cs| {
    } else if cs[i].commandType == IF {
      SkipIfOverNested(cs, i);
    } else if !IsBranchKeyword(cs[i].commandType) {
      SkipIfOverPlain(cs, i);
    }
  }

  /** The step of `SkipIfStopsAtBranchEnd` over a nested IF block. */
  lemma {:induction false} SkipIfOverNested(cs: seq<Command>, i: nat)
    requires i < |cs| && cs[i].commandType == IF
    ensures var r := SkipIf(cs, i);
            && Passes(cs, i, r.next, true) && (r.next < |cs| ==> Depth(cs, i, r.next) == 0)
    decreases |cs| - i, 0, 0
  {
    var e := SkipUntil(cs, i + 1).next;
    SkipUntilStopsAtEndif(cs, i + 1);
    if e < |cs| {
      SkipIfStopsAtBranchEnd(cs, e + 1);
    }
    Wrap(cs, i, e, true);
    if e < |cs| {
      var k := SkipIf(cs, e + 1).next;
      assert SkipIf(cs, i).next == k;
      Concat(cs, i, e + 1, k, true);
    } else {
      assert SkipIf(cs, i).next == |cs|;
    }
  }

  /** The step of `SkipIfStopsAtBranchEnd` over a command that does not end the branch. */
  lemma {:induction false} SkipIfOverPlain(cs: seq<Command>, i: nat)
    requires i < |cs| && cs[i].commandType != IF && !IsBranchKeyword(cs[i].commandType)
    ensures var r := SkipIf(cs, i);
            && Passes(cs, i, r.next, true) && (r.next < |cs| ==> Depth(cs, i, r.next) == 0)
    decreases |cs| - i, 0, 0
  {
    SkipIfStopsAtBranchEnd(cs, i + 1);
    var k := SkipIf(cs, i + 1).next;
    assert SkipIf(cs, i).next == k;
    Over(cs, i, true);
    Concat(cs, i, i + 1, k, true);
  }

  /** `skipUntilEndif` stops on the first ENDIF of its own block, passing its ELSE and ELSIF
      and stepping over nested blocks. */
  lemma {:induction false} SkipUntilStopsAtEndif(cs: seq<Command>, i: nat)
    requires i <= |cs|
    ensures var r := SkipUntil(cs, i);
            && Passes(cs, i, r.next, false) && (r.next < |cs| ==> Depth(cs, i, r.next) == 0)
    decreases |cs| - i, 1, 1
  {
    if i < |cs| {
      var k := SkipIf(cs, i).next;
      if k < |cs| && cs[k].commandType != ENDIF {
        SkipUntilPastBranch(cs, i);
      } else {
        SkipIfStopsAtBranchEnd(cs, i);
        Weaken(cs, i, k);
        assert SkipUntil(cs, i).next == k;
      }
    }
  }

  /** The step of `SkipUntilStopsAtEndif` past an ELSE or ELSIF of its own block. */
  lemma {:induction false} SkipUntilPastBranch(cs: seq<Command>, i: nat)
    requires i < |cs|
    requires var k := SkipIf(cs, i).next; k < |cs| && cs[k].commandType != ENDIF
    ensures var r := SkipUntil(cs, i);
            && Passes(cs, i, r.next, false) && (r.next < |cs| ==> Depth(cs, i, r.next) == 0)
    decreases |cs| - i, 1, 0
  {
    var k := SkipIf(cs, i).next;
    SkipIfStopsAtBranchEnd(cs, i);
    Weaken(cs, i, k);
    var e := SkipUntil(cs, k + 1).next;
    assert SkipUntil(cs, i).next == e;
    SkipUntilStopsAtEndif(cs, k + 1);
    Over(cs, k, false);
    Concat(cs, i, k, k + 1, false);
    Concat(cs, i, k + 1, e, false);
  }

  // ---------------------------------------------------------------- where the cursor is left

  /** The ELSE at `m` heads a branch that ENDIF closes (or that runs to the end of the
      commands), not another ELSE or an ELSIF. */
  predicate ElseClosed(cs: seq<Command>, m: nat)
    requires m < |cs|
  {
    var k := SkipIf(cs, m + 1).next;
    k < |cs| ==> cs[k].commandType == ENDIF
  }

  /** Command lists whose IF blocks the cursor laws are about: every ANSWER closed inside the
      branch it stands in, and every ELSE branch closed by its ENDIF. */
  predicate WellFormedBlocks(cs: seq<Command>) {
    forall m | 0 <= m < |cs| :: Fits(cs, m)
  }

  /** An ANSWER at `m` is closed inside its branch, and an ELSE there is closed by its ENDIF. */
  predicate Fits(cs: seq<Command>, m: nat)
    requires m < |cs|
  {
    && (cs[m].commandType == ANSWER ==> AnswerClosed(cs, m + 1))
    && (cs[m].commandType == ELSE ==> ElseClosed(cs, m))
  }

  /** The answer whose commands start at `i` ends, before the end of the list, on a command
      other than IF (another ANSWER, a PASS, an END or a GOTO), and no ELSE, ELSIF or ENDIF
      comes first: the answer takes no command of the IF block around it. */
  predicate AnswerClosed(cs: seq<Command>, i: nat)
    requires i <= |cs|
    decreases |cs| - i
  {
    && i < |cs|
    && if EndsAnswer(cs[i].commandType) then cs[i].commandType != IF
       else !IsBranchKeyword(cs[i].commandType) && AnswerClosed(cs, i + 1)
  }

  /** An answer closed inside its branch leaves the cursor where `skipIfBlock` would pass on
      from: the commands it takes hold no IF and end no branch. */
  lemma {:induction false} AnswerMovesLikeSkip(cs: seq<Command>, i: nat, node: string,
                                              nodes: map<string, Node>, text: string, acc: seq<Command>)
    requires 0 < i <= |cs| && AnswerClosed(cs, i)
    ensures var k := Next(cs, AnswerFrom(cs, i, node, nodes, text, acc).next);
            i <= k <= |cs| && SkipIf(cs, k).next == SkipIf(cs, i).next
    decreases |cs| - i
  {
    var t := cs[i].commandType;
    var k := Next(cs, AnswerFrom(cs, i, node, nodes, text, acc).next);
    if t == ANSWER {
      assert k == i;
    } else if EndsAnswer(t) {
      assert k == i + 1;
      assert SkipIf(cs, i) == SkipIf(cs, i + 1);
    } else {
      assert AnswerFrom(cs, i, node, nodes, text, acc) == AnswerFrom(cs, i + 1, node, nodes, text, acc + [cs[i]]);
      AnswerMovesLikeSkip(cs, i + 1, node, nodes, text, acc + [cs[i]]);
      assert SkipIf(cs, i) == SkipIf(cs, i + 1);
    }
  }

  /** One round of `skipUntilEndif`: skip the branch, stop on an ENDIF, otherwise go on after
      the ELSE or ELSIF. */
  lemma SkipUntilRound(cs: seq<Command>, i: nat)
    requires i <= |cs|
    ensures var k := SkipIf(cs, i).next;
            SkipUntil(cs, i).next ==
              if k < |cs| && cs[k].commandType == ENDIF then k else SkipUntil(cs, Next(cs, k)).next
  {
  }

  /** `executeIfBlock` leaves the cursor where `skipIfBlock` would: on the ELSE, ELSIF or ENDIF
      that ends the branch. */
  lemma {:induction false} IfBlockStopsLikeSkip(fuel: nat, cs: seq<Command>, i: nat, w: World)
    requires i <= |cs| && WellFormedBlocks(cs)
    ensures IfBlock(fuel, cs, i, w).next == SkipIf(cs, i).next
    decreases fuel, |cs| - i, 3
  {
    if i < |cs| && !IsBranchKeyword(cs[i].commandType) {
      var s := BlockStep(fuel, cs, i, w);
      BlockStepMovesLikeSkip(fuel, cs, i, w);
      IfBlockStopsLikeSkip(fuel, cs, s.next, s.world);
    }
  }

  /** One pass of `executeIfBlock` moves the cursor over a nested IF block whole, over an
      answer and the commands it takes, or over one command; `skipIfBlock` goes on from there
      to where it would have gone from the start. */
  lemma {:induction false} BlockStepMovesLikeSkip(fuel: nat, cs: seq<Command>, i: nat, w: World)
    requires i < |cs| && !IsBranchKeyword(cs[i].commandType) && WellFormedBlocks(cs)
    ensures SkipIf(cs, BlockStep(fuel, cs, i, w).next).next == SkipIf(cs, i).next
    ensures cs[i].commandType == IF ==>
              BlockStep(fuel, cs, i, w).next == Next(cs, SkipUntil(cs, i + 1).next)
    ensures cs[i].commandType != IF && cs[i].commandType != ANSWER ==> BlockStep(fuel, cs, i, w).next == i + 1
    decreases fuel, |cs| - i, 2
  {
    assert Fits(cs, i);
    if cs[i].commandType == IF {
      EvalIfEndsLikeSkip(fuel, cs, i, w);
    } else if cs[i].commandType == ANSWER {
      AnswerMovesLikeSkip(cs, i + 1, w.node, w.nodes, cs[i].parameter, []);
    }
  }

  /** `evaluateIf` leaves the cursor where `skipUntilEndif` would: on the ENDIF that closes
      the block. */
  lemma {:induction false} EvalIfEndsLikeSkip(fuel: nat, cs: seq<Command>, i: nat, w: World)
    requires i < |cs| && WellFormedBlocks(cs)
    ensures EvalIf(fuel, cs, i, w).next == SkipUntil(cs, i + 1).next
    decreases fuel, |cs| - i, 1
  {
    var (test, errs) := EvalAsBoolSpec(w.vars, cs[i].parameter);
    var w1 := Log(w, Check(|errs| == 0, Join(errs, "\n")));
    if test {
      ThenEndsLikeSkip(fuel, cs, i + 1, w1);
    } else {
      ElseEndsLikeSkip(fuel, cs, i + 1, w1);
    }
  }

  lemma {:induction false} ThenEndsLikeSkip(fuel: nat, cs: seq<Command>, i: nat, w: World)
    requires i <= |cs| && WellFormedBlocks(cs)
    ensures ThenBranch(fuel, cs, i, w).next == SkipUntil(cs, i).next
    decreases fuel, |cs| - i, 4
  {
    IfBlockStopsLikeSkip(fuel, cs, i, w);
    SkipUntilRound(cs, i);
  }

  lemma {:induction false} ElseEndsLikeSkip(fuel: nat, cs: seq<Command>, i: nat, w: World)
    requires i <= |cs| && WellFormedBlocks(cs)
    ensures ElseBranches(fuel, cs, i, w).next == SkipUntil(cs, i).next
    decreases fuel, |cs| - i, 4
  {
    var k := SkipIf(cs, i).next;
    if k < |cs| && cs[k].commandType == ELSE {
      ElseBranchEndsLikeSkip(fuel, cs, i, w);
    } else if k < |cs| && cs[k].commandType == ELSIF {
      ElsifEndsLikeSkip(fuel, cs, i, w);
    } else {
      SkipUntilRound(cs, i);
    }
  }

  lemma {:induction false} ElseBranchEndsLikeSkip(fuel: nat, cs: seq<Command>, i: nat, w: World)
    requires i <= |cs| && WellFormedBlocks(cs)
    requires var k := SkipIf(cs, i).next; k < |cs| && cs[k].commandType == ELSE
    ensures ElseBranches(fuel, cs, i, w).next == SkipUntil(cs, i).next
    decreases fuel, |cs| - i, 2
  {
    var s := SkipIf(cs, i);
    assert Fits(cs, s.next);
    SkipUntilAfterElse(cs, i);
    ElseBranchesAtElse(fuel, cs, i, w);
    IfBlockStopsLikeSkip(fuel, cs, s.next + 1, Log(w, s.msgs));
  }

  lemma {:induction false} ElsifEndsLikeSkip(fuel: nat, cs: seq<Command>, i: nat, w: World)
    requires i <= |cs| && WellFormedBlocks(cs)
    requires var k := SkipIf(cs, i).next; k < |cs| && cs[k].commandType == ELSIF
    ensures ElseBranches(fuel, cs, i, w).next == SkipUntil(cs, i).next
    decreases fuel, |cs| - i, 2
  {
    var s := SkipIf(cs, i);
    SkipUntilAfterElsif(cs, i);
    ElseBranchesAtElsif(fuel, cs, i, w);
    EvalIfEndsLikeSkip(fuel, cs, s.next, Log(w, s.msgs));
  }

  lemma ElseBranchesAtElse(fuel: nat, cs: seq<Command>, i: nat, w: World)
    requires i <= |cs|
    requires var k := SkipIf(cs, i).next; k < |cs| && cs[k].commandType == ELSE
    ensures var s := SkipIf(cs, i);
            ElseBranches(fuel, cs, i, w).next == IfBlock(fuel, cs, s.next + 1, Log(w, s.msgs)).next
  {
  }

  lemma ElseBranchesAtElsif(fuel: nat, cs: seq<Command>, i: nat, w: World)
    requires i <= |cs|
    requires var k := SkipIf(cs, i).next; k < |cs| && cs[k].commandType == ELSIF
    ensures var s := SkipIf(cs, i);
            ElseBranches(fuel, cs, i, w) == EvalIf(fuel, cs, s.next, Log(w, s.msgs))
  {
  }

  /** An ELSIF is passed over by `skipUntilEndif` like the IF it continues. */
  lemma SkipUntilAfterElsif(cs: seq<Command>, i: nat)
    requires i <= |cs|
    requires var k := SkipIf(cs, i).next; k < |cs| && cs[k].commandType == ELSIF
    ensures SkipUntil(cs, i).next == SkipUntil(cs, SkipIf(cs, i).next + 1).next
  {
    SkipUntilRound(cs, i);
  }

  /** After an ELSE branch closed by its ENDIF, `skipUntilEndif` ends where that branch
      ends. */
  lemma SkipUntilAfterElse(cs: seq<Command>, i: nat)
    requires i <= |cs|
    requires var k := SkipIf(cs, i).next; k < |cs| && cs[k].commandType == ELSE && ElseClosed(cs, k)
    ensures SkipUntil(cs, i).next == SkipIf(cs, SkipIf(cs, i).next + 1).next
  {
    var k := SkipIf(cs, i).next;
    SkipUntilRound(cs, i);
    SkipUntilRound(cs, k + 1);
  }

  /** `evaluateIf` on an IF leaves the cursor on the ENDIF that closes its block: the first
      ENDIF at depth 0 after it, the cursor never leaving the block on the way; when there is
      no such ENDIF it ends at the end of the commands. */
  lemma EvalIfEndsOnMatchingEndif(fuel: nat, cs: seq<Command>, i: nat, w: World)
    requires i < |cs| && WellFormedBlocks(cs)
    ensures var k := EvalIf(fuel, cs, i, w).next;
            && Passes(cs, i + 1, k, false)
            && (k < |cs| ==> cs[k].commandType == ENDIF && Depth(cs, i + 1, k) == 0)
  {
    EvalIfEndsLikeSkip(fuel, cs, i, w);
    SkipUntilStopsAtEndif(cs, i + 1);
  }

  // ---------------------------------------------------------------- which branch runs

  /** The heads of the block whose IF (or ELSIF) is at `i`: `i` itself, then each ELSIF of
      the block and the ELSE that ends the chain, where `skipIfBlock` stops for them. */
  function Heads(cs: seq<Command>, i: nat): (hs: seq<nat>)
    requires i < |cs|
    ensures |hs| > 0 && hs[0] == i
    ensures forall m | 0 <= m < |hs| :: i <= hs[m] < |cs|
    ensures forall m | 0 < m < |hs| :: hs[m - 1] < hs[m]
    decreases |cs| - i
  {
    var k := SkipIf(cs, i + 1).next;
    if k < |cs| && cs[k].commandType == ELSIF then [i] + Heads(cs, k)
    else if k < |cs| && cs[k].commandType == ELSE then [i, k]
    else [i]
  }

  /** Each head after the first is the first ELSIF or ELSE of the block (depth 0) after the one
      before it, the scan between them never leaving the block; only the last can be an ELSE. */
  lemma {:induction false} HeadsAtDepthZero(cs: seq<Command>, i: nat, m: nat)
    requires i < |cs| && m + 1 < |Heads(cs, i)|
    ensures var hs := Heads(cs, i);
            && Passes(cs, hs[m] + 1, hs[m + 1], true) && Depth(cs, hs[m] + 1, hs[m + 1]) == 0
            && cs[hs[m + 1]].commandType in {ELSIF, ELSE}
            && (m + 2 < |hs| ==> cs[hs[m + 1]].commandType == ELSIF)
    decreases |cs| - i
  {
    var hs := Heads(cs, i);
    var k := SkipIf(cs, i + 1).next;
    if m == 0 {
      SkipIfStopsAtBranchEnd(cs, i + 1);
    } else {
      var rest := Heads(cs, k);
      assert k < |cs| && cs[k].commandType == ELSIF;
      assert hs == [i] + rest;
      HeadsAtDepthZero(cs, k, m - 1);
      assert hs[m] == rest[m - 1] && hs[m + 1] == rest[m];
    }
  }

  /** The branch of head `c` is taken: an ELSE always is, an IF or ELSIF when its condition
      holds for `vars`. */
  predicate Holds(vars: map<string, i32>, c: Command) {
    c.commandType == ELSE || EvalAsBoolSpec(vars, c.parameter).0
  }

  /** The index in `hs` of the first head whose branch is taken, `|hs|` if there is none. */
  function FirstHolding(vars: map<string, i32>, cs: seq<Command>, hs: seq<nat>): (j: nat)
    requires forall m | 0 <= m < |hs| :: hs[m] < |cs|
    ensures j <= |hs|
    ensures forall m | 0 <= m < j :: !Holds(vars, cs[hs[m]])
    ensures j < |hs| ==> Holds(vars, cs[hs[j]])
  {
    if |hs| == 0 then 0
    else if Holds(vars, cs[hs[0]]) then 0
    else 1 + FirstHolding(vars, cs, hs[1..])
  }

  /** The world after the condition at `i` is tested. */
  function Tested(cs: seq<Command>, i: nat, w: World): World
    requires i < |cs|
  {
    var errs := EvalAsBoolSpec(w.vars, cs[i].parameter).1;
    Log(w, Check(|errs| == 0, Join(errs, "\n")))
  }

  /** Where the branch `evaluateIf` runs starts and the world it starts in: each condition
      tested hands on its errors, each branch passed over the messages of its skip; `None`
      when no condition holds and there is no ELSE. */
  function Pick(cs: seq<Command>, i: nat, w: World): (p: Option<Step>)
    requires i < |cs|
    ensures p.Some? ==> i < p.value.next <= |cs|
    ensures p.Some? ==> w.trace <= p.value.world.trace && p.value.world.(trace := w.trace) == w
    decreases |cs| - i
  {
    if EvalAsBoolSpec(w.vars, cs[i].parameter).0 then Some(Step(i + 1, Tested(cs, i, w)))
    else
      var s := SkipIf(cs, i + 1);
      var k := s.next;
      var w2 := Log(Tested(cs, i, w), s.msgs);
      if k < |cs| && cs[k].commandType == ELSE then Some(Step(k + 1, w2))
      else if k < |cs| && cs[k].commandType == ELSIF then Pick(cs, k, w2)
      else None
  }

  /** The branch picked is the one after the first head whose branch is taken, and none is
      picked exactly when no head's is: the conditions are tested in order, all on the
      variables as they were, since testing one changes none. */
  lemma {:induction false} PickFirstHolding(cs: seq<Command>, i: nat, w: World)
    requires i < |cs| && cs[i].commandType != ELSE
    ensures var hs := Heads(cs, i);
            var j := FirstHolding(w.vars, cs, hs);
            && (Pick(cs, i, w).Some? <==> j < |hs|)
            && (j < |hs| ==> Pick(cs, i, w).value.next == hs[j] + 1)
    decreases |cs| - i
  {
    var hs := Heads(cs, i);
    var test := EvalAsBoolSpec(w.vars, cs[i].parameter).0;
    var w1 := Tested(cs, i, w);
    assert Holds(w.vars, cs[i]) == test;
    if !test {
      var s := SkipIf(cs, i + 1);
      var k := s.next;
      var w2 := Log(w1, s.msgs);
      assert FirstHolding(w.vars, cs, hs) == 1 + FirstHolding(w.vars, cs, hs[1..]);
      if k < |cs| && cs[k].commandType == ELSE {
        assert hs[1..] == [k];
        assert Holds(w.vars, cs[k]);
      } else if k < |cs| && cs[k].commandType == ELSIF {
        assert hs[1..] == Heads(cs, k);
        assert w2.vars == w.vars;
        PickFirstHolding(cs, k, w2);
      } else {
        assert hs[1..] == [];
      }
    }
  }

  /** `r` is the world `b` with more messages handed on after it, and nothing else changed. */
  predicate Extends(r: World, b: World) {
    b.trace <= r.trace && r.(trace := b.trace) == b
  }

  lemma LogExtends(b: World, es: seq<Event>)
    ensures Extends(Log(b, es), b)
  {
  }

  lemma ExtendsTrans(a: World, b: World, c: World)
    requires Extends(a, b) && Extends(b, c)
    ensures Extends(a, c)
  {
    assert c.trace <= a.trace;
  }

  /** A true condition: its branch runs; a skip past the rest of the block only adds messages. */
  lemma ThenBranchExtends(fuel: nat, cs: seq<Command>, i: nat, w: World)
    requires i <= |cs|
    ensures Extends(ThenBranch(fuel, cs, i, w).world, IfBlock(fuel, cs, i, w).world)
  {
  }

  /** `evaluateIf` at `i` leaves the variables, the current node, the story and the answers
      as the picked branch, run by `executeIfBlock` from the world `Pick` gives, leaves them,
      and as they were when no branch is picked; the only other change is messages handed on
      after it (the skip past the rest of the block, a second ELSE, the ENDIF check). */
  predicate RunsPick(fuel: nat, cs: seq<Command>, i: nat, w: World)
    requires i < |cs|
  {
    && (Pick(cs, i, w).None? ==> Extends(EvalIf(fuel, cs, i, w).world, w))
    && (Pick(cs, i, w).Some? ==>
          Extends(EvalIf(fuel, cs, i, w).world, IfBlock(fuel, cs, Pick(cs, i, w).value.next, Pick(cs, i, w).value.world).world))
  }

  lemma EvalIfThen(fuel: nat, cs: seq<Command>, i: nat, w: World)
    requires i < |cs| && EvalAsBoolSpec(w.vars, cs[i].parameter).0
    ensures RunsPick(fuel, cs, i, w)
  {
    var w1 := Tested(cs, i, w);
    var taken := ThenBranch(fuel, cs, i + 1, w1);
    var r := EvalIf(fuel, cs, i, w).world;
    assert r == Log(taken.world, EndifCheck(cs, taken.next));
    assert Pick(cs, i, w) == Some(Step(i + 1, w1));
    ThenBranchExtends(fuel, cs, i + 1, w1);
    ExtendsTrans(r, taken.world, IfBlock(fuel, cs, i + 1, w1).world);
  }

  /** A false condition: `evaluateIf` leaves what the ELSE branches leave, the ENDIF check
      aside. */
  lemma EvalIfFalse(fuel: nat, cs: seq<Command>, i: nat, w: World)
    requires i < |cs| && !EvalAsBoolSpec(w.vars, cs[i].parameter).0
    ensures Extends(EvalIf(fuel, cs, i, w).world, ElseBranches(fuel, cs, i + 1, Tested(cs, i, w)).world)
  {
    var taken := ElseBranches(fuel, cs, i + 1, Tested(cs, i, w));
    assert EvalIf(fuel, cs, i, w).world == Log(taken.world, EndifCheck(cs, taken.next));
    LogExtends(taken.world, EndifCheck(cs, taken.next));
  }

  lemma PickElse(cs: seq<Command>, i: nat, w: World)
    requires i < |cs| && !EvalAsBoolSpec(w.vars, cs[i].parameter).0
    requires var k := SkipIf(cs, i + 1).next; k < |cs| && cs[k].commandType == ELSE
    ensures Pick(cs, i, w) == Some(Step(SkipIf(cs, i + 1).next + 1, Log(Tested(cs, i, w), SkipIf(cs, i + 1).msgs)))
  {
  }

  /** An ELSE branch runs; the check for a second ELSE only adds messages. */
  lemma ElseBranchExtends(fuel: nat, cs: seq<Command>, i: nat, w: World)
    requires i <= |cs|
    requires var k := SkipIf(cs, i).next; k < |cs| && cs[k].commandType == ELSE
    ensures Extends(ElseBranches(fuel, cs, i, w).world,
                    IfBlock(fuel, cs, SkipIf(cs, i).next + 1, Log(w, SkipIf(cs, i).msgs)).world)
  {
  }

  /** A false condition followed by an ELSE: `evaluateIf` leaves what the ELSE branch leaves,
      run from the world after the test and the skip, messages handed on after it aside. */
  lemma EvalIfElseRuns(fuel: nat, cs: seq<Command>, i: nat, w: World)
    requires i < |cs| && !EvalAsBoolSpec(w.vars, cs[i].parameter).0
    requires var k := SkipIf(cs, i + 1).next; k < |cs| && cs[k].commandType == ELSE
    ensures Extends(EvalIf(fuel, cs, i, w).world,
                    IfBlock(fuel, cs, SkipIf(cs, i + 1).next + 1, Log(Tested(cs, i, w), SkipIf(cs, i + 1).msgs)).world)
  {
    var w1 := Tested(cs, i, w);
    EvalIfFalse(fuel, cs, i, w);
    ElseBranchExtends(fuel, cs, i + 1, w1);
    ExtendsTrans(EvalIf(fuel, cs, i, w).world, ElseBranches(fuel, cs, i + 1, w1).world,
                 IfBlock(fuel, cs, SkipIf(cs, i + 1).next + 1, Log(w1, SkipIf(cs, i + 1).msgs)).world);
  }

  lemma EvalIfElse(fuel: nat, cs: seq<Command>, i: nat, w: World)
    requires i < |cs| && !EvalAsBoolSpec(w.vars, cs[i].parameter).0
    requires var k := SkipIf(cs, i + 1).next; k < |cs| && cs[k].commandType == ELSE
    ensures RunsPick(fuel, cs, i, w)
  {
    PickElse(cs, i, w);
    EvalIfElseRuns(fuel, cs, i, w);
    assert IfBlock(fuel, cs, Pick(cs, i, w).value.next, Pick(cs, i, w).value.world) ==
           IfBlock(fuel, cs, SkipIf(cs, i + 1).next + 1, Log(Tested(cs, i, w), SkipIf(cs, i + 1).msgs));
  }

  lemma EvalIfNone(fuel: nat, cs: seq<Command>, i: nat, w: World)
    requires i < |cs| && !EvalAsBoolSpec(w.vars, cs[i].parameter).0
    requires var k := SkipIf(cs, i + 1).next; k == |cs| || !(cs[k].commandType in {ELSE, ELSIF})
    ensures RunsPick(fuel, cs, i, w)
  {
    var w1 := Tested(cs, i, w);
    var s := SkipIf(cs, i + 1);
    var w2 := Log(w1, s.msgs);
    var taken := ElseBranches(fuel, cs, i + 1, w1);
    var r := EvalIf(fuel, cs, i, w).world;
    assert r == Log(taken.world, EndifCheck(cs, taken.next));
    assert Pick(cs, i, w).None?;
    assert taken.world == w2;
    ExtendsTrans(r, w2, w);
  }

  /** A false condition followed by an ELSIF: what holds for the ELSIF holds for the IF. */
  lemma EvalIfElsif(fuel: nat, cs: seq<Command>, i: nat, w: World)
    requires i < |cs| && !EvalAsBoolSpec(w.vars, cs[i].parameter).0
    requires var k := SkipIf(cs, i + 1).next; k < |cs| && cs[k].commandType == ELSIF
    requires RunsPick(fuel, cs, SkipIf(cs, i + 1).next, Log(Tested(cs, i, w), SkipIf(cs, i + 1).msgs))
    ensures RunsPick(fuel, cs, i, w)
  {
    var w1 := Tested(cs, i, w);
    var s := SkipIf(cs, i + 1);
    var k := s.next;
    var w2 := Log(w1, s.msgs);
    var taken := ElseBranches(fuel, cs, i + 1, w1);
    var r := EvalIf(fuel, cs, i, w).world;
    assert r == Log(taken.world, EndifCheck(cs, taken.next));
    assert Pick(cs, i, w) == Pick(cs, k, w2);
    assert taken == EvalIf(fuel, cs, k, w2);
    if Pick(cs, k, w2).Some? {
      var p := Pick(cs, k, w2).value;
      ExtendsTrans(r, taken.world, IfBlock(fuel, cs, p.next, p.world).world);
    } else {
      ExtendsTrans(r, taken.world, w2);
      ExtendsTrans(r, w2, w);
    }
  }

  /** `evaluateIf` runs the branch `Pick` picks, from the world it gives, and no other. */
  lemma {:induction false} EvalIfRunsPick(fuel: nat, cs: seq<Command>, i: nat, w: World)
    requires i < |cs|
    ensures RunsPick(fuel, cs, i, w)
    decreases |cs| - i
  {
    var s := SkipIf(cs, i + 1);
    var k := s.next;
    if EvalAsBoolSpec(w.vars, cs[i].parameter).0 {
      EvalIfThen(fuel, cs, i, w);
    } else if k < |cs| && cs[k].commandType == ELSE {
      EvalIfElse(fuel, cs, i, w);
    } else if k < |cs| && cs[k].commandType == ELSIF {
      EvalIfRunsPick(fuel, cs, k, Log(Tested(cs, i, w), s.msgs));
      EvalIfElsif(fuel, cs, i, w);
    } else {
      EvalIfNone(fuel, cs, i, w);
    }
  }

  /** The branch-choice law of `evaluateIf` on an IF: with `hs` the IF and the ELSIF and ELSE
      heads of its block, and `j` the first of them whose branch is taken, the variables,
      current node, story and answers afterwards are those the branch after `hs[j]` leaves
      (run from the world after the tests and skips before it); when no head's branch is
      taken they are those before. */
  lemma EvalIfRunsFirstHolding(fuel: nat, cs: seq<Command>, i: nat, w: World)
    requires i < |cs| && cs[i].commandType != ELSE
    ensures var hs := Heads(cs, i);
            FirstHolding(w.vars, cs, hs) == |hs| ==> Extends(EvalIf(fuel, cs, i, w).world, w)
    ensures var hs := Heads(cs, i);
            var j := FirstHolding(w.vars, cs, hs);
            j < |hs| ==>
              && Pick(cs, i, w).Some?
              && Extends(EvalIf(fuel, cs, i, w).world, IfBlock(fuel, cs, hs[j] + 1, Pick(cs, i, w).value.world).world)
  {
    PickFirstHolding(cs, i, w);
    EvalIfRunsPick(fuel, cs, i, w);
  }
}
