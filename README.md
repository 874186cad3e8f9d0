# Krampus25 story engine: script language, interpreter and rich text

This project models the story engine of the Krampus25 game. It covers:

- **Script reader** (`Parser::doParse`). It reads a story script line by line. `DEFINE` lines before the first `NODE` header declare flags. Each `NODE` header opens a node, and every later line of the node becomes a command: a keyword command such as `IF`, `GOTO`, `SET` or `ANSWER`, or a line of text.
- **Expression handler** (`ExpressionHandlerImpl`). It splits a condition into tokens and evaluates it by right-recursive descent over `AND`, `OR`, `NOT`, parentheses and comparisons. It also runs `LET` assignments. Every error message it records is kept alongside the value.
- **Interpreter** (`InterpreterImpl`). It walks a node's command list with a cursor:
  - IF / ELSIF / ELSE / ENDIF are resolved on the flat list by skipping nested blocks;
  - ANSWER collects a choice for the player;
  - SET / UNSET / TOGGLE / LET change the game variables;
  - GOTO runs another node;
  - everything else is handed to the game as a side effect.
  The side effects, the failed checks and the debug messages the interpreter hands on form a trace of events.
- **Game state** (`SimpleState`). It holds the integer variables and the current node, and has a save format: a `NODE=<name>` line, then one `<key>=<value>` line per variable, in key order.
- **Rich text** (`richtext.cpp`). `replaceAll` replaces a word in a string. The preprocessing turns a story text into markup. `visit` flattens the resulting DOM tree into styled spans.

Modules:

- `StrUtil`: the string and number helpers the engine relies on.
- `Script`: the data model of `parser.h`.
- `State`: the game state and its save file.
- `Expression`: the expression handler.
- `ScriptParser`: the script reader.
- `Execution`: the interpreter.
- `ExecutionLaws` and `StatementLaws`: what the interpreter promises.
- `RichText`: the rich-text layer.

Imperative code is modelled as classes with fields and methods with loops. Each method is proved equal to a specification function, and the promised properties are lemmas about those functions. For `evaluateIf` these lemmas cover where the cursor is left and which branch runs, with what that branch leaves. The messages handed on after the branch are stated only as an extension of the trace.

Files are modelled as sequences of lines. C++ `int` is the subset type `i32`. An exception the program does not catch is modelled explicitly:

- as an `Option` result;
- as a failed load;
- or, in the interpreter, as a `Fault` event after which the statement has no effect.

## Model

| member | source | states |
|---|---|---|
| StrUtil.StoiIntToString | src/parser.cpp:398 | `stoi` reads back exactly the value that `operator<<` wrote for every `int`. |
| StrUtil.Stoi | src/parser.cpp:276 | `stoi`: leading C white space is skipped, then an optional sign and the digits are read. No digit, or a value outside `int`, is a failure, where `std::stoi` throws. |
| StrUtil.StoiSkipsCSpace | src/parser.cpp:397 | `stoi` skips every leading character C's `isspace` accepts: space, tab, newline, vertical tab, form feed and carriage return. |
| StrUtil.SortedKeys | src/parser.cpp:340-343 | The keys of the variable map in the order a `std::map` visits them: each key once, strictly increasing. |
| StrUtil.ListingUnique | src/parser.cpp:340-343 | That order is unique: two strictly sorted listings of the same key set are equal. |
| State.SimpleState.Save | src/parser.cpp:332-346 | `save` writes the node line, then one `key=value` line per variable in key order. |
| State.SaveLines | src/parser.cpp:332-346 | The lines `save` writes: `NODE=<name>`, then `key=value` for each key in key order. |
| State.LeastKey | src/parser.cpp:340-343 | The least remaining key, found by one pass, is the next key the map visits. |
| State.SaveOrder | src/parser.cpp:340-343 | Variable lines are written in strictly increasing key order, each with the key's value. |
| State.SaveLineAt | src/parser.cpp:340-343 | Line `a` after the node line holds the `a`-th key and its value. |
| State.SimpleState.Load | src/parser.cpp:349-401 | `load` clears the variables. A first line that is not `NODE=<name>` fails. Each later line must split into two fields with a readable number, or the load fails. |
| State.LoadOutcome | src/parser.cpp:349-382 | What `load` leaves: a first line that does not split into `NODE` and a name fails with no variables; otherwise the variable lines are read. |
| State.LoadEntries | src/parser.cpp:385-398 | Each trimmed variable line must split into two fields with a number `stoi` can read, or the load fails. Each read line writes its variable. |
| State.VarLineReads | src/parser.cpp:385-398 | A saved variable line, once trimmed and split at `=`, gives back its key and number. |
| State.LoadKeyLines | src/parser.cpp:385-398 | Loading the saved variable lines copies exactly those variables. |
| State.SaveLoadRoundTrip | src/parser.cpp:332-401 | Loading what was saved gives back every variable and the node name, whatever the prior state. Keys and node names must be free of `=` and of line breaks, and keys must have no leading white space. |
| State.LoadGame | src/game.cpp:195-209 | A load into a fresh state is adopted only on success. A failed load leaves the running state untouched. |
| State.SimpleState.ResetVariables | src/game.cpp:231-235 | The variables become exactly the declared flags, each 0. |
| State.FreshVariables | src/game.cpp:231-235 | A flag is a variable exactly when it is declared, and every such variable is 0. |
| Expression.ExpressionHandler.Tokenize | src/parser.cpp:25-62 | The loop returns the tokens of the specification `Tokens`. |
| Expression.Tokens | src/parser.cpp:25-62 | The tokens of a condition: words separated by spaces, each parenthesis a token of its own. |
| Expression.TokensFrom | src/parser.cpp:25-62 | Every token is a lone parenthesis or a non-empty word without spaces or parentheses. |
| Expression.TokensKeepText | src/parser.cpp:25-62 | Tokenizing loses nothing but the spaces: the tokens concatenated are the input without its spaces. |
| Expression.TokensOfJoin | src/parser.cpp:25-62 | Well-formed tokens joined with single spaces tokenize back to the same tokens. |
| Expression.ExpressionHandler.IsIntLiteral | src/parser.cpp:280-290 | True exactly for a non-empty string of digits after an optional leading minus. |
| Expression.IntLiteral | src/parser.cpp:280-290 | A non-empty string of digits after an optional leading minus. |
| Expression.ParseIntLiteralSpec | src/parser.cpp:273-278 | A literal `stoi` can read gives its value with no error. A failing `stoi` gives 0 and an error. |
| Expression.ExpressionHandler.ParseIntLiteral | src/parser.cpp:273-278 | Returns that value and appends those errors. |
| Expression.LiteralToken | src/parser.cpp:273-290 | The decimal output of every `int` is an integer literal that reads back as the same value. |
| Expression.SingleIntValueSpec | src/parser.cpp:85-102 | A literal comes first, then an existing variable. Otherwise the value is 0 and "Expected int literal or variable" is recorded. |
| Expression.ExpressionHandler.ParseSingleIntValue | src/parser.cpp:85-102 | Returns that value and records those errors. The variables are not changed. |
| Expression.ExpressionHandler.GetVar | src/parser.cpp:293-301 | Returns an existing variable's value. A missing one is reported, then created with 0. |
| Expression.ExpressionHandler.SetVar | src/parser.cpp:304-312 | Writes the variable. A missing one is reported and created. |
| Expression.Read | src/parser.cpp:224 | A token is an operand exactly when it is a literal or a variable. Otherwise it reads as 0 with an error. Its keyword is recognised by its spelling. |
| Expression.RelationTokens | src/parser.cpp:159 | The six comparison operators are exactly the tokens read as a relation. |
| Expression.KeywordOfSpelling | src/parser.cpp:159-268 | Every keyword of the condition language is recognised from its own spelling. |
| Expression.ExpressionHandler.ApplyRelation | src/parser.cpp:182-205 | The comparison chosen by the operator's spelling is the mathematical relation on the two values. |
| Expression.CompSpec | src/parser.cpp:145-212 | `evalCompExpr`: an operand, then a comparison with a second operand when one follows. It consumes at least one token when any is left. |
| Expression.ExpressionHandler.EvalCompExpr | src/parser.cpp:145-212 | Returns the value, the new cursor and the errors of the specification `CompSpec`. The variables are unchanged. |
| Expression.CompRender | src/parser.cpp:145-212 | A well-formed comparison or single operand reads exactly its own tokens, gives its truth value, and records no error. |
| Expression.ExpressionHandler.EvalExpr | src/parser.cpp:214-271 | Returns the value, cursor and errors of the specification `ExprSpec`. The variables are unchanged. |
| Expression.ExprSpec | src/parser.cpp:214-271 | `evalExpr`: a parenthesised condition, `NOT` and a condition, or a comparison, each followed by the rest of the condition. The cursor stays within the tokens. |
| Expression.Continue | src/parser.cpp:250-270 | After an atom: `AND` / `OR` with the whole condition to their right, both sides always evaluated, or the end of the condition. |
| Expression.ExpressionHandler.EvalParen | src/parser.cpp:228-238 | At `(`: the inner condition and its `)`, or "Unclosed parenthesis" and false, exactly as `ExprSpec`. |
| Expression.ExpressionHandler.EvalContinue | src/parser.cpp:250-270 | After an atom: `AND` / `OR` and the right-hand condition (both always evaluated), or the end of the condition, exactly as `Continue`. |
| Expression.ExprAtOperand | src/parser.cpp:224-227 | At an operand, `evalExpr` is a comparison followed by the rest of the condition. |
| Expression.ExprAtParen | src/parser.cpp:228-238 | At `(` closed by `)`: the inner condition, then the rest, with errors in order. |
| Expression.ExprAtUnclosed | src/parser.cpp:232-236 | At `(` with no closing `)`: false, plus "Unclosed parenthesis" after the inner errors. |
| Expression.ExprAtNot | src/parser.cpp:239-243 | `NOT` negates the whole condition after it. |
| Expression.ContinueJoin | src/parser.cpp:254-268 | `AND` / `OR` combine the atom with the entire condition to their right. |
| Expression.ContinueEnd | src/parser.cpp:250-252 | At the end or at `)`, the condition ends with the atom's value. |
| Expression.ReaderReadsGrammar | src/parser.cpp:224-246 | When no variable is named `(` or `NOT`, the evaluator's token reading respects the grammar. |
| Expression.ExprSpecRender | src/parser.cpp:214-271 | For every well-formed condition followed by the end or `)`, `evalExpr` computes its meaning `Holds`, consumes exactly its tokens, and records no error. |
| Expression.AtomRender | src/parser.cpp:224-248 | An atom is read to its last token with its meaning, and evaluation goes on after it. |
| Expression.ParenRender | src/parser.cpp:228-238 | A parenthesised condition is read up to its `)` with the inner condition's meaning. |
| Expression.ExpressionHandler.EvalAsBool | src/parser.cpp:64-79 | Returns the value and every error of `EvalAsBoolSpec`: the evaluation, plus "Unhandled remainder" when tokens are left over. |
| Expression.EvalAsBoolSpec | src/parser.cpp:64-79 | `evalAsBool`: the value of `evalExpr` from the first token, its errors, and "Unhandled remainder" when tokens are left over. |
| Expression.EvalAsBoolRender | src/parser.cpp:64-79 | A well-formed condition written with single spaces evaluates to its meaning, with no error. |
| Expression.AssignSpec | src/parser.cpp:104-143 | `LET x = y` writes exactly the destination variable, creating it if missing. Every other variable keeps its value. The value is the source variable's, else the literal's. No error is recorded exactly when there are three tokens, the destination exists, the middle token is `=`, and the source is a variable or a readable literal. Fewer than three tokens is an error and writes nothing. |
| Expression.SourceValue | src/parser.cpp:120-132 | The value after `=` comes from a variable first, then a literal. Otherwise it is an error. |
| Expression.ExpressionHandler.ExecAssignment | src/parser.cpp:104-143 | The variables and errors afterwards are those of `AssignSpec`. |
| ScriptParser.TextParameter | src/parser.cpp:561-562 | A non-blank text line is kept with one separating space. A blank line stays empty. |
| ScriptParser.ClassifyFrom | src/parser.cpp:473-548 | A keyword command is chosen only when its keyword prefixes the line, in the order `doParse` tests them. |
| ScriptParser.KeywordOrderDistinct | src/parser.cpp:473-543 | `doParse` tests each command keyword once, and TEXT has no keyword. |
| ScriptParser.ClassifyFirstMatch | src/parser.cpp:473-543 | A line that is not a header is keyword command `k` exactly when `k`'s keyword prefixes it and no keyword tested before it does. Its parameter is the rest of the line after a keyword that ends in a space, and nothing for ELSE, ENDIF, PASS and END. |
| ScriptParser.ClassifyNoKeyword | src/parser.cpp:544-564 | A line that starts with no keyword is a comment when it starts with `----`, and otherwise text carrying the whole line. |
| ScriptParser.Classify | src/parser.cpp:467-548 | A line is a node header exactly when it starts with `NODE `, and its title is the rest of the line. |
| ScriptParser.Trimmed | src/parser.cpp:432 | Every line is trimmed, and the line count is kept. |
| ScriptParser.Asserted | include/parser.h:65-73 | `parseAssert` records exactly one message when the test fails in a DEBUG build, and none otherwise. |
| ScriptParser.Parser.ParseAssert | include/parser.h:65-73 | The error list becomes `Asserted` of the old list. |
| ScriptParser.Parser.ErrorNum | include/parser.h:75 | The number of recorded errors. |
| ScriptParser.Parser.DoParse | src/parser.cpp:418-572 | The loop returns the story and messages of the specification `Parsed`, over the trimmed lines. |
| ScriptParser.Parsed | src/parser.cpp:418-572 | The story and messages `doParse` returns: every trimmed line read in turn, then the node being read is stored. |
| ScriptParser.HeaderStep | src/parser.cpp:435-463 | A line before the first header: `DEFINE` adds a flag, `NODE` opens a node, comments and blank lines are skipped, and anything else is reported. |
| ScriptParser.NodeStep | src/parser.cpp:465-566 | A line inside a node: a header reports a duplicate title, stores the node and opens the next one. A command is appended to the node, and an all-caps first word of a text line is reported. |
| ScriptParser.Parser.ReadLine | src/parser.cpp:431-566 | One line read in the current mode is one `Step` of the specification. |
| ScriptParser.Parser.HeaderLine | src/parser.cpp:435-463 | Before the first node: `DEFINE` adds a flag, `NODE` opens the first node, comments and blank lines are skipped, anything else is reported. |
| ScriptParser.Parser.NodeLine | src/parser.cpp:465-565 | Inside a node: a header stores the node and opens the next one; any other line adds its command. |
| ScriptParser.ParsedFlags | src/parser.cpp:437-441 | The flags are the `DEFINE` arguments before the first header, in order. |
| ScriptParser.ParsedTitles | src/parser.cpp:442-472 | There is one node per header title. A script without a header gives a single untitled node. |
| ScriptParser.ParsedCommands | src/parser.cpp:465-566 | Every command of every node is what its own line reads as, and a node lists its commands in line order. |
| ScriptParser.NextTitle | src/parser.cpp:467 | The first header at or after a line, or the end of the script. |
| ScriptParser.LineCommands | src/parser.cpp:473-564 | The commands a run of lines reads as, in order and with their line numbers. Comments give none. |
| ScriptParser.CurrentAfter | src/parser.cpp:465-566 | From a header to the next one, the node being read has the header's title and the commands of the lines read since. |
| ScriptParser.StoredKept | src/parser.cpp:467-471 | A stored node stays as it is while no later header has its title. |
| ScriptParser.ParsedNode | src/parser.cpp:465-572 | The node stored under the title of the last header of that title holds the commands of the lines up to the next header or the end of the script, in order. An earlier node of the same title is replaced. |
| ScriptParser.ParsedNoHeader | src/parser.cpp:569-570 | A script without a header gives one empty node with the empty title. |
| ScriptParser.KeysGrow | src/parser.cpp:470 | The reader never forgets a stored title. |
| ScriptParser.ErrorsGrow | include/parser.h:65-73 | The reader never takes a message back. |
| ScriptParser.DuplicateReported | src/parser.cpp:467-470 | In a DEBUG build, a second node with a title already read is reported as "Duplicate node" once another header closes it. |
| ScriptParser.LastDuplicateSilent | src/parser.cpp:569-570 | A repeated title is not reported when its second node is the last of the script, because the final store skips the check. It is reported when another header follows. |
| ScriptParser.ReleaseRecordsNothing | include/parser.h:65-73 | Without DEBUG, parsing adds no message. |
| Execution.Check | include/parser.h:88 | `gameAssert` hands on a message exactly when the test fails. |
| Execution.Interpreter.GameAssert | include/parser.h:88 | Appends that message, if any, to the trace. |
| Execution.Next | src/parser.cpp:854 | The cursor step `if (i != end) i++` stays within the list. |
| Execution.SkipIf | src/parser.cpp:591-615 | `skipIfBlock` stops at the end or on an ELSE, ELSIF or ENDIF. |
| Execution.Interpreter.SkipIfBlock | src/parser.cpp:594-615 | The loop ends where `SkipIf` stops and hands on its messages. |
| Execution.SkipUntil | src/parser.cpp:667-693 | `skipUntilEndif` stops at the end or on an ENDIF. |
| Execution.Interpreter.SkipUntilEndif | src/parser.cpp:669-693 | The loop ends where `SkipUntil` stops and hands on its messages. |
| Execution.CurrentNodes | src/parser.cpp:586 | Looking up the current node adds an empty node only when the title is missing. All other nodes are unchanged. |
| Execution.Interpreter.GetCurrentNode | src/parser.cpp:586 | Returns that node, and the story gains it when it was missing. |
| Execution.AnswerAt | src/parser.cpp:859-898 | The answer's collection ends at or after the ANSWER and within the list. |
| Execution.AnswerFrom | src/parser.cpp:865-895 | The loop of `executeAnswer` stays within the list and may step back by one. |
| Execution.Interpreter.ExecuteAnswer | src/parser.cpp:859-898 | Returns the answer, cursor, story and messages of `AnswerAt`. |
| Execution.SetVar | src/parser.cpp:809-815 | Writes exactly one variable and reports it when it was missing. Nothing else changes. |
| Execution.Interpreter.SetVar | src/parser.cpp:809-815 | The same, on the game state and the trace. |
| Execution.Interpreter.GetVar | src/parser.cpp:801-807 | Returns the value. A missing variable is reported and the read then fails. |
| Execution.Interpreter.SetCurrentNode | src/parser.cpp:817-826 | Checks that the node exists, sends the debug message, and makes the node current. |
| Execution.Interpreter.TestNodeExists | src/parser.cpp:725-735 | True exactly when the node exists. A missing one is reported. |
| Execution.Zeroed | src/parser.cpp:769-775 | `UNSET ALL` keeps the same variables, each 0. |
| Execution.Interpreter.UnsetAll | src/parser.cpp:769-775 | The loop leaves the variables `Zeroed`. |
| Execution.Interpreter.ExecuteStatement | src/parser.cpp:755-798 | The world afterwards is `Exec` of the command. |
| Execution.Exec | src/parser.cpp:755-798 | `executeStatement`: side effects handed on, SET / UNSET / TOGGLE / LET on the variables, GOTO running the target node. The cursor does not move. |
| Execution.Interpreter.ExecuteGoto | src/parser.cpp:783-790 | A GOTO checks the node, makes it current and runs its commands, exactly as `CallNode`. |
| Execution.CallNode | src/parser.cpp:783-790 | GOTO: the node is checked twice and becomes current, and its commands run from the start. |
| Execution.StatementStep | src/parser.cpp:831-855 | One pass of `executeStatements` always moves the cursor forward. |
| Execution.Interpreter.StatementPass | src/parser.cpp:831-855 | That pass on the interpreter's state. |
| Execution.Interpreter.ExecuteStatements | src/parser.cpp:829-856 | Runs to the end of the list, leaving the world of `Statements`. |
| Execution.Statements | src/parser.cpp:829-856 | `executeStatements`: one pass after another from the cursor to the end of the list. |
| Execution.IfBlock | src/parser.cpp:697-723 | `executeIfBlock` leaves the cursor at or after its start, within the list. |
| Execution.Interpreter.ExecuteIfBlock | src/parser.cpp:697-723 | The cursor and world are those of `IfBlock`. |
| Execution.BlockStep | src/parser.cpp:700-722 | One pass of the `executeIfBlock` loop moves the cursor forward. |
| Execution.Interpreter.BlockPass | src/parser.cpp:700-722 | That pass on the interpreter's state. |
| Execution.EvalIf | src/parser.cpp:621-665 | `evaluateIf` moves the cursor past the IF, within the list. |
| Execution.Interpreter.EvaluateIf | src/parser.cpp:621-665 | The cursor and world are those of `EvalIf`. |
| Execution.EndifCheck | src/parser.cpp:664 | "Expected ENDIF" is reported exactly when the cursor is on a command other than ENDIF. |
| Execution.ThenBranch | src/parser.cpp:628-642 | A true condition runs its branch, then skips the rest of the block. The cursor stays within the list. |
| Execution.Interpreter.ExecuteThen | src/parser.cpp:628-642 | The cursor and world are those of `ThenBranch`. |
| Execution.ElseBranches | src/parser.cpp:643-662 | A false condition skips its branch, then runs the ELSE branch or the next ELSIF. The cursor stays within the list. |
| Execution.Interpreter.ExecuteElse | src/parser.cpp:643-662 | The cursor and world are those of `ElseBranches`. |
| ExecutionLaws.SkipIfReportsRunningOut | src/parser.cpp:594-615 | `skipIfBlock` reports a message exactly when it runs out of commands, with "Missing ENDIF" last. |
| ExecutionLaws.SkipUntilReportsRunningOut | src/parser.cpp:669-693 | `skipUntilEndif` reports a message exactly when it runs out, with "Reached END before ENDIF" last. |
| ExecutionLaws.SkipIfStopsAtBranchEnd | src/parser.cpp:591-615 | `skipIfBlock` stops on the first ELSE / ELSIF / ENDIF of its own block (depth 0) and never leaves the block. |
| ExecutionLaws.SkipUntilStopsAtEndif | src/parser.cpp:667-693 | `skipUntilEndif` stops on the ENDIF of its own block. It passes its ELSE and ELSIF and steps over nested blocks. |
| ExecutionLaws.SkipUntilRound | src/parser.cpp:671-690 | One round of `skipUntilEndif` is one `skipIfBlock`, then either the ENDIF or continuing after the ELSE / ELSIF. |
| ExecutionLaws.IfBlockStopsLikeSkip | src/parser.cpp:695-723 | Running a branch leaves the cursor where skipping it would. This holds for lists whose answers end inside their branch and whose ELSE branches are closed by ENDIF. |
| ExecutionLaws.AnswerMovesLikeSkip | src/parser.cpp:865-895 | An answer that ends inside its branch, on a command other than IF, leaves the cursor where `skipIfBlock` goes on to the same stop. |
| ExecutionLaws.BlockStepMovesLikeSkip | src/parser.cpp:700-722 | One pass of `executeIfBlock` moves over a nested IF block whole, over an answer, or over one command. `skipIfBlock` from there stops where it stops from the start. |
| ExecutionLaws.EvalIfEndsLikeSkip | src/parser.cpp:617-665 | `evaluateIf` leaves the cursor where `skipUntilEndif` would, whatever the conditions evaluate to. |
| ExecutionLaws.ThenEndsLikeSkip | src/parser.cpp:628-642 | The true case ends where `skipUntilEndif` ends. |
| ExecutionLaws.ElseEndsLikeSkip | src/parser.cpp:643-662 | The false case ends where `skipUntilEndif` ends. |
| ExecutionLaws.EvalIfEndsOnMatchingEndif | src/parser.cpp:617-665 | `evaluateIf` ends on the ENDIF matching its IF, at depth 0 and never leaving the block, or at the end of the list when there is none. |
| ExecutionLaws.Heads | src/parser.cpp:643-662 | The heads of an IF block: the IF, then each ELSIF and the ELSE where `skipIfBlock` stops, in increasing order and within the list. |
| ExecutionLaws.HeadsAtDepthZero | src/parser.cpp:591-615 | Each head after the IF is the first ELSIF or ELSE of the block (depth 0) after the head before it, and the scan between them never leaves the block. Only the last head can be an ELSE. |
| ExecutionLaws.FirstHolding | src/parser.cpp:623-628 | The first head whose branch is taken: every earlier head's condition is false, and this one's is true or it is the ELSE. |
| ExecutionLaws.Pick | src/parser.cpp:621-662 | Where the branch `evaluateIf` runs starts, and the world it starts in: the state before, plus the messages of the tests and skips before it. |
| ExecutionLaws.PickFirstHolding | src/parser.cpp:621-662 | A branch is picked exactly when some head's branch is taken, and it is the branch after the first such head. |
| ExecutionLaws.EvalIfRunsPick | src/parser.cpp:621-665 | `evaluateIf` leaves the variables, current node, story and answers that `executeIfBlock` on the picked branch leaves. When no branch is picked it leaves them as they were. It only adds messages after that. |
| ExecutionLaws.EvalIfRunsFirstHolding | src/parser.cpp:621-665 | The branch-choice law: the branch after the first head whose condition holds (an ELSE always holds) is the one whose effects `evaluateIf` leaves. When none holds, nothing but the trace changes. |
| StatementLaws.AnswerFromCollects | src/parser.cpp:865-895 | An answer collects every command up to the first that ends it. ANSWER / PASS add a GOTO back to the current node, END / GOTO are kept, and IF is refused. |
| StatementLaws.AnswerLeadsSomewhere | src/parser.cpp:859-898 | An answer has its ANSWER's text and ends with a GOTO or END exactly when something other than IF closed it. Only an IF records a message. |
| StatementLaws.AnswerFromKeepsNodes | src/parser.cpp:871-877 | Collecting an answer keeps every node of the story unchanged. |
| StatementLaws.VariableCommands | src/parser.cpp:761-781 | SET / UNSET / TOGGLE write 1, 0, or the flipped value to their variable and leave every other variable alone. `UNSET ALL` zeroes all of them. A missing variable is reported. |
| StatementLaws.LetAssigns | src/parser.cpp:104-143 | `LET x = y` adds `x` to the variables, giving it `y`'s value, or the literal's. Every other variable and the story are unchanged. At most one message is added, exactly when `x` is missing or `y` is neither a variable nor a readable literal. |
| StatementLaws.ToggleTwice | src/parser.cpp:779-781 | TOGGLE twice on a 0/1 variable restores the variables. |
| StatementLaws.ExecStaysPut | src/parser.cpp:755-798 | Every command but GOTO keeps the current node, the story and the answers, and only appends events. |
| StatementLaws.SideEffectStep | src/parser.cpp:757-760 | One pass over END / TEXT / IMAGE / SAMPLE / EFFECT hands that command on and moves on. |
| StatementLaws.SideEffectsHandedOn | src/parser.cpp:829-856 | A list of side effects is handed on command by command, in order, and nothing else changes. |
| StatementLaws.ExecGrows | src/parser.cpp:755-798 | Every command, GOTO included, only adds to the trace and the answers, and keeps every node. |
| StatementLaws.StatementsGrows | src/parser.cpp:829-856 | `executeStatements` only adds to the trace and the answers, and keeps every node. |
| RichText.Find | src/richtext.cpp:67-77 | `find` returns the first occurrence at or after its start, or none. |
| RichText.ReplaceAll | src/richtext.cpp:65-80 | The in-place loop returns `Replaced`: every occurrence replaced from left to right, searching on after the inserted text. |
| RichText.Replaced | src/richtext.cpp:65-80 | Every occurrence of the word replaced from left to right, each search starting after the text just inserted. |
| RichText.ReplacedSkips | src/richtext.cpp:71-78 | Text before the first occurrence is kept, the replacement takes its place, and replacing continues after it, with no overlap. |
| RichText.ReplacedIdentity | src/richtext.cpp:65-80 | A string where the word does not occur is returned unchanged. |
| RichText.NoCharLeft | src/richtext.cpp:84 | Replacing a character by text without it leaves none of that character. |
| RichText.CharSplit | src/richtext.cpp:83-84 | Replacing a single character distributes over concatenation, so wrapping in `<root>` commutes with it. |
| RichText.NoPairLeft | src/richtext.cpp:83 | After replacing every `"\n\n"`, no two newlines are adjacent. |
| RichText.PreprocessShape | src/richtext.cpp:81-84 | The processed text has no newline, is the replaced text wrapped in `<root>`…`</root>`, and had its newline pairs removed first. |
| RichText.Preprocess | src/richtext.cpp:81-84 | Newline pairs become `<br/>`, the text is wrapped in `<root>`, and the remaining newlines become spaces. |
| RichText.NoneStays | src/richtext.cpp:53 | Once the walk has thrown, it stays failed. |
| RichText.SpanList.Visit | src/richtext.cpp:32-63 | The walk succeeds exactly when `Spans(root)` does, and appends exactly those spans. |
| RichText.Spans | src/richtext.cpp:32-63 | The spans of an element: those of each child with a text piece at its index, in order. |
| RichText.SpanList.VisitChild | src/richtext.cpp:39-61 | One child: a single span for `b` / `i` / `h1` / `a` / `br`, or the walk into any other tag, exactly as `ChildSpans`. |
| RichText.ChildSpans | src/richtext.cpp:39-61 | One child: a single span for a known tag, none for a link without `href`, or the spans of any other element. |
| RichText.SpansWellShaped | src/richtext.cpp:14-63 | A plain span holds text, a line break holds none, and only links carry an `href`. |
| RichText.FailsIffMissingHref | src/richtext.cpp:50-54 | The walk fails exactly when it reaches a link without `href`. |
| RichText.ExtraChildrenIgnored | src/richtext.cpp:34-39 | Children without a text piece at their index are never walked. |
| RichText.KnownTagSpan | src/richtext.cpp:41-58 | A known tag gives exactly one span of its joined text (none for `br`), and its own children are not walked. |
| RichText.SpansFromText | src/richtext.cpp:81-94 | The spans of a text are those of the tree the DOM parser builds from the preprocessed text. |

## Left out

- File I/O. `save` and `load` work on the sequence of lines of the save file. The save path (`saveFilePath`) and the console output of `load` are not modelled. `doParse` receives the script's lines instead of a file name.
- `Load`: `stoi` throws on a value it cannot read. The model treats that as a failed load.
- `State.LoadGame` models only the adopt-on-success part of `game.cpp`'s `loadGame`. The messages it shows and the run of the current node are part of the game layer, which is not part of this model.
- `State.SimpleState.ResetVariables` models only the variable reset of `clearState`. Clearing the text, effects and sound, reparsing the script, and moving to `START` are part of the game layer.
- `strutil.h` is not part of this model. `Trim`, `Split`, `Join`, `startsWith` and the capital-letter test are defined in `StrUtil` from how the engine uses them:
  - `Trim` drops space, tab, newline and carriage return;
  - `Split` keeps empty fields.
- `std::toupper` / `std::tolower` are modelled for ASCII letters only. Other locales are not modelled.
- `Expression.AssignSpec` does not model a `LET` with fewer than three tokens. The source then reads past the end of its token list. The model records "Incomplete assignment" and writes nothing.
- `Expression.AssignSpec` does not model the uninitialised value that the source writes when the source operand is neither a variable nor a literal. The model writes 0.
- `Expression.ParseIntLiteralSpec` does not model the exception that `stoi` throws on a lone `-` or an out-of-range literal. The model returns 0 with an error message.
- The "Unexpected operand" branch of `evalCompExpr` is unreachable, because only the six operators are accepted. The model has no such branch.
- The "skipIfBlock must leave cursor at ENDIF, ELSE or ELSIF" check of `skipUntilEndif` is unreachable for the same reason, and is not modelled.
- Reads of the command at the end iterator:
  - `evaluateIf` after a branch that ran off the end;
  - `skipUntilEndif` after `skipIfBlock` ran out;
  - the cursor moved past the end after an IF inside an ANSWER.
  Each of these is undefined behaviour in the source. The model reads nothing there, and leaves the cursor at the end.
- `assert(false)` in `evaluateIf` is unreachable, because the skips stop only on branch keywords.
- Execution: a TOGGLE of a missing variable throws from `map::at`. The program would terminate. The model records a `Fault` event, the statement has no effect, and the run continues.
- Execution: GOTO recursion is bounded by a `fuel` parameter. A GOTO reached with no fuel left records an `Exhausted` event instead of running the node. Runs deeper than the fuel are not modelled.
- `ExecutionLaws.IfBlockStopsLikeSkip` and the other cursor laws are stated for lists where each answer ends inside its branch and each ELSE branch is closed by ENDIF (`WellFormedBlocks`). An answer ends on another ANSWER, a PASS, an END or a GOTO, with no ELSE, ELSIF or ENDIF before it. An answer that runs into those commands, or ends on an IF, takes them with it, so for such lists the cursor laws are not claimed.
- `ExecutionLaws.EvalIfRunsPick`: the messages handed on after the chosen branch are stated only as an extension of the trace, not message by message. These are the skip past the rest of the block, the second-ELSE check and the ENDIF check.
- `executeSideEffect`, `gameAssert` and `debugMsg` of the statement handler are modelled only as the events handed on. What the game does with them is not modelled. The colour of a debug message is not modelled.
- The DOM parser (`xdom::DomParser`) is not part of this model. `SpansFromText` takes it as a function parameter, and parse errors are not modelled.
- `RichText.SpanList.Visit`: a link without `href` throws from `attributes.at`. The model reports failure and does not describe the partial span list left behind.
- `RichText.ReplaceAll` requires a non-empty search word. With an empty word, `find` always succeeds and the loop does not end. The engine only calls it with non-empty words.
- Drawing rich text (`appendRichText`, the line-break callback, fonts and colours) is rendering and is not modelled. The open TODO about tabs and repeated spaces is not modelled either.
- `Parser::getErrors`, `Story::toString` and `Interpreter::savedGameExists` only format text or query the file system, and are not modelled.
