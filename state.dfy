/** The game state (`SimpleState`: integer variables and the current node) and
    its save format: a `NODE=<name>` line, then one `<key>=<value>` line per
    variable in key order. The save file is modelled as its sequence of lines. */
module State {
  import opened StrUtil

  /** One variable line of the save format. */
  function VarLine(key: string, value: i32): string {
    key + "=" + IntToString(value)
  }

  /** The variable lines for the keys `ks`, in that order. */
  function KeyLines(vars: map<string, i32>, ks: seq<string>): (lines: seq<string>)
    requires forall key | key in ks :: key in vars
    ensures |lines| == |ks|
    ensures forall j | 0 <= j < |ks| :: lines[j] == VarLine(ks[j], vars[ks[j]])
  {
    if ks == [] then [] else [VarLine(ks[0], vars[ks[0]])] + KeyLines(vars, ks[1..])
  }

  /** What `save` writes. */
  ghost function SaveLines(vars: map<string, i32>, node: string): seq<string> {
    ["NODE=" + node] + KeyLines(vars, SortedKeys(vars.Keys))
  }

  /** The outcome of `load`: whether it succeeded, and the variables and node name it leaves behind. */
  datatype Loaded = Loaded(ok: bool, vars: map<string, i32>, node: string)

  /** What `load` does with the lines of a save file. The first line is not trimmed; a missing
      first line reads as empty. `priorNode` is the node name before the call. */
  function LoadOutcome(lines: seq<string>, priorNode: string): Loaded {
    var first := if |lines| > 0 then lines[0] else "";
    var fields := Split(first, '=');
    if |fields| != 2 || fields[0] != "NODE" then Loaded(false, map[], priorNode)
    else LoadEntries(lines, 1, map[], fields[1])
  }

  /** The variable lines from index `k` on; a line that is not exactly two fields, or whose value
      `stoi` cannot read, ends the load with failure. */
  function LoadEntries(lines: seq<string>, k: nat, vars: map<string, i32>, node: string): Loaded
    decreases |lines| - k
  {
    if k >= |lines| then Loaded(true, vars, node)
    else
      var fields := Split(Trim(lines[k]), '=');
      if |fields| != 2 then Loaded(false, vars, node)
      else match Stoi(fields[1])
        case None => Loaded(false, vars, node)
        case Some(v) => LoadEntries(lines, k + 1, vars[fields[0] := v], node)
  }

  /** Names that survive the save format: no `=`, no line break (the file is read back line
      by line with `getline`, so a name holding one would be cut in two), and (for variables)
      no leading white space, which `load` would trim away. */
  ghost predicate Saveable(vars: map<string, i32>, node: string) {
    && '=' !in node && '\n' !in node
    && forall key | key in vars :: '=' !in key && '\n' !in key && (key == [] || !IsSpace(key[0]))
  }

  lemma NoEqualsInNumber(v: int)
    ensures '=' !in IntToString(v)
  {
    NatToStringDigits(if v < 0 then -v else v);
  }

  /** One saved variable line reads back as its key and value. */
  lemma VarLineReads(key: string, v: i32)
    requires '=' !in key && (key == [] || !IsSpace(key[0]))
    ensures Split(Trim(VarLine(key, v)), '=') == [key, IntToString(v)]
  {
    var line := VarLine(key, v);
    var num := IntToString(v);
    assert line[|line| - 1] == num[|num| - 1];
    TrimKeeps(line);
    NoEqualsInNumber(v);
    assert line == key + ['='] + num;
    SplitFirst(key, '=', num);
    SplitNone(num, '=');
  }

  /** `acc` with the variables `ks` copied over from `vars`, one after another. */
  function CopyKeys(acc: map<string, i32>, vars: map<string, i32>, ks: seq<string>): (r: map<string, i32>)
    requires forall key | key in ks :: key in vars
    ensures forall x :: x in r <==> x in acc || x in ks
    ensures forall x | x in r :: r[x] == if x in ks then vars[x] else acc[x]
    decreases |ks|
  {
    if ks == [] then acc else CopyKeys(acc[ks[0] := vars[ks[0]]], vars, ks[1..])
  }

  /** Loading the variable lines of `ks` copies exactly those variables into what was loaded before. */
  lemma {:induction false} LoadKeyLines(lines: seq<string>, k: nat, acc: map<string, i32>, node: string,
                                        vars: map<string, i32>, ks: seq<string>)
    requires forall key | key in ks :: key in vars
    requires forall key | key in vars :: '=' !in key && (key == [] || !IsSpace(key[0]))
    requires k <= |lines| && lines[k..] == KeyLines(vars, ks)
    ensures LoadEntries(lines, k, acc, node) == Loaded(true, CopyKeys(acc, vars, ks), node)
    decreases |ks|
  {
    if ks != [] {
      var key := ks[0];
      assert lines[k] == VarLine(key, vars[key]);
      VarLineReads(key, vars[key]);
      StoiIntToString(vars[key]);
      assert lines[k + 1..] == lines[k..][1..];
      LoadKeyLines(lines, k + 1, acc[key := vars[key]], node, vars, ks[1..]);
    }
  }

  /** The node line of a save file splits back into `NODE` and the node name. */
  lemma NodeLineReads(node: string)
    requires '=' !in node
    ensures Split("NODE=" + node, '=') == ["NODE", node]
  {
    assert "NODE=" + node == "NODE" + ['='] + node;
    SplitFirst("NODE", '=', node);
    SplitNone(node, '=');
  }

  /** Copying every key of `vars` into an empty map gives `vars` back. */
  lemma CopyAllKeys(vars: map<string, i32>)
    ensures CopyKeys(map[], vars, SortedKeys(vars.Keys)) == vars
  {
  }

  /** Saving and then loading gives back the node name and every variable, whatever the state was before. */
  lemma SaveLoadRoundTrip(vars: map<string, i32>, node: string, priorNode: string)
    requires Saveable(vars, node)
    ensures LoadOutcome(SaveLines(vars, node), priorNode) == Loaded(true, vars, node)
  {
    var lines := SaveLines(vars, node);
    var ks := SortedKeys(vars.Keys);
    NodeLineReads(node);
    assert lines[1..] == KeyLines(vars, ks);
    LoadKeyLines(lines, 1, map[], node, vars, ks);
    CopyAllKeys(vars);
  }

  /** Line `a` of a save file (after the node line) holds the `a`-th key in key order. */
  lemma SaveLineAt(vars: map<string, i32>, node: string, a: nat)
    requires 1 <= a < |SaveLines(vars, node)|
    ensures var ks := SortedKeys(vars.Keys);
            a - 1 < |ks| && SaveLines(vars, node)[a] == VarLine(ks[a - 1], vars[ks[a - 1]])
  {
    var ks := SortedKeys(vars.Keys);
    var lines := KeyLines(vars, ks);
    assert SaveLines(vars, node) == ["NODE=" + node] + lines;
    assert (["NODE=" + node] + lines)[a] == lines[a - 1];
  }

  /** `save` writes the variables in strictly increasing key order, one line each. */
  lemma SaveOrder(vars: map<string, i32>, node: string, a: nat, b: nat)
    requires 1 <= a < b < |SaveLines(vars, node)|
    ensures var ks := SortedKeys(vars.Keys);
            && SaveLines(vars, node)[a] == VarLine(ks[a - 1], vars[ks[a - 1]])
            && SaveLines(vars, node)[b] == VarLine(ks[b - 1], vars[ks[b - 1]])
            && Less(ks[a - 1], ks[b - 1])
  {
    SaveLineAt(vars, node, a);
    SaveLineAt(vars, node, b);
  }

  /** Writing the line of the least remaining key keeps what is written plus what remains the same. */
  lemma KeyLinesPeel(vars: map<string, i32>, written: seq<string>, s: set<string>, m: string)
    requires s <= vars.Keys && IsLeast(m, s)
    ensures written + KeyLines(vars, SortedKeys(s))
         == (written + [VarLine(m, vars[m])]) + KeyLines(vars, SortedKeys(s - {m}))
  {
    SortedKeysFirst(s, m);
    var rest := SortedKeys(s - {m});
    assert ([m] + rest)[1..] == rest;
    assert KeyLines(vars, SortedKeys(s)) == [VarLine(m, vars[m])] + KeyLines(vars, rest);
  }

  /** A fresh game: every declared flag is present and 0 (game.cpp, `clearState`). */
  function FreshVariables(flags: seq<string>): (vars: map<string, i32>)
    ensures forall f :: f in vars <==> f in flags
    ensures forall f | f in vars :: vars[f] == 0
  {
    map f | f in flags :: 0
  }

  class SimpleState {
    var gameVariables: map<string, i32>
    var currentNodeName: string

    constructor ()
      ensures gameVariables == map[] && currentNodeName == ""
    {
      gameVariables := map[];
      currentNodeName := "";
    }

    predicate HasVar(key: string)
      reads this
    {
      key in gameVariables
    }

    /** The lines of the save file, in the order they are written. */
    method Save() returns (lines: seq<string>)
      ensures lines == SaveLines(gameVariables, currentNodeName)
    {
      lines := ["NODE=" + currentNodeName];
      var remaining := gameVariables.Keys;
      while remaining != {}
        invariant remaining <= gameVariables.Keys
        invariant lines + KeyLines(gameVariables, SortedKeys(remaining)) == SaveLines(gameVariables, currentNodeName)
        decreases |remaining|
      {
        var m := LeastKey(remaining);
        KeyLinesPeel(gameVariables, lines, remaining, m);
        lines := lines + [VarLine(m, gameVariables[m])];
        remaining := remaining - {m};
      }
      assert KeyLines(gameVariables, SortedKeys(remaining)) == [];
    }

    /** Reads a save file. The variables are cleared first; on failure the state is left as far as
        the load got, and the caller must not adopt it. */
    method Load(lines: seq<string>) returns (ok: bool)
      modifies this
      ensures Loaded(ok, gameVariables, currentNodeName) == LoadOutcome(lines, old(currentNodeName))
    {
      var error := false;
      gameVariables := map[];
      var line := if |lines| > 0 then lines[0] else "";
      var fields := Split(line, '=');
      if |fields| != 2 {
        error := true;
      } else if fields[0] != "NODE" {
        error := true;
      } else {
        currentNodeName := fields[1];
      }
      if error {
        return false;
      }
      var k := 1;
      while k < |lines|
        invariant 1 <= k
        invariant LoadEntries(lines, k, gameVariables, currentNodeName) == LoadOutcome(lines, old(currentNodeName))
        decreases |lines| - k
      {
        line := Trim(lines[k]);
        fields := Split(line, '=');
        if |fields| != 2 {
          error := true;
          break;
        }
        var value := Stoi(fields[1]);
        if value.None? {
          // std::stoi throws here; the load is treated as failed
          error := true;
          break;
        }
        gameVariables := gameVariables[fields[0] := value.value];
        k := k + 1;
      }
      ok := !error;
    }

    /** Sets every declared flag to 0 and nothing else (game.cpp, `clearState`). */
    method ResetVariables(flags: seq<string>)
      modifies this`gameVariables
      ensures gameVariables == FreshVariables(flags)
    {
      gameVariables := map[];
      var k := 0;
      while k < |flags|
        invariant k <= |flags|
        invariant gameVariables == FreshVariables(flags[..k])
      {
        assert flags[..k + 1] == flags[..k] + [flags[k]];
        gameVariables := gameVariables[flags[k] := 0];
        k := k + 1;
      }
      assert flags[..k] == flags;
    }
  }

  /** The least key of a non-empty key set, found by one pass over it. */
  method LeastKey(keys: set<string>) returns (m: string)
    requires keys != {}
    ensures IsLeast(m, keys)
  {
    m :| m in keys;
    var todo := keys - {m};
    while todo != {}
      invariant todo <= keys && m in keys && m !in todo
      invariant forall x | x in keys - todo :: x == m || Less(m, x)
      decreases |todo|
    {
      var x :| x in todo;
      if Less(x, m) {
        forall y | y in keys - todo && y != x ensures Less(x, y) {
          if y != m { LessTransitive(x, m, y); }
        }
        m := x;
      } else if x != m {
        LessTotal(x, m);
      }
      todo := todo - {x};
    }
  }

  /** Loading into a scratch state and adopting it only on success (game.cpp, `loadGame`):
      a failed load leaves the running state untouched. */
  method LoadGame(sstate: SimpleState, lines: seq<string>) returns (ok: bool)
    modifies sstate
    ensures ok == LoadOutcome(lines, "").ok
    ensures ok ==> (sstate.gameVariables == LoadOutcome(lines, "").vars
                    && sstate.currentNodeName == LoadOutcome(lines, "").node)
    ensures !ok ==> unchanged(sstate)
  {
    var newstate := new SimpleState();
    ok := newstate.Load(lines);
    if ok {
      sstate.gameVariables := newstate.gameVariables;
      sstate.currentNodeName := newstate.currentNodeName;
    }
  }
}
