/**
 * The line interpreter `run` (machine.py). Each line of the program is split into
 * `[variable, operator, value?]` and executed against a table of integer variables:
 * `=` assigns, `+` increments, `!` negates and `->` jumps to a line when the variable is not
 * zero. Every executed line prints what the statement returned. The lines are given as a
 * sequence and the file's line cursor is the index `pc` of the next line to read.
 */
module Machine {
  import opened Wrappers
  import opened Tokens

  /** The Python exceptions a program can raise. */
  datatype Error =
    | KeyError(name: string)  // reading a variable that was never assigned
    | IndexError              // a statement with too few tokens

  /** `get(var)`: a digit string is its own value, anything else names a variable. */
  function Get(variables: map<string, int>, v: string): (r: Result<int, Error>)
    ensures r.Err? <==> !IsDigits(v) && v !in variables
    ensures r.Err? ==> r.error == KeyError(v)
    ensures r.Ok? && r.value < 0 ==> v in variables && variables[v] == r.value
  {
    if IsDigits(v) then Ok(DigitsValue(v))
    else if v in variables then Ok(variables[v])
    else Err(KeyError(v))
  }

  /** The effect of one statement: the new variables, what `interprete` returned, and a jump target. */
  datatype Effect = Effect(variables: map<string, int>, output: Option<int>, jump: Option<int>)

  /**
   * `interprete(statement)` as a function of the variables, evaluating the tokens, the
   * variable and the value in the order the source does. `jump` is `get(position)` of a taken
   * `->`, not yet clamped to the program.
   */
  function Step(variables: map<string, int>, statement: seq<string>): Result<Effect, Error>
  {
    if |statement| < 2 then Err(IndexError)
    else
      var v, op := statement[0], statement[1];
      if op == "=" then
        if |statement| < 3 then Err(IndexError)
        else match Get(variables, statement[2])
          case Err(e) => Err(e)
          case Ok(n) => Ok(Effect(variables[v := n], Some(n), None))
      else if op == "+" then
        if v !in variables then Err(KeyError(v))
        else Ok(Effect(variables[v := variables[v] + 1], Some(variables[v] + 1), None))
      else if op == "!" then
        if v !in variables then Err(KeyError(v))
        else Ok(Effect(variables[v := -variables[v]], Some(-variables[v]), None))
      else if op == "->" then
        if |statement| < 3 then Err(IndexError)
        else if v !in variables then Err(KeyError(v))
        else if variables[v] == 0 then Ok(Effect(variables, None, None))
        else match Get(variables, statement[2])
          case Err(e) => Err(e)
          case Ok(n) => Ok(Effect(variables, None, Some(n)))
      else Ok(Effect(variables, None, None))
  }

  /** The line the cursor is at after `seek(0)` and n `readline()` calls on a file of `count` lines. */
  function Landing(n: int, count: nat): (k: nat)
    ensures k <= count
    ensures 0 <= n <= count ==> k == n
    ensures n < 0 ==> k == 0
    ensures n > count ==> k == count
  {
    if n <= 0 then 0 else if n > count then count else n
  }

  /** How a run ended: the program ran off its last line, a line raised, or the step budget ran out. */
  datatype Outcome = Halted | Raised(error: Error) | OutOfFuel

  /** The state a run ends in and the outputs it printed, one per executed line. */
  datatype Final = Final(variables: map<string, int>, pc: nat, trace: seq<Option<int>>, outcome: Outcome)

  /** Where the cursor goes after executing line pc with effect e. */
  function Next(pc: nat, e: Effect, count: nat): nat
  {
    if e.jump.Some? then Landing(e.jump.value, count) else pc + 1
  }

  /**
   * Whether the statement reaches `file.seek(0)` in `translate`: a `->` with a value, on a
   * defined variable that is not zero. Such a statement leaves the cursor at line 0 even when
   * `get(position)` then raises.
   */
  predicate Rewinds(variables: map<string, int>, statement: seq<string>)
  {
    |statement| >= 3 && statement[1] == "->" && statement[0] in variables && variables[statement[0]] != 0
  }

  /** Where the cursor is after line pc raised: at 0 if the line rewound the file, else just past the line. */
  function Unwound(variables: map<string, int>, statement: seq<string>, pc: nat): nat
  {
    if Rewinds(variables, statement) then 0 else pc + 1
  }

  /**
   * The `for line in file` loop from line pc, executing at most `fuel` lines (a program may loop
   * forever). A line that raises ends the run, with the cursor past it or, after a rewind, at 0.
   */
  function Exec(lines: seq<string>, variables: map<string, int>, pc: nat, fuel: nat): Final
    decreases fuel
  {
    if pc >= |lines| then Final(variables, pc, [], Halted)
    else if fuel == 0 then Final(variables, pc, [], OutOfFuel)
    else match Step(variables, Split(lines[pc]))
      case Err(e) => Final(variables, Unwound(variables, Split(lines[pc]), pc), [], Raised(e))
      case Ok(e) =>
        var rest := Exec(lines, e.variables, Next(pc, e, |lines|), fuel - 1);
        Final(rest.variables, rest.pc, [e.output] + rest.trace, rest.outcome)
  }

  // ---------------------------------------------------------------------------------------
  // One statement

  /** `var = value` sets `var` to `get(value)`, returns it, changes no other variable and does not jump. */
  lemma AssignSetsOnly(variables: map<string, int>, statement: seq<string>)
    requires |statement| >= 3 && statement[1] == "="
    ensures Step(variables, statement).Ok? <==> Get(variables, statement[2]).Ok?
    ensures Step(variables, statement).Ok? ==>
      var e, n := Step(variables, statement).value, Get(variables, statement[2]).value;
      statement[0] in e.variables && e.variables[statement[0]] == n && e.output == Some(n) && e.jump == None &&
      e.variables.Keys == variables.Keys + {statement[0]} &&
      forall u :: u in variables && u != statement[0] ==> e.variables[u] == variables[u]
  {
  }

  /** `var +` adds exactly one to a defined variable and returns the new value; an undefined one raises KeyError. */
  lemma IncrementAddsOne(variables: map<string, int>, v: string)
    ensures v !in variables ==> Step(variables, [v, "+"]) == Err(KeyError(v))
    ensures v in variables ==>
      Step(variables, [v, "+"]) == Ok(Effect(variables[v := variables[v] + 1], Some(variables[v] + 1), None))
  {
  }

  /** `var !` negates a defined variable and returns the new value; negating twice restores the table. */
  lemma InvertTwice(variables: map<string, int>, v: string)
    requires v in variables
    ensures Step(variables, [v, "!"]).Ok? && Step(variables, [v, "!"]).value.output == Some(-variables[v])
    ensures Step(Step(variables, [v, "!"]).value.variables, [v, "!"]).Ok?
    ensures Step(Step(variables, [v, "!"]).value.variables, [v, "!"]).value.variables == variables
  {
    var once := Step(variables, [v, "!"]).value.variables;
    assert once == variables[v := -variables[v]];
    assert once[v := -once[v]] == variables;
  }

  /**
   * `var -> n` never changes a variable or prints a value; it jumps to `get(n)` exactly when the
   * variable is defined and not zero, and falls through when it is zero.
   */
  lemma JumpOnlyMoves(variables: map<string, int>, statement: seq<string>)
    requires |statement| >= 2 && statement[1] == "->"
    ensures Step(variables, statement).Ok? ==>
      Step(variables, statement).value.variables == variables && Step(variables, statement).value.output == None
    ensures Step(variables, statement).Ok? && Step(variables, statement).value.jump.Some? <==>
      |statement| >= 3 && statement[0] in variables && variables[statement[0]] != 0 && Get(variables, statement[2]).Ok?
    ensures Step(variables, statement).Ok? && Step(variables, statement).value.jump.Some? ==>
      Step(variables, statement).value.jump.value == Get(variables, statement[2]).value
    ensures |statement| >= 3 && statement[0] in variables && variables[statement[0]] == 0 ==>
      Step(variables, statement) == Ok(Effect(variables, None, None))
  {
  }

  /** Only `->` jumps, only `=`, `+` and `!` output a value, and any other operator does nothing. */
  lemma StepShape(variables: map<string, int>, statement: seq<string>)
    requires Step(variables, statement).Ok?
    ensures |statement| >= 2
    ensures Step(variables, statement).value.jump.Some? ==> statement[1] == "->"
    ensures Step(variables, statement).value.output.Some? <==> statement[1] in {"=", "+", "!"}
    ensures statement[1] !in {"=", "+", "!", "->"} ==> Step(variables, statement).value == Effect(variables, None, None)
  {
  }

  /**
   * A jump reaches `get(position)` exactly when it rewinds the file: a rewinding statement either
   * jumps or raises KeyError for its undefined value; any other `->` never jumps.
   */
  lemma RewindsOnlyToJump(variables: map<string, int>, statement: seq<string>)
    requires |statement| >= 2 && statement[1] == "->"
    ensures Rewinds(variables, statement) && Step(variables, statement).Ok? ==> Step(variables, statement).value.jump.Some?
    ensures Rewinds(variables, statement) && Step(variables, statement).Err? ==>
      Step(variables, statement) == Err(KeyError(statement[2])) && Get(variables, statement[2]).Err?
    ensures !Rewinds(variables, statement) && Step(variables, statement).Ok? ==> Step(variables, statement).value.jump.None?
  {
  }

  /** A line of fewer than two tokens (an empty line in particular) raises IndexError. */
  lemma ShortStatement(variables: map<string, int>, statement: seq<string>)
    requires |statement| < 2
    ensures Step(variables, statement) == Err(IndexError)
  {
  }

  // ---------------------------------------------------------------------------------------
  // Whole runs

  /**
   * Every executed line prints exactly one output: a run that used up its budget printed `fuel`
   * outputs, any run at most that many; a run halts only once the cursor is past the last line.
   */
  lemma {:induction false} ExecTrace(lines: seq<string>, variables: map<string, int>, pc: nat, fuel: nat)
    requires pc <= |lines|
    ensures |Exec(lines, variables, pc, fuel).trace| <= fuel
    ensures Exec(lines, variables, pc, fuel).outcome == OutOfFuel ==> |Exec(lines, variables, pc, fuel).trace| == fuel
    ensures Exec(lines, variables, pc, fuel).outcome == Halted ==> Exec(lines, variables, pc, fuel).pc == |lines|
    decreases fuel
  {
    if pc < |lines| && fuel > 0 {
      match Step(variables, Split(lines[pc]))
      case Err(_) =>
      case Ok(e) => ExecTrace(lines, e.variables, Next(pc, e, |lines|), fuel - 1);
    }
  }

  /** A run that ended before its budget ran out ends the same way with any larger budget. */
  lemma {:induction false} ExecFuel(lines: seq<string>, variables: map<string, int>, pc: nat, fuel: nat, more: nat)
    requires Exec(lines, variables, pc, fuel).outcome != OutOfFuel
    requires fuel <= more
    ensures Exec(lines, variables, pc, more) == Exec(lines, variables, pc, fuel)
    decreases fuel
  {
    if pc < |lines| && fuel > 0 {
      match Step(variables, Split(lines[pc]))
      case Err(_) =>
      case Ok(e) => ExecFuel(lines, e.variables, Next(pc, e, |lines|), fuel - 1, more - 1);
    }
  }

  /**
   * Every executed line prints exactly one output: a run that did not use up its budget is
   * reproduced by a budget of one line per output, plus the raising line if it raised.
   */
  lemma {:induction false} LinesPerOutput(lines: seq<string>, variables: map<string, int>, pc: nat, fuel: nat)
    requires Exec(lines, variables, pc, fuel).outcome != OutOfFuel
    ensures var f := Exec(lines, variables, pc, fuel);
      Exec(lines, variables, pc, |f.trace| + (if f.outcome.Raised? then 1 else 0)) == f
    decreases fuel
  {
    if pc < |lines| && fuel > 0 {
      match Step(variables, Split(lines[pc]))
      case Err(_) =>
      case Ok(e) => LinesPerOutput(lines, e.variables, Next(pc, e, |lines|), fuel - 1);
    }
  }

  /** A taken jump to a line at or past the end stops the run right after the jump, which printed None. */
  lemma JumpPastEnd(lines: seq<string>, variables: map<string, int>, pc: nat, fuel: nat)
    requires pc < |lines| && fuel > 0
    requires Step(variables, Split(lines[pc])).Ok?
    requires Step(variables, Split(lines[pc])).value.jump.Some?
    requires Step(variables, Split(lines[pc])).value.jump.value >= |lines|
    ensures Exec(lines, variables, pc, fuel) == Final(variables, |lines|, [None], Halted)
  {
    JumpOnlyMoves(variables, Split(lines[pc]));
  }

  /** `x = 1` followed by `x -> 0` never halts: every budget is used up, printing 1, None, 1, None, ... */
  lemma EndlessLoopExample(fuel: nat)
    ensures Exec(["x = 1", "x -> 0"], map[], 0, fuel).outcome == OutOfFuel
  {
    LoopSplits();
    EndlessLoop(["x = 1", "x -> 0"], map[], 0, fuel);
  }

  lemma {:induction false} EndlessLoop(lines: seq<string>, variables: map<string, int>, pc: nat, fuel: nat)
    requires |lines| == 2 && Split(lines[0]) == ["x", "=", "1"] && Split(lines[1]) == ["x", "->", "0"]
    requires pc <= 1 && (pc == 1 ==> "x" in variables && variables["x"] == 1)
    ensures Exec(lines, variables, pc, fuel).outcome == OutOfFuel
    decreases fuel
  {
    if fuel > 0 {
      LoopDigits();
      if pc == 0 {
        var e := Effect(variables["x" := 1], Some(1), None);
        assert Step(variables, Split(lines[0])) == Ok(e);
        EndlessLoop(lines, e.variables, Next(0, e, 2), fuel - 1);
      } else {
        var e := Effect(variables, None, Some(0));
        assert Step(variables, Split(lines[1])) == Ok(e);
        EndlessLoop(lines, variables, Next(1, e, 2), fuel - 1);
      }
    }
  }

  /** In `x = 1`, `x -> 9`, `x +` the jump leaves the program: two outputs, then a clean stop with x still 1. */
  lemma JumpPastEndExample(fuel: nat)
    requires fuel >= 2
    ensures Exec(["x = 1", "x -> 9", "x +"], map[], 0, fuel) == Final(map["x" := 1], 3, [Some(1), None], Halted)
  {
    var lines := ["x = 1", "x -> 9", "x +"];
    assert Unsplit(["x", "->", "9"]) == "x -> 9";
    SplitUnsplit(["x", "->", "9"]);
    LoopSplits();
    JumpExampleRun(lines, fuel);
  }

  lemma JumpExampleRun(lines: seq<string>, fuel: nat)
    requires |lines| == 3 && Split(lines[0]) == ["x", "=", "1"] && Split(lines[1]) == ["x", "->", "9"]
    requires fuel >= 2
    ensures Exec(lines, map[], 0, fuel) == Final(map["x" := 1], 3, [Some(1), None], Halted)
  {
    LoopDigits();
    assert IsDigits("9") && DigitsValue("9") == 9 by {
      assert "9"[..0] == [];
    }
    var vars := map["x" := 1];
    assert map[]["x" := 1] == vars;
    var e := Effect(vars, None, Some(9));
    assert Step(vars, Split(lines[1])) == Ok(e);
    JumpPastEnd(lines, vars, 1, fuel - 1);
  }

  /**
   * In `x = 1`, `x -> y` with `y` undefined, the jump rewinds the file before `get(y)` raises:
   * the run prints 1 and stops with KeyError, the cursor back at line 0.
   */
  lemma FailedJumpExample(fuel: nat)
    requires fuel >= 2
    ensures Exec(["x = 1", "x -> y"], map[], 0, fuel) == Final(map["x" := 1], 0, [Some(1)], Raised(KeyError("y")))
  {
    LoopSplits();
    FailedJumpSplit();
    FailedJumpRun(["x = 1", "x -> y"], fuel);
  }

  lemma FailedJumpSplit()
    ensures Split("x -> y") == ["x", "->", "y"]
  {
    assert Unsplit(["x", "->", "y"]) == "x -> y";
    SplitUnsplit(["x", "->", "y"]);
  }

  lemma FailedJumpRun(lines: seq<string>, fuel: nat)
    requires |lines| == 2 && Split(lines[0]) == ["x", "=", "1"] && Split(lines[1]) == ["x", "->", "y"]
    requires fuel >= 2
    ensures Exec(lines, map[], 0, fuel) == Final(map["x" := 1], 0, [Some(1)], Raised(KeyError("y")))
  {
    LoopDigits();
    assert !IsDigits("y") by {
      assert !IsDigit("y"[0]);
    }
    var vars := map["x" := 1];
    assert map[]["x" := 1] == vars;
    assert Step(map[], Split(lines[0])) == Ok(Effect(vars, Some(1), None));
    assert Step(vars, Split(lines[1])) == Err(KeyError("y"));
    assert Rewinds(vars, Split(lines[1]));
    assert Exec(lines, vars, 1, fuel - 1) == Final(vars, 0, [], Raised(KeyError("y")));
  }

  lemma LoopSplits()
    ensures Split("x = 1") == ["x", "=", "1"] && Split("x -> 0") == ["x", "->", "0"]
  {
    assert Unsplit(["x", "=", "1"]) == "x = 1";
    SplitUnsplit(["x", "=", "1"]);
    assert Unsplit(["x", "->", "0"]) == "x -> 0";
    SplitUnsplit(["x", "->", "0"]);
  }

  lemma LoopDigits()
    ensures IsDigits("1") && DigitsValue("1") == 1
    ensures IsDigits("0") && DigitsValue("0") == 0
  {
    assert "1"[..0] == [];
    assert "0"[..0] == [];
  }

  // ---------------------------------------------------------------------------------------
  // The interpreter's state: the variable table and the file's line cursor

  /** The environment of one call of `run`: the `variables` dict, the file's lines and its line cursor. */
  class Interpreter {
    const lines: seq<string>
    var variables: map<string, int>
    var pc: nat

    ghost predicate Valid()
      reads this
    {
      pc <= |lines|
    }

    constructor (lines: seq<string>)
      ensures Valid() && this.lines == lines && variables == map[] && pc == 0
    {
      this.lines := lines;
      variables := map[];
      pc := 0;
    }

    /** `assing(var, value)`: `variables[var] = get(value)`, returning the value stored. */
    method Assign(v: string, value: string) returns (r: Result<int, Error>)
      modifies this`variables
      ensures r == Get(old(variables), value)
      ensures variables == if r.Ok? then old(variables)[v := r.value] else old(variables)
    {
      r := Get(variables, value);
      if r.Ok? {
        variables := variables[v := r.value];
      }
    }

    /** `invert(var)`: `variables[var] = -variables[var]`, returning the new value. */
    method Invert(v: string) returns (r: Result<int, Error>)
      modifies this`variables
      ensures v !in old(variables) ==> r == Err(KeyError(v)) && variables == old(variables)
      ensures v in old(variables) ==> r == Ok(-old(variables)[v]) && variables == old(variables)[v := -old(variables)[v]]
    {
      if v !in variables {
        return Err(KeyError(v));
      }
      variables := variables[v := -variables[v]];
      r := Ok(variables[v]);
    }

    /** `increment(var)`: `variables[var] += 1`, returning the new value. */
    method Increment(v: string) returns (r: Result<int, Error>)
      modifies this`variables
      ensures v !in old(variables) ==> r == Err(KeyError(v)) && variables == old(variables)
      ensures v in old(variables) ==> r == Ok(old(variables)[v] + 1) && variables == old(variables)[v := old(variables)[v] + 1]
    {
      if v !in variables {
        return Err(KeyError(v));
      }
      variables := variables[v := variables[v] + 1];
      r := Ok(variables[v]);
    }

    /**
     * `translate(var, position)`: when the variable is not zero, rewinds the file and reads
     * `get(position)` lines, so that the next line read is that one (or none, past the end).
     */
    method Translate(v: string, position: string) returns (r: Result<(), Error>)
      requires Valid()
      modifies this`pc
      ensures Valid()
      ensures v !in variables ==> r == Err(KeyError(v)) && pc == old(pc)
      ensures v in variables && variables[v] == 0 ==> r == Ok(()) && pc == old(pc)
      ensures v in variables && variables[v] != 0 ==>
        match Get(variables, position)
        case Err(e) => r == Err(e) && pc == 0
        case Ok(n) => r == Ok(()) && pc == Landing(n, |lines|)
    {
      if v !in variables {
        return Err(KeyError(v));
      }
      if variables[v] != 0 {
        pc := 0;
        var g := Get(variables, position);
        if g.Err? {
          return Err(g.error);
        }
        var i := 0;
        while i < g.value
          invariant 0 <= i <= if g.value < 0 then 0 else g.value
          invariant pc == Landing(i, |lines|)
        {
          if pc < |lines| {
            pc := pc + 1;
          }
          i := i + 1;
        }
      }
      r := Ok(());
    }

    /** `interprete(statement)`: dispatches on the operator; an unknown operator does nothing and returns None. */
    method Interprete(statement: seq<string>) returns (r: Result<Option<int>, Error>)
      requires Valid()
      modifies this`variables, this`pc
      ensures Valid()
      ensures match Step(old(variables), statement)
        case Err(e) => r == Err(e) && variables == old(variables) &&
          pc == if Rewinds(old(variables), statement) then 0 else old(pc)
        case Ok(e) =>
          r == Ok(e.output) && variables == e.variables &&
          pc == if e.jump.Some? then Landing(e.jump.value, |lines|) else old(pc)
    {
      if |statement| < 2 {
        return Err(IndexError);
      }
      var v, op := statement[0], statement[1];
      if op == "=" {
        if |statement| < 3 {
          return Err(IndexError);
        }
        var x := Assign(v, statement[2]);
        r := if x.Ok? then Ok(Some(x.value)) else Err(x.error);
      } else if op == "+" {
        var x := Increment(v);
        r := if x.Ok? then Ok(Some(x.value)) else Err(x.error);
      } else if op == "!" {
        var x := Invert(v);
        r := if x.Ok? then Ok(Some(x.value)) else Err(x.error);
      } else if op == "->" {
        if |statement| < 3 {
          return Err(IndexError);
        }
        var x := Translate(v, statement[2]);
        r := if x.Ok? then Ok(None) else Err(x.error);
      } else {
        r := Ok(None);
      }
    }
  }

  /**
   * `run(file)`: executes lines from the first one, appending the result of every line to the
   * trace, until the cursor passes the last line, a line raises, or `fuel` lines have run; it
   * ends with the variable table and the cursor the run left.
   */
  method Run(lines: seq<string>, fuel: nat) returns (variables: map<string, int>, pc: nat, trace: seq<Option<int>>, outcome: Outcome)
    ensures Final(variables, pc, trace, outcome) == Exec(lines, map[], 0, fuel)
  {
    var m := new Interpreter(lines);
    trace := [];
    var steps := 0;
    while m.pc < |lines| && steps < fuel
      invariant m.Valid() && m.lines == lines && steps <= fuel
      invariant Exec(lines, map[], 0, fuel) ==
        var rest := Exec(lines, m.variables, m.pc, fuel - steps);
        Final(rest.variables, rest.pc, trace + rest.trace, rest.outcome)
      decreases fuel - steps
    {
      var statement := Split(lines[m.pc]);
      ghost var before := m.variables;
      ghost var at := m.pc;
      m.pc := m.pc + 1;
      var r := m.Interprete(statement);
      if r.Err? {
        return m.variables, m.pc, trace, Raised(r.error);
      }
      trace := trace + [r.value];
      steps := steps + 1;
      ghost var e := Step(before, statement).value;
      assert m.pc == Next(at, e, |lines|);
      assert [r.value] + Exec(lines, m.variables, m.pc, fuel - steps).trace ==
        Exec(lines, before, at, fuel - steps + 1).trace;
    }
    variables, pc := m.variables, m.pc;
    outcome := if m.pc >= |lines| then Halted else OutOfFuel;
  }
}
