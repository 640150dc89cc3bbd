/**
  Macro expansion in presets (cmCMakePresetsGraph): the character scanner of
  ExpandMacros, the chain of macro expanders, and the expansion of a preset's
  environment, a memoised depth-first walk that rewrites the values in place and
  calls back into the scanner.
 */
module MacroExpansion {
  import opened CycleCheck
  import opened Options
  import opened Paths
  import opened Reachability

  /** ExpandMacroResult; an Ok result carries the text it stands for. */
  datatype Expansion = Ok(text: string) | Ignore | Error

  // --------------------------------------------------------- the macro syntax

  const VALID_PREFIXES: seq<string> := ["", "env", "penv", "vendor"]

  predicate IsPrefix(p: string, s: string) {
    |p| <= |s| && s[..|p|] == p
  }

  predicate PrefixesValidMacroNamespace(s: string) {
    exists k | 0 <= k < |VALID_PREFIXES| :: IsPrefix(s, VALID_PREFIXES[k])
  }

  predicate IsValidMacroNamespace(s: string) {
    s in VALID_PREFIXES
  }

  datatype Token =
    | Literal(text: string)
    | Macro(macroNamespace: string, macroName: string)
    | Unterminated(openNamespace: string, openName: string)

  datatype ScanState = Default | MacroNamespace | MacroName

  /** The scanner's local state between two characters. */
  datatype Scanner = Scanner(state: ScanState, ns: string, name: string)

  const START := Scanner(Default, "", "")

  /** The token, if any, that one character completes, and the state it leads to. */
  function Step(s: Scanner, c: char): (r: (Option<Token>, Scanner)) {
    match s.state
    case Default =>
      if c == '$' then (None, Scanner(MacroNamespace, "", "")) else (Some(Literal([c])), START)
    case MacroNamespace =>
      if c == '{' then
        if IsValidMacroNamespace(s.ns) then (None, Scanner(MacroName, s.ns, ""))
        else (Some(Literal("$" + s.ns + "{")), START)
      else if PrefixesValidMacroNamespace(s.ns + [c]) then (None, Scanner(MacroNamespace, s.ns + [c], ""))
      else (Some(Literal("$" + s.ns + [c])), START)
    case MacroName =>
      if c == '}' then (Some(Macro(s.ns, s.name)), START)
      else (None, Scanner(MacroName, s.ns, s.name + [c]))
  }

  /** What the end of the text makes of the scanner's state. */
  function Finish(s: Scanner): seq<Token> {
    match s.state
    case Default => []
    case MacroNamespace => [Literal("$" + s.ns)]
    case MacroName => [Unterminated(s.ns, s.name)]
  }

  /** The tokens of the text t that remains, given the scanner's state. */
  function Lex(s: Scanner, t: string): seq<Token>
    decreases |t|
  {
    if t == "" then Finish(s)
    else
      var (token, s') := Step(s, t[0]);
      if token.Some? then [token.value] + Lex(s', t[1..]) else Lex(s', t[1..])
  }

  function Tokens(t: string): seq<Token> {
    Lex(START, t)
  }

  function Spelling(token: Token): string {
    match token
    case Literal(s) => s
    case Macro(ns, name) => "$" + ns + "{" + name + "}"
    case Unterminated(ns, name) => "$" + ns + "{" + name
  }

  function Spellings(tokens: seq<Token>): string {
    if tokens == [] then "" else Spelling(tokens[0]) + Spellings(tokens[1..])
  }

  /** What the scanner holds back in a state: the text it has read but not yet used. */
  function Held(s: Scanner): string {
    match s.state
    case Default => ""
    case MacroNamespace => "$" + s.ns
    case MacroName => "$" + s.ns + "{" + s.name
  }

  /** A step neither loses nor invents a character. */
  lemma StepKeepsText(s: Scanner, c: char)
    ensures var (token, s') := Step(s, c);
      (if token.Some? then Spelling(token.value) else "") + Held(s') == Held(s) + [c]
  {
    match s.state
    case Default =>
    case MacroNamespace =>
      if c != '{' { assert "$" + s.ns + [c] == "$" + (s.ns + [c]); }
    case MacroName =>
      if c != '}' { assert "$" + s.ns + "{" + (s.name + [c]) == "$" + s.ns + "{" + s.name + [c]; }
  }

  lemma SpellingsOne(token: Token, tokens: seq<Token>)
    ensures Spellings([token] + tokens) == Spelling(token) + Spellings(tokens)
  {
    assert ([token] + tokens)[1..] == tokens;
  }

  lemma Glue(a: string, b: string, h: string, t: string)
    requires t != "" && a + b == h + [t[0]]
    ensures a + (b + t[1..]) == h + t
  {
    assert a + (b + t[1..]) == (a + b) + t[1..];
    assert (h + [t[0]]) + t[1..] == h + ([t[0]] + t[1..]);
    assert [t[0]] + t[1..] == t;
  }

  /** Lexing loses nothing: the spellings of the tokens are the text. */
  lemma {:induction false} LexKeepsText(s: Scanner, t: string)
    ensures Spellings(Lex(s, t)) == Held(s) + t
    decreases |t|
  {
    if t == "" {
      FinishKeepsText(s);
    } else {
      var step := Step(s, t[0]);
      LexKeepsText(step.1, t[1..]);
      StepKeepsText(s, t[0]);
      if step.0.Some? {
        SpellingsOne(step.0.value, Lex(step.1, t[1..]));
        Glue(Spelling(step.0.value), Held(step.1), Held(s), t);
      } else {
        Glue("", Held(step.1), Held(s), t);
      }
    }
  }

  lemma FinishKeepsText(s: Scanner)
    ensures Spellings(Finish(s)) == Held(s)
  {
    assert s.state != Default ==> Finish(s)[1..] == [];
  }

  // ------------------------------------------------------------- the expanders

  type Env = map<string, Option<string>>

  /** What the expanders know besides the preset's environment. */
  datatype Context = Context(
    sourceDir: string, platform: Platform, hostSystemName: string, pathListSep: string,
    presetName: string, presetGenerator: string, presetHidden: bool, presetFile: string,
    processEnv: map<string, string>, version: int)

  /** BaseMacroExpander, constructed without a file. */
  function BaseMacro(cx: Context, ns: string, name: string): Expansion {
    if ns != "" then Ignore
    else if name == "sourceDir" then Ok(cx.sourceDir)
    else if name == "sourceParentDir" then Ok(GetFilenamePath(cx.platform, cx.sourceDir))
    else if name == "sourceDirName" then Ok(GetFilenameName(cx.platform, cx.sourceDir))
    else if name == "dollar" then Ok("$")
    else if name == "hostSystemName" then if cx.version < 3 then Error else Ok(cx.hostSystemName)
    else if name == "pathListSep" then if cx.version < 5 then Error else Ok(cx.pathListSep)
    else Ignore
  }

  /** PresetMacroExpander. */
  function PresetMacro(cx: Context, ns: string, name: string): Expansion {
    if ns != "" then Ignore
    else if name == "presetName" then Ok(cx.presetName)
    else if name == "generator" then Ok(if cx.presetHidden then "" else cx.presetGenerator)
    else if name == "fileDir" then if cx.version < 4 then Error else Ok(GetFilenamePath(cx.platform, cx.presetFile))
    else Ignore
  }

  /** Does the macro refer to a variable that the preset's environment sets? */
  predicate IsReference(env: Env, ns: string, name: string) {
    ns == "env" && name != "" && name in env && env[name].Some?
  }

  /** The part of EnvironmentMacroExpander that looks at the process environment. */
  function ProcessMacro(cx: Context, ns: string, name: string): Expansion {
    if ns == "env" || ns == "penv" then
      if name == "" then Error
      else Ok(if name in cx.processEnv then cx.processEnv[name] else "")
    else Ignore
  }

  /** ExpandMacro when no expander but the first two and the process applies. */
  function PlainMacro(cx: Context, ns: string, name: string): Expansion {
    var base := BaseMacro(cx, ns, name);
    if !base.Ignore? then base else
    var preset := PresetMacro(cx, ns, name);
    if !preset.Ignore? then preset else
    var process := ProcessMacro(cx, ns, name);
    if !process.Ignore? then process else
    if ns == "vendor" then Ignore else Error
  }

  // ------------------------------------------------------------- specification

  function Append(s: string, e: Expansion): Expansion {
    match e
    case Ok(t) => Ok(s + t)
    case Ignore => Ignore
    case Error => Error
  }

  /**
    ExpandMacro, with references expanded recursively.  An expander that answers
    Ignore hands over to the next one, so a reference to a variable whose own
    expansion is ignored ends as an error.
   */
  ghost function EvalMacro(cx: Context, env: Env, ns: string, name: string, path: set<string>): Expansion
    decreases |env.Keys - path|, 0, 1
  {
    if IsReference(env, ns, name) then
      var e := EvalEnv(cx, env, name, path);
      if e.Ok? then e else Error
    else PlainMacro(cx, ns, name)
  }

  /** The recursive expansion of the variable n, while those in path are in progress. */
  ghost function EvalEnv(cx: Context, env: Env, n: string, path: set<string>): Expansion
    requires n in env && env[n].Some?
    decreases |env.Keys - path|, 0, 0
  {
    if n in path then Error else
    PathShrinks(env.Keys, n, path);
    Eval(cx, env, Tokens(env[n].value), path + {n})
  }

  /** Tokens are expanded from the left; the first that fails decides. */
  ghost function Eval(cx: Context, env: Env, tokens: seq<Token>, path: set<string>): Expansion
    decreases |env.Keys - path|, 1 + |tokens|, 0
  {
    if tokens == [] then Ok("") else
    match tokens[0]
    case Literal(s) => Append(s, Eval(cx, env, tokens[1..], path))
    case Unterminated(_, _) => Error
    case Macro(ns, name) =>
      match EvalMacro(cx, env, ns, name, path)
      case Ok(s) => Append(s, Eval(cx, env, tokens[1..], path))
      case Ignore => Ignore
      case Error => Error
  }

  // --------------------------------------------------------------- the program

  ghost function WithStatus(cycles: map<string, CycleStatus>, s: CycleStatus): set<string> {
    set n | n in cycles && cycles[n] == s
  }

  /** n's value is its expansion, whichever other unverified variables are in progress. */
  ghost predicate Memoised(cx: Context, orig: Env, env: Env, cycles: map<string, CycleStatus>, n: string)
    requires n in orig && orig[n].Some? && n in env && env[n].Some?
  {
    forall p: set<string> | p !! WithStatus(cycles, Verified) ::
      EvalEnv(cx, orig, n, p) == Ok(env[n].value)
  }

  ghost predicate Consistent(cx: Context, orig: Env, env: Env, cycles: map<string, CycleStatus>) {
    && env.Keys == orig.Keys == cycles.Keys
    && forall n | n in orig ::
         && (orig[n].Some? <==> env[n].Some?)
         && (orig[n].Some? && cycles[n].Verified? ==> Memoised(cx, orig, env, cycles, n))
         && (!cycles[n].Verified? ==> env[n] == orig[n])
  }

  /** From cycles to cycles' some unvisited variables became verified. */
  ghost predicate Progress(cycles: map<string, CycleStatus>, cycles': map<string, CycleStatus>) {
    && cycles.Keys == cycles'.Keys
    && forall n | n in cycles :: cycles'[n] == cycles[n] || (cycles[n].Unvisited? && cycles'[n].Verified?)
  }

  lemma ProgressSets(cycles: map<string, CycleStatus>, cycles': map<string, CycleStatus>)
    requires Progress(cycles, cycles')
    ensures WithStatus(cycles', InProgress) == WithStatus(cycles, InProgress)
    ensures WithStatus(cycles, Verified) <= WithStatus(cycles', Verified)
  {
  }

  lemma EnterSets(cycles: map<string, CycleStatus>, n: string)
    requires n in cycles && cycles[n].Unvisited?
    ensures WithStatus(cycles[n := InProgress], InProgress) == WithStatus(cycles, InProgress) + {n}
    ensures WithStatus(cycles[n := InProgress], Verified) == WithStatus(cycles, Verified)
  {
  }

  /** A variable becomes in progress: nothing verified is affected. */
  lemma EnterVariable(cx: Context, orig: Env, env: Env, cycles: map<string, CycleStatus>, n: string)
    requires Consistent(cx, orig, env, cycles) && n in orig && cycles[n].Unvisited?
    ensures Consistent(cx, orig, env, cycles[n := InProgress])
    ensures WithStatus(cycles[n := InProgress], InProgress) == WithStatus(cycles, InProgress) + {n}
    ensures |orig.Keys - WithStatus(cycles[n := InProgress], InProgress)| < |orig.Keys - WithStatus(cycles, InProgress)|
  {
    var cycles' := cycles[n := InProgress];
    EnterSets(cycles, n);
    PathShrinks(orig.Keys, n, WithStatus(cycles, InProgress));
    forall m | m in orig && orig[m].Some? && cycles'[m].Verified?
      ensures Memoised(cx, orig, env, cycles', m)
    {
      assert Memoised(cx, orig, env, cycles, m);
    }
  }

  /** The expanded value replaces the text and is verified from now on. */
  lemma LeaveVariable(cx: Context, orig: Env, env: Env, cycles: map<string, CycleStatus>, n: string, text: string)
    requires Consistent(cx, orig, env, cycles) && n in orig && orig[n].Some? && cycles[n].InProgress?
    requires forall p: set<string> | p !! WithStatus(cycles, Verified) ::
               Eval(cx, orig, Tokens(orig[n].value), p) == Ok(text)
    ensures Consistent(cx, orig, env[n := Some(text)], cycles[n := Verified])
  {
    var env', cycles' := env[n := Some(text)], cycles[n := Verified];
    assert WithStatus(cycles', Verified) == WithStatus(cycles, Verified) + {n};
    forall m | m in orig && orig[m].Some? && cycles'[m].Verified?
      ensures Memoised(cx, orig, env', cycles', m)
    {
      if m == n {
        forall p: set<string> | p !! WithStatus(cycles', Verified)
          ensures EvalEnv(cx, orig, n, p) == Ok(text)
        {
          assert p + {n} !! WithStatus(cycles, Verified);
        }
      } else {
        assert Memoised(cx, orig, env, cycles, m);
      }
    }
  }

  /** What the scanner has produced so far and the tokens ahead make up the whole. */
  ghost predicate Halfway(
      cx: Context, orig: Env, cycles: map<string, CycleStatus>, all: seq<Token>, done: string, ahead: seq<Token>)
  {
    forall p: set<string> | p !! WithStatus(cycles, Verified) ::
      Eval(cx, orig, all, p) == Append(done, Eval(cx, orig, ahead, p))
  }

  lemma HalfwayLiteral(
      cx: Context, orig: Env, cycles: map<string, CycleStatus>, all: seq<Token>, done: string, ahead: seq<Token>)
    requires ahead != [] && ahead[0].Literal? && Halfway(cx, orig, cycles, all, done, ahead)
    ensures Halfway(cx, orig, cycles, all, done + ahead[0].text, ahead[1..])
  {
  }

  lemma HalfwayMacro(
      cx: Context, orig: Env, cycles: map<string, CycleStatus>, cycles': map<string, CycleStatus>,
      all: seq<Token>, done: string, ahead: seq<Token>, text: string)
    requires ahead != [] && ahead[0].Macro? && Halfway(cx, orig, cycles, all, done, ahead)
    requires Progress(cycles, cycles')
    requires forall p: set<string> | p !! WithStatus(cycles', Verified) ::
               EvalMacro(cx, orig, ahead[0].macroNamespace, ahead[0].macroName, p) == Ok(text)
    ensures Halfway(cx, orig, cycles', all, done + text, ahead[1..])
  {
    ProgressSets(cycles, cycles');
    forall p: set<string> | p !! WithStatus(cycles', Verified)
      ensures Eval(cx, orig, all, p) == Append(done + text, Eval(cx, orig, ahead[1..], p))
    {
      assert p !! WithStatus(cycles, Verified);
      MacroFirst(cx, orig, ahead, text, p);
      AppendTwice(done, text, Eval(cx, orig, ahead[1..], p));
    }
  }

  lemma MacroFirst(cx: Context, env: Env, ahead: seq<Token>, text: string, p: set<string>)
    requires ahead != [] && ahead[0].Macro?
    requires EvalMacro(cx, env, ahead[0].macroNamespace, ahead[0].macroName, p) == Ok(text)
    ensures Eval(cx, env, ahead, p) == Append(text, Eval(cx, env, ahead[1..], p))
  {
  }

  lemma AppendTwice(a: string, b: string, e: Expansion)
    ensures Append(a, Append(b, e)) == Append(a + b, e) && Append("", e) == e
  {
    if e.Ok? {
      assert a + (b + e.text) == a + b + e.text;
      assert "" + e.text == e.text;
    }
  }

  /** A macro that fails now decides the whole. */
  lemma MacroFails(
      cx: Context, orig: Env, cycles: map<string, CycleStatus>, all: seq<Token>, done: string, ahead: seq<Token>)
    requires ahead != [] && ahead[0].Macro? && Halfway(cx, orig, cycles, all, done, ahead)
    requires !EvalMacro(cx, orig, ahead[0].macroNamespace, ahead[0].macroName, WithStatus(cycles, InProgress)).Ok?
    ensures Eval(cx, orig, all, WithStatus(cycles, InProgress))
            == EvalMacro(cx, orig, ahead[0].macroNamespace, ahead[0].macroName, WithStatus(cycles, InProgress))
  {
    assert WithStatus(cycles, InProgress) !! WithStatus(cycles, Verified);
  }

  lemma HalfwayEnd(
      cx: Context, orig: Env, cycles: map<string, CycleStatus>, all: seq<Token>, done: string, s: Scanner)
    requires Halfway(cx, orig, cycles, all, done, Finish(s))
    ensures var e := match s.state
                     case Default => Ok(done)
                     case MacroNamespace => Ok(done + ("$" + s.ns))
                     case MacroName => Error;
      && (forall p: set<string> | p !! WithStatus(cycles, Verified) :: Eval(cx, orig, all, p) == e)
      && Eval(cx, orig, all, WithStatus(cycles, InProgress)) == e
  {
    forall p: set<string> | p !! WithStatus(cycles, Verified)
      ensures Eval(cx, orig, Finish(s), p) == match s.state
                                              case Default => Ok("")
                                              case MacroNamespace => Ok("$" + s.ns)
                                              case MacroName => Error
    {
      assert s.state == MacroNamespace ==> Finish(s)[1..] == [] && "$" + s.ns + "" == "$" + s.ns;
    }
    assert done + "" == done;
    assert WithStatus(cycles, InProgress) !! WithStatus(cycles, Verified);
  }

  lemma ProgressTrans(c0: map<string, CycleStatus>, c1: map<string, CycleStatus>, c2: map<string, CycleStatus>)
    requires Progress(c0, c1) && Progress(c1, c2)
    ensures Progress(c0, c2)
  {
  }

  class EnvironmentExpander {
    const cx: Context
    var environment: Env
    var envCycles: map<string, CycleStatus>

    constructor (cx: Context, environment: Env)
      ensures this.cx == cx && this.environment == environment
      ensures envCycles == map n | n in environment :: Unvisited
    {
      this.cx, this.environment := cx, environment;
      envCycles := map n | n in environment :: Unvisited;
    }

    method VisitEnv(n: string, ghost orig: Env) returns (e: Expansion)
      requires Consistent(cx, orig, environment, envCycles) && n in orig && orig[n].Some?
      modifies this
      ensures e == EvalEnv(cx, orig, n, WithStatus(old(envCycles), InProgress))
      ensures e.Ok? ==> Consistent(cx, orig, environment, envCycles) && Progress(old(envCycles), envCycles)
      ensures e.Ok? ==> envCycles[n].Verified? && environment[n] == Some(e.text)
      decreases |orig.Keys - WithStatus(envCycles, InProgress)|, 0
    {
      if envCycles[n].Verified? {
        assert Memoised(cx, orig, environment, envCycles, n);
        return Ok(environment[n].value);
      }
      if envCycles[n].InProgress? {
        return Error;
      }
      EnterVariable(cx, orig, environment, envCycles, n);
      envCycles := envCycles[n := InProgress];
      e := ExpandMacros(environment[n].value, orig);
      if e.Ok? {
        LeaveVariable(cx, orig, environment, envCycles, n, e.text);
        environment := environment[n := Some(e.text)];
        envCycles := envCycles[n := Verified];
      }
    }

    method ExpandMacros(text: string, ghost orig: Env) returns (e: Expansion)
      requires Consistent(cx, orig, environment, envCycles)
      modifies this
      ensures e == Eval(cx, orig, Tokens(text), WithStatus(old(envCycles), InProgress))
      ensures e.Ok? ==> Consistent(cx, orig, environment, envCycles) && Progress(old(envCycles), envCycles)
      ensures e.Ok? ==> forall p: set<string> | p !! WithStatus(envCycles, Verified) ::
                          Eval(cx, orig, Tokens(text), p) == e
      decreases |orig.Keys - WithStatus(envCycles, InProgress)|, 4
    {
      var result, s := "", START;
      ghost var all := Tokens(text);
      assert text[0..] == text;
      for i := 0 to |text|
        invariant Consistent(cx, orig, environment, envCycles) && Progress(old(envCycles), envCycles)
        invariant Halfway(cx, orig, envCycles, all, result, Lex(s, text[i..]))
      {
        ghost var cycles := envCycles;
        assert text[i..] == [text[i]] + text[i + 1..];
        ProgressSets(old(envCycles), envCycles);
        e, s := ScanCharacter(text[i], result, s, all, text[i + 1..], orig);
        if !e.Ok? {
          return;
        }
        ProgressTrans(old(envCycles), cycles, envCycles);
        result := e.text;
      }
      assert text[|text|..] == "";
      HalfwayEnd(cx, orig, envCycles, all, result, s);
      ProgressSets(old(envCycles), envCycles);
      match s.state {
        case Default => return Ok(result);
        case MacroNamespace => return Ok(result + ("$" + s.ns));
        case MacroName => return Error;
      }
    }

    /** The loop body of ExpandMacros: the new result, or the verdict of a macro that failed. */
    method ScanCharacter(
        c: char, result: string, s: Scanner, ghost all: seq<Token>, ghost rest: string, ghost orig: Env)
      returns (e: Expansion, s': Scanner)
      requires Consistent(cx, orig, environment, envCycles)
      requires Halfway(cx, orig, envCycles, all, result, Lex(s, [c] + rest))
      modifies this
      ensures e.Ok? ==> Consistent(cx, orig, environment, envCycles) && Progress(old(envCycles), envCycles)
      ensures e.Ok? ==> Halfway(cx, orig, envCycles, all, e.text, Lex(s', rest))
      ensures !e.Ok? ==> e == Eval(cx, orig, all, WithStatus(old(envCycles), InProgress))
      decreases |orig.Keys - WithStatus(envCycles, InProgress)|, 3
    {
      ghost var ahead := Lex(s, [c] + rest);
      assert ([c] + rest)[1..] == rest;
      s' := s;
      match s.state
      case Default =>
        if c == '$' {
          return Ok(result), Scanner(MacroNamespace, "", "");
        }
        HalfwayLiteral(cx, orig, envCycles, all, result, ahead);
        return Ok(result + [c]), START;
      case MacroNamespace =>
        if c == '{' {
          if IsValidMacroNamespace(s.ns) {
            return Ok(result), Scanner(MacroName, s.ns, "");
          }
          HalfwayLiteral(cx, orig, envCycles, all, result, ahead);
          return Ok(result + ("$" + s.ns + "{")), START;
        }
        var ns := s.ns + [c];
        if !PrefixesValidMacroNamespace(ns) {
          HalfwayLiteral(cx, orig, envCycles, all, result, ahead);
          return Ok(result + ("$" + ns)), START;
        }
        return Ok(result), Scanner(MacroNamespace, ns, "");
      case MacroName =>
        if c != '}' {
          return Ok(result), Scanner(MacroName, s.ns, s.name + [c]);
        }
        ghost var cycles := envCycles;
        var m := ExpandMacro(s.ns, s.name, orig);
        if !m.Ok? {
          MacroFails(cx, orig, cycles, all, result, ahead);
          return m, s;
        }
        HalfwayMacro(cx, orig, cycles, envCycles, all, result, ahead, m.text);
        return Ok(result + m.text), START;
    }

    /** ExpandMacro: the base, preset and environment expanders in turn. */
    method ExpandMacro(ns: string, name: string, ghost orig: Env) returns (e: Expansion)
      requires Consistent(cx, orig, environment, envCycles)
      modifies this
      ensures e == EvalMacro(cx, orig, ns, name, WithStatus(old(envCycles), InProgress))
      ensures e.Ok? ==> Consistent(cx, orig, environment, envCycles) && Progress(old(envCycles), envCycles)
      ensures e.Ok? ==> forall p: set<string> | p !! WithStatus(envCycles, Verified) ::
                          EvalMacro(cx, orig, ns, name, p) == e
      decreases |orig.Keys - WithStatus(envCycles, InProgress)|, 2
    {
      e := BaseMacro(cx, ns, name);
      if !e.Ignore? {
        return;
      }
      e := PresetMacro(cx, ns, name);
      if !e.Ignore? {
        return;
      }
      e := EnvironmentMacro(ns, name, orig);
      if e.Ignore? && ns != "vendor" {
        e := Error;
      }
    }

    /** EnvironmentMacroExpander. */
    method EnvironmentMacro(ns: string, name: string, ghost orig: Env) returns (e: Expansion)
      requires Consistent(cx, orig, environment, envCycles)
      modifies this
      ensures e == if IsReference(orig, ns, name)
                   then EvalEnv(cx, orig, name, WithStatus(old(envCycles), InProgress))
                   else ProcessMacro(cx, ns, name)
      ensures e.Ok? ==> Consistent(cx, orig, environment, envCycles) && Progress(old(envCycles), envCycles)
      ensures e.Ok? && IsReference(orig, ns, name) ==> Memoised(cx, orig, environment, envCycles, name)
                                                       && environment[name] == Some(e.text)
      decreases |orig.Keys - WithStatus(envCycles, InProgress)|, 1
    {
      if ns == "env" && name != "" {
        if name in environment && environment[name].Some? {
          e := VisitEnv(name, orig);
          return;
        }
      }
      if ns == "env" || ns == "penv" {
        if name == "" {
          return Error;
        }
        if name in cx.processEnv {
          return Ok(cx.processEnv[name]);
        }
        return Ok("");
      }
      return Ignore;
    }

    /**
      The loop of ExpandMacros(graph, preset, out) over the preset's environment;
      order is the order in which the map lists its keys.
     */
    method ExpandEnvironment(order: seq<string>) returns (e: Expansion)
      requires envCycles == map n | n in environment :: Unvisited
      requires forall n :: n in order <==> n in environment
      modifies this
      ensures e == FirstFailure(cx, old(environment), order)
      ensures e.Ok? ==> Expanded(cx, old(environment), environment)
    {
      ghost var orig := environment;
      e := Ok("");
      for i := 0 to |order|
        invariant Consistent(cx, orig, environment, envCycles) && WithStatus(envCycles, InProgress) == {}
        invariant FirstFailure(cx, orig, order) == FirstFailure(cx, orig, order[i..])
        invariant forall k | 0 <= k < i && orig[order[k]].Some? :: envCycles[order[k]].Verified?
      {
        ghost var cycles := envCycles;
        assert order[i] in orig && order[i..][1..] == order[i + 1..];
        if environment[order[i]].Some? {
          e := VisitEnv(order[i], orig);
          if !e.Ok? {
            return;
          }
          ProgressSets(cycles, envCycles);
        }
      }
      assert {} !! WithStatus(envCycles, Verified);
      forall n | n in orig && orig[n].Some?
        ensures EvalEnv(cx, orig, n, {}) == Ok(environment[n].value)
      {
        var k :| 0 <= k < |order| && order[k] == n;
        assert Memoised(cx, orig, environment, envCycles, n);
      }
      return Ok("");
    }
  }

  /** The first variable in order whose expansion fails decides; Ok("") when none does. */
  ghost function FirstFailure(cx: Context, env: Env, order: seq<string>): Expansion
    requires forall n | n in order :: n in env
  {
    if order == [] then Ok("")
    else if env[order[0]].Some? && !EvalEnv(cx, env, order[0], {}).Ok? then EvalEnv(cx, env, order[0], {})
    else FirstFailure(cx, env, order[1..])
  }

  /** Every value is the recursive expansion of the original texts; unset variables stay unset. */
  ghost predicate Expanded(cx: Context, orig: Env, final: Env) {
    && final.Keys == orig.Keys
    && forall n | n in orig ::
         && (orig[n].Some? <==> final[n].Some?)
         && (orig[n].Some? ==> EvalEnv(cx, orig, n, {}) == Ok(final[n].value))
  }

  // ------------------------------------------------------------- main theorems

  /** An expansion that succeeds is the same whichever fewer variables are in progress. */
  lemma {:induction false} FewerInProgress(cx: Context, env: Env, n: string, path: set<string>, path': set<string>)
    requires n in env && env[n].Some? && path' <= path && EvalEnv(cx, env, n, path).Ok?
    ensures EvalEnv(cx, env, n, path') == EvalEnv(cx, env, n, path)
    decreases |env.Keys - path|, 0, 0
  {
    PathShrinks(env.Keys, n, path);
    FewerInProgressText(cx, env, Tokens(env[n].value), path + {n}, path' + {n});
  }

  lemma {:induction false} FewerInProgressText(
      cx: Context, env: Env, tokens: seq<Token>, path: set<string>, path': set<string>)
    requires path' <= path && Eval(cx, env, tokens, path).Ok?
    ensures Eval(cx, env, tokens, path') == Eval(cx, env, tokens, path)
    decreases |env.Keys - path|, 1 + |tokens|, 0
  {
    if tokens != [] {
      if tokens[0].Macro? && IsReference(env, tokens[0].macroNamespace, tokens[0].macroName) {
        FewerInProgress(cx, env, tokens[0].macroName, path, path');
      }
      FewerInProgressText(cx, env, tokens[1..], path, path');
    }
  }

  /** Tokens expanded once: references are replaced by final values, not expanded again. */
  ghost function Substitute(cx: Context, final: Env, tokens: seq<Token>): Expansion {
    if tokens == [] then Ok("") else
    match tokens[0]
    case Literal(s) => Append(s, Substitute(cx, final, tokens[1..]))
    case Unterminated(_, _) => Error
    case Macro(ns, name) =>
      match if IsReference(final, ns, name) then Ok(final[name].value) else PlainMacro(cx, ns, name)
      case Ok(s) => Append(s, Substitute(cx, final, tokens[1..]))
      case Ignore => Ignore
      case Error => Error
  }

  lemma {:induction false} EvalIsSubstitute(cx: Context, orig: Env, final: Env, tokens: seq<Token>, path: set<string>)
    requires Expanded(cx, orig, final) && Eval(cx, orig, tokens, path).Ok?
    ensures Substitute(cx, final, tokens) == Eval(cx, orig, tokens, path)
  {
    if tokens != [] {
      if tokens[0].Macro? && IsReference(orig, tokens[0].macroNamespace, tokens[0].macroName) {
        FewerInProgress(cx, orig, tokens[0].macroName, path, {});
      }
      EvalIsSubstitute(cx, orig, final, tokens[1..], path);
    }
  }

  /**
    The equation the final environment satisfies: each value is its own original
    text with every reference replaced, once, by the final value it names.
   */
  lemma ExpandedOnce(cx: Context, orig: Env, final: Env, n: string)
    requires Expanded(cx, orig, final) && n in orig && orig[n].Some?
    ensures Substitute(cx, final, Tokens(orig[n].value)) == Ok(final[n].value)
  {
    EvalIsSubstitute(cx, orig, final, Tokens(orig[n].value), {} + {n});
  }

  /** The text of a refers to b through $env. */
  ghost predicate RefersTo(env: Env, a: string, b: string) {
    a in env && env[a].Some? && IsReference(env, "env", b) && Macro("env", b) in Tokens(env[a].value)
  }

  ghost function RefersRel(env: Env): (string, string) -> bool {
    (a: string, b: string) => RefersTo(env, a, b)
  }

  lemma {:induction false} ReferenceExpands(cx: Context, env: Env, tokens: seq<Token>, b: string, path: set<string>)
    requires Eval(cx, env, tokens, path).Ok? && IsReference(env, "env", b) && Macro("env", b) in tokens
    ensures EvalEnv(cx, env, b, path).Ok?
  {
    if tokens[0] != Macro("env", b) {
      ReferenceExpands(cx, env, tokens[1..], b, path);
    }
  }

  lemma {:induction false} ExpandsAlong(cx: Context, env: Env, p: seq<string>, k: nat)
    requires k < |p| && p[0] in env && env[p[0]].Some? && EvalEnv(cx, env, p[0], {}).Ok?
    requires IsPath(RefersRel(env), p, p[0], p[|p| - 1])
    ensures p[k] in env && env[p[k]].Some?
    ensures EvalEnv(cx, env, p[k], set i | 0 <= i < k :: p[i]).Ok?
  {
    var seen := set i | 0 <= i < k :: p[i];
    if k == 0 {
      assert seen == {};
    } else {
      ExpandsAlong(cx, env, p, k - 1);
      var before := set i | 0 <= i < k - 1 :: p[i];
      assert seen == before + {p[k - 1]};
      assert RefersTo(env, p[k - 1], p[k - 1 + 1]);
      ReferenceExpands(cx, env, Tokens(env[p[k - 1]].value), p[k], seen);
    }
  }

  /** A variable on a cycle of references never expands. */
  lemma CycleFails(cx: Context, env: Env, n: string)
    requires n in env && env[n].Some? && ReachesPlus(RefersRel(env), n, n)
    ensures !EvalEnv(cx, env, n, {}).Ok?
  {
    if EvalEnv(cx, env, n, {}).Ok? {
      var p := PathOfReachesPlus(RefersRel(env), n, n);
      assert p[0] in set i | 0 <= i < |p| - 1 :: p[i];
      ExpandsAlong(cx, env, p, |p| - 1);
    }
  }

  /** A token that can only succeed, given that the references in it do. */
  ghost predicate LocallyOk(cx: Context, env: Env, token: Token) {
    match token
    case Literal(_) => true
    case Unterminated(_, _) => false
    case Macro(ns, name) => IsReference(env, ns, name) || PlainMacro(cx, ns, name).Ok?
  }

  lemma {:induction false} TokenIsOk(cx: Context, env: Env, tokens: seq<Token>, t: Token, path: set<string>)
    requires Eval(cx, env, tokens, path).Ok? && t in tokens
    ensures LocallyOk(cx, env, t)
  {
    if tokens[0] != t {
      TokenIsOk(cx, env, tokens[1..], t, path);
    }
  }

  // --------------------------------------------- the verdict on one variable

  /** n is on no cycle of references, and each of its macros is a reference or a known, supported one. */
  ghost predicate Healthy(cx: Context, env: Env, n: string) {
    && n in env && env[n].Some? && !ReachesPlus(RefersRel(env), n, n)
    && forall t | t in Tokens(env[n].value) :: LocallyOk(cx, env, t)
  }

  /** n and everything it refers to, directly or not, is healthy. */
  ghost predicate Sound(cx: Context, env: Env, n: string) {
    forall m | Reaches(RefersRel(env), n, m) :: Healthy(cx, env, m)
  }

  lemma SoundReference(cx: Context, env: Env, n: string, b: string)
    requires Sound(cx, env, n) && RefersTo(env, n, b)
    ensures Sound(cx, env, b)
  {
    forall m | Reaches(RefersRel(env), b, m)
      ensures Healthy(cx, env, m)
    {
      EdgeThenReaches(RefersRel(env), n, b, m);
    }
  }

  lemma {:induction false} SoundExpands(cx: Context, env: Env, n: string, path: set<string>)
    requires Sound(cx, env, n) && n in env && env[n].Some?
    requires forall x | x in path :: ReachesPlus(RefersRel(env), x, n)
    ensures EvalEnv(cx, env, n, path).Ok?
    decreases |env.Keys - path|, 0
  {
    ReachesSelf(RefersRel(env), n);
    PathShrinks(env.Keys, n, path);
    SoundExpandsText(cx, env, n, Tokens(env[n].value), path + {n});
  }

  lemma {:induction false} SoundExpandsText(cx: Context, env: Env, n: string, tokens: seq<Token>, path: set<string>)
    requires Sound(cx, env, n) && n in env && env[n].Some?
    requires forall t | t in tokens :: t in Tokens(env[n].value)
    requires forall x | x in path :: x == n || ReachesPlus(RefersRel(env), x, n)
    ensures Eval(cx, env, tokens, path).Ok?
    decreases |env.Keys - path|, 1 + |tokens|
  {
    if tokens != [] {
      ReachesSelf(RefersRel(env), n);
      assert LocallyOk(cx, env, tokens[0]);
      if tokens[0].Macro? && IsReference(env, tokens[0].macroNamespace, tokens[0].macroName) {
        var b := tokens[0].macroName;
        SoundReference(cx, env, n, b);
        forall x | x in path
          ensures ReachesPlus(RefersRel(env), x, b)
        {
          if x == n {
            ReachesSelf(RefersRel(env), b);
          } else {
            var m :| RefersTo(env, x, m) && Reaches(RefersRel(env), m, n);
            ReachesThenEdge(RefersRel(env), m, n, b);
          }
        }
        SoundExpands(cx, env, b, path);
      }
      SoundExpandsText(cx, env, n, tokens[1..], path);
    }
  }

  /** A variable expands exactly when it is sound. */
  lemma ExpandsWhenSound(cx: Context, env: Env, n: string)
    requires n in env && env[n].Some?
    ensures EvalEnv(cx, env, n, {}).Ok? <==> Sound(cx, env, n)
  {
    if EvalEnv(cx, env, n, {}).Ok? {
      forall m | Reaches(RefersRel(env), n, m)
        ensures Healthy(cx, env, m)
      {
        var p :| IsPath(RefersRel(env), p, n, m);
        ExpandsAlong(cx, env, p, |p| - 1);
        FewerInProgress(cx, env, m, set i | 0 <= i < |p| - 1 :: p[i], {});
        if ReachesPlus(RefersRel(env), m, m) { CycleFails(cx, env, m); }
        forall t | t in Tokens(env[m].value)
          ensures LocallyOk(cx, env, t)
        {
          TokenIsOk(cx, env, Tokens(env[m].value), t, {} + {m});
        }
      }
    }
    if Sound(cx, env, n) { SoundExpands(cx, env, n, {}); }
  }

  /** A token that expands: locally in order and, if it is a reference, to a sound variable. */
  ghost predicate Passes(cx: Context, env: Env, t: Token) {
    && LocallyOk(cx, env, t)
    && (t.Macro? && IsReference(env, t.macroNamespace, t.macroName) ==> Sound(cx, env, t.macroName))
  }

  predicate IsVendor(t: Token) {
    t.Macro? && t.macroNamespace == "vendor"
  }

  /** Some token is a vendor macro, and every token before it passes. */
  ghost predicate IgnoredText(cx: Context, env: Env, tokens: seq<Token>) {
    exists k :: 0 <= k < |tokens| && IsVendor(tokens[k]) && forall j | 0 <= j < k :: Passes(cx, env, tokens[j])
  }

  ghost predicate Ignored(cx: Context, env: Env, n: string)
    requires n in env && env[n].Some?
  {
    IgnoredText(cx, env, Tokens(env[n].value))
  }

  /** The first token decides, or leaves the decision to the others. */
  lemma IgnoredFirst(cx: Context, env: Env, tokens: seq<Token>)
    requires tokens != []
    ensures IgnoredText(cx, env, tokens) <==>
            IsVendor(tokens[0]) || (Passes(cx, env, tokens[0]) && IgnoredText(cx, env, tokens[1..]))
  {
    var rest := tokens[1..];
    if k :| 0 <= k < |tokens| && IsVendor(tokens[k]) && forall j | 0 <= j < k :: Passes(cx, env, tokens[j]) {
      if k > 0 {
        assert rest[k - 1] == tokens[k] && forall j | 0 <= j < k - 1 :: rest[j] == tokens[j + 1];
      }
    }
    if k :| 0 <= k < |rest| && IsVendor(rest[k]) && forall j | 0 <= j < k :: Passes(cx, env, rest[j]) {
      assert tokens[k + 1] == rest[k] && forall j | 1 <= j < k + 1 :: tokens[j] == rest[j - 1];
    }
  }

  /** What one macro of n's text evaluates to while n alone is in progress. */
  lemma MacroVerdict(cx: Context, env: Env, n: string, t: Token)
    requires n in env && env[n].Some? && t in Tokens(env[n].value) && t.Macro?
    ensures var e := EvalMacro(cx, env, t.macroNamespace, t.macroName, {n});
            (e.Ok? <==> Passes(cx, env, t)) && (e == Ignore <==> IsVendor(t))
  {
    if IsReference(env, t.macroNamespace, t.macroName) {
      var b := t.macroName;
      assert RefersTo(env, n, b);
      ExpandsWhenSound(cx, env, b);
      if EvalEnv(cx, env, b, {n}).Ok? { FewerInProgress(cx, env, b, {n}, {}); }
      if Sound(cx, env, b) {
        ReachesSelf(RefersRel(env), b);
        SoundExpands(cx, env, b, {n});
      }
    }
  }

  lemma {:induction false} IgnoredVerdict(cx: Context, env: Env, n: string, tokens: seq<Token>)
    requires n in env && env[n].Some? && forall t | t in tokens :: t in Tokens(env[n].value)
    ensures Eval(cx, env, tokens, {n}) == Ignore <==> IgnoredText(cx, env, tokens)
  {
    if tokens != [] {
      if tokens[0].Macro? { MacroVerdict(cx, env, n, tokens[0]); }
      IgnoredVerdict(cx, env, n, tokens[1..]);
      IgnoredFirst(cx, env, tokens);
    }
  }

  /**
    The verdict on one variable, from its text and the texts it refers to alone:
    it expands when it is sound, is ignored when a vendor macro comes before
    anything else that fails, and is an error otherwise.
   */
  lemma VariableVerdict(cx: Context, env: Env, n: string)
    requires n in env && env[n].Some?
    ensures EvalEnv(cx, env, n, {}).Ok? <==> Sound(cx, env, n)
    ensures EvalEnv(cx, env, n, {}) == Ignore <==> Ignored(cx, env, n)
    ensures EvalEnv(cx, env, n, {}) == Error <==> !Sound(cx, env, n) && !Ignored(cx, env, n)
  {
    ExpandsWhenSound(cx, env, n);
    assert {} + {n} == {n};
    IgnoredVerdict(cx, env, n, Tokens(env[n].value));
  }

  /**
    When the expansion of an environment succeeds: exactly when no variable is on
    a cycle of references and every macro is terminated and, if it is not a
    reference, known and supported.
   */
  lemma EnvironmentVerdict(cx: Context, env: Env)
    ensures (forall n | n in env && env[n].Some? :: EvalEnv(cx, env, n, {}).Ok?)
            <==> (forall n | n in env && env[n].Some? :: Healthy(cx, env, n))
  {
    forall n | n in env && env[n].Some?
      ensures EvalEnv(cx, env, n, {}).Ok? <==> Sound(cx, env, n)
      ensures Sound(cx, env, n) ==> Healthy(cx, env, n)
    {
      ExpandsWhenSound(cx, env, n);
      ReachesSelf(RefersRel(env), n);
    }
    if forall n | n in env && env[n].Some? :: Healthy(cx, env, n) {
      forall n, m | n in env && env[n].Some? && Reaches(RefersRel(env), n, m)
        ensures Healthy(cx, env, m)
      {
        ClosedUnderReach(RefersRel(env), (iset x | x in env && env[x].Some?), n, m);
      }
    }
  }

  // ---------------------------------------------- the verdict and map order

  /** The first variable that does not expand decides, by its own kind of failure. */
  lemma {:induction false} FirstFailureIs(cx: Context, env: Env, order: seq<string>)
    requires forall n | n in order :: n in env
    ensures var e := FirstFailure(cx, env, order);
      if e.Ok? then e.text == "" && forall n | n in order && env[n].Some? :: EvalEnv(cx, env, n, {}).Ok?
      else exists n :: n in order && env[n].Some? && EvalEnv(cx, env, n, {}) == e
  {
    if order != [] {
      FirstFailureIs(cx, env, order[1..]);
      assert forall n :: n in order <==> n == order[0] || n in order[1..];
    }
  }

  /** Every key of the map, once each. */
  ghost predicate Lists(order: seq<string>, env: Env) {
    && (forall n :: n in order <==> n in env)
    && (forall i, j | 0 <= i < j < |order| :: order[i] != order[j])
  }

  lemma {:induction false} SomeOrder(keys: set<string>) returns (order: seq<string>)
    ensures forall n :: n in order <==> n in keys
    ensures forall i, j | 0 <= i < j < |order| :: order[i] != order[j]
    decreases |keys|
  {
    if keys == {} {
      order := [];
    } else {
      var n :| n in keys;
      order := SomeOrder(keys - {n});
      order := [n] + order;
    }
  }

  /** Any key can be the first of an order. */
  lemma FirstInOrder(env: Env, n: string) returns (order: seq<string>)
    requires n in env
    ensures Lists(order, env) && order[0] == n
  {
    order := SomeOrder(env.Keys - {n});
    order := [n] + order;
  }

  /** One variable would be ignored and another one is an error. */
  ghost predicate MixedFailures(cx: Context, env: Env) {
    && (exists n :: n in env && env[n].Some? && Ignored(cx, env, n))
    && (exists n :: n in env && env[n].Some? && !Sound(cx, env, n) && !Ignored(cx, env, n))
  }

  lemma MixedOrders(cx: Context, env: Env)
    requires MixedFailures(cx, env)
    ensures exists o1: seq<string>, o2: seq<string> :: Lists(o1, env) && Lists(o2, env)
              && FirstFailure(cx, env, o1) != FirstFailure(cx, env, o2)
  {
    var a :| a in env && env[a].Some? && Ignored(cx, env, a);
    var b :| b in env && env[b].Some? && !Sound(cx, env, b) && !Ignored(cx, env, b);
    VariableVerdict(cx, env, a);
    VariableVerdict(cx, env, b);
    var o1 := FirstInOrder(env, a);
    var o2 := FirstInOrder(env, b);
    assert FirstFailure(cx, env, o1) == Ignore && FirstFailure(cx, env, o2) == Error;
  }

  lemma AgreeingOrders(cx: Context, env: Env, o1: seq<string>, o2: seq<string>)
    requires Lists(o1, env) && Lists(o2, env) && !MixedFailures(cx, env)
    ensures FirstFailure(cx, env, o1) == FirstFailure(cx, env, o2)
  {
    FirstFailureIs(cx, env, o1);
    FirstFailureIs(cx, env, o2);
    forall n | n in env && env[n].Some?
      ensures EvalEnv(cx, env, n, {}) == Ignore <==> Ignored(cx, env, n)
      ensures EvalEnv(cx, env, n, {}) == Error <==> !Sound(cx, env, n) && !Ignored(cx, env, n)
    {
      VariableVerdict(cx, env, n);
    }
  }

  /**
    Success and the final values never depend on the order of the map; whether a
    failing environment is an error or is ignored does, exactly when one variable
    has a vendor macro before anything else that fails, and another one fails
    without that.
   */
  lemma VerdictOrder(cx: Context, env: Env)
    ensures (forall o1: seq<string>, o2: seq<string> | Lists(o1, env) && Lists(o2, env) ::
               FirstFailure(cx, env, o1) == FirstFailure(cx, env, o2))
            <==> !MixedFailures(cx, env)
  {
    if MixedFailures(cx, env) {
      MixedOrders(cx, env);
    } else {
      forall o1: seq<string>, o2: seq<string> | Lists(o1, env) && Lists(o2, env)
        ensures FirstFailure(cx, env, o1) == FirstFailure(cx, env, o2)
      {
        AgreeingOrders(cx, env, o1, o2);
      }
    }
  }

  /** Names do not contain the closing brace: the lexer reads them to the brace. */
  lemma {:induction false} LexName(ns: string, name: string, a: string, rest: string)
    requires '}' !in a
    ensures Lex(Scanner(MacroName, ns, name), a + "}" + rest) == [Macro(ns, name + a)] + Lex(START, rest)
    decreases |a|
  {
    var t := a + "}" + rest;
    if a == "" {
      assert t[0] == '}' && t[1..] == rest;
      assert name + a == name;
    } else {
      assert t[0] == a[0] && t[1..] == a[1..] + "}" + rest;
      LexName(ns, name + [a[0]], a[1..], rest);
      assert name + [a[0]] + a[1..] == name + a;
    }
  }

  lemma SingleMacro(cx: Context, env: Env, n: string, ns: string, name: string, path: set<string>)
    requires n in env && n !in path && env[n] == Some("$" + ns + "{" + name + "}" + "")
    requires IsValidMacroNamespace(ns) && '}' !in name
    ensures EvalEnv(cx, env, n, path) == EvalMacro(cx, env, ns, name, path + {n})
  {
    LexMacro(ns, name, "");
    var e := EvalMacro(cx, env, ns, name, path + {n});
    assert Tokens("") == [];
    assert Tokens(env[n].value) == [Macro(ns, name)];
    assert [Macro(ns, name)][1..] == [];
    assert Eval(cx, env, [], path + {n}) == Ok("");
    if e.Ok? {
      assert e.text + "" == e.text;
    }
  }

  /** A reference to an ignored variable is an error, so the variable that comes first decides. */
  lemma MixedFailuresHappen(cx: Context)
    ensures var env: Env := map["A" := Some("$env{B}"), "B" := Some("$vendor{x}")];
            && Lists(["A", "B"], env) && Lists(["B", "A"], env)
            && FirstFailure(cx, env, ["A", "B"]) == Error && FirstFailure(cx, env, ["B", "A"]) == Ignore
  {
    var env: Env := map["A" := Some("$env{B}"), "B" := Some("$vendor{x}")];
    assert "$env{B}" == "$" + "env" + "{" + "B" + "}" + "";
    assert "$vendor{x}" == "$" + "vendor" + "{" + "x" + "}" + "";
    assert VALID_PREFIXES[1] == "env" && VALID_PREFIXES[3] == "vendor";
    SingleMacro(cx, env, "B", "vendor", "x", {});
    SingleMacro(cx, env, "B", "vendor", "x", {} + {"A"});
    SingleMacro(cx, env, "A", "env", "B", {});
  }

  /** A macro in a valid namespace is one token. */
  lemma LexMacro(ns: string, name: string, rest: string)
    requires IsValidMacroNamespace(ns) && '}' !in name
    ensures Tokens("$" + ns + "{" + name + "}" + rest) == [Macro(ns, name)] + Tokens(rest)
  {
    var tail := name + "}" + rest;
    var t := "$" + ns + "{" + name + "}" + rest;
    assert t[0] == '$' && t[1..] == ns + "{" + tail;
    assert "" + ns == ns;
    LexNamespace("", ns, tail);
    LexName(ns, "", name, rest);
    assert "" + name == name;
  }

  lemma {:induction false} LexNamespace(before: string, ns: string, tail: string)
    requires IsValidMacroNamespace(before + ns)
    ensures Lex(Scanner(MacroNamespace, before, ""), ns + "{" + tail)
            == Lex(Scanner(MacroName, before + ns, ""), tail)
    decreases |ns|
  {
    var t := ns + "{" + tail;
    if ns == "" {
      assert t[0] == '{' && t[1..] == tail && before + ns == before;
    } else {
      assert t[0] == ns[0] && t[1..] == ns[1..] + "{" + tail;
      assert before + [ns[0]] + ns[1..] == before + ns;
      var k :| 0 <= k < |VALID_PREFIXES| && VALID_PREFIXES[k] == before + ns;
      assert ns[0] == VALID_PREFIXES[k][|before|];
      assert k == 0 || k == 1 || k == 2 || k == 3;
      assert IsPrefix(before + [ns[0]], VALID_PREFIXES[k]);
      LexNamespace(before + [ns[0]], ns[1..], tail);
    }
  }

  // ------------------------------------------------------------ escaping dollars

  /** Every dollar replaced by the macro that stands for one. */
  function EscapeDollars(s: string): string {
    if s == "" then ""
    else (if s[0] == '$' then "${dollar}" else [s[0]]) + EscapeDollars(s[1..])
  }

  /** A literal character in front is a literal in front of the expansion. */
  lemma EvalCharacter(cx: Context, env: Env, c: char, rest: string, path: set<string>)
    requires c != '$'
    ensures Eval(cx, env, Tokens([c] + rest), path) == Append([c], Eval(cx, env, Tokens(rest), path))
  {
    assert ([c] + rest)[1..] == rest;
    assert Tokens([c] + rest)[1..] == Tokens(rest);
  }

  lemma EvalDollar(cx: Context, env: Env, rest: string, path: set<string>)
    ensures Eval(cx, env, Tokens("${dollar}" + rest), path) == Append("$", Eval(cx, env, Tokens(rest), path))
  {
    LexMacro("", "dollar", rest);
    assert "${dollar}" + rest == "$" + "" + "{" + "dollar" + "}" + rest;
    assert Tokens("${dollar}" + rest)[1..] == Tokens(rest);
  }

  /** Escaping the dollars and expanding gives the text back, for every text. */
  lemma {:induction false} EscapeRoundTrip(cx: Context, env: Env, s: string, path: set<string>)
    ensures Eval(cx, env, Tokens(EscapeDollars(s)), path) == Ok(s)
  {
    if s != "" {
      EscapeRoundTrip(cx, env, s[1..], path);
      if s[0] == '$' {
        EvalDollar(cx, env, EscapeDollars(s[1..]), path);
      } else {
        EvalCharacter(cx, env, s[0], EscapeDollars(s[1..]), path);
      }
      assert [s[0]] + s[1..] == s;
    }
  }

  /** A text without dollars expands to itself. */
  lemma {:induction false} NoDollarFixedPoint(cx: Context, env: Env, s: string, path: set<string>)
    requires '$' !in s
    ensures Eval(cx, env, Tokens(s), path) == Ok(s)
  {
    if s != "" {
      NoDollarFixedPoint(cx, env, s[1..], path);
      assert [s[0]] + s[1..] == s;
      EvalCharacter(cx, env, s[0], s[1..], path);
    }
  }
}
