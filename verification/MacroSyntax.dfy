/**
  What the documentation says of macros, against the scanner and the expanders:
  which texts are macros, and what each macro stands for.
 */
module MacroSyntax {
  import opened MacroExpansion
  import opened Options
  import opened Paths
  import opened Sequences

  // ------------------------------------------------------- which texts are macros

  predicate IsNamespace(p: string) {
    p == "" || p == "env" || p == "penv" || p == "vendor"
  }

  /** The characters in front of the first c. */
  function Before(t: string, c: char): (r: string)
    ensures |r| <= |t| && t[..|r|] == r && c !in r && (|r| < |t| ==> t[|r|] == c)
  {
    if t == "" || t[0] == c then "" else [t[0]] + Before(t[1..], c)
  }

  /** The text begins with a dollar, a possible namespace and an opening brace. */
  predicate Opens(t: string) {
    t != "" && t[0] == '$' && |Before(t[1..], '{')| < |t| - 1 && IsNamespace(Before(t[1..], '{'))
  }

  /**
    The tokens as documented: a dollar with a namespace and an opening brace begins a
    macro, whose name ends at the closing brace; without one it is an error; every
    other dollar is a literal one.
   */
  function Documented(t: string): seq<Token>
    decreases |t|
  {
    if t == "" then []
    else if !Opens(t) then [Literal([t[0]])] + Documented(t[1..])
    else
      var ns := Before(t[1..], '{');
      var rest := t[|ns| + 2..];
      var name := Before(rest, '}');
      if |name| < |rest| then [Macro(ns, name)] + Documented(rest[|name| + 1..]) else [Unterminated(ns, name)]
  }

  /** Literals character by character. */
  function Characters(s: string): seq<Token> {
    if s == "" then [] else [Literal([s[0]])] + Characters(s[1..])
  }

  function Spread(tokens: seq<Token>): seq<Token> {
    if tokens == [] then []
    else (if tokens[0].Literal? then Characters(tokens[0].text) else [tokens[0]]) + Spread(tokens[1..])
  }

  /** Spreading literals changes no expansion. */
  lemma {:induction false} SpreadExpands(cx: Context, env: Env, tokens: seq<Token>, path: set<string>)
    ensures Eval(cx, env, Spread(tokens), path) == Eval(cx, env, tokens, path)
  {
    if tokens != [] {
      SpreadExpands(cx, env, tokens[1..], path);
      if tokens[0].Literal? {
        CharactersExpand(cx, env, tokens[0].text, Spread(tokens[1..]), path);
      } else {
        assert Spread(tokens)[1..] == Spread(tokens[1..]);
      }
    }
  }

  lemma LiteralInFront(cx: Context, env: Env, s: string, rest: seq<Token>, path: set<string>)
    ensures Eval(cx, env, [Literal(s)] + rest, path) == Append(s, Eval(cx, env, rest, path))
  {
    assert ([Literal(s)] + rest)[1..] == rest;
  }

  lemma {:induction false} CharactersExpand(cx: Context, env: Env, s: string, rest: seq<Token>, path: set<string>)
    ensures Eval(cx, env, Characters(s) + rest, path) == Append(s, Eval(cx, env, rest, path))
  {
    var e := Eval(cx, env, rest, path);
    if s == "" {
      assert Characters(s) + rest == rest;
      AppendTwice("", "", e);
    } else {
      var more := Characters(s[1..]) + rest;
      CharactersExpand(cx, env, s[1..], rest, path);
      Assoc([Literal([s[0]])], Characters(s[1..]), rest);
      LiteralInFront(cx, env, [s[0]], more, path);
      AppendTwice([s[0]], s[1..], e);
      assert [s[0]] + s[1..] == s;
    }
  }

  // ------------------------------------------------------ what the scanner does

  /** The beginnings of namespaces. */
  ghost predicate Begins(p: string) {
    exists ns :: IsNamespace(ns) && p <= ns
  }

  lemma Namespaces(p: string)
    ensures PrefixesValidMacroNamespace(p) <==> Begins(p)
    ensures IsValidMacroNamespace(p) <==> IsNamespace(p)
  {
    assert VALID_PREFIXES[0] == "" && VALID_PREFIXES[1] == "env";
    assert VALID_PREFIXES[2] == "penv" && VALID_PREFIXES[3] == "vendor";
    if PrefixesValidMacroNamespace(p) {
      var k :| 0 <= k < |VALID_PREFIXES| && IsPrefix(p, VALID_PREFIXES[k]);
      assert k == 0 || k == 1 || k == 2 || k == 3;
      assert IsNamespace(VALID_PREFIXES[k]);
    }
    if ns :| IsNamespace(ns) && p <= ns {
      assert IsPrefix(p, ns);
    }
  }

  /** How p can be extended to the longest beginning of a namespace. */
  ghost function Beginning(p: string, t: string): (q: string)
    ensures |q| <= |t|
    decreases |t|
  {
    if t == "" || !Begins(p + [t[0]]) then "" else [t[0]] + Beginning(p + [t[0]], t[1..])
  }

  lemma {:induction false} BeginningIs(p: string, t: string)
    requires Begins(p)
    ensures var q := Beginning(p, t);
            t[..|q|] == q && Begins(p + q) && (|q| < |t| ==> !Begins(p + q + [t[|q|]]))
    decreases |t|
  {
    if t == "" || !Begins(p + [t[0]]) {
      assert p + "" == p;
    } else {
      var c, r := t[0], t[1..];
      BeginningIs(p + [c], r);
      var q := Beginning(p + [c], r);
      Assoc(p, [c], q);
      assert t[..|q| + 1] == [c] + r[..|q|];
      assert |q| < |r| ==> t[|q| + 1] == r[|q|];
    }
  }

  /** What the text goes on with before it is clear whether it is a namespace. */
  ghost function Attempt(t: string): (q: string)
    ensures |q| <= |t| && t[..|q|] == q && Begins(q)
    ensures |q| < |t| ==> !Begins(q + [t[|q|]])
  {
    NothingBegins();
    var q := Beginning("", t);
    BeginningIs("", t);
    assert "" + q == q;
    q
  }

  lemma NothingBegins()
    ensures Begins("")
  {
    assert IsNamespace("");
  }

  /** The scanner goes through the beginning of a namespace. */
  lemma {:induction false} ScanBeginning(p: string, q: string, u: string)
    requires Begins(p + q)
    ensures Lex(Scanner(MacroNamespace, p, ""), q + u) == Lex(Scanner(MacroNamespace, p + q, ""), u)
    decreases |q|
  {
    if q == "" {
      assert q + u == u && p + q == p;
    } else {
      var c, r := q[0], q[1..];
      assert q == [c] + r;
      Assoc(p, [c], r);
      Assoc([c], r, u);
      LetterBegins(p, c, r);
      ScanLetter(p, c, r + u);
      ScanBeginning(p + [c], r, u);
    }
  }

  lemma LetterBegins(p: string, c: char, r: string)
    requires Begins(p + [c] + r)
    ensures Begins(p + [c]) && c != '{'
  {
    BeginsBefore(p + [c], r);
    assert (p + [c])[|p|] == c;
  }

  lemma ScanLetter(p: string, c: char, u: string)
    requires Begins(p + [c]) && c != '{'
    ensures Lex(Scanner(MacroNamespace, p, ""), [c] + u) == Lex(Scanner(MacroNamespace, p + [c], ""), u)
  {
    Namespaces(p + [c]);
    assert ([c] + u)[1..] == u;
  }

  lemma BeginsBefore(p: string, q: string)
    requires Begins(p + q)
    ensures Begins(p) && forall k | 0 <= k < |p| :: p[k] !in {'$', '{', '}'}
  {
    var ns :| IsNamespace(ns) && p + q <= ns;
    assert (p + q)[..|p|] == p && p <= ns;
    assert forall k | 0 <= k < |ns| :: ns[k] !in {'$', '{', '}'};
  }

  lemma {:induction false} BeforeBrace(ns: string, rest: string)
    requires '{' !in ns
    ensures Before(ns + "{" + rest, '{') == ns
  {
    if ns != "" {
      BeforeBrace(ns[1..], rest);
      assert (ns + "{" + rest)[1..] == ns[1..] + "{" + rest;
    }
  }

  lemma MacroOpens(ns: string, rest: string)
    requires IsNamespace(ns)
    ensures Opens("$" + ns + "{" + rest)
  {
    BeforeBrace(ns, rest);
    assert ("$" + ns + "{" + rest)[1..] == ns + "{" + rest;
  }

  lemma OpeningText(t: string)
    requires Opens(t)
    ensures var ns := Before(t[1..], '{'); |ns| + 2 <= |t| && t == "$" + ns + "{" + t[|ns| + 2..]
  {
    var ns := Before(t[1..], '{');
    assert t == [t[0]] + t[1..] && t[1..] == ns + t[1..][|ns|..] && t[1..][|ns|..] == ['{'] + t[|ns| + 2..];
  }

  /** A macro that is closed is one token, one that is not ends the text. */
  lemma ScanMacro(ns: string, rest: string)
    requires IsNamespace(ns)
    ensures var name := Before(rest, '}');
            Tokens("$" + ns + "{" + rest) ==
            if |name| < |rest| then [Macro(ns, name)] + Tokens(rest[|name| + 1..]) else [Unterminated(ns, name)]
  {
    var name := Before(rest, '}');
    Namespaces(ns);
    if |name| < |rest| {
      ScanClosed(ns, name, rest[|name| + 1..]);
      assert rest == name + "}" + rest[|name| + 1..];
    } else {
      assert name == rest;
      ScanOpening(ns, rest);
      ScanName(ns, "", rest);
      assert "" + rest == rest;
    }
  }

  lemma ScanClosed(ns: string, name: string, more: string)
    requires IsValidMacroNamespace(ns) && '}' !in name
    ensures Tokens("$" + ns + "{" + (name + "}" + more)) == [Macro(ns, name)] + Tokens(more)
  {
    LexMacro(ns, name, more);
    assert "$" + ns + "{" + (name + "}" + more) == "$" + ns + "{" + name + "}" + more;
  }

  lemma ScanOpening(ns: string, rest: string)
    requires IsValidMacroNamespace(ns)
    ensures Tokens("$" + ns + "{" + rest) == Lex(Scanner(MacroName, ns, ""), rest)
  {
    var t := "$" + ns + "{" + rest;
    assert t[0] == '$' && t[1..] == ns + "{" + rest;
    assert "" + ns == ns;
    LexNamespace("", ns, rest);
  }

  lemma {:induction false} ScanName(ns: string, name: string, rest: string)
    requires '}' !in rest
    ensures Lex(Scanner(MacroName, ns, name), rest) == [Unterminated(ns, name + rest)]
    decreases |rest|
  {
    if rest == "" {
      assert name + rest == name;
    } else {
      ScanName(ns, name + [rest[0]], rest[1..]);
      assert name + [rest[0]] + rest[1..] == name + rest;
    }
  }

  /**
    A dollar that begins no macro is kept, together with what follows it up to the
    first character that rules a macro out.
   */
  lemma ScanDollar(p: string, u: string)
    requires Begins(p) && (u != "" ==> !Begins(p + [u[0]])) && !Opens("$" + p + u)
    ensures Tokens("$" + p + u) ==
            if u == "" then [Literal("$" + p)] else [Literal("$" + p + [u[0]])] + Tokens(u[1..])
  {
    assert "$" + p + u == "$" + (p + u) && "" + p == p;
    AfterDollar(p + u);
    ScanBeginning("", p, u);
    if u == "" {
      ScanNothing(p);
    } else {
      if u[0] == '{' { BraceAfter(p, u[1..]); }
      assert u == [u[0]] + u[1..];
      ScanEnd(p, u);
    }
  }

  lemma AfterDollar(x: string)
    ensures Tokens("$" + x) == Lex(Scanner(MacroNamespace, "", ""), x)
  {
    assert ("$" + x)[0] == '$' && ("$" + x)[1..] == x;
  }

  lemma ScanNothing(p: string)
    ensures Lex(Scanner(MacroNamespace, p, ""), "") == [Literal("$" + p)]
  {
  }

  lemma BraceAfter(p: string, rest: string)
    ensures !Opens("$" + p + (['{'] + rest)) ==> !IsNamespace(p)
  {
    if IsNamespace(p) {
      MacroOpens(p, rest);
      assert "$" + p + (['{'] + rest) == "$" + p + "{" + rest;
    }
  }

  lemma ScanEnd(p: string, u: string)
    requires u != "" && !Begins(p + [u[0]]) && (u[0] == '{' ==> !IsNamespace(p))
    ensures Lex(Scanner(MacroNamespace, p, ""), u) == [Literal("$" + p + [u[0]])] + Tokens(u[1..])
  {
    Namespaces(p);
    Namespaces(p + [u[0]]);
  }

  // --------------------------------------------------- where the two disagree

  /**
    A dollar that begins a macro is skipped: it is the character at which the scanner
    gives up a macro that another dollar seemed to begin.
   */
  ghost predicate Skips(t: string)
    decreases |t|
  {
    if t == "" then false
    else if Opens(t) then
      var rest := t[|Before(t[1..], '{')| + 2..];
      var name := Before(rest, '}');
      |name| < |rest| && Skips(rest[|name| + 1..])
    else if t[0] != '$' then Skips(t[1..])
    else
      var n := |Attempt(t[1..])| + 1;
      n < |t| && (Opens(t[n..]) || Skips(t[n + 1..]))
  }

  lemma {:induction false} DocumentedLiterals(s: string, u: string)
    requires forall k | 0 <= k < |s| :: s[k] != '$'
    ensures Documented(s + u) == Characters(s) + Documented(u)
  {
    if s == "" {
      assert s + u == u;
    } else {
      assert (s + u)[1..] == s[1..] + u;
      assert !Opens(s + u);
      DocumentedLiterals(s[1..], u);
    }
  }

  lemma {:induction false} CharactersAppend(a: string, b: string)
    ensures Characters(a + b) == Characters(a) + Characters(b)
  {
    if a == "" {
      assert a + b == b;
    } else {
      CharactersAppend(a[1..], b);
      assert (a + b)[1..] == a[1..] + b;
    }
  }

  lemma SpreadFirst(token: Token, rest: seq<Token>)
    ensures Spread([token] + rest) == (if token.Literal? then Characters(token.text) else [token]) + Spread(rest)
  {
    assert ([token] + rest)[1..] == rest;
  }

  lemma SameBehind<T>(front: seq<T>, a: seq<T>, b: seq<T>)
    ensures front + a == front + b <==> a == b
  {
    if front + a == front + b {
      assert (front + a)[|front|..] == a && (front + b)[|front|..] == b;
    }
  }

  /** The scanner's tokens are the documented ones exactly when no dollar that begins a macro is skipped. */
  lemma {:induction false} ScannedAsDocumented(t: string)
    ensures Spread(Tokens(t)) == Documented(t) <==> !Skips(t)
    decreases |t|, 1
  {
    if t == "" {
    } else if Opens(t) {
      MacroAsDocumented(t);
    } else if t[0] != '$' {
      ScannedAsDocumented(t[1..]);
      assert Characters([t[0]]) == [Literal([t[0]])] + Characters("") by { assert [t[0]][1..] == ""; }
      SpreadFirst(Literal([t[0]]), Tokens(t[1..]));
      SameBehind([Literal([t[0]])], Spread(Tokens(t[1..])), Documented(t[1..]));
    } else {
      DollarAsDocumented(t);
    }
  }

  lemma {:induction false} MacroAsDocumented(t: string)
    requires Opens(t)
    ensures Spread(Tokens(t)) == Documented(t) <==> !Skips(t)
    decreases |t|, 0
  {
    OpeningText(t);
    var ns := Before(t[1..], '{');
    var rest := t[|ns| + 2..];
    var name := Before(rest, '}');
    ScanMacro(ns, rest);
    if |name| < |rest| {
      var more := rest[|name| + 1..];
      ScannedAsDocumented(more);
      SpreadFirst(Macro(ns, name), Tokens(more));
      SameBehind([Macro(ns, name)], Spread(Tokens(more)), Documented(more));
    } else {
      SpreadFirst(Unterminated(ns, name), []);
    }
  }

  lemma {:induction false} DollarAsDocumented(t: string)
    requires t != "" && t[0] == '$' && !Opens(t)
    ensures Spread(Tokens(t)) == Documented(t) <==> !Skips(t)
    decreases |t|, 0
  {
    var p := Attempt(t[1..]);
    var u := t[|p| + 1..];
    assert t == "$" + p + u;
    ScanDollar(p, u);
    DocumentedFront(p, u);
    if u == "" {
      SpreadFirst(Literal("$" + p), []);
    } else {
      assert u[1..] == t[|p| + 2..];
      ScannedAsDocumented(u[1..]);
      FrontsAgree("$" + p, u);
    }
  }

  /** Behind the same characters: the scanner takes one more as a literal. */
  lemma FrontsAgree(front: string, u: string)
    requires u != ""
    ensures Spread([Literal(front + [u[0]])] + Tokens(u[1..])) == Characters(front) + Documented(u) <==>
            !Opens(u) && Spread(Tokens(u[1..])) == Documented(u[1..])
  {
    var c, more := u[0], Spread(Tokens(u[1..]));
    SpreadFirst(Literal(front + [c]), Tokens(u[1..]));
    CharactersAppend(front, [c]);
    assert Characters([c]) == [Literal([c])] by { assert [c][1..] == ""; }
    Assoc(Characters(front), [Literal([c])], more);
    SameBehind(Characters(front), [Literal([c])] + more, Documented(u));
    if Opens(u) {
      assert !Documented(u)[0].Literal?;
    } else {
      SameBehind([Literal([c])], more, Documented(u[1..]));
    }
  }

  lemma DocumentedFront(p: string, u: string)
    requires Begins(p) && !Opens("$" + p + u)
    ensures Documented("$" + p + u) == Characters("$" + p) + Documented(u)
  {
    var t := "$" + p + u;
    assert t[0] == '$' && t[1..] == p + u && p + "" == p;
    BeginsBefore(p, "");
    DocumentedLiterals(p, u);
    assert ("$" + p)[1..] == p;
    Assoc([Literal("$")], Characters(p), Documented(u));
  }

  /** A text in which no such dollar is skipped expands as documented. */
  lemma ExpandsAsDocumented(cx: Context, env: Env, t: string, path: set<string>)
    requires !Skips(t)
    ensures Eval(cx, env, Tokens(t), path) == Eval(cx, env, Documented(t), path)
  {
    ScannedAsDocumented(t);
    SpreadExpands(cx, env, Tokens(t), path);
  }

  // ------------------------------------------------------ what macros stand for

  ghost function Expand(cx: Context, env: Env, t: string, path: set<string>): Expansion {
    Eval(cx, env, Tokens(t), path)
  }

  lemma OneMacro(cx: Context, env: Env, ns: string, name: string, path: set<string>)
    requires IsNamespace(ns) && '}' !in name
    ensures Expand(cx, env, "$" + ns + "{" + name + "}", path) == EvalMacro(cx, env, ns, name, path)
  {
    Namespaces(ns);
    LexMacro(ns, name, "");
    assert "$" + ns + "{" + name + "}" + "" == "$" + ns + "{" + name + "}";
    assert Tokens("") == [];
    assert Tokens("$" + ns + "{" + name + "}") == [Macro(ns, name)];
    LoneMacro(cx, env, ns, name, path);
  }

  lemma LoneMacro(cx: Context, env: Env, ns: string, name: string, path: set<string>)
    ensures Eval(cx, env, [Macro(ns, name)], path) == EvalMacro(cx, env, ns, name, path)
  {
    var e, tokens := EvalMacro(cx, env, ns, name, path), [Macro(ns, name)];
    assert tokens[1..] == [];
    assert Eval(cx, env, [], path) == Ok("");
    if e.Ok? { assert e.text + "" == e.text; }
  }

  lemma Bare(cx: Context, env: Env, name: string, path: set<string>)
    requires '}' !in name
    ensures Expand(cx, env, "${" + name + "}", path) == PlainMacro(cx, "", name)
  {
    OneMacro(cx, env, "", name, path);
    assert "$" + "" + "{" + name + "}" == "${" + name + "}";
    assert !IsReference(env, "", name);
  }

  // The macros of the project.

  lemma SpellSourceDir()
    ensures "${sourceDir}" == "${" + "sourceDir" + "}"
  {
  }

  lemma PlainSourceDir(cx: Context)
    ensures PlainMacro(cx, "", "sourceDir") == Ok(cx.sourceDir)
  {
  }

  lemma SourceDirMacro(cx: Context, env: Env, path: set<string>)
    ensures Expand(cx, env, "${sourceDir}", path)
            == Ok(cx.sourceDir)
  {
    PlainSourceDir(cx);
    SpellSourceDir();
    Bare(cx, env, "sourceDir", path);
  }

  lemma SpellSourceParentDir()
    ensures "${sourceParentDir}" == "${" + "sourceParentDir" + "}"
  {
  }

  lemma PlainSourceParentDir(cx: Context)
    ensures PlainMacro(cx, "", "sourceParentDir") == Ok(GetFilenamePath(cx.platform, cx.sourceDir))
  {
  }

  lemma SourceParentDirMacro(cx: Context, env: Env, path: set<string>)
    ensures Expand(cx, env, "${sourceParentDir}", path)
            == Ok(GetFilenamePath(cx.platform, cx.sourceDir))
  {
    PlainSourceParentDir(cx);
    SpellSourceParentDir();
    Bare(cx, env, "sourceParentDir", path);
  }

  lemma SpellSourceDirName()
    ensures "${sourceDirName}" == "${" + "sourceDirName" + "}"
  {
  }

  lemma PlainSourceDirName(cx: Context)
    ensures PlainMacro(cx, "", "sourceDirName") == Ok(GetFilenameName(cx.platform, cx.sourceDir))
  {
  }

  lemma SourceDirNameMacro(cx: Context, env: Env, path: set<string>)
    ensures Expand(cx, env, "${sourceDirName}", path)
            == Ok(GetFilenameName(cx.platform, cx.sourceDir))
  {
    PlainSourceDirName(cx);
    SpellSourceDirName();
    Bare(cx, env, "sourceDirName", path);
  }

  lemma SpellDollar()
    ensures "${dollar}" == "${" + "dollar" + "}"
  {
  }

  lemma PlainDollar(cx: Context)
    ensures PlainMacro(cx, "", "dollar") == Ok("$")
  {
  }

  lemma DollarMacro(cx: Context, env: Env, path: set<string>)
    ensures Expand(cx, env, "${dollar}", path)
            == Ok("$")
  {
    PlainDollar(cx);
    SpellDollar();
    Bare(cx, env, "dollar", path);
  }

  // Macros that files below a certain version must not use.

  lemma SpellHostSystemName()
    ensures "${hostSystemName}" == "${" + "hostSystemName" + "}"
  {
  }

  lemma PlainHostSystemName(cx: Context)
    ensures PlainMacro(cx, "", "hostSystemName") == (if cx.version >= 3 then Ok(cx.hostSystemName) else Error)
  {
  }

  lemma HostSystemNameMacro(cx: Context, env: Env, path: set<string>)
    ensures Expand(cx, env, "${hostSystemName}", path)
            == if cx.version >= 3 then Ok(cx.hostSystemName) else Error
  {
    PlainHostSystemName(cx);
    SpellHostSystemName();
    Bare(cx, env, "hostSystemName", path);
  }

  lemma SpellFileDir()
    ensures "${fileDir}" == "${" + "fileDir" + "}"
  {
  }

  lemma PlainFileDir(cx: Context)
    ensures PlainMacro(cx, "", "fileDir")
            == (if cx.version >= 4 then Ok(GetFilenamePath(cx.platform, cx.presetFile)) else Error)
  {
  }

  lemma FileDirMacro(cx: Context, env: Env, path: set<string>)
    ensures Expand(cx, env, "${fileDir}", path)
            == if cx.version >= 4 then Ok(GetFilenamePath(cx.platform, cx.presetFile)) else Error
  {
    PlainFileDir(cx);
    SpellFileDir();
    Bare(cx, env, "fileDir", path);
  }

  lemma SpellPathListSep()
    ensures "${pathListSep}" == "${" + "pathListSep" + "}"
  {
  }

  lemma PlainPathListSep(cx: Context)
    ensures PlainMacro(cx, "", "pathListSep") == (if cx.version >= 5 then Ok(cx.pathListSep) else Error)
  {
  }

  lemma PathListSepMacro(cx: Context, env: Env, path: set<string>)
    ensures Expand(cx, env, "${pathListSep}", path)
            == if cx.version >= 5 then Ok(cx.pathListSep) else Error
  {
    PlainPathListSep(cx);
    SpellPathListSep();
    Bare(cx, env, "pathListSep", path);
  }

  // The macros of the preset; a hidden one has no generator.

  lemma SpellPresetName()
    ensures "${presetName}" == "${" + "presetName" + "}"
  {
  }

  lemma PlainPresetName(cx: Context)
    ensures PlainMacro(cx, "", "presetName") == Ok(cx.presetName)
  {
  }

  lemma PresetNameMacro(cx: Context, env: Env, path: set<string>)
    ensures Expand(cx, env, "${presetName}", path)
            == Ok(cx.presetName)
  {
    PlainPresetName(cx);
    SpellPresetName();
    Bare(cx, env, "presetName", path);
  }

  lemma SpellGenerator()
    ensures "${generator}" == "${" + "generator" + "}"
  {
  }

  lemma PlainGenerator(cx: Context)
    ensures PlainMacro(cx, "", "generator") == Ok(if cx.presetHidden then "" else cx.presetGenerator)
  {
  }

  lemma GeneratorMacro(cx: Context, env: Env, path: set<string>)
    ensures Expand(cx, env, "${generator}", path)
            == Ok(if cx.presetHidden then "" else cx.presetGenerator)
  {
    PlainGenerator(cx);
    SpellGenerator();
    Bare(cx, env, "generator", path);
  }

  const KNOWN := {"sourceDir", "sourceParentDir", "sourceDirName", "dollar", "hostSystemName", "pathListSep",
                  "presetName", "generator", "fileDir"}

  /** There are no other macros without a namespace. */
  lemma UnknownMacro(cx: Context, env: Env, name: string, path: set<string>)
    requires '}' !in name && name !in KNOWN
    ensures Expand(cx, env, "${" + name + "}", path) == Error
  {
    Bare(cx, env, name, path);
  }

  /** The value of a variable in the process environment, or nothing. */
  function ProcessValue(cx: Context, n: string): string {
    if n in cx.processEnv then cx.processEnv[n] else ""
  }

  /**
    A variable that the preset sets is expanded first, and must expand; any other one
    comes from the process environment. A variable has a name.
   */
  lemma EnvironmentMacros(cx: Context, env: Env, n: string, path: set<string>)
    requires '}' !in n
    ensures Expand(cx, env, "$env{" + n + "}", path) ==
            if n == "" then Error
            else if n in env && env[n].Some? then
              if EvalEnv(cx, env, n, path).Ok? then EvalEnv(cx, env, n, path) else Error
            else Ok(ProcessValue(cx, n))
    ensures Expand(cx, env, "$penv{" + n + "}", path) == if n == "" then Error else Ok(ProcessValue(cx, n))
    ensures Expand(cx, env, "$vendor{" + n + "}", path) == Ignore
  {
    OneMacro(cx, env, "env", n, path);
    OneMacro(cx, env, "penv", n, path);
    OneMacro(cx, env, "vendor", n, path);
    assert "$" + "env" + "{" + n + "}" == "$env{" + n + "}";
    assert "$" + "penv" + "{" + n + "}" == "$penv{" + n + "}";
    assert "$" + "vendor" + "{" + n + "}" == "$vendor{" + n + "}";
  }

  /** Which macros other than references expand: the known ones, from their versions on, and named variables. */
  lemma WhichMacrosExpand(cx: Context, ns: string, name: string)
    requires IsNamespace(ns)
    ensures PlainMacro(cx, ns, name).Ok? <==>
            || (ns == "" && name in KNOWN
                && (name == "hostSystemName" ==> cx.version >= 3) && (name == "fileDir" ==> cx.version >= 4)
                && (name == "pathListSep" ==> cx.version >= 5))
            || ((ns == "env" || ns == "penv") && name != "")
    ensures PlainMacro(cx, ns, name) == Ignore <==> ns == "vendor"
  {
  }

  /** Directory and name with a slash in between are the source directory, unless its parent is a root. */
  lemma SourceDirFromParts(cx: Context, env: Env, path: set<string>)
    requires IsUnixPath(cx.sourceDir)
    ensures Expand(cx, env, "${sourceParentDir}/${sourceDirName}", path) == Ok(cx.sourceDir) <==>
            HasPlainParent(cx.sourceDir)
  {
    PartsOfPath(cx.platform, cx.sourceDir);
    ParentSlashName(cx, env, path);
    Assoc(GetFilenamePath(cx.platform, cx.sourceDir), "/", GetFilenameName(cx.platform, cx.sourceDir));
  }

  lemma ParentSlashName(cx: Context, env: Env, path: set<string>)
    ensures Expand(cx, env, "${sourceParentDir}/${sourceDirName}", path)
            == Ok(GetFilenamePath(cx.platform, cx.sourceDir) + ("/" + GetFilenameName(cx.platform, cx.sourceDir)))
  {
    SourceDirNameMacro(cx, env, path);
    ParentInFront(cx, env, "${sourceDirName}", GetFilenameName(cx.platform, cx.sourceDir), path);
    SpellBoth();
  }

  lemma ParentInFront(cx: Context, env: Env, t: string, b: string, path: set<string>)
    requires Expand(cx, env, t, path) == Ok(b)
    ensures Expand(cx, env, "$" + "" + "{" + "sourceParentDir" + "}" + (['/'] + t), path)
            == Ok(GetFilenamePath(cx.platform, cx.sourceDir) + ("/" + b))
  {
    PlainSourceParentDir(cx);
    MacroSlash(cx, env, "sourceParentDir", t, GetFilenamePath(cx.platform, cx.sourceDir), b, path);
  }

  lemma SpellBoth()
    ensures "${sourceParentDir}/${sourceDirName}"
            == "$" + "" + "{" + "sourceParentDir" + "}" + (['/'] + "${sourceDirName}")
  {
  }

  lemma MacroSlash(cx: Context, env: Env, name: string, t: string, a: string, b: string, path: set<string>)
    requires '}' !in name && PlainMacro(cx, "", name) == Ok(a) && Expand(cx, env, t, path) == Ok(b)
    ensures Expand(cx, env, "$" + "" + "{" + name + "}" + (['/'] + t), path) == Ok(a + ("/" + b))
  {
    EvalCharacter(cx, env, '/', t, path);
    MacroInFront(cx, env, name, ['/'] + t, path);
  }

  lemma MacroInFront(cx: Context, env: Env, name: string, tail: string, path: set<string>)
    requires '}' !in name && PlainMacro(cx, "", name).Ok?
    ensures Expand(cx, env, "$" + "" + "{" + name + "}" + tail, path)
            == Append(PlainMacro(cx, "", name).text, Expand(cx, env, tail, path))
  {
    Namespaces("");
    LexMacro("", name, tail);
    var tokens := [Macro("", name)] + Tokens(tail);
    assert tokens[1..] == Tokens(tail);
    assert EvalMacro(cx, env, "", name, path) == PlainMacro(cx, "", name);
    assert Eval(cx, env, tokens, path) == Append(PlainMacro(cx, "", name).text, Eval(cx, env, tokens[1..], path));
  }

  /** One dollar more in front of a macro: both dollars are literal, and so is the rest of the macro. */
  lemma DollarBeforeMacro(t: string)
    requires Opens(t)
    ensures Skips("$" + t)
    ensures Tokens("$" + t) == [Literal("$$")] + Tokens(t[1..])
    ensures Documented("$" + t) == [Literal("$")] + Documented(t)
  {
    var s := "$" + t;
    assert s[0] == '$' && s[1..] == t && s == "$" + "" + t;
    assert |Before(t, '{')| > 0 ==> Before(t, '{')[0] == t[0];
    NothingBegins();
    NothingAttempted(t);
    ScanDollar("", t);
    assert "$" + "" + [t[0]] == "$$";
    assert s[|Attempt(s[1..])| + 1..] == t;
  }

  lemma NothingAttempted(t: string)
    requires t != "" && t[0] == '$'
    ensures Attempt(t) == "" && !Begins("" + [t[0]])
  {
    var q := Attempt(t);
    assert q + "" == q;
    assert q != "" ==> q[0] == t[0];
    BeginsBefore(q, "");
  }

  /**
    A doubled dollar: the text is left as it is, although the second dollar is in front
    of a macro; as documented it would be a dollar and what the macro stands for.
   */
  lemma DoubledDollar(cx: Context, env: Env, t: string, path: set<string>)
    requires Opens(t) && '$' !in t[1..]
    ensures Expand(cx, env, "$" + t, path) == Ok("$" + t)
    ensures Eval(cx, env, Documented("$" + t), path) == Append("$", Expand(cx, env, t, path))
  {
    DollarBeforeMacro(t);
    LiteralInFront(cx, env, "$$", Tokens(t[1..]), path);
    LiteralInFront(cx, env, "$", Documented(t), path);
    NoDollarFixedPoint(cx, env, t[1..], path);
    assert "$" + t == "$$" + t[1..];
    NothingToSkip(t);
    ExpandsAsDocumented(cx, env, t, path);
  }

  lemma NothingToSkip(t: string)
    requires Opens(t) && '$' !in t[1..]
    ensures !Skips(t)
  {
    var rest := t[|Before(t[1..], '{')| + 2..];
    var name := Before(rest, '}');
    OpeningText(t);
    assert forall c | c in rest :: c in t[1..];
    if |name| < |rest| {
      var more := rest[|name| + 1..];
      assert forall c | c in more :: c in rest;
      NoDollarNoSkip(more);
    }
  }

  lemma {:induction false} NoDollarNoSkip(t: string)
    requires '$' !in t
    ensures !Skips(t)
  {
    if t != "" {
      assert t[0] in t;
      NoDollarNoSkip(t[1..]);
    }
  }

  /** For one, two dollars in front of the source directory's macro. */
  lemma SecondDollarIsSkipped(cx: Context, env: Env, path: set<string>)
    ensures Expand(cx, env, "$${sourceDir}", path) == Ok("$${sourceDir}")
    ensures Eval(cx, env, Documented("$${sourceDir}"), path) == Ok("$" + cx.sourceDir)
  {
    SourceDirMacro(cx, env, path);
    SourceDirOpens();
    DoubledDollar(cx, env, "${sourceDir}", path);
  }

  lemma SourceDirOpens()
    ensures Opens("${sourceDir}") && '$' !in "${sourceDir}"[1..] && "$" + "${sourceDir}" == "$${sourceDir}"
  {
    MacroOpens("", "sourceDir}");
    assert "${sourceDir}" == "$" + "" + "{" + "sourceDir}";
  }
}
