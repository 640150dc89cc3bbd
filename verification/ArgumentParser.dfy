/**
  The argument parser (cmArgumentParser) without sub-parsers: the sorted vector
  of keyword actions, and the state machine that consumes arguments one by one.
 */
module ArgumentParser {
  import opened Options

  /** The kinds of member a keyword can be bound to; a callback says when to stop. */
  datatype Binding =
    | Flag
    | Text | MaybeEmptyText | NonEmptyText | MaybeText
    | MaybeEmptyList | NonEmptyList | ListOfLists
    | Callback(expected: nat, continues: string -> bool)

  /** ExpectAtLeast of the Bind overload. */
  function Expected(b: Binding): nat {
    match b
    case Flag => 0
    case Text => 1
    case MaybeEmptyText => 1
    case NonEmptyText => 1
    case MaybeText => 0
    case MaybeEmptyList => 0
    case NonEmptyList => 1
    case ListOfLists => 0
    case Callback(e, _) => e
  }

  /** Does the Bind overload install a value function at all? */
  predicate TakesValues(b: Binding) {
    !b.Flag?
  }

  /** What the value function answers: Continue::Yes keeps it installed. */
  predicate Continues(b: Binding, arg: string) {
    match b
    case MaybeEmptyList => true
    case NonEmptyList => true
    case ListOfLists => true
    case Callback(_, f) => f(arg)
    case _ => false
  }

  // --------------------------------------------------------- keyword actions

  /** operator< on strings. */
  predicate Less(a: string, b: string) {
    if a == "" then b != ""
    else b != "" && (a[0] < b[0] || (a[0] == b[0] && Less(a[1..], b[1..])))
  }

  /** Of two strings exactly one is less, unless they are equal. */
  lemma {:induction false} LessTotal(a: string, b: string)
    ensures Less(a, b) <==> a != b && !Less(b, a)
  {
    if a != "" && b != "" && a[0] == b[0] {
      LessTotal(a[1..], b[1..]);
      assert a == [a[0]] + a[1..] && b == [b[0]] + b[1..];
    }
  }

  lemma {:induction false} LessTrans(a: string, b: string, c: string)
    requires Less(a, b) && Less(b, c)
    ensures Less(a, c)
  {
    if a != "" && a[0] == b[0] == c[0] {
      LessTrans(a[1..], b[1..], c[1..]);
    }
  }

  /** The order is that of dictionaries: the first difference decides, and a prefix comes first. */
  lemma {:induction false} LessIsLexicographic(a: string, b: string)
    ensures Less(a, b) <==>
            exists k :: 0 <= k <= |a| && k < |b| && a[..k] == b[..k] && (k == |a| || a[k] < b[k])
  {
    if a != "" && b != "" {
      if a[0] == b[0] {
        LessIsLexicographic(a[1..], b[1..]);
        LessBehind(a, b);
      } else if k :| 0 <= k <= |a| && k < |b| && a[..k] == b[..k] && (k == |a| || a[k] < b[k]) {
        assert k > 0 ==> a[..k][0] == b[..k][0];
      } else {
        assert a[..0] == b[..0];
      }
    } else if b != "" {
      assert a[..0] == b[..0];
    }
  }

  lemma LessBehind(a: string, b: string)
    requires a != "" && b != "" && a[0] == b[0]
    ensures (exists k :: 0 <= k <= |a| && k < |b| && a[..k] == b[..k] && (k == |a| || a[k] < b[k])) <==>
            exists k :: 0 <= k <= |a[1..]| && k < |b[1..]| && a[1..][..k] == b[1..][..k]
                        && (k == |a[1..]| || a[1..][k] < b[1..][k])
  {
    var c, d := a[1..], b[1..];
    if k :| 0 <= k <= |a| && k < |b| && a[..k] == b[..k] && (k == |a| || a[k] < b[k]) {
      assert k > 0;
      assert c[..k - 1] == a[..k][1..] == d[..k - 1];
    }
    if k :| 0 <= k <= |c| && k < |d| && c[..k] == d[..k] && (k == |c| || c[k] < d[k]) {
      assert a[..k + 1] == [a[0]] + c[..k] == b[..k + 1];
      assert k + 1 <= |a| && k + 1 < |b|;
    }
  }

  type Actions = seq<(string, Binding)>

  ghost predicate Sorted(m: Actions) {
    forall i, j | 0 <= i < j < |m| :: Less(m[i].0, m[j].0)
  }

  /** The action bound to a name, if any. */
  ghost predicate Binds(m: Actions, name: string, b: Binding) {
    exists k :: 0 <= k < |m| && m[k] == (name, b)
  }

  ghost predicate HasName(m: Actions, name: string) {
    exists k :: 0 <= k < |m| && m[k].0 == name
  }

  /** std::lower_bound: the first position whose name is not less. */
  method LowerBound(m: Actions, name: string) returns (it: nat)
    requires Sorted(m)
    ensures it <= |m|
    ensures forall k | 0 <= k < it :: Less(m[k].0, name)
    ensures forall k | it <= k < |m| :: !Less(m[k].0, name)
  {
    var first: nat, count: nat := 0, |m|;
    while count > 0
      invariant first + count <= |m|
      invariant forall k | 0 <= k < first :: Less(m[k].0, name)
      invariant forall k | first + count <= k < |m| :: !Less(m[k].0, name)
    {
      var step := count / 2;
      var mid := first + step;
      if Less(m[mid].0, name) {
        forall k | 0 <= k < mid
          ensures Less(m[k].0, name)
        {
          LessTrans(m[k].0, m[mid].0, name);
        }
        first, count := mid + 1, count - step - 1;
      } else {
        forall k | mid <= k < |m|
          ensures !Less(m[k].0, name)
        {
          if k > mid && Less(m[k].0, name) { LessTrans(m[mid].0, m[k].0, name); }
        }
        count := step;
      }
    }
    it := first;
  }

  /** A sorted vector finds a name at its lower bound or not at all. */
  lemma FoundAtLowerBound(m: Actions, name: string, it: nat)
    requires Sorted(m) && it <= |m|
    requires forall k | 0 <= k < it :: Less(m[k].0, name)
    requires forall k | it <= k < |m| :: !Less(m[k].0, name)
    ensures HasName(m, name) <==> it < |m| && m[it].0 == name
  {
    LessTotal(name, name);
    forall k | it < k < |m|
      ensures m[k].0 != name
    {
      assert Less(m[it].0, m[k].0);
    }
  }

  class KeywordActionMap {
    var entries: Actions

    constructor ()
      ensures entries == []
    {
      entries := [];
    }

    method Emplace(name: string, action: Binding) returns (inserted: bool)
      requires Sorted(entries)
      modifies this
      ensures Sorted(entries)
      ensures inserted <==> !HasName(old(entries), name)
      ensures !inserted ==> entries == old(entries)
      ensures inserted ==>
        exists it: nat :: it <= |old(entries)| && entries == old(entries)[..it] + [(name, action)] + old(entries)[it..]
    {
      var it := LowerBound(entries, name);
      FoundAtLowerBound(entries, name, it);
      if it < |entries| && entries[it].0 == name {
        return false;
      }
      forall k | it <= k < |entries|
        ensures Less(name, entries[k].0)
      {
        LessTotal(name, entries[k].0);
      }
      entries := entries[..it] + [(name, action)] + entries[it..];
      return true;
    }

    method Find(name: string) returns (action: Option<Binding>)
      requires Sorted(entries)
      ensures action == Lookup(entries, name)
    {
      action := FindAction(entries, name);
    }
  }

  /** The action of the first entry with that name. */
  function Lookup(m: Actions, name: string): Option<Binding> {
    if m == [] then None
    else if m[0].0 == name then Some(m[0].1)
    else Lookup(m[1..], name)
  }

  lemma {:induction false} LookupFinds(m: Actions, name: string)
    ensures Lookup(m, name).Some? <==> HasName(m, name)
    ensures Lookup(m, name).Some? ==> Binds(m, name, Lookup(m, name).value)
  {
    if m != [] && m[0].0 != name {
      LookupFinds(m[1..], name);
      assert forall k | 1 <= k < |m| :: m[k] == m[1..][k - 1];
    }
  }

  method FindAction(m: Actions, name: string) returns (action: Option<Binding>)
    requires Sorted(m)
    ensures action == Lookup(m, name)
  {
    var it := LowerBound(m, name);
    FoundAtLowerBound(m, name, it);
    LookupFinds(m, name);
    if it < |m| && m[it].0 == name {
      LookupUnique(m, name, it);
      return Some(m[it].1);
    }
    return None;
  }

  lemma LookupUnique(m: Actions, name: string, it: nat)
    requires Sorted(m) && it < |m| && m[it].0 == name
    ensures Lookup(m, name) == Some(m[it].1)
  {
    LookupFinds(m, name);
    var k :| 0 <= k < |m| && m[k] == (name, Lookup(m, name).value);
    LessTotal(name, name);
    assert k == it;
  }

  /** A name that is emplaced twice keeps its first action; all others keep theirs. */
  lemma EmplaceFirstWins(m: Actions, m': Actions, it: nat, name: string, action: Binding, other: string)
    requires Sorted(m) && Sorted(m') && it <= |m| && m' == m[..it] + [(name, action)] + m[it..]
    requires !HasName(m, name)
    ensures Lookup(m', other) == if other == name then Some(action) else Lookup(m, other)
  {
    LookupFinds(m, other);
    LookupFinds(m', other);
    if other == name {
      LookupUnique(m', name, it);
    } else if HasName(m, other) {
      var k :| 0 <= k < |m| && m[k].0 == other;
      LookupUnique(m, other, k);
      LookupUnique(m', other, if k < it then k else k + 1);
    } else {
      forall k | 0 <= k < |m'|
        ensures m'[k].0 != other
      {
        assert k == it || m'[k] == m[if k < it then k else k - 1];
      }
    }
  }

  // ----------------------------------------- what every argument is, at a glance

  /** ActionMap: keywords, and the members that positions are bound to. */
  datatype Bindings = Bindings(keywords: Actions, positions: map<nat, string>)

  datatype Class = Keyword | Positional | Value(owner: nat) | Unparsed

  predicate IsKeyword(b: Bindings, arg: string) {
    Lookup(b.keywords, arg).Some?
  }

  function BindingOf(b: Bindings, name: string): Binding
    requires IsKeyword(b, name)
  {
    Lookup(b.keywords, name).value
  }

  /** The last keyword among the first n arguments. */
  function LastKeyword(b: Bindings, args: seq<string>, n: nat): (r: Option<nat>)
    requires n <= |args|
    ensures r.Some? ==> r.value < n && IsKeyword(b, args[r.value])
    ensures r.Some? ==> forall m | r.value < m < n :: !IsKeyword(b, args[m])
    ensures r.None? ==> forall m | 0 <= m < n :: !IsKeyword(b, args[m])
  {
    if n == 0 then None
    else if IsKeyword(b, args[n - 1]) then Some(n - 1)
    else LastKeyword(b, args, n - 1)
  }

  /** Keyword number j still takes a value after the arguments j+1..n. */
  ghost predicate StillTaking(b: Bindings, args: seq<string>, j: nat, n: nat)
    requires j < n <= |args| && IsKeyword(b, args[j])
  {
    && TakesValues(BindingOf(b, args[j]))
    && forall m | j < m < n :: Continues(BindingOf(b, args[j]), args[m])
  }

  /**
    The class of argument k when the first one has position pos: a keyword, a
    value of the last keyword before it while that one keeps taking values, a
    positional argument before the first keyword, or unparsed.
   */
  ghost function ClassOf(b: Bindings, args: seq<string>, pos: nat, k: nat): Class
    requires k < |args|
  {
    if IsKeyword(b, args[k]) then Keyword
    else
      var last := LastKeyword(b, args, k);
      if last.None? then if pos + k in b.positions then Positional else Unparsed
      else if StillTaking(b, args, last.value, k) then Value(last.value)
      else Unparsed
  }

  /** The unparsed ones among the first n arguments, in order. */
  ghost function UnparsedArgs(b: Bindings, args: seq<string>, pos: nat, n: nat): seq<string>
    requires n <= |args|
  {
    if n == 0 then []
    else UnparsedArgs(b, args, pos, n - 1)
         + (if ClassOf(b, args, pos, n - 1) == Unparsed then [args[n - 1]] else [])
  }

  /** How many of the first n arguments are values of the keyword at j. */
  ghost function ValuesTaken(b: Bindings, args: seq<string>, pos: nat, j: nat, n: nat): nat
    requires n <= |args|
  {
    if n == 0 then 0
    else ValuesTaken(b, args, pos, j, n - 1) + (if ClassOf(b, args, pos, n - 1) == Value(j) then 1 else 0)
  }

  /** The values of each occurrence of a keyword among the first n arguments. */
  ghost function Occurrences(b: Bindings, args: seq<string>, pos: nat, name: string, n: nat): seq<seq<string>>
    requires n <= |args|
  {
    if n == 0 then []
    else
      var before := Occurrences(b, args, pos, name, n - 1);
      match ClassOf(b, args, pos, n - 1)
      case Keyword => if args[n - 1] == name then before + [[]] else before
      case Value(j) =>
        if j < |args| && args[j] == name && before != [] then
          before[|before| - 1 := before[|before| - 1] + [args[n - 1]]]
        else before
      case _ => before
  }

  // --------------------------------------------------------------- containers

  /** What a bound member holds. */
  datatype Member = IsSet | String(text: string) | Strings(list: seq<string>) | Lists(lists: seq<seq<string>>)

  function Concat(lists: seq<seq<string>>): seq<string> {
    if lists == [] then [] else Concat(lists[..|lists| - 1]) + lists[|lists| - 1]
  }

  /** The member after the given occurrences: the last text, all values, or one list each. */
  function MemberOf(kind: Binding, occurrences: seq<seq<string>>): Member {
    if kind.Flag? then IsSet
    else if kind.ListOfLists? then Lists(occurrences)
    else
      var all := Concat(occurrences);
      if kind.MaybeEmptyList? || kind.NonEmptyList? || kind.Callback? then Strings(all)
      else String(if all == [] then "" else all[|all| - 1])
  }

  // -------------------------------------------------------------- the program

  datatype KeywordError = MissingValue | EmptyString

  type Errors = map<string, set<KeywordError>>

  /** ParseResult::AddKeywordError. */
  function AddKeywordError(errors: Errors, key: string, error: KeywordError): Errors {
    errors[key := (if key in errors then errors[key] else {}) + {error}]
  }

  predicate HasError(errors: Errors, key: string, error: KeywordError) {
    key in errors && error in errors[key]
  }

  /** The one ParserState of a parser without sub-parsers, and what it writes to. */
  datatype State = State(
    keyword: string, pos: nat, valuesSeen: nat, valuesExpected: nat,
    valueFunc: Option<Binding>, doneWithPositional: bool,
    members: map<string, Member>, positionals: map<string, string>, errors: Errors, unparsed: seq<string>)

  /** The control part of the state after n arguments. */
  ghost predicate ControlOk(b: Bindings, args: seq<string>, pos: nat, n: nat, s: State)
    requires n <= |args|
  {
    var last := LastKeyword(b, args, n);
    && s.pos == pos + n && (s.doneWithPositional <==> last.Some?)
    && (last.None? ==> s.valueFunc == None)
    && (last.Some? ==>
          var kind := BindingOf(b, args[last.value]);
          && s.keyword == args[last.value] && s.valuesExpected == Expected(kind)
          && s.valuesSeen == ValuesTaken(b, args, pos, last.value, n)
          && s.valueFunc == if StillTaking(b, args, last.value, n) then Some(kind) else None)
  }

  /** Every keyword member holds what its occurrences make of it; absent members did not occur. */
  ghost predicate MembersOk(b: Bindings, args: seq<string>, pos: nat, n: nat, members: map<string, Member>)
    requires n <= |args|
  {
    forall name | IsKeyword(b, name) ::
      var occurrences := Occurrences(b, args, pos, name, n);
      && (name in members <==> occurrences != [])
      && (name in members ==> members[name] == MemberOf(BindingOf(b, name), occurrences))
  }

  /** An occurrence of name at j among the first n arguments that got fewer values than it must. */
  ghost predicate Starved(b: Bindings, args: seq<string>, pos: nat, n: nat, name: string, j: nat)
    requires n <= |args|
  {
    && j < |args| && args[j] == name && IsKeyword(b, name)
    && ValuesTaken(b, args, pos, j, n) < Expected(BindingOf(b, name))
  }

  /** Missing values are recorded for the starved occurrences before position upto. */
  ghost predicate MissingOk(b: Bindings, args: seq<string>, pos: nat, n: nat, upto: nat, errors: Errors)
    requires n <= |args|
  {
    forall name :: HasError(errors, name, MissingValue) <==>
      exists j :: 0 <= j < upto && Starved(b, args, pos, n, name, j)
  }

  /** Argument k is an empty value of a keyword that wants a nonempty one. */
  ghost predicate EmptyValue(b: Bindings, args: seq<string>, pos: nat, name: string, k: nat) {
    && k < |args| && args[k] == ""
    && var c := ClassOf(b, args, pos, k);
       c.Value? && c.owner < |args| && args[c.owner] == name
       && IsKeyword(b, name) && BindingOf(b, name).NonEmptyText?
  }

  ghost predicate EmptyOk(b: Bindings, args: seq<string>, pos: nat, n: nat, errors: Errors) {
    forall name :: HasError(errors, name, EmptyString) <==> exists k :: 0 <= k < n && EmptyValue(b, args, pos, name, k)
  }

  /** The positional members after n arguments. */
  ghost function Positionals(b: Bindings, args: seq<string>, pos: nat, n: nat): map<string, string>
    requires n <= |args|
  {
    if n == 0 then map[]
    else if ClassOf(b, args, pos, n - 1) == Positional && pos + n - 1 in b.positions then
      Positionals(b, args, pos, n - 1)[b.positions[pos + n - 1] := args[n - 1]]
    else Positionals(b, args, pos, n - 1)
  }

  /** Where the last keyword of the first n arguments stands, 0 if there is none. */
  ghost function Unfinished(b: Bindings, args: seq<string>, n: nat): nat
    requires n <= |args|
  {
    var last := LastKeyword(b, args, n);
    if last.Some? then last.value else 0
  }

  /** The state after n of the arguments. */
  ghost predicate Consumed(b: Bindings, args: seq<string>, pos: nat, n: nat, s: State)
    requires n <= |args|
  {
    && ControlOk(b, args, pos, n, s)
    && MembersOk(b, args, pos, n, s.members)
    && MissingOk(b, args, pos, n, Unfinished(b, args, n), s.errors)
    && EmptyOk(b, args, pos, n, s.errors)
    && s.positionals == Positionals(b, args, pos, n)
    && s.unparsed == UnparsedArgs(b, args, pos, n)
  }

  /** The member when its keyword is met: a text or list keeps its value, a list of lists grows. */
  function Opened(members: map<string, Member>, name: string, kind: Binding): Member {
    if kind.Flag? then IsSet
    else if kind.ListOfLists? then
      Lists((if name in members && members[name].Lists? then members[name].lists else []) + [[]])
    else if name in members then members[name]
    else if kind.MaybeEmptyList? || kind.NonEmptyList? || kind.Callback? then Strings([])
    else String("")
  }

  /** The member after one more value. */
  function Stored(members: map<string, Member>, name: string, kind: Binding, arg: string): Member {
    if kind.ListOfLists? then
      if name in members && members[name].Lists? && members[name].lists != [] then
        var ls := members[name].lists;
        Lists(ls[|ls| - 1 := ls[|ls| - 1] + [arg]])
      else Lists([[arg]])
    else if kind.MaybeEmptyList? || kind.NonEmptyList? || kind.Callback? then
      Strings((if name in members && members[name].Strings? then members[name].list else []) + [arg])
    else String(arg)
  }

  // ------------------------------------------------------ the transitions

  function Finished(s: State): State {
    if s.doneWithPositional && s.valuesSeen < s.valuesExpected
    then s.(errors := AddKeywordError(s.errors, s.keyword, MissingValue))
    else s
  }

  function StartKeyword(s: State, arg: string, kind: Binding): State {
    s.(keyword := arg, valuesSeen := 0, doneWithPositional := true,
       members := s.members[arg := Opened(s.members, arg, kind)],
       valueFunc := if TakesValues(kind) then Some(kind) else None,
       valuesExpected := Expected(kind))
  }

  function TakeValue(s: State, kind: Binding, arg: string): State {
    s.(members := s.members[s.keyword := Stored(s.members, s.keyword, kind, arg)],
       errors := if kind.NonEmptyText? && arg == ""
                 then AddKeywordError(s.errors, s.keyword, EmptyString) else s.errors,
       valueFunc := if Continues(kind, arg) then s.valueFunc else None,
       valuesSeen := s.valuesSeen + 1)
  }

  function Next(b: Bindings, s: State, arg: string): State {
    var it := Lookup(b.keywords, arg);
    if it.Some? then StartKeyword(Finished(s), arg, it.value)
    else if !s.doneWithPositional && s.pos in b.positions then
      s.(positionals := s.positionals[b.positions[s.pos] := arg])
    else if s.valueFunc.Some? then TakeValue(s, s.valueFunc.value, arg)
    else s.(unparsed := s.unparsed + [arg])
  }

  class Instance {
    const bindings: Bindings
    var keyword: string
    var pos: nat
    var valuesSeen: nat
    var valuesExpected: nat
    var valueFunc: Option<Binding>
    var doneWithPositional: bool
    var members: map<string, Member>
    var positionals: map<string, string>
    var errors: Errors
    var unparsed: seq<string>

    constructor (bindings: Bindings)
      ensures this.bindings == bindings
      ensures Now() == State("", 0, 0, 0, None, false, map[], map[], map[], [])
    {
      this.bindings := bindings;
      keyword, pos, valuesSeen, valuesExpected, valueFunc, doneWithPositional := "", 0, 0, 0, None, false;
      members, positionals, errors, unparsed := map[], map[], map[], [];
    }

    ghost function Now(): State
      reads this
    {
      State(keyword, pos, valuesSeen, valuesExpected, valueFunc, doneWithPositional,
            members, positionals, errors, unparsed)
    }

    method FinishKeyword()
      modifies this
      ensures Now() == Finished(old(Now()))
    {
      if !doneWithPositional {
        return;
      }
      if valuesSeen < valuesExpected {
        errors := AddKeywordError(errors, keyword, MissingValue);
      }
    }

    method Consume(arg: string)
      requires Sorted(bindings.keywords)
      modifies this
      ensures Now() == Next(bindings, old(Now()), arg)
    {
      var it := FindAction(bindings.keywords, arg);
      if it.Some? {
        FinishKeyword();
        keyword := arg;
        valuesSeen := 0;
        doneWithPositional := true;
        Bind(arg, it.value);
        return;
      }
      if !doneWithPositional {
        if pos in bindings.positions {
          positionals := positionals[bindings.positions[pos] := arg];
          return;
        }
      }
      if valueFunc.Some? {
        var more := StoreValue(valueFunc.value, arg);
        if !more {
          valueFunc := None;
        }
        valuesSeen := valuesSeen + 1;
        return;
      }
      unparsed := unparsed + [arg];
    }

    /** The keyword actions: prepare the bound member and install the value function. */
    method Bind(name: string, kind: Binding)
      modifies this`members, this`valueFunc, this`valuesExpected
      ensures valueFunc == if TakesValues(kind) then Some(kind) else None
      ensures valuesExpected == Expected(kind)
      ensures valueFunc.None? <==> kind.Flag?
      ensures valuesExpected == if kind.Text? || kind.MaybeEmptyText? || kind.NonEmptyText? || kind.NonEmptyList? then 1
                                else if kind.Callback? then kind.expected else 0
      ensures members == old(members)[name := Opened(old(members), name, kind)]
    {
      match kind {
        case Flag =>
          members := members[name := IsSet];
          Install(None, 0);
        case Text => BindText(name, kind, 1);
        case MaybeEmptyText => BindText(name, kind, 1);
        case NonEmptyText => BindText(name, kind, 1);
        case MaybeText => BindText(name, kind, 0);
        case MaybeEmptyList => BindList(name, kind, 0);
        case NonEmptyList => BindList(name, kind, 1);
        case ListOfLists =>
          var lists := if name in members && members[name].Lists? then members[name].lists else [];
          members := members[name := Lists(lists + [[]])];
          Install(Some(kind), 0);
        case Callback(expected, _) => BindList(name, kind, expected);
      }
    }

    /** The overload that takes a value function. */
    method Install(f: Option<Binding>, atLeast: nat)
      modifies this`valueFunc, this`valuesExpected
      ensures valueFunc == f && valuesExpected == atLeast
    {
      valueFunc, valuesExpected := f, atLeast;
    }

    /** The overloads for one string: a member that is bound for the first time is empty. */
    method BindText(name: string, kind: Binding, atLeast: nat)
      modifies this`members, this`valueFunc, this`valuesExpected
      ensures valueFunc == Some(kind) && valuesExpected == atLeast
      ensures members == if name in old(members) then old(members) else old(members)[name := String("")]
    {
      if name !in members {
        members := members[name := String("")];
      }
      Install(Some(kind), atLeast);
    }

    /** The overloads for a list of strings, and callbacks, whose values are recorded in a list. */
    method BindList(name: string, kind: Binding, atLeast: nat)
      modifies this`members, this`valueFunc, this`valuesExpected
      ensures valueFunc == Some(kind) && valuesExpected == atLeast
      ensures members == if name in old(members) then old(members) else old(members)[name := Strings([])]
    {
      if name !in members {
        members := members[name := Strings([])];
      }
      Install(Some(kind), atLeast);
    }

    /** The value functions: store one value; the answer says whether to continue. */
    method StoreValue(kind: Binding, arg: string) returns (more: bool)
      modifies this`members, this`errors
      ensures more == Continues(kind, arg)
      ensures more <==> kind.MaybeEmptyList? || kind.NonEmptyList? || kind.ListOfLists?
                        || (kind.Callback? && kind.continues(arg))
      ensures members == old(members)[keyword := Stored(old(members), keyword, kind, arg)]
      ensures errors == if kind.NonEmptyText? && arg == ""
                        then AddKeywordError(old(errors), keyword, EmptyString) else old(errors)
    {
      match kind {
        case MaybeEmptyList =>
          AppendValue(arg);
          more := true;
        case NonEmptyList =>
          AppendValue(arg);
          more := true;
        case ListOfLists =>
          var lists := if keyword in members && members[keyword].Lists? then members[keyword].lists else [];
          if lists == [] {
            lists := [[]];
            assert lists[0] + [arg] == [arg];
            assert lists[0 := lists[0] + [arg]] == [[arg]];
          }
          var last := |lists| - 1;
          members := members[keyword := Lists(lists[last := lists[last] + [arg]])];
          more := true;
        case Callback(_, continues) =>
          AppendValue(arg);
          more := continues(arg);
        case NonEmptyText =>
          if arg == "" {
            errors := AddKeywordError(errors, keyword, EmptyString);
          }
          members := members[keyword := String(arg)];
          more := false;
        case _ =>
          members := members[keyword := String(arg)];
          more := false;
      }
    }

    method AppendValue(arg: string)
      modifies this`members
      ensures var list := if keyword in old(members) && old(members)[keyword].Strings?
                          then old(members)[keyword].list else [];
              members == old(members)[keyword := Strings(list + [arg])]
    {
      var list := if keyword in members && members[keyword].Strings? then members[keyword].list else [];
      members := members[keyword := Strings(list + [arg])];
    }

    /** The body of the loop in Parse. */
    method ConsumeNext(arg: string)
      requires Sorted(bindings.keywords)
      modifies this
      ensures Now() == Next(bindings, old(Now()), arg).(pos := old(pos) + 1)
    {
      Consume(arg);
      pos := pos + 1;
    }

    /** Instance::Parse on a fresh instance. */
    method Parse(args: seq<string>, pos0: nat)
      requires Sorted(bindings.keywords)
      requires Now() == State("", 0, 0, 0, None, false, map[], map[], map[], [])
      modifies this
      ensures forall name | IsKeyword(bindings, name) :: MemberHolds(bindings, args, pos0, name, members)
      ensures MembersOk(bindings, args, pos0, |args|, members)
      ensures positionals == Positionals(bindings, args, pos0, |args|)
      ensures unparsed == UnparsedArgs(bindings, args, pos0, |args|)
      ensures MissingOk(bindings, args, pos0, |args|, |args|, errors)
      ensures EmptyOk(bindings, args, pos0, |args|, errors)
    {
      pos := pos0;
      StartStep(bindings, args, pos0, Now());
      for n := 0 to |args|
        invariant Consumed(bindings, args, pos0, n, Now())
      {
        ConsumeStep(bindings, args, pos0, n, Now());
        ConsumeNext(args[n]);
      }
      FinishStep(bindings, args, pos0, Now());
      FinishKeyword();
      forall name | IsKeyword(bindings, name)
        ensures MemberHolds(bindings, args, pos0, name, members)
      {
        MembersHold(bindings, args, pos0, name, members);
      }
    }
  }

  // ---------------------------------------------------------------- the steps

  /** A value belongs to the last keyword before it. */
  lemma ValueOwner(b: Bindings, args: seq<string>, pos: nat, n: nat)
    requires n < |args| && ClassOf(b, args, pos, n).Value?
    ensures LastKeyword(b, args, n) == Some(ClassOf(b, args, pos, n).owner)
  {
  }

  lemma {:induction false} OccurredBefore(b: Bindings, args: seq<string>, pos: nat, n: nat, j: nat)
    requires j < n <= |args| && IsKeyword(b, args[j])
    ensures Occurrences(b, args, pos, args[j], n) != []
  {
    if j < n - 1 {
      OccurredBefore(b, args, pos, n - 1, j);
    }
  }

  lemma ControlStep(b: Bindings, args: seq<string>, pos: nat, n: nat, s: State)
    requires n < |args| && ControlOk(b, args, pos, n, s)
    ensures ControlOk(b, args, pos, n + 1, Next(b, s, args[n]).(pos := s.pos + 1))
  {
    var s' := Next(b, s, args[n]).(pos := s.pos + 1);
    var last := LastKeyword(b, args, n);
    if IsKeyword(b, args[n]) {
      assert LastKeyword(b, args, n + 1) == Some(n);
      NoValuesYet(b, args, pos, n, n + 1);
      assert StillTaking(b, args, n, n + 1) <==> TakesValues(BindingOf(b, args[n]));
    } else {
      assert LastKeyword(b, args, n + 1) == last;
      if last.Some? {
        assert StillTaking(b, args, last.value, n + 1) <==>
          StillTaking(b, args, last.value, n) && Continues(BindingOf(b, args[last.value]), args[n]);
      }
    }
  }

  /** No argument up to and including j is a value of the keyword at j. */
  lemma {:induction false} NoValuesYet(b: Bindings, args: seq<string>, pos: nat, j: nat, n: nat)
    requires n <= j + 1 && n <= |args| && j < |args|
    ensures ValuesTaken(b, args, pos, j, n) == 0
  {
    if n > 0 {
      NoValuesYet(b, args, pos, j, n - 1);
    }
  }

  lemma {:induction false} ConcatMore(lists: seq<seq<string>>, arg: string)
    ensures Concat(lists + [[]]) == Concat(lists)
    ensures lists != [] ==>
      Concat(lists[|lists| - 1 := lists[|lists| - 1] + [arg]]) == Concat(lists) + [arg]
  {
    assert (lists + [[]])[..|lists|] == lists;
    if lists != [] {
      var k := |lists| - 1;
      var more := lists[k := lists[k] + [arg]];
      assert more[..k] == lists[..k];
      assert Concat(lists[..k]) + (lists[k] + [arg]) == Concat(lists[..k]) + lists[k] + [arg];
    }
  }

  /** The member after one more occurrence is the opened member. */
  lemma OpenedIsMember(members: map<string, Member>, name: string, kind: Binding, occurrences: seq<seq<string>>)
    requires name in members <==> occurrences != []
    requires name in members ==> members[name] == MemberOf(kind, occurrences)
    ensures Opened(members, name, kind) == MemberOf(kind, occurrences + [[]])
  {
    ConcatMore(occurrences, "");
  }

  /** The member after one more value is the stored member. */
  lemma StoredIsMember(
      members: map<string, Member>, name: string, kind: Binding, occurrences: seq<seq<string>>, arg: string)
    requires TakesValues(kind) && occurrences != [] && name in members
    requires members[name] == MemberOf(kind, occurrences)
    ensures Stored(members, name, kind, arg)
            == MemberOf(kind, occurrences[|occurrences| - 1 := occurrences[|occurrences| - 1] + [arg]])
  {
    ConcatMore(occurrences, arg);
  }

  lemma MembersStep(b: Bindings, args: seq<string>, pos: nat, n: nat, s: State)
    requires n < |args| && ControlOk(b, args, pos, n, s) && MembersOk(b, args, pos, n, s.members)
    ensures MembersOk(b, args, pos, n + 1, Next(b, s, args[n]).members)
  {
    var members' := Next(b, s, args[n]).members;
    var c := ClassOf(b, args, pos, n);
    forall name | IsKeyword(b, name)
      ensures var occurrences := Occurrences(b, args, pos, name, n + 1);
        && (name in members' <==> occurrences != [])
        && (name in members' ==> members'[name] == MemberOf(BindingOf(b, name), occurrences))
    {
      var before := Occurrences(b, args, pos, name, n);
      if c.Keyword? && args[n] == name {
        OpenedIsMember(s.members, name, BindingOf(b, name), before);
      } else if c.Value? && args[c.owner] == name {
        ValueOwner(b, args, pos, n);
        OccurredBefore(b, args, pos, n, c.owner);
        StoredIsMember(s.members, name, BindingOf(b, name), before, args[n]);
      }
    }
  }

  /** Only the count of the last keyword moves. */
  lemma CountsStep(b: Bindings, args: seq<string>, pos: nat, n: nat, j: nat)
    requires n < |args| && j < Unfinished(b, args, n)
    ensures ValuesTaken(b, args, pos, j, n + 1) == ValuesTaken(b, args, pos, j, n)
  {
    if ClassOf(b, args, pos, n).Value? { ValueOwner(b, args, pos, n); }
  }

  /** A new keyword, or the end, settles whether the one before was starved. */
  lemma MissingSettled(b: Bindings, args: seq<string>, pos: nat, n: nat, s: State)
    requires n <= |args| && ControlOk(b, args, pos, n, s)
    requires MissingOk(b, args, pos, n, Unfinished(b, args, n), s.errors)
    ensures MissingOk(b, args, pos, n, n, Finished(s).errors)
  {
    var last := LastKeyword(b, args, n);
    var upto := Unfinished(b, args, n);
    forall name
      ensures HasError(Finished(s).errors, name, MissingValue) <==>
              exists j :: 0 <= j < n && Starved(b, args, pos, n, name, j)
    {
      assert last.Some? ==> (Starved(b, args, pos, n, name, last.value) <==>
                             name == s.keyword && s.valuesSeen < s.valuesExpected);
      assert forall j | upto <= j < n && Starved(b, args, pos, n, name, j) :: last == Some(j);
      assert HasError(s.errors, name, MissingValue) <==> exists j :: 0 <= j < upto && Starved(b, args, pos, n, name, j);
    }
  }

  /** Counts that do not move leave the record of missing values correct. */
  lemma MissingCarries(b: Bindings, args: seq<string>, pos: nat, n: nat, n': nat, upto: nat, errors: Errors)
    requires n <= |args| && n' <= |args| && MissingOk(b, args, pos, n, upto, errors)
    requires forall j: nat | j < upto && j < |args| && IsKeyword(b, args[j]) ::
               ValuesTaken(b, args, pos, j, n') == ValuesTaken(b, args, pos, j, n)
    ensures MissingOk(b, args, pos, n', upto, errors)
  {
    forall name
      ensures HasError(errors, name, MissingValue) <==> exists j :: 0 <= j < upto && Starved(b, args, pos, n', name, j)
    {
      if j :| 0 <= j < upto && Starved(b, args, pos, n', name, j) {
        assert Starved(b, args, pos, n, name, j);
      }
      if j :| 0 <= j < upto && Starved(b, args, pos, n, name, j) {
        assert Starved(b, args, pos, n', name, j);
      }
    }
  }

  lemma MissingStep(b: Bindings, args: seq<string>, pos: nat, n: nat, s: State)
    requires n < |args| && ControlOk(b, args, pos, n, s)
    requires MissingOk(b, args, pos, n, Unfinished(b, args, n), s.errors)
    ensures MissingOk(b, args, pos, n + 1, Unfinished(b, args, n + 1), Next(b, s, args[n]).errors)
  {
    var errors', upto, n' := Next(b, s, args[n]).errors, Unfinished(b, args, n), n + 1;
    if IsKeyword(b, args[n]) {
      MissingSettled(b, args, pos, n, s);
      MissingCarries(b, args, pos, n, n', n, errors');
    } else {
      assert forall name :: HasError(errors', name, MissingValue) <==> HasError(s.errors, name, MissingValue);
      forall j: nat | j < upto && j < |args| && IsKeyword(b, args[j])
        ensures ValuesTaken(b, args, pos, j, n') == ValuesTaken(b, args, pos, j, n)
      {
        CountsStep(b, args, pos, n, j);
      }
      MissingCarries(b, args, pos, n, n', upto, errors');
    }
  }

  lemma EmptyStep(b: Bindings, args: seq<string>, pos: nat, n: nat, s: State)
    requires n < |args| && ControlOk(b, args, pos, n, s) && EmptyOk(b, args, pos, n, s.errors)
    ensures EmptyOk(b, args, pos, n + 1, Next(b, s, args[n]).errors)
  {
    var errors' := Next(b, s, args[n]).errors;
    forall name
      ensures HasError(errors', name, EmptyString) <==>
              exists k :: 0 <= k < n + 1 && EmptyValue(b, args, pos, name, k)
    {
      assert HasError(errors', name, EmptyString) <==>
             HasError(s.errors, name, EmptyString) || EmptyValue(b, args, pos, name, n);
      if k :| 0 <= k < n + 1 && EmptyValue(b, args, pos, name, k) {
        assert k == n || (0 <= k < n && EmptyValue(b, args, pos, name, k));
      }
    }
  }

  lemma ConsumeStep(b: Bindings, args: seq<string>, pos: nat, n: nat, s: State)
    requires n < |args| && Consumed(b, args, pos, n, s)
    ensures Consumed(b, args, pos, n + 1, Next(b, s, args[n]).(pos := s.pos + 1))
  {
    ControlStep(b, args, pos, n, s);
    MembersStep(b, args, pos, n, s);
    MissingStep(b, args, pos, n, s);
    EmptyStep(b, args, pos, n, s);
    OutputStep(b, args, pos, n, s);
  }

  lemma OutputStep(b: Bindings, args: seq<string>, pos: nat, n: nat, s: State)
    requires n < |args| && ControlOk(b, args, pos, n, s)
    requires s.positionals == Positionals(b, args, pos, n) && s.unparsed == UnparsedArgs(b, args, pos, n)
    ensures Next(b, s, args[n]).positionals == Positionals(b, args, pos, n + 1)
    ensures Next(b, s, args[n]).unparsed == UnparsedArgs(b, args, pos, n + 1)
  {
  }

  lemma StartStep(b: Bindings, args: seq<string>, pos: nat, s: State)
    requires s == State("", pos, 0, 0, None, false, map[], map[], map[], [])
    ensures Consumed(b, args, pos, 0, s)
  {
  }

  lemma FinishStep(b: Bindings, args: seq<string>, pos: nat, s: State)
    requires Consumed(b, args, pos, |args|, s)
    ensures MissingOk(b, args, pos, |args|, |args|, Finished(s).errors)
    ensures EmptyOk(b, args, pos, |args|, Finished(s).errors)
  {
    MissingSettled(b, args, pos, |args|, s);
    assert forall name :: HasError(Finished(s).errors, name, EmptyString) <==> HasError(s.errors, name, EmptyString);
  }

  // ------------------------------------------------- every argument, once each

  /** The positional ones among the first n arguments, in order. */
  ghost function PositionalArgs(b: Bindings, args: seq<string>, pos: nat, n: nat): seq<string>
    requires n <= |args|
  {
    if n == 0 then []
    else PositionalArgs(b, args, pos, n - 1)
         + (if ClassOf(b, args, pos, n - 1) == Positional then [args[n - 1]] else [])
  }

  /** How many of the first n arguments are keywords before position m, or values of those. */
  ghost function OwnedArgs(b: Bindings, args: seq<string>, pos: nat, m: nat, n: nat): nat
    requires m <= |args| && n <= |args|
  {
    if m == 0 then 0
    else OwnedArgs(b, args, pos, m - 1, n)
         + (if IsKeyword(b, args[m - 1]) then 1 + ValuesTaken(b, args, pos, m - 1, n) else 0)
  }

  /** One more argument is counted for its owner, if it has one. */
  lemma {:induction false} OwnedStep(b: Bindings, args: seq<string>, pos: nat, m: nat, n: nat)
    requires m <= n < |args|
    ensures var c := ClassOf(b, args, pos, n);
            OwnedArgs(b, args, pos, m, n + 1)
            == OwnedArgs(b, args, pos, m, n) + (if c.Value? && c.owner < m then 1 else 0)
  {
    if m > 0 {
      OwnedStep(b, args, pos, m - 1, n);
      if ClassOf(b, args, pos, n).Value? { ValueOwner(b, args, pos, n); }
    }
  }

  /** Keywords with the values they took, positional and unparsed arguments: together all arguments, none twice. */
  lemma {:induction false} EveryArgumentOnce(b: Bindings, args: seq<string>, pos: nat, n: nat)
    requires n <= |args|
    ensures OwnedArgs(b, args, pos, n, n) + |PositionalArgs(b, args, pos, n)| + |UnparsedArgs(b, args, pos, n)| == n
  {
    if n > 0 {
      EveryArgumentOnce(b, args, pos, n - 1);
      OwnedStep(b, args, pos, n - 1, n - 1);
      NoValuesYet(b, args, pos, n - 1, n);
      if ClassOf(b, args, pos, n - 1).Value? { ValueOwner(b, args, pos, n - 1); }
    }
  }

  // --------------------------------------------- what each kind of keyword takes

  /** The keyword at j is the last one up to argument k. */
  ghost predicate Owns(b: Bindings, args: seq<string>, j: nat, k: nat) {
    j < k < |args| && IsKeyword(b, args[j]) && forall m | j < m <= k :: !IsKeyword(b, args[m])
  }

  lemma {:induction false} LastOwner(b: Bindings, args: seq<string>, j: nat, k: nat, n: nat)
    requires Owns(b, args, j, k) && j < n <= k + 1
    ensures LastKeyword(b, args, n) == Some(j)
  {
    if n > j + 1 { LastOwner(b, args, j, k, n - 1); }
  }

  /**
    The arguments behind a keyword, up to the next one: a flag takes none, a text
    the first, a list all of them, and a callback all up to and including the first
    at which it stops.
   */
  lemma ArgumentAfter(b: Bindings, args: seq<string>, pos: nat, j: nat, k: nat)
    requires Owns(b, args, j, k)
    ensures var c := ClassOf(b, args, pos, k);
            match BindingOf(b, args[j])
            case Flag => c == Unparsed
            case Text => c == if k == j + 1 then Value(j) else Unparsed
            case MaybeEmptyText => c == if k == j + 1 then Value(j) else Unparsed
            case NonEmptyText => c == if k == j + 1 then Value(j) else Unparsed
            case MaybeText => c == if k == j + 1 then Value(j) else Unparsed
            case MaybeEmptyList => c == Value(j)
            case NonEmptyList => c == Value(j)
            case ListOfLists => c == Value(j)
            case Callback(_, f) => c == if forall m | j < m < k :: f(args[m]) then Value(j) else Unparsed
  {
    LastOwner(b, args, j, k, k);
    var kind := BindingOf(b, args[j]);
    if k > j + 1 {
      assert StillTaking(b, args, j, k) ==> Continues(kind, args[j + 1]);
    }
    if kind.Callback? {
      assert StillTaking(b, args, j, k) <==> forall m | j < m < k :: kind.continues(args[m]);
    }
  }

  /** In front of the first keyword an argument is positional if its position is bound. */
  lemma {:induction false} ArgumentBefore(b: Bindings, args: seq<string>, pos: nat, k: nat)
    requires k < |args| && forall m | 0 <= m <= k :: !IsKeyword(b, args[m])
    ensures ClassOf(b, args, pos, k) == if pos + k in b.positions then Positional else Unparsed
  {
  }

  /** A keyword is what has an entry in the keyword map. */
  lemma KeywordsAreNames(b: Bindings, args: seq<string>, pos: nat, k: nat)
    requires k < |args|
    ensures ClassOf(b, args, pos, k) == Keyword <==>
            exists m :: 0 <= m < |b.keywords| && b.keywords[m].0 == args[k]
  {
    LookupFinds(b.keywords, args[k]);
  }

  /** The keyword at j has no argument that could be its value. */
  ghost predicate NothingFollows(b: Bindings, args: seq<string>, j: nat) {
    j + 1 >= |args| || IsKeyword(b, args[j + 1])
  }

  /** A keyword takes values exactly when the first argument behind it is one. */
  lemma {:induction false} TakesSome(b: Bindings, args: seq<string>, pos: nat, j: nat, n: nat)
    requires j < n <= |args| && IsKeyword(b, args[j])
    ensures ValuesTaken(b, args, pos, j, n) > 0 <==> n > j + 1 && ClassOf(b, args, pos, j + 1) == Value(j)
  {
    NoValuesYet(b, args, pos, j, j + 1);
    if n > j + 1 {
      TakesSome(b, args, pos, j, n - 1);
      if ClassOf(b, args, pos, n - 1) == Value(j) && n > j + 2 {
        FirstIsTaken(b, args, pos, j, n - 1);
      }
    }
  }

  lemma FirstIsTaken(b: Bindings, args: seq<string>, pos: nat, j: nat, k: nat)
    requires j + 1 < k < |args| && IsKeyword(b, args[j]) && ClassOf(b, args, pos, k) == Value(j)
    ensures ClassOf(b, args, pos, j + 1) == Value(j)
  {
    ValueOwner(b, args, pos, k);
    assert Owns(b, args, j, k) && Owns(b, args, j, j + 1);
    LastOwner(b, args, j, j + 1, j + 1);
  }

  /**
    When a value is missing: for a text and for a nonempty list when nothing follows
    the keyword; never for a flag, an optional text and the other lists; for a
    callback when it took fewer values than it expects.
   */
  lemma MissingValueOf(b: Bindings, args: seq<string>, pos: nat, j: nat)
    requires j < |args| && IsKeyword(b, args[j])
    ensures var starved := Starved(b, args, pos, |args|, args[j], j);
            match BindingOf(b, args[j])
            case Flag => !starved
            case Text => starved <==> NothingFollows(b, args, j)
            case MaybeEmptyText => starved <==> NothingFollows(b, args, j)
            case NonEmptyText => starved <==> NothingFollows(b, args, j)
            case MaybeText => !starved
            case MaybeEmptyList => !starved
            case NonEmptyList => starved <==> NothingFollows(b, args, j)
            case ListOfLists => !starved
            case Callback(expected, _) => starved <==> ValuesTaken(b, args, pos, j, |args|) < expected
  {
    TakesSome(b, args, pos, j, |args|);
    if !NothingFollows(b, args, j) {
      ArgumentAfter(b, args, pos, j, j + 1);
    }
  }

  /** The values that the occurrences of a keyword take among the first n arguments, in order. */
  ghost function ValuesOf(b: Bindings, args: seq<string>, pos: nat, name: string, n: nat): seq<string>
    requires n <= |args|
  {
    if n == 0 then []
    else ValuesOf(b, args, pos, name, n - 1)
         + (if ClassOf(b, args, pos, n - 1).Value? && ClassOf(b, args, pos, n - 1).owner < |args|
               && args[ClassOf(b, args, pos, n - 1).owner] == name then [args[n - 1]] else [])
  }

  /** The occurrences one behind the other hold all the values, in order. */
  lemma {:induction false} OccurrencesHoldValues(b: Bindings, args: seq<string>, pos: nat, name: string, n: nat)
    requires n <= |args|
    ensures Concat(Occurrences(b, args, pos, name, n)) == ValuesOf(b, args, pos, name, n)
  {
    if n > 0 {
      OccurrencesHoldValues(b, args, pos, name, n - 1);
      var before := Occurrences(b, args, pos, name, n - 1);
      var c := ClassOf(b, args, pos, n - 1);
      if c.Value? {
        ValueOwner(b, args, pos, n - 1);
        OccurredBefore(b, args, pos, n - 1, c.owner);
      }
      ConcatMore(before, args[n - 1]);
    }
  }

  /** How often a keyword occurs. */
  ghost function Times(args: seq<string>, name: string): nat {
    multiset(args)[name]
  }

  lemma {:induction false} OneListEach(b: Bindings, args: seq<string>, pos: nat, name: string, n: nat)
    requires n <= |args| && IsKeyword(b, name)
    ensures |Occurrences(b, args, pos, name, n)| == Times(args[..n], name)
  {
    if n > 0 {
      OneListEach(b, args, pos, name, n - 1);
      assert args[..n] == args[..n - 1] + [args[n - 1]];
    }
  }

  /**
    What the member of a keyword holds: nothing if the keyword does not occur; else a
    flag is set, a text is the last value, or empty, a list has all the values, and a
    list of lists has them too, in one list for each occurrence.
   */
  ghost predicate MemberHolds(
      b: Bindings, args: seq<string>, pos: nat, name: string, members: map<string, Member>)
    requires IsKeyword(b, name)
  {
    && (name in members <==> name in args)
    && (name in members ==>
          var values, member := ValuesOf(b, args, pos, name, |args|), members[name];
          match BindingOf(b, name)
          case Flag => member == IsSet
          case Text => member == String(LastOf(values))
          case MaybeEmptyText => member == String(LastOf(values))
          case NonEmptyText => member == String(LastOf(values))
          case MaybeText => member == String(LastOf(values))
          case MaybeEmptyList => member == Strings(values)
          case NonEmptyList => member == Strings(values)
          case Callback(_, _) => member == Strings(values)
          case ListOfLists =>
            && member == Lists(Occurrences(b, args, pos, name, |args|))
            && Concat(member.lists) == values && |member.lists| == Times(args, name))
  }

  function LastOf(values: seq<string>): string {
    if values == [] then "" else values[|values| - 1]
  }

  lemma MembersHold(b: Bindings, args: seq<string>, pos: nat, name: string, members: map<string, Member>)
    requires IsKeyword(b, name) && MembersOk(b, args, pos, |args|, members)
    ensures MemberHolds(b, args, pos, name, members)
  {
    var occurrences := Occurrences(b, args, pos, name, |args|);
    OccurrencesHoldValues(b, args, pos, name, |args|);
    OneListEach(b, args, pos, name, |args|);
    assert args[..|args|] == args;
    assert name in multiset(args) <==> name in args;
  }
}
