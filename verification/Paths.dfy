/** File names as kwsys takes them apart: GetFilenamePath and GetFilenameName. */
module Paths {

  /** What the names depend on: the home directories (HOME is that of no user), and the platform. */
  datatype Platform = Platform(homes: map<string, string>, windows: bool)

  /** std::string::rfind; the length of the text stands for npos. */
  function LastOf(t: string, seps: set<char>): (n: nat)
    ensures n <= |t| && (n < |t| ==> t[n] in seps)
    ensures forall k | 0 <= k < |t| && t[k] in seps :: n < |t| && k <= n
  {
    if t == "" then 0
    else if t[|t| - 1] in seps then |t| - 1
    else
      var n := LastOf(t[..|t| - 1], seps);
      if n == |t| - 1 then |t| else n
  }

  /** std::string::find, likewise. */
  function FirstOf(t: string, c: char): (n: nat)
    ensures n <= |t| && (n < |t| ==> t[n] == c) && forall k | 0 <= k < n :: t[k] != c
  {
    if t == "" || t[0] == c then 0 else 1 + FirstOf(t[1..], c)
  }

  function Forward(t: string): (r: string)
    ensures |r| == |t| && forall k | 0 <= k < |t| :: r[k] == if t[k] == '\\' then '/' else t[k]
  {
    seq(|t|, k requires 0 <= k < |t| => if t[k] == '\\' then '/' else t[k])
  }

  /** Of repeated slashes one is kept. */
  function Collapsed(t: string): string {
    if |t| < 2 then t
    else if t[0] == '/' && t[1] == '/' then Collapsed(t[1..])
    else [t[0]] + Collapsed(t[1..])
  }

  /** Exactly two slashes at the front are kept. */
  function Unrepeated(t: string): string {
    if |t| >= 2 && t[0] == '/' && t[1] == '/' && (|t| == 2 || t[2] != '/') then [t[0]] + Collapsed(t[1..])
    else Collapsed(t)
  }

  function WithHome(p: Platform, t: string): string {
    if t == "" || t[0] != '~' then t
    else if |t| == 1 || t[1] == '/' || t[1] == '\0' then
      if "" in p.homes then p.homes[""] + t[1..] else t
    else
      var n := FirstOf(t, '/');
      if t[1..n] in p.homes then p.homes[t[1..n]] + t[n..] else t
  }

  function WithoutTrailingSlash(t: string): string {
    var n := |t|;
    if n > 1 && t[n - 1] == '/' && !(n == 3 && t[1] == ':') && t[n - 2] != '/' then t[..n - 1] else t
  }

  function ConvertToUnixSlashes(p: Platform, path: string): string {
    WithoutTrailingSlash(WithHome(p, Unrepeated(Forward(path))))
  }

  /** What is in front of the last slash; a root keeps its slash. */
  function PathPart(fn: string): string {
    var n := LastOf(fn, {'/'});
    if n == 0 && fn != "" then "/"
    else if n == 2 && n < |fn| && fn[1] == ':' then fn[..3]
    else if n == |fn| then ""
    else fn[..n]
  }

  /** What is behind the last separator, or the whole. */
  function NamePart(filename: string, separators: set<char>): string {
    var n := LastOf(filename, separators);
    if n < |filename| then filename[n + 1..] else filename
  }

  /** Also GetParentDirectory. */
  function GetFilenamePath(p: Platform, filename: string): string {
    PathPart(ConvertToUnixSlashes(p, filename))
  }

  function GetFilenameName(p: Platform, filename: string): string {
    NamePart(filename, if p.windows then {'/', '\\'} else {'/'})
  }

  // ------------------------------------------------------------- the two parts

  /** As CMake keeps paths: forward slashes, none repeated, none at the end but that of a root, no tilde in front. */
  predicate IsUnixPath(t: string) {
    && '\\' !in t && (t != "" ==> t[0] != '~')
    && (forall k | 0 < k < |t| :: !(t[k - 1] == '/' && t[k] == '/'))
    && (|t| > 1 && t[|t| - 1] == '/' ==> |t| == 3 && t[1] == ':')
  }

  lemma {:induction false} NothingCollapses(t: string)
    requires forall k | 0 < k < |t| :: !(t[k - 1] == '/' && t[k] == '/')
    ensures Collapsed(t) == t
  {
    if |t| >= 2 {
      assert !(t[0] == '/' && t[1] == '/');
      forall k | 0 < k < |t[1..]|
        ensures !(t[1..][k - 1] == '/' && t[1..][k] == '/')
      {
        var m := k + 1;
        assert t[1..][k - 1] == t[m - 1] && t[1..][k] == t[m];
      }
      NothingCollapses(t[1..]);
    }
  }

  lemma NothingRepeated(t: string)
    requires IsUnixPath(t)
    ensures Forward(t) == t && Unrepeated(t) == t
  {
    NothingCollapses(t);
    NoBackslash(t);
    if |t| >= 2 {
      var k := 1;
      assert !(t[k - 1] == '/' && t[k] == '/');
    }
  }

  lemma NoBackslash(t: string)
    requires '\\' !in t
    ensures Forward(t) == t
  {
    forall k | 0 <= k < |t|
      ensures Forward(t)[k] == t[k]
    {
      assert t[k] in t;
    }
  }

  lemma NothingTrails(t: string)
    requires IsUnixPath(t)
    ensures WithoutTrailingSlash(t) == t
  {
  }

  /** Such a path is not converted. */
  lemma UnixPathStays(p: Platform, t: string)
    requires IsUnixPath(t)
    ensures ConvertToUnixSlashes(p, t) == t
  {
    NothingRepeated(t);
    NothingTrails(t);
    assert WithHome(p, t) == t;
  }

  /** Is there a slash, and is the last one not that of a root? */
  predicate HasPlainParent(t: string) {
    exists k :: 0 < k < |t| && t[k] == '/' && !(k == 2 && t[1] == ':') && '/' !in t[k + 1..]
  }

  /**
    The parts of a path: the name has no slash, and the directory, a slash and the
    name make the path again exactly when its parent is not a root.
   */
  lemma PartsOfPath(p: Platform, t: string)
    requires IsUnixPath(t)
    ensures var dir, name := GetFilenamePath(p, t), GetFilenameName(p, t);
            && '/' !in name
            && (dir + "/" + name == t <==> HasPlainParent(t))
            && ('/' in t && !HasPlainParent(t) ==> dir + name == t)
            && ('/' !in t ==> dir == "" && name == t)
  {
    UnixPathStays(p, t);
    SameLast(t, p.windows);
    Parts(t);
  }

  lemma Parts(t: string)
    ensures var dir, name := PathPart(t), NamePart(t, {'/'});
            && '/' !in name
            && (dir + "/" + name == t <==> HasPlainParent(t))
            && ('/' in t && !HasPlainParent(t) ==> dir + name == t)
            && ('/' !in t ==> dir == "" && name == t)
  {
    var n, dir, name := LastOf(t, {'/'}), PathPart(t), NamePart(t, {'/'});
    PlainParent(t);
    if n < |t| {
      NoneBehind(t, n);
      assert t == t[..n] + "/" + t[n + 1..] && t == t[..n + 1] + t[n + 1..];
      assert !HasPlainParent(t) ==> dir == t[..n + 1];
    }
  }

  lemma NoneBehind(t: string, n: nat)
    requires n == LastOf(t, {'/'}) < |t|
    ensures '/' !in t[n + 1..]
  {
    var behind := t[n + 1..];
    forall c | c in behind
      ensures c != '/'
    {
      var k :| 0 <= k < |behind| && behind[k] == c;
      assert behind[k] == t[n + 1 + k];
    }
  }

  lemma PlainParent(t: string)
    ensures var n := LastOf(t, {'/'});
            HasPlainParent(t) <==> 0 < n < |t| && !(n == 2 && t[1] == ':')
  {
    var n := LastOf(t, {'/'});
    SlashBehind(t);
    if n < |t| { NoneBehind(t, n); }
  }

  /** Behind every slash but the last there is one more. */
  lemma SlashBehind(t: string)
    ensures forall k | 0 <= k < |t| && t[k] == '/' && k != LastOf(t, {'/'}) :: '/' in t[k + 1..]
  {
    var n := LastOf(t, {'/'});
    forall k | 0 <= k < |t| && t[k] == '/' && k != n
      ensures '/' in t[k + 1..]
    {
      assert t[k + 1..][n - k - 1] == t[n];
    }
  }

  lemma SameLast(t: string, windows: bool)
    requires '\\' !in t
    ensures NamePart(t, if windows then {'/', '\\'} else {'/'}) == NamePart(t, {'/'})
  {
    var n, m := LastOf(t, {'/', '\\'}), LastOf(t, {'/'});
    if n < |t| {
      assert t[n] == '/';
      assert n <= m < |t|;
    }
    if m < |t| {
      assert t[m] in {'/', '\\'};
      assert t[m] == '/' ==> m <= n < |t|;
    }
  }
}
