/**
  The help text of a cache entry: written as comment lines in front of the
  entry's key, and put together again when the cache file is read.
 */
module CacheHelp {
  import opened Options
  import opened Sequences

  /** Two slashes begin a comment line. */
  predicate IsComment(line: string) {
    |line| >= 2 && line[0] == '/' && line[1] == '/'
  }

  /** The two characters backslash and n stand for a newline. */
  predicate Escaped(body: string) {
    |body| >= 2 && body[0] == '\\' && body[1] == 'n'
  }

  // ---------------------------------------------------------------- writing

  class OutputStream {
    var text: string

    constructor ()
      ensures text == ""
    {
      text := "";
    }

    method Put(t: string)
      modifies this
      ensures text == old(text) + t
    {
      text := text + t;
    }
  }

  /** Position i ends the line that began at pos. */
  predicate EndsLine(s: string, pos: nat, i: nat)
    requires i <= |s|
  {
    i == |s| || s[i] == '\n' || (i - pos >= 60 && s[i] == ' ')
  }

  /** The pieces the help text from pos on is cut into, when positions before i are known not to end a piece. */
  function Pieces(s: string, pos: nat, i: nat): seq<string>
    requires pos < i
    decreases |s| + 1 - i
  {
    if i > |s| then []
    else if EndsLine(s, pos, i) then [s[pos..i]] + Pieces(s, i, i + 1)
    else Pieces(s, pos, i + 1)
  }

  /** A piece as the body of a comment line: a newline at its front becomes the characters backslash and n. */
  function Body(piece: string): string
    requires piece != ""
  {
    if piece[0] == '\n' then "\\n" + piece[1..] else piece
  }

  function Comment(piece: string): string
    requires piece != ""
  {
    "//" + Body(piece)
  }

  function Comments(pieces: seq<string>): string
    requires "" !in pieces
  {
    if pieces == [] then "" else Comment(pieces[0]) + "\n" + Comments(pieces[1..])
  }

  /** Cutting loses nothing, and a newline can only be the first character of a piece. */
  lemma {:induction false} PiecesJoin(s: string, pos: nat, i: nat)
    requires pos < i && (i <= |s| || pos == |s|)
    requires forall k | pos < k < i && k < |s| :: s[k] != '\n'
    ensures "" !in Pieces(s, pos, i)
    ensures Joined(Pieces(s, pos, i)) == s[pos..]
    ensures forall p, k | p in Pieces(s, pos, i) && 0 < k < |p| :: p[k] != '\n'
    decreases |s| + 1 - i
  {
    if i > |s| {
      assert s[pos..] == "";
    } else if EndsLine(s, pos, i) {
      PiecesJoin(s, i, i + 1);
      PieceCut(s, pos, i, Pieces(s, i, i + 1));
    } else {
      PiecesJoin(s, pos, i + 1);
    }
  }

  lemma PieceCut(s: string, pos: nat, i: nat, rest: seq<string>)
    requires pos < i <= |s| && Joined(rest) == s[i..] && "" !in rest
    requires forall k | pos < k < i :: s[k] != '\n'
    requires forall p, k | p in rest && 0 < k < |p| :: p[k] != '\n'
    ensures Joined([s[pos..i]] + rest) == s[pos..] && "" !in [s[pos..i]] + rest
    ensures forall p, k | p in [s[pos..i]] + rest && 0 < k < |p| :: p[k] != '\n'
  {
    assert ([s[pos..i]] + rest)[1..] == rest;
    assert s[pos..] == s[pos..i] + s[i..];
  }

  /**
    How the help text is cut, piece by piece: in front of every newline, and in front
    of the first blank that has sixty characters or more in front of it.
   */
  ghost predicate CutRight(pieces: seq<string>) {
    && "" !in pieces
    && (forall n, k | 0 <= n < |pieces| && 0 < k < |pieces[n]| ::
          pieces[n][k] != '\n' && (k >= 60 ==> pieces[n][k] != ' '))
    && (forall n | 0 < n < |pieces| ::
          pieces[n][0] == '\n' || (pieces[n][0] == ' ' && |pieces[n - 1]| >= 60))
  }

  lemma {:induction false} PiecesCutRight(s: string, pos: nat, i: nat)
    requires pos < i <= |s| && forall k | pos < k < i :: s[k] != '\n' && (k - pos >= 60 ==> s[k] != ' ')
    ensures CutRight(Pieces(s, pos, i))
    ensures Pieces(s, pos, i) != [] && |Pieces(s, pos, i)[0]| >= i - pos && Pieces(s, pos, i)[0][0] == s[pos]
    decreases |s| - i
  {
    if !EndsLine(s, pos, i) {
      PiecesCutRight(s, pos, i + 1);
    } else if i == |s| {
      assert Pieces(s, i, i + 1) == [];
    } else {
      var rest := Pieces(s, i, i + 1);
      PiecesCutRight(s, i, i + 1);
      assert forall n | 0 < n < |rest| + 1 :: ([s[pos..i]] + rest)[n] == rest[n - 1];
    }
  }

  /** Where the first piece ends, and what it cannot contain. */
  lemma FirstCut(pieces: seq<string>)
    requires CutRight(pieces) && pieces != []
    ensures var t, n := Joined(pieces), |pieces[0]|;
            && 0 < n <= |t| && t[..n] == pieces[0] && t[n..] == Joined(pieces[1..])
            && (n < |t| ==> t[n] == '\n' || (t[n] == ' ' && n >= 60))
            && (forall k | 0 < k < n :: t[k] != '\n' && (k >= 60 ==> t[k] != ' '))
  {
    var t, n := Joined(pieces), |pieces[0]|;
    assert pieces[0] in pieces && pieces[0] != "";
    assert forall k | 0 <= k < n :: t[k] == pieces[0][k];
    if |pieces| > 1 {
      assert pieces[1] in pieces && pieces[1] != "";
      assert Joined(pieces[1..]) == pieces[1] + Joined(pieces[1..][1..]);
      assert t[n] == pieces[1][0];
    } else {
      assert Joined(pieces[1..]) == "";
    }
  }

  lemma NothingJoined(pieces: seq<string>)
    requires "" !in pieces
    ensures Joined(pieces) == "" <==> pieces == []
  {
    if pieces != [] {
      assert pieces[0] in pieces && |Joined(pieces)| >= |pieces[0]|;
    }
  }

  lemma CutRightTail(pieces: seq<string>)
    requires CutRight(pieces) && pieces != []
    ensures CutRight(pieces[1..])
  {
    assert forall p | p in pieces[1..] :: p in pieces;
  }

  lemma {:induction false} CutOnce(a: seq<string>, b: seq<string>)
    requires CutRight(a) && CutRight(b) && Joined(a) == Joined(b)
    ensures a == b
  {
    NothingJoined(a);
    NothingJoined(b);
    if a != [] {
      FirstCut(a);
      FirstCut(b);
      CutRightTail(a);
      CutRightTail(b);
      CutOnce(a[1..], b[1..]);
      assert a == [a[0]] + a[1..] && b == [b[0]] + b[1..];
    }
  }

  /** The pieces of a help text are the only right way to cut it. */
  lemma PiecesAreTheCut(s: string, pieces: seq<string>)
    ensures CutRight(pieces) && Joined(pieces) == s <==> pieces == Pieces(s, 0, 1)
  {
    PiecesJoin(s, 0, 1);
    assert s[0..] == s;
    if s == "" {
      assert Pieces(s, 0, 1) == [];
    } else {
      PiecesCutRight(s, 0, 1);
    }
    if CutRight(pieces) && Joined(pieces) == s {
      CutOnce(pieces, Pieces(s, 0, 1));
    }
  }

  /** Every piece is written as a line of two slashes and the piece, a newline at its front as backslash and n. */
  function CommentLines(pieces: seq<string>): string
    requires "" !in pieces
  {
    if pieces == [] then ""
    else "//" + (if pieces[0][0] == '\n' then "\\n" + pieces[0][1..] else pieces[0]) + "\n" + CommentLines(pieces[1..])
  }

  lemma {:induction false} LinesOfPieces(pieces: seq<string>)
    requires "" !in pieces
    ensures Comments(pieces) == CommentLines(pieces)
  {
    if pieces != [] { LinesOfPieces(pieces[1..]); }
  }

  /** What is written for a help text that is cut right. */
  lemma BlockIsWritten(s: string, pieces: seq<string>)
    requires CutRight(pieces) && Joined(pieces) == s
    ensures HelpBlock(s) == CommentLines(pieces)
  {
    PiecesAreTheCut(s, pieces);
    WrittenPieces(s, 0, 1);
    LinesOfPieces(pieces);
  }

  /** Every piece but the first begins with the newline or blank at which the text was cut. */
  lemma {:induction false} PiecesBegin(s: string, pos: nat, i: nat)
    requires pos < i && (i <= |s| || pos == |s|)
    ensures pos < |s| ==> |Pieces(s, pos, i)| > 0 && |Pieces(s, pos, i)[0]| > 0 && Pieces(s, pos, i)[0][0] == s[pos]
    ensures forall n | 0 < n < |Pieces(s, pos, i)| ::
              |Pieces(s, pos, i)[n]| > 0 && Pieces(s, pos, i)[n][0] in {'\n', ' '}
    decreases |s| + 1 - i
  {
    if i <= |s| {
      if EndsLine(s, pos, i) { PiecesBegin(s, i, i + 1); } else { PiecesBegin(s, pos, i + 1); }
    }
  }

  function Joined(pieces: seq<string>): string {
    if pieces == [] then "" else pieces[0] + Joined(pieces[1..])
  }

  /** What is written from the loop's state on. */
  function Written(s: string, pos: nat, i: nat): string
    requires pos < i
    decreases |s| + 1 - i
  {
    if i > |s| then ""
    else if EndsLine(s, pos, i) then Comment(s[pos..i]) + "\n" + Written(s, i, i + 1)
    else Written(s, pos, i + 1)
  }

  /** The comment block of a help text. */
  function HelpBlock(s: string): string {
    Written(s, 0, 1)
  }

  /** One comment line for each piece. */
  lemma {:induction false} WrittenPieces(s: string, pos: nat, i: nat)
    requires pos < i && "" !in Pieces(s, pos, i)
    ensures Written(s, pos, i) == Comments(Pieces(s, pos, i))
    decreases |s| + 1 - i
  {
    if i <= |s| {
      if EndsLine(s, pos, i) {
        var pieces := [s[pos..i]] + Pieces(s, i, i + 1);
        assert pieces[1..] == Pieces(s, i, i + 1);
        assert pieces[0] == s[pos..i];
        WrittenPieces(s, i, i + 1);
      } else {
        WrittenPieces(s, pos, i + 1);
      }
    }
  }

  /** One comment line: the piece from pos to i. */
  method OutputLine(fout: OutputStream, helpString: string, from: nat, i: nat)
    requires from < i <= |helpString|
    modifies fout
    ensures fout.text == old(fout.text) + (Comment(helpString[from..i]) + "\n")
  {
    var pos := from;
    fout.Put("//");
    if helpString[pos] == '\n' {
      pos := pos + 1;
      fout.Put("\\n");
    }
    var oneLine := helpString[pos..i];
    fout.Put(oneLine);
    fout.Put("\n");
    ghost var piece := helpString[from..i];
    assert helpString[from + 1..i] == piece[1..];
    LinePut(old(fout.text), piece);
  }

  lemma LinePut(text: string, piece: string)
    requires piece != ""
    ensures text + (Comment(piece) + "\n") ==
            (if piece[0] == '\n' then text + "//" + "\\n" + piece[1..] else text + "//" + piece) + "\n"
  {
    if piece[0] == '\n' {
      Assoc(text + "//", "\\n", piece[1..]);
    }
    Assoc(text, "//", Body(piece));
    Assoc(text, Comment(piece), "\n");
  }

  method OutputHelpString(fout: OutputStream, helpString: string)
    modifies fout
    ensures fout.text == old(fout.text) + HelpBlock(helpString)
  {
    var end: nat := |helpString|;
    if end == 0 {
      return;
    }
    var pos, i: nat := 0, 1;
    while i <= end
      invariant pos < i <= end + 1
      invariant old(fout.text) + HelpBlock(helpString) == fout.text + Written(helpString, pos, i)
    {
      if i == end || helpString[i] == '\n' || (i - pos >= 60 && helpString[i] == ' ') {
        Assoc(fout.text, Comment(helpString[pos..i]) + "\n", Written(helpString, i, i + 1));
        OutputLine(fout, helpString, pos, i);
        pos := i;
      }
      i := i + 1;
    }
  }

  /** A key that could be taken for something else is put in quotes. */
  predicate Quoted(key: string) {
    ':' in key || IsComment(key)
  }

  function KeyText(key: string): string {
    if Quoted(key) then "\"" + key + "\"" else key
  }

  method OutputKey(fout: OutputStream, key: string)
    modifies fout
    ensures fout.text == old(fout.text) + KeyText(key)
    ensures fout.text == old(fout.text)
                         + (if ':' in key || "//" <= key then ['"'] + key + ['"'] else key)
  {
    var q := if ':' in key || IsComment(key) then "\"" else "";
    fout.Put(q + key + q);
  }

  // ---------------------------------------------------------------- reading

  /** The characters before the first c. */
  function Until(t: string, c: char): (r: string)
    ensures |r| <= |t| && r == t[..|r|] && c !in r && (|r| < |t| ==> t[|r|] == c)
  {
    if t == "" || t[0] == c then "" else [t[0]] + Until(t[1..], c)
  }

  function WithoutReturn(line: string): string {
    if line != "" && line[|line| - 1] == '\r' then line[..|line| - 1] else line
  }

  /** The next line of the unread text as a C string, and what is left after it. */
  function NextLine(unread: string): string {
    Until(WithoutReturn(Until(unread, '\n')), '\0')
  }

  function AfterLine(unread: string): string {
    var n := |Until(unread, '\n')|;
    if n < |unread| then unread[n + 1..] else ""
  }

  /** Where c is first, or the end. */
  method Find(t: string, c: char) returns (n: nat)
    ensures n <= |t| && Until(t, c) == t[..n]
  {
    n := 0;
    while n < |t| && t[n] != c
      invariant n <= |t| && c !in t[..n]
    {
      n := n + 1;
    }
    UntilAtLeast(t, c, n);
  }

  class InputStream {
    var unread: string
    var failed: bool

    constructor (text: string)
      ensures unread == text && !failed
    {
      unread, failed := text, false;
    }

    /** std::getline. */
    method ReadLine() returns (line: string)
      requires failed ==> unread == ""
      modifies this
      ensures line == Until(old(unread), '\n') && unread == AfterLine(old(unread))
      ensures failed <==> old(unread) == ""
    {
      if unread == "" {
        failed := true;
        return "";
      }
      failed := false;
      var n := Find(unread, '\n');
      line := unread[..n];
      unread := if n < |unread| then unread[n + 1..] else "";
    }

    /** GetLineFromStream, and the C string of what it read. */
    method GetLine() returns (realbuffer: string)
      requires failed ==> unread == ""
      modifies this
      ensures realbuffer == NextLine(old(unread)) && unread == AfterLine(old(unread))
      ensures failed <==> old(unread) == ""
    {
      var line := ReadLine();
      if line != "" {
        if line[|line| - 1] == '\r' {
          line := line[..|line| - 1];
        }
      }
      var end := Find(line, '\0');
      realbuffer := line[..end];
    }
  }

  /** What the body of a comment line adds to the help text. */
  function Unescaped(body: string): string {
    if Escaped(body) then "\n" + body[2..] else body
  }

  datatype Entry = Entry(help: string, line: string, unread: string)

  /** From a line on: the help text of the comment lines, the first other line, and the unread text. */
  function ReadBlock(line: string, unread: string): Entry
    decreases |unread|, |line|
  {
    if !IsComment(line) then Entry("", line, unread)
    else
      var next := ReadBlock(NextLine(unread), AfterLine(unread));
      next.(help := Unescaped(line[2..]) + next.help)
  }

  function SkipBlanks(line: string): string {
    if line != "" && line[0] in {' ', '\t', '\r', '\n'} then SkipBlanks(line[1..]) else line
  }

  /** One round of the reading loop: nothing for a blank line or a remark. */
  function ReadEntry(unread: string): Option<Entry> {
    var line := SkipBlanks(NextLine(unread));
    if line == "" || line[0] == '#' then None else Some(ReadBlock(line, AfterLine(unread)))
  }

  function Prefixed(help: string, e: Entry): Entry {
    e.(help := help + e.help)
  }

  lemma LinesShrink(unread: string)
    ensures unread != "" ==> |AfterLine(unread)| < |unread|
    ensures unread == "" ==> NextLine(unread) == AfterLine(unread) == ""
  {
  }

  /** A comment line moves from the unread text to the help text. */
  lemma BlockStep(help: string, line: string, unread: string)
    requires IsComment(line)
    ensures Prefixed(help, ReadBlock(line, unread)) ==
            Prefixed(help + Unescaped(line[2..]), ReadBlock(NextLine(unread), AfterLine(unread)))
  {
    Assoc(help, Unescaped(line[2..]), ReadBlock(NextLine(unread), AfterLine(unread)).help);
  }

  /** The comment lines from the line at hand on. */
  method ReadComments(fin: InputStream, line: string) returns (entry: Entry)
    requires fin.failed ==> fin.unread == ""
    modifies fin
    ensures entry == ReadBlock(line, old(fin.unread)) && fin.unread == entry.unread
  {
    var helpString, realbuffer := "", line;
    ghost var all := ReadBlock(line, fin.unread);
    assert all == Prefixed("", all);
    while IsComment(realbuffer)
      invariant fin.failed ==> fin.unread == ""
      invariant all == Prefixed(helpString, ReadBlock(realbuffer, fin.unread))
      decreases |fin.unread|, |realbuffer|
    {
      LinesShrink(fin.unread);
      BlockStep(helpString, realbuffer, fin.unread);
      if |realbuffer| >= 4 && realbuffer[2] == '\\' && realbuffer[3] == 'n' {
        helpString := helpString + ("\n" + realbuffer[4..]);
      } else {
        helpString := helpString + realbuffer[2..];
      }
      realbuffer := fin.GetLine();
    }
    entry := Entry(helpString, realbuffer, fin.unread);
  }

  /** One round of the loop in LoadCache, up to the parsing of the entry's line. */
  method LoadEntry(fin: InputStream) returns (entry: Option<Entry>)
    requires !fin.failed
    modifies fin
    ensures entry == ReadEntry(old(fin.unread))
    ensures fin.unread == if entry.Some? then entry.value.unread else AfterLine(old(fin.unread))
  {
    var realbuffer := fin.GetLine();
    ghost var first := realbuffer;
    while realbuffer != "" && realbuffer[0] in {' ', '\t', '\r', '\n'}
      invariant SkipBlanks(realbuffer) == SkipBlanks(first)
      decreases |realbuffer|
    {
      realbuffer := realbuffer[1..];
    }
    if realbuffer == "" || realbuffer[0] == '#' {
      return None;
    }
    var block := ReadComments(fin, realbuffer);
    entry := Some(block);
  }

  // ------------------------------------------------------------- round trip

  /** What reading makes of a written piece. */
  function ReadBack(piece: string): string
    requires piece != ""
  {
    Unescaped(Until(WithoutReturn(Body(piece)), '\0'))
  }

  function AllReadBack(pieces: seq<string>): string
    requires "" !in pieces
  {
    if pieces == [] then "" else ReadBack(pieces[0]) + AllReadBack(pieces[1..])
  }

  /** The characters before the first c are at least those seen to be different. */
  lemma {:induction false} UntilAtLeast(t: string, c: char, k: nat)
    requires k <= |t| && forall j | 0 <= j < k :: t[j] != c
    ensures |Until(t, c)| >= k
  {
    if k > 0 { UntilAtLeast(t[1..], c, k - 1); }
  }

  lemma LineIsNext(line: string, after: string)
    requires '\n' !in line
    ensures NextLine(line + "\n" + after) == Until(WithoutReturn(line), '\0') && AfterLine(line + "\n" + after) == after
  {
    var t := line + "\n" + after;
    UntilAtLeast(t, '\n', |line|);
    assert t[|line|] == '\n' && t[..|line|] == line && t[|line| + 1..] == after;
    assert Until(t, '\n') == line;
  }

  /** A comment line is read as its piece, and then the text after it is left. */
  lemma CommentIsRead(piece: string, after: string)
    requires piece != "" && forall k | 0 < k < |piece| :: piece[k] != '\n'
    ensures var t := Comment(piece) + "\n" + after;
            AfterLine(t) == after && IsComment(NextLine(t)) && Unescaped(NextLine(t)[2..]) == ReadBack(piece)
  {
    assert piece[0] == '\n' || '\n' !in piece;
    LineIsNext(Comment(piece), after);
    CommentWithoutReturn(Body(piece));
  }

  lemma CommentWithoutReturn(body: string)
    requires body != ""
    ensures Until(WithoutReturn("//" + body), '\0') == "//" + Until(WithoutReturn(body), '\0')
  {
    assert WithoutReturn("//" + body) == "//" + WithoutReturn(body);
    SlashesStay(WithoutReturn(body));
  }

  lemma SlashesStay(t: string)
    ensures Until("//" + t, '\0') == "//" + Until(t, '\0')
  {
    assert ("//" + t)[1..] == "/" + t && ("/" + t)[1..] == t;
    assert Until("/" + t, '\0') == "/" + Until(t, '\0');
  }

  /** The reader goes through a written block and stops at the first line after it. */
  lemma {:induction false} BlockIsRead(pieces: seq<string>, after: string)
    requires "" !in pieces && forall p, k | p in pieces && 0 < k < |p| :: p[k] != '\n'
    requires !IsComment(NextLine(after))
    ensures var t := Comments(pieces) + after;
            ReadBlock(NextLine(t), AfterLine(t)) == Entry(AllReadBack(pieces), NextLine(after), AfterLine(after))
  {
    if pieces == [] {
      assert Comments(pieces) + after == after;
    } else {
      var more := Comments(pieces[1..]) + after;
      BlockIsRead(pieces[1..], after);
      CommentIsRead(pieces[0], more);
      Assoc(Comment(pieces[0]) + "\n", Comments(pieces[1..]), after);
    }
  }

  /** Survives being written and read. */
  predicate Survives(piece: string) {
    '\0' !in piece && !Escaped(piece) && (piece != "" ==> piece[|piece| - 1] != '\r')
  }

  /** Reading never adds to a piece; it gives the piece back unless something was cut off or unescaped. */
  lemma PieceReadBack(piece: string)
    requires piece != ""
    ensures |ReadBack(piece)| <= |piece|
    ensures |ReadBack(piece)| == |piece| <==> Survives(piece)
    ensures |ReadBack(piece)| == |piece| ==> ReadBack(piece) == piece
  {
    var kept := Until(WithoutReturn(Body(piece)), '\0');
    BodyKept(piece);
    if piece[0] == '\n' {
      UntilAtLeast(WithoutReturn(Body(piece)), '\0', 2);
      assert kept[0] == '\\' && kept[1] == 'n';
    }
    if kept == Body(piece) && piece[0] == '\n' {
      assert kept[2..] == piece[1..] && piece == "\n" + piece[1..];
    }
  }

  /** A body is read whole exactly when its piece has no NUL and does not end in a carriage return. */
  lemma BodyKept(piece: string)
    requires piece != ""
    ensures var body := Body(piece);
            var kept := Until(WithoutReturn(body), '\0');
            && |kept| <= |body| && (|kept| == |body| ==> kept == body)
            && (|kept| == |body| <==> '\0' !in piece && piece[|piece| - 1] != '\r')
  {
    var body := Body(piece);
    BodyEnds(piece);
    if body[|body| - 1] != '\r' && '\0' !in body {
      UntilAtLeast(body, '\0', |body|);
    }
  }

  lemma BodyEnds(piece: string)
    requires piece != ""
    ensures var body := Body(piece);
            && body != "" && ('\0' in body <==> '\0' in piece)
            && (body[|body| - 1] == '\r' <==> piece[|piece| - 1] == '\r')
  {
    if piece[0] == '\n' {
      var body := Body(piece);
      assert forall k | 2 <= k < |body| :: body[k] == piece[k - 1];
      assert forall k | 1 <= k < |piece| :: piece[k] == body[k + 1];
    }
  }

  /** Since no piece grows, the joined text is right exactly when every piece survives. */
  lemma {:induction false} AllSurvive(pieces: seq<string>)
    requires "" !in pieces
    ensures |AllReadBack(pieces)| <= |Joined(pieces)|
    ensures |AllReadBack(pieces)| == |Joined(pieces)| <==> forall p | p in pieces :: Survives(p)
    ensures (forall p | p in pieces :: Survives(p)) ==> AllReadBack(pieces) == Joined(pieces)
  {
    if pieces != [] {
      PieceReadBack(pieces[0]);
      AllSurvive(pieces[1..]);
      assert forall p :: p in pieces <==> p == pieces[0] || p in pieces[1..];
    }
  }

  lemma {:induction false} JoinedHas(pieces: seq<string>, c: char)
    ensures c in Joined(pieces) <==> exists p :: p in pieces && c in p
  {
    if pieces != [] {
      JoinedHas(pieces[1..], c);
      assert forall p :: p in pieces <==> p == pieces[0] || p in pieces[1..];
    }
  }

  /** No written comment line ends in a carriage return. */
  predicate NoLineEndsInReturn(s: string) {
    forall p | p in Pieces(s, 0, 1) :: p == "" || p[|p| - 1] != '\r'
  }

  /** The help texts that come back: no NUL, no leading backslash-n, no line ending in a carriage return. */
  predicate Faithful(s: string) {
    '\0' !in s && !Escaped(s) && NoLineEndsInReturn(s)
  }

  lemma FaithfulPieces(s: string)
    ensures Faithful(s) <==> forall p | p in Pieces(s, 0, 1) :: Survives(p)
  {
    var pieces := Pieces(s, 0, 1);
    PiecesJoin(s, 0, 1);
    PiecesBegin(s, 0, 1);
    JoinedHas(pieces, '\0');
    assert s[0..] == s;
    if s != "" { FirstPiece(s, 1); }
    forall n | 0 <= n < |pieces|
      ensures Escaped(pieces[n]) <==> n == 0 && Escaped(s)
    {
      if n > 0 { assert pieces[n][0] in {'\n', ' '}; }
    }
    if Faithful(s) {
      forall p | p in pieces
        ensures Survives(p)
      {
        assert '\0' !in p;
      }
    } else if '\0' in s {
      var p :| p in pieces && '\0' in p;
      assert !Survives(p);
    } else if Escaped(s) {
      assert !Survives(pieces[0]);
    } else {
      var p :| p in pieces && p != "" && p[|p| - 1] == '\r';
      assert !Survives(p);
    }
  }

  /** The first piece ends where the text does, or in front of a newline or a blank. */
  lemma {:induction false} FirstPiece(s: string, i: nat)
    requires 1 <= i <= |s|
    ensures var pieces := Pieces(s, 0, i);
            && pieces != [] && i <= |pieces[0]| <= |s| && pieces[0] == s[..|pieces[0]|]
            && (|pieces[0]| < |s| ==> s[|pieces[0]|] in {'\n', ' '})
    decreases |s| - i
  {
    if !EndsLine(s, 0, i) { FirstPiece(s, i + 1); }
  }

  // ------------------------------------------------------------ the key line

  /** A line begins with two slashes exactly when the text does. */
  lemma LineBegins(t: string)
    ensures IsComment(NextLine(t)) <==> IsComment(t)
  {
    if IsComment(t) {
      UntilAtLeast(t, '\n', 2);
      UntilAtLeast(WithoutReturn(Until(t, '\n')), '\0', 2);
    }
  }

  /** After a comment block, the line of a key is never taken for one more comment. */
  lemma KeyIsNoComment(key: string, tail: string)
    ensures !IsComment(NextLine(KeyText(key) + ":" + tail))
  {
    LineBegins(KeyText(key) + ":" + tail);
  }

  /** The round of the reader that meets a comment block reads all of it. */
  lemma EntryIsRead(s: string, after: string)
    requires s != "" && !IsComment(NextLine(after))
    ensures "" !in Pieces(s, 0, 1)
    ensures ReadEntry(HelpBlock(s) + after) ==
            Some(Entry(AllReadBack(Pieces(s, 0, 1)), NextLine(after), AfterLine(after)))
  {
    var pieces := Pieces(s, 0, 1);
    PiecesJoin(s, 0, 1);
    BlockIsRead(pieces, after);
    WrittenPieces(s, 0, 1);
    PiecesBegin(s, 0, 1);
    BlockBegins(pieces, after);
  }

  /** The first line of a block is a comment. */
  lemma BlockBegins(pieces: seq<string>, after: string)
    requires pieces != [] && "" !in pieces && forall k | 0 < k < |pieces[0]| :: pieces[0][k] != '\n'
    ensures var line := NextLine(Comments(pieces) + after); SkipBlanks(line) == line && IsComment(line)
  {
    CommentIsRead(pieces[0], Comments(pieces[1..]) + after);
    Assoc(Comment(pieces[0]) + "\n", Comments(pieces[1..]), after);
  }

  /**
    Writing an entry with a help text and reading it again: the line after the
    block is the line of the key, for every key; the help text comes back exactly
    when it is faithful.
   */
  lemma HelpRoundTrip(s: string, key: string, tail: string)
    requires s != ""
    ensures var after := KeyText(key) + ":" + tail;
            var read := ReadEntry(HelpBlock(s) + after);
            && read.Some? && read.value.line == NextLine(after) && read.value.unread == AfterLine(after)
            && (read.value.help == s <==> Faithful(s))
  {
    var after, pieces := KeyText(key) + ":" + tail, Pieces(s, 0, 1);
    KeyIsNoComment(key, tail);
    EntryIsRead(s, after);
    AllSurvive(pieces);
    FaithfulPieces(s);
    PiecesJoin(s, 0, 1);
    assert s[0..] == s;
  }

  /** Text without carriage returns, NULs and a leading backslash-n comes back. */
  lemma PlainHelpRoundTrip(s: string, key: string, tail: string)
    requires s != "" && '\r' !in s && '\0' !in s && !Escaped(s)
    ensures var read := ReadEntry(HelpBlock(s) + (KeyText(key) + ":" + tail)); read.Some? && read.value.help == s
  {
    HelpRoundTrip(s, key, tail);
    PiecesJoin(s, 0, 1);
    JoinedHas(Pieces(s, 0, 1), '\r');
    assert s[0..] == s;
  }

  /** Blanks that can occur within a line. */
  function SkipLineBlanks(t: string): string {
    if t != "" && t[0] in {' ', '\t', '\r'} then SkipLineBlanks(t[1..]) else t
  }

  /** Skipping blanks in the line read is skipping them in the text. */
  lemma {:induction false} BlanksOfLine(t: string)
    ensures IsComment(SkipBlanks(NextLine(t))) <==> IsComment(SkipLineBlanks(t))
  {
    if t != "" && t[0] in {' ', '\t', '\r'} {
      BlanksOfLine(t[1..]);
      BlankFirst(t);
    } else {
      LineBegins(t);
      assert |NextLine(t)| > 0 ==> NextLine(t)[0] == t[0];
    }
  }

  lemma BlankFirst(t: string)
    requires t != "" && t[0] in {' ', '\t', '\r'}
    ensures SkipBlanks(NextLine(t)) == SkipBlanks(NextLine(t[1..]))
  {
    var raw, more := Until(t, '\n'), Until(t[1..], '\n');
    assert raw == [t[0]] + more;
    if more != "" {
      assert WithoutReturn(raw) == [t[0]] + WithoutReturn(more);
      assert WithoutReturn(raw)[1..] == WithoutReturn(more);
    } else {
      assert raw == [t[0]] && NextLine(t[1..]) == "";
      assert WithoutReturn(raw)[0..] == WithoutReturn(raw);
    }
  }

  lemma {:induction false} BlanksOfKey(key: string, tail: string)
    requires tail != "" && tail[0] == ':'
    ensures SkipLineBlanks(key + tail) == SkipLineBlanks(key) + tail
  {
    if key == "" {
      assert key + tail == tail;
    } else {
      BlanksOfKey(key[1..], tail);
      assert (key + tail)[1..] == key[1..] + tail;
    }
  }

  /**
    Without a help text nothing is written before the key, and blanks in front of
    the first line are skipped: a key is then read as a comment exactly when it
    has no colon and begins with blanks, at least one, and two slashes.
   */
  lemma BareKey(key: string, tail: string)
    ensures HelpBlock("") == ""
    ensures IsComment(SkipBlanks(NextLine(KeyText(key) + ":" + tail))) <==>
            ':' !in key && key != "" && key[0] in {' ', '\t', '\r'} && IsComment(SkipLineBlanks(key))
  {
    assert KeyText(key) + ":" + tail == KeyText(key) + (":" + tail);
    if Quoted(key) {
      QuotedKey(key, ":" + tail);
    } else {
      UnquotedKey(key, ":" + tail);
    }
  }

  lemma QuotedKey(key: string, rest: string)
    requires Quoted(key)
    ensures !IsComment(SkipBlanks(NextLine(KeyText(key) + rest)))
    ensures ':' in key || key[0] == '/'
  {
    var t := KeyText(key) + rest;
    BlanksOfLine(t);
    assert t[0] == '\"';
  }

  lemma UnquotedKey(key: string, rest: string)
    requires !Quoted(key) && rest != "" && rest[0] == ':'
    ensures IsComment(SkipBlanks(NextLine(KeyText(key) + rest))) <==>
            key != "" && key[0] in {' ', '\t', '\r'} && IsComment(SkipLineBlanks(key))
  {
    BlanksOfLine(key + rest);
    BlanksOfKey(key, rest);
  }

  // ------------------------------------------------- the key without a help text

  /** The line of the key can be the first line of a round: quoted, or not begun by a blank, a remark or an end. */
  predicate KeyStands(key: string) {
    Quoted(key) || key == "" || key[0] !in {' ', '\t', '\r', '\n', '#', '\0'}
  }

  /** A text whose first character cannot be skipped or cut off is read from its beginning. */
  lemma PlainFirst(t: string)
    requires t != "" && t[0] !in {' ', '\t', '\r', '\n', '#', '\0'} && !IsComment(NextLine(t))
    ensures ReadEntry(t) == Some(Entry("", NextLine(t), AfterLine(t)))
  {
    UntilAtLeast(t, '\n', 1);
    UntilAtLeast(WithoutReturn(Until(t, '\n')), '\0', 1);
  }

  /** A remark, and a line that is empty as a C string, are skipped. */
  lemma EndOrHashFirst(t: string)
    requires t != "" && t[0] in {'\n', '#', '\0'}
    ensures ReadEntry(t) == None
  {
    if t[0] == '#' {
      UntilAtLeast(t, '\n', 1);
      UntilAtLeast(WithoutReturn(Until(t, '\n')), '\0', 1);
    }
  }

  lemma {:induction false} SkipShrinks(line: string)
    ensures |SkipBlanks(line)| <= |line|
    ensures line != "" && line[0] in {' ', '\t', '\r', '\n'} ==> |SkipBlanks(line)| < |line|
  {
    if line != "" && line[0] in {' ', '\t', '\r', '\n'} { SkipShrinks(line[1..]); }
  }

  /** Reading a block takes its comment lines off the unread text. */
  lemma {:induction false} BlockShrinks(line: string, unread: string)
    ensures var e := ReadBlock(line, unread);
            && |e.unread| <= |unread| && (IsComment(line) && unread != "" ==> |e.unread| < |unread|)
            && (IsComment(line) && unread == "" ==> e.line == "")
    decreases |unread|, |line|
  {
    if IsComment(line) {
      LinesShrink(unread);
      BlockShrinks(NextLine(unread), AfterLine(unread));
    }
  }

  /** A line that begins with a blank is not read as it is. */
  lemma BlankIsSkipped(t: string)
    requires t != "" && t[0] in {' ', '\t', '\r'}
    ensures ReadEntry(t) != Some(Entry("", NextLine(t), AfterLine(t)))
  {
    var line := NextLine(t);
    assert line != "" ==> line[0] == t[0];
    SkipShrinks(line);
    BlockShrinks(SkipBlanks(line), AfterLine(t));
  }

  /** Without a help text: the line of the key is the next entry's line exactly when the key stands. */
  lemma BareKeyIsRead(key: string, tail: string)
    ensures var after := KeyText(key) + ":" + tail;
            ReadEntry(HelpBlock("") + after) == Some(Entry("", NextLine(after), AfterLine(after))) <==> KeyStands(key)
  {
    var after := KeyText(key) + ":" + tail;
    assert HelpBlock("") + after == after;
    KeyIsNoComment(key, tail);
    if KeyStands(key) {
      PlainFirst(after);
    } else {
      assert after[0] == key[0];
      if key[0] in {'\n', '#', '\0'} { EndOrHashFirst(after); } else { BlankIsSkipped(after); }
    }
  }

  /**
    An entry is read as it was written, help text and line: exactly when the help
    text is faithful, or is empty and the key can stand alone.
   */
  lemma EntryRoundTrip(s: string, key: string, tail: string)
    ensures var after := KeyText(key) + ":" + tail;
            ReadEntry(HelpBlock(s) + after) == Some(Entry(s, NextLine(after), AfterLine(after)))
            <==> if s == "" then KeyStands(key) else Faithful(s)
  {
    if s == "" {
      BareKeyIsRead(key, tail);
    } else {
      HelpRoundTrip(s, key, tail);
    }
  }

  /** A key that begins with a hash, without a help text: the entry is taken for a remark. */
  lemma HashKeyIsLost(tail: string)
    ensures ReadEntry(HelpBlock("") + (KeyText("#x") + ":" + tail)) == None
  {
    var after := KeyText("#x") + ":" + tail;
    assert HelpBlock("") + after == after;
    assert KeyText("#x")[0] == '#' && after[0] == '#';
    EndOrHashFirst(after);
  }

  lemma ReturnPiece(s: string)
    requires s == "a\r"
    ensures Pieces(s, 0, 1) == [s] && ReadBack(s) == "a"
  {
    assert s[1] == '\r' && s[0..2] == s;
    assert Pieces(s, 2, 3) == [];
    assert Pieces(s, 0, 2) == [s] + Pieces(s, 2, 3);
    assert s[..1] == "a";
    UntilAtLeast("a", '\0', 1);
  }

  /** A carriage return at the end of a help text is lost. */
  lemma ReturnIsLost(key: string, tail: string)
    ensures var read := ReadEntry(HelpBlock("a\r") + (KeyText(key) + ":" + tail));
            read.Some? && read.value.help == "a"
  {
    var s, after := "a\r", KeyText(key) + ":" + tail;
    KeyIsNoComment(key, tail);
    EntryIsRead(s, after);
    ReturnPiece(s);
    OneReadBack(s);
  }

  lemma OneReadBack(piece: string)
    requires piece != ""
    ensures AllReadBack([piece]) == ReadBack(piece)
  {
    assert [piece][1..] == [];
  }
}
