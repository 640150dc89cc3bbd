/** Wrapping text by a number of characters a line: TextHelper.WrapText. */
module TextHelper {
  import opened Greedy
  import opened Words

  const SEPARATORS := {' ', '\t'}

  /** char.IsWhiteSpace. */
  predicate IsWhiteSpace(c: char) {
    || '\U{9}' <= c <= '\U{D}'
    || c in {' ', '\U{85}', '\U{A0}', '\U{1680}', '\U{2028}', '\U{2029}', '\U{202F}', '\U{205F}', '\U{3000}'}
    || '\U{2000}' <= c <= '\U{200A}'
  }

  predicate AllWhiteSpace(t: string) {
    forall c | c in t :: IsWhiteSpace(c)
  }

  function TrimStart(t: string): string {
    if t != "" && IsWhiteSpace(t[0]) then TrimStart(t[1..]) else t
  }

  function TrimEnd(t: string): string {
    if t != "" && IsWhiteSpace(t[|t| - 1]) then TrimEnd(t[..|t| - 1]) else t
  }

  function Trim(t: string): string {
    TrimEnd(TrimStart(t))
  }

  /** Words that make a line of at most so many characters. */
  function LineFits(maxChars: int): Text -> bool {
    words => |Join(words)| <= maxChars
  }

  /** The words of each line. */
  function Lines(text: string, maxChars: int): seq<Text> {
    if AllWhiteSpace(text) then [] else Fill([], Split(text, SEPARATORS), LineFits(maxChars))
  }

  function Written(lines: seq<Text>): Text {
    seq(|lines|, k requires 0 <= k < |lines| => Trim(Join(lines[k])))
  }

  lemma {:induction false} JoinLength(words: Text)
    requires words != []
    ensures |Join(words)| == Letters(words) + |words| - 1
  {
    var n := |words| - 1;
    if n == 0 {
      assert words[1..] == [];
    } else {
      JoinLength(words[..n]);
      LettersAppend(words[..n], [words[n]]);
      assert words == words[..n] + [words[n]];
      assert [words[n]][1..] == [];
    }
  }

  /** The finished lines and the line at hand are on the way to the greedy lines. */
  ghost predicate OnTheWay(
      words: Text, maxChars: int, done: seq<Text>, current: Text, i: nat, lines: Text, currentLine: string) {
    && i <= |words| && (current == [] || current[0] != "")
    && currentLine == Join(current) && lines == Written(done)
    && Fill([], words, LineFits(maxChars)) == done + Fill(current, words[i..], LineFits(maxChars))
  }

  lemma LineFlushed(
      words: Text, maxChars: int, done: seq<Text>, current: Text, i: nat, lines: Text, currentLine: string)
    requires OnTheWay(words, maxChars, done, current, i, lines, currentLine)
    requires i < |words| && current != [] && |currentLine| + |words[i]| + 1 > maxChars
    ensures OnTheWay(words, maxChars, done + [current], [], i, lines + [Trim(currentLine)], "")
  {
    JoinMore(current, words[i]);
    var rest := words[i..];
    assert [] + [rest[0]] == [rest[0]];
    assert done + ([current] + Fill([], rest, LineFits(maxChars)))
           == done + [current] + Fill([], rest, LineFits(maxChars));
  }

  lemma WordAdded(words: Text, maxChars: int, done: seq<Text>, current: Text, i: nat, lines: Text, currentLine: string)
    requires OnTheWay(words, maxChars, done, current, i, lines, currentLine)
    requires i < |words| && words[i] != "" && (current == [] || |currentLine| + |words[i]| + 1 <= maxChars)
    ensures OnTheWay(words, maxChars, done, current + [words[i]], i + 1, lines,
                     if current == [] then words[i] else currentLine + " " + words[i])
    ensures (currentLine == "") == (current == [])
  {
    JoinMore(current, words[i]);
    assert words[i..][0] == words[i] && words[i..][1..] == words[i + 1..];
  }

  lemma WordsDone(words: Text, maxChars: int, done: seq<Text>, current: Text, lines: Text, currentLine: string)
    requires OnTheWay(words, maxChars, done, current, |words|, lines, currentLine)
    ensures Written(Fill([], words, LineFits(maxChars)))
              == lines + (if currentLine == "" then [] else [Trim(currentLine)])
  {
    assert words[|words|..] == [];
    JoinMore(current, "");
  }

  method WrapText(text: string, maxCharsPerLine: int) returns (lines: Text)
    ensures lines == Written(Lines(text, maxCharsPerLine))
  {
    lines := [];
    if AllWhiteSpace(text) {
      return;
    }
    var words := Split(text, SEPARATORS);
    SplitGivesWords(text, SEPARATORS);
    var currentLine := "";
    ghost var done: seq<Text>, current: Text := [], [];
    assert words[0..] == words;
    for i := 0 to |words|
      invariant OnTheWay(words, maxCharsPerLine, done, current, i, lines, currentLine)
    {
      var word := words[i];
      assert word in words;
      JoinMore(current, word);
      if |currentLine| + |word| + 1 > maxCharsPerLine {
        if |currentLine| > 0 {
          LineFlushed(words, maxCharsPerLine, done, current, i, lines, currentLine);
          lines := lines + [Trim(currentLine)];
          currentLine := "";
          done, current := done + [current], [];
        }
      }
      WordAdded(words, maxCharsPerLine, done, current, i, lines, currentLine);
      if |currentLine| > 0 {
        currentLine := currentLine + " ";
      }
      currentLine := currentLine + word;
      current := current + [word];
    }
    WordsDone(words, maxCharsPerLine, done, current, lines, currentLine);
    if |currentLine| > 0 {
      lines := lines + [Trim(currentLine)];
    }
  }

  // ------------------------------------------------------------------- bounds

  /** The words of a text are what blanks and tabs leave of it. */
  lemma WordsOfText(text: string)
    ensures MadeOf(text, Split(text, SEPARATORS), {' ', '\t'}, true)
  {
    SplitTakesApart(text, SEPARATORS, true);
  }

  /** The characters that count as white space, each for itself. */
  lemma WhiteSpaceIs(c: char)
    ensures IsWhiteSpace(c) <==>
            c in {'\U{9}', '\U{A}', '\U{B}', '\U{C}', '\U{D}', '\U{20}', '\U{85}', '\U{A0}', '\U{1680}',
                  '\U{2000}', '\U{2001}', '\U{2002}', '\U{2003}', '\U{2004}', '\U{2005}', '\U{2006}',
                  '\U{2007}', '\U{2008}', '\U{2009}', '\U{200A}', '\U{2028}', '\U{2029}', '\U{202F}',
                  '\U{205F}', '\U{3000}'}
  {
  }

  ghost predicate Blank(t: string) {
    forall k | 0 <= k < |t| :: IsWhiteSpace(t[k])
  }

  /** Trimming takes away white space at both ends, and all of it. */
  lemma {:induction false} TrimTakesAll(t: string) returns (front: string, back: string)
    ensures t == front + Trim(t) + back && Blank(front) && Blank(back)
    ensures Trim(t) != "" ==> !IsWhiteSpace(Trim(t)[0]) && !IsWhiteSpace(Trim(t)[|Trim(t)| - 1])
    ensures Trim(t) == "" <==> Blank(t)
  {
    front := StartTaken(t);
    back := EndTaken(TrimStart(t));
    var u := TrimStart(t);
    assert front + (Trim(t) + back) == front + Trim(t) + back;
    assert Trim(t) != "" ==> Trim(t)[0] == u[0];
    if Trim(t) == "" {
      assert t == front + back;
    }
    assert u != "" ==> t[|front|] == u[0];
  }

  lemma {:induction false} StartTaken(t: string) returns (front: string)
    ensures t == front + TrimStart(t) && Blank(front)
    ensures TrimStart(t) != "" ==> !IsWhiteSpace(TrimStart(t)[0])
  {
    front := "";
    if t != "" && IsWhiteSpace(t[0]) {
      front := StartTaken(t[1..]);
      front := [t[0]] + front;
      assert t == [t[0]] + t[1..];
    }
  }

  lemma {:induction false} EndTaken(t: string) returns (back: string)
    ensures t == TrimEnd(t) + back && Blank(back)
    ensures TrimEnd(t) != "" ==> !IsWhiteSpace(TrimEnd(t)[|TrimEnd(t)| - 1])
  {
    back := "";
    if t != "" && IsWhiteSpace(t[|t| - 1]) {
      back := EndTaken(t[..|t| - 1]);
      back := back + [t[|t| - 1]];
    }
  }

  /** Every line is within the limit or is one word that alone is too long. */
  lemma LinesWithinLimit(text: string, maxChars: int, k: nat)
    requires k < |Lines(text, maxChars)|
    ensures var lines := Lines(text, maxChars);
            || |Written(lines)[k]| <= maxChars
            || (&& |lines[k]| == 1 && lines[k][0] in Split(text, SEPARATORS)
                && |lines[k][0]| > maxChars && Written(lines)[k] == Trim(lines[k][0]))
  {
    var lines, words := Lines(text, maxChars), Split(text, SEPARATORS);
    FillIsGreedy([], words, LineFits(maxChars));
    assert [] + words == words;
    PartOfFlatten(lines, k);
    var front, back := TrimTakesAll(Join(lines[k]));
    assert |lines[k]| == 1 ==> lines[k][0] in lines[k];
  }

  lemma LineFitsIsHereditary(maxChars: int)
    ensures Hereditary(LineFits(maxChars))
  {
    forall s: Text, i, j | 0 <= i <= j <= |s| && LineFits(maxChars)(s)
      ensures LineFits(maxChars)(s[i..j])
    {
      if i < j {
        JoinLength(s);
        JoinLength(s[i..j]);
        assert s == s[..i] + (s[i..j] + s[j..]);
        LettersAppend(s[..i], s[i..j] + s[j..]);
        LettersAppend(s[i..j], s[j..]);
      } else {
        assert s[i..j] == [];
      }
    }
  }

  /** No other way to keep the words in order on lines within the limit uses fewer lines. */
  lemma FewestLines(text: string, maxChars: int, other: seq<Text>)
    requires Divides(other, Split(text, SEPARATORS))
    requires forall k | 0 <= k < |other| :: |Join(other[k])| <= maxChars
    ensures |Written(Lines(text, maxChars))| <= |other|
  {
    LineFitsIsHereditary(maxChars);
    GreedyIsOptimal(Split(text, SEPARATORS), other, LineFits(maxChars));
  }

  // -------------------------------------------------------------- lost letters

  /** The words read off the lines. */
  function WordsOf(lines: Text): Text {
    if lines == [] then [] else Split(lines[0], SEPARATORS) + WordsOf(lines[1..])
  }

  predicate KeepsWords(text: string, maxChars: int) {
    WordsOf(Written(Lines(text, maxChars))) == Split(text, SEPARATORS)
  }

  /** A line that begins and ends with letters of words loses some when trimming changes it. */
  lemma TrimLosesLetters(t: string)
    requires t != "" && t[0] !in SEPARATORS && t[|t| - 1] !in SEPARATORS
    ensures Count(Trim(t), SEPARATORS) <= Count(t, SEPARATORS)
    ensures Count(Trim(t), SEPARATORS) == Count(t, SEPARATORS) <==> Trim(t) == t
  {
    var front, back := TrimTakesAll(t);
    CountAppend(front + Trim(t), back, SEPARATORS);
    CountAppend(front, Trim(t), SEPARATORS);
    if back != "" {
      var n := |back| - 1;
      assert back == back[..n] + [back[n]] && back[n] == t[|t| - 1];
      CountAppend(back[..n], [back[n]], SEPARATORS);
    }
    if front == "" && back == "" {
      assert front + Trim(t) + back == Trim(t);
    }
  }

  ghost predicate AllTrimmed(lines: seq<Text>) {
    forall k | 0 <= k < |lines| :: Trim(Join(lines[k])) == Join(lines[k])
  }

  /** The written lines give the words back exactly when trimming changes no line. */
  lemma {:induction false} TrimmedLinesKeep(lines: seq<Text>)
    requires forall k | 0 <= k < |lines| :: lines[k] != [] && AreWords(lines[k], SEPARATORS)
    ensures Letters(WordsOf(Written(lines))) <= Letters(Flatten(lines))
    ensures Letters(WordsOf(Written(lines))) == Letters(Flatten(lines)) <==> AllTrimmed(lines)
    ensures AllTrimmed(lines) ==> WordsOf(Written(lines)) == Flatten(lines)
  {
    if lines != [] {
      var line, more := lines[0], lines[1..];
      TrimmedLinesKeep(more);
      OneTrimmedLine(line);
      assert Written(lines) == [Trim(Join(line))] + Written(more);
      assert Written(lines)[1..] == Written(more);
      LettersAppend(Split(Trim(Join(line)), SEPARATORS), WordsOf(Written(more)));
      LettersAppend(line, Flatten(more));
      AllTrimmedFirst(lines);
    }
  }

  lemma AllTrimmedFirst(lines: seq<Text>)
    requires lines != []
    ensures AllTrimmed(lines) <==> Trim(Join(lines[0])) == Join(lines[0]) && AllTrimmed(lines[1..])
  {
    var more := lines[1..];
    assert forall k | 1 <= k < |lines| :: lines[k] == more[k - 1];
    assert forall k | 0 <= k < |more| :: more[k] == lines[k + 1];
  }

  lemma OneTrimmedLine(line: Text)
    requires line != [] && AreWords(line, SEPARATORS)
    ensures var back := Split(Trim(Join(line)), SEPARATORS);
            && Letters(back) <= Letters(line)
            && (Letters(back) == Letters(line) <==> Trim(Join(line)) == Join(line))
            && (Trim(Join(line)) == Join(line) ==> back == line)
  {
    var t, last := Join(line), line[|line| - 1];
    assert line[0] in line && last in line;
    assert line[0][0] in line[0] && last[|last| - 1] in last;
    JoinEnds(line);
    TrimLosesLetters(t);
    SplitOfJoin(line, SEPARATORS);
    SplitKeepsLetters(t, SEPARATORS);
    SplitKeepsLetters(Trim(t), SEPARATORS);
  }

  lemma LinesAreWords(text: string, maxChars: int)
    requires !AllWhiteSpace(text)
    ensures var lines := Lines(text, maxChars);
            && Flatten(lines) == Split(text, SEPARATORS)
            && forall k | 0 <= k < |lines| :: lines[k] != [] && AreWords(lines[k], SEPARATORS)
  {
    var lines, words := Lines(text, maxChars), Split(text, SEPARATORS);
    SplitGivesWords(text, SEPARATORS);
    FillIsGreedy([], words, LineFits(maxChars));
    assert [] + words == words;
    forall k | 0 <= k < |lines|
      ensures AreWords(lines[k], SEPARATORS)
    {
      PartOfFlatten(lines, k);
    }
  }

  /** For one limit: the words are kept exactly when trimming changes none of the joined lines. */
  lemma WordsKept(text: string, maxChars: int)
    requires !AllWhiteSpace(text)
    ensures KeepsWords(text, maxChars) <==> AllTrimmed(Lines(text, maxChars))
  {
    LinesAreWords(text, maxChars);
    TrimmedLinesKeep(Lines(text, maxChars));
  }

  lemma TrimChangesNothing(t: string)
    requires t != ""
    ensures Trim(t) == t <==> !IsWhiteSpace(t[0]) && !IsWhiteSpace(t[|t| - 1])
  {
    if IsWhiteSpace(t[0]) {
      var front := StartTaken(t[1..]);
      var back := EndTaken(TrimStart(t));
    } else if IsWhiteSpace(t[|t| - 1]) {
      var back := EndTaken(t[..|t| - 1]);
    }
  }

  ghost predicate OneWordEach(lines: seq<Text>) {
    forall k | 0 <= k < |lines| :: |lines[k]| == 1
  }

  lemma WordStays(cur: Text, words: Text)
    requires words != [] && "" !in cur + words
    ensures words[0] != "" && "" !in [words[0]] + words[1..] && (cur != [] ==> cur[0] != "")
  {
    assert forall v | v in words :: v in cur + words;
    assert forall v | v in cur :: v in cur + words;
    assert words == [words[0]] + words[1..];
  }

  /** With no room at all every word has its own line. */
  lemma {:induction false} NoRoom(cur: Text, words: Text)
    requires |cur| <= 1 && "" !in cur + words
    ensures OneWordEach(Fill(cur, words, LineFits(0)))
    decreases |words|
  {
    if words != [] {
      var w, rest := words[0], words[1..];
      WordStays(cur, words);
      assert [] + [w] == [w];
      JoinMore(cur, w);
      NoRoom([w], rest);
    }
  }

  lemma {:induction false} FindSegment(segments: seq<Text>, w: string) returns (k: nat)
    requires w in Flatten(segments)
    ensures k < |segments| && w in segments[k]
  {
    if w in segments[0] {
      k := 0;
    } else {
      k := FindSegment(segments[1..], w);
      k := k + 1;
    }
  }

  lemma {:induction false} SplitKeepsChars(t: string, w: string, c: char)
    requires w in Split(t, SEPARATORS) && c in w
    ensures c in t
    decreases |t|
  {
    if t[0] in SEPARATORS {
      SplitKeepsChars(t[1..], w, c);
    } else {
      var first := Token(t, SEPARATORS);
      if w != first { SplitKeepsChars(t[|first|..], w, c); }
    }
  }

  /** Blank text has only words of white space, which trimming changes. */
  lemma BlankText(text: string, w: string)
    requires AllWhiteSpace(text) && w in Split(text, SEPARATORS)
    ensures Trim(w) != w
  {
    SplitGivesWords(text, SEPARATORS);
    assert w[0] in w;
    SplitKeepsChars(text, w, w[0]);
    TrimChangesNothing(w);
  }

  /** Whatever the limit, the word sequence is kept: exactly when trimming changes no word. */
  lemma WordsKeptForEveryLimit(text: string)
    ensures (forall maxChars :: KeepsWords(text, maxChars)) <==> forall w | w in Split(text, SEPARATORS) :: Trim(w) == w
  {
    var words := Split(text, SEPARATORS);
    SplitGivesWords(text, SEPARATORS);
    if AllWhiteSpace(text) {
      if words != [] {
        BlankText(text, words[0]);
        assert !KeepsWords(text, 0);
      }
    } else {
      if forall w | w in words :: Trim(w) == w {
        forall maxChars
          ensures KeepsWords(text, maxChars)
        {
          StableLines(text, maxChars);
        }
      }
      if KeepsWords(text, 0) {
        forall w | w in words
          ensures Trim(w) == w
        {
          OwnLine(text, w);
        }
      }
    }
  }

  lemma StableLines(text: string, maxChars: int)
    requires !AllWhiteSpace(text) && forall w | w in Split(text, SEPARATORS) :: Trim(w) == w
    ensures KeepsWords(text, maxChars)
  {
    var lines := Lines(text, maxChars);
    LinesAreWords(text, maxChars);
    WordsKept(text, maxChars);
    forall k | 0 <= k < |lines|
      ensures Trim(Join(lines[k])) == Join(lines[k])
    {
      var line := lines[k];
      PartOfFlatten(lines, k);
      var last := line[|line| - 1];
      assert line[0] in line && last in line;
      TrimChangesNothing(line[0]);
      TrimChangesNothing(last);
      JoinEnds(line);
      TrimChangesNothing(Join(line));
    }
  }

  lemma OwnLine(text: string, w: string)
    requires !AllWhiteSpace(text) && KeepsWords(text, 0) && w in Split(text, SEPARATORS)
    ensures Trim(w) == w
  {
    var lines, words := Lines(text, 0), Split(text, SEPARATORS);
    LinesAreWords(text, 0);
    WordsKept(text, 0);
    SplitGivesWords(text, SEPARATORS);
    assert [] + words == words;
    NoRoom([], words);
    var k := FindSegment(lines, w);
    assert |lines[k]| == 1;
    assert lines[k] == [w] && Join([w]) == w;
  }

  /** A line break at the edge of the text is not a separator, but trimming drops it. */
  lemma EdgeLineBreakIsLost(maxChars: int)
    ensures Split("\na", SEPARATORS) == ["\na"] && !KeepsWords("\na", maxChars)
  {
    var text := "\na";
    assert text[1] == 'a' && 'a' in text && !IsWhiteSpace('a');
    assert AreWords([text], SEPARATORS);
    SplitWord(text, SEPARATORS);
    WordsKept(text, maxChars);
    TrimChangesNothing(text);
    assert Fill([], [text], LineFits(maxChars)) == Fill([text], [], LineFits(maxChars)) by {
      assert [] + [text] == [text] && [text][1..] == [];
    }
    assert Lines(text, maxChars)[0] == [text] && Join([text]) == text;
  }
}
