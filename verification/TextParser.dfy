/**
  Wrapping paragraphs by measured width: TextParser.WrapLinesToWidth, its cache
  of widths, and the marker that tells the last line of a paragraph.
 */
module TextParser {
  import opened Greedy
  import opened Sequences
  import opened Words

  const BLANK := {' '}
  const MARKER := '\U{A4}'

  // -------------------------------------------------------------------- cache

  /** What measuring yields: the formatted width, or an estimate when formatting failed. */
  datatype Measured = Formatted(width: real) | Estimated(width: real)

  /** Measures a text in a font size, given as it is printed, and a font family. */
  type Measure = (string, string, string) -> Measured

  function CacheKey(text: string, fontSize: string, fontFamily: string): string {
    text + ("|" + fontSize) + ("|" + fontFamily)
  }

  /** The width of a text in one font. */
  function WidthIn(measure: Measure, fontSize: string, fontFamily: string): string -> real {
    text => if text == "" then 0.0 else measure(text, fontSize, fontFamily).width
  }

  /** The sizes, as they are printed, and the families that are asked for. */
  datatype Fonts = Fonts(sizes: iset<string>, families: iset<string>)

  datatype Request = Request(text: string, fontSize: string, fontFamily: string)

  /** A printed number holds no bar. */
  ghost predicate Printed(sizes: iset<string>) {
    forall s | s in sizes :: '|' !in s
  }

  predicate EndsWith(t: string, end: string) {
    |end| <= |t| && t[|t| - |end|..] == end
  }

  /** Behind a bar, the name of f ends with a bar, a size, a bar and the name of g. */
  ghost predicate Swallows(sizes: iset<string>, f: string, g: string) {
    exists s :: s in sizes && EndsWith("|" + f, "|" + s + ("|" + g))
  }

  /** No family's name ends in a size and another family's name. */
  ghost predicate Apart(fonts: Fonts) {
    forall f, g | f in fonts.families && g in fonts.families :: !Swallows(fonts.sizes, f, g)
  }

  ghost predicate Asks(fonts: Fonts, q: Request) {
    q.fontSize in fonts.sizes && q.fontFamily in fonts.families
  }

  function KeyOf(q: Request): string {
    CacheKey(q.text, q.fontSize, q.fontFamily)
  }

  /** Where the bars of a key are, and what is behind them. */
  lemma KeyBars(q: Request)
    ensures var n, key := |q.text|, KeyOf(q);
            var m := n + 1 + |q.fontSize|;
            && |key| == m + 1 + |q.fontFamily| && key[n] == '|' && key[m] == '|'
            && key[..n] == q.text && key[n + 1..m] == q.fontSize
            && key[m..] == "|" + q.fontFamily && key[n..] == "|" + q.fontSize + ("|" + q.fontFamily)
            && forall i | n < i < m :: key[i] == q.fontSize[i - n - 1]
  {
  }

  /** Of two requests with one key the one with the longer family swallows the font of the other. */
  lemma SharedKeySwallows(q: Request, r: Request)
    requires '|' !in q.fontSize && '|' !in r.fontSize && KeyOf(q) == KeyOf(r)
    requires |q.fontFamily| > |r.fontFamily|
    ensures EndsWith("|" + q.fontFamily, "|" + r.fontSize + ("|" + r.fontFamily))
  {
    KeyBars(q);
    KeyBars(r);
    var key, m := KeyOf(q), |q.text| + 1 + |q.fontSize|;
    assert m <= |r.text| by {
      assert m < |r.text| + 1 + |r.fontSize| && key[m] == '|';
    }
    assert key[m..][|r.text| - m..] == key[|r.text|..];
  }

  /** Of two requests with one key and families of one length neither differs. */
  lemma SharedKeySame(q: Request, r: Request)
    requires '|' !in q.fontSize && '|' !in r.fontSize && KeyOf(q) == KeyOf(r)
    requires |q.fontFamily| == |r.fontFamily|
    ensures q == r
  {
    KeyBars(q);
    KeyBars(r);
    var key, m := KeyOf(q), |q.text| + 1 + |q.fontSize|;
    assert key[m..][1..] == q.fontFamily == r.fontFamily;
    assert |q.text| == |r.text|;
  }

  /** Two requests that differ and share a key, as different answers need. */
  ghost predicate Collide(fonts: Fonts, q: Request, r: Request) {
    q != r && Asks(fonts, q) && Asks(fonts, r) && KeyOf(q) == KeyOf(r)
  }

  /** Requests share a key exactly when one family swallows another. */
  lemma KeysCollide(fonts: Fonts)
    requires Printed(fonts.sizes)
    ensures (exists q, r :: Collide(fonts, q, r)) <==> !Apart(fonts)
  {
    if q, r :| Collide(fonts, q, r) {
      if |q.fontFamily| > |r.fontFamily| {
        SharedKeySwallows(q, r);
      } else if |r.fontFamily| > |q.fontFamily| {
        SharedKeySwallows(r, q);
      } else {
        SharedKeySame(q, r);
      }
    }
    if !Apart(fonts) {
      var f, g :| f in fonts.families && g in fonts.families && Swallows(fonts.sizes, f, g);
      var q, r := SwallowedCollide(fonts, f, g);
    }
  }

  /** Text that ends like the beginning of a swallowing family is taken for part of the family, and back. */
  lemma SwallowedCollide(fonts: Fonts, f: string, g: string) returns (q: Request, r: Request)
    requires f in fonts.families && g in fonts.families && Swallows(fonts.sizes, f, g)
    ensures Collide(fonts, q, r) && q.text == "a" && |r.text| > 1
  {
    var s :| s in fonts.sizes && EndsWith("|" + f, "|" + s + ("|" + g));
    var end := "|" + s + ("|" + g);
    var front := ("|" + f)[..|f| + 1 - |end|];
    assert "|" + f == front + end;
    q, r := Request("a", s, f), Request("a" + ("|" + s) + front, s, g);
    assert KeyOf(q) == "a" + ("|" + s) + (front + end);
    Assoc("a" + ("|" + s), front, end);
    Assoc(r.text, "|" + s, "|" + g);
  }

  // ------------------------------------------------- what the cache answers

  /** The width that is answered while the cache is as it is. */
  function Answer(cache: map<string, real>, measure: Measure, q: Request): real {
    if q.text == "" then 0.0
    else if KeyOf(q) in cache then cache[KeyOf(q)]
    else measure(q.text, q.fontSize, q.fontFamily).width
  }

  /** The cache after a request: a width that was formatted is kept. */
  function CacheAfter(cache: map<string, real>, measure: Measure, q: Request): map<string, real> {
    var measured := measure(q.text, q.fontSize, q.fontFamily);
    if q.text == "" || KeyOf(q) in cache || measured.Estimated? then cache else cache[KeyOf(q) := measured.width]
  }

  function CacheAfterAll(measure: Measure, history: seq<Request>): map<string, real> {
    if history == [] then map[]
    else CacheAfter(CacheAfterAll(measure, history[..|history| - 1]), measure, history[|history| - 1])
  }

  /** Every cached width is the width of each text and font with that key. */
  ghost predicate Accurate(fonts: Fonts, cache: map<string, real>, measure: Measure) {
    forall q | Asks(fonts, q) && q.text != "" && KeyOf(q) in cache ::
      cache[KeyOf(q)] == measure(q.text, q.fontSize, q.fontFamily).width
  }

  /** The answer is the width, and it is so after it was kept, as long as no family swallows another. */
  lemma AnswerIsWidth(fonts: Fonts, cache: map<string, real>, measure: Measure, q: Request)
    requires Printed(fonts.sizes) && Apart(fonts) && Asks(fonts, q) && Accurate(fonts, cache, measure)
    ensures Answer(cache, measure, q) == WidthIn(measure, q.fontSize, q.fontFamily)(q.text)
    ensures Accurate(fonts, CacheAfter(cache, measure, q), measure)
  {
    var cache' := CacheAfter(cache, measure, q);
    KeysCollide(fonts);
    forall r | Asks(fonts, r) && r.text != "" && KeyOf(r) in cache'
      ensures cache'[KeyOf(r)] == measure(r.text, r.fontSize, r.fontFamily).width
    {
      assert KeyOf(r) == KeyOf(q) ==> !Collide(fonts, q, r);
    }
  }

  /** The widths that are answered in one font while the cache is as it is. */
  function AnswersIn(
      cache: map<string, real>, measure: Measure, fontSize: string, fontFamily: string): string -> real
  {
    text => Answer(cache, measure, Request(text, fontSize, fontFamily))
  }

  ghost predicate SameAnswers(
      cache: map<string, real>, cache': map<string, real>, measure: Measure, fontSize: string, fontFamily: string) {
    forall text ::
      AnswersIn(cache', measure, fontSize, fontFamily)(text) == AnswersIn(cache, measure, fontSize, fontFamily)(text)
  }

  /** Asking in a font changes no answer in that font, whatever the cache holds. */
  lemma AnswersStay(cache: map<string, real>, measure: Measure, q: Request)
    ensures SameAnswers(cache, CacheAfter(cache, measure, q), measure, q.fontSize, q.fontFamily)
  {
    forall text
      ensures var r := Request(text, q.fontSize, q.fontFamily);
              Answer(CacheAfter(cache, measure, q), measure, r) == Answer(cache, measure, r)
    {
      var r := Request(text, q.fontSize, q.fontFamily);
      KeyBars(q);
      KeyBars(r);
      if KeyOf(q) == KeyOf(r) {
        assert |KeyOf(q)| == |q.text| + 2 + |q.fontSize| + |q.fontFamily|;
        assert q == r;
      }
    }
  }

  lemma AnswersAreWidths(
      fonts: Fonts, cache: map<string, real>, measure: Measure, fontSize: string, fontFamily: string)
    requires Printed(fonts.sizes) && Apart(fonts) && Accurate(fonts, cache, measure)
    requires fontSize in fonts.sizes && fontFamily in fonts.families
    ensures forall text ::
              AnswersIn(cache, measure, fontSize, fontFamily)(text) == WidthIn(measure, fontSize, fontFamily)(text)
  {
    forall text
      ensures Answer(cache, measure, Request(text, fontSize, fontFamily))
              == WidthIn(measure, fontSize, fontFamily)(text)
    {
      AnswerIsWidth(fonts, cache, measure, Request(text, fontSize, fontFamily));
    }
  }

  lemma {:induction false} HistoryIsAccurate(fonts: Fonts, measure: Measure, history: seq<Request>)
    requires Printed(fonts.sizes) && Apart(fonts) && forall q | q in history :: Asks(fonts, q)
    ensures Accurate(fonts, CacheAfterAll(measure, history), measure)
  {
    if history != [] {
      var n := |history| - 1;
      HistoryIsAccurate(fonts, measure, history[..n]);
      AnswerIsWidth(fonts, CacheAfterAll(measure, history[..n]), measure, history[n]);
    }
  }

  /** After these requests the answer to q is the width. */
  ghost predicate RightAfter(measure: Measure, history: seq<Request>, q: Request) {
    Answer(CacheAfterAll(measure, history), measure, q) == WidthIn(measure, q.fontSize, q.fontFamily)(q.text)
  }

  /** Whatever was asked before, every answer is the width in the font asked for. */
  ghost predicate AlwaysRight(fonts: Fonts) {
    forall measure: Measure, history: seq<Request>, q: Request |
      (forall r | r in history :: Asks(fonts, r)) && Asks(fonts, q) :: RightAfter(measure, history, q)
  }

  /** The cache always answers right exactly when no family swallows another. */
  lemma CacheIsRight(fonts: Fonts)
    requires Printed(fonts.sizes)
    ensures AlwaysRight(fonts) <==> Apart(fonts)
  {
    if Apart(fonts) {
      forall measure: Measure, history: seq<Request>, q: Request |
        (forall r | r in history :: Asks(fonts, r)) && Asks(fonts, q)
        ensures RightAfter(measure, history, q)
      {
        HistoryIsAccurate(fonts, measure, history);
        AnswerIsWidth(fonts, CacheAfterAll(measure, history), measure, q);
      }
    } else {
      var f, g :| f in fonts.families && g in fonts.families && Swallows(fonts.sizes, f, g);
      var q, r := SwallowedCollide(fonts, f, g);
      WrongAnswer(q, r);
      assert forall x | x in [q] :: Asks(fonts, x);
      assert !RightAfter(ByLength, [q], r);
    }
  }

  /** A measure that depends on the length of the text only. */
  function ByLength(text: string, fontSize: string, fontFamily: string): Measured {
    Formatted(|text| as real)
  }

  /** Once a longer text has the key of a shorter one, it is answered with the width of the shorter. */
  lemma WrongAnswer(q: Request, r: Request)
    requires KeyOf(q) == KeyOf(r) && 0 < |q.text| < |r.text|
    ensures Answer(CacheAfterAll(ByLength, [q]), ByLength, r) == |q.text| as real
    ensures !RightAfter(ByLength, [q], r)
  {
    assert [q][..0] == [];
    assert CacheAfterAll(ByLength, [q]) == map[KeyOf(q) := |q.text| as real];
  }

  /** One family never swallows itself, with or without bars in its name. */
  lemma OneFamily(sizes: iset<string>, f: string)
    ensures Apart(Fonts(sizes, iset{f}))
  {
  }

  /** After the text a in the family b|12|c, the text a|12|b in the family c is answered with the width of a. */
  lemma WrongWidth()
    ensures var q, r := Request("a", "12", "b|12|c"), Request("a|12|b", "12", "c");
            Answer(CacheAfterAll(ByLength, [q]), ByLength, r) == 1.0 && WidthIn(ByLength, "12", "c")("a|12|b") == 6.0
  {
    var q, r := Request("a", "12", "b|12|c"), Request("a|12|b", "12", "c");
    assert KeyOf(q) == "a|12|b|12|c" && KeyOf(r) == "a|12|b|12|c";
    assert r.text == "a|12|b" && |r.text| == 6;
    WrongAnswer(q, r);
    assert ByLength(r.text, "12", "c") == Formatted(6.0);
    assert WidthIn(ByLength, "12", "c")(r.text) == 6.0;
  }

  // ----------------------------------------------------------------- wrapping

  /** Words that make a line of at most that width. */
  function WidthFits(width: string -> real, maxWidth: real): Text -> bool {
    words => width(Join(words)) <= maxWidth
  }

  /** The words of each line of a paragraph. */
  function LinesOf(paragraph: string, fits: Text -> bool): seq<Text> {
    Fill([], Split(paragraph, BLANK), fits)
  }

  /** The lines as text, the last one marked. */
  function Marked(lines: seq<Text>): Text {
    seq(|lines|, k requires 0 <= k < |lines| => if k == |lines| - 1 then Join(lines[k]) + [MARKER] else Join(lines[k]))
  }

  function Wrapped(paragraphs: Text, fits: Text -> bool): Text {
    if paragraphs == [] then [] else Marked(LinesOf(paragraphs[0], fits)) + Wrapped(paragraphs[1..], fits)
  }

  predicate IsLastLine(line: string) {
    line != "" && line[|line| - 1] == MARKER
  }

  function RemoveLastLineMarker(line: string): string {
    if IsLastLine(line) then line[..|line| - 1] else line
  }

  /** The words of a paragraph are what blanks leave of it. */
  lemma WordsOfParagraph(paragraph: string)
    ensures MadeOf(paragraph, Split(paragraph, BLANK), {' '}, true)
  {
    SplitTakesApart(paragraph, BLANK, true);
  }

  /** The marker is the currency sign, and a line that ends with it counts as a last line. */
  lemma MarkerIsCurrencySign(lines: seq<Text>)
    ensures forall k | 0 <= k < |lines| ::
              Marked(lines)[k] == Join(lines[k]) + (if k == |lines| - 1 then ['\U{A4}'] else [])
    ensures forall line: string :: IsLastLine(line) <==> line != "" && line[|line| - 1] == '\U{A4}'
    ensures forall t: string :: RemoveLastLineMarker(t + ['\U{A4}']) == t
  {
    forall t: string
      ensures RemoveLastLineMarker(t + ['\U{A4}']) == t
    {
      assert (t + ['\U{A4}'])[..|t|] == t;
    }
  }

  function JoinAll(lines: seq<Text>): Text {
    seq(|lines|, k requires 0 <= k < |lines| => Join(lines[k]))
  }

  /** The finished lines and the line at hand are on the way to the greedy lines. */
  ghost predicate OnTheWay(
      words: Text, fits: Text -> bool, done: seq<Text>, current: Text, i: nat, lines: Text, currentLine: string) {
    && i <= |words| && (current == [] || current[0] != "")
    && currentLine == Join(current) && lines == JoinAll(done)
    && Fill([], words, fits) == done + Fill(current, words[i..], fits)
  }

  /** The line to be measured for the next word. */
  function TestLine(currentLine: string, word: string): string {
    if currentLine == "" then word else currentLine + " " + word
  }

  lemma TestLineIsJoin(words: Text, w: string)
    requires words == [] || words[0] != ""
    ensures Join(words + [w]) == TestLine(Join(words), w) && (Join(words) == "" <==> words == [])
  {
    JoinMore(words, w);
  }

  lemma WordFits(
      words: Text, fits: Text -> bool, done: seq<Text>, current: Text, i: nat, lines: Text, currentLine: string)
    requires OnTheWay(words, fits, done, current, i, lines, currentLine)
    requires i < |words| && words[i] != "" && (currentLine == "" || fits(current + [words[i]]))
    ensures OnTheWay(words, fits, done, current + [words[i]], i + 1, lines, TestLine(currentLine, words[i]))
  {
    TestLineIsJoin(current, words[i]);
    assert words[i..][0] == words[i] && words[i..][1..] == words[i + 1..];
  }

  lemma WordOverflows(
      words: Text, fits: Text -> bool, done: seq<Text>, current: Text, i: nat, lines: Text, currentLine: string)
    requires OnTheWay(words, fits, done, current, i, lines, currentLine)
    requires i < |words| && words[i] != "" && currentLine != "" && !fits(current + [words[i]])
    ensures OnTheWay(words, fits, done + [current], [words[i]], i + 1, lines + [currentLine], words[i])
  {
    TestLineIsJoin(current, words[i]);
    assert words[i..][0] == words[i] && words[i..][1..] == words[i + 1..];
    var more := Fill([words[i]], words[i + 1..], fits);
    assert done + ([current] + more) == done + [current] + more;
    assert JoinAll(done + [current]) == JoinAll(done) + [Join(current)];
  }

  lemma MarkedMore(done: seq<Text>, current: Text)
    ensures Marked(done + [current]) == JoinAll(done) + [Join(current) + [MARKER]]
  {
  }

  lemma ParagraphDone(words: Text, fits: Text -> bool, done: seq<Text>, current: Text, lines: Text, currentLine: string)
    requires OnTheWay(words, fits, done, current, |words|, lines, currentLine)
    requires currentLine == "" ==> done == []
    ensures Marked(Fill([], words, fits)) == lines + (if currentLine == "" then [] else [currentLine + [MARKER]])
  {
    assert words[|words|..] == [];
    TestLineIsJoin(current, "");
    if currentLine == "" {
      assert Fill([], words, fits) == [];
    } else {
      MarkedMore(done, current);
    }
  }

  /** Measuring the line with the word tells whether the word fits. */
  lemma MeasuringTells(width: string -> real, maxWidth: real, current: Text, word: string)
    requires current == [] || current[0] != ""
    ensures WidthFits(width, maxWidth)(current + [word]) <==> width(TestLine(Join(current), word)) <= maxWidth
  {
    TestLineIsJoin(current, word);
  }

  class TextParser {
    var widthCache: map<string, real>
    const measure: Measure
    ghost const fonts: Fonts

    constructor (measure: Measure, ghost fonts: Fonts)
      ensures this.measure == measure && this.fonts == fonts && widthCache == map[]
      ensures Printed(fonts.sizes) && Apart(fonts) ==> Valid()
    {
      this.measure, this.fonts, widthCache := measure, fonts, map[];
    }

    /** The fonts this object is asked for do not share keys, and its cache holds their widths. */
    ghost predicate Valid()
      reads this
    {
      Printed(fonts.sizes) && Apart(fonts) && Accurate(fonts, widthCache, measure)
    }

    /** With any cache and in any font. */
    method MeasureTextWidth(text: string, fontSize: string, fontFamily: string) returns (width: real)
      modifies this
      ensures width == Answer(old(widthCache), measure, Request(text, fontSize, fontFamily))
      ensures widthCache == CacheAfter(old(widthCache), measure, Request(text, fontSize, fontFamily))
      ensures old(Valid()) && Asks(fonts, Request(text, fontSize, fontFamily)) ==>
                Valid() && width == WidthIn(measure, fontSize, fontFamily)(text)
    {
      ghost var q := Request(text, fontSize, fontFamily);
      if Valid() && Asks(fonts, q) { AnswerIsWidth(fonts, widthCache, measure, q); }
      if text == "" {
        return 0.0;
      }
      var cacheKey := CacheKey(text, fontSize, fontFamily);
      if cacheKey in widthCache {
        return widthCache[cacheKey];
      }
      var measured := measure(text, fontSize, fontFamily);
      if measured.Formatted? {
        widthCache := widthCache[cacheKey := measured.width];
      }
      return measured.width;
    }

    /** The inner loop: the lines of one paragraph. */
    method WrapParagraph(paragraph: string, maxWidth: real, fontSize: string, fontFamily: string) returns (lines: Text)
      modifies this
      ensures lines == Marked(LinesOf(
                paragraph, WidthFits(AnswersIn(old(widthCache), measure, fontSize, fontFamily), maxWidth)))
      ensures SameAnswers(old(widthCache), widthCache, measure, fontSize, fontFamily)
      ensures old(Valid()) && fontSize in fonts.sizes && fontFamily in fonts.families ==> Valid()
    {
      ghost var width := AnswersIn(widthCache, measure, fontSize, fontFamily);
      ghost var fits := WidthFits(width, maxWidth);
      ghost var done: seq<Text>, current: Text := [], [];
      var words := Split(paragraph, BLANK);
      SplitGivesWords(paragraph, BLANK);
      var currentLine, isFirstWord := "", true;
      lines := [];
      assert words[0..] == words;
      for i := 0 to |words|
        invariant SameAnswers(old(widthCache), widthCache, measure, fontSize, fontFamily)
        invariant old(Valid()) && fontSize in fonts.sizes && fontFamily in fonts.families ==> Valid()
        invariant isFirstWord <==> currentLine == ""
        invariant currentLine == "" ==> done == []
        invariant OnTheWay(words, fits, done, current, i, lines, currentLine)
      {
        var word := words[i];
        assert word in words;
        MeasuringTells(width, maxWidth, current, word);
        var testLine := if isFirstWord then word else currentLine + " " + word;
        AnswersStay(widthCache, measure, Request(testLine, fontSize, fontFamily));
        assert width(testLine) == AnswersIn(widthCache, measure, fontSize, fontFamily)(testLine);
        var measured := MeasureTextWidth(testLine, fontSize, fontFamily);
        if measured <= maxWidth || currentLine == "" {
          WordFits(words, fits, done, current, i, lines, currentLine);
          current := current + [word];
        } else {
          WordOverflows(words, fits, done, current, i, lines, currentLine);
          done, current := done + [current], [word];
        }
        if measured <= maxWidth {
          if !isFirstWord {
            currentLine := currentLine + " ";
          }
          currentLine := currentLine + word;
        } else {
          if |currentLine| > 0 {
            lines := lines + [currentLine];
            currentLine := "";
          }
          currentLine := currentLine + word;
        }
        isFirstWord := false;
      }
      ParagraphDone(words, fits, done, current, lines, currentLine);
      if |currentLine| > 0 {
        lines := lines + [currentLine + [MARKER]];
      }
    }

    /** In any state the lines are those of the widths that are answered; in a valid one, of the widths. */
    method WrapLinesToWidth(
        paragraphs: Text, maxWidth: real, fontSize: string, fontFamily: string) returns (result: Text)
      modifies this
      ensures result == Wrapped(
                paragraphs, WidthFits(AnswersIn(old(widthCache), measure, fontSize, fontFamily), maxWidth))
      ensures old(Valid()) && fontSize in fonts.sizes && fontFamily in fonts.families ==>
                Valid() && result == Wrapped(paragraphs, WidthFits(WidthIn(measure, fontSize, fontFamily), maxWidth))
    {
      ghost var width := AnswersIn(widthCache, measure, fontSize, fontFamily);
      ghost var fits := WidthFits(width, maxWidth);
      if Valid() && fontSize in fonts.sizes && fontFamily in fonts.families {
        AnswersAreWidths(fonts, widthCache, measure, fontSize, fontFamily);
        SameWidthLines(paragraphs, width, WidthIn(measure, fontSize, fontFamily), maxWidth);
      }
      result := [];
      assert paragraphs[0..] == paragraphs;
      for k := 0 to |paragraphs|
        invariant SameAnswers(old(widthCache), widthCache, measure, fontSize, fontFamily)
        invariant old(Valid()) && fontSize in fonts.sizes && fontFamily in fonts.families ==> Valid()
        invariant Wrapped(paragraphs, fits) == result + Wrapped(paragraphs[k..], fits)
      {
        SameLinesOf(paragraphs[k], AnswersIn(widthCache, measure, fontSize, fontFamily), width, maxWidth);
        var lines := WrapParagraph(paragraphs[k], maxWidth, fontSize, fontFamily);
        assert paragraphs[k..][1..] == paragraphs[k + 1..];
        Assoc(result, lines, Wrapped(paragraphs[k + 1..], fits));
        result := result + lines;
      }
    }
  }

  /** Filling depends only on which segments fit. */
  lemma {:induction false} SameFill(cur: Text, words: Text, fits: Text -> bool, fits': Text -> bool)
    requires forall s :: fits(s) == fits'(s)
    ensures Fill(cur, words, fits) == Fill(cur, words, fits')
    decreases |words|
  {
    if words != [] {
      SameFill(cur + [words[0]], words[1..], fits, fits');
      SameFill([words[0]], words[1..], fits, fits');
    }
  }

  lemma SameLinesOf(paragraph: string, width: string -> real, width': string -> real, maxWidth: real)
    requires forall text :: width(text) == width'(text)
    ensures LinesOf(paragraph, WidthFits(width, maxWidth)) == LinesOf(paragraph, WidthFits(width', maxWidth))
  {
    var fits, fits' := WidthFits(width, maxWidth), WidthFits(width', maxWidth);
    forall s
      ensures fits(s) == fits'(s)
    {
      assert width(Join(s)) == width'(Join(s));
    }
    SameFill([], Split(paragraph, BLANK), fits, fits');
  }

  lemma SameWidthLines(paragraphs: Text, width: string -> real, width': string -> real, maxWidth: real)
    requires forall text :: width(text) == width'(text)
    ensures Wrapped(paragraphs, WidthFits(width, maxWidth)) == Wrapped(paragraphs, WidthFits(width', maxWidth))
  {
    var fits, fits' := WidthFits(width, maxWidth), WidthFits(width', maxWidth);
    forall s
      ensures fits(s) == fits'(s)
    {
      assert width(Join(s)) == width'(Join(s));
    }
    SameLines(paragraphs, fits, fits');
  }

  lemma {:induction false} SameLines(paragraphs: Text, fits: Text -> bool, fits': Text -> bool)
    requires forall s :: fits(s) == fits'(s)
    ensures Wrapped(paragraphs, fits) == Wrapped(paragraphs, fits')
  {
    if paragraphs != [] {
      SameFill([], Split(paragraphs[0], BLANK), fits, fits');
      SameLines(paragraphs[1..], fits, fits');
    }
  }

  // ------------------------------------------------------------------- widths

  /** A line of more than one word was measured within the width before it was marked. */
  lemma LinesWithinWidth(paragraph: string, width: string -> real, maxWidth: real, k: nat)
    requires k < |LinesOf(paragraph, WidthFits(width, maxWidth))|
    ensures var lines := LinesOf(paragraph, WidthFits(width, maxWidth));
            && (|lines[k]| > 1 ==> width(Join(lines[k])) <= maxWidth)
            && Flatten(lines) == Split(paragraph, BLANK)
  {
    var words := Split(paragraph, BLANK);
    FillIsGreedy([], words, WidthFits(width, maxWidth));
    assert [] + words == words;
  }

  /** If parts of a line are never wider than the line, no other wrapping of the paragraph has fewer lines. */
  lemma FewestLines(paragraph: string, width: string -> real, maxWidth: real, other: seq<Text>)
    requires Hereditary(WidthFits(width, maxWidth)) && Divides(other, Split(paragraph, BLANK))
    requires forall k | 0 <= k < |other| :: width(Join(other[k])) <= maxWidth
    ensures |Marked(LinesOf(paragraph, WidthFits(width, maxWidth)))| <= |other|
  {
    GreedyIsOptimal(Split(paragraph, BLANK), other, WidthFits(width, maxWidth));
  }

  // ----------------------------------------------------------------- recovery

  /** The words of the paragraphs, read off the lines alone by cutting behind the marked ones. */
  function Recovered(lines: Text, cur: Text): seq<Text> {
    if lines == [] then []
    else
      var words := cur + Split(RemoveLastLineMarker(lines[0]), BLANK);
      if IsLastLine(lines[0]) then [words] + Recovered(lines[1..], []) else Recovered(lines[1..], words)
  }

  /** The words of each paragraph that has any. */
  function WordsOfParagraphs(paragraphs: Text): seq<Text> {
    if paragraphs == [] then []
    else (var words := Split(paragraphs[0], BLANK); if words == [] then [] else [words])
         + WordsOfParagraphs(paragraphs[1..])
  }

  /** A line that is not the last of its paragraph ends with the marker all the same. */
  ghost predicate Mistaken(lines: seq<Text>) {
    exists k :: 0 <= k < |lines| - 1 && IsLastLine(Join(lines[k]))
  }

  ghost predicate NoneMistaken(paragraphs: Text, fits: Text -> bool) {
    forall p | p in paragraphs :: !Mistaken(LinesOf(p, fits))
  }

  /** As many paragraphs are recovered as lines are marked. */
  function Marks(lines: Text): nat {
    if lines == [] then 0 else (if IsLastLine(lines[0]) then 1 else 0) + Marks(lines[1..])
  }

  lemma {:induction false} RecoveredCount(lines: Text, cur: Text)
    ensures |Recovered(lines, cur)| == Marks(lines)
  {
    if lines != [] {
      if IsLastLine(lines[0]) {
        RecoveredCount(lines[1..], []);
      } else {
        RecoveredCount(lines[1..], cur + Split(RemoveLastLineMarker(lines[0]), BLANK));
      }
    }
  }

  lemma {:induction false} MarksAppend(a: Text, b: Text)
    ensures Marks(a + b) == Marks(a) + Marks(b)
  {
    if a == [] {
      assert a + b == b;
    } else {
      MarksAppend(a[1..], b);
      assert (a + b)[1..] == a[1..] + b;
    }
  }

  lemma MarkedRest(lines: seq<Text>)
    requires |lines| > 1
    ensures Marked(lines)[0] == Join(lines[0]) && Marked(lines)[1..] == Marked(lines[1..])
    ensures Mistaken(lines) <==> IsLastLine(Join(lines[0])) || Mistaken(lines[1..])
  {
    var more := lines[1..];
    assert forall k | 0 <= k < |more| :: more[k] == lines[k + 1];
    if k :| 0 <= k < |lines| - 1 && IsLastLine(Join(lines[k])) {
      if k > 0 { assert IsLastLine(Join(more[k - 1])); }
    }
  }

  /** The lines of a paragraph carry one mark, and more exactly when one is mistaken. */
  lemma {:induction false} MarksOfParagraph(lines: seq<Text>)
    requires lines != []
    ensures Marks(Marked(lines)) >= 1 && (Marks(Marked(lines)) == 1 <==> !Mistaken(lines))
  {
    if |lines| == 1 {
      assert Marked(lines)[1..] == [];
    } else {
      MarkedRest(lines);
      MarksOfParagraph(lines[1..]);
    }
  }

  /** A paragraph without a mistaken line is read off its lines. */
  lemma {:induction false} ParagraphRecovered(lines: seq<Text>, cur: Text, rest: Text)
    requires lines != [] && !Mistaken(lines) && forall k | 0 <= k < |lines| :: AreWords(lines[k], BLANK)
    ensures Recovered(Marked(lines) + rest, cur) == [cur + Flatten(lines)] + Recovered(rest, [])
  {
    var all := Marked(lines) + rest;
    SplitOfJoin(lines[0], BLANK);
    if |lines| == 1 {
      assert all[0] == Join(lines[0]) + [MARKER] && all[1..] == rest;
      assert RemoveLastLineMarker(all[0]) == Join(lines[0]);
      assert lines[1..] == [] && Flatten(lines) == lines[0];
    } else {
      MarkedRest(lines);
      assert all[0] == Join(lines[0]) && all[1..] == Marked(lines[1..]) + rest;
      assert forall k | 0 <= k < |lines| - 1 :: lines[1..][k] == lines[k + 1];
      ParagraphRecovered(lines[1..], cur + lines[0], rest);
      Assoc(cur, lines[0], Flatten(lines[1..]));
      assert RemoveLastLineMarker(all[0]) == all[0];
    }
  }

  lemma LinesAreWords(paragraph: string, fits: Text -> bool)
    ensures var lines := LinesOf(paragraph, fits);
            && Flatten(lines) == Split(paragraph, BLANK) && (lines == [] <==> Split(paragraph, BLANK) == [])
            && forall k | 0 <= k < |lines| :: lines[k] != [] && AreWords(lines[k], BLANK)
  {
    var lines, words := LinesOf(paragraph, fits), Split(paragraph, BLANK);
    SplitGivesWords(paragraph, BLANK);
    FillIsGreedy([], words, fits);
    assert [] + words == words;
    forall k | 0 <= k < |lines|
      ensures AreWords(lines[k], BLANK)
    {
      PartOfFlatten(lines, k);
    }
  }

  lemma {:induction false} MarksOfAll(paragraphs: Text, fits: Text -> bool)
    ensures Marks(Wrapped(paragraphs, fits)) >= |WordsOfParagraphs(paragraphs)|
    ensures Marks(Wrapped(paragraphs, fits)) == |WordsOfParagraphs(paragraphs)| <==> NoneMistaken(paragraphs, fits)
  {
    if paragraphs != [] {
      var p, more := paragraphs[0], paragraphs[1..];
      var lines := LinesOf(p, fits);
      MarksOfAll(more, fits);
      LinesAreWords(p, fits);
      MarksAppend(Marked(lines), Wrapped(more, fits));
      if lines != [] { MarksOfParagraph(lines); }
      assert forall q :: q in paragraphs <==> q == p || q in more;
    }
  }

  lemma {:induction false} AllRecovered(paragraphs: Text, fits: Text -> bool)
    requires NoneMistaken(paragraphs, fits)
    ensures Recovered(Wrapped(paragraphs, fits), []) == WordsOfParagraphs(paragraphs)
  {
    if paragraphs != [] {
      var p, more := paragraphs[0], paragraphs[1..];
      var lines := LinesOf(p, fits);
      AllRecovered(more, fits);
      LinesAreWords(p, fits);
      if lines != [] {
        ParagraphRecovered(lines, [], Wrapped(more, fits));
        assert [] + Flatten(lines) == Flatten(lines);
      } else {
        assert Marked(lines) + Wrapped(more, fits) == Wrapped(more, fits);
      }
    }
  }

  /** For one way to break lines: the paragraphs are recovered exactly when no line is mistaken for a last one. */
  lemma ParagraphsRecovered(paragraphs: Text, fits: Text -> bool)
    ensures Recovered(Wrapped(paragraphs, fits), []) == WordsOfParagraphs(paragraphs)
            <==> NoneMistaken(paragraphs, fits)
  {
    RecoveredCount(Wrapped(paragraphs, fits), []);
    MarksOfAll(paragraphs, fits);
    if NoneMistaken(paragraphs, fits) { AllRecovered(paragraphs, fits); }
  }

  /** No word but the last of its paragraph ends with the marker. */
  ghost predicate MarkerFree(paragraphs: Text) {
    forall p, k | p in paragraphs && 0 <= k < |Split(p, BLANK)| - 1 :: !IsLastLine(Split(p, BLANK)[k])
  }

  /** A word at the end of a line that is not the last one is not the last word. */
  lemma {:induction false} LastWordOf(lines: seq<Text>, k: nat) returns (i: nat)
    requires k + 1 < |lines| && forall m | 0 <= m < |lines| :: lines[m] != []
    ensures i + 1 < |Flatten(lines)| && Flatten(lines)[i] == lines[k][|lines[k]| - 1]
  {
    var more := lines[1..];
    assert Flatten(lines) == lines[0] + Flatten(more) && Flatten(more) == more[0] + Flatten(more[1..]);
    if k == 0 {
      i := |lines[0]| - 1;
    } else {
      i := LastWordOf(more, k - 1);
      i := i + |lines[0]|;
    }
  }

  /** Where no word but the last can be mistaken, no line is. */
  lemma MarkerFreeSuffices(paragraphs: Text, fits: Text -> bool)
    requires MarkerFree(paragraphs)
    ensures NoneMistaken(paragraphs, fits)
  {
    forall p | p in paragraphs
      ensures !Mistaken(LinesOf(p, fits))
    {
      var lines := LinesOf(p, fits);
      LinesAreWords(p, fits);
      forall k | 0 <= k < |lines| - 1
        ensures !IsLastLine(Join(lines[k]))
      {
        var line := lines[k];
        var i := LastWordOf(lines, k);
        assert line[0] in line && line[|line| - 1] in line;
        JoinEnds(line);
        assert !IsLastLine(Split(p, BLANK)[i]);
      }
    }
  }

  /** When nothing fits every word has its own line. */
  lemma {:induction false} NothingFits(cur: Text, words: Text, fits: Text -> bool)
    requires |cur| <= 1 && forall s :: !fits(s)
    ensures |Fill(cur, words, fits)| == |cur + words|
    ensures forall k | 0 <= k < |cur + words| :: Fill(cur, words, fits)[k] == [(cur + words)[k]]
    decreases |words|
  {
    if words != [] {
      var w, rest := words[0], words[1..];
      assert [] + [w] == [w];
      assert cur + words == cur + ([w] + rest);
      NothingFits([w], rest, fits);
    }
  }

  lemma MistakenWord(paragraphs: Text, fits: Text -> bool)
    requires NoneMistaken(paragraphs, fits) && forall s :: !fits(s)
    ensures MarkerFree(paragraphs)
  {
    forall p, k | p in paragraphs && 0 <= k < |Split(p, BLANK)| - 1
      ensures !IsLastLine(Split(p, BLANK)[k])
    {
      var words, lines := Split(p, BLANK), LinesOf(p, fits);
      NothingFits([], words, fits);
      assert [] + words == words;
      assert lines[k] == [words[k]] && Join([words[k]]) == words[k];
      assert !Mistaken(lines);
    }
  }

  /** What is read off the lines, broken at that width, are the paragraphs. */
  predicate Recovers(paragraphs: Text, width: string -> real, maxWidth: real) {
    Recovered(Wrapped(paragraphs, WidthFits(width, maxWidth)), []) == WordsOfParagraphs(paragraphs)
  }

  /**
    Whatever the widths: the paragraphs are always recovered exactly when no word
    but the last of a paragraph ends with the marker. Text free of it qualifies.
   */
  lemma RecoveredForEveryWidth(paragraphs: Text)
    ensures (forall width: string -> real, maxWidth: real :: Recovers(paragraphs, width, maxWidth))
            <==> MarkerFree(paragraphs)
  {
    if MarkerFree(paragraphs) {
      forall width: string -> real, maxWidth: real
        ensures Recovers(paragraphs, width, maxWidth)
      {
        MarkerFreeSuffices(paragraphs, WidthFits(width, maxWidth));
        ParagraphsRecovered(paragraphs, WidthFits(width, maxWidth));
      }
    }
    var width: string -> real := _ => 1.0;
    ParagraphsRecovered(paragraphs, WidthFits(width, 0.0));
    assert Recovers(paragraphs, width, 0.0) ==> NoneMistaken(paragraphs, WidthFits(width, 0.0));
    if NoneMistaken(paragraphs, WidthFits(width, 0.0)) { MistakenWord(paragraphs, WidthFits(width, 0.0)); }
  }

  /** A word in the middle of a paragraph that ends with the marker splits the paragraph when it ends a line. */
  lemma MarkedWordSplits(width: string -> real)
    requires forall t :: width(t) > 0.0
    ensures var a, p := "a" + [MARKER], "a" + [MARKER] + " b";
            && WordsOfParagraphs([p]) == [[a, "b"]]
            && Recovered(Wrapped([p], WidthFits(width, 0.0)), []) == [["a"], ["b"]]
  {
    var a, p, fits := "a" + [MARKER], "a" + [MARKER] + " b", WidthFits(width, 0.0);
    MarkedWords();
    forall words
      ensures !fits(words)
    {
      assert width(Join(words)) > 0.0;
    }
    NothingFits([], [a, "b"], fits);
    assert [] + [a, "b"] == [a, "b"];
    var lines := LinesOf(p, fits);
    assert lines == [[a], ["b"]];
    var text := Marked(lines);
    assert text == [a, "b" + [MARKER]];
    assert [p][1..] == [] && Wrapped([p], fits) == text + Wrapped([], fits) == text;
    RecoveredPair(text, a);
  }

  lemma MarkedWords()
    ensures var a, p := "a" + [MARKER], "a" + [MARKER] + " b";
            Split(p, BLANK) == [a, "b"] && WordsOfParagraphs([p]) == [[a, "b"]]
  {
    var a, p := "a" + [MARKER], "a" + [MARKER] + " b";
    var words := [a, "b"];
    assert words[..1] == [a] && Join([a]) == a && Join(words) == a + " " + "b" == p;
    SplitOfJoin(words, BLANK);
    assert [p][1..] == [];
  }

  lemma RecoveredPair(text: Text, a: string)
    requires a == "a" + [MARKER] && text == [a, "b" + [MARKER]]
    ensures Recovered(text, []) == [["a"], ["b"]]
  {
    var rest, b := text[1..], "b" + [MARKER];
    assert rest == [b] && rest[1..] == [];
    assert a[..1] == "a" && b[..1] == "b";
    assert RemoveLastLineMarker(a) == "a" && RemoveLastLineMarker(b) == "b";
    SplitWord("a", BLANK);
    SplitWord("b", BLANK);
    assert [] + ["a"] == ["a"] && [] + ["b"] == ["b"];
    assert Recovered(rest, []) == [["b"]] + Recovered([], []) == [["b"]];
    assert [["a"]] + [["b"]] == [["a"], ["b"]];
  }
}
