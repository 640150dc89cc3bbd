/**
  The paginator: lines are put on pages one after the other, a new page is begun
  when the next line is higher than what is left of the page. Heights are reals.
 */
module Pagination {
  import opened Greedy

  type Lines = seq<string>

  const HEADER_HEIGHT := 50.0
  const MARGIN_OUTER := 40.0
  const LONG_LINE := 50

  datatype Notes = Notes(a: Lines, b: Lines, c: Lines)

  const NO_NOTES := Notes([], [], [])

  /** What is on a page. */
  datatype Page = Page(number: nat, lines: Lines, used: real, notes: Notes)

  function Available(pageHeight: real): real {
    pageHeight - HEADER_HEIGHT - MARGIN_OUTER
  }

  class PageModel {
    const pageHeight: real
    var pageNumber: nat
    var usedHeight: real
    var allMainLines: Lines
    var allFootnotesA: Lines
    var allFootnotesB: Lines
    var allFootnotesC: Lines

    constructor (number: nat, height: real)
      ensures pageHeight == height && View() == Page(number, [], 0.0, NO_NOTES)
    {
      pageHeight, pageNumber, usedHeight := height, number, 0.0;
      allMainLines, allFootnotesA, allFootnotesB, allFootnotesC := [], [], [], [];
    }

    function View(): Page
      reads this
    {
      Page(pageNumber, allMainLines, usedHeight, Notes(allFootnotesA, allFootnotesB, allFootnotesC))
    }

    function AvailableHeight(): real {
      Available(pageHeight)
    }

    function RemainingHeight(): real
      reads this
    {
      AvailableHeight() - usedHeight
    }

    method ReserveHeight(height: real)
      modifies this`usedHeight
      ensures RemainingHeight() == old(RemainingHeight()) - height
    {
      usedHeight := usedHeight + height;
    }
  }

  // ------------------------------------------------------------------ heights

  /** Half a line more for a long line. */
  function LineHeight(lineHeight: real, line: string): real {
    if |line| > LONG_LINE then lineHeight + lineHeight * 0.5 else lineHeight
  }

  function Total(lineHeight: real, lines: Lines): real {
    if lines == [] then 0.0 else Total(lineHeight, lines[..|lines| - 1]) + LineHeight(lineHeight, lines[|lines| - 1])
  }

  /** Lines that are not higher than a page. */
  function Fits(pageHeight: real, lineHeight: real): Lines -> bool {
    lines => Total(lineHeight, lines) <= Available(pageHeight)
  }

  lemma TotalMore(lineHeight: real, lines: Lines, line: string)
    ensures Total(lineHeight, lines + [line]) == Total(lineHeight, lines) + LineHeight(lineHeight, line)
  {
    assert (lines + [line])[..|lines|] == lines;
  }

  lemma {:induction false} TotalOfParts(lineHeight: real, a: Lines, b: Lines)
    requires lineHeight >= 0.0
    ensures Total(lineHeight, a + b) == Total(lineHeight, a) + Total(lineHeight, b) && Total(lineHeight, b) >= 0.0
  {
    if b == [] {
      assert a + b == a;
    } else {
      var m := |b| - 1;
      TotalOfParts(lineHeight, a, b[..m]);
      assert a + b == a + b[..m] + [b[m]];
      TotalMore(lineHeight, a + b[..m], b[m]);
    }
  }

  /** How many lines have more than fifty characters. */
  function LongLines(lines: Lines): nat {
    if lines == [] then 0 else LongLines(lines[..|lines| - 1]) + (if |lines[|lines| - 1]| > 50 then 1 else 0)
  }

  /** Every line takes the line height, and a line of more than fifty characters half as much again. */
  lemma {:induction false} HeightOfLines(lineHeight: real, lines: Lines)
    ensures Total(lineHeight, lines) == lineHeight * |lines| as real + lineHeight * 0.5 * LongLines(lines) as real
  {
    if lines != [] {
      HeightOfLines(lineHeight, lines[..|lines| - 1]);
      OneMoreHeight(lineHeight, |lines| - 1, LongLines(lines[..|lines| - 1]), |lines[|lines| - 1]| > 50);
    }
  }

  lemma OneMoreHeight(lineHeight: real, n: nat, long: nat, isLong: bool)
    ensures lineHeight * n as real + lineHeight * 0.5 * long as real
            + (if isLong then lineHeight + lineHeight * 0.5 else lineHeight)
            == lineHeight * (n + 1) as real + lineHeight * 0.5 * (long + (if isLong then 1 else 0)) as real
  {
    assert (n + 1) as real == n as real + 1.0;
    assert (long + 1) as real == long as real + 1.0;
    assert lineHeight * (n as real + 1.0) == lineHeight * n as real + lineHeight;
    assert lineHeight * 0.5 * (long as real + 1.0) == lineHeight * 0.5 * long as real + lineHeight * 0.5;
  }

  /** A page keeps ninety for its header and its outer margin, and holds the lines that fit in the rest. */
  lemma PageHolds(pageHeight: real, lineHeight: real, lines: Lines)
    ensures Fits(pageHeight, lineHeight)(lines) <==>
            lineHeight * |lines| as real + lineHeight * 0.5 * LongLines(lines) as real <= pageHeight - 90.0
  {
    HeightOfLines(lineHeight, lines);
  }

  lemma FitsIsHereditary(pageHeight: real, lineHeight: real)
    requires lineHeight >= 0.0
    ensures Hereditary(Fits(pageHeight, lineHeight))
  {
    forall s: Lines, i, j | 0 <= i <= j <= |s| && Fits(pageHeight, lineHeight)(s)
      ensures Fits(pageHeight, lineHeight)(s[i..j])
    {
      TotalOfParts(lineHeight, s[..i], s[i..j]);
      TotalOfParts(lineHeight, [], s[..i]);
      TotalOfParts(lineHeight, s[..j], s[j..]);
      assert s[..i] + s[i..j] == s[..j] && s[..j] + s[j..] == s && [] + s[..i] == s[..i];
    }
  }

  // ---------------------------------------------------------------- the loop

  /** Where the loop stands: the next line, what is used of the page at hand, and how many pages are finished. */
  datatype Progress = Progress(line: nat, used: real, pages: nat)

  /** One round of the loop. */
  function Round(pageHeight: real, lineHeight: real, lines: Lines, p: Progress): Progress {
    if p.line >= |lines| then p
    else
      var height := LineHeight(lineHeight, lines[p.line]);
      if Available(pageHeight) - p.used >= height then p.(line := p.line + 1, used := p.used + height)
      else p.(used := 0.0, pages := p.pages + 1)
  }

  function After(pageHeight: real, lineHeight: real, lines: Lines, rounds: nat): Progress {
    if rounds == 0 then Progress(0, 0.0, 0)
    else Round(pageHeight, lineHeight, lines, After(pageHeight, lineHeight, lines, rounds - 1))
  }

  /** No line is higher than an empty page. */
  ghost predicate NoneTooHigh(pageHeight: real, lineHeight: real, lines: Lines) {
    forall k | 0 <= k < |lines| :: LineHeight(lineHeight, lines[k]) <= Available(pageHeight)
  }

  /**
    When the loop comes to its end: when no line is higher than an empty page; with
    a negative line height the page only grows, so that the first line decides.
   */
  ghost predicate Paginable(pageHeight: real, lineHeight: real, lines: Lines) {
    if lineHeight >= 0.0 then NoneTooHigh(pageHeight, lineHeight, lines)
    else lines == [] || LineHeight(lineHeight, lines[0]) <= Available(pageHeight)
  }

  /** Until the first line that is too high, every line is reached. */
  lemma {:induction false} LineIsReached(pageHeight: real, lineHeight: real, lines: Lines, k: nat) returns (rounds: nat)
    requires k <= |lines| && NoneTooHigh(pageHeight, lineHeight, lines[..k])
    ensures After(pageHeight, lineHeight, lines, rounds).line == k
  {
    if k == 0 {
      rounds := 0;
    } else {
      assert lines[..k][..k - 1] == lines[..k - 1];
      assert lines[..k][k - 1] == lines[k - 1];
      rounds := LineIsReached(pageHeight, lineHeight, lines, k - 1);
      rounds := rounds + 1;
      if After(pageHeight, lineHeight, lines, rounds).line != k {
        rounds := rounds + 1;
      }
    }
  }

  /** A line that is too high is never passed; each round after reaching it on a fresh page makes one more page. */
  lemma {:induction false} HighLineBlocks(pageHeight: real, lineHeight: real, lines: Lines, k: nat, rounds: nat)
    requires (lineHeight >= 0.0 || k == 0) && k < |lines| && LineHeight(lineHeight, lines[k]) > Available(pageHeight)
    ensures var p := After(pageHeight, lineHeight, lines, rounds); p.line <= k && p.used >= 0.0
    ensures var p, q := After(pageHeight, lineHeight, lines, rounds), After(pageHeight, lineHeight, lines, rounds + 1);
            p.line == k ==> q == Progress(k, 0.0, p.pages + 1)
  {
    if rounds > 0 { HighLineBlocks(pageHeight, lineHeight, lines, k, rounds - 1); }
  }

  /** With a negative line height, a line is taken in every round once the first one is. */
  lemma {:induction false} NegativeIsTaken(pageHeight: real, lineHeight: real, lines: Lines, k: nat)
    requires lineHeight < 0.0 && Paginable(pageHeight, lineHeight, lines) && k <= |lines|
    ensures var p := After(pageHeight, lineHeight, lines, k);
            p.line == k && p.pages == 0 && (k > 0 ==> p.used <= Available(pageHeight))
  {
    if k > 0 { NegativeIsTaken(pageHeight, lineHeight, lines, k - 1); }
  }

  /** The loop comes to its end exactly when the lines are paginable. */
  lemma LoopEnds(pageHeight: real, lineHeight: real, lines: Lines)
    ensures (exists rounds :: After(pageHeight, lineHeight, lines, rounds).line == |lines|) <==>
            Paginable(pageHeight, lineHeight, lines)
  {
    if Paginable(pageHeight, lineHeight, lines) {
      if lineHeight >= 0.0 {
        assert lines[..|lines|] == lines;
        var rounds := LineIsReached(pageHeight, lineHeight, lines, |lines|);
      } else {
        NegativeIsTaken(pageHeight, lineHeight, lines, |lines|);
      }
    } else {
      var k: nat :| k < |lines| && LineHeight(lineHeight, lines[k]) > Available(pageHeight)
                    && (lineHeight >= 0.0 || k == 0);
      forall rounds
        ensures After(pageHeight, lineHeight, lines, rounds).line != |lines|
      {
        HighLineBlocks(pageHeight, lineHeight, lines, k, rounds);
      }
    }
  }

  /** One line higher than a page: round after round it makes an empty page and stays where it is. */
  lemma {:induction false} OneHighLine(rounds: nat)
    ensures After(100.0, 30.0, ["a"], rounds) == Progress(0, 0.0, rounds)
  {
    if rounds > 0 { OneHighLine(rounds - 1); }
  }

  // ----------------------------------------------------------------- paginate

  function Pages(pageHeight: real, lineHeight: real, lines: Lines): seq<Lines> {
    Fill([], lines, Fits(pageHeight, lineHeight))
  }

  /** The k-th page; all footnotes are on the first one. */
  function PageOf(lineHeight: real, segments: seq<Lines>, k: nat, notes: Notes): Page
    requires k < |segments|
  {
    Page(k + 1, segments[k], Total(lineHeight, segments[k]), if k == 0 then notes else NO_NOTES)
  }

  class PaginationEngine {
    const pageHeight: real
    const lineHeight: real

    constructor (pageHeight: real, lineHeight: real)
      ensures this.pageHeight == pageHeight && this.lineHeight == lineHeight
    {
      this.pageHeight, this.lineHeight := pageHeight, lineHeight;
    }

    /** All footnotes not yet placed go to the page. */
    method AddFootnotesForLine(
        page: PageModel, a0: nat, b0: nat, c0: nat, notes: Notes) returns (a: nat, b: nat, c: nat)
      requires a0 <= |notes.a| && b0 <= |notes.b| && c0 <= |notes.c|
      modifies page`allFootnotesA, page`allFootnotesB, page`allFootnotesC
      ensures a == |notes.a| && b == |notes.b| && c == |notes.c|
      ensures page.allFootnotesA == old(page.allFootnotesA) + notes.a[a0..]
      ensures page.allFootnotesB == old(page.allFootnotesB) + notes.b[b0..]
      ensures page.allFootnotesC == old(page.allFootnotesC) + notes.c[c0..]
    {
      a, b, c := a0, b0, c0;
      assert notes.a[a0..a] == [] && notes.b[b0..b] == [] && notes.c[c0..c] == [];
      while a < |notes.a|
        invariant a0 <= a <= |notes.a| && page.allFootnotesA == old(page.allFootnotesA) + notes.a[a0..a]
        invariant page.allFootnotesB == old(page.allFootnotesB) && page.allFootnotesC == old(page.allFootnotesC)
      {
        page.allFootnotesA := page.allFootnotesA + [notes.a[a]];
        a := a + 1;
      }
      assert notes.a[a0..a] == notes.a[a0..];
      while b < |notes.b|
        invariant b0 <= b <= |notes.b| && page.allFootnotesB == old(page.allFootnotesB) + notes.b[b0..b]
        invariant page.allFootnotesA == old(page.allFootnotesA) + notes.a[a0..]
        invariant page.allFootnotesC == old(page.allFootnotesC)
      {
        page.allFootnotesB := page.allFootnotesB + [notes.b[b]];
        b := b + 1;
      }
      assert notes.b[b0..b] == notes.b[b0..];
      while c < |notes.c|
        invariant c0 <= c <= |notes.c| && page.allFootnotesC == old(page.allFootnotesC) + notes.c[c0..c]
        invariant page.allFootnotesA == old(page.allFootnotesA) + notes.a[a0..]
        invariant page.allFootnotesB == old(page.allFootnotesB) + notes.b[b0..]
      {
        page.allFootnotesC := page.allFootnotesC + [notes.c[c]];
        c := c + 1;
      }
    }

    ghost predicate Standing(lines: Lines, notes: Notes, done: seq<Lines>, page: PageModel, index: nat, rounds: nat)
      reads page
    {
      page.pageHeight == pageHeight && Stands(pageHeight, lineHeight, lines, notes, done, page.View(), index, rounds)
    }

    /** The branch that puts the line on the page at hand. */
    method AddLine(page: PageModel, lines: Lines, index: nat, a0: nat, b0: nat, c0: nat, notes: Notes,
                   ghost done: seq<Lines>, ghost rounds: nat)
      returns (a: nat, b: nat, c: nat)
      requires Placed(index, notes, a0, b0, c0) && index < |lines|
      requires Standing(lines, notes, done, page, index, rounds)
      requires page.RemainingHeight() >= LineHeight(lineHeight, lines[index])
      modifies page
      ensures Placed(index + 1, notes, a, b, c)
      ensures Standing(lines, notes, done, page, index + 1, rounds + 1)
    {
      LineTaken(pageHeight, lineHeight, lines, notes, done, page.View(), index, rounds);
      NotesAt(index, notes, a0, b0, c0);
      page.allMainLines := page.allMainLines + [lines[index]];
      page.ReserveHeight(LineHeight(lineHeight, lines[index]));
      a, b, c := AddFootnotesForLine(page, a0, b0, c0, notes);
    }

    ghost predicate Filed(pages: seq<PageModel>, done: seq<Lines>, notes: Notes)
      reads pages
    {
      |pages| == |done| && forall k: nat | k < |pages| :: pages[k].View() == PageOf(lineHeight, done, k, notes)
    }

    lemma FiledMore(pages: seq<PageModel>, done: seq<Lines>, notes: Notes, page: PageModel, last: Lines)
      requires Filed(pages, done, notes) && page.View() == PageOf(lineHeight, done + [last], |done|, notes)
      ensures Filed(pages + [page], done + [last], notes)
    {
    }

    /** The branch for a full page: it is filed, and a new page is begun. */
    method TurnPage(
        filed: seq<PageModel>, page: PageModel, lines: Lines, index: nat, notes: Notes,
        ghost done: seq<Lines>, ghost rounds: nat)
      returns (pages: seq<PageModel>, newPage: PageModel)
      requires Filed(filed, done, notes) && Standing(lines, notes, done, page, index, rounds) && index < |lines|
      requires Paginable(pageHeight, lineHeight, lines)
      requires page.RemainingHeight() < LineHeight(lineHeight, lines[index])
      ensures pages == filed + [page] && fresh(newPage) && newPage.allMainLines == [] && page.allMainLines != []
      ensures Filed(pages, done + [page.allMainLines], notes)
      ensures Standing(lines, notes, done + [page.allMainLines], newPage, index, rounds + 1)
    {
      PageTurned(pageHeight, lineHeight, lines, notes, done, page.View(), index, rounds);
      FiledMore(filed, done, notes, page, page.allMainLines);
      pages := filed + [page];
      newPage := new PageModel(|pages| + 1, pageHeight);
    }

    /** The state of the loop between two rounds. */
    ghost predicate InLoop(
        pages: seq<PageModel>, page: PageModel, lines: Lines, index: nat, a: nat, b: nat, c: nat, notes: Notes,
        done: seq<Lines>, rounds: nat)
      reads page, pages
    {
      && page !in pages && index <= |lines| && Placed(index, notes, a, b, c)
      && Filed(pages, done, notes) && Standing(lines, notes, done, page, index, rounds)
    }

    /** The body of the loop: the next line is put on the page at hand, or the page is turned. */
    method PlaceLine(
        filed: seq<PageModel>, page: PageModel, lines: Lines, index: nat, a0: nat, b0: nat, c0: nat, notes: Notes,
        ghost done: seq<Lines>, ghost rounds: nat)
      returns (
        pages: seq<PageModel>, currentPage: PageModel, lineIndex: nat, a: nat, b: nat, c: nat, ghost done': seq<Lines>)
      requires InLoop(filed, page, lines, index, a0, b0, c0, notes, done, rounds) && index < |lines|
      requires Paginable(pageHeight, lineHeight, lines)
      modifies page
      ensures InLoop(pages, currentPage, lines, lineIndex, a, b, c, notes, done', rounds + 1)
      ensures forall p | p in pages :: p in filed || p == page
      ensures currentPage == page || fresh(currentPage)
      ensures lineIndex == index + 1
              || (lineIndex == index && |currentPage.allMainLines| < old(|page.allMainLines|))
    {
      pages, currentPage, lineIndex, a, b, c, done' := filed, page, index, a0, b0, c0, done;
      if page.RemainingHeight() >= LineHeight(lineHeight, lines[index]) {
        a, b, c := AddLine(page, lines, index, a0, b0, c0, notes, done, rounds);
        lineIndex := index + 1;
      } else {
        pages, currentPage := TurnPage(filed, page, lines, index, notes, done, rounds);
        done' := done + [page.allMainLines];
      }
    }

    /** The loop over the lines; the page at hand is not yet filed when it ends. */
    method PlaceLines(lines: Lines, notes: Notes)
      returns (pages: seq<PageModel>, currentPage: PageModel, ghost done: seq<Lines>, ghost rounds: nat)
      requires Paginable(pageHeight, lineHeight, lines)
      ensures (forall p | p in pages :: fresh(p)) && fresh(currentPage)
      ensures Filed(pages, done, notes) && Standing(lines, notes, done, currentPage, |lines|, rounds)
    {
      done, rounds := [], 0;
      pages := [];
      currentPage := new PageModel(1, pageHeight);
      var lineIndex, a, b, c := 0, 0, 0, 0;
      assert lines[0..] == lines;
      while lineIndex < |lines|
        invariant (forall p | p in pages :: fresh(p)) && fresh(currentPage)
        invariant InLoop(pages, currentPage, lines, lineIndex, a, b, c, notes, done, rounds)
        decreases |lines| - lineIndex, |currentPage.allMainLines|
      {
        pages, currentPage, lineIndex, a, b, c, done :=
          PlaceLine(pages, currentPage, lines, lineIndex, a, b, c, notes, done, rounds);
        rounds := rounds + 1;
      }
    }

    method Paginate(lines: Lines, notes: Notes) returns (pages: seq<PageModel>)
      requires Paginable(pageHeight, lineHeight, lines)
      ensures (forall p | p in pages :: fresh(p)) && Filed(pages, Pages(pageHeight, lineHeight, lines), notes)
    {
      var currentPage;
      ghost var done, rounds;
      pages, currentPage, done, rounds := PlaceLines(lines, notes);
      LoopDone(pageHeight, lineHeight, lines, notes, done, currentPage.View(), rounds);
      if |currentPage.allMainLines| > 0 {
        FiledMore(pages, done, notes, currentPage, currentPage.allMainLines);
        pages := pages + [currentPage];
      }
    }
  }

  // --------------------------------------------------------- steps of the loop

  function WithLine(p: Page, line: string, height: real, a: Lines, b: Lines, c: Lines): Page {
    Page(p.number, p.lines + [line], p.used + height, Notes(p.notes.a + a, p.notes.b + b, p.notes.c + c))
  }

  /** The indices of the footnotes to place next, before and after the first line. */
  ghost predicate Placed(index: nat, notes: Notes, a: nat, b: nat, c: nat) {
    if index == 0 then a == b == c == 0 else a == |notes.a| && b == |notes.b| && c == |notes.c|
  }

  lemma NotesAt(index: nat, notes: Notes, a: nat, b: nat, c: nat)
    requires Placed(index, notes, a, b, c)
    ensures a <= |notes.a| && b <= |notes.b| && c <= |notes.c|
    ensures NotesLeft(index, notes) == Notes(notes.a[a..], notes.b[b..], notes.c[c..])
  {
  }

  /** The notes still to be placed when the loop is at a line. */
  function NotesLeft(index: nat, notes: Notes): Notes {
    if index == 0 then notes else NO_NOTES
  }

  /** The finished pages and the page at hand are on the way to the greedy division. */
  ghost predicate Stands(pageHeight: real, lineHeight: real, lines: Lines, notes: Notes,
                         done: seq<Lines>, cur: Page, index: nat, rounds: nat) {
    && index <= |lines| && (index == 0 ==> done == [] && cur.lines == [])
    && cur == Page(|done| + 1, cur.lines,
                   Total(lineHeight, cur.lines), if done == [] && index > 0 then notes else NO_NOTES)
    && Pages(pageHeight, lineHeight, lines) == done + Fill(cur.lines, lines[index..], Fits(pageHeight, lineHeight))
    && After(pageHeight, lineHeight, lines, rounds) == Progress(index, cur.used, |done|)
    && (lineHeight < 0.0 && index > 0 ==> cur.used <= Available(pageHeight))
  }

  lemma LineTaken(pageHeight: real, lineHeight: real, lines: Lines, notes: Notes,
                  done: seq<Lines>, cur: Page, index: nat, rounds: nat)
    requires Stands(pageHeight, lineHeight, lines, notes, done, cur, index, rounds) && index < |lines|
    requires Available(pageHeight) - cur.used >= LineHeight(lineHeight, lines[index])
    ensures var left := NotesLeft(index, notes);
            Stands(pageHeight, lineHeight, lines, notes, done,
                   WithLine(cur, lines[index], LineHeight(lineHeight, lines[index]), left.a, left.b, left.c),
                   index + 1, rounds + 1)
  {
    TotalMore(lineHeight, cur.lines, lines[index]);
    assert lines[index..][1..] == lines[index + 1..];
    assert lines[index..][0] == lines[index];
  }

  lemma LoopDone(
      pageHeight: real, lineHeight: real, lines: Lines, notes: Notes, done: seq<Lines>, cur: Page, rounds: nat)
    requires Stands(pageHeight, lineHeight, lines, notes, done, cur, |lines|, rounds)
    ensures Pages(pageHeight, lineHeight, lines) == if cur.lines == [] then done else done + [cur.lines]
    ensures cur.lines != [] ==> cur == PageOf(lineHeight, done + [cur.lines], |done|, notes)
  {
    assert lines[|lines|..] == [];
  }

  lemma PageTurned(pageHeight: real, lineHeight: real, lines: Lines, notes: Notes,
                   done: seq<Lines>, cur: Page, index: nat, rounds: nat)
    requires Paginable(pageHeight, lineHeight, lines)
    requires Stands(pageHeight, lineHeight, lines, notes, done, cur, index, rounds) && index < |lines|
    requires Available(pageHeight) - cur.used < LineHeight(lineHeight, lines[index])
    ensures cur.lines != [] && cur == PageOf(lineHeight, done + [cur.lines], |done|, notes)
    ensures Stands(pageHeight, lineHeight, lines, notes,
                   done + [cur.lines], Page(|done| + 2, [], 0.0, NO_NOTES), index, rounds + 1)
  {
    var line, fits := lines[index], Fits(pageHeight, lineHeight);
    TotalMore(lineHeight, cur.lines, line);
    var rest := lines[index..];
    assert rest[0] == line;
    assert [] + [rest[0]] == [rest[0]];
    assert Fill([], rest, fits) == Fill([line], rest[1..], fits);
    assert Fill(cur.lines, rest, fits) == [cur.lines] + Fill([], rest, fits);
    assert done + ([cur.lines] + Fill([], rest, fits)) == done + [cur.lines] + Fill([], rest, fits);
  }

  /**
    The pages hold the lines in order, each page at least one and none more than
    its available height; and no other way to do that needs fewer pages.
   */
  lemma PagesAreOptimal(pageHeight: real, lineHeight: real, lines: Lines, other: seq<Lines>)
    requires Paginable(pageHeight, lineHeight, lines)
    ensures var pages, fits := Pages(pageHeight, lineHeight, lines), Fits(pageHeight, lineHeight);
            && Divides(pages, lines) && (forall k | 0 <= k < |pages| :: fits(pages[k]))
            && (Divides(other, lines) && (forall k | 0 <= k < |other| :: fits(other[k])) ==> |pages| <= |other|)
  {
    if lineHeight >= 0.0 {
      HighPagesAreOptimal(pageHeight, lineHeight, lines, other);
    } else if lines != [] {
      assert [] + [lines[0]] == [lines[0]] && lines == [lines[0]] + lines[1..];
      TotalMore(lineHeight, [], lines[0]);
      OnePage(pageHeight, lineHeight, [lines[0]], lines[1..]);
      assert Flatten([lines]) == lines;
    }
  }

  /** With a negative line height everything goes to the page at hand. */
  lemma {:induction false} OnePage(pageHeight: real, lineHeight: real, cur: Lines, rest: Lines)
    requires lineHeight < 0.0 && cur != [] && Total(lineHeight, cur) <= Available(pageHeight)
    ensures Fill(cur, rest, Fits(pageHeight, lineHeight)) == [cur + rest]
    ensures Total(lineHeight, cur + rest) <= Available(pageHeight)
    decreases |rest|
  {
    if rest == [] {
      assert cur + rest == cur;
    } else {
      TotalMore(lineHeight, cur, rest[0]);
      OnePage(pageHeight, lineHeight, cur + [rest[0]], rest[1..]);
      assert cur + [rest[0]] + rest[1..] == cur + rest;
    }
  }

  lemma HighPagesAreOptimal(pageHeight: real, lineHeight: real, lines: Lines, other: seq<Lines>)
    requires lineHeight >= 0.0 && NoneTooHigh(pageHeight, lineHeight, lines)
    ensures var pages, fits := Pages(pageHeight, lineHeight, lines), Fits(pageHeight, lineHeight);
            && Divides(pages, lines) && (forall k | 0 <= k < |pages| :: fits(pages[k]))
            && (Divides(other, lines) && (forall k | 0 <= k < |other| :: fits(other[k])) ==> |pages| <= |other|)
  {
    var pages, fits := Pages(pageHeight, lineHeight, lines), Fits(pageHeight, lineHeight);
    FillIsGreedy([], lines, fits);
    assert [] + lines == lines;
    forall k | 0 <= k < |pages|
      ensures fits(pages[k])
    {
      if |pages[k]| == 1 {
        PartOfFlatten(pages, k);
        assert pages[k][0] in lines;
        TotalMore(lineHeight, [], pages[k][0]);
        assert [] + [pages[k][0]] == pages[k];
      }
    }
    FitsIsHereditary(pageHeight, lineHeight);
    if Divides(other, lines) && forall k | 0 <= k < |other| :: fits(other[k]) {
      GreedyIsOptimal(lines, other, fits);
    }
  }

  /** The footnotes on all pages together. */
  function NotesOn(lineHeight: real, segments: seq<Lines>, n: nat, notes: Notes): Notes
    requires n <= |segments|
  {
    if n == 0 then NO_NOTES
    else
      var before, page := NotesOn(lineHeight, segments, n - 1, notes), PageOf(lineHeight, segments, n - 1, notes);
      Notes(before.a + page.notes.a, before.b + page.notes.b, before.c + page.notes.c)
  }

  lemma {:induction false} NotesOnFirst(lineHeight: real, segments: seq<Lines>, n: nat, notes: Notes)
    requires n <= |segments|
    ensures NotesOn(lineHeight, segments, n, notes) == if n == 0 then NO_NOTES else notes
  {
    if n > 0 { NotesOnFirst(lineHeight, segments, n - 1, notes); }
  }

  /** All footnotes are on the pages exactly when there is a line, or no footnote. */
  lemma FootnotesPlaced(pageHeight: real, lineHeight: real, lines: Lines, notes: Notes)
    ensures var segments := Pages(pageHeight, lineHeight, lines);
            NotesOn(lineHeight, segments, |segments|, notes) == notes <==> lines != [] || notes == NO_NOTES
  {
    var segments := Pages(pageHeight, lineHeight, lines);
    FillIsGreedy([], lines, Fits(pageHeight, lineHeight));
    assert [] + lines == lines;
    NotesOnFirst(lineHeight, segments, |segments|, notes);
  }
}
