/** Splitting text into words and joining words with blanks, as both wrappers do. */
module Words {
  import opened Sequences

  type Text = seq<string>

  /** The characters before the first separator. */
  function Token(t: string, seps: set<char>): (r: string)
    ensures |r| <= |t| && t[..|r|] == r && (forall c | c in r :: c !in seps)
    ensures |r| < |t| ==> t[|r|] in seps
  {
    if t == "" || t[0] in seps then "" else [t[0]] + Token(t[1..], seps)
  }

  /** Split on the separators, without empty entries. */
  function Split(t: string, seps: set<char>): Text
    decreases |t|
  {
    if t == "" then []
    else if t[0] in seps then Split(t[1..], seps)
    else var word := Token(t, seps); [word] + Split(t[|word|..], seps)
  }

  ghost predicate AreWords(words: Text, seps: set<char>) {
    forall w | w in words :: w != "" && forall c | c in w :: c !in seps
  }

  /** Words joined by one blank. */
  function Join(words: Text): string {
    if words == [] then ""
    else if |words| == 1 then words[0]
    else Join(words[..|words| - 1]) + " " + words[|words| - 1]
  }

  lemma {:induction false} JoinStarts(words: Text)
    requires words != [] && words[0] != ""
    ensures Join(words) != "" && Join(words)[0] == words[0][0]
  {
    if |words| > 1 { JoinStarts(words[..|words| - 1]); }
  }

  /** A joined line begins with its first word and ends with its last. */
  lemma JoinEnds(words: Text)
    requires words != [] && words[0] != "" && words[|words| - 1] != ""
    ensures var t, last := Join(words), words[|words| - 1];
            t != "" && t[0] == words[0][0] && t[|t| - 1] == last[|last| - 1]
  {
    var n := |words| - 1;
    if n > 0 { JoinStarts(words); }
  }

  lemma JoinMore(words: Text, w: string)
    ensures Join(words + [w]) == if words == [] then w else Join(words) + " " + w
    ensures words != [] && words[0] != "" ==> Join(words) != ""
  {
    assert (words + [w])[..|words|] == words;
    if words != [] && words[0] != "" { JoinStarts(words); }
  }

  lemma {:induction false} SplitGivesWords(t: string, seps: set<char>)
    ensures AreWords(Split(t, seps), seps)
    decreases |t|
  {
    if t != "" {
      if t[0] in seps {
        SplitGivesWords(t[1..], seps);
      } else {
        SplitGivesWords(t[|Token(t, seps)|..], seps);
      }
    }
  }

  lemma {:induction false} TokenOf(w: string, seps: set<char>, rest: string)
    requires (forall c | c in w :: c !in seps) && (rest == "" || rest[0] in seps)
    ensures Token(w + rest, seps) == w
  {
    if w == "" {
      assert w + rest == rest;
    } else {
      TokenOf(w[1..], seps, rest);
      assert (w + rest)[1..] == w[1..] + rest;
    }
  }

  /** A word in front is the first word. */
  lemma SplitWordFirst(w: string, seps: set<char>, rest: string)
    requires w != "" && (forall c | c in w :: c !in seps) && (rest == "" || rest[0] in seps)
    ensures Split(w + rest, seps) == [w] + Split(rest, seps)
  {
    TokenOf(w, seps, rest);
    assert (w + rest)[|w|..] == rest;
  }

  lemma WordInFront(w: string, b: string, rest: string, seps: set<char>)
    requires w != "" && (forall c | c in w :: c !in seps)
    requires (b == "" || b[0] in seps) && (rest == "" || rest[0] in seps)
    requires Split(b + rest, seps) == Split(b, seps) + Split(rest, seps)
    ensures Split(w + b + rest, seps) == Split(w + b, seps) + Split(rest, seps)
  {
    Assoc(w, b, rest);
    Assoc([w], Split(b, seps), Split(rest, seps));
    SplitWordFirst(w, seps, b);
    SplitWordFirst(w, seps, b + rest);
  }

  /** Splitting goes on behind a separator as if nothing had been in front of it. */
  lemma {:induction false} SplitAppend(a: string, rest: string, seps: set<char>)
    requires rest == "" || rest[0] in seps
    ensures Split(a + rest, seps) == Split(a, seps) + Split(rest, seps)
    decreases |a|
  {
    if a == "" {
      assert a + rest == rest;
    } else if a[0] in seps {
      SplitAppend(a[1..], rest, seps);
      assert (a + rest)[1..] == a[1..] + rest;
    } else {
      var w := Token(a, seps);
      var b := a[|w|..];
      SplitAppend(b, rest, seps);
      WordInFront(w, b, rest, seps);
      assert a == w + b;
    }
  }

  lemma SplitWord(w: string, seps: set<char>)
    requires AreWords([w], seps)
    ensures Split(w, seps) == [w]
  {
    assert w in [w];
    SplitWordFirst(w, seps, "");
    assert w + "" == w;
  }

  lemma SplitBlank(front: string, last: string, seps: set<char>)
    requires AreWords([last], seps) && ' ' in seps
    ensures Split(front + " " + last, seps) == Split(front, seps) + [last]
  {
    var tail := " " + last;
    assert tail[1..] == last;
    SplitWord(last, seps);
    SplitAppend(front, tail, seps);
    Assoc(front, " ", last);
  }

  /** The words of a joined line. */
  lemma {:induction false} SplitOfJoin(words: Text, seps: set<char>)
    requires AreWords(words, seps) && ' ' in seps
    ensures Split(Join(words), seps) == words
  {
    if words != [] {
      var n := |words| - 1;
      var last := words[n];
      assert last in words && forall w | w in words[..n] :: w in words;
      SplitWord(last, seps);
      if n > 0 {
        SplitOfJoin(words[..n], seps);
        SplitBlank(Join(words[..n]), last, seps);
        assert words == words[..n] + [last];
      }
    }
  }

  /** How many characters the words have. */
  function Letters(words: Text): nat {
    if words == [] then 0 else |words[0]| + Letters(words[1..])
  }

  /** How many characters of a text are no separators. */
  function Count(t: string, seps: set<char>): nat {
    if t == "" then 0 else (if t[0] in seps then 0 else 1) + Count(t[1..], seps)
  }

  lemma {:induction false} CountAppend(a: string, b: string, seps: set<char>)
    ensures Count(a + b, seps) == Count(a, seps) + Count(b, seps)
  {
    if a == "" {
      assert a + b == b;
    } else {
      CountAppend(a[1..], b, seps);
      assert (a + b)[1..] == a[1..] + b;
    }
  }

  lemma {:induction false} CountToken(w: string, seps: set<char>)
    requires forall c | c in w :: c !in seps
    ensures Count(w, seps) == |w|
  {
    if w != "" { CountToken(w[1..], seps); }
  }

  lemma {:induction false} LettersAppend(a: Text, b: Text)
    ensures Letters(a + b) == Letters(a) + Letters(b)
  {
    if a == [] {
      assert a + b == b;
    } else {
      LettersAppend(a[1..], b);
      assert (a + b)[1..] == a[1..] + b;
    }
  }

  /** Splitting keeps every character that is no separator. */
  lemma {:induction false} SplitKeepsLetters(t: string, seps: set<char>)
    ensures Letters(Split(t, seps)) == Count(t, seps)
    decreases |t|
  {
    if t != "" {
      if t[0] in seps {
        SplitKeepsLetters(t[1..], seps);
      } else {
        var w := Token(t, seps);
        SplitKeepsLetters(t[|w|..], seps);
        assert t == w + t[|w|..];
        CountAppend(w, t[|w|..], seps);
        CountToken(w, seps);
        assert ([w] + Split(t[|w|..], seps))[1..] == Split(t[|w|..], seps);
      }
    }
  }

  // ------------------------------------------------------------ words and gaps

  ghost predicate AllIn(t: string, seps: set<char>) {
    forall k | 0 <= k < |t| :: t[k] in seps
  }

  ghost predicate NoneIn(t: string, seps: set<char>) {
    forall k | 0 <= k < |t| :: t[k] !in seps
  }

  /** The text is a gap of separators of length i, the word, and what rest says of the remainder. */
  ghost predicate WordAt(t: string, i: nat, word: string, seps: set<char>) {
    i + |word| <= |t| && AllIn(t[..i], seps) && word != "" && NoneIn(word, seps) && t[i..i + |word|] == word
  }

  /**
    The text consists of the words, in order, and of gaps of separators, of which only
    the ones at the ends can be empty; a word may stand at the front if front says so.
   */
  ghost predicate MadeOf(t: string, words: Text, seps: set<char>, front: bool)
    decreases |words|
  {
    if words == [] then AllIn(t, seps)
    else exists i: nat :: WordAt(t, i, words[0], seps) && (i > 0 || front)
                          && MadeOf(t[i + |words[0]|..], words[1..], seps, false)
  }

  /** Splitting takes a text apart into its words. */
  lemma {:induction false} SplitTakesApart(t: string, seps: set<char>, front: bool)
    requires front || t == "" || t[0] in seps
    ensures MadeOf(t, Split(t, seps), seps, front)
    decreases |t|
  {
    if t != "" && t[0] in seps {
      SplitTakesApart(t[1..], seps, true);
      OneMoreSeparator(t, Split(t, seps), seps, front);
    } else if t != "" {
      var w := Token(t, seps);
      SplitTakesApart(t[|w|..], seps, false);
      assert forall k | 0 <= k < |w| :: w[k] in w;
      var i := 0;
      assert WordAt(t, i, w, seps) && t[i + |w|..] == t[|w|..];
      assert Split(t, seps)[0] == w && Split(t, seps)[1..] == Split(t[|w|..], seps);
    }
  }

  lemma OneMoreSeparator(t: string, words: Text, seps: set<char>, front: bool)
    requires t != "" && t[0] in seps && MadeOf(t[1..], words, seps, true)
    ensures MadeOf(t, words, seps, front)
  {
    if words == [] {
      assert forall k | 1 <= k < |t| :: t[k] == t[1..][k - 1];
    } else {
      var i: nat :| WordAt(t[1..], i, words[0], seps) && MadeOf(t[1..][i + |words[0]|..], words[1..], seps, false);
      var j: nat := i + 1;
      WordLater(t, i, words[0], seps);
      assert WordAt(t, j, words[0], seps) && MadeOf(t[j + |words[0]|..], words[1..], seps, false);
    }
  }

  lemma WordLater(t: string, i: nat, word: string, seps: set<char>)
    requires t != "" && t[0] in seps && WordAt(t[1..], i, word, seps)
    ensures WordAt(t, i + 1, word, seps) && t[i + 1 + |word|..] == t[1..][i + |word|..]
  {
    var j := i + 1;
    assert t[j..j + |word|] == t[1..][i..i + |word|];
    forall k | 0 <= k < j
      ensures t[..j][k] in seps
    {
      assert k > 0 ==> t[..j][k] == t[1..][..i][k - 1];
    }
  }
}
