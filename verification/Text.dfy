/** The string operations the console's search and keys are made of: `join`, `split`, `includes`, and words. */
module Text {
  import opened Sequences

  function Join(words: seq<string>, separator: char): string {
    if |words| == 0 then ""
    else if |words| == 1 then words[0]
    else words[0] + [separator] + Join(words[1..], separator)
  }

  /** `split` on one character: always at least one piece. */
  function Split(s: string, separator: char): (pieces: seq<string>)
    ensures |pieces| > 0
    ensures forall p :: p in pieces ==> separator !in p
  {
    if |s| == 0 then [""]
    else
      var rest := Split(s[1..], separator);
      if s[0] == separator then [""] + rest
      else [[s[0]] + rest[0]] + rest[1..]
  }

  lemma {:induction false} SplitPiece(piece: string, rest: string, separator: char)
    requires separator !in piece
    ensures Split(piece + [separator] + rest, separator) == [piece] + Split(rest, separator)
    ensures Split(piece, separator) == [piece]
  {
    if |piece| == 0 {
      assert piece + [separator] + rest == [separator] + rest;
      assert ([separator] + rest)[1..] == rest;
    } else {
      SplitPiece(piece[1..], rest, separator);
      assert (piece + [separator] + rest)[1..] == piece[1..] + [separator] + rest;
      assert piece == [piece[0]] + piece[1..];
    }
  }

  /** Splitting what was joined gives the pieces back, provided there are any and none holds the separator. */
  lemma {:induction false} SplitJoin(words: seq<string>, separator: char)
    requires |words| > 0 && forall w :: w in words ==> separator !in w
    ensures Split(Join(words, separator), separator) == words
  {
    if |words| == 1 {
      SplitPiece(words[0], "", separator);
    } else {
      SplitJoin(words[1..], separator);
      SplitPiece(words[0], Join(words[1..], separator), separator);
    }
  }

  /** ... and only then: a piece that holds the separator never comes back whole. */
  lemma SplitJoinExactly(words: seq<string>, separator: char)
    ensures Split(Join(words, separator), separator) == words
            <==> |words| > 0 && forall w :: w in words ==> separator !in w
  {
    if |words| > 0 && forall w :: w in words ==> separator !in w {
      SplitJoin(words, separator);
    }
  }

  predicate StandsAt(text: string, i: int, word: string) {
    0 <= i <= |text| - |word| && text[i..i + |word|] == word
  }

  /** `includes`: the word stands somewhere in the text. */
  ghost predicate Includes(text: string, word: string) {
    exists i :: StandsAt(text, i, word)
  }

  lemma PrefixIncluded(text: string, longer: string, word: string)
    requires word <= longer && Includes(text, longer)
    ensures Includes(text, word)
  {
    var i :| StandsAt(text, i, longer);
    assert text[i..i + |word|] == longer[..|word|];
    assert StandsAt(text, i, word);
  }

  lemma IncludedInPart(before: string, text: string, after: string, word: string)
    requires Includes(text, word)
    ensures Includes(before + text + after, word)
  {
    var i :| StandsAt(text, i, word);
    var whole := before + text + after;
    assert whole[|before| + i..|before| + i + |word|] == text[i..i + |word|];
    assert StandsAt(whole, |before| + i, word);
  }

  // ----- Words

  predicate Alnum(c: char) {
    'a' <= c <= 'z' || '0' <= c <= '9'
  }

  predicate IsWord(w: string) {
    |w| > 0 && forall i :: 0 <= i < |w| ==> Alnum(w[i])
  }

  predicate AreWords(words: seq<string>) {
    forall i :: 0 <= i < |words| ==> IsWord(words[i])
  }

  /**
   * `toLowerCase` as far as letters and digits go. Two characters outside ASCII become plain letters: the Kelvin sign
   * and the dotted capital I, which leaves its dot behind. Every other one stays outside `a-z0-9`.
   */
  function LowerChar(c: char): string {
    if 'A' <= c <= 'Z' then [(c as int + 32) as char]
    else if c == '\U{212A}' then "k"
    else if c == '\U{130}' then ['i', '\U{307}']
    else [c]
  }

  function Lower(s: string): string {
    if |s| == 0 then "" else LowerChar(s[0]) + Lower(s[1..])
  }

  lemma Associates(a: string, b: string, c: string)
    ensures a + (b + c) == (a + b) + c
  {
  }

  lemma {:induction false} LowerAppend(a: string, b: string)
    ensures Lower(a + b) == Lower(a) + Lower(b)
  {
    if |a| == 0 {
      assert a + b == b;
    } else {
      LowerAppend(a[1..], b);
      assert (a + b)[1..] == a[1..] + b;
      Associates(LowerChar(a[0]), Lower(a[1..]), Lower(b));
    }
  }

  /** Text cut at everything that is not a letter or a digit: always at least one piece. */
  function Pieces(s: string): (pieces: seq<string>)
    ensures |pieces| > 0
    ensures |s| > 0 && Alnum(s[0]) <==> |pieces[0]| > 0
  {
    if |s| == 0 then [""]
    else
      var rest := Pieces(s[1..]);
      if Alnum(s[0]) then [[s[0]] + rest[0]] + rest[1..] else [""] + rest
  }

  function NonEmpty(): string -> bool {
    (piece: string) => |piece| > 0
  }

  function WordsOf(s: string): seq<string> {
    Filter(Pieces(s), NonEmpty())
  }

  /** The words of a text: its maximal runs of letters and digits, lower case. */
  function Words(s: string): seq<string> {
    WordsOf(Lower(s))
  }

  lemma {:induction false} PiecesAreAlnum(s: string)
    ensures forall i, j :: 0 <= i < |Pieces(s)| && 0 <= j < |Pieces(s)[i]| ==> Alnum(Pieces(s)[i][j])
  {
    if |s| == 0 {
    } else {
      PiecesAreAlnum(s[1..]);
    }
  }

  lemma WordsAreWords(s: string)
    ensures forall w :: w in WordsOf(s) ==> IsWord(w)
    ensures AreWords(WordsOf(s))
  {
    PiecesAreAlnum(s);
    forall w | w in WordsOf(s) ensures IsWord(w) {
      var i :| 0 <= i < |Pieces(s)| && Pieces(s)[i] == w;
    }
    var words := WordsOf(s);
    forall i | 0 <= i < |words| ensures IsWord(words[i]) {
      assert words[i] in words;
    }
  }

  /** The pieces of two texts run together: the last of the one and the first of the other become one piece. */
  function Glue(p: seq<string>, q: seq<string>): (glued: seq<string>)
    requires |p| > 0 && |q| > 0
    ensures |glued| == |p| + |q| - 1
    ensures glued[|p| - 1] == p[|p| - 1] + q[0]
    ensures forall i :: 0 <= i < |p| - 1 ==> glued[i] == p[i]
    ensures forall i :: 0 < i < |q| ==> glued[|p| - 1 + i] == q[i]
  {
    p[..|p| - 1] + [p[|p| - 1] + q[0]] + q[1..]
  }

  lemma GlueLater(first: string, p: seq<string>, q: seq<string>)
    requires |p| > 0 && |q| > 0
    ensures Glue([first] + p, q) == [first] + Glue(p, q)
  {
  }

  lemma GlueStart(c: char, p: seq<string>, q: seq<string>)
    requires |p| > 0 && |q| > 0
    ensures Glue([[c] + p[0]] + p[1..], q) == [[c] + Glue(p, q)[0]] + Glue(p, q)[1..]
  {
    Associates([c], p[0], q[0]);
  }

  lemma PiecesCons(c: char, s: string)
    ensures Pieces([c] + s) ==
            if Alnum(c) then [[c] + Pieces(s)[0]] + Pieces(s)[1..] else [""] + Pieces(s)
  {
    assert ([c] + s)[1..] == s;
  }

  /** Appended text only lengthens the last piece and adds pieces after it. */
  lemma {:induction false} PiecesAppend(a: string, b: string)
    ensures Pieces(a + b) == Glue(Pieces(a), Pieces(b))
  {
    if |a| == 0 {
      assert a + b == b;
      assert "" + Pieces(b)[0] == Pieces(b)[0];
    } else {
      var c, rest := a[0], a[1..];
      PiecesAppend(rest, b);
      assert a == [c] + rest && a + b == [c] + (rest + b);
      PiecesCons(c, rest);
      PiecesCons(c, rest + b);
      if Alnum(c) {
        GlueStart(c, Pieces(rest), Pieces(b));
      } else {
        GlueLater("", Pieces(rest), Pieces(b));
      }
    }
  }

  /** Every word survives, as the start of a word, whatever is typed after it. */
  lemma WordsOnlyGrow(a: string, b: string, w: string) returns (longer: string)
    requires w in WordsOf(a)
    ensures longer in WordsOf(a + b) && w <= longer
  {
    PiecesAppend(a, b);
    var p, q := Pieces(a), Pieces(b);
    var i :| 0 <= i < |p| && p[i] == w;
    longer := if i == |p| - 1 then w + q[0] else w;
    assert Pieces(a + b)[i] == longer;
  }

  // ----- What the words of a text are, without saying how they are found

  predicate SmallLetterOrDigit(c: char) {
    'a' <= c <= 'z' || '0' <= c <= '9'
  }

  /** A character that ends a word: no letter or digit, and not one of the two that lower into a letter. */
  predicate Breaks(c: char) {
    && !('a' <= c <= 'z') && !('A' <= c <= 'Z') && !('0' <= c <= '9')
    && c != '\U{212A}' && c != '\U{130}'
  }

  /** The same but for case: equal, a capital and its small letter, or the Kelvin sign and a k. */
  predicate CaseTwins(c: char, d: char) {
    || c == d
    || ('A' <= c <= 'Z' && d as int == c as int + 32)
    || ('A' <= d <= 'Z' && c as int == d as int + 32)
    || (c == '\U{212A}' && d in "kK") || (d == '\U{212A}' && c in "kK")
  }

  predicate SameButForCase(a: string, b: string) {
    |a| == |b| && forall i :: 0 <= i < |a| ==> CaseTwins(a[i], b[i])
  }

  lemma {:induction false} TwinsLowerAlike(a: string, b: string)
    requires SameButForCase(a, b)
    ensures Lower(a) == Lower(b)
  {
    if |a| == 0 {
    } else {
      assert LowerChar(a[0]) == LowerChar(b[0]);
      TwinsLowerAlike(a[1..], b[1..]);
    }
  }

  /** Words do not know case. */
  lemma CaseDoesNotMatter(a: string, b: string)
    requires SameButForCase(a, b)
    ensures Words(a) == Words(b)
  {
    TwinsLowerAlike(a, b);
  }

  /** A run of small letters and digits is its own word, and nothing at all has none. */
  lemma {:induction false} RunIsAWord(w: string)
    requires forall i :: 0 <= i < |w| ==> SmallLetterOrDigit(w[i])
    ensures Words(w) == if w == "" then [] else [w]
  {
    LowerLeaves(w);
    PiecesOfWord(w, "");
  }

  lemma {:induction false} LowerLeaves(w: string)
    requires forall i :: 0 <= i < |w| ==> SmallLetterOrDigit(w[i])
    ensures Lower(w) == w
  {
    if |w| == 0 {
    } else {
      LowerLeaves(w[1..]);
      assert w == [w[0]] + w[1..];
    }
  }

  /** Anything that ends a word divides the words before it from those after it, and is in none. */
  lemma BreakDividesWords(a: string, c: char, b: string)
    requires Breaks(c)
    ensures Words(a + [c] + b) == Words(a) + Words(b)
  {
    LowerThree(a, [c], b);
    LowerOne(c);
    PiecesAtABreak(Lower(a), c, Lower(b));
    FilterAppend(Pieces(Lower(a)), Pieces(Lower(b)), NonEmpty());
  }

  lemma GluedAtABreak(p: seq<string>, q: seq<string>)
    requires |p| > 0
    ensures Glue(p, [""] + q) == p + q
  {
    assert p[|p| - 1] + "" == p[|p| - 1];
  }

  lemma LowerThree(a: string, b: string, c: string)
    ensures Lower(a + b + c) == Lower(a) + Lower(b) + Lower(c)
  {
    LowerAppend(a + b, c);
    LowerAppend(a, b);
  }

  lemma LowerOne(c: char)
    ensures Lower([c]) == LowerChar(c)
  {
    assert [c][1..] == "";
    assert LowerChar(c) + "" == LowerChar(c);
  }

  /** The dotted capital I is an i that ends its word. */
  lemma DottedCapitalEndsItsWord(a: string, b: string)
    ensures Words(a + ['\U{130}'] + b) == Words(a + ['i'] + [' '] + b)
  {
    var dot, x, y := '\U{307}', Lower(a) + ['i'], Lower(b);
    assert Lower(a + ['\U{130}'] + b) == x + [dot] + y by {
      LowerThree(a, ['\U{130}'], b);
      LowerOne('\U{130}');
      assert Lower(a) + ['i', dot] == x + [dot];
    }
    assert Lower(a + ['i'] + [' '] + b) == x + [' '] + y by {
      LowerThree(a + ['i'], [' '], b);
      LowerAppend(a, ['i']);
      LowerOne('i');
      LowerOne(' ');
    }
    PiecesAtABreak(x, dot, y);
    PiecesAtABreak(x, ' ', y);
  }

  lemma PiecesAtABreak(x: string, c: char, y: string)
    requires !Alnum(c)
    ensures Pieces(x + [c] + y) == Pieces(x) + Pieces(y)
  {
    assert (x + [c]) + y == x + ([c] + y);
    PiecesAppend(x, [c] + y);
    assert ([c] + y)[1..] == y;
    GluedAtABreak(Pieces(x), Pieces(y));
  }

  /** The pieces of words joined by a blank are those words. */
  lemma {:induction false} PiecesOfJoined(words: seq<string>)
    requires |words| > 0 && AreWords(words)
    ensures Pieces(Join(words, ' ')) == words
  {
    if |words| == 1 {
      PiecesOfWord(words[0], "");
    } else {
      PiecesOfJoined(words[1..]);
      PiecesOfWord(words[0], Join(words[1..], ' '));
    }
  }

  lemma {:induction false} PiecesOfWord(w: string, rest: string)
    requires forall i :: 0 <= i < |w| ==> Alnum(w[i])
    ensures Pieces(w) == [w]
    ensures Pieces(w + [' '] + rest) == [w] + Pieces(rest)
  {
    if |w| == 0 {
      assert w + [' '] + rest == [' '] + rest;
      assert ([' '] + rest)[1..] == rest;
    } else {
      PiecesOfWord(w[1..], rest);
      assert (w + [' '] + rest)[1..] == w[1..] + [' '] + rest;
      assert w == [w[0]] + w[1..];
    }
  }

  /** A word never reaches across a blank. */
  lemma WordStaysAside(first: string, rest: string, word: string, i: int)
    requires IsWord(word) && StandsAt(first + [' '] + rest, i, word)
    ensures if i <= |first| then StandsAt(first, i, word) else StandsAt(rest, i - |first| - 1, word)
  {
    var whole := first + [' '] + rest;
    if i <= |first| {
      forall k | i <= k < i + |word| ensures Alnum(whole[k]) {
        assert whole[k] == whole[i..i + |word|][k - i];
      }
      assert whole[|first|] == ' ';
      assert first[i..i + |word|] == whole[i..i + |word|];
    } else {
      var j := i - |first| - 1;
      assert rest[j..j + |word|] == whole[i..i + |word|];
    }
  }

  lemma IncludedAcrossBlank(first: string, rest: string, word: string)
    requires IsWord(word)
    ensures Includes(first + [' '] + rest, word) <==> Includes(first, word) || Includes(rest, word)
  {
    var whole := first + [' '] + rest;
    if Includes(whole, word) {
      var i :| StandsAt(whole, i, word);
      WordStaysAside(first, rest, word, i);
    }
    if Includes(first, word) {
      IncludedInPart("", first, [' '] + rest, word);
      assert "" + first + ([' '] + rest) == whole;
    }
    if Includes(rest, word) {
      IncludedInPart(first + [' '], rest, "", word);
      assert (first + [' ']) + rest + "" == whole;
    }
  }

  /** A word stands in a text of words exactly when it stands in one of them. */
  lemma {:induction false} IncludedInJoined(words: seq<string>, word: string)
    requires IsWord(word)
    ensures Includes(Join(words, ' '), word) <==> exists v :: v in words && Includes(v, word)
  {
    if |words| == 0 {
    } else if |words| == 1 {
      assert words[0] in words;
    } else {
      IncludedInJoined(words[1..], word);
      IncludedAcrossBlank(words[0], Join(words[1..], ' '), word);
      assert forall v :: v in words <==> v == words[0] || v in words[1..];
    }
  }
}
