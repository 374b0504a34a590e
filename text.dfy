/**
 * The JavaScript string built-ins the core relies on: `trim`, the `\s+` collapse of
 * `replace(/\s+/g, ' ')`, `includes`, `toLowerCase` and decimal rendering of array indices.
 */
module Text {

  /** The characters JavaScript's `\s` and `String.prototype.trim` treat as white space. */
  predicate IsSpace(c: char) {
    || c == ' ' || c == '\t' || c == '\n' || c == '\r' || c == '\U{B}' || c == '\U{C}'
    || c == '\U{A0}' || c == '\U{1680}' || ('\U{2000}' <= c <= '\U{200A}')
    || c == '\U{2028}' || c == '\U{2029}' || c == '\U{202F}' || c == '\U{205F}'
    || c == '\U{3000}' || c == '\U{FEFF}'
  }

  predicate AllSpace(s: string) {
    forall i :: 0 <= i < |s| ==> IsSpace(s[i])
  }

  /** Leading white space removed: a suffix of `s` whose dropped prefix is all white space. */
  function TrimStart(s: string): (r: string)
    ensures |r| <= |s| && r == s[|s| - |r|..]
    ensures r == [] || !IsSpace(r[0])
    ensures AllSpace(s[..|s| - |r|])
  {
    if s != [] && IsSpace(s[0]) then
      var r := TrimStart(s[1..]);
      AllSpaceConcat([s[0]], s[1..][..|s| - 1 - |r|]);
      assert s[..|s| - |r|] == [s[0]] + s[1..][..|s| - 1 - |r|];
      r
    else
      assert s[..0] == [];
      s
  }

  /** Trailing white space removed: a prefix of `s` whose dropped suffix is all white space. */
  function TrimEnd(s: string): (r: string)
    ensures |r| <= |s| && r == s[..|r|]
    ensures r == [] || !IsSpace(r[|r| - 1])
    ensures AllSpace(s[|r|..])
  {
    if s != [] && IsSpace(s[|s| - 1]) then TrimEnd(s[..|s| - 1]) else s
  }

  /** `r` occurs in `s` starting at index `i`. */
  predicate OccursAt(s: string, r: string, i: int) {
    0 <= i <= |s| - |r| && s[i..i + |r|] == r
  }

  /** A prefix of a suffix of `s` occurs in `s` where the suffix starts. */
  lemma PrefixOfSuffixOccurs(s: string, i: int, n: int)
    requires 0 <= i <= |s| && 0 <= n <= |s| - i
    ensures OccursAt(s, s[i..][..n], i)
  {
    assert s[i..][..n] == s[i..i + n];
  }

  /** `s.trim()`. */
  function Trim(s: string): string {
    TrimEnd(TrimStart(s))
  }

  /** Trimming keeps a slice of `s` with no white space at either end. */
  lemma TrimIsSlice(s: string)
    ensures exists i :: OccursAt(s, Trim(s), i)
    ensures var r := Trim(s); r == [] || (!IsSpace(r[0]) && !IsSpace(r[|r| - 1]))
  {
    var t := TrimStart(s);
    var r := TrimEnd(t);
    var i := |s| - |t|;
    assert t == s[i..] && r == t[..|r|];
    PrefixOfSuffixOccurs(s, i, |r|);
    assert Trim(s) == r && OccursAt(s, r, i);
    assert r != [] ==> r[0] == t[0];
  }

  /** Trimming leaves nothing exactly when the text is all white space. */
  lemma TrimEmptyIffAllSpace(s: string)
    ensures Trim(s) == [] <==> AllSpace(s)
  {
    var t := TrimStart(s);
    assert s == s[..|s| - |t|] + t;
  }

  /** No two adjacent spaces. */
  predicate NoDoubleSpace(s: string) {
    forall i :: 0 < i < |s| ==> !(s[i - 1] == ' ' && s[i] == ' ')
  }

  /** The only white space character left is the plain space. */
  predicate OnlyPlainSpaces(s: string) {
    forall i :: 0 <= i < |s| ==> IsSpace(s[i]) ==> s[i] == ' '
  }

  /**
   * `s.replace(/\s+/g, ' ')`: every maximal run of white space becomes one space, every
   * other character is kept.
   */
  function CollapseSpaces(s: string): string
    decreases |s|
  {
    if s == [] then []
    else if IsSpace(s[0]) then [' '] + CollapseSpaces(TrimStart(s[1..]))
    else [s[0]] + CollapseSpaces(s[1..])
  }

  /**
   * The collapse leaves only plain spaces, never two in a row; it keeps the first character
   * unless that is white space, and it is empty, or all white space, exactly when its input is.
   */
  lemma {:induction false} CollapseSpacesShape(s: string)
    decreases |s|, 1
    ensures var r := CollapseSpaces(s);
            && (r == [] <==> s == [])
            && (s != [] && IsSpace(s[0]) ==> r[0] == ' ')
            && (s != [] && !IsSpace(s[0]) ==> r[0] == s[0])
            && OnlyPlainSpaces(r) && NoDoubleSpace(r)
            && (AllSpace(r) <==> AllSpace(s))
  {
    if s != [] && IsSpace(s[0]) {
      CollapseShapeAtSpace(s);
    } else if s != [] {
      CollapseShapeAtChar(s);
    }
  }

  /** The collapse of text starting with white space: a space, then the collapse of the rest. */
  lemma {:induction false} CollapseShapeAtSpace(s: string)
    requires s != [] && IsSpace(s[0])
    decreases |s|, 0
    ensures var r := CollapseSpaces(s);
            && r != [] && r[0] == ' ' && OnlyPlainSpaces(r) && NoDoubleSpace(r)
            && (AllSpace(r) <==> AllSpace(s))
  {
    var rest := TrimStart(s[1..]);
    var dropped := s[1..][..|s| - 1 - |rest|];
    assert s == ([s[0]] + dropped) + rest;
    AllSpaceConcat([s[0]], dropped);
    AllSpaceConcat([s[0]] + dropped, rest);
    CollapseSpacesShape(rest);
    var c := CollapseSpaces(rest);
    PrependKeepsSpacing(' ', c);
    var r := [' '] + c;
    assert AllSpace(r) <==> AllSpace(c) by { assert r[1..] == c; }
  }

  /** The collapse of text starting with another character keeps that character. */
  lemma {:induction false} CollapseShapeAtChar(s: string)
    requires s != [] && !IsSpace(s[0])
    decreases |s|, 0
    ensures var r := CollapseSpaces(s);
            && r != [] && r[0] == s[0] && OnlyPlainSpaces(r) && NoDoubleSpace(r)
            && !AllSpace(r) && !AllSpace(s)
  {
    CollapseSpacesShape(s[1..]);
    var c := CollapseSpaces(s[1..]);
    PrependKeepsSpacing(s[0], c);
    assert ([s[0]] + c)[0] == s[0];
  }

  lemma AllSpaceConcat(a: string, b: string)
    ensures AllSpace(a + b) <==> AllSpace(a) && AllSpace(b)
  {
    var ab := a + b;
    assert forall i :: 0 <= i < |a| ==> ab[i] == a[i];
    assert forall i :: 0 <= i < |b| ==> ab[|a| + i] == b[i];
  }

  /** A character put in front of collapsed text keeps its spacing, unless it doubles a space. */
  lemma PrependKeepsSpacing(x: char, c: string)
    requires OnlyPlainSpaces(c) && NoDoubleSpace(c)
    requires IsSpace(x) ==> x == ' '
    requires x == ' ' && c != [] ==> c[0] != ' '
    ensures OnlyPlainSpaces([x] + c) && NoDoubleSpace([x] + c)
  {
    var r := [x] + c;
    forall i | 0 < i < |r| ensures r[i] == c[i - 1] { }
  }

  /** Text with no white space at either end, only plain spaces inside, never two in a row. */
  predicate IsNormalized(s: string) {
    && (s == [] || (s[0] != ' ' && s[|s| - 1] != ' '))
    && OnlyPlainSpaces(s)
    && NoDoubleSpace(s)
  }

  /** A slice of a string with only plain, never doubled, spaces has the same two properties. */
  lemma SliceKeepsSpacing(c: string, r: string, i: int)
    requires OccursAt(c, r, i) && OnlyPlainSpaces(c) && NoDoubleSpace(c)
    ensures OnlyPlainSpaces(r) && NoDoubleSpace(r)
  {
    forall k | 0 <= k < |r| ensures r[k] == c[i + k] {
      assert c[i..i + |r|][k] == c[i + k];
    }
    forall k | 0 < k < |r| ensures !(r[k - 1] == ' ' && r[k] == ' ') {
      assert r[k - 1] == c[i + k - 1] && r[k] == c[i + k];
    }
  }

  /** `s.replace(/\s+/g, ' ').trim()`. */
  function NormalizeSpace(s: string): (r: string)
    ensures IsNormalized(r)
    ensures r == [] <==> AllSpace(s)
  {
    var c := CollapseSpaces(s);
    var r := Trim(c);
    CollapseSpacesShape(s);
    TrimIsSlice(c);
    TrimEmptyIffAllSpace(c);
    var i :| OccursAt(c, r, i);
    SliceKeepsSpacing(c, r, i);
    r
  }

  /** A word: non-empty text without white space. */
  predicate IsWord(w: string) {
    w != [] && forall i :: 0 <= i < |w| ==> !IsSpace(w[i])
  }

  /** The longest prefix of `s` without white space; what follows it, if anything, is white space. */
  function Word(s: string): (w: string)
    ensures |w| <= |s| && w == s[..|w|]
    ensures |w| < |s| ==> IsSpace(s[|w|])
    ensures s != [] && !IsSpace(s[0]) ==> w != []
  {
    if s == [] || IsSpace(s[0]) then []
    else
      var w := [s[0]] + Word(s[1..]);
      assert w == s[..|w|];
      w
  }

  /** The prefix `Word` takes holds no white space. */
  lemma {:induction false} WordHasNoSpace(s: string)
    decreases |s|
    ensures forall i :: 0 <= i < |Word(s)| ==> !IsSpace(Word(s)[i])
  {
    if s != [] && !IsSpace(s[0]) {
      WordHasNoSpace(s[1..]);
      var w := Word(s[1..]);
      assert Word(s) == [s[0]] + w;
      assert forall i :: 1 <= i < |Word(s)| ==> Word(s)[i] == w[i - 1];
    }
  }

  /** The words of `s`: its maximal runs of characters other than white space, in order. */
  function Words(s: string): seq<string>
    decreases |s|
  {
    var t := TrimStart(s);
    if t == [] then []
    else
      var w := Word(t);
      [w] + Words(t[|w|..])
  }

  /** Every element of `Words(s)` is a word, and there are none exactly when `s` is all white space. */
  lemma {:induction false} WordsShape(s: string)
    decreases |s|
    ensures forall w :: w in Words(s) ==> IsWord(w)
    ensures Words(s) == [] <==> AllSpace(s)
  {
    var t := TrimStart(s);
    if t == [] {
      assert s == s[..|s|];
    } else {
      assert s[|s| - |t|] == t[0];
      var w := Word(t);
      WordHasNoSpace(t);
      assert IsWord(w);
      WordsShape(t[|w|..]);
      assert Words(s) == [w] + Words(t[|w|..]);
    }
  }

  /** Text that starts with a word has that word first. */
  lemma WordsOfWordStart(s: string)
    requires s != [] && !IsSpace(s[0])
    ensures Words(s) == [Word(s)] + Words(s[|Word(s)|..])
  {
    assert TrimStart(s) == s;
  }

  lemma TrimStartIdempotent(s: string)
    ensures TrimStart(TrimStart(s)) == TrimStart(s)
  {
  }

  /** Leading white space does not change the words. */
  lemma WordsSkipSpace(s: string)
    ensures Words(s) == Words(TrimStart(s))
  {
    TrimStartIdempotent(s);
  }

  /** Words joined by single spaces. */
  function Join(ws: seq<string>): string {
    if ws == [] then []
    else if |ws| == 1 then ws[0]
    else ws[0] + " " + Join(ws[1..])
  }

  /** Joined words neither start nor end with white space. */
  lemma {:induction false} JoinEnds(ws: seq<string>)
    requires ws != [] && forall w :: w in ws ==> IsWord(w)
    ensures var r := Join(ws); r != [] && !IsSpace(r[0]) && !IsSpace(r[|r| - 1])
  {
    assert ws[0] in ws;
    if |ws| > 1 {
      assert forall w :: w in ws[1..] ==> w in ws;
      JoinEnds(ws[1..]);
      var j := Join(ws[1..]);
      var r := ws[0] + " " + j;
      assert Join(ws) == r;
      assert r[0] == ws[0][0];
      assert r[|r| - 1] == j[|j| - 1];
    }
  }

  lemma JoinCons(w: string, ws: seq<string>)
    requires ws != []
    ensures Join([w] + ws) == w + " " + Join(ws)
  {
    assert ([w] + ws)[1..] == ws;
  }

  /** A non-empty suffix ends as the whole text does. */
  lemma TrailingSpaceOfSuffix(s: string, k: int)
    requires 0 <= k < |s|
    ensures TrailingSpace(s[k..]) == TrailingSpace(s)
  {
    assert s[k..][|s| - k - 1] == s[|s| - 1];
  }

  /** Text that trims to nothing is all white space, and ends in white space unless empty. */
  lemma TrimStartEmpty(s: string)
    requires TrimStart(s) == []
    ensures AllSpace(s) && (s != [] ==> TrailingSpace(s) == " ")
  {
    assert s[..|s|] == s;
  }

  /** Text that trims to something is not all white space, and ends as it did. */
  lemma TrimStartNonEmpty(s: string)
    requires TrimStart(s) != []
    ensures !AllSpace(s) && TrailingSpace(TrimStart(s)) == TrailingSpace(s)
  {
    var u := TrimStart(s);
    assert s[|s| - |u|] == u[0];
    TrailingSpaceOfSuffix(s, |s| - |u|);
  }

  /** The single space the collapse leaves for leading white space, if there is any. */
  function LeadingSpace(s: string): string {
    if s != [] && IsSpace(s[0]) then " " else ""
  }

  /** The single space the collapse leaves for trailing white space, if there is any. */
  function TrailingSpace(s: string): string {
    if s != [] && IsSpace(s[|s| - 1]) then " " else ""
  }

  /** The collapse copies a leading word as it stands. */
  lemma {:induction false} CollapseWord(t: string)
    decreases |t|
    ensures CollapseSpaces(t) == Word(t) + CollapseSpaces(t[|Word(t)|..])
  {
    if t != [] && !IsSpace(t[0]) {
      var w := Word(t[1..]);
      assert Word(t) == [t[0]] + w;
      assert CollapseSpaces(t) == [t[0]] + CollapseSpaces(t[1..]);
      CollapseWord(t[1..]);
      assert t[1..][|w|..] == t[|Word(t)|..];
    } else {
      assert Word(t) == [];
    }
  }

  /** A leading run of white space collapses to one space before the rest. */
  lemma CollapseLeadingRun(s: string)
    requires s != [] && IsSpace(s[0])
    ensures CollapseSpaces(s) == " " + CollapseSpaces(TrimStart(s))
  {
  }

  /** Text starting with a word collapses to its words joined by spaces, then one space if it ends in white space. */
  lemma {:induction false} CollapseWithoutLead(s: string)
    requires s == [] || !IsSpace(s[0])
    decreases |s|, 1
    ensures CollapseSpaces(s) == Join(Words(s)) + TrailingSpace(s)
  {
    if s != [] {
      var w := Word(s);
      if |w| == |s| {
        CollapseWholeWord(s);
      } else {
        var rest := s[|w|..];
        assert IsSpace(rest[0]);
        if TrimStart(rest) == [] {
          CollapseWordThenSpace(s);
        } else {
          CollapseWordThenMore(s);
        }
      }
    }
  }

  lemma CollapseWholeWord(s: string)
    requires s != [] && !IsSpace(s[0]) && |Word(s)| == |s|
    ensures CollapseSpaces(s) == Join(Words(s)) + TrailingSpace(s)
  {
    var w := Word(s);
    var rest := s[|w|..];
    assert CollapseSpaces(s) == w + CollapseSpaces(rest) by { CollapseWord(s); }
    assert Words(s) == [w] + Words(rest) by { WordsOfWordStart(s); }
    assert w == s;
    WordHasNoSpace(s);
    assert TrailingSpace(s) == "";
    assert Words(rest) == [];
    assert CollapseSpaces(rest) == [];
  }

  lemma CollapseWordThenSpace(s: string)
    requires s != [] && !IsSpace(s[0]) && |Word(s)| < |s|
    requires TrimStart(s[|Word(s)|..]) == []
    ensures CollapseSpaces(s) == Join(Words(s)) + TrailingSpace(s)
  {
    var w := Word(s);
    var rest := s[|w|..];
    assert CollapseSpaces(s) == w + CollapseSpaces(rest) by { CollapseWord(s); }
    assert Words(s) == [w] + Words(rest) by { WordsOfWordStart(s); }
    assert CollapseSpaces(rest) == " " by { CollapseLeadingRun(rest); }
    assert Words(rest) == [];
    TrailingSpaceOfSuffix(s, |w|);
    TrimStartEmpty(rest);
  }

  lemma {:induction false} CollapseWordThenMore(s: string)
    requires s != [] && !IsSpace(s[0]) && |Word(s)| < |s|
    requires TrimStart(s[|Word(s)|..]) != []
    decreases |s|, 0
    ensures CollapseSpaces(s) == Join(Words(s)) + TrailingSpace(s)
  {
    var w := Word(s);
    var rest := s[|w|..];
    var u := TrimStart(rest);
    CollapseWord(s);
    WordsOfWordStart(s);
    CollapseLeadingRun(rest);
    WordsSkipSpace(rest);
    WordsOfWordStart(u);
    JoinCons(w, Words(u));
    CollapseWithoutLead(u);
    TrailingSpaceOfSuffix(s, |w|);
    TrimStartNonEmpty(rest);
    ConcatChain(CollapseSpaces(s), w, CollapseSpaces(rest), CollapseSpaces(u), Join(Words(u)), TrailingSpace(s));
  }

  lemma ConcatChain(c: string, w: string, c1: string, c2: string, j: string, t: string)
    requires c == w + c1 && c1 == " " + c2 && c2 == j + t
    ensures c == (w + " " + j) + t
  {
  }

  /**
   * What `replace(/\s+/g, ' ')` makes of a text: white space only collapses to one space;
   * otherwise one space for leading white space, the words joined by single spaces, and one
   * space for trailing white space.
   */
  lemma CollapseSpacesByWords(s: string)
    ensures AllSpace(s) ==> CollapseSpaces(s) == (if s == [] then [] else " ")
    ensures !AllSpace(s) ==> CollapseSpaces(s) == LeadingSpace(s) + Join(Words(s)) + TrailingSpace(s)
  {
    if TrimStart(s) == [] {
      CollapseAllSpace(s);
    } else if IsSpace(s[0]) {
      CollapseAfterLead(s);
    } else {
      CollapseNoLead(s);
    }
  }

  /** Text that is all white space collapses to one space, or to nothing if empty. */
  lemma CollapseAllSpace(s: string)
    requires TrimStart(s) == []
    ensures AllSpace(s) && CollapseSpaces(s) == (if s == [] then [] else " ")
  {
    TrimStartEmpty(s);
    if s != [] {
      CollapseLeadingRun(s);
    }
  }

  /** Text that starts with a word. */
  lemma CollapseNoLead(s: string)
    requires s != [] && !IsSpace(s[0])
    ensures !AllSpace(s)
    ensures CollapseSpaces(s) == LeadingSpace(s) + Join(Words(s)) + TrailingSpace(s)
  {
    CollapseWithoutLead(s);
    assert !IsSpace(s[0]) && LeadingSpace(s) == "";
    EmptyPrefix(Join(Words(s)), TrailingSpace(s));
  }

  /** Text with leading white space and a word after it. */
  lemma CollapseAfterLead(s: string)
    requires s != [] && IsSpace(s[0]) && TrimStart(s) != []
    ensures !AllSpace(s)
    ensures CollapseSpaces(s) == LeadingSpace(s) + Join(Words(s)) + TrailingSpace(s)
  {
    var u := TrimStart(s);
    CollapseLeadingRun(s);
    TrimStartNonEmpty(s);
    WordsSkipSpace(s);
    CollapseWithoutLead(u);
    assert LeadingSpace(s) == " ";
    ConcatAssoc(CollapseSpaces(s), " ", Join(Words(u)), TrailingSpace(u));
  }

  lemma EmptyPrefix(a: string, b: string)
    ensures "" + a + b == a + b
  {
  }

  lemma Assoc3(a: string, b: string, c: string)
    ensures a + b + c == a + (b + c)
  {
  }

  lemma ConcatAssoc(c: string, a: string, b: string, d: string)
    requires c == a + (b + d)
    ensures c == a + b + d
  {
  }

  /** Trimming skips leading white space up to text that does not start with any. */
  lemma {:induction false} TrimStartPast(a: string, x: string)
    requires AllSpace(a) && (x == [] || !IsSpace(x[0]))
    ensures TrimStart(a + x) == x
  {
    if a == [] {
      assert a + x == x;
    } else {
      assert (a + x)[1..] == a[1..] + x;
      TrimStartPast(a[1..], x);
    }
  }

  /** Trimming drops trailing white space back to text that does not end with any. */
  lemma {:induction false} TrimEndPast(x: string, b: string)
    requires AllSpace(b) && (x == [] || !IsSpace(x[|x| - 1]))
    ensures TrimEnd(x + b) == x
  {
    if b == [] {
      assert x + b == x;
    } else {
      assert (x + b)[..|x + b| - 1] == x + b[..|b| - 1];
      TrimEndPast(x, b[..|b| - 1]);
    }
  }

  /** Trimming the collapsed padding of `s` around joined words keeps the words. */
  lemma TrimPadded(s: string, ws: seq<string>)
    requires ws != [] && forall w :: w in ws ==> IsWord(w)
    ensures Trim(LeadingSpace(s) + Join(ws) + TrailingSpace(s)) == Join(ws)
  {
    var lead, j, trail := LeadingSpace(s), Join(ws), TrailingSpace(s);
    JoinEnds(ws);
    assert AllSpace(lead) && AllSpace(trail);
    Assoc3(lead, j, trail);
    TrimStartPast(lead, j + trail);
    TrimEndPast(j, trail);
  }

  lemma NormalizeSpaceIsTrim(s: string)
    ensures NormalizeSpace(s) == Trim(CollapseSpaces(s))
  {
  }

  /** `s.replace(/\s+/g, ' ').trim()` is the words of `s` joined by single spaces. */
  lemma NormalizeSpaceByWords(s: string)
    ensures NormalizeSpace(s) == Join(Words(s))
  {
    WordsShape(s);
    NormalizeSpaceIsTrim(s);
    if !AllSpace(s) {
      CollapseSpacesByWords(s);
      TrimPadded(s, Words(s));
    }
  }

  /** The characters of `s` other than white space, in order. */
  function NonSpace(s: string): string {
    if s == [] then []
    else (if IsSpace(s[0]) then [] else [s[0]]) + NonSpace(s[1..])
  }

  /** The words one after another, with nothing between them. */
  function Concat(ws: seq<string>): string {
    if ws == [] then [] else ws[0] + Concat(ws[1..])
  }

  lemma {:induction false} NonSpaceAppend(a: string, b: string)
    decreases |a|
    ensures NonSpace(a + b) == NonSpace(a) + NonSpace(b)
  {
    if a == [] {
      assert a + b == b;
    } else {
      assert (a + b)[0] == a[0] && (a + b)[1..] == a[1..] + b;
      NonSpaceAppend(a[1..], b);
    }
  }

  lemma {:induction false} NonSpaceOfSpace(a: string)
    requires AllSpace(a)
    decreases |a|
    ensures NonSpace(a) == []
  {
    if a != [] {
      assert IsSpace(a[0]);
      NonSpaceOfSpace(a[1..]);
    }
  }

  lemma {:induction false} NonSpaceOfWord(w: string)
    requires forall i :: 0 <= i < |w| ==> !IsSpace(w[i])
    decreases |w|
    ensures NonSpace(w) == w
  {
    if w != [] {
      assert !IsSpace(w[0]);
      NonSpaceOfWord(w[1..]);
    }
  }

  /** Leading white space contributes no characters. */
  lemma NonSpaceSkipsLead(s: string)
    ensures NonSpace(s) == NonSpace(TrimStart(s))
  {
    var t := TrimStart(s);
    var lead := s[..|s| - |t|];
    assert s == lead + t;
    NonSpaceAppend(lead, t);
    NonSpaceOfSpace(lead);
  }

  /** A leading word contributes all its characters. */
  lemma NonSpaceOfWordStart(t: string)
    ensures NonSpace(t) == Word(t) + NonSpace(t[|Word(t)|..])
  {
    var w := Word(t);
    assert t == w + t[|w|..];
    NonSpaceAppend(w, t[|w|..]);
    WordHasNoSpace(t);
    NonSpaceOfWord(w);
  }

  lemma ConcatCons(w: string, ws: seq<string>)
    ensures Concat([w] + ws) == w + Concat(ws)
  {
    assert ([w] + ws)[1..] == ws;
  }

  /** Splitting into words keeps every character other than white space, in order. */
  lemma {:induction false} WordsKeepCharacters(s: string)
    decreases |s|
    ensures Concat(Words(s)) == NonSpace(s)
  {
    var t := TrimStart(s);
    NonSpaceSkipsLead(s);
    WordsSkipSpace(s);
    if t != [] {
      var w := Word(t);
      var rest := t[|w|..];
      WordsOfWordStart(t);
      NonSpaceOfWordStart(t);
      ConcatCons(w, Words(rest));
      WordsKeepCharacters(rest);
    }
  }

  /** Joining words with spaces keeps exactly their characters. */
  lemma {:induction false} NonSpaceOfJoin(ws: seq<string>)
    requires forall w :: w in ws ==> IsWord(w)
    ensures NonSpace(Join(ws)) == Concat(ws)
  {
    if ws != [] {
      assert ws[0] in ws;
      NonSpaceOfWord(ws[0]);
      ConcatCons(ws[0], ws[1..]);
      assert [ws[0]] + ws[1..] == ws;
      if |ws| == 1 {
        assert Concat(ws) == ws[0];
      } else {
        assert forall w :: w in ws[1..] ==> w in ws;
        NonSpaceOfJoin(ws[1..]);
        NonSpaceOfSeparated(ws[0], Join(ws[1..]));
      }
    }
  }

  lemma NonSpaceOfSeparated(a: string, b: string)
    ensures NonSpace(a + " " + b) == NonSpace(a) + NonSpace(b)
  {
    Assoc3(a, " ", b);
    NonSpaceAppend(a, " " + b);
    NonSpaceAppend(" ", b);
    NonSpaceOfSpace(" ");
  }

  /** Normalising white space keeps every other character, in order. */
  lemma NormalizeSpaceKeepsCharacters(s: string)
    ensures NonSpace(NormalizeSpace(s)) == NonSpace(s)
  {
    NormalizeSpaceByWords(s);
    WordsShape(s);
    NonSpaceOfJoin(Words(s));
    WordsKeepCharacters(s);
  }

  /** `s.includes(sub)`. */
  function Contains(s: string, sub: string): (b: bool)
    decreases |s|
    ensures b <==> exists i :: OccursAt(s, sub, i)
  {
    if |sub| > |s| then false
    else if s[..|sub|] == sub then assert OccursAt(s, sub, 0); true
    else
      var b := Contains(s[1..], sub);
      assert b ==> exists i :: OccursAt(s, sub, i) by {
        if b {
          var i :| OccursAt(s[1..], sub, i);
          assert s[1..][i..i + |sub|] == s[i + 1..i + 1 + |sub|];
          assert OccursAt(s, sub, i + 1);
        }
      }
      assert (exists i :: OccursAt(s, sub, i)) ==> b by {
        if exists i :: OccursAt(s, sub, i) {
          var i :| OccursAt(s, sub, i);
          assert i != 0;
          assert s[1..][i - 1..i - 1 + |sub|] == s[i..i + |sub|];
          assert OccursAt(s[1..], sub, i - 1);
        }
      }
      b
  }

  /** Containment is transitive: text inside a substring of `s` is inside `s`. */
  lemma ContainsTransitive(s: string, t: string, u: string)
    requires Contains(s, t) && Contains(t, u)
    ensures Contains(s, u)
  {
    var i :| OccursAt(s, t, i);
    var j :| OccursAt(t, u, j);
    forall k | 0 <= k < |u| ensures s[i + j + k] == u[k] {
      assert u[k] == t[j..j + |u|][k] == t[j + k] == s[i..i + |t|][j + k];
    }
    assert s[i + j..i + j + |u|] == u;
    assert OccursAt(s, u, i + j);
  }

  /** `toLowerCase` on one character, for the ASCII letters. */
  function LowerChar(c: char): char {
    if 'A' <= c <= 'Z' then (c as int + 32) as char else c
  }

  /** `s.toLowerCase()`, for ASCII letters: same length, each character lowered. */
  function ToLower(s: string): (r: string)
    ensures |r| == |s| && forall i :: 0 <= i < |s| ==> r[i] == LowerChar(s[i])
  {
    seq(|s|, i requires 0 <= i < |s| => LowerChar(s[i]))
  }

  function DigitChar(d: nat): char
    requires d < 10
  {
    "0123456789"[d]
  }

  /** Decimal rendering of a natural number, as JavaScript writes an array index key. */
  function NatToString(n: nat): (r: string)
    ensures r != []
  {
    if n < 10 then [DigitChar(n)] else NatToString(n / 10) + [DigitChar(n % 10)]
  }
}
