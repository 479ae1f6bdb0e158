/**
 * The station-name normaliser (`normalizar`).  Its result, the key, is the
 * only notion of station equality in the route finder: two names denote the
 * same place exactly when their keys are equal.
 */
module Names {
  import opened Wrappers
  import opened Text

  /** The characters the normaliser turns into spaces: ( ) / - and the em and en dashes. */
  predicate IsSeparator(c: char) {
    c == '(' || c == ')' || c == '/' || c == '-' || c == '\U{2014}' || c == '\U{2013}'
  }

  /** The replacement loop: every separator becomes a space. */
  function BlankSeparators(s: string): string {
    seq(|s|, i requires 0 <= i < |s| => if IsSeparator(s[i]) then ' ' else s[i])
  }

  /** Length of the run of non-whitespace characters `s` starts with. */
  function WordLength(s: string): (n: nat)
    ensures n <= |s|
    ensures forall j :: 0 <= j < n ==> !IsSpace(s[j])
    ensures n < |s| ==> IsSpace(s[n])
  {
    if s == [] || IsSpace(s[0]) then 0 else 1 + WordLength(s[1..])
  }

  /** A word of `str.split()`: non-empty and free of whitespace. */
  predicate IsWord(w: string) {
    w != [] && forall j :: 0 <= j < |w| ==> !IsSpace(w[j])
  }

  /** `s.split()`: the maximal runs of non-whitespace characters, in order. */
  function Words(s: string): (ws: seq<string>)
    ensures forall i :: 0 <= i < |ws| ==> IsWord(ws[i])
    ensures forall i, c :: 0 <= i < |ws| && c in ws[i] ==> c in s
    decreases |s|
  {
    if s == [] then []
    else if IsSpace(s[0]) then
      assert forall c :: c in s[1..] ==> c in s;
      Words(s[1..])
    else
      var n := WordLength(s);
      assert forall c :: c in s[n..] || c in s[..n] ==> c in s;
      [s[..n]] + Words(s[n..])
  }

  /** A character that may appear in a key. */
  predicate KeyChar(c: char) {
    c == ' ' || (!IsSpace(c) && !IsSeparator(c) && LowerChar(c) == c)
  }

  /**
   * The shape of every key: lower case, no separator, no whitespace but
   * single inner spaces.
   */
  predicate Canonical(r: string) {
    && (r == [] || (r[0] != ' ' && r[|r| - 1] != ' '))
    && (forall i :: 0 <= i < |r| ==> KeyChar(r[i]))
    && (forall i :: 0 <= i < |r| - 1 ==> !(r[i] == ' ' && r[i + 1] == ' '))
  }

  /** Joining whitespace-free words of key characters with single spaces gives a key. */
  lemma {:induction false} JoinWordsCanonical(ws: seq<string>)
    requires forall i :: 0 <= i < |ws| ==> IsWord(ws[i])
    requires forall i, c :: 0 <= i < |ws| && c in ws[i] ==> KeyChar(c)
    ensures Canonical(JoinWith(ws, ' '))
    ensures ws != [] ==> JoinWith(ws, ' ') != []
  {
    if |ws| > 1 {
      JoinWordsCanonical(ws[1..]);
      var w := ws[0];
      var j := JoinWith(ws[1..], ' ');
      var r := w + [' '] + j;
      assert JoinWith(ws, ' ') == r;
      assert IsWord(w);
      forall i | 0 <= i < |r|
        ensures KeyChar(r[i])
      {
        if i < |w| {
          assert r[i] == w[i] && w[i] in ws[0];
        } else if i > |w| {
          assert r[i] == j[i - |w| - 1];
        }
      }
      forall i | 0 <= i < |r| - 1
        ensures !(r[i] == ' ' && r[i + 1] == ' ')
      {
        if i < |w| {
          assert r[i] == w[i];
        } else if i > |w| {
          assert r[i] == j[i - |w| - 1] && r[i + 1] == j[i - |w|];
        }
      }
    } else if |ws| == 1 {
      assert JoinWith(ws, ' ') == ws[0];
      assert forall i :: 0 <= i < |ws[0]| ==> ws[0][i] in ws[0];
    }
  }

  /** The non-whitespace characters left after lower-casing and blanking are key characters. */
  lemma BlankedLowerKeyChars(s: string)
    ensures forall c :: c in BlankSeparators(Lower(s)) && !IsSpace(c) ==> KeyChar(c)
  {
    var u := BlankSeparators(Lower(s));
    forall c | c in u && !IsSpace(c)
      ensures KeyChar(c)
    {
      var i :| 0 <= i < |u| && u[i] == c;
      LowerCharIdempotent(s[i]);
    }
  }

  /**
   * `normalizar`: strip, lower-case, turn separators into spaces, collapse
   * whitespace.  An absent name has the empty key.
   */
  function Normalize(t: Option<string>): (key: string)
    ensures Canonical(key)
    ensures t.None? ==> key == []
  {
    match t
    case None => ""
    case Some(s) =>
      var u := BlankSeparators(Lower(Strip(s)));
      BlankedLowerKeyChars(Strip(s));
      JoinWordsCanonical(Words(u));
      JoinWith(Words(u), ' ')
  }

  /** The key of a present name. */
  function Key(s: string): string {
    Normalize(Some(s))
  }

  /** A suffix of a key that starts off a space is a key. */
  lemma CanonicalSuffix(r: string, k: nat)
    requires Canonical(r) && k < |r| && r[k] != ' '
    ensures Canonical(r[k..])
  {
    var rest := r[k..];
    forall i | 0 <= i < |rest| - 1
      ensures !(rest[i] == ' ' && rest[i + 1] == ' ')
    {
      assert rest[i] == r[k + i] && rest[i + 1] == r[k + i + 1];
    }
  }

  /** A key with more than one word: its first word, one space, and a shorter key. */
  lemma CanonicalAfterWord(r: string)
    requires Canonical(r) && r != [] && WordLength(r) < |r|
    ensures WordLength(r) + 1 < |r| && r[WordLength(r)] == ' '
    ensures Canonical(r[WordLength(r) + 1..])
    ensures Words(r) == [r[..WordLength(r)]] + Words(r[WordLength(r) + 1..])
  {
    var n := WordLength(r);
    assert KeyChar(r[n]);
    assert r[n + 1] != ' ';
    CanonicalSuffix(r, n + 1);
    assert r[n..][1..] == r[n + 1..];
  }

  /** Splitting a key on whitespace and joining with single spaces gives it back. */
  lemma {:induction false} JoinWordsOfCanonical(r: string)
    requires Canonical(r)
    ensures JoinWith(Words(r), ' ') == r
    decreases |r|
  {
    if r != [] {
      var n := WordLength(r);
      if n == |r| {
        assert r[n..] == [];
        assert Words(r) == [r[..n]];
      } else {
        var rest := r[n + 1..];
        CanonicalAfterWord(r);
        JoinWordsOfCanonical(rest);
        assert Words(rest) != [] by {
          assert rest[0] != ' ';
        }
        JoinCons(r[..n], Words(rest), ' ');
        assert r == r[..n] + [' '] + rest;
      }
    }
  }

  /** Keys are exactly the canonical strings: normalising a key changes nothing. */
  lemma CanonicalIsFixed(r: string)
    requires Canonical(r)
    ensures Key(r) == r
  {
    StripTrimmed(r);
    assert Lower(r) == r;
    assert BlankSeparators(r) == r;
    JoinWordsOfCanonical(r);
  }

  /** Normalising twice is normalising once. */
  lemma NormalizeIdempotent(t: Option<string>)
    ensures Key(Normalize(t)) == Normalize(t)
  {
    CanonicalIsFixed(Normalize(t));
  }

  /** Lower-casing and blanking, the per-character part of the normaliser. */
  function Fold(s: string): string {
    BlankSeparators(Lower(s))
  }

  lemma FoldConcat(a: string, b: string)
    ensures Fold(a + b) == Fold(a) + Fold(b)
  {
  }

  lemma FoldKeepsSpace(w: string)
    requires forall j :: 0 <= j < |w| ==> IsSpace(w[j])
    ensures forall j :: 0 <= j < |Fold(w)| ==> IsSpace(Fold(w)[j])
  {
  }

  /** Leading whitespace produces no word. */
  lemma {:induction false} WordsSpacePrefix(w: string, x: string)
    requires forall j :: 0 <= j < |w| ==> IsSpace(w[j])
    ensures Words(w + x) == Words(x)
  {
    if w != [] {
      assert (w + x)[1..] == w[1..] + x;
      WordsSpacePrefix(w[1..], x);
    } else {
      assert w + x == x;
    }
  }

  lemma {:induction false} WordLengthStopsAtSpace(x: string, y: string)
    requires y == [] || IsSpace(y[0])
    ensures WordLength(x + y) == WordLength(x)
  {
    if x != [] && !IsSpace(x[0]) {
      assert (x + y)[1..] == x[1..] + y;
      WordLengthStopsAtSpace(x[1..], y);
    } else if x == [] {
      assert x + y == y;
    }
  }

  /** A run of whitespace separates words exactly as a single space does. */
  lemma {:induction false} WordsAcrossSpace(x: string, w: string, y: string)
    requires w != [] && forall j :: 0 <= j < |w| ==> IsSpace(w[j])
    ensures Words(x + w + y) == Words(x) + Words(y)
    decreases |x|
  {
    if x == [] {
      assert x + w + y == w + y;
      WordsSpacePrefix(w, y);
    } else if IsSpace(x[0]) {
      assert (x + w + y)[1..] == x[1..] + w + y;
      WordsAcrossSpace(x[1..], w, y);
    } else {
      var n := WordLength(x);
      assert x + w + y == x + (w + y);
      WordsAfterFirstWord(x, w + y);
      assert x[n..] + (w + y) == x[n..] + w + y;
      WordsAcrossSpace(x[n..], w, y);
    }
  }

  /** A word at the start of `x` stays a whole word when whitespace follows `x`. */
  lemma WordsAfterFirstWord(x: string, rest: string)
    requires x != [] && !IsSpace(x[0]) && (rest == [] || IsSpace(rest[0]))
    ensures Words(x + rest) == [x[..WordLength(x)]] + Words(x[WordLength(x)..] + rest)
  {
    var n := WordLength(x);
    WordLengthStopsAtSpace(x, rest);
    assert (x + rest)[..n] == x[..n];
    assert (x + rest)[n..] == x[n..] + rest;
  }

  /** Trailing whitespace produces no word. */
  lemma WordsSpaceSuffix(x: string, w: string)
    requires forall j :: 0 <= j < |w| ==> IsSpace(w[j])
    ensures Words(x + w) == Words(x)
  {
    if w != [] {
      WordsAcrossSpace(x, w, []);
      assert x + w + [] == x + w;
    } else {
      assert x + w == x;
    }
  }

  /**
   * Stripping first changes nothing: the key is the folded name split on
   * whitespace and re-joined with single spaces.
   */
  lemma KeyIsCollapsedFold(s: string)
    ensures Key(s) == JoinWith(Words(Fold(s)), ' ')
  {
    WordsOfFoldIgnoreStrip(s);
    assert Key(s) == JoinWith(Words(Fold(Strip(s))), ' ');
  }

  lemma WordsOfFoldIgnoreStrip(s: string)
    ensures Words(Fold(s)) == Words(Fold(Strip(s)))
  {
    var pre, suf := StripSplit(s);
    var r := Strip(s);
    FoldConcat(pre, r + suf);
    FoldConcat(r, suf);
    FoldKeepsSpace(pre);
    FoldKeepsSpace(suf);
    WordsSpacePrefix(Fold(pre), Fold(r) + Fold(suf));
    WordsSpaceSuffix(Fold(r), Fold(suf));
  }

  /** A name is its strip with whitespace on either side. */
  lemma StripSplit(s: string) returns (pre: string, suf: string)
    ensures s == pre + (Strip(s) + suf)
    ensures forall j :: 0 <= j < |pre| ==> IsSpace(pre[j])
    ensures forall j :: 0 <= j < |suf| ==> IsSpace(suf[j])
  {
    var i, k := StripIsInfix(s);
    pre := s[..i];
    suf := s[k..];
    assert s == s[..i] + (s[i..k] + s[k..]);
  }

  /** Names that agree after lower-casing and blanking separators share a key. */
  lemma KeyIgnoresCaseAndSeparators(s: string, t: string)
    requires Fold(s) == Fold(t)
    ensures Key(s) == Key(t)
  {
    KeyIsCollapsedFold(s);
    KeyIsCollapsedFold(t);
  }

  /** A run of whitespace or separators inside a name acts as a single space. */
  lemma KeyCollapsesSpaceRuns(a: string, w: string, b: string)
    requires w != [] && forall j :: 0 <= j < |w| ==> IsSpace(w[j]) || IsSeparator(w[j])
    ensures Key(a + w + b) == Key(a + " " + b)
  {
    FoldConcat(a + w, b);
    FoldConcat(a, w);
    FoldConcat(a + " ", b);
    FoldConcat(a, " ");
    assert Fold(" ") == " ";
    assert forall j :: 0 <= j < |Fold(w)| ==> IsSpace(Fold(w)[j]);
    WordsAcrossSpace(Fold(a), Fold(w), Fold(b));
    WordsAcrossSpace(Fold(a), " ", Fold(b));
    KeyIsCollapsedFold(a + w + b);
    KeyIsCollapsedFold(a + " " + b);
  }

  /** A name that folds to one whitespace-free run is its own fold. */
  lemma KeyOfSingleWord(s: string)
    requires IsWord(Fold(s))
    ensures Key(s) == Fold(s)
  {
    var u := Fold(s);
    assert WordLength(u) == |u|;
    assert u[|u|..] == [];
    assert Words(u) == [u[..|u|]];
    assert u[..|u|] == u;
    KeyIsCollapsedFold(s);
  }

  /** Trailing separators and whitespace do not change a key. */
  lemma KeyIgnoresTrailingSeparators(a: string, w: string)
    requires forall j :: 0 <= j < |w| ==> IsSpace(w[j]) || IsSeparator(w[j])
    ensures Key(a + w) == Key(a)
  {
    FoldConcat(a, w);
    assert forall j :: 0 <= j < |Fold(w)| ==> IsSpace(Fold(w)[j]);
    WordsSpaceSuffix(Fold(a), Fold(w));
    KeyIsCollapsedFold(a + w);
    KeyIsCollapsedFold(a);
  }

  /** A hyphen joins like a space: "UAM-Azcapotzalco" meets "UAM Azcapotzalco". */
  lemma HyphenIsSpace(p: string, q: string)
    ensures Key(p + "-" + q) == Key(p + " " + q)
  {
    KeyCollapsesSpaceRuns(p, "-", q);
  }

  /** Spaces around a slash do not matter: "Garibaldi / Lagunilla" meets "Garibaldi/Lagunilla". */
  lemma SpacedSlashIsSlash(p: string, q: string)
    ensures Key(p + " / " + q) == Key(p + "/" + q)
  {
    KeyCollapsesSpaceRuns(p, " / ", q);
    KeyCollapsesSpaceRuns(p, "/", q);
  }

  /**
   * Case and bracketing do not matter: "zócalo/tenochtitlan" meets
   * "Zócalo (Tenochtitlan)".
   */
  lemma SlashIsParenthesis(p: string, q: string, p': string, q': string)
    requires Fold(p) == Fold(p') && Fold(q) == Fold(q')
    ensures Key(p + "/" + q) == Key(p' + " (" + q' + ")")
  {
    calc {
      Key(p' + " (" + q' + ")");
      { KeyIgnoresTrailingSeparators(p' + " (" + q', ")"); }
      Key(p' + " (" + q');
      { KeyCollapsesSpaceRuns(p', " (", q'); }
      Key(p' + " " + q');
      { FoldAroundSpace(p, q, p', q'); KeyIgnoresCaseAndSeparators(p + " " + q, p' + " " + q'); }
      Key(p + " " + q);
      { KeyCollapsesSpaceRuns(p, "/", q); }
      Key(p + "/" + q);
    }
  }

  lemma FoldAroundSpace(p: string, q: string, p': string, q': string)
    requires Fold(p) == Fold(p') && Fold(q) == Fold(q')
    ensures Fold(p + " " + q) == Fold(p' + " " + q')
  {
    FoldConcat(p + " ", q);
    FoldConcat(p, " ");
    FoldConcat(p' + " ", q');
    FoldConcat(p', " ");
  }

  lemma AccentedFolds(a: string)
    requires a == "Ferrería"
    ensures Fold(a) == "ferrería" && IsWord("ferrería")
  {
  }

  lemma PlainFolds(b: string)
    requires b == "Ferreria"
    ensures Fold(b) == "ferreria" && IsWord("ferreria")
  {
  }

  /** Accents are kept: "Ferrería" and "Ferreria" are different places. */
  lemma AccentsAreKept(a: string, b: string)
    requires a == "Ferrería" && b == "Ferreria"
    ensures Key(a) != Key(b)
  {
    AccentedFolds(a);
    PlainFolds(b);
    KeyOfSingleWord(a);
    KeyOfSingleWord(b);
    assert Key(a) == "ferrería" && Key(b) == "ferreria";
  }
}
