/**
 * Character classes and string primitives with the meaning Python's `str`
 * methods give them: `strip()`, `split(sep)`,
 * `lower()` and `upper()`.  Case mapping covers ASCII and Latin-1, the
 * range the station names use.
 */
module Text {

  /** Python's whitespace, as used by `str.split()` and `str.strip()`. */
  predicate IsSpace(c: char) {
    || c == ' '
    || '\t' <= c <= '\r'
    || '\U{1C}' <= c <= '\U{1F}'
    || c == '\U{85}' || c == '\U{A0}' || c == '\U{1680}'
    || '\U{2000}' <= c <= '\U{200A}'
    || c == '\U{2028}' || c == '\U{2029}' || c == '\U{202F}'
    || c == '\U{205F}' || c == '\U{3000}'
  }

  /** `str.lower()` on one character (ASCII and Latin-1 capitals). */
  function LowerChar(c: char): (r: char)
    ensures IsSpace(r) <==> IsSpace(c)
  {
    if 'A' <= c <= 'Z' || ('\U{C0}' <= c <= '\U{DE}' && c != '\U{D7}') then
      (c as int + 32) as char
    else c
  }

  /** Lower-casing is idempotent. */
  lemma LowerCharIdempotent(c: char)
    ensures LowerChar(LowerChar(c)) == LowerChar(c)
  {
  }

  /** `str.lower()`, character by character. */
  function Lower(s: string): string {
    seq(|s|, i requires 0 <= i < |s| => LowerChar(s[i]))
  }

  /** Lower-casing a lower-cased string changes nothing. */
  lemma LowerIdempotent(s: string)
    ensures Lower(Lower(s)) == Lower(s)
  {
    forall i | 0 <= i < |s|
      ensures Lower(Lower(s))[i] == Lower(s)[i]
    {
      LowerCharIdempotent(s[i]);
    }
  }

  /** Lower-casing keeps every whitespace position and leaves no ASCII capital. */
  lemma LowerKeepsSpaces(s: string)
    ensures forall i :: 0 <= i < |s| ==> (IsSpace(Lower(s)[i]) <==> IsSpace(s[i]))
    ensures forall i :: 0 <= i < |s| ==> !('A' <= Lower(s)[i] <= 'Z')
  {
  }

  /**
   * `str.upper()` on one character: ASCII and Latin-1 small letters, with
   * Latin-1's three special cases ('ß' becomes "SS", 'ÿ' and 'µ' leave
   * Latin-1).
   */
  function UpperChar(c: char): (r: string)
    ensures c != 'ß' ==> |r| == 1
    ensures IsSpace(c) ==> r == [c]
    ensures forall k :: 0 <= k < |r| ==> !('a' <= r[k] <= 'z')
  {
    if 'a' <= c <= 'z' || ('\U{E0}' <= c <= '\U{FE}' && c != '\U{F7}') then [(c as int - 32) as char]
    else if c == 'ß' then "SS"
    else if c == '\U{FF}' then "\U{178}"
    else if c == '\U{B5}' then "\U{39C}"
    else [c]
  }

  /** `str.upper()`: no ASCII small letter is left, and without 'ß' the length is kept. */
  function Upper(s: string): (r: string)
    ensures forall k :: 0 <= k < |r| ==> !('a' <= r[k] <= 'z')
    ensures (forall k :: 0 <= k < |s| ==> s[k] != 'ß') ==> |r| == |s|
  {
    if s == [] then [] else UpperChar(s[0]) + Upper(s[1..])
  }

  /** Number of whitespace characters `s` starts with. */
  function LeadingSpaces(s: string): (n: nat)
    ensures n <= |s|
  {
    if s != [] && IsSpace(s[0]) then 1 + LeadingSpaces(s[1..]) else 0
  }

  /** Number of whitespace characters `s` ends with. */
  function TrailingSpaces(s: string): (n: nat)
    ensures n <= |s|
  {
    if s != [] && IsSpace(s[|s| - 1]) then 1 + TrailingSpaces(s[..|s| - 1]) else 0
  }

  /** `str.lstrip()` */
  function TrimLeft(s: string): string {
    s[LeadingSpaces(s)..]
  }

  /** `str.rstrip()` */
  function TrimRight(s: string): string {
    s[..|s| - TrailingSpaces(s)]
  }

  /** `str.strip()`: removes leading and trailing whitespace. */
  function Strip(s: string): string {
    TrimRight(TrimLeft(s))
  }

  lemma {:induction false} LeadingSpacesAreSpaces(s: string)
    ensures forall j :: 0 <= j < LeadingSpaces(s) ==> IsSpace(s[j])
    ensures LeadingSpaces(s) < |s| ==> !IsSpace(s[LeadingSpaces(s)])
  {
    if s != [] && IsSpace(s[0]) {
      LeadingSpacesAreSpaces(s[1..]);
    }
  }

  lemma {:induction false} TrailingSpacesAreSpaces(s: string)
    ensures forall j :: |s| - TrailingSpaces(s) <= j < |s| ==> IsSpace(s[j])
    ensures TrailingSpaces(s) < |s| ==> !IsSpace(s[|s| - TrailingSpaces(s) - 1])
  {
    if s != [] && IsSpace(s[|s| - 1]) {
      TrailingSpacesAreSpaces(s[..|s| - 1]);
    }
  }

  /**
   * `strip` cuts out the infix between the leading and the trailing
   * whitespace, and that infix neither starts nor ends with whitespace.
   */
  lemma StripIsInfix(s: string) returns (i: nat, k: nat)
    ensures i <= k <= |s| && Strip(s) == s[i..k]
    ensures forall j :: 0 <= j < i ==> IsSpace(s[j])
    ensures forall j :: k <= j < |s| ==> IsSpace(s[j])
    ensures i < k ==> !IsSpace(s[i]) && !IsSpace(s[k - 1])
  {
    var t := TrimLeft(s);
    i := LeadingSpaces(s);
    LeadingSpacesAreSpaces(s);
    TrailingSpacesAreSpaces(t);
    k := i + |t| - TrailingSpaces(t);
    assert Strip(s) == t[..|t| - TrailingSpaces(t)];
    forall j | k <= j < |s|
      ensures IsSpace(s[j])
    {
      assert s[j] == t[j - i];
    }
    if i < k {
      assert s[k - 1] == t[|t| - TrailingSpaces(t) - 1];
    }
  }

  /** The strip of a string neither starts nor ends with whitespace. */
  lemma StripShape(s: string)
    ensures Strip(s) == [] || (!IsSpace(Strip(s)[0]) && !IsSpace(Strip(s)[|Strip(s)| - 1]))
  {
    var i, k := StripIsInfix(s);
  }

  /** Stripping only removes characters. */
  lemma StripChars(s: string)
    ensures forall c :: c in Strip(s) ==> c in s
  {
    var i, k := StripIsInfix(s);
  }

  /** A string with no whitespace at either end is its own strip. */
  lemma StripTrimmed(s: string)
    requires s == [] || (!IsSpace(s[0]) && !IsSpace(s[|s| - 1]))
    ensures Strip(s) == s
  {
  }

  /** Stripping is idempotent. */
  lemma StripIdempotent(s: string)
    ensures Strip(Strip(s)) == Strip(s)
  {
    StripShape(s);
    StripTrimmed(Strip(s));
  }

  /** Index of the first occurrence of `c` in `s`. */
  function IndexOf(s: string, c: char): (i: nat)
    requires c in s
    ensures i < |s| && s[i] == c && c !in s[..i]
  {
    if s[0] == c then 0 else 1 + IndexOf(s[1..], c)
  }

  /** `s.split(sep)`: the pieces between occurrences of `sep`, never empty. */
  function SplitOn(s: string, sep: char): (parts: seq<string>)
    ensures |parts| >= 1
    ensures forall i :: 0 <= i < |parts| ==> sep !in parts[i]
    decreases |s|
  {
    if sep in s then
      var i := IndexOf(s, sep);
      [s[..i]] + SplitOn(s[i + 1..], sep)
    else [s]
  }

  /** `sep.join(parts)` */
  function JoinWith(parts: seq<string>, sep: char): string {
    if |parts| == 0 then ""
    else if |parts| == 1 then parts[0]
    else parts[0] + [sep] + JoinWith(parts[1..], sep)
  }

  /** Joining a part in front of non-empty parts puts one separator between. */
  lemma JoinCons(w: string, ws: seq<string>, sep: char)
    requires ws != []
    ensures JoinWith([w] + ws, sep) == w + [sep] + JoinWith(ws, sep)
  {
    assert ([w] + ws)[0] == w && ([w] + ws)[1..] == ws;
  }

  /** The first `sep` of `a + [sep] + b` is the one after `a` when `a` has none. */
  lemma IndexOfAfter(a: string, sep: char, b: string)
    requires sep !in a
    ensures IndexOf(a + [sep] + b, sep) == |a|
  {
    if a != [] {
      assert (a + [sep] + b)[1..] == a[1..] + [sep] + b;
      IndexOfAfter(a[1..], sep, b);
    }
  }

  /** Splitting `a + [sep] + b` on `sep` gives `a`, then the pieces of `b`, when `a` has no `sep`. */
  lemma SplitAfter(a: string, sep: char, b: string)
    requires sep !in a
    ensures SplitOn(a + [sep] + b, sep) == [a] + SplitOn(b, sep)
  {
    var s := a + [sep] + b;
    IndexOfAfter(a, sep, b);
    assert s[..|a|] == a;
    assert s[|a| + 1..] == b;
  }

  /** Splitting a join on a separator the parts never contain gives the parts back. */
  lemma {:induction false} SplitJoin(parts: seq<string>, sep: char)
    requires |parts| >= 1
    requires forall i :: 0 <= i < |parts| ==> sep !in parts[i]
    ensures SplitOn(JoinWith(parts, sep), sep) == parts
  {
    if |parts| > 1 {
      var rest := JoinWith(parts[1..], sep);
      SplitJoin(parts[1..], sep);
      SplitAfter(parts[0], sep, rest);
      assert parts == [parts[0]] + parts[1..];
    }
  }
}
