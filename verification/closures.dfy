/**
 * Closed-segment input: the builder's three accepted shapes, and the parser
 * (`parsear_tramos_cerrados`) that turns text such as "A-B, C-D:METRO" into
 * tagged triples.
 */
module Closures {
  import opened Wrappers
  import opened Text

  /** The tag that closes a segment for every system. */
  const Wildcard := "ANY"

  /** A closed segment between stations `a` and `b` for the systems `tag` selects. */
  datatype Closure = Closure(a: string, b: string, tag: string)

  /**
   * One closed segment as the builder accepts it: a triple with a system
   * tag, a pair (closed for every system), or "A-B" text (likewise).
   */
  datatype ClosureInput =
    | Tagged(closure: Closure)
    | Untagged(a: string, b: string)
    | Hyphenated(text: string)

  /**
   * Splits a stripped part at its first ':' into the body (stripped) and the
   * tag (stripped, then upper-cased); without ':' the tag is "ANY".
   */
  function SplitTag(p: string): (r: (string, string))
    ensures ':' !in r.0
    ensures ':' !in p ==> r == (p, Wildcard)
  {
    if ':' in p then
      var i := IndexOf(p, ':');
      StripChars(p[..i]);
      (Strip(p[..i]), Upper(Strip(p[i + 1..])))
    else (p, Wildcard)
  }

  /** Splits a body at its first '-' into two stripped names; no '-', no pair. */
  function SplitStations(body: string): (r: Option<(string, string)>)
    ensures r.Some? <==> '-' in body
  {
    if '-' in body then
      var j := IndexOf(body, '-');
      Some((Strip(body[..j]), Strip(body[j + 1..])))
    else None
  }

  /** The two names are stripped, the first holds no '-', and neither holds a character the body lacks. */
  lemma SplitStationsShape(body: string)
    requires '-' in body
    ensures var (a, b) := SplitStations(body).value;
      && Strip(a) == a && Strip(b) == b && '-' !in a
      && (forall c :: c in a ==> c in body) && (forall c :: c in b ==> c in body)
  {
    var j := IndexOf(body, '-');
    StripIdempotent(body[..j]);
    StripIdempotent(body[j + 1..]);
    StripChars(body[..j]);
    StripChars(body[j + 1..]);
  }

  /**
   * One comma-separated part: strip it and drop it if blank; split off the
   * tag; split the body into two station names, or drop the part when it
   * has no '-'.
   */
  function ParsePart(part: string): (r: Option<Closure>)
    ensures '-' !in part ==> r.None?
    ensures Strip(part) == [] ==> r.None?
    ensures r.Some? && ':' !in part ==> r.value.tag == Wildcard
    ensures Strip(part) != [] ==> (r.Some? <==> '-' in SplitTag(Strip(part)).0)
  {
    var p := Strip(part);
    StripChars(part);
    if p == [] then None
    else
      var (body, tag) := SplitTag(p);
      match SplitStations(body)
      case Some((a, b)) => Some(Closure(a, b, tag))
      case None => None
  }

  /** Keeps the parts that parse, in order. */
  function Collect(parts: seq<string>): (r: seq<Closure>)
    ensures |r| <= |parts|
  {
    if parts == [] then []
    else
      var c := ParsePart(parts[0]);
      if c.Some? then [c.value] + Collect(parts[1..]) else Collect(parts[1..])
  }

  /** `parsear_tramos_cerrados`: split the text on ',' and parse each part. */
  function ParseClosures(raw: string): (r: seq<Closure>)
    ensures raw == [] ==> r == []
    ensures |r| <= |SplitOn(raw, ',')|
  {
    if raw == [] then [] else Collect(SplitOn(raw, ','))
  }

  /** "X:Y" with no ':' in X splits into X stripped and Y stripped and upper-cased. */
  lemma SplitTagOf(x: string, y: string)
    requires ':' !in x
    ensures SplitTag(x + ":" + y) == (Strip(x), Upper(Strip(y)))
  {
    var p := x + ":" + y;
    assert p == x + [':'] + y;
    IndexOfAfter(x, ':', y);
    assert p[..|x|] == x;
    assert p[|x| + 1..] == y;
  }

  /** "X-Y" with no '-' in X splits into X and Y, both stripped. */
  lemma SplitStationsOf(x: string, y: string)
    requires '-' !in x
    ensures SplitStations(x + "-" + y) == Some((Strip(x), Strip(y)))
  {
    var body := x + "-" + y;
    assert body == x + ['-'] + y;
    IndexOfAfter(x, '-', y);
    assert body[..|x|] == x;
    assert body[|x| + 1..] == y;
  }

  /** The names of a parsed part are stripped and hold neither ':' nor, in the first, '-'. */
  lemma ParsePartShape(part: string)
    requires ParsePart(part).Some?
    ensures var c := ParsePart(part).value;
      && Strip(c.a) == c.a && Strip(c.b) == c.b
      && '-' !in c.a && ':' !in c.a && ':' !in c.b
  {
    var (body, tag) := SplitTag(Strip(part));
    SplitStationsShape(body);
  }

  /** A closure that survives being written as "A-B:TAG" and read back. */
  predicate Printable(c: Closure) {
    && Strip(c.a) == c.a && Strip(c.b) == c.b
    && Strip(c.tag) == c.tag && Upper(c.tag) == c.tag
    && '-' !in c.a
    && ':' !in c.a && ':' !in c.b
    && ',' !in c.a && ',' !in c.b && ',' !in c.tag
  }

  /** The text form "A-B:TAG" of one closure. */
  function Render(c: Closure): string {
    c.a + "-" + c.b + ":" + c.tag
  }

  /** Each closure in its text form. */
  function Rendered(cs: seq<Closure>): seq<string> {
    if cs == [] then [] else [Render(cs[0])] + Rendered(cs[1..])
  }

  /** The i-th part of the text form renders the i-th closure. */
  lemma {:induction false} RenderedAt(cs: seq<Closure>, i: int)
    requires 0 <= i < |cs|
    ensures |Rendered(cs)| == |cs| && Rendered(cs)[i] == Render(cs[i])
  {
    if i > 0 {
      RenderedAt(cs[1..], i - 1);
    } else if |cs| > 1 {
      RenderedAt(cs[1..], 0);
    }
  }

  /** The comma-separated text form of a list of closures. */
  function Format(cs: seq<Closure>): string {
    JoinWith(Rendered(cs), ',')
  }

  lemma StrippedEnds(s: string)
    requires Strip(s) == s
    ensures s == [] || (!IsSpace(s[0]) && !IsSpace(s[|s| - 1]))
  {
    StripShape(s);
  }

  /** "A-B" with stripped names is its own strip. */
  lemma PairIsStripped(a: string, b: string)
    requires Strip(a) == a && Strip(b) == b
    ensures Strip(a + "-" + b) == a + "-" + b
  {
    StrippedEnds(a);
    StrippedEnds(b);
    var s := a + "-" + b;
    assert s[0] == (if a == [] then '-' else a[0]);
    assert s[|s| - 1] == (if b == [] then '-' else b[|b| - 1]);
    StripTrimmed(s);
  }

  lemma RenderStripped(c: Closure)
    requires Printable(c)
    ensures Strip(Render(c)) == Render(c)
  {
    var body := c.a + "-" + c.b;
    var s := Render(c);
    assert s == body + [':'] + c.tag;
    StrippedEnds(c.a);
    StrippedEnds(c.tag);
    assert s[0] == (if c.a == [] then '-' else c.a[0]);
    assert s[|s| - 1] == (if c.tag == [] then ':' else c.tag[|c.tag| - 1]);
    StripTrimmed(s);
  }

  lemma SplitTagRender(c: Closure)
    requires Printable(c)
    ensures SplitTag(Render(c)) == (c.a + "-" + c.b, c.tag)
  {
    var body := c.a + "-" + c.b;
    var s := Render(c);
    assert s == body + [':'] + c.tag;
    assert ':' !in body;
    IndexOfAfter(body, ':', c.tag);
    assert s[..|body|] == body;
    assert s[|body| + 1..] == c.tag;
    PairIsStripped(c.a, c.b);
  }

  lemma SplitStationsPair(a: string, b: string)
    requires Strip(a) == a && Strip(b) == b && '-' !in a
    ensures SplitStations(a + "-" + b) == Some((a, b))
  {
    SplitStationsOf(a, b);
  }

  /** Reading back one rendered closure gives the closure. */
  lemma ParseRender(c: Closure)
    requires Printable(c)
    ensures ParsePart(Render(c)) == Some(c)
  {
    RenderStripped(c);
    SplitTagRender(c);
    SplitStationsPair(c.a, c.b);
  }

  /** A part that parses is kept in front of what the rest gives. */
  lemma CollectCons(p: string, ps: seq<string>)
    requires ParsePart(p).Some?
    ensures Collect([p] + ps) == [ParsePart(p).value] + Collect(ps)
  {
    assert ([p] + ps)[1..] == ps;
  }

  lemma {:induction false} CollectRendered(cs: seq<Closure>)
    requires forall i :: 0 <= i < |cs| ==> Printable(cs[i])
    ensures Collect(Rendered(cs)) == cs
  {
    if cs != [] {
      var tail := Rendered(cs[1..]);
      assert Rendered(cs) == [Render(cs[0])] + tail;
      ParseRender(cs[0]);
      CollectCons(Render(cs[0]), tail);
      CollectRendered(cs[1..]);
      assert cs == [cs[0]] + cs[1..];
    }
  }

  /** No part of the text form of printable closures holds a ','. */
  lemma RenderedCommaFree(cs: seq<Closure>)
    requires forall i :: 0 <= i < |cs| ==> Printable(cs[i])
    ensures forall i :: 0 <= i < |Rendered(cs)| ==> ',' !in Rendered(cs)[i]
  {
    var parts := Rendered(cs);
    forall i | 0 <= i < |parts|
      ensures ',' !in parts[i]
    {
      RenderedAt(cs, 0);
      RenderedAt(cs, i);
      assert parts[i] == cs[i].a + ['-'] + cs[i].b + [':'] + cs[i].tag;
    }
  }

  /** Parsing the text form of printable closures gives them back, in order. */
  lemma ParseFormat(cs: seq<Closure>)
    requires forall i :: 0 <= i < |cs| ==> Printable(cs[i])
    ensures ParseClosures(Format(cs)) == cs
  {
    var parts := Rendered(cs);
    if cs != [] {
      RenderedAt(cs, 0);
      RenderedCommaFree(cs);
      SplitJoin(parts, ',');
      assert Format(cs) != [] by {
        assert |parts[0]| > 0;
        if |parts| > 1 {
          assert Format(cs) == parts[0] + [','] + JoinWith(parts[1..], ',');
        }
      }
      CollectRendered(cs);
    }
  }
}
