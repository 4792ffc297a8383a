/**
 * lib/utils.ts: media extraction from a post body, URL validation and the known-domain
 * allow-list. The regular expressions are replaced by scanners that find the same matches.
 */
module Utils {
  import opened Wrappers
  import opened Text
  import UrlHost

  datatype MediaKind = Image | Video
  datatype Media = Media(kind: MediaKind, url: string)

  /**
   * The two global patterns of extractMediaFromBody: a markdown image (`![`, alt text,
   * `](`, target, `)`) and an iframe element with a double-quoted `src` attribute.
   */
  datatype Pattern = ImagePattern | IframePattern

  /** A match of a pattern: the half-open index range `[start, end)` of the body. */
  datatype Span = Span(start: nat, end: nat)

  /**
   * The end of the line that index `i` is on: the first line terminator at or after `i`,
   * or `|s|`. A lazy `.*?` cannot run past it.
   */
  function LineEnd(s: string, i: nat): (e: nat)
    requires i <= |s|
    decreases |s| - i
    ensures i <= e <= |s|
    ensures forall k :: i <= k < e ==> !IsLineTerminator(s[k])
    ensures e < |s| ==> IsLineTerminator(s[e])
  {
    if i == |s| || IsLineTerminator(s[i]) then i else LineEnd(s, i + 1)
  }

  /** No character of `s` is a line terminator. */
  predicate OnOneLine(s: string) {
    forall k :: 0 <= k < |s| ==> !IsLineTerminator(s[k])
  }

  /** The literal pieces of a pattern: `open .*? middle (.*?) close`, or for iframes `... .*? tail`. */
  function Opener(p: Pattern): string {
    match p
    case ImagePattern => "!["
    case IframePattern => "<iframe"
  }

  /** A stretch that starts at `i` and stops by the end of its line lies on one line. */
  lemma WithinLine(s: string, i: nat, e: nat)
    requires i <= |s| && i <= e <= LineEnd(s, i)
    ensures OnOneLine(s[i..e])
  {
    forall k | 0 <= k < e - i ensures !IsLineTerminator(s[i..e][k]) {
      assert s[i..e][k] == s[i + k];
    }
  }

  /**
   * The end of the image match that starts at `i`, if one does. The lazy quantifiers make
   * the engine take the first `](` on the line and then the first `)` after it: if the
   * first `](` has no `)` after it on the line, no later `](` has one either.
   */
  function ImageMatchEnd(s: string, i: nat): (r: Option<nat>)
    requires i <= |s|
    ensures r.Some? ==> i < r.value <= |s| && OccursAt(s, "![", i)
  {
    if !OccursAt(s, "![", i) then None
    else ImageEndOnLine(s[..LineEnd(s, i)], i)
  }

  /** The search of an image match within its line, after the opener at `i`. */
  function ImageEndOnLine(line: string, i: nat): (r: Option<nat>)
    ensures r.Some? ==> i < r.value <= |line|
  {
    match IndexOf(line, "](", i + 2)
    case None => None
    case Some(a) =>
      match IndexOf(line, ")", a + 2)
      case None => None
      case Some(c) => Some(c + 1)
  }

  /** An image match ends with `)`, contains `](`, and stays on one line. */
  lemma ImageMatchWellFormed(s: string, i: nat)
    requires i <= |s| && ImageMatchEnd(s, i).Some?
    ensures var e := ImageMatchEnd(s, i).value;
            OnOneLine(s[i..e]) && s[e - 1] == ')' && Contains(s[i..e], "](")
  {
    var a, c := ImageMatchParts(s, i);
    ImageMatchShape(s, i, a, c, ImageMatchEnd(s, i).value);
  }

  /** The `](` at `a` and the `)` at `c` on the line of `i` that an image match is made of. */
  lemma ImageMatchParts(s: string, i: nat) returns (a: nat, c: nat)
    requires i <= |s| && ImageMatchEnd(s, i).Some?
    ensures ImageMatchEnd(s, i) == Some(c + 1) && c < LineEnd(s, i)
    ensures i <= a && OccursAt(s[..LineEnd(s, i)], "](", a)
    ensures a + 2 <= c && OccursAt(s[..LineEnd(s, i)], ")", c)
  {
    a, c := ImagePartsOnLine(s[..LineEnd(s, i)], i);
  }

  /** An image match found on a line is a `](` after the opener and the first `)` after that. */
  lemma ImagePartsOnLine(line: string, i: nat) returns (a: nat, c: nat)
    requires ImageEndOnLine(line, i).Some?
    ensures ImageEndOnLine(line, i) == Some(c + 1)
    ensures i <= a && OccursAt(line, "](", a)
    ensures a + 2 <= c && OccursAt(line, ")", c)
  {
    a := IndexOf(line, "](", i + 2).value;
    c := IndexOf(line, ")", a + 2).value;
  }

  /** After the opener at `i`, the line holds a `](` and, after that, a `)`. */
  ghost predicate ImageShapeOnLine(line: string, i: nat) {
    exists a, c :: i + 2 <= a && a + 2 <= c && OccursAt(line, "](", a) && OccursAt(line, ")", c)
  }

  /** A match of the image pattern at `i` that ends at `e` takes the first `](` and then the first `)`. */
  ghost predicate ImageFirstChoices(line: string, i: nat, e: int) {
    exists a :: IsFirstAfter(line, "![", i, "](", a) && IsFirstAfter(line, "](", a, ")", e - 1)
  }

  /**
   * The image search on a line succeeds exactly when a `](` follows the opener and a `)`
   * follows that `](`; it then ends one past the first `)` after the first `](`.
   */
  lemma ImageEndOnLineExact(line: string, i: nat)
    ensures ImageEndOnLine(line, i).Some? <==> ImageShapeOnLine(line, i)
    ensures ImageEndOnLine(line, i).Some? ==> ImageFirstChoices(line, i, ImageEndOnLine(line, i).value)
  {
    match IndexOf(line, "](", i + 2) {
      case None =>
      case Some(a) =>
        match IndexOf(line, ")", a + 2) {
          case None =>
            forall a', c | i + 2 <= a' && a' + 2 <= c && OccursAt(line, "](", a')
              ensures !OccursAt(line, ")", c)
            {
              assert a <= a';
            }
          case Some(c) =>
            assert IsFirstAfter(line, "![", i, "](", a) && IsFirstAfter(line, "](", a, ")", c);
        }
    }
  }

  /**
   * `![` at `i` starts an image match exactly when its line goes on with a `](` and then a
   * `)`; the match ends one past the first `)` after the first `](`.
   */
  lemma ImageMatchExact(s: string, i: nat)
    requires i <= |s|
    ensures ImageMatchEnd(s, i).Some? <==> OccursAt(s, "![", i) && ImageShapeOnLine(s[..LineEnd(s, i)], i)
    ensures ImageMatchEnd(s, i).Some? ==> ImageFirstChoices(s[..LineEnd(s, i)], i, ImageMatchEnd(s, i).value)
  {
    ImageEndOnLineExact(s[..LineEnd(s, i)], i);
  }

  /** A `](` at `a` and a `)` at `c` on the line of `i` make `s[i..e]`, `e == c + 1`, a well-formed image match. */
  lemma ImageMatchShape(s: string, i: nat, a: nat, c: nat, e: nat)
    requires i <= |s| && c < LineEnd(s, i) && e == c + 1
    requires i <= a && OccursAt(s[..LineEnd(s, i)], "](", a)
    requires a + 2 <= c && OccursAt(s[..LineEnd(s, i)], ")", c)
    ensures OnOneLine(s[i..e]) && s[e - 1] == ')' && Contains(s[i..e], "](")
  {
    WithinLine(s, i, e);
    var line := s[..LineEnd(s, i)];
    assert line[c] == s[c] && line[a] == s[a] && line[a + 1] == s[a + 1];
    var w := s[i..e];
    assert w[a - i] == ']' && w[a - i + 1] == '(';
    assert w[a - i..a - i + 2] == "](";
    assert OccursAt(w, "](", a - i);
  }

  /**
   * The end of the iframe match that starts at `i`, if one does: the first `src="` on the
   * line, the first `"` after it, then the first `></iframe>` after that. As for images, a
   * later choice for any of them can only leave less room for the rest.
   */
  function IframeMatchEnd(s: string, i: nat): (r: Option<nat>)
    requires i <= |s|
    ensures r.Some? ==> i < r.value <= |s| && OccursAt(s, "<iframe", i)
  {
    if !OccursAt(s, "<iframe", i) then None
    else IframeEndOnLine(s[..LineEnd(s, i)], i)
  }

  /** The search of an iframe match within its line, after the opener at `i`. */
  function IframeEndOnLine(line: string, i: nat): (r: Option<nat>)
    ensures r.Some? ==> i < r.value <= |line|
  {
    match IndexOf(line, "src=\"", i + 7)
    case None => None
    case Some(a) =>
      match IndexOf(line, "\"", a + 5)
      case None => None
      case Some(q) =>
        match IndexOf(line, "></iframe>", q + 1)
        case None => None
        case Some(e) => Some(e + 10)
  }

  /** An iframe match ends with `></iframe>` and stays on one line. */
  lemma IframeMatchWellFormed(s: string, i: nat)
    requires i <= |s| && IframeMatchEnd(s, i).Some?
    ensures var e := IframeMatchEnd(s, i).value;
            e >= 10 && OccursAt(s, "></iframe>", e - 10) && OnOneLine(s[i..e])
  {
    var t := IframeMatchClose(s, i);
    WithinLine(s, i, t + 10);
    OccursOnLine(s, s[..LineEnd(s, i)], "></iframe>", t);
  }

  /** The `></iframe>` at `t` on the line of `i` that closes an iframe match. */
  lemma IframeMatchClose(s: string, i: nat) returns (t: nat)
    requires i <= |s| && IframeMatchEnd(s, i).Some?
    ensures IframeMatchEnd(s, i) == Some(t + 10) && t + 10 <= LineEnd(s, i)
    ensures OccursAt(s[..LineEnd(s, i)], "></iframe>", t)
  {
    var a, q;
    a, q, t := IframeParts(s[..LineEnd(s, i)], i);
  }

  /** After the opener at `i`, the line holds `src="`, then `"`, then `></iframe>`. */
  ghost predicate IframeShapeOnLine(line: string, i: nat) {
    exists a, q, t :: i + 7 <= a && a + 5 <= q && q + 1 <= t &&
      OccursAt(line, "src=\"", a) && OccursAt(line, "\"", q) && OccursAt(line, "></iframe>", t)
  }

  /** A match of the iframe pattern at `i` that ends at `e` takes the first `src="`, then the first `"`, then the first `></iframe>`. */
  ghost predicate IframeFirstChoices(line: string, i: nat, e: int) {
    exists a, q :: IsFirstAfter(line, "<iframe", i, "src=\"", a) && IsFirstAfter(line, "src=\"", a, "\"", q) &&
      IsFirstAfter(line, "\"", q, "></iframe>", e - 10)
  }

  /**
   * The iframe search on a line succeeds exactly when `src="`, then `"`, then `></iframe>`
   * follow the opener in that order; it then ends just past the first `></iframe>` after
   * the first `"` after the first `src="`.
   */
  lemma IframeEndOnLineExact(line: string, i: nat)
    ensures IframeEndOnLine(line, i).Some? <==> IframeShapeOnLine(line, i)
    ensures IframeEndOnLine(line, i).Some? ==> IframeFirstChoices(line, i, IframeEndOnLine(line, i).value)
  {
    if IframeEndOnLine(line, i).Some? {
      var a, q, t := IframeParts(line, i);
      IframeFound(line, i, a, q, t);
    } else {
      IframeMissing(line, i);
    }
  }

  /** The positions an iframe match found on a line is made of: the first choice of each piece. */
  lemma IframeParts(line: string, i: nat) returns (a: nat, q: nat, t: nat)
    requires IframeEndOnLine(line, i).Some?
    ensures IframeEndOnLine(line, i) == Some(t + 10)
    ensures IsFirstFrom(line, "src=\"", i + 7, a) && IsFirstFrom(line, "\"", a + 5, q)
    ensures IsFirstFrom(line, "></iframe>", q + 1, t)
  {
    a := IndexOf(line, "src=\"", i + 7).value;
    q := IndexOf(line, "\"", a + 5).value;
    t := IndexOf(line, "></iframe>", q + 1).value;
  }

  /** When the search on a line finds nothing, the line does not have the iframe shape. */
  lemma IframeMissing(line: string, i: nat)
    requires IframeEndOnLine(line, i).None?
    ensures !IframeShapeOnLine(line, i)
  {
    match IndexOf(line, "src=\"", i + 7) {
      case None =>
        IframeNoSource(line, i);
      case Some(a) =>
        match IndexOf(line, "\"", a + 5) {
          case None =>
            IframeNoQuote(line, i, a);
          case Some(q) =>
            IframeNoClose(line, i, a, q);
        }
    }
  }

  /** The first `src="`, the first `"` after it and the first `></iframe>` after that make a match. */
  lemma IframeFound(line: string, i: nat, a: nat, q: nat, t: nat)
    requires IsFirstFrom(line, "src=\"", i + 7, a) && IsFirstFrom(line, "\"", a + 5, q)
    requires IsFirstFrom(line, "></iframe>", q + 1, t)
    ensures IframeShapeOnLine(line, i) && IframeFirstChoices(line, i, t + 10)
  {
    assert IsFirstAfter(line, "<iframe", i, "src=\"", a) && IsFirstAfter(line, "src=\"", a, "\"", q);
    assert IsFirstAfter(line, "\"", q, "></iframe>", t + 10 - 10);
  }

  /** Without `src="` after the opener there is no iframe match. */
  lemma IframeNoSource(line: string, i: nat)
    requires forall a :: i + 7 <= a ==> !OccursAt(line, "src=\"", a)
    ensures !IframeShapeOnLine(line, i)
  {
  }

  /** Without `"` after the first `src="` there is none after any later one either. */
  lemma IframeNoQuote(line: string, i: nat, a: nat)
    requires IsFirstFrom(line, "src=\"", i + 7, a)
    requires forall q :: a + 5 <= q ==> !OccursAt(line, "\"", q)
    ensures !IframeShapeOnLine(line, i)
  {
    forall a', q | i + 7 <= a' && a' + 5 <= q && OccursAt(line, "src=\"", a')
      ensures !OccursAt(line, "\"", q)
    {
      assert a <= a';
    }
  }

  /** Without `></iframe>` after the first `"` there is none after any later choice either. */
  lemma IframeNoClose(line: string, i: nat, a: nat, q: nat)
    requires IsFirstFrom(line, "src=\"", i + 7, a) && IsFirstFrom(line, "\"", a + 5, q)
    requires forall t :: q + 1 <= t ==> !OccursAt(line, "></iframe>", t)
    ensures !IframeShapeOnLine(line, i)
  {
    forall a', q', t | i + 7 <= a' && a' + 5 <= q' && q' + 1 <= t && OccursAt(line, "src=\"", a') && OccursAt(line, "\"", q')
      ensures !OccursAt(line, "></iframe>", t)
    {
      assert a <= a';
      assert q <= q';
    }
  }

  /**
   * `<iframe` at `i` starts an iframe match exactly when its line goes on with `src="`, a
   * `"` and `></iframe>` in that order; the match ends just past the first `></iframe>`
   * after the first `"` after the first `src="`.
   */
  lemma IframeMatchExact(s: string, i: nat)
    requires i <= |s|
    ensures IframeMatchEnd(s, i).Some? <==> OccursAt(s, "<iframe", i) && IframeShapeOnLine(s[..LineEnd(s, i)], i)
    ensures IframeMatchEnd(s, i).Some? ==> IframeFirstChoices(s[..LineEnd(s, i)], i, IframeMatchEnd(s, i).value)
  {
    IframeEndOnLineExact(s[..LineEnd(s, i)], i);
  }

  /** What occurs in a prefix of `s` occurs in `s` at the same place. */
  lemma OccursOnLine(s: string, line: string, sub: string, k: nat)
    requires |line| <= |s| && line == s[..|line|]
    requires OccursAt(line, sub, k)
    ensures OccursAt(s, sub, k)
  {
    assert line[k..k + |sub|] == s[k..k + |sub|];
  }

  /** The end of the match of `p` that starts at `i`, if one does. */
  function MatchEnd(p: Pattern, s: string, i: nat): (r: Option<nat>)
    requires i <= |s|
    ensures r.Some? ==> i < r.value <= |s| && OccursAt(s, Opener(p), i)
  {
    match p
    case ImagePattern => ImageMatchEnd(s, i)
    case IframePattern => IframeMatchEnd(s, i)
  }

  /** The end of the match of `p` starting at each index of `s`, if one does. */
  function MatchEnds(p: Pattern, s: string): (ends: seq<Option<nat>>)
    ensures |ends| == |s| && EndsAhead(ends)
    ensures forall i :: 0 <= i < |s| ==> ends[i] == MatchEnd(p, s, i)
  {
    seq(|s|, i requires 0 <= i < |s| => MatchEnd(p, s, i))
  }

  /** Every match ends after its start and within the text. */
  predicate EndsAhead(ends: seq<Option<nat>>) {
    forall i :: 0 <= i < |ends| && ends[i].Some? ==> i < ends[i].value <= |ends|
  }

  /**
   * The left-to-right scan of a global match at or after `from`: a match found at an
   * index is taken and the scan resumes at its end, otherwise it moves on by one.
   */
  function Scan(ends: seq<Option<nat>>, from: nat): (r: seq<Span>)
    requires EndsAhead(ends) && from <= |ends|
    decreases |ends| - from
    ensures forall k :: 0 <= k < |r| ==> from <= r[k].start < r[k].end <= |ends|
    ensures forall k :: 0 <= k < |r| ==> ends[r[k].start] == Some(r[k].end)
    ensures forall k :: 0 <= k < |r| - 1 ==> r[k].end <= r[k + 1].start
  {
    if from == |ends| then []
    else
      match ends[from]
      case Some(e) =>
        var rest := Scan(ends, e);
        ConsSpan(ends, from, e, rest);
        [Span(from, e)] + rest
      case None => Scan(ends, from + 1)
  }

  /** A match `[from, e)` followed by ordered matches at or after `e` is again a list of ordered matches. */
  lemma ConsSpan(ends: seq<Option<nat>>, from: nat, e: nat, rest: seq<Span>)
    requires from < e <= |ends| && ends[from] == Some(e)
    requires forall k :: 0 <= k < |rest| ==> e <= rest[k].start < rest[k].end <= |ends|
    requires forall k :: 0 <= k < |rest| ==> ends[rest[k].start] == Some(rest[k].end)
    requires forall k :: 0 <= k < |rest| - 1 ==> rest[k].end <= rest[k + 1].start
    ensures var r := [Span(from, e)] + rest;
            (forall k :: 0 <= k < |r| ==> from <= r[k].start < r[k].end <= |ends|) &&
            (forall k :: 0 <= k < |r| ==> ends[r[k].start] == Some(r[k].end)) &&
            (forall k :: 0 <= k < |r| - 1 ==> r[k].end <= r[k + 1].start)
  {
    var r := [Span(from, e)] + rest;
    forall k | 0 < k < |r| ensures r[k] == rest[k - 1] {
    }
  }

  /** Every index at or after `from` where a match starts lies inside one of the spans `r`. */
  predicate Covers(ends: seq<Option<nat>>, r: seq<Span>, from: nat) {
    forall i :: from <= i < |ends| && ends[i].Some? ==> exists k :: 0 <= k < |r| && r[k].start <= i < r[k].end
  }

  /** The scan misses no match: every index where one starts lies inside a span it took. */
  lemma {:induction false} ScanCovers(ends: seq<Option<nat>>, from: nat)
    requires EndsAhead(ends) && from <= |ends|
    ensures Covers(ends, Scan(ends, from), from)
    decreases |ends| - from
  {
    if from < |ends| {
      match ends[from] {
        case Some(e) =>
          ScanCovers(ends, e);
          ScanAtMatch(ends, from, e);
          CoversCons(ends, from, e, Scan(ends, e));
        case None =>
          ScanCovers(ends, from + 1);
          ScanPastNonMatch(ends, from);
          CoversSkip(ends, from, Scan(ends, from + 1));
      }
    }
  }

  /** A match at `from` is the first span of the scan, and the scan resumes at its end. */
  lemma ScanAtMatch(ends: seq<Option<nat>>, from: nat, e: nat)
    requires EndsAhead(ends) && from < |ends| && ends[from] == Some(e)
    ensures Scan(ends, from) == [Span(from, e)] + Scan(ends, e)
  {
  }

  /** With no match at `from`, the scan moves on to the next index. */
  lemma ScanPastNonMatch(ends: seq<Option<nat>>, from: nat)
    requires EndsAhead(ends) && from < |ends| && ends[from].None?
    ensures Scan(ends, from) == Scan(ends, from + 1)
  {
  }

  /** A span `[from, e)` in front of spans covering from `e` on covers from `from` on. */
  lemma CoversCons(ends: seq<Option<nat>>, from: nat, e: nat, rest: seq<Span>)
    requires from < e && Covers(ends, rest, e)
    ensures Covers(ends, [Span(from, e)] + rest, from)
  {
    var r := [Span(from, e)] + rest;
    forall i | from <= i < |ends| && ends[i].Some?
      ensures exists k :: 0 <= k < |r| && r[k].start <= i < r[k].end
    {
      if i < e {
        assert r[0].start <= i < r[0].end;
      } else {
        var k :| 0 <= k < |rest| && rest[k].start <= i < rest[k].end;
        assert r[k + 1] == rest[k];
      }
    }
  }

  /** Spans covering from `from + 1` on also cover from `from` on when no match starts at `from`. */
  lemma CoversSkip(ends: seq<Option<nat>>, from: nat, r: seq<Span>)
    requires from < |ends| && ends[from].None? && Covers(ends, r, from + 1)
    ensures Covers(ends, r, from)
  {
  }

  /**
   * The matches of the global pattern `p` at or after `from`, as `String.prototype.match`
   * finds them: each is a match at its start, they come in body order without overlapping,
   * and every index at which a match starts lies inside one of them.
   */
  function Spans(p: Pattern, s: string, from: nat): (r: seq<Span>)
    requires from <= |s|
    ensures forall k :: 0 <= k < |r| ==> from <= r[k].start < r[k].end <= |s|
    ensures forall k :: 0 <= k < |r| ==> MatchEnd(p, s, r[k].start) == Some(r[k].end)
    ensures forall k :: 0 <= k < |r| - 1 ==> r[k].end <= r[k + 1].start
    ensures forall i :: from <= i < |s| && MatchEnd(p, s, i).Some? ==>
              exists k :: 0 <= k < |r| && r[k].start <= i < r[k].end
  {
    var ends := MatchEnds(p, s);
    ScanCovers(ends, from);
    Scan(ends, from)
  }

  /** The matched texts, in body order. */
  function Matches(p: Pattern, s: string): (ms: seq<string>)
    ensures |ms| == |Spans(p, s, 0)|
  {
    var spans := Spans(p, s, 0);
    seq(|spans|, k requires 0 <= k < |spans| => s[spans[k].start..spans[k].end])
  }

  /**
   * The first capture of `open(.*?)close` in `m` at or after `from`: the text between the
   * first `open` that has a `close` later on its line and the first such `close`.
   */
  function FirstGroup(m: string, open: string, close: string, from: nat): (r: Option<string>)
    requires from <= |m|
    requires OnOneLine(open) && close != []
    decreases |m| - from
    ensures r.Some? ==> OnOneLine(r.value) && !Contains(r.value, close)
  {
    var found :=
      if OccursAt(m, open, from) then IndexOf(m[..LineEnd(m, from)], close, from + |open|) else None;
    match found
    case Some(c) =>
      var g := m[from + |open|..c];
      GroupHasNoClose(m, m[..LineEnd(m, from)], close, from + |open|, c);
      Some(g)
    case None => if from == |m| then None else FirstGroup(m, open, close, from + 1)
  }

  /** The text from `b` up to the first `close` at or after `b` holds no `close`. */
  lemma GroupHasNoClose(m: string, line: string, close: string, b: nat, c: nat)
    requires |line| <= |m| && line == m[..|line|]
    requires b <= c && OccursAt(line, close, c) && close != []
    requires forall k :: b <= k < c ==> !OccursAt(line, close, k)
    ensures !Contains(m[b..c], close)
  {
    var g := m[b..c];
    forall k | 0 <= k ensures !OccursAt(g, close, k) {
      if k + |close| <= |g| {
        var j := b + k;
        var gs, ls := g[k..k + |close|], line[j..j + |close|];
        forall t | 0 <= t < |close| ensures gs[t] == ls[t] {
          assert gs[t] == g[k + t] == m[j + t] == line[j + t];
        }
        assert gs == ls;
        assert !OccursAt(line, close, j);
      }
    }
  }

  /** `open` occurs at `j` and its line holds `close` somewhere after it. */
  ghost predicate GroupAt(m: string, open: string, close: string, j: nat) {
    j <= |m| && OccursAt(m, open, j) &&
    exists c :: j + |open| <= c && OccursAt(m[..LineEnd(m, j)], close, c)
  }

  /** A group is captured exactly when some `open` at or after `from` is followed on its line by `close`. */
  lemma {:induction false} FirstGroupFound(m: string, open: string, close: string, from: nat)
    requires from <= |m|
    requires OnOneLine(open) && close != []
    ensures FirstGroup(m, open, close, from).Some? <==> exists j :: from <= j <= |m| && GroupAt(m, open, close, j)
    decreases |m| - from
  {
    GroupAtSearch(m, open, close, from);
    FirstGroupStep(m, open, close, from);
    if from < |m| {
      FirstGroupFound(m, open, close, from + 1);
      assert forall j :: from <= j <= |m| && GroupAt(m, open, close, j) ==> j == from || from + 1 <= j;
    }
  }

  /** `GroupAt` holds exactly when the search for `close` on the line after `open` succeeds. */
  lemma GroupAtSearch(m: string, open: string, close: string, j: nat)
    requires j <= |m|
    ensures GroupAt(m, open, close, j) <==>
              OccursAt(m, open, j) && IndexOf(m[..LineEnd(m, j)], close, j + |open|).Some?
  {
  }

  /** One step of the capture search: a group at `from`, or else the search from `from + 1`. */
  lemma FirstGroupStep(m: string, open: string, close: string, from: nat)
    requires from <= |m|
    requires OnOneLine(open) && close != []
    ensures FirstGroup(m, open, close, from).Some? <==>
              (OccursAt(m, open, from) && IndexOf(m[..LineEnd(m, from)], close, from + |open|).Some?) ||
              (from < |m| && FirstGroup(m, open, close, from + 1).Some?)
  {
  }

  /** The image url: the text inside the first parenthesised pair of the match, if any. */
  function ImageUrl(m: string): Option<string> {
    FirstGroup(m, "(", ")", 0)
  }

  /** The iframe source: the text between the first `src="` and the next `"`, if any. */
  function IframeSrc(m: string): Option<string> {
    FirstGroup(m, "src=\"", "\"", 0)
  }

  const VideoHost: string := "ipfs.skatehive.app"

  /** What one image match contributes: an entry when its first parenthesised text is non-empty. */
  function ImageEntry(m: string): (r: seq<Media>)
    ensures |r| <= 1
    ensures forall e :: e in r ==> e.kind == Image && e.url != "" && ImageUrl(m) == Some(e.url)
  {
    match ImageUrl(m)
    case Some(url) => if url != "" then [Media(Image, url)] else []
    case None => []
  }

  /** What one iframe match contributes: an entry when its `src` names the IPFS video host. */
  function VideoEntry(m: string): (r: seq<Media>)
    ensures |r| <= 1
    ensures forall e :: e in r ==> e.kind == Video && e.url != "" && IframeSrc(m) == Some(e.url) && Contains(e.url, VideoHost)
  {
    match IframeSrc(m)
    case Some(url) => if url != "" && Contains(url, VideoHost) then [Media(Video, url)] else []
    case None => []
  }

  /** What one match of `p` contributes to the media list. */
  function EntryOf(p: Pattern, m: string): (r: seq<Media>)
    ensures |r| <= 1
    ensures forall e :: e in r ==> e.url != ""
    ensures forall e :: e in r ==> e.kind == (if p == ImagePattern then Image else Video)
  {
    match p
    case ImagePattern => ImageEntry(m)
    case IframePattern => VideoEntry(m)
  }

  /** The entries of a list of matches, in order: the spec of a `forEach` that pushes. */
  function EntriesOf(p: Pattern, ms: seq<string>): (r: seq<Media>)
    ensures |r| <= |ms|
    ensures forall e :: e in r ==> e.url != ""
    ensures forall e :: e in r ==> e.kind == (if p == ImagePattern then Image else Video)
  {
    if ms == [] then [] else EntriesOf(p, ms[..|ms| - 1]) + EntryOf(p, ms[|ms| - 1])
  }

  /** Taking one more match appends that match's entry. */
  lemma EntriesOfSnoc(p: Pattern, ms: seq<string>, k: nat)
    requires k < |ms|
    ensures EntriesOf(p, ms[..k + 1]) == EntriesOf(p, ms[..k]) + EntryOf(p, ms[k])
  {
    assert ms[..k + 1][..k] == ms[..k];
  }

  /** An image match contributes its link target exactly when that target is non-empty. */
  lemma ImageEntryUnfolds(m: string)
    ensures var url := ImageUrl(m);
            EntryOf(ImagePattern, m) == if url.Some? && url.value != "" then [Media(Image, url.value)] else []
  {
  }

  /** An iframe match contributes its `src` exactly when that is non-empty and on the video host. */
  lemma VideoEntryUnfolds(m: string)
    ensures var url := IframeSrc(m);
            EntryOf(IframePattern, m) == if url.Some? && url.value != "" && Contains(url.value, VideoHost) then [Media(Video, url.value)] else []
  {
  }

  /** What extractMediaFromBody returns: every image, in body order, then every video. */
  function MediaOf(body: string): (r: seq<Media>)
    ensures |r| <= |Matches(ImagePattern, body)| + |Matches(IframePattern, body)|
    ensures forall e :: e in r ==> e.url != ""
  {
    EntriesOf(ImagePattern, Matches(ImagePattern, body)) + EntriesOf(IframePattern, Matches(IframePattern, body))
  }

  /** One step of the image pass: pushes the match's link target when it is non-empty. */
  method PushImage(media: seq<Media>, m: string) returns (r: seq<Media>)
    ensures r == media + EntryOf(ImagePattern, m)
  {
    r := media;
    var url := ImageUrl(m);
    ImageEntryUnfolds(m);
    if url.Some? && url.value != "" {
      r := r + [Media(Image, url.value)];
    }
  }

  /** One step of the iframe pass: pushes the match's `src` when it is non-empty and on the video host. */
  method PushVideo(media: seq<Media>, m: string) returns (r: seq<Media>)
    ensures r == media + EntryOf(IframePattern, m)
  {
    r := media;
    var url := IframeSrc(m);
    VideoEntryUnfolds(m);
    if url.Some? && url.value != "" && Contains(url.value, VideoHost) {
      r := r + [Media(Video, url.value)];
    }
  }

  /** The image pass of `extractMediaFromBody`: pushes each match's non-empty link target onto `media`. */
  method PushImages(media: seq<Media>, matches: seq<string>) returns (r: seq<Media>)
    ensures r == media + EntriesOf(ImagePattern, matches)
  {
    r := media;
    assert matches[..0] == [];
    for k := 0 to |matches|
      invariant r == media + EntriesOf(ImagePattern, matches[..k])
    {
      EntriesOfSnoc(ImagePattern, matches, k);
      r := PushImage(r, matches[k]);
    }
    assert matches[..|matches|] == matches;
  }

  /** The iframe pass of `extractMediaFromBody`: pushes each `src` on the video host onto `media`. */
  method PushVideos(media: seq<Media>, matches: seq<string>) returns (r: seq<Media>)
    ensures r == media + EntriesOf(IframePattern, matches)
  {
    r := media;
    assert matches[..0] == [];
    for k := 0 to |matches|
      invariant r == media + EntriesOf(IframePattern, matches[..k])
    {
      EntriesOfSnoc(IframePattern, matches, k);
      r := PushVideo(r, matches[k]);
    }
    assert matches[..|matches|] == matches;
  }

  /** The entries of two runs of matches are the entries of the first, then those of the second. */
  lemma {:induction false} EntriesAppend(p: Pattern, a: seq<string>, b: seq<string>)
    ensures EntriesOf(p, a + b) == EntriesOf(p, a) + EntriesOf(p, b)
    decreases |b|
  {
    if b == [] {
      assert a + b == a;
    } else {
      var ab, b', last := a + b, b[..|b| - 1], b[|b| - 1];
      assert ab[..|ab| - 1] == a + b';
      assert ab[|ab| - 1] == last;
      EntriesLast(p, ab);
      EntriesLast(p, b);
      EntriesAppend(p, a, b');
      Associate(EntriesOf(p, a), EntriesOf(p, b'), EntryOf(p, last));
    }
  }

  /** The entries of a non-empty list of matches end with its last match's entry. */
  lemma EntriesLast(p: Pattern, ms: seq<string>)
    requires ms != []
    ensures EntriesOf(p, ms) == EntriesOf(p, ms[..|ms| - 1]) + EntryOf(p, ms[|ms| - 1])
  {
  }

  /** Concatenation regrouped to the right. */
  lemma Associate(x: seq<Media>, y: seq<Media>, z: seq<Media>)
    ensures x + y + z == x + (y + z)
  {
  }

  /** The entry of match `k` comes after the entries of the matches before it and before those after it. */
  lemma EntriesSplit(p: Pattern, ms: seq<string>, k: nat)
    requires k < |ms|
    ensures EntriesOf(p, ms) == EntriesOf(p, ms[..k]) + EntryOf(p, ms[k]) + EntriesOf(p, ms[k + 1..])
  {
    assert ms == ms[..k + 1] + ms[k + 1..];
    EntriesAppend(p, ms[..k + 1], ms[k + 1..]);
    EntriesOfSnoc(p, ms, k);
  }

  /**
   * Every image match whose first parenthesised text `u` is non-empty puts `u` into the
   * media list, after the entries of the image matches before it and before those after it.
   */
  lemma ImageSpanInMedia(body: string, k: nat, u: string)
    requires k < |Spans(ImagePattern, body, 0)|
    requires var sp := Spans(ImagePattern, body, 0)[k]; ImageUrl(body[sp.start..sp.end]) == Some(u)
    requires u != ""
    ensures var ms := Matches(ImagePattern, body);
            MediaOf(body) == EntriesOf(ImagePattern, ms[..k]) + [Media(Image, u)] + EntriesOf(ImagePattern, ms[k + 1..]) +
                             EntriesOf(IframePattern, Matches(IframePattern, body))
    ensures Media(Image, u) in MediaOf(body)
  {
    var ms := Matches(ImagePattern, body);
    var sp := Spans(ImagePattern, body, 0)[k];
    assert ms[k] == body[sp.start..sp.end];
    EntriesSplit(ImagePattern, ms, k);
    ImageEntryUnfolds(ms[k]);
    var before := EntriesOf(ImagePattern, ms[..k]);
    assert MediaOf(body)[|before|] == Media(Image, u);
  }

  /**
   * Every iframe match whose `src` `u` is non-empty and names the IPFS video host puts `u`
   * into the media list, after every image entry and the entries of the iframe matches
   * before it, and before those after it.
   */
  lemma VideoSpanInMedia(body: string, k: nat, u: string)
    requires k < |Spans(IframePattern, body, 0)|
    requires var sp := Spans(IframePattern, body, 0)[k]; IframeSrc(body[sp.start..sp.end]) == Some(u)
    requires u != "" && Contains(u, VideoHost)
    ensures var ms := Matches(IframePattern, body);
            MediaOf(body) == EntriesOf(ImagePattern, Matches(ImagePattern, body)) +
                             EntriesOf(IframePattern, ms[..k]) + [Media(Video, u)] + EntriesOf(IframePattern, ms[k + 1..])
    ensures Media(Video, u) in MediaOf(body)
  {
    var ms := Matches(IframePattern, body);
    var sp := Spans(IframePattern, body, 0)[k];
    assert ms[k] == body[sp.start..sp.end];
    EntriesSplit(IframePattern, ms, k);
    VideoEntryUnfolds(ms[k]);
    assert EntryOf(IframePattern, ms[k]) == [Media(Video, u)];
    InsertAfter(EntriesOf(ImagePattern, Matches(ImagePattern, body)), EntriesOf(IframePattern, ms[..k]),
                Media(Video, u), EntriesOf(IframePattern, ms[k + 1..]));
  }

  /** `a` in front of `b + [v] + c` is `a + b + [v] + c`, which holds `v`. */
  lemma InsertAfter(a: seq<Media>, b: seq<Media>, v: Media, c: seq<Media>)
    ensures a + (b + [v] + c) == a + b + [v] + c
    ensures v in a + b + [v] + c
  {
    assert (a + b + [v] + c)[|a + b|] == v;
  }

  /** `extractMediaFromBody`: two passes, both pushing onto one list. */
  method ExtractMediaFromBody(body: string) returns (media: seq<Media>)
    ensures media == MediaOf(body)
  {
    var images := EntriesOf(ImagePattern, Matches(ImagePattern, body));
    media := PushImages([], Matches(ImagePattern, body));
    assert media == images;
    media := PushVideos(media, Matches(IframePattern, body));
  }

  /** With no opener at or after `from`, a pattern has no match there. */
  lemma {:induction false} NoOpenerNoSpans(p: Pattern, s: string, from: nat)
    requires from <= |s|
    requires forall k :: from <= k ==> !OccursAt(s, Opener(p), k)
    ensures Spans(p, s, from) == []
    decreases |s| - from
  {
    if from < |s| {
      NoOpenerNoSpans(p, s, from + 1);
    }
  }

  /** A body with no `![` and no `<iframe` yields no media. */
  lemma NoMarkupNoMedia(body: string)
    requires !Contains(body, "![") && !Contains(body, "<iframe")
    ensures MediaOf(body) == []
  {
    NoOpenerNoSpans(ImagePattern, body, 0);
    NoOpenerNoSpans(IframePattern, body, 0);
  }

  /** Each entry comes from some match, and carries the kind of its pattern. */
  lemma {:induction false} EntriesFromMatches(p: Pattern, ms: seq<string>, e: Media)
    requires e in EntriesOf(p, ms)
    ensures exists k :: 0 <= k < |ms| && e in EntryOf(p, ms[k])
  {
    var init := ms[..|ms| - 1];
    if e in EntriesOf(p, init) {
      EntriesFromMatches(p, init, e);
      var k :| 0 <= k < |init| && e in EntryOf(p, init[k]);
      assert ms[k] == init[k];
    } else {
      assert e in EntryOf(p, ms[|ms| - 1]);
    }
  }

  /**
   * Every image entry's url is the non-empty first parenthesised text of a matched
   * `![..](..)` span of the body, and lies on one line without a `)`.
   */
  lemma ImageEntryFromSpan(body: string, e: Media)
    requires e in MediaOf(body) && e.kind == Image
    ensures e.url != "" && OnOneLine(e.url) && !Contains(e.url, ")")
    ensures exists sp :: sp in Spans(ImagePattern, body, 0)
              && MatchEnd(ImagePattern, body, sp.start) == Some(sp.end)
              && ImageUrl(body[sp.start..sp.end]) == Some(e.url)
  {
    var ms := Matches(ImagePattern, body);
    var spans := Spans(ImagePattern, body, 0);
    assert e in EntriesOf(ImagePattern, ms);
    EntriesFromMatches(ImagePattern, ms, e);
    var k :| 0 <= k < |ms| && e in EntryOf(ImagePattern, ms[k]);
    assert spans[k] in spans;
  }

  /** Every video entry's url is the `src` of a matched iframe and names the IPFS video host. */
  lemma VideoEntryFromSpan(body: string, e: Media)
    requires e in MediaOf(body) && e.kind == Video
    ensures Contains(e.url, VideoHost)
    ensures exists sp :: sp in Spans(IframePattern, body, 0)
              && MatchEnd(IframePattern, body, sp.start) == Some(sp.end)
              && IframeSrc(body[sp.start..sp.end]) == Some(e.url)
  {
    var ms := Matches(IframePattern, body);
    var spans := Spans(IframePattern, body, 0);
    assert e in EntriesOf(IframePattern, ms);
    EntriesFromMatches(IframePattern, ms, e);
    var k :| 0 <= k < |ms| && e in EntryOf(IframePattern, ms[k]);
    assert spans[k] in spans;
  }

  /** All images come before all videos. */
  lemma ImagesBeforeVideos(body: string)
    ensures var media := MediaOf(body);
      forall j, k :: 0 <= j < k < |media| && media[k].kind == Image ==> media[j].kind == Image
  {
    var images := EntriesOf(ImagePattern, Matches(ImagePattern, body));
    var videos := EntriesOf(IframePattern, Matches(IframePattern, body));
    var media := images + videos;
    forall i | |images| <= i < |media| ensures media[i].kind == Video {
      assert media[i] in videos;
    }
    forall i | 0 <= i < |images| ensures media[i].kind == Image {
      assert media[i] in images;
    }
  }

  // ---- validateUrl

  /** Characters the URL pattern admits after the scheme: anything but whitespace and the listed punctuation. */
  predicate IsUrlChar(c: char) {
    !IsWhitespace(c) && c !in "<>#%\",{}\\|^[]`"
  }

  predicate AllUrlChars(s: string) {
    forall k :: 0 <= k < |s| ==> IsUrlChar(s[k])
  }

  /** The strings the whole URL pattern accepts: `http://` or `https://`, then one or more URL characters. */
  predicate IsWebUrl(t: string): (b: bool)
    ensures b ==> IsTrimmed(t)
  {
    var http := |t| > 7 && t[..7] == "http://" && AllUrlChars(t[7..]);
    var https := |t| > 8 && t[..8] == "https://" && AllUrlChars(t[8..]);
    assert http ==> t[|t| - 1] == t[7..][|t| - 8];
    assert https ==> t[|t| - 1] == t[8..][|t| - 9];
    http || https
  }

  /** The pattern test as the engine runs it: the scheme, then one pass over the rest. */
  function UrlPatternTest(t: string): (b: bool)
    ensures b <==> IsWebUrl(t)
  {
    if |t| > 7 && t[..7] == "http://" then UrlTailOk(t, 7)
    else if |t| > 8 && t[..8] == "https://" then UrlTailOk(t, 8)
    else false
  }

  /** `t[i..]` is non-empty and consists of URL characters. */
  function UrlTailOk(t: string, i: nat): (b: bool)
    requires i <= |t|
    decreases |t| - i
    ensures b <==> i < |t| && AllUrlChars(t[i..])
  {
    if i == |t| then false
    else if !IsUrlChar(t[i]) then false
    else if i + 1 == |t| then true
    else (assert t[i..][1..] == t[i + 1..]; UrlTailOk(t, i + 1))
  }

  datatype UrlMeta = UrlMeta(isUrl: bool, sanitizedUrl: string)

  /** `validateUrl`: trims, then tests the trimmed text against the URL pattern. */
  function ValidateUrl(url: string): (r: UrlMeta)
    ensures r.sanitizedUrl == Trim(url)
    ensures r.isUrl <==> IsWebUrl(Trim(url))
  {
    var trimmed := Trim(url);
    UrlMeta(UrlPatternTest(trimmed), trimmed)
  }

  /** Validating the sanitized url again gives the same answer. */
  lemma ValidateUrlIdempotent(url: string)
    ensures ValidateUrl(ValidateUrl(url).sanitizedUrl) == ValidateUrl(url)
  {
    TrimIdempotent(url);
  }

  /** A text the pattern accepts has no whitespace, so trimming it changes nothing. */
  lemma WebUrlIsTrimmed(t: string)
    requires IsWebUrl(t)
    ensures ValidateUrl(t) == UrlMeta(true, t)
  {
    TrimOfTrimmed(t);
  }

  // ---- isKnownDomain

  const KnownDomains: seq<string> := ["skatehive.app", "peakd.com", "hive.blog"]

  /** Some entry of `domains` occurs in `domain` (the array's `some` over `includes`). */
  function SomeContained(domain: string, domains: seq<string>): (b: bool)
    ensures b <==> exists k :: 0 <= k < |domains| && Contains(domain, domains[k])
  {
    if domains == [] then false
    else Contains(domain, domains[0]) || SomeContained(domain, domains[1..])
  }

  /** The host with its first `www.` removed. */
  function StripWww(host: string): (r: string)
    ensures (forall k :: !OccursAt(host, "www.", k)) ==> r == host
    ensures forall k :: IsFirstOccurrence(host, "www.", k) ==> r == host[..k] + host[k + 4..]
  {
    ReplaceFirst(host, "www.", "")
  }

  /** `isKnownDomain`: the host, less its first `www.`, contains a known domain; false when the URL does not parse. */
  function IsKnownDomain(url: string): (b: bool)
    ensures UrlHost.Hostname(url).None? ==> !b
    ensures b <==> UrlHost.Hostname(url).Some? &&
                   var d := StripWww(UrlHost.Hostname(url).value);
                   Contains(d, "skatehive.app") || Contains(d, "peakd.com") || Contains(d, "hive.blog")
  {
    match UrlHost.Hostname(url)
    case None => false
    case Some(host) =>
      var d := StripWww(host);
      assert SomeContained(d, KnownDomains) <==>
             Contains(d, KnownDomains[0]) || Contains(d, KnownDomains[1]) || Contains(d, KnownDomains[2]);
      SomeContained(d, KnownDomains)
  }
}
