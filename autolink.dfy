/** `autoLinkUrls` of `src/components/markdown.tsx`: a global replace that turns every
    bare `http://` or `https://` address into the markdown link `[url](url)`. The text is
    cut into pieces the way the global regular expression scans it, left to right: at
    each position either a match starts, and the scan resumes after it, or the character
    is copied and the scan moves on by one. */
module AutoLink {
  import opened Text

  /** `[^\s\)<>]`: the characters a bare address runs over. */
  predicate UrlChar(c: char) {
    !IsSpace(c) && c != ')' && c != '<' && c != '>'
  }

  /** `http://` at `p`, character by character. */
  predicate HttpAt(s: string, p: nat) {
    p + 7 <= |s| && s[p] == 'h' && s[p + 1] == 't' && s[p + 2] == 't' && s[p + 3] == 'p'
    && s[p + 4] == ':' && s[p + 5] == '/' && s[p + 6] == '/'
  }

  /** `https://` at `p`, character by character. */
  predicate HttpsAt(s: string, p: nat) {
    p + 8 <= |s| && s[p] == 'h' && s[p + 1] == 't' && s[p + 2] == 't' && s[p + 3] == 'p'
    && s[p + 4] == 's' && s[p + 5] == ':' && s[p + 6] == '/' && s[p + 7] == '/'
  }

  lemma SchemeAt(s: string, p: nat)
    ensures HttpAt(s, p) <==> At(s, "http://", p)
    ensures HttpsAt(s, p) <==> At(s, "https://", p)
  {
    if p + 7 <= |s| {
      var w := s[p..p + 7];
      assert w[0] == s[p] && w[1] == s[p + 1] && w[2] == s[p + 2] && w[3] == s[p + 3];
      assert w[4] == s[p + 4] && w[5] == s[p + 5] && w[6] == s[p + 6];
    }
    if p + 8 <= |s| {
      var w := s[p..p + 8];
      assert w[0] == s[p] && w[1] == s[p + 1] && w[2] == s[p + 2] && w[3] == s[p + 3];
      assert w[4] == s[p + 4] && w[5] == s[p + 5] && w[6] == s[p + 6] && w[7] == s[p + 7];
    }
  }

  /** Where `https?:\/\/` ends when it matches at `p`. */
  function SchemeEnd(s: string, p: nat): (r: Option<nat>)
    ensures r.Some? <==> HttpAt(s, p) || HttpsAt(s, p)
    ensures r.Some? ==> p + 7 <= r.value <= p + 8 && r.value <= |s|
  {
    if HttpAt(s, p) then Some(p + 7)
    else if HttpsAt(s, p) then Some(p + 8)
    else None
  }

  /** The end of the run of address characters from `i` (the greedy `+`). */
  function UrlRun(s: string, i: nat): (j: nat)
    requires i <= |s|
    ensures i <= j <= |s|
    decreases |s| - i
  {
    if i < |s| && UrlChar(s[i]) then UrlRun(s, i + 1) else i
  }

  /** The run holds address characters only and stops at the first other character. */
  lemma {:induction false} UrlRunSpan(s: string, i: nat)
    requires i <= |s|
    ensures forall k :: i <= k < UrlRun(s, i) ==> UrlChar(s[k])
    ensures UrlRun(s, i) < |s| ==> !UrlChar(s[UrlRun(s, i)])
    decreases |s| - i
  {
    if i < |s| && UrlChar(s[i]) {
      UrlRunSpan(s, i + 1);
    }
  }

  /** The end of the match of the regular expression at `p`, if one starts there: the
      lookbehind `(?<!\()` refuses a position right after `(` (and so also one right
      after `](`); then the scheme and at least one address character. */
  function MatchAt(s: string, p: nat): (r: Option<nat>)
    ensures r.Some? ==> p < r.value <= |s|
  {
    if p > 0 && p <= |s| && s[p - 1] == '(' then None
    else
      match SchemeEnd(s, p)
      case None => None
      case Some(q) =>
        var e := UrlRun(s, q);
        if e > q then Some(e) else None
  }

  /** A piece of the scanned text: a character copied as it is, or a matched address. */
  datatype Piece = Plain(c: char) | Link(url: string)

  /** The pieces the scan cuts `s[p..]` into. */
  function Pieces(s: string, p: nat): seq<Piece>
    requires p <= |s|
    decreases |s| - p
  {
    if p == |s| then []
    else
      match MatchAt(s, p)
      case Some(e) => [Link(s[p..e])] + Pieces(s, e)
      case None => [Plain(s[p])] + Pieces(s, p + 1)
  }

  /** The text a piece was cut from. */
  function Source(x: Piece): string {
    match x
    case Plain(c) => [c]
    case Link(url) => url
  }

  /** The text a piece is replaced by: the callback `url => [url](url)`. */
  function Target(x: Piece): string {
    match x
    case Plain(c) => [c]
    case Link(url) => "[" + url + "](" + url + ")"
  }

  function Raw(ps: seq<Piece>): string {
    if ps == [] then [] else Source(ps[0]) + Raw(ps[1..])
  }

  function Render(ps: seq<Piece>): string {
    if ps == [] then [] else Target(ps[0]) + Render(ps[1..])
  }

  /** `text.replace(/(?<!\]\()(?<!\()(https?:\/\/[^\s\)<>]+)/g, url => `[${url}](${url})`)` */
  function AutoLinkUrls(text: string): string {
    Render(Pieces(text, 0))
  }

  // ---------------------------------------------------------------------------
  // Properties

  /** The pieces cover the text exactly, in order: nothing outside a match is lost,
      reordered or duplicated. */
  lemma PiecesCover(s: string)
    ensures Raw(Pieces(s, 0)) == s
  {
    PiecesScan(s, 0);
    ScanCovers(s, 0, Pieces(s, 0));
  }

  /** Any scan covers the rest of the text exactly. */
  lemma {:induction false} ScanCovers(s: string, p: nat, ps: seq<Piece>)
    requires ScanOf(s, p, ps)
    ensures p <= |s| && Raw(ps) == s[p..]
    decreases ps
  {
    if ps != [] {
      var next := ScanRest(s, p, ps);
      ScanCovers(s, next, ps[1..]);
      assert Raw(ps) == Source(ps[0]) + Raw(ps[1..]);
      assert s[p..] == s[p..next] + s[next..];
    }
  }

  /** The lookbehind `(?<!\()` holds at `i`. */
  predicate NotAfterParen(s: string, i: nat) {
    i == 0 || (i <= |s| && s[i - 1] != '(')
  }

  /** Where the scheme that starts at `i` ends. */
  function SchemeStop(s: string, i: nat): nat {
    if HttpAt(s, i) then i + 7 else i + 8
  }

  /** The regular expression matches `s[i..e]`, defined without the scan: the
      lookbehind holds, a scheme starts at `i`, address characters follow up to `e`, at
      least one, and the character at `e` (if any) is not one. */
  predicate MatchesAt(s: string, i: nat, e: nat) {
    && NotAfterParen(s, i)
    && (HttpAt(s, i) || HttpsAt(s, i))
    && SchemeStop(s, i) < e <= |s|
    && (forall k :: SchemeStop(s, i) <= k < e ==> UrlChar(s[k]))
    && (e < |s| ==> !UrlChar(s[e]))
  }

  /** Some match starts at `i`. */
  predicate Startable(s: string, i: nat) {
    && NotAfterParen(s, i)
    && (HttpAt(s, i) || HttpsAt(s, i))
    && SchemeStop(s, i) < |s| && UrlChar(s[SchemeStop(s, i)])
  }

  /** `MatchAt` finds exactly the matches `MatchesAt` describes. */
  lemma MatchAtSpec(s: string, i: nat)
    ensures MatchAt(s, i).None? <==> !Startable(s, i)
    ensures MatchAt(s, i).Some? ==> MatchesAt(s, i, MatchAt(s, i).value)
  {
    if HttpAt(s, i) || HttpsAt(s, i) {
      UrlRunSpan(s, SchemeStop(s, i));
    }
  }

  /** At a position there is at most one match. */
  lemma MatchUnique(s: string, i: nat, e1: nat, e2: nat)
    requires MatchesAt(s, i, e1) && MatchesAt(s, i, e2)
    ensures e1 == e2
  { }

  /** A piece at position `i` of `s` is what the regular expression finds there: a
      copied character where no match starts, or the whole match. */
  predicate Scanned(s: string, i: nat, x: Piece) {
    match x
    case Plain(c) => i < |s| && s[i] == c && !Startable(s, i)
    case Link(url) => MatchesAt(s, i, i + |url|) && s[i..i + |url|] == url
  }

  /** `ps` is a scan of `s` from `p`: each piece is the finding where the text before it
      ends, and together they reach the end of `s`. */
  predicate ScanOf(s: string, p: nat, ps: seq<Piece>)
    decreases ps
  {
    if ps == [] then p == |s|
    else Scanned(s, p, ps[0]) && ScanOf(s, p + |Source(ps[0])|, ps[1..])
  }

  /** The pieces are a scan: matches are found left to right, never overlap, and no
      position where a match starts is copied as a character. */
  lemma {:induction false} PiecesScan(s: string, p: nat)
    requires p <= |s|
    ensures ScanOf(s, p, Pieces(s, p))
    decreases |s| - p
  {
    if p < |s| {
      var next := ScanHead(s, p);
      PiecesScan(s, next);
      ScanCons(s, p, Pieces(s, p), next);
    }
  }

  /** There is no other scan: the pieces are determined by the text. */
  lemma {:induction false} ScanUnique(s: string, p: nat, ps: seq<Piece>, qs: seq<Piece>)
    requires ScanOf(s, p, ps) && ScanOf(s, p, qs)
    ensures ps == qs
    decreases ps
  {
    if ps != [] && qs != [] {
      var next := ScanRest(s, p, ps);
      var next' := ScanRest(s, p, qs);
      SameFinding(s, p, ps[0], qs[0]);
      assert next' == next;
      ScanUnique(s, next, ps[1..], qs[1..]);
      assert ps == [ps[0]] + ps[1..] && qs == [qs[0]] + qs[1..];
    }
  }

  lemma ScanRest(s: string, p: nat, ps: seq<Piece>) returns (next: nat)
    requires ps != [] && ScanOf(s, p, ps)
    ensures next == p + |Source(ps[0])| && next <= |s| && Source(ps[0]) == s[p..next]
    ensures Scanned(s, p, ps[0]) && ScanOf(s, next, ps[1..])
  {
    next := p + |Source(ps[0])|;
    if ps[0].Plain? {
      assert s[p..p + 1] == [s[p]];
    }
  }

  lemma ScanCons(s: string, p: nat, ps: seq<Piece>, next: nat)
    requires ps != [] && Scanned(s, p, ps[0]) && next == p + |Source(ps[0])|
    requires ScanOf(s, next, ps[1..])
    ensures ScanOf(s, p, ps)
  {
    assert ScanOf(s, p, ps) == (Scanned(s, p, ps[0]) && ScanOf(s, next, ps[1..]));
  }

  lemma SameFinding(s: string, p: nat, x: Piece, y: Piece)
    requires Scanned(s, p, x) && Scanned(s, p, y)
    ensures x == y
  {
    if x.Link? && y.Link? {
      MatchUnique(s, p, p + |x.url|, p + |y.url|);
    }
  }

  /** The first piece is the finding at `p`, and the rest scan on from its end. */
  lemma ScanHead(s: string, p: nat) returns (next: nat)
    requires p < |s|
    ensures |Pieces(s, p)| > 0 && next == p + |Source(Pieces(s, p)[0])| && next <= |s|
    ensures Scanned(s, p, Pieces(s, p)[0])
    ensures Pieces(s, p)[1..] == Pieces(s, next)
  {
    MatchAtSpec(s, p);
    match MatchAt(s, p)
    case Some(e) => next := e;
    case None => next := p + 1;
  }

  /** Every match is a well-formed address: the scheme, then address characters only,
      at least one of them. */
  predicate WellFormed(url: string) {
    (StartsWith(url, "http://") && |url| > 7 && forall k :: 7 <= k < |url| ==> UrlChar(url[k]))
    || (StartsWith(url, "https://") && |url| > 8 && forall k :: 8 <= k < |url| ==> UrlChar(url[k]))
  }

  lemma MatchWellFormed(s: string, p: nat)
    requires MatchAt(s, p).Some?
    ensures WellFormed(s[p..MatchAt(s, p).value])
    ensures MatchAt(s, p).value < |s| ==> !UrlChar(s[MatchAt(s, p).value])
  {
    var e := MatchAt(s, p).value;
    var u := s[p..e];
    UrlRunSpan(s, SchemeEnd(s, p).value);
    SchemeAt(s, p);
    if HttpAt(s, p) {
      assert u[..7] == s[p..p + 7];
    } else {
      assert u[..8] == s[p..p + 8];
    }
  }

  /** Each link is a well-formed address, the piece after it is a character that ends an
      address (so the match is maximal), and the piece before it is not `(`. */
  lemma {:induction false} LinksMaximal(s: string, p: nat)
    requires p <= |s|
    ensures forall k :: 0 <= k < |Pieces(s, p)| && Pieces(s, p)[k].Link? ==> WellFormed(Pieces(s, p)[k].url)
    ensures forall k :: 0 <= k < |Pieces(s, p)| - 1 && Pieces(s, p)[k].Link? ==>
              Pieces(s, p)[k + 1].Plain? && !UrlChar(Pieces(s, p)[k + 1].c)
    ensures forall k :: 0 < k < |Pieces(s, p)| && Pieces(s, p)[k].Link? ==> Pieces(s, p)[k - 1] != Plain('(')
    decreases |s| - p
  {
    if p < |s| {
      var ps := Pieces(s, p);
      match MatchAt(s, p)
      case Some(e) =>
        MatchWellFormed(s, p);
        LinksMaximal(s, e);
        if e < |s| {
          NoSchemeAt(s, e);
        }
      case None =>
        LinksMaximal(s, p + 1);
        if p + 1 < |s| && s[p] == '(' {
          assert MatchAt(s, p + 1).None?;
        }
    }
  }

  /** No address starts at a character that ends an address. */
  lemma NoSchemeAt(s: string, e: nat)
    requires e < |s| && !UrlChar(s[e])
    ensures MatchAt(s, e).None?
  { }

  /** Where no match starts anywhere, every piece is a copied character. */
  lemma {:induction false} NoMatchAllPlain(s: string, p: nat)
    requires p <= |s|
    requires forall i :: p <= i < |s| ==> MatchAt(s, i).None?
    ensures Render(Pieces(s, p)) == s[p..]
    decreases |s| - p
  {
    if p < |s| {
      assert MatchAt(s, p).None?;
      NoMatchAllPlain(s, p + 1);
      assert s[p..] == [s[p]] + s[p + 1..];
    }
  }

  /** Text without `http://` and `https://` is returned unchanged. */
  lemma NoAddressUnchanged(text: string)
    requires !Contains(text, "http://") && !Contains(text, "https://")
    ensures AutoLinkUrls(text) == text
  {
    forall i | 0 <= i < |text| ensures MatchAt(text, i).None? {
      assert !At(text, "http://", i) && !At(text, "https://", i);
      SchemeAt(text, i);
    }
    NoMatchAllPlain(text, 0);
  }
}
