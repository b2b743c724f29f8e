/** String helpers shared by every module: JavaScript's character classes, ASCII
    case folding, substring search, `trim`, `split`/`join` with a string
    separator, and decimal rendering of integers. Strings are `seq<char>`. */
module Text {

  datatype Option<T> = None | Some(value: T)

  /** JavaScript's `\s` class: WhiteSpace and LineTerminator. `String.prototype.trim`
      removes exactly these characters. */
  predicate IsSpace(c: char) {
    c == ' ' || c == '\t' || c == '\n' || c == '\r' || c == '\U{000B}' || c == '\U{000C}'
    || c == '\U{00A0}' || c == '\U{1680}' || ('\U{2000}' <= c <= '\U{200A}')
    || c == '\U{2028}' || c == '\U{2029}' || c == '\U{202F}' || c == '\U{205F}'
    || c == '\U{3000}' || c == '\U{FEFF}'
  }

  /** The characters that a regular-expression `.` does not match. */
  predicate IsLineTerminator(c: char) {
    c == '\n' || c == '\r' || c == '\U{2028}' || c == '\U{2029}'
  }

  predicate IsDigit(c: char) { '0' <= c <= '9' }

  predicate IsLetter(c: char) { 'a' <= c <= 'z' || 'A' <= c <= 'Z' }

  /** The class `\w`, which also decides where `\b` stands. */
  predicate IsWordChar(c: char) { IsLetter(c) || IsDigit(c) || c == '_' }

  /** ASCII case folding, as the `i` flag of a regular expression without `u` applies it. */
  function Lower(c: char): char {
    if 'A' <= c <= 'Z' then (c as int + 32) as char else c
  }

  predicate AllSpace(s: string) { forall i :: 0 <= i < |s| ==> IsSpace(s[i]) }

  predicate NoLineTerminator(s: string) { forall i :: 0 <= i < |s| ==> !IsLineTerminator(s[i]) }

  predicate NoChar(s: string, c: char) { forall i :: 0 <= i < |s| ==> s[i] != c }

  predicate AllDigits(s: string) { forall i :: 0 <= i < |s| ==> IsDigit(s[i]) }

  // ---------------------------------------------------------------------------
  // Substring tests

  /** `k` occurs in `s` at index `i`. */
  predicate At(s: string, k: string, i: int) {
    0 <= i && i + |k| <= |s| && s[i..i + |k|] == k
  }

  predicate Contains(s: string, k: string) {
    exists i | 0 <= i <= |s| - |k| :: At(s, k, i)
  }

  /** `k` occurs in `s` at index `i`, ignoring ASCII case. */
  predicate AtCI(s: string, k: string, i: int) {
    0 <= i && i + |k| <= |s| && forall j :: 0 <= j < |k| ==> Lower(s[i + j]) == Lower(k[j])
  }

  /** `RegExp(k, "i").test(s)` for a pattern `k` without metacharacters. */
  predicate ContainsCI(s: string, k: string) {
    exists i | 0 <= i <= |s| - |k| :: AtCI(s, k, i)
  }

  predicate StartsWith(s: string, k: string) { |k| <= |s| && s[..|k|] == k }

  /** The first occurrence of `k` in `s` at or after `from` (`indexOf`). */
  function FindFrom(s: string, k: string, from: nat): (r: Option<nat>)
    decreases |s| - from
    ensures r.Some? ==> from <= r.value && At(s, k, r.value)
    ensures r.Some? ==> forall j :: from <= j < r.value ==> !At(s, k, j)
    ensures r.None? ==> forall j :: from <= j ==> !At(s, k, j)
  {
    if from + |k| > |s| then None
    else if At(s, k, from) then Some(from)
    else FindFrom(s, k, from + 1)
  }

  /** The first occurrence of `k` in `s` at or after `from`, ignoring ASCII case. */
  function FindCIFrom(s: string, k: string, from: nat): (r: Option<nat>)
    decreases |s| - from
    ensures r.Some? ==> from <= r.value && AtCI(s, k, r.value)
    ensures r.Some? ==> forall j :: from <= j < r.value ==> !AtCI(s, k, j)
    ensures r.None? ==> forall j :: from <= j ==> !AtCI(s, k, j)
  {
    if from + |k| > |s| then None
    else if AtCI(s, k, from) then Some(from)
    else FindCIFrom(s, k, from + 1)
  }

  /** The first index at or after `from` holding `c` (`indexOf` for one character). */
  function CharFrom(s: string, c: char, from: nat): (r: Option<nat>)
    decreases |s| - from
    ensures r.Some? ==> from <= r.value < |s| && s[r.value] == c
    ensures r.Some? ==> forall j :: from <= j < r.value ==> s[j] != c
    ensures r.None? ==> forall j :: from <= j < |s| ==> s[j] != c
  {
    if from >= |s| then None
    else if s[from] == c then Some(from)
    else CharFrom(s, c, from + 1)
  }

  /** The least `k` in [from, bound) with `p(k)`: the leftmost place a pattern matches. */
  function FirstFrom(from: nat, bound: nat, p: nat -> bool): (r: Option<nat>)
    decreases bound - from
    ensures r.Some? ==> from <= r.value < bound && p(r.value)
    ensures r.Some? ==> forall k :: from <= k < r.value ==> !p(k)
    ensures r.None? ==> forall k :: from <= k < bound ==> !p(k)
  {
    if from >= bound then None
    else if p(from) then Some(from)
    else FirstFrom(from + 1, bound, p)
  }

  /** No occurrence of `k` in `s` if `s` lacks one of `k`'s characters (after folding). */
  lemma NotContainsByChar(s: string, k: string, j: nat)
    requires j < |k|
    requires forall i :: 0 <= i < |s| ==> Lower(s[i]) != Lower(k[j])
    ensures !ContainsCI(s, k)
  {
    forall i | 0 <= i <= |s| - |k| ensures !AtCI(s, k, i) {
      assert Lower(s[i + j]) != Lower(k[j]);
    }
  }

  /** No occurrence of `k` in `s` if `s` lacks two adjacent characters of `k`. */
  lemma NotContainsByPair(s: string, k: string, j: nat)
    requires j + 1 < |k|
    requires forall i :: 0 <= i < |s| - 1 ==> !(Lower(s[i]) == Lower(k[j]) && Lower(s[i + 1]) == Lower(k[j + 1]))
    ensures !ContainsCI(s, k)
  {
    forall i | 0 <= i <= |s| - |k| ensures !AtCI(s, k, i) {
      assert !(Lower(s[i + j]) == Lower(k[j]) && Lower(s[i + j + 1]) == Lower(k[j + 1]));
    }
  }

  /** A witness occurrence. */
  lemma ContainsCIAt(a: string, m: string, b: string, k: string)
    requires |m| == |k| && forall j :: 0 <= j < |k| ==> Lower(m[j]) == Lower(k[j])
    ensures ContainsCI(a + m + b, k)
  {
    var s := a + m + b;
    forall j | 0 <= j < |k| ensures Lower(s[|a| + j]) == Lower(k[j]) {
      assert s[|a| + j] == m[j];
    }
    assert AtCI(s, k, |a|);
  }

  /** An occurrence inside a piece is an occurrence in any text around that piece. */
  lemma ContainsCIWithin(a: string, m: string, b: string, k: string)
    requires ContainsCI(m, k)
    ensures ContainsCI(a + m + b, k)
  {
    var i :| 0 <= i <= |m| - |k| && AtCI(m, k, i);
    var s := a + m + b;
    forall j | 0 <= j < |k| ensures Lower(s[|a| + i + j]) == Lower(k[j]) {
      assert s[|a| + i + j] == m[i + j];
    }
    assert AtCI(s, k, |a| + i);
  }

  lemma NoCharAppend(a: string, b: string, c: char)
    requires NoChar(a, c) && NoChar(b, c)
    ensures NoChar(a + b, c)
  {
    forall i | 0 <= i < |a + b| ensures (a + b)[i] != c {
      if i < |a| { assert (a + b)[i] == a[i]; } else { assert (a + b)[i] == b[i - |a|]; }
    }
  }

  // ---------------------------------------------------------------------------
  // Scanning runs of characters

  /** The end of the run of `\s` characters that starts at `i`. */
  function SkipSpaces(s: string, i: nat): (j: nat)
    requires i <= |s|
    decreases |s| - i
    ensures i <= j <= |s|
    ensures forall k :: i <= k < j ==> IsSpace(s[k])
    ensures j < |s| ==> !IsSpace(s[j])
  {
    if i < |s| && IsSpace(s[i]) then SkipSpaces(s, i + 1) else i
  }

  /** The start of the run of `\s` characters that ends at `j`. */
  function BackSpaces(s: string, j: nat): (i: nat)
    requires j <= |s|
    ensures i <= j
    ensures forall k :: i <= k < j ==> IsSpace(s[k])
    ensures i > 0 ==> !IsSpace(s[i - 1])
  {
    if j > 0 && IsSpace(s[j - 1]) then BackSpaces(s, j - 1) else j
  }

  /** The end of the run of characters other than line terminators that starts at `i`. */
  function LineEnd(s: string, i: nat): (j: nat)
    requires i <= |s|
    decreases |s| - i
    ensures i <= j <= |s|
    ensures forall k :: i <= k < j ==> !IsLineTerminator(s[k])
    ensures j < |s| ==> IsLineTerminator(s[j])
  {
    if i < |s| && !IsLineTerminator(s[i]) then LineEnd(s, i + 1) else i
  }

  /** The end of the run of ASCII digits that starts at `i`. */
  function DigitsEnd(s: string, i: nat): (j: nat)
    requires i <= |s|
    decreases |s| - i
    ensures i <= j <= |s|
    ensures forall k :: i <= k < j ==> IsDigit(s[k])
    ensures j < |s| ==> !IsDigit(s[j])
  {
    if i < |s| && IsDigit(s[i]) then DigitsEnd(s, i + 1) else i
  }

  /** The number of copies of `c` that start `s` from index `i`. */
  function RunOf(s: string, c: char, i: nat): (j: nat)
    requires i <= |s|
    decreases |s| - i
    ensures i <= j <= |s|
    ensures forall k :: i <= k < j ==> s[k] == c
    ensures j < |s| ==> s[j] != c
  {
    if i < |s| && s[i] == c then RunOf(s, c, i + 1) else i
  }

  lemma {:induction false} LineEndFramed(s: string, i: nat, j: nat)
    requires i <= j <= |s| && (j < |s| ==> IsLineTerminator(s[j]))
    requires forall k :: i <= k < j ==> !IsLineTerminator(s[k])
    ensures LineEnd(s, i) == j
    decreases j - i
  {
    if i < j { LineEndFramed(s, i + 1, j); }
  }

  lemma {:induction false} RunOfFramed(s: string, c: char, i: nat, j: nat)
    requires i <= j <= |s| && (j < |s| ==> s[j] != c)
    requires forall k :: i <= k < j ==> s[k] == c
    ensures RunOf(s, c, i) == j
    decreases j - i
  {
    if i < j { RunOfFramed(s, c, i + 1, j); }
  }

  lemma {:induction false} DigitsEndFramed(s: string, i: nat, j: nat)
    requires i <= j <= |s| && (j < |s| ==> !IsDigit(s[j]))
    requires forall k :: i <= k < j ==> IsDigit(s[k])
    ensures DigitsEnd(s, i) == j
    decreases j - i
  {
    if i < j { DigitsEndFramed(s, i + 1, j); }
  }

  /** A run inside the second part of a concatenation is the run in that part, shifted. */
  lemma RunOfShift(p: string, q: string, c: char, j: nat)
    requires j <= |q|
    ensures RunOf(p + q, c, |p| + j) == |p| + RunOf(q, c, j)
  {
    var s := p + q;
    var e := RunOf(q, c, j);
    forall k | |p| + j <= k < |p| + e ensures s[k] == c {
      assert s[k] == q[k - |p|];
    }
    if e < |q| { assert s[|p| + e] == q[e]; }
    RunOfFramed(s, c, |p| + j, |p| + e);
  }

  // ---------------------------------------------------------------------------
  // trim

  /** `String.prototype.trim`. */
  function Trim(s: string): (r: string)
    ensures r == [] || (!IsSpace(r[0]) && !IsSpace(r[|r| - 1]))
    ensures |r| <= |s|
  {
    var a := SkipSpaces(s, 0);
    if a == |s| then
      []
    else
      var b := BackSpaces(s, |s|);
      assert b > a by { assert !IsSpace(s[a]); }
      s[a..b]
  }

  /** Where the trim starts: the trim is the slice of `s` from there. */
  lemma TrimIsSlice(s: string) returns (a: nat)
    ensures a + |Trim(s)| <= |s| && Trim(s) == s[a..a + |Trim(s)|]
    ensures AllSpace(s[..a]) && AllSpace(s[a + |Trim(s)|..])
  {
    a := SkipSpaces(s, 0);
    var b := if a == |s| then |s| else BackSpaces(s, |s|);
    if a < |s| {
      assert !IsSpace(s[a]);
    }
    assert Trim(s) == s[a..b];
    forall k | 0 <= k < a ensures IsSpace(s[..a][k]) { assert s[..a][k] == s[k]; }
    forall k | 0 <= k < |s| - b ensures IsSpace(s[b..][k]) { assert s[b..][k] == s[b + k]; }
  }

  /** A string without leading and trailing `\s` is its own trim. */
  lemma TrimOfTrimmed(s: string)
    requires s == [] || (!IsSpace(s[0]) && !IsSpace(s[|s| - 1]))
    ensures Trim(s) == s
  {
    if s != [] {
      assert SkipSpaces(s, 0) == 0;
      assert BackSpaces(s, |s|) == |s|;
    }
  }

  /** `trim` is idempotent. */
  lemma TrimIdempotent(s: string)
    ensures Trim(Trim(s)) == Trim(s)
  {
    TrimOfTrimmed(Trim(s));
  }

  /** Trimming a core framed by `\s` characters gives back the core. */
  lemma {:induction false} TrimFramed(pre: string, core: string, post: string)
    requires AllSpace(pre) && AllSpace(post)
    requires core == [] || (!IsSpace(core[0]) && !IsSpace(core[|core| - 1]))
    ensures Trim(pre + core + post) == core
  {
    var s := pre + core + post;
    if core == [] {
      assert forall k :: 0 <= k < |s| ==> IsSpace(s[k]) by {
        assert s == pre + post;
        forall k | 0 <= k < |s| ensures IsSpace(s[k]) {
          if k < |pre| { assert s[k] == pre[k]; } else { assert s[k] == post[k - |pre|]; }
        }
      }
      assert SkipSpaces(s, 0) == |s|;
    } else {
      SkipSpacesFramed(s, 0, |pre|);
      BackSpacesFramed(s, |s|, |pre| + |core|);
      assert s[|pre|..|pre| + |core|] == core;
    }
  }

  /** Leading `\s` characters do not change the trim. */
  lemma TrimDropSpaces(s: string, n: nat)
    requires n <= |s| && AllSpace(s[..n])
    ensures Trim(s) == Trim(s[n..])
  {
    var t := s[n..];
    var a := TrimIsSlice(t);
    TrimDropSpacesCore(s, n, a, Trim(t));
  }

  /** The trimmed core of a suffix, framed by `\s` runs, is the trim of the whole. */
  lemma TrimDropSpacesCore(s: string, n: nat, a: nat, r: string)
    requires n <= |s| && AllSpace(s[..n])
    requires 0 <= a <= |s[n..]| - |r| && r == s[n..][a..a + |r|] && AllSpace(s[n..][..a]) && AllSpace(s[n..][a + |r|..])
    requires r == [] || (!IsSpace(r[0]) && !IsSpace(r[|r| - 1]))
    ensures Trim(s) == r
  {
    var t := s[n..];
    var b := n + a;
    var e := b + |r|;
    assert AllSpace(s[..b]) by {
      PrefixSplit(s, n, b);
      assert s[n..b] == t[..a];
      AllSpaceAppend(s[..n], s[n..b]);
    }
    assert AllSpace(s[e..]) by {
      assert s[e..] == t[a + |r|..];
    }
    SliceChain(s, n, a, r);
    TrimWithin(s, b, e);
  }

  /** A trimmed middle framed by `\s` runs is the trim of the whole. */
  lemma TrimWithin(s: string, i: nat, j: nat)
    requires i <= j <= |s| && AllSpace(s[..i]) && AllSpace(s[j..])
    requires i == j || (!IsSpace(s[i]) && !IsSpace(s[j - 1]))
    ensures Trim(s) == s[i..j]
  {
    SplitThree(s, i, j);
    TrimFramed(s[..i], s[i..j], s[j..]);
  }

  lemma SliceChain<T>(s: seq<T>, n: nat, a: nat, r: seq<T>)
    requires n <= |s| && a + |r| <= |s| - n && r == s[n..][a..a + |r|]
    ensures r == s[n + a..n + a + |r|]
  { }

  lemma PrefixSplit<T>(s: seq<T>, n: nat, b: nat)
    requires n <= b <= |s|
    ensures s[..b] == s[..n] + s[n..b]
  { }

  lemma AllSpaceAppend(x: string, y: string)
    requires AllSpace(x) && AllSpace(y)
    ensures AllSpace(x + y)
  {
    forall k | 0 <= k < |x + y| ensures IsSpace((x + y)[k]) {
      if k < |x| { assert (x + y)[k] == x[k]; } else { assert (x + y)[k] == y[k - |x|]; }
    }
  }

  /** The piece before a separator, joined to pieces that join to the rest. */
  lemma JoinPieces(s: string, sep: string, i: nat, tail: seq<string>)
    requires i + |sep| <= |s| && s[i..i + |sep|] == sep && |tail| > 0 && Join(tail, sep) == s[i + |sep|..]
    ensures Join([s[..i]] + tail, sep) == s
  {
    JoinCons(s[..i], tail, sep);
    Rejoin(s, sep, i);
  }

  /** A sequence is the part before an occurrence of `k`, `k`, and the part after. */
  lemma Rejoin<T>(s: seq<T>, k: seq<T>, i: nat)
    requires i + |k| <= |s| && s[i..i + |k|] == k
    ensures s[..i] + k + s[i + |k|..] == s
  {
    SplitThree(s, i, i + |k|);
  }

  lemma SplitThree<T>(s: seq<T>, i: nat, j: nat)
    requires i <= j <= |s|
    ensures s == s[..i] + s[i..j] + s[j..]
  { }

  lemma {:induction false} SkipSpacesFramed(s: string, i: nat, j: nat)
    requires i <= j <= |s| && (j < |s| ==> !IsSpace(s[j]))
    requires forall k :: i <= k < j ==> IsSpace(s[k])
    ensures SkipSpaces(s, i) == j
    decreases j - i
  {
    if i < j { SkipSpacesFramed(s, i + 1, j); }
  }

  lemma {:induction false} BackSpacesFramed(s: string, j: nat, i: nat)
    requires 0 < i <= j <= |s| && !IsSpace(s[i - 1])
    requires forall k :: i <= k < j ==> IsSpace(s[k])
    ensures BackSpaces(s, j) == i
    decreases j - i
  {
    if i < j { BackSpacesFramed(s, j - 1, i); }
  }

  // ---------------------------------------------------------------------------
  // split and join with a string separator

  /** `s.split(sep)` for a non-empty separator string. */
  function Split(s: string, sep: string): (r: seq<string>)
    requires |sep| > 0
    decreases |s|
    ensures |r| >= 1
  {
    match FindFrom(s, sep, 0)
    case None => [s]
    case Some(i) => [s[..i]] + Split(s[i + |sep|..], sep)
  }

  /** No piece of a split contains the separator. */
  lemma {:induction false} SplitPiecesLackSeparator(s: string, sep: string)
    requires |sep| > 0
    ensures forall p :: p in Split(s, sep) ==> !Contains(p, sep)
    decreases |s|
  {
    match FindFrom(s, sep, 0)
    case None =>
    case Some(i) =>
      forall j | 0 <= j <= i - |sep| ensures !At(s[..i], sep, j) {
        assert !At(s, sep, j);
        assert s[..i][j..j + |sep|] == s[j..j + |sep|];
      }
      SplitPiecesLackSeparator(s[i + |sep|..], sep);
  }

  /** `parts.join(sep)`. */
  function Join(parts: seq<string>, sep: string): string
  {
    if |parts| == 0 then []
    else if |parts| == 1 then parts[0]
    else parts[0] + sep + Join(parts[1..], sep)
  }

  /** Joining the pieces of a split with the same separator gives back the string. */
  lemma {:induction false} SplitJoin(s: string, sep: string)
    requires |sep| > 0
    ensures Join(Split(s, sep), sep) == s
    decreases |s|
  {
    match FindFrom(s, sep, 0)
    case None =>
    case Some(i) =>
      var rest := s[i + |sep|..];
      var tail := Split(rest, sep);
      assert Split(s, sep) == [s[..i]] + tail;
      SplitJoin(rest, sep);
      JoinPieces(s, sep, i, tail);
  }

  /** The first piece of a split is everything before the first separator. */
  lemma SplitFirst(a: string, sep: string, b: string)
    requires |sep| > 0 && !Contains(a + sep[..|sep| - 1], sep)
    ensures Split(a + sep + b, sep)[0] == a
  {
    var s := a + sep + b;
    assert At(s, sep, |a|);
    forall j | 0 <= j < |a| ensures !At(s, sep, j) {
      if At(s, sep, j) {
        var t := a + sep[..|sep| - 1];
        assert t[j..j + |sep|] == s[j..j + |sep|];
        assert At(t, sep, j);
      }
    }
    assert FindFrom(s, sep, 0) == Some(|a|);
  }

  lemma JoinHead(parts: seq<string>, sep: string)
    requires |parts| >= 2
    ensures Join(parts, sep) == parts[0] + sep + Join(parts[1..], sep)
  { }

  lemma JoinCons(x: string, rest: seq<string>, sep: string)
    requires |rest| > 0
    ensures Join([x] + rest, sep) == x + sep + Join(rest, sep)
  {
    assert ([x] + rest)[1..] == rest;
  }

  /** Join distributes over concatenation of non-empty part lists. */
  lemma {:induction false} JoinAppend(a: seq<string>, b: seq<string>, sep: string)
    requires |a| > 0 && |b| > 0
    ensures Join(a + b, sep) == Join(a, sep) + sep + Join(b, sep)
    decreases |a|
  {
    if |a| == 1 {
      assert (a + b)[1..] == b;
    } else {
      assert (a + b)[1..] == a[1..] + b;
      JoinAppend(a[1..], b, sep);
    }
  }

  /** A newline at `j` directly followed by '#': where a markdown heading may begin. */
  predicate HashAfterNewline(s: string, j: nat) {
    j + 1 < |s| && s[j] == '\n' && s[j + 1] == '#'
  }

  /** Lines without newlines, none after the first starting with '#'. */
  predicate PlainLines(lines: seq<string>) {
    (forall k :: 0 <= k < |lines| ==> NoChar(lines[k], '\n'))
    && forall k :: 1 <= k < |lines| ==> lines[k] == [] || lines[k][0] != '#'
  }

  /** Joined plain lines hold no newline directly followed by '#', whatever text that
      does not start with '#' comes after them. */
  lemma {:induction false} JoinNoHashAfterNewline(a: seq<string>, t: string)
    requires |a| > 0 && PlainLines(a) && (t == [] || t[0] != '#')
    ensures forall j :: 0 <= j < |Join(a, "\n")| ==> !HashAfterNewline(Join(a, "\n") + t, j)
    decreases |a|
  {
    var s := Join(a, "\n") + t;
    if |a| == 1 {
      forall j | 0 <= j < |a[0]| ensures !HashAfterNewline(s, j) {
        assert s[j] == a[0][j];
      }
    } else {
      var b := a[1..];
      assert PlainLines(b) by {
        forall k | 0 <= k < |b| ensures NoChar(b[k], '\n') { assert b[k] == a[k + 1]; }
        forall k | 1 <= k < |b| ensures b[k] == [] || b[k][0] != '#' { assert b[k] == a[k + 1]; }
      }
      JoinNoHashAfterNewline(b, t);
      var r := Join(b, "\n") + t;
      assert Join(a, "\n") == a[0] + "\n" + Join(b, "\n");
      assert s == a[0] + "\n" + r;
      var n := |a[0]|;
      forall j | 0 <= j < |Join(a, "\n")| ensures !HashAfterNewline(s, j) {
        if j < n {
          assert s[j] == a[0][j];
        } else if j == n {
          if j + 1 < |s| {
            assert s[j + 1] == r[0];
            assert b[0] == a[1];
            if |b| == 1 {
              assert Join(b, "\n") == b[0];
              assert r == b[0] + t;
            } else {
              assert Join(b, "\n") == b[0] + "\n" + Join(b[1..], "\n");
              assert r == b[0] + "\n" + (Join(b[1..], "\n") + t);
            }
            assert r[0] != '#';
          }
        } else {
          assert j - n - 1 < |Join(b, "\n")|;
          assert !HashAfterNewline(r, j - n - 1);
          assert s[j] == r[j - n - 1];
          if j + 1 < |s| { assert s[j + 1] == r[j - n]; }
        }
      }
    }
  }

  // ---------------------------------------------------------------------------
  // Sequences

  /** `f` applied to each element, in order. */
  function Map<T, U>(xs: seq<T>, f: T -> U): (r: seq<U>)
    ensures |r| == |xs| && forall i :: 0 <= i < |xs| ==> r[i] == f(xs[i])
  {
    if |xs| == 0 then [] else [f(xs[0])] + Map(xs[1..], f)
  }

  lemma MapSnoc<T, U>(xs: seq<T>, x: T, f: T -> U)
    ensures Map(xs + [x], f) == Map(xs, f) + [f(x)]
  {
    assert forall i :: 0 <= i < |xs| + 1 ==> Map(xs + [x], f)[i] == (Map(xs, f) + [f(x)])[i];
  }

  /** The concatenation of `f` applied to each element, in order. */
  function ConcatMap<T, U>(xs: seq<T>, f: T -> seq<U>): seq<U>
  {
    if |xs| == 0 then [] else f(xs[0]) + ConcatMap(xs[1..], f)
  }

  lemma {:induction false} ConcatMapAppend<T, U>(a: seq<T>, b: seq<T>, f: T -> seq<U>)
    ensures ConcatMap(a + b, f) == ConcatMap(a, f) + ConcatMap(b, f)
    decreases |a|
  {
    if |a| > 0 {
      assert (a + b)[0] == a[0];
      assert (a + b)[1..] == a[1..] + b;
      ConcatMapAppend(a[1..], b, f);
    } else {
      assert a + b == b;
    }
  }

  lemma ConcatMapSnoc<T, U>(a: seq<T>, x: T, f: T -> seq<U>)
    ensures ConcatMap(a + [x], f) == ConcatMap(a, f) + f(x)
  {
    ConcatMapAppend(a, [x], f);
    assert ConcatMap([x], f) == f(x) + ConcatMap([x][1..], f);
  }

  /** Every element of the result comes from `f` of some element of `xs`. */
  lemma {:induction false} ConcatMapMember<T, U>(xs: seq<T>, f: T -> seq<U>, y: U)
    requires y in ConcatMap(xs, f)
    ensures exists j :: 0 <= j < |xs| && y in f(xs[j])
    decreases |xs|
  {
    if y !in f(xs[0]) {
      ConcatMapMember(xs[1..], f, y);
      var j :| 0 <= j < |xs[1..]| && y in f(xs[1..][j]);
      assert xs[1..][j] == xs[j + 1];
    }
  }

  /** Whatever `f` gives for an element appears in the result. */
  lemma {:induction false} ConcatMapComplete<T, U>(xs: seq<T>, f: T -> seq<U>, j: nat, y: U)
    requires j < |xs| && y in f(xs[j])
    ensures y in ConcatMap(xs, f)
    decreases j
  {
    if j > 0 {
      assert xs[1..][j - 1] == xs[j];
      ConcatMapComplete(xs[1..], f, j - 1, y);
    }
  }

  /** Mapping each element to a list and then each list element through `f` is the
      same as mapping each element straight to `h` of it. */
  lemma {:induction false} ConcatMapFlatten<T, U, V>(xs: seq<T>, g: T -> seq<U>, f: U -> seq<V>, h: T -> seq<V>)
    requires forall i :: 0 <= i < |xs| ==> ConcatMap(g(xs[i]), f) == h(xs[i])
    ensures ConcatMap(ConcatMap(xs, g), f) == ConcatMap(xs, h)
    decreases |xs|
  {
    if |xs| > 0 {
      forall i | 0 <= i < |xs[1..]| ensures ConcatMap(g(xs[1..][i]), f) == h(xs[1..][i]) {
        assert xs[1..][i] == xs[i + 1];
      }
      ConcatMapFlatten(xs[1..], g, f, h);
      ConcatMapAppend(g(xs[0]), ConcatMap(xs[1..], g), f);
    }
  }

  /** When each element maps to one value, the result lists those values in order. */
  lemma {:induction false} ConcatMapSingletons<T, U>(xs: seq<T>, f: T -> seq<U>, e: T -> U)
    requires forall i :: 0 <= i < |xs| ==> f(xs[i]) == [e(xs[i])]
    ensures |ConcatMap(xs, f)| == |xs|
    ensures forall i :: 0 <= i < |xs| ==> ConcatMap(xs, f)[i] == e(xs[i])
    ensures ConcatMap(xs, f) == Map(xs, e)
    decreases |xs|
  {
    if |xs| > 0 {
      forall i | 0 <= i < |xs[1..]| ensures f(xs[1..][i]) == [e(xs[1..][i])] {
        assert xs[1..][i] == xs[i + 1];
      }
      ConcatMapSingletons(xs[1..], f, e);
      var r := ConcatMap(xs, f);
      assert r == [e(xs[0])] + ConcatMap(xs[1..], f);
      forall i | 0 <= i < |xs| ensures r[i] == e(xs[i]) {
        if i > 0 { assert xs[1..][i - 1] == xs[i]; }
      }
      assert r == Map(xs, e);
    }
  }

  /** The contribution of element `i` sits between those of the elements before and after it. */
  lemma {:induction false} ConcatMapSplitAt<T, U>(xs: seq<T>, f: T -> seq<U>, i: nat)
    requires i < |xs|
    ensures ConcatMap(xs, f) == ConcatMap(xs[..i], f) + f(xs[i]) + ConcatMap(xs[i + 1..], f)
  {
    var pre, post := xs[..i], xs[i + 1..];
    var mid := [xs[i]] + post;
    assert xs == pre + mid;
    ConcatMapAppend(pre, mid, f);
    assert mid[0] == xs[i] && mid[1..] == post;
    assert ConcatMap(mid, f) == f(xs[i]) + ConcatMap(post, f);
  }

  /** When every element maps to `w` values, the result has `w` values per element. */
  lemma {:induction false} ConcatMapLength<T, U>(xs: seq<T>, f: T -> seq<U>, w: nat)
    requires forall x :: |f(x)| == w
    ensures |ConcatMap(xs, f)| == w * |xs|
    decreases |xs|
  {
    if |xs| > 0 {
      ConcatMapLength(xs[1..], f, w);
      assert w * |xs| == w + w * (|xs| - 1);
    }
  }

  /** The index of the first element satisfying `p`, or the length when none does. */
  function FirstIndex<T>(xs: seq<T>, p: T -> bool): (k: nat)
    ensures k <= |xs|
    ensures forall j :: 0 <= j < k ==> !p(xs[j])
    ensures k < |xs| ==> p(xs[k])
  {
    if |xs| == 0 || p(xs[0]) then 0 else 1 + FirstIndex(xs[1..], p)
  }

  lemma {:induction false} FirstIndexAt<T>(xs: seq<T>, p: T -> bool, k: nat)
    requires k <= |xs| && (k < |xs| ==> p(xs[k]))
    requires forall j :: 0 <= j < k ==> !p(xs[j])
    ensures FirstIndex(xs, p) == k
    decreases k
  {
    if k > 0 {
      assert !p(xs[0]);
      FirstIndexAt(xs[1..], p, k - 1);
    }
  }

  /** A prefix without a hit shifts the first index by its length. */
  lemma {:induction false} FirstIndexShift<T>(a: seq<T>, b: seq<T>, p: T -> bool)
    requires forall j :: 0 <= j < |a| ==> !p(a[j])
    ensures FirstIndex(a + b, p) == |a| + FirstIndex(b, p)
    decreases |a|
  {
    if |a| > 0 {
      assert (a + b)[0] == a[0];
      assert (a + b)[1..] == a[1..] + b;
      FirstIndexShift(a[1..], b, p);
    } else {
      assert a + b == b;
    }
  }

  lemma TakeSnoc<T>(xs: seq<T>, i: nat)
    requires i < |xs|
    ensures xs[..i + 1] == xs[..i] + [xs[i]]
  { }

  lemma SliceSnoc<T>(xs: seq<T>, lo: nat, i: nat)
    requires lo <= i < |xs|
    ensures xs[lo..i + 1] == xs[lo..i] + [xs[i]]
  { }

  lemma TakeAll<T>(xs: seq<T>)
    ensures xs[..|xs|] == xs
  { }

  /** Mapping the elements before the first hit distributes over a prefix without hits. */
  lemma ConcatMapBeforeFirst<T, U>(a: seq<T>, b: seq<T>, p: T -> bool, f: T -> seq<U>)
    requires forall j :: 0 <= j < |a| ==> !p(a[j])
    ensures ConcatMap((a + b)[..FirstIndex(a + b, p)], f) == ConcatMap(a, f) + ConcatMap(b[..FirstIndex(b, p)], f)
  {
    FirstIndexShift(a, b, p);
    assert (a + b)[..|a| + FirstIndex(b, p)] == a + b[..FirstIndex(b, p)];
    ConcatMapAppend(a, b[..FirstIndex(b, p)], f);
  }

  // ---------------------------------------------------------------------------
  // Decimal numbers

  function DigitChar(d: nat): (c: char)
    requires d < 10
    ensures IsDigit(c) && c as int - '0' as int == d
  {
    ('0' as int + d) as char
  }

  /** The decimal rendering of a natural number (`String(n)`). */
  function NatToString(n: nat): (r: string)
    ensures |r| > 0 && AllDigits(r)
    ensures r[0] == '0' ==> n == 0
  {
    if n < 10 then [DigitChar(n)] else NatToString(n / 10) + [DigitChar(n % 10)]
  }

  /** The value of a string of decimal digits (`parseInt(s, 10)` on digits). */
  function DigitsValue(s: string): nat
    requires AllDigits(s)
  {
    if s == [] then 0 else DigitsValue(s[..|s| - 1]) * 10 + (s[|s| - 1] as int - '0' as int)
  }

  /** Reading back a rendered number gives the number. */
  lemma {:induction false} DigitsValueOfNatToString(n: nat)
    ensures DigitsValue(NatToString(n)) == n
  {
    if n >= 10 {
      var r := NatToString(n);
      assert r[..|r| - 1] == NatToString(n / 10);
      DigitsValueOfNatToString(n / 10);
    }
  }

  /** The decimal rendering of an integer, with a `-` sign when negative. */
  function IntToString(n: int): (r: string)
    ensures |r| > 0
    ensures n >= 0 ==> r == NatToString(n)
    ensures n < 0 ==> r == "-" + NatToString(-n)
  {
    if n < 0 then "-" + NatToString(-n) else NatToString(n)
  }
}
