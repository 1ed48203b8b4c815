/**
 * The Python string operations the extractor relies on: whitespace and line
 * boundaries as `str.isspace` and `str.splitlines` see them, `lower`,
 * `strip`, `replace(c, "")`, `in` and `endswith`, and the `\s+` collapse.
 */
module Text {

  /** The Indian rupee sign, the currency marker the patterns look for. */
  const Rupee: char := '\U{20B9}'

  /** Python's `str.isspace()`, which is also the class `\s` of a str pattern. */
  predicate IsSpace(c: char) {
    c == ' ' || ('\t' <= c <= '\r') || ('\U{1C}' <= c <= '\U{1F}') || c == '\U{85}' || c == '\U{A0}'
    || c == '\U{1680}' || ('\U{2000}' <= c <= '\U{200A}') || c == '\U{2028}' || c == '\U{2029}'
    || c == '\U{202F}' || c == '\U{205F}' || c == '\U{3000}'
  }

  /** The characters at which Python's `str.splitlines()` ends a line. */
  predicate IsLineBreak(c: char) {
    c == '\n' || c == '\r' || c == '\U{0B}' || c == '\U{0C}' || ('\U{1C}' <= c <= '\U{1E}')
    || c == '\U{85}' || c == '\U{2028}' || c == '\U{2029}'
  }

  predicate IsAsciiDigit(c: char) {
    '0' <= c <= '9'
  }

  predicate IsAsciiLetter(c: char) {
    ('a' <= c <= 'z') || ('A' <= c <= 'Z')
  }

  /** The class `\w` (letters, digits and the underscore). */
  predicate IsWordChar(c: char) {
    IsAsciiLetter(c) || IsAsciiDigit(c) || c == '_'
  }

  function LowerChar(c: char): (r: char)
    ensures !('A' <= r <= 'Z')
    ensures IsWordChar(c) <==> IsWordChar(r)
  {
    if 'A' <= c <= 'Z' then (c as int + 32) as char else c
  }

  /** `str.lower()` on the ASCII letters; every other character is kept. */
  function Lower(s: string): (r: string)
    ensures |r| == |s|
    ensures forall i :: 0 <= i < |s| ==> r[i] == LowerChar(s[i])
  {
    seq(|s|, i requires 0 <= i < |s| => LowerChar(s[i]))
  }

  lemma {:induction false} LowerIdempotent(s: string)
    ensures Lower(Lower(s)) == Lower(s)
  {
  }

  lemma {:induction false} LowerAppend(a: string, b: string)
    ensures Lower(a + b) == Lower(a) + Lower(b)
  {
  }

  /** Number of leading characters of `s` that satisfy `p`. */
  function LeadingRun(s: string, p: char -> bool): (n: nat)
    ensures n <= |s|
    ensures forall k :: 0 <= k < n ==> p(s[k])
    ensures n == |s| || !p(s[n])
  {
    if s == [] || !p(s[0]) then 0 else 1 + LeadingRun(s[1..], p)
  }

  /** The leading run is the n characters satisfying p before the first that does not. */
  lemma {:induction false} LeadingRunOfPrefix(t: string, n: nat, p: char -> bool)
    requires n <= |t|
    requires forall k :: 0 <= k < n ==> p(t[k])
    requires n == |t| || !p(t[n])
    ensures LeadingRun(t, p) == n
  {
    if n > 0 {
      LeadingRunOfPrefix(t[1..], n - 1, p);
    }
  }

  /** Number of trailing characters of `s` that satisfy `p`. */
  function TrailingRun(s: string, p: char -> bool): (n: nat)
    ensures n <= |s|
    ensures forall k :: |s| - n <= k < |s| ==> p(s[k])
    ensures n == |s| || !p(s[|s| - 1 - n])
  {
    if s == [] || !p(s[|s| - 1]) then 0 else 1 + TrailingRun(s[..|s| - 1], p)
  }

  /** Length of the longest run of characters satisfying `p` that starts at index `i`. */
  function RunFrom(s: string, i: nat, p: char -> bool): (n: nat)
    requires i <= |s|
    ensures i + n <= |s|
    ensures forall k :: i <= k < i + n ==> p(s[k])
    ensures i + n == |s| || !p(s[i + n])
    decreases |s| - i
  {
    if i == |s| || !p(s[i]) then 0 else 1 + RunFrom(s, i + 1, p)
  }

  /** Removes the leading and trailing characters that satisfy `p`. */
  function StripBy(s: string, p: char -> bool): (r: string)
    ensures |r| <= |s|
    ensures r == [] || (!p(r[0]) && !p(r[|r| - 1]))
    ensures (forall k :: 0 <= k < |s| ==> p(s[k])) <==> r == []
    ensures (s == [] || (!p(s[0]) && !p(s[|s| - 1]))) ==> r == s
    ensures var i := LeadingRun(s, p);
      i + |r| <= |s| && r == s[i..i + |r|] && forall k :: i + |r| <= k < |s| ==> p(s[k])
  {
    var i := LeadingRun(s, p);
    if i == |s| then []
    else
      var j := |s| - TrailingRun(s, p);
      assert i < j;
      s[i..j]
  }

  /** `str.strip()`: removes surrounding whitespace. */
  function Strip(s: string): string {
    StripBy(s, IsSpace)
  }

  /** `str.strip(chars)`: removes surrounding characters drawn from `chars`. */
  function StripChars(s: string, chars: set<char>): string {
    StripBy(s, c => c in chars)
  }

  lemma {:induction false} StripIdempotent(s: string)
    ensures Strip(Strip(s)) == Strip(s)
  {
  }

  /** `s.replace(c, "")` for a single character `c`. */
  function RemoveChar(s: string, c: char): (r: string)
    ensures c !in r
    ensures |r| <= |s|
    ensures forall x :: x in r <==> x in s && x != c
    ensures c !in s ==> r == s
  {
    if s == [] then []
    else if s[0] == c then RemoveChar(s[1..], c)
    else [s[0]] + RemoveChar(s[1..], c)
  }

  lemma {:induction false} RemoveCharAppend(a: string, b: string, c: char)
    ensures RemoveChar(a + b, c) == RemoveChar(a, c) + RemoveChar(b, c)
  {
    if a == [] {
      assert a + b == b;
    } else {
      assert (a + b)[0] == a[0] && (a + b)[1..] == a[1..] + b;
      RemoveCharAppend(a[1..], b, c);
    }
  }

  /** Python's `t in s` for strings: `t` occurs as a contiguous piece of `s`. */
  predicate Contains(s: string, t: string)
    decreases |s|
  {
    |t| <= |s| && (s[..|t|] == t || Contains(s[1..], t))
  }

  lemma {:induction false} ContainsAt(s: string, t: string, i: nat)
    requires i + |t| <= |s| && s[i..i + |t|] == t
    ensures Contains(s, t)
  {
    if i == 0 {
      assert s[..|t|] == t;
    } else {
      var u := s[1..];
      assert u[i - 1..i - 1 + |t|] == t by {
        assert forall k :: i - 1 <= k < i - 1 + |t| ==> u[k] == s[k + 1];
      }
      ContainsAt(u, t, i - 1);
    }
  }

  lemma {:induction false} ContainsWitness(s: string, t: string) returns (i: nat)
    requires Contains(s, t)
    ensures i + |t| <= |s| && s[i..i + |t|] == t
  {
    if s[..|t|] == t {
      i := 0;
    } else {
      var j := ContainsWitness(s[1..], t);
      assert s[1..][j..j + |t|] == s[j + 1..j + 1 + |t|];
      i := j + 1;
    }
  }

  /** A piece of a piece is a piece. */
  lemma {:induction false} ContainsTransitive(s: string, u: string, t: string)
    requires Contains(s, u) && Contains(u, t)
    ensures Contains(s, t)
  {
    var i := ContainsWitness(s, u);
    var j := ContainsWitness(u, t);
    forall k | 0 <= k < |t| ensures s[i + j + k] == t[k] {
      assert t[k] == u[j..j + |t|][k] == u[j + k];
      assert u[j + k] == s[i..i + |u|][j + k] == s[i + j + k];
    }
    assert s[i + j..i + j + |t|] == t;
    ContainsAt(s, t, i + j);
  }

  /** `s.endswith(t)`. */
  predicate EndsWith(s: string, t: string) {
    |t| <= |s| && s[|s| - |t|..] == t
  }

  /** The pieces of `s` between the characters satisfying `isBreak` (`str.split` on a class of separators). */
  function SplitBy(s: string, isBreak: char -> bool): (r: seq<string>)
    ensures |r| >= 1
    ensures (forall k :: 0 <= k < |s| ==> !isBreak(s[k])) ==> r == [s]
    decreases |s|
  {
    if s == [] then [[]]
    else
      var r := SplitBy(s[1..], isBreak);
      assert (forall k :: 0 <= k < |s| ==> !isBreak(s[k])) ==> forall k :: 0 <= k < |s| - 1 ==> !isBreak(s[1..][k]);
      assert [s[0]] + s[1..] == s;
      if isBreak(s[0]) then [[]] + r else [[s[0]] + r[0]] + r[1..]
  }

  /** No piece contains a break. */
  lemma {:induction false} SplitByPiecesUnbroken(s: string, isBreak: char -> bool)
    ensures forall k, c :: 0 <= k < |SplitBy(s, isBreak)| && c in SplitBy(s, isBreak)[k] ==> !isBreak(c)
    decreases |s|
  {
    if s != [] {
      SplitByPiecesUnbroken(s[1..], isBreak);
      var r := SplitBy(s[1..], isBreak);
      if !isBreak(s[0]) {
        var p := SplitBy(s, isBreak);
        assert p[0] == [s[0]] + r[0];
        assert forall k :: 1 <= k < |p| ==> p[k] == r[k];
      }
    }
  }

  /** The stripped pieces that are not empty. */
  function NonEmptyStripped(pieces: seq<string>): (r: seq<string>)
    ensures |r| <= |pieces|
    ensures forall k :: 0 <= k < |r| ==> r[k] != [] && r[k] == Strip(r[k])
  {
    if pieces == [] then []
    else
      StripIdempotent(pieces[0]);
      var rest := NonEmptyStripped(pieces[1..]);
      if Strip(pieces[0]) == [] then rest else [Strip(pieces[0])] + rest
  }

  /**
   * `idx` gives the source of each piece of `out`: `idx[m]` is the piece of
   * `pieces` that `f` turned into `out[m]`, the sources ascend, and they are
   * exactly the pieces that `f` does not turn into the empty text.
   */
  ghost predicate SourcesBy(out: seq<string>, pieces: seq<string>, idx: seq<nat>, f: string -> string) {
    && |idx| == |out|
    && (forall m :: 0 <= m < |idx| ==> idx[m] < |pieces| && out[m] == f(pieces[idx[m]]))
    && (forall m, m' :: 0 <= m < m' < |idx| ==> idx[m] < idx[m'])
    && (forall k :: 0 <= k < |pieces| ==> (f(pieces[k]) != [] <==> k in idx))
  }

  /** Every piece whose stripped text is not empty is kept, stripped, in order, and no other. */
  lemma {:induction false} NonEmptyStrippedSources(pieces: seq<string>) returns (idx: seq<nat>)
    ensures SourcesBy(NonEmptyStripped(pieces), pieces, idx, Strip)
  {
    if pieces == [] {
      idx := [];
    } else {
      var rest := NonEmptyStripped(pieces[1..]);
      var tail := NonEmptyStrippedSources(pieces[1..]);
      var shifted := seq(|tail|, m requires 0 <= m < |tail| => tail[m] + 1);
      if Strip(pieces[0]) == [] {
        assert NonEmptyStripped(pieces) == rest;
        SkippedFirstSource(rest, pieces, tail, shifted, Strip);
        idx := shifted;
      } else {
        assert NonEmptyStripped(pieces) == [Strip(pieces[0])] + rest;
        KeptFirstSource(rest, pieces, tail, shifted, Strip);
        idx := [0] + shifted;
      }
    }
  }

  /** The sources in `pieces[1..]`, renumbered as positions in `pieces`. */
  lemma {:induction false} ShiftedSources(out: seq<string>, pieces: seq<string>, tail: seq<nat>, shifted: seq<nat>, f: string -> string)
    requires pieces != [] && SourcesBy(out, pieces[1..], tail, f)
    requires |shifted| == |tail| && forall m :: 0 <= m < |tail| ==> shifted[m] == tail[m] + 1
    ensures forall m :: 0 <= m < |shifted| ==> 0 < shifted[m] < |pieces| && out[m] == f(pieces[shifted[m]])
    ensures forall m, m' :: 0 <= m < m' < |shifted| ==> shifted[m] < shifted[m']
    ensures forall k :: 1 <= k < |pieces| ==> (f(pieces[k]) != [] <==> k in shifted)
  {
    ShiftedValues(out, pieces, tail, shifted, f);
    ShiftedMembers(pieces, tail, shifted, f);
  }

  lemma {:induction false} ShiftedValues(out: seq<string>, pieces: seq<string>, tail: seq<nat>, shifted: seq<nat>, f: string -> string)
    requires pieces != [] && |tail| == |out|
    requires forall m :: 0 <= m < |tail| ==> tail[m] < |pieces| - 1 && out[m] == f(pieces[1..][tail[m]])
    requires |shifted| == |tail| && forall m :: 0 <= m < |tail| ==> shifted[m] == tail[m] + 1
    ensures forall m :: 0 <= m < |shifted| ==> 0 < shifted[m] < |pieces| && out[m] == f(pieces[shifted[m]])
  {
    forall m | 0 <= m < |shifted|
      ensures 0 < shifted[m] < |pieces| && out[m] == f(pieces[shifted[m]])
    {
      assert pieces[1..][tail[m]] == pieces[shifted[m]];
    }
  }

  lemma {:induction false} ShiftedMembers(pieces: seq<string>, tail: seq<nat>, shifted: seq<nat>, f: string -> string)
    requires pieces != []
    requires forall k :: 0 <= k < |pieces| - 1 ==> (f(pieces[1..][k]) != [] <==> k in tail)
    requires |shifted| == |tail| && forall m :: 0 <= m < |tail| ==> shifted[m] == tail[m] + 1
    ensures forall k :: 1 <= k < |pieces| ==> (f(pieces[k]) != [] <==> k in shifted)
  {
    forall k | 1 <= k < |pieces|
      ensures f(pieces[k]) != [] <==> k in shifted
    {
      assert pieces[1..][k - 1] == pieces[k];
      if k - 1 in tail {
        var m :| 0 <= m < |tail| && tail[m] == k - 1;
        assert shifted[m] == k;
      }
      if k in shifted {
        var m :| 0 <= m < |shifted| && shifted[m] == k;
        assert tail[m] == k - 1;
      }
    }
  }

  /** A first piece that `f` empties adds no source. */
  lemma {:induction false} SkippedFirstSource(out: seq<string>, pieces: seq<string>, tail: seq<nat>, shifted: seq<nat>, f: string -> string)
    requires pieces != [] && f(pieces[0]) == [] && SourcesBy(out, pieces[1..], tail, f)
    requires |shifted| == |tail| && forall m :: 0 <= m < |tail| ==> shifted[m] == tail[m] + 1
    ensures SourcesBy(out, pieces, shifted, f)
  {
    ShiftedSources(out, pieces, tail, shifted, f);
    assert 0 !in shifted;
  }

  /** A first piece that `f` does not empty goes in front, with source 0. */
  lemma {:induction false} KeptFirstSource(out: seq<string>, pieces: seq<string>, tail: seq<nat>, shifted: seq<nat>, f: string -> string)
    requires pieces != [] && f(pieces[0]) != [] && SourcesBy(out, pieces[1..], tail, f)
    requires |shifted| == |tail| && forall m :: 0 <= m < |tail| ==> shifted[m] == tail[m] + 1
    ensures SourcesBy([f(pieces[0])] + out, pieces, [0] + shifted, f)
  {
    ShiftedSources(out, pieces, tail, shifted, f);
    PrependSource(out, pieces, shifted, f);
  }

  lemma {:induction false} PrependSource(out: seq<string>, pieces: seq<string>, shifted: seq<nat>, f: string -> string)
    requires pieces != [] && f(pieces[0]) != [] && |shifted| == |out|
    requires forall m :: 0 <= m < |shifted| ==> 0 < shifted[m] < |pieces| && out[m] == f(pieces[shifted[m]])
    requires forall m, m' :: 0 <= m < m' < |shifted| ==> shifted[m] < shifted[m']
    requires forall k :: 1 <= k < |pieces| ==> (f(pieces[k]) != [] <==> k in shifted)
    ensures SourcesBy([f(pieces[0])] + out, pieces, [0] + shifted, f)
  {
    var idx := [0] + shifted;
    var o := [f(pieces[0])] + out;
    forall m | 0 <= m < |idx| ensures idx[m] < |pieces| && o[m] == f(pieces[idx[m]]) {
      if m > 0 {
        assert idx[m] == shifted[m - 1] && o[m] == out[m - 1];
      }
    }
    forall m, m' | 0 <= m < m' < |idx| ensures idx[m] < idx[m'] {
      assert idx[m'] == shifted[m' - 1];
      if m > 0 {
        assert idx[m] == shifted[m - 1];
      }
    }
    forall k | 0 <= k < |pieces| ensures f(pieces[k]) != [] <==> k in idx {
      assert k in idx <==> k == 0 || k in shifted;
    }
  }

  /**
   * `[l.strip() for l in text.splitlines() if l.strip()]`. Splitting at every
   * line-boundary character separately, rather than treating "\r\n" as one
   * boundary, only adds empty pieces, and those the filter drops.
   */
  function Lines(text: string): (r: seq<string>)
    ensures forall k :: 0 <= k < |r| ==> r[k] != [] && r[k] == Strip(r[k])
    ensures (forall k :: 0 <= k < |text| ==> !IsLineBreak(text[k])) ==>
      r == (if Strip(text) == [] then [] else [Strip(text)])
  {
    NonEmptyStripped(SplitBy(text, IsLineBreak))
  }

  lemma {:induction false} SplitByAppend(a: string, b: string, d: char, isBreak: char -> bool)
    requires isBreak(d)
    ensures SplitBy(a + [d] + b, isBreak) == SplitBy(a, isBreak) + SplitBy(b, isBreak)
    decreases |a|
  {
    if a == [] {
      assert a + [d] + b == [d] + b;
      SplitByCons(d, b, isBreak);
    } else {
      SplitByAppend(a[1..], b, d, isBreak);
      SplitByAppendStep(a[0], a[1..], b, d, isBreak);
      assert [a[0]] + a[1..] == a;
    }
  }

  /** One character in front of both sides of the equation for splitting a joined text. */
  lemma {:induction false} SplitByAppendStep(c: char, a: string, b: string, d: char, isBreak: char -> bool)
    requires SplitBy(a + [d] + b, isBreak) == SplitBy(a, isBreak) + SplitBy(b, isBreak)
    ensures SplitBy([c] + a + [d] + b, isBreak) == SplitBy([c] + a, isBreak) + SplitBy(b, isBreak)
  {
    assert [c] + a + [d] + b == [c] + (a + [d] + b);
    if isBreak(c) {
      SplitByAppendBreak(c, a + [d] + b, a, SplitBy(b, isBreak), isBreak);
    } else {
      SplitByAppendJoin(c, a + [d] + b, a, SplitBy(b, isBreak), isBreak);
    }
  }

  lemma {:induction false} SplitByAppendBreak(c: char, t: string, a: string, q: seq<string>, isBreak: char -> bool)
    requires isBreak(c) && SplitBy(t, isBreak) == SplitBy(a, isBreak) + q
    ensures SplitBy([c] + t, isBreak) == SplitBy([c] + a, isBreak) + q
  {
    SplitByCons(c, t, isBreak);
    SplitByCons(c, a, isBreak);
    ConsAppend([], SplitBy(a, isBreak), q);
  }

  lemma {:induction false} ConsAppend<T>(x: T, p: seq<T>, q: seq<T>)
    ensures [x] + (p + q) == ([x] + p) + q
  {
  }

  lemma {:induction false} SplitByAppendJoin(c: char, t: string, a: string, q: seq<string>, isBreak: char -> bool)
    requires !isBreak(c) && SplitBy(t, isBreak) == SplitBy(a, isBreak) + q
    ensures SplitBy([c] + t, isBreak) == SplitBy([c] + a, isBreak) + q
  {
    var p := SplitBy(a, isBreak);
    assert SplitBy([c] + t, isBreak) == [[c] + (p + q)[0]] + (p + q)[1..] by { SplitByCons(c, t, isBreak); }
    assert SplitBy([c] + a, isBreak) == [[c] + p[0]] + p[1..] by { SplitByCons(c, a, isBreak); }
    JoinFirstPiece([c], p, q);
  }

  /** Extending the first piece of `p + q` is extending the first piece of `p`. */
  lemma {:induction false} JoinFirstPiece(w: string, p: seq<string>, q: seq<string>)
    requires |p| >= 1
    ensures [w + (p + q)[0]] + (p + q)[1..] == ([w + p[0]] + p[1..]) + q
  {
    assert (p + q)[0] == p[0] && (p + q)[1..] == p[1..] + q;
  }

  /** Splitting a text that starts with `c`: a break starts a new piece, anything else joins the first. */
  lemma {:induction false} SplitByCons(c: char, t: string, isBreak: char -> bool)
    ensures isBreak(c) ==> SplitBy([c] + t, isBreak) == [[]] + SplitBy(t, isBreak)
    ensures !isBreak(c) ==> SplitBy([c] + t, isBreak) == [[c] + SplitBy(t, isBreak)[0]] + SplitBy(t, isBreak)[1..]
  {
    assert ([c] + t)[1..] == t;
  }

  lemma {:induction false} NonEmptyStrippedAppend(p: seq<string>, q: seq<string>)
    ensures NonEmptyStripped(p + q) == NonEmptyStripped(p) + NonEmptyStripped(q)
  {
    if p == [] {
      assert p + q == q;
    } else {
      assert (p + q)[0] == p[0] && (p + q)[1..] == p[1..] + q;
      NonEmptyStrippedAppend(p[1..], q);
    }
  }

  /** Joining two texts with any line-boundary character joins their line lists. */
  lemma {:induction false} LinesAppend(a: string, d: char, b: string)
    requires IsLineBreak(d)
    ensures Lines(a + [d] + b) == Lines(a) + Lines(b)
  {
    SplitByAppend(a, b, d, IsLineBreak);
    NonEmptyStrippedAppend(SplitBy(a, IsLineBreak), SplitBy(b, IsLineBreak));
  }

  /** `re.sub(r'\s+', ' ', s)`: every maximal run of whitespace becomes one space. */
  function CollapseSpaces(s: string): (r: string)
    ensures |r| <= |s|
    ensures DropSpaces(r) == DropSpaces(s)
  {
    CollapseRuns(s, IsSpace)
  }

  /** The text with every whitespace character deleted. */
  function DropSpaces(s: string): string {
    DropBy(s, IsSpace)
  }

  /** Every maximal run of characters satisfying `p` becomes one space. */
  function CollapseRuns(s: string, p: char -> bool): (r: string)
    requires p(' ')
    ensures |r| <= |s|
    ensures DropBy(r, p) == DropBy(s, p)
    decreases |s|
  {
    if s == [] then []
    else if p(s[0]) then
      var n := LeadingRun(s, p);
      DropBySkipsRun(s, n, p);
      [' '] + CollapseRuns(s[n..], p)
    else
      assert s == [s[0]] + s[1..];
      [s[0]] + CollapseRuns(s[1..], p)
  }

  /** The text with every character satisfying `p` deleted. */
  function DropBy(s: string, p: char -> bool): string {
    if s == [] then [] else (if p(s[0]) then [] else [s[0]]) + DropBy(s[1..], p)
  }

  /** Deleting the characters satisfying `p` ignores a leading run of them. */
  lemma {:induction false} DropBySkipsRun(s: string, n: nat, p: char -> bool)
    requires n <= |s| && forall k :: 0 <= k < n ==> p(s[k])
    ensures DropBy(s, p) == DropBy(s[n..], p)
  {
    if n > 0 {
      assert s[n..] == s[1..][n - 1..];
      DropBySkipsRun(s[1..], n - 1, p);
    }
  }

  /** A run of whitespace collapses to one space. */
  lemma {:induction false} CollapseSpacesOfRun(w: string)
    requires w != [] && forall k :: 0 <= k < |w| ==> IsSpace(w[k])
    ensures CollapseSpaces(w) == " "
  {
    CollapseRunsOfRun(w, IsSpace);
  }

  lemma {:induction false} CollapseRunsOfRun(w: string, p: char -> bool)
    requires p(' ') && w != [] && forall k :: 0 <= k < |w| ==> p(w[k])
    ensures CollapseRuns(w, p) == " "
  {
    assert LeadingRun(w, p) == |w|;
  }

  /** A character that is not whitespace is kept, and the rest is collapsed after it. */
  lemma {:induction false} CollapseSpacesOfWord(c: char, t: string)
    requires !IsSpace(c)
    ensures CollapseSpaces([c] + t) == [c] + CollapseSpaces(t)
  {
    assert ([c] + t)[1..] == t;
  }

  /** A whitespace run in front of a text that does not start with whitespace becomes one space. */
  lemma {:induction false} CollapseSpacesOfSpaced(w: string, t: string)
    requires w != [] && forall k :: 0 <= k < |w| ==> IsSpace(w[k])
    requires t == [] || !IsSpace(t[0])
    ensures CollapseSpaces(w + t) == [' '] + CollapseSpaces(t)
  {
    var s := w + t;
    assert forall k :: 0 <= k < |w| ==> s[k] == w[k];
    assert |w| < |s| ==> s[|w|] == t[0];
    CollapseSpacesOfLeadingRun(s, |w|);
    assert s[|w|..] == t;
  }

  /** A text starting with a whitespace run of n characters: one space, then the rest collapsed. */
  lemma {:induction false} CollapseSpacesOfLeadingRun(s: string, n: nat)
    requires 0 < n <= |s| && forall k :: 0 <= k < n ==> IsSpace(s[k])
    requires n == |s| || !IsSpace(s[n])
    ensures CollapseSpaces(s) == [' '] + CollapseSpaces(s[n..])
  {
    LeadingRunOfPrefix(s, n, IsSpace);
  }

  /** A text that does not end in whitespace collapses independently of what follows it. */
  lemma {:induction false} CollapseSpacesAppend(a: string, b: string)
    requires a == [] || !IsSpace(a[|a| - 1])
    ensures CollapseSpaces(a + b) == CollapseSpaces(a) + CollapseSpaces(b)
    decreases |a|
  {
    if a == [] {
      assert a + b == b;
    } else {
      var c := if IsSpace(a[0]) then ' ' else a[0];
      var n := if IsSpace(a[0]) then LeadingRun(a, IsSpace) else 1;
      CollapseSpacesHead(a, b, n);
      CollapseSpacesAppend(a[n..], b);
      ConsAppend(c, CollapseSpaces(a[n..]), CollapseSpaces(b));
    }
  }

  /** Both `a` and `a + b` collapse their first character or whitespace run the same way, up to position n. */
  lemma {:induction false} CollapseSpacesHead(a: string, b: string, n: nat)
    requires a != [] && !IsSpace(a[|a| - 1])
    requires n == if IsSpace(a[0]) then LeadingRun(a, IsSpace) else 1
    ensures 0 < n <= |a| && (a[n..] == [] || !IsSpace(a[|a| - 1]))
    ensures var c := if IsSpace(a[0]) then ' ' else a[0];
      && CollapseSpaces(a) == [c] + CollapseSpaces(a[n..])
      && CollapseSpaces(a + b) == [c] + CollapseSpaces(a[n..] + b)
  {
    var s := a + b;
    assert s[n..] == a[n..] + b;
    if IsSpace(a[0]) {
      assert n < |a|;
      CollapseSpacesOfLeadingRun(a, n);
      assert forall k :: 0 <= k <= n ==> s[k] == a[k];
      CollapseSpacesOfLeadingRun(s, n);
    } else {
      assert a == [a[0]] + a[1..] && s == [a[0]] + s[1..];
      CollapseSpacesOfWord(a[0], a[1..]);
      CollapseSpacesOfWord(a[0], s[1..]);
    }
  }

  /**
   * An interior whitespace run between a text that does not end in whitespace
   * and one that does not start with it becomes exactly one space.
   */
  lemma {:induction false} CollapseSpacesOfInterior(a: string, w: string, b: string)
    requires a == [] || !IsSpace(a[|a| - 1])
    requires w != [] && forall k :: 0 <= k < |w| ==> IsSpace(w[k])
    requires b == [] || !IsSpace(b[0])
    ensures CollapseSpaces(a + w + b) == CollapseSpaces(a) + " " + CollapseSpaces(b)
  {
    AppendAssoc(a, w, b);
    CollapseSpacesAppend(a, w + b);
    CollapseSpacesOfSpaced(w, b);
    AppendAssoc(CollapseSpaces(a), " ", CollapseSpaces(b));
  }

  lemma {:induction false} AppendAssoc<T>(p: seq<T>, q: seq<T>, r: seq<T>)
    ensures (p + q) + r == p + (q + r)
  {
  }

  /** No whitespace is left except single spaces, and no two spaces are adjacent. */
  ghost predicate Collapsed(s: string) {
    && (forall i :: 0 <= i < |s| && IsSpace(s[i]) ==> s[i] == ' ')
    && (forall i :: 0 <= i < |s| - 1 ==> !(IsSpace(s[i]) && IsSpace(s[i + 1])))
  }

  lemma {:induction false} CollapseSpacesCollapses(s: string)
    ensures Collapsed(CollapseSpaces(s))
    ensures s != [] ==> CollapseSpaces(s) != [] && (IsSpace(s[0]) <==> IsSpace(CollapseSpaces(s)[0]))
    decreases |s|
  {
    if s == [] {
    } else if IsSpace(s[0]) {
      var n := LeadingRun(s, IsSpace);
      var rest := s[n..];
      CollapseSpacesCollapses(rest);
      assert rest != [] ==> !IsSpace(rest[0]);
      CollapsedCons(' ', CollapseSpaces(rest));
    } else {
      CollapseSpacesCollapses(s[1..]);
      CollapsedCons(s[0], CollapseSpaces(s[1..]));
    }
  }

  /** Putting one character in front keeps a text collapsed unless it makes a second space in a row. */
  lemma {:induction false} CollapsedCons(c: char, t: string)
    requires Collapsed(t)
    requires IsSpace(c) ==> c == ' ' && (t == [] || !IsSpace(t[0]))
    ensures Collapsed([c] + t)
  {
    var u := [c] + t;
    assert forall i :: 1 <= i < |u| ==> u[i] == t[i - 1];
  }

  lemma {:induction false} CollapseSpacesOfCollapsed(s: string)
    requires Collapsed(s)
    ensures CollapseSpaces(s) == s
    decreases |s|
  {
    if s != [] {
      var rest := s[1..];
      assert Collapsed(rest) by {
        forall i | 0 <= i < |rest| - 1 ensures !(IsSpace(rest[i]) && IsSpace(rest[i + 1])) {
          assert rest[i] == s[i + 1] && rest[i + 1] == s[i + 2];
        }
      }
      if IsSpace(s[0]) {
        assert |s| > 1 ==> !IsSpace(s[1]);
        assert LeadingRun(s, IsSpace) == 1;
      }
      CollapseSpacesOfCollapsed(rest);
    }
  }

  /** Collapsing twice is collapsing once. */
  lemma {:induction false} CollapseSpacesIdempotent(s: string)
    ensures CollapseSpaces(CollapseSpaces(s)) == CollapseSpaces(s)
  {
    CollapseSpacesCollapses(s);
    CollapseSpacesOfCollapsed(CollapseSpaces(s));
  }
}
