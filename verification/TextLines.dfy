/** Python's line splitting, white space and order on strings. */
module TextLines {

  /** The characters `str.splitlines` ends a line at. */
  predicate IsBreak(c: char) {
    c in ['\n', '\r', '\U{0b}', '\U{0c}', '\U{1c}', '\U{1d}', '\U{1e}', '\U{85}', '\U{2028}', '\U{2029}']
  }

  /** The characters `str.strip` removes. */
  predicate IsSpace(c: char) {
    || IsBreak(c) || c == ' ' || c == '\t' || c == '\U{1f}' || c == '\U{a0}' || c == '\U{1680}'
    || '\U{2000}' <= c <= '\U{200a}' || c == '\U{202f}' || c == '\U{205f}' || c == '\U{3000}'
  }

  /** The length of the first line's text, without its terminator. */
  function TextLength(s: string): (n: nat)
    ensures n <= |s| && (n < |s| ==> IsBreak(s[n]))
    ensures forall i :: 0 <= i < n ==> !IsBreak(s[i])
  {
    if s == "" || IsBreak(s[0]) then 0 else 1 + TextLength(s[1..])
  }

  /** The length of the terminator a text starts with; a carriage return takes a following
      line feed along. */
  function BreakLength(s: string): (n: nat)
    ensures n <= |s| && (s != "" && IsBreak(s[0]) ==> n >= 1)
  {
    if s == "" || !IsBreak(s[0]) then 0
    else if s[0] == '\r' && |s| > 1 && s[1] == '\n' then 2
    else 1
  }

  function LineLength(s: string): (n: nat)
    ensures n <= |s| && (s != "" ==> n >= 1)
  {
    TextLength(s) + BreakLength(s[TextLength(s)..])
  }

  /** `text.splitlines(keepends=True)`. */
  function KeepLines(s: string): seq<string>
    decreases |s|
  {
    if s == "" then [] else [s[..LineLength(s)]] + KeepLines(s[LineLength(s)..])
  }

  /** `text.splitlines()`. */
  function Lines(s: string): seq<string>
    decreases |s|
  {
    if s == "" then [] else [s[..TextLength(s)]] + Lines(s[LineLength(s)..])
  }

  /** `"".join(lines)`. */
  function Concat(lines: seq<string>): string {
    if lines == [] then "" else lines[0] + Concat(lines[1..])
  }

  lemma ConcatCons(s: string, n: nat, rest: seq<string>)
    requires n <= |s| && Concat(rest) == s[n..]
    ensures Concat([s[..n]] + rest) == s
  {
    assert ([s[..n]] + rest)[1..] == rest;
    assert s[..n] + s[n..] == s;
  }

  /** Splitting with terminators loses nothing. */
  lemma {:induction false} KeepLinesRoundTrip(s: string)
    ensures Concat(KeepLines(s)) == s
    decreases |s|
  {
    if s != "" {
      var rest := s[LineLength(s)..];
      KeepLinesRoundTrip(rest);
      ConcatCons(s, LineLength(s), KeepLines(rest));
    }
  }

  /** Lexicographic order on strings. */
  predicate StrLess(a: string, b: string) {
    if b == "" then false
    else if a == "" then true
    else a[0] < b[0] || (a[0] == b[0] && StrLess(a[1..], b[1..]))
  }

  /** The strings agree up to `k`, where the first ends or has the lesser character. */
  predicate LessFrom(a: string, b: string, k: nat) {
    && k <= |a| && k < |b| && a[..k] == b[..k]
    && (k < |a| ==> a[k] < b[k])
  }

  lemma {:induction false} StrLessIff(a: string, b: string)
    ensures StrLess(a, b) <==> exists k: nat :: LessFrom(a, b, k)
  {
    LongerSharesFirst(a, b);
    if a == "" || b == "" || a[0] != b[0] {
      if StrLess(a, b) { assert LessFrom(a, b, 0); }
    } else {
      StrLessIff(a[1..], b[1..]);
      forall k: nat ensures LessFrom(a[1..], b[1..], k) <==> LessFrom(a, b, k + 1) {
        LessFromNext(a, b, k);
      }
      if k: nat :| LessFrom(a, b, k) {
        assert k > 0;
        assert LessFrom(a[1..], b[1..], k - 1) <==> LessFrom(a, b, k - 1 + 1);
      }
    }
  }

  lemma LongerSharesFirst(a: string, b: string)
    ensures forall k: nat :: k > 0 && LessFrom(a, b, k) ==> a[0] == b[0]
  {
    forall k: nat | k > 0 && LessFrom(a, b, k) ensures a[0] == b[0] {
      assert a[..k][0] == a[0] && b[..k][0] == b[0];
    }
  }

  lemma LessFromNext(a: string, b: string, k: nat)
    requires a != "" && b != "" && a[0] == b[0]
    ensures LessFrom(a[1..], b[1..], k) <==> LessFrom(a, b, k + 1)
  {
    if k < |a| && k < |b| {
      assert a[..k + 1] == [a[0]] + a[1..][..k] && b[..k + 1] == [b[0]] + b[1..][..k];
      if a[..k + 1] == b[..k + 1] {
        assert a[1..][..k] == a[..k + 1][1..] && b[1..][..k] == b[..k + 1][1..];
      }
    }
  }

  lemma {:induction false} StrTrichotomy(a: string, b: string)
    ensures StrLess(a, b) <==> !(a == b || StrLess(b, a))
  {
    if a != "" && b != "" {
      StrTrichotomy(a[1..], b[1..]);
      assert a == [a[0]] + a[1..] && b == [b[0]] + b[1..];
    }
  }
}
