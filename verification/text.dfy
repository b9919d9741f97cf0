/**
 * The string handling the command interpreter relies on: JavaScript's
 * `trim()`, `toLowerCase()` as far as the `help` comparison needs it,
 * `includes`, and the first match of the pattern `#(\d+)` read as a decimal
 * number.
 */
module Text {
  import opened Wrappers

  /** The characters `String.prototype.trim` removes: white space and line terminators. */
  predicate IsSpace(c: char)
  {
    || c == '\t' || c == '\n' || c == '\U{000B}' || c == '\U{000C}' || c == '\r' || c == ' '
    || c == '\U{00A0}' || c == '\U{1680}' || ('\U{2000}' <= c <= '\U{200A}')
    || c == '\U{2028}' || c == '\U{2029}' || c == '\U{202F}' || c == '\U{205F}'
    || c == '\U{3000}' || c == '\U{FEFF}'
  }

  /** The number of white-space characters `s` starts with. */
  function LeadingSpaces(s: string): (k: nat)
    ensures k <= |s|
    ensures forall i :: 0 <= i < k ==> IsSpace(s[i])
    ensures k == |s| || !IsSpace(s[k])
  {
    if |s| > 0 && IsSpace(s[0]) then 1 + LeadingSpaces(s[1..]) else 0
  }

  /** The number of white-space characters `s` ends with. */
  function TrailingSpaces(s: string): (k: nat)
    ensures k <= |s|
    ensures forall i :: |s| - k <= i < |s| ==> IsSpace(s[i])
    ensures k == |s| || !IsSpace(s[|s| - 1 - k])
  {
    if |s| > 0 && IsSpace(s[|s| - 1]) then 1 + TrailingSpaces(s[..|s| - 1]) else 0
  }

  /**
   * Where `s.trim()` cuts `s`: everything outside `[lo, hi)` is white space
   * and, unless nothing is left, the kept slice starts and ends on a
   * non-space character.
   */
  function TrimBounds(s: string): (b: (nat, nat))
    ensures b.0 <= b.1 <= |s|
    ensures forall k :: 0 <= k < b.0 ==> IsSpace(s[k])
    ensures forall k :: b.1 <= k < |s| ==> IsSpace(s[k])
    ensures b.0 < b.1 ==> !IsSpace(s[b.0]) && !IsSpace(s[b.1 - 1])
  {
    var lo := LeadingSpaces(s);
    if lo == |s| then (lo, lo)
    else (lo, |s| - TrailingSpaces(s))
  }

  /** `s.trim()`. */
  function Trim(s: string): (r: string)
    // only white space is cut, and only at the two ends
    ensures |r| <= |s|
    ensures |r| > 0 ==> !IsSpace(r[0]) && !IsSpace(r[|r| - 1])
  {
    var b := TrimBounds(s);
    s[b.0..b.1]
  }

  /** Trimming leaves a text that neither starts nor ends with white space unchanged. */
  lemma TrimOfUnpadded(s: string)
    requires |s| > 0 && !IsSpace(s[0]) && !IsSpace(s[|s| - 1])
    ensures Trim(s) == s
  {
    assert TrimBounds(s) == (0, |s|);
  }

  /** Trimming twice is trimming once. */
  lemma TrimIdempotent(s: string)
    ensures Trim(Trim(s)) == Trim(s)
  {
    var r := Trim(s);
    if |r| > 0 {
      TrimOfUnpadded(r);
    }
  }

  /** `toLowerCase` on the ASCII letters. */
  function LowerChar(c: char): char
  {
    if 'A' <= c <= 'Z' then (c as int + 32) as char else c
  }

  function Lower(s: string): (r: string)
    ensures |r| == |s|
  {
    seq(|s|, i requires 0 <= i < |s| => LowerChar(s[i]))
  }

  /** No ASCII capital survives lower-casing, and every other character is kept. */
  lemma LowerSpec(s: string)
    ensures forall i :: 0 <= i < |s| ==> !('A' <= Lower(s)[i] <= 'Z')
    ensures forall i :: 0 <= i < |s| && !('A' <= s[i] <= 'Z') ==> Lower(s)[i] == s[i]
  {
  }

  /**
   * The outsiders' `help` test spelled out: a text lower-cases to `help`
   * exactly when it is `help` in any mix of upper and lower case.
   */
  lemma LowerIsHelpIff(s: string)
    ensures Lower(s) == "help" <==>
      && |s| == 4
      && (s[0] == 'h' || s[0] == 'H') && (s[1] == 'e' || s[1] == 'E')
      && (s[2] == 'l' || s[2] == 'L') && (s[3] == 'p' || s[3] == 'P')
  {
    if Lower(s) == "help" {
      assert Lower(s)[0] == 'h' && Lower(s)[1] == 'e' && Lower(s)[2] == 'l' && Lower(s)[3] == 'p';
    }
  }

  /** `s.includes(sub)`. */
  predicate Contains(s: string, sub: string)
    ensures Contains(s, sub) ==> |sub| <= |s|
    ensures |sub| <= |s| && s[..|sub|] == sub ==> Contains(s, sub)
  {
    assert |sub| <= |s| && s[..|sub|] == sub ==> OccursAt(s, sub, 0);
    exists i | 0 <= i <= |s| - |sub| :: OccursAt(s, sub, i)
  }

  predicate OccursAt(s: string, sub: string, i: nat)
  {
    i + |sub| <= |s| && s[i..i + |sub|] == sub
  }

  /** `\d` in a JavaScript regular expression: the ASCII digits only. */
  predicate IsDigit(c: char)
  {
    '0' <= c <= '9'
  }

  predicate AllDigits(s: string)
  {
    forall i :: 0 <= i < |s| ==> IsDigit(s[i])
  }

  /** The length of the run of digits `\d+` would consume at the start of `s`. */
  function DigitRun(s: string): (r: nat)
    ensures r <= |s|
    ensures AllDigits(s[..r])
    ensures r == |s| || !IsDigit(s[r])
  {
    if |s| > 0 && IsDigit(s[0]) then
      var r := 1 + DigitRun(s[1..]);
      assert forall i :: 1 <= i < r ==> s[..r][i] == s[1..][..r - 1][i - 1];
      r
    else 0
  }

  function DigitValue(c: char): nat
    requires IsDigit(c)
  {
    c as int - '0' as int
  }

  /** `parseInt` of a string of decimal digits. */
  function DecimalValue(ds: string): nat
    requires AllDigits(ds)
  {
    if |ds| == 0 then 0
    else 10 * DecimalValue(ds[..|ds| - 1]) + DigitValue(ds[|ds| - 1])
  }

  /** Where `#(\d+)` can match: a `#` directly followed by a digit. */
  predicate MatchAt(s: string, i: int)
  {
    0 <= i && i + 1 < |s| && s[i] == '#' && IsDigit(s[i + 1])
  }

  /** The number the match at `i` captures: all the digits after the `#`. */
  function CapturedAt(s: string, i: nat): nat
    requires MatchAt(s, i)
  {
    var run := DigitRun(s[i + 1..]);
    DecimalValue(s[i + 1..][..run])
  }

  /**
   * `s.match(/#(\d+)/)` followed by `parseInt` of the group: the leftmost
   * match, read in base ten.
   */
  function HashNumber(s: string): (r: Option<nat>)
    ensures r.None? <==> forall i :: 0 <= i < |s| ==> !MatchAt(s, i)
  {
    if |s| < 2 then None
    else if MatchAt(s, 0) then Some(CapturedAt(s, 0))
    else
      var t := s[1..];
      assert forall i :: 1 <= i < |s| ==> (MatchAt(s, i) <==> MatchAt(t, i - 1));
      assert (forall i :: 0 <= i < |s| ==> !MatchAt(s, i)) <==> (forall j :: 0 <= j < |t| ==> !MatchAt(t, j)) by {
        if exists j :: 0 <= j < |t| && MatchAt(t, j) {
          var j :| 0 <= j < |t| && MatchAt(t, j);
          assert MatchAt(s, j + 1);
        }
      }
      HashNumber(t)
  }

  /**
   * The leftmost-match reading of `HashNumber`: it finds a number exactly
   * when `#` is followed by a digit somewhere, and that number is the one
   * captured at the first such place.
   */
  lemma {:induction false} HashNumberIsFirstMatch(s: string)
    ensures HashNumber(s).None? <==> forall i :: 0 <= i < |s| ==> !MatchAt(s, i)
    ensures HashNumber(s).Some? ==> exists i ::
      && MatchAt(s, i)
      && (forall k :: 0 <= k < i ==> !MatchAt(s, k))
      && HashNumber(s) == Some(CapturedAt(s, i))
  {
    if |s| >= 2 && !MatchAt(s, 0) {
      var t := s[1..];
      HashNumberIsFirstMatch(t);
      assert forall i :: 1 <= i < |s| ==> (MatchAt(s, i) <==> MatchAt(t, i - 1));
      if HashNumber(t).Some? {
        var i :| MatchAt(t, i) && (forall k :: 0 <= k < i ==> !MatchAt(t, k)) && HashNumber(t) == Some(CapturedAt(t, i));
        assert t[i + 1..] == s[i + 2..];
        assert MatchAt(s, i + 1) && CapturedAt(s, i + 1) == CapturedAt(t, i);
      }
    }
  }

  function DigitChar(d: nat): (c: char)
    requires d < 10
    ensures IsDigit(c) && DigitValue(c) == d
  {
    ('0' as int + d) as char
  }

  /** The decimal form of `n` as a template literal `${n}` prints it. */
  function Show(n: nat): (r: string)
    ensures |r| > 0 && AllDigits(r)
    ensures DecimalValue(r) == n
  {
    if n < 10 then [DigitChar(n)]
    else
      var r := Show(n / 10) + [DigitChar(n % 10)];
      assert r[..|r| - 1] == Show(n / 10);
      r
  }

  /**
   * The command the new-report alert tells the admin to type parses back to
   * the report's id: `#` followed by the id's decimal form, after any text
   * without `#` and before any text that does not start with a digit, is
   * read as that id.
   */
  lemma {:induction false} HashNumberOfShow(prefix: string, n: nat, suffix: string)
    requires '#' !in prefix
    requires |suffix| == 0 || !IsDigit(suffix[0])
    ensures HashNumber(prefix + "#" + Show(n) + suffix) == Some(n)
  {
    var d := Show(n);
    var t := "#" + d + suffix;
    assert prefix + "#" + d + suffix == prefix + t;
    HashNumberSkipsPrefix(prefix, t);
    assert MatchAt(t, 0);
    assert t[1..] == d + suffix;
    DigitRunOfDigits(d, suffix);
    assert (d + suffix)[..|d|] == d;
  }

  /** Text without `#` before a match does not change what is found. */
  lemma {:induction false} HashNumberSkipsPrefix(prefix: string, t: string)
    requires '#' !in prefix
    ensures HashNumber(prefix + t) == HashNumber(t)
    decreases |prefix|
  {
    if |prefix| > 0 {
      var s := prefix + t;
      assert s[0] == prefix[0] && s[0] != '#';
      assert s[1..] == prefix[1..] + t;
      HashNumberSkipsPrefix(prefix[1..], t);
      if |s| < 2 {
        assert |t| < 2;
      }
    } else {
      assert prefix + t == t;
    }
  }

  lemma {:induction false} DigitRunOfDigits(d: string, suffix: string)
    requires AllDigits(d)
    requires |suffix| == 0 || !IsDigit(suffix[0])
    ensures DigitRun(d + suffix) == |d|
    decreases |d|
  {
    if |d| == 0 {
      assert d + suffix == suffix;
    } else {
      assert (d + suffix)[1..] == d[1..] + suffix;
      DigitRunOfDigits(d[1..], suffix);
    }
  }
}
