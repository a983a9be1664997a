/**
 * The few Python string operations the organizer relies on, written out on
 * `seq<char>`: `str.strip()`, `str.lower()`, `os.path.splitext`,
 * `str.split(sep)` and `str(n)` for a non-negative integer.
 */
module Strings {

  /** The characters for which Python's `str.isspace()` holds. */
  predicate IsSpace(c: char)
  {
    || ('\t' <= c <= '\r')
    || ('\U{1C}' <= c <= '\U{1F}')
    || c == ' '
    || c == '\U{85}'
    || c == '\U{A0}'
    || c == '\U{1680}'
    || ('\U{2000}' <= c <= '\U{200A}')
    || c == '\U{2028}'
    || c == '\U{2029}'
    || c == '\U{202F}'
    || c == '\U{205F}'
    || c == '\U{3000}'
  }

  predicate AllSpace(s: string)
  {
    forall i :: 0 <= i < |s| ==> IsSpace(s[i])
  }

  /** Drops the leading whitespace. */
  function TrimStart(s: string): (r: string)
    ensures |r| <= |s| && r == s[|s| - |r|..]
    ensures AllSpace(s[..|s| - |r|])
    ensures r == [] || !IsSpace(r[0])
  {
    if s != [] && IsSpace(s[0]) then TrimStart(s[1..]) else s
  }

  /** Drops the trailing whitespace. */
  function TrimEnd(s: string): (r: string)
    ensures |r| <= |s| && r == s[..|r|]
    ensures AllSpace(s[|r|..])
    ensures r == [] || !IsSpace(r[|r| - 1])
  {
    if s != [] && IsSpace(s[|s| - 1]) then
      var init := s[..|s| - 1];
      var r := TrimEnd(init);
      assert init[..|r|] == s[..|r|];
      assert s[|r|..] == init[|r|..] + [s[|s| - 1]];
      r
    else s
  }

  /** Python's `s.strip()`: `s` without its leading and trailing whitespace. */
  function Strip(s: string): (r: string)
    ensures r == [] || (!IsSpace(r[0]) && !IsSpace(r[|r| - 1]))
    ensures r == [] <==> AllSpace(s)
  {
    var r := TrimEnd(TrimStart(s));
    StripFacts(s, |s| - |TrimStart(s)|, r);
    r
  }

  /** What `strip` removes is whitespace, from either end only. */
  lemma StripIsSlice(s: string)
    ensures exists i :: 0 <= i <= |s| - |Strip(s)| && Strip(s) == s[i..i + |Strip(s)|]
                        && AllSpace(s[..i]) && AllSpace(s[i + |Strip(s)|..])
  {
    StripFacts(s, |s| - |TrimStart(s)|, Strip(s));
  }

  lemma StripFacts(s: string, i: int, r: string)
    requires i == |s| - |TrimStart(s)| && r == TrimEnd(TrimStart(s))
    ensures 0 <= i <= |s| - |r| && r == s[i..i + |r|]
    ensures AllSpace(s[..i]) && AllSpace(s[i + |r|..])
    ensures r == [] <==> AllSpace(s)
    ensures r == [] || (!IsSpace(r[0]) && !IsSpace(r[|r| - 1]))
  {
    var t := TrimStart(s);
    TrimmedSlice(s, i, t, r);
    assert r == [] || r[0] == t[0];
    StripEmptyIffAllSpace(s, i, t, r);
  }

  lemma TrimmedSlice(s: string, i: int, t: string, r: string)
    requires 0 <= i <= |s| && t == s[i..]
    requires |r| <= |t| && r == t[..|r|] && AllSpace(t[|r|..])
    ensures i + |r| <= |s| && r == s[i..i + |r|] && AllSpace(s[i + |r|..])
  {
    assert s[i..i + |r|] == t[..|r|];
    assert s[i + |r|..] == t[|r|..];
  }

  lemma StripEmptyIffAllSpace(s: string, i: int, t: string, r: string)
    requires 0 <= i <= |s| && t == s[i..] && AllSpace(s[..i])
    requires t == [] || !IsSpace(t[0])
    requires |r| <= |t| && r == t[..|r|] && AllSpace(t[|r|..])
    ensures r == [] <==> AllSpace(s)
  {
    if r == [] {
      assert t[|r|..] == t;
      assert t == [];
      forall k | 0 <= k < |s| ensures IsSpace(s[k]) {
        assert s[..i][k] == s[k];
      }
    } else {
      assert s[i] == t[0];
    }
  }

  /** Python's `str.lower()` on one character; only ASCII letters are mapped. */
  function LowerChar(c: char): (r: char)
  {
    if 'A' <= c <= 'Z' then (c as int + 32) as char else c
  }

  predicate IsLower(s: string)
  {
    forall i :: 0 <= i < |s| ==> !('A' <= s[i] <= 'Z')
  }

  /** Python's `s.lower()` (ASCII letters only). */
  function Lower(s: string): (r: string)
    ensures |r| == |s|
    ensures forall i :: 0 <= i < |s| ==> r[i] == LowerChar(s[i])
    ensures IsLower(r)
  {
    if s == [] then [] else [LowerChar(s[0])] + Lower(s[1..])
  }

  /** Lower-casing a lower-case string changes nothing, so `Lower` is idempotent. */
  lemma LowerOfLower(s: string)
    requires IsLower(s)
    ensures Lower(s) == s
  {
  }

  // ---------------------------------------------------------------------
  // os.path.splitext on a file name (a path component, so no separator)
  // ---------------------------------------------------------------------

  /** Index of the last '.', or -1 when there is none. */
  function LastDot(s: string): (r: int)
    ensures -1 <= r < |s|
    ensures r >= 0 ==> s[r] == '.'
    ensures forall k :: r < k < |s| ==> s[k] != '.'
  {
    if s == [] then -1
    else if s[|s| - 1] == '.' then |s| - 1
    else LastDot(s[..|s| - 1])
  }

  predicate AllDots(s: string)
  {
    forall i :: 0 <= i < |s| ==> s[i] == '.'
  }

  /**
   * `os.path.splitext(name)`: the extension starts at the last dot, unless
   * every character before that dot is itself a dot (".bashrc", "..", "...x"),
   * in which case there is no extension.
   */
  function SplitExt(name: string): (r: (string, string))
    ensures r.0 + r.1 == name
    ensures r.1 != [] ==> r.1[0] == '.' && !AllDots(r.0)
                          && forall k :: 1 <= k < |r.1| ==> r.1[k] != '.'
    ensures r.1 == [] <==> forall i, j :: 0 <= i < j < |name| && name[i] != '.' ==> name[j] != '.'
  {
    var d := LastDot(name);
    if d >= 0 && !AllDots(name[..d]) then
      var r := (name[..d], name[d..]);
      assert forall k :: 1 <= k < |r.1| ==> r.1[k] == name[d + k];
      var i :| 0 <= i < d && name[..d][i] != '.';
      assert name[i] != '.' && name[d] == '.';
      r
    else
      assert forall i, j :: 0 <= i < j < |name| && name[i] != '.' ==> name[j] != '.' by {
        forall i | 0 <= i < d ensures name[i] == '.' {
          assert name[..d][i] == name[i];
        }
      }
      (name, [])
  }

  /** A dot-free stem followed by a one-dot extension splits back into the two. */
  lemma SplitExtOfDotted(stem: string, ext: string)
    requires stem != [] && '.' !in stem
    requires ext != [] && ext[0] == '.' && '.' !in ext[1..]
    ensures SplitExt(stem + ext) == (stem, ext)
  {
    var name := stem + ext;
    var d := LastDot(name);
    assert name[|stem|] == '.';
    forall k | |stem| < k < |name| ensures name[k] != '.' {
      assert name[k] == ext[1..][k - |stem| - 1];
    }
    assert name[..d] == stem;
    assert !AllDots(stem) by { assert stem[0] != '.'; }
    assert name[d..] == ext;
  }

  /** The lower-cased extension of a file name, as the organizer compares it. */
  function ExtOf(name: string): (r: string)
    ensures IsLower(r)
    ensures r == [] || r[0] == '.'
  {
    Lower(SplitExt(name).1)
  }

  // ---------------------------------------------------------------------
  // str.split(sep)
  // ---------------------------------------------------------------------

  /** `s.split(sep)[0]`: everything before the first `sep`, or all of `s`. */
  function FirstField(s: string, sep: char): (r: string)
    ensures |r| <= |s| && r == s[..|r|]
    ensures sep !in r
    ensures |r| == |s| || s[|r|] == sep
  {
    if s == [] || s[0] == sep then [] else [s[0]] + FirstField(s[1..], sep)
  }

  /** Python's `s.split(sep)` for a one-character separator. */
  function Split(s: string, sep: char): (parts: seq<string>)
    ensures |parts| >= 1
    ensures forall k :: 0 <= k < |parts| ==> sep !in parts[k]
    ensures Join(parts, sep) == s
    decreases |s|
  {
    var f := FirstField(s, sep);
    if |f| == |s| then [s]
    else
      var rest := Split(s[|f| + 1..], sep);
      assert s == f + [sep] + s[|f| + 1..];
      [f] + rest
  }

  /** `sep.join(parts)`. */
  function Join(parts: seq<string>, sep: char): (s: string)
    requires |parts| >= 1
  {
    if |parts| == 1 then parts[0] else parts[0] + [sep] + Join(parts[1..], sep)
  }

  /** Splitting the join of separator-free pieces gives back the pieces. */
  lemma {:induction false} SplitJoin(parts: seq<string>, sep: char)
    requires |parts| >= 1
    requires forall k :: 0 <= k < |parts| ==> sep !in parts[k]
    ensures Split(Join(parts, sep), sep) == parts
  {
    var s := Join(parts, sep);
    var p := parts[0];
    if |parts| == 1 {
      FirstFieldOfFree(p, [], sep);
      assert p + [] == p;
    } else {
      var tail := Join(parts[1..], sep);
      assert s == p + ([sep] + tail);
      FirstFieldOfFree(p, [sep] + tail, sep);
      assert s[|p| + 1..] == tail;
      SplitJoin(parts[1..], sep);
      assert [p] + parts[1..] == parts;
    }
  }

  lemma {:induction false} FirstFieldOfFree(a: string, b: string, sep: char)
    requires sep !in a
    requires b == [] || b[0] == sep
    ensures FirstField(a + b, sep) == a
  {
    if a != [] {
      assert (a + b)[1..] == a[1..] + b;
      FirstFieldOfFree(a[1..], b, sep);
    }
  }

  // ---------------------------------------------------------------------
  // str(n) for n >= 0
  // ---------------------------------------------------------------------

  predicate IsDigit(c: char)
  {
    '0' <= c <= '9'
  }

  predicate AllDigits(s: string)
  {
    forall i :: 0 <= i < |s| ==> IsDigit(s[i])
  }

  function DigitChar(d: nat): (c: char)
    requires d < 10
    ensures IsDigit(c) && c as int - '0' as int == d
  {
    (d + '0' as int) as char
  }

  /** Python's `str(n)` for a non-negative integer: decimal, no leading zero. */
  function Dec(n: nat): (s: string)
    ensures |s| >= 1
    ensures AllDigits(s)
    ensures |s| > 1 ==> s[0] != '0'
  {
    if n < 10 then [DigitChar(n)] else Dec(n / 10) + [DigitChar(n % 10)]
  }

  /** The number a string of decimal digits denotes. */
  function DecValue(s: string): (n: nat)
    requires AllDigits(s)
  {
    if s == [] then 0
    else
      var last := s[|s| - 1];
      assert IsDigit(last);
      DecValue(s[..|s| - 1]) * 10 + (last as int - '0' as int)
  }

  /** Reading back the decimal text of `n` gives `n`. */
  lemma {:induction false} DecRoundTrip(n: nat)
    ensures DecValue(Dec(n)) == n
  {
    var s := Dec(n);
    if n >= 10 {
      DecRoundTrip(n / 10);
      assert s[..|s| - 1] == Dec(n / 10);
    } else {
      assert s[..|s| - 1] == [];
    }
  }

  /** Distinct numbers have distinct decimal texts. */
  lemma DecInjective(m: nat, n: nat)
    requires Dec(m) == Dec(n)
    ensures m == n
  {
    DecRoundTrip(m);
    DecRoundTrip(n);
  }

  /** Digits without a leading zero that start with a non-zero digit denote a positive number. */
  lemma {:induction false} DecPositive(s: string)
    requires |s| >= 1 && AllDigits(s) && s[0] != '0'
    ensures DecValue(s) >= 1
  {
    if |s| > 1 {
      DecPositive(s[..|s| - 1]);
    }
  }

  /**
   * `str(n)` is the only decimal text of `n` without a leading zero: any such
   * text is the `Dec` of the number it denotes.
   */
  lemma {:induction false} DecCanonical(s: string)
    requires |s| >= 1 && AllDigits(s)
    requires |s| > 1 ==> s[0] != '0'
    ensures Dec(DecValue(s)) == s
  {
    var init, last := s[..|s| - 1], s[|s| - 1];
    var d := last as int - '0' as int;
    if |s| == 1 {
      assert init == [];
      assert DigitChar(d) == last;
      assert s == [last];
    } else {
      DecCanonical(init);
      DecPositive(init);
      var n := DecValue(s);
      assert n == DecValue(init) * 10 + d;
      assert n / 10 == DecValue(init) && n % 10 == d;
      assert DigitChar(d) == last;
      assert s == init + [last];
    }
  }
}
