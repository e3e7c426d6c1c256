/**
 * The JavaScript string operations the core relies on: `includes`,
 * decimal digits and `parseInt` on digit strings, `String(n)` on a
 * natural number, `padStart(2, '0')`, `split(sep)` and the white space
 * that `trim` removes.
 */
module Strings {

  /** `sub` occurs in `s` starting at index `i`. */
  predicate MatchAt(s: string, sub: string, i: int)
  {
    0 <= i && i + |sub| <= |s| && s[i..i + |sub|] == sub
  }

  /** `s.includes(sub)`. */
  predicate Contains(s: string, sub: string)
  {
    exists i :: 0 <= i <= |s| - |sub| && MatchAt(s, sub, i)
  }

  lemma ContainsMiddle(a: string, sub: string, c: string)
    ensures Contains(a + sub + c, sub)
  {
    var s := a + sub + c;
    assert s[|a|..|a| + |sub|] == sub;
    assert MatchAt(s, sub, |a|);
  }

  /** A string that lacks one of the characters of `sub` does not contain `sub`. */
  lemma MissingChar(s: string, sub: string, k: nat)
    requires k < |sub| && sub[k] !in s
    ensures !Contains(s, sub)
  {
    forall i | 0 <= i && i + |sub| <= |s|
      ensures !MatchAt(s, sub, i)
    {
      assert s[i..i + |sub|][k] == s[i + k];
      assert s[i + k] in s;
    }
  }

  /** A leading part without the first character of `sub` can be dropped. */
  lemma SkipHead(a: string, b: string, sub: string)
    requires |sub| > 0 && sub[0] !in a
    ensures Contains(a + b, sub) ==> Contains(b, sub)
  {
    var s := a + b;
    forall i | 0 <= i < |a|
      ensures !MatchAt(s, sub, i)
    {
      assert s[i] == a[i];
      assert a[i] in a;
      if i + |sub| <= |s| {
        assert s[i..i + |sub|][0] == s[i];
      }
    }
    if Contains(s, sub) {
      var i :| 0 <= i <= |s| - |sub| && MatchAt(s, sub, i);
      assert i >= |a|;
      assert b[i - |a|..i - |a| + |sub|] == s[i..i + |sub|];
      assert MatchAt(b, sub, i - |a|);
    }
  }

  /** A match either starts at the head or lies wholly in the tail. */
  lemma ContainsCons(s: string, sub: string)
    requires |s| > 0
    ensures Contains(s, sub) <==> MatchAt(s, sub, 0) || Contains(s[1..], sub)
  {
    var t := s[1..];
    forall i | 1 <= i <= |s| - |sub|
      ensures MatchAt(s, sub, i) <==> MatchAt(t, sub, i - 1)
    {
      assert t[i - 1..i - 1 + |sub|] == s[1..][i - 1..i - 1 + |sub|] == s[i..i + |sub|];
    }
    if Contains(t, sub) {
      var i :| 0 <= i <= |t| - |sub| && MatchAt(t, sub, i);
      assert MatchAt(s, sub, i + 1);
    }
  }

  predicate IsDigit(c: char)
  {
    '0' <= c <= '9'
  }

  predicate AllDigits(s: string)
  {
    forall i :: 0 <= i < |s| ==> IsDigit(s[i])
  }

  /** A string of decimal digits, possibly empty. */
  type DigitString = s: string | AllDigits(s) witness ""

  function DigitChar(d: nat): (c: char)
    requires d < 10
    ensures IsDigit(c) && c as int - '0' as int == d
  {
    ('0' as int + d) as char
  }

  /** `parseInt(s, 10)` of a digit string; the empty string counts as 0. */
  function ParseDigits(s: string): nat
    requires AllDigits(s)
  {
    if |s| == 0 then 0
    else ParseDigits(s[..|s| - 1]) * 10 + (s[|s| - 1] as int - '0' as int)
  }

  /** `String(n)`: the decimal digits of `n`, without leading zeros. */
  function NatToString(n: nat): (r: string)
    ensures |r| > 0 && AllDigits(r)
    ensures ParseDigits(r) == n
    ensures |r| > 1 ==> r[0] != '0'
  {
    if n < 10 then [DigitChar(n)]
    else
      var r := NatToString(n / 10) + [DigitChar(n % 10)];
      assert r[..|r| - 1] == NatToString(n / 10);
      r
  }

  /** `k` zero digits. */
  function Zeros(k: nat): (r: string)
    ensures |r| == k && forall i :: 0 <= i < k ==> r[i] == '0'
  {
    if k == 0 then "" else "0" + Zeros(k - 1)
  }

  /** Leading zeros do not change the value `parseInt` reads. */
  lemma {:induction false} ParseZeroRun(k: nat, s: string)
    requires AllDigits(s)
    ensures AllDigits(Zeros(k) + s) && ParseDigits(Zeros(k) + s) == ParseDigits(s)
  {
    if k > 0 {
      ParseZeroRun(k - 1, s);
      assert Zeros(k) + s == "0" + (Zeros(k - 1) + s);
      ParseLeadingZero(Zeros(k - 1) + s);
    } else {
      assert Zeros(k) + s == s;
    }
  }

  lemma {:induction false} ParseLeadingZero(s: string)
    requires AllDigits(s)
    ensures AllDigits("0" + s) && ParseDigits("0" + s) == ParseDigits(s)
  {
    var z := "0" + s;
    if |s| > 0 {
      assert z[..|z| - 1] == "0" + s[..|s| - 1];
      ParseLeadingZero(s[..|s| - 1]);
    } else {
      assert z[..|z| - 1] == "";
    }
  }

  /** `s.padStart(2, '0')`. */
  function PadStart2(s: string): (r: string)
    requires AllDigits(s)
    ensures |r| >= 2 && AllDigits(r) && ParseDigits(r) == ParseDigits(s)
    ensures |s| >= 2 ==> r == s
    ensures |s| < 2 ==> |r| == 2 && r[2 - |s|..] == s && forall i :: 0 <= i < 2 - |s| ==> r[i] == '0'
  {
    if |s| >= 2 then s
    else
      ParseLeadingZero(s);
      if |s| == 1 then "0" + s
      else
        ParseLeadingZero("");
        assert "0" + "0" + s == "00";
        "00"
  }

  /** `s.split(sep)` for a one-character separator. */
  function Split(s: string, sep: char): (r: seq<string>)
    ensures |r| > 0
  {
    if |s| == 0 then [""]
    else
      var rest := Split(s[1..], sep);
      if s[0] == sep then [""] + rest
      else [[s[0]] + rest[0]] + rest[1..]
  }

  /** The first field is the longest prefix without the separator. */
  lemma {:induction false} SplitHead(s: string, sep: char)
    ensures var h := Split(s, sep)[0];
      h <= s && sep !in h && (|h| < |s| ==> s[|h|] == sep)
  {
    if |s| > 0 && s[0] != sep {
      SplitHead(s[1..], sep);
    }
  }

  lemma {:induction false} SplitNoSep(a: string, sep: char, b: string)
    requires sep !in a
    ensures Split(a + b, sep) == [a + Split(b, sep)[0]] + Split(b, sep)[1..]
  {
    if |a| > 0 {
      assert (a + b)[1..] == a[1..] + b;
      SplitNoSep(a[1..], sep, b);
      assert [a[0]] + (a[1..] + Split(b, sep)[0]) == a + Split(b, sep)[0];
    } else {
      assert a + b == b;
      assert a + Split(b, sep)[0] == Split(b, sep)[0];
      assert [Split(b, sep)[0]] + Split(b, sep)[1..] == Split(b, sep);
    }
  }

  /** Splitting at the first separator peels off the part before it. */
  lemma SplitAtSep(a: string, sep: char, b: string)
    requires sep !in a
    ensures Split(a + [sep] + b, sep) == [a] + Split(b, sep)
  {
    var t := [sep] + b;
    SplitNoSep(a, sep, t);
    assert a + [sep] + b == a + t;
    assert t[1..] == b;
    assert Split(t, sep) == [""] + Split(b, sep);
    assert a + "" == a;
  }

  lemma SplitWhole(a: string, sep: char)
    requires sep !in a
    ensures Split(a, sep) == [a]
  {
    SplitNoSep(a, sep, "");
    assert a + "" == a;
  }

  /** Two fields without the separator, joined by it, split back into the two. */
  lemma SplitTwo(a: string, b: string, sep: char)
    requires sep !in a && sep !in b
    ensures Split(a + [sep] + b, sep) == [a, b]
  {
    SplitWhole(b, sep);
    SplitAtSep(a, sep, b);
  }

  /** Three fields without the separator, joined by it, split back into the three. */
  lemma SplitThree(a: string, b: string, c: string, sep: char)
    requires sep !in a && sep !in b && sep !in c
    ensures Split(a + [sep] + b + [sep] + c, sep) == [a, b, c]
  {
    var tail := b + [sep] + c;
    assert a + [sep] + b + [sep] + c == a + [sep] + tail;
    assert Split(tail, sep) == [b, c] by { SplitTwo(b, c, sep); }
    assert Split(a + [sep] + tail, sep) == [a] + Split(tail, sep) by { SplitAtSep(a, sep, tail); }
  }

  /**
   * The characters JavaScript's `trim` removes: the WhiteSpace and
   * LineTerminator code points of the ECMAScript grammar (TAB, VT, FF,
   * ZWNBSP, every "Zs" space separator, LF, CR, LS and PS).
   */
  predicate IsWhiteSpace(c: char)
  {
    c == '\t' || c == '\U{B}' || c == '\U{C}' || c == ' ' || c == '\U{A0}'
    || c == '\U{FEFF}' || c == '\U{1680}' || ('\U{2000}' <= c <= '\U{200A}')
    || c == '\U{202F}' || c == '\U{205F}' || c == '\U{3000}'
    || c == '\n' || c == '\r' || c == '\U{2028}' || c == '\U{2029}'
  }

  /** `s.trim() === ""`. */
  predicate IsBlank(s: string)
  {
    forall i :: 0 <= i < |s| ==> IsWhiteSpace(s[i])
  }
}
