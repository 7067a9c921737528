/** A value that may be absent: a command that failed, a search without a match. */
module Options {
  datatype Option<+T> = None | Some(value: T)
}

/**
 * The pieces of Python's `str` and `int` behaviour that both scripts rely on,
 * written over `string` (a sequence of characters): `strip`, `split`, `join`,
 * `lower`, `in` on strings, `str(n)` and `int(s)`.
 */
module Text {
  import opened Options

  // ---------------------------------------------------------------------------
  // Whitespace and strip()
  // ---------------------------------------------------------------------------

  /** Python's `str.isspace()` for one character: the ASCII whitespace, the four
      ASCII information separators and the Unicode space characters. */
  predicate IsSpace(c: char) {
    var n := c as int;
    (9 <= n <= 13) || (28 <= n <= 32) || n == 0x85 || n == 0xA0 || n == 0x1680
    || (0x2000 <= n <= 0x200A) || n == 0x2028 || n == 0x2029 || n == 0x202F
    || n == 0x205F || n == 0x3000
  }

  /** A string with no whitespace at either end: what `strip()` leaves unchanged. */
  predicate IsStripped(s: string) {
    s == [] || (!IsSpace(s[0]) && !IsSpace(s[|s| - 1]))
  }

  /** `str.lstrip()`: the suffix left after dropping the leading whitespace. */
  function StripLeft(s: string): (r: string)
    ensures |r| <= |s|
    ensures r == [] || !IsSpace(r[0])
  {
    if |s| > 0 && IsSpace(s[0]) then StripLeft(s[1..]) else s
  }

  /** `str.rstrip()`: the prefix left after dropping the trailing whitespace. */
  function StripRight(s: string): (r: string)
    ensures |r| <= |s|
    ensures r == [] || (!IsSpace(r[|r| - 1]) && r[0] == s[0])
  {
    if |s| > 0 && IsSpace(s[|s| - 1]) then StripRight(s[..|s| - 1]) else s
  }

  /** `str.strip()`. */
  function Strip(s: string): (r: string)
    ensures IsStripped(r)
  {
    StripRight(StripLeft(s))
  }

  /** `lstrip()` keeps a suffix and drops whitespace only. */
  lemma {:induction false} StripLeftIsSuffix(s: string)
    ensures StripLeft(s) == s[|s| - |StripLeft(s)|..]
    ensures forall i :: 0 <= i < |s| - |StripLeft(s)| ==> IsSpace(s[i])
  {
    if |s| > 0 && IsSpace(s[0]) {
      var t := s[1..];
      StripLeftIsSuffix(t);
      assert s[|s| - |StripLeft(s)|..] == t[|t| - |StripLeft(t)|..];
      forall i | 1 <= i < |s| - |StripLeft(s)| ensures IsSpace(s[i]) {
        assert s[i] == t[i - 1];
      }
    }
  }

  /** `rstrip()` keeps a prefix and drops whitespace only. */
  lemma {:induction false} StripRightIsPrefix(s: string)
    ensures StripRight(s) == s[..|StripRight(s)|]
    ensures forall i :: |StripRight(s)| <= i < |s| ==> IsSpace(s[i])
  {
    if |s| > 0 && IsSpace(s[|s| - 1]) {
      var t := s[..|s| - 1];
      StripRightIsPrefix(t);
      assert s[..|StripRight(s)|] == t[..|StripRight(t)|];
      forall i | |StripRight(s)| <= i < |s| - 1 ensures IsSpace(s[i]) {
        assert s[i] == t[i];
      }
    }
  }

  /** `strip()` returns the infix `s[i..j]` such that everything outside it is
      whitespace (and, by its contract, the infix has none at either end). */
  lemma StripIsTrimmedInfix(s: string)
    ensures exists i, j :: 0 <= i <= j <= |s| && Strip(s) == s[i..j]
              && (forall k :: 0 <= k < i ==> IsSpace(s[k]))
              && (forall k :: j <= k < |s| ==> IsSpace(s[k]))
  {
    StripLeftIsSuffix(s);
    StripRightIsPrefix(StripLeft(s));
    TrimmedInfix(IsSpace, s, StripLeft(s), Strip(s));
  }

  /** A prefix `r` of a suffix `l` of `s`, with only whitespace cut off on
      either side, is an infix of `s` with only whitespace outside it. */
  lemma TrimmedInfix(space: char -> bool, s: string, l: string, r: string)
    requires |l| <= |s| && l == s[|s| - |l|..]
    requires |r| <= |l| && r == l[..|r|]
    requires forall k :: 0 <= k < |s| - |l| ==> space(s[k])
    requires forall k :: |r| <= k < |l| ==> space(l[k])
    ensures exists i, j :: 0 <= i <= j <= |s| && r == s[i..j]
              && (forall k :: 0 <= k < i ==> space(s[k]))
              && (forall k :: j <= k < |s| ==> space(s[k]))
  {
    var i := |s| - |l|;
    var j := i + |r|;
    assert r == s[i..j];
    forall k | j <= k < |s| ensures space(s[k]) {
      assert s[k] == l[k - i];
    }
  }

  /** Whitespace in front of a string does not survive `strip()`. */
  lemma StripDropsLeadingSpace(c: char, s: string)
    requires IsSpace(c)
    ensures Strip([c] + s) == Strip(s)
  {
    assert ([c] + s)[1..] == s;
  }

  /** `strip()` adds no character. */
  lemma StripKeepsAbsent(s: string, c: char)
    requires c !in s
    ensures c !in Strip(s)
  {
    StripIsTrimmedInfix(s);
    var i, j :| 0 <= i <= j <= |s| && Strip(s) == s[i..j];
    assert forall x :: x in s[i..j] ==> x in s;
  }

  lemma StrippedIsFixed(s: string)
    requires IsStripped(s)
    ensures Strip(s) == s
  {
  }

  /** One whitespace character after a stripped string is all `strip()` removes. */
  lemma StripDropsTrailingSpace(s: string, c: char)
    requires IsStripped(s) && IsSpace(c)
    ensures Strip(s + [c]) == s
  {
    var t := s + [c];
    if |s| == 0 {
      assert StripLeft(t) == StripLeft([]);
    } else {
      assert t[0] == s[0];
      assert StripLeft(t) == t;
      assert t[..|t| - 1] == s;
      assert StripRight(t) == StripRight(s);
    }
  }

  // ---------------------------------------------------------------------------
  // Counting, split() and join()
  // ---------------------------------------------------------------------------

  /** `s.count(c)` for a single character. */
  function Count(s: string, c: char): (n: nat)
    ensures n <= |s|
    ensures n == 0 <==> c !in s
  {
    if |s| == 0 then 0 else (if s[0] == c then 1 else 0) + Count(s[1..], c)
  }

  /** `s.split(c)`: the pieces between occurrences of `c`, empty ones included. */
  function SplitOn(s: string, c: char): (r: seq<string>)
    ensures |r| == Count(s, c) + 1
    ensures forall i :: 0 <= i < |r| ==> c !in r[i]
  {
    if |s| == 0 then [""]
    else
      var rest := SplitOn(s[1..], c);
      if s[0] == c then [""] + rest else [[s[0]] + rest[0]] + rest[1..]
  }

  /** `sep.join(parts)`. */
  function JoinWith(parts: seq<string>, sep: string): string {
    if |parts| == 0 then ""
    else if |parts| == 1 then parts[0]
    else parts[0] + sep + JoinWith(parts[1..], sep)
  }

  lemma {:induction false} SplitOnWithoutSeparator(s: string, c: char)
    requires c !in s
    ensures SplitOn(s, c) == [s]
  {
    if |s| > 0 {
      SplitOnWithoutSeparator(s[1..], c);
      assert [s[0]] + s[1..] == s;
    }
  }

  /** Splitting at the first separator. */
  lemma {:induction false} SplitOnAppend(a: string, c: char, b: string)
    requires c !in a
    ensures SplitOn(a + [c] + b, c) == [a] + SplitOn(b, c)
  {
    if |a| == 0 {
      assert a + [c] + b == [c] + b;
      assert ([c] + b)[1..] == b;
    } else {
      assert (a + [c] + b)[1..] == a[1..] + [c] + b;
      SplitOnAppend(a[1..], c, b);
      assert [a[0]] + a[1..] == a;
    }
  }

  /** Split undoes join when no part contains the separator. */
  lemma {:induction false} SplitOnJoin(parts: seq<string>, c: char)
    requires |parts| > 0
    requires forall i :: 0 <= i < |parts| ==> c !in parts[i]
    ensures SplitOn(JoinWith(parts, [c]), c) == parts
  {
    if |parts| == 1 {
      SplitOnWithoutSeparator(parts[0], c);
    } else {
      SplitOnJoin(parts[1..], c);
      SplitOnAppend(parts[0], c, JoinWith(parts[1..], [c]));
      assert [parts[0]] + parts[1..] == parts;
    }
  }

  /** Join undoes split, for every string. */
  lemma {:induction false} JoinSplitOn(s: string, c: char)
    ensures JoinWith(SplitOn(s, c), [c]) == s
  {
    if |s| > 0 {
      var rest := SplitOn(s[1..], c);
      JoinSplitOn(s[1..], c);
      if s[0] == c {
        assert ([""] + rest)[1..] == rest;
        assert JoinWith([""] + rest, [c]) == "" + [c] + JoinWith(rest, [c]);
      } else {
        JoinWithFirstGrown(s[0], rest, [c]);
      }
      assert [s[0]] + s[1..] == s;
    }
  }

  /** Growing the first part of a join grows the join at its front. */
  lemma JoinWithFirstGrown(x: char, parts: seq<string>, sep: string)
    requires |parts| > 0
    ensures JoinWith([[x] + parts[0]] + parts[1..], sep) == [x] + JoinWith(parts, sep)
  {
    var grown := [[x] + parts[0]] + parts[1..];
    if |parts| > 1 {
      assert grown[1..] == parts[1..];
    }
  }

  /** Joining two non-empty lists is joining their joins. */
  lemma {:induction false} JoinWithAppend(a: seq<string>, b: seq<string>, sep: string)
    requires |a| > 0 && |b| > 0
    ensures JoinWith(a + b, sep) == JoinWith(a, sep) + sep + JoinWith(b, sep)
  {
    if |a| == 1 {
      assert (a + b)[1..] == b;
    } else {
      assert (a + b)[1..] == a[1..] + b;
      JoinWithAppend(a[1..], b, sep);
    }
  }

  /** A character in neither the parts nor the separator is not in their join. */
  lemma {:induction false} JoinWithAvoids(parts: seq<string>, sep: string, c: char)
    requires c !in sep
    requires forall i :: 0 <= i < |parts| ==> c !in parts[i]
    ensures c !in JoinWith(parts, sep)
  {
    if |parts| > 1 {
      JoinWithAvoids(parts[1..], sep, c);
    }
  }

  /** Joining `k` separator-free parts puts exactly `k - 1` separators in. */
  lemma JoinWithCount(parts: seq<string>, c: char)
    requires |parts| > 0
    requires forall i :: 0 <= i < |parts| ==> c !in parts[i]
    ensures Count(JoinWith(parts, [c]), c) == |parts| - 1
  {
    SplitOnJoin(parts, c);
  }

  // ---------------------------------------------------------------------------
  // Substrings, character removal, lower()
  // ---------------------------------------------------------------------------

  /** `t in s` for strings: `t` occurs somewhere in `s`. */
  predicate Contains(s: string, t: string) {
    exists i :: 0 <= i <= |s| - |t| && OccursAt(s, t, i)
  }

  predicate OccursAt(s: string, t: string, i: int) {
    0 <= i <= |s| - |t| && s[i..i + |t|] == t
  }

  /** `s.replace(c, '')` for a single character. */
  function RemoveChar(s: string, c: char): (r: string)
    ensures c !in r
  {
    if |s| == 0 then ""
    else (if s[0] == c then "" else [s[0]]) + RemoveChar(s[1..], c)
  }

  /** What is left is every other character of `s`. */
  lemma {:induction false} RemoveCharMembers(s: string, c: char)
    ensures forall x :: x in RemoveChar(s, c) <==> x in s && x != c
  {
    if |s| > 0 {
      RemoveCharMembers(s[1..], c);
      assert s == [s[0]] + s[1..];
    }
  }

  lemma {:induction false} RemoveCharAppend(a: string, b: string, c: char)
    ensures RemoveChar(a + b, c) == RemoveChar(a, c) + RemoveChar(b, c)
  {
    if |a| > 0 {
      assert (a + b)[1..] == a[1..] + b;
      RemoveCharAppend(a[1..], b, c);
    } else {
      assert a + b == b;
    }
  }

  /** Deleting one character leaves the count of another unchanged. */
  lemma {:induction false} RemoveCharCount(s: string, b: char, c: char)
    requires b != c
    ensures Count(RemoveChar(s, b), c) == Count(s, c)
  {
    if |s| > 0 {
      RemoveCharCount(s[1..], b, c);
      var head: string := if s[0] == b then "" else [s[0]];
      assert RemoveChar(s, b) == head + RemoveChar(s[1..], b);
      CountAppend(head, RemoveChar(s[1..], b), c);
    }
  }

  lemma {:induction false} CountAppend(a: string, b: string, c: char)
    ensures Count(a + b, c) == Count(a, c) + Count(b, c)
  {
    if |a| > 0 {
      assert (a + b)[1..] == a[1..] + b;
      CountAppend(a[1..], b, c);
    } else {
      assert a + b == b;
    }
  }

  lemma {:induction false} RemoveCharAbsent(s: string, c: char)
    requires c !in s
    ensures RemoveChar(s, c) == s
  {
    if |s| > 0 {
      RemoveCharAbsent(s[1..], c);
      assert [s[0]] + s[1..] == s;
    }
  }

  /** `str.lower()` on one character, for the ASCII letters. */
  function LowerChar(c: char): char {
    if 'A' <= c <= 'Z' then (c as int + 32) as char else c
  }

  /** `str.lower()`, for the ASCII letters. */
  function Lower(s: string): (r: string)
    ensures |r| == |s|
  {
    if |s| == 0 then [] else [LowerChar(s[0])] + Lower(s[1..])
  }

  /** Each character is lowered on its own. */
  lemma {:induction false} LowerAt(s: string)
    ensures forall i :: 0 <= i < |s| ==> Lower(s)[i] == LowerChar(s[i])
  {
    if |s| > 0 {
      LowerAt(s[1..]);
    }
  }

  /** Lowering twice is lowering once. */
  lemma {:induction false} LowerIdempotent(s: string)
    ensures Lower(Lower(s)) == Lower(s)
  {
    if |s| > 0 {
      LowerIdempotent(s[1..]);
      assert Lower(s)[1..] == Lower(s[1..]);
    }
  }

  // ---------------------------------------------------------------------------
  // Decimal numerals: str(n) and int(s)
  // ---------------------------------------------------------------------------

  predicate IsDigit(c: char) {
    '0' <= c <= '9'
  }

  predicate AllDigits(s: string) {
    forall i :: 0 <= i < |s| ==> IsDigit(s[i])
  }

  /** The value of a run of decimal digits, most significant first. */
  function DigitsValue(s: string): nat
    requires AllDigits(s)
  {
    if |s| == 0 then 0
    else DigitsValue(s[..|s| - 1]) * 10 + (s[|s| - 1] as int - '0' as int)
  }

  /** `str(n)` for a natural number: its shortest decimal numeral. */
  function NatToString(n: nat): (r: string)
    ensures |r| > 0 && AllDigits(r)
    ensures DigitsValue(r) == n
    ensures r[0] == '0' ==> n == 0
  {
    var d := ['0' + (n % 10) as char];
    if n < 10 then d
    else
      var r := NatToString(n / 10) + d;
      assert r[..|r| - 1] == NatToString(n / 10);
      r
  }

  /** `str(n)` for an integer. */
  function IntToString(n: int): (r: string)
    ensures |r| > 0
    ensures forall i :: 0 <= i < |r| ==> IsDigit(r[i]) || (i == 0 && r[i] == '-')
  {
    if n < 0 then "-" + NatToString(-n) else NatToString(n)
  }

  /** Digits with single underscores between them: the numerals `int()` accepts. */
  predicate WellFormedDigits(d: string) {
    && |d| > 0 && IsDigit(d[0]) && IsDigit(d[|d| - 1])
    && (forall i :: 0 <= i < |d| ==> IsDigit(d[i]) || d[i] == '_')
    && (forall i :: 0 <= i < |d| - 1 ==> d[i] != '_' || d[i + 1] != '_')
  }

  function DigitGroupsValue(d: string): Option<nat> {
    if WellFormedDigits(d) then
      RemoveSeparatorsLeavesDigits(d);
      Some(DigitsValue(RemoveChar(d, '_')))
    else None
  }

  lemma {:induction false} RemoveSeparatorsLeavesDigits(d: string)
    requires forall i :: 0 <= i < |d| ==> IsDigit(d[i]) || d[i] == '_'
    ensures AllDigits(RemoveChar(d, '_'))
  {
    if |d| > 0 {
      RemoveSeparatorsLeavesDigits(d[1..]);
    }
  }

  /** The whitespace `int()` skips around a numeral: what `str.isspace()` calls
      whitespace except the four information separators U+001C..U+001F, which
      `int()` passes on as they are and then refuses. */
  predicate IsIntSpace(c: char) {
    IsSpace(c) && !(28 <= c as int <= 31)
  }

  /** The leading whitespace `int()` skips. */
  function IntStripLeft(s: string): (r: string)
    ensures |r| <= |s|
    ensures r == [] || !IsIntSpace(r[0])
  {
    if |s| > 0 && IsIntSpace(s[0]) then IntStripLeft(s[1..]) else s
  }

  /** The trailing whitespace `int()` skips. */
  function IntStripRight(s: string): (r: string)
    ensures |r| <= |s|
    ensures r == [] || (!IsIntSpace(r[|r| - 1]) && r[0] == s[0])
  {
    if |s| > 0 && IsIntSpace(s[|s| - 1]) then IntStripRight(s[..|s| - 1]) else s
  }

  /** What `int()` reads once the whitespace around the numeral is skipped. */
  function IntStrip(s: string): (r: string)
    ensures r == [] || (!IsIntSpace(r[0]) && !IsIntSpace(r[|r| - 1]))
  {
    IntStripRight(IntStripLeft(s))
  }

  /** The leading skip keeps a suffix and drops such whitespace only. */
  lemma {:induction false} IntStripLeftIsSuffix(s: string)
    ensures IntStripLeft(s) == s[|s| - |IntStripLeft(s)|..]
    ensures forall i :: 0 <= i < |s| - |IntStripLeft(s)| ==> IsIntSpace(s[i])
  {
    if |s| > 0 && IsIntSpace(s[0]) {
      var t := s[1..];
      IntStripLeftIsSuffix(t);
      assert s[|s| - |IntStripLeft(s)|..] == t[|t| - |IntStripLeft(t)|..];
      forall i | 1 <= i < |s| - |IntStripLeft(s)| ensures IsIntSpace(s[i]) {
        assert s[i] == t[i - 1];
      }
    }
  }

  /** The trailing skip keeps a prefix and drops such whitespace only. */
  lemma {:induction false} IntStripRightIsPrefix(s: string)
    ensures IntStripRight(s) == s[..|IntStripRight(s)|]
    ensures forall i :: |IntStripRight(s)| <= i < |s| ==> IsIntSpace(s[i])
  {
    if |s| > 0 && IsIntSpace(s[|s| - 1]) {
      var t := s[..|s| - 1];
      IntStripRightIsPrefix(t);
      assert s[..|IntStripRight(s)|] == t[..|IntStripRight(t)|];
      forall i | |IntStripRight(s)| <= i < |s| - 1 ensures IsIntSpace(s[i]) {
        assert s[i] == t[i];
      }
    }
  }

  /** `int()` reads the infix `s[i..j]` such that everything outside it is
      whitespace it skips (and, by the contract of `IntStrip`, the infix has
      none at either end). */
  lemma IntStripIsTrimmedInfix(s: string)
    ensures exists i, j :: 0 <= i <= j <= |s| && IntStrip(s) == s[i..j]
              && (forall k :: 0 <= k < i ==> IsIntSpace(s[k]))
              && (forall k :: j <= k < |s| ==> IsIntSpace(s[k]))
  {
    IntStripLeftIsSuffix(s);
    IntStripRightIsPrefix(IntStripLeft(s));
    TrimmedInfix(IsIntSpace, s, IntStripLeft(s), IntStrip(s));
  }

  /** A text without such whitespace at either end is read as it is. */
  lemma IntStripFixes(s: string)
    requires s == [] || (!IsIntSpace(s[0]) && !IsIntSpace(s[|s| - 1]))
    ensures IntStrip(s) == s
  {
  }

  /** `int(s)` with base 10: surrounding whitespace, an optional sign and a
      numeral; `None` where Python raises `ValueError`. */
  function ParseInt(s: string): Option<int> {
    var t := IntStrip(s);
    if |t| > 0 && (t[0] == '-' || t[0] == '+') then
      match DigitGroupsValue(t[1..])
      case None => None
      case Some(v) =>
        var n: int := if t[0] == '-' then -(v as int) else v;
        Some(n)
    else DigitGroupsValue(t)
  }

  lemma DigitsAreStripped(s: string)
    requires AllDigits(s)
    ensures IsStripped(s)
  {
  }

  /** `int(t)` for a minus sign followed by a run of ASCII digits. */
  lemma ParseNegativeDigits(t: string)
    requires |t| > 1 && t[0] == '-' && AllDigits(t[1..])
    ensures ParseInt(t) == Some(0 - DigitsValue(t[1..]))
  {
    assert t[|t| - 1] == t[1..][|t| - 2];
    IntStripFixes(t);
    PlainDigitsValue(t[1..]);
    ParseMinus(t, DigitsValue(t[1..]));
  }

  lemma PlainDigitsValue(d: string)
    requires |d| > 0 && AllDigits(d)
    ensures DigitGroupsValue(d) == Some(DigitsValue(d))
  {
    DigitsHaveNoSeparator(d);
    assert WellFormedDigits(d);
  }

  lemma ParseMinus(t: string, v: nat)
    requires IntStrip(t) == t && |t| > 0 && t[0] == '-'
    requires DigitGroupsValue(t[1..]) == Some(v)
    ensures ParseInt(t) == Some(-(v as int))
  {
  }

  lemma DigitsHaveNoSeparator(d: string)
    requires AllDigits(d)
    ensures '_' !in d && RemoveChar(d, '_') == d
  {
    assert !IsDigit('_');
    RemoveCharAbsent(d, '_');
  }

  lemma ParseNatToString(n: nat)
    ensures ParseInt(NatToString(n)) == Some(n)
  {
    var t := NatToString(n);
    DigitsAreStripped(t);
    IntStripFixes(t);
    assert !IsDigit('_');
    assert '_' !in t;
    RemoveCharAbsent(t, '_');
  }

  /** `int(str(n)) == n`. */
  lemma ParseIntToString(n: int)
    ensures ParseInt(IntToString(n)) == Some(n)
  {
    if n < 0 {
      assert IntToString(n)[1..] == NatToString(-n);
      ParseNegativeDigits(IntToString(n));
    } else {
      ParseNatToString(n);
    }
  }

  /** `int()` skips a space and a newline around a numeral, but refuses an
      information separator in front of it. */
  lemma ParseIntWhitespace()
    ensures ParseInt(" 5\n") == Some(5)
    ensures ParseInt([28 as char, '5']) == None
  {
    assert IntStrip(" 5\n") == "5";
    assert IntStrip([28 as char, '5']) == [28 as char, '5'];
    assert !WellFormedDigits([28 as char, '5']);
  }

  /** Whitespace that `int()` skips, put in front of a text, changes nothing. */
  lemma ParseIntLeadingSpace(c: char, s: string)
    requires IsIntSpace(c)
    ensures ParseInt([c] + s) == ParseInt(s)
  {
    assert ([c] + s)[1..] == s;
  }

  lemma IntToStringInjective(m: int, n: int)
    requires IntToString(m) == IntToString(n)
    ensures m == n
  {
    ParseIntToString(m);
    ParseIntToString(n);
  }

  /** `str(n)` has no whitespace and no separator that the wire format uses. */
  lemma IntToStringIsToken(n: int)
    ensures IsStripped(IntToString(n))
    ensures ',' !in IntToString(n) && '\n' !in IntToString(n) && ':' !in IntToString(n)
  {
    var r := IntToString(n);
    assert !IsSpace(r[0]) && !IsSpace(r[|r| - 1]);
  }
}
