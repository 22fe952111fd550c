/** The Python built-ins that the solar calculator and the location lookup
    lean on: optional values, raised exceptions, `int()` and `str()` on
    integers, slicing, `str.split` and the substring test `in`.
    Digits and whitespace are the ASCII ones. */
module Builtins {

  datatype Option<+T> = None | Some(value: T)

  /** The exceptions the modelled code can raise. */
  datatype Exception = ValueError | TypeError | KeyError | IndexError

  /** A Python call either returns a value or raises an exception. */
  datatype Outcome<+T> = Value(value: T) | Raised(error: Exception)

  predicate IsDigit(c: char) { '0' <= c <= '9' }

  predicate AllDigits(s: string) { forall i :: 0 <= i < |s| ==> IsDigit(s[i]) }

  /** ASCII whitespace as `str.isspace()` and the regular expression `\s` see it. */
  predicate IsSpace(c: char) {
    var k := c as int;
    k == 32 || 9 <= k <= 13 || 28 <= k <= 31
  }

  function DigitValue(c: char): nat
    requires IsDigit(c)
  {
    (c as int) - ('0' as int)
  }

  function DigitChar(d: nat): (c: char)
    requires d < 10
    ensures IsDigit(c) && DigitValue(c) == d
  {
    (('0' as int) + d) as char
  }

  /** The value of a decimal numeral, most significant digit first. */
  function DigitsValue(s: string): nat
    requires AllDigits(s)
    decreases |s|
  {
    if |s| == 0 then 0 else 10 * DigitsValue(s[..|s| - 1]) + DigitValue(s[|s| - 1])
  }

  /** The decimal numeral of `n` without leading zeros. */
  function Decimal(n: nat): (s: string)
    ensures 1 <= |s| && AllDigits(s)
    decreases n
  {
    if n < 10 then [DigitChar(n)] else Decimal(n / 10) + [DigitChar(n % 10)]
  }

  /** `str(n)` for an int. */
  function Str(n: int): string {
    if n < 0 then "-" + Decimal(-n) else Decimal(n)
  }

  /** The index of the first character of `s` at or after `i` that is not whitespace. */
  function SkipSpaces(s: string, i: nat): (k: nat)
    requires i <= |s|
    ensures i <= k <= |s| && (k < |s| ==> !IsSpace(s[k]))
    decreases |s| - i
  {
    if i < |s| && IsSpace(s[i]) then SkipSpaces(s, i + 1) else i
  }

  /** Whitespace as `int()` strips it from ASCII text: space, tab, line
      feed, vertical tab, form feed and carriage return. */
  predicate IsIntSpace(c: char) {
    var k := c as int;
    k == 32 || 9 <= k <= 13
  }

  /** The index of the first character of `s` at or after `i` that `int()` does not strip. */
  function SkipIntSpaces(s: string, i: nat): (k: nat)
    requires i <= |s|
    ensures i <= k <= |s| && (k < |s| ==> !IsIntSpace(s[k]))
    decreases |s| - i
  {
    if i < |s| && IsIntSpace(s[i]) then SkipIntSpaces(s, i + 1) else i
  }

  /** The index just after the last character of `s[..j]` that `int()` does not strip. */
  function SkipIntSpacesBack(s: string, j: nat): (k: nat)
    requires j <= |s|
    ensures k <= j && (k > 0 ==> !IsIntSpace(s[k - 1]))
    decreases j
  {
    if j > 0 && IsIntSpace(s[j - 1]) then SkipIntSpacesBack(s, j - 1) else j
  }

  /** `int(s)` in base 10: the text between the surrounding whitespace
      `int()` strips (`IsIntSpace`, narrower than `IsSpace`) must be at most
      one sign and then at least one digit; anything else raises `ValueError`. */
  function ParseInt(s: string): (r: Outcome<int>)
    ensures r.Raised? ==> r.error == ValueError
  {
    var lo, hi := SkipIntSpaces(s, 0), SkipIntSpacesBack(s, |s|);
    if lo < hi && (s[lo] == '+' || s[lo] == '-') then
      var body := s[lo + 1..hi];
      if |body| > 0 && AllDigits(body) then
        var magnitude: int := DigitsValue(body);
        Value(if s[lo] == '-' then -magnitude else magnitude)
      else Raised(ValueError)
    else if lo < hi && AllDigits(s[lo..hi]) then Value(DigitsValue(s[lo..hi]))
    else Raised(ValueError)
  }

  lemma {:induction false} DecimalValue(n: nat)
    ensures DigitsValue(Decimal(n)) == n
    decreases n
  {
    if n >= 10 {
      var p := Decimal(n / 10);
      var s := p + [DigitChar(n % 10)];
      assert s[..|s| - 1] == p;
      DecimalValue(n / 10);
    }
  }

  /** `int()` strips nothing from a text that neither starts nor ends with whitespace. */
  lemma NoSpaceIsTrimmed(s: string)
    requires |s| > 0 && !IsIntSpace(s[0]) && !IsIntSpace(s[|s| - 1])
    ensures SkipIntSpaces(s, 0) == 0 && SkipIntSpacesBack(s, |s|) == |s| && s[0..|s|] == s
  {
  }

  /** `int(str(n)) == n`: the two conversions are inverse. */
  lemma {:induction false} ParseIntStr(n: int)
    ensures ParseInt(Str(n)) == Value(n)
  {
    var m: nat := if n < 0 then -n else n;
    var d := Decimal(m);
    DecimalValue(m);
    assert !IsIntSpace(d[|d| - 1]) && !IsIntSpace(d[0]);
    if n < 0 {
      var s := "-" + d;
      assert s[1..|s|] == d;
      NoSpaceIsTrimmed(s);
    } else {
      NoSpaceIsTrimmed(d);
    }
  }

  /** `int()` strips space, tab and newline around the digits, but the
      ASCII separator characters U+001C..U+001F, which `\s` matches, make it
      raise. */
  lemma ParseIntWhitespace()
    ensures ParseInt(" 7\n") == Value(7)
    ensures ParseInt("\U{1C}7") == Raised(ValueError)
    ensures ParseInt("7\U{1F}") == Raised(ValueError)
  {
    var t := " 7\n";
    assert SkipIntSpaces(t, 0) == 1 && SkipIntSpacesBack(t, 3) == 2;
    assert t[1..2] == "7";
    assert DigitsValue("7") == 7 by {
      assert "7"[..0] == "";
    }
  }

  /** `s[:k]` */
  function Take(s: string, k: nat): (r: string)
    ensures |r| == if k <= |s| then k else |s|
    ensures r == s[..|r|]
  {
    if k <= |s| then s[..k] else s
  }

  /** `s[:-k]` for k > 0 */
  function DropLast(s: string, k: nat): (r: string)
    requires k > 0
    ensures |r| == if k <= |s| then |s| - k else 0
    ensures r == s[..|r|]
  {
    if k <= |s| then s[..|s| - k] else ""
  }

  /** `s[i:j]` for non-negative bounds, which Python clamps to the string. */
  function Slice(s: string, i: nat, j: nat): (r: string)
  {
    var a := if i <= |s| then i else |s|;
    var b := if j <= |s| then j else |s|;
    if a < b then s[a..b] else ""
  }

  /** `s.split(sep)` with an explicit one-character separator: adjacent
      separators give empty fields, and the empty string gives `[""]`. */
  function Split(s: string, sep: char): (r: seq<string>)
    ensures |r| >= 1
  {
    SplitFrom(s, sep, 0, "")
  }

  /** The fields of `s[i..]`, the first of them continuing `field`. */
  function SplitFrom(s: string, sep: char, i: nat, field: string): (r: seq<string>)
    requires i <= |s|
    ensures |r| >= 1
    decreases |s| - i
  {
    if i == |s| then [field]
    else if s[i] == sep then [field] + SplitFrom(s, sep, i + 1, "")
    else SplitFrom(s, sep, i + 1, field + [s[i]])
  }

  lemma {:induction false} SplitFromWithout(s: string, sep: char, i: nat, field: string)
    requires i <= |s| && sep !in s[i..]
    ensures SplitFrom(s, sep, i, field) == [field + s[i..]]
    decreases |s| - i
  {
    if i < |s| {
      assert s[i..] == [s[i]] + s[i + 1..];
      assert s[i] != sep && sep !in s[i + 1..];
      SplitFromWithout(s, sep, i + 1, field + [s[i]]);
      assert field + [s[i]] + s[i + 1..] == field + s[i..];
    } else {
      assert field + s[i..] == field;
    }
  }

  lemma {:induction false} SplitFromUpTo(s: string, sep: char, i: nat, k: nat, field: string)
    requires i <= k < |s| && s[k] == sep && sep !in s[i..k]
    ensures SplitFrom(s, sep, i, field) == [field + s[i..k]] + SplitFrom(s, sep, k + 1, "")
    decreases k - i
  {
    if i < k {
      assert s[i..k] == [s[i]] + s[i + 1..k];
      assert s[i] != sep && sep !in s[i + 1..k];
      SplitFromUpTo(s, sep, i + 1, k, field + [s[i]]);
      assert field + [s[i]] + s[i + 1..k] == field + s[i..k];
    } else {
      assert field + s[i..k] == field;
    }
  }

  lemma {:induction false} SplitFromSuffix(p: string, t: string, sep: char, i: nat, field: string)
    requires i <= |t|
    ensures SplitFrom(p + t, sep, |p| + i, field) == SplitFrom(t, sep, i, field)
    decreases |t| - i
  {
    if i < |t| {
      assert (p + t)[|p| + i] == t[i];
      SplitFromSuffix(p, t, sep, i + 1, "");
      SplitFromSuffix(p, t, sep, i + 1, field + [t[i]]);
    }
  }

  lemma SplitWithout(a: string, sep: char)
    requires sep !in a
    ensures Split(a, sep) == [a]
  {
    assert a[0..] == a;
    SplitFromWithout(a, sep, 0, "");
    assert "" + a[0..] == a;
  }

  /** Splitting at the first separator peels off the text before it. */
  lemma SplitAtFirst(a: string, sep: char, b: string)
    requires sep !in a
    ensures Split(a + [sep] + b, sep) == [a] + Split(b, sep)
  {
    var p := a + [sep];
    var s := p + b;
    assert s[0..|a|] == a && s[|a|] == sep;
    SplitFromUpTo(s, sep, 0, |a|, "");
    assert "" + s[0..|a|] == a;
    SplitFromSuffix(p, b, sep, 0, "");
    assert s == a + [sep] + b;
  }

  predicate StartsWith(s: string, prefix: string) {
    |prefix| <= |s| && s[..|prefix|] == prefix
  }

  /** `needle in hay` on strings. */
  predicate Contains(hay: string, needle: string)
    decreases |hay|
  {
    StartsWith(hay, needle) || (|hay| > 0 && Contains(hay[1..], needle))
  }

  /** `needle` occurs in `hay` starting at index `i`. */
  predicate OccursAt(hay: string, needle: string, i: int) {
    0 <= i && i + |needle| <= |hay| && hay[i..i + |needle|] == needle
  }

  /** The recursive substring test agrees with "occurs at some index". */
  lemma {:induction false} ContainsOccurs(hay: string, needle: string)
    ensures Contains(hay, needle) <==> exists i :: OccursAt(hay, needle, i)
    decreases |hay|
  {
    if StartsWith(hay, needle) {
      assert OccursAt(hay, needle, 0);
    } else if |hay| == 0 {
    } else {
      ContainsOccurs(hay[1..], needle);
      if exists i :: OccursAt(hay[1..], needle, i) {
        var i :| OccursAt(hay[1..], needle, i);
        assert hay[1..][i..i + |needle|] == hay[i + 1..i + 1 + |needle|];
        assert OccursAt(hay, needle, i + 1);
      }
      if exists i :: OccursAt(hay, needle, i) {
        var i :| OccursAt(hay, needle, i);
        if i == 0 {
          assert false;
        }
        assert hay[1..][i - 1..i - 1 + |needle|] == hay[i..i + |needle|];
        assert OccursAt(hay[1..], needle, i - 1);
      }
    }
  }
}
