/** The few string operations of Python that the core relies on:
    `str()` of an integer, ASCII `upper()`/`lower()`, `",".join(...)`,
    and the code-point ordering used when Python compares two strings. */
module Text {

  /** The decimal digit character for `d`. */
  function DigitChar(d: nat): (c: char)
    requires d < 10
    ensures '0' <= c <= '9'
  {
    ('0' as int + d) as char
  }

  /** Decimal digits of a natural number, most significant first. */
  function Digits(n: nat): (s: string)
    ensures |s| > 0
    ensures forall i :: 0 <= i < |s| ==> '0' <= s[i] <= '9'
    decreases n
  {
    if n < 10 then [DigitChar(n)] else Digits(n / 10) + [DigitChar(n % 10)]
  }

  /** Python's `str(n)` for an integer. */
  function IntToDecimal(n: int): (s: string)
    ensures |s| > 0
  {
    if n < 0 then "-" + Digits(-n) else Digits(n)
  }

  /** Different numbers have different digit strings. */
  lemma {:induction false} DigitsInjective(a: nat, b: nat)
    ensures Digits(a) == Digits(b) ==> a == b
    decreases a
  {
    var da, db := Digits(a), Digits(b);
    assert a < 10 <==> |da| == 1 by {
      if a >= 10 { assert |Digits(a / 10)| > 0; }
    }
    assert b < 10 <==> |db| == 1 by {
      if b >= 10 { assert |Digits(b / 10)| > 0; }
    }
    if da == db {
      if a < 10 && b < 10 {
        assert da[0] == db[0];
      } else if a >= 10 && b >= 10 {
        assert da[|da| - 1] == db[|db| - 1];
        assert a % 10 == b % 10;
        assert Digits(a / 10) == da[..|da| - 1] == db[..|db| - 1] == Digits(b / 10);
        DigitsInjective(a / 10, b / 10);
      }
    }
  }

  /** `str` is injective on integers: two ids print alike exactly when they
      are equal, so comparing them as strings is comparing them as numbers. */
  lemma IntToDecimalInjective(a: int, b: int)
    ensures IntToDecimal(a) == IntToDecimal(b) <==> a == b
  {
    var sa, sb := IntToDecimal(a), IntToDecimal(b);
    assert a < 0 <==> sa[0] == '-' by {
      if a >= 0 { assert '0' <= Digits(a)[0]; }
    }
    assert b < 0 <==> sb[0] == '-' by {
      if b >= 0 { assert '0' <= Digits(b)[0]; }
    }
    if sa == sb {
      if a < 0 && b < 0 {
        assert sa[1..] == Digits(-a) && sb[1..] == Digits(-b);
        DigitsInjective(-a, -b);
      } else if a >= 0 && b >= 0 {
        DigitsInjective(a, b);
      }
    }
  }

  function UpperChar(c: char): char
  {
    if 'a' <= c <= 'z' then (c as int - 32) as char else c
  }

  function LowerChar(c: char): char
  {
    if 'A' <= c <= 'Z' then (c as int + 32) as char else c
  }

  /** Python's `str.upper()`, restricted to the ASCII letters. */
  function Upper(s: string): (r: string)
    ensures |r| == |s|
  {
    if s == [] then [] else [UpperChar(s[0])] + Upper(s[1..])
  }

  /** Python's `str.lower()`, restricted to the ASCII letters. */
  function Lower(s: string): (r: string)
    ensures |r| == |s|
  {
    if s == [] then [] else [LowerChar(s[0])] + Lower(s[1..])
  }

  /** Upper-casing leaves no lower-case ASCII letter behind. */
  lemma {:induction false} UpperHasNoLowerCase(s: string)
    ensures forall i :: 0 <= i < |Upper(s)| ==> !('a' <= Upper(s)[i] <= 'z')
  {
    if s != [] {
      UpperHasNoLowerCase(s[1..]);
      assert Upper(s) == [UpperChar(s[0])] + Upper(s[1..]);
    }
  }

  /** Normalising a prediction twice is the same as normalising it once. */
  lemma {:induction false} UpperIdempotent(s: string)
    ensures Upper(Upper(s)) == Upper(s)
  {
    if s != [] {
      UpperIdempotent(s[1..]);
      assert Upper(s)[1..] == Upper(s[1..]);
    }
  }

  /** Lower-casing is idempotent, so a stored (lower-cased) user name is found
      again by a lookup that lower-cases it once more. */
  lemma {:induction false} LowerIdempotent(s: string)
    ensures Lower(Lower(s)) == Lower(s)
  {
    if s != [] {
      LowerIdempotent(s[1..]);
      assert Lower(s)[1..] == Lower(s[1..]);
    }
  }

  /** User names that differ only in ASCII case lower-case to the same name. */
  lemma {:induction false} LowerIgnoresUpper(s: string)
    ensures Lower(Upper(s)) == Lower(s)
  {
    if s != [] {
      LowerIgnoresUpper(s[1..]);
      assert Upper(s)[1..] == Upper(s[1..]);
    }
  }

  /** Python's `a < b` on strings: lexicographic by code point. */
  predicate StrLt(a: string, b: string)
  {
    if a == [] then b != []
    else if b == [] then false
    else if a[0] != b[0] then a[0] < b[0]
    else StrLt(a[1..], b[1..])
  }

  lemma {:induction false} StrLtIrreflexive(a: string)
    ensures !StrLt(a, a)
  {
    if a != [] {
      StrLtIrreflexive(a[1..]);
    }
  }

  lemma {:induction false} StrLtTransitive(a: string, b: string, c: string)
    requires StrLt(a, b) && StrLt(b, c)
    ensures StrLt(a, c)
  {
    if a != [] && b != [] && c != [] && a[0] == b[0] && b[0] == c[0] {
      StrLtTransitive(a[1..], b[1..], c[1..]);
    }
  }

  lemma {:induction false} StrLtTotal(a: string, b: string)
    ensures a == b || StrLt(a, b) || StrLt(b, a)
  {
    if a != [] && b != [] && a[0] == b[0] {
      StrLtTotal(a[1..], b[1..]);
      if a[1..] == b[1..] {
        assert a == [a[0]] + a[1..] && b == [b[0]] + b[1..];
      }
    }
  }

  /** Python's `",".join(parts)`. */
  function Join(parts: seq<string>): (s: string)
  {
    if parts == [] then ""
    else if |parts| == 1 then parts[0]
    else parts[0] + "," + Join(parts[1..])
  }

  /** Position of the first comma of `s`, or `|s|` when there is none. */
  function FirstComma(s: string): (i: nat)
    ensures i <= |s|
    ensures i < |s| ==> s[i] == ','
    ensures forall j :: 0 <= j < i ==> s[j] != ','
  {
    if s == [] then 0 else if s[0] == ',' then 0 else 1 + FirstComma(s[1..])
  }

  /** Python's `s.split(",")`: the inverse of `Join` on comma-free parts. */
  function Split(s: string): (parts: seq<string>)
    ensures |parts| > 0
    decreases |s|
  {
    var i := FirstComma(s);
    if i == |s| then [s] else [s[..i]] + Split(s[i + 1..])
  }

  lemma FirstCommaAfterPart(p: string, rest: string)
    requires ',' !in p
    ensures FirstComma(p + "," + rest) == |p|
  {
    var s := p + "," + rest;
    var i := FirstComma(s);
    assert s[|p|] == ',';
    assert forall j :: 0 <= j < |p| ==> s[j] == p[j];
  }

  /** Splitting the joined id list gives back the ids, provided none of them
      contains the separator. */
  lemma {:induction false} SplitJoin(parts: seq<string>)
    requires |parts| > 0
    requires forall i :: 0 <= i < |parts| ==> ',' !in parts[i]
    ensures Split(Join(parts)) == parts
  {
    if |parts| == 1 {
      assert FirstComma(parts[0]) == |parts[0]|;
    } else {
      var p, rest := parts[0], Join(parts[1..]);
      FirstCommaAfterPart(p, rest);
      var s := p + "," + rest;
      assert s[..|p|] == p;
      assert s[|p| + 1..] == rest;
      SplitJoin(parts[1..]);
      assert parts == [p] + parts[1..];
    }
  }
}
