/** The PHP string primitives the patchers are built from: `explode` on a
    one-character separator, `implode`, `rtrim`, `str_starts_with`,
    strict `array_search`, ASCII upper-casing and `strcmp` order. */
module Text {
  import opened Outcomes

  /** PHP_EOL on the platforms the tool runs on. */
  const EOL: char := '\n'

  /** The characters `rtrim($s)` strips when no list is given. */
  const PhpSpaces: set<char> := {' ', '\t', '\n', '\r', '\0', '\U{B}'}

  predicate StartsWith(s: string, prefix: string) {
    prefix <= s
  }

  /** `explode($sep, $s)`: the pieces between separators, never empty. */
  function Split(s: string, sep: char): (parts: seq<string>)
    ensures |parts| >= 1
    ensures forall i :: 0 <= i < |parts| ==> sep !in parts[i]
    decreases |s|
  {
    if s == [] then [""]
    else
      var rest := Split(s[1..], sep);
      if s[0] == sep then [""] + rest
      else [[s[0]] + rest[0]] + rest[1..]
  }

  /** `implode($glue, $parts)`: the pieces with the glue between each two. */
  function Join(parts: seq<string>, glue: string): (r: string)
    ensures parts == [] ==> r == ""
    ensures |parts| == 1 ==> r == parts[0]
    decreases |parts|
  {
    if |parts| == 0 then ""
    else if |parts| == 1 then parts[0]
    else parts[0] + glue + Join(parts[1..], glue)
  }

  /** Gluing the pieces back together gives the original string. */
  lemma {:induction false} JoinSplit(s: string, sep: char)
    ensures Join(Split(s, sep), [sep]) == s
    decreases |s|
  {
    if s != [] {
      JoinSplit(s[1..], sep);
      var rest := Split(s[1..], sep);
      if s[0] == sep {
        assert ([""] + rest)[1..] == rest;
      } else if |rest| > 1 {
        var parts := [[s[0]] + rest[0]] + rest[1..];
        assert parts[1..] == rest[1..];
      }
      assert s == [s[0]] + s[1..];
    }
  }

  lemma {:induction false} SplitFree(a: string, sep: char)
    requires sep !in a
    ensures Split(a, sep) == [a]
    decreases |a|
  {
    if a != [] {
      SplitFree(a[1..], sep);
      assert [a[0]] + a[1..] == a;
    }
  }

  lemma {:induction false} SplitAfterPart(a: string, t: string, sep: char)
    requires sep !in a
    ensures Split(a + [sep] + t, sep) == [a] + Split(t, sep)
    decreases |a|
  {
    if a == [] {
      assert ([sep] + t)[1..] == t;
    } else {
      SplitAfterPart(a[1..], t, sep);
      assert (a + [sep] + t)[1..] == a[1..] + [sep] + t;
      assert [a[0]] + a[1..] == a;
    }
  }

  /** Splitting a join of separator-free pieces gives the pieces back. */
  lemma {:induction false} SplitJoin(parts: seq<string>, sep: char)
    requires |parts| >= 1
    requires forall i :: 0 <= i < |parts| ==> sep !in parts[i]
    ensures Split(Join(parts, [sep]), sep) == parts
    decreases |parts|
  {
    if |parts| == 1 {
      SplitFree(parts[0], sep);
    } else {
      SplitJoin(parts[1..], sep);
      SplitAfterPart(parts[0], Join(parts[1..], [sep]), sep);
      assert [parts[0]] + parts[1..] == parts;
    }
  }

  lemma {:induction false} JoinSnoc(parts: seq<string>, x: string, sep: char)
    requires |parts| >= 1
    ensures Join(parts + [x], [sep]) == Join(parts, [sep]) + [sep] + x
    decreases |parts|
  {
    if |parts| == 1 {
      assert (parts + [x])[1..] == [x];
    } else {
      JoinSnoc(parts[1..], x, sep);
      assert (parts + [x])[1..] == parts[1..] + [x];
    }
  }

  /** A join ends with the last character of its last piece. */
  lemma {:induction false} JoinEndsLikeLast(parts: seq<string>, sep: char)
    requires |parts| >= 1 && parts[|parts| - 1] != []
    ensures var j := Join(parts, [sep]); var l := parts[|parts| - 1];
      j != [] && j[|j| - 1] == l[|l| - 1]
    decreases |parts|
  {
    if |parts| > 1 {
      JoinEndsLikeLast(parts[1..], sep);
    }
  }

  /** A string that does not end in the separator ends its last piece. */
  lemma {:induction false} SplitLastPart(s: string, sep: char)
    requires s != [] && s[|s| - 1] != sep
    ensures var p := Split(s, sep); var l := p[|p| - 1];
      l != [] && l[|l| - 1] == s[|s| - 1]
    decreases |s|
  {
    if |s| > 1 {
      SplitLastPart(s[1..], sep);
    }
  }

  /** `rtrim($s, $strip)`: the longest prefix not ending in `strip`. */
  function RTrim(s: string, strip: set<char>): (r: string)
    ensures r <= s
    ensures r == [] || r[|r| - 1] !in strip
    ensures forall i :: |r| <= i < |s| ==> s[i] in strip
    decreases |s|
  {
    if s != [] && s[|s| - 1] in strip then RTrim(s[..|s| - 1], strip) else s
  }

  /** Trimming a string whose tail keeps something trims only the tail. */
  lemma {:induction false} RTrimKeeps(a: string, e: string, strip: set<char>)
    requires RTrim(e, strip) != []
    ensures RTrim(a + e, strip) == a + RTrim(e, strip)
    decreases |e|
  {
    if e[|e| - 1] in strip {
      RTrimKeeps(a, e[..|e| - 1], strip);
      assert (a + e)[..|a + e| - 1] == a + e[..|e| - 1];
    }
  }

  lemma RTrimSnoc(s: string, c: char, strip: set<char>)
    requires c in strip
    ensures RTrim(s + [c], strip) == RTrim(s, strip)
  {
    assert (s + [c])[..|s|] == s;
  }

  /** Strict `array_search`: the first position of `x`, if any. */
  function IndexOf<T(==)>(xs: seq<T>, x: T): (r: Option<nat>)
    ensures r.None? <==> x !in xs
    ensures r.Some? ==> r.value < |xs| && xs[r.value] == x && x !in xs[..r.value]
    ensures r.Some? ==> forall j :: 0 <= j < r.value ==> xs[j] != x
    decreases |xs|
  {
    if xs == [] then None
    else if xs[0] == x then Some(0)
    else
      match IndexOf(xs[1..], x)
      case None => None
      case Some(i) =>
        assert xs[..i + 1] == [xs[0]] + xs[1..][..i];
        Some(i + 1)
  }

  /** An element missing from a prefix is missing at each of its positions. */
  lemma NotInPrefix<T>(xs: seq<T>, x: T, k: nat)
    requires k <= |xs| && x !in xs[..k]
    ensures forall i :: 0 <= i < k ==> xs[i] != x
  {
    forall i | 0 <= i < k
      ensures xs[i] != x
    {
      assert xs[..k][i] == xs[i];
    }
  }

  function UpperChar(c: char): char {
    if 'a' <= c <= 'z' then (c as int - 32) as char else c
  }

  /** Upper-casing, on ASCII letters only. */
  function Upper(s: string): (r: string)
    ensures |r| == |s|
    ensures forall i :: 0 <= i < |s| ==> r[i] == UpperChar(s[i])
  {
    seq(|s|, i requires 0 <= i < |s| => UpperChar(s[i]))
  }

  /** Upper-casing twice is upper-casing once. */
  lemma UpperIdempotent(s: string)
    ensures Upper(Upper(s)) == Upper(s)
  {
    assert forall i :: 0 <= i < |s| ==> UpperChar(UpperChar(s[i])) == UpperChar(s[i]);
  }

  /** `strcmp($a, $b) < 0`: code-unit order, a proper prefix first. */
  predicate Less(a: string, b: string)
    decreases |a|
  {
    b != [] && (a == [] || a[0] < b[0] || (a[0] == b[0] && Less(a[1..], b[1..])))
  }

  lemma {:induction false} LessIrreflexive(a: string)
    ensures !Less(a, a)
    decreases |a|
  {
    if a != [] {
      LessIrreflexive(a[1..]);
    }
  }

  lemma {:induction false} LessTransitive(a: string, b: string, c: string)
    requires Less(a, b) && Less(b, c)
    ensures Less(a, c)
    decreases |a|
  {
    if a != [] && a[0] == b[0] && b[0] == c[0] {
      LessTransitive(a[1..], b[1..], c[1..]);
    }
  }

  lemma {:induction false} LessTotal(a: string, b: string)
    ensures a == b || Less(a, b) || Less(b, a)
    decreases |a|
  {
    if a != [] && b != [] && a[0] == b[0] {
      LessTotal(a[1..], b[1..]);
      if a[1..] == b[1..] {
        assert a == [a[0]] + a[1..] && b == [b[0]] + b[1..];
      }
    }
  }

  lemma LessAsymmetric(a: string, b: string)
    requires Less(a, b)
    ensures !Less(b, a)
  {
    if Less(b, a) {
      LessTransitive(a, b, a);
      LessIrreflexive(a);
    }
  }

  /** The largest PHP integer (PHP_INT_MAX on 64-bit builds). */
  const PhpIntMax: int := 0x7fff_ffff_ffff_ffff

  predicate IsDigit(c: char) {
    '0' <= c <= '9'
  }

  function DigitChar(d: nat): (c: char)
    requires d < 10
    ensures IsDigit(c)
  {
    ('0' as int + d) as char
  }

  /** The decimal digits of `n`, with no leading zero. */
  function Digits(n: nat): (s: string)
    ensures s != [] && forall i :: 0 <= i < |s| ==> IsDigit(s[i])
    ensures s[0] == '0' <==> n == 0
    ensures n < 10 <==> |s| == 1
    decreases n
  {
    if n < 10 then [DigitChar(n)] else Digits(n / 10) + [DigitChar(n % 10)]
  }

  /** The number a string of decimal digits denotes. */
  function DigitsValue(s: string): nat
    requires forall i :: 0 <= i < |s| ==> IsDigit(s[i])
    decreases |s|
  {
    if s == [] then 0 else DigitsValue(s[..|s| - 1]) * 10 + DigitValue(s[|s| - 1])
  }

  function DigitValue(c: char): nat
    requires IsDigit(c)
  {
    c as int - '0' as int
  }

  /** Decimal digits with no leading zero (`0` itself excepted). */
  predicate CanonicalDigits(s: string) {
    s != [] && (forall i :: 0 <= i < |s| ==> IsDigit(s[i])) && (s[0] != '0' || |s| == 1)
  }

  lemma {:induction false} LeadingDigitPositive(s: string)
    requires CanonicalDigits(s) && s[0] != '0'
    ensures DigitsValue(s) > 0
    decreases |s|
  {
    if |s| > 1 {
      LeadingDigitPositive(s[..|s| - 1]);
    }
  }

  /** Reading canonical digits and writing the number gives them back. */
  lemma {:induction false} DigitsOfValue(s: string)
    requires CanonicalDigits(s)
    ensures Digits(DigitsValue(s)) == s
    decreases |s|
  {
    if |s| > 1 {
      var init := s[..|s| - 1];
      var d := DigitValue(s[|s| - 1]);
      assert CanonicalDigits(init);
      DigitsOfValue(init);
      LeadingDigitPositive(init);
      var v := DigitsValue(init);
      assert (v * 10 + d) / 10 == v && (v * 10 + d) % 10 == d;
      assert s == init + [s[|s| - 1]];
    }
  }

  /** Writing a number and reading its digits gives it back. */
  lemma {:induction false} ValueOfDigits(n: nat)
    ensures DigitsValue(Digits(n)) == n
    decreases n
  {
    if n >= 10 {
      ValueOfDigits(n / 10);
      assert Digits(n)[..|Digits(n)| - 1] == Digits(n / 10);
    }
  }

  /** PHP's decimal rendering of an integer. */
  function Decimal(n: int): string {
    if n < 0 then "-" + Digits(-n) else Digits(n)
  }

  /** The integer PHP stores an array key string as, if it stores it as one:
      a canonical decimal, optionally negative but not `-0`, within the
      64-bit range. */
  function IntKey(s: string): (r: Option<int>)
    ensures r.Some? ==> -PhpIntMax - 1 <= r.value <= PhpIntMax && Decimal(r.value) == s
  {
    if CanonicalDigits(s) && DigitsValue(s) <= PhpIntMax then
      DigitsOfValue(s);
      Some(DigitsValue(s))
    else if NegativeDigits(s) then
      NegativeDecimal(s);
      Some(0 - DigitsValue(s[1..]) as int)
    else None
  }

  /** `-` followed by canonical digits other than `0`, down to -2^63. */
  predicate NegativeDigits(s: string) {
    |s| >= 2 && s[0] == '-' && s[1] != '0' && CanonicalDigits(s[1..]) && DigitsValue(s[1..]) <= PhpIntMax + 1
  }

  lemma NegativeDecimal(s: string)
    requires NegativeDigits(s)
    ensures Decimal(0 - DigitsValue(s[1..]) as int) == s
  {
    DigitsOfValue(s[1..]);
    LeadingDigitPositive(s[1..]);
    assert s == "-" + s[1..];
  }

  /** Every 64-bit integer's decimal rendering is stored as that integer. */
  lemma IntKeyOfDecimal(n: int)
    requires -PhpIntMax - 1 <= n <= PhpIntMax
    ensures IntKey(Decimal(n)) == Some(n)
  {
    if n < 0 {
      IntKeyOfNegative(-n);
    } else {
      ValueOfDigits(n);
      assert CanonicalDigits(Digits(n));
    }
  }

  lemma IntKeyOfNegative(m: nat)
    requires 0 < m <= PhpIntMax + 1
    ensures IntKey("-" + Digits(m)) == Some(0 - m as int)
  {
    var s := "-" + Digits(m);
    ValueOfDigits(m);
    assert s[1..] == Digits(m);
    assert !IsDigit(s[0]);
  }

  /** A PHP array key: integer keys and string keys are kept apart. */
  datatype ArrayKey = Str(s: string) | Int(i: int)

  /** The key PHP uses when a string indexes an array. */
  function KeyOf(s: string): (k: ArrayKey)
    ensures k.Str? ==> k.s == s && IntKey(s).None?
    ensures k.Int? ==> Decimal(k.i) == s
  {
    match IntKey(s)
    case Some(n) => Int(n)
    case None => Str(s)
  }
}
