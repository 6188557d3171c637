/** internal/services/format.go: the two number printers, and the readers that undo them. */
module Formatting {
  import opened Common
  import opened Ascii

  // --- decimal text ---

  function Digit(d: nat): char
    requires d < 10
  {
    '0' + d as char
  }

  function DigitValue(c: char): nat
    requires IsDigit(c)
  {
    (c - '0') as nat
  }

  function Digits(n: nat): string {
    if n < 10 then [Digit(n)] else Digits(n / 10) + [Digit(n % 10)]
  }

  /** strconv.FormatInt(v, 10). */
  function Text(v: int): string {
    if v < 0 then "-" + Digits(-v) else Digits(v)
  }

  predicate AllDigits(s: string) {
    forall i :: 0 <= i < |s| ==> IsDigit(s[i])
  }

  function Value(s: string): nat
    requires AllDigits(s)
  {
    if s == "" then 0 else 10 * Value(s[..|s| - 1]) + DigitValue(s[|s| - 1])
  }

  function Signed(negative: bool, v: int): int {
    if negative then -v else v
  }

  function ParseInt(s: string): Option<int> {
    var negative := s != "" && s[0] == '-';
    var digits := if negative then s[1..] else s;
    if digits == "" || !AllDigits(digits) then None
    else Some(Signed(negative, Value(digits)))
  }

  lemma {:induction false} DigitsValue(n: nat)
    ensures AllDigits(Digits(n)) && Digits(n) != "" && Value(Digits(n)) == n
  {
    if n >= 10 {
      DigitsValue(n / 10);
      assert Digits(n)[..|Digits(n)| - 1] == Digits(n / 10);
    } else {
      assert Digits(n)[..0] == "";
    }
  }

  /** No number is written with a leading zero, except zero itself. */
  lemma {:induction false} NoLeadingZero(n: nat)
    ensures Digits(n) != "" && (Digits(n)[0] == '0' <==> n == 0) && (Digits(n)[0] == '0' ==> |Digits(n)| == 1)
  {
    if n >= 10 {
      NoLeadingZero(n / 10);
    }
  }

  lemma ParseSigned(s: string)
    requires AllDigits(s) && s != ""
    ensures ParseInt(s) == Some(Value(s))
    ensures ParseInt("-" + s) == Some(Signed(true, Value(s)))
  {
    assert IsDigit(s[0]);
    assert ("-" + s)[1..] == s;
  }

  lemma ParseText(v: int)
    ensures ParseInt(Text(v)) == Some(v)
  {
    var a := if v < 0 then -v else v;
    DigitsValue(a);
    ParseSigned(Digits(a));
  }

  // --- IntComma ---

  /** Groups of three from the right. */
  function Groups(s: string): seq<string> {
    if |s| <= 3 then [s] else Groups(s[..|s| - 3]) + [s[|s| - 3..]]
  }

  /** strings.Join(parts, ","). */
  function Join(parts: seq<string>): string {
    if parts == [] then ""
    else if |parts| == 1 then parts[0]
    else parts[0] + "," + Join(parts[1..])
  }

  /** A comma stands at every fourth place from the right, and nowhere else. */
  predicate CommasEveryFourth(text: string) {
    forall i :: 0 <= i < |text| ==> (text[|text| - 1 - i] == ',' <==> i % 4 == 3)
  }

  method IntComma(v: int) returns (text: string)
    ensures text == Join(Groups(Text(v)))
    ensures CommasEveryFourth(text) && ParseInt(Stripped(text)) == Some(v)
  {
    text := Grouped(Text(v));
    CommasAt(v);
    IntCommaUndone(v);
  }

  /** The grouping loop, on the decimal text. */
  method Grouped(s: string) returns (text: string)
    ensures text == Join(Groups(s))
  {
    var n := |s|;
    if n <= 3 {
      return s;
    }
    var parts: seq<string> := [];
    assert s[..|s|] == s && Groups(s) + [] == Groups(s);
    while n > 3
      invariant 0 < n <= |s|
      invariant Groups(s) == Groups(s[..n]) + parts
    {
      assert s[..n][..n - 3] == s[..n - 3] && s[..n][n - 3..] == s[n - 3..n];
      assert Groups(s[..n - 3]) + [s[n - 3..n]] + parts == Groups(s[..n - 3]) + ([s[n - 3..n]] + parts);
      parts := [s[n - 3..n]] + parts;
      n := n - 3;
    }
    parts := [s[..n]] + parts;
    text := Join(parts);
  }

  function Stripped(s: string): string {
    if s == "" then "" else (if s[0] == ',' then "" else [s[0]]) + Stripped(s[1..])
  }

  function Concatenated(parts: seq<string>): string {
    if parts == [] then "" else parts[0] + Concatenated(parts[1..])
  }

  lemma {:induction false} StrippedSplit(a: string, b: string)
    ensures Stripped(a + b) == Stripped(a) + Stripped(b)
  {
    if a == "" {
      assert a + b == b;
    } else {
      assert (a + b)[1..] == a[1..] + b;
      StrippedSplit(a[1..], b);
    }
  }

  lemma {:induction false} NothingToStrip(s: string)
    requires ',' !in s
    ensures Stripped(s) == s
  {
    if s != "" {
      NothingToStrip(s[1..]);
    }
  }

  lemma {:induction false} StrippedJoin(parts: seq<string>)
    requires forall i :: 0 <= i < |parts| ==> ',' !in parts[i]
    ensures Stripped(Join(parts)) == Concatenated(parts)
  {
    if parts != [] {
      NothingToStrip(parts[0]);
      StrippedJoin(parts[1..]);
      if |parts| > 1 {
        assert parts[0] + "," + Join(parts[1..]) == parts[0] + ("," + Join(parts[1..]));
        StrippedSplit(parts[0], "," + Join(parts[1..]));
        assert ("," + Join(parts[1..]))[1..] == Join(parts[1..]);
        assert "" + Stripped(Join(parts[1..])) == Stripped(Join(parts[1..]));
      } else {
        assert parts[1..] == [];
        assert parts[0] + "" == parts[0];
      }
    }
  }

  lemma {:induction false} ConcatenatedAppend(parts: seq<string>, last: string)
    ensures Concatenated(parts + [last]) == Concatenated(parts) + last
  {
    if parts == [] {
      assert [last][1..] == [] && last + "" == last && "" + last == last;
    } else {
      assert (parts + [last])[1..] == parts[1..] + [last];
      ConcatenatedAppend(parts[1..], last);
    }
  }

  lemma {:induction false} GroupsMakeText(s: string)
    ensures Concatenated(Groups(s)) == s
  {
    if |s| <= 3 {
      assert [s][1..] == [] && s + "" == s;
    } else {
      var init, last := s[..|s| - 3], s[|s| - 3..];
      GroupsMakeText(init);
      ConcatenatedAppend(Groups(init), last);
      assert s == init + last;
    }
  }

  /** All groups but the first have three characters, the first one to three. */
  lemma {:induction false} GroupsShape(s: string)
    requires s != ""
    ensures |Groups(s)| >= 1 && 1 <= |Groups(s)[0]| <= 3 && Groups(s)[0] == s[..|Groups(s)[0]|]
    ensures forall i :: 1 <= i < |Groups(s)| ==> |Groups(s)[i]| == 3
    ensures |s| == |Groups(s)[0]| + 3 * (|Groups(s)| - 1)
  {
    if |s| > 3 {
      GroupsShape(s[..|s| - 3]);
    }
  }

  lemma {:induction false} GroupsKeepOut(s: string, c: char)
    requires c !in s
    ensures forall i :: 0 <= i < |Groups(s)| ==> c !in Groups(s)[i]
  {
    if |s| > 3 {
      GroupsKeepOut(s[..|s| - 3], c);
    }
  }

  lemma TextHasNoComma(v: int)
    ensures ',' !in Text(v) && Text(v) != ""
  {
    DigitsValue(if v < 0 then -v else v);
    var d := Digits(if v < 0 then -v else v);
    assert ',' !in d;
  }

  lemma {:induction false} JoinAppend(parts: seq<string>, last: string)
    requires parts != []
    ensures Join(parts + [last]) == Join(parts) + "," + last
  {
    if |parts| == 1 {
      assert (parts + [last])[1..] == [last];
    } else {
      assert (parts + [last])[1..] == parts[1..] + [last];
      JoinAppend(parts[1..], last);
      assert parts[0] + "," + (Join(parts[1..]) + "," + last) == parts[0] + "," + Join(parts[1..]) + "," + last;
    }
  }

  lemma CommaBeforeThree(head: string, last: string)
    requires CommasEveryFourth(head) && |last| == 3 && ',' !in last
    ensures CommasEveryFourth(head + "," + last)
  {
    var text := head + "," + last;
    forall i | 0 <= i < |text| ensures text[|text| - 1 - i] == ',' <==> i % 4 == 3 {
      if i < 3 {
        assert text[|text| - 1 - i] == last[2 - i] && last[2 - i] in last;
      } else if i == 3 {
        assert text[|head|] == ',';
      } else {
        var k := i - 4;
        assert text[|text| - 1 - i] == head[|head| - 1 - k];
        assert head[|head| - 1 - k] == ',' <==> k % 4 == 3;
      }
    }
  }

  lemma {:induction false} GroupsJoined(s: string)
    requires ',' !in s
    ensures CommasEveryFourth(Join(Groups(s)))
  {
    if |s| <= 3 {
      assert Join([s]) == s;
    } else {
      var init, last := s[..|s| - 3], s[|s| - 3..];
      GroupsJoined(init);
      GroupsShape(init);
      JoinAppend(Groups(init), last);
      CommaBeforeThree(Join(Groups(init)), last);
    }
  }

  lemma CommasAt(v: int)
    ensures CommasEveryFourth(Join(Groups(Text(v))))
  {
    TextHasNoComma(v);
    GroupsJoined(Text(v));
  }

  /** Stripping the commas and parsing gives the number back; every group after the first has
      exactly three characters. */
  lemma IntCommaUndone(v: int)
    ensures ParseInt(Stripped(Join(Groups(Text(v))))) == Some(v)
    ensures forall i :: 1 <= i < |Groups(Text(v))| ==> |Groups(Text(v))[i]| == 3
  {
    TextHasNoComma(v);
    GroupsShape(Text(v));
    GroupsMakeText(Text(v));
    GroupsKeepOut(Text(v), ',');
    StrippedJoin(Groups(Text(v)));
    ParseText(v);
  }

  /** The sign is grouped like a digit: it stands alone before a comma exactly for the negative
      numbers whose digit count is a multiple of three. */
  lemma LoneMinusExactly(v: int)
    ensures Groups(Text(v))[0] == "-" <==> v < 0 && |Digits(-v)| % 3 == 0
  {
    TextHasNoComma(v);
    GroupsShape(Text(v));
    DigitsValue(if v < 0 then -v else v);
    if v >= 0 {
      assert IsDigit(Text(v)[0]);
      assert Groups(Text(v))[0][0] == Text(v)[0];
    } else {
      assert Text(v)[0] == '-';
      assert Groups(Text(v))[0][0] == '-';
      if |Groups(Text(v))[0]| == 1 {
        assert Groups(Text(v))[0] == "-";
      }
    }
  }

  // --- F ---

  function FourDigits(k: nat): string
    requires k < 10000
  {
    [Digit(k / 1000), Digit(k / 100 % 10), Digit(k / 10 % 10), Digit(k % 10)]
  }

  function Sign(negative: bool): string {
    if negative then "-" else ""
  }

  /** a ten-thousandths, with a sign. */
  function Fixed4(negative: bool, a: nat): string {
    Sign(negative) + Digits(a / 10000) + "." + FourDigits(a % 10000)
  }

  /** The nearest whole number, the even one when two are equally near. */
  function Rounded(y: real): nat
    requires y >= 0.0
  {
    var k := y.Floor;
    var rest := y - k as real;
    if rest > 0.5 || (rest == 0.5 && k % 2 == 1) then k + 1 else k
  }

  function Magnitude(x: real): real {
    if x < 0.0 then -x else x
  }

  /** How many ten-thousandths fmt.Sprintf("%.4f", x) shows, without the sign. */
  function TenThousandths(x: real): nat {
    Rounded(Magnitude(x) * 10000.0)
  }

  /** strings.TrimRight with a one-character set. */
  function TrimRight(s: string, c: char): string {
    if s != "" && s[|s| - 1] == c then TrimRight(s[..|s| - 1], c) else s
  }

  function F(x: real): string {
    TrimRight(TrimRight(Fixed4(x < 0.0, TenThousandths(x)), '0'), '.')
  }

  function IndexOf(s: string, c: char): (i: nat)
    ensures i <= |s|
    ensures i < |s| ==> s[i] == c
  {
    if s == "" || s[0] == c then 0 else 1 + IndexOf(s[1..], c)
  }

  function Ten(k: nat): nat {
    if k == 0 then 1 else 10 * Ten(k - 1)
  }

  /** A decimal with up to four places, in ten-thousandths. */
  function ParseUnsigned(s: string): Option<int> {
    var dot := IndexOf(s, '.');
    Assembled(s[..dot], if dot == |s| then "" else s[dot + 1..])
  }

  function Assembled(whole: string, fraction: string): Option<int> {
    if whole == "" || !AllDigits(whole) || !AllDigits(fraction) || |fraction| > 4 then None
    else Some(Value(whole) * 10000 + Value(fraction) * Ten(4 - |fraction|))
  }

  function ParseDecimal(s: string): Option<int> {
    if s != "" && s[0] == '-' then
      match ParseUnsigned(s[1..])
      case None => None
      case Some(v) => Some(-v)
    else ParseUnsigned(s)
  }

  lemma {:induction false} TrimRightShape(s: string, c: char)
    ensures var t := TrimRight(s, c);
            && |t| <= |s| && t == s[..|t|]
            && (t != "" ==> t[|t| - 1] != c)
            && (forall i :: |t| <= i < |s| ==> s[i] == c)
  {
    if s != "" && s[|s| - 1] == c {
      TrimRightShape(s[..|s| - 1], c);
    }
  }

  /** Trimming stops in the last part unless that part is all trimmed. */
  lemma {:induction false} TrimRightAfter(a: string, b: string, c: char)
    requires a == "" || a[|a| - 1] != c
    ensures TrimRight(a + b, c) == a + TrimRight(b, c)
  {
    if b == "" {
      assert a + b == a;
    } else {
      assert (a + b)[..|a + b| - 1] == a + b[..|b| - 1];
      TrimRightAfter(a, b[..|b| - 1], c);
    }
  }

  lemma TimesTen(v: int, k: nat)
    ensures v * Ten(k + 1) == 10 * (v * Ten(k))
  {
  }

  lemma {:induction false} TrimmedZeros(f: string)
    requires AllDigits(f)
    ensures var g := TrimRight(f, '0');
            |g| <= |f| && AllDigits(g) && Value(f) == Value(g) * Ten(|f| - |g|)
  {
    TrimRightShape(f, '0');
    if f != "" && f[|f| - 1] == '0' {
      var init := f[..|f| - 1];
      TrimmedZeros(init);
      var g := TrimRight(init, '0');
      TimesTen(Value(g), |init| - |g|);
    } else {
      assert Ten(0) == 1;
    }
  }

  lemma ValueAppend(s: string, d: nat)
    requires AllDigits(s) && d < 10
    ensures AllDigits(s + [Digit(d)]) && Value(s + [Digit(d)]) == 10 * Value(s) + d
  {
    assert (s + [Digit(d)])[..|s|] == s;
  }

  lemma FourValue(a: nat, b: nat, c: nat, d: nat)
    requires a < 10 && b < 10 && c < 10 && d < 10
    ensures AllDigits([Digit(a), Digit(b), Digit(c), Digit(d)])
    ensures Value([Digit(a), Digit(b), Digit(c), Digit(d)]) == 1000 * a + 100 * b + 10 * c + d
  {
    ValueAppend("", a);
    ValueAppend("" + [Digit(a)], b);
    ValueAppend("" + [Digit(a)] + [Digit(b)], c);
    ValueAppend("" + [Digit(a)] + [Digit(b)] + [Digit(c)], d);
    assert "" + [Digit(a)] + [Digit(b)] + [Digit(c)] + [Digit(d)] == [Digit(a), Digit(b), Digit(c), Digit(d)];
  }

  lemma FourParts(k: nat)
    requires k < 10000
    ensures 1000 * (k / 1000) + 100 * (k / 100 % 10) + 10 * (k / 10 % 10) + k % 10 == k
  {
    var a, b := k / 10, k / 100;
    assert k == 10 * a + k % 10 && a == 10 * (a / 10) + a % 10 && a / 10 == b;
    assert b == 10 * (b / 10) + b % 10 && b / 10 == k / 1000;
  }

  lemma FourDigitsValue(k: nat)
    requires k < 10000
    ensures AllDigits(FourDigits(k)) && Value(FourDigits(k)) == k
  {
    FourParts(k);
    FourValue(k / 1000, k / 100 % 10, k / 10 % 10, k % 10);
  }

  lemma {:induction false} FirstDot(a: string, b: string)
    requires AllDigits(a)
    ensures IndexOf(a, '.') == |a|
    ensures IndexOf(a + "." + b, '.') == |a|
  {
    if a != "" {
      assert (a + "." + b)[1..] == a[1..] + "." + b;
      FirstDot(a[1..], b);
    }
  }

  /** A whole part and a fraction, with a point between them unless the fraction is empty. */
  function WithPoint(whole: string, g: string): string {
    if g == "" then whole else whole + "." + g
  }

  /** The unsigned part of F's text. */
  function Trimmed4(a: nat): string {
    WithPoint(Digits(a / 10000), TrimRight(FourDigits(a % 10000), '0'))
  }

  lemma FShape(x: real)
    ensures F(x) == Sign(x < 0.0) + Trimmed4(TenThousandths(x))
  {
    Trimmed4Shape(x < 0.0, TenThousandths(x));
  }

  lemma Trimmed4Shape(negative: bool, a: nat)
    ensures TrimRight(TrimRight(Fixed4(negative, a), '0'), '.') == Sign(negative) + Trimmed4(a)
  {
    DigitsValue(a / 10000);
    FourDigitsValue(a % 10000);
    TrimmedText(Sign(negative), Digits(a / 10000), FourDigits(a % 10000));
  }

  lemma TrimmedText(sign: string, whole: string, f: string)
    requires AllDigits(whole) && whole != "" && AllDigits(f)
    ensures TrimRight(TrimRight(sign + whole + "." + f, '0'), '.') == sign + WithPoint(whole, TrimRight(f, '0'))
  {
    var g := TrimRight(f, '0');
    TrimRightShape(f, '0');
    TrimRightAfter(sign + whole + ".", f, '0');
    if g == "" {
      assert sign + whole + "." + g == (sign + whole) + ".";
      assert IsDigit(whole[|whole| - 1]);
      TrimRightAfter(sign + whole, ".", '.');
      assert TrimRight(".", '.') == "";
    } else {
      assert g[|g| - 1] == f[|g| - 1] && IsDigit(f[|g| - 1]);
      assert sign + whole + "." + g == sign + (whole + "." + g);
    }
  }

  lemma ParseParts(whole: string, g: string)
    requires AllDigits(whole)
    ensures ParseUnsigned(whole + "." + g) == Assembled(whole, g)
    ensures ParseUnsigned(whole) == Assembled(whole, "")
  {
    var s := whole + "." + g;
    FirstDot(whole, g);
    assert s[..|whole|] == whole && s[|whole| + 1..] == g;
    assert whole[..|whole|] == whole;
  }

  lemma AssembledTrimmed(whole: string, f: string)
    requires AllDigits(whole) && whole != "" && AllDigits(f) && |f| == 4
    ensures Assembled(whole, TrimRight(f, '0')) == Some(Value(whole) * 10000 + Value(f))
  {
    TrimmedZeros(f);
  }

  lemma ParseTrimmed4(a: nat)
    ensures ParseUnsigned(Trimmed4(a)) == Some(a)
    ensures Trimmed4(a) != "" && Trimmed4(a)[0] != '-'
  {
    var q, r := a / 10000, a % 10000;
    assert a == q * 10000 + r;
    ParseWholeNumberAndFour(q, r);
    assert Trimmed4(a) == WithPoint(Digits(q), TrimRight(FourDigits(r), '0'));
  }

  lemma ParseWholeNumberAndFour(q: nat, r: nat)
    requires r < 10000
    ensures var t := WithPoint(Digits(q), TrimRight(FourDigits(r), '0'));
            && ParseUnsigned(t) == Some(q * 10000 + r)
            && t != "" && t[0] != '-'
  {
    DigitsValue(q);
    FourDigitsValue(r);
    ParseWholeAndFour(Digits(q), FourDigits(r));
  }

  lemma ParseWholeAndFour(whole: string, f: string)
    requires AllDigits(whole) && whole != "" && AllDigits(f) && |f| == 4
    ensures var t := WithPoint(whole, TrimRight(f, '0'));
            && ParseUnsigned(t) == Some(Value(whole) * 10000 + Value(f))
            && t != "" && t[0] != '-'
  {
    AssembledTrimmed(whole, f);
    ParseParts(whole, TrimRight(f, '0'));
    assert IsDigit(whole[0]);
  }

  /** Exactly between two ten-thousandths the even one is shown. */
  lemma TiesGoToEven(x: real)
    ensures var y := Magnitude(x) * 10000.0;
            y - y.Floor as real == 0.5 ==> TenThousandths(x) % 2 == 0
  {
  }

  /** The whole part of F's text has no leading zero, except a lone one. */
  lemma WholePartIsPlain(x: real)
    ensures F(x) != ""
    ensures var u := if x < 0.0 then F(x)[1..] else F(x);
            && u != "" && IsDigit(u[0])
            && (u[0] == '0' ==> |u| == 1 || u[1] == '.')
  {
    var a := TenThousandths(x);
    FShape(x);
    DigitsValue(a / 10000);
    NoLeadingZero(a / 10000);
    var u := Trimmed4(a);
    assert (Sign(x < 0.0) + u)[|Sign(x < 0.0)|..] == u;
  }

  lemma RoundedIsNearest(y: real)
    requires y >= 0.0
    ensures -0.5 <= Rounded(y) as real - y <= 0.5
    ensures Rounded(y) as real == y <==> y.Floor as real == y
    ensures Rounded(y) == 0 <==> y <= 0.5
  {
  }

  /** For any number, F's text reads back as the nearest whole number of ten-thousandths, which is the
      number itself exactly when it is one; and the text never ends in a point or, after a point, a zero. */
  lemma FUndone(x: real)
    ensures var m := Signed(x < 0.0, TenThousandths(x));
            && ParseDecimal(F(x)) == Some(m)
            && -0.5 <= m as real - x * 10000.0 <= 0.5
            && (m as real == x * 10000.0 <==> (x * 10000.0).Floor as real == x * 10000.0)
    ensures var t := F(x);
            && t != "" && t[|t| - 1] != '.'
            && ('.' in t ==> t[|t| - 1] != '0')
  {
    FShape(x);
    SignedText(x < 0.0, TenThousandths(x));
    NearestTenThousandth(x);
  }

  lemma NearestTenThousandth(x: real)
    ensures var m := Signed(x < 0.0, TenThousandths(x));
            && -0.5 <= m as real - x * 10000.0 <= 0.5
            && (m as real == x * 10000.0 <==> (x * 10000.0).Floor as real == x * 10000.0)
  {
    var y := x * 10000.0;
    if x < 0.0 {
      assert Magnitude(x) * 10000.0 == -y;
      RoundedIsNearest(-y);
      WholeNegated(y);
    } else {
      RoundedIsNearest(y);
    }
  }

  lemma WholeNegated(y: real)
    ensures y.Floor as real == y <==> (-y).Floor as real == -y
  {
    if y.Floor as real == y {
      assert -y == (-y.Floor) as real;
    }
    if (-y).Floor as real == -y {
      assert y == (-(-y).Floor) as real;
    }
  }

  lemma SignedText(negative: bool, a: nat)
    ensures var t := Sign(negative) + Trimmed4(a);
            && ParseDecimal(t) == Some(Signed(negative, a))
            && t != "" && t[|t| - 1] != '.'
            && ('.' in t ==> t[|t| - 1] != '0')
  {
    var u := Trimmed4(a);
    var t := Sign(negative) + u;
    ParseTrimmed4(a);
    if negative {
      assert t[1..] == u;
    } else {
      assert t == u;
    }
    NoTrailing(a);
    assert t[|t| - 1] == u[|u| - 1];
    assert '.' in t <==> '.' in u;
  }

  /** F writes a lone minus zero exactly for the negative numbers that round to nothing. */
  lemma MinusZeroExactly(x: real)
    ensures F(x) == "-0" <==> -0.00005 <= x < 0.0
  {
    FShape(x);
    MinusZeroText(x < 0.0, TenThousandths(x));
    RoundedIsNearest(Magnitude(x) * 10000.0);
  }

  lemma MinusZeroText(negative: bool, a: nat)
    ensures Sign(negative) + Trimmed4(a) == "-0" <==> negative && a == 0
  {
    ParseTrimmed4(a);
    ZeroText();
    SignedZero(negative, Trimmed4(a));
  }

  lemma SignedZero(negative: bool, u: string)
    requires u != "" && u[0] != '-'
    ensures Sign(negative) + u == "-0" <==> negative && u == "0"
  {
    if negative {
      assert ("-" + u)[1..] == u && "-0"[1..] == "0";
      assert "-" + "0" == "-0";
    } else {
      assert "" + u == u;
    }
  }

  lemma ZeroText()
    ensures Trimmed4(0) == "0" && ParseUnsigned("0") == Some(0)
  {
    assert FourDigits(0) == "0000";
    assert TrimRight("0000", '0') == "" by {
      TrimRightShape("0000", '0');
    }
    ParseTrimmed4(0);
  }

  lemma NoTrailing(a: nat)
    ensures var u := Trimmed4(a);
            u != "" && u[|u| - 1] != '.' && ('.' in u ==> u[|u| - 1] != '0')
  {
    var whole, f := Digits(a / 10000), FourDigits(a % 10000);
    var g := TrimRight(f, '0');
    DigitsValue(a / 10000);
    FourDigitsValue(a % 10000);
    TrimRightShape(f, '0');
    if g == "" {
      assert IsDigit(whole[|whole| - 1]);
      assert '.' !in whole;
    } else {
      assert g[|g| - 1] == f[|g| - 1] && IsDigit(f[|g| - 1]);
    }
  }
}
