/** The string operations of Go that the components lean on. */
module Text {

  // ----- strings.TrimSpace and strings.ToLower -----

  /** unicode.IsSpace. */
  predicate IsSpace(c: char) {
    '\t' <= c <= '\r' || c == ' ' || c == '\U{0085}' || c == '\U{00A0}' || c == '\U{1680}'
    || '\U{2000}' <= c <= '\U{200A}' || c == '\U{2028}' || c == '\U{2029}' || c == '\U{202F}' || c == '\U{205F}'
    || c == '\U{3000}'
  }

  /** The code points of unicode.IsSpace, one by one. */
  lemma SpacesListed(c: char)
    ensures IsSpace(c) <==>
            c as int in {0x9, 0xA, 0xB, 0xC, 0xD, 0x20, 0x85, 0xA0, 0x1680, 0x2000, 0x2001, 0x2002, 0x2003, 0x2004,
                         0x2005, 0x2006, 0x2007, 0x2008, 0x2009, 0x200A, 0x2028, 0x2029, 0x202F, 0x205F, 0x3000}
  {
  }

  function TrimLeft(s: string): string {
    if s != "" && IsSpace(s[0]) then TrimLeft(s[1..]) else s
  }

  function TrimRight(s: string): string {
    if s != "" && IsSpace(s[|s| - 1]) then TrimRight(s[..|s| - 1]) else s
  }

  function TrimSpace(s: string): string {
    TrimRight(TrimLeft(s))
  }

  predicate Trimmed(s: string) {
    s == "" || (!IsSpace(s[0]) && !IsSpace(s[|s| - 1]))
  }

  lemma {:induction false} TrimRightKeepsHead(s: string)
    requires s != "" && !IsSpace(s[0])
    ensures TrimRight(s) != "" && TrimRight(s)[0] == s[0] && Trimmed(TrimRight(s))
  {
    if IsSpace(s[|s| - 1]) {
      TrimRightKeepsHead(s[..|s| - 1]);
    }
  }

  lemma {:induction false} TrimLeftHead(s: string)
    ensures TrimLeft(s) == "" || !IsSpace(TrimLeft(s)[0])
  {
    if s != "" && IsSpace(s[0]) {
      TrimLeftHead(s[1..]);
    }
  }

  lemma TrimSpaceTrims(s: string)
    ensures Trimmed(TrimSpace(s))
  {
    TrimLeftHead(s);
    if TrimLeft(s) != "" {
      TrimRightKeepsHead(TrimLeft(s));
    }
  }

  lemma TrimSpaceOfTrimmed(s: string)
    requires Trimmed(s)
    ensures TrimSpace(s) == s
  {
  }

  ghost predicate AllSpaces(s: string) {
    forall k :: 0 <= k < |s| ==> IsSpace(s[k])
  }

  lemma JoinedSpaces(s: string, t: string)
    requires AllSpaces(s) && AllSpaces(t)
    ensures AllSpaces(s + t)
  {
  }

  lemma {:induction false} TrimLeftCuts(s: string) returns (lead: string)
    ensures s == lead + TrimLeft(s) && AllSpaces(lead)
  {
    lead := "";
    if s != "" && IsSpace(s[0]) {
      var more := TrimLeftCuts(s[1..]);
      lead := [s[0]] + more;
      JoinedSpaces([s[0]], more);
      assert s == [s[0]] + (more + TrimLeft(s));
    }
  }

  lemma {:induction false} TrimRightCuts(s: string) returns (tail: string)
    ensures s == TrimRight(s) + tail && AllSpaces(tail)
  {
    tail := "";
    if s != "" && IsSpace(s[|s| - 1]) {
      var init, last := s[..|s| - 1], [s[|s| - 1]];
      var more := TrimRightCuts(init);
      tail := more + last;
      JoinedSpaces(more, last);
      assert s == (TrimRight(s) + more) + last;
    }
  }

  /** Trimming cuts the white space off both ends and nothing else. */
  lemma TrimSpaceCuts(s: string) returns (lead: string, tail: string)
    ensures s == lead + TrimSpace(s) + tail && AllSpaces(lead) && AllSpaces(tail)
    ensures TrimSpace(s) != "" ==> !IsSpace(TrimSpace(s)[0]) && !IsSpace(TrimSpace(s)[|TrimSpace(s)| - 1])
  {
    lead := TrimLeftCuts(s);
    tail := TrimRightCuts(TrimLeft(s));
    assert s == lead + (TrimSpace(s) + tail);
    TrimSpaceTrims(s);
  }

  function LowerChar(c: char): char {
    if 'A' <= c <= 'Z' then (c as int + 32) as char else c
  }

  /** strings.ToLower on ASCII letters. */
  function ToLower(s: string): (r: string)
    ensures |r| == |s|
    ensures forall i :: 0 <= i < |s| ==> r[i] == LowerChar(s[i])
  {
    seq(|s|, i requires 0 <= i < |s| => LowerChar(s[i]))
  }

  /** The i-th capital letter becomes the i-th small one, anything else stays as it is. */
  lemma LettersLowered(c: char)
    ensures 'A' <= c <= 'Z' ==> LowerChar(c) as int - 'a' as int == c as int - 'A' as int
    ensures !('A' <= c <= 'Z') ==> LowerChar(c) == c
  {
  }

  lemma LowerKeepsSpaces(c: char)
    ensures IsSpace(LowerChar(c)) == IsSpace(c)
    ensures LowerChar(LowerChar(c)) == LowerChar(c)
  {
  }

  /** Lower-casing after trimming is a normal form. */
  lemma LowerTrimIdempotent(s: string)
    ensures var n := ToLower(TrimSpace(s)); ToLower(TrimSpace(n)) == n
  {
    var t := TrimSpace(s);
    var n := ToLower(t);
    TrimSpaceTrims(s);
    if t != "" {
      LowerKeepsSpaces(t[0]);
      LowerKeepsSpaces(t[|t| - 1]);
    }
    TrimSpaceOfTrimmed(n);
    forall i | 0 <= i < |n|
      ensures LowerChar(n[i]) == n[i]
    {
      LowerKeepsSpaces(t[i]);
    }
    assert ToLower(n) == n;
  }

  // ----- strconv.FormatInt in base 10 -----

  function Digit(d: nat): char
    requires d < 10
  {
    (d + '0' as int) as char
  }

  function Digits(n: nat): string {
    if n < 10 then [Digit(n)] else Digits(n / 10) + [Digit(n % 10)]
  }

  function FormatInt(n: int): string {
    if n < 0 then "-" + Digits(-n) else Digits(n)
  }

  predicate IsDigits(s: string) {
    forall i :: 0 <= i < |s| ==> '0' <= s[i] <= '9'
  }

  function DigitsValue(s: string): nat
    requires IsDigits(s)
  {
    if s == "" then 0 else 10 * DigitsValue(s[..|s| - 1]) + (s[|s| - 1] as int - '0' as int)
  }

  lemma {:induction false} DigitsInvertible(n: nat)
    ensures Digits(n) != "" && IsDigits(Digits(n)) && DigitsValue(Digits(n)) == n
  {
    if n >= 10 {
      DigitsInvertible(n / 10);
      assert Digits(n)[..|Digits(n)| - 1] == Digits(n / 10);
    } else {
      assert Digits(n)[..0] == "";
    }
  }

  function Pow10(k: nat): (p: nat)
    ensures p > 0
  {
    if k == 0 then 1 else 10 * Pow10(k - 1)
  }

  lemma QuotientOfTen(n: nat, p: nat)
    requires p > 0
    ensures n / 10 / p == n / (10 * p)
  {
    var q, r := n / 10, n % 10;
    var a, b := q / p, q % p;
    assert q == a * p + b;
    assert n == a * (10 * p) + (10 * b + r);
    assert 0 <= 10 * b + r < 10 * p;
    QuotientUnique(n, 10 * p, a, 10 * b + r);
  }

  lemma {:induction false} ProductOrder(a: nat, b: nat, d: nat)
    requires a < b
    ensures a * d + d <= b * d
  {
    assert b * d == (b - 1) * d + d;
    if a + 1 < b {
      ProductOrder(a, b - 1, d);
    }
  }

  lemma QuotientUnique(n: nat, d: nat, q: nat, r: nat)
    requires d > 0 && n == q * d + r && r < d
    ensures n / d == q
  {
    var x, y := n / d, n % d;
    assert n == x * d + y;
    if x < q {
      ProductOrder(x, q, d);
    }
    if q < x {
      ProductOrder(q, x, d);
    }
  }

  lemma DigitsGrow(n: nat)
    ensures n < Pow10(|Digits(n)|) && (n > 0 ==> Digits(n)[0] != '0')
  {
    if n >= 10 {
      var m := |Digits(n / 10)|;
      DigitsInvertible(n / 10);
      DigitsGrow(n / 10);
      assert Pow10(m + 1) == 10 * Pow10(m);
    }
  }

  /** The decimal places of a number: the k-th from the right is floor(n / 10^k) mod 10, none is left out,
      and the first is not 0 unless it is the only one. */
  lemma {:induction false} DecimalPlaces(n: nat, k: nat)
    requires k < |Digits(n)|
    ensures Digits(n)[|Digits(n)| - 1 - k] == "0123456789"[n / Pow10(k) % 10]
    ensures n < Pow10(|Digits(n)|) && (n > 0 ==> Digits(n)[0] != '0')
  {
    DigitsGrow(n);
    DecimalPlace(n, k);
  }

  lemma {:induction false} DecimalPlace(n: nat, k: nat)
    requires k < |Digits(n)|
    ensures Digits(n)[|Digits(n)| - 1 - k] == "0123456789"[n / Pow10(k) % 10]
  {
    if k == 0 {
      assert Digits(n)[|Digits(n)| - 1] == Digit(n % 10);
    } else {
      DecimalPlace(n / 10, k - 1);
      QuotientOfTen(n, Pow10(k - 1));
    }
  }

  lemma DigitsInjective(a: nat, b: nat)
    requires Digits(a) == Digits(b)
    ensures a == b
  {
    DigitsInvertible(a);
    DigitsInvertible(b);
  }

  lemma FirstDash(n: nat, x: string)
    ensures var s := Digits(n) + "-" + x;
            s[|Digits(n)|] == '-' && s[..|Digits(n)|] == Digits(n) && forall i :: 0 <= i < |Digits(n)| ==> s[i] != '-'
  {
    DigitsInvertible(n);
  }

  /** A run of digits ended by a dash says where it ends, whatever follows. */
  lemma DigitsPrefixFree(a: nat, x: string, b: nat, y: string)
    requires Digits(a) + "-" + x == Digits(b) + "-" + y
    ensures a == b
  {
    FirstDash(a, x);
    FirstDash(b, y);
    assert |Digits(a)| == |Digits(b)|;
    DigitsInjective(a, b);
  }

  lemma FormatIntHead(n: int, x: string)
    ensures var s := FormatInt(n) + "-" + x;
            |s| > 0 && (s[0] == '-' <==> n < 0) && (n < 0 ==> s[1..] == Digits(-n) + "-" + x)
  {
    if n >= 0 {
      DigitsInvertible(n);
    }
  }

  lemma FormatIntPrefixFree(a: int, x: string, b: int, y: string)
    requires FormatInt(a) + "-" + x == FormatInt(b) + "-" + y
    ensures a == b
  {
    FormatIntHead(a, x);
    FormatIntHead(b, y);
    if a >= 0 {
      DigitsPrefixFree(a, x, b, y);
    } else {
      DigitsPrefixFree(-a, x, -b, y);
    }
  }

  lemma FormatIntInjective(a: int, b: int)
    requires FormatInt(a) == FormatInt(b)
    ensures a == b
  {
    FormatIntPrefixFree(a, "", b, "");
  }

  // ----- the order of Go strings -----

  function StringLess(a: string, b: string): bool {
    if b == "" then false
    else if a == "" then true
    else if a[0] != b[0] then a[0] < b[0]
    else StringLess(a[1..], b[1..])
  }

  /** One string comes before another when it is a proper prefix of it, or has the smaller character where
      the two first differ. */
  lemma {:induction false} FirstDifferenceDecides(a: string, b: string, k: nat)
    requires k <= |a| && k <= |b| && a[..k] == b[..k]
    requires k < |a| && k < |b| ==> a[k] != b[k]
    ensures StringLess(a, b) <==> k < |b| && (k == |a| || a[k] < b[k])
    decreases k
  {
    if k > 0 {
      assert a[0] == a[..k][0] == b[..k][0] == b[0];
      assert a[1..][..k - 1] == a[..k][1..] && b[1..][..k - 1] == b[..k][1..];
      FirstDifferenceDecides(a[1..], b[1..], k - 1);
    }
  }

  lemma {:induction false} StringLessAsymmetric(a: string, b: string)
    ensures !(StringLess(a, b) && StringLess(b, a))
  {
    if a != "" && b != "" && a[0] == b[0] {
      StringLessAsymmetric(a[1..], b[1..]);
    }
  }

  lemma {:induction false} StringLessSplits(a: string, b: string, c: string)
    requires StringLess(a, c)
    ensures StringLess(a, b) || StringLess(b, c)
  {
    if a != "" && b != "" && a[0] == b[0] == c[0] {
      StringLessSplits(a[1..], b[1..], c[1..]);
    }
  }

  lemma {:induction false} StringLessTotal(a: string, b: string)
    requires !StringLess(a, b) && !StringLess(b, a)
    ensures a == b
  {
    if a != "" && b != "" {
      StringLessTotal(a[1..], b[1..]);
      assert a == [a[0]] + a[1..] && b == [b[0]] + b[1..];
    }
  }
}
