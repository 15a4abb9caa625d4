/** The API-secret codec of internal/connectors/polymarket/private_client.go: Base64 in the four forms of
    sections 4 and 5 of RFC 4648, and a decoder that accepts all of them with noise in between. */
module PolySecret {
  import opened Sequences
  import opened Text

  type byte = x: int | 0 <= x < 256

  datatype Symbol = Digit(value: int) | Pad | Other

  datatype Decoded = Bytes(value: seq<byte>) | Corrupt

  // ----- letters -----

  /** The standard or the URL-safe alphabet; both pad with '='. */
  function Letter(urlSafe: bool, s: Symbol): char {
    match s
    case Digit(v) =>
      if 0 <= v < 26 then ('A' as int + v) as char
      else if 26 <= v < 52 then ('a' as int + (v - 26)) as char
      else if 52 <= v < 62 then ('0' as int + (v - 52)) as char
      else if v == 62 then if urlSafe then '-' else '+'
      else if urlSafe then '_' else '/'
    case Pad => '='
    case Other => '.'
  }

  /** The standard alphabet read back. */
  function SymbolOf(c: char): Symbol {
    if 'A' <= c <= 'Z' then Digit(c as int - 'A' as int)
    else if 'a' <= c <= 'z' then Digit(c as int - 'a' as int + 26)
    else if '0' <= c <= '9' then Digit(c as int - '0' as int + 52)
    else if c == '+' then Digit(62)
    else if c == '/' then Digit(63)
    else if c == '=' then Pad
    else Other
  }

  /** What the two ReplaceAll calls do to one character. */
  function ToStandard(c: char): char {
    if c == '-' then '+' else if c == '_' then '/' else c
  }

  predicate InAlphabet(c: char) {
    ('A' <= c <= 'Z') || ('a' <= c <= 'z') || ('0' <= c <= '9') || c == '+' || c == '/' || c == '='
  }

  function Lettering(urlSafe: bool): Symbol -> char { (s: Symbol) => Letter(urlSafe, s) }

  function Reading(): char -> Symbol { (c: char) => SymbolOf(c) }

  function Standardising(): char -> char { (c: char) => ToStandard(c) }

  predicate IsSymbol(s: Symbol) {
    s == Pad || (s.Digit? && 0 <= s.value < 64)
  }

  lemma LetterIsRead(urlSafe: bool, s: Symbol)
    requires IsSymbol(s)
    ensures ToStandard(Letter(urlSafe, s)) == Letter(false, s)
    ensures SymbolOf(Letter(false, s)) == s
  {
  }

  // ----- bytes to symbols and back -----

  function Quantum(a: byte, b: byte, c: byte): (q: seq<Symbol>)
    ensures |q| == 4
  {
    [Digit(a / 4), Digit(a % 4 * 16 + b / 16), Digit(b % 16 * 4 + c / 64), Digit(c % 64)]
  }

  function Pads(n: nat): (r: seq<Symbol>)
    ensures |r| == n
  {
    seq(n, i => Pad)
  }

  function Tail(bytes: seq<byte>): (q: seq<Symbol>)
    requires |bytes| < 3
    ensures |q| < 4
  {
    if |bytes| == 0 then []
    else if |bytes| == 1 then Quantum(bytes[0], 0, 0)[..2]
    else Quantum(bytes[0], bytes[1], 0)[..3]
  }

  function Encode(bytes: seq<byte>, padded: bool): seq<Symbol> {
    if |bytes| < 3 then
      Tail(bytes) + Pads(if padded && |bytes| > 0 then 3 - |bytes| else 0)
    else Quantum(bytes[0], bytes[1], bytes[2]) + Encode(bytes[3..], padded)
  }

  function First(x: int, y: int): byte
    requires 0 <= x < 64 && 0 <= y < 64
  {
    x * 4 + y / 16
  }

  function Second(y: int, z: int): byte
    requires 0 <= y < 64 && 0 <= z < 64
  {
    y % 16 * 16 + z / 4
  }

  function Third(z: int, w: int): byte
    requires 0 <= z < 64 && 0 <= w < 64
  {
    z % 4 * 64 + w
  }

  predicate IsDigit(s: Symbol) {
    s.Digit? && 0 <= s.value < 64
  }

  /** Go's StdEncoding, which is not strict: '=' only as the last one or two symbols of the last quantum,
      and left-over bits of a short quantum ignored. */
  function Decode(s: seq<Symbol>): Decoded {
    if |s| == 0 then Bytes([])
    else if |s| < 4 || !IsDigit(s[0]) || !IsDigit(s[1]) then Corrupt
    else if s[2] == Pad then
      if s[3] == Pad && |s| == 4 then Bytes([First(s[0].value, s[1].value)]) else Corrupt
    else if !IsDigit(s[2]) then Corrupt
    else if s[3] == Pad then
      if |s| == 4 then Bytes([First(s[0].value, s[1].value), Second(s[1].value, s[2].value)]) else Corrupt
    else if !IsDigit(s[3]) then Corrupt
    else
      Prepend([First(s[0].value, s[1].value), Second(s[1].value, s[2].value), Third(s[2].value, s[3].value)],
              Decode(s[4..]))
  }

  function Prepend(bytes: seq<byte>, rest: Decoded): Decoded {
    if rest.Corrupt? then Corrupt else Bytes(bytes + rest.value)
  }

  lemma FirstOfQuantum(a: byte, b: byte, c: byte)
    ensures var q := Quantum(a, b, c); IsDigit(q[0]) && IsDigit(q[1]) && First(q[0].value, q[1].value) == a
  {
  }

  lemma LowPart(h: int, l: int)
    requires 0 <= l < 16
    ensures (h * 16 + l) % 16 == l
  {
  }

  lemma HighPart(h: int, l: int)
    requires 0 <= l < 4
    ensures (h * 4 + l) / 4 == h
  {
  }

  lemma SecondOfQuantum(a: byte, b: byte, c: byte)
    ensures var q := Quantum(a, b, c); IsDigit(q[1]) && IsDigit(q[2]) && Second(q[1].value, q[2].value) == b
  {
    LowPart(a % 4, b / 16);
    HighPart(b % 16, c / 64);
  }

  lemma ThirdOfQuantum(a: byte, b: byte, c: byte)
    ensures var q := Quantum(a, b, c); IsDigit(q[2]) && IsDigit(q[3]) && Third(q[2].value, q[3].value) == c
  {
  }

  lemma QuantumDigits(a: byte, b: byte, c: byte)
    ensures forall s :: s in Quantum(a, b, c) ==> IsDigit(s)
  {
    FirstOfQuantum(a, b, c);
    ThirdOfQuantum(a, b, c);
  }

  lemma DecodeQuantum(a: byte, b: byte, c: byte, rest: seq<Symbol>)
    ensures Decode(Quantum(a, b, c) + rest) == Prepend([a, b, c], Decode(rest))
  {
    var q := Quantum(a, b, c);
    FirstOfQuantum(a, b, c);
    SecondOfQuantum(a, b, c);
    ThirdOfQuantum(a, b, c);
    assert (q + rest)[4..] == rest;
  }

  lemma DecodeOne(x: Symbol, y: Symbol)
    requires IsDigit(x) && IsDigit(y)
    ensures Decode([x, y, Pad, Pad]) == Bytes([First(x.value, y.value)])
  {
  }

  lemma DecodeTwo(x: Symbol, y: Symbol, z: Symbol)
    requires IsDigit(x) && IsDigit(y) && IsDigit(z)
    ensures Decode([x, y, z, Pad]) == Bytes([First(x.value, y.value), Second(y.value, z.value)])
  {
  }

  lemma TailOfOne(bytes: seq<byte>, q: seq<Symbol>)
    requires |bytes| == 1 && q == Quantum(bytes[0], 0, 0)
    ensures Encode(bytes, true) == [q[0], q[1], Pad, Pad]
  {
  }

  lemma TailOfTwo(bytes: seq<byte>, q: seq<Symbol>)
    requires |bytes| == 2 && q == Quantum(bytes[0], bytes[1], 0)
    ensures Encode(bytes, true) == [q[0], q[1], q[2], Pad]
  {
  }

  lemma DecodeTailOfOne(bytes: seq<byte>)
    requires |bytes| == 1
    ensures Decode(Encode(bytes, true)) == Bytes(bytes)
  {
    var q := Quantum(bytes[0], 0, 0);
    FirstOfQuantum(bytes[0], 0, 0);
    TailOfOne(bytes, q);
    DecodeOne(q[0], q[1]);
    assert bytes == [bytes[0]];
  }

  lemma DecodeTailOfTwo(bytes: seq<byte>)
    requires |bytes| == 2
    ensures Decode(Encode(bytes, true)) == Bytes(bytes)
  {
    var q := Quantum(bytes[0], bytes[1], 0);
    FirstOfQuantum(bytes[0], bytes[1], 0);
    SecondOfQuantum(bytes[0], bytes[1], 0);
    TailOfTwo(bytes, q);
    DecodeTwo(q[0], q[1], q[2]);
    assert bytes == [bytes[0], bytes[1]];
  }

  lemma DecodeTailOfNone(bytes: seq<byte>)
    requires |bytes| == 0
    ensures Decode(Encode(bytes, true)) == Bytes(bytes)
  {
  }

  lemma {:induction false} DecodeEncode(bytes: seq<byte>)
    ensures Decode(Encode(bytes, true)) == Bytes(bytes)
  {
    if |bytes| == 0 {
      DecodeTailOfNone(bytes);
    } else if |bytes| == 1 {
      DecodeTailOfOne(bytes);
    } else if |bytes| == 2 {
      DecodeTailOfTwo(bytes);
    } else {
      DecodeEncode(bytes[3..]);
      DecodeQuantum(bytes[0], bytes[1], bytes[2], Encode(bytes[3..], true));
      assert bytes == [bytes[0], bytes[1], bytes[2]] + bytes[3..];
    }
  }

  lemma {:induction false} EncodeSymbols(bytes: seq<byte>, padded: bool)
    ensures forall s :: s in Encode(bytes, padded) ==> IsSymbol(s)
  {
    if |bytes| < 3 {
      if |bytes| > 0 {
        QuantumDigits(bytes[0], if |bytes| == 2 then bytes[1] else 0, 0);
      }
    } else {
      QuantumDigits(bytes[0], bytes[1], bytes[2]);
      EncodeSymbols(bytes[3..], padded);
    }
  }

  /** How many '=' bring a length up to a multiple of four. */
  function Missing(n: nat): nat {
    (4 - n % 4) % 4
  }

  lemma TailPadding(bytes: seq<byte>, padded: bool)
    requires |bytes| < 3
    ensures Encode(bytes, padded) + Pads(Missing(|Encode(bytes, padded)|)) == Encode(bytes, true)
  {
  }

  lemma MissingAfterQuantum(n: nat)
    ensures Missing(4 + n) == Missing(n)
  {
  }

  lemma {:induction false} PaddingCompletes(bytes: seq<byte>, padded: bool)
    ensures Encode(bytes, padded) + Pads(Missing(|Encode(bytes, padded)|)) == Encode(bytes, true)
  {
    if |bytes| < 3 {
      TailPadding(bytes, padded);
    } else {
      PaddingCompletes(bytes[3..], padded);
      var rest := Encode(bytes[3..], padded);
      MissingAfterQuantum(|rest|);
      Associate(Quantum(bytes[0], bytes[1], bytes[2]), rest, Pads(Missing(|rest|)));
    }
  }

  // ----- texts -----

  /** The Base64 form of a byte string: standard or URL-safe letters, with or without padding. */
  function Form(bytes: seq<byte>, urlSafe: bool, padded: bool): string {
    Map(Encode(bytes, padded), Lettering(urlSafe))
  }

  // ----- the forms letter by letter -----

  const CAPITALS := "ABCDEFGHIJKLMNOPQRSTUVWXYZ"
  const SMALL_LETTERS := "abcdefghijklmnopqrstuvwxyz"
  const FIGURES := "0123456789"

  /** The alphabets of sections 4 and 5 of RFC 4648. */
  function Alphabet(urlSafe: bool): string {
    CAPITALS + SMALL_LETTERS + FIGURES + if urlSafe then "-_" else "+/"
  }

  lemma CapitalAt(v: nat)
    requires v < 26
    ensures |CAPITALS| == 26 && CAPITALS[v] as int == 'A' as int + v
  {
  }

  lemma SmallLetterAt(v: nat)
    requires v < 26
    ensures |SMALL_LETTERS| == 26 && SMALL_LETTERS[v] as int == 'a' as int + v
  {
  }

  lemma FigureAt(v: nat)
    requires v < 10
    ensures |FIGURES| == 10 && FIGURES[v] as int == '0' as int + v
  {
  }

  lemma LetterOfAlphabet(urlSafe: bool, v: nat)
    requires v < 64
    ensures |Alphabet(urlSafe)| == 64 && Letter(urlSafe, Digit(v)) == Alphabet(urlSafe)[v]
  {
    CapitalAt(if v < 26 then v else 0);
    SmallLetterAt(if 26 <= v < 52 then v - 26 else 0);
    FigureAt(if 52 <= v < 62 then v - 52 else 0);
  }

  /** Four 6-bit numbers make the same 24-bit number as the three bytes. */
  ghost predicate SameNumber(a: byte, b: byte, c: byte, d: seq<int>) {
    && |d| == 4 && (forall i :: 0 <= i < 4 ==> 0 <= d[i] < 64)
    && a * 0x1_0000 + b * 0x100 + c == d[0] * 0x4_0000 + d[1] * 0x1000 + d[2] * 0x40 + d[3]
  }

  lemma QuantumIsNumber(a: byte, b: byte, c: byte)
    ensures var q := Quantum(a, b, c);
            && (forall i :: 0 <= i < 4 ==> IsDigit(q[i]))
            && SameNumber(a, b, c, [q[0].value, q[1].value, q[2].value, q[3].value])
  {
    FirstOfQuantum(a, b, c);
    ThirdOfQuantum(a, b, c);
    assert a == a / 4 * 4 + a % 4 && b == b / 16 * 16 + b % 16 && c == c / 64 * 64 + c % 64;
  }

  lemma {:induction false} EncodedFrom(bytes: seq<byte>, padded: bool, k: nat)
    requires 3 * k <= |bytes|
    ensures 4 * k <= |Encode(bytes, padded)| && Encode(bytes, padded)[4 * k..] == Encode(bytes[3 * k..], padded)
    decreases k
  {
    if k > 0 {
      var q, rest := Quantum(bytes[0], bytes[1], bytes[2]), Encode(bytes[3..], padded);
      EncodedFrom(bytes[3..], padded, k - 1);
      assert bytes[3..][3 * (k - 1)..] == bytes[3 * k..];
      assert (q + rest)[4 * k..] == rest[4 * (k - 1)..];
    }
  }

  /** Every three bytes take four letters: what follows k groups is the form of the bytes that follow them. */
  lemma FormContinues(bytes: seq<byte>, urlSafe: bool, padded: bool, k: nat)
    requires 3 * k <= |bytes|
    ensures 4 * k <= |Form(bytes, urlSafe, padded)|
    ensures Form(bytes, urlSafe, padded)[4 * k..] == Form(bytes[3 * k..], urlSafe, padded)
  {
    EncodedFrom(bytes, padded, k);
  }

  lemma QuantumInLetters(a: byte, b: byte, c: byte, urlSafe: bool) returns (d: seq<int>)
    ensures SameNumber(a, b, c, d) && |Alphabet(urlSafe)| == 64
    ensures forall i :: 0 <= i < 4 ==> Letter(urlSafe, Quantum(a, b, c)[i]) == Alphabet(urlSafe)[d[i]]
  {
    var q := Quantum(a, b, c);
    d := [q[0].value, q[1].value, q[2].value, q[3].value];
    QuantumIsNumber(a, b, c);
    forall i | 0 <= i < 4
      ensures |Alphabet(urlSafe)| == 64 && Letter(urlSafe, q[i]) == Alphabet(urlSafe)[d[i]]
    {
      LetterOfAlphabet(urlSafe, q[i].value);
    }
  }

  lemma FormOfOne(bytes: seq<byte>, urlSafe: bool, padded: bool)
    requires |bytes| == 1
    ensures var q := Quantum(bytes[0], 0, 0);
            Form(bytes, urlSafe, padded) == [Letter(urlSafe, q[0]), Letter(urlSafe, q[1])] + if padded then "==" else ""
  {
    var q, text := Quantum(bytes[0], 0, 0), Form(bytes, urlSafe, padded);
    assert Encode(bytes, padded) == q[..2] + Pads(if padded then 2 else 0);
    assert text[0] == Letter(urlSafe, q[0]) && text[1] == Letter(urlSafe, q[1]);
    assert padded ==> text[2] == '=' && text[3] == '=';
  }

  lemma FormOfTwo(bytes: seq<byte>, urlSafe: bool, padded: bool)
    requires |bytes| == 2
    ensures var q := Quantum(bytes[0], bytes[1], 0);
            Form(bytes, urlSafe, padded) ==
            [Letter(urlSafe, q[0]), Letter(urlSafe, q[1]), Letter(urlSafe, q[2])] + if padded then "=" else ""
  {
    var q, text := Quantum(bytes[0], bytes[1], 0), Form(bytes, urlSafe, padded);
    assert Encode(bytes, padded) == q[..3] + Pads(if padded then 1 else 0);
    assert text[0] == Letter(urlSafe, q[0]) && text[1] == Letter(urlSafe, q[1]) && text[2] == Letter(urlSafe, q[2]);
    assert padded ==> text[3] == '=';
  }

  lemma FormOfMore(bytes: seq<byte>, urlSafe: bool, padded: bool)
    requires |bytes| >= 3
    ensures var q := Quantum(bytes[0], bytes[1], bytes[2]);
            [Letter(urlSafe, q[0]), Letter(urlSafe, q[1]), Letter(urlSafe, q[2]), Letter(urlSafe, q[3])]
            <= Form(bytes, urlSafe, padded)
  {
    var q, symbols := Quantum(bytes[0], bytes[1], bytes[2]), Encode(bytes, padded);
    assert symbols[..4] == q;
    assert forall i :: 0 <= i < 4 ==> symbols[i] == symbols[..4][i];
  }

  /** Base64 as section 4 of RFC 4648 has it: the first letters are the places in the alphabet of the 6-bit parts of the
      first 24 bits. A last group of two bytes or one is filled up with zero bits; it takes three letters or two, and
      one '=' or two when padded. */
  lemma FormBegins(bytes: seq<byte>, urlSafe: bool, padded: bool) returns (d: seq<int>)
    requires bytes != []
    ensures SameNumber(bytes[0], if |bytes| > 1 then bytes[1] else 0, if |bytes| > 2 then bytes[2] else 0, d)
    ensures var text, letters := Form(bytes, urlSafe, padded), Alphabet(urlSafe);
            |letters| == 64
            && if |bytes| == 1 then text == [letters[d[0]], letters[d[1]]] + if padded then "==" else ""
               else if |bytes| == 2 then
                 text == [letters[d[0]], letters[d[1]], letters[d[2]]] + if padded then "=" else ""
               else [letters[d[0]], letters[d[1]], letters[d[2]], letters[d[3]]] <= text
  {
    var a, b, c := bytes[0], if |bytes| > 1 then bytes[1] else 0, if |bytes| > 2 then bytes[2] else 0;
    d := QuantumInLetters(a, b, c, urlSafe);
    if |bytes| == 1 {
      FormOfOne(bytes, urlSafe, padded);
    } else if |bytes| == 2 {
      FormOfTwo(bytes, urlSafe, padded);
    } else {
      FormOfMore(bytes, urlSafe, padded);
    }
  }

  /** The characters of a text that belong to either alphabet. */
  function Meaningful(text: string): string {
    if |text| == 0 then ""
    else if InAlphabet(ToStandard(text[|text| - 1])) then Meaningful(text[..|text| - 1]) + [text[|text| - 1]]
    else Meaningful(text[..|text| - 1])
  }

  function Sanitized(text: string): string {
    Map(Meaningful(text), Standardising())
  }

  function Prepared(text: string): seq<Symbol> {
    var symbols := Map(Sanitized(text), Reading());
    symbols + Pads(Missing(|symbols|))
  }

  method DecodePolySecret(secret: string) returns (r: Decoded)
    ensures r == Decode(Prepared(secret))
  {
    var prepared := "";
    for i := 0 to |secret|
      invariant prepared == Sanitized(secret[..i])
    {
      assert secret[..i + 1][..i] == secret[..i];
      var c := ToStandard(secret[i]);
      if InAlphabet(c) {
        prepared := prepared + [c];
      }
    }
    assert secret[..|secret|] == secret;
    var symbols := Map(prepared, Reading());
    if |prepared| % 4 != 0 {
      symbols := symbols + Pads(4 - |prepared| % 4);
    }
    assert symbols == Prepared(secret);
    r := Decode(symbols);
  }

  lemma ReadBack(symbols: seq<Symbol>, urlSafe: bool)
    requires forall s :: s in symbols ==> IsSymbol(s)
    ensures Map(Map(Map(symbols, Lettering(urlSafe)), Standardising()), Reading()) == symbols
  {
    forall i | 0 <= i < |symbols|
      ensures Reading()(Standardising()(Lettering(urlSafe)(symbols[i]))) == symbols[i]
    {
      assert symbols[i] in symbols;
      LetterIsRead(urlSafe, symbols[i]);
    }
  }

  /** A secret is recovered from each of its four Base64 forms, whatever other characters are mixed in. */
  lemma SecretIsRecovered(text: string, bytes: seq<byte>, urlSafe: bool, padded: bool)
    requires Meaningful(text) == Form(bytes, urlSafe, padded)
    ensures Decode(Prepared(text)) == Bytes(bytes)
  {
    EncodeSymbols(bytes, padded);
    ReadBack(Encode(bytes, padded), urlSafe);
    PaddingCompletes(bytes, padded);
    DecodeEncode(bytes);
  }

  // ----- which secrets are accepted -----

  /** '=' only as the last symbol or the last two. */
  ghost predicate PadsAtEnd(s: seq<Symbol>) {
    && (forall i :: 0 <= i < |s| - 2 ==> s[i] != Pad)
    && (|s| > 1 && s[|s| - 2] == Pad ==> s[|s| - 1] == Pad)
  }

  ghost predicate AllSymbols(s: seq<Symbol>) {
    forall i :: 0 <= i < |s| ==> IsSymbol(s[i])
  }

  lemma DecodesLastQuantum(s: seq<Symbol>)
    requires |s| == 4 && AllSymbols(s)
    ensures Decode(s).Bytes? <==> PadsAtEnd(s)
  {
    assert IsSymbol(s[0]) && IsSymbol(s[1]) && IsSymbol(s[2]) && IsSymbol(s[3]);
    if s[0] != Pad && s[1] != Pad && s[2] != Pad && s[3] != Pad {
      assert Decode(s[4..]) == Bytes([]);
    }
  }

  lemma {:induction false} DecodesExactlyWhen(s: seq<Symbol>)
    requires |s| % 4 == 0 && AllSymbols(s)
    ensures Decode(s).Bytes? <==> PadsAtEnd(s)
  {
    if |s| == 4 {
      DecodesLastQuantum(s);
    } else if |s| > 4 {
      var rest := s[4..];
      DecodesExactlyWhen(rest);
      FirstQuantum(s);
      PadsAtEndSplit(s);
    }
  }

  ghost predicate FourDigits(s: seq<Symbol>) {
    |s| >= 4 && s[0] != Pad && s[1] != Pad && s[2] != Pad && s[3] != Pad
  }

  lemma FirstQuantum(s: seq<Symbol>)
    requires |s| > 4 && AllSymbols(s)
    ensures Decode(s).Bytes? <==> FourDigits(s) && Decode(s[4..]).Bytes?
  {
    assert IsSymbol(s[0]) && IsSymbol(s[1]) && IsSymbol(s[2]) && IsSymbol(s[3]);
  }

  lemma PadsAtEndSplit(s: seq<Symbol>)
    requires |s| >= 8
    ensures PadsAtEnd(s) <==> FourDigits(s) && PadsAtEnd(s[4..])
  {
    var rest := s[4..];
    if FourDigits(s) && PadsAtEnd(rest) {
      forall i | 0 <= i < |s| - 2
        ensures s[i] != Pad
      {
        if i >= 4 {
          assert s[i] == rest[i - 4];
        }
      }
    }
    if PadsAtEnd(s) {
      forall i | 0 <= i < |rest| - 2
        ensures rest[i] != Pad
      {
        assert rest[i] == s[i + 4];
      }
    }
  }

  lemma {:induction false} MeaningfulMembers(text: string)
    ensures forall c :: c in Meaningful(text) ==> InAlphabet(ToStandard(c))
  {
    if |text| > 0 {
      MeaningfulMembers(text[..|text| - 1]);
    }
  }

  lemma AlphabetIsRead(c: char)
    requires InAlphabet(c)
    ensures IsSymbol(SymbolOf(c))
  {
  }

  lemma PreparedIsWhole(text: string)
    ensures |Prepared(text)| % 4 == 0 && AllSymbols(Prepared(text))
  {
    var meaningful, symbols := Meaningful(text), Map(Sanitized(text), Reading());
    MeaningfulMembers(text);
    forall i | 0 <= i < |symbols|
      ensures IsSymbol(symbols[i])
    {
      assert meaningful[i] in meaningful;
      AlphabetIsRead(Standardising()(meaningful[i]));
    }
  }

  /** A secret is accepted exactly when, after dropping the noise and padding to a multiple of four, '='
      stands only in the last one or two places. */
  lemma SecretAcceptedExactlyWhen(text: string)
    ensures Decode(Prepared(text)).Bytes? <==> PadsAtEnd(Prepared(text))
  {
    PreparedIsWhole(text);
    DecodesExactlyWhen(Prepared(text));
  }

  // ----- signatures -----

  datatype Signature = Signed(value: string) | NoSignature

  function ReplaceAll(text: string, from: char, into: char): (r: string)
    ensures |r| == |text|
    ensures forall i :: 0 <= i < |text| ==> r[i] == if text[i] == from then into else text[i]
  {
    seq(|text|, i requires 0 <= i < |text| => if text[i] == from then into else text[i])
  }

  /** The two replacements turn a standard form into the URL-safe one. */
  lemma ReplacedForm(bytes: seq<byte>)
    ensures ReplaceAll(ReplaceAll(Form(bytes, false, true), '+', '-'), '/', '_') == Form(bytes, true, true)
  {
    var symbols := Encode(bytes, true);
    EncodeSymbols(bytes, true);
    forall i | 0 <= i < |symbols|
      ensures var c := Lettering(false)(symbols[i]);
              (if c == '+' then '-' else if c == '/' then '_' else c) == Lettering(true)(symbols[i])
    {
      assert symbols[i] in symbols;
      LetterReplaced(symbols[i]);
    }
  }

  lemma LetterReplaced(s: Symbol)
    requires IsSymbol(s)
    ensures var c := Letter(false, s); (if c == '+' then '-' else if c == '/' then '_' else c) == Letter(true, s)
  {
  }

  /** The MAC (key and message to bytes) is a parameter. */
  method BuildPolyHMACSignature(mac: (seq<byte>, string) -> seq<byte>, secret: string, timestamp: int,
                                httpMethod: string, requestPath: string, body: string) returns (r: Signature)
    ensures r == SignatureOf(mac, Decode(Prepared(secret)), FormatInt(timestamp) + httpMethod + requestPath + body)
  {
    var key := DecodePolySecret(secret);
    if key.Corrupt? {
      return NoSignature;
    }
    var digest := mac(key.value, FormatInt(timestamp) + httpMethod + requestPath + body);
    var signature := Form(digest, false, true);
    signature := ReplaceAll(signature, '+', '-');
    signature := ReplaceAll(signature, '/', '_');
    ReplacedForm(digest);
    r := Signed(signature);
  }

  /** The padded URL-safe form of the MAC; nothing when the secret does not decode. */
  function SignatureOf(mac: (seq<byte>, string) -> seq<byte>, key: Decoded, message: string): Signature {
    if key.Corrupt? then NoSignature else Signed(Form(mac(key.value, message), true, true))
  }

  lemma LetterIsMeaningful(urlSafe: bool, s: Symbol)
    requires IsSymbol(s)
    ensures InAlphabet(ToStandard(Letter(urlSafe, s)))
  {
  }

  lemma {:induction false} AllMeaningful(text: string)
    requires forall c :: c in text ==> InAlphabet(ToStandard(c))
    ensures Meaningful(text) == text
  {
    if |text| > 0 {
      AllMeaningful(text[..|text| - 1]);
    }
  }

  lemma FormIsMeaningful(bytes: seq<byte>, urlSafe: bool, padded: bool)
    ensures Meaningful(Form(bytes, urlSafe, padded)) == Form(bytes, urlSafe, padded)
  {
    var symbols, text := Encode(bytes, padded), Form(bytes, urlSafe, padded);
    EncodeSymbols(bytes, padded);
    forall c | c in text
      ensures InAlphabet(ToStandard(c))
    {
      var i :| 0 <= i < |text| && text[i] == c;
      assert symbols[i] in symbols;
      LetterIsMeaningful(urlSafe, symbols[i]);
    }
    AllMeaningful(text);
  }

  /** A signature is a text that the secret decoder maps back to the MAC. */
  lemma SignatureDecodesToMAC(mac: (seq<byte>, string) -> seq<byte>, key: seq<byte>, message: string)
    ensures Decode(Prepared(SignatureOf(mac, Bytes(key), message).value)) == Bytes(mac(key, message))
  {
    FormIsMeaningful(mac(key, message), true, true);
    SecretIsRecovered(Form(mac(key, message), true, true), mac(key, message), true, true);
  }
}
