/** Decimal numbers and dotted quads, printed and parsed as the C library does. */
module Text {
  import opened Machine
  import opened Histories

  predicate IsDigit(c: char) {
    '0' <= c <= '9'
  }

  predicate AllDigits(s: string) {
    forall i :: 0 <= i < |s| ==> IsDigit(s[i])
  }

  function DigitChar(d: nat): char
    requires d < 10
  {
    '0' + d as char
  }

  function DigitValue(c: char): nat
    requires IsDigit(c)
  {
    (c - '0') as nat
  }

  function PrintNat(n: nat): (s: string)
    ensures s != [] && AllDigits(s)
  {
    if n < 10 then [DigitChar(n)] else PrintNat(n / 10) + [DigitChar(n % 10)]
  }

  function Value(s: string): nat
    requires AllDigits(s)
  {
    if s == [] then 0 else Value(Most(s)) * 10 + DigitValue(Last(s))
  }

  /** The digits a string starts with. */
  function Digits(s: string): (d: string)
    ensures AllDigits(d) && d <= s
    ensures |d| < |s| ==> !IsDigit(s[|d|])
  {
    if s == [] || !IsDigit(s[0]) then [] else [s[0]] + Digits(s[1..])
  }

  lemma {:induction false} PrintedValue(n: nat)
    ensures Value(PrintNat(n)) == n
    ensures PrintNat(n)[0] == '0' <==> n == 0
    ensures n < 10 ==> |PrintNat(n)| == 1
    ensures n < 256 ==> |PrintNat(n)| <= 3
  {
    if n >= 10 {
      PrintedValue(n / 10);
      assert Most(PrintNat(n)) == PrintNat(n / 10);
      if 100 <= n < 256 {
        PrintedValue(n / 100);
        assert n / 10 / 10 == n / 100;
      }
    } else {
      assert Most(PrintNat(n)) == [];
    }
  }

  lemma {:induction false} DigitsOfConcat(d: string, rest: string)
    requires AllDigits(d) && (rest == [] || !IsDigit(rest[0]))
    ensures Digits(d + rest) == d
  {
    if d != [] {
      assert (d + rest)[1..] == d[1..] + rest;
      DigitsOfConcat(d[1..], rest);
      assert IsDigit((d + rest)[0]);
    } else {
      assert d + rest == rest;
    }
  }

  /** The digits of a number, the most significant first. */
  lemma {:induction false} Decimal(n: nat)
    ensures PrintNat(n) == (if n < 10 then [] else PrintNat(n / 10)) + ["0123456789"[n % 10]]
  {
  }

  /** A number without leading zeros is printed as it was read. */
  lemma {:induction false} PrintedAgain(d: string)
    requires d != [] && AllDigits(d) && (d[0] != '0' || |d| == 1)
    ensures PrintNat(Value(d)) == d
    ensures d[0] != '0' ==> Value(d) > 0
  {
    if |d| == 1 {
      assert Most(d) == [] && Value(Most(d)) == 0;
      assert d == [d[0]];
    } else {
      PrintedAgain(Most(d));
      MostAndLast(d);
    }
  }

  // ---- dotted quads ----

  /** An address as stored: the first octet in the lowest byte. */
  function Octet(ip: u32, i: nat): (o: u8)
    requires i < 4
  {
    match i
    case 0 => ip % 0x100
    case 1 => ip / 0x100 % 0x100
    case 2 => ip / 0x100 / 0x100 % 0x100
    case _ => ip / 0x100 / 0x100 / 0x100
  }

  function FromOctets(a: u8, b: u8, c: u8, d: u8): u32 {
    a + b * 0x100 + c * 0x1_0000 + d * 0x100_0000
  }

  lemma {:induction false} OctetsOf(ip: u32)
    ensures FromOctets(Octet(ip, 0), Octet(ip, 1), Octet(ip, 2), Octet(ip, 3)) == ip
  {
  }

  /** inet_ntop. */
  function PrintQuad(ip: u32): string {
    PrintNat(Octet(ip, 0)) + "." + PrintNat(Octet(ip, 1)) + "." + PrintNat(Octet(ip, 2)) + "." + PrintNat(Octet(ip, 3))
  }

  datatype Scan = Scan(value: int, rest: string)

  datatype Field = Field(value: string, rest: string)

  /** One octet: digits without a leading zero, at most 255. */
  function ScanOctet(s: string): (r: Option<Scan>)
    ensures r.Some? ==> 0 <= r.value.value <= 255
  {
    var d := Digits(s);
    if d == [] || (d[0] == '0' && |d| > 1) || Value(d) > 255 then None else Some(Scan(Value(d), s[|d|..]))
  }

  function ScanDotOctet(s: string): (r: Option<Scan>)
    ensures r.Some? ==> 0 <= r.value.value <= 255
  {
    if s != [] && s[0] == '.' then ScanOctet(s[1..]) else None
  }

  /** inet_pton: exactly four octets, and nothing after them. */
  function ParseQuad(s: string): Option<u32> {
    match ScanOctet(s)
    case None => None
    case Some(a) =>
      match ScanDotOctet(a.rest)
      case None => None
      case Some(b) =>
        match ScanDotOctet(b.rest)
        case None => None
        case Some(c) =>
          match ScanDotOctet(c.rest)
          case None => None
          case Some(d) => if d.rest == [] then Some(FromOctets(a.value, b.value, c.value, d.value)) else None
  }

  lemma {:induction false} PrintedOctet(o: u8, rest: string)
    requires rest == [] || !IsDigit(rest[0])
    ensures ScanOctet(PrintNat(o) + rest) == Some(Scan(o, rest))
    ensures ScanDotOctet("." + PrintNat(o) + rest) == Some(Scan(o, rest))
  {
    hide PrintNat, Value, Digits;
    PrintedValue(o);
    DigitsOfConcat(PrintNat(o), rest);
    assert ("." + PrintNat(o) + rest)[1..] == PrintNat(o) + rest;
    assert (PrintNat(o) + rest)[|PrintNat(o)|..] == rest;
  }

  /** Every address survives printing and parsing. */
  lemma {:induction false} QuadRoundTrip(ip: u32)
    ensures ParseQuad(PrintQuad(ip)) == Some(ip)
  {
    hide ScanOctet, ScanDotOctet, Octet, FromOctets;
    var a, b, c, d := Octet(ip, 0), Octet(ip, 1), Octet(ip, 2), Octet(ip, 3);
    var r3 := "." + PrintNat(d) + [];
    var r2 := "." + PrintNat(c) + r3;
    var r1 := "." + PrintNat(b) + r2;
    assert PrintQuad(ip) == PrintNat(a) + r1;
    PrintedOctet(a, r1);
    PrintedOctet(b, r2);
    PrintedOctet(c, r3);
    PrintedOctet(d, []);
    OctetsOf(ip);
  }

  lemma {:induction false} NoUnderscore(s: string)
    requires AllDigits(s)
    ensures '_' !in s
  {
  }

  lemma {:induction false} OctetsAgain(a: u8, b: u8, c: u8, d: u8)
    ensures var ip := FromOctets(a, b, c, d);
            Octet(ip, 0) == a && Octet(ip, 1) == b && Octet(ip, 2) == c && Octet(ip, 3) == d
  {
    var ip := FromOctets(a, b, c, d);
    assert ip / 0x100 == b + c * 0x100 + d * 0x1_0000;
    assert ip / 0x100 / 0x100 == c + d * 0x100;
  }

  lemma {:induction false} ScannedOctet(s: string)
    requires ScanOctet(s).Some?
    ensures s == PrintNat(ScanOctet(s).value.value) + ScanOctet(s).value.rest
  {
    hide PrintNat, Value;
    var d := Digits(s);
    PrintedAgain(d);
    assert s == d + s[|d|..];
  }

  lemma {:induction false} ScannedDotOctet(s: string)
    requires ScanDotOctet(s).Some?
    ensures s == "." + PrintNat(ScanDotOctet(s).value.value) + ScanDotOctet(s).value.rest
  {
    hide ScanOctet, PrintNat;
    ScannedOctet(s[1..]);
    assert s == "." + s[1..];
  }

  lemma {:induction false} HighOctets(ip: u32)
    ensures ip / 0x100 / 0x100 == ip / 0x1_0000 && ip / 0x100 / 0x100 / 0x100 == ip / 0x100_0000
  {
  }

  lemma {:induction false} Joined(a: string, b: string, c: string, d: string)
    ensures a + ("." + b + ("." + c + ("." + d + []))) == a + "." + b + "." + c + "." + d
  {
    assert "." + d + [] == "." + d;
    assert "." + c + ("." + d) == "." + c + "." + d;
    assert "." + b + ("." + c + "." + d) == "." + b + "." + c + "." + d;
  }

  lemma {:induction false} ParsedIsPrinted(s: string, ip: u32)
    requires ParseQuad(s) == Some(ip)
    ensures s == PrintQuad(ip)
  {
    hide ScanOctet, ScanDotOctet, PrintNat, Octet, FromOctets;
    var a := ScanOctet(s).value;
    var b := ScanDotOctet(a.rest).value;
    var c := ScanDotOctet(b.rest).value;
    var d := ScanDotOctet(c.rest).value;
    ScannedOctet(s);
    ScannedDotOctet(a.rest);
    ScannedDotOctet(b.rest);
    ScannedDotOctet(c.rest);
    OctetsAgain(a.value, b.value, c.value, d.value);
    Joined(PrintNat(a.value), PrintNat(b.value), PrintNat(c.value), PrintNat(d.value));
  }

  /** The texts that parse to an address are exactly the one that is printed for it: four decimal octets without leading
      zeros, the lowest byte first, with nothing around them. */
  lemma {:induction false} ParsesExactlyWhenPrinted(s: string, ip: u32)
    ensures ParseQuad(s) == Some(ip) <==> s == PrintQuad(ip)
    ensures PrintQuad(ip) == PrintNat(ip % 0x100) + "." + PrintNat(ip / 0x100 % 0x100) + "."
                             + PrintNat(ip / 0x1_0000 % 0x100) + "." + PrintNat(ip / 0x100_0000)
  {
    hide ParseQuad, PrintNat;
    QuadRoundTrip(ip);
    HighOctets(ip);
    if ParseQuad(s) == Some(ip) {
      ParsedIsPrinted(s, ip);
    }
  }

  lemma {:induction false} QuadIsShort(ip: u32)
    ensures 1 <= |PrintQuad(ip)| <= 15 && '_' !in PrintQuad(ip)
  {
    hide Octet;
    PrintedValue(Octet(ip, 0));
    PrintedValue(Octet(ip, 1));
    PrintedValue(Octet(ip, 2));
    PrintedValue(Octet(ip, 3));
    NoUnderscore(PrintNat(Octet(ip, 0)));
    NoUnderscore(PrintNat(Octet(ip, 1)));
    NoUnderscore(PrintNat(Octet(ip, 2)));
    NoUnderscore(PrintNat(Octet(ip, 3)));
  }

  // ---- sscanf ----

  /** isspace: the space and the five characters from tab to carriage return. */
  predicate IsBlank(c: char) {
    c == ' ' || '\t' <= c <= '\r'
  }

  /** The %d conversion: blanks, a sign, and at least one digit. */
  function ScanInt(s: string): Option<Scan> {
    if s != [] && IsBlank(s[0]) then ScanInt(s[1..])
    else
      var signed := s != [] && (s[0] == '-' || s[0] == '+');
      var t := if signed then s[1..] else s;
      var d := Digits(t);
      if d == [] then None
      else
        var v: int := Value(d);
        Some(Scan(if signed && s[0] == '-' then -v else v, t[|d|..]))
  }

  /** The %15[^_] conversion: one to fifteen characters other than the underscore. */
  function ScanField(s: string, width: nat): (r: Field)
    ensures |r.value| <= width
  {
    if s == [] || s[0] == '_' || width == 0 then Field([], s)
    else
      var r := ScanField(s[1..], width - 1);
      Field([s[0]] + r.value, r.rest)
  }

  lemma {:induction false} FieldOfConcat(f: string, rest: string, width: nat)
    requires '_' !in f && |f| <= width && rest != [] && rest[0] == '_'
    ensures ScanField(f + rest, width) == Field(f, rest)
  {
    if f != [] {
      assert (f + rest)[1..] == f[1..] + rest;
      assert (f + rest)[0] == f[0] && f[0] in f;
      FieldOfConcat(f[1..], rest, width - 1);
      assert [f[0]] + f[1..] == f;
    } else {
      assert f + rest == rest;
    }
  }

  lemma {:induction false} HeadAndTail(f: string)
    requires f != []
    ensures [f[0]] + f[1..] == f && f[0] in f && forall c :: c in f[1..] ==> c in f
  {
  }

  lemma {:induction false} FieldOfOneMore(f: string, width: nat)
    requires f != [] && '_' !in f && |f| <= width
    ensures ScanField(f, width) ==
            Field([f[0]] + ScanField(f[1..], width - 1).value, ScanField(f[1..], width - 1).rest)
    ensures '_' !in f[1..]
  {
    HeadAndTail(f);
  }

  lemma {:induction false} WholeField(f: string, width: nat)
    requires '_' !in f && |f| <= width
    ensures ScanField(f, width) == Field(f, [])
  {
    if f == [] {
    } else {
      hide ScanField;
      FieldOfOneMore(f, width);
      WholeField(f[1..], width - 1);
      HeadAndTail(f);
    }
  }

  lemma {:induction false} PrintedInt(n: nat, rest: string)
    requires rest == [] || !IsDigit(rest[0])
    ensures ScanInt(PrintNat(n) + rest) == Some(Scan(n, rest))
  {
    hide PrintNat, Value, Digits;
    PrintedValue(n);
    DigitsOfConcat(PrintNat(n), rest);
    assert IsDigit((PrintNat(n) + rest)[0]);
    assert (PrintNat(n) + rest)[|PrintNat(n)|..] == rest;
  }

  function PrintInt(n: int): string {
    if n < 0 then "-" + PrintNat(-n) else PrintNat(n)
  }

  lemma {:induction false} ScanNegative(s: string, t: string)
    requires s != [] && s[0] == '-' && s[1..] == t && Digits(t) != []
    ensures var v: int := Value(Digits(t)); ScanInt(s) == Some(Scan(-v, t[|Digits(t)|..]))
  {
    hide Value, Digits;
  }

  lemma {:induction false} AfterTheSign(d: string, rest: string)
    ensures var s := "-" + d + rest; s != [] && s[0] == '-' && s[1..] == d + rest && (d + rest)[|d|..] == rest
  {
  }

  lemma {:induction false} PrintedSigned(n: int, rest: string)
    requires rest == [] || !IsDigit(rest[0])
    ensures ScanInt(PrintInt(n) + rest) == Some(Scan(n, rest))
  {
    hide PrintNat, Value, Digits, ScanInt;
    if n >= 0 {
      PrintedInt(n, rest);
    } else {
      var d := PrintNat(-n);
      PrintedValue(-n);
      DigitsOfConcat(d, rest);
      AfterTheSign(d, rest);
      ScanNegative("-" + d + rest, d + rest);
    }
  }

  /** strcasecmp on ASCII. */
  function Lower(c: char): char {
    if 'A' <= c <= 'Z' then c - 'A' + 'a' else c
  }

  predicate SameIgnoringCase(a: string, b: string) {
    |a| == |b| && forall i :: 0 <= i < |a| ==> Lower(a[i]) == Lower(b[i])
  }

  /** A word in any mixture of small and capital letters. */
  predicate IsWord(text: string, small: string, capital: string)
    requires |small| == |capital|
  {
    |text| == |small| && forall i :: 0 <= i < |text| ==> text[i] == small[i] || text[i] == capital[i]
  }

  lemma {:induction false} SameIsWord(text: string, small: string, capital: string)
    requires |small| == |capital|
    requires forall i :: 0 <= i < |small| ==> 'a' <= small[i] <= 'z' && capital[i] == small[i] - 'a' + 'A'
    ensures SameIgnoringCase(text, small) <==> IsWord(text, small, capital)
  {
    if |text| == |small| {
      forall i | 0 <= i < |text|
        ensures Lower(text[i]) == Lower(small[i]) <==> text[i] == small[i] || text[i] == capital[i]
      {
      }
    }
  }
}
