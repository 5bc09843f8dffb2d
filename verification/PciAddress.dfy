/** Printing and parsing PCI addresses, `domain:bus:device.function` in hexadecimal. */
module PciAddresses {
  import opened Options

  datatype PciAddress = PciAddress(domain: nat, bus: nat, device: nat, function_: nat)

  const U8: nat := 0x100
  const U32: nat := 0x1_0000_0000

  predicate InRange(a: PciAddress) { a.domain < U32 && a.bus < U8 && a.device < U8 && a.function_ < U8 }

  // -------------------------------------------------------------------- printing

  function Digit(d: nat): (c: char)
    requires d < 16
    ensures DigitOf(c) == Some(d) && Plain([c])
  {
    "0123456789abcdef"[d]
  }

  /** The shortest form, lower case. */
  function Hex(n: nat): (s: string)
    ensures s != []
  {
    if n < 16 then [Digit(n)] else Hex(n / 16) + [Digit(n % 16)]
  }

  /** With leading zeros up to a width. */
  function Padded(s: string, width: nat): string
    decreases if |s| < width then width - |s| else 0
  {
    if |s| >= width then s else Padded(['0'] + s, width)
  }

  function Print(a: PciAddress): string {
    Padded(Hex(a.domain), 4) + ":" + Padded(Hex(a.bus), 2) + ":" + Padded(Hex(a.device), 2) + "." + Hex(a.function_)
  }

  // --------------------------------------------------------------------- parsing

  function DigitOf(c: char): Option<nat> {
    if '0' <= c <= '9' then Some(c as int - '0' as int)
    else if 'a' <= c <= 'f' then Some(c as int - 'a' as int + 10)
    else if 'A' <= c <= 'F' then Some(c as int - 'A' as int + 10)
    else None
  }

  /** The digits' value, if they are digits and it is below the limit of the type. */
  function Value(s: string, limit: nat): (r: Option<nat>)
    ensures r.Some? ==> r.value < limit || s == []
  {
    if s == [] then Some(0)
    else
      match (Value(s[..|s| - 1], limit), DigitOf(s[|s| - 1]))
      case (Some(v), Some(d)) => if v * 16 + d < limit then Some(v * 16 + d) else None
      case _ => None
  }

  /** `from_str_radix(_, 16)` for an unsigned type: a sign may precede the digits, and there
      must be at least one. */
  function FromHex(s: string, limit: nat): Option<nat> {
    var digits := if s != [] && s[0] == '+' then s[1..] else s;
    if digits == [] then None else Value(digits, limit)
  }

  /** Split at the last occurrence. */
  function RSplitOnce(s: string, c: char): Option<(string, string)> {
    if s == [] then None
    else if s[|s| - 1] == c then Some((s[..|s| - 1], []))
    else
      match RSplitOnce(s[..|s| - 1], c)
      case None => None
      case Some((before, after)) => Some((before, after + [s[|s| - 1]]))
  }

  function Parse(text: string): Option<PciAddress> {
    match RSplitOnce(text, '.')
    case None => None
    case Some((rest, function_)) =>
      match RSplitOnce(rest, ':')
      case None => None
      case Some((left, device)) =>
        (match RSplitOnce(left, ':')
         case None => Parts("0", left, device, function_)
         case Some((domain, bus)) => Parts(domain, bus, device, function_))
  }

  function Parts(domain: string, bus: string, device: string, function_: string): Option<PciAddress> {
    match (FromHex(domain, U32), FromHex(bus, U8), FromHex(device, U8), FromHex(function_, U8))
    case (Some(d), Some(b), Some(v), Some(f)) => Some(PciAddress(d, b, v, f))
    case _ => None
  }

  // ------------------------------------------------------------------- round trip

  /** Hexadecimal digits only, so no separator and no sign. */
  predicate Plain(s: string) { forall i | 0 <= i < |s| :: DigitOf(s[i]).Some? }

  lemma {:induction false} HexValue(n: nat, limit: nat)
    requires n < limit
    ensures Plain(Hex(n)) && Value(Hex(n), limit) == Some(n)
  {
    if n < 16 {
      assert [Digit(n)][..0] == [];
    } else {
      HexValue(n / 16, limit);
      assert Hex(n)[..|Hex(n)| - 1] == Hex(n / 16);
    }
  }

  lemma {:induction false} LeadingZero(s: string, limit: nat)
    requires limit > 0
    ensures Value(['0'] + s, limit) == Value(s, limit)
  {
    if s == [] {
      assert (['0'] + s)[..0] == [];
    } else {
      LeadingZero(s[..|s| - 1], limit);
      var longer := ['0'] + s;
      assert longer[..|longer| - 1] == ['0'] + s[..|s| - 1];
      assert longer[|longer| - 1] == s[|s| - 1];
    }
  }

  lemma {:induction false} PaddedValue(s: string, width: nat, limit: nat)
    requires limit > 0 && s != [] && Plain(s)
    ensures Padded(s, width) != [] && Plain(Padded(s, width)) && Value(Padded(s, width), limit) == Value(s, limit)
    decreases if |s| < width then width - |s| else 0
  {
    if |s| < width {
      LeadingZero(s, limit);
      PaddedValue(['0'] + s, width, limit);
    }
  }

  lemma {:induction false} SplitsAtLast(a: string, c: char, b: string)
    requires c !in b
    ensures RSplitOnce(a + [c] + b, c) == Some((a, b))
  {
    var s := a + [c] + b;
    if b == [] {
      assert s[..|s| - 1] == a;
    } else {
      assert b[|b| - 1] in b && b == b[..|b| - 1] + [b[|b| - 1]];
      SplitsAtLast(a, c, b[..|b| - 1]);
      assert s[..|s| - 1] == a + [c] + b[..|b| - 1];
    }
  }

  lemma {:induction false} NoSplit(s: string, c: char)
    ensures RSplitOnce(s, c).None? <==> c !in s
  {
    if s != [] {
      NoSplit(s[..|s| - 1], c);
      assert s == s[..|s| - 1] + [s[|s| - 1]];
    }
  }

  /** Splitting is cutting: the pieces and the separator give the text back. */
  lemma {:induction false} SplitIsCut(s: string, c: char)
    requires RSplitOnce(s, c).Some?
    ensures var (a, b) := RSplitOnce(s, c).value; s == a + [c] + b && c !in b
  {
    var m := |s| - 1;
    if s[m] != c {
      SplitIsCut(s[..m], c);
      assert s == s[..m] + [s[m]];
    }
  }

  lemma {:induction false} PlainParses(s: string, limit: nat)
    requires s != [] && Plain(s)
    ensures FromHex(s, limit) == Value(s, limit) && ':' !in s && '.' !in s
  {
    assert DigitOf(s[0]).Some?;
  }

  /** The printed form of an address parses to that address. */
  lemma {:induction false} PrintParse(a: PciAddress)
    requires InRange(a)
    ensures Parse(Print(a)) == Some(a)
  {
    var domain, bus, device, func := Padded(Hex(a.domain), 4), Padded(Hex(a.bus), 2), Padded(Hex(a.device), 2),
      Hex(a.function_);
    FieldParses(a.domain, 4, U32);
    FieldParses(a.bus, 2, U8);
    FieldParses(a.device, 2, U8);
    FieldParses(a.function_, 0, U8);
    var left := domain + [':'] + bus;
    var rest := left + [':'] + device;
    assert Print(a) == rest + ['.'] + func;
    SplitsAtLast(rest, '.', func);
    SplitsAtLast(left, ':', device);
    SplitsAtLast(domain, ':', bus);
  }

  lemma {:induction false} FieldParses(n: nat, width: nat, limit: nat)
    requires n < limit
    ensures var s := Padded(Hex(n), width); FromHex(s, limit) == Some(n) && ':' !in s && '.' !in s
    ensures Padded(Hex(n), 0) == Hex(n)
  {
    HexValue(n, limit);
    PaddedValue(Hex(n), width, limit);
    PlainParses(Padded(Hex(n), width), limit);
  }

  /** A text with one colon before its last dot has no domain; putting any spelling of zero
      in front changes nothing, whether the text is an address or not. */
  lemma {:induction false} DomainlessIsZero(text: string, zero: string)
    requires FromHex(zero, U32) == Some(0) && ':' !in zero && '.' !in zero
    requires RSplitOnce(text, '.').Some?
    requires var (rest, _) := RSplitOnce(text, '.').value;
             RSplitOnce(rest, ':').Some? && ':' !in RSplitOnce(rest, ':').value.0
    ensures Parse(zero + ":" + text) == Parse(text)
  {
    var (rest, func) := RSplitOnce(text, '.').value;
    var (bus, device) := RSplitOnce(rest, ':').value;
    SplitIsCut(text, '.');
    SplitIsCut(rest, ':');
    NoSplit(bus, ':');
    var longer := zero + [':'] + rest;
    assert zero + ":" + text == longer + ['.'] + func;
    SplitsAtLast(longer, '.', func);
    assert longer == (zero + [':'] + bus) + [':'] + device;
    SplitsAtLast(zero + [':'] + bus, ':', device);
    SplitsAtLast(zero, ':', bus);
    ZeroParses();
  }

  lemma ZeroParses()
    ensures FromHex("0", U32) == Some(0)
  {
    assert "0"[..0] == [];
  }

  /** Whatever parses is an address, so printing it and parsing again changes nothing. */
  lemma {:induction false} ParsePrint(text: string)
    requires Parse(text).Some?
    ensures InRange(Parse(text).value) && Parse(Print(Parse(text).value)) == Parse(text)
  {
    PrintParse(Parse(text).value);
  }

  // -------------------------------------------------------------------- the form

  predicate LowerHex(s: string) { forall i | 0 <= i < |s| :: '0' <= s[i] <= '9' || 'a' <= s[i] <= 'f' }

  /** `digits` in all if there is one that counts further up; otherwise no leading zero. */
  lemma {:induction false} HexForm(n: nat, digits: nat, limit: nat)
    requires n < limit && digits > 0 && (digits == 1 ==> limit <= 16)
      && (digits > 1 ==> limit <= 16 * Sixteens(digits - 1))
    ensures LowerHex(Hex(n)) && 1 <= |Hex(n)| <= digits && (|Hex(n)| > 1 ==> Hex(n)[0] != '0')
  {
    LowerDigit(n % 16);
    if n < 16 {
      LowerDigit(n);
    } else {
      HexForm(n / 16, digits - 1, Sixteens(digits - 1));
      HexLeads(n / 16);
    }
  }

  function Sixteens(k: nat): (r: nat)
    ensures r > 0
  {
    if k == 0 then 1 else 16 * Sixteens(k - 1)
  }

  lemma LowerDigit(d: nat)
    requires d < 16
    ensures LowerHex([Digit(d)]) && (Digit(d) == '0' <==> d == 0)
  {
  }

  /** Only zero starts with a zero. */
  lemma {:induction false} HexLeads(n: nat)
    ensures Hex(n)[0] == '0' <==> n == 0
  {
    if n < 16 { LowerDigit(n); } else { HexLeads(n / 16); }
  }

  lemma {:induction false} PaddedForm(s: string, width: nat)
    requires LowerHex(s)
    ensures LowerHex(Padded(s, width)) && |Padded(s, width)| == (if |s| < width then width else |s|)
    ensures |s| >= width ==> Padded(s, width) == s
    decreases if |s| < width then width - |s| else 0
  {
    if |s| < width { PaddedForm(['0'] + s, width); }
  }

  /** The printed form: four to eight digits of the domain, two of the bus, two of the device
      and one or two of the function, in lower case, padded to the least width and no further. */
  lemma {:induction false} PrintedForm(a: PciAddress) returns (d: string, b: string, v: string, f: string)
    requires InRange(a)
    ensures Print(a) == d + ":" + b + ":" + v + "." + f
    ensures LowerHex(d) && LowerHex(b) && LowerHex(v) && LowerHex(f)
    ensures 4 <= |d| <= 8 && (|d| > 4 ==> d[0] != '0') && |b| == 2 && |v| == 2
    ensures 1 <= |f| <= 2 && (|f| == 2 ==> f[0] != '0')
    ensures Value(d, U32) == Some(a.domain) && Value(b, U8) == Some(a.bus)
    ensures Value(v, U8) == Some(a.device) && Value(f, U8) == Some(a.function_)
  {
    d, b, v, f := Padded(Hex(a.domain), 4), Padded(Hex(a.bus), 2), Padded(Hex(a.device), 2), Hex(a.function_);
    assert Sixteens(7) == 0x1000_0000 by { assert Sixteens(3) == 0x1000; }
    assert Sixteens(1) == 16;
    FieldForm(a.domain, 4, 8, U32);
    FieldForm(a.bus, 2, 2, U8);
    FieldForm(a.device, 2, 2, U8);
    FieldForm(a.function_, 0, 2, U8);
  }

  lemma {:induction false} FieldForm(n: nat, width: nat, digits: nat, limit: nat)
    requires n < limit && digits > 1 && limit <= 16 * Sixteens(digits - 1)
    ensures var s := Padded(Hex(n), width);
            && LowerHex(s) && Value(s, limit) == Some(n)
            && |s| == (if |Hex(n)| < width then width else |Hex(n)|) && (|s| > width && |s| > 1 ==> s[0] != '0')
    ensures 1 <= |Hex(n)| <= digits && Padded(Hex(n), 0) == Hex(n)
  {
    HexForm(n, digits, limit);
    PaddedForm(Hex(n), width);
    HexValue(n, limit);
    PaddedValue(Hex(n), width, limit);
  }
}
