/**
 * Text formatting the firmware relies on: the base-10 rendering of an `int`
 * (Arduino's `String(value, 10)`), the dotted-quad rendering of an IPv4
 * address (`IPAddress::toString`), and a first-occurrence search.
 * Each formatter has an inverse parser here, so that its output can be
 * shown to determine its input.
 */
module Text {
  import opened Wrappers

  newtype Byte = x: int | 0 <= x < 256

  predicate IsDigit(c: char) {
    '0' <= c <= '9'
  }

  function Digit(d: nat): (c: char)
    requires d < 10
    ensures IsDigit(c)
    ensures (c == '0') == (d == 0)
  {
    (48 + d) as char
  }

  function DigitValue(c: char): (d: nat)
    ensures IsDigit(c) ==> d < 10 && Digit(d) == c
  {
    if IsDigit(c) then c as int - '0' as int else 0
  }

  /** Base-10 digits of `n`, most significant first, with no leading zero. */
  function Decimal(n: nat): (s: string)
    ensures 1 <= |s|
    ensures forall i :: 0 <= i < |s| ==> IsDigit(s[i])
    ensures (s[0] == '0') == (n == 0)
  {
    if n < 10 then [Digit(n)] else Decimal(n / 10) + [Digit(n % 10)]
  }

  /** Reads a string of digits back as a number (the inverse of Decimal). */
  function ParseDecimal(s: string): nat
  {
    if s == [] then 0 else ParseDecimal(s[..|s| - 1]) * 10 + DigitValue(s[|s| - 1])
  }

  lemma {:induction false} ParseDecimalInvertsDecimal(n: nat)
    ensures ParseDecimal(Decimal(n)) == n
  {
    var s := Decimal(n);
    if n >= 10 {
      assert s[..|s| - 1] == Decimal(n / 10);
      ParseDecimalInvertsDecimal(n / 10);
    }
  }

  /** `String(value, 10)` of an int: a minus sign for negative values, then the digits. */
  function SignedDecimal(n: int): (s: string)
    ensures 1 <= |s|
    ensures (s[0] == '-') == (n < 0)
    ensures forall i :: 0 <= i < |s| ==> IsDigit(s[i]) || (i == 0 && s[i] == '-')
  {
    if n < 0 then "-" + Decimal(-n) else Decimal(n)
  }

  function ParseSignedDecimal(s: string): int
  {
    if |s| > 0 && s[0] == '-' then -(ParseDecimal(s[1..]) as int) else ParseDecimal(s)
  }

  lemma SignedDecimalRoundTrip(n: int)
    ensures ParseSignedDecimal(SignedDecimal(n)) == n
  {
    if n < 0 {
      assert SignedDecimal(n)[1..] == Decimal(-n);
      ParseDecimalInvertsDecimal(-n);
    } else {
      ParseDecimalInvertsDecimal(n);
    }
  }

  /** An IPv4 address as four octets; `Unspecified` is 0.0.0.0. */
  datatype IPv4 = IPv4(a: Byte, b: Byte, c: Byte, d: Byte)

  const Unspecified := IPv4(0, 0, 0, 0)

  /** The dotted-quad text of an address, each octet in decimal. */
  function Dotted(ip: IPv4): (s: string)
    ensures 7 <= |s|
    ensures ':' !in s && '/' !in s
  {
    Decimal(ip.a as int) + "." + Decimal(ip.b as int) + "." + Decimal(ip.c as int) + "." + Decimal(ip.d as int)
  }

  /** A dotted-quad text that starts with the field "0." has 0 as that octet. */
  lemma LeadingZeroOctet(x: nat, rest: string, t: string)
    requires Decimal(x) + "." + rest == "0." + t
    ensures x == 0 && rest == t
  {
    var d := Decimal(x);
    var s := d + "." + rest;
    assert s[0] == d[0];
    assert s[2..] == rest;
  }

  /** The text "0.0.0.0" is produced by the unspecified address and by no other. */
  lemma {:induction false} DottedIsUnspecifiedIff(ip: IPv4)
    ensures (Dotted(ip) == "0.0.0.0") == (ip == Unspecified)
  {
    var da, db, dc, dd := Decimal(ip.a as int), Decimal(ip.b as int), Decimal(ip.c as int), Decimal(ip.d as int);
    assert Dotted(ip) == da + "." + (db + "." + (dc + "." + dd));
    if Dotted(ip) == "0.0.0.0" {
      LeadingZeroOctet(ip.a as int, db + "." + (dc + "." + dd), "0.0.0");
      LeadingZeroOctet(ip.b as int, dc + "." + dd, "0.0");
      LeadingZeroOctet(ip.c as int, dd, "0");
      assert dd[0] == '0';
    }
    if ip == Unspecified {
      assert da == db == dc == dd == "0";
    }
  }

  /** Index of the first `c` in `s`, or `|s|` when there is none. */
  function FirstIndex(s: string, c: char): (i: nat)
    ensures i <= |s|
    ensures i < |s| ==> s[i] == c
    ensures forall j :: 0 <= j < i ==> s[j] != c
  {
    if s == [] then 0 else if s[0] == c then 0 else 1 + FirstIndex(s[1..], c)
  }

  /** Splits `s` around the first `c`, or None when `c` does not occur. */
  function SplitAt(s: string, c: char): (r: Option<(string, string)>)
    ensures r.None? <==> c !in s
    ensures r.Some? ==> c !in r.value.0 && s == r.value.0 + [c] + r.value.1
  {
    var i := FirstIndex(s, c);
    if i == |s| then None else Some((s[..i], s[i + 1..]))
  }

  /** The rest of `s` after `prefix`, or None when `s` does not start with it. */
  function StripPrefix(prefix: string, s: string): (r: Option<string>)
    ensures r.Some? <==> prefix <= s
    ensures r.Some? ==> s == prefix + r.value
  {
    if prefix <= s then Some(s[|prefix|..]) else None
  }

  lemma StripPrefixOfConcat(prefix: string, t: string)
    ensures StripPrefix(prefix, prefix + t) == Some(t)
  {
  }

  lemma SplitAtFirstSeparator(x: string, c: char, y: string)
    requires c !in x
    ensures SplitAt(x + [c] + y, c) == Some((x, y))
  {
    var s := x + [c] + y;
    SeparatorIndex(x, c, y);
    assert s[..|x|] == x;
    assert s[|x| + 1..] == y;
  }

  lemma SeparatorIndex(x: string, c: char, y: string)
    requires c !in x
    ensures FirstIndex(x + [c] + y, c) == |x|
  {
    var s := x + [c] + y;
    var i := FirstIndex(s, c);
    assert s[|x|] == c;
  }

  /** Reads one octet of a dotted quad: its decimal value, when below 256. */
  function ParseOctet(s: string): Option<Byte>
  {
    var n := ParseDecimal(s);
    if n < 256 then Some(n as Byte) else None
  }

  /** Reads a dotted quad back as an address (the inverse of Dotted). */
  function ParseDotted(s: string): Option<IPv4>
  {
    match SplitAt(s, '.')
    case None => None
    case Some((a, r1)) =>
      match SplitAt(r1, '.')
      case None => None
      case Some((b, r2)) =>
        match SplitAt(r2, '.')
        case None => None
        case Some((c, d)) =>
          match (ParseOctet(a), ParseOctet(b), ParseOctet(c), ParseOctet(d))
          case (Some(x), Some(y), Some(z), Some(w)) => Some(IPv4(x, y, z, w))
          case _ => None
  }

  lemma OctetRoundTrip(x: Byte)
    ensures ParseOctet(Decimal(x as int)) == Some(x)
  {
    ParseDecimalInvertsDecimal(x as int);
  }

  /** The dotted-quad text of an address reads back as that address. */
  lemma DottedRoundTrip(ip: IPv4)
    ensures ParseDotted(Dotted(ip)) == Some(ip)
  {
    var da, db, dc, dd := Decimal(ip.a as int), Decimal(ip.b as int), Decimal(ip.c as int), Decimal(ip.d as int);
    var r2 := dc + ['.'] + dd;
    var r1 := db + ['.'] + r2;
    assert Dotted(ip) == da + ['.'] + r1;
    assert '.' !in da && '.' !in db && '.' !in dc by {
      assert forall i :: 0 <= i < |da| ==> IsDigit(da[i]);
      assert forall i :: 0 <= i < |db| ==> IsDigit(db[i]);
      assert forall i :: 0 <= i < |dc| ==> IsDigit(dc[i]);
    }
    SplitAtFirstSeparator(da, '.', r1);
    SplitAtFirstSeparator(db, '.', r2);
    SplitAtFirstSeparator(dc, '.', dd);
    OctetRoundTrip(ip.a);
    OctetRoundTrip(ip.b);
    OctetRoundTrip(ip.c);
    OctetRoundTrip(ip.d);
  }
}
