/**
 Model of the text form of IPv4 endpoints (turbo/base/endpoint.cc): `endpoint2str`,
 `str2ip` and `str2endpoint`. The library calls `inet_ntop` and `inet_pton` follow
 section 6.3 of RFC 3493; `strtol` and `isspace` follow the C standard with a 64-bit
 `long` in the C locale.
 */
module EndPointText {
  import opened Common

  newtype Octet = x: int | 0 <= x < 256

  /** An IPv4 address in network byte order. */
  datatype Ip = Ip(a: Octet, b: Octet, c: Octet, d: Octet)

  const INT_MIN: int := -0x8000_0000
  const INT_MAX: int := 0x7fff_ffff
  const LONG_MIN: int := -0x8000_0000_0000_0000
  const LONG_MAX: int := 0x7fff_ffff_ffff_ffff

  // ---- Library calls ----

  predicate IsSpace(c: char) {
    c == ' ' || 9 <= c as int <= 13
  }

  predicate IsDigit(c: char) {
    '0' <= c <= '9'
  }

  function DigitValue(c: char): nat
    requires IsDigit(c)
  {
    c as int - '0' as int
  }

  function DigitChar(d: nat): (c: char)
    requires d < 10
    ensures IsDigit(c) && DigitValue(c) == d
  {
    (d + '0' as int) as char
  }

  /** `%d` of a number that is not negative. */
  function Decimal(n: nat): string {
    if n < 10 then [DigitChar(n)] else Decimal(n / 10) + [DigitChar(n % 10)]
  }

  /** `%d`. */
  function DecimalInt(n: int): string {
    if n < 0 then "-" + Decimal(-n) else Decimal(n)
  }

  /** `inet_ntop` for AF_INET. */
  function InetNtop(ip: Ip): string {
    Decimal(ip.a as nat) + "." + Decimal(ip.b as nat) + "." + Decimal(ip.c as nat) + "." + Decimal(ip.d as nat)
  }

  /**
   `inet_pton` for AF_INET, having read the octets in `done` and, of the current one,
   `count` digits worth `value`: four numbers of one to three digits, each at most 255.
   The standard does not mention leading zeros; here they are read, while some C
   libraries refuse them.
   */
  function PtonFrom(s: string, done: seq<Octet>, count: nat, value: nat): Option<Ip>
    requires value < 256
  {
    if s == "" then
      if count > 0 && |done| == 3 then Some(Ip(done[0], done[1], done[2], value as Octet)) else None
    else if IsDigit(s[0]) then
      var v := 10 * value + DigitValue(s[0]);
      if count == 3 || v > 255 then None else PtonFrom(s[1..], done, count + 1, v)
    else if s[0] == '.' && count > 0 && |done| < 3 then
      PtonFrom(s[1..], done + [value as Octet], 0, 0)
    else None
  }

  function InetPton(s: string): Option<Ip> {
    PtonFrom(s, [], 0, 0)
  }

  function SkipSpaces(s: string): string {
    if s != "" && IsSpace(s[0]) then SkipSpaces(s[1..]) else s
  }

  function ReadDigits(s: string, value: nat): (nat, string) {
    if s != "" && IsDigit(s[0]) then ReadDigits(s[1..], 10 * value + DigitValue(s[0])) else (value, s)
  }

  function Clamp(v: int): int {
    if v < LONG_MIN then LONG_MIN else if v > LONG_MAX then LONG_MAX else v
  }

  /** `strtol` in base 10: the value and the text that follows it, or nothing if there is no number. */
  function StrToL(s: string): Option<(int, string)> {
    var t := SkipSpaces(s);
    var signed := t != "" && (t[0] == '-' || t[0] == '+');
    var digits := if signed then t[1..] else t;
    if digits == "" || !IsDigit(digits[0]) then None
    else
      var (v, rest) := ReadDigits(digits, 0);
      var n: int := v;
      Some((Clamp(if signed && t[0] == '-' then -n else n), rest))
  }

  /** The conversion of a `long` to an `int`. */
  function ToInt(v: int): (r: int)
    ensures INT_MIN <= r <= INT_MAX
    ensures (r - v) % 0x1_0000_0000 == 0
  {
    var m := v % 0x1_0000_0000;
    if m > INT_MAX then m - 0x1_0000_0000 else m
  }

  // ---- The functions of endpoint.cc ----

  /** `endpoint2str` of an endpoint that is not extended. */
  function Text(ip: Ip, port: int): string {
    InetNtop(ip) + ":" + DecimalInt(port)
  }

  function StrToIp(s: string): Option<Ip> {
    InetPton(SkipSpaces(s))
  }

  function TrimEnd(s: string): string {
    if s != "" && IsSpace(s[|s| - 1]) then TrimEnd(s[..|s| - 1]) else s
  }

  /** The forms that `ExtendedEndPoint::create` considers. */
  predicate LooksExtended(s: string) {
    var t := TrimEnd(SkipSpaces(s));
    t != "" && (t[0] == '[' || "unix:" <= t)
  }

  const BUF_SIZE: nat := 64

  /** What `str2endpoint` does with its argument: the fields it stores, and whether it reports success. */
  datatype Parsed = Parsed(ip: Option<Ip>, port: Option<int>, ok: bool)

  /** What may follow the port: nothing, or one character of any kind and then spaces. */
  predicate TailAccepted(t: string) {
    t == "" || SkipSpaces(t[1..]) == ""
  }

  /** The IPv4 branch of `str2endpoint`. */
  function Parse(s: string): Parsed {
    var i := IndexOf(s, ':');
    if i >= BUF_SIZE || i == |s| then Parsed(None, None, false)
    else match StrToIp(s[..i])
      case None => Parsed(None, None, false)
      case Some(ip) =>
        match StrToL(s[i + 1..])
        // strtol yields 0 when there is no number
        case None => Parsed(Some(ip), Some(0), false)
        case Some((v, rest)) =>
          var port := ToInt(v);
          Parsed(Some(ip), Some(port), TailAccepted(rest) && 0 <= port <= 65535)
  }

  // ---- Reading back what was printed ----

  /** The text does not begin with a digit. */
  predicate NoDigit(t: string) {
    t == "" || !IsDigit(t[0])
  }

  lemma {:induction false} DecimalIsDigits(n: nat)
    ensures Decimal(n) != "" && forall i :: 0 <= i < |Decimal(n)| ==> IsDigit(Decimal(n)[i])
  {
    if n >= 10 {
      DecimalIsDigits(n / 10);
    }
  }

  /** Reading the digits of a printed number gives the number. */
  lemma {:induction false} ReadDecimal(n: nat, rest: string)
    ensures ReadDigits(Decimal(n) + rest, 0) == ReadDigits(rest, n)
  {
    var last := [DigitChar(n % 10)];
    if n < 10 {
      assert (Decimal(n) + rest)[1..] == rest;
    } else {
      assert Decimal(n) + rest == Decimal(n / 10) + (last + rest);
      ReadDecimal(n / 10, last + rest);
      assert (last + rest)[1..] == rest;
    }
  }

  lemma StrToLOfDecimal(n: nat, rest: string)
    requires NoDigit(rest)
    ensures StrToL(Decimal(n) + rest) == Some((Clamp(n), rest))
  {
    DecimalIsDigits(n);
    ReadDecimal(n, rest);
    var s := Decimal(n) + rest;
    assert s[0] == Decimal(n)[0] && SkipSpaces(s) == s;
  }

  lemma StrToLOfNegative(n: nat, rest: string)
    requires NoDigit(rest)
    ensures StrToL("-" + Decimal(n) + rest) == Some((Clamp(0 - n), rest))
  {
    DecimalIsDigits(n);
    ReadDecimal(n, rest);
    var s := "-" + Decimal(n) + rest;
    var digits := Decimal(n) + rest;
    assert s[0] == '-' && SkipSpaces(s) == s;
    assert s[1..] == digits && digits[0] == Decimal(n)[0];
  }

  lemma StrToLOfDecimalInt(n: int, rest: string)
    requires NoDigit(rest)
    ensures StrToL(DecimalInt(n) + rest) == Some((Clamp(n), rest))
  {
    if n >= 0 {
      StrToLOfDecimal(n, rest);
    } else {
      StrToLOfNegative(-n, rest);
    }
  }

  /** Reading one printed octet. */
  lemma PtonOctet(n: Octet, rest: string, done: seq<Octet>) returns (count: nat)
    ensures 0 < count <= 3
    ensures PtonFrom(Decimal(n as nat) + rest, done, 0, 0) == PtonFrom(rest, done, count, n as nat)
  {
    count := |Decimal(n as nat)|;
    var m := n as nat;
    var s := Decimal(m) + rest;
    var ones := DigitChar(m % 10);
    if m < 10 {
      assert s[1..] == rest;
      assert PtonFrom(s, done, 0, 0) == PtonFrom(rest, done, 1, m);
    } else {
      var tens := DigitChar(m / 10 % 10);
      if m < 100 {
        assert Decimal(m / 10) == [tens];
        assert s == [tens, ones] + rest;
        assert s[1..] == [ones] + rest && s[1..][1..] == rest;
        assert PtonFrom(s, done, 0, 0) == PtonFrom(s[1..], done, 1, m / 10) == PtonFrom(rest, done, 2, m);
      } else {
        var hundreds := DigitChar(m / 10 / 10);
        assert Decimal(m / 10 / 10) == [hundreds];
        assert s == [hundreds, tens, ones] + rest;
        assert s[1..] == [tens, ones] + rest && s[1..][1..] == [ones] + rest && s[1..][1..][1..] == rest;
        assert PtonFrom(s, done, 0, 0) == PtonFrom(s[1..], done, 1, m / 10 / 10);
        assert PtonFrom(s[1..], done, 1, m / 10 / 10) == PtonFrom(s[1..][1..], done, 2, m / 10);
        assert PtonFrom(s[1..][1..], done, 2, m / 10) == PtonFrom(rest, done, 3, m);
      }
    }
  }

  /** Reading a printed octet and the dot after it. */
  lemma PtonOctetDot(n: Octet, rest: string, done: seq<Octet>)
    requires |done| < 3
    ensures PtonFrom(Decimal(n as nat) + ("." + rest), done, 0, 0) == PtonFrom(rest, done + [n], 0, 0)
  {
    var count := PtonOctet(n, "." + rest, done);
    assert ("." + rest)[1..] == rest;
  }

  /** `inet_pton` reads back what `inet_ntop` prints. */
  lemma PtonOfNtop(ip: Ip)
    ensures InetPton(InetNtop(ip)) == Some(ip)
  {
    var d := Decimal(ip.d as nat);
    var c := Decimal(ip.c as nat) + ("." + d);
    var b := Decimal(ip.b as nat) + ("." + c);
    assert InetNtop(ip) == Decimal(ip.a as nat) + ("." + b);
    PtonOctetDot(ip.a, b, []);
    PtonOctetDot(ip.b, c, [ip.a]);
    PtonOctetDot(ip.c, d, [ip.a, ip.b]);
    var count := PtonOctet(ip.d, "", [ip.a, ip.b, ip.c]);
    assert d + "" == d;
    assert [] + [ip.a] == [ip.a] && [ip.a] + [ip.b] == [ip.a, ip.b] && [ip.a, ip.b] + [ip.c] == [ip.a, ip.b, ip.c];
  }

  lemma OctetLength(n: Octet)
    ensures 1 <= |Decimal(n as nat)| <= 3
  {
    var m := n as nat;
    if m >= 100 {
      assert |Decimal(m)| == |Decimal(m / 10)| + 1 == |Decimal(m / 10 / 10)| + 2;
    }
  }

  /** A printed address is digits and dots, at most 15 characters of them. */
  lemma NtopShape(ip: Ip)
    ensures 7 <= |InetNtop(ip)| <= 15 && IsDigit(InetNtop(ip)[0])
    ensures forall i :: 0 <= i < |InetNtop(ip)| ==> IsDigit(InetNtop(ip)[i]) || InetNtop(ip)[i] == '.'
  {
    OctetLength(ip.a);
    OctetLength(ip.b);
    OctetLength(ip.c);
    OctetLength(ip.d);
    DecimalIsDigits(ip.a as nat);
    DecimalIsDigits(ip.b as nat);
    DecimalIsDigits(ip.c as nat);
    DecimalIsDigits(ip.d as nat);
  }

  /** Text that begins with a printed address is never taken for an extended endpoint. */
  lemma NotExtended(ip: Ip, rest: string)
    ensures !LooksExtended(InetNtop(ip) + rest)
  {
    NtopShape(ip);
    var s := InetNtop(ip) + rest;
    assert s[0] == InetNtop(ip)[0] && SkipSpaces(s) == s;
    TrimEndIsPrefix(s);
  }

  lemma {:induction false} TrimEndIsPrefix(s: string)
    ensures TrimEnd(s) <= s
  {
    if s != "" && IsSpace(s[|s| - 1]) {
      TrimEndIsPrefix(s[..|s| - 1]);
    }
  }

  /** A printed address, a colon and whatever follows: the address is read back, and the rest decides. */
  lemma ParseAfterAddress(ip: Ip, rest: string)
    ensures Parse(InetNtop(ip) + ":" + rest) ==
      match StrToL(rest)
      case None => Parsed(Some(ip), Some(0), false)
      case Some((v, tail)) => Parsed(Some(ip), Some(ToInt(v)), TailAccepted(tail) && 0 <= ToInt(v) <= 65535)
  {
    NtopShape(ip);
    PtonOfNtop(ip);
    var t := InetNtop(ip);
    var s := t + ":" + rest;
    assert s[|t|] == ':' && forall j :: 0 <= j < |t| ==> s[j] == t[j] != ':';
    assert IndexOf(s, ':') == |t|;
    assert s[..|t|] == t && s[|t| + 1..] == rest;
    assert SkipSpaces(t) == t;
  }

  /**
   Round trip: printing any endpoint and parsing the text gives back its address
   and port, and the parse succeeds exactly when the port is in 0..65535.
   */
  lemma RoundTrip(ip: Ip, port: int)
    requires INT_MIN <= port <= INT_MAX && port != EXTENDED_PORT
    ensures Parse(Text(ip, port)) == Parsed(Some(ip), Some(port), 0 <= port <= 65535)
    ensures !LooksExtended(Text(ip, port))
  {
    ParsedBack(ip, port);
    TextIsNotExtended(ip, port);
  }

  lemma ParsedBack(ip: Ip, port: int)
    requires INT_MIN <= port <= INT_MAX
    ensures Parse(Text(ip, port)) == Parsed(Some(ip), Some(port), 0 <= port <= 65535)
  {
    ParseAfterAddress(ip, DecimalInt(port));
    PortReadBack(port);
    IntsAreKept(port);
  }

  lemma PortReadBack(port: int)
    ensures StrToL(DecimalInt(port)) == Some((Clamp(port), ""))
  {
    StrToLOfDecimalInt(port, "");
    assert DecimalInt(port) + "" == DecimalInt(port);
  }

  lemma TextIsNotExtended(ip: Ip, port: int)
    ensures !LooksExtended(Text(ip, port))
  {
    NotExtended(ip, ":" + DecimalInt(port));
    assert InetNtop(ip) + (":" + DecimalInt(port)) == Text(ip, port);
  }

  lemma IntsAreKept(n: int)
    requires INT_MIN <= n <= INT_MAX
    ensures ToInt(Clamp(n)) == n
  {
  }

  lemma {:induction false} DecimalLength(n: nat, digits: nat)
    requires digits > 0 && n < Power10(digits)
    ensures |Decimal(n)| <= digits
    decreases digits
  {
    if n >= 10 {
      DecimalLength(n / 10, digits - 1);
    }
  }

  function Power10(k: nat): nat {
    if k == 0 then 1 else 10 * Power10(k - 1)
  }

  /** The buffers are large enough: the port in 16 bytes, the whole text in an `EndPointStr`, the address in 64. */
  lemma TextFits(ip: Ip, port: int)
    requires INT_MIN <= port <= INT_MAX
    ensures |InetNtop(ip)| < 16 && |DecimalInt(port)| < 16 && |Text(ip, port)| < 6 + 108
    ensures IndexOf(Text(ip, port), ':') < BUF_SIZE
  {
    NtopShape(ip);
    assert Power10(10) == 10_000_000_000;
    DecimalLength(if port < 0 then -port else port, 10);
    var t := InetNtop(ip);
    assert Text(ip, port)[|t|] == ':';
  }

  // ---- What the parser lets through ----

  lemma {:induction false} SkipSpacesEmpty(s: string)
    ensures SkipSpaces(s) == "" <==> forall k :: 0 <= k < |s| ==> IsSpace(s[k])
  {
    if s != "" && IsSpace(s[0]) {
      SkipSpacesEmpty(s[1..]);
      assert forall k :: 1 <= k < |s| ==> s[k] == s[1..][k - 1];
    }
  }

  /**
   Text after a valid port is accepted if and only if everything after its first
   character is white space: the first character itself is never looked at.
   */
  lemma FirstTrailingCharacterIsIgnored(ip: Ip, port: int, tail: string)
    requires 0 <= port <= 65535 && NoDigit(tail)
    ensures Parse(Text(ip, port) + tail).ok <==> forall k :: 1 <= k < |tail| ==> IsSpace(tail[k])
  {
    var rest := DecimalInt(port) + tail;
    assert Text(ip, port) + tail == InetNtop(ip) + ":" + rest;
    ParseAfterAddress(ip, rest);
    StrToLOfDecimalInt(port, tail);
    IntsAreKept(port);
    TailIsSpace(tail);
  }

  lemma TailIsSpace(tail: string)
    ensures TailAccepted(tail) <==> forall k :: 1 <= k < |tail| ==> IsSpace(tail[k])
  {
    if tail != "" {
      SkipSpacesEmpty(tail[1..]);
      assert forall k :: 1 <= k < |tail| ==> tail[k] == tail[1..][k - 1];
    }
  }

  /** The junk character of `1.2.3.4:80x` goes unnoticed. */
  lemma JunkAccepted()
    ensures Parse(Text(Ip(1, 2, 3, 4), 80) + "x").ok
  {
    FirstTrailingCharacterIsIgnored(Ip(1, 2, 3, 4), 80, "x");
  }

  /**
   A number of either sign and any length is stored as the lowest 32 bits of the nearest
   `long`, and only then checked. So it is accepted if and only if it is below every
   `long`, or is a `long` whose lowest 32 bits are at most 65535.
   */
  lemma PortIsTruncated(ip: Ip, v: int)
    ensures var r := Parse(InetNtop(ip) + ":" + DecimalInt(v));
            && r.ip == Some(ip) && r.port == Some(ToInt(Clamp(v)))
            && (r.ok <==> v < LONG_MIN || (v <= LONG_MAX && v % 0x1_0000_0000 <= 65535))
            && (r.ok ==> r.port == Some(if v < LONG_MIN then 0 else v % 0x1_0000_0000))
  {
    ParseAfterAddress(ip, DecimalInt(v));
    PortReadBack(v);
    PortInRange(v);
  }

  lemma PortInRange(v: int)
    ensures 0 <= ToInt(Clamp(v)) <= 65535 <==> v < LONG_MIN || (v <= LONG_MAX && v % 0x1_0000_0000 <= 65535)
    ensures 0 <= ToInt(Clamp(v)) <= 65535 ==> ToInt(Clamp(v)) == if v < LONG_MIN then 0 else v % 0x1_0000_0000
  {
  }

  /** 4294967376 and -4294967216 are taken for port 80, and -9223372036854775809 for port 0. */
  lemma WrongPortsAccepted(ip: Ip)
    ensures Parse(InetNtop(ip) + ":" + DecimalInt(4294967376)) == Parsed(Some(ip), Some(80), true)
    ensures Parse(InetNtop(ip) + ":" + DecimalInt(-4294967216)) == Parsed(Some(ip), Some(80), true)
    ensures Parse(InetNtop(ip) + ":" + DecimalInt(-9223372036854775809)) == Parsed(Some(ip), Some(0), true)
  {
    PortIsTruncated(ip, 4294967376);
    PortIsTruncated(ip, -4294967216);
    PortIsTruncated(ip, -9223372036854775809);
  }

  /** The numbers that are taken for the port that marks extended endpoints. */
  lemma TakenForExtended(v: int)
    ensures ToInt(Clamp(v)) == EXTENDED_PORT
       <==> LONG_MIN <= v <= LONG_MAX && v % 0x1_0000_0000 == EXTENDED_PORT
  {
  }

  /** The number that marks an extended endpoint is refused as a port, but not before it has been stored. */
  lemma ExtendedPortIsStored(ip: Ip)
    ensures Parse(InetNtop(ip) + ":" + DecimalInt(EXTENDED_PORT)) == Parsed(Some(ip), Some(EXTENDED_PORT), false)
  {
    PortIsTruncated(ip, EXTENDED_PORT);
  }

  // ---- The parser itself ----

  class EndPoint {
    var ip: Ip
    var port: int

    constructor (ip: Ip, port: int)
      ensures this.ip == ip && this.port == port
    {
      this.ip, this.port := ip, port;
    }
  }

  /**
   `str2endpoint` once `ExtendedEndPoint::create` has declined the text. Fields are
   stored as soon as they have been read, also when the call fails later on.
   */
  method StrToEndPoint(str: string, point: EndPoint) returns (rc: int)
    modifies point
    ensures rc == if Parse(str).ok then 0 else -1
    ensures point.ip == if Parse(str).ip.Some? then Parse(str).ip.value else old(point.ip)
    ensures point.port == if Parse(str).port.Some? then Parse(str).port.value else old(point.port)
  {
    var buf := new char[BUF_SIZE];
    var i := 0;
    while i < buf.Length && i < |str| && str[i] != ':'
      invariant 0 <= i <= buf.Length && i <= |str|
      invariant forall j :: 0 <= j < i ==> str[j] != ':'
      invariant buf[..i] == str[..i]
      invariant point.ip == old(point.ip) && point.port == old(point.port)
    {
      buf[i] := str[i];
      i := i + 1;
    }
    if i >= buf.Length || i == |str| {
      return -1;
    }
    assert i == IndexOf(str, ':');
    var ip := StrToIp(buf[..i]);
    if ip.None? {
      return -1;
    }
    point.ip := ip.value;
    i := i + 1;
    var number := StrToL(str[i..]);
    if number.None? {
      point.port := 0;
      return -1;
    }
    var (v, end) := number.value;
    point.port := ToInt(v);
    if end != "" {
      var k := 1;
      while k < |end| && IsSpace(end[k])
        invariant 1 <= k <= |end|
        invariant SkipSpaces(end[1..]) == SkipSpaces(end[k..])
        invariant point.ip == ip.value && point.port == ToInt(v)
      {
        assert end[k..][1..] == end[k + 1..];
        k := k + 1;
      }
      if k < |end| {
        return -1;
      }
    }
    if point.port < 0 || point.port > 65535 {
      return -1;
    }
    return 0;
  }

  /** What `str2endpoint` does with an address and a port given apart. */
  function ParsePair(ipStr: string, port: int): Parsed {
    var ip, valid := StrToIp(ipStr), 0 <= port <= 65535;
    Parsed(ip, if ip.Some? && valid then Some(port) else None, ip.Some? && valid)
  }

  /** The form of `str2endpoint` with the port apart, once `ExtendedEndPoint::create` has declined. */
  method StrToEndPointAndPort(ipStr: string, port: int, point: EndPoint) returns (rc: int)
    modifies point
    ensures rc == if ParsePair(ipStr, port).ok then 0 else -1
    ensures point.ip == if StrToIp(ipStr).Some? then StrToIp(ipStr).value else old(point.ip)
    ensures point.port == if rc == 0 then port else old(point.port)
  {
    var ip := StrToIp(ipStr);
    if ip.None? {
      return -1;
    }
    point.ip := ip.value;
    if port < 0 || port > 65535 {
      return -1;
    }
    point.port := port;
    return 0;
  }

  /** Printing an endpoint and parsing the text into another object copies it. */
  method PrintThenParse(from: EndPoint, to: EndPoint) returns (rc: int)
    requires 0 <= from.port <= 65535
    modifies to
    ensures rc == 0 && to.ip == old(from.ip) && to.port == old(from.port)
  {
    RoundTrip(from.ip, from.port);
    rc := StrToEndPoint(Text(from.ip, from.port), to);
  }
}
