/**
 Exactly which texts the functions of `EndPointText` accept, and what they read in them.
 Texts are described by their parts, not by the way they are read.
 */
module EndPointGrammar {
  import opened Common
  import opened EndPointText

  predicate AllSpaces(s: string) {
    forall k :: 0 <= k < |s| ==> IsSpace(s[k])
  }

  predicate AllDigits(s: string) {
    forall k :: 0 <= k < |s| ==> IsDigit(s[k])
  }

  /** The number that decimal digits denote. */
  function Value(digits: string): nat
    requires AllDigits(digits)
  {
    if digits == "" then 0 else 10 * Value(digits[..|digits| - 1]) + DigitValue(digits[|digits| - 1])
  }

  lemma ValueAppends(digits: string, c: char)
    requires AllDigits(digits) && IsDigit(c)
    ensures AllDigits(digits + [c]) && Value(digits + [c]) == 10 * Value(digits) + DigitValue(c)
  {
    assert (digits + [c])[..|digits|] == digits;
  }

  lemma {:induction false} ValueGrows(digits: string, k: nat)
    requires AllDigits(digits) && k <= |digits|
    ensures Value(digits[..k]) <= Value(digits)
    decreases |digits|
  {
    if k < |digits| {
      var n := |digits| - 1;
      assert digits[..n][..k] == digits[..k];
      ValueGrows(digits[..n], k);
    } else {
      assert digits[..k] == digits;
    }
  }

  /** `%d` prints the number without needless zeros. */
  lemma {:induction false} DecimalDenotes(n: nat)
    ensures AllDigits(Decimal(n)) && Value(Decimal(n)) == n
    ensures Decimal(n) != "" && (n > 0 ==> Decimal(n)[0] != '0') && (n == 0 ==> Decimal(n) == "0")
  {
    if n < 10 {
      assert Decimal(n)[..0] == "";
    } else {
      DecimalDenotes(n / 10);
      ValueAppends(Decimal(n / 10), DigitChar(n % 10));
    }
  }

  // ---- Addresses ----

  /** One to three digits that denote `v`, which is at most 255. */
  ghost predicate IsOctetText(t: string, v: nat) {
    1 <= |t| <= 3 && AllDigits(t) && Value(t) == v && v <= 255
  }

  function OctetAt(ip: Ip, k: nat): nat
    requires k < 4
  {
    (if k == 0 then ip.a else if k == 1 then ip.b else if k == 2 then ip.c else ip.d) as nat
  }

  function Join(ts: seq<string>): string {
    if ts == [] then "" else if |ts| == 1 then ts[0] else ts[0] + "." + Join(ts[1..])
  }

  /** The last texts of the address `ip`, whose first octets are `done`. */
  ghost predicate AreOctets(ts: seq<string>, done: seq<Octet>, ip: Ip) {
    && |done| + |ts| == 4
    && (forall k :: 0 <= k < |done| ==> done[k] as nat == OctetAt(ip, k))
    && (forall k :: 0 <= k < |ts| ==> IsOctetText(ts[k], OctetAt(ip, |done| + k)))
  }

  /** Four octets with dots between them. */
  ghost predicate IsAddressText(s: string, ip: Ip) {
    exists ts: seq<string> :: AreOctets(ts, [], ip) && s == Join(ts)
  }

  /** What has been read of an octet. */
  ghost predicate IsBegun(cur: string) {
    |cur| <= 3 && AllDigits(cur) && Value(cur) <= 255
  }

  lemma PtonDigitStep(s: string, done: seq<Octet>, count: nat, value: nat, v: nat)
    requires value < 256 && s != "" && IsDigit(s[0]) && v == 10 * value + DigitValue(s[0])
    ensures PtonFrom(s, done, count, value) ==
      if count != 3 && v <= 255 then PtonFrom(s[1..], done, count + 1, v) else None
  {
  }

  /** Reading one more digit of an octet. */
  lemma PtonDigit(s: string, done: seq<Octet>, cur: string, more: string)
    requires IsBegun(cur) && s != "" && IsDigit(s[0]) && more == cur + [s[0]]
    ensures AllDigits(more) && Value(more) == 10 * Value(cur) + DigitValue(s[0])
    ensures PtonFrom(s, done, |cur|, Value(cur)) ==
      if IsBegun(more) then PtonFrom(s[1..], done, |more|, Value(more)) else None
  {
    ValueAppends(cur, s[0]);
    PtonDigitStep(s, done, |cur|, Value(cur), Value(more));
  }

  /** Reading the dot after an octet. */
  lemma PtonDot(s: string, done: seq<Octet>, cur: string)
    requires IsBegun(cur) && s != "" && !IsDigit(s[0])
    ensures PtonFrom(s, done, |cur|, Value(cur)) ==
      if s[0] == '.' && cur != "" && |done| < 3
      then PtonFrom(s[1..], done + [Value(cur) as Octet], 0, 0) else None
  {
  }

  lemma {:induction false} PtonIsSound(s: string, done: seq<Octet>, cur: string, ip: Ip) returns (ts: seq<string>)
    requires IsBegun(cur) && |done| <= 3 && PtonFrom(s, done, |cur|, Value(cur)) == Some(ip)
    ensures ts != [] && AreOctets(ts, done, ip) && Join(ts) == cur + s
    decreases |s|
  {
    if s == "" {
      ts := [cur];
      LastIsRead(done, cur, ip);
      assert cur + s == cur;
    } else if IsDigit(s[0]) {
      var more := cur + [s[0]];
      PtonDigit(s, done, cur, more);
      ts := PtonIsSound(s[1..], done, more, ip);
      assert more + s[1..] == cur + s;
    } else {
      PtonDot(s, done, cur);
      var rest := PtonIsSound(s[1..], done + [Value(cur) as Octet], "", ip);
      ts := [cur] + rest;
      OctetsBefore(cur, rest, done, ip);
      JoinWithDot(s, cur, rest);
    }
  }

  lemma LastIsRead(done: seq<Octet>, cur: string, ip: Ip)
    requires IsBegun(cur) && |done| <= 3 && PtonFrom("", done, |cur|, Value(cur)) == Some(ip)
    ensures AreOctets([cur], done, ip) && Join([cur]) == cur
  {
  }

  lemma JoinWithDot(s: string, cur: string, rest: seq<string>)
    requires s != "" && s[0] == '.' && rest != [] && Join(rest) == "" + s[1..]
    ensures Join([cur] + rest) == cur + s
  {
    assert ([cur] + rest)[1..] == rest && "" + s[1..] == s[1..];
    assert cur + "." + s[1..] == cur + s;
  }

  lemma OctetsBefore(cur: string, rest: seq<string>, done: seq<Octet>, ip: Ip)
    requires IsBegun(cur) && cur != "" && |done| <= 3
    requires AreOctets(rest, done + [Value(cur) as Octet], ip)
    ensures AreOctets([cur] + rest, done, ip)
  {
    var next, ts := done + [Value(cur) as Octet], [cur] + rest;
    assert next[|done|] as nat == OctetAt(ip, |done|);
    forall k | 0 <= k < |done|
      ensures done[k] as nat == OctetAt(ip, k)
    {
      assert next[k] == done[k];
    }
    forall k | 0 <= k < |ts|
      ensures IsOctetText(ts[k], OctetAt(ip, |done| + k))
    {
      if k > 0 {
        assert ts[k] == rest[k - 1];
      }
    }
  }

  lemma {:induction false} PtonIsComplete(s: string, done: seq<Octet>, cur: string, ip: Ip, ts: seq<string>)
    requires ts != [] && AreOctets(ts, done, ip) && Join(ts) == cur + s && cur <= ts[0]
    ensures IsBegun(cur) && PtonFrom(s, done, |cur|, Value(cur)) == Some(ip)
    decreases |s|
  {
    BegunByPrefix(ts[0], OctetAt(ip, |done|), cur);
    if cur < ts[0] {
      NextDigit(s, cur, ts);
      var more := cur + [s[0]];
      BegunByPrefix(ts[0], OctetAt(ip, |done|), more);
      PtonDigit(s, done, cur, more);
      PtonIsComplete(s[1..], done, more, ip, ts);
    } else if |ts| == 1 {
      LastOctet(ts, done, ip);
      assert cur == ts[0] && |s| == 0;
      assert PtonFrom(s, done, |cur|, Value(cur)) == PtonFrom("", done, |ts[0]|, Value(ts[0]));
    } else {
      NextOctet(s, cur, ts);
      OctetsAfter(ts, done, ip);
      PtonDot(s, done, cur);
      PtonIsComplete(s[1..], done + [Value(cur) as Octet], "", ip, ts[1..]);
    }
  }

  lemma BegunByPrefix(t: string, v: nat, cur: string)
    requires IsOctetText(t, v) && cur <= t
    ensures IsBegun(cur)
  {
    assert t[..|cur|] == cur;
    assert AllDigits(cur) by {
      assert forall k :: 0 <= k < |cur| ==> cur[k] == t[k];
    }
    ValueGrows(t, |cur|);
  }

  lemma LastOctet(ts: seq<string>, done: seq<Octet>, ip: Ip)
    requires |ts| == 1 && AreOctets(ts, done, ip)
    ensures IsOctetText(ts[0], ip.d as nat) && PtonFrom("", done, |ts[0]|, Value(ts[0])) == Some(ip)
  {
    assert IsOctetText(ts[0], OctetAt(ip, 3));
    assert Value(ts[0]) as Octet == ip.d;
    assert done[0] as nat == OctetAt(ip, 0) && done[1] as nat == OctetAt(ip, 1) && done[2] as nat == OctetAt(ip, 2);
    assert done[0] == ip.a && done[1] == ip.b && done[2] == ip.c;
  }

  lemma NextDigit(s: string, cur: string, ts: seq<string>)
    requires ts != [] && Join(ts) == cur + s && cur < ts[0]
    ensures s != "" && s[0] == ts[0][|cur|] && cur + [s[0]] <= ts[0] && Join(ts) == (cur + [s[0]]) + s[1..]
  {
    assert ts[0] <= Join(ts);
    assert Join(ts)[|cur|] == ts[0][|cur|];
    assert s != "" && (cur + s)[|cur|] == s[0];
    assert (cur + [s[0]]) + s[1..] == cur + s;
  }

  lemma NextOctet(s: string, cur: string, ts: seq<string>)
    requires |ts| > 1 && Join(ts) == cur + s && cur == ts[0]
    ensures s != "" && s[0] == '.' && Join(ts[1..]) == "" + s[1..]
  {
    var rest := "." + Join(ts[1..]);
    assert cur + rest == cur + s;
    assert (cur + rest)[|cur|..] == rest && (cur + s)[|cur|..] == s;
    assert rest[1..] == Join(ts[1..]);
  }

  lemma OctetsAfter(ts: seq<string>, done: seq<Octet>, ip: Ip)
    requires |ts| > 1 && AreOctets(ts, done, ip)
    ensures IsOctetText(ts[0], OctetAt(ip, |done|)) && AreOctets(ts[1..], done + [Value(ts[0]) as Octet], ip)
  {
    assert IsOctetText(ts[0], OctetAt(ip, |done|));
    forall k | 0 <= k < |ts| - 1
      ensures IsOctetText(ts[1..][k], OctetAt(ip, |done| + 1 + k))
    {
      assert ts[1..][k] == ts[k + 1];
    }
  }

  /** `inet_pton` accepts the text of an address and nothing else, and reads the address. */
  lemma PtonIsExact(s: string, ip: Ip)
    ensures InetPton(s) == Some(ip) <==> IsAddressText(s, ip)
  {
    if InetPton(s) == Some(ip) {
      var ts := PtonIsSound(s, [], "", ip);
      assert "" + s == s;
    }
    if IsAddressText(s, ip) {
      var ts: seq<string> :| AreOctets(ts, [], ip) && s == Join(ts);
      assert "" + s == s;
      PtonIsComplete(s, [], "", ip, ts);
    }
  }

  // ---- White space ----

  /** The characters that `isspace` accepts in the C locale. */
  lemma SpacesAre(c: char)
    ensures IsSpace(c) <==> c in {' ', '\t', '\n', '\U{0B}', '\U{0C}', '\r'}
  {
  }

  lemma {:induction false} SkipSplits(s: string) returns (sp: string)
    ensures AllSpaces(sp) && s == sp + SkipSpaces(s)
    ensures SkipSpaces(s) != "" ==> !IsSpace(SkipSpaces(s)[0])
  {
    if s != "" && IsSpace(s[0]) {
      var rest := SkipSplits(s[1..]);
      sp := [s[0]] + rest;
    } else {
      sp := "";
    }
  }

  lemma {:induction false} SkipsSpaces(sp: string, t: string)
    requires AllSpaces(sp) && (t == "" || !IsSpace(t[0]))
    ensures SkipSpaces(sp + t) == t
  {
    if sp == "" {
      assert sp + t == t;
    } else {
      SkipsSpaces(sp[1..], t);
      assert (sp + t)[1..] == sp[1..] + t;
    }
  }

  /** White space and an address after it. */
  ghost predicate IsSpacedAddress(s: string, ip: Ip) {
    exists sp, a :: AllSpaces(sp) && IsAddressText(a, ip) && s == sp + a
  }

  /** A text of an address is made of digits and dots, and begins with a digit. */
  lemma AddressShape(s: string, ip: Ip)
    requires IsAddressText(s, ip)
    ensures s != "" && IsDigit(s[0]) && forall k :: 0 <= k < |s| ==> IsDigit(s[k]) || s[k] == '.'
  {
    var ts: seq<string> :| AreOctets(ts, [], ip) && s == Join(ts);
    assert IsOctetText(ts[0], OctetAt(ip, 0));
    forall k | 0 <= k < |ts|
      ensures AllDigits(ts[k])
    {
      assert IsOctetText(ts[k], OctetAt(ip, k));
    }
    JoinShape(ts);
    assert ts[0] <= Join(ts);
  }

  lemma {:induction false} JoinShape(ts: seq<string>)
    requires forall k :: 0 <= k < |ts| ==> AllDigits(ts[k])
    ensures forall k :: 0 <= k < |Join(ts)| ==> IsDigit(Join(ts)[k]) || Join(ts)[k] == '.'
  {
    if |ts| > 1 {
      JoinShape(ts[1..]);
    }
  }

  /** `str2ip` accepts an address after any white space, and nothing else. */
  lemma StrToIpIsExact(s: string, ip: Ip)
    ensures StrToIp(s) == Some(ip) <==> IsSpacedAddress(s, ip)
  {
    if StrToIp(s) == Some(ip) {
      var sp := SkipSplits(s);
      PtonIsExact(SkipSpaces(s), ip);
      assert IsSpacedAddress(s, ip);
    }
    if IsSpacedAddress(s, ip) {
      var sp, a :| AllSpaces(sp) && IsAddressText(a, ip) && s == sp + a;
      AddressShape(a, ip);
      SkipsSpaces(sp, a);
      PtonIsExact(a, ip);
    }
  }

  /** A printed address, after any white space, is read back. */
  lemma SpacedAddressRoundTrip(sp: string, ip: Ip)
    requires AllSpaces(sp)
    ensures IsAddressText(InetNtop(ip), ip) && StrToIp(sp + InetNtop(ip)) == Some(ip)
  {
    PtonOfNtop(ip);
    PtonIsExact(InetNtop(ip), ip);
    assert IsSpacedAddress(sp + InetNtop(ip), ip);
    StrToIpIsExact(sp + InetNtop(ip), ip);
  }

  // ---- Numbers ----

  /** White space, at most one sign, digits, and text that does not go on with a digit. */
  ghost predicate AreNumberParts(s: string, sp: string, sign: string, digits: string, n: int, rest: string) {
    && AllSpaces(sp) && (sign == "" || sign == "+" || sign == "-")
    && digits != "" && AllDigits(digits) && NoDigit(rest)
    && s == sp + (sign + (digits + rest))
    && n == (if sign == "-" then 0 - Value(digits) else Value(digits))
  }

  /** The text begins with the number `n`, and `rest` is what follows it. */
  ghost predicate IsNumberText(s: string, n: int, rest: string) {
    exists sp, sign, digits :: AreNumberParts(s, sp, sign, digits, n, rest)
  }

  lemma {:induction false} ReadsDigits(done: string, digits: string, rest: string)
    requires AllDigits(done) && AllDigits(digits) && NoDigit(rest)
    ensures AllDigits(done + digits) && ReadDigits(digits + rest, Value(done)) == (Value(done + digits), rest)
    decreases |digits|
  {
    if digits == "" {
      assert digits + rest == rest && done + digits == done;
    } else {
      ValueAppends(done, digits[0]);
      ReadsDigits(done + [digits[0]], digits[1..], rest);
      assert (digits + rest)[1..] == digits[1..] + rest;
      assert done + [digits[0]] + digits[1..] == done + digits;
    }
  }

  lemma {:induction false} DigitsSplit(s: string) returns (digits: string, rest: string)
    ensures s == digits + rest && AllDigits(digits) && NoDigit(rest)
  {
    if s != "" && IsDigit(s[0]) {
      digits, rest := DigitsSplit(s[1..]);
      digits := [s[0]] + digits;
    } else {
      digits, rest := "", s;
    }
  }

  lemma UnsignedIsRead(s: string, digits: string, v: nat, rest: string)
    requires SkipSpaces(s) == digits + rest && digits != "" && IsDigit(digits[0])
    requires ReadDigits(digits + rest, 0) == (v, rest)
    ensures StrToL(s) == Some((Clamp(v), rest))
  {
    assert (digits + rest)[0] == digits[0];
  }

  lemma SignedIsRead(s: string, sign: char, number: string, v: nat, rest: string)
    requires SkipSpaces(s) == [sign] + number && (sign == '+' || sign == '-')
    requires number != "" && IsDigit(number[0]) && ReadDigits(number, 0) == (v, rest)
    ensures StrToL(s) == Some((Clamp(if sign == '-' then 0 - v else v), rest))
  {
    assert ([sign] + number)[1..] == number;
  }

  lemma NumberIsRead(s: string, sp: string, sign: string, digits: string, n: int, rest: string)
    requires AreNumberParts(s, sp, sign, digits, n, rest)
    ensures StrToL(s) == Some((Clamp(n), rest))
  {
    var number := digits + rest;
    assert number[0] == digits[0];
    assert ReadDigits(number, 0) == (Value(digits), rest) by {
      ReadsDigits("", digits, rest);
      assert "" + digits == digits;
    }
    if sign == "" {
      assert sign + number == number;
      SkipsSpaces(sp, number);
      UnsignedIsRead(s, digits, Value(digits), rest);
    } else {
      assert [sign[0]] == sign;
      SkipsSpaces(sp, sign + number);
      SignedIsRead(s, sign[0], number, Value(digits), rest);
    }
  }

  lemma SignSplits(s: string) returns (sign: string, number: string)
    requires StrToL(s).Some?
    ensures SkipSpaces(s) == sign + number && (sign == "" || sign == "+" || sign == "-")
    ensures number != "" && IsDigit(number[0])
  {
    var t := SkipSpaces(s);
    if t[0] == '-' || t[0] == '+' {
      sign, number := [t[0]], t[1..];
    } else {
      sign, number := "", t;
    }
    assert t == sign + number;
  }

  lemma NumberHasParts(s: string) returns (sp: string, sign: string, digits: string, n: int, rest: string)
    requires StrToL(s).Some?
    ensures AreNumberParts(s, sp, sign, digits, n, rest)
  {
    sp := SkipSplits(s);
    var number;
    sign, number := SignSplits(s);
    digits, rest := DigitsSplit(number);
    assert digits != "" by {
      assert rest == number[|digits|..];
    }
    n := if sign == "-" then 0 - Value(digits) else Value(digits);
  }

  /** `strtol` accepts exactly the texts that begin with a number, and yields the nearest `long`. */
  lemma StrToLIsExact(s: string, v: int, rest: string)
    ensures StrToL(s) == Some((v, rest)) <==> exists n :: IsNumberText(s, n, rest) && v == Clamp(n)
  {
    if StrToL(s) == Some((v, rest)) {
      var sp, sign, digits, n, after := NumberHasParts(s);
      NumberIsRead(s, sp, sign, digits, n, after);
      assert IsNumberText(s, n, rest);
    }
    if exists n :: IsNumberText(s, n, rest) && v == Clamp(n) {
      var n :| IsNumberText(s, n, rest) && v == Clamp(n);
      var sp, sign, digits :| AreNumberParts(s, sp, sign, digits, n, rest);
      NumberIsRead(s, sp, sign, digits, n, rest);
    }
  }

  // ---- Endpoints ----

  /** White space, an address, a colon and `rest`. */
  ghost predicate IsAddressed(s: string, ip: Ip, rest: string) {
    exists head :: IsSpacedAddress(head, ip) && s == head + (":" + rest) && |head| < BUF_SIZE
  }

  lemma SpacedAddressHasNoColon(head: string, ip: Ip)
    requires IsSpacedAddress(head, ip)
    ensures forall k :: 0 <= k < |head| ==> head[k] != ':'
  {
    var sp, a :| AllSpaces(sp) && IsAddressText(a, ip) && head == sp + a;
    AddressShape(a, ip);
  }

  lemma ColonAfterHead(head: string, rest: string)
    requires forall k :: 0 <= k < |head| ==> head[k] != ':'
    ensures var s := head + (":" + rest);
            IndexOf(s, ':') == |head| < |s| && s[..|head|] == head && s[|head| + 1..] == rest
  {
    var s := head + (":" + rest);
    assert s[|head|] == ':' && forall j :: 0 <= j < |head| ==> s[j] == head[j];
    assert s[..|head|] == head && s[|head| + 1..] == rest;
  }

  /** After the address and the colon, the number decides. */
  function ParsedAfter(ip: Ip, rest: string): Parsed {
    match StrToL(rest)
    case None => Parsed(Some(ip), Some(0), false)
    case Some((v, tail)) => Parsed(Some(ip), Some(ToInt(v)), TailAccepted(tail) && 0 <= ToInt(v) <= 65535)
  }

  lemma ParseOfAddressed(s: string, ip: Ip, rest: string)
    requires IsAddressed(s, ip, rest)
    ensures Parse(s) == ParsedAfter(ip, rest)
  {
    var head :| IsSpacedAddress(head, ip) && s == head + (":" + rest) && |head| < BUF_SIZE;
    SpacedAddressHasNoColon(head, ip);
    ColonAfterHead(head, rest);
    StrToIpIsExact(head, ip);
  }

  lemma AddressedWhenRead(s: string) returns (rest: string)
    requires Parse(s).ip.Some?
    ensures IsAddressed(s, Parse(s).ip.value, rest)
  {
    var i := IndexOf(s, ':');
    rest := s[i + 1..];
    var head := s[..i];
    StrToIpIsExact(head, Parse(s).ip.value);
    assert s == head + (":" + rest);
  }

  /**
   `str2endpoint` stores an address if and only if the text is white space, that address
   and a colon, with the colon inside the buffer; otherwise it stores nothing and refuses.
   */
  lemma AddressIsStoredExactly(s: string, ip: Ip)
    ensures Parse(s).ip == Some(ip) <==> exists rest :: IsAddressed(s, ip, rest)
    ensures Parse(s).ip.None? ==> Parse(s) == Parsed(None, None, false)
  {
    if Parse(s).ip == Some(ip) {
      var rest := AddressedWhenRead(s);
    }
    if exists rest :: IsAddressed(s, ip, rest) {
      var rest :| IsAddressed(s, ip, rest);
      ParseOfAddressed(s, ip, rest);
    }
  }

  /** An address, a number whose truncation is a port, and then at most one character before white space. */
  ghost predicate IsEndPointText(s: string, ip: Ip, n: int, rest: string, tail: string) {
    && IsAddressed(s, ip, rest) && IsNumberText(rest, n, tail)
    && 0 <= ToInt(Clamp(n)) <= 65535
    && forall k :: 1 <= k < |tail| ==> IsSpace(tail[k])
  }

  /** `str2endpoint` accepts the texts of endpoints and nothing else. */
  lemma ParseIsExact(s: string, ip: Ip, port: int)
    ensures Parse(s) == Parsed(Some(ip), Some(port), true) <==>
      exists n, rest, tail :: IsEndPointText(s, ip, n, rest, tail) && port == ToInt(Clamp(n))
  {
    if Parse(s) == Parsed(Some(ip), Some(port), true) {
      var n, rest, tail := PartsOfAccepted(s, ip, port);
    }
    if exists n, rest, tail :: IsEndPointText(s, ip, n, rest, tail) && port == ToInt(Clamp(n)) {
      var n, rest, tail :| IsEndPointText(s, ip, n, rest, tail) && port == ToInt(Clamp(n));
      ParseOfAddressed(s, ip, rest);
      StrToLIsExact(rest, Clamp(n), tail);
      TailIsSpace(tail);
    }
  }

  lemma PartsOfAccepted(s: string, ip: Ip, port: int) returns (n: int, rest: string, tail: string)
    requires Parse(s) == Parsed(Some(ip), Some(port), true)
    ensures IsEndPointText(s, ip, n, rest, tail) && port == ToInt(Clamp(n))
  {
    rest := AddressedWhenRead(s);
    ParseOfAddressed(s, ip, rest);
    var (v, after) := StrToL(rest).value;
    tail := after;
    StrToLIsExact(rest, v, tail);
    n :| IsNumberText(rest, n, tail) && v == Clamp(n);
    TailIsSpace(tail);
  }

  /**
   White space before a printed endpoint does not matter while the colon lies inside the
   buffer; with more of it, nothing is read.
   */
  lemma SpacedRoundTrip(sp: string, ip: Ip, port: int)
    requires AllSpaces(sp) && INT_MIN <= port <= INT_MAX
    ensures Parse(sp + Text(ip, port)) ==
      if |sp| + |InetNtop(ip)| < BUF_SIZE then Parsed(Some(ip), Some(port), 0 <= port <= 65535)
      else Parsed(None, None, false)
  {
    var head, rest := sp + InetNtop(ip), DecimalInt(port);
    var s := sp + Text(ip, port);
    assert s == head + (":" + rest);
    SpacedAddressRoundTrip(sp, ip);
    assert IsSpacedAddress(head, ip);
    SpacedAddressHasNoColon(head, ip);
    ColonAfterHead(head, rest);
    if |head| < BUF_SIZE {
      assert IsAddressed(s, ip, rest);
      ParseOfAddressed(s, ip, rest);
      PortReadBack(port);
      IntsAreKept(port);
    }
  }

  /** The form with the port apart accepts an address after any white space and a port in range. */
  lemma ParsePairIsExact(ipStr: string, port: int, ip: Ip)
    ensures ParsePair(ipStr, port) == Parsed(Some(ip), Some(port), true) <==>
      IsSpacedAddress(ipStr, ip) && 0 <= port <= 65535
    ensures ParsePair(ipStr, port).ip == Some(ip) <==> IsSpacedAddress(ipStr, ip)
  {
    StrToIpIsExact(ipStr, ip);
  }

  // ---- The forms left to the extended parser ----

  lemma {:induction false} TrimStopsAfter(s: string, k: nat)
    requires k < |s| && !IsSpace(s[k])
    ensures k < |TrimEnd(s)|
    decreases |s|
  {
    if IsSpace(s[|s| - 1]) {
      TrimStopsAfter(s[..|s| - 1], k);
    }
  }

  /** `create` considers exactly the texts that begin, after white space, with a bracket or with `unix:`. */
  lemma ExtendedFormsAreExact(s: string)
    ensures LooksExtended(s) <==> exists sp, t :: AllSpaces(sp) && s == sp + t && ("[" <= t || "unix:" <= t)
  {
    if LooksExtended(s) {
      var sp := SkipSplits(s);
      TrimEndIsPrefix(SkipSpaces(s));
    }
    if exists sp, t :: AllSpaces(sp) && s == sp + t && ("[" <= t || "unix:" <= t) {
      var sp, t :| AllSpaces(sp) && s == sp + t && ("[" <= t || "unix:" <= t);
      assert t[0] == '[' || t[0] == 'u';
      SkipsSpaces(sp, t);
      TrimEndIsPrefix(t);
      TrimStopsAfter(t, if "[" <= t then 0 else 4);
    }
  }
}
