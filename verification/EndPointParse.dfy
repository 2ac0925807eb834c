/**
 What reading an IPv4 endpoint into an existing object (turbo/base/endpoint.cc) does to
 the reference counts: the text forms of `EndPointText` as steps of `EndPointRefs`.
 */
module EndPointParse {
  import opened Common
  import opened EndPointRefs
  import Text = EndPointText

  /** An address as the number in `ip_t::s_addr`, on a little-endian host. */
  function SAddr(ip: Text.Ip): nat {
    ip.a as nat + 0x100 * ip.b as nat + 0x1_0000 * ip.c as nat + 0x100_0000 * ip.d as nat
  }

  function Stores(t: nat, h: nat, p: Text.Parsed): Action {
    Parse(t, h, if p.ip.Some? then Some(SAddr(p.ip.value)) else None, p.port)
  }

  /** `str2endpoint(str, point)`, the IPv4 branch. */
  function FromText(t: nat, h: nat, str: string): Action {
    Stores(t, h, Text.Parse(str))
  }

  /** `str2endpoint(ip_str, port, point)`, the IPv4 branch. */
  function FromPair(t: nat, h: nat, str: string, port: int): Action {
    Stores(t, h, Text.ParsePair(str, port))
  }

  lemma LowByte(x: nat, high: nat, x': nat, high': nat)
    requires x < 0x100 && x' < 0x100 && x + 0x100 * high == x' + 0x100 * high'
    ensures x == x' && high == high'
  {
  }

  /** Different addresses are different numbers. */
  lemma SAddrIsInjective(a: Text.Ip, b: Text.Ip)
    requires SAddr(a) == SAddr(b)
    ensures a == b
  {
    var a2, b2 := a.c as nat + 0x100 * a.d as nat, b.c as nat + 0x100 * b.d as nat;
    var a1, b1 := a.b as nat + 0x100 * a2, b.b as nat + 0x100 * b2;
    LowByte(a.a as nat, a1, b.a as nat, b1);
    LowByte(a.b as nat, a2, b.b as nat, b2);
    LowByte(a.c as nat, a.d as nat, b.c as nat, b.d as nat);
  }

  /** Reading the text of an endpoint stores that endpoint, whatever the object held, and does nothing else. */
  lemma TextIsStored(s: State, t: nat, h: nat, ip: Text.Ip, port: int, str: string)
    requires str == Text.Text(ip, port) && Text.INT_MIN <= port <= Text.INT_MAX
    requires Enabled(s, FromText(t, h, str))
    ensures Apply(s, FromText(t, h, str)) == s.(objects := s.objects[h := EndPoint(SAddr(ip), port)])
  {
    Text.ParsedBack(ip, port);
  }

  /** So do the address and a valid port given apart; of an invalid port only the address is stored. */
  lemma PairIsStored(s: State, t: nat, h: nat, ip: Text.Ip, port: int, str: string)
    requires Text.StrToIp(str) == Some(ip)
    requires Enabled(s, FromPair(t, h, str, port))
    ensures var port' := if 0 <= port <= 65535 then port else s.objects[h].port;
      Apply(s, FromPair(t, h, str, port)) == s.(objects := s.objects[h := EndPoint(SAddr(ip), port')])
  {
  }

  /**
   A text is safe to read into an object if and only if nothing is stored, or what is
   stored is there already, or the object is not extended and the number after the
   colon is not taken for the port that marks extended endpoints.
   */
  lemma TextIsSafe(s: State, t: nat, h: nat, str: string)
    requires Enabled(s, FromText(t, h, str))
    ensures var e, p := s.objects[h], Text.Parse(str);
      IsSafe(s, FromText(t, h, str)) <==>
        || p.ip.None?
        || (p.port.Some? && e == EndPoint(SAddr(p.ip.value), p.port.value))
        || (!Extended(e) && p.port != Some(EXTENDED_PORT))
  {
  }

  /** A text that is accepted is safe if and only if the object is not extended. */
  lemma AcceptedTextIsSafe(s: State, t: nat, h: nat, str: string)
    requires Enabled(s, FromText(t, h, str)) && Text.Parse(str).ok
    ensures IsSafe(s, FromText(t, h, str)) <==> !Extended(s.objects[h])
  {
  }

  /** A printed address, a colon and a number: safe exactly as far as object and number go. */
  lemma NumberIsSafe(s: State, t: nat, h: nat, str: string, ip: Text.Ip, v: int)
    requires str == Text.InetNtop(ip) + ":" + Text.DecimalInt(v)
    requires Enabled(s, FromText(t, h, str)) && !Extended(s.objects[h])
    ensures IsSafe(s, FromText(t, h, str))
       <==> !(Text.LONG_MIN <= v <= Text.LONG_MAX && v % 0x1_0000_0000 == EXTENDED_PORT)
  {
    NumberStores(t, h, str, ip, v);
    Text.TakenForExtended(v);
  }

  lemma NumberStores(t: nat, h: nat, str: string, ip: Text.Ip, v: int)
    requires str == Text.InetNtop(ip) + ":" + Text.DecimalInt(v)
    ensures FromText(t, h, str) == Parse(t, h, Some(SAddr(ip)), Some(Text.ToInt(Text.Clamp(v))))
  {
    Text.PortIsTruncated(ip, v);
  }

  /**
   An address and a port given apart are safe if and only if the address is refused, or
   there already, or the object is not extended.
   */
  lemma PairIsSafe(s: State, t: nat, h: nat, str: string, port: int)
    requires Enabled(s, FromPair(t, h, str, port))
    ensures var e, ip := s.objects[h], Text.StrToIp(str);
      IsSafe(s, FromPair(t, h, str, port)) <==>
        || ip.None?
        || !Extended(e)
        || (e.ip == SAddr(ip.value) && !(0 <= port <= 65535))
  {
  }

  // ---- Concrete runs ----

  lemma {:induction false} ExecConcat(s: State, a: seq<Action>, b: seq<Action>)
    requires Exec(s, a).Some?
    ensures Exec(s, a + b) == Exec(Exec(s, a).value, b)
    decreases |a|
  {
    if a == [] {
      assert a + b == b;
    } else {
      assert (a + b)[1..] == a[1..] + b;
      ExecConcat(Apply(s, a[0]), a[1..], b);
    }
  }

  lemma ExecOne(s: State, a: Action)
    requires Enabled(s, a)
    ensures Exec(s, [a]) == Some(Apply(s, a))
  {
    assert [a][1..] == [];
  }

  /** Object 0 denotes resource 0, and nothing else is there. */
  const ONE_EXTENDED: State :=
    State(map[0 := EndPoint(0, EXTENDED_PORT)], map[0 := Resource(1, 7, true)], {0}, map[7 := 0], map[])

  const MAKE_EXTENDED: seq<Action> := [New(0, 0, ANY), Create(0, 0, 7, 0), Continue(0), Continue(0), Continue(0)]

  lemma MakesExtended()
    ensures Exec(START, MAKE_EXTENDED) == Some(ONE_EXTENDED)
  {
    var s1 := Apply(START, New(0, 0, ANY));
    var s2 := Apply(s1, Create(0, 0, 7, 0));
    var s3 := Apply(s2, Continue(0));
    var s4 := Apply(s3, Continue(0));
    var s5 := Apply(s4, Continue(0));
    assert s3.jobs == map[0 := Embedding(0, 0)];
    assert s4.jobs == map[0 := Finish(Embed(0, 0))];
    assert s5 == ONE_EXTENDED;
    var c := Continue(0);
    assert MAKE_EXTENDED == [New(0, 0, ANY)] + ([Create(0, 0, 7, 0)] + ([c] + ([c] + [c])));
    ExecOne(START, New(0, 0, ANY));
    ExecOne(s1, Create(0, 0, 7, 0));
    ExecOne(s2, c);
    ExecOne(s3, c);
    ExecOne(s4, c);
    ExecConcat(START, [New(0, 0, ANY)], [Create(0, 0, 7, 0)] + ([c] + ([c] + [c])));
    ExecConcat(s1, [Create(0, 0, 7, 0)], [c] + ([c] + [c]));
    ExecConcat(s2, [c], [c] + [c]);
    ExecConcat(s3, [c], [c]);
  }

  /** Reading 1.2.3.4:80 into an extended object leaves a resource taken that no object denotes. */
  lemma ParseLeaks()
    ensures var acts := MAKE_EXTENDED + [FromText(0, 0, Text.Text(Text.Ip(1, 2, 3, 4), 80))];
      && Exec(START, acts).Some?
      && var s := Exec(START, acts).value;
         s.jobs == map[] && 0 in s.taken && s.pool == map[0 := Resource(1, 7, true)] && Denoting(s.objects, 0) == {}
  {
    var a := FromText(0, 0, Text.Text(Text.Ip(1, 2, 3, 4), 80));
    MakesExtended();
    Text.RoundTrip(Text.Ip(1, 2, 3, 4), 80);
    ExecOne(ONE_EXTENDED, a);
    ExecConcat(START, MAKE_EXTENDED, [a]);
  }

  /** What is left when the resource has gone back to the pool. */
  const RELEASED: State :=
    State(map[0 := EndPoint(0, EXTENDED_PORT)], map[0 := Resource(0, 7, false)], {}, map[], map[])

  /** What reading 0.0.0.0:123456789 into object 1 stores. The text is refused after that. */
  const FORGE: Action := Parse(0, 1, Some(0), Some(EXTENDED_PORT))

  lemma ForgingText(str: string)
    requires str == Text.InetNtop(Text.Ip(0, 0, 0, 0)) + ":" + Text.DecimalInt(EXTENDED_PORT)
    ensures FromText(0, 1, str) == FORGE && !Text.Parse(str).ok
  {
    Text.ExtendedPortIsStored(Text.Ip(0, 0, 0, 0));
  }

  /**
   A plain object into which that text has been read passes for one that denotes
   resource 0. When it is destroyed, the resource goes back to the pool while another
   object still denotes it.
   */
  lemma ParseForges()
    ensures Exec(START, MAKE_EXTENDED + [New(0, 1, ANY), FORGE] + DESTROY_ONE) == Some(RELEASED)
  {
    var a, b := [New(0, 1, ANY), FORGE], DESTROY_ONE;
    MakesExtended();
    Forges();
    DestroysForged();
    assert MAKE_EXTENDED + a + b == MAKE_EXTENDED + (a + b);
    ExecConcat(START, MAKE_EXTENDED, a + b);
    ExecConcat(ONE_EXTENDED, a, b);
  }

  const DESTROY_ONE: seq<Action> := [Destroy(0, 1), Continue(0), Continue(0), Continue(0)]

  const FORGED: State := ONE_EXTENDED.(objects := map[0 := EndPoint(0, EXTENDED_PORT), 1 := EndPoint(0, EXTENDED_PORT)])

  lemma Forges()
    ensures Exec(ONE_EXTENDED, [New(0, 1, ANY), FORGE]) == Some(FORGED)
  {
    var s1 := Apply(ONE_EXTENDED, New(0, 1, ANY));
    assert Apply(s1, FORGE) == FORGED;
    ExecOne(ONE_EXTENDED, New(0, 1, ANY));
    ExecOne(s1, FORGE);
    ExecConcat(ONE_EXTENDED, [New(0, 1, ANY)], [FORGE]);
    assert [New(0, 1, ANY)] + [FORGE] == [New(0, 1, ANY), FORGE];
  }

  /** The states that the release goes through, one after the other. */
  function ReleaseState(k: nat): State
    requires k < 3
  {
    var e := map[0 := EndPoint(0, EXTENDED_PORT)];
    if k == 0 then State(e, map[0 := Resource(0, 7, true)], {0}, map[7 := 0], map[0 := Erase(0, Nothing)])
    else if k == 1 then State(e, map[0 := Resource(0, 7, true)], {0}, map[], map[0 := Return(0, Nothing)])
    else State(e, map[0 := Resource(0, 7, false)], {}, map[], map[0 := Finish(Nothing)])
  }

  lemma BeginsRelease()
    ensures Enabled(FORGED, Destroy(0, 1)) && Apply(FORGED, Destroy(0, 1)) == ReleaseState(0)
  {
  }

  lemma GoesOnReleasing()
    ensures Apply(ReleaseState(0), Continue(0)) == ReleaseState(1)
    ensures Apply(ReleaseState(1), Continue(0)) == ReleaseState(2)
    ensures Apply(ReleaseState(2), Continue(0)) == RELEASED
  {
  }

  lemma DestroysForged()
    ensures Exec(FORGED, DESTROY_ONE) == Some(RELEASED)
  {
    var c := Continue(0);
    BeginsRelease();
    GoesOnReleasing();
    ExecOne(FORGED, Destroy(0, 1));
    ExecOne(ReleaseState(0), c);
    ExecOne(ReleaseState(1), c);
    ExecOne(ReleaseState(2), c);
    assert DESTROY_ONE == [Destroy(0, 1)] + ([c] + ([c] + [c]));
    ExecConcat(FORGED, [Destroy(0, 1)], [c] + ([c] + [c]));
    ExecConcat(ReleaseState(0), [c], [c] + [c]);
    ExecConcat(ReleaseState(1), [c], [c]);
  }
}
