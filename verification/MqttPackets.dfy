/**
 The packets the MQTT server link understands, byte by byte: when exactly it invokes a service, and for
 what; and known answers for the packets the client link sends.
 */
module MqttPackets {
  import opened Bytes
  import opened Wrappers
  import opened MqttMsg
  import opened MqttLink

  // ----- strings -----

  /** A string as it is written: its length in two bytes, and its bytes, among which may be 0. */
  function Str(x: seq<Byte>): seq<Byte> { ShortBytes(|x|) + x }

  function Strs(xs: seq<seq<Byte>>): seq<Byte> {
    if xs == [] then [] else Str(xs[0]) + Strs(xs[1..])
  }

  /** What parseString checks: two bytes for the length, and the length no more than all that is left. */
  predicate Fits(x: seq<Byte>, left: int) { |x| < 65536 && left >= 2 && |x| <= left }

  predicate AllFit(xs: seq<seq<Byte>>, left: int) {
    xs == [] || (Fits(xs[0], left) && AllFit(xs[1..], left - 2 - |xs[0]|))
  }

  lemma {:induction false} SliceHolds(mem: Mem, p: int, n: nat)
    ensures |Slice(mem, p, n)| == n && Holds(mem, p, Slice(mem, p, n))
    decreases n
  {
    if n > 0 {
      SliceHolds(mem, p + 1, n - 1);
      assert Slice(mem, p, n)[1..] == Slice(mem, p + 1, n - 1);
    }
  }

  lemma {:induction false} HoldsJoin(mem: Mem, p: int, a: seq<Byte>, b: seq<Byte>)
    requires Holds(mem, p, a) && Holds(mem, p + |a|, b)
    ensures Holds(mem, p, a + b)
    decreases |a|
  {
    if a == [] {
      assert a + b == b;
    } else {
      HoldsJoin(mem, p + 1, a[1..], b);
      assert (a + b)[1..] == a[1..] + b;
    }
  }

  lemma TwoHold(mem: Mem, p: int, a: Byte, b: Byte)
    requires mem(p) == a && mem(p + 1) == b
    ensures Holds(mem, p, [a, b])
  {
    assert [a, b][1..] == [b] && [b][1..] == [];
  }

  lemma ShortHeld(mem: Mem, p: int)
    ensures var n := (mem(p) as int) * 256 + mem(p + 1) as int;
            0 <= n < 65536 && Holds(mem, p, ShortBytes(n))
  {
    var n := (mem(p) as int) * 256 + mem(p + 1) as int;
    assert n / 256 == mem(p) as int && n % 256 == mem(p + 1) as int;
    TwoHold(mem, p, n / 256 % 256, n % 256);
  }

  lemma StringRead(mem: Mem, c: Cursor, x: seq<Byte>)
    requires Holds(mem, c.p, Str(x)) && Fits(x, c.length)
    ensures DecodeString(mem, c) == Some(Parsed(x, c.Skip(2 + |x|)))
  {
    HoldsSplit(mem, c.p, ShortBytes(|x|), x);
    ShortBack(mem, c, |x|);
    SliceIsHeld(mem, c.p + 2, x);
  }

  lemma StringSound(mem: Mem, c: Cursor)
    requires DecodeString(mem, c).Some?
    ensures var r := DecodeString(mem, c).value;
            Holds(mem, c.p, Str(r.value)) && Fits(r.value, c.length) && r.rest == c.Skip(2 + |r.value|)
  {
    var n: int := (mem(c.p) as int) * 256 + mem(c.p + 1) as int;
    ShortHeld(mem, c.p);
    SliceHolds(mem, c.p + 2, n);
    HoldsJoin(mem, c.p, ShortBytes(n), Slice(mem, c.p + 2, n));
  }

  /** parseString succeeds exactly on a written string that fits. */
  lemma StringIff(mem: Mem, c: Cursor, x: seq<Byte>, d: Cursor)
    ensures DecodeString(mem, c) == Some(Parsed(x, d)) <==>
            Holds(mem, c.p, Str(x)) && Fits(x, c.length) && d == c.Skip(2 + |x|)
  {
    if DecodeString(mem, c) == Some(Parsed(x, d)) {
      StringSound(mem, c);
    }
    if Holds(mem, c.p, Str(x)) && Fits(x, c.length) && d == c.Skip(2 + |x|) {
      StringRead(mem, c, x);
    }
  }

  // ----- CONNECT, section 3.1 of MQTT 3.1.1 -----

  datatype ConnectPacket = ConnectPacket(protocol: seq<Byte>, level: Byte, flags: Byte, keepAlive: nat, name: seq<Byte>,
                                         will: seq<seq<Byte>>, user: Option<seq<Byte>>, password: Option<seq<Byte>>)

  function OptionSeq(o: Option<seq<Byte>>): seq<seq<Byte>> { if o.Some? then [o.value] else [] }

  /** The payload: client identifier, will topic and message, user name, password. */
  function Payload(p: ConnectPacket): seq<seq<Byte>> { [p.name] + (p.will + (OptionSeq(p.user) + OptionSeq(p.password))) }

  function ConnectBytes(p: ConnectPacket): seq<Byte> {
    Str(p.protocol) + ([p.level, p.flags] + (ShortBytes(p.keepAlive) + Strs(Payload(p))))
  }

  /** The flags say what the payload holds: bit 2 a will, bit 7 a user name, bit 6 a password. */
  predicate GoodConnect(p: ConnectPacket) {
    && p.keepAlive < 65536
    && |p.will| == (if (p.flags as int) / 4 % 2 == 1 then 2 else 0)
    && (p.user.Some? <==> (p.flags as int) / 128 % 2 == 1)
    && (p.password.Some? <==> (p.flags as int) / 64 % 2 == 1)
  }

  predicate ConnectFits(p: ConnectPacket, length: int) {
    var left := length - 2 - |p.protocol|;
    Fits(p.protocol, length) && left >= 4 && AllFit(Payload(p), left - 4)
  }

  /** The protocol name up to its first 0 is "MQTT", and the level is 4. */
  predicate Supported(p: ConnectPacket) { CString(p.protocol) == [77, 81, 84, 84] && p.level as int == 4 }

  function OrEmpty(o: Option<seq<Byte>>): seq<Byte> { if o.Some? then o.value else [] }

  /** What a packet that fits does to the link. */
  function Accepted(s: Server, p: ConnectPacket): Server {
    var t := s.(keepAlive := p.keepAlive, clientName := p.name);
    if Supported(p) then t.With(ConnectService(p.name, OrEmpty(p.user), OrEmpty(p.password))).(alive := true)
    else t.With(ConnAckRefusal)
  }

  lemma {:induction false} StrsSplit(mem: Mem, p: int, xs: seq<seq<Byte>>)
    requires Holds(mem, p, Strs(xs)) && xs != []
    ensures Holds(mem, p, Str(xs[0])) && Holds(mem, p + 2 + |xs[0]|, Strs(xs[1..]))
  {
    HoldsSplit(mem, p, Str(xs[0]), Strs(xs[1..]));
  }

  /** The payload behind the client's name. */
  lemma TailRead(s: Server, mem: Mem, c: Cursor, p: ConnectPacket, supported: bool)
    requires GoodConnect(p)
    requires var xs := p.will + (OptionSeq(p.user) + OptionSeq(p.password)); Holds(mem, c.p, Strs(xs)) && AllFit(xs, c.length)
    ensures ConnectTail(s, supported, p.flags, mem, c) ==
            if supported then s.With(ConnectService(s.clientName, OrEmpty(p.user), OrEmpty(p.password))).(alive := true)
            else s.With(ConnAckRefusal)
  {
    var ends := OptionSeq(p.user) + OptionSeq(p.password);
    var d := WillRead(mem, c, p, ends);
    var e := PartRead(mem, d, p.user, OptionSeq(p.password));
    assert OptionSeq(p.password) + [] == OptionSeq(p.password);
    var f := PartRead(mem, e, p.password, []);
  }

  lemma PartRead(mem: Mem, c: Cursor, o: Option<seq<Byte>>, more: seq<seq<Byte>>) returns (d: Cursor)
    requires Holds(mem, c.p, Strs(OptionSeq(o) + more)) && AllFit(OptionSeq(o) + more, c.length)
    ensures DecodeIf(o.Some?, mem, c) == Some(Parsed(OrEmpty(o), d))
    ensures Holds(mem, d.p, Strs(more)) && AllFit(more, d.length)
  {
    var xs := OptionSeq(o) + more;
    if o.Some? {
      assert xs[0] == o.value && xs[1..] == more;
      StrsSplit(mem, c.p, xs);
      StringRead(mem, c, o.value);
      d := c.Skip(2 + |o.value|);
    } else {
      assert xs == more;
      d := c;
    }
  }

  lemma WillRead(mem: Mem, c: Cursor, p: ConnectPacket, more: seq<seq<Byte>>) returns (d: Cursor)
    requires GoodConnect(p) && Holds(mem, c.p, Strs(p.will + more)) && AllFit(p.will + more, c.length)
    ensures DecodeWill(p.flags, mem, c) == Some(d) && Holds(mem, d.p, Strs(more)) && AllFit(more, d.length)
  {
    if |p.will| == 0 {
      assert p.will + more == more;
      d := c;
    } else {
      var xs := p.will + more;
      var (topic, message) := (p.will[0], p.will[1]);
      assert xs[0] == topic && xs[1..][0] == message && xs[1..][1..] == more;
      StrsSplit(mem, c.p, xs);
      StringRead(mem, c, topic);
      var e := c.Skip(2 + |topic|);
      StrsSplit(mem, e.p, xs[1..]);
      StringRead(mem, e, message);
      d := e.Skip(2 + |message|);
    }
  }

  /** A packet that fits is accepted or refused by its protocol name and level. */
  lemma ConnectRead(s: Server, mem: Mem, c: Cursor, p: ConnectPacket)
    requires GoodConnect(p) && Holds(mem, c.p, ConnectBytes(p)) && ConnectFits(p, c.length)
    ensures Connected(s, mem, c) == Accepted(s, p)
  {
    var d := FixedRead(mem, c, p);
    NameRead(mem, d.Skip(4), p);
    ConnectedIs(s, mem, c, p, d);
    TailRead(s.(keepAlive := p.keepAlive, clientName := p.name), mem, d.Skip(4).Skip(2 + |p.name|), p, Supported(p));
  }

  lemma NameRead(mem: Mem, e: Cursor, p: ConnectPacket)
    requires Holds(mem, e.p, Strs(Payload(p))) && AllFit(Payload(p), e.length)
    ensures DecodeString(mem, e) == Some(Parsed(p.name, e.Skip(2 + |p.name|)))
    ensures var xs := p.will + (OptionSeq(p.user) + OptionSeq(p.password));
            Holds(mem, e.p + 2 + |p.name|, Strs(xs)) && AllFit(xs, e.length - 2 - |p.name|)
  {
    var xs := Payload(p);
    assert xs[0] == p.name && xs[1..] == p.will + (OptionSeq(p.user) + OptionSeq(p.password));
    StrsSplit(mem, e.p, xs);
    StringRead(mem, e, p.name);
  }

  /** The parts before the payload; `d` is behind the protocol name. */
  lemma FixedRead(mem: Mem, c: Cursor, p: ConnectPacket) returns (d: Cursor)
    requires GoodConnect(p) && Holds(mem, c.p, ConnectBytes(p)) && ConnectFits(p, c.length)
    ensures d == c.Skip(2 + |p.protocol|) && DecodeString(mem, c) == Some(Parsed(p.protocol, d))
    ensures DecodeByte(mem, d) == Some(Parsed(p.level as int, d.Skip(1)))
    ensures DecodeByte(mem, d.Skip(1)) == Some(Parsed(p.flags as int, d.Skip(2)))
    ensures DecodeShort(mem, d.Skip(2)) == Some(Parsed(p.keepAlive as int, d.Skip(4)))
    ensures Holds(mem, d.p + 4, Strs(Payload(p))) && AllFit(Payload(p), d.length - 4)
  {
    d := c.Skip(2 + |p.protocol|);
    var tail := ShortBytes(p.keepAlive) + Strs(Payload(p));
    HoldsSplit(mem, c.p, Str(p.protocol), [p.level, p.flags] + tail);
    StringRead(mem, c, p.protocol);
    HoldsSplit(mem, d.p, [p.level, p.flags], tail);
    TwoHeld(mem, d.p, p.level, p.flags);
    HoldsSplit(mem, d.p + 2, ShortBytes(p.keepAlive), Strs(Payload(p)));
    ShortBack(mem, d.Skip(2), p.keepAlive);
  }

  lemma ConnectedIs(s: Server, mem: Mem, c: Cursor, p: ConnectPacket, d: Cursor)
    requires DecodeString(mem, c) == Some(Parsed(p.protocol, d))
    requires DecodeByte(mem, d) == Some(Parsed(p.level as int, d.Skip(1)))
    requires DecodeByte(mem, d.Skip(1)) == Some(Parsed(p.flags as int, d.Skip(2)))
    requires DecodeShort(mem, d.Skip(2)) == Some(Parsed(p.keepAlive as int, d.Skip(4)))
    requires DecodeString(mem, d.Skip(4)) == Some(Parsed(p.name, d.Skip(4).Skip(2 + |p.name|)))
    ensures Connected(s, mem, c) ==
            ConnectTail(s.(keepAlive := p.keepAlive, clientName := p.name), Supported(p), p.flags, mem, d.Skip(4).Skip(2 + |p.name|))
  {
  }

  lemma {:induction false} StrsJoin(mem: Mem, c: Cursor, x: seq<Byte>, xs: seq<seq<Byte>>)
    requires Holds(mem, c.p, Str(x)) && Fits(x, c.length)
    requires Holds(mem, c.p + 2 + |x|, Strs(xs)) && AllFit(xs, c.length - 2 - |x|)
    ensures Holds(mem, c.p, Strs([x] + xs)) && AllFit([x] + xs, c.length)
  {
    assert ([x] + xs)[1..] == xs;
    HoldsJoin(mem, c.p, Str(x), Strs(xs));
  }

  /** An event, be it a service or a refusal, comes only from a packet that fits. */
  lemma ConnectSound(s: Server, mem: Mem, c: Cursor) returns (p: ConnectPacket)
    requires Connected(s, mem, c).events != s.events
    ensures GoodConnect(p) && Holds(mem, c.p, ConnectBytes(p)) && ConnectFits(p, c.length)
  {
    var protocol := DecodeString(mem, c).value;
    EventNeedsName(s, mem, c, protocol.value, protocol.rest);
    p := PacketSound(s, mem, c);
  }

  lemma PacketSound(s: Server, mem: Mem, c: Cursor) returns (p: ConnectPacket)
    requires DecodeString(mem, c).Some?
    requires var protocol := DecodeString(mem, c).value;
             HasTail(s, CString(protocol.value) == PROTOCOL && mem(protocol.rest.p) as int == 4, mem, protocol.rest)
    ensures GoodConnect(p) && Holds(mem, c.p, ConnectBytes(p)) && ConnectFits(p, c.length)
  {
    StringSound(mem, c);
    var protocol := DecodeString(mem, c).value.value;
    var d := c.Skip(2 + |protocol|);
    StringSound(mem, d.Skip(4));
    var name := DecodeString(mem, d.Skip(4)).value.value;
    p := PayloadSound(Named(s, mem, d, name), CString(protocol) == PROTOCOL && mem(d.p) as int == 4, mem, d, protocol, name);
    HeadJoin(mem, c, p, d);
  }

  lemma PayloadSound(t: Server, supported: bool, mem: Mem, d: Cursor, protocol: seq<Byte>, name: seq<Byte>)
    returns (p: ConnectPacket)
    requires Holds(mem, d.p + 4, Str(name)) && Fits(name, d.length - 4)
    requires ConnectTail(t, supported, mem(d.p + 1) as int, mem, d.Skip(4).Skip(2 + |name|)).events != t.events
    ensures GoodConnect(p) && p.protocol == protocol && p.level == mem(d.p) && p.flags == mem(d.p + 1)
    ensures p.keepAlive == (mem(d.p + 2) as int) * 256 + mem(d.p + 3) as int
    ensures Holds(mem, d.p + 4, Strs(Payload(p))) && AllFit(Payload(p), d.length - 4)
  {
    var e := d.Skip(4);
    var will, user, password := TailSound(t, supported, mem(d.p + 1), mem, e.Skip(2 + |name|));
    StrsJoin(mem, e, name, will + (OptionSeq(user) + OptionSeq(password)));
    var keepAlive := (mem(d.p + 2) as int) * 256 + mem(d.p + 3) as int;
    p := ConnectPacket(protocol, mem(d.p), mem(d.p + 1), keepAlive, name, will, user, password);
  }

  function Named(s: Server, mem: Mem, d: Cursor, name: seq<Byte>): Server {
    s.(keepAlive := (mem(d.p + 2) as int) * 256 + mem(d.p + 3) as int, clientName := name)
  }

  /** Behind the protocol name are four bytes, a client's name and a payload that makes an event. */
  predicate HasTail(s: Server, supported: bool, mem: Mem, d: Cursor) {
    && d.length >= 4
    && DecodeString(mem, d.Skip(4)).Some?
    && var name := DecodeString(mem, d.Skip(4)).value;
       ConnectTail(Named(s, mem, d, name.value), supported, mem(d.p + 1) as int, mem, name.rest).events != s.events
  }

  lemma EventNeedsName(s: Server, mem: Mem, c: Cursor, protocol: seq<Byte>, d: Cursor)
    requires Connected(s, mem, c).events != s.events
    requires DecodeString(mem, c) == Some(Parsed(protocol, d))
    ensures HasTail(s, CString(protocol) == PROTOCOL && mem(d.p) as int == 4, mem, d)
  {
    var flags := DecodeByte(mem, d.Skip(1));
    assert flags.None? || DecodeShort(mem, flags.value.rest) == DecodeShort(mem, d.Skip(2));
  }

  lemma HeadJoin(mem: Mem, c: Cursor, p: ConnectPacket, d: Cursor)
    requires Holds(mem, c.p, Str(p.protocol)) && d.p == c.p + 2 + |p.protocol|
    requires mem(d.p) == p.level && mem(d.p + 1) == p.flags
    requires p.keepAlive == (mem(d.p + 2) as int) * 256 + mem(d.p + 3) as int
    requires Holds(mem, d.p + 4, Strs(Payload(p)))
    ensures Holds(mem, c.p, ConnectBytes(p))
  {
    var names := Strs(Payload(p));
    ShortHeld(mem, d.p + 2);
    HoldsJoin(mem, d.p + 2, ShortBytes(p.keepAlive), names);
    TwoHold(mem, d.p, p.level, p.flags);
    HoldsJoin(mem, d.p, [p.level, p.flags], ShortBytes(p.keepAlive) + names);
    HoldsJoin(mem, c.p, Str(p.protocol), [p.level, p.flags] + (ShortBytes(p.keepAlive) + names));
  }

  lemma TailSound(s: Server, supported: bool, flags: Byte, mem: Mem, c: Cursor)
    returns (will: seq<seq<Byte>>, user: Option<seq<Byte>>, password: Option<seq<Byte>>)
    requires ConnectTail(s, supported, flags, mem, c).events != s.events
    ensures |will| == (if (flags as int) / 4 % 2 == 1 then 2 else 0)
    ensures (user.Some? <==> (flags as int) / 128 % 2 == 1) && (password.Some? <==> (flags as int) / 64 % 2 == 1)
    ensures var xs := will + (OptionSeq(user) + OptionSeq(password)); Holds(mem, c.p, Strs(xs)) && AllFit(xs, c.length)
  {
    var d := DecodeWill(flags, mem, c).value;
    var e := DecodeIf(HasUserName(flags), mem, d).value.rest;
    password := PartSound(HasPassword(flags), mem, e, []);
    assert OptionSeq(password) + [] == OptionSeq(password);
    user := PartSound(HasUserName(flags), mem, d, OptionSeq(password));
    will := WillSound(flags, mem, c, OptionSeq(user) + OptionSeq(password));
  }

  lemma PartSound(present: bool, mem: Mem, c: Cursor, more: seq<seq<Byte>>) returns (o: Option<seq<Byte>>)
    requires DecodeIf(present, mem, c).Some?
    requires var d := DecodeIf(present, mem, c).value.rest; Holds(mem, d.p, Strs(more)) && AllFit(more, d.length)
    ensures o.Some? == present && Holds(mem, c.p, Strs(OptionSeq(o) + more)) && AllFit(OptionSeq(o) + more, c.length)
  {
    if present {
      StringSound(mem, c);
      o := Some(DecodeString(mem, c).value.value);
      StrsJoin(mem, c, o.value, more);
    } else {
      o := None;
      assert OptionSeq(o) + more == more;
    }
  }

  lemma WillSound(flags: Byte, mem: Mem, c: Cursor, more: seq<seq<Byte>>) returns (will: seq<seq<Byte>>)
    requires DecodeWill(flags, mem, c).Some?
    requires var d := DecodeWill(flags, mem, c).value; Holds(mem, d.p, Strs(more)) && AllFit(more, d.length)
    ensures |will| == (if (flags as int) / 4 % 2 == 1 then 2 else 0)
    ensures Holds(mem, c.p, Strs(will + more)) && AllFit(will + more, c.length)
  {
    if HasWill(flags) {
      StringSound(mem, c);
      var topic := DecodeString(mem, c).value;
      StringSound(mem, topic.rest);
      var message := DecodeString(mem, topic.rest).value;
      StrsJoin(mem, topic.rest, message.value, more);
      StrsJoin(mem, c, topic.value, [message.value] + more);
      will := [topic.value, message.value];
      assert will + more == [topic.value] + ([message.value] + more);
    } else {
      will := [];
      assert will + more == more;
    }
  }

  /** CONNECT invokes the service, or refuses, exactly for the bytes of a packet that fits. */
  lemma ConnectIff(s: Server, mem: Mem, c: Cursor)
    ensures Connected(s, mem, c).events != s.events <==>
            exists p :: GoodConnect(p) && Holds(mem, c.p, ConnectBytes(p)) && ConnectFits(p, c.length)
    ensures forall p | GoodConnect(p) && Holds(mem, c.p, ConnectBytes(p)) && ConnectFits(p, c.length) ::
              Connected(s, mem, c) == Accepted(s, p)
  {
    if Connected(s, mem, c).events != s.events {
      var p := ConnectSound(s, mem, c);
    }
    forall p | GoodConnect(p) && Holds(mem, c.p, ConnectBytes(p)) && ConnectFits(p, c.length)
      ensures Connected(s, mem, c) == Accepted(s, p) && Connected(s, mem, c).events != s.events
    {
      ConnectRead(s, mem, c, p);
      assert |Accepted(s, p).events| == |s.events| + 1;
    }
  }

  /** Even a packet that is refused or breaks off leaves its keep-alive and client name behind, as far as it goes. */
  lemma ConnectLeaves(s: Server, mem: Mem, c: Cursor)
    ensures var r := Connected(s, mem, c);
            if !HasHead(mem, c) then r == s
            else
              var d := DecodeString(mem, c).value.rest;
              var name := DecodeString(mem, d.Skip(4));
              && r.keepAlive == (mem(d.p + 2) as int) * 256 + mem(d.p + 3) as int && r.idleSec == s.idleSec
              && r.clientName == (if name.Some? then name.value.value else s.clientName)
              && (name.None? ==> r.events == s.events && r.alive == s.alive)
  {
    if DecodeString(mem, c).Some? {
      var d := DecodeString(mem, c).value.rest;
      var flags := DecodeByte(mem, d.Skip(1));
      assert flags.Some? ==> flags.value.rest == d.Skip(2);
      assert d.Skip(2).Skip(2) == d.Skip(4);
    }
  }

  /** The protocol name and the four bytes behind it are there. */
  predicate HasHead(mem: Mem, c: Cursor) { DecodeString(mem, c).Some? && DecodeString(mem, c).value.rest.length >= 4 }

  // ----- PUBLISH -----

  /** PUBLISH invokes the service exactly with flags of 0 and a topic that fits; the rest is the content. */
  lemma PublishIff(s: Server, mem: Mem, c: Cursor, flags: int)
    ensures Published(s, mem, c, flags) != s <==>
            flags == 0 && exists topic :: Holds(mem, c.p, Str(topic)) && Fits(topic, c.length)
    ensures forall topic, content |
              flags == 0 && Holds(mem, c.p, Str(topic) + content) && |topic| < 65536 && c.length == 2 + |topic| + |content| ::
              Published(s, mem, c, flags) == s.With(PublishService(s.clientName, topic, content))
  {
    if flags == 0 && DecodeString(mem, c).Some? {
      StringSound(mem, c);
      assert |Published(s, mem, c, flags).events| == |s.events| + 1;
    }
    forall topic | Holds(mem, c.p, Str(topic)) && Fits(topic, c.length) ensures DecodeString(mem, c).Some? {
      StringRead(mem, c, topic);
    }
    forall topic, content |
      flags == 0 && Holds(mem, c.p, Str(topic) + content) && |topic| < 65536 && c.length == 2 + |topic| + |content|
      ensures Published(s, mem, c, flags) == s.With(PublishService(s.clientName, topic, content))
    {
      HoldsSplit(mem, c.p, Str(topic), content);
      StringRead(mem, c, topic);
      SliceIsHeld(mem, c.p + 2 + |topic|, content);
    }
  }

  // ----- SUBSCRIBE and UNSUBSCRIBE -----

  /** Topics, each with its requested quality of service. */
  function WithQos(topics: seq<seq<Byte>>, qos: seq<Byte>): seq<Byte>
    requires |topics| == |qos|
  {
    if topics == [] then [] else Str(topics[0]) + ([qos[0]] + WithQos(topics[1..], qos[1..]))
  }

  predicate AllShort(topics: seq<seq<Byte>>) { forall i :: 0 <= i < |topics| ==> |topics[i]| < 65536 }

  lemma {:induction false} QosTopicsRead(mem: Mem, c: Cursor, topics: seq<seq<Byte>>, qos: seq<Byte>)
    requires |topics| == |qos| && AllShort(topics) && Holds(mem, c.p, WithQos(topics, qos)) && c.length == |WithQos(topics, qos)|
    ensures Topics(mem, c, true) == Some(topics)
    decreases |topics|
  {
    if topics != [] {
      var more := WithQos(topics[1..], qos[1..]);
      HoldsSplit(mem, c.p, Str(topics[0]), [qos[0]] + more);
      StringRead(mem, c, topics[0]);
      var d := c.Skip(2 + |topics[0]|);
      HoldsSplit(mem, d.p, [qos[0]], more);
      QosTopicsRead(mem, d.Skip(1), topics[1..], qos[1..]);
      assert topics == [topics[0]] + topics[1..];
    }
  }

  lemma {:induction false} QosTopicsSound(mem: Mem, c: Cursor) returns (qos: seq<Byte>)
    requires Topics(mem, c, true).Some? && c.length >= 0
    ensures var topics := Topics(mem, c, true).value;
            && |topics| == |qos| && AllShort(topics) && Holds(mem, c.p, WithQos(topics, qos)) && c.length == |WithQos(topics, qos)|
    decreases c.length
  {
    qos := [];
    if c.length > 0 {
      StringSound(mem, c);
      var topic := DecodeString(mem, c).value;
      var d := topic.rest;
      var topics := Topics(mem, c, true).value;
      var more := QosTopicsSound(mem, d.Skip(1));
      qos := [mem(d.p)] + more;
      assert topics[1..] == Topics(mem, d.Skip(1), true).value && qos[1..] == more;
      assert [mem(d.p)][1..] == [];
      HoldsJoin(mem, d.p, [mem(d.p)], WithQos(topics[1..], more));
      HoldsJoin(mem, c.p, Str(topic.value), [mem(d.p)] + WithQos(topics[1..], more));
    }
  }

  /** The topics of a SUBSCRIBE packet are read exactly if they fill the packet, each with one byte behind it. */
  lemma SubscribeIff(mem: Mem, c: Cursor, topics: seq<seq<Byte>>)
    requires c.length >= 0
    ensures Topics(mem, c, true) == Some(topics) <==>
            exists qos :: |qos| == |topics| && AllShort(topics) && Holds(mem, c.p, WithQos(topics, qos))
                          && c.length == |WithQos(topics, qos)|
  {
    if Topics(mem, c, true) == Some(topics) {
      var qos := QosTopicsSound(mem, c);
    }
    forall qos | |qos| == |topics| && AllShort(topics) && Holds(mem, c.p, WithQos(topics, qos)) && c.length == |WithQos(topics, qos)|
      ensures Topics(mem, c, true) == Some(topics)
    {
      QosTopicsRead(mem, c, topics, qos);
    }
  }

  lemma {:induction false} PlainTopicsRead(mem: Mem, c: Cursor, topics: seq<seq<Byte>>)
    requires AllFit(topics, c.length) && Holds(mem, c.p, Strs(topics)) && |Strs(topics)| >= c.length
    ensures Topics(mem, c, false) == Some(topics)
    decreases |topics|
  {
    if topics != [] {
      StrsSplit(mem, c.p, topics);
      StringRead(mem, c, topics[0]);
      PlainTopicsRead(mem, c.Skip(2 + |topics[0]|), topics[1..]);
      assert topics == [topics[0]] + topics[1..];
    }
  }

  lemma {:induction false} PlainTopicsSound(mem: Mem, c: Cursor)
    requires Topics(mem, c, false).Some?
    ensures var topics := Topics(mem, c, false).value;
            AllFit(topics, c.length) && Holds(mem, c.p, Strs(topics)) && |Strs(topics)| >= c.length
    decreases c.length
  {
    if c.length > 0 {
      StringSound(mem, c);
      var topic := DecodeString(mem, c).value;
      var more := Topics(mem, topic.rest, false).value;
      PlainTopicsSound(mem, topic.rest);
      StrsJoin(mem, c, topic.value, more);
      assert ([topic.value] + more)[1..] == more;
    }
  }

  /** The topics of an UNSUBSCRIBE packet are read exactly if each fits and together they fill the packet. */
  lemma UnsubscribeIff(mem: Mem, c: Cursor, topics: seq<seq<Byte>>)
    ensures Topics(mem, c, false) == Some(topics) <==>
            AllFit(topics, c.length) && Holds(mem, c.p, Strs(topics)) && |Strs(topics)| >= c.length
  {
    if Topics(mem, c, false) == Some(topics) {
      PlainTopicsSound(mem, c);
    }
    if AllFit(topics, c.length) && Holds(mem, c.p, Strs(topics)) && |Strs(topics)| >= c.length {
      PlainTopicsRead(mem, c, topics);
    }
  }

  /** SUBSCRIBE invokes the service exactly for an identifier and topics that fill the packet. */
  lemma SubscribedIff(s: Server, mem: Mem, c: Cursor, id: nat, topics: seq<seq<Byte>>)
    requires id < 65536
    ensures Subscribed(s, mem, c) == s.With(SubscribeService(s.clientName, id, topics)) <==>
            exists qos :: |qos| == |topics| && AllShort(topics) && Holds(mem, c.p, ShortBytes(id) + WithQos(topics, qos))
                          && c.length == 2 + |WithQos(topics, qos)|
  {
    if Subscribed(s, mem, c) == s.With(SubscribeService(s.clientName, id, topics)) {
      SubscribedHas(s, mem, c, id, topics);
      var qos := QosTopicsSound(mem, c.Skip(2));
      ShortHeld(mem, c.p);
      HoldsJoin(mem, c.p, ShortBytes(id), WithQos(topics, qos));
    }
    forall qos | |qos| == |topics| && AllShort(topics) && Holds(mem, c.p, ShortBytes(id) + WithQos(topics, qos))
                 && c.length == 2 + |WithQos(topics, qos)|
      ensures Subscribed(s, mem, c) == s.With(SubscribeService(s.clientName, id, topics))
    {
      HoldsSplit(mem, c.p, ShortBytes(id), WithQos(topics, qos));
      ShortBack(mem, c, id);
      QosTopicsRead(mem, c.Skip(2), topics, qos);
    }
  }

  lemma SubscribedHas(s: Server, mem: Mem, c: Cursor, id: int, topics: seq<seq<Byte>>)
    requires Subscribed(s, mem, c) == s.With(SubscribeService(s.clientName, id, topics))
    ensures c.length >= 2 && DecodeShort(mem, c).value.value == id && Topics(mem, c.Skip(2), true) == Some(topics)
  {
    var e := SubscribeService(s.clientName, id, topics);
    assert s.With(e).events[|s.events|] == e;
  }

  /** UNSUBSCRIBE the same, though its last topic may reach behind the packet. */
  lemma UnsubscribedIff(s: Server, mem: Mem, c: Cursor, id: nat, topics: seq<seq<Byte>>)
    requires id < 65536
    ensures Unsubscribed(s, mem, c) == s.With(UnsubscribeService(s.clientName, id, topics)) <==>
            c.length >= 2 && Holds(mem, c.p, ShortBytes(id) + Strs(topics)) && AllFit(topics, c.length - 2)
            && 2 + |Strs(topics)| >= c.length
  {
    if Unsubscribed(s, mem, c) == s.With(UnsubscribeService(s.clientName, id, topics)) {
      UnsubscribedHas(s, mem, c, id, topics);
      PlainTopicsSound(mem, c.Skip(2));
      ShortHeld(mem, c.p);
      HoldsJoin(mem, c.p, ShortBytes(id), Strs(topics));
    }
    if c.length >= 2 && Holds(mem, c.p, ShortBytes(id) + Strs(topics)) && AllFit(topics, c.length - 2)
       && 2 + |Strs(topics)| >= c.length {
      UnsubscribedRead(s, mem, c, id, topics);
    }
  }

  lemma UnsubscribedRead(s: Server, mem: Mem, c: Cursor, id: nat, topics: seq<seq<Byte>>)
    requires id < 65536 && c.length >= 2 && Holds(mem, c.p, ShortBytes(id) + Strs(topics))
    requires AllFit(topics, c.length - 2) && 2 + |Strs(topics)| >= c.length
    ensures Unsubscribed(s, mem, c) == s.With(UnsubscribeService(s.clientName, id, topics))
  {
    HoldsSplit(mem, c.p, ShortBytes(id), Strs(topics));
    ShortBack(mem, c, id);
    PlainTopicsRead(mem, c.Skip(2), topics);
  }

  lemma UnsubscribedHas(s: Server, mem: Mem, c: Cursor, id: int, topics: seq<seq<Byte>>)
    requires Unsubscribed(s, mem, c) == s.With(UnsubscribeService(s.clientName, id, topics))
    ensures c.length >= 2 && DecodeShort(mem, c).value.value == id && Topics(mem, c.Skip(2), false) == Some(topics)
  {
    var e := UnsubscribeService(s.clientName, id, topics);
    assert s.With(e).events[|s.events|] == e;
  }

  // ----- whole packets -----

  /**
   The Remaining Length is the low seven bits of its at most three bytes, in base 128. Running out is noticed
   one byte late.
   */
  lemma LengthIs(mem: Mem, c: Cursor)
    requires c.length >= 1
    ensures var (a, b, d) := (mem(c.p) as int, mem(c.p + 1) as int, mem(c.p + 2) as int);
            DecodeLength(mem, c, 1, 0) ==
            if a < 128 then (a, c.Skip(1))
            else if b < 128 then (a - 128 + 128 * b, c.Skip(2))
            else if c.length < 2 then (-2, c.Skip(2))
            else if d < 128 then (a - 128 + 128 * (b - 128) + 16384 * d, c.Skip(3))
            else if c.length < 3 then (-2, c.Skip(3))
            else (-1, c.Skip(4))
  {
    var (a, b, d) := (mem(c.p) as int, mem(c.p + 1) as int, mem(c.p + 2) as int);
    if a >= 128 {
      assert DecodeLength(mem, c, 1, 0) == DecodeLength(mem, c.Skip(1), 128, a - 128);
      if b >= 128 {
        assert b % 128 == b - 128;
        assert DecodeLength(mem, c.Skip(1), 128, a - 128) == DecodeLength(mem, c.Skip(2), 16384, a - 128 + (b - 128) * 128);
        if c.length >= 2 && d >= 128 {
          assert DecodeLength(mem, c.Skip(2), 16384, a - 128 + (b - 128) * 128)
              == DecodeLength(mem, c.Skip(3), 2097152, a - 128 + (b - 128) * 128 + (d - 128) * 16384);
        }
      }
    }
  }

  /** What the head byte selects. A packet whose Remaining Length is not what is left is not looked at. */
  lemma PacketTypes(s: Server, mem: Mem, length: int)
    ensures var t := s.(idleSec := 0);
            var (bodyLength, c) := DecodeLength(mem, Cursor(1, length - 1), 1, 0);
            var head := mem(0) as int;
            Received(s, mem, length) ==
            if length < 2 || bodyLength != c.length then (t, -1)
            else if 0x10 <= head < 0x20 then (Connected(t, mem, c), 1)
            else if head == 0x30 then (Published(t, mem, c, 0), 1)
            else if 0x80 <= head < 0x90 then (Subscribed(t, mem, c), 1)
            else if 0xA0 <= head < 0xB0 then (Unsubscribed(t, mem, c), 1)
            else if 0xC0 <= head < 0xD0 then (t.With(PingResp), 1)
            else if 0xE0 <= head < 0xF0 then (t.With(DisconnectService(s.clientName)).(alive := false), 1)
            else (t, 1)
  {
  }

  /** The head byte holds the packet type in its upper half and the flags in its lower one. */
  lemma PackIs(packetType: nat, body: seq<Byte>, flags: nat)
    requires packetType < 16 && flags < 16
    ensures var r := Packet(packetType, body, flags);
            r[0] as int == 16 * packetType + flags && r[1..] == LengthBytes(|body|) + body
  {
    var head := packetType * 16 + flags;
    InByte(head);
    Behind(head % 256, LengthBytes(|body|), body);
  }

  lemma InByte(n: nat)
    requires n < 256
    ensures n % 256 == n
  {
  }

  lemma Behind(head: Byte, a: seq<Byte>, b: seq<Byte>)
    ensures ([head] + a + b)[0] == head && ([head] + a + b)[1..] == a + b
  {
    assert [head] + a + b == [head] + (a + b);
  }

  /** Encodings of the Remaining Length from table 2.4 of MQTT 3.1.1. */
  lemma LengthAnswers()
    ensures LengthBytes(0) == [0] && LengthBytes(127) == [0x7F]
    ensures LengthBytes(128) == [0x80, 0x01] && LengthBytes(16383) == [0xFF, 0x7F]
    ensures LengthBytes(16384) == [0x80, 0x80, 0x01] && LengthBytes(2097151) == [0xFF, 0xFF, 0x7F]
    ensures LengthBytes(2097152) == [0x80, 0x80, 0x80, 0x01] && LengthBytes(268435455) == [0xFF, 0xFF, 0xFF, 0x7F]
  {
    assert LengthBytes(127) == [0x7F] && LengthBytes(1) == [1];
    assert LengthBytes(16383) == [0xFF] + LengthBytes(127) && LengthBytes(128) == [0x80] + LengthBytes(1);
    assert LengthBytes(2097151) == [0xFF] + LengthBytes(16383) && LengthBytes(16384) == [0x80] + LengthBytes(128);
    assert LengthBytes(268435455) == [0xFF] + LengthBytes(2097151) && LengthBytes(2097152) == [0x80] + LengthBytes(16384);
  }

  /** CONNECT of client "a", user "b" and password "c" with a keep-alive of 60 seconds. */
  lemma ConnectAnswer()
    ensures Packet(CONNECT, ConnectBody([97], [98], [99], 60), 0) ==
            [0x10, 19, 0, 4, 77, 81, 84, 84, 4, 0xC2, 0, 60, 0, 1, 97, 0, 1, 98, 0, 1, 99]
  {
    ConnectHeadAnswer();
    NamesAnswer();
    ShortPacket(CONNECT, [0, 4, 77, 81, 84, 84, 4, 0xC2, 0, 60] + [0, 1, 97, 0, 1, 98, 0, 1, 99]);
  }

  lemma ShortPacket(packetType: nat, body: seq<Byte>)
    requires packetType < 16 && |body| < 128
    ensures Packet(packetType, body, 0) == [packetType * 16, |body|] + body
  {
    PackIs(packetType, body, 0);
    var r := Packet(packetType, body, 0);
    assert r == [r[0]] + r[1..] && LengthBytes(|body|) == [|body|];
  }

  lemma ConnectHeadAnswer()
    ensures ConnectHead(60) == [0, 4, 77, 81, 84, 84, 4, 0xC2, 0, 60]
  {
    CStringWholeIff(PROTOCOL);
    assert ShortBytes(60) == [0, 60] && StrBytes(PROTOCOL) == [0, 4] + PROTOCOL;
  }

  lemma NamesAnswer()
    ensures ConnectNames([97], [98], [99]) == [0, 1, 97, 0, 1, 98, 0, 1, 99]
  {
    OneByte(97);
    OneByte(98);
    OneByte(99);
  }

  lemma OneByte(b: Byte)
    requires b != 0
    ensures StrBytes([b]) == [0, 1, b]
  {
    assert CString([b]) == [b] + CString([b][1..]) == [b];
  }

  /** PUBLISH of "hi" to "a". */
  lemma PublishAnswer()
    ensures Packet(PUBLISH, PublishBody([97], [104, 105]), 0) == [0x30, 5, 0, 1, 97, 104, 105]
  {
    OneByte(97);
    assert PublishBody([97], [104, 105]) == [0, 1, 97, 104, 105];
    assert LengthBytes(5) == [5];
  }

  /** SUBSCRIBE and UNSUBSCRIBE to "a" with identifier 10. */
  lemma OtherAnswers()
    ensures Packet(SUBSCRIBE, SubscribeBody([[97]], 10), 0) == [0x80, 6, 0, 10, 0, 1, 97, 0]
    ensures Packet(UNSUBSCRIBE, UnsubscribeBody([[97]], 10), 0) == [0xA0, 5, 0, 10, 0, 1, 97]
  {
    OneByte(97);
    assert [[97]][1..] == [];
    assert TopicBytes([[97]], [0]) == [0, 1, 97, 0] && TopicBytes([[97]], []) == [0, 1, 97];
    assert SubscribeBody([[97]], 10) == [0, 10, 0, 1, 97, 0] && UnsubscribeBody([[97]], 10) == [0, 10, 0, 1, 97];
    assert LengthBytes(5) == [5] && LengthBytes(6) == [6];
  }
}
