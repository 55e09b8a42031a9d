/**
 The MQTT links of xframe/facility/psamqtt/mqttlink.C: the packets the client link sends, and what the
 server link makes of a packet handed to msgParse.
 */
module MqttLink {
  import opened Bytes
  import opened Wrappers
  import opened MqttMsg

  const CONNECT := 1
  const PUBLISH := 3
  const SUBSCRIBE := 8
  const UNSUBSCRIBE := 10
  const PINGREQ := 12
  const DISCONNECT := 14

  const PROTOCOL: seq<Byte> := [77, 81, 84, 84]   // "MQTT"

  /** What a link hands on: services invoked for the application, and answers sent to the peer. */
  datatype Event =
    | ConnectService(clientName: seq<Byte>, userName: seq<Byte>, password: seq<Byte>)
    | PublishService(clientName: seq<Byte>, topic: seq<Byte>, content: seq<Byte>)
    | SubscribeService(clientName: seq<Byte>, msgId: int, topics: seq<seq<Byte>>)
    | UnsubscribeService(clientName: seq<Byte>, msgId: int, topics: seq<seq<Byte>>)
    | DisconnectService(clientName: seq<Byte>)
    | ConnAckRefusal
    | PingResp
    | NegativeCopy   // a content of negative length: the copy is undefined in C

  datatype Server = Server(keepAlive: int, idleSec: int, alive: bool, clientName: seq<Byte>, events: seq<Event>)
  {
    function With(e: Event): Server { this.(events := events + [e]) }
  }

  // The packets.

  function ConnectHead(keepAlive: int): seq<Byte> {
    StrBytes(PROTOCOL) + ([4, 0xC2] + ShortBytes(keepAlive))
  }

  function ConnectNames(name: seq<Byte>, user: seq<Byte>, passwd: seq<Byte>): seq<Byte> {
    StrBytes(name) + (StrBytes(user) + StrBytes(passwd))
  }

  function ConnectBody(name: seq<Byte>, user: seq<Byte>, passwd: seq<Byte>, keepAlive: int): seq<Byte> {
    ConnectHead(keepAlive) + ConnectNames(name, user, passwd)
  }

  function PublishBody(topic: seq<Byte>, content: seq<Byte>): seq<Byte> { StrBytes(topic) + content }

  /** Topics as they are sent, each followed by `tail`: a QoS byte of 0 or nothing. */
  function TopicBytes(topics: seq<seq<Byte>>, tail: seq<Byte>): seq<Byte> {
    if topics == [] then [] else StrBytes(topics[0]) + (tail + TopicBytes(topics[1..], tail))
  }

  function SubscribeBody(topics: seq<seq<Byte>>, packetId: int): seq<Byte> {
    ShortBytes(packetId) + TopicBytes(topics, [0])
  }

  function UnsubscribeBody(topics: seq<seq<Byte>>, packetId: int): seq<Byte> {
    ShortBytes(packetId) + TopicBytes(topics, [])
  }

  class ClientLink {
    var keepAlive: int
    var sent: seq<seq<Byte>>

    constructor ()
      ensures keepAlive == 0 && sent == []
    {
      keepAlive, sent := 0, [];
    }

    method SendPacket(packet: seq<Byte>)
      modifies this`sent
      ensures sent == old(sent) + [packet]
    {
      sent := sent + [packet];
    }

    method SendConnect(name: seq<Byte>, user: seq<Byte>, passwd: seq<Byte>, keepAlive: int)
      modifies this
      ensures this.keepAlive == keepAlive
      ensures sent == old(sent) + [Packet(CONNECT, ConnectBody(name, user, passwd, keepAlive), 0)]
    {
      this.keepAlive := keepAlive;
      var body := AppendProtocol(keepAlive);
      body := AppendNames(body, name, user, passwd);
      assert body == ConnectBody(name, user, passwd, keepAlive);
      var msg := Pack([], CONNECT, body, 0);
      assert msg == Packet(CONNECT, body, 0);
      SendPacket(msg);
    }

    method AppendProtocol(keepAlive: int) returns (body: seq<Byte>)
      ensures body == ConnectHead(keepAlive)
    {
      body := AppendStr([], PROTOCOL);
      body := body + [4];
      body := body + [0xC2];
      body := AppendShort(body, keepAlive);
    }

    method AppendNames(msg: seq<Byte>, name: seq<Byte>, user: seq<Byte>, passwd: seq<Byte>) returns (r: seq<Byte>)
      ensures r == msg + ConnectNames(name, user, passwd)
    {
      r := AppendStr(msg, name);
      r := AppendStr(r, user);
      r := AppendStr(r, passwd);
    }

    method SendPublish(topic: seq<Byte>, content: seq<Byte>)
      modifies this`sent
      ensures sent == old(sent) + [Packet(PUBLISH, PublishBody(topic, content), 0)]
    {
      var body := AppendStr([], topic);
      body := body + content;
      assert body == PublishBody(topic, content);
      var msg := Pack([], PUBLISH, body, 0);
      assert msg == Packet(PUBLISH, body, 0);
      SendPacket(msg);
    }

    method SendSubscribe(topics: seq<seq<Byte>>, packetId: int)
      modifies this`sent
      ensures sent == old(sent) + [Packet(SUBSCRIBE, SubscribeBody(topics, packetId), 0)]
    {
      var body := AppendShort([], packetId);
      var i := 0;
      while i < |topics|
        invariant i <= |topics|
        invariant body + TopicBytes(topics[i..], [0]) == SubscribeBody(topics, packetId)
        invariant sent == old(sent)
      {
        assert topics[i..][1..] == topics[i + 1..];
        body := AppendStr(body, topics[i]);
        body := body + [0];
        i := i + 1;
      }
      assert body == SubscribeBody(topics, packetId);
      var msg := Pack([], SUBSCRIBE, body, 0);
      assert msg == Packet(SUBSCRIBE, body, 0);
      SendPacket(msg);
    }

    method SendUnsubscribe(topics: seq<seq<Byte>>, packetId: int)
      modifies this`sent
      ensures sent == old(sent) + [Packet(UNSUBSCRIBE, UnsubscribeBody(topics, packetId), 0)]
    {
      var body := AppendShort([], packetId);
      var i := 0;
      while i < |topics|
        invariant i <= |topics|
        invariant body + TopicBytes(topics[i..], []) == UnsubscribeBody(topics, packetId)
        invariant sent == old(sent)
      {
        assert topics[i..][1..] == topics[i + 1..];
        body := AppendStr(body, topics[i]);
        i := i + 1;
      }
      assert body == UnsubscribeBody(topics, packetId);
      var msg := Pack([], UNSUBSCRIBE, body, 0);
      assert msg == Packet(UNSUBSCRIBE, body, 0);
      SendPacket(msg);
    }
  }

  // The server link.

  predicate HasWill(flags: int) { flags / 4 % 2 == 1 }

  predicate HasUserName(flags: int) { flags / 128 % 2 == 1 }

  predicate HasPassword(flags: int) { flags / 64 % 2 == 1 }

  /** The two parses of a will, skipped unless its flag is set. */
  function DecodeWill(flags: int, mem: Mem, c: Cursor): Option<Cursor> {
    if !HasWill(flags) then Some(c)
    else
      var topic := DecodeString(mem, c);
      if topic.None? then None
      else
        var message := DecodeString(mem, topic.value.rest);
        if message.None? then None else Some(message.value.rest)
  }

  function DecodeIf(present: bool, mem: Mem, c: Cursor): Option<Parsed<seq<Byte>>> {
    if present then DecodeString(mem, c) else Some(Parsed([], c))
  }

  /** Everything processConnect reads behind the client's name. */
  function ConnectTail(s: Server, protocolOk: bool, flags: int, mem: Mem, c: Cursor): Server {
    var will := DecodeWill(flags, mem, c);
    if will.None? then s
    else
      var user := DecodeIf(HasUserName(flags), mem, will.value);
      if user.None? then s
      else
        var passwd := DecodeIf(HasPassword(flags), mem, user.value.rest);
        if passwd.None? then s
        else if !protocolOk then s.With(ConnAckRefusal)
        else s.With(ConnectService(s.clientName, user.value.value, passwd.value.value)).(alive := true)
  }

  function Connected(s: Server, mem: Mem, c: Cursor): Server {
    var protocol := DecodeString(mem, c);
    if protocol.None? then s
    else
      var level := DecodeByte(mem, protocol.value.rest);
      if level.None? then s
      else
        var flags := DecodeByte(mem, level.value.rest);
        if flags.None? then s
        else
          var keepAlive := DecodeShort(mem, flags.value.rest);
          if keepAlive.None? then s
          else
            var t := s.(keepAlive := keepAlive.value.value);
            var name := DecodeString(mem, keepAlive.value.rest);
            if name.None? then t
            else
              ConnectTail(t.(clientName := name.value.value), CString(protocol.value.value) == PROTOCOL && level.value.value == 4,
                          flags.value.value, mem, name.value.rest)
  }

  function Published(s: Server, mem: Mem, c: Cursor, flags: int): Server {
    if flags != 0 then s
    else
      var topic := DecodeString(mem, c);
      if topic.None? then s
      else
        var rest := topic.value.rest;
        if rest.length < 0 then s.With(NegativeCopy)
        else s.With(PublishService(s.clientName, topic.value.value, Slice(mem, rest.p, rest.length)))
  }

  /** The topics of a subscription, each with a QoS byte or not, to the end of the message. */
  function Topics(mem: Mem, c: Cursor, qos: bool): Option<seq<seq<Byte>>>
    decreases c.length
  {
    if c.length <= 0 then Some([])
    else
      var topic := DecodeString(mem, c);
      if topic.None? then None
      else if qos && topic.value.rest.length < 1 then None
      else
        var more := Topics(mem, if qos then topic.value.rest.Skip(1) else topic.value.rest, qos);
        if more.None? then None else Some([topic.value.value] + more.value)
  }

  function Subscribed(s: Server, mem: Mem, c: Cursor): Server {
    var id := DecodeShort(mem, c);
    if id.None? then s
    else
      var topics := Topics(mem, id.value.rest, true);
      if topics.None? then s else s.With(SubscribeService(s.clientName, id.value.value, topics.value))
  }

  function Unsubscribed(s: Server, mem: Mem, c: Cursor): Server {
    var id := DecodeShort(mem, c);
    if id.None? then s
    else
      var topics := Topics(mem, id.value.rest, false);
      if topics.None? then s else s.With(UnsubscribeService(s.clientName, id.value.value, topics.value))
  }

  function Processed(s: Server, packetType: int, flags: int, mem: Mem, c: Cursor): Server {
    if packetType == CONNECT then Connected(s, mem, c)
    else if packetType == PUBLISH then Published(s, mem, c, flags)
    else if packetType == SUBSCRIBE then Subscribed(s, mem, c)
    else if packetType == UNSUBSCRIBE then Unsubscribed(s, mem, c)
    else if packetType == PINGREQ then s.With(PingResp)
    else if packetType == DISCONNECT then s.With(DisconnectService(s.clientName)).(alive := false)
    else s
  }

  function Received(s: Server, mem: Mem, length: int): (Server, int) {
    var t := s.(idleSec := 0);
    if length < 2 then (t, -1)
    else
      var (bodyLength, c) := DecodeLength(mem, Cursor(1, length - 1), 1, 0);
      if bodyLength != c.length then (t, -1)
      else
        var head: int := mem(0);
        (Processed(t, head / 16, head % 16, mem, c), 1)
  }

  method ParseByte(mem: Mem, start: Cursor) returns (ok: bool, value: int, c: Cursor)
    ensures ok <==> DecodeByte(mem, start).Some?
    ensures ok ==> DecodeByte(mem, start) == Some(Parsed(value, c))
  {
    value, c := 0, start;
    if c.length < 1 {
      return false, value, c;
    }
    ok, value, c := true, mem(c.p), c.Skip(1);
  }

  method ParseShort(mem: Mem, start: Cursor) returns (ok: bool, value: int, c: Cursor)
    ensures ok <==> DecodeShort(mem, start).Some?
    ensures ok ==> DecodeShort(mem, start) == Some(Parsed(value, c))
  {
    value, c := 0, start;
    if c.length < 2 {
      return false, value, c;
    }
    var i := 0;
    while i < 2
      invariant 0 <= i <= 2
      invariant value == if i == 0 then 0 else if i == 1 then mem(c.p) as int
                         else (mem(c.p) as int) * 256 + mem(c.p + 1) as int
    {
      value := value * 256 + mem(c.p + i) as int;
      i := i + 1;
    }
    ok, c := true, c.Skip(2);
  }

  method ParseString(mem: Mem, start: Cursor) returns (ok: bool, value: seq<Byte>, c: Cursor)
    ensures ok <==> DecodeString(mem, start).Some?
    ensures ok ==> DecodeString(mem, start) == Some(Parsed(value, c))
  {
    var n;
    value, c := [], start;
    ok, n, c := ParseShort(mem, start);
    if !ok {
      return;
    }
    if start.length < n {
      return false, value, start;
    }
    value := Slice(mem, c.p, n);
    c := c.Skip(n);
  }

  class ServerLink {
    var keepAlive: int
    var idleSec: int
    var alive: bool
    var clientName: seq<Byte>
    var events: seq<Event>

    constructor ()
      ensures State() == Server(0, 0, false, [], [])
    {
      keepAlive, idleSec, alive, clientName, events := 0, 0, false, [], [];
    }

    ghost function State(): Server
      reads this
    {
      Server(keepAlive, idleSec, alive, clientName, events)
    }

    method InvokeService(e: Event)
      modifies this`events
      ensures events == old(events) + [e]
    {
      events := events + [e];
    }

    /** processConnect behind the client's name. */
    method ProcessConnectTail(protocolOk: bool, flags: int, mem: Mem, start: Cursor)
      modifies this
      ensures State() == ConnectTail(old(State()), protocolOk, flags, mem, start)
    {
      var c := start;
      var ok, userName, password := true, [], [];
      if HasWill(flags) {
        var will;
        ok, will, c := ParseString(mem, c);
        if !ok { return; }
        ok, will, c := ParseString(mem, c);
        if !ok { return; }
      }
      if HasUserName(flags) {
        ok, userName, c := ParseString(mem, c);
        if !ok { return; }
      }
      if HasPassword(flags) {
        ok, password, c := ParseString(mem, c);
        if !ok { return; }
      }
      if !protocolOk {
        InvokeService(ConnAckRefusal);
        return;
      }
      InvokeService(ConnectService(clientName, userName, password));
      alive := true;
    }

    method ProcessConnect(mem: Mem, start: Cursor)
      modifies this
      ensures State() == Connected(old(State()), mem, start)
    {
      var ok, protocolName, c := ParseString(mem, start);
      if !ok { return; }
      var protocolLevel, connectFlags, interval, name;
      ok, protocolLevel, c := ParseByte(mem, c);
      if !ok { return; }
      ok, connectFlags, c := ParseByte(mem, c);
      if !ok { return; }
      ok, interval, c := ParseShort(mem, c);
      if !ok { return; }
      keepAlive := interval;
      ok, name, c := ParseString(mem, c);
      if !ok { return; }
      clientName := name;
      ProcessConnectTail(CString(protocolName) == PROTOCOL && protocolLevel == 4, connectFlags, mem, c);
    }

    method ProcessPublish(mem: Mem, start: Cursor, flags: int)
      modifies this`events
      ensures State() == Published(old(State()), mem, start, flags)
    {
      if flags != 0 {
        return;
      }
      var ok, topicName, c := ParseString(mem, start);
      if !ok { return; }
      if c.length < 0 {
        InvokeService(NegativeCopy);
      } else {
        InvokeService(PublishService(clientName, topicName, Slice(mem, c.p, c.length)));
      }
    }

    /** The loops of processSubscribe and processUnsubscribe, which differ in the QoS byte. */
    method ParseTopics(mem: Mem, start: Cursor, qos: bool) returns (ok: bool, topics: seq<seq<Byte>>)
      ensures ok <==> Topics(mem, start, qos).Some?
      ensures ok ==> topics == Topics(mem, start, qos).value
    {
      topics := [];
      var c := start;
      while c.length > 0
        invariant Topics(mem, start, qos).Some? <==> Topics(mem, c, qos).Some?
        invariant Topics(mem, c, qos).Some? ==> topics + Topics(mem, c, qos).value == Topics(mem, start, qos).value
        decreases c.length
      {
        var topic, quality;
        ok, topic, c := ParseString(mem, c);
        if !ok { return; }
        if qos {
          ok, quality, c := ParseByte(mem, c);
          if !ok { return; }
        }
        topics := topics + [topic];
      }
      ok := true;
    }

    method ProcessSubscribe(mem: Mem, start: Cursor)
      modifies this`events
      ensures State() == Subscribed(old(State()), mem, start)
    {
      var topics;
      var ok, packetId, c := ParseShort(mem, start);
      if !ok { return; }
      ok, topics := ParseTopics(mem, c, true);
      if !ok { return; }
      InvokeService(SubscribeService(clientName, packetId, topics));
    }

    method ProcessUnsubscribe(mem: Mem, start: Cursor)
      modifies this`events
      ensures State() == Unsubscribed(old(State()), mem, start)
    {
      var topics;
      var ok, packetId, c := ParseShort(mem, start);
      if !ok { return; }
      ok, topics := ParseTopics(mem, c, false);
      if !ok { return; }
      InvokeService(UnsubscribeService(clientName, packetId, topics));
    }

    method MsgProcess(packetType: int, flags: int, mem: Mem, c: Cursor)
      modifies this
      ensures State() == Processed(old(State()), packetType, flags, mem, c)
    {
      if packetType == CONNECT {
        ProcessConnect(mem, c);
      } else if packetType == PUBLISH {
        ProcessPublish(mem, c, flags);
      } else if packetType == SUBSCRIBE {
        ProcessSubscribe(mem, c);
      } else if packetType == UNSUBSCRIBE {
        ProcessUnsubscribe(mem, c);
      } else if packetType == PINGREQ {
        InvokeService(PingResp);
      } else if packetType == DISCONNECT {
        InvokeService(DisconnectService(clientName));
        alive := false;
      }
    }

    method MsgParse(mem: Mem, length: int) returns (r: int)
      modifies this
      ensures (State(), r) == Received(old(State()), mem, length)
    {
      idleSec := 0;
      if length < 2 {
        return -1;
      }
      var headByte: int := mem(0);
      var bodyLength, c := ParseLength(mem, Cursor(1, length - 1));
      if bodyLength != c.length {
        return -1;
      }
      MsgProcess(headByte / 16, headByte % 16, mem, c);
      r := 1;
    }
  }

  // What the server link makes of the packets the client link sends.

  /** Where a packet's body lies. */
  function BodyAt(body: seq<Byte>): Cursor { Cursor(1 + |LengthBytes(|body|)|, |body|) }

  lemma HeldApart(mem: Mem, head: Byte, a: seq<Byte>, b: seq<Byte>)
    requires Holds(mem, 0, [head] + a + b)
    ensures mem(0) == head && Holds(mem, 1, a) && Holds(mem, 1 + |a|, b)
  {
    HoldsSplit(mem, 0, [head] + a, b);
    HoldsSplit(mem, 0, [head], a);
  }

  lemma HeadByte(packetType: nat)
    requires packetType < 16
    ensures (packetType * 16 + 0) % 256 == packetType * 16
  {
  }

  lemma HeadHeld(mem: Mem, packetType: nat, body: seq<Byte>)
    requires packetType < 16 && Holds(mem, 0, Packet(packetType, body, 0))
    ensures mem(0) == packetType * 16
  {
    HeadByte(packetType);
    HeldApart(mem, (packetType * 16 + 0) % 256, LengthBytes(|body|), body);
  }

  lemma LengthHeld(mem: Mem, packetType: nat, body: seq<Byte>)
    requires Holds(mem, 0, Packet(packetType, body, 0))
    ensures Holds(mem, 1, LengthBytes(|body|))
  {
    HeldApart(mem, (packetType * 16 + 0) % 256, LengthBytes(|body|), body);
  }

  lemma BodyHeld(mem: Mem, packetType: nat, body: seq<Byte>)
    requires Holds(mem, 0, Packet(packetType, body, 0))
    ensures Holds(mem, BodyAt(body).p, body)
  {
    HeldApart(mem, (packetType * 16 + 0) % 256, LengthBytes(|body|), body);
  }

  lemma ReceivedWhen(s: Server, mem: Mem, length: int, packetType: nat, bodyLength: int, c: Cursor)
    requires length >= 2 && mem(0) == packetType * 16
    requires DecodeLength(mem, Cursor(1, length - 1), 1, 0) == (bodyLength, c)
    ensures Received(s, mem, length) ==
            if bodyLength == c.length then (Processed(s.(idleSec := 0), packetType, 0, mem, c), 1)
            else (s.(idleSec := 0), -1)
  {
  }

  lemma BodyFound(s: Server, mem: Mem, packetType: nat, body: seq<Byte>)
    requires packetType < 16 && Holds(mem, 0, Packet(packetType, body, 0))
    ensures var t := s.(idleSec := 0);
            Received(s, mem, |Packet(packetType, body, 0)|) ==
            if |body| < 2097152 then (Processed(t, packetType, 0, mem, BodyAt(body)), 1) else (t, -1)
  {
    HeadHeld(mem, packetType, body);
    LengthHeld(mem, packetType, body);
    var bytes := LengthBytes(|body|);
    var c := Cursor(1, |bytes| + |body|);
    LengthBack(mem, c, |body|);
    var (bodyLength, d) := DecodeLength(mem, c, 1, 0);
    ReceivedWhen(s, mem, 1 + |bytes| + |body|, packetType, bodyLength, d);
  }

  /** Shorter than the two-byte length can say. */
  predicate Short(s: seq<Byte>) { |CString(s)| < 65536 }

  lemma StringBack(mem: Mem, c: Cursor, str: seq<Byte>, rest: seq<Byte>)
    requires Holds(mem, c.p, StrBytes(str) + rest) && c.length == |StrBytes(str)| + |rest| && Short(str)
    ensures DecodeString(mem, c) == Some(Parsed(CString(str), Cursor(c.p + |StrBytes(str)|, |rest|)))
    ensures Holds(mem, c.p + |StrBytes(str)|, rest)
  {
    HoldsSplit(mem, c.p, StrBytes(str), rest);
    StringBackIff(mem, c, str);
  }

  /** CONNECT. */
  lemma ConnectDelivered(s: Server, mem: Mem, name: seq<Byte>, user: seq<Byte>, passwd: seq<Byte>, keepAlive: int)
    requires Short(name) && Short(user) && Short(passwd)
    requires Holds(mem, 0, Packet(CONNECT, ConnectBody(name, user, passwd, keepAlive), 0))
    ensures Received(s, mem, |Packet(CONNECT, ConnectBody(name, user, passwd, keepAlive), 0)|) ==
            (Server(keepAlive % 65536, 0, true, CString(name),
                    s.events + [ConnectService(CString(name), CString(user), CString(passwd))]), 1)
  {
    var body := ConnectBody(name, user, passwd, keepAlive);
    ConnectIsShort(name, user, passwd, keepAlive);
    BodyHeld(mem, CONNECT, body);
    ConnectBack(s.(idleSec := 0), mem, BodyAt(body), name, user, passwd, keepAlive, StrBytes(user) + StrBytes(passwd));
    ConnectReceived(s, mem, body);
  }

  lemma ConnectReceived(s: Server, mem: Mem, body: seq<Byte>)
    requires Holds(mem, 0, Packet(CONNECT, body, 0)) && |body| < 2097152
    ensures Received(s, mem, |Packet(CONNECT, body, 0)|) == (Connected(s.(idleSec := 0), mem, BodyAt(body)), 1)
  {
    BodyFound(s, mem, CONNECT, body);
  }

  lemma ConnectIsShort(name: seq<Byte>, user: seq<Byte>, passwd: seq<Byte>, keepAlive: int)
    requires Short(name) && Short(user) && Short(passwd)
    ensures |ConnectBody(name, user, passwd, keepAlive)| < 2097152
  {
    CStringWholeIff(PROTOCOL);
    assert |StrBytes(PROTOCOL)| == 6;
  }

  lemma ConnectBack(s: Server, mem: Mem, c: Cursor, name: seq<Byte>, user: seq<Byte>, passwd: seq<Byte>, keepAlive: int,
                    tail: seq<Byte>)
    requires Short(name) && Short(user) && Short(passwd)
    requires tail == StrBytes(user) + StrBytes(passwd)
    requires Holds(mem, c.p, ConnectHead(keepAlive) + (StrBytes(name) + tail))
    requires c.length == |ConnectHead(keepAlive) + (StrBytes(name) + tail)|
    ensures Connected(s, mem, c) ==
            Server(keepAlive % 65536, s.idleSec, true, CString(name),
                   s.events + [ConnectService(CString(name), CString(user), CString(passwd))])
  {
    var d := HeadBack(mem, c, keepAlive, StrBytes(name) + tail);
    var e := NameBack(mem, d.Skip(4), name, tail);
    ConnectedWhen(s, mem, c, d, keepAlive % 65536, CString(name), e, user, passwd);
  }

  lemma NameBack(mem: Mem, c: Cursor, name: seq<Byte>, rest: seq<Byte>) returns (e: Cursor)
    requires Holds(mem, c.p, StrBytes(name) + rest) && c.length == |StrBytes(name) + rest| && Short(name)
    ensures DecodeString(mem, c) == Some(Parsed(CString(name), e))
    ensures e.length == |rest| && Holds(mem, e.p, rest)
  {
    StringBack(mem, c, name, rest);
    e := c.Skip(|StrBytes(name)|);
  }

  /** From what the single parses answer; `d` is behind the protocol name, `e` behind the client's. */
  lemma ConnectedWhen(s: Server, mem: Mem, c: Cursor, d: Cursor, keepAlive: int, name: seq<Byte>, e: Cursor,
                      user: seq<Byte>, passwd: seq<Byte>)
    requires DecodeString(mem, c) == Some(Parsed(PROTOCOL, d))
    requires DecodeByte(mem, d) == Some(Parsed(4, d.Skip(1))) && DecodeByte(mem, d.Skip(1)) == Some(Parsed(0xC2, d.Skip(2)))
    requires DecodeShort(mem, d.Skip(2)) == Some(Parsed(keepAlive, d.Skip(4)))
    requires DecodeString(mem, d.Skip(4)) == Some(Parsed(name, e))
    requires Short(user) && Short(passwd)
    requires Holds(mem, e.p, StrBytes(user) + StrBytes(passwd)) && e.length == |StrBytes(user) + StrBytes(passwd)|
    ensures Connected(s, mem, c) ==
            Server(keepAlive, s.idleSec, true, name, s.events + [ConnectService(name, CString(user), CString(passwd))])
  {
    CStringWholeIff(PROTOCOL);
    NamesBack(s.(keepAlive := keepAlive, clientName := name), mem, e, user, passwd);
  }

  lemma HeadBack(mem: Mem, c: Cursor, keepAlive: int, rest: seq<Byte>) returns (d: Cursor)
    requires Holds(mem, c.p, ConnectHead(keepAlive) + rest) && c.length == |ConnectHead(keepAlive) + rest|
    ensures DecodeString(mem, c) == Some(Parsed(PROTOCOL, d))
    ensures DecodeByte(mem, d) == Some(Parsed(4, d.Skip(1))) && DecodeByte(mem, d.Skip(1)) == Some(Parsed(0xC2, d.Skip(2)))
    ensures DecodeShort(mem, d.Skip(2)) == Some(Parsed(keepAlive % 65536, d.Skip(4)))
    ensures d.length == 4 + |rest| && Holds(mem, d.p + 4, rest)
  {
    var fixed: seq<Byte> := [4, 0xC2];
    var tail := ShortBytes(keepAlive) + rest;
    CStringWholeIff(PROTOCOL);
    assert ConnectHead(keepAlive) + rest == StrBytes(PROTOCOL) + (fixed + tail);
    d := NameBack(mem, c, PROTOCOL, fixed + tail);
    FixedBack(mem, d, fixed, keepAlive, rest);
  }

  lemma FixedBack(mem: Mem, d: Cursor, fixed: seq<Byte>, keepAlive: int, rest: seq<Byte>)
    requires fixed == [4, 0xC2] && Holds(mem, d.p, fixed + (ShortBytes(keepAlive) + rest)) && d.length == 4 + |rest|
    ensures DecodeByte(mem, d) == Some(Parsed(4, d.Skip(1))) && DecodeByte(mem, d.Skip(1)) == Some(Parsed(0xC2, d.Skip(2)))
    ensures DecodeShort(mem, d.Skip(2)) == Some(Parsed(keepAlive % 65536, d.Skip(4)))
    ensures Holds(mem, d.p + 4, rest)
  {
    HoldsSplit(mem, d.p, fixed, ShortBytes(keepAlive) + rest);
    TwoHeld(mem, d.p, 4, 0xC2);
    HoldsSplit(mem, d.p + 2, ShortBytes(keepAlive), rest);
    ShortBack(mem, d.Skip(2), keepAlive);
  }

  lemma NamesBack(s: Server, mem: Mem, c: Cursor, user: seq<Byte>, passwd: seq<Byte>)
    requires Short(user) && Short(passwd)
    requires Holds(mem, c.p, StrBytes(user) + StrBytes(passwd)) && c.length == |StrBytes(user) + StrBytes(passwd)|
    ensures ConnectTail(s, true, 0xC2, mem, c) ==
            s.With(ConnectService(s.clientName, CString(user), CString(passwd))).(alive := true)
  {
    StringBack(mem, c, user, StrBytes(passwd));
    var d := Cursor(c.p + |StrBytes(user)|, |StrBytes(passwd)|);
    assert StrBytes(passwd) + [] == StrBytes(passwd);
    StringBack(mem, d, passwd, []);
    ConnectTailWhen(s, mem, c, CString(user), d, CString(passwd), Cursor(d.p + |StrBytes(passwd)|, 0));
  }

  lemma ConnectTailWhen(s: Server, mem: Mem, c: Cursor, user: seq<Byte>, d: Cursor, passwd: seq<Byte>, e: Cursor)
    requires DecodeString(mem, c) == Some(Parsed(user, d)) && DecodeString(mem, d) == Some(Parsed(passwd, e))
    ensures ConnectTail(s, true, 0xC2, mem, c) == s.With(ConnectService(s.clientName, user, passwd)).(alive := true)
  {
    assert !HasWill(0xC2) && HasUserName(0xC2) && HasPassword(0xC2);
  }

  /** PUBLISH: delivered exactly when the body's length can be read back. */
  lemma PublishDelivered(s: Server, mem: Mem, topic: seq<Byte>, content: seq<Byte>)
    requires Short(topic) && Holds(mem, 0, Packet(PUBLISH, PublishBody(topic, content), 0))
    ensures Received(s, mem, |Packet(PUBLISH, PublishBody(topic, content), 0)|) ==
            var t := s.(idleSec := 0);
            if |PublishBody(topic, content)| < 2097152
            then (t.With(PublishService(s.clientName, CString(topic), content)), 1) else (t, -1)
  {
    var body := PublishBody(topic, content);
    BodyFound(s, mem, PUBLISH, body);
    BodyHeld(mem, PUBLISH, body);
    PublishBack(s.(idleSec := 0), mem, BodyAt(body), topic, content);
  }

  lemma PublishBack(s: Server, mem: Mem, c: Cursor, topic: seq<Byte>, content: seq<Byte>)
    requires Short(topic) && Holds(mem, c.p, StrBytes(topic) + content) && c.length == |StrBytes(topic)| + |content|
    ensures Published(s, mem, c, 0) == s.With(PublishService(s.clientName, CString(topic), content))
  {
    var d := NameBack(mem, c, topic, content);
    SliceIsHeld(mem, d.p, content);
  }

  function CStrings(topics: seq<seq<Byte>>): (r: seq<seq<Byte>>)
    ensures |r| == |topics| && forall i :: 0 <= i < |r| ==> r[i] == CString(topics[i])
  {
    if topics == [] then [] else [CString(topics[0])] + CStrings(topics[1..])
  }

  lemma {:induction false} TopicsBack(mem: Mem, c: Cursor, topics: seq<seq<Byte>>, qos: bool, tail: seq<Byte>)
    requires forall i :: 0 <= i < |topics| ==> Short(topics[i])
    requires tail == if qos then [0] else []
    requires Holds(mem, c.p, TopicBytes(topics, tail)) && c.length == |TopicBytes(topics, tail)|
    ensures Topics(mem, c, qos) == Some(CStrings(topics))
    decreases |topics|
  {
    if topics != [] {
      var more := TopicBytes(topics[1..], tail);
      StringBack(mem, c, topics[0], tail + more);
      var d := c.Skip(|StrBytes(topics[0])|);
      HoldsSplit(mem, d.p, tail, more);
      TopicsBack(mem, d.Skip(|tail|), topics[1..], qos, tail);
    }
  }

  /** SUBSCRIBE, with any number of topics. */
  lemma SubscribeDelivered(s: Server, mem: Mem, topics: seq<seq<Byte>>, packetId: int)
    requires forall i :: 0 <= i < |topics| ==> Short(topics[i])
    requires Holds(mem, 0, Packet(SUBSCRIBE, SubscribeBody(topics, packetId), 0))
    ensures Received(s, mem, |Packet(SUBSCRIBE, SubscribeBody(topics, packetId), 0)|) ==
            var t := s.(idleSec := 0);
            if |SubscribeBody(topics, packetId)| < 2097152
            then (t.With(SubscribeService(s.clientName, packetId % 65536, CStrings(topics))), 1) else (t, -1)
  {
    var body := SubscribeBody(topics, packetId);
    BodyFound(s, mem, SUBSCRIBE, body);
    BodyHeld(mem, SUBSCRIBE, body);
    SubscribeBack(s.(idleSec := 0), mem, BodyAt(body), topics, packetId);
  }

  lemma SubscribeBack(s: Server, mem: Mem, c: Cursor, topics: seq<seq<Byte>>, packetId: int)
    requires forall i :: 0 <= i < |topics| ==> Short(topics[i])
    requires Holds(mem, c.p, SubscribeBody(topics, packetId)) && c.length == |SubscribeBody(topics, packetId)|
    ensures Subscribed(s, mem, c) == s.With(SubscribeService(s.clientName, packetId % 65536, CStrings(topics)))
  {
    HoldsSplit(mem, c.p, ShortBytes(packetId), TopicBytes(topics, [0]));
    ShortBack(mem, c, packetId);
    TopicsBack(mem, c.Skip(2), topics, true, [0]);
  }

  /** UNSUBSCRIBE, with any number of topics. */
  lemma UnsubscribeDelivered(s: Server, mem: Mem, topics: seq<seq<Byte>>, packetId: int)
    requires forall i :: 0 <= i < |topics| ==> Short(topics[i])
    requires Holds(mem, 0, Packet(UNSUBSCRIBE, UnsubscribeBody(topics, packetId), 0))
    ensures Received(s, mem, |Packet(UNSUBSCRIBE, UnsubscribeBody(topics, packetId), 0)|) ==
            var t := s.(idleSec := 0);
            if |UnsubscribeBody(topics, packetId)| < 2097152
            then (t.With(UnsubscribeService(s.clientName, packetId % 65536, CStrings(topics))), 1) else (t, -1)
  {
    var body := UnsubscribeBody(topics, packetId);
    BodyFound(s, mem, UNSUBSCRIBE, body);
    BodyHeld(mem, UNSUBSCRIBE, body);
    UnsubscribeBack(s.(idleSec := 0), mem, BodyAt(body), topics, packetId);
  }

  lemma UnsubscribeBack(s: Server, mem: Mem, c: Cursor, topics: seq<seq<Byte>>, packetId: int)
    requires forall i :: 0 <= i < |topics| ==> Short(topics[i])
    requires Holds(mem, c.p, UnsubscribeBody(topics, packetId)) && c.length == |UnsubscribeBody(topics, packetId)|
    ensures Unsubscribed(s, mem, c) == s.With(UnsubscribeService(s.clientName, packetId % 65536, CStrings(topics)))
  {
    HoldsSplit(mem, c.p, ShortBytes(packetId), TopicBytes(topics, []));
    ShortBack(mem, c, packetId);
    TopicsBack(mem, c.Skip(2), topics, false, []);
  }

  // Strings that run past their packet.

  /** The two packets agree up to `end`. */
  ghost predicate SameBefore(mem: Mem, other: Mem, end: int) { forall i :: i < end ==> mem(i) == other(i) }

  function LengthAt(mem: Mem, c: Cursor): int { (mem(c.p) as int) * 256 + mem(c.p + 1) as int }

  /** Some topic of an unsubscription is longer by one or two bytes than what is left of the packet. */
  predicate TopicOverruns(mem: Mem, c: Cursor)
    decreases c.length
  {
    c.length >= 2 &&
    var n := LengthAt(mem, c);
    c.length - 2 < n <= c.length || (n <= c.length - 2 && TopicOverruns(mem, c.Skip(2 + n)))
  }

  lemma {:induction false} SliceSame(mem: Mem, other: Mem, p: int, n: nat)
    requires SameBefore(mem, other, p + n)
    ensures Slice(mem, p, n) == Slice(other, p, n)
    decreases n
  {
    if n > 0 {
      SliceSame(mem, other, p + 1, n - 1);
    }
  }

  lemma {:induction false} TopicsInside(mem: Mem, other: Mem, c: Cursor)
    requires SameBefore(mem, other, c.p + c.length) && !TopicOverruns(mem, c)
    ensures Topics(other, c, false) == Topics(mem, c, false)
    decreases c.length
  {
    if c.length >= 2 {
      var n := LengthAt(mem, c);
      if n <= c.length - 2 {
        SliceSame(mem, other, c.p + 2, n);
        TopicsInside(mem, other, c.Skip(2 + n));
      }
    }
  }

  /** Another byte at `at`, and all else as before. */
  function Altered(mem: Mem, at: int): Mem { i => if i == at then (mem(i) + 1) % 256 else mem(i) }

  lemma {:induction false} SliceDiffers(mem: Mem, p: int, n: nat, at: int)
    requires p <= at < p + n
    ensures Slice(Altered(mem, at), p, n) != Slice(mem, p, n)
    decreases n
  {
    if p < at {
      SliceDiffers(mem, p + 1, n - 1, at);
      assert Slice(mem, p, n)[1..] == Slice(mem, p + 1, n - 1);
      assert Slice(Altered(mem, at), p, n)[1..] == Slice(Altered(mem, at), p + 1, n - 1);
    } else {
      assert Slice(mem, p, n)[0] == mem(p) && Slice(Altered(mem, at), p, n)[0] == Altered(mem, at)(p);
    }
  }

  lemma {:induction false} TopicsOutside(mem: Mem, c: Cursor)
    requires TopicOverruns(mem, c)
    ensures Topics(mem, c, false).Some? ==> Topics(Altered(mem, c.p + c.length), c, false) != Topics(mem, c, false)
    ensures Topics(mem, c, false).Some?
    decreases c.length
  {
    var other := Altered(mem, c.p + c.length);
    var n := LengthAt(mem, c);
    assert LengthAt(other, c) == n;
    var rest := c.Skip(2 + n);
    if n <= c.length - 2 {
      TopicsOutside(mem, rest);
    } else {
      SliceDiffers(mem, c.p + 2, n, c.p + c.length);
    }
    TopicsStep(mem, c, n, rest);
    TopicsStep(other, c, n, rest);
    FirstAndRest(Slice(mem, c.p + 2, n), Topics(mem, rest, false), Slice(other, c.p + 2, n), Topics(other, rest, false));
  }

  lemma TopicsStep(mem: Mem, c: Cursor, n: nat, rest: Cursor)
    requires c.length >= 2 && n == LengthAt(mem, c) <= c.length && rest == c.Skip(2 + n)
    ensures var more := Topics(mem, rest, false);
            Topics(mem, c, false) == if more.None? then None else Some([Slice(mem, c.p + 2, n)] + more.value)
    ensures rest.length <= 0 ==> Topics(mem, rest, false) == Some([])
  {
  }

  lemma FirstAndRest<T>(x: T, a: Option<seq<T>>, y: T, b: Option<seq<T>>)
    requires x != y || a != b
    ensures a.Some? && b.Some? ==> [x] + a.value != [y] + b.value
  {
    if a.Some? && b.Some? {
      assert ([x] + a.value)[0] == x && ([x] + a.value)[1..] == a.value;
      assert ([y] + b.value)[0] == y && ([y] + b.value)[1..] == b.value;
    }
  }

  /**
   What the server link hands on for an UNSUBSCRIBE packet of the announced length depends on nothing
   but the packet, exactly if no topic's length runs past it.
   */
  lemma UnsubscribeInsideIff(s: Server, mem: Mem, length: nat)
    requires length >= 2 && (mem(0) as int) / 16 == UNSUBSCRIBE
    requires var (n, c) := DecodeLength(mem, Cursor(1, length - 1), 1, 0); n == c.length >= 0
    ensures var c := DecodeLength(mem, Cursor(1, length - 1), 1, 0).1;
            (forall other | SameBefore(mem, other, length) :: Received(s, other, length) == Received(s, mem, length))
            <==> !TopicOverruns(mem, c.Skip(2))
  {
    var c := DecodeLength(mem, Cursor(1, length - 1), 1, 0).1;
    LengthInside(mem, Cursor(1, length - 1), 1, 0);
    UnsubscribeReceived(s, mem, length, c);
    if TopicOverruns(mem, c.Skip(2)) {
      TopicsOutside(mem, c.Skip(2));
      var other := Altered(mem, length);
      LengthSame(mem, other, Cursor(1, length - 1), 1, 0);
      assert SameBefore(mem, other, length);
      UnsubscribeReceived(s, other, length, c);
      OtherTopics(s, Topics(mem, c.Skip(2), false).value, Topics(other, c.Skip(2), false), LengthAt(mem, c), LengthAt(other, c));
    } else {
      forall other | SameBefore(mem, other, length) ensures Received(s, other, length) == Received(s, mem, length) {
        LengthSame(mem, other, Cursor(1, length - 1), 1, 0);
        UnsubscribeReceived(s, other, length, c);
        if c.length >= 2 {
          TopicsInside(mem, other, c.Skip(2));
        }
      }
    }
  }

  lemma OtherTopics(s: Server, topics: seq<seq<Byte>>, others: Option<seq<seq<Byte>>>, id: int, otherId: int)
    requires others != Some(topics)
    ensures var t := s.(idleSec := 0).With(UnsubscribeService(s.clientName, id, topics));
            t != (if others.None? then s.(idleSec := 0)
                  else s.(idleSec := 0).With(UnsubscribeService(s.clientName, otherId, others.value)))
  {
    var e := UnsubscribeService(s.clientName, id, topics);
    assert (s.events + [e])[|s.events|] == e;
    if others.Some? {
      var f := UnsubscribeService(s.clientName, otherId, others.value);
      assert (s.events + [f])[|s.events|] == f;
    } else {
      assert |s.events + [e]| == |s.events| + 1;
    }
  }

  lemma UnsubscribeReceived(s: Server, mem: Mem, length: nat, c: Cursor)
    requires length >= 2 && (mem(0) as int) / 16 == UNSUBSCRIBE
    requires DecodeLength(mem, Cursor(1, length - 1), 1, 0) == (c.length, c)
    ensures var topics := Topics(mem, c.Skip(2), false);
            Received(s, mem, length) ==
            (if c.length < 2 || topics.None? then s.(idleSec := 0)
             else s.(idleSec := 0).With(UnsubscribeService(s.clientName, LengthAt(mem, c), topics.value)), 1)
  {
  }

  lemma {:induction false} LengthInside(mem: Mem, c: Cursor, multiplier: int, value: int)
    requires 1 <= multiplier <= 2097152
    ensures var (n, d) := DecodeLength(mem, c, multiplier, value); d.p + d.length == c.p + c.length
    decreases 268435456 - multiplier
  {
    if c.length >= 0 && multiplier * 128 <= 2097152 && mem(c.p) >= 128 {
      LengthInside(mem, c.Skip(1), multiplier * 128, value + mem(c.p) % 128 * multiplier);
    }
  }

  lemma {:induction false} LengthSame(mem: Mem, other: Mem, c: Cursor, multiplier: int, value: int)
    requires 1 <= multiplier <= 2097152 && SameBefore(mem, other, c.p + c.length)
    requires DecodeLength(mem, c, multiplier, value).1.length >= 0
    ensures DecodeLength(other, c, multiplier, value) == DecodeLength(mem, c, multiplier, value)
    decreases 268435456 - multiplier
  {
    var b: int := mem(c.p);
    if c.length >= 0 && multiplier * 128 <= 2097152 && b >= 128 {
      LengthSame(mem, other, c.Skip(1), multiplier * 128, value + b % 128 * multiplier);
    }
  }

  /** Packet identifier 1 and one topic that claims three bytes of the one that is left. */
  const OVERRUN: seq<Byte> := [160, 5, 0, 1, 0, 3, 97]

  /** The packet that fails: it is accepted, and the topic handed on ends with two bytes from behind it. */
  lemma OverrunAccepted(s: Server, mem: Mem)
    requires Holds(mem, 0, OVERRUN)
    ensures Received(s, mem, |OVERRUN|) ==
            (s.(idleSec := 0).With(UnsubscribeService(s.clientName, 1, [[97, mem(7), mem(8)]])), 1)
  {
    HoldsSplit(mem, 0, [160, 5], [0, 1, 0, 3, 97]);
    TwoHeld(mem, 0, 160, 5);
    assert [0, 1, 0, 3, 97] == [0, 1] + ([0, 3] + [97]);
    HoldsSplit(mem, 2, [0, 1], [0, 3] + [97]);
    TwoHeld(mem, 2, 0, 1);
    HoldsSplit(mem, 4, [0, 3], [97]);
    TwoHeld(mem, 4, 0, 3);
    var c := Cursor(2, 5);
    assert DecodeLength(mem, Cursor(1, 6), 1, 0) == (5, c);
    UnsubscribeReceived(s, mem, 7, c);
    assert LengthAt(mem, c) == 1 && LengthAt(mem, Cursor(4, 3)) == 3;
    assert Slice(mem, 8, 1) == [mem(8)];
    assert Slice(mem, 7, 2) == [mem(7), mem(8)];
    assert Slice(mem, 6, 3) == [97, mem(7), mem(8)];
    assert Topics(mem, Cursor(9, -2), false) == Some([]);
    assert c.Skip(2) == Cursor(4, 3) && Cursor(4, 3).Skip(5) == Cursor(9, -2);
    TopicsStep(mem, c.Skip(2), 3, Cursor(9, -2));
    assert [Slice(mem, 6, 3)] + [] == [[97, mem(7), mem(8)]];
    assert Topics(mem, c.Skip(2), false).value == [[97, mem(7), mem(8)]];
  }

  /** A PUBLISH packet makes the copy of negative length exactly if its topic runs past it. */
  lemma PublishOverrunsIff(s: Server, mem: Mem, length: nat, c: Cursor)
    requires length >= 2 && mem(0) == PUBLISH * 16 && c.length >= 2   // flags other than 0 are refused
    requires DecodeLength(mem, Cursor(1, length - 1), 1, 0) == (c.length, c)
    ensures Received(s, mem, length).0.events == s.events + [NegativeCopy]
            <==> c.length - 2 < LengthAt(mem, c) <= c.length
  {
    ReceivedWhen(s, mem, length, PUBLISH, c.length, c);
    if Received(s, mem, length).0.events == s.events + [NegativeCopy] {
      assert (s.events + [NegativeCopy])[|s.events|] == NegativeCopy;
    }
  }
}
