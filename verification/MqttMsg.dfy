/**
 The MQTT codec of xframe/facility/psamqtt/mqttmsg.C.

 A CStr is a byte sequence. Parsing walks a cursor over memory: the message is the next `length`
 bytes, and anything at all lies behind it, since some checks let the cursor run past the end.
 */
module MqttMsg {
  import opened Bytes
  import opened Wrappers

  type Mem = int -> Byte

  /** The bytes of `s` lie at `p`. */
  predicate Holds(mem: Mem, p: int, s: seq<Byte>)
    decreases |s|
  {
    s == [] || (mem(p) == s[0] && Holds(mem, p + 1, s[1..]))
  }

  lemma {:induction false} HoldsSplit(mem: Mem, p: int, a: seq<Byte>, b: seq<Byte>)
    requires Holds(mem, p, a + b)
    ensures Holds(mem, p, a) && Holds(mem, p + |a|, b)
    decreases |a|
  {
    if a == [] {
      assert a + b == b;
    } else {
      assert (a + b)[1..] == a[1..] + b;
      HoldsSplit(mem, p + 1, a[1..], b);
    }
  }

  function Slice(mem: Mem, p: int, n: nat): seq<Byte>
    decreases n
  {
    if n == 0 then [] else [mem(p)] + Slice(mem, p + 1, n - 1)
  }

  lemma {:induction false} SliceIsHeld(mem: Mem, p: int, s: seq<Byte>)
    requires Holds(mem, p, s)
    ensures Slice(mem, p, |s|) == s
    decreases |s|
  {
    if s != [] {
      SliceIsHeld(mem, p + 1, s[1..]);
    }
  }

  /** The pointer and the remaining length the parsers take by reference. */
  datatype Cursor = Cursor(p: int, length: int)
  {
    function Skip(n: int): Cursor { Cursor(p + n, length - n) }
  }

  // Remaining Length, section 2.2.3 of MQTT 3.1.1.

  function LengthBytes(n: nat): (r: seq<Byte>)
    ensures |r| >= 1
  {
    if n < 128 then [n] else [n % 128 + 128] + LengthBytes(n / 128)
  }

  method AppendLength(msg: seq<Byte>, length: nat) returns (r: seq<Byte>)
    ensures r == msg + LengthBytes(length)
  {
    r := msg;
    var n := length;
    var more := true;
    while more
      invariant r + (if more then LengthBytes(n) else []) == msg + LengthBytes(length)
      decreases if more then n + 1 else 0
    {
      var c: Byte := n % 128;
      n := n / 128;
      if n > 0 {
        c := c + 128;
      }
      r := r + [c];
      more := n > 0;
    }
  }

  /** parseLength from one of its rounds: -1 for a fourth byte, -2 for running out. */
  function DecodeLength(mem: Mem, c: Cursor, multiplier: int, value: int): (int, Cursor)
    requires 1 <= multiplier <= 2097152
    decreases 268435456 - multiplier
  {
    if c.length < 0 then (-2, c)
    else
      var b: int := mem(c.p);
      var v := value + b % 128 * multiplier;
      if multiplier * 128 > 2097152 then (-1, c.Skip(1))
      else if b >= 128 then DecodeLength(mem, c.Skip(1), multiplier * 128, v)
      else (v, c.Skip(1))
  }

  method ParseLength(mem: Mem, start: Cursor) returns (value: int, c: Cursor)
    ensures (value, c) == DecodeLength(mem, start, 1, 0)
  {
    var multiplier: int := 1;
    value, c := 0, start;
    var more := true;
    while more
      invariant 1 <= multiplier <= 2097152
      invariant (if more then DecodeLength(mem, c, multiplier, value) else (value, c))
                == DecodeLength(mem, start, 1, 0)
      decreases if more then 268435456 - multiplier else 0
    {
      if c.length < 0 {
        return -2, c;
      }
      var encodedByte: int := mem(c.p);
      c := c.Skip(1);
      value := value + encodedByte % 128 * multiplier;
      if multiplier * 128 > 2097152 {
        return -1, c;
      }
      multiplier := multiplier * 128;
      more := encodedByte >= 128;
    }
  }

  lemma ThirdByte(mem: Mem, c: Cursor, n: nat, value: int)
    requires Holds(mem, c.p, LengthBytes(n)) && c.length >= |LengthBytes(n)|
    ensures DecodeLength(mem, c, 16384, value) ==
            if n < 128 then (value + n * 16384, c.Skip(|LengthBytes(n)|)) else (-1 as int, c.Skip(2))
  {
    LengthStep(mem, c.p, n);
  }

  lemma SecondByte(mem: Mem, c: Cursor, n: nat, value: int)
    requires Holds(mem, c.p, LengthBytes(n)) && c.length >= |LengthBytes(n)|
    ensures DecodeLength(mem, c, 128, value) ==
            if n < 16384 then (value + n * 128, c.Skip(|LengthBytes(n)|)) else (-1 as int, c.Skip(3))
  {
    LengthStep(mem, c.p, n);
    if n >= 128 {
      ThirdByte(mem, c.Skip(1), n / 128, value + n % 128 * 128);
    }
  }

  lemma FirstByte(mem: Mem, c: Cursor, q: nat, r: nat, n: nat)
    requires 1 <= q && r < 128 && n == q * 128 + r && c.length >= 1 && mem(c.p) == r + 128
    ensures DecodeLength(mem, c, 1, 0) == DecodeLength(mem, c.Skip(1), 128, r)
    ensures n / 128 == q && n % 128 == r && (n < 2097152 <==> q < 16384)
  {
  }

  /** Lengths below 128^3 come back, and no others: the fourth byte the standard allows is refused. */
  lemma LengthBack(mem: Mem, c: Cursor, n: nat)
    requires Holds(mem, c.p, LengthBytes(n)) && c.length >= |LengthBytes(n)|
    ensures DecodeLength(mem, c, 1, 0) ==
            if n < 2097152 then (n as int, c.Skip(|LengthBytes(n)|)) else (-1 as int, c.Skip(4))
  {
    LengthStep(mem, c.p, n);
    if n >= 128 {
      LengthBackFrom(mem, c, n / 128, n % 128, n, LengthBytes(n / 128));
    }
  }

  lemma LengthBackFrom(mem: Mem, c: Cursor, q: nat, r: nat, n: nat, bytes: seq<Byte>)
    requires 1 <= q && r < 128 && n == q * 128 + r && mem(c.p) == r + 128
    requires bytes == LengthBytes(q) && Holds(mem, c.p + 1, bytes) && c.length > |bytes|
    ensures DecodeLength(mem, c, 1, 0) ==
            if n < 2097152 then (n as int, c.Skip(1 + |bytes|)) else (-1 as int, c.Skip(4))
  {
    FirstByte(mem, c, q, r, n);
    SecondByte(mem, c.Skip(1), q, r);
  }

  lemma LengthStep(mem: Mem, p: int, n: nat)
    requires Holds(mem, p, LengthBytes(n))
    ensures n < 128 ==> mem(p) == n && |LengthBytes(n)| == 1
    ensures n >= 128 ==> mem(p) == n % 128 + 128 && |LengthBytes(n)| == 1 + |LengthBytes(n / 128)|
                         && Holds(mem, p + 1, LengthBytes(n / 128))
  {
    if n >= 128 {
      HoldsSplit(mem, p, [n % 128 + 128], LengthBytes(n / 128));
    }
  }

  // Strings and numbers.

  /** The two low bytes of htonl(value). */
  function ShortBytes(value: int): (r: seq<Byte>)
    ensures |r| == 2
  {
    [value / 256 % 256, value % 256]
  }

  function StrBytes(str: seq<Byte>): seq<Byte> { ShortBytes(|CString(str)|) + CString(str) }

  lemma CStringStep(str: seq<Byte>, n: nat)
    requires n < |str| && str[n] != 0
    ensures str[..n] + CString(str[n..]) == str[..n + 1] + CString(str[n + 1..])
  {
    assert str[n..][1..] == str[n + 1..];
    assert str[..n + 1] == str[..n] + [str[n]];
  }

  method StrLen(str: seq<Byte>) returns (n: nat)
    ensures n <= |str| && str[..n] == CString(str)
  {
    n := 0;
    while n < |str| && str[n] != 0
      invariant n <= |str|
      invariant str[..n] + CString(str[n..]) == CString(str)
    {
      CStringStep(str, n);
      n := n + 1;
    }
    assert CString(str[n..]) == [];
  }

  method AppendStr(msg: seq<Byte>, str: seq<Byte>) returns (r: seq<Byte>)
    ensures r == msg + StrBytes(str)
  {
    var len := StrLen(str);
    r := msg + ShortBytes(len);
    r := r + str[..len];
  }

  method AppendShort(msg: seq<Byte>, value: int) returns (r: seq<Byte>)
    ensures r == msg + ShortBytes(value)
  {
    r := msg + ShortBytes(value);
  }

  datatype Parsed<T> = Parsed(value: T, rest: Cursor)

  function DecodeByte(mem: Mem, c: Cursor): Option<Parsed<int>> {
    if c.length < 1 then None else Some(Parsed(mem(c.p) as int, c.Skip(1)))
  }

  function DecodeShort(mem: Mem, c: Cursor): Option<Parsed<int>> {
    if c.length < 2 then None
    else Some(Parsed((mem(c.p) as int) * 256 + mem(c.p + 1) as int, c.Skip(2)))
  }

  /** The length is compared before its own two bytes are taken off. */
  function DecodeString(mem: Mem, c: Cursor): (r: Option<Parsed<seq<Byte>>>)
    ensures r.Some? ==> r.value.rest.length <= c.length - 2
  {
    if c.length < 2 then None
    else
      var n: int := (mem(c.p) as int) * 256 + mem(c.p + 1) as int;
      if c.length < n then None else Some(Parsed(Slice(mem, c.p + 2, n), c.Skip(2 + n)))
  }

  lemma ShortValue(value: int)
    ensures value / 256 % 256 * 256 + value % 256 == value % 65536
  {
  }

  lemma TwoHeld(mem: Mem, p: int, a: Byte, b: Byte)
    requires Holds(mem, p, [a, b])
    ensures mem(p) == a && mem(p + 1) == b
  {
    assert [a, b][1..] == [b];
  }

  lemma ShortBack(mem: Mem, c: Cursor, value: int)
    requires Holds(mem, c.p, ShortBytes(value)) && c.length >= 2
    ensures DecodeShort(mem, c) == Some(Parsed(value % 65536, c.Skip(2)))
  {
    ShortValue(value);
    TwoHeld(mem, c.p, value / 256 % 256, value % 256);
  }

  /** A string comes back up to its first 0, exactly when that part is shorter than 65536 bytes. */
  lemma StringBackIff(mem: Mem, c: Cursor, str: seq<Byte>)
    requires Holds(mem, c.p, StrBytes(str)) && c.length >= |StrBytes(str)|
    ensures DecodeString(mem, c) == Some(Parsed(CString(str), c.Skip(|StrBytes(str)|)))
            <==> |CString(str)| < 65536
  {
    var s := CString(str);
    HoldsSplit(mem, c.p, ShortBytes(|s|), s);
    ShortBack(mem, c, |s|);
    var n := |s| % 65536;
    if |s| < 65536 {
      SliceIsHeld(mem, c.p + 2, s);
    } else {
      assert DecodeString(mem, c).value.rest == c.Skip(2 + n);
    }
  }

  /** parseString reads behind its message exactly when the string's last one or two bytes do not fit. */
  lemma StringStaysInsideIff(mem: Mem, c: Cursor)
    requires c.length >= 2
    ensures var n: int := (mem(c.p) as int) * 256 + mem(c.p + 1) as int;
            (DecodeString(mem, c).Some? ==> DecodeString(mem, c).value.rest.length >= 0)
            <==> !(c.length - 2 < n <= c.length)
  {
  }

  // Packets.

  function Packet(packetType: nat, body: seq<Byte>, flags: nat): seq<Byte> {
    [(packetType * 16 + flags) % 256] + LengthBytes(|body|) + body
  }

  method Pack(msg: seq<Byte>, packetType: nat, body: seq<Byte>, flags: nat) returns (r: seq<Byte>)
    ensures r == msg + Packet(packetType, body, flags)
  {
    var headByte: Byte := (packetType * 16 + flags) % 256;
    r := msg + [headByte];
    r := AppendLength(r, |body|);
    r := r + body;
  }
}
