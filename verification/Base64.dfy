/**
 Base64 as in xframe/comserv/base64.C, against section 4 of RFC 4648: three bytes are one number of
 24 bits, written as its four digits in base 64.

 The code tables are given by their ranges. Characters are ASCII, as the decoder's table lookup
 needs. An unsigned long has 64 bits.
 */
module Base64 {
  import opened Bytes
  import opened Wrappers

  type Ascii = b: int | 0 <= b < 128

  const PAD: Ascii := 61

  const WORD := 0x1_0000_0000_0000_0000

  /** g_pCodes below its last character, the padding. */
  function Code(k: nat): (c: Ascii)
    requires k < 64
    ensures MapOf(c) == k
  {
    if k < 26 then 65 + k else if k < 52 then 71 + k else if k < 62 then k - 4
    else if k == 62 then 43 else 47
  }

  /** g_pMap: 254 is the padding, 255 a character outside the alphabet. */
  function MapOf(c: Ascii): (k: Byte)
    ensures k < 64 || k == 255 || (k == 254 && c == PAD)
  {
    if 65 <= c <= 90 then c - 65 else if 97 <= c <= 122 then c - 71 else if 48 <= c <= 57 then c + 4
    else if c == 43 then 62 else if c == 47 then 63 else if c == PAD then 254 else 255
  }

  // The specification.

  function Group(a: Byte, b: Byte, c: Byte): nat { (a as int) * 65536 + (b as int) * 256 + c as int }

  /** The last `n` digits of a number in base 64, in the code. */
  function Digits(v: nat, n: nat): (r: seq<Ascii>)
    ensures |r| == n
    decreases v, n
  {
    if n == 0 then [] else Digits(v / 64, n - 1) + [Code(v % 64)]
  }

  /** One, two or three bytes: missing ones count as 0, and digits that hold none of them are padding. */
  function Piece(s: seq<Byte>): (r: seq<Ascii>)
    requires 1 <= |s| <= 3
    ensures |r| == 4
  {
    Digits(Group(s[0], At(s, 1), At(s, 2)), 4)[..|s| + 1] + [PAD, PAD][|s| - 1..]
  }

  function At(s: seq<Byte>, i: nat): Byte { if i < |s| then s[i] else 0 }

  function Encoded(s: seq<Byte>): seq<Ascii>
    decreases |s|
  {
    if s == [] then [] else if |s| <= 3 then Piece(s) else Piece(s[..3]) + Encoded(s[3..])
  }

  lemma {:induction false} EncodedLength(s: seq<Byte>)
    ensures |Encoded(s)| == Groups(|s|) * 4
    decreases |s|
  {
    if |s| > 3 {
      EncodedLength(s[3..]);
      GroupsStep(|s|);
    }
  }

  function Groups(n: nat): nat { (n + 2) / 3 }

  lemma GroupsStep(n: nat)
    ensures Groups(n + 3) == Groups(n) + 1
    ensures n >= 3 ==> Groups(n) == Groups(n - 3) + 1
  {
  }

  lemma By64(q: nat, r: nat)
    requires r < 64
    ensures (q * 64 + r) / 64 == q && (q * 64 + r) % 64 == r
  {
  }

  lemma By256(q: nat, r: nat)
    requires r < 256
    ensures (q * 256 + r) / 256 == q && (q * 256 + r) % 256 == r
  {
  }

  lemma DigitsPush(q: nat, r: nat, v: nat, n: nat)
    requires r < 64 && v == q * 64 + r
    ensures Digits(v, n + 1) == Digits(q, n) + [Code(r)]
  {
    By64(q, r);
  }

  /** By the numbers of one, two and three digits on the way. */
  lemma DigitsAre(x: nat, y: nat, z: nat, w: nat, two: nat, three: nat, four: nat)
    requires x < 64 && y < 64 && z < 64 && w < 64
    requires two == x * 64 + y && three == two * 64 + z && four == three * 64 + w
    ensures Digits(four, 4) == [Code(x), Code(y), Code(z), Code(w)]
  {
    DigitsPush(three, w, four, 3);
    DigitsPush(two, z, three, 2);
    DigitsPush(x, y, two, 1);
    DigitsPush(0, x, x, 0);
  }

  /** The encoder's shifts and masks, put together as the decoder does, give the group. */
  lemma ShiftsRebuild(a: Byte, b: Byte, c: Byte)
    ensures a / 4 < 64 && a % 4 * 16 + b / 16 < 64 && b % 16 * 4 + c / 64 < 64 && c % 64 < 64
    ensures Group(a, b, c) ==
            ((a / 4 * 64 + (a % 4 * 16 + b / 16)) * 64 + (b % 16 * 4 + c / 64)) * 64 + c % 64
  {
  }

  lemma ShiftsAreDigits(a: Byte, b: Byte, c: Byte)
    ensures Digits(Group(a, b, c), 4) ==
            [Code(a / 4), Code(a % 4 * 16 + b / 16), Code(b % 16 * 4 + c / 64), Code(c % 64)]
  {
    ShiftsRebuild(a, b, c);
    var (x: nat, y: nat, z: nat, w: nat) := (a / 4, a % 4 * 16 + b / 16, b % 16 * 4 + c / 64, c % 64);
    var two := x * 64 + y;
    DigitsAre(x, y, z, w, two, two * 64 + z, Group(a, b, c));
  }

  lemma PieceText(s: seq<Byte>, a: Byte, b: Byte, c: Byte)
    requires 1 <= |s| <= 3
    requires a == s[0] && b == (if |s| > 1 then s[1] else 0) && c == (if |s| > 2 then s[2] else 0)
    ensures Piece(s) == [Code(a / 4), Code(a % 4 * 16 + b / 16),
                         if |s| > 1 then Code(b % 16 * 4 + c / 64) else PAD, if |s| > 2 then Code(c % 64) else PAD]
  {
    ShiftsAreDigits(a, b, c);
  }

  lemma EncodedSplit(s: seq<Byte>)
    requires |s| >= 3
    ensures Encoded(s) == Piece(s[..3]) + Encoded(s[3..])
  {
    if |s| == 3 {
      assert s[..3] == s;
    }
  }

  lemma EncodedFrom(s: seq<Byte>, i: nat)
    requires i + 3 <= |s|
    ensures Encoded(s[i..]) == Piece(s[i..i + 3]) + Encoded(s[i + 3..])
  {
    EncodedSplit(s[i..]);
    assert s[i..][..3] == s[i..i + 3] && s[i..][3..] == s[i + 3..];
  }

  // The encoders.

  method AppendFour(before: seq<Ascii>, w: Ascii, x: Ascii, y: Ascii, z: Ascii) returns (out: seq<Ascii>)
    ensures out == before + [w, x, y, z]
  {
    out := before + [w];
    out := out + [x];
    out := out + [y];
    out := out + [z];
  }

  method FullGroup(s: seq<Byte>, i: nat, before: seq<Ascii>) returns (out: seq<Ascii>)
    requires i + 3 <= |s|
    ensures out + Encoded(s[i + 3..]) == before + Encoded(s[i..])
  {
    var a, b, c := s[i], s[i + 1], s[i + 2];
    EncodedFrom(s, i);
    PieceText(s[i..i + 3], a, b, c);
    out := AppendFour(before, Code(a / 4), Code(a % 4 * 16 + b / 16), Code(b % 16 * 4 + c / 64), Code(c % 64));
  }

  method LastGroup(s: seq<Byte>, before: seq<Ascii>) returns (out: seq<Ascii>)
    requires 1 <= |s| <= 2
    ensures out == before + Encoded(s)
  {
    var a := s[0];
    var b: Byte := if 1 < |s| then s[1] else 0;
    PieceText(s, a, b, 0);
    out := AppendFour(before, Code(a / 4), Code(a % 4 * 16 + b / 16), if 1 < |s| then Code(b % 16 * 4) else PAD, PAD);
  }

  /** After `k` full groups: either another one is left, or at most two bytes are. */
  lemma FullGroups(n: nat, k: nat)
    requires 3 * k <= 3 * (n / 3)
    ensures if 3 * k < 3 * (n / 3) then 3 * k + 3 <= 3 * (n / 3) && 4 * k + 4 <= Groups(n) * 4
            else n - 3 * k <= 2 && Groups(n) * 4 == if n == 3 * k then 4 * k else 4 * k + 4
  {
  }

  /** Encode into a string. */
  method Encode(s: seq<Byte>) returns (out: seq<Ascii>)
    ensures out == Encoded(s) && |out| == Groups(|s|) * 4
  {
    out := [];
    var even := 3 * (|s| / 3);
    var i := 0;
    ghost var k := 0;
    while i < even
      invariant i == 3 * k <= even
      invariant out + Encoded(s[i..]) == Encoded(s)
    {
      FullGroups(|s|, k);
      out := FullGroup(s, i, out);
      i, k := i + 3, k + 1;
    }
    FullGroups(|s|, k);
    if i < |s| {
      out := LastGroup(s[i..], out);
    } else {
      assert s[i..] == [];
      assert out + [] == out;
    }
    EncodedLength(s);
  }

  method PutFour(p: array<Byte>, j: nat, w: Byte, x: Byte, y: Byte, z: Byte)
    requires j + 4 <= p.Length
    modifies p
    ensures p[..j + 4] == old(p[..j]) + [w, x, y, z]
    ensures forall m :: j + 4 <= m < p.Length ==> p[m] == old(p[m])
  {
    p[j] := w;
    p[j + 1] := x;
    p[j + 2] := y;
    p[j + 3] := z;
  }

  /** The four characters of a full group, written at `j`. */
  method PutGroup(p: array<Byte>, j: nat, s: seq<Byte>, i: nat)
    requires j + 4 <= p.Length && i + 3 <= |s|
    modifies p
    ensures p[..j + 4] + Encoded(s[i + 3..]) == old(p[..j]) + Encoded(s[i..])
    ensures forall m :: j + 4 <= m < p.Length ==> p[m] == old(p[m])
  {
    var a, b, c := s[i], s[i + 1], s[i + 2];
    EncodedFrom(s, i);
    PieceText(s[i..i + 3], a, b, c);
    PutFour(p, j, Code(a / 4), Code(a % 4 * 16 + b / 16), Code(b % 16 * 4 + c / 64), Code(c % 64));
    assert p[..j + 4] == old(p[..j]) + Piece(s[i..i + 3]);
  }

  /** The characters of a last group of one or two bytes. */
  method PutRest(p: array<Byte>, j: nat, s: seq<Byte>)
    requires j + 4 <= p.Length && 1 <= |s| <= 2
    modifies p
    ensures p[..j + 4] == old(p[..j]) + Encoded(s)
    ensures forall m :: j + 4 <= m < p.Length ==> p[m] == old(p[m])
  {
    var a := s[0];
    var b: Byte := if 1 < |s| then s[1] else 0;
    PieceText(s, a, b, 0);
    PutFour(p, j, Code(a / 4), Code(a % 4 * 16 + b / 16), if 1 < |s| then Code(b % 16 * 4) else PAD, PAD);
    assert p[..j + 4] == old(p[..j]) + Piece(s);
  }

  /** Encode into a caller's buffer of `capacity` bytes, with a terminating 0. */
  method EncodeInto(s: seq<Byte>, p: array?<Byte>, capacity: nat) returns (ok: bool, length: nat)
    requires p != null ==> capacity <= p.Length
    modifies p
    ensures ok <==> p != null && Groups(|s|) * 4 + 1 <= capacity
    ensures ok ==> length == Groups(|s|) * 4 && p[..length] == Encoded(s) && p[length] == 0
                   && forall m :: length < m < p.Length ==> p[m] == old(p[m])
    ensures !ok ==> length == capacity && (p != null ==> p[..] == old(p[..]))
  {
    if p == null || capacity == 0 {
      return false, capacity;
    }
    var len2 := Groups(|s|) * 4;
    if capacity < len2 + 1 {
      return false, capacity;
    }
    var j := PutAll(s, p, len2);
    p[j] := 0;
    ok, length := true, j;
  }

  /** The encoder's loop and its last group. */
  method PutAll(s: seq<Byte>, p: array<Byte>, len2: nat) returns (j: nat)
    requires len2 == Groups(|s|) * 4 < p.Length
    modifies p
    ensures j == len2 && p[..j] == Encoded(s)
    ensures forall m :: j <= m < p.Length ==> p[m] == old(p[m])
  {
    var even := 3 * (|s| / 3);
    var i := 0;
    j := 0;
    ghost var k := 0;
    FullGroups(|s|, k);
    while i < even
      invariant i == 3 * k <= even && j == 4 * k <= len2
      invariant p[..j] + Encoded(s[i..]) == Encoded(s)
      invariant forall m :: len2 <= m < p.Length ==> p[m] == old(p[m])
    {
      FullGroups(|s|, k);
      PutGroup(p, j, s, i);
      i, j, k := i + 3, j + 4, k + 1;
    }
    FullGroups(|s|, k);
    if i < |s| {
      PutRest(p, j, s[i..]);
      j := j + 4;
    } else {
      assert s[i..] == [] && p[..j] + [] == p[..j];
    }
  }

  // The decoder.

  /** Where the decoder stands: t, y, g and what it has written, or that it gave up for lack of room. */
  datatype Decoder = Decoder(t: nat, y: nat, g: nat, out: seq<Byte>) | Full

  const START := Decoder(0, 0, 3, [])

  function Written(t: nat, g: nat): seq<Byte> {
    [t / 256 / 256 % 256] + (if g > 1 then [t / 256 % 256] else []) + (if g > 2 then [t % 256] else [])
  }

  /** One character. g counts down with every padding, around zero, and is never set back. */
  function Feed(d: Decoder, ch: Ascii, capacity: nat): Decoder {
    var c := MapOf(ch);
    if d.Full? || c == 255 then d
    else
      var g := if c == 254 then (d.g + WORD - 1) % WORD else d.g;
      var t := d.t * 64 + if c == 254 then 0 else c as int;
      if d.y + 1 != 4 then Decoder(t, d.y + 1, g, d.out)
      else if (|d.out| + g) % WORD > capacity then Full
      else Decoder(0, 0, g, d.out + Written(t, g))
  }

  function FeedAll(d: Decoder, text: seq<Ascii>, capacity: nat): Decoder
    decreases |text|
  {
    if text == [] then d else FeedAll(Feed(d, text[0], capacity), text[1..], capacity)
  }

  /** The characters the decoder looks at. */
  function Kept(text: seq<Ascii>): seq<Ascii> {
    if text == [] then [] else (if MapOf(text[0]) == 255 then [] else [text[0]]) + Kept(text[1..])
  }

  function Pads(text: seq<Ascii>): nat {
    if text == [] then 0 else (if text[0] == PAD then 1 else 0) + Pads(text[1..])
  }

  /** The decoder's answer: the bytes written, or a refusal for lack of room. */
  function Decoded(text: seq<Ascii>, capacity: nat): Option<seq<Byte>> {
    match FeedAll(START, text, capacity)
    case Full => None
    case Decoder(_, _, _, out) => Some(out)
  }

  method Decode(text: seq<Ascii>, capacity: nat) returns (r: Option<seq<Byte>>)
    requires capacity < WORD
    ensures r == Decoded(text, capacity)
  {
    var g: nat, t: nat, y: nat, x: nat := 3, 0, 0, 0;
    var out: seq<Byte> := [];
    while x < |text|
      invariant x <= |text|
      invariant FeedAll(Decoder(t, y, g, out), text[x..], capacity) == FeedAll(START, text, capacity)
    {
      assert text[x..][1..] == text[x + 1..];
      var c := MapOf(text[x]);
      x := x + 1;
      if c == 255 {
        continue;
      }
      if c == 254 {
        c := 0;
        g := (g + WORD - 1) % WORD;
      }
      t := t * 64 + c as int;
      y := y + 1;
      if y == 4 {
        if (|out| + g) % WORD > capacity {
          FeedFull(text[x..], capacity);
          return None;
        }
        ghost var before := out;
        out := out + [t / 256 / 256 % 256];
        if g > 1 { out := out + [t / 256 % 256]; }
        if g > 2 { out := out + [t % 256]; }
        assert out == before + Written(t, g);
        y, t := 0, 0;
      }
    }
    r := Some(out);
  }

  lemma {:induction false} FeedFull(text: seq<Ascii>, capacity: nat)
    ensures FeedAll(Full, text, capacity) == Full
  {
    if text != [] {
      FeedFull(text[1..], capacity);
    }
  }

  lemma {:induction false} FeedKept(d: Decoder, text: seq<Ascii>, capacity: nat)
    ensures FeedAll(d, text, capacity) == FeedAll(d, Kept(text), capacity)
    decreases |text|
  {
    if text != [] {
      FeedKept(Feed(d, text[0], capacity), text[1..], capacity);
      if MapOf(text[0]) == 255 {
        assert Kept(text) == Kept(text[1..]);
      } else {
        FeedHead(d, text[0], Kept(text[1..]), capacity);
      }
    }
  }

  /** While g has not reached zero the decoder stays within its buffer. */
  lemma {:induction false} StaysInBuffer(d: Decoder, text: seq<Ascii>, capacity: nat)
    requires capacity < WORD - 3
    requires d.Decoder? ==> Pads(text) < d.g <= 3 && |d.out| <= capacity
    ensures var e := FeedAll(d, text, capacity); e.Decoder? ==> |e.out| <= capacity
    decreases |text|
  {
    if text != [] {
      StaysInBuffer(Feed(d, text[0], capacity), text[1..], capacity);
    }
  }

  lemma FeedFour(d: Decoder, q: seq<Ascii>, capacity: nat)
    requires |q| == 4
    ensures FeedAll(d, q, capacity) ==
            Feed(Feed(Feed(Feed(d, q[0], capacity), q[1], capacity), q[2], capacity), q[3], capacity)
  {
    assert q == [q[0]] + [q[1], q[2], q[3]];
    assert [q[1], q[2], q[3]] == [q[1]] + [q[2], q[3]];
    assert [q[2], q[3]] == [q[2]] + [q[3]];
    assert [q[3]] == [q[3]] + [];
    var d1 := Feed(d, q[0], capacity);
    var d2 := Feed(d1, q[1], capacity);
    var d3 := Feed(d2, q[2], capacity);
    FeedHead(d, q[0], [q[1], q[2], q[3]], capacity);
    FeedHead(d1, q[1], [q[2], q[3]], capacity);
    FeedHead(d2, q[2], [q[3]], capacity);
    FeedHead(d3, q[3], [], capacity);
  }

  lemma FeedHead(d: Decoder, ch: Ascii, rest: seq<Ascii>, capacity: nat)
    ensures FeedAll(d, [ch] + rest, capacity) == FeedAll(Feed(d, ch, capacity), rest, capacity)
  {
    assert ([ch] + rest)[1..] == rest;
  }

  /** Character `ch` has value k; a padding has value 0. */
  predicate Value(ch: Ascii, k: nat) { k < 64 && if ch == PAD then k == 0 else MapOf(ch) == k }

  function PadCount(ch: Ascii): nat { if ch == PAD then 1 else 0 }

  lemma FeedEarly(t: nat, y: nat, g: nat, out: seq<Byte>, ch: Ascii, k: nat, capacity: nat)
    requires y < 3 && Value(ch, k) && 1 <= g <= 3
    ensures Feed(Decoder(t, y, g, out), ch, capacity) == Decoder(t * 64 + k, y + 1, g - PadCount(ch), out)
  {
  }

  lemma FeedLast(t: nat, g: nat, out: seq<Byte>, ch: Ascii, k: nat, capacity: nat)
    requires Value(ch, k) && 1 <= g <= 3 && |out| + g - PadCount(ch) < WORD
    ensures Feed(Decoder(t, 3, g, out), ch, capacity) ==
            var h := g - PadCount(ch);
            if |out| + h > capacity then Full else Decoder(0, 0, h, out + Written(t * 64 + k, h))
  {
  }

  /** What four characters of value x, y, z, w do; a padding takes one from g. */
  lemma FeedValues(q: seq<Ascii>, x: nat, y: nat, z: nat, w: nat, g: nat, out: seq<Byte>, capacity: nat)
    requires |q| == 4 && x < 64 && y < 64 && z < 64 && w < 64 && |out| + g < WORD
    requires Value(q[0], x) && Value(q[1], y) && Value(q[2], z) && Value(q[3], w)
    requires q[0] != PAD && q[1] != PAD && g == 3 - PadCount(q[2]) - PadCount(q[3])
    ensures FeedAll(Decoder(0, 0, 3, out), q, capacity) ==
            if |out| + g > capacity then Full
            else Decoder(0, 0, g, out + Written(((x * 64 + y) * 64 + z) * 64 + w, g))
  {
    FeedFour(Decoder(0, 0, 3, out), q, capacity);
    FeedEarly(0, 0, 3, out, q[0], x, capacity);
    FeedEarly(x, 1, 3, out, q[1], y, capacity);
    FeedEarly(x * 64 + y, 2, 3, out, q[2], z, capacity);
    FeedLast((x * 64 + y) * 64 + z, 3 - PadCount(q[2]), out, q[3], w, capacity);
  }

  /** The bytes of a group come back. */
  lemma GroupBack(a: Byte, b: Byte, c: Byte)
    ensures var v := Group(a, b, c); v / 256 / 256 % 256 == a && v / 256 % 256 == b && v % 256 == c
  {
    assert Group(a, b, c) == ((a as int) * 256 + b as int) * 256 + c as int;
    By256((a as int) * 256 + b as int, c);
    By256(a, b);
  }

  /** A piece of encoded text of 1, 2 or 3 bytes. */
  lemma FeedPiece(s: seq<Byte>, out: seq<Byte>, capacity: nat)
    requires 1 <= |s| <= 3 && |out| + |s| < WORD
    ensures FeedAll(Decoder(0, 0, 3, out), Encoded(s), capacity) ==
            if |out| + |s| > capacity then Full else Decoder(0, 0, |s|, out + s)
  {
    var a, b, c := s[0], At(s, 1), At(s, 2);
    ShiftsRebuild(a, b, c);
    PieceText(s, a, b, c);
    assert Encoded(s) == Piece(s);
    FeedValues(Piece(s), a / 4, a % 4 * 16 + b / 16, b % 16 * 4 + c / 64, c % 64, |s|, out, capacity);
    WrittenBack(s);
  }

  lemma WrittenBack(s: seq<Byte>)
    requires 1 <= |s| <= 3
    ensures Written(Group(s[0], At(s, 1), At(s, 2)), |s|) == s
  {
    GroupBack(s[0], At(s, 1), At(s, 2));
  }

  lemma {:induction false} FeedAppend(d: Decoder, text: seq<Ascii>, rest: seq<Ascii>, capacity: nat)
    ensures FeedAll(d, text + rest, capacity) == FeedAll(FeedAll(d, text, capacity), rest, capacity)
    decreases |text|
  {
    if text == [] {
      assert text + rest == rest;
    } else {
      assert text + rest == [text[0]] + (text[1..] + rest);
      FeedHead(d, text[0], text[1..] + rest, capacity);
      FeedAppend(Feed(d, text[0], capacity), text[1..], rest, capacity);
    }
  }

  /** What decoding what was encoded has to give. */
  predicate ComesBack(d: Decoder, s: seq<Byte>, out: seq<Byte>, capacity: nat) {
    if capacity < |out| + |s| then d == Full else d.Decoder? && d.out == out + s
  }

  lemma {:induction false} FeedEncoded(s: seq<Byte>, out: seq<Byte>, capacity: nat)
    requires |out| + |s| < WORD && |out| <= capacity
    ensures ComesBack(FeedAll(Decoder(0, 0, 3, out), Encoded(s), capacity), s, out, capacity)
    decreases |s|
  {
    if |s| == 0 {
      assert out + s == out;
    } else if |s| < 3 {
      FeedPiece(s, out, capacity);
    } else {
      FeedSplit(s, out, capacity);
      if |out| + 3 <= capacity {
        FeedEncoded(s[3..], out + s[..3], capacity);
        assert out + s[..3] + s[3..] == out + s;
      }
    }
  }

  /** The first group of encoded text. */
  lemma FeedSplit(s: seq<Byte>, out: seq<Byte>, capacity: nat)
    requires |s| >= 3 && |out| + |s| < WORD
    ensures FeedAll(Decoder(0, 0, 3, out), Encoded(s), capacity) ==
            if |out| + 3 > capacity then Full else FeedAll(Decoder(0, 0, 3, out + s[..3]), Encoded(s[3..]), capacity)
  {
    var (head, rest) := (Encoded(s[..3]), Encoded(s[3..]));
    EncodedSplit(s);
    FeedAppend(Decoder(0, 0, 3, out), head, rest, capacity);
    FeedPiece(s[..3], out, capacity);
    FeedFull(rest, capacity);
  }

  /**
   Decoding returns what was encoded, exactly when there is room for it, with any characters outside
   the alphabet inserted anywhere.
   */
  lemma DecodeEncoded(s: seq<Byte>, text: seq<Ascii>, capacity: nat)
    requires Kept(text) == Encoded(s) && |s| < WORD
    ensures Decoded(text, capacity) == if |s| <= capacity then Some(s) else None
  {
    FeedKept(START, text, capacity);
    FeedEncoded(s, [], capacity);
    assert [] + s == s;
  }

  /** Text with at most two paddings is decoded within the buffer. */
  lemma DecodeInBuffer(text: seq<Ascii>, capacity: nat)
    requires capacity < WORD - 3 && Pads(text) <= 2
    ensures Decoded(text, capacity).Some? ==> |Decoded(text, capacity).value| <= capacity
  {
    StaysInBuffer(START, text, capacity);
  }

  /** After this text the decoder has written more than its buffer holds. */
  predicate WritesBehind(text: seq<Ascii>, capacity: nat) {
    var d := FeedAll(START, text, capacity);
    d.Decoder? && |d.out| > capacity
  }

  /**
   The group that ends with three or more paddings so far, the first one of the text, stands behind enough
   bytes that g, gone round below zero, adds up to a small number again. `y` characters of a group, `pads`
   paddings and `n` bytes are behind the text.
   */
  predicate PadsTooOften(text: seq<Ascii>, y: nat, pads: nat, n: nat)
    decreases |text|
  {
    text != [] &&
    if MapOf(text[0]) == 255 then PadsTooOften(text[1..], y, pads, n)
    else
      var p := pads + PadCount(text[0]);
      if y < 3 then PadsTooOften(text[1..], y + 1, p, n)
      else if p <= 2 then PadsTooOften(text[1..], 0, p, n + 3 - p)
      else p <= n + 3
  }

  /** g after so many paddings. */
  function Rest(pads: nat): nat
    requires pads <= 6
  {
    if pads <= 3 then 3 - pads else WORD + 3 - pads
  }

  lemma FeedCounts(t: nat, y: nat, pads: nat, out: seq<Byte>, ch: Ascii, capacity: nat)
    requires y <= 3 && pads <= 2 + y && |out| < WORD - 6 && capacity < WORD - 3 && MapOf(ch) != 255
    ensures var (d, p) := (Feed(Decoder(t, y, Rest(pads), out), ch, capacity), pads + PadCount(ch));
            if y < 3 then d.Decoder? && d == Decoder(d.t, y + 1, Rest(p), out)
            else if p <= 3 then
              if |out| + 3 - p > capacity then d.Full? else d.Decoder? && d == Decoder(0, 0, 3 - p, d.out) && |d.out| == |out| + BytesOf(p)
            else if p <= |out| + 3 then
              if |out| + 3 - p > capacity then d.Full? else d.Decoder? && |d.out| == |out| + 3
            else d.Full?
  {
  }

  /** How many bytes a group is written as: at least one. */
  function BytesOf(pads: nat): nat { if pads <= 1 then 3 - pads else 1 }

  lemma {:induction false} NeverBehind(t: nat, y: nat, pads: nat, out: seq<Byte>, text: seq<Ascii>, n: nat, capacity: nat)
    requires y <= 3 && pads <= 2 + y && |out| <= capacity < WORD - 6 && n <= |text|
    requires !PadsTooOften(text, y, pads, |out|)
    ensures var e := FeedAll(Decoder(t, y, Rest(pads), out), text[..n], capacity); e.Decoder? ==> |e.out| <= capacity
    decreases n
  {
    if n > 0 {
      var d := Feed(Decoder(t, y, Rest(pads), out), text[0], capacity);
      FeedPrefix(Decoder(t, y, Rest(pads), out), text, n - 1, capacity);
      if MapOf(text[0]) == 255 {
        NeverBehind(t, y, pads, out, text[1..], n - 1, capacity);
      } else {
        FeedCounts(t, y, pads, out, text[0], capacity);
        if d.Full? {
          FeedFull(text[1..][..n - 1], capacity);
        } else {
          NeverBehind(d.t, d.y, pads + PadCount(text[0]), d.out, text[1..], n - 1, capacity);
        }
      }
    }
  }

  lemma {:induction false} OnceBehind(t: nat, y: nat, pads: nat, out: seq<Byte>, text: seq<Ascii>) returns (n: nat, capacity: nat)
    requires y <= 3 && pads <= 2 + y && |out| + 3 * |text| < WORD - 6
    requires PadsTooOften(text, y, pads, |out|)
    ensures n <= |text| && |out| <= capacity < WORD - 6
    ensures var e := FeedAll(Decoder(t, y, Rest(pads), out), text[..n], capacity); e.Decoder? && |e.out| > capacity
    decreases |text|
  {
    var rest := text[1..];
    if MapOf(text[0]) == 255 {
      n, capacity := OnceBehind(t, y, pads, out, rest);
    } else {
      var p := pads + PadCount(text[0]);
      if y == 3 && p > 2 {
        n, capacity := 0, |out|;
        FeedCounts(t, y, pads, out, text[0], capacity);
      } else {
        var d := GoesOn(t, y, pads, out, text);
        n, capacity := OnceBehind(d.t, d.y, p, d.out, rest);
      }
    }
    FeedPrefix(Decoder(t, y, Rest(pads), out), text, n, capacity);
    n := n + 1;
  }

  /** A character that does not end the matter is taken alike whatever the capacity, if it is enough. */
  lemma GoesOn(t: nat, y: nat, pads: nat, out: seq<Byte>, text: seq<Ascii>) returns (d: Decoder)
    requires y <= 3 && pads <= 2 + y && |out| + 3 * |text| < WORD - 6
    requires PadsTooOften(text, y, pads, |out|) && MapOf(text[0]) != 255 && (y < 3 || pads + PadCount(text[0]) <= 2)
    ensures d.Decoder? && d.y <= 3 && |out| <= |d.out| <= |out| + 3
    ensures var p := pads + PadCount(text[0]);
            p <= 2 + d.y && d.g == Rest(p) && PadsTooOften(text[1..], d.y, p, |d.out|)
    ensures forall capacity | |d.out| <= capacity < WORD - 6 :: Feed(Decoder(t, y, Rest(pads), out), text[0], capacity) == d
  {
    d := Feed(Decoder(t, y, Rest(pads), out), text[0], |out| + 3);
    FeedCounts(t, y, pads, out, text[0], |out| + 3);
    forall capacity | |d.out| <= capacity < WORD - 6 ensures Feed(Decoder(t, y, Rest(pads), out), text[0], capacity) == d {
      FeedCounts(t, y, pads, out, text[0], capacity);
    }
  }

  lemma FeedPrefix(d: Decoder, text: seq<Ascii>, n: nat, capacity: nat)
    requires n < |text|
    ensures FeedAll(d, text[..n + 1], capacity) == FeedAll(Feed(d, text[0], capacity), text[1..][..n], capacity)
  {
    assert text[..n + 1][0] == text[0] && text[..n + 1][1..] == text[1..][..n];
  }

  /** The decoder can write behind a buffer of some capacity exactly for such texts. */
  lemma WritesBehindIff(text: seq<Ascii>)
    requires 3 * |text| < WORD - 6
    ensures PadsTooOften(text, 0, 0, 0) <==>
            exists n, capacity :: 0 <= n <= |text| && 0 <= capacity < WORD - 6 && WritesBehind(text[..n], capacity)
  {
    if PadsTooOften(text, 0, 0, 0) {
      var n, capacity := OnceBehind(0, 0, 0, [], text);
      assert WritesBehind(text[..n], capacity);
    } else {
      forall n, capacity | 0 <= n <= |text| && 0 <= capacity < WORD - 6 ensures !WritesBehind(text[..n], capacity) {
        NeverBehind(0, 0, 0, [], text, n, capacity);
      }
    }
  }

  /** A text that fails, "A===": one byte is written where there is room for none. "====" is refused. */
  lemma ThreePaddings(capacity: nat)
    requires capacity < WORD - 6
    ensures Decoded([65, 61, 61, 61], 0).Some? && |Decoded([65, 61, 61, 61], 0).value| == 1
    ensures Decoded([61, 61, 61, 61], capacity) == None
  {
    GroupOf(65, 0);
    GroupOf(61, capacity);
  }

  /** Four characters of which the last three are paddings. */
  lemma GroupOf(ch: Ascii, capacity: nat)
    requires ch == 61 || ch == 65
    requires capacity < WORD - 6
    ensures var d := FeedAll(START, [ch, 61, 61, 61], capacity);
            if ch == 61 then d.Full? else d.Decoder? && |d.out| == 1
  {
    var q := [ch, 61, 61, 61];
    FeedFour(START, q, capacity);
    var p := PadCount(ch);
    FeedCounts(0, 0, 0, [], ch, capacity);
    var d1 := Feed(START, ch, capacity);
    FeedCounts(d1.t, 1, p, [], 61, capacity);
    var d2 := Feed(d1, 61, capacity);
    FeedCounts(d2.t, 2, p + 1, [], 61, capacity);
    var d3 := Feed(d2, 61, capacity);
    FeedCounts(d3.t, 3, p + 2, [], 61, capacity);
  }

  /** Nothing the encoder writes is skipped, so text it wrote is the plain case. */
  lemma EncodedIsKept(s: seq<Byte>)
    ensures Kept(Encoded(s)) == Encoded(s)
  {
    EncodedInAlphabet(s);
    AllKept(Encoded(s));
  }

  lemma {:induction false} EncodedInAlphabet(s: seq<Byte>)
    ensures forall i :: 0 <= i < |Encoded(s)| ==> MapOf(Encoded(s)[i]) != 255
  {
    if |s| >= 3 {
      EncodedSplit(s);
      EncodedInAlphabet(s[3..]);
      PieceText(s[..3], s[0], s[1], s[2]);
    } else if |s| > 0 {
      PieceText(s, s[0], if |s| > 1 then s[1] else 0, 0);
    }
  }

  lemma {:induction false} AllKept(text: seq<Ascii>)
    requires forall i :: 0 <= i < |text| ==> MapOf(text[i]) != 255
    ensures Kept(text) == text
  {
    if text != [] {
      AllKept(text[1..]);
    }
  }

  // ----- the alphabet, and known answers -----

  /** Table 1 of RFC 4648. */
  predicate InAlphabet(c: int) {
    || 'A' as int <= c <= 'Z' as int || 'a' as int <= c <= 'z' as int || '0' as int <= c <= '9' as int
    || c == '+' as int || c == '/' as int
  }

  function Letter(k: nat): Ascii
    requires k < 64
  {
    if k < 26 then 'A' as int + k else if k < 52 then 'a' as int + (k - 26) else if k < 62 then '0' as int + (k - 52)
    else if k == 62 then '+' as int else '/' as int
  }

  lemma AlphabetOrder(k: nat)
    requires k < 64
    ensures Code(k) == Letter(k)
  {
  }

  /** The decoder skips exactly the characters that are neither in the alphabet nor the padding. */
  lemma SkippedIffForeign(c: Ascii)
    ensures MapOf(c) == 255 <==> !InAlphabet(c) && c as int != '=' as int
  {
  }

  function Alphabetic(text: seq<Ascii>): seq<Ascii> {
    if text == [] then []
    else (if InAlphabet(text[0]) || text[0] as int == '=' as int then [text[0]] else []) + Alphabetic(text[1..])
  }

  lemma {:induction false} KeptIsAlphabetic(text: seq<Ascii>)
    ensures Kept(text) == Alphabetic(text)
  {
    if text != [] {
      SkippedIffForeign(text[0]);
      KeptIsAlphabetic(text[1..]);
    }
  }

  /** So line breaks and the like may be put anywhere into encoded text. */
  lemma DecodeWithForeign(s: seq<Byte>, text: seq<Ascii>, capacity: nat)
    requires Alphabetic(text) == Encoded(s) && |s| < WORD
    ensures Decoded(text, capacity) == if |s| <= capacity then Some(s) else None
  {
    KeptIsAlphabetic(text);
    DecodeEncoded(s, text, capacity);
  }

  lemma EncodedIs(s: seq<Byte>, x: nat, y: nat, z: nat, w: nat)
    requires 1 <= |s| <= 3 && x < 64 && y < 64 && z < 64 && w < 64
    requires Group(s[0], At(s, 1), At(s, 2)) == ((x * 64 + y) * 64 + z) * 64 + w
    ensures Encoded(s) == [Code(x), Code(y), if |s| > 1 then Code(z) else PAD, if |s| > 2 then Code(w) else PAD]
  {
    var v, two := Group(s[0], At(s, 1), At(s, 2)), x * 64 + y;
    DigitsAre(x, y, z, w, two, two * 64 + z, v);
    PieceFrom(s, v, Code(x), Code(y), Code(z), Code(w));
  }

  lemma PieceFrom(s: seq<Byte>, v: nat, a: Ascii, b: Ascii, c: Ascii, d: Ascii)
    requires 1 <= |s| <= 3 && v == Group(s[0], At(s, 1), At(s, 2)) && Digits(v, 4) == [a, b, c, d]
    ensures Encoded(s) == [a, b, if |s| > 1 then c else PAD, if |s| > 2 then d else PAD]
  {
  }

  predicate Encodes(s: seq<Byte>, text: seq<int>) { Encoded(s) == text }

  /** Test vectors of section 10 of RFC 4648: "f", "fo", "foo" and, behind "foo", "bar". */
  lemma KnownAnswers()
    ensures Encodes([102], [90, 103, 61, 61])                 // Zg==
    ensures Encodes([102, 111], [90, 109, 56, 61])            // Zm8=
    ensures Encodes([102, 111, 111], [90, 109, 57, 118])      // Zm9v
    ensures Encodes([98, 97, 114], [89, 109, 70, 121])        // YmFy
  {
    AnswerIs([102], 102 * 65536, 25, 32, 0, 0);
    AnswerIs([102, 111], 102 * 65536 + 111 * 256, 25, 38, 60, 0);
    AnswerIs([102, 111, 111], 102 * 65536 + 111 * 256 + 111, 25, 38, 61, 47);
    AnswerIs([98, 97, 114], 98 * 65536 + 97 * 256 + 114, 24, 38, 5, 50);
  }

  lemma AnswerIs(s: seq<Byte>, v: nat, x: nat, y: nat, z: nat, w: nat)
    requires 1 <= |s| <= 3 && x < 64 && y < 64 && z < 64 && w < 64
    requires v == Group(s[0], At(s, 1), At(s, 2)) == ((x * 64 + y) * 64 + z) * 64 + w
    ensures Encoded(s) == [Letter(x), Letter(y), if |s| > 1 then Letter(z) else '=' as int, if |s| > 2 then Letter(w) else '=' as int]
  {
    EncodedIs(s, x, y, z, w);
    AlphabetOrder(x);
    AlphabetOrder(y);
    AlphabetOrder(z);
    AlphabetOrder(w);
  }

  /** Whole groups are encoded one by one. */
  lemma JoinEncoded(s: seq<Byte>, rest: seq<Byte>)
    requires |s| == 3
    ensures Encoded(s + rest) == Encoded(s) + Encoded(rest)
  {
    EncodedSplit(s + rest);
    assert (s + rest)[..3] == s && (s + rest)[3..] == rest;
  }
}
