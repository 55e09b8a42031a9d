/**
 The string buffer of xframe/comserv/comtypedef_vchar.C and its URI escaping: `uricEncode` into a
 buffer of its own, `uricDecode` in place.

 An escape that is not "%" and two hexadecimal digits or "%u" and four is outside the model: the
 source hands it to sscanf unchecked, and decoding here stops.
 */
module Uric {
  import opened Bytes
  import opened Wrappers

  const PERCENT: Byte := 37
  const PLUS: Byte := 43
  const SPACE: Byte := 32
  const LETTER_U: Byte := 117

  predicate Escaped(c: Byte) { c == 38 || c == 61 || c == PLUS || c == PERCENT }

  /** One digit of %02X. */
  function HexDigit(n: nat): Byte
    requires n < 16
  {
    if n < 10 then 48 + n else 55 + n
  }

  /** What sscanf's %x makes of a digit. */
  function HexValue(c: Byte): Option<nat> {
    if 48 <= c <= 57 then Some(c - 48)
    else if 65 <= c <= 70 then Some(c - 55)
    else if 97 <= c <= 102 then Some(c - 87)
    else None
  }

  function Escape(c: Byte): (r: seq<Byte>)
    ensures 1 <= |r| <= 3
  {
    if Escaped(c) then [PERCENT, HexDigit(c / 16), HexDigit(c % 16)]
    else if c == SPACE then [PLUS]
    else [c]
  }

  function Encoded(s: seq<Byte>): seq<Byte> {
    if s == [] then [] else Escape(s[0]) + Encoded(s[1..])
  }

  function HexNumber(s: seq<Byte>): Option<nat> {
    if s == [] then Some(0)
    else
      var high := HexNumber(s[..|s| - 1]);
      var low := HexValue(s[|s| - 1]);
      if high.None? || low.None? then None else Some(high.value * 16 + low.value)
  }

  /** intCatUtf8 of a number of four hexadecimal digits. */
  function Utf8(n: nat): (r: seq<Byte>)
    ensures 1 <= |r| <= 3
  {
    var high, low := n / 256 % 256, n % 256;
    if high == 0 && low < 128 then [low]
    else if high < 8 then [192 + high * 4 % 32 + low / 64, 128 + low % 64]
    else [224 + high / 16, 128 + high % 16 * 4 + low / 64, 128 + low % 64]
  }

  /** One decoding step: how many bytes are read, and what they stand for. */
  datatype Step = Step(taken: nat, bytes: seq<Byte>)

  function Unescape(s: seq<Byte>): (r: Option<Step>)
    requires s != []
    ensures r.Some? ==> 1 <= r.value.taken <= |s| && 1 <= |r.value.bytes| <= r.value.taken
  {
    if s[0] != PERCENT then Some(Step(1, [if s[0] == PLUS then SPACE else s[0]]))
    else if |s| >= 2 && s[1] == LETTER_U then
      if |s| < 6 then None
      else
        var unicode := HexNumber(s[2..6]);
        if unicode.None? then None else Some(Step(6, Utf8(unicode.value)))
    else if |s| < 3 then None
    else
      var value := HexNumber(s[1..3]);
      if value.None? then None else Some(Step(3, [value.value % 256]))
  }

  function Decoded(s: seq<Byte>): Option<seq<Byte>>
    decreases |s|
  {
    if s == [] then Some([])
    else
      var step := Unescape(s);
      if step.None? then None
      else
        var rest := Decoded(s[step.value.taken..]);
        if rest.None? then None else Some(step.value.bytes + rest.value)
  }

  lemma {:induction false} EncodedLength(s: seq<Byte>)
    ensures |s| <= |Encoded(s)| <= 3 * |s|
    ensures 0 !in s ==> 0 !in Encoded(s)
  {
    if s != [] {
      EncodedLength(s[1..]);
    }
  }

  lemma EncodedFrom(s: seq<Byte>, i: nat, before: seq<Byte>)
    requires i < |s|
    ensures before + Encoded(s[i..]) == before + Escape(s[i]) + Encoded(s[i + 1..])
  {
    assert s[i..][1..] == s[i + 1..];
  }

  lemma EscapeBack(c: Byte, rest: seq<Byte>)
    ensures Unescape(Escape(c) + rest) == Some(Step(|Escape(c)|, [c]))
  {
    if Escaped(c) {
      var text := Escape(c) + rest;
      assert text[1..3] == [text[1], text[2]];
      assert [text[1], text[2]][..1] == [text[1]];
      assert HexNumber([]) == Some(0);
      assert HexNumber([text[1]]) == Some(c / 16);
    }
  }

  lemma DecodeEscape(c: Byte, rest: seq<Byte>)
    requires Decoded(rest).Some?
    ensures Decoded(Escape(c) + rest) == Some([c] + Decoded(rest).value)
  {
    EscapeBack(c, rest);
    assert (Escape(c) + rest)[|Escape(c)|..] == rest;
  }

  lemma {:induction false} DecodeEncoded(s: seq<Byte>)
    ensures Decoded(Encoded(s)) == Some(s)
  {
    if s != [] {
      DecodeEncoded(s[1..]);
      DecodeEscape(s[0], Encoded(s[1..]));
      assert s == [s[0]] + s[1..];
    }
  }

  /** Decoding has reached `r` and written `done`. */
  predicate Reached(s: seq<Byte>, r: nat, done: seq<Byte>)
    requires r <= |s|
  {
    Decoded(s) == if Decoded(s[r..]).Some? then Some(done + Decoded(s[r..]).value) else None
  }

  lemma ReachedEnds(s: seq<Byte>, done: seq<Byte>)
    ensures Reached(s, 0, [])
    ensures Reached(s, |s|, done) ==> Decoded(s) == Some(done)
  {
    assert s[0..] == s && done + [] == done;
    if Decoded(s).Some? {
      assert [] + Decoded(s).value == Decoded(s).value;
    }
  }

  lemma ReachedStep(s: seq<Byte>, r: nat, done: seq<Byte>, step: Step)
    requires r < |s| && Reached(s, r, done) && Unescape(s[r..]) == Some(step)
    ensures 1 <= |step.bytes| <= step.taken && r + step.taken <= |s| && Reached(s, r + step.taken, done + step.bytes)
  {
    var (rest, t) := (s[r..], s[r + step.taken..]);
    assert rest[step.taken..] == t;
    if Decoded(t).Some? {
      assert done + (step.bytes + Decoded(t).value) == done + step.bytes + Decoded(t).value;
    }
  }

  // ----- what the escapes stand for -----

  /** How each byte is written: "%26", "%3D", "%2B", "%25", a plus sign for a space, and itself otherwise. */
  lemma EscapeTable(c: Byte)
    ensures Escape(c) == if c == 38 then [37, 50, 54] else if c == 61 then [37, 51, 68] else if c == 43 then [37, 50, 66]
                         else if c == 37 then [37, 50, 53] else if c == 32 then [43] else [c]
  {
  }

  /** No '&', '=' or space is left in an encoded text. */
  lemma {:induction false} EncodedIsSafe(s: seq<Byte>)
    ensures 38 !in Encoded(s) && 61 !in Encoded(s) && 32 !in Encoded(s)
    decreases |s|
  {
    if s != [] {
      EscapeTable(s[0]);
      EncodedIsSafe(s[1..]);
    }
  }

  /** A hexadecimal digit of either case. */
  predicate IsHexOf(c: Byte, d: nat) {
    if d < 10 then c as int == '0' as int + d
    else d < 16 && (c as int == 'A' as int + (d - 10) || c as int == 'a' as int + (d - 10))
  }

  lemma HexDigitRead(c: Byte, d: nat)
    ensures HexValue(c) == Some(d) <==> IsHexOf(c, d)
  {
  }

  lemma NumberRead(s: seq<Byte>, c: Byte, v: nat, d: nat)
    requires HexNumber(s) == Some(v) && IsHexOf(c, d)
    ensures HexNumber(s + [c]) == Some(v * 16 + d)
  {
    assert (s + [c])[..|s|] == s;
    HexDigitRead(c, d);
  }

  /** "%XX" stands for the byte with these two digits, in either case. */
  lemma ByteEscapeDecodes(h: Byte, l: Byte, hi: nat, lo: nat, rest: seq<Byte>)
    requires IsHexOf(h, hi) && IsHexOf(l, lo) && Decoded(rest).Some?
    ensures Decoded([37, h, l] + rest) == Some([hi * 16 + lo] + Decoded(rest).value)
  {
    var s := [PERCENT, h, l] + rest;
    TwoDigits(h, l, hi, lo);
    assert s[1..3] == [h, l] && s[3..] == rest;
  }

  /** `bytes` are the UTF-8 form of code point n below 0x10000, as section 3 of RFC 3629 has it. */
  predicate IsUtf8(bytes: seq<Byte>, n: nat) {
    || (|bytes| == 1 && n < 0x80 && bytes[0] as int == n)
    || (|bytes| == 2 && 0x80 <= n < 0x800 && 0xC0 <= bytes[0] < 0xE0 && 0x80 <= bytes[1] < 0xC0
        && (bytes[0] as int - 0xC0) * 64 + (bytes[1] as int - 0x80) == n)
    || (|bytes| == 3 && 0x800 <= n < 0x1_0000 && 0xE0 <= bytes[0] < 0xF0 && 0x80 <= bytes[1] < 0xC0 && 0x80 <= bytes[2] < 0xC0
        && ((bytes[0] as int - 0xE0) * 64 + (bytes[1] as int - 0x80)) * 64 + (bytes[2] as int - 0x80) == n)
  }

  lemma Utf8IsRight(n: nat)
    requires n < 0x1_0000
    ensures IsUtf8(Utf8(n), n)
  {
    var high, low := n / 256, n % 256;
    assert high / 256 == 0 && high % 256 == high;
    if high < 8 {
      TwoBytes(high, low);
    } else {
      ThreeBytes(high, low);
    }
  }

  lemma TwoBytes(high: nat, low: nat)
    requires high < 8 && low < 256
    ensures 192 + high * 4 % 32 + low / 64 < 0xE0 && (high * 4 % 32 + low / 64) * 64 + low % 64 == high * 256 + low
  {
    assert high * 4 % 32 == high * 4;
  }

  lemma ThreeBytes(high: nat, low: nat)
    requires high < 256 && low < 256
    ensures high / 16 < 16 && high % 16 * 4 + low / 64 < 64
    ensures (high / 16 * 64 + (high % 16 * 4 + low / 64)) * 64 + low % 64 == high * 256 + low
  {
  }

  /** "%uXXXX" stands for the UTF-8 form of the code point with these four digits. */
  lemma UnicodeEscapeDecodes(x: seq<Byte>, d: seq<nat>, rest: seq<Byte>)
    requires |x| == |d| == 4 && (forall i :: 0 <= i < 4 ==> IsHexOf(x[i], d[i])) && Decoded(rest).Some?
    ensures var n := ((d[0] * 16 + d[1]) * 16 + d[2]) * 16 + d[3];
            exists bytes :: IsUtf8(bytes, n) && Decoded([37, 117] + x + rest) == Some(bytes + Decoded(rest).value)
  {
    var s := [PERCENT, LETTER_U] + x + rest;
    FourDigits(x, d);
    assert s[2..6] == x && s[6..] == rest;
    Utf8IsRight(((d[0] * 16 + d[1]) * 16 + d[2]) * 16 + d[3]);
  }

  lemma FourDigits(x: seq<Byte>, d: seq<nat>)
    requires |x| == |d| == 4 && forall i :: 0 <= i < 4 ==> IsHexOf(x[i], d[i])
    ensures HexNumber(x) == Some(((d[0] * 16 + d[1]) * 16 + d[2]) * 16 + d[3])
    ensures ((d[0] * 16 + d[1]) * 16 + d[2]) * 16 + d[3] < 0x1_0000
  {
    TwoDigits(x[0], x[1], d[0], d[1]);
    assert [x[0], x[1]] + [x[2]] == x[..3] && x[..3] + [x[3]] == x;
    NumberRead([x[0], x[1]], x[2], d[0] * 16 + d[1], d[2]);
    NumberRead(x[..3], x[3], (d[0] * 16 + d[1]) * 16 + d[2], d[3]);
  }

  lemma TwoDigits(h: Byte, l: Byte, hi: nat, lo: nat)
    requires IsHexOf(h, hi) && IsHexOf(l, lo)
    ensures HexNumber([h, l]) == Some(hi * 16 + lo)
  {
    assert HexNumber([]) == Some(0) && [] + [h] == [h] && [h] + [l] == [h, l];
    NumberRead([], h, 0, hi);
    NumberRead([h], l, hi, lo);
  }

  /** Every other character stands for itself, but for a plus sign. */
  lemma PlainDecodes(c: Byte, rest: seq<Byte>)
    requires c != 37 && Decoded(rest).Some?
    ensures Decoded([c] + rest) == Some([if c == 43 then 32 else c] + Decoded(rest).value)
  {
    assert ([c] + rest)[1..] == rest;
  }

  const MAX_BUFFER := 32

  /** uricDecode after uricEncode restores every text without a 0. */
  lemma DecodeUndoesEncode(s: seq<Byte>)
    requires 0 !in s
    ensures CString(Encoded(s)) == Encoded(s) && Decoded(Encoded(s)) == Some(s)
  {
    EncodedLength(s);
    CStringWholeIff(Encoded(s));
    DecodeEncoded(s);
  }

  class CStr {
    var length: nat
    var capacity: nat
    var buffer: array<Byte>

    predicate Valid()
      reads this, buffer
    {
      length <= capacity < buffer.Length && buffer[length] == 0
    }

    function Text(): seq<Byte>
      requires Valid()
      reads this, buffer
    {
      buffer[..length]
    }

    constructor ()
      ensures Valid() && Text() == [] && fresh(buffer)
    {
      buffer := new Byte[MAX_BUFFER](_ => 0);
      length, capacity := 0, MAX_BUFFER - 1;
    }

    method Resize(newCapacity: nat)
      requires Valid()
      modifies this`buffer, this`capacity
      ensures Valid() && length == old(length) && Text() == old(Text())
      ensures newCapacity <= capacity && (buffer == old(buffer) || fresh(buffer))
    {
      if newCapacity <= capacity {
        return;
      }
      var realCap := (newCapacity / MAX_BUFFER + 1) * MAX_BUFFER;
      var larger := new Byte[realCap](_ => 0);
      forall i | 0 <= i <= length {
        larger[i] := buffer[i];
      }
      buffer := larger;
      capacity := realCap - 1;
    }

    method UricEncode()
      requires Valid()
      modifies this, buffer
      ensures Valid() && (buffer == old(buffer) || fresh(buffer))
      ensures Text() == Encoded(CString(old(Text())))
    {
      ghost var source := CString(Text());
      CStringEnds(Text());
      assert forall i :: 0 <= i < |source| ==> buffer[i] == source[i];
      var out := new Byte[length * 3 + 1](_ => 0);
      var r: nat, w: nat := 0, 0;
      while buffer[r] != 0
        invariant r <= |source| <= length && w <= 3 * r
        invariant buffer[..length] == old(Text()) && buffer[length] == 0
        invariant out[..w] + Encoded(source[r..]) == Encoded(source)
        decreases length - r
        modifies out
      {
        ghost var before := out[..w];
        w := PutEscape(out, w, buffer[r]);
        EncodedFrom(source, r, before);
        r := r + 1;
      }
      EncodedLength(source);
      out[w] := 0;
      var newLength := StrLen(out, w);
      SetText(out, newLength);
    }

    method SetText(out: array<Byte>, newLength: nat)
      requires Valid() && newLength < out.Length && out[newLength] == 0 && out != buffer
      modifies this, buffer
      ensures Valid() && (buffer == old(buffer) || fresh(buffer))
      ensures Text() == old(out[..newLength])
    {
      if newLength > capacity {
        Resize(newLength);
      }
      length := newLength;
      forall i | 0 <= i <= newLength {
        buffer[i] := out[i];
      }
    }

    /** Decodes in place; false for an escape outside the model. */
    method UricDecode() returns (ok: bool)
      requires Valid()
      modifies this`length, buffer
      ensures ok <==> Decoded(CString(old(Text()))).Some?
      ensures ok ==> Valid() && Text() == Decoded(CString(old(Text()))).value
    {
      ghost var source := CString(Text());
      CStringEnds(Text());
      ghost var end := |source|;
      ReachedEnds(source, []);
      var r: nat, w: nat := 0, 0;
      while buffer[r] != 0
        invariant w <= r <= end <= length < buffer.Length && buffer[end] == 0
        invariant buffer[r..end] == source[r..]
        invariant Reached(source, r, buffer[..w])
        decreases end - r
        modifies buffer
      {
        ok, r, w := DecodeOne(buffer, r, w, source);
        if !ok {
          return;
        }
      }
      ReachedEnds(source, buffer[..w]);
      buffer[w] := 0;
      length := w;
      ok := true;
    }
  }

  /** What the encoder's loop writes for one character, with the 0 that sprintf puts behind an escape. */
  method PutEscape(out: array<Byte>, w: nat, c: Byte) returns (next: nat)
    requires w + 3 < out.Length
    modifies out
    ensures w < next <= w + 3 && out[..next] == old(out[..w]) + Escape(c)
  {
    if Escaped(c) {
      out[w] := PERCENT;
      out[w + 1] := HexDigit(c / 16);
      out[w + 2] := HexDigit(c % 16);
      out[w + 3] := 0;
      next := w + 3;
    } else {
      out[w] := if c == SPACE then PLUS else c;
      next := w + 1;
    }
    assert out[..w] == old(out[..w]) && out[w..next] == Escape(c);
  }

  method StrLen(s: array<Byte>, ghost end: nat) returns (n: nat)
    requires end < s.Length && s[end] == 0 && 0 !in s[..end]
    ensures n == end
  {
    n := 0;
    assert 0 < end ==> s[..end][0] == s[0];
    while s[n] != 0
      invariant n <= end && (n < end ==> s[n] != 0)
      decreases end - n
    {
      n := n + 1;
      assert n < end ==> s[..end][n] == s[n];
    }
  }

  /** One round of uricDecode's loop. */
  method DecodeOne(s: array<Byte>, r: nat, w: nat, ghost source: seq<Byte>) returns (ok: bool, r': nat, w': nat)
    requires w <= r < |source| < s.Length && s[|source|] == 0 && 0 !in source && s[r..|source|] == source[r..]
    requires Reached(source, r, s[..w])
    modifies s
    ensures !ok ==> Decoded(source).None?
    ensures ok ==> w' <= r' <= |source| && r < r' && s[r'..|source|] == source[r'..]
                   && Reached(source, r', s[..w'])
    ensures s[|source|] == 0
  {
    ghost var done := s[..w];
    var step := ReadOn(s, r, source, done);
    if step.None? {
      return false, r, w;
    }
    ok, r', w' := true, r + step.value.taken, w + |step.value.bytes|;
    ghost var tail := s[r'..|source|];
    assert tail == s[r..|source|][step.value.taken..];
    assert source[r'..] == source[r..][step.value.taken..];
    Write(s, w, step.value.bytes);
    assert s[..w'] == done + step.value.bytes;
    assert s[r'..|source|] == tail;
  }

  /** The next step, and how far decoding gets with it. */
  method ReadOn(s: array<Byte>, r: nat, ghost source: seq<Byte>, ghost done: seq<Byte>) returns (step: Option<Step>)
    requires r < |source| < s.Length && s[|source|] == 0 && 0 !in source && s[r..|source|] == source[r..]
    requires Reached(source, r, done)
    ensures step.None? ==> Decoded(source).None?
    ensures step.Some? ==> 1 <= |step.value.bytes| <= step.value.taken && r + step.value.taken <= |source|
                           && Reached(source, r + step.value.taken, done + step.value.bytes)
  {
    step := ReadStep(s, r, |source|, source[r..]);
    if step.Some? {
      ReachedStep(source, r, done, step.value);
    }
  }

  /** Reads one character or escape at `r`. */
  method ReadStep(s: array<Byte>, r: nat, ghost end: nat, ghost rest: seq<Byte>) returns (step: Option<Step>)
    requires r < end < s.Length && s[end] == 0 && s[r..end] == rest && 0 !in rest
    ensures step == Unescape(rest)
  {
    assert rest[0] == s[r] && (r + 1 < end ==> rest[1] == s[r + 1]);
    if s[r] != PERCENT {
      return Some(Step(1, [if s[r] == PLUS then SPACE else s[r]]));
    }
    if s[r + 1] == LETTER_U {
      var unicode := ReadHex(s, r + 2, 4, end);
      assert r + 6 <= end ==> s[r..end][2..6] == s[r + 2..r + 6];
      return if unicode.None? then None else Some(Step(6, Utf8(unicode.value)));
    }
    var value := ReadHex(s, r + 1, 2, end);
    assert r + 3 <= end ==> s[r..end][1..3] == s[r + 1..r + 3];
    step := if value.None? then None else Some(Step(3, [value.value % 256]));
  }

  /** Exactly `n` hexadecimal digits; a terminating 0 is none. */
  method ReadHex(s: array<Byte>, p: nat, n: nat, ghost end: nat) returns (value: Option<nat>)
    requires p <= end < s.Length && s[end] == 0 && 0 !in s[p..end]
    ensures value == if p + n <= end then HexNumber(s[p..p + n]) else None
  {
    var v, i := 0, 0;
    while i < n
      invariant i <= n && p + i <= end && HexNumber(s[p..p + i]) == Some(v)
    {
      var digit := HexValue(s[p + i]);
      if digit.None? {
        NoNumber(s[p..if p + n <= end then p + n else p + i + 1], i);
        return None;
      }
      assert s[p..p + i + 1][..i] == s[p..p + i];
      v := v * 16 + digit.value;
      i := i + 1;
    }
    value := Some(v);
  }

  lemma {:induction false} NoNumber(s: seq<Byte>, i: nat)
    requires i < |s| && HexValue(s[i]).None?
    ensures HexNumber(s).None?
  {
    if i < |s| - 1 {
      NoNumber(s[..|s| - 1], i);
    }
  }

  method Write(s: array<Byte>, w: nat, bytes: seq<Byte>)
    requires w + |bytes| <= s.Length
    modifies s
    ensures s[..w] == old(s[..w]) && s[w..w + |bytes|] == bytes
    ensures forall i :: w + |bytes| <= i < s.Length ==> s[i] == old(s[i])
  {
    var i := 0;
    while i < |bytes|
      invariant i <= |bytes| && s[..w] == old(s[..w]) && s[w..w + i] == bytes[..i]
      invariant forall k :: w + i <= k < s.Length ==> s[k] == old(s[k])
    {
      s[w + i] := bytes[i];
      i := i + 1;
    }
  }
}
