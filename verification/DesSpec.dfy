/**
 The Data Encryption Standard as xframe/comserv/des.C computes it, on bit sequences.

 Everything is stated over a record of tables; `FipsTables` holds the ones of the source (FIPS 46-3),
 and the theorems use no more about them than `Shaped`, `IpInverts` and `SkipsParity` say.
 */
module DesSpec {
  import opened Bytes

  type Bit = b: int | 0 <= b < 2
  type Bits = seq<Bit>

  datatype Tables = Tables(pc1c: seq<int>, pc1d: seq<int>, pc2: seq<int>, lsCount: seq<int>,
                           ip: seq<int>, ipInverse: seq<int>, er: seq<int>, p: seq<int>, sss: seq<seq<seq<int>>>)

  predicate Selects(table: seq<int>, size: nat, from: nat) {
    |table| == size && forall i :: 0 <= i < size ==> 1 <= table[i] <= from
  }

  /** Selecting by `a` and then by `b` gives every position back. */
  predicate Undoes(a: seq<int>, b: seq<int>) {
    |a| == |b| && forall i :: 0 <= i < |b| ==> 1 <= b[i] <= |a| && a[b[i] - 1] == i + 1
  }

  predicate Shifts(counts: seq<int>) { |counts| == 16 && forall i :: 0 <= i < 16 ==> 0 <= counts[i] <= 2 }

  predicate Boxes(sss: seq<seq<seq<int>>>) {
    && |sss| == 8 && (forall i :: 0 <= i < 8 ==> |sss[i]| == 4)
    && forall i, y :: 0 <= i < 8 && 0 <= y < 4 ==> |sss[i][y]| == 16
  }

  /** The tables have the sizes and entries the loops index with. */
  predicate Shaped(t: Tables) {
    && Selects(t.pc1c, 28, 64) && Selects(t.pc1d, 28, 64) && Selects(t.pc2, 48, 56)
    && Shifts(t.lsCount)
    && Selects(t.ip, 64, 64) && Selects(t.ipInverse, 64, 64)
    && Selects(t.er, 48, 32) && Selects(t.p, 32, 32)
    && Boxes(t.sss)
  }

  /** ip_1 undoes ip, and ip undoes ip_1. */
  predicate IpInverts(t: Tables) { Undoes(t.ip, t.ipInverse) && Undoes(t.ipInverse, t.ip) }

  /** The key selections take no parity bit. */
  predicate SkipsParity(t: Tables) {
    && Selects(t.pc1c, 28, 64) && Selects(t.pc1d, 28, 64)
    && (forall i :: 0 <= i < 28 ==> t.pc1c[i] % 8 != 0)
    && (forall i :: 0 <= i < 28 ==> t.pc1d[i] % 8 != 0)
  }

  // ----- bits -----

  function Permute(bits: Bits, table: seq<int>): (r: Bits)
    requires Selects(table, |table|, |bits|)
    ensures |r| == |table|
  {
    seq(|table|, i requires 0 <= i < |table| => bits[table[i] - 1])
  }

  function XorBit(a: Bit, b: Bit): Bit { (a + b) % 2 }

  function Xor(a: Bits, b: Bits): (r: Bits)
    requires |a| <= |b|
    ensures |r| == |a|
  {
    seq(|a|, i requires 0 <= i < |a| => XorBit(a[i], b[i]))
  }

  /** Bit j of a byte, the high bit first. */
  function BitOf(b: int, j: nat): Bit
    requires j < 8
  {
    if j == 0 then b / 128 % 2
    else if j == 1 then b / 64 % 2
    else if j == 2 then b / 32 % 2
    else if j == 3 then b / 16 % 2
    else if j == 4 then b / 8 % 2
    else if j == 5 then b / 4 % 2
    else if j == 6 then b / 2 % 2
    else b % 2
  }

  /** expand0: eight bytes as 64 bits, the high bit of each byte first. */
  function Expand(bytes: seq<Byte>): (r: Bits)
    requires |bytes| == 8
    ensures |r| == 64
  {
    seq(64, i requires 0 <= i < 64 => BitOf(bytes[i / 8], i % 8))
  }

  function Weigh(a: int, b: int, c: int, d: int, e: int, f: int, g: int, h: int): int {
    a * 128 + b * 64 + c * 32 + d * 16 + e * 8 + f * 4 + g * 2 + h
  }

  function ByteOf(bits: Bits): (r: Byte)
    requires |bits| == 8
  {
    Weigh(bits[0], bits[1], bits[2], bits[3], bits[4], bits[5], bits[6], bits[7])
  }

  /** compress0. */
  function Compress(bits: Bits): (r: seq<Byte>)
    requires |bits| == 64
    ensures |r| == 8
  {
    seq(8, i requires 0 <= i < 8 => ByteOf(bits[8 * i..8 * i + 8]))
  }

  // ----- key schedule -----

  function Rotate(bits: Bits, count: nat): (r: Bits)
    requires |bits| == 28
    ensures |r| == 28
  {
    seq(28, i requires 0 <= i < 28 => bits[(i + count) % 28])
  }

  /** C[j] or D[j] of setkeystar, from C[0] or D[0]. */
  function Half(t: Tables, start: Bits, j: nat): (r: Bits)
    requires Shifts(t.lsCount) && |start| == 28 && j <= 16
    ensures |r| == 28
  {
    if j == 0 then start else Rotate(Half(t, start, j - 1), t.lsCount[j - 1])
  }

  /** K[j]. */
  function SubKey(t: Tables, key: Bits, j: nat): (r: Bits)
    requires Shaped(t) && |key| == 64 && j <= 16
    ensures |r| == 48
  {
    Permute(Half(t, Permute(key, t.pc1c), j) + Half(t, Permute(key, t.pc1d), j), t.pc2)
  }

  type KeyList = ks: seq<Bits> | forall i :: 0 <= i < |ks| ==> |ks[i]| == 48 witness []

  /** K[1..17], the keys in encryption order. */
  function Schedule(t: Tables, key: Bits): (r: KeyList)
    requires Shaped(t) && |key| == 64
    ensures |r| == 16
  {
    seq(16, j requires 0 <= j < 16 => SubKey(t, key, j + 1))
  }

  // ----- rounds -----

  function SBoxValue(sss: seq<seq<seq<int>>>, bits: Bits, i: nat): int
    requires Boxes(sss) && |bits| == 48 && i < 8
  {
    var j := 6 * i;
    sss[i][Weigh(0, 0, 0, 0, 0, 0, bits[j], bits[j + 5])]
          [Weigh(0, 0, 0, 0, bits[j + 1], bits[j + 2], bits[j + 3], bits[j + 4])]
  }

  function SBox(sss: seq<seq<seq<int>>>, bits: Bits): (r: Bits)
    requires Boxes(sss) && |bits| == 48
    ensures |r| == 32
  {
    seq(32, m requires 0 <= m < 32 => BitOf(SBoxValue(sss, bits, m / 4), 4 + m % 4))
  }

  /** The cipher function: expansion, key, S-boxes, permutation. */
  function Cipher(t: Tables, r: Bits, k: Bits): (f: Bits)
    requires Shaped(t) && |r| == 32 && |k| == 48
    ensures |f| == 32
  {
    Permute(SBox(t.sss, Xor(Permute(r, t.er), k)), t.p)
  }

  datatype Halves = Halves(l: Bits, r: Bits)

  predicate IsBlock(h: Halves) { |h.l| == 32 && |h.r| == 32 }

  /** F. */
  function Round(t: Tables, h: Halves, k: Bits): (r: Halves)
    requires Shaped(t) && IsBlock(h) && |k| == 48
    ensures IsBlock(r)
  {
    Halves(h.r, Xor(Cipher(t, h.r, k), h.l))
  }

  function Rounds(t: Tables, h: Halves, ks: KeyList): (r: Halves)
    requires Shaped(t) && IsBlock(h)
    ensures IsBlock(r)
    decreases |ks|
  {
    if ks == [] then h else Rounds(t, Round(t, h, ks[0]), ks[1..])
  }

  function Reverse(ks: KeyList): (r: KeyList)
    ensures |r| == |ks|
    decreases |ks|
  {
    if ks == [] then [] else Reverse(ks[1..]) + [ks[0]]
  }

  /** ip: the two halves of the permuted block. */
  function Split(t: Tables, block: Bits): (h: Halves)
    requires Shaped(t) && |block| == 64
    ensures IsBlock(h)
  {
    var bits := Permute(block, t.ip);
    Halves(bits[..32], bits[32..])
  }

  /** ip_1 on the swapped halves. */
  function Join(t: Tables, h: Halves): (r: Bits)
    requires Shaped(t) && IsBlock(h)
    ensures |r| == 64
  {
    Permute(h.r + h.l, t.ipInverse)
  }

  function Crypt(t: Tables, block: Bits, ks: KeyList): (r: Bits)
    requires Shaped(t) && |block| == 64
    ensures |r| == 64
  {
    Join(t, Rounds(t, Split(t, block), ks))
  }

  // ----- the four operations, on bytes -----

  predicate Block(b: seq<Byte>) { |b| == 8 }

  function Encrypt(t: Tables, key: seq<Byte>, text: seq<Byte>): (r: seq<Byte>)
    requires Shaped(t) && Block(key) && Block(text)
    ensures Block(r)
  {
    Compress(Crypt(t, Expand(text), Schedule(t, Expand(key))))
  }

  function Decrypt(t: Tables, key: seq<Byte>, text: seq<Byte>): (r: seq<Byte>)
    requires Shaped(t) && Block(key) && Block(text)
    ensures Block(r)
  {
    Compress(Crypt(t, Expand(text), Reverse(Schedule(t, Expand(key)))))
  }

  function TripleEncrypt(t: Tables, key16: seq<Byte>, text: seq<Byte>): (r: seq<Byte>)
    requires Shaped(t) && |key16| == 16 && Block(text)
    ensures Block(r)
  {
    Encrypt(t, key16[..8], Decrypt(t, key16[8..], Encrypt(t, key16[..8], text)))
  }

  function TripleDecrypt(t: Tables, key16: seq<Byte>, text: seq<Byte>): (r: seq<Byte>)
    requires Shaped(t) && |key16| == 16 && Block(text)
    ensures Block(r)
  {
    Decrypt(t, key16[..8], Encrypt(t, key16[8..], Decrypt(t, key16[..8], text)))
  }

  // ----- inverses -----

  lemma ByteRoundTrip(b: int)
    requires 0 <= b < 256
    ensures Weigh(b / 128 % 2, b / 64 % 2, b / 32 % 2, b / 16 % 2, b / 8 % 2, b / 4 % 2, b / 2 % 2, b % 2) == b
  {
    assert b / 64 == b / 128 * 2 + b / 64 % 2;
    assert b / 32 == b / 64 * 2 + b / 32 % 2;
    assert b / 16 == b / 32 * 2 + b / 16 % 2;
    assert b / 8 == b / 16 * 2 + b / 8 % 2;
    assert b / 4 == b / 8 * 2 + b / 4 % 2;
    assert b / 2 == b / 4 * 2 + b / 2 % 2;
  }

  lemma BitsOfByte(part: Bits, b: Byte)
    requires |part| == 8 && forall j :: 0 <= j < 8 ==> part[j] == BitOf(b, j)
    ensures ByteOf(part) == b
  {
    ByteRoundTrip(b);
    assert part[0] == BitOf(b, 0) && part[1] == BitOf(b, 1) && part[2] == BitOf(b, 2) && part[3] == BitOf(b, 3);
    assert part[4] == BitOf(b, 4) && part[5] == BitOf(b, 5) && part[6] == BitOf(b, 6) && part[7] == BitOf(b, 7);
  }

  lemma ExpandedByte(bytes: seq<Byte>, i: nat, j: nat)
    requires Block(bytes) && i < 8 && j < 8
    ensures Expand(bytes)[8 * i..8 * i + 8][j] == BitOf(bytes[i], j)
  {
    assert (8 * i + j) / 8 == i && (8 * i + j) % 8 == j;
  }

  lemma CompressExpand(bytes: seq<Byte>)
    requires Block(bytes)
    ensures Compress(Expand(bytes)) == bytes
  {
    var bits := Expand(bytes);
    forall i | 0 <= i < 8 ensures Compress(bits)[i] == bytes[i] {
      forall j | 0 <= j < 8 ensures bits[8 * i..8 * i + 8][j] == BitOf(bytes[i], j) {
        ExpandedByte(bytes, i, j);
      }
      BitsOfByte(bits[8 * i..8 * i + 8], bytes[i]);
    }
  }

  lemma WeighedBits(a: int, b: int, c: int, d: int, e: int, f: int, g: int, h: int)
    requires 0 <= a < 2 && 0 <= b < 2 && 0 <= c < 2 && 0 <= d < 2 && 0 <= e < 2 && 0 <= f < 2 && 0 <= g < 2 && 0 <= h < 2
    ensures var w := Weigh(a, b, c, d, e, f, g, h);
            && w / 128 % 2 == a && w / 64 % 2 == b && w / 32 % 2 == c && w / 16 % 2 == d
            && w / 8 % 2 == e && w / 4 % 2 == f && w / 2 % 2 == g && w % 2 == h
  {
    var w := Weigh(a, b, c, d, e, f, g, h);
    assert w / 128 == a;
    assert w / 64 == a * 2 + b;
    assert w / 32 == a * 4 + b * 2 + c;
    assert w / 16 == a * 8 + b * 4 + c * 2 + d;
    assert w / 8 == a * 16 + b * 8 + c * 4 + d * 2 + e;
    assert w / 4 == a * 32 + b * 16 + c * 8 + d * 4 + e * 2 + f;
    assert w / 2 == a * 64 + b * 32 + c * 16 + d * 8 + e * 4 + f * 2 + g;
  }

  lemma BitsRoundTrip(bits: Bits, j: nat)
    requires |bits| == 8 && j < 8
    ensures BitOf(ByteOf(bits), j) == bits[j]
  {
    WeighedBits(bits[0], bits[1], bits[2], bits[3], bits[4], bits[5], bits[6], bits[7]);
  }

  lemma ExpandCompress(bits: Bits)
    requires |bits| == 64
    ensures Expand(Compress(bits)) == bits
  {
    forall i | 0 <= i < 64 ensures Expand(Compress(bits))[i] == bits[i] {
      var part := bits[8 * (i / 8)..8 * (i / 8) + 8];
      BitsRoundTrip(part, i % 8);
      assert part[i % 8] == bits[i];
    }
  }

  lemma PermuteUndone(bits: Bits, a: seq<int>, b: seq<int>)
    requires Undoes(a, b) && Selects(a, |bits|, |bits|) && Selects(b, |bits|, |bits|)
    ensures Permute(Permute(bits, a), b) == bits
  {
  }

  lemma XorTwice(f: Bits, l: Bits)
    requires |f| == |l|
    ensures Xor(f, Xor(f, l)) == l
  {
  }

  lemma {:induction false} RoundsAppend(t: Tables, h: Halves, ks: KeyList, k: Bits)
    requires Shaped(t) && IsBlock(h) && |k| == 48
    ensures Rounds(t, h, ks + [k]) == Round(t, Rounds(t, h, ks), k)
    decreases |ks|
  {
    if ks == [] {
      assert ks + [k] == [k];
      assert Rounds(t, h, [k]) == Rounds(t, Round(t, h, k), [k][1..]);
    } else {
      assert (ks + [k])[1..] == ks[1..] + [k];
      RoundsAppend(t, Round(t, h, ks[0]), ks[1..], k);
    }
  }

  function Swap(h: Halves): Halves { Halves(h.r, h.l) }

  lemma RoundUndone(t: Tables, h: Halves, k: Bits)
    requires Shaped(t) && IsBlock(h) && |k| == 48
    ensures Round(t, Swap(Round(t, h, k)), k) == Swap(h)
  {
    XorTwice(Cipher(t, h.r, k), h.l);
  }

  /** The Feistel network run with the keys reversed on the swapped halves gives the start back, swapped. */
  lemma {:induction false} RoundsUndone(t: Tables, h: Halves, ks: KeyList)
    requires Shaped(t) && IsBlock(h)
    ensures Rounds(t, Swap(Rounds(t, h, ks)), Reverse(ks)) == Swap(h)
    decreases |ks|
  {
    if ks != [] {
      var h1 := Round(t, h, ks[0]);
      RoundsUndone(t, h1, ks[1..]);
      RoundsAppend(t, Swap(Rounds(t, h, ks)), Reverse(ks[1..]), ks[0]);
      RoundUndone(t, h, ks[0]);
    }
  }

  lemma {:induction false} ReverseAppend(ks: KeyList, k: Bits)
    requires |k| == 48
    ensures Reverse(ks + [k]) == [k] + Reverse(ks)
    decreases |ks|
  {
    if ks != [] {
      assert (ks + [k])[1..] == ks[1..] + [k];
      ReverseAppend(ks[1..], k);
    } else {
      assert ks + [k] == [k];
      assert Reverse([k]) == Reverse([k][1..]) + [k];
    }
  }

  lemma {:induction false} ReverseTwice(ks: KeyList)
    ensures Reverse(Reverse(ks)) == ks
    decreases |ks|
  {
    if ks != [] {
      ReverseAppend(Reverse(ks[1..]), ks[0]);
      ReverseTwice(ks[1..]);
    }
  }

  lemma SplitJoin(t: Tables, h: Halves)
    requires Shaped(t) && IpInverts(t) && IsBlock(h)
    ensures Split(t, Join(t, h)) == Swap(h)
  {
    PermuteUndone(h.r + h.l, t.ipInverse, t.ip);
    assert (h.r + h.l)[..32] == h.r && (h.r + h.l)[32..] == h.l;
  }

  lemma JoinSplit(t: Tables, block: Bits)
    requires Shaped(t) && IpInverts(t) && |block| == 64
    ensures Join(t, Swap(Split(t, block))) == block
  {
    var bits := Permute(block, t.ip);
    assert bits[..32] + bits[32..] == bits;
    PermuteUndone(block, t.ip, t.ipInverse);
  }

  lemma CryptUndone(t: Tables, block: Bits, ks: KeyList)
    requires Shaped(t) && IpInverts(t) && |block| == 64
    ensures Crypt(t, Crypt(t, block, ks), Reverse(ks)) == block
  {
    var h := Split(t, block);
    SplitJoin(t, Rounds(t, h, ks));
    RoundsUndone(t, h, ks);
    JoinSplit(t, block);
  }

  /** DES_1 undoes DES. */
  lemma DecryptEncrypt(t: Tables, key: seq<Byte>, text: seq<Byte>)
    requires Shaped(t) && IpInverts(t) && Block(key) && Block(text)
    ensures Decrypt(t, key, Encrypt(t, key, text)) == text
  {
    var ks := Schedule(t, Expand(key));
    ExpandCompress(Crypt(t, Expand(text), ks));
    CryptUndone(t, Expand(text), ks);
    CompressExpand(text);
  }

  /** DES undoes DES_1. */
  lemma EncryptDecrypt(t: Tables, key: seq<Byte>, text: seq<Byte>)
    requires Shaped(t) && IpInverts(t) && Block(key) && Block(text)
    ensures Encrypt(t, key, Decrypt(t, key, text)) == text
  {
    var ks := Schedule(t, Expand(key));
    ExpandCompress(Crypt(t, Expand(text), Reverse(ks)));
    CryptUndone(t, Expand(text), Reverse(ks));
    ReverseTwice(ks);
    CompressExpand(text);
  }

  lemma TripleDecryptEncrypt(t: Tables, key16: seq<Byte>, text: seq<Byte>)
    requires Shaped(t) && IpInverts(t) && |key16| == 16 && Block(text)
    ensures TripleDecrypt(t, key16, TripleEncrypt(t, key16, text)) == text
  {
    var l, r := key16[..8], key16[8..];
    var one := Encrypt(t, l, text);
    var two := Decrypt(t, r, one);
    DecryptEncrypt(t, l, two);
    EncryptDecrypt(t, r, one);
    DecryptEncrypt(t, l, text);
  }

  lemma TripleEncryptDecrypt(t: Tables, key16: seq<Byte>, text: seq<Byte>)
    requires Shaped(t) && IpInverts(t) && |key16| == 16 && Block(text)
    ensures TripleEncrypt(t, key16, TripleDecrypt(t, key16, text)) == text
  {
    var l, r := key16[..8], key16[8..];
    var one := Decrypt(t, l, text);
    var two := Encrypt(t, r, one);
    EncryptDecrypt(t, l, two);
    DecryptEncrypt(t, r, one);
    EncryptDecrypt(t, l, text);
  }

  /** The first half of the key is the outer one: what the inner steps undo, it encrypts. */
  lemma FirstHalfIsOuter(t: Tables, outer: seq<Byte>, inner: seq<Byte>, text: seq<Byte>)
    requires Shaped(t) && IpInverts(t) && Block(outer) && Block(inner) && Block(text)
    ensures TripleEncrypt(t, outer + inner, Decrypt(t, outer, Encrypt(t, inner, text))) == Encrypt(t, outer, text)
    ensures TripleDecrypt(t, outer + inner, Encrypt(t, outer, Decrypt(t, inner, text))) == Decrypt(t, outer, text)
  {
    assert (outer + inner)[..8] == outer && (outer + inner)[8..] == inner;
    EncryptDecrypt(t, outer, Encrypt(t, inner, text));
    DecryptEncrypt(t, inner, text);
    DecryptEncrypt(t, outer, Decrypt(t, inner, text));
    EncryptDecrypt(t, inner, text);
  }

  /** With equal key halves Triple DES is single DES. */
  lemma EqualHalvesIsSingle(t: Tables, key: seq<Byte>, text: seq<Byte>)
    requires Shaped(t) && IpInverts(t) && Block(key) && Block(text)
    ensures TripleEncrypt(t, key + key, text) == Encrypt(t, key, text)
    ensures TripleDecrypt(t, key + key, text) == Decrypt(t, key, text)
  {
    assert (key + key)[..8] == key && (key + key)[8..] == key;
    DecryptEncrypt(t, key, text);
    EncryptDecrypt(t, key, text);
  }
}
