/** The complementation property of DES and the irrelevance of the key parity bits. */
module DesComplement {
  import opened Bytes
  import opened DesSpec

  function Not(bits: Bits): (r: Bits)
    ensures |r| == |bits|
  {
    seq(|bits|, i requires 0 <= i < |bits| => 1 - bits[i])
  }

  /** ~ on each byte. */
  function Complement(bytes: seq<Byte>): (r: seq<Byte>)
    ensures |r| == |bytes|
  {
    seq(|bytes|, i requires 0 <= i < |bytes| => 255 - bytes[i])
  }

  function NotKeys(ks: KeyList): (r: KeyList)
    ensures |r| == |ks|
  {
    seq(|ks|, i requires 0 <= i < |ks| => Not(ks[i]))
  }

  function NotHalves(h: Halves): Halves { Halves(Not(h.l), Not(h.r)) }

  lemma BitOfComplement(b: int, j: nat)
    requires 0 <= b < 256 && j < 8
    ensures BitOf(255 - b, j) == 1 - BitOf(b, j)
  {
    ByteRoundTrip(b);
    var c := 255 - b;
    WeighedBits(1 - BitOf(b, 0), 1 - BitOf(b, 1), 1 - BitOf(b, 2), 1 - BitOf(b, 3),
                1 - BitOf(b, 4), 1 - BitOf(b, 5), 1 - BitOf(b, 6), 1 - BitOf(b, 7));
  }

  lemma ExpandComplement(bytes: seq<Byte>)
    requires Block(bytes)
    ensures Expand(Complement(bytes)) == Not(Expand(bytes))
  {
    forall i | 0 <= i < 64 ensures Expand(Complement(bytes))[i] == Not(Expand(bytes))[i] {
      BitOfComplement(bytes[i / 8], i % 8);
    }
  }

  lemma PermuteNot(bits: Bits, table: seq<int>)
    requires Selects(table, |table|, |bits|)
    ensures Permute(Not(bits), table) == Not(Permute(bits, table))
  {
  }

  lemma RotateNot(bits: Bits, count: nat)
    requires |bits| == 28
    ensures Rotate(Not(bits), count) == Not(Rotate(bits, count))
  {
  }

  lemma {:induction false} HalfNot(t: Tables, start: Bits, j: nat)
    requires Shifts(t.lsCount) && |start| == 28 && j <= 16
    ensures Half(t, Not(start), j) == Not(Half(t, start, j))
  {
    if j > 0 {
      HalfNot(t, start, j - 1);
      RotateNot(Half(t, start, j - 1), t.lsCount[j - 1]);
    }
  }

  lemma SubKeyNot(t: Tables, key: Bits, j: nat)
    requires Shaped(t) && |key| == 64 && j <= 16
    ensures SubKey(t, Not(key), j) == Not(SubKey(t, key, j))
  {
    PermuteNot(key, t.pc1c);
    PermuteNot(key, t.pc1d);
    var c, d := Permute(key, t.pc1c), Permute(key, t.pc1d);
    HalfNot(t, c, j);
    HalfNot(t, d, j);
    assert Not(Half(t, c, j)) + Not(Half(t, d, j)) == Not(Half(t, c, j) + Half(t, d, j));
    PermuteNot(Half(t, c, j) + Half(t, d, j), t.pc2);
  }

  lemma ScheduleNot(t: Tables, key: Bits)
    requires Shaped(t) && |key| == 64
    ensures Schedule(t, Not(key)) == NotKeys(Schedule(t, key))
  {
    forall j | 0 <= j < 16 ensures Schedule(t, Not(key))[j] == NotKeys(Schedule(t, key))[j] {
      SubKeyNot(t, key, j + 1);
    }
  }

  lemma XorNot(a: Bits, b: Bits)
    requires |a| <= |b|
    ensures Xor(a, Not(b)) == Not(Xor(a, b))
  {
  }

  lemma XorBothNot(a: Bits, b: Bits)
    requires |a| <= |b|
    ensures Xor(Not(a), Not(b)) == Xor(a, b)
  {
  }

  /** The expanded half and the key are complemented together, so the S-boxes see the same bits. */
  lemma CipherNot(t: Tables, r: Bits, k: Bits)
    requires Shaped(t) && |r| == 32 && |k| == 48
    ensures Cipher(t, Not(r), Not(k)) == Cipher(t, r, k)
  {
    PermuteNot(r, t.er);
    XorBothNot(Permute(r, t.er), k);
  }

  lemma RoundNot(t: Tables, h: Halves, k: Bits)
    requires Shaped(t) && IsBlock(h) && |k| == 48
    ensures Round(t, NotHalves(h), Not(k)) == NotHalves(Round(t, h, k))
  {
    CipherNot(t, h.r, k);
    XorNot(Cipher(t, h.r, k), h.l);
  }

  lemma {:induction false} RoundsNot(t: Tables, h: Halves, ks: KeyList)
    requires Shaped(t) && IsBlock(h)
    ensures Rounds(t, NotHalves(h), NotKeys(ks)) == NotHalves(Rounds(t, h, ks))
    decreases |ks|
  {
    if ks != [] {
      RoundNot(t, h, ks[0]);
      assert NotKeys(ks)[1..] == NotKeys(ks[1..]);
      RoundsNot(t, Round(t, h, ks[0]), ks[1..]);
    }
  }

  lemma SplitNot(t: Tables, block: Bits)
    requires Shaped(t) && |block| == 64
    ensures Split(t, Not(block)) == NotHalves(Split(t, block))
  {
    PermuteNot(block, t.ip);
    var bits := Permute(block, t.ip);
    assert Not(bits)[..32] == Not(bits[..32]) && Not(bits)[32..] == Not(bits[32..]);
  }

  lemma JoinNot(t: Tables, h: Halves)
    requires Shaped(t) && IsBlock(h)
    ensures Join(t, NotHalves(h)) == Not(Join(t, h))
  {
    assert Not(h.r) + Not(h.l) == Not(h.r + h.l);
    PermuteNot(h.r + h.l, t.ipInverse);
  }

  lemma CryptNot(t: Tables, block: Bits, ks: KeyList)
    requires Shaped(t) && |block| == 64
    ensures Crypt(t, Not(block), NotKeys(ks)) == Not(Crypt(t, block, ks))
  {
    SplitNot(t, block);
    RoundsNot(t, Split(t, block), ks);
    JoinNot(t, Rounds(t, Split(t, block), ks));
  }

  lemma CompressNot(bits: Bits)
    requires |bits| == 64
    ensures Compress(Not(bits)) == Complement(Compress(bits))
  {
    ExpandComplement(Compress(bits));
    ExpandCompress(bits);
    CompressExpand(Complement(Compress(bits)));
  }

  /** Complementing key and text complements the ciphertext. */
  lemma EncryptComplement(t: Tables, key: seq<Byte>, text: seq<Byte>)
    requires Shaped(t) && Block(key) && Block(text)
    ensures Encrypt(t, Complement(key), Complement(text)) == Complement(Encrypt(t, key, text))
  {
    ExpandComplement(key);
    ExpandComplement(text);
    ScheduleNot(t, Expand(key));
    CryptNot(t, Expand(text), Schedule(t, Expand(key)));
    CompressNot(Crypt(t, Expand(text), Schedule(t, Expand(key))));
  }

  /** So does decryption, being the inverse. */
  lemma DecryptComplement(t: Tables, key: seq<Byte>, text: seq<Byte>)
    requires Shaped(t) && IpInverts(t) && Block(key) && Block(text)
    ensures Decrypt(t, Complement(key), Complement(text)) == Complement(Decrypt(t, key, text))
  {
    var plain := Decrypt(t, key, text);
    EncryptDecrypt(t, key, text);
    EncryptComplement(t, key, plain);
    DecryptEncrypt(t, Complement(key), Complement(plain));
  }

  lemma TripleComplement(t: Tables, key16: seq<Byte>, text: seq<Byte>)
    requires Shaped(t) && IpInverts(t) && |key16| == 16 && Block(text)
    ensures TripleEncrypt(t, Complement(key16), Complement(text)) == Complement(TripleEncrypt(t, key16, text))
    ensures TripleDecrypt(t, Complement(key16), Complement(text)) == Complement(TripleDecrypt(t, key16, text))
  {
    TripleEncryptComplement(t, key16, text);
    TripleDecryptComplement(t, key16, text);
  }

  lemma TripleEncryptComplement(t: Tables, key16: seq<Byte>, text: seq<Byte>)
    requires Shaped(t) && IpInverts(t) && |key16| == 16 && Block(text)
    ensures TripleEncrypt(t, Complement(key16), Complement(text)) == Complement(TripleEncrypt(t, key16, text))
  {
    var l, r := key16[..8], key16[8..];
    assert Complement(key16)[..8] == Complement(l) && Complement(key16)[8..] == Complement(r);
    EncryptComplement(t, l, text);
    DecryptComplement(t, r, Encrypt(t, l, text));
    EncryptComplement(t, l, Decrypt(t, r, Encrypt(t, l, text)));
  }

  lemma TripleDecryptComplement(t: Tables, key16: seq<Byte>, text: seq<Byte>)
    requires Shaped(t) && IpInverts(t) && |key16| == 16 && Block(text)
    ensures TripleDecrypt(t, Complement(key16), Complement(text)) == Complement(TripleDecrypt(t, key16, text))
  {
    var l, r := key16[..8], key16[8..];
    assert Complement(key16)[..8] == Complement(l) && Complement(key16)[8..] == Complement(r);
    DecryptComplement(t, l, text);
    EncryptComplement(t, r, Decrypt(t, l, text));
    DecryptComplement(t, l, Encrypt(t, r, Decrypt(t, l, text)));
  }

  // ----- parity -----

  /** The keys differ at most in the low bit of each byte. */
  predicate SameUpToParity(a: seq<Byte>, b: seq<Byte>) {
    |a| == |b| && forall i :: 0 <= i < |a| ==> a[i] / 2 == b[i] / 2
  }

  lemma BitAboveParity(a: int, b: int, j: nat)
    requires a / 2 == b / 2 && j < 7
    ensures BitOf(a, j) == BitOf(b, j)
  {
    assert a / 4 == a / 2 / 2 && b / 4 == b / 2 / 2;
    assert a / 8 == a / 2 / 4 && b / 8 == b / 2 / 4;
    assert a / 16 == a / 2 / 8 && b / 16 == b / 2 / 8;
    assert a / 32 == a / 2 / 16 && b / 32 == b / 2 / 16;
    assert a / 64 == a / 2 / 32 && b / 64 == b / 2 / 32;
    assert a / 128 == a / 2 / 64 && b / 128 == b / 2 / 64;
  }

  lemma SelectionsAgree(a: seq<Byte>, b: seq<Byte>, table: seq<int>)
    requires Block(a) && Block(b) && SameUpToParity(a, b) && Selects(table, |table|, 64)
    requires forall i :: 0 <= i < |table| ==> table[i] % 8 != 0
    ensures Permute(Expand(a), table) == Permute(Expand(b), table)
  {
    forall i | 0 <= i < |table| ensures Permute(Expand(a), table)[i] == Permute(Expand(b), table)[i] {
      var k := table[i] - 1;
      assert k % 8 < 7;
      BitAboveParity(a[k / 8], b[k / 8], k % 8);
    }
  }

  lemma ParityIrrelevant(t: Tables, a: seq<Byte>, b: seq<Byte>, text: seq<Byte>)
    requires Shaped(t) && SkipsParity(t) && Block(a) && Block(b) && SameUpToParity(a, b) && Block(text)
    ensures Encrypt(t, a, text) == Encrypt(t, b, text)
    ensures Decrypt(t, a, text) == Decrypt(t, b, text)
  {
    SelectionsAgree(a, b, t.pc1c);
    SelectionsAgree(a, b, t.pc1d);
    assert Schedule(t, Expand(a)) == Schedule(t, Expand(b));
  }
}
