/**
 DES and two-key Triple DES as xframe/comserv/des.C runs them: loops that fill bit arrays in
 place, and the key schedule in the arrays C, D and K that all calls share.
 */
module Des {
  import opened Bytes
  import opened DesSpec
  import opened DesTables

  /** The successive values of `divide` and `times`. */
  function Power(j: nat): int
    requires j <= 8
  {
    if j == 0 then 128 else Power(j - 1) / 2
  }

  lemma PowerValues()
    ensures Power(0) == 128 && Power(1) == 64 && Power(2) == 32 && Power(3) == 16
    ensures Power(4) == 8 && Power(5) == 4 && Power(6) == 2 && Power(7) == 1
  {
    assert Power(3) == 16 && Power(5) == 4;
  }

  lemma DividedBit(b: int, j: nat)
    requires j < 8
    ensures Power(j) > 0 && b / Power(j) % 2 == BitOf(b, j)
  {
    PowerValues();
  }

  /** What compress0 has accumulated after j bits. */
  function Accumulated(bits: Bits, j: nat): int
    requires j <= |bits| && j <= 8
  {
    if j == 0 then 0 else Accumulated(bits, j - 1) + (if bits[j - 1] == 1 then Power(j - 1) else 0)
  }

  lemma AccumulatedHigh(bits: Bits)
    requires |bits| == 8
    ensures Accumulated(bits, 4) == Weigh(bits[0], bits[1], bits[2], bits[3], 0, 0, 0, 0)
  {
    PowerValues();
    assert Accumulated(bits, 1) == (if bits[0] == 1 then 128 else 0);
    assert Accumulated(bits, 2) == Accumulated(bits, 1) + (if bits[1] == 1 then 64 else 0);
    assert Accumulated(bits, 3) == Accumulated(bits, 2) + (if bits[2] == 1 then 32 else 0);
  }

  lemma AccumulatedByte(bits: Bits)
    requires |bits| == 8
    ensures Accumulated(bits, 8) == ByteOf(bits)
  {
    AccumulatedHigh(bits);
    PowerValues();
    assert Accumulated(bits, 5) == Accumulated(bits, 4) + (if bits[4] == 1 then 8 else 0);
    assert Accumulated(bits, 6) == Accumulated(bits, 5) + (if bits[5] == 1 then 4 else 0);
    assert Accumulated(bits, 7) == Accumulated(bits, 6) + (if bits[6] == 1 then 2 else 0);
  }

  ghost function Row(a: array2<Bit>, i: nat): (r: Bits)
    requires i < a.Length0
    reads a
    ensures |r| == a.Length1
    ensures forall c :: 0 <= c < a.Length1 ==> r[c] == a[i, c]
  {
    seq(a.Length1, c requires 0 <= c < a.Length1 reads a => a[i, c])
  }

  /** The inner loops of expand0 and s_box: `count` low bits of v, the highest first. */
  method PutBits(v: int, count: nat, out: array<Bit>, base: nat)
    requires count <= 8 && base + count <= out.Length
    modifies out
    ensures forall m :: 0 <= m < out.Length ==>
              out[m] == if base <= m < base + count then BitOf(v, 8 - count + m - base) else old(out[m])
  {
    var divide := Power(8 - count);
    for j := 0 to count
      invariant divide == Power(8 - count + j)
      invariant forall m :: 0 <= m < out.Length ==>
                  out[m] == if base <= m < base + j then BitOf(v, 8 - count + m - base) else old(out[m])
    {
      DividedBit(v, 8 - count + j);
      out[base + j] := v / divide % 2;
      divide := divide / 2;
    }
  }

  method Expand0(input: array<Byte>, out: array<Bit>)
    requires input.Length == 8 && out.Length == 64
    modifies out
    ensures out[..] == Expand(input[..])
  {
    for i := 0 to 8
      invariant forall m :: 0 <= m < 8 * i ==> out[m] == BitOf(input[m / 8], m % 8)
    {
      PutBits(input[i], 8, out, 8 * i);
    }
  }

  /** The inner loop of compress0. */
  method GetByte(bits: array<Bit>, base: nat) returns (b: Byte)
    requires base + 8 <= bits.Length
    ensures b == ByteOf(bits[base..base + 8])
  {
    ghost var part := bits[base..base + 8];
    var times, sum := 128, 0;
    for j := 0 to 8
      invariant times == Power(j) && sum == Accumulated(part, j)
    {
      var bit: int := bits[base + j];
      assert bit == part[j];
      sum := sum + bit * times;
      times := times / 2;
    }
    AccumulatedByte(part);
    b := sum;
  }

  method Compress0(bits: array<Bit>, out: array<Byte>)
    requires bits.Length == 64 && out.Length == 8
    modifies out
    ensures out[..] == Compress(bits[..])
  {
    for i := 0 to 8
      invariant forall m :: 0 <= m < i ==> out[m] == ByteOf(bits[8 * m..8 * m + 8])
    {
      var b := GetByte(bits, 8 * i);
      out[i] := b;
    }
    forall m | 0 <= m < 8 ensures out[m] == Compress(bits[..])[m] {
      assert bits[..][8 * m..8 * m + 8] == bits[8 * m..8 * m + 8];
    }
  }

  /** The selection loops of ip, ip_1, son, setkeystar and F. */
  method Select(src: array<Bit>, table: seq<int>, dst: array<Bit>)
    requires src != dst && dst.Length == |table| && Selects(table, |table|, src.Length)
    modifies dst
    ensures dst[..] == Permute(src[..], table)
  {
    for i := 0 to |table|
      invariant forall m :: 0 <= m < i ==> dst[m] == src[table[m] - 1]
    {
      dst[i] := src[table[i] - 1];
    }
  }

  /** One row and column look-up of s_box. */
  method LookUp(sss: seq<seq<seq<int>>>, aa: array<Bit>, i: nat) returns (ss: int)
    requires Boxes(sss) && aa.Length == 48 && i < 8
    ensures ss == SBoxValue(sss, aa[..], i)
  {
    var j := 6 * i;
    var y := Weigh(0, 0, 0, 0, 0, 0, aa[j], aa[j + 5]);
    var z := Weigh(0, 0, 0, 0, aa[j + 1], aa[j + 2], aa[j + 3], aa[j + 4]);
    ss := sss[i][y][z];
  }

  /** The values the eight boxes give, as s_box keeps them in its local array `ss`. */
  method LookUpAll(sss: seq<seq<seq<int>>>, aa: array<Bit>) returns (ss: seq<int>)
    requires Boxes(sss) && aa.Length == 48
    ensures |ss| == 8 && forall i :: 0 <= i < 8 ==> ss[i] == SBoxValue(sss, aa[..], i)
  {
    ss := [];
    for i := 0 to 8
      invariant |ss| == i
      invariant forall k :: 0 <= k < i ==> ss[k] == SBoxValue(sss, aa[..], k)
    {
      var v := LookUp(sss, aa, i);
      ss := ss + [v];
    }
  }

  method PutNibbles(ss: seq<int>, bb: array<Bit>)
    requires |ss| == 8 && bb.Length == 32
    modifies bb
    ensures forall q :: 0 <= q < 32 ==> bb[q] == BitOf(ss[q / 4], 4 + q % 4)
  {
    for i := 0 to 8
      invariant forall q :: 0 <= q < 4 * i ==> bb[q] == BitOf(ss[q / 4], 4 + q % 4)
    {
      PutBits(ss[i], 4, bb, 4 * i);
    }
  }

  lemma SBoxBits(sss: seq<seq<seq<int>>>, bits: Bits, ss: seq<int>, out: Bits)
    requires Boxes(sss) && |bits| == 48 && |out| == 32 && |ss| == 8
    requires forall i :: 0 <= i < 8 ==> ss[i] == SBoxValue(sss, bits, i)
    requires forall q :: 0 <= q < 32 ==> out[q] == BitOf(ss[q / 4], 4 + q % 4)
    ensures out == SBox(sss, bits)
  {
  }

  method SBoxes0(sss: seq<seq<seq<int>>>, aa: array<Bit>, bb: array<Bit>)
    requires Boxes(sss) && aa.Length == 48 && bb.Length == 32 && aa != bb
    modifies bb
    ensures bb[..] == SBox(sss, aa[..])
  {
    ghost var bits := aa[..];
    var ss := LookUpAll(sss, aa);
    PutNibbles(ss, bb);
    SBoxBits(sss, bits, ss, bb[..]);
  }

  /** The exclusive-or loops of F. */
  method XorInto(a: array<Bit>, b: seq<Bit>, dst: array<Bit>)
    requires dst.Length <= a.Length && dst.Length <= |b|
    modifies dst
    ensures dst[..] == Xor(old(a[..dst.Length]), b)
  {
    for i := 0 to dst.Length
      invariant forall m :: 0 <= m < i ==> dst[m] == XorBit(old(a[m]), b[m])
      invariant forall m :: i <= m < a.Length ==> a[m] == old(a[m])
    {
      dst[i] := XorBit(a[i], b[i]);
    }
  }

  method Copy(src: array<Bit>, dst: array<Bit>)
    requires src.Length == dst.Length
    modifies dst
    ensures dst[..] == old(src[..])
  {
    for i := 0 to src.Length
      invariant forall m :: 0 <= m < i ==> dst[m] == old(src[m])
      invariant forall m :: i <= m < src.Length ==> src[m] == old(src[m])
    {
      dst[i] := src[i];
    }
  }

  method Divide(src: array<Bit>, ll: array<Bit>, rr: array<Bit>)
    requires src.Length == 64 && ll.Length == rr.Length == 32 && ll != rr
    modifies ll, rr
    ensures ll[..] == src[..][..32] && rr[..] == src[..][32..]
  {
    for i := 0 to 32
      invariant forall m :: 0 <= m < i ==> ll[m] == src[m] && rr[m] == src[m + 32]
    {
      ll[i], rr[i] := src[i], src[i + 32];
    }
  }

  /** The static arrays of the source file, shared by every call. */
  class Engine {
    const t: Tables
    const C: array2<Bit>
    const D: array2<Bit>
    const K: array2<Bit>

    ghost predicate Valid() {
      && Shaped(t)
      && C.Length0 == D.Length0 == K.Length0 == 17
      && C.Length1 == D.Length1 == 28 && K.Length1 == 48
      && C != D && C != K && D != K
    }

    constructor ()
      ensures Valid() && t == FipsTables() && fresh(C) && fresh(D) && fresh(K)
    {
      t := FipsTables();
      C := new Bit[17, 28]((i, j) => 0);
      D := new Bit[17, 28]((i, j) => 0);
      K := new Bit[17, 48]((i, j) => 0);
      new;
      FipsShaped();
    }

    static method LS(a: array2<Bit>, j: nat, count: int)
      requires a.Length0 == 17 && a.Length1 == 28 && j < 16 && 0 <= count <= 2
      modifies a
      ensures Row(a, j + 1) == Rotate(old(Row(a, j)), count)
      ensures forall r :: 0 <= r < 17 && r != j + 1 ==> Row(a, r) == old(Row(a, r))
    {
      ghost var bits := Row(a, j);
      var next := j + 1;
      for i := 0 to 28
        invariant forall c :: 0 <= c < i ==> a[next, c] == bits[(c + count) % 28]
        invariant forall r, c :: 0 <= r < 17 && 0 <= c < 28 && r != next ==> a[r, c] == old(a[r, c])
      {
        a[next, i] := a[j, (i + count) % 28];
      }
    }

    method Son(j: nat)
      requires Valid() && j <= 16
      modifies K
      ensures Row(K, j) == Permute(Row(C, j) + Row(D, j), t.pc2)
      ensures forall r :: 0 <= r < 17 && r != j ==> Row(K, r) == old(Row(K, r))
    {
      var buffer := new Bit[56];
      for i := 0 to 28
        modifies buffer
        invariant forall c :: 0 <= c < i ==> buffer[c] == C[j, c]
      {
        buffer[i] := C[j, i];
      }
      for i := 28 to 56
        modifies buffer
        invariant forall c :: 0 <= c < i ==> buffer[c] == if c < 28 then C[j, c] else D[j, c - 28]
      {
        buffer[i] := D[j, i - 28];
      }
      assert buffer[..] == Row(C, j) + Row(D, j);
      ghost var bits := buffer[..];
      for i := 0 to 48
        invariant buffer[..] == bits
        invariant forall c :: 0 <= c < i ==> K[j, c] == bits[t.pc2[c] - 1]
        invariant forall r, c :: 0 <= r < 17 && 0 <= c < 48 && r != j ==> K[r, c] == old(K[r, c])
      {
        K[j, i] := buffer[t.pc2[i] - 1];
      }
    }

    /** setkeystar: C[0] and D[0] from the key, then sixteen shifts and selections. */
    method SetKeyStar(bits: array<Bit>)
      requires Valid() && bits.Length == 64
      modifies C, D, K
      ensures forall j :: 1 <= j <= 16 ==> Row(K, j) == SubKey(t, bits[..], j)
    {
      ghost var key := bits[..];
      ghost var c0, d0 := Permute(key, t.pc1c), Permute(key, t.pc1d);
      for i := 0 to 28
        modifies C
        invariant forall c :: 0 <= c < i ==> C[0, c] == c0[c]
      {
        C[0, i] := bits[t.pc1c[i] - 1];
      }
      for i := 0 to 28
        modifies D
        invariant forall c :: 0 <= c < i ==> D[0, c] == d0[c]
      {
        D[0, i] := bits[t.pc1d[i] - 1];
      }
      assert Row(C, 0) == c0 && Row(D, 0) == d0;
      for j := 0 to 16
        modifies C, D, K
        invariant Row(C, j) == Half(t, c0, j) && Row(D, j) == Half(t, d0, j)
        invariant forall r :: 1 <= r <= j ==> Row(K, r) == SubKey(t, key, r)
      {
        LS(C, j, t.lsCount[j]);
        LS(D, j, t.lsCount[j]);
        Son(j + 1);
      }
    }

    /** The keys in encryption order. */
    ghost predicate Holds(ks: KeyList)
      requires Valid()
      reads K
    {
      |ks| == 16 && forall j :: 1 <= j <= 16 ==> Row(K, j) == ks[j - 1]
    }

    /** The first half of F: expand, add the key, substitute, permute. */
    method CipherInto(n: nat, rr: array<Bit>, out: array<Bit>)
      requires Valid() && n <= 16 && rr.Length == 32 && out.Length == 32 && rr != out
      modifies out
      ensures out[..] == Cipher(t, rr[..], Row(K, n))
    {
      var buffer, tmp := new Bit[48], new Bit[32];
      Select(rr, t.er, buffer);
      var k := seq(48, i requires 0 <= i < 48 reads K => K[n, i]);
      assert k == Row(K, n);
      XorInto(buffer, k, buffer);
      SBoxes0(t.sss, buffer, tmp);
      Select(tmp, t.p, out);
    }

    /** One round: L' is the old right half, R' the old left half combined with the cipher function. */
    method F(n: nat, ll: array<Bit>, rr: array<Bit>, LL: array<Bit>, RR: array<Bit>)
      requires Valid() && n <= 16
      requires ll.Length == rr.Length == LL.Length == RR.Length == 32
      requires LL != RR && LL != ll && LL != rr && RR != ll && RR != rr
      modifies LL, RR
      ensures Halves(LL[..], RR[..]) == Round(t, Halves(ll[..], rr[..]), Row(K, n))
    {
      var buffer := new Bit[32];
      CipherInto(n, rr, buffer);
      XorInto(buffer, ll[..], RR);
      Copy(rr, LL);
    }

    method Ip(text: array<Byte>, ll: array<Bit>, rr: array<Bit>)
      requires Valid() && text.Length == 8 && ll.Length == rr.Length == 32 && ll != rr
      modifies ll, rr
      ensures Halves(ll[..], rr[..]) == Split(t, Expand(text[..]))
    {
      var buffer, permuted := new Bit[64], new Bit[64];
      Expand0(text, buffer);
      Select(buffer, t.ip, permuted);
      Divide(permuted, ll, rr);
    }

    /** ip_1: the halves are handed over swapped. */
    method Ip1(tmp: array<Bit>, ll: array<Bit>, rr: array<Bit>)
      requires Valid() && tmp.Length == 64 && ll.Length == rr.Length == 32
      modifies tmp
      ensures tmp[..] == Permute(old(ll[..] + rr[..]), t.ipInverse)
    {
      var both := new Bit[64];
      for i := 0 to 32
        modifies both
        invariant forall m :: 0 <= m < i ==> both[m] == ll[m] && both[m + 32] == rr[m]
      {
        both[i], both[i + 32] := ll[i], rr[i];
      }
      assert both[..] == ll[..] + rr[..];
      Select(both, t.ipInverse, tmp);
    }

    /** F into LL and RR, and the loop that copies them back. */
    method OneRound(n: nat, ll: array<Bit>, rr: array<Bit>, LL: array<Bit>, RR: array<Bit>)
      requires Valid() && n <= 16
      requires ll.Length == rr.Length == LL.Length == RR.Length == 32
      requires ll != rr && LL != RR && LL != ll && LL != rr && RR != ll && RR != rr
      modifies ll, rr, LL, RR
      ensures Halves(ll[..], rr[..]) == Round(t, old(Halves(ll[..], rr[..])), Row(K, n))
    {
      F(n, ll, rr, LL, RR);
      Copy(LL, ll);
      Copy(RR, rr);
    }

    /** Round i of encrypt0 (forward) or discrypt0, which take the key schedule in opposite orders. */
    method NthRound(forward: bool, i: nat, ll: array<Bit>, rr: array<Bit>, LL: array<Bit>, RR: array<Bit>,
                    ghost ks: KeyList)
      requires Valid() && Holds(ks) && i < 16
      requires ll.Length == rr.Length == LL.Length == RR.Length == 32
      requires ll != rr && LL != RR && LL != ll && LL != rr && RR != ll && RR != rr
      modifies ll, rr, LL, RR
      ensures Halves(ll[..], rr[..]) ==
              Round(t, old(Halves(ll[..], rr[..])), if forward then ks[i] else Reverse(ks)[i])
    {
      KeyInOrder(forward, i, ks);
      OneRound(if forward then i + 1 else 16 - i, ll, rr, LL, RR);
    }

    lemma KeyInOrder(forward: bool, i: nat, ks: KeyList)
      requires Valid() && Holds(ks) && i < 16
      ensures Row(K, if forward then i + 1 else 16 - i) == if forward then ks[i] else Reverse(ks)[i]
    {
      ReverseAt(ks, i);
    }

    /** The sixteen rounds of encrypt0 (forward) or discrypt0, on ll and rr. */
    method SixteenRounds(forward: bool, ll: array<Bit>, rr: array<Bit>, ghost ks: KeyList)
      requires Valid() && Holds(ks) && ll.Length == rr.Length == 32 && ll != rr
      modifies ll, rr
      ensures Halves(ll[..], rr[..]) ==
              Rounds(t, old(Halves(ll[..], rr[..])), if forward then ks else Reverse(ks))
    {
      ghost var start := Halves(ll[..], rr[..]);
      ghost var order: KeyList := if forward then ks else Reverse(ks);
      var LL, RR := new Bit[32], new Bit[32];
      for i := 0 to 16
        modifies ll, rr, LL, RR
        invariant Halves(ll[..], rr[..]) == Rounds(t, start, order[..i])
      {
        NthRound(forward, i, ll, rr, LL, RR, ks);
        RoundsExtend(t, start, order, i);
      }
      assert order[..16] == order;
    }

    /** encrypt0 and discrypt0. */
    method Crypt0(forward: bool, text: array<Byte>, mtext: array<Byte>, ghost ks: KeyList)
      requires Valid() && Holds(ks) && text.Length == mtext.Length == 8
      modifies mtext
      ensures mtext[..] == Compress(Crypt(t, Expand(old(text[..])), if forward then ks else Reverse(ks)))
    {
      var ll, rr, tmp := new Bit[32], new Bit[32], new Bit[64];
      Ip(text, ll, rr);
      SixteenRounds(forward, ll, rr, ks);
      Ip1(tmp, rr, ll);
      Compress0(tmp, mtext);
    }

    method PrepareKey(key: array<Byte>) returns (ghost ks: KeyList)
      requires Valid() && key.Length == 8
      modifies C, D, K
      ensures ks == Schedule(t, Expand(key[..])) && Holds(ks)
    {
      var tmp := new Bit[64];
      Expand0(key, tmp);
      SetKeyStar(tmp);
      ks := Schedule(t, Expand(key[..]));
    }

    /** DES: whatever the shared schedule held before, and also when the arrays coincide. */
    method DES(key: array<Byte>, text: array<Byte>, mtext: array<Byte>)
      requires Valid() && key.Length == text.Length == mtext.Length == 8
      modifies C, D, K, mtext
      ensures mtext[..] == Encrypt(t, old(key[..]), old(text[..]))
    {
      ghost var ks := PrepareKey(key);
      Crypt0(true, text, mtext, ks);
    }

    method DES_1(key: array<Byte>, text: array<Byte>, mtext: array<Byte>)
      requires Valid() && key.Length == text.Length == mtext.Length == 8
      modifies C, D, K, mtext
      ensures mtext[..] == Decrypt(t, old(key[..]), old(text[..]))
    {
      ghost var ks := PrepareKey(key);
      Crypt0(false, text, mtext, ks);
    }

    method Halve(key16: array<Byte>) returns (keyL: array<Byte>, keyR: array<Byte>)
      requires key16.Length == 16
      ensures fresh(keyL) && fresh(keyR) && keyL != keyR && keyL.Length == keyR.Length == 8
      ensures keyL[..] == key16[..][..8] && keyR[..] == key16[..][8..]
    {
      keyL, keyR := new Byte[8], new Byte[8];
      for i := 0 to 8
        modifies keyL, keyR
        invariant forall m :: 0 <= m < i ==> keyL[m] == key16[m] && keyR[m] == key16[m + 8]
      {
        keyL[i], keyR[i] := key16[i], key16[i + 8];
      }
    }

    method TripleDES(key16: array<Byte>, text: array<Byte>, mtext: array<Byte>)
      requires Valid() && key16.Length == 16 && text.Length == mtext.Length == 8
      modifies C, D, K, mtext
      ensures mtext[..] == TripleEncrypt(t, old(key16[..]), old(text[..]))
    {
      var keyL, keyR := Halve(key16);
      var dump1, dump2 := new Byte[8], new Byte[8];
      DES(keyL, text, dump1);
      DES_1(keyR, dump1, dump2);
      DES(keyL, dump2, mtext);
    }

    method TripleDES_1(key16: array<Byte>, text: array<Byte>, mtext: array<Byte>)
      requires Valid() && key16.Length == 16 && text.Length == mtext.Length == 8
      modifies C, D, K, mtext
      ensures mtext[..] == TripleDecrypt(t, old(key16[..]), old(text[..]))
    {
      var keyL, keyR := Halve(key16);
      var dump1, dump2 := new Byte[8], new Byte[8];
      DES_1(keyL, text, dump1);
      DES(keyR, dump1, dump2);
      DES_1(keyL, dump2, mtext);
    }
  }

  lemma RoundsExtend(t: Tables, h: Halves, ks: KeyList, i: nat)
    requires Shaped(t) && IsBlock(h) && i < |ks|
    ensures Rounds(t, h, ks[..i + 1]) == Round(t, Rounds(t, h, ks[..i]), ks[i])
  {
    assert ks[..i] + [ks[i]] == ks[..i + 1];
    RoundsAppend(t, h, ks[..i], ks[i]);
  }

  lemma {:induction false} ReverseAt(ks: KeyList, i: nat)
    requires i < |ks|
    ensures Reverse(ks)[i] == ks[|ks| - 1 - i]
    decreases |ks|
  {
    if i < |ks| - 1 {
      ReverseAt(ks[1..], i);
    }
  }

  /** With the tables of the source: DES_1 and DES undo each other, for every key and block. */
  lemma FipsRoundTrip(key: seq<Byte>, text: seq<Byte>)
    requires Block(key) && Block(text)
    ensures Shaped(FipsTables())
    ensures Decrypt(FipsTables(), key, Encrypt(FipsTables(), key, text)) == text
    ensures Encrypt(FipsTables(), key, Decrypt(FipsTables(), key, text)) == text
  {
    FipsShaped();
    FipsInverts();
    DecryptEncrypt(FipsTables(), key, text);
    EncryptDecrypt(FipsTables(), key, text);
  }
}
