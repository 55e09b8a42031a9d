/**
 Two design criteria of DES that its tables meet: what one S-box does with two inputs, and where the
 four bits it puts out go in the next round.
 */
module DesCriteria {
  import opened DesSpec
  import opened DesTables

  // ----- one box -----

  lemma Differ0(y: int, x: int, z: int)
    requires 0 <= y < 2 && 0 <= x < 8 <= z < 16 && x % 2 == z % 2
    ensures Box0(y, x) != Box0(y + 2, z) && Box0(y, z) != Box0(y + 2, x)
  {
  }

  lemma Differ1(y: int, x: int, z: int)
    requires 0 <= y < 2 && 0 <= x < 8 <= z < 16 && x % 2 == z % 2
    ensures Box1(y, x) != Box1(y + 2, z) && Box1(y, z) != Box1(y + 2, x)
  {
  }

  lemma Differ2(y: int, x: int, z: int)
    requires 0 <= y < 2 && 0 <= x < 8 <= z < 16 && x % 2 == z % 2
    ensures Box2(y, x) != Box2(y + 2, z) && Box2(y, z) != Box2(y + 2, x)
  {
  }

  lemma Differ3(y: int, x: int, z: int)
    requires 0 <= y < 2 && 0 <= x < 8 <= z < 16 && x % 2 == z % 2
    ensures Box3(y, x) != Box3(y + 2, z) && Box3(y, z) != Box3(y + 2, x)
  {
  }

  lemma Differ4(y: int, x: int, z: int)
    requires 0 <= y < 2 && 0 <= x < 8 <= z < 16 && x % 2 == z % 2
    ensures Box4(y, x) != Box4(y + 2, z) && Box4(y, z) != Box4(y + 2, x)
  {
  }

  lemma Differ5(y: int, x: int, z: int)
    requires 0 <= y < 2 && 0 <= x < 8 <= z < 16 && x % 2 == z % 2
    ensures Box5(y, x) != Box5(y + 2, z) && Box5(y, z) != Box5(y + 2, x)
  {
  }

  lemma Differ6(y: int, x: int, z: int)
    requires 0 <= y < 2 && 0 <= x < 8 <= z < 16 && x % 2 == z % 2
    ensures Box6(y, x) != Box6(y + 2, z) && Box6(y, z) != Box6(y + 2, x)
  {
  }

  lemma Differ7(y: int, x: int, z: int)
    requires 0 <= y < 2 && 0 <= x < 8 <= z < 16 && x % 2 == z % 2
    ensures Box7(y, x) != Box7(y + 2, z) && Box7(y, z) != Box7(y + 2, x)
  {
  }

  lemma Differ(i: int, y: int, x: int, z: int)
    requires 0 <= i < 8 && 0 <= y < 2 && 0 <= x < 8 <= z < 16 && x % 2 == z % 2
    ensures Sss(i, y, x) != Sss(i, y + 2, z) && Sss(i, y, z) != Sss(i, y + 2, x)
  {
    match i {
      case 0 => Differ0(y, x, z);
      case 1 => Differ1(y, x, z);
      case 2 => Differ2(y, x, z);
      case 3 => Differ3(y, x, z);
      case 4 => Differ4(y, x, z);
      case 5 => Differ5(y, x, z);
      case 6 => Differ6(y, x, z);
      case _ => Differ7(y, x, z);
    }
  }

  lemma Entries0(y: int, x: int)
    requires 0 <= y < 4 && 0 <= x < 16
    ensures 0 <= Box0(y, x) < 16
  {
  }

  lemma Entries1(y: int, x: int)
    requires 0 <= y < 4 && 0 <= x < 16
    ensures 0 <= Box1(y, x) < 16
  {
  }

  lemma Entries2(y: int, x: int)
    requires 0 <= y < 4 && 0 <= x < 16
    ensures 0 <= Box2(y, x) < 16
  {
  }

  lemma Entries3(y: int, x: int)
    requires 0 <= y < 4 && 0 <= x < 16
    ensures 0 <= Box3(y, x) < 16
  {
  }

  lemma Entries4(y: int, x: int)
    requires 0 <= y < 4 && 0 <= x < 16
    ensures 0 <= Box4(y, x) < 16
  {
  }

  lemma Entries5(y: int, x: int)
    requires 0 <= y < 4 && 0 <= x < 16
    ensures 0 <= Box5(y, x) < 16
  {
  }

  lemma Entries6(y: int, x: int)
    requires 0 <= y < 4 && 0 <= x < 16
    ensures 0 <= Box6(y, x) < 16
  {
  }

  lemma Entries7(y: int, x: int)
    requires 0 <= y < 4 && 0 <= x < 16
    ensures 0 <= Box7(y, x) < 16
  {
  }

  lemma Entries(i: int, y: int, x: int)
    requires 0 <= i < 8 && 0 <= y < 4 && 0 <= x < 16
    ensures 0 <= Sss(i, y, x) < 16
  {
    match i {
      case 0 => Entries0(y, x);
      case 1 => Entries1(y, x);
      case 2 => Entries2(y, x);
      case 3 => Entries3(y, x);
      case 4 => Entries4(y, x);
      case 5 => Entries5(y, x);
      case 6 => Entries6(y, x);
      case _ => Entries7(y, x);
    }
  }

  /** A value below 16 is known by its four bits. */
  lemma FourBits(v: int)
    requires 0 <= v < 16
    ensures v == Weigh(0, 0, 0, 0, BitOf(v, 4), BitOf(v, 5), BitOf(v, 6), BitOf(v, 7))
  {
    assert v / 8 < 2 && v / 4 == v / 8 * 2 + v / 4 % 2 && v / 2 == v / 4 * 2 + v / 2 % 2 && v == v / 2 * 2 + v % 2;
  }

  function Nibble(v: int): Bits { [BitOf(v, 4), BitOf(v, 5), BitOf(v, 6), BitOf(v, 7)] }

  lemma NibblesDiffer(v: int, w: int)
    requires 0 <= v < 16 && 0 <= w < 16 && v != w
    ensures Nibble(v) != Nibble(w)
  {
    FourBits(v);
    FourBits(w);
    var n, m := Nibble(v), Nibble(w);
    assert v == Weigh(0, 0, 0, 0, n[0], n[1], n[2], n[3]) && w == Weigh(0, 0, 0, 0, m[0], m[1], m[2], m[3]);
  }

  function RowOf(x: Bits): int
    requires |x| == 6
  {
    Weigh(0, 0, 0, 0, 0, 0, x[0], x[5])
  }

  function ColumnOf(x: Bits): int
    requires |x| == 6
  {
    Weigh(0, 0, 0, 0, x[1], x[2], x[3], x[4])
  }

  /** The six bits that box i is given. */
  function InputOf(bits: Bits, i: nat): (r: Bits)
    requires |bits| == 48 && i < 8
    ensures |r| == 6
  {
    bits[6 * i..6 * i + 6]
  }

  /** The four bits that it puts out. */
  function OutputOf(bits: Bits, i: nat): (r: Bits)
    requires |bits| == 48 && i < 8 && Boxes(SBoxes())
    ensures |r| == 4
  {
    SBox(SBoxes(), bits)[4 * i..4 * i + 4]
  }

  /**
   Two inputs of a box that differ in both of their first two bits and agree in their last two never
   give the same output.
   */
  lemma OutputsDiffer(a: Bits, b: Bits, i: nat)
    requires |a| == |b| == 48 && i < 8 && Boxes(SBoxes())
    requires InputOf(a, i)[0] != InputOf(b, i)[0] && InputOf(a, i)[1] != InputOf(b, i)[1]
    requires InputOf(a, i)[4] == InputOf(b, i)[4] && InputOf(a, i)[5] == InputOf(b, i)[5]
    ensures OutputOf(a, i) != OutputOf(b, i)
  {
    var x, y := InputOf(a, i), InputOf(b, i);
    ValueIs(a, i);
    ValueIs(b, i);
    RowsApart(x, y);
    RowsDiffer(i, RowOf(x), ColumnOf(x), RowOf(y), ColumnOf(y));
    Entries(i, RowOf(x), ColumnOf(x));
    Entries(i, RowOf(y), ColumnOf(y));
    NibblesDiffer(SBoxValue(SBoxes(), a, i), SBoxValue(SBoxes(), b, i));
    OutputBits(a, i);
    OutputBits(b, i);
  }

  lemma RowsApart(x: Bits, y: Bits)
    requires |x| == |y| == 6 && x[0] != y[0] && x[1] != y[1] && x[4] == y[4] && x[5] == y[5]
    ensures 0 <= RowOf(x) < 4 && 0 <= RowOf(y) < 4 && (RowOf(x) < 2 <==> RowOf(y) >= 2) && RowOf(x) % 2 == RowOf(y) % 2
    ensures 0 <= ColumnOf(x) < 16 && 0 <= ColumnOf(y) < 16
    ensures (ColumnOf(x) < 8 <==> ColumnOf(y) >= 8) && ColumnOf(x) % 2 == ColumnOf(y) % 2
  {
    Ends(x);
    Ends(y);
  }

  /** First and last bits show in size and parity. */
  lemma Ends(x: Bits)
    requires |x| == 6
    ensures 0 <= RowOf(x) < 4 && (RowOf(x) < 2 <==> x[0] == 0) && RowOf(x) % 2 == x[5]
    ensures 0 <= ColumnOf(x) < 16 && (ColumnOf(x) < 8 <==> x[1] == 0) && ColumnOf(x) % 2 == x[4]
  {
    Parity(RowOf(x), x[0], x[5]);
    Parity(ColumnOf(x), Weigh(0, 0, 0, 0, 0, x[1], x[2], x[3]), x[4]);
  }

  lemma Parity(v: int, n: int, b: Bit)
    requires v == 2 * n + b
    ensures v % 2 == b
  {
  }

  lemma RowsDiffer(i: int, y: int, x: int, y': int, x': int)
    requires 0 <= i < 8 && 0 <= y < 4 && 0 <= y' < 4 && 0 <= x < 16 && 0 <= x' < 16
    requires (y < 2 <==> y' >= 2) && y % 2 == y' % 2 && (x < 8 <==> x' >= 8) && x % 2 == x' % 2
    ensures Sss(i, y, x) != Sss(i, y', x')
  {
    Differ(i, if y < 2 then y else y', if x < 8 then x else x', if x < 8 then x' else x);
  }

  lemma ValueIs(a: Bits, i: nat)
    requires |a| == 48 && i < 8 && Boxes(SBoxes())
    ensures SBoxValue(SBoxes(), a, i) == Sss(i, RowOf(InputOf(a, i)), ColumnOf(InputOf(a, i)))
  {
  }

  lemma OutputBits(a: Bits, i: nat)
    requires |a| == 48 && i < 8 && Boxes(SBoxes())
    ensures var v := SBoxValue(SBoxes(), a, i);
            OutputOf(a, i) == Nibble(v)
  {
  }

  // ----- from box to box -----

  /** The input bit of box m in the next round that comes from box k, or -1. */
  function Fed(k: int, m: int): int {
    if k == 0 then Pick(m, -1, 11, 13, 23, 25, 33, -1, 45)
    else if k == 1 then Pick(m, 2, -1, 17, 19, 26, -1, 40, 42)
    else if k == 2 then Pick(m, -1, 8, -1, 22, 24, 34, 36, 44)
    else if k == 3 then Pick(m, 1, -1, 14, -1, 28, 30, 38, 47)
    else if k == 4 then Pick(m, 3, 10, 12, 20, -1, 35, 37, -1)
    else if k == 5 then Pick(m, 4, 6, 15, -1, 27, -1, 41, 43)
    else if k == 6 then Pick(m, 0, 9, 16, 18, -1, 32, -1, 46)
    else Pick(m, 5, 7, -1, 21, 29, 31, 39, -1)
  }

  /** Where input bit j of the next round's boxes comes from. */
  function Source(j: int): int { P(Er(j) - 1) - 1 }

  lemma FedFrom(j: int)
    requires 0 <= j < 48
    ensures 1 <= Er(j) <= 32 && 0 <= Source(j) < 32 && Fed(Source(j) / 4, j / 6) == j
  {
  }

  lemma FedInto(k: int, m: int)
    requires 0 <= k < 8 && 0 <= m < 8 && Fed(k, m) >= 0
    ensures Fed(k, m) < 48 && Fed(k, m) / 6 == m && Source(Fed(k, m)) / 4 == k
  {
  }

  predicate Reaches(k: int, m: int) { Fed(k, m) >= 0 }

  function One(b: bool): int { if b then 1 else 0 }

  function Reached(k: int): int {
    One(Reaches(k, 0)) + One(Reaches(k, 1)) + One(Reaches(k, 2)) + One(Reaches(k, 3))
    + One(Reaches(k, 4)) + One(Reaches(k, 5)) + One(Reaches(k, 6)) + One(Reaches(k, 7))
  }

  /** What the boxes of the next round are given, before the key: the output through P and E. */
  function NextInput(out: Bits): (r: Bits)
    requires |out| == 32 && Shaped(FipsTables())
    ensures |r| == 48
  {
    Permute(Permute(out, FipsTables().p), FipsTables().er)
  }

  lemma NextInputIs(out: Bits, j: int)
    requires |out| == 32 && 0 <= j < 48 && Shaped(FipsTables())
    ensures 0 <= Source(j) < 32 && NextInput(out)[j] == out[Source(j)]
  {
    FedFrom(j);
    assert FipsTables().er[j] == Er(j) && FipsTables().p[Er(j) - 1] == P(Er(j) - 1);
  }

  /**
   The four output bits of box k reach six different boxes of the next round, one bit of each, and
   change nothing in the other two.
   */
  lemma OutputReachesSix(k: int)
    requires 0 <= k < 8
    ensures Shaped(FipsTables()) && Reached(k) == 6
    ensures forall a: Bits, b: Bits, j |
              |a| == |b| == 32 && 0 <= j < 48 && (forall i :: 0 <= i < 32 && i / 4 != k ==> a[i] == b[i]) ::
              NextInput(a)[j] != NextInput(b)[j] ==> Reaches(k, j / 6) && j == Fed(k, j / 6)
  {
    FipsShaped();
    forall a: Bits, b: Bits, j |
      |a| == |b| == 32 && 0 <= j < 48 && (forall i :: 0 <= i < 32 && i / 4 != k ==> a[i] == b[i])
      ensures NextInput(a)[j] != NextInput(b)[j] ==> Reaches(k, j / 6) && j == Fed(k, j / 6)
    {
      OnlyFedSee(k, a, b, j);
    }
  }

  lemma OnlyFedSee(k: int, a: Bits, b: Bits, j: int)
    requires 0 <= k < 8 && |a| == |b| == 32 && 0 <= j < 48 && Shaped(FipsTables())
    requires forall i :: 0 <= i < 32 && i / 4 != k ==> a[i] == b[i]
    ensures NextInput(a)[j] != NextInput(b)[j] ==> Reaches(k, j / 6) && j == Fed(k, j / 6)
  {
    NextInputIs(a, j);
    NextInputIs(b, j);
    FedFrom(j);
  }

  /** And each of the six does see a bit of box k: whatever flips it changes what that box is given. */
  lemma EachOfSixSees(k: int, m: int, a: Bits, b: Bits)
    requires 0 <= k < 8 && 0 <= m < 8 && Reaches(k, m) && |a| == |b| == 32 && Shaped(FipsTables())
    requires forall i :: 0 <= i < 32 ==> (a[i] != b[i] <==> i / 4 == k)
    ensures exists j | 6 * m <= j < 6 * m + 6 :: NextInput(a)[j] != NextInput(b)[j]
  {
    FedInto(k, m);
    var j := Fed(k, m);
    NextInputIs(a, j);
    NextInputIs(b, j);
    assert 6 * m <= j < 6 * m + 6 && NextInput(a)[j] != NextInput(b)[j];
  }
}
