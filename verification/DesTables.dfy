/** The tables of xframe/comserv/des.C:5-125, a row of eight at a time. */
module DesTables {
  import opened DesSpec

  function Pick(c: int, a0: int, a1: int, a2: int, a3: int, a4: int, a5: int, a6: int, a7: int): int {
    if c < 4 then (if c < 2 then (if c < 1 then a0 else a1) else if c < 3 then a2 else a3)
    else (if c < 6 then (if c < 5 then a4 else a5) else if c < 7 then a6 else a7)
  }

  /** pc_1_c */
  function Pc1c(i: int): int {
    if i < 8 then Pick(i, 57, 49, 41, 33, 25, 17, 9, 1)
    else if i < 16 then Pick(i - 8, 58, 50, 42, 34, 26, 18, 10, 2)
    else if i < 24 then Pick(i - 16, 59, 51, 43, 35, 27, 19, 11, 3)
    else Pick(i - 24, 60, 52, 44, 36, 0, 0, 0, 0)
  }

  /** pc_1_d */
  function Pc1d(i: int): int {
    if i < 8 then Pick(i, 63, 55, 47, 39, 31, 23, 15, 7)
    else if i < 16 then Pick(i - 8, 62, 54, 46, 38, 30, 22, 14, 6)
    else if i < 24 then Pick(i - 16, 61, 53, 45, 37, 29, 21, 13, 5)
    else Pick(i - 24, 28, 20, 12, 4, 0, 0, 0, 0)
  }

  /** pc_2 */
  function Pc2(i: int): int {
    if i < 8 then Pick(i, 14, 17, 11, 24, 1, 5, 3, 28)
    else if i < 16 then Pick(i - 8, 15, 6, 21, 10, 23, 19, 12, 4)
    else if i < 24 then Pick(i - 16, 26, 8, 16, 7, 27, 20, 13, 2)
    else if i < 32 then Pick(i - 24, 41, 52, 31, 37, 47, 55, 30, 40)
    else if i < 40 then Pick(i - 32, 51, 45, 33, 48, 44, 49, 39, 56)
    else Pick(i - 40, 34, 53, 46, 42, 50, 36, 29, 32)
  }

  /** ls_count */
  function LsCount(i: int): int {
    if i < 8 then Pick(i, 1, 1, 2, 2, 2, 2, 2, 2)
    else Pick(i - 8, 1, 2, 2, 2, 2, 2, 2, 1)
  }

  /** ip_tab */
  function Ip(i: int): int {
    if i < 8 then Pick(i, 58, 50, 42, 34, 26, 18, 10, 2)
    else if i < 16 then Pick(i - 8, 60, 52, 44, 36, 28, 20, 12, 4)
    else if i < 24 then Pick(i - 16, 62, 54, 46, 38, 30, 22, 14, 6)
    else if i < 32 then Pick(i - 24, 64, 56, 48, 40, 32, 24, 16, 8)
    else if i < 40 then Pick(i - 32, 57, 49, 41, 33, 25, 17, 9, 1)
    else if i < 48 then Pick(i - 40, 59, 51, 43, 35, 27, 19, 11, 3)
    else if i < 56 then Pick(i - 48, 61, 53, 45, 37, 29, 21, 13, 5)
    else Pick(i - 56, 63, 55, 47, 39, 31, 23, 15, 7)
  }

  /** _ip_tab */
  function IpInverse(i: int): int {
    if i < 8 then Pick(i, 40, 8, 48, 16, 56, 24, 64, 32)
    else if i < 16 then Pick(i - 8, 39, 7, 47, 15, 55, 23, 63, 31)
    else if i < 24 then Pick(i - 16, 38, 6, 46, 14, 54, 22, 62, 30)
    else if i < 32 then Pick(i - 24, 37, 5, 45, 13, 53, 21, 61, 29)
    else if i < 40 then Pick(i - 32, 36, 4, 44, 12, 52, 20, 60, 28)
    else if i < 48 then Pick(i - 40, 35, 3, 43, 11, 51, 19, 59, 27)
    else if i < 56 then Pick(i - 48, 34, 2, 42, 10, 50, 18, 58, 26)
    else Pick(i - 56, 33, 1, 41, 9, 49, 17, 57, 25)
  }

  /** e_r */
  function Er(i: int): int {
    if i < 8 then Pick(i, 32, 1, 2, 3, 4, 5, 4, 5)
    else if i < 16 then Pick(i - 8, 6, 7, 8, 9, 8, 9, 10, 11)
    else if i < 24 then Pick(i - 16, 12, 13, 12, 13, 14, 15, 16, 17)
    else if i < 32 then Pick(i - 24, 16, 17, 18, 19, 20, 21, 20, 21)
    else if i < 40 then Pick(i - 32, 22, 23, 24, 25, 24, 25, 26, 27)
    else Pick(i - 40, 28, 29, 28, 29, 30, 31, 32, 1)
  }

  /** P */
  function P(i: int): int {
    if i < 8 then Pick(i, 16, 7, 20, 21, 29, 12, 28, 17)
    else if i < 16 then Pick(i - 8, 1, 15, 23, 26, 5, 18, 31, 10)
    else if i < 24 then Pick(i - 16, 2, 8, 24, 14, 32, 27, 3, 9)
    else Pick(i - 24, 19, 13, 30, 6, 22, 11, 4, 25)
  }

  function Pick16(c: int, a0: int, a1: int, a2: int, a3: int, a4: int, a5: int, a6: int, a7: int,
                  a8: int, a9: int, a10: int, a11: int, a12: int, a13: int, a14: int, a15: int): int {
    if c < 8 then Pick(c, a0, a1, a2, a3, a4, a5, a6, a7) else Pick(c - 8, a8, a9, a10, a11, a12, a13, a14, a15)
  }

  /** SSS[0] */
  function Box0(y: int, x: int): int {
    if y == 0 then Pick16(x, 14, 4, 13, 1, 2, 15, 11, 8, 3, 10, 6, 12, 5, 9, 0, 7)
    else if y == 1 then Pick16(x, 0, 15, 7, 4, 14, 2, 13, 1, 10, 6, 12, 11, 9, 5, 3, 8)
    else if y == 2 then Pick16(x, 4, 1, 14, 8, 13, 6, 2, 11, 15, 12, 9, 7, 3, 10, 5, 0)
    else Pick16(x, 15, 12, 8, 2, 4, 9, 1, 7, 5, 11, 3, 14, 10, 0, 6, 13)
  }

  /** SSS[1] */
  function Box1(y: int, x: int): int {
    if y == 0 then Pick16(x, 15, 1, 8, 14, 6, 11, 3, 4, 9, 7, 2, 13, 12, 0, 5, 10)
    else if y == 1 then Pick16(x, 3, 13, 4, 7, 15, 2, 8, 14, 12, 0, 1, 10, 6, 9, 11, 5)
    else if y == 2 then Pick16(x, 0, 14, 7, 11, 10, 4, 13, 1, 5, 8, 12, 6, 9, 3, 2, 15)
    else Pick16(x, 13, 8, 10, 1, 3, 15, 4, 2, 11, 6, 7, 12, 0, 5, 14, 9)
  }

  /** SSS[2] */
  function Box2(y: int, x: int): int {
    if y == 0 then Pick16(x, 10, 0, 9, 14, 6, 3, 15, 5, 1, 13, 12, 7, 11, 4, 2, 8)
    else if y == 1 then Pick16(x, 13, 7, 0, 9, 3, 4, 6, 10, 2, 8, 5, 14, 12, 11, 15, 1)
    else if y == 2 then Pick16(x, 13, 6, 4, 9, 8, 15, 3, 0, 11, 1, 2, 12, 5, 10, 14, 7)
    else Pick16(x, 1, 10, 13, 0, 6, 9, 8, 7, 4, 15, 14, 3, 11, 5, 2, 12)
  }

  /** SSS[3] */
  function Box3(y: int, x: int): int {
    if y == 0 then Pick16(x, 7, 13, 14, 3, 0, 6, 9, 10, 1, 2, 8, 5, 11, 12, 4, 15)
    else if y == 1 then Pick16(x, 13, 8, 11, 5, 6, 15, 0, 3, 4, 7, 2, 12, 1, 10, 14, 9)
    else if y == 2 then Pick16(x, 10, 6, 9, 0, 12, 11, 7, 13, 15, 1, 3, 14, 5, 2, 8, 4)
    else Pick16(x, 3, 15, 0, 6, 10, 1, 13, 8, 9, 4, 5, 11, 12, 7, 2, 14)
  }

  /** SSS[4] */
  function Box4(y: int, x: int): int {
    if y == 0 then Pick16(x, 2, 12, 4, 1, 7, 10, 11, 6, 8, 5, 3, 15, 13, 0, 14, 9)
    else if y == 1 then Pick16(x, 14, 11, 2, 12, 4, 7, 13, 1, 5, 0, 15, 10, 3, 9, 8, 6)
    else if y == 2 then Pick16(x, 4, 2, 1, 11, 10, 13, 7, 8, 15, 9, 12, 5, 6, 3, 0, 14)
    else Pick16(x, 11, 8, 12, 7, 1, 14, 2, 13, 6, 15, 0, 9, 10, 4, 5, 3)
  }

  /** SSS[5] */
  function Box5(y: int, x: int): int {
    if y == 0 then Pick16(x, 12, 1, 10, 15, 9, 2, 6, 8, 0, 13, 3, 4, 14, 7, 5, 11)
    else if y == 1 then Pick16(x, 10, 15, 4, 2, 7, 12, 9, 5, 6, 1, 13, 14, 0, 11, 3, 8)
    else if y == 2 then Pick16(x, 9, 14, 15, 5, 2, 8, 12, 3, 7, 0, 4, 10, 1, 13, 11, 6)
    else Pick16(x, 4, 3, 2, 12, 9, 5, 15, 10, 11, 14, 1, 7, 6, 0, 8, 13)
  }

  /** SSS[6] */
  function Box6(y: int, x: int): int {
    if y == 0 then Pick16(x, 4, 11, 2, 14, 15, 0, 8, 13, 3, 12, 9, 7, 5, 10, 6, 1)
    else if y == 1 then Pick16(x, 13, 0, 11, 7, 4, 9, 1, 10, 14, 3, 5, 12, 2, 15, 8, 6)
    else if y == 2 then Pick16(x, 1, 4, 11, 13, 12, 3, 7, 14, 10, 15, 6, 8, 0, 5, 9, 2)
    else Pick16(x, 6, 11, 13, 8, 1, 4, 10, 7, 9, 5, 0, 15, 14, 2, 3, 12)
  }

  /** SSS[7] */
  function Box7(y: int, x: int): int {
    if y == 0 then Pick16(x, 13, 2, 8, 4, 6, 15, 11, 1, 10, 9, 3, 14, 5, 0, 12, 7)
    else if y == 1 then Pick16(x, 1, 15, 13, 8, 10, 3, 7, 4, 12, 5, 6, 11, 0, 14, 9, 2)
    else if y == 2 then Pick16(x, 7, 11, 4, 1, 9, 12, 14, 2, 0, 6, 10, 13, 15, 3, 5, 8)
    else Pick16(x, 2, 1, 14, 7, 4, 10, 8, 13, 15, 12, 9, 0, 3, 5, 6, 11)
  }

  /** SSS. */
  function Sss(i: int, y: int, x: int): int {
    if i < 4 then (if i < 2 then (if i < 1 then Box0(y, x) else Box1(y, x)) else if i < 3 then Box2(y, x) else Box3(y, x))
    else (if i < 6 then (if i < 5 then Box4(y, x) else Box5(y, x)) else if i < 7 then Box6(y, x) else Box7(y, x))
  }

  function SBoxes(): seq<seq<seq<int>>> {
    seq(8, i => seq(4, y => seq(16, x => Sss(i, y, x))))
  }

  function FipsTables(): Tables {
    Tables(seq(28, i => Pc1c(i)), seq(28, i => Pc1d(i)), seq(48, i => Pc2(i)), seq(16, i => LsCount(i)),
           seq(64, i => Ip(i)), seq(64, i => IpInverse(i)), seq(48, i => Er(i)), seq(32, i => P(i)), SBoxes())
  }

  lemma KeyTables(i: int)
    ensures 0 <= i < 28 ==> 1 <= Pc1c(i) <= 64 && Pc1c(i) % 8 != 0
    ensures 0 <= i < 28 ==> 1 <= Pc1d(i) <= 64 && Pc1d(i) % 8 != 0
    ensures 0 <= i < 48 ==> 1 <= Pc2(i) <= 56
    ensures 0 <= i < 16 ==> 0 <= LsCount(i) <= 2
  {
  }

  lemma RoundTables(i: int)
    ensures 0 <= i < 48 ==> 1 <= Er(i) <= 32
    ensures 0 <= i < 32 ==> 1 <= P(i) <= 32
  {
  }

  /** The two block permutations are inverse to each other. */
  lemma IpUndone(i: int)
    requires 0 <= i < 64
    ensures 1 <= IpInverse(i) <= 64 && Ip(IpInverse(i) - 1) == i + 1
    ensures 1 <= Ip(i) <= 64 && IpInverse(Ip(i) - 1) == i + 1
  {
  }

  lemma SBoxShape()
    ensures Boxes(SBoxes())
  {
  }

  lemma FipsShaped()
    ensures Shaped(FipsTables())
  {
    forall i ensures 0 <= i < 28 ==> 1 <= Pc1c(i) <= 64 && 1 <= Pc1d(i) <= 64 {
      KeyTables(i);
    }
    forall i ensures 0 <= i < 48 ==> 1 <= Pc2(i) <= 56 && 1 <= Er(i) <= 32 {
      KeyTables(i);
      RoundTables(i);
    }
    forall i ensures 0 <= i < 16 ==> 0 <= LsCount(i) <= 2 {
      KeyTables(i);
    }
    forall i ensures 0 <= i < 32 ==> 1 <= P(i) <= 32 {
      RoundTables(i);
    }
    forall i ensures 0 <= i < 64 ==> 1 <= IpInverse(i) <= 64 && 1 <= Ip(i) <= 64 {
      if 0 <= i < 64 {
        IpUndone(i);
      }
    }
    SBoxShape();
  }

  lemma FipsInverts()
    ensures IpInverts(FipsTables())
  {
    forall i | 0 <= i < 64
      ensures 1 <= IpInverse(i) <= 64 && Ip(IpInverse(i) - 1) == i + 1
      ensures 1 <= Ip(i) <= 64 && IpInverse(Ip(i) - 1) == i + 1
    {
      IpUndone(i);
    }
  }

  lemma FipsSkipsParity()
    ensures SkipsParity(FipsTables())
  {
    forall i ensures 0 <= i < 28 ==> 1 <= Pc1c(i) <= 64 && Pc1c(i) % 8 != 0 && 1 <= Pc1d(i) <= 64 && Pc1d(i) % 8 != 0 {
      KeyTables(i);
    }
  }
}
