/**
 A known answer for DES: key 133457799BBCDFF1 and block 0123456789ABCDEF give 85E813540F0AB405, by one
 lemma for each round. Words are written in hexadecimal digits and read as bits, the high one first.
 */
module DesAnswer {
  import opened Bytes
  import opened DesSpec
  import opened DesTables
  import Des

  const KEY: seq<Byte> := [0x13, 0x34, 0x57, 0x79, 0x9B, 0xBC, 0xDF, 0xF1]
  const TEXT: seq<Byte> := [0x01, 0x23, 0x45, 0x67, 0x89, 0xAB, 0xCD, 0xEF]
  const ANSWER: seq<Byte> := [0x85, 0xE8, 0x13, 0x54, 0x0F, 0x0A, 0xB4, 0x05]

  /** Bit j of a hexadecimal digit. */
  function Nib(v: int, j: int): Bit {
    if j == 0 then (if v >= 8 then 1 else 0)
    else if j == 1 then (if v >= 12 || 4 <= v < 8 then 1 else 0)
    else if j == 2 then (if v >= 14 || 10 <= v < 12 || 6 <= v < 8 || 2 <= v < 4 then 1 else 0)
    else if v == 1 || v == 3 || v == 5 || v == 7 || v == 9 || v == 11 || v == 13 || v == 15 then 1 else 0
  }

  datatype Hex = Hex(a: int, b: int, c: int, d: int, e: int, f: int, g: int, h: int)
  {
    function At(i: int): Bit {
      if i < 16 then
        if i < 8 then (if i < 4 then Nib(a, i) else Nib(b, i - 4))
        else if i < 12 then Nib(c, i - 8) else Nib(d, i - 12)
      else if i < 24 then (if i < 20 then Nib(e, i - 16) else Nib(f, i - 20))
      else if i < 28 then Nib(g, i - 24) else Nib(h, i - 28)
    }
  }

  /** 48 bits: the second word is half used. */
  datatype Hex48 = Hex48(x: Hex, y: Hex)
  {
    function At(i: int): Bit { if i < 32 then x.At(i) else y.At(i - 32) }
  }

  function InBox(row: int, column: int, j: int): Bit {
    if j == 0 then (if row >= 2 then 1 else 0)
    else if j == 5 then (if row == 1 || row == 3 then 1 else 0)
    else Nib(column, j - 1)
  }

  /** 48 bits as the eight boxes read them: two bits give a row, the four between them a column. */
  datatype Boxes = Boxes(rows: Hex, columns: Hex)
  {
    function At(i: int): Bit {
      if i < 24 then
        if i < 12 then (if i < 6 then InBox(rows.a, columns.a, i) else InBox(rows.b, columns.b, i - 6))
        else if i < 18 then InBox(rows.c, columns.c, i - 12) else InBox(rows.d, columns.d, i - 18)
      else if i < 36 then (if i < 30 then InBox(rows.e, columns.e, i - 24) else InBox(rows.f, columns.f, i - 30))
      else if i < 42 then InBox(rows.g, columns.g, i - 36) else InBox(rows.h, columns.h, i - 42)
    }
  }

  function Word(w: Hex): (r: Bits)
    ensures |r| == 32
  {
    seq(32, i requires 0 <= i < 32 => w.At(i))
  }

  /** The first 28 bits. */
  function Half28(w: Hex): (r: Bits)
    ensures |r| == 28
  {
    seq(28, i requires 0 <= i < 28 => w.At(i))
  }

  function Word48(w: Hex48): (r: Bits)
    ensures |r| == 48
  {
    seq(48, i requires 0 <= i < 48 => w.At(i))
  }

  // ----- one step, from its numbers -----

  predicate Rotates(c: Hex, next: Hex, count: int) {
    forall i {:trigger next.At(i)} :: 0 <= i < 28 ==> next.At(i) == c.At(if i + count < 28 then i + count else i + count - 28)
  }

  predicate SelectsKey(c: Hex, d: Hex, k: Hex48) {
    forall i {:trigger Pc2(i)} :: 0 <= i < 48 ==> k.At(i) == if Pc2(i) <= 28 then c.At(Pc2(i) - 1) else d.At(Pc2(i) - 29)
  }

  /** `x` is what goes into the boxes. */
  predicate MixesKey(r: Hex, k: Hex48, x: Boxes) {
    MixesBits(r, k, x, 0) && MixesBits(r, k, x, 12) && MixesBits(r, k, x, 24) && MixesBits(r, k, x, 36)
  }

  predicate MixesBits(r: Hex, k: Hex48, x: Boxes, from: int) {
    forall i {:trigger Er(i)} :: from <= i < from + 12 ==> (x.At(i) == 1 <==> r.At(Er(i) - 1) != k.At(i))
  }

  predicate LooksUp(x: Boxes, s: Hex) {
    && Sss(0, x.rows.a, x.columns.a) == s.a && Sss(1, x.rows.b, x.columns.b) == s.b
    && Sss(2, x.rows.c, x.columns.c) == s.c && Sss(3, x.rows.d, x.columns.d) == s.d
    && Sss(4, x.rows.e, x.columns.e) == s.e && Sss(5, x.rows.f, x.columns.f) == s.f
    && Sss(6, x.rows.g, x.columns.g) == s.g && Sss(7, x.rows.h, x.columns.h) == s.h
  }

  predicate Spreads(l: Hex, s: Hex, next: Hex) {
    forall i {:trigger P(i)} :: 0 <= i < 32 ==> (next.At(i) == 1 <==> s.At(P(i) - 1) != l.At(i))
  }

  // ----- the numbers: C[n] and D[n], the round keys, the halves, and what goes into and comes out of the boxes -----

  const C0 := Hex(0xF, 0x0, 0xC, 0xC, 0xA, 0xA, 0xF, 0x0)
  const C1 := Hex(0xE, 0x1, 0x9, 0x9, 0x5, 0x5, 0xF, 0x0)
  const C2 := Hex(0xC, 0x3, 0x3, 0x2, 0xA, 0xB, 0xF, 0x0)
  const C3 := Hex(0x0, 0xC, 0xC, 0xA, 0xA, 0xF, 0xF, 0x0)
  const C4 := Hex(0x3, 0x3, 0x2, 0xA, 0xB, 0xF, 0xC, 0x0)
  const C5 := Hex(0xC, 0xC, 0xA, 0xA, 0xF, 0xF, 0x0, 0x0)
  const C6 := Hex(0x3, 0x2, 0xA, 0xB, 0xF, 0xC, 0x3, 0x0)
  const C7 := Hex(0xC, 0xA, 0xA, 0xF, 0xF, 0x0, 0xC, 0x0)
  const C8 := Hex(0x2, 0xA, 0xB, 0xF, 0xC, 0x3, 0x3, 0x0)
  const C9 := Hex(0x5, 0x5, 0x7, 0xF, 0x8, 0x6, 0x6, 0x0)
  const C10 := Hex(0x5, 0x5, 0xF, 0xE, 0x1, 0x9, 0x9, 0x0)
  const C11 := Hex(0x5, 0x7, 0xF, 0x8, 0x6, 0x6, 0x5, 0x0)
  const C12 := Hex(0x5, 0xF, 0xE, 0x1, 0x9, 0x9, 0x5, 0x0)
  const C13 := Hex(0x7, 0xF, 0x8, 0x6, 0x6, 0x5, 0x5, 0x0)
  const C14 := Hex(0xF, 0xE, 0x1, 0x9, 0x9, 0x5, 0x5, 0x0)
  const C15 := Hex(0xF, 0x8, 0x6, 0x6, 0x5, 0x5, 0x7, 0x0)
  const C16 := Hex(0xF, 0x0, 0xC, 0xC, 0xA, 0xA, 0xF, 0x0)
  const D0 := Hex(0x5, 0x5, 0x6, 0x6, 0x7, 0x8, 0xF, 0x0)
  const D1 := Hex(0xA, 0xA, 0xC, 0xC, 0xF, 0x1, 0xE, 0x0)
  const D2 := Hex(0x5, 0x5, 0x9, 0x9, 0xE, 0x3, 0xD, 0x0)
  const D3 := Hex(0x5, 0x6, 0x6, 0x7, 0x8, 0xF, 0x5, 0x0)
  const D4 := Hex(0x5, 0x9, 0x9, 0xE, 0x3, 0xD, 0x5, 0x0)
  const D5 := Hex(0x6, 0x6, 0x7, 0x8, 0xF, 0x5, 0x5, 0x0)
  const D6 := Hex(0x9, 0x9, 0xE, 0x3, 0xD, 0x5, 0x5, 0x0)
  const D7 := Hex(0x6, 0x7, 0x8, 0xF, 0x5, 0x5, 0x6, 0x0)
  const D8 := Hex(0x9, 0xE, 0x3, 0xD, 0x5, 0x5, 0x9, 0x0)
  const D9 := Hex(0x3, 0xC, 0x7, 0xA, 0xA, 0xB, 0x3, 0x0)
  const D10 := Hex(0xF, 0x1, 0xE, 0xA, 0xA, 0xC, 0xC, 0x0)
  const D11 := Hex(0xC, 0x7, 0xA, 0xA, 0xB, 0x3, 0x3, 0x0)
  const D12 := Hex(0x1, 0xE, 0xA, 0xA, 0xC, 0xC, 0xF, 0x0)
  const D13 := Hex(0x7, 0xA, 0xA, 0xB, 0x3, 0x3, 0xC, 0x0)
  const D14 := Hex(0xE, 0xA, 0xA, 0xC, 0xC, 0xF, 0x1, 0x0)
  const D15 := Hex(0xA, 0xA, 0xB, 0x3, 0x3, 0xC, 0x7, 0x0)
  const D16 := Hex(0x5, 0x5, 0x6, 0x6, 0x7, 0x8, 0xF, 0x0)
  const K1 := Hex48(Hex(0x1, 0xB, 0x0, 0x2, 0xE, 0xF, 0xF, 0xC), Hex(0x7, 0x0, 0x7, 0x2, 0x0, 0x0, 0x0, 0x0))
  const K2 := Hex48(Hex(0x7, 0x9, 0xA, 0xE, 0xD, 0x9, 0xD, 0xB), Hex(0xC, 0x9, 0xE, 0x5, 0x0, 0x0, 0x0, 0x0))
  const K3 := Hex48(Hex(0x5, 0x5, 0xF, 0xC, 0x8, 0xA, 0x4, 0x2), Hex(0xC, 0xF, 0x9, 0x9, 0x0, 0x0, 0x0, 0x0))
  const K4 := Hex48(Hex(0x7, 0x2, 0xA, 0xD, 0xD, 0x6, 0xD, 0xB), Hex(0x3, 0x5, 0x1, 0xD, 0x0, 0x0, 0x0, 0x0))
  const K5 := Hex48(Hex(0x7, 0xC, 0xE, 0xC, 0x0, 0x7, 0xE, 0xB), Hex(0x5, 0x3, 0xA, 0x8, 0x0, 0x0, 0x0, 0x0))
  const K6 := Hex48(Hex(0x6, 0x3, 0xA, 0x5, 0x3, 0xE, 0x5, 0x0), Hex(0x7, 0xB, 0x2, 0xF, 0x0, 0x0, 0x0, 0x0))
  const K7 := Hex48(Hex(0xE, 0xC, 0x8, 0x4, 0xB, 0x7, 0xF, 0x6), Hex(0x1, 0x8, 0xB, 0xC, 0x0, 0x0, 0x0, 0x0))
  const K8 := Hex48(Hex(0xF, 0x7, 0x8, 0xA, 0x3, 0xA, 0xC, 0x1), Hex(0x3, 0xB, 0xF, 0xB, 0x0, 0x0, 0x0, 0x0))
  const K9 := Hex48(Hex(0xE, 0x0, 0xD, 0xB, 0xE, 0xB, 0xE, 0xD), Hex(0xE, 0x7, 0x8, 0x1, 0x0, 0x0, 0x0, 0x0))
  const K10 := Hex48(Hex(0xB, 0x1, 0xF, 0x3, 0x4, 0x7, 0xB, 0xA), Hex(0x4, 0x6, 0x4, 0xF, 0x0, 0x0, 0x0, 0x0))
  const K11 := Hex48(Hex(0x2, 0x1, 0x5, 0xF, 0xD, 0x3, 0xD, 0xE), Hex(0xD, 0x3, 0x8, 0x6, 0x0, 0x0, 0x0, 0x0))
  const K12 := Hex48(Hex(0x7, 0x5, 0x7, 0x1, 0xF, 0x5, 0x9, 0x4), Hex(0x6, 0x7, 0xE, 0x9, 0x0, 0x0, 0x0, 0x0))
  const K13 := Hex48(Hex(0x9, 0x7, 0xC, 0x5, 0xD, 0x1, 0xF, 0xA), Hex(0xB, 0xA, 0x4, 0x1, 0x0, 0x0, 0x0, 0x0))
  const K14 := Hex48(Hex(0x5, 0xF, 0x4, 0x3, 0xB, 0x7, 0xF, 0x2), Hex(0xE, 0x7, 0x3, 0xA, 0x0, 0x0, 0x0, 0x0))
  const K15 := Hex48(Hex(0xB, 0xF, 0x9, 0x1, 0x8, 0xD, 0x3, 0xD), Hex(0x3, 0xF, 0x0, 0xA, 0x0, 0x0, 0x0, 0x0))
  const K16 := Hex48(Hex(0xC, 0xB, 0x3, 0xD, 0x8, 0xB, 0x0, 0xE), Hex(0x1, 0x7, 0xF, 0x5, 0x0, 0x0, 0x0, 0x0))
  const W0 := Hex(0xC, 0xC, 0x0, 0x0, 0xC, 0xC, 0xF, 0xF)
  const W1 := Hex(0xF, 0x0, 0xA, 0xA, 0xF, 0x0, 0xA, 0xA)
  const W2 := Hex(0xE, 0xF, 0x4, 0xA, 0x6, 0x5, 0x4, 0x4)
  const W3 := Hex(0xC, 0xC, 0x0, 0x1, 0x7, 0x7, 0x0, 0x9)
  const W4 := Hex(0xA, 0x2, 0x5, 0xC, 0x0, 0xB, 0xF, 0x4)
  const W5 := Hex(0x7, 0x7, 0x2, 0x2, 0x0, 0x0, 0x4, 0x5)
  const W6 := Hex(0x8, 0xA, 0x4, 0xF, 0xA, 0x6, 0x3, 0x7)
  const W7 := Hex(0xE, 0x9, 0x6, 0x7, 0xC, 0xD, 0x6, 0x9)
  const W8 := Hex(0x0, 0x6, 0x4, 0xA, 0xB, 0xA, 0x1, 0x0)
  const W9 := Hex(0xD, 0x5, 0x6, 0x9, 0x4, 0xB, 0x9, 0x0)
  const W10 := Hex(0x2, 0x4, 0x7, 0xC, 0xC, 0x6, 0x7, 0xA)
  const W11 := Hex(0xB, 0x7, 0xD, 0x5, 0xD, 0x7, 0xB, 0x2)
  const W12 := Hex(0xC, 0x5, 0x7, 0x8, 0x3, 0xC, 0x7, 0x8)
  const W13 := Hex(0x7, 0x5, 0xB, 0xD, 0x1, 0x8, 0x5, 0x8)
  const W14 := Hex(0x1, 0x8, 0xC, 0x3, 0x1, 0x5, 0x5, 0xA)
  const W15 := Hex(0xC, 0x2, 0x8, 0xC, 0x9, 0x6, 0x0, 0xD)
  const W16 := Hex(0x4, 0x3, 0x4, 0x2, 0x3, 0x2, 0x3, 0x4)
  const W17 := Hex(0x0, 0xA, 0x4, 0xC, 0xD, 0x9, 0x9, 0x5)
  const X1 := Boxes(Hex(0x0, 0x1, 0x0, 0x2, 0x3, 0x2, 0x0, 0x3), Hex(0xC, 0x8, 0xF, 0xD, 0x0, 0x3, 0xA, 0x3))
  const X2 := Boxes(Hex(0x1, 0x0, 0x0, 0x1, 0x2, 0x2, 0x1, 0x2), Hex(0x1, 0x2, 0x9, 0x6, 0xD, 0xB, 0x7, 0x6))
  const X3 := Boxes(Hex(0x2, 0x1, 0x2, 0x0, 0x2, 0x0, 0x1, 0x0), Hex(0x6, 0x3, 0x9, 0x4, 0xF, 0x1, 0xF, 0x5))
  const X4 := Boxes(Hex(0x0, 0x2, 0x2, 0x2, 0x3, 0x2, 0x2, 0x2), Hex(0x4, 0x7, 0xE, 0x7, 0xB, 0x2, 0x5, 0xA))
  const X5 := Boxes(Hex(0x3, 0x2, 0x0, 0x1, 0x2, 0x3, 0x0, 0x2), Hex(0x8, 0x0, 0xA, 0x1, 0xD, 0xA, 0x3, 0x1))
  const X6 := Boxes(Hex(0x3, 0x2, 0x1, 0x3, 0x2, 0x1, 0x2, 0x0), Hex(0x4, 0x7, 0xE, 0x0, 0x0, 0x5, 0x5, 0x0))
  const X7 := Boxes(Hex(0x0, 0x0, 0x2, 0x2, 0x0, 0x3, 0x1, 0x3), Hex(0x3, 0xD, 0xF, 0xC, 0x2, 0xD, 0x7, 0x7))
  const X8 := Boxes(Hex(0x3, 0x2, 0x3, 0x3, 0x3, 0x3, 0x3, 0x1), Hex(0xE, 0xA, 0x0, 0x7, 0x3, 0x3, 0x6, 0xD))
  const X9 := Boxes(Hex(0x2, 0x3, 0x0, 0x3, 0x0, 0x1, 0x2, 0x2), Hex(0x1, 0x3, 0x1, 0xC, 0x9, 0x4, 0x6, 0x0))
  const X10 := Boxes(Hex(0x2, 0x1, 0x0, 0x2, 0x2, 0x2, 0x0, 0x3), Hex(0x4, 0xB, 0x1, 0xF, 0xB, 0x4, 0xB, 0xD))
  const X11 := Boxes(Hex(0x0, 0x2, 0x1, 0x2, 0x1, 0x0, 0x2, 0x3), Hex(0xF, 0xD, 0x2, 0xC, 0x6, 0x1, 0xC, 0x1))
  const X12 := Boxes(Hex(0x1, 0x1, 0x2, 0x1, 0x2, 0x2, 0x0, 0x0), Hex(0x2, 0xE, 0x4, 0x2, 0x1, 0xF, 0x8, 0xC))
  const X13 := Boxes(Hex(0x3, 0x1, 0x2, 0x3, 0x1, 0x1, 0x2, 0x3), Hex(0x5, 0xB, 0x0, 0x5, 0xE, 0xD, 0x1, 0x8))
  const X14 := Boxes(Hex(0x0, 0x1, 0x0, 0x3, 0x0, 0x0, 0x3, 0x0), Hex(0xA, 0x2, 0xB, 0x8, 0xF, 0x2, 0xB, 0x7))
  const X15 := Boxes(Hex(0x1, 0x2, 0x1, 0x0, 0x1, 0x3, 0x3, 0x1), Hex(0xB, 0xE, 0xB, 0xA, 0xE, 0xF, 0xE, 0x8))
  const X16 := Boxes(Hex(0x2, 0x3, 0x0, 0x1, 0x1, 0x1, 0x1, 0x1), Hex(0xD, 0xA, 0xF, 0x7, 0x2, 0x2, 0xC, 0xE))
  const S1 := Hex(0x5, 0xC, 0x8, 0x2, 0xB, 0x5, 0x9, 0x7)
  const S2 := Hex(0xF, 0x8, 0xD, 0x0, 0x3, 0xA, 0xA, 0xE)
  const S3 := Hex(0x2, 0x7, 0x1, 0x0, 0xE, 0x1, 0x6, 0xF)
  const S4 := Hex(0x2, 0x1, 0xE, 0xD, 0x9, 0xF, 0x3, 0xA)
  const S5 := Hex(0x5, 0x0, 0xC, 0x8, 0x3, 0x1, 0xE, 0xB)
  const S6 := Hex(0x4, 0x1, 0xF, 0x3, 0x4, 0xC, 0x3, 0xD)
  const S7 := Hex(0x1, 0x0, 0x7, 0x5, 0x4, 0x0, 0xA, 0xD)
  const S8 := Hex(0x6, 0xC, 0x1, 0x8, 0x7, 0xC, 0xA, 0xE)
  const S9 := Hex(0x1, 0x1, 0x0, 0xC, 0x5, 0x7, 0x7, 0x7)
  const S10 := Hex(0xD, 0xA, 0x0, 0x4, 0x5, 0x2, 0x7, 0x5)
  const S11 := Hex(0x7, 0x3, 0x0, 0x5, 0xD, 0x1, 0x0, 0x1)
  const S12 := Hex(0x7, 0xB, 0x8, 0xB, 0x2, 0x6, 0x3, 0x5)
  const S13 := Hex(0x9, 0xA, 0xD, 0x1, 0x8, 0xB, 0x4, 0xF)
  const S14 := Hex(0x6, 0x4, 0x7, 0x9, 0x9, 0xA, 0xF, 0x1)
  const S15 := Hex(0xB, 0x2, 0xE, 0x8, 0x8, 0xD, 0x3, 0xC)
  const S16 := Hex(0xA, 0x7, 0x8, 0x3, 0x2, 0x4, 0x2, 0x9)

  lemma KeyHalves1() ensures Rotates(C0, C1, 1) && Rotates(D0, D1, 1) {}
  lemma KeySelect1() ensures SelectsKey(C1, D1, K1) {}
  lemma Mix1() ensures MixesKey(W1, K1, X1) {}
  lemma Look1() ensures LooksUp(X1, S1) {}
  lemma Spread1() ensures Spreads(W0, S1, W2) {}
  lemma KeyHalves2() ensures Rotates(C1, C2, 1) && Rotates(D1, D2, 1) {}
  lemma KeySelect2() ensures SelectsKey(C2, D2, K2) {}
  lemma Mix2() ensures MixesKey(W2, K2, X2) {}
  lemma Look2() ensures LooksUp(X2, S2) {}
  lemma Spread2() ensures Spreads(W1, S2, W3) {}
  lemma KeyHalves3() ensures Rotates(C2, C3, 2) && Rotates(D2, D3, 2) {}
  lemma KeySelect3() ensures SelectsKey(C3, D3, K3) {}
  lemma Mix3() ensures MixesKey(W3, K3, X3) {}
  lemma Look3() ensures LooksUp(X3, S3) {}
  lemma Spread3() ensures Spreads(W2, S3, W4) {}
  lemma KeyHalves4() ensures Rotates(C3, C4, 2) && Rotates(D3, D4, 2) {}
  lemma KeySelect4() ensures SelectsKey(C4, D4, K4) {}
  lemma Mix4() ensures MixesKey(W4, K4, X4) {}
  lemma Look4() ensures LooksUp(X4, S4) {}
  lemma Spread4() ensures Spreads(W3, S4, W5) {}
  lemma KeyHalves5() ensures Rotates(C4, C5, 2) && Rotates(D4, D5, 2) {}
  lemma KeySelect5() ensures SelectsKey(C5, D5, K5) {}
  lemma Mix5() ensures MixesKey(W5, K5, X5) {}
  lemma Look5() ensures LooksUp(X5, S5) {}
  lemma Spread5() ensures Spreads(W4, S5, W6) {}
  lemma KeyHalves6() ensures Rotates(C5, C6, 2) && Rotates(D5, D6, 2) {}
  lemma KeySelect6() ensures SelectsKey(C6, D6, K6) {}
  lemma Mix6() ensures MixesKey(W6, K6, X6) {}
  lemma Look6() ensures LooksUp(X6, S6) {}
  lemma Spread6() ensures Spreads(W5, S6, W7) {}
  lemma KeyHalves7() ensures Rotates(C6, C7, 2) && Rotates(D6, D7, 2) {}
  lemma KeySelect7() ensures SelectsKey(C7, D7, K7) {}
  lemma Mix7() ensures MixesKey(W7, K7, X7) {}
  lemma Look7() ensures LooksUp(X7, S7) {}
  lemma Spread7() ensures Spreads(W6, S7, W8) {}
  lemma KeyHalves8() ensures Rotates(C7, C8, 2) && Rotates(D7, D8, 2) {}
  lemma KeySelect8() ensures SelectsKey(C8, D8, K8) {}
  lemma Mix8() ensures MixesKey(W8, K8, X8) {}
  lemma Look8() ensures LooksUp(X8, S8) {}
  lemma Spread8() ensures Spreads(W7, S8, W9) {}
  lemma KeyHalves9() ensures Rotates(C8, C9, 1) && Rotates(D8, D9, 1) {}
  lemma KeySelect9() ensures SelectsKey(C9, D9, K9) {}
  lemma Mix9() ensures MixesKey(W9, K9, X9) {}
  lemma Look9() ensures LooksUp(X9, S9) {}
  lemma Spread9() ensures Spreads(W8, S9, W10) {}
  lemma KeyHalves10() ensures Rotates(C9, C10, 2) && Rotates(D9, D10, 2) {}
  lemma KeySelect10() ensures SelectsKey(C10, D10, K10) {}
  lemma Mix10() ensures MixesKey(W10, K10, X10) {}
  lemma Look10() ensures LooksUp(X10, S10) {}
  lemma Spread10() ensures Spreads(W9, S10, W11) {}
  lemma KeyHalves11() ensures Rotates(C10, C11, 2) && Rotates(D10, D11, 2) {}
  lemma KeySelect11() ensures SelectsKey(C11, D11, K11) {}
  lemma Mix11() ensures MixesKey(W11, K11, X11) {}
  lemma Look11() ensures LooksUp(X11, S11) {}
  lemma Spread11() ensures Spreads(W10, S11, W12) {}
  lemma KeyHalves12() ensures Rotates(C11, C12, 2) && Rotates(D11, D12, 2) {}
  lemma KeySelect12() ensures SelectsKey(C12, D12, K12) {}
  lemma Mix12() ensures MixesKey(W12, K12, X12) {}
  lemma Look12() ensures LooksUp(X12, S12) {}
  lemma Spread12() ensures Spreads(W11, S12, W13) {}
  lemma KeyHalves13() ensures Rotates(C12, C13, 2) && Rotates(D12, D13, 2) {}
  lemma KeySelect13() ensures SelectsKey(C13, D13, K13) {}
  lemma Mix13() ensures MixesKey(W13, K13, X13) {}
  lemma Look13() ensures LooksUp(X13, S13) {}
  lemma Spread13() ensures Spreads(W12, S13, W14) {}
  lemma KeyHalves14() ensures Rotates(C13, C14, 2) && Rotates(D13, D14, 2) {}
  lemma KeySelect14() ensures SelectsKey(C14, D14, K14) {}
  lemma Mix14() ensures MixesKey(W14, K14, X14) {}
  lemma Look14() ensures LooksUp(X14, S14) {}
  lemma Spread14() ensures Spreads(W13, S14, W15) {}
  lemma KeyHalves15() ensures Rotates(C14, C15, 2) && Rotates(D14, D15, 2) {}
  lemma KeySelect15() ensures SelectsKey(C15, D15, K15) {}
  lemma Mix15() ensures MixesKey(W15, K15, X15) {}
  lemma Look15() ensures LooksUp(X15, S15) {}
  lemma Spread15() ensures Spreads(W14, S15, W16) {}
  lemma KeyHalves16() ensures Rotates(C15, C16, 1) && Rotates(D15, D16, 1) {}
  lemma KeySelect16() ensures SelectsKey(C16, D16, K16) {}
  lemma Mix16() ensures MixesKey(W16, K16, X16) {}
  lemma Look16() ensures LooksUp(X16, S16) {}
  lemma Spread16() ensures Spreads(W15, S16, W17) {}

  // ----- what the numbers mean -----

  function Digit(w: Hex, i: nat): int
    requires i < 8
  {
    if i < 4 then (if i < 2 then (if i < 1 then w.a else w.b) else if i < 3 then w.c else w.d)
    else (if i < 6 then (if i < 5 then w.e else w.f) else if i < 7 then w.g else w.h)
  }

  predicate Below(w: Hex, n: int) {
    && 0 <= w.a < n && 0 <= w.b < n && 0 <= w.c < n && 0 <= w.d < n
    && 0 <= w.e < n && 0 <= w.f < n && 0 <= w.g < n && 0 <= w.h < n
  }

  lemma NibIsBit(v: int, j: nat)
    requires 0 <= v < 16 && j < 4
    ensures Nib(v, j) == BitOf(v, 4 + j)
  {
  }

  lemma AtIsNib(w: Hex, i: nat, j: nat)
    requires i < 8 && j < 4
    ensures w.At(4 * i + j) == Nib(Digit(w, i), j)
  {
  }

  lemma RotateIs(c: Hex, next: Hex, count: nat)
    requires Rotates(c, next, count) && count <= 2
    ensures Rotate(Half28(c), count) == Half28(next)
  {
    forall i | 0 <= i < 28 ensures Rotate(Half28(c), count)[i] == Half28(next)[i] {
      assert (i + count) % 28 == if i + count < 28 then i + count else i + count - 28;
      assert next.At(i) == Half28(next)[i];
    }
  }

  function T(): (t: Tables)
    ensures Shaped(t) && IpInverts(t) && t == FipsTables()
  {
    FipsShaped();
    FipsInverts();
    FipsTables()
  }

  lemma SelectIs(c: Hex, d: Hex, k: Hex48)
    requires SelectsKey(c, d, k)
    ensures Permute(Half28(c) + Half28(d), T().pc2) == Word48(k)
  {
    forall i | 0 <= i < 48 ensures Permute(Half28(c) + Half28(d), T().pc2)[i] == Word48(k)[i] {
      assert T().pc2[i] == Pc2(i);
    }
  }

  function BoxWord(x: Boxes): (r: Bits)
    ensures |r| == 48
  {
    seq(48, i requires 0 <= i < 48 => x.At(i))
  }

  lemma MixIs(r: Hex, k: Hex48, x: Boxes)
    requires MixesKey(r, k, x)
    ensures Xor(Permute(Word(r), T().er), Word48(k)) == BoxWord(x)
  {
    forall i | 0 <= i < 48 ensures Xor(Permute(Word(r), T().er), Word48(k))[i] == BoxWord(x)[i] {
      assert T().er[i] == Er(i);
    }
  }

  lemma BoxIs(x: Boxes, i: nat)
    requires Below(x.rows, 4) && Below(x.columns, 16) && i < 8
    ensures Weigh(0, 0, 0, 0, 0, 0, x.At(6 * i), x.At(6 * i + 5)) == Digit(x.rows, i)
    ensures Weigh(0, 0, 0, 0, x.At(6 * i + 1), x.At(6 * i + 2), x.At(6 * i + 3), x.At(6 * i + 4)) == Digit(x.columns, i)
  {
    RowIs(Digit(x.rows, i), Digit(x.columns, i));
    BoxAt(x, i, 0);
    BoxAt(x, i, 1);
    BoxAt(x, i, 2);
    BoxAt(x, i, 3);
    BoxAt(x, i, 4);
    BoxAt(x, i, 5);
  }

  lemma BoxAt(x: Boxes, i: nat, j: nat)
    requires i < 8 && j < 6
    ensures x.At(6 * i + j) == InBox(Digit(x.rows, i), Digit(x.columns, i), j)
  {
  }

  lemma RowIs(row: int, column: int)
    requires 0 <= row < 4 && 0 <= column < 16
    ensures 2 * InBox(row, column, 0) + InBox(row, column, 5) == row
    ensures 8 * InBox(row, column, 1) + 4 * InBox(row, column, 2) + 2 * InBox(row, column, 3) + InBox(row, column, 4) == column
  {
  }

  lemma LookIs(x: Boxes, s: Hex)
    requires LooksUp(x, s) && Below(x.rows, 4) && Below(x.columns, 16) && Below(s, 16)
    ensures SBox(T().sss, BoxWord(x)) == Word(s)
  {
    forall i: nat | i < 8 ensures SBoxValue(T().sss, BoxWord(x), i) == Digit(s, i) {
      ValueIs(x, s, i);
    }
    OutputIs(T().sss, BoxWord(x), s);
  }

  lemma OutputIs(sss: seq<seq<seq<int>>>, bits: Bits, s: Hex)
    requires DesSpec.Boxes(sss) && |bits| == 48 && Below(s, 16)
    requires forall i: nat | i < 8 :: SBoxValue(sss, bits, i) == Digit(s, i)
    ensures SBox(sss, bits) == Word(s)
  {
    forall m: nat | m < 32 ensures SBox(sss, bits)[m] == Word(s)[m] {
      var i, j := m / 4, m % 4;
      assert m == 4 * i + j && SBoxValue(sss, bits, i) == Digit(s, i);
      NibIsBit(Digit(s, i), j);
      AtIsNib(s, i, j);
    }
  }

  lemma ValueIs(x: Boxes, s: Hex, i: nat)
    requires LooksUp(x, s) && Below(x.rows, 4) && Below(x.columns, 16) && i < 8
    ensures SBoxValue(T().sss, BoxWord(x), i) == Digit(s, i)
  {
    BoxIs(x, i);
    assert T().sss[i][Digit(x.rows, i)][Digit(x.columns, i)] == Sss(i, Digit(x.rows, i), Digit(x.columns, i));
  }

  lemma SpreadIs(l: Hex, s: Hex, next: Hex)
    requires Spreads(l, s, next)
    ensures Xor(Permute(Word(s), T().p), Word(l)) == Word(next)
  {
    forall i | 0 <= i < 32 ensures Xor(Permute(Word(s), T().p), Word(l))[i] == Word(next)[i] {
      assert T().p[i] == P(i);
    }
  }

  lemma RoundIs(l: Hex, r: Hex, k: Hex48, x: Boxes, s: Hex, next: Hex)
    requires MixesKey(r, k, x) && LooksUp(x, s) && Spreads(l, s, next)
    requires Below(x.rows, 4) && Below(x.columns, 16) && Below(s, 16)
    ensures Round(T(), Halves(Word(l), Word(r)), Word48(k)) == Halves(Word(r), Word(next))
  {
    MixIs(r, k, x);
    LookIs(x, s);
    SpreadIs(l, s, next);
  }

  // ----- the key schedule -----

  /** C[n] and D[n]. */
  predicate KeyAt(n: nat, c: Hex, d: Hex)
    requires n <= 16
  {
    && Half(T(), Permute(Expand(KEY), T().pc1c), n) == Half28(c)
    && Half(T(), Permute(Expand(KEY), T().pc1d), n) == Half28(d)
  }

  lemma KeyFrom(n: nat, c: Hex, d: Hex, c': Hex, d': Hex, k: Hex48)
    requires 1 <= n <= 16 && KeyAt(n - 1, c, d) && 1 <= LsCount(n - 1) <= 2
    requires Rotates(c, c', LsCount(n - 1)) && Rotates(d, d', LsCount(n - 1)) && SelectsKey(c', d', k)
    ensures KeyAt(n, c', d') && SubKey(T(), Expand(KEY), n) == Word48(k)
  {
    assert T().lsCount[n - 1] == LsCount(n - 1);
    RotateIs(c, c', LsCount(n - 1));
    RotateIs(d, d', LsCount(n - 1));
    SelectIs(c', d', k);
  }

  /** A byte of two hexadecimal digits. */
  lemma ByteBits(b: int, h: int, l: int, j: nat)
    requires 0 <= h < 16 && 0 <= l < 16 && b == 16 * h + l && j < 8
    ensures BitOf(b, j) == if j < 4 then Nib(h, j) else Nib(l, j - 4)
  {
    if j < 4 {
      HighBit(h, l, j);
      NibIsBit(h, j);
    } else {
      LowBit(h, l, j - 4);
      NibIsBit(l, j - 4);
    }
  }

  lemma HighBit(h: int, l: int, j: nat)
    requires 0 <= h < 16 && 0 <= l < 16 && j < 4
    ensures BitOf(16 * h + l, j) == BitOf(h, 4 + j)
  {
    assert (16 * h + l) / 16 == h && (16 * h + l) / 32 == h / 2 && (16 * h + l) / 64 == h / 4 && (16 * h + l) / 128 == h / 8;
  }

  lemma LowBit(h: int, l: int, j: nat)
    requires 0 <= h < 16 && 0 <= l < 16 && j < 4
    ensures BitOf(16 * h + l, 4 + j) == BitOf(l, 4 + j)
  {
    assert (16 * h + l) / 2 == 8 * h + l / 2 && (16 * h + l) / 4 == 4 * h + l / 4 && (16 * h + l) / 8 == 2 * h + l / 8;
  }

  predicate BytesAre(bytes: seq<Byte>, x: Hex, y: Hex) {
    && |bytes| == 8 && Below(x, 16) && Below(y, 16)
    && bytes[0] as int == 16 * x.a + x.b && bytes[1] as int == 16 * x.c + x.d
    && bytes[2] as int == 16 * x.e + x.f && bytes[3] as int == 16 * x.g + x.h
    && bytes[4] as int == 16 * y.a + y.b && bytes[5] as int == 16 * y.c + y.d
    && bytes[6] as int == 16 * y.e + y.f && bytes[7] as int == 16 * y.g + y.h
  }

  lemma ExpandIs(bytes: seq<Byte>, x: Hex, y: Hex)
    requires BytesAre(bytes, x, y)
    ensures Expand(bytes) == Word(x) + Word(y)
  {
    forall i: nat | i < 64 ensures Expand(bytes)[i] == (Word(x) + Word(y))[i] {
      ByteAt(bytes, x, y, i / 8, i % 8);
    }
  }

  lemma ByteAt(bytes: seq<Byte>, x: Hex, y: Hex, n: nat, j: nat)
    requires BytesAre(bytes, x, y) && n < 8 && j < 8
    ensures BitOf(bytes[n], j) == if n < 4 then x.At(8 * n + j) else y.At(8 * n + j - 32)
  {
    var (w, m) := if n < 4 then (x, n) else (y, n - 4);
    ByteBits(bytes[n], Digit(w, 2 * m), Digit(w, 2 * m + 1), j);
    if j < 4 {
      AtIsNib(w, 2 * m, j);
    } else {
      AtIsNib(w, 2 * m + 1, j - 4);
    }
  }

  predicate Selects28(x: Hex, y: Hex, c: Hex, d: Hex) {
    && (forall i {:trigger Pc1c(i)} :: 0 <= i < 28 ==> c.At(i) == if Pc1c(i) <= 32 then x.At(Pc1c(i) - 1) else y.At(Pc1c(i) - 33))
    && (forall i {:trigger Pc1d(i)} :: 0 <= i < 28 ==> d.At(i) == if Pc1d(i) <= 32 then x.At(Pc1d(i) - 1) else y.At(Pc1d(i) - 33))
  }

  const KEY1 := Hex(0x1, 0x3, 0x3, 0x4, 0x5, 0x7, 0x7, 0x9)
  const KEY2 := Hex(0x9, 0xB, 0xB, 0xC, 0xD, 0xF, 0xF, 0x1)
  const TEXT1 := Hex(0x0, 0x1, 0x2, 0x3, 0x4, 0x5, 0x6, 0x7)
  const TEXT2 := Hex(0x8, 0x9, 0xA, 0xB, 0xC, 0xD, 0xE, 0xF)
  const ANSWER1 := Hex(0x8, 0x5, 0xE, 0x8, 0x1, 0x3, 0x5, 0x4)
  const ANSWER2 := Hex(0x0, 0xF, 0x0, 0xA, 0xB, 0x4, 0x0, 0x5)

  lemma KeyStart() ensures Selects28(KEY1, KEY2, C0, D0) {}

  lemma Key0()
    ensures KeyAt(0, C0, D0)
  {
    ExpandIs(KEY, KEY1, KEY2);
    KeyStart();
    forall i | 0 <= i < 28
      ensures Permute(Expand(KEY), T().pc1c)[i] == Half28(C0)[i] && Permute(Expand(KEY), T().pc1d)[i] == Half28(D0)[i]
    {
      assert T().pc1c[i] == Pc1c(i) && T().pc1d[i] == Pc1d(i);
    }
    assert Permute(Expand(KEY), T().pc1c) == Half28(C0);
    assert Permute(Expand(KEY), T().pc1d) == Half28(D0);
  }

  // ----- the rounds -----

  /** The halves behind the first n rounds. */
  predicate After(n: nat, l: Hex, r: Hex)
    requires n <= 16
  {
    Rounds(T(), Split(T(), Expand(TEXT)), Schedule(T(), Expand(KEY))[..n]) == Halves(Word(l), Word(r))
  }

  lemma RoundFrom(n: nat, l: Hex, r: Hex, k: Hex48, x: Boxes, s: Hex, next: Hex)
    requires 1 <= n <= 16 && After(n - 1, l, r) && SubKey(T(), Expand(KEY), n) == Word48(k)
    requires MixesKey(r, k, x) && LooksUp(x, s) && Spreads(l, s, next)
    requires Below(x.rows, 4) && Below(x.columns, 16) && Below(s, 16)
    ensures After(n, r, next)
  {
    RoundIs(l, r, k, x, s, next);
    Des.RoundsExtend(T(), Split(T(), Expand(TEXT)), Schedule(T(), Expand(KEY)), n - 1);
  }

  predicate SplitsInto(x: Hex, y: Hex, l: Hex, r: Hex) {
    && (forall i {:trigger Ip(i)} :: 0 <= i < 32 ==> l.At(i) == if Ip(i) <= 32 then x.At(Ip(i) - 1) else y.At(Ip(i) - 33))
    && (forall i {:trigger Ip(i)} :: 32 <= i < 64 ==> r.At(i - 32) == if Ip(i) <= 32 then x.At(Ip(i) - 1) else y.At(Ip(i) - 33))
  }

  lemma TextSplits() ensures SplitsInto(TEXT1, TEXT2, W0, W1) {}

  lemma AnswerSplits() ensures SplitsInto(ANSWER1, ANSWER2, W17, W16) {}

  lemma SplitIs(bytes: seq<Byte>, x: Hex, y: Hex, l: Hex, r: Hex)
    requires BytesAre(bytes, x, y) && SplitsInto(x, y, l, r)
    ensures Permute(Expand(bytes), T().ip) == Word(l) + Word(r)
  {
    ExpandIs(bytes, x, y);
    forall i | 0 <= i < 64 ensures Permute(Expand(bytes), T().ip)[i] == (Word(l) + Word(r))[i] {
      assert T().ip[i] == Ip(i);
    }
  }

  lemma Round0()
    ensures KeyAt(0, C0, D0) && After(0, W0, W1)
  {
    Key0();
    TextSplits();
    SplitIs(TEXT, TEXT1, TEXT2, W0, W1);
    assert Schedule(T(), Expand(KEY))[..0] == [];
    assert (Word(W0) + Word(W1))[..32] == Word(W0) && (Word(W0) + Word(W1))[32..] == Word(W1);
  }

  lemma Round1()
    ensures KeyAt(1, C1, D1) && After(1, W1, W2)
  {
    Round0();
    KeyHalves1();
    KeySelect1();
    KeyFrom(1, C0, D0, C1, D1, K1);
    Mix1();
    Look1();
    Spread1();
    RoundFrom(1, W0, W1, K1, X1, S1, W2);
  }

  lemma Round2()
    ensures KeyAt(2, C2, D2) && After(2, W2, W3)
  {
    Round1();
    KeyHalves2();
    KeySelect2();
    KeyFrom(2, C1, D1, C2, D2, K2);
    Mix2();
    Look2();
    Spread2();
    RoundFrom(2, W1, W2, K2, X2, S2, W3);
  }

  lemma Round3()
    ensures KeyAt(3, C3, D3) && After(3, W3, W4)
  {
    Round2();
    KeyHalves3();
    KeySelect3();
    KeyFrom(3, C2, D2, C3, D3, K3);
    Mix3();
    Look3();
    Spread3();
    RoundFrom(3, W2, W3, K3, X3, S3, W4);
  }

  lemma Round4()
    ensures KeyAt(4, C4, D4) && After(4, W4, W5)
  {
    Round3();
    KeyHalves4();
    KeySelect4();
    KeyFrom(4, C3, D3, C4, D4, K4);
    Mix4();
    Look4();
    Spread4();
    RoundFrom(4, W3, W4, K4, X4, S4, W5);
  }

  lemma Round5()
    ensures KeyAt(5, C5, D5) && After(5, W5, W6)
  {
    Round4();
    KeyHalves5();
    KeySelect5();
    KeyFrom(5, C4, D4, C5, D5, K5);
    Mix5();
    Look5();
    Spread5();
    RoundFrom(5, W4, W5, K5, X5, S5, W6);
  }

  lemma Round6()
    ensures KeyAt(6, C6, D6) && After(6, W6, W7)
  {
    Round5();
    KeyHalves6();
    KeySelect6();
    KeyFrom(6, C5, D5, C6, D6, K6);
    Mix6();
    Look6();
    Spread6();
    RoundFrom(6, W5, W6, K6, X6, S6, W7);
  }

  lemma Round7()
    ensures KeyAt(7, C7, D7) && After(7, W7, W8)
  {
    Round6();
    KeyHalves7();
    KeySelect7();
    KeyFrom(7, C6, D6, C7, D7, K7);
    Mix7();
    Look7();
    Spread7();
    RoundFrom(7, W6, W7, K7, X7, S7, W8);
  }

  lemma Round8()
    ensures KeyAt(8, C8, D8) && After(8, W8, W9)
  {
    Round7();
    KeyHalves8();
    KeySelect8();
    KeyFrom(8, C7, D7, C8, D8, K8);
    Mix8();
    Look8();
    Spread8();
    RoundFrom(8, W7, W8, K8, X8, S8, W9);
  }

  lemma Round9()
    ensures KeyAt(9, C9, D9) && After(9, W9, W10)
  {
    Round8();
    KeyHalves9();
    KeySelect9();
    KeyFrom(9, C8, D8, C9, D9, K9);
    Mix9();
    Look9();
    Spread9();
    RoundFrom(9, W8, W9, K9, X9, S9, W10);
  }

  lemma Round10()
    ensures KeyAt(10, C10, D10) && After(10, W10, W11)
  {
    Round9();
    KeyHalves10();
    KeySelect10();
    KeyFrom(10, C9, D9, C10, D10, K10);
    Mix10();
    Look10();
    Spread10();
    RoundFrom(10, W9, W10, K10, X10, S10, W11);
  }

  lemma Round11()
    ensures KeyAt(11, C11, D11) && After(11, W11, W12)
  {
    Round10();
    KeyHalves11();
    KeySelect11();
    KeyFrom(11, C10, D10, C11, D11, K11);
    Mix11();
    Look11();
    Spread11();
    RoundFrom(11, W10, W11, K11, X11, S11, W12);
  }

  lemma Round12()
    ensures KeyAt(12, C12, D12) && After(12, W12, W13)
  {
    Round11();
    KeyHalves12();
    KeySelect12();
    KeyFrom(12, C11, D11, C12, D12, K12);
    Mix12();
    Look12();
    Spread12();
    RoundFrom(12, W11, W12, K12, X12, S12, W13);
  }

  lemma Round13()
    ensures KeyAt(13, C13, D13) && After(13, W13, W14)
  {
    Round12();
    KeyHalves13();
    KeySelect13();
    KeyFrom(13, C12, D12, C13, D13, K13);
    Mix13();
    Look13();
    Spread13();
    RoundFrom(13, W12, W13, K13, X13, S13, W14);
  }

  lemma Round14()
    ensures KeyAt(14, C14, D14) && After(14, W14, W15)
  {
    Round13();
    KeyHalves14();
    KeySelect14();
    KeyFrom(14, C13, D13, C14, D14, K14);
    Mix14();
    Look14();
    Spread14();
    RoundFrom(14, W13, W14, K14, X14, S14, W15);
  }

  lemma Round15()
    ensures KeyAt(15, C15, D15) && After(15, W15, W16)
  {
    Round14();
    KeyHalves15();
    KeySelect15();
    KeyFrom(15, C14, D14, C15, D15, K15);
    Mix15();
    Look15();
    Spread15();
    RoundFrom(15, W14, W15, K15, X15, S15, W16);
  }

  lemma Round16()
    ensures KeyAt(16, C16, D16) && After(16, W16, W17)
  {
    Round15();
    KeyHalves16();
    KeySelect16();
    KeyFrom(16, C15, D15, C16, D16, K16);
    Mix16();
    Look16();
    Spread16();
    RoundFrom(16, W15, W16, K16, X16, S16, W17);
  }

  /** DES of the source's tables gives the known answer, and DES_1 takes it back. */
  lemma KnownAnswer()
    ensures Encrypt(T(), KEY, TEXT) == ANSWER && Decrypt(T(), KEY, ANSWER) == TEXT
  {
    Round16();
    var ks := Schedule(T(), Expand(KEY));
    assert ks[..16] == ks;
    AnswerSplits();
    SplitIs(ANSWER, ANSWER1, ANSWER2, W17, W16);
    PermuteUndone(Expand(ANSWER), T().ip, T().ipInverse);
    CompressExpand(ANSWER);
    DecryptEncrypt(T(), KEY, TEXT);
  }
}
