/** Bytes, and the C view of a byte sequence as a string. */
module Bytes {

  type Byte = b: int | 0 <= b < 256

  /** What strlen and strcpy see: the bytes up to the first 0. */
  function CString(s: seq<Byte>): seq<Byte> {
    if s == [] || s[0] == 0 then [] else [s[0]] + CString(s[1..])
  }

  lemma {:induction false} CStringEnds(s: seq<Byte>)
    ensures var r := CString(s); |r| <= |s| && r == s[..|r|] && 0 !in r && (|r| < |s| ==> s[|r|] == 0)
  {
    if s != [] {
      CStringEnds(s[1..]);
    }
  }

  lemma CStringWholeIff(s: seq<Byte>)
    ensures CString(s) == s <==> 0 !in s
  {
    CStringEnds(s);
  }
}
