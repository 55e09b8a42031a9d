/**
 The JSON printer and parser of xframe/comserv/jsonvalue.C and json.C.

 A wide character is an integer. A text is what a `const wchar_t*` points at up to its terminating
 0, so the cursor is the rest of the text and `Head` is the character it points to. The value of
 a number is left as its text.
 */
module Json {
  import opened Wrappers

  type WStr = seq<int>

  /** JSONObject is a std::map: its members are kept in ascending key order. */
  datatype Value =
    | Null
    | Str(s: WStr)
    | Bool(b: bool)
    | Number(lexeme: WStr)
    | Arr(elements: seq<Value>)
    | Obj(members: seq<Member>)

  datatype Member = Member(key: WStr, value: Value)

  const QUOTE := '\"' as int
  const BACKSLASH := '\\' as int
  const SLASH := '/' as int
  const LBRACE := '{' as int
  const RBRACE := '}' as int
  const LBRACKET := '[' as int
  const RBRACKET := ']' as int
  const COMMA := ',' as int
  const COLON := ':' as int
  const SPACE := 32
  const TAB := 9
  const LF := 10
  const CR := 13
  const FF := 12
  const BS := 8

  function Codes(s: string): (r: WStr)
    ensures |r| == |s| && forall i :: 0 <= i < |s| ==> r[i] == s[i] as int
  {
    seq(|s|, i requires 0 <= i < |s| => s[i] as int)
  }

  // ----- the parser -----

  predicate IsText(s: WStr) { 0 !in s }

  predicate Suffix(rest: WStr, s: WStr) { |rest| <= |s| && s[|s| - |rest|..] == rest }

  function Head(s: WStr): int { if s == [] then 0 else s[0] }

  predicate IsSpace(c: int) { c == SPACE || c == TAB || c == CR || c == LF }

  function SkipSpace(s: WStr): (rest: WStr)
    ensures |rest| <= |s| && (rest == [] || !IsSpace(rest[0]))
  {
    if s != [] && IsSpace(s[0]) then SkipSpace(s[1..]) else s
  }

  /** The character a one-letter escape stands for. */
  function Unescape(e: int): Option<int> {
    if e == QUOTE || e == BACKSLASH || e == SLASH then Some(e)
    else if e == 'b' as int then Some(BS)
    else if e == 'f' as int then Some(FF)
    else if e == 'n' as int then Some(LF)
    else if e == 'r' as int then Some(CR)
    else if e == 't' as int then Some(TAB)
    else None
  }

  function HexValue(c: int): Option<int> {
    if '0' as int <= c <= '9' as int then Some(c - '0' as int)
    else if 'A' as int <= c <= 'F' as int then Some(10 + c - 'A' as int)
    else if 'a' as int <= c <= 'f' as int then Some(10 + c - 'a' as int)
    else None
  }

  /** Four hex digits. */
  function Hex4(s: WStr): Option<int>
    requires |s| >= 4
  {
    var (a, b, c, d) := (HexValue(s[0]), HexValue(s[1]), HexValue(s[2]), HexValue(s[3]));
    if a.Some? && b.Some? && c.Some? && d.Some?
    then Some(((a.value * 16 + b.value) * 16 + c.value) * 16 + d.value) else None
  }

  datatype Extracted = Extracted(str: WStr, rest: WStr)

  /** ExtractString, with `str` read so far. */
  function Extract(s: WStr, str: WStr): (r: Option<Extracted>)
    ensures r.Some? ==> |r.value.rest| < |s|
    decreases |s|
  {
    if s == [] then None
    else if s[0] == BACKSLASH then
      if |s| >= 2 && Unescape(s[1]).Some? then Extract(s[2..], str + [Unescape(s[1]).value])
      else if |s| >= 6 && s[1] == 'u' as int && Hex4(s[2..]).Some? then Extract(s[6..], str + [Hex4(s[2..]).value])
      else None
    else if s[0] == QUOTE then Some(Extracted(str, s[1..]))
    else if s[0] < SPACE && s[0] != TAB then None
    else Extract(s[1..], str + [s[0]])
  }

  function Lower(c: int): int { if 'A' as int <= c <= 'Z' as int then c + 32 else c }

  /** wcsncasecmp(s, word, |word|) == 0 on a text of at least that many characters. */
  predicate StartsWithWord(s: WStr, word: string) {
    |s| >= |word| && forall i :: 0 <= i < |word| ==> Lower(s[i]) == Lower(word[i] as int)
  }

  predicate IsDigit(c: int) { '0' as int <= c <= '9' as int }

  function SkipDigits(s: WStr): (rest: WStr)
    ensures |rest| <= |s| && (s != [] && IsDigit(s[0]) ==> |rest| < |s|)
  {
    if s != [] && IsDigit(s[0]) then SkipDigits(s[1..]) else s
  }

  function SkipFraction(s: WStr): (rest: Option<WStr>)
    ensures rest.Some? ==> |rest.value| <= |s|
  {
    if Head(s) != '.' as int then Some(s)
    else if IsDigit(Head(s[1..])) then Some(SkipDigits(s[1..])) else None
  }

  function SkipExponent(s: WStr): (rest: Option<WStr>)
    ensures rest.Some? ==> |rest.value| <= |s|
  {
    if Head(s) != 'E' as int && Head(s) != 'e' as int then Some(s)
    else
      var s1 := if Head(s[1..]) == '-' as int || Head(s[1..]) == '+' as int then s[2..] else s[1..];
      if IsDigit(Head(s1)) then Some(SkipDigits(s1)) else None
  }

  /** What follows a number; its value is not computed here. */
  function SkipNumber(s: WStr): (rest: Option<WStr>)
    requires Head(s) == '-' as int || IsDigit(Head(s))
    ensures rest.Some? ==> |rest.value| < |s|
  {
    var s1 := if s[0] == '-' as int then s[1..] else s;
    if !IsDigit(Head(s1)) then None
    else
      var s2 := if s1[0] == '0' as int then s1[1..] else SkipDigits(s1);
      var s3 := SkipFraction(s2);
      if s3.None? then None else SkipExponent(s3.value)
  }

  /** operator< of std::wstring. */
  predicate Less(a: WStr, b: WStr) {
    b != [] && (a == [] || a[0] < b[0] || (a[0] == b[0] && Less(a[1..], b[1..])))
  }

  /** object[name] = value. */
  function Put(members: seq<Member>, key: WStr, value: Value): seq<Member> {
    if members == [] || Less(key, members[0].key) then [Member(key, value)] + members
    else if members[0].key == key then [Member(key, value)] + members[1..]
    else [members[0]] + Put(members[1..], key, value)
  }

  datatype Parsed = Parsed(value: Value, rest: WStr)

  /** JSONValue::Parse. */
  function ParseValue(s: WStr): (r: Option<Parsed>)
    ensures r.Some? ==> |r.value.rest| < |s|
    decreases |s|, 0
  {
    if Head(s) == QUOTE then
      var e := Extract(s[1..], []);
      if e.Some? then Some(Parsed(Str(e.value.str), e.value.rest)) else None
    else if StartsWithWord(s, "true") then Some(Parsed(Bool(true), s[4..]))
    else if StartsWithWord(s, "false") then Some(Parsed(Bool(false), s[5..]))
    else if StartsWithWord(s, "null") then Some(Parsed(Null, s[4..]))
    else if Head(s) == '-' as int || IsDigit(Head(s)) then
      var rest := SkipNumber(s);
      if rest.Some? then Some(Parsed(Number(s[..|s| - |rest.value|]), rest.value)) else None
    else if Head(s) == LBRACE then ParseMembers(s[1..], [])
    else if Head(s) == LBRACKET then ParseElements(s[1..], [])
    else None
  }

  /** One turn of the loops below: a fault, the end of an empty list, or an item before ']' or ','. */
  datatype Turn<T> = Bad | Empty(rest: WStr) | Last(item: T, rest: WStr) | More(item: T, rest: WStr)

  /** What follows an item decides whether the list goes on. */
  function Delimited<T>(item: T, s: WStr, close: int): (r: Turn<T>)
    ensures !r.Bad? ==> |r.rest| < |s|
  {
    var s1 := SkipSpace(s);
    if s1 != [] && s1[0] == close then Last(item, s1[1..])
    else if Head(s1) == COMMA then More(item, s1[1..])
    else Bad
  }

  function NextElement(s: WStr, first: bool): (r: Turn<Value>)
    ensures !r.Bad? ==> |r.rest| < |s|
    decreases |s|, 1
  {
    var s1 := SkipSpace(s);
    if s1 == [] then Bad
    else if first && s1[0] == RBRACKET then Empty(s1[1..])
    else
      var v := ParseValue(s1);
      if v.None? then Bad else Delimited(v.value.value, v.value.rest, RBRACKET)
  }

  /** The loop over array elements. */
  function ParseElements(s: WStr, elements: seq<Value>): (r: Option<Parsed>)
    ensures r.Some? ==> |r.value.rest| < |s|
    decreases |s|, 2
  {
    match NextElement(s, elements == [])
    case Bad => None
    case Empty(rest) => Some(Parsed(Arr(elements), rest))
    case Last(v, rest) => Some(Parsed(Arr(elements + [v]), rest))
    case More(v, rest) => ParseElements(rest, elements + [v])
  }

  /** The name before a colon; the character before it is skipped unseen. */
  function NextName(s: WStr): (r: Option<Extracted>)
    requires s != []
    ensures r.Some? ==> |r.value.rest| < |s|
  {
    var name := Extract(s[1..], []);
    if name.None? then None
    else
      var s1 := SkipSpace(name.value.rest);
      if Head(s1) == COLON then Some(Extracted(name.value.str, s1[1..])) else None
  }

  function NextMember(s: WStr, first: bool): (r: Turn<Member>)
    ensures !r.Bad? ==> |r.rest| < |s|
    decreases |s|, 1
  {
    var s1 := SkipSpace(s);
    if s1 == [] then Bad
    else if first && s1[0] == RBRACE then Empty(s1[1..])
    else
      var name := NextName(s1);
      if name.None? then Bad
      else
        var s2 := SkipSpace(name.value.rest);
        var v := if s2 == [] then None else ParseValue(s2);
        if v.None? then Bad else Delimited(Member(name.value.str, v.value.value), v.value.rest, RBRACE)
  }

  /** The loop over object members. */
  function ParseMembers(s: WStr, members: seq<Member>): (r: Option<Parsed>)
    ensures r.Some? ==> |r.value.rest| < |s|
    decreases |s|, 2
  {
    match NextMember(s, members == [])
    case Bad => None
    case Empty(rest) => Some(Parsed(Obj(members), rest))
    case Last(m, rest) => Some(Parsed(Obj(Put(members, m.key, m.value)), rest))
    case More(m, rest) => ParseMembers(rest, Put(members, m.key, m.value))
  }

  /** JSON::Parse. */
  function Parse(s: WStr): (r: Option<Value>) {
    var s1 := SkipSpace(s);
    if s1 == [] then None
    else
      var v := ParseValue(s1);
      if v.Some? && SkipSpace(v.value.rest) == [] then Some(v.value.value) else None
  }

  // ----- the printer -----

  function HexDigit(v: int): int { if v < 10 then '0' as int + v else 'A' as int + v - 10 }

  function Escape(c: int): WStr {
    if c == QUOTE || c == BACKSLASH || c == SLASH then [BACKSLASH, c]
    else if c == BS then Codes("\\b")
    else if c == FF then Codes("\\f")
    else if c == LF then Codes("\\n")
    else if c == CR then Codes("\\r")
    else if c == TAB then Codes("\\t")
    else if c < SPACE then
      [BACKSLASH, 'u' as int, HexDigit(c / 4096 % 16), HexDigit(c / 256 % 16), HexDigit(c / 16 % 16), HexDigit(c % 16)]
    else [c]
  }

  function EscapeAll(s: WStr): WStr {
    if s == [] then [] else Escape(s[0]) + EscapeAll(s[1..])
  }

  /** StringifyString. */
  function Quote(s: WStr): WStr { [QUOTE] + EscapeAll(s) + [QUOTE] }

  predicate NumberFree(v: Value) {
    match v
    case Number(_) => false
    case Arr(elements) => forall e <- elements :: NumberFree(e)
    case Obj(members) => forall m <- members :: NumberFree(m.value)
    case _ => true
  }

  /** Stringify. */
  function Stringify(v: Value): (r: WStr)
    requires NumberFree(v)
    ensures r != []
    decreases v, 1
  {
    match v
    case Null => Codes("null")
    case Str(s) => Quote(s)
    case Bool(b) => if b then Codes("true") else Codes("false")
    case Arr(elements) => [LBRACKET] + PrintElements(elements) + [RBRACKET]
    case Obj(members) => [LBRACE] + PrintMembers(members) + [RBRACE]
  }

  function PrintElements(vs: seq<Value>): WStr
    requires forall v <- vs :: NumberFree(v)
    decreases vs, 0
  {
    if vs == [] then []
    else if |vs| == 1 then Stringify(vs[0])
    else Stringify(vs[0]) + [COMMA] + PrintElements(vs[1..])
  }

  function PrintMember(m: Member): WStr
    requires NumberFree(m.value)
    decreases m, 1
  {
    Quote(m.key) + [COLON] + Stringify(m.value)
  }

  function PrintMembers(ms: seq<Member>): WStr
    requires forall m <- ms :: NumberFree(m.value)
    decreases ms, 0
  {
    if ms == [] then []
    else if |ms| == 1 then PrintMember(ms[0])
    else PrintMember(ms[0]) + [COMMA] + PrintMembers(ms[1..])
  }
}
