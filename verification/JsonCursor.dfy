/**
 The loops of json.C and jsonvalue.C, on a cursor into the text. Every call moves its cursor forward
 and never past the terminator, and computes the functions of `Json`.
 */
module JsonCursor {
  import opened Wrappers
  import opened Json

  /** **data: the terminator is 0. */
  function At(text: WStr, p: nat): int
    requires p <= |text|
  {
    if p < |text| then text[p] else 0
  }

  lemma Dropped(text: WStr, p: nat, k: nat)
    requires p + k <= |text|
    ensures text[p..][k..] == text[p + k..]
  {
  }

  method SkipWhitespace(text: WStr, pos: nat) returns (p: nat, more: bool)
    requires IsText(text) && pos <= |text|
    ensures pos <= p <= |text| && text[p..] == SkipSpace(text[pos..]) && (more <==> text[p..] != [])
  {
    p := pos;
    while At(text, p) != 0 && IsSpace(At(text, p))
      invariant pos <= p <= |text| && SkipSpace(text[p..]) == SkipSpace(text[pos..])
      decreases |text| - p
    {
      Dropped(text, p, 1);
      p := p + 1;
    }
    more := At(text, p) != 0;
  }

  /** The four hex digits behind a 'u' at p. */
  method ReadHex4(text: WStr, p: nat) returns (v: Option<int>)
    requires p + 5 <= |text|
    ensures v == Hex4(text[p + 1..])
  {
    var value, i := 0, 0;
    ghost var s := text[p + 1..];
    while i < 4
      invariant 0 <= i <= 4
      invariant forall k :: 0 <= k < i ==> HexValue(s[k]).Some?
      invariant i == 1 ==> value == HexValue(s[0]).value
      invariant i == 2 ==> value == HexValue(s[0]).value * 16 + HexValue(s[1]).value
      invariant i == 3 ==> value == (HexValue(s[0]).value * 16 + HexValue(s[1]).value) * 16 + HexValue(s[2]).value
      invariant i == 4 ==> Hex4(s) == Some(value)
      invariant i == 0 ==> value == 0
    {
      assert text[p + 1 + i] == s[i];
      var digit := HexValue(text[p + 1 + i]);
      if digit.None? {
        return None;
      }
      value := value * 16 + digit.value;
      i := i + 1;
    }
    return Some(value);
  }

  method ExtractString(text: WStr, pos: nat) returns (str: Option<WStr>, p: nat)
    requires IsText(text) && pos <= |text|
    ensures pos <= p <= |text|
    ensures str.None? ==> Extract(text[pos..], []).None?
    ensures str.Some? ==> p > pos && Extract(text[pos..], []) == Some(Extracted(str.value, text[p..]))
  {
    p := pos;
    var read: WStr := [];
    while At(text, p) != 0
      invariant pos <= p <= |text| && Extract(text[p..], read) == Extract(text[pos..], [])
      decreases |text| - p
    {
      var next := At(text, p);
      if next == BACKSLASH {
        var escaped;
        escaped, p := ExtractEscape(text, p, read);
        if escaped.None? {
          return None, p;
        }
        next := escaped.value;
      } else if next == QUOTE {
        Dropped(text, p, 1);
        return Some(read), p + 1;
      } else if next < SPACE && next != TAB {
        return None, p;
      } else {
        Dropped(text, p, 1);
      }
      read := read + [next];
      p := p + 1;
    }
    return None, p;
  }

  /** The branch of ExtractString for a backslash; p ends on the last character of the escape. */
  method ExtractEscape(text: WStr, pos: nat, ghost read: WStr) returns (next: Option<int>, p: nat)
    requires IsText(text) && pos < |text| && text[pos] == BACKSLASH
    ensures pos <= p <= |text|
    ensures next.None? ==> Extract(text[pos..], read).None?
    ensures next.Some? ==> p < |text| && Extract(text[p + 1..], read + [next.value]) == Extract(text[pos..], read)
  {
    p := pos + 1;
    var e := At(text, p);
    if Unescape(e).Some? {
      Dropped(text, pos, 2);
      return Unescape(e), p;
    }
    if e != 'u' as int || p + 5 > |text| {
      return None, p;
    }
    next := ReadHex4(text, p);
    Dropped(text, pos, 2);
    Dropped(text, pos, 6);
    if next.Some? {
      p := p + 4;
    }
  }

  /** The loop of ParseInt and ParseDecimal, without the sum. */
  method PassDigits(text: WStr, pos: nat) returns (p: nat)
    requires IsText(text) && pos <= |text|
    ensures pos <= p <= |text| && text[p..] == SkipDigits(text[pos..])
  {
    p := pos;
    while At(text, p) != 0 && IsDigit(At(text, p))
      invariant pos <= p <= |text| && SkipDigits(text[p..]) == SkipDigits(text[pos..])
      decreases |text| - p
    {
      Dropped(text, p, 1);
      p := p + 1;
    }
  }

  method PassFraction(text: WStr, pos: nat) returns (ok: bool, p: nat)
    requires IsText(text) && pos <= |text|
    ensures pos <= p <= |text|
    ensures SkipFraction(text[pos..]) == if ok then Some(text[p..]) else None
  {
    p := pos;
    if At(text, p) == '.' as int {
      Dropped(text, p, 1);
      p := p + 1;
      if !IsDigit(At(text, p)) {
        return false, p;
      }
      p := PassDigits(text, p);
    }
    ok := true;
  }

  method PassExponent(text: WStr, pos: nat) returns (ok: bool, p: nat)
    requires IsText(text) && pos <= |text|
    ensures pos <= p <= |text|
    ensures SkipExponent(text[pos..]) == if ok then Some(text[p..]) else None
  {
    p := pos;
    if At(text, p) == 'E' as int || At(text, p) == 'e' as int {
      Dropped(text, p, 1);
      p := p + 1;
      if At(text, p) == '-' as int || At(text, p) == '+' as int {
        Dropped(text, p - 1, 2);
        p := p + 1;
      }
      if !IsDigit(At(text, p)) {
        return false, p;
      }
      p := PassDigits(text, p);
    }
    ok := true;
  }

  method PassNumber(text: WStr, pos: nat) returns (ok: bool, p: nat)
    requires IsText(text) && pos <= |text| && (At(text, pos) == '-' as int || IsDigit(At(text, pos)))
    ensures pos <= p <= |text|
    ensures SkipNumber(text[pos..]) == if ok then Some(text[p..]) else None
  {
    p := pos;
    if At(text, p) == '-' as int {
      Dropped(text, p, 1);
      p := p + 1;
    }
    if !IsDigit(At(text, p)) {
      return false, p;
    }
    if At(text, p) == '0' as int {
      Dropped(text, p, 1);
      p := p + 1;
    } else {
      p := PassDigits(text, p);
    }
    ok, p := PassFraction(text, p);
    if ok {
      ok, p := PassExponent(text, p);
    }
  }

  /** A method's answer and cursor say what the function says of the rest of the text. */
  predicate Agrees(v: Option<Value>, p: nat, text: WStr, spec: Option<Parsed>)
    requires p <= |text|
  {
    spec == if v.Some? then Some(Parsed(v.value, text[p..])) else None
  }

  method ParseAt(text: WStr, pos: nat) returns (v: Option<Value>, p: nat)
    requires IsText(text) && pos <= |text|
    ensures pos <= p <= |text| && (v.Some? ==> pos < p) && Agrees(v, p, text, ParseValue(text[pos..]))
    decreases |text| - pos, 0
  {
    p := pos;
    ghost var s := text[pos..];
    var head := At(text, p);
    if head == QUOTE {
      Dropped(text, p, 1);
      var str;
      str, p := ExtractString(text, p + 1);
      v := if str.Some? then Some(Str(str.value)) else None;
    } else if StartsWithWord(text[p..], "true") {
      Dropped(text, p, 4);
      v, p := Some(Bool(true)), p + 4;
    } else if StartsWithWord(text[p..], "false") {
      Dropped(text, p, 5);
      v, p := Some(Bool(false)), p + 5;
    } else if StartsWithWord(text[p..], "null") {
      Dropped(text, p, 4);
      v, p := Some(Null), p + 4;
    } else if head == '-' as int || IsDigit(head) {
      var ok;
      ok, p := PassNumber(text, p);
      assert text[pos..p] == s[..|s| - |text[p..]|];
      v := if ok then Some(Number(text[pos..p])) else None;
    } else if head == LBRACE {
      Dropped(text, p, 1);
      v, p := ParseMembersAt(text, p + 1);
    } else if head == LBRACKET {
      Dropped(text, p, 1);
      v, p := ParseElementsAt(text, p + 1);
    } else {
      v := None;
    }
  }

  method DelimitedAt<T>(item: T, text: WStr, pos: nat, close: int) returns (turn: Turn<T>, p: nat)
    requires IsText(text) && pos <= |text|
    ensures pos <= p <= |text| && (!turn.Bad? ==> pos < p && turn.rest == text[p..])
    ensures turn == Delimited(item, text[pos..], close)
  {
    var more;
    p, more := SkipWhitespace(text, pos);
    if !more {
      return Bad, p;
    }
    Dropped(text, p, 1);
    if At(text, p) == close {
      return Last(item, text[p + 1..]), p + 1;
    }
    if At(text, p) != COMMA {
      return Bad, p;
    }
    return More(item, text[p + 1..]), p + 1;
  }

  /** One turn of the element loop; `turn` carries the rest of the text only as the cursor p. */
  method NextElementAt(text: WStr, pos: nat, first: bool) returns (turn: Turn<Value>, p: nat)
    requires IsText(text) && pos <= |text|
    ensures pos <= p <= |text| && (!turn.Bad? ==> pos < p && turn.rest == text[p..])
    ensures turn == NextElement(text[pos..], first)
    decreases |text| - pos, 1
  {
    var more;
    p, more := SkipWhitespace(text, pos);
    if !more {
      return Bad, p;
    }
    Dropped(text, p, 1);
    if first && At(text, p) == RBRACKET {
      return Empty(text[p + 1..]), p + 1;
    }
    var value;
    value, p := ParseAt(text, p);
    if value.None? {
      return Bad, p;
    }
    turn, p := DelimitedAt(value.value, text, p, RBRACKET);
  }

  method ParseElementsAt(text: WStr, pos: nat) returns (v: Option<Value>, p: nat)
    requires IsText(text) && pos <= |text|
    ensures pos <= p <= |text| && Agrees(v, p, text, ParseElements(text[pos..], []))
    decreases |text| - pos, 2
  {
    p := pos;
    var elements: seq<Value> := [];
    while At(text, p) != 0
      invariant pos <= p <= |text| && ParseElements(text[p..], elements) == ParseElements(text[pos..], [])
      decreases |text| - p
    {
      var turn;
      turn, p := NextElementAt(text, p, |elements| == 0);
      match turn {
        case Bad => return None, p;
        case Empty(_) => return Some(Arr(elements)), p;
        case Last(value, _) => return Some(Arr(elements + [value])), p;
        case More(value, _) => elements := elements + [value];
      }
    }
    return None, p;
  }

  method NextNameAt(text: WStr, pos: nat) returns (name: Option<WStr>, p: nat)
    requires IsText(text) && pos < |text|
    ensures pos <= p <= |text|
    ensures NextName(text[pos..]) == if name.Some? then Some(Extracted(name.value, text[p..])) else None
    ensures name.Some? ==> pos < p
  {
    Dropped(text, pos, 1);
    name, p := ExtractString(text, pos + 1);
    if name.None? {
      return None, p;
    }
    var more;
    p, more := SkipWhitespace(text, p);
    if !more || At(text, p) != COLON {
      return None, p;
    }
    Dropped(text, p, 1);
    p := p + 1;
  }

  method NextMemberAt(text: WStr, pos: nat, first: bool) returns (turn: Turn<Member>, p: nat)
    requires IsText(text) && pos <= |text|
    ensures pos <= p <= |text| && (!turn.Bad? ==> pos < p && turn.rest == text[p..])
    ensures turn == NextMember(text[pos..], first)
    decreases |text| - pos, 1
  {
    var more;
    p, more := SkipWhitespace(text, pos);
    if !more {
      return Bad, p;
    }
    Dropped(text, p, 1);
    if first && At(text, p) == RBRACE {
      return Empty(text[p + 1..]), p + 1;
    }
    var name;
    name, p := NextNameAt(text, p);
    if name.None? {
      return Bad, p;
    }
    p, more := SkipWhitespace(text, p);
    if !more {
      return Bad, p;
    }
    var value;
    value, p := ParseAt(text, p);
    if value.None? {
      return Bad, p;
    }
    turn, p := DelimitedAt(Member(name.value, value.value), text, p, RBRACE);
  }

  method ParseMembersAt(text: WStr, pos: nat) returns (v: Option<Value>, p: nat)
    requires IsText(text) && pos <= |text|
    ensures pos <= p <= |text| && Agrees(v, p, text, ParseMembers(text[pos..], []))
    decreases |text| - pos, 2
  {
    p := pos;
    var members: seq<Member> := [];
    while At(text, p) != 0
      invariant pos <= p <= |text| && ParseMembers(text[p..], members) == ParseMembers(text[pos..], [])
      decreases |text| - p
    {
      var turn;
      turn, p := NextMemberAt(text, p, |members| == 0);
      match turn {
        case Bad => return None, p;
        case Empty(_) => return Some(Obj(members)), p;
        case Last(m, _) => return Some(Obj(Put(members, m.key, m.value))), p;
        case More(m, _) => members := Put(members, m.key, m.value);
      }
    }
    return None, p;
  }

  /** JSON::Parse on a whole text. */
  method ParseText(text: WStr) returns (v: Option<Value>)
    requires IsText(text)
    ensures v == Parse(text)
  {
    var p, more := SkipWhitespace(text, 0);
    assert text[0..] == text;
    if !more {
      return None;
    }
    v, p := ParseAt(text, p);
    if v.Some? {
      p, more := SkipWhitespace(text, p);
      if more {
        v := None;
      }
    }
  }

  lemma EscapeNext(out: WStr, str: WStr, i: nat)
    requires i < |str|
    ensures out + EscapeAll(str[i..]) + [QUOTE] == (out + Escape(str[i])) + EscapeAll(str[i + 1..]) + [QUOTE]
  {
    assert str[i..][1..] == str[i + 1..];
    assert EscapeAll(str[i..]) == Escape(str[i]) + EscapeAll(str[i + 1..]);
  }

  /** StringifyString. */
  method StringifyString(str: WStr) returns (out: WStr)
    ensures out == Quote(str)
  {
    out := [QUOTE];
    assert str[0..] == str;
    var i := 0;
    while i < |str|
      invariant 0 <= i <= |str| && out + EscapeAll(str[i..]) + [QUOTE] == Quote(str)
    {
      EscapeNext(out, str, i);
      var piece := Escape(str[i]);
      out := out + piece;
      i := i + 1;
    }
    assert out + EscapeAll([]) == out;
    out := out + [QUOTE];
  }

  /** Stringify. */
  method StringifyValue(v: Value) returns (out: WStr)
    requires NumberFree(v)
    ensures out == Stringify(v)
    decreases v, 1
  {
    match v {
      case Null =>
        out := Codes("null");
      case Str(s) =>
        out := StringifyString(s);
      case Bool(b) =>
        out := if b then Codes("true") else Codes("false");
      case Arr(elements) =>
        out := StringifyElements(elements);
      case Obj(members) =>
        out := StringifyMembers(members);
    }
  }

  method StringifyElements(vs: seq<Value>) returns (out: WStr)
    requires forall v <- vs :: NumberFree(v)
    ensures out == [LBRACKET] + PrintElements(vs) + [RBRACKET]
    decreases vs, 0
  {
    out := [LBRACKET];
    assert vs[0..] == vs;
    var i := 0;
    while i < |vs|
      invariant 0 <= i <= |vs| && out + PrintElements(vs[i..]) == [LBRACKET] + PrintElements(vs)
    {
      ghost var before := out;
      var piece := StringifyValue(vs[i]);
      ElementsNext(before, vs, i);
      out := out + piece;
      i := i + 1;
      if i != |vs| {
        out := out + [COMMA];
      }
    }
    assert out + PrintElements([]) == out;
    out := out + [RBRACKET];
  }

  lemma ElementsNext(out: WStr, vs: seq<Value>, i: nat)
    requires i < |vs| && forall v <- vs :: NumberFree(v)
    ensures out + PrintElements(vs[i..]) ==
            out + Stringify(vs[i]) + (if i + 1 == |vs| then [] else [COMMA]) + PrintElements(vs[i + 1..])
  {
    assert vs[i..][1..] == vs[i + 1..];
  }

  method StringifyMembers(ms: seq<Member>) returns (out: WStr)
    requires forall m <- ms :: NumberFree(m.value)
    ensures out == [LBRACE] + PrintMembers(ms) + [RBRACE]
    decreases ms, 0
  {
    out := [LBRACE];
    assert ms[0..] == ms;
    var i := 0;
    while i < |ms|
      invariant 0 <= i <= |ms| && out + PrintMembers(ms[i..]) == [LBRACE] + PrintMembers(ms)
    {
      ghost var before := out;
      var key := StringifyString(ms[i].key);
      var value := StringifyValue(ms[i].value);
      MembersNext(before, ms, i);
      out := out + key;
      out := out + [COLON];
      out := out + value;
      assert out == before + PrintMember(ms[i]);
      i := i + 1;
      if i != |ms| {
        out := out + [COMMA];
      }
    }
    assert out + PrintMembers([]) == out;
    out := out + [RBRACE];
  }

  lemma MembersNext(out: WStr, ms: seq<Member>, i: nat)
    requires i < |ms| && forall m <- ms :: NumberFree(m.value)
    ensures out + PrintMembers(ms[i..]) ==
            out + PrintMember(ms[i]) + (if i + 1 == |ms| then [] else [COMMA]) + PrintMembers(ms[i + 1..])
  {
    assert ms[i..][1..] == ms[i + 1..];
  }
}
