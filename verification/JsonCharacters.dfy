/**
 Negative wchar_t values: the printer escapes them, and the parser never makes one out of text
 that has none. So a tree survives printing and parsing exactly when it holds none.
 */
module JsonCharacters {
  import opened Wrappers
  import opened Json
  import opened JsonRoundTrip

  /** No string in the tree holds a negative character. */
  predicate Clean(v: Value) {
    match v
    case Str(s) => Characters(s)
    case Arr(elements) => forall e <- elements :: Clean(e)
    case Obj(members) => forall m <- members :: Characters(m.key) && Clean(m.value)
    case _ => true
  }

  /** The keys of every object are distinct and in order, as std::map keeps them. */
  predicate Sorted(v: Value) {
    match v
    case Arr(elements) => forall e <- elements :: Sorted(e)
    case Obj(members) => Ascending(members) && forall m <- members :: Sorted(m.value)
    case _ => true
  }

  lemma {:induction false} HoldableIff(v: Value)
    ensures Holdable(v) <==> NumberFree(v) && Sorted(v) && Clean(v)
  {
    match v {
      case Arr(elements) =>
        forall e <- elements ensures Holdable(e) <==> NumberFree(e) && Sorted(e) && Clean(e) {
          HoldableIff(e);
        }
      case Obj(members) =>
        forall m <- members ensures Holdable(m.value) <==> NumberFree(m.value) && Sorted(m.value) && Clean(m.value) {
          HoldableIff(m.value);
        }
      case _ =>
    }
  }

  // ----- the printer -----

  /** No 0 and nothing negative. */
  predicate Plain(s: WStr) { IsText(s) && Characters(s) }

  lemma {:induction false} EscapedIsPlain(s: WStr)
    ensures Plain(EscapeAll(s))
    decreases |s|
  {
    if s != [] {
      EscapedIsPlain(s[1..]);
      assert Plain(Escape(s[0]));
    }
  }

  /** Whatever the strings hold, the printed text is a C string of non-negative characters. */
  lemma {:induction false} PrintedIsPlain(v: Value)
    requires NumberFree(v)
    ensures Plain(Stringify(v))
    decreases v, 1
  {
    match v {
      case Null =>
      case Bool(_) =>
      case Str(s) => EscapedIsPlain(s);
      case Arr(elements) => ElementsArePlain(elements);
      case Obj(members) => MembersArePlain(members);
    }
  }

  lemma {:induction false} ElementsArePlain(vs: seq<Value>)
    requires forall v <- vs :: NumberFree(v)
    ensures Plain(PrintElements(vs))
    decreases vs, 0
  {
    if vs != [] {
      PrintedIsPlain(vs[0]);
      ElementsArePlain(vs[1..]);
    }
  }

  lemma {:induction false} MembersArePlain(ms: seq<Member>)
    requires forall m <- ms :: NumberFree(m.value)
    ensures Plain(PrintMembers(ms))
    decreases ms, 0
  {
    if ms != [] {
      EscapedIsPlain(ms[0].key);
      PrintedIsPlain(ms[0].value);
      MembersArePlain(ms[1..]);
    }
  }

  // ----- the parser -----

  lemma {:induction false} SpaceClean(s: WStr)
    requires Characters(s)
    ensures Characters(SkipSpace(s))
    decreases |s|
  {
    if s != [] && IsSpace(s[0]) {
      SpaceClean(s[1..]);
    }
  }

  lemma {:induction false} DigitsClean(s: WStr)
    requires Characters(s)
    ensures Characters(SkipDigits(s))
    decreases |s|
  {
    if s != [] && IsDigit(s[0]) {
      DigitsClean(s[1..]);
    }
  }

  lemma FractionClean(s: WStr)
    requires Characters(s)
    ensures SkipFraction(s).Some? ==> Characters(SkipFraction(s).value)
  {
    if s != [] {
      DigitsClean(s[1..]);
    }
  }

  lemma ExponentClean(s: WStr)
    requires Characters(s)
    ensures SkipExponent(s).Some? ==> Characters(SkipExponent(s).value)
  {
    if Head(s) == 'E' as int || Head(s) == 'e' as int {
      DigitsClean(s[1..]);
      if Head(s[1..]) == '-' as int || Head(s[1..]) == '+' as int {
        DigitsClean(s[2..]);
      }
    }
  }

  lemma NumberClean(s: WStr)
    requires Characters(s) && (Head(s) == '-' as int || IsDigit(Head(s)))
    ensures SkipNumber(s).Some? ==> Characters(SkipNumber(s).value)
  {
    var s1 := if s[0] == '-' as int then s[1..] else s;
    if IsDigit(Head(s1)) {
      DigitsClean(s1);
      var s2 := if s1[0] == '0' as int then s1[1..] else SkipDigits(s1);
      FractionClean(s2);
      if SkipFraction(s2).Some? {
        ExponentClean(SkipFraction(s2).value);
      }
    }
  }

  lemma HexClean(s: WStr)
    requires |s| >= 4
    ensures Hex4(s).Some? ==> Hex4(s).value >= 0
  {
  }

  lemma {:induction false} ExtractClean(s: WStr, str: WStr)
    requires Characters(s) && Characters(str)
    ensures var r := Extract(s, str); r.Some? ==> Characters(r.value.str) && Characters(r.value.rest)
    decreases |s|
  {
    if s != [] && s[0] == BACKSLASH {
      if |s| >= 2 && Unescape(s[1]).Some? {
        ExtractClean(s[2..], str + [Unescape(s[1]).value]);
      } else if |s| >= 6 && Hex4(s[2..]).Some? {
        HexClean(s[2..]);
        ExtractClean(s[6..], str + [Hex4(s[2..]).value]);
      }
    } else if s != [] && s[0] != QUOTE {
      ExtractClean(s[1..], str + [s[0]]);
    }
  }

  predicate CleanParse(r: Option<Parsed>) {
    r.Some? ==> Clean(r.value.value) && Characters(r.value.rest)
  }

  lemma {:induction false} ParseClean(s: WStr)
    requires Characters(s)
    ensures CleanParse(ParseValue(s))
    decreases |s|, 0
  {
    if Head(s) == QUOTE {
      ExtractClean(s[1..], []);
    } else if StartsWithWord(s, "true") || StartsWithWord(s, "false") || StartsWithWord(s, "null") {
      WordClean(s);
    } else if Head(s) == '-' as int || IsDigit(Head(s)) {
      NumberClean(s);
    } else if Head(s) == LBRACE {
      MembersClean(s[1..], []);
    } else if Head(s) == LBRACKET {
      ElementsClean(s[1..], []);
    }
  }

  lemma WordClean(s: WStr)
    requires Characters(s) && Head(s) != QUOTE
    requires StartsWithWord(s, "true") || StartsWithWord(s, "false") || StartsWithWord(s, "null")
    ensures CleanParse(ParseValue(s))
  {
  }

  lemma DelimitedClean<T>(item: T, s: WStr, close: int)
    requires Characters(s)
    ensures var t := Delimited(item, s, close); !t.Bad? ==> Characters(t.rest)
    ensures var t := Delimited(item, s, close); t.Last? || t.More? ==> t.item == item
  {
    SpaceClean(s);
  }

  lemma {:induction false} NextElementClean(s: WStr, first: bool)
    requires Characters(s)
    ensures var t := NextElement(s, first); (!t.Bad? ==> Characters(t.rest)) && (t.Last? || t.More? ==> Clean(t.item))
    decreases |s|, 1
  {
    SpaceClean(s);
    var s1 := SkipSpace(s);
    if s1 != [] && !(first && s1[0] == RBRACKET) {
      ParseClean(s1);
      var v := ParseValue(s1);
      if v.Some? {
        DelimitedClean(v.value.value, v.value.rest, RBRACKET);
      }
    }
  }

  lemma {:induction false} ElementsClean(s: WStr, elements: seq<Value>)
    requires Characters(s) && forall e <- elements :: Clean(e)
    ensures CleanParse(ParseElements(s, elements))
    decreases |s|, 2
  {
    NextElementClean(s, elements == []);
    match NextElement(s, elements == []) {
      case More(v, rest) => ElementsClean(rest, elements + [v]);
      case _ =>
    }
  }

  lemma NextNameClean(s: WStr)
    requires s != [] && Characters(s)
    ensures NextName(s).Some? ==> Characters(NextName(s).value.str) && Characters(NextName(s).value.rest)
  {
    ExtractClean(s[1..], []);
    var name := Extract(s[1..], []);
    if name.Some? {
      SpaceClean(name.value.rest);
    }
  }

  predicate CleanMember(m: Member) { Characters(m.key) && Clean(m.value) }

  lemma {:induction false} NextMemberClean(s: WStr, first: bool)
    requires Characters(s)
    ensures var t := NextMember(s, first);
            (!t.Bad? ==> Characters(t.rest)) && (t.Last? || t.More? ==> CleanMember(t.item))
    decreases |s|, 1
  {
    SpaceClean(s);
    var s1 := SkipSpace(s);
    if s1 != [] && !(first && s1[0] == RBRACE) {
      NextNameClean(s1);
      var name := NextName(s1);
      if name.Some? {
        SpaceClean(name.value.rest);
        var s2 := SkipSpace(name.value.rest);
        ParseClean(s2);
        var v := ParseValue(s2);
        if s2 != [] && v.Some? {
          DelimitedClean(Member(name.value.str, v.value.value), v.value.rest, RBRACE);
        }
      }
    }
  }

  lemma {:induction false} PutClean(ms: seq<Member>, key: WStr, value: Value)
    requires (forall m <- ms :: CleanMember(m)) && CleanMember(Member(key, value))
    ensures forall m <- Put(ms, key, value) :: CleanMember(m)
    decreases |ms|
  {
    if ms != [] && !Less(key, ms[0].key) && ms[0].key != key {
      PutClean(ms[1..], key, value);
    }
  }

  lemma {:induction false} MembersClean(s: WStr, members: seq<Member>)
    requires Characters(s) && forall m <- members :: CleanMember(m)
    ensures CleanParse(ParseMembers(s, members))
    decreases |s|, 2
  {
    NextMemberClean(s, members == []);
    match NextMember(s, members == []) {
      case More(m, rest) =>
        PutClean(members, m.key, m.value);
        MembersClean(rest, Put(members, m.key, m.value));
      case Last(m, rest) =>
        PutClean(members, m.key, m.value);
      case _ =>
    }
  }

  /** The parser makes no negative character. */
  lemma ParsedIsClean(s: WStr)
    requires Characters(s)
    ensures Parse(s).Some? ==> Clean(Parse(s).value)
  {
    SpaceClean(s);
    ParseClean(SkipSpace(s));
  }

  /** A number-free tree comes back from its text exactly when none of its strings holds a negative character. */
  lemma ParseStringifyIff(v: Value, before: WStr, after: WStr)
    requires NumberFree(v) && Sorted(v) && AllSpace(before) && AllSpace(after)
    ensures Parse(before + Stringify(v) + after) == Some(v) <==> Clean(v)
  {
    HoldableIff(v);
    if Clean(v) {
      ParseStringify(v, before, after);
    } else {
      PrintedIsPlain(v);
      ParsedIsClean(before + Stringify(v) + after);
    }
  }

  // ----- the printed form -----

  /** The short escapes, by character code. */
  lemma ShortEscapes(c: int)
    ensures c in {34, 47, 92} ==> Escape(c) == [92, c]
    ensures (c == 8 ==> Escape(c) == [92, 98]) && (c == 9 ==> Escape(c) == [92, 116]) && (c == 10 ==> Escape(c) == [92, 110])
    ensures (c == 12 ==> Escape(c) == [92, 102]) && (c == 13 ==> Escape(c) == [92, 114])
    ensures c >= 32 && c !in {34, 47, 92} ==> Escape(c) == [c]
  {
  }

  predicate UpperHex(c: int) { '0' as int <= c <= '9' as int || 'A' as int <= c <= 'F' as int }

  /** All others are "\\u" and four digits in upper case; which ones, `NarrowRead` tells. */
  lemma LongEscapes(c: int)
    requires c < 32 && c !in {8, 9, 10, 12, 13}
    ensures var e := Escape(c);
            |e| == 6 && e[0] == 92 && e[1] == 117 && UpperHex(e[2]) && UpperHex(e[3]) && UpperHex(e[4]) && UpperHex(e[5])
  {
    UpperDigit(c / 4096 % 16);
    UpperDigit(c / 256 % 16);
    UpperDigit(c / 16 % 16);
    UpperDigit(c % 16);
  }

  lemma UpperDigit(v: int)
    requires 0 <= v < 16
    ensures UpperHex(HexDigit(v))
  {
  }

  /** The three words, and what is empty. */
  lemma PrintedWords()
    ensures Stringify(Null) == [110, 117, 108, 108]
    ensures Stringify(Bool(true)) == [116, 114, 117, 101] && Stringify(Bool(false)) == [102, 97, 108, 115, 101]
    ensures Stringify(Arr([])) == [91, 93] && Stringify(Obj([])) == [123, 125] && Stringify(Str([])) == [34, 34]
  {
  }

  lemma {:induction false} EscapesAppend(s: WStr, c: int)
    ensures EscapeAll(s + [c]) == EscapeAll(s) + Escape(c)
    decreases |s|
  {
    if s == [] {
      assert s + [c] == [c] && [c][1..] == [];
    } else {
      assert (s + [c])[1..] == s[1..] + [c];
      EscapesAppend(s[1..], c);
    }
  }

  /** A printed string is a quotation mark, the characters' escapes and a quotation mark. */
  lemma PrintedString(s: WStr, c: int)
    ensures Stringify(Str(s + [c])) == [34] + EscapeAll(s) + Escape(c) + [34]
  {
    EscapesAppend(s, c);
  }

  lemma {:induction false} ElementsAppend(vs: seq<Value>, v: Value)
    requires vs != [] && NumberFree(Arr(vs)) && NumberFree(v)
    ensures PrintElements(vs + [v]) == PrintElements(vs) + ([44] + Stringify(v))
    decreases |vs|
  {
    assert (vs + [v])[1..] == vs[1..] + [v];
    if |vs| == 1 {
      assert (vs + [v])[1..] == [v];
    } else {
      ElementsAppend(vs[1..], v);
      ThreeParts(Stringify(vs[0]), [44], PrintElements(vs[1..]), [44] + Stringify(v));
    }
  }

  lemma ThreeParts(a: WStr, b: WStr, c: WStr, d: WStr)
    ensures a + b + (c + d) == a + b + c + d
  {
  }

  /** Array elements stand in brackets with commas between them, and without spaces. */
  lemma PrintedArray(vs: seq<Value>, v: Value)
    requires NumberFree(Arr(vs)) && NumberFree(v)
    ensures forall x <- vs + [v] :: NumberFree(x)
    ensures Stringify(Arr(vs + [v])) ==
            [91] + (if vs == [] then Stringify(v) else PrintElements(vs) + ([44] + Stringify(v))) + [93]
  {
    if vs == [] {
      assert vs + [v] == [v];
    } else {
      ElementsAppend(vs, v);
    }
  }

  lemma {:induction false} MembersAppend(ms: seq<Member>, m: Member)
    requires ms != [] && NumberFree(Obj(ms)) && NumberFree(m.value)
    ensures PrintMembers(ms + [m]) == PrintMembers(ms) + ([44] + (Stringify(Str(m.key)) + [58] + Stringify(m.value)))
    decreases |ms|
  {
    assert (ms + [m])[1..] == ms[1..] + [m];
    if |ms| == 1 {
      assert (ms + [m])[1..] == [m];
    } else {
      MembersAppend(ms[1..], m);
      ThreeParts(PrintMember(ms[0]), [44], PrintMembers(ms[1..]), [44] + PrintMember(m));
    }
  }

  /** Object members stand in braces with commas between them, each a quoted name, a colon and a value. */
  lemma PrintedObject(ms: seq<Member>, m: Member)
    requires NumberFree(Obj(ms)) && NumberFree(m.value)
    ensures forall x <- ms + [m] :: NumberFree(x.value)
    ensures var member := Stringify(Str(m.key)) + [58] + Stringify(m.value);
            Stringify(Obj(ms + [m])) == [123] + (if ms == [] then member else PrintMembers(ms) + ([44] + member)) + [125]
  {
    if ms == [] {
      assert ms + [m] == [m];
      assert PrintMembers([m]) == PrintMember(m);
      assert PrintMember(m) == Stringify(Str(m.key)) + [58] + Stringify(m.value);
    } else {
      MembersAppend(ms, m);
      assert PrintMember(m) == Stringify(Str(m.key)) + [58] + Stringify(m.value);
    }
  }
}
