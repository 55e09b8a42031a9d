/** Parsing what was printed gives the value back. */
module JsonRoundTrip {
  import opened Wrappers
  import opened Json

  /** wchar_t is signed; characters are its non-negative values. */
  predicate Characters(s: WStr) { forall i :: 0 <= i < |s| ==> s[i] >= 0 }

  predicate Ascending(ms: seq<Member>) { forall i, j :: 0 <= i < j < |ms| ==> Less(ms[i].key, ms[j].key) }

  /** A number-free tree as the program can hold it: std::map keeps the keys distinct and in order. */
  predicate Holdable(v: Value) {
    match v
    case Null => true
    case Str(s) => Characters(s)
    case Bool(_) => true
    case Number(_) => false
    case Arr(elements) => forall e <- elements :: Holdable(e)
    case Obj(members) => Ascending(members) && forall m <- members :: Characters(m.key) && Holdable(m.value)
  }

  lemma HexRead(v: int)
    requires 0 <= v < 16
    ensures HexValue(HexDigit(v)) == Some(v)
  {
  }

  /** What a printed character is read back as: a negative wchar_t comes back as its low 16 bits. */
  function Narrow(c: int): int { if c < 0 then c % 65536 else c }

  function NarrowAll(s: WStr): (r: WStr)
    ensures |r| == |s|
  {
    seq(|s|, i requires 0 <= i < |s| => Narrow(s[i]))
  }

  lemma NarrowIff(s: WStr)
    ensures NarrowAll(s) == s <==> Characters(s)
  {
    if Characters(s) {
      assert NarrowAll(s) == s;
    }
    if NarrowAll(s) == s {
      forall i | 0 <= i < |s| ensures s[i] >= 0 {
        assert NarrowAll(s)[i] == Narrow(s[i]);
      }
    }
  }

  lemma FourDigits(n: int)
    ensures ((n / 4096 % 16 * 16 + n / 256 % 16) * 16 + n / 16 % 16) * 16 + n % 16 == n % 65536
  {
    assert n / 16 / 16 == n / 256 && n / 256 / 16 == n / 4096 && n / 4096 / 16 == n / 65536;
  }

  lemma EscapeRead(c: int, rest: WStr, str: WStr)
    ensures Extract(Escape(c) + rest, str) == Extract(rest, str + [Narrow(c)])
  {
    var s := Escape(c) + rest;
    if |Escape(c)| == 1 {
      assert s[1..] == rest;
    } else if |Escape(c)| == 2 {
      assert s[2..] == rest;
      assert Unescape(s[1]) == Some(c);
    } else {
      HexRead(c / 4096 % 16);
      HexRead(c / 256 % 16);
      HexRead(c / 16 % 16);
      HexRead(c % 16);
      FourDigits(c);
      assert Hex4(s[2..]) == Some(Narrow(c));
      assert s[6..] == rest;
    }
  }

  lemma {:induction false} NarrowRead(s: WStr, rest: WStr, str: WStr)
    ensures Extract(EscapeAll(s) + [QUOTE] + rest, str) == Some(Extracted(str + NarrowAll(s), rest))
    decreases |s|
  {
    if s == [] {
      assert EscapeAll(s) + [QUOTE] + rest == [QUOTE] + rest;
      assert ([QUOTE] + rest)[1..] == rest;
      assert str + NarrowAll(s) == str;
    } else {
      var tail := EscapeAll(s[1..]) + [QUOTE] + rest;
      assert EscapeAll(s) + [QUOTE] + rest == Escape(s[0]) + tail;
      EscapeRead(s[0], tail, str);
      NarrowRead(s[1..], rest, str + [Narrow(s[0])]);
      assert str + [Narrow(s[0])] + NarrowAll(s[1..]) == str + NarrowAll(s);
    }
  }

  lemma QuoteRead(s: WStr, rest: WStr, str: WStr)
    requires Characters(s)
    ensures Extract(EscapeAll(s) + [QUOTE] + rest, str) == Some(Extracted(str + s, rest))
  {
    NarrowRead(s, rest, str);
    NarrowIff(s);
  }

  /** A printed string is read back unchanged exactly if it holds no negative wchar_t. */
  lemma StringReadBackIff(s: WStr, rest: WStr)
    ensures ParseValue(Quote(s) + rest) == Some(Parsed(Str(s), rest)) <==> Characters(s)
  {
    NarrowRead(s, rest, []);
    assert [] + NarrowAll(s) == NarrowAll(s);
    var body := EscapeAll(s) + [QUOTE] + rest;
    assert Quote(s) + rest == [QUOTE] + body;
    StringBehindQuote(body);
    NarrowIff(s);
  }

  lemma StringBehindQuote(body: WStr)
    ensures ParseValue([QUOTE] + body) ==
            match Extract(body, []) case None => None case Some(e) => Some(Parsed(Str(e.str), e.rest))
  {
    assert ([QUOTE] + body)[1..] == body;
  }

  lemma {:induction false} LessAsymmetric(a: WStr, b: WStr)
    requires Less(a, b)
    ensures a != b && !Less(b, a)
    decreases |a|
  {
    if a != [] && a[0] == b[0] {
      LessAsymmetric(a[1..], b[1..]);
    }
  }

  /** Members that arrive in ascending order are appended. */
  lemma {:induction false} PutLast(ms: seq<Member>, key: WStr, value: Value)
    requires forall i :: 0 <= i < |ms| ==> Less(ms[i].key, key)
    ensures Put(ms, key, value) == ms + [Member(key, value)]
    decreases |ms|
  {
    if ms != [] {
      LessAsymmetric(ms[0].key, key);
      PutLast(ms[1..], key, value);
      assert [ms[0]] + (ms[1..] + [Member(key, value)]) == ms + [Member(key, value)];
    }
  }

  /** Whether a value's text can follow here: no space, no closing bracket. */
  predicate Opens(c: int) { !IsSpace(c) && c != RBRACKET && c != RBRACE }

  lemma FirstCharacter(v: Value)
    requires NumberFree(v)
    ensures Opens(Stringify(v)[0])
  {
  }

  lemma NoSpace(s: WStr)
    requires s != [] && !IsSpace(s[0])
    ensures SkipSpace(s) == s
  {
  }

  // ----- one step of each parsing function -----

  lemma ReadScalar(v: Value, rest: WStr)
    requires v.Null? || v.Bool?
    ensures ParseValue(Stringify(v) + rest) == Some(Parsed(v, rest))
  {
    var s := Stringify(v) + rest;
    if v == Bool(false) {
      assert s[5..] == rest;
    } else {
      assert s[4..] == rest;
    }
  }

  lemma ReadString(str: WStr, rest: WStr)
    requires Characters(str)
    ensures ParseValue(Quote(str) + rest) == Some(Parsed(Str(str), rest))
  {
    StringReadBackIff(str, rest);
  }

  lemma ReadOpening(s: WStr)
    requires s != []
    ensures s[0] == LBRACKET ==> ParseValue(s) == ParseElements(s[1..], [])
    ensures s[0] == LBRACE ==> ParseValue(s) == ParseMembers(s[1..], [])
  {
  }

  lemma ElementStep(s: WStr, v: Value, tail: WStr, done: seq<Value>)
    requires s != [] && Opens(s[0]) && ParseValue(s) == Some(Parsed(v, tail))
    requires tail != [] && (tail[0] == RBRACKET || tail[0] == COMMA)
    ensures ParseElements(s, done) ==
            if tail[0] == RBRACKET then Some(Parsed(Arr(done + [v]), tail[1..])) else ParseElements(tail[1..], done + [v])
  {
    NoSpace(s);
    NoSpace(tail);
  }

  lemma MemberStep(s: WStr, key: WStr, after: WStr, v: Value, tail: WStr, done: seq<Member>)
    requires s != [] && s[0] == QUOTE && Extract(s[1..], []) == Some(Extracted(key, [COLON] + after))
    requires after != [] && Opens(after[0]) && ParseValue(after) == Some(Parsed(v, tail))
    requires tail != [] && (tail[0] == RBRACE || tail[0] == COMMA)
    ensures ParseMembers(s, done) ==
            var done' := Put(done, key, v);
            if tail[0] == RBRACE then Some(Parsed(Obj(done'), tail[1..])) else ParseMembers(tail[1..], done')
  {
    NoSpace(s);
    NoSpace([COLON] + after);
    assert ([COLON] + after)[1..] == after;
    NoSpace(after);
    NoSpace(tail);
  }

  lemma ReadKey(key: WStr, after: WStr)
    requires Characters(key)
    ensures var s := Quote(key) + ([COLON] + after);
            s[0] == QUOTE && Extract(s[1..], []) == Some(Extracted(key, [COLON] + after))
  {
    var s := Quote(key) + ([COLON] + after);
    assert s[1..] == EscapeAll(key) + [QUOTE] + ([COLON] + after);
    QuoteRead(key, [COLON] + after, []);
    assert [] + key == key;
  }

  /** The text behind the first of several printed items. */
  function Tail(close: int, more: bool, others: WStr, rest: WStr): (r: WStr)
    ensures r != []
  {
    if more then [COMMA] + (others + [close] + rest) else [close] + rest
  }

  lemma TailRest(close: int, more: bool, others: WStr, rest: WStr)
    ensures Tail(close, more, others, rest)[1..] == if more then others + [close] + rest else rest
  {
  }

  lemma Regroup(first: WStr, close: int, others: WStr, rest: WStr)
    ensures first + [close] + rest == first + Tail(close, false, others, rest)
    ensures first + [COMMA] + others + [close] + rest == first + Tail(close, true, others, rest)
  {
  }

  lemma BehindOpening(open: int, body: WStr, close: int, rest: WStr)
    ensures ([open] + body + [close] + rest)[1..] == body + [close] + rest
  {
  }

  lemma RegroupMember(key: WStr, value: WStr, tail: WStr)
    ensures key + [COLON] + value + tail == key + ([COLON] + (value + tail))
  {
  }

  // ----- whole values -----

  /** The parser reads back what the printer wrote, and stops right behind it. */
  lemma {:induction false} ReadBack(v: Value, rest: WStr)
    requires Holdable(v) && NumberFree(v)
    ensures ParseValue(Stringify(v) + rest) == Some(Parsed(v, rest))
    decreases v, 1
  {
    var s := Stringify(v) + rest;
    match v {
      case Null => ReadScalar(v, rest);
      case Bool(_) => ReadScalar(v, rest);
      case Str(str) => ReadString(str, rest);
      case Arr(elements) =>
        BehindOpening(LBRACKET, PrintElements(elements), RBRACKET, rest);
        ReadOpening(s);
        ReadElements(elements, rest, []);
        assert [] + elements == elements;
      case Obj(members) =>
        BehindOpening(LBRACE, PrintMembers(members), RBRACE, rest);
        ReadOpening(s);
        assert [] + members == members;
        ReadMembers(members, rest, []);
    }
  }

  lemma FirstElement(vs: seq<Value>, rest: WStr)
    requires vs != [] && forall v <- vs :: NumberFree(v)
    ensures PrintElements(vs) + [RBRACKET] + rest ==
            Stringify(vs[0]) + Tail(RBRACKET, |vs| > 1, PrintElements(vs[1..]), rest)
  {
    Regroup(Stringify(vs[0]), RBRACKET, PrintElements(vs[1..]), rest);
  }

  lemma ReadNothing(close: int, rest: WStr)
    requires close == RBRACKET || close == RBRACE
    ensures var s := [] + [close] + rest;
            && (close == RBRACKET ==> ParseElements(s, []) == Some(Parsed(Arr([]), rest)))
            && (close == RBRACE ==> ParseMembers(s, []) == Some(Parsed(Obj([]), rest)))
  {
    var s := [] + [close] + rest;
    assert s[1..] == rest;
    NoSpace(s);
  }

  lemma {:induction false} ReadElements(vs: seq<Value>, rest: WStr, done: seq<Value>)
    requires forall v <- vs :: Holdable(v) && NumberFree(v)
    requires vs != [] || done == []
    ensures ParseElements(PrintElements(vs) + [RBRACKET] + rest, done) == Some(Parsed(Arr(done + vs), rest))
    decreases vs, 0
  {
    if vs == [] {
      ReadNothing(RBRACKET, rest);
      assert done + vs == [];
    } else {
      var others := PrintElements(vs[1..]);
      var tail := Tail(RBRACKET, |vs| > 1, others, rest);
      FirstCharacter(vs[0]);
      ReadBack(vs[0], tail);
      ElementStep(Stringify(vs[0]) + tail, vs[0], tail, done);
      TailRest(RBRACKET, |vs| > 1, others, rest);
      assert done + [vs[0]] + vs[1..] == done + vs;
      assert |vs| == 1 ==> done + [vs[0]] == done + vs;
      if |vs| > 1 {
        ReadElements(vs[1..], rest, done + [vs[0]]);
      }
      FirstElement(vs, rest);
    }
  }

  lemma FirstMember(ms: seq<Member>, rest: WStr)
    requires ms != [] && forall m <- ms :: NumberFree(m.value)
    ensures PrintMembers(ms) + [RBRACE] + rest ==
            Quote(ms[0].key) + ([COLON] + (Stringify(ms[0].value) + Tail(RBRACE, |ms| > 1, PrintMembers(ms[1..]), rest)))
  {
    Regroup(PrintMember(ms[0]), RBRACE, PrintMembers(ms[1..]), rest);
    RegroupMember(Quote(ms[0].key), Stringify(ms[0].value), Tail(RBRACE, |ms| > 1, PrintMembers(ms[1..]), rest));
  }

  lemma PutNext(done: seq<Member>, ms: seq<Member>)
    requires ms != [] && Ascending(done + ms)
    ensures Put(done, ms[0].key, ms[0].value) == done + [ms[0]] && done + [ms[0]] + ms[1..] == done + ms
  {
    forall i | 0 <= i < |done| ensures Less(done[i].key, ms[0].key) {
      assert (done + ms)[i] == done[i] && (done + ms)[|done|] == ms[0];
    }
    PutLast(done, ms[0].key, ms[0].value);
  }

  /** The first printed member is read and stored, given that its value and the other members are read back. */
  lemma ReadFirstMember(ms: seq<Member>, rest: WStr, done: seq<Member>)
    requires ms != [] && (forall m <- ms :: NumberFree(m.value)) && Characters(ms[0].key) && Ascending(done + ms)
    requires var tail := Tail(RBRACE, |ms| > 1, PrintMembers(ms[1..]), rest);
             ParseValue(Stringify(ms[0].value) + tail) == Some(Parsed(ms[0].value, tail))
    requires |ms| > 1 ==>
               ParseMembers(PrintMembers(ms[1..]) + [RBRACE] + rest, done + [ms[0]]) == Some(Parsed(Obj(done + ms), rest))
    ensures ParseMembers(PrintMembers(ms) + [RBRACE] + rest, done) == Some(Parsed(Obj(done + ms), rest))
  {
    var m, others := ms[0], PrintMembers(ms[1..]);
    var tail := Tail(RBRACE, |ms| > 1, others, rest);
    var after := Stringify(m.value) + tail;
    ReadKey(m.key, after);
    FirstCharacter(m.value);
    MemberStep(Quote(m.key) + ([COLON] + after), m.key, after, m.value, tail, done);
    TailRest(RBRACE, |ms| > 1, others, rest);
    PutNext(done, ms);
    FirstMember(ms, rest);
    assert |ms| == 1 ==> done + [m] == done + ms;
  }

  lemma {:induction false} ReadMembers(ms: seq<Member>, rest: WStr, done: seq<Member>)
    requires forall m <- ms :: Characters(m.key) && Holdable(m.value) && NumberFree(m.value)
    requires Ascending(done + ms) && (ms != [] || done == [])
    ensures ParseMembers(PrintMembers(ms) + [RBRACE] + rest, done) == Some(Parsed(Obj(done + ms), rest))
    decreases ms, 0
  {
    if ms == [] {
      ReadNothing(RBRACE, rest);
      assert done + ms == [];
    } else {
      if |ms| > 1 {
        assert done + [ms[0]] + ms[1..] == done + ms;
        ReadMembers(ms[1..], rest, done + [ms[0]]);
      }
      ReadBack(ms[0].value, Tail(RBRACE, |ms| > 1, PrintMembers(ms[1..]), rest));
      ReadFirstMember(ms, rest, done);
    }
  }

  predicate AllSpace(s: WStr) { forall i :: 0 <= i < |s| ==> IsSpace(s[i]) }

  lemma {:induction false} SpaceSkipped(space: WStr, rest: WStr)
    requires AllSpace(space)
    ensures SkipSpace(space + rest) == SkipSpace(rest)
    decreases |space|
  {
    if space == [] {
      assert space + rest == rest;
    } else {
      assert (space + rest)[1..] == space[1..] + rest;
      SpaceSkipped(space[1..], rest);
    }
  }

  /** Parse(Stringify(v)) == v, with any white space around the text. */
  lemma ParseStringify(v: Value, before: WStr, after: WStr)
    requires Holdable(v) && NumberFree(v) && AllSpace(before) && AllSpace(after)
    ensures Parse(before + Stringify(v) + after) == Some(v)
  {
    assert before + Stringify(v) + after == before + (Stringify(v) + after);
    SpaceSkipped(before, Stringify(v) + after);
    FirstCharacter(v);
    NoSpace(Stringify(v) + after);
    ReadBack(v, after);
    SpaceSkipped(after, []);
    assert after + [] == after;
  }
}
