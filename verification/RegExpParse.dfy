/**
 The pattern parser of xframe/comserv/cregexpele.C: elements, groups in square brackets and
 repetition ranges. Numbers in ranges are unbounded.
 */
module RegExpParse {
  import opened Wrappers
  import opened RegExp

  const MAX_COUNT := 10000

  const BACKSLASH := '\\' as int
  const OPEN_BRACKET := '[' as int
  const CLOSE_BRACKET := ']' as int
  const OPEN_BRACE := '{' as int
  const CLOSE_BRACE := '}' as int
  const CARET := '^' as int
  const DASH := '-' as int
  const COMMA := ',' as int
  const DOT := '.' as int

  type Text = seq<int>

  datatype GeneralChar = GeneralChar(character: int, escaped: bool)

  datatype Read<T> = Read(value: T, rest: Text)

  function Plain(c: int): GeneralChar { GeneralChar(c, false) }

  /** get_next_char; None is its exception. */
  function NextChar(s: Text): (r: Option<Read<GeneralChar>>)
    ensures r.Some? ==> |r.value.rest| < |s|
  {
    if s == [] then None
    else if s[0] != BACKSLASH then Some(Read(Plain(s[0]), s[1..]))
    else if |s| == 1 then None
    else Some(Read(GeneralChar(s[1], true), s[2..]))
  }

  predicate IsDigit(c: int) { '0' as int <= c <= '9' as int }

  function DigitValue(c: int): nat
    requires IsDigit(c)
  {
    c - '0' as int
  }

  // ----- repetition -----

  datatype Modifier = Modifier(minimum: nat, maximum: nat)

  /** State reading_max of produce_modifier_range. */
  function ReadMax(s: Text, min: nat, max: nat, maxRead: bool): (r: Option<Read<Modifier>>)
    ensures r.Some? ==> |r.value.rest| < |s|
    decreases |s|
  {
    var next := NextChar(s);
    if next.None? then None
    else
      var gc, rest := next.value.value, next.value.rest;
      if gc == GeneralChar(CLOSE_BRACE, true) then
        if !maxRead then Some(Read(Modifier(min, MAX_COUNT), rest))
        else if max < min then None
        else Some(Read(Modifier(min, max), rest))
      else if gc.escaped || !IsDigit(gc.character) then None
      else ReadMax(rest, min, max * 10 + DigitValue(gc.character), true)
  }

  /** State reading_min. */
  function ReadMin(s: Text, min: nat, minRead: bool): (r: Option<Read<Modifier>>)
    ensures r.Some? ==> |r.value.rest| < |s|
    decreases |s|
  {
    var next := NextChar(s);
    if next.None? then None
    else
      var gc, rest := next.value.value, next.value.rest;
      if gc == GeneralChar(CLOSE_BRACE, true) then Some(Read(Modifier(min, min), rest))
      else if gc.escaped then None
      else if IsDigit(gc.character) then ReadMin(rest, min * 10 + DigitValue(gc.character), true)
      else if gc.character == COMMA && minRead then ReadMax(rest, min, 0, false)
      else None
  }

  /** produce_element_modifier. */
  function ReadModifier(s: Text): (r: Option<Read<Modifier>>)
    ensures r.Some? ==> |r.value.rest| <= |s|
  {
    if s == [] then Some(Read(Modifier(1, 1), s))
    else
      var next := NextChar(s);
      if next.None? then None
      else
        var gc, rest := next.value.value, next.value.rest;
        if gc == GeneralChar(OPEN_BRACE, true) then ReadMin(rest, 0, false)
        else if gc == Plain('?' as int) then Some(Read(Modifier(0, 1), rest))
        else if gc == Plain('+' as int) then Some(Read(Modifier(1, MAX_COUNT), rest))
        else if gc == Plain('*' as int) then Some(Read(Modifier(0, MAX_COUNT), rest))
        else Some(Read(Modifier(1, 1), s))
  }

  // ----- groups -----

  /** The states of CRegExpEleGroup::parse. */
  datatype GroupState = SearchReverse | ReadBegin | SearchSplitter | ReadEnd

  datatype Group0 = Group0(state: GroupState, begin: int, reversed: bool, items: seq<Item>)

  /** One character inside the brackets other than the closing one; None is parse_error. */
  function GroupStep(g: Group0, gc: GeneralChar): Option<Group0> {
    match g.state
    case SearchReverse =>
      if gc == Plain(CARET) then Some(g.(reversed := true, state := ReadBegin))
      else Some(g.(begin := gc.character, state := SearchSplitter))
    case ReadBegin =>
      if gc == Plain(DASH) then None else Some(g.(begin := gc.character, state := SearchSplitter))
    case SearchSplitter =>
      if gc == Plain(DASH) then Some(g.(state := ReadEnd))
      else Some(g.(items := g.items + [Item(g.begin, g.begin)], begin := gc.character))
    case ReadEnd =>
      if gc == Plain(DASH) then None
      else Some(g.(items := g.items + [Item(g.begin, gc.character)], state := ReadBegin))
  }

  /** The closing bracket. */
  function GroupEnd(g: Group0): Option<Kind> {
    var items := if g.state == SearchSplitter then g.items + [Item(g.begin, g.begin)] else g.items;
    if (g.state == SearchSplitter || g.state == ReadBegin) && items != [] then Some(Group(g.reversed, items)) else None
  }

  function ReadGroup(s: Text, g: Group0): (r: Option<Read<Kind>>)
    ensures r.Some? ==> |r.value.rest| < |s|
    decreases |s|
  {
    var next := NextChar(s);
    if next.None? then None
    else if next.value.value == Plain(CLOSE_BRACKET) then
      var kind := GroupEnd(g);
      if kind.None? then None else Some(Read(kind.value, next.value.rest))
    else
      var h := GroupStep(g, next.value.value);
      if h.None? then None else ReadGroup(next.value.rest, h.value)
  }

  const GROUP_START := Group0(SearchReverse, 0, false, [])

  // ----- elements -----

  /** produce_element_body. */
  function ReadBody(s: Text): (r: Option<Read<Kind>>)
    ensures r.Some? ==> |r.value.rest| < |s|
  {
    var next := NextChar(s);
    if next.None? then None
    else
      var gc, rest := next.value.value, next.value.rest;
      if gc == Plain(DOT) then Some(Read(AnyOne, rest))
      else if gc == Plain(OPEN_BRACKET) then ReadGroup(rest, GROUP_START)
      else Some(Read(Exact(gc.character), rest))
  }

  /** produce_element. */
  function ReadElement(s: Text): (r: Option<Read<Element>>)
    ensures r.Some? ==> |r.value.rest| < |s|
  {
    var body := ReadBody(s);
    if body.None? then None
    else
      var modifier := ReadModifier(body.value.rest);
      if modifier.None? then None
      else
        Some(Read(Element(body.value.value, modifier.value.value.minimum, modifier.value.value.maximum),
                  modifier.value.rest))
  }

  /** CRegExpEleRoot::parse, with the elements read so far; None is parse_error. */
  function ReadAll(s: Text, es: seq<Element>): Option<seq<Element>>
    decreases |s|
  {
    if s == [] then Some(es)
    else
      var e := ReadElement(s);
      if e.None? then None else ReadAll(e.value.rest, es + [e.value.value])
  }

  function Parsed(pattern: Text): Option<seq<Element>> { ReadAll(pattern, []) }

  // ----- the parser on iterators: `p` is `begin`, the end of the pattern is `end` -----

  lemma Dropped(s: Text, p: nat, k: nat)
    requires p + k <= |s|
    ensures s[p..][k..] == s[p + k..]
  {
  }

  method GetNextChar(s: Text, start: nat) returns (gc: Option<GeneralChar>, p: nat)
    requires start <= |s|
    ensures start <= p <= |s|
    ensures NextChar(s[start..]) == if gc.None? then None else Some(Read(gc.value, s[p..]))
  {
    p := start;
    if p == |s| {
      return None, p;
    }
    if s[p] == BACKSLASH {
      if p + 1 == |s| {
        return None, p;
      }
      p := p + 1;
      gc := Some(GeneralChar(s[p], true));
      p := p + 1;
      Dropped(s, start, 2);
    } else {
      gc := Some(Plain(s[p]));
      p := p + 1;
      Dropped(s, start, 1);
    }
  }

  /** What the state enum and the flags of produce_modifier_range stand for. */
  function RangeFrom(s: Text, comma: bool, min: nat, minRead: bool, max: nat, maxRead: bool): Option<Read<Modifier>> {
    if comma then ReadMax(s, min, max, maxRead) else ReadMin(s, min, minRead)
  }

  method ProduceModifierRange(s: Text, start: nat) returns (em: Option<Modifier>, p: nat)
    requires start <= |s|
    ensures start <= p <= |s|
    ensures ReadMin(s[start..], 0, false) == if em.None? then None else Some(Read(em.value, s[p..]))
  {
    var min: nat, max: nat := 0, 0;
    var minRead, maxRead, comma, finish := false, false, false, false;
    p := start;
    while !finish
      invariant start <= p <= |s| && (!comma ==> !maxRead && max == 0)
      invariant !finish ==> RangeFrom(s[p..], comma, min, minRead, max, maxRead) == ReadMin(s[start..], 0, false)
      invariant finish ==> ReadMin(s[start..], 0, false) ==
                           if comma && maxRead && max < min then None
                           else Some(Read(Modifier(min, if maxRead then max else if comma then MAX_COUNT else min), s[p..]))
      decreases |s| - p, !finish
    {
      var gc;
      gc, p := GetNextChar(s, p);
      if gc.None? {
        return None, p;
      }
      var c := gc.value.character;
      if gc.value.escaped {
        if c != CLOSE_BRACE {
          return None, p;
        }
        finish := true;
      } else if IsDigit(c) {
        if comma {
          maxRead, max := true, max * 10 + DigitValue(c);
        } else {
          minRead, min := true, min * 10 + DigitValue(c);
        }
      } else if c == COMMA && !comma && minRead {
        comma := true;
      } else {
        return None, p;
      }
    }
    if maxRead {
      if max < min {
        return None, p;
      }
    } else if comma {
      max := MAX_COUNT;
    } else {
      max := min;
    }
    em := Some(Modifier(min, max));
  }

  method ProduceElementModifier(s: Text, start: nat) returns (em: Option<Modifier>, p: nat)
    requires start <= |s|
    ensures start <= p <= |s|
    ensures ReadModifier(s[start..]) == if em.None? then None else Some(Read(em.value, s[p..]))
  {
    p := start;
    if p == |s| {
      return Some(Modifier(1, 1)), p;
    }
    var gc, it := GetNextChar(s, p);
    if gc.None? {
      return None, p;
    }
    if gc.value.escaped {
      if gc.value.character == OPEN_BRACE {
        em, p := ProduceModifierRange(s, it);
      } else {
        em := Some(Modifier(1, 1));
      }
    } else if gc.value.character == '?' as int {
      em, p := Some(Modifier(0, 1)), it;
    } else if gc.value.character == '+' as int {
      em, p := Some(Modifier(1, MAX_COUNT)), it;
    } else if gc.value.character == '*' as int {
      em, p := Some(Modifier(0, MAX_COUNT)), it;
    } else {
      em := Some(Modifier(1, 1));
    }
  }

  /** CRegExpEleGroup::parse behind its opening bracket. */
  method GroupParse(s: Text, start: nat) returns (kind: Option<Kind>, p: nat)
    requires start <= |s|
    ensures start <= p <= |s|
    ensures ReadGroup(s[start..], GROUP_START) == if kind.None? then None else Some(Read(kind.value, s[p..]))
  {
    var state, begin, reversed, items := SearchReverse, 0, false, [];
    p := start;
    while true
      invariant start <= p <= |s|
      invariant ReadGroup(s[p..], Group0(state, begin, reversed, items)) == ReadGroup(s[start..], GROUP_START)
      decreases |s| - p
    {
      var gc;
      ghost var g := Group0(state, begin, reversed, items);
      gc, p := GetNextChar(s, p);
      if gc.None? {
        return None, p;
      }
      var c := gc.value;
      if c == Plain(CLOSE_BRACKET) {
        if state == SearchSplitter {
          items := items + [Item(begin, begin)];
        }
        if (state != SearchSplitter && state != ReadBegin) || items == [] {
          return None, p;
        }
        return Some(Group(reversed, items)), p;
      }
      match state {
        case SearchReverse =>
          if c == Plain(CARET) {
            reversed, state := true, ReadBegin;
          } else {
            begin, state := c.character, SearchSplitter;
          }
        case ReadBegin =>
          if c == Plain(DASH) {
            return None, p;
          }
          begin, state := c.character, SearchSplitter;
        case SearchSplitter =>
          if c == Plain(DASH) {
            state := ReadEnd;
          } else {
            items := items + [Item(begin, begin)];
            begin := c.character;
          }
        case ReadEnd =>
          if c == Plain(DASH) {
            return None, p;
          }
          items := items + [Item(begin, c.character)];
          state := ReadBegin;
      }
      assert GroupStep(g, c) == Some(Group0(state, begin, reversed, items));
    }
  }

  method ProduceElement(s: Text, start: nat) returns (e: Option<Element>, p: nat)
    requires start < |s|
    ensures start <= p <= |s|
    ensures ReadElement(s[start..]) == if e.None? then None else Some(Read(e.value, s[p..]))
  {
    var gc, kind, em;
    gc, p := GetNextChar(s, start);
    if gc.None? {
      return None, p;
    }
    if gc.value == Plain(OPEN_BRACKET) {
      kind, p := GroupParse(s, p);
      if kind.None? {
        return None, p;
      }
    } else {
      kind := Some(if gc.value == Plain(DOT) then AnyOne else Exact(gc.value.character));
    }
    em, p := ProduceElementModifier(s, p);
    e := if em.None? then None else Some(Element(kind.value, em.value.minimum, em.value.maximum));
  }

  method Parse(pattern: Text) returns (es: Option<seq<Element>>)
    ensures es == Parsed(pattern)
  {
    var p, list := 0, [];
    assert pattern[0..] == pattern;
    while p != |pattern|
      invariant 0 <= p <= |pattern| && ReadAll(pattern[p..], list) == Parsed(pattern)
      decreases |pattern| - p
    {
      var e;
      e, p := ProduceElement(pattern, p);
      if e.None? {
        return None;
      }
      list := list + [e.value];
    }
    es := Some(list);
  }

  // ----- which element lists patterns can denote -----

  function Escaped(c: int): Text { [BACKSLASH, c] }

  function PrintItems(items: seq<Item>): Text {
    if items == [] then []
    else Escaped(items[0].begin) + ([DASH] + (Escaped(items[0].end) + PrintItems(items[1..])))
  }

  function PrintKind(kind: Kind): Text {
    match kind
    case Exact(c) => Escaped(c)
    case AnyOne => [DOT]
    case Group(reversed, items) =>
      [OPEN_BRACKET] + ((if reversed then [CARET] else []) + (PrintItems(items) + [CLOSE_BRACKET]))
  }

  function Digits(n: nat): Text {
    (if n < 10 then [] else Digits(n / 10)) + ['0' as int + n % 10]
  }

  /** The printed maximum, left out of an open range. */
  function PrintMax(m: Modifier): Text { if m.minimum <= m.maximum then Digits(m.maximum) else [] }

  function PrintModifier(m: Modifier): Text {
    Escaped(OPEN_BRACE) +
    (Digits(m.minimum) + ([COMMA] + (PrintMax(m) + Escaped(CLOSE_BRACE))))
  }

  function PrintAll(es: seq<Element>): Text {
    if es == [] then [] else PrintElement(es[0]) + PrintAll(es[1..])
  }

  function PrintElement(e: Element): (r: Text)
    ensures r != []
  {
    PrintKind(e.kind) + PrintModifier(Modifier(e.minimum, e.maximum))
  }

  /** Only an open range can be empty, and a group is not. */
  predicate Expressible(e: Element) {
    && (e.minimum <= e.maximum || e.maximum == MAX_COUNT)
    && (e.kind.Group? ==> e.kind.items != [])
  }

  lemma NextPlain(c: int, rest: Text)
    requires c != BACKSLASH
    ensures NextChar([c] + rest) == Some(Read(Plain(c), rest))
  {
    assert ([c] + rest)[1..] == rest;
  }

  lemma NextEscaped(c: int, rest: Text)
    ensures NextChar(Escaped(c) + rest) == Some(Read(GeneralChar(c, true), rest))
  {
    assert (Escaped(c) + rest)[2..] == rest;
  }

  lemma MinDigit(v: nat, d: nat, n: nat, rest: Text, minRead: bool)
    requires d < 10 && n == v * 10 + d
    ensures ReadMin(['0' as int + d] + rest, v, minRead) == ReadMin(rest, n, true)
  {
    NextPlain('0' as int + d, rest);
  }

  lemma DigitsStep(n: nat, q: nat, d: nat, rest: Text)
    requires q == n / 10 && d == n % 10
    ensures n == q * 10 + d && d < 10
    ensures Digits(n) + rest == if n < 10 then ['0' as int + d] + rest else Digits(q) + (['0' as int + d] + rest)
  {
  }

  lemma {:induction false} MinDigitsRead(n: nat, rest: Text, minRead: bool)
    ensures ReadMin(Digits(n) + rest, 0, minRead) == ReadMin(rest, n, true)
    decreases n
  {
    var (q, d) := (n / 10, n % 10);
    DigitsStep(n, q, d, rest);
    if n >= 10 {
      MinDigitsRead(q, ['0' as int + d] + rest, minRead);
      MinDigit(q, d, n, rest, true);
    } else {
      MinDigit(0, d, n, rest, minRead);
    }
  }

  lemma MaxDigit(min: nat, v: nat, d: nat, n: nat, rest: Text, maxRead: bool)
    requires d < 10 && n == v * 10 + d
    ensures ReadMax(['0' as int + d] + rest, min, v, maxRead) == ReadMax(rest, min, n, true)
  {
    NextPlain('0' as int + d, rest);
  }

  lemma {:induction false} MaxDigitsRead(n: nat, min: nat, rest: Text, maxRead: bool)
    ensures ReadMax(Digits(n) + rest, min, 0, maxRead) == ReadMax(rest, min, n, true)
    decreases n
  {
    var (q, d) := (n / 10, n % 10);
    DigitsStep(n, q, d, rest);
    if n >= 10 {
      MaxDigitsRead(q, min, ['0' as int + d] + rest, maxRead);
      MaxDigit(min, q, d, n, rest, true);
    } else {
      MaxDigit(min, 0, d, n, rest, maxRead);
    }
  }

  lemma CloseRead(min: nat, max: nat, maxRead: bool, rest: Text)
    ensures ReadMax(Escaped(CLOSE_BRACE) + rest, min, max, maxRead) ==
            if !maxRead then Some(Read(Modifier(min, MAX_COUNT), rest))
            else if max < min then None else Some(Read(Modifier(min, max), rest))
  {
    NextEscaped(CLOSE_BRACE, rest);
  }

  lemma CommaRead(min: nat, high: Text)
    ensures ReadMin([COMMA] + high, min, true) == ReadMax(high, min, 0, false)
  {
    NextPlain(COMMA, high);
  }

  lemma BraceRead(body: Text)
    ensures ReadModifier(Escaped(OPEN_BRACE) + body) == ReadMin(body, 0, false)
  {
    NextEscaped(OPEN_BRACE, body);
  }

  lemma HighRead(m: Modifier, rest: Text)
    requires m.minimum <= m.maximum || m.maximum == MAX_COUNT
    ensures ReadMax(PrintMax(m) + (Escaped(CLOSE_BRACE) + rest), m.minimum, 0, false) == Some(Read(m, rest))
  {
    var tail := Escaped(CLOSE_BRACE) + rest;
    if m.minimum <= m.maximum {
      MaxDigitsRead(m.maximum, m.minimum, tail, false);
      CloseRead(m.minimum, m.maximum, true, rest);
    } else {
      assert [] + tail == tail;
      CloseRead(m.minimum, 0, false, rest);
    }
  }

  lemma RangeRead(m: Modifier, low: Text, high: Text, rest: Text)
    requires ReadMin(low + ([COMMA] + high), 0, false) == ReadMin([COMMA] + high, m.minimum, true)
    requires ReadMax(high, m.minimum, 0, false) == Some(Read(m, rest))
    ensures ReadModifier(Escaped(OPEN_BRACE) + (low + ([COMMA] + high))) == Some(Read(m, rest))
  {
    CommaRead(m.minimum, high);
    BraceRead(low + ([COMMA] + high));
  }

  lemma Regroup(open: Text, low: Text, comma: Text, high: Text, close: Text, rest: Text)
    ensures open + (low + (comma + (high + close))) + rest == open + (low + (comma + (high + (close + rest))))
  {
  }

  lemma ModifierRead(m: Modifier, rest: Text)
    requires m.minimum <= m.maximum || m.maximum == MAX_COUNT
    ensures ReadModifier(PrintModifier(m) + rest) == Some(Read(m, rest))
  {
    var high := PrintMax(m) + (Escaped(CLOSE_BRACE) + rest);
    MinDigitsRead(m.minimum, [COMMA] + high, false);
    HighRead(m, rest);
    RangeRead(m, Digits(m.minimum), high, rest);
    Regroup(Escaped(OPEN_BRACE), Digits(m.minimum), [COMMA], PrintMax(m), Escaped(CLOSE_BRACE), rest);
  }

  /** One printed item, from a state that expects the start of one. */
  lemma ItemRead(item: Item, rest: Text, g: Group0)
    requires g.state == SearchReverse || g.state == ReadBegin
    ensures ReadGroup(Escaped(item.begin) + ([DASH] + (Escaped(item.end) + rest)), g) ==
            ReadGroup(rest, Group0(ReadBegin, item.begin, g.reversed, g.items + [item]))
  {
    var (two, one) := ([DASH] + (Escaped(item.end) + rest), Escaped(item.end) + rest);
    var g1 := g.(begin := item.begin, state := SearchSplitter);
    var g2 := g1.(state := ReadEnd);
    NextEscaped(item.begin, two);
    assert ReadGroup(Escaped(item.begin) + two, g) == ReadGroup(two, g1);
    NextPlain(DASH, one);
    assert ReadGroup(two, g1) == ReadGroup(one, g2);
    NextEscaped(item.end, rest);
  }

  lemma {:induction false} ItemsRead(items: seq<Item>, rest: Text, g: Group0)
    requires g.items + items != []
    requires g.state == ReadBegin || (g.state == SearchReverse && items != [])
    ensures ReadGroup(PrintItems(items) + ([CLOSE_BRACKET] + rest), g) ==
            Some(Read(Group(g.reversed, g.items + items), rest))
    decreases |items|
  {
    var tail := [CLOSE_BRACKET] + rest;
    if items == [] {
      NextPlain(CLOSE_BRACKET, rest);
      assert PrintItems(items) + tail == tail && g.items + items == g.items;
    } else {
      var more := PrintItems(items[1..]) + tail;
      assert PrintItems(items) + tail ==
             Escaped(items[0].begin) + ([DASH] + (Escaped(items[0].end) + more));
      ItemRead(items[0], more, g);
      var h := Group0(ReadBegin, items[0].begin, g.reversed, g.items + [items[0]]);
      ItemsRead(items[1..], rest, h);
      assert g.items + [items[0]] + items[1..] == g.items + items;
    }
  }

  lemma GroupRead(reversed: bool, items: seq<Item>, rest: Text)
    requires items != []
    ensures var inside := (if reversed then [CARET] else []) + (PrintItems(items) + [CLOSE_BRACKET]);
            ReadGroup(inside + rest, GROUP_START) == Some(Read(Group(reversed, items), rest))
  {
    var inside := PrintItems(items) + ([CLOSE_BRACKET] + rest);
    var text := (if reversed then [CARET] else []) + (PrintItems(items) + [CLOSE_BRACKET]) + rest;
    assert [] + items == items;
    if reversed {
      assert text == [CARET] + inside;
      NextPlain(CARET, inside);
      ItemsRead(items, rest, Group0(ReadBegin, 0, true, []));
    } else {
      assert text == inside;
      ItemsRead(items, rest, GROUP_START);
    }
  }

  lemma KindRead(kind: Kind, rest: Text)
    requires kind.Group? ==> kind.items != []
    ensures ReadBody(PrintKind(kind) + rest) == Some(Read(kind, rest))
  {
    match kind {
      case Exact(c) => NextEscaped(c, rest);
      case AnyOne => NextPlain(DOT, rest);
      case Group(reversed, items) =>
        GroupRead(reversed, items, rest);
        BracketRead((if reversed then [CARET] else []) + (PrintItems(items) + [CLOSE_BRACKET]), rest);
    }
  }

  lemma BracketRead(inside: Text, rest: Text)
    ensures ReadBody([OPEN_BRACKET] + inside + rest) == ReadGroup(inside + rest, GROUP_START)
  {
    NextPlain(OPEN_BRACKET, inside + rest);
    assert [OPEN_BRACKET] + inside + rest == [OPEN_BRACKET] + (inside + rest);
  }

  predicate AllExpressible(es: seq<Element>) { forall i :: 0 <= i < |es| ==> Expressible(es[i]) }

  lemma ElementRead(e: Element, rest: Text)
    requires Expressible(e)
    ensures ReadElement(PrintElement(e) + rest) == Some(Read(e, rest))
  {
    var m := Modifier(e.minimum, e.maximum);
    ModifierRead(m, rest);
    KindRead(e.kind, PrintModifier(m) + rest);
    assert PrintElement(e) + rest == PrintKind(e.kind) + (PrintModifier(m) + rest);
  }

  lemma ReadStep(s: Text, e: Element, rest: Text, done: seq<Element>)
    requires s != [] && ReadElement(s) == Some(Read(e, rest))
    ensures ReadAll(s, done) == ReadAll(rest, done + [e])
  {
  }

  lemma ElementThen(e: Element, rest: Text, done: seq<Element>)
    requires Expressible(e)
    ensures ReadAll(PrintElement(e) + rest, done) == ReadAll(rest, done + [e])
  {
    ElementRead(e, rest);
    ReadStep(PrintElement(e) + rest, e, rest, done);
  }

  lemma AllReadStep(es: seq<Element>, done: seq<Element>, rest: Text, all: seq<Element>)
    requires es != [] && Expressible(es[0]) && rest == PrintAll(es[1..])
    requires ReadAll(rest, done + [es[0]]) == Some(all)
    ensures ReadAll(PrintAll(es), done) == Some(all)
  {
    ElementThen(es[0], rest, done);
  }

  lemma {:induction false} AllRead(es: seq<Element>, done: seq<Element>)
    requires AllExpressible(es)
    ensures ReadAll(PrintAll(es), done) == Some(done + es)
    decreases |es|
  {
    if es == [] {
      assert done + es == done;
    } else {
      AllRead(es[1..], done + [es[0]]);
      assert done + [es[0]] + es[1..] == done + es;
      AllReadStep(es, done, PrintAll(es[1..]), done + es);
    }
  }

  lemma {:induction false} MaxInRange(s: Text, min: nat, max: nat, maxRead: bool)
    ensures var r := ReadMax(s, min, max, maxRead);
            r.Some? ==> r.value.value.minimum <= r.value.value.maximum || r.value.value.maximum == MAX_COUNT
    decreases |s|
  {
    var next := NextChar(s);
    if next.Some? && !next.value.value.escaped && IsDigit(next.value.value.character) {
      MaxInRange(next.value.rest, min, max * 10 + DigitValue(next.value.value.character), true);
    }
  }

  lemma {:induction false} MinInRange(s: Text, min: nat, minRead: bool)
    ensures var r := ReadMin(s, min, minRead);
            r.Some? ==> r.value.value.minimum <= r.value.value.maximum || r.value.value.maximum == MAX_COUNT
    decreases |s|
  {
    var next := NextChar(s);
    if next.Some? && !next.value.value.escaped {
      MaxInRange(next.value.rest, min, 0, false);
      if IsDigit(next.value.value.character) {
        MinInRange(next.value.rest, min * 10 + DigitValue(next.value.value.character), true);
      }
    }
  }

  lemma {:induction false} GroupHasItems(s: Text, g: Group0)
    ensures var r := ReadGroup(s, g); r.Some? ==> r.value.value.Group? && r.value.value.items != []
    decreases |s|
  {
    var next := NextChar(s);
    if next.Some? {
      var h := GroupStep(g, next.value.value);
      if h.Some? {
        GroupHasItems(next.value.rest, h.value);
      }
    }
  }

  lemma ElementExpressible(s: Text)
    ensures ReadElement(s).Some? ==> Expressible(ReadElement(s).value.value)
  {
    var body := ReadBody(s);
    if body.Some? {
      var next := NextChar(s);
      GroupHasItems(next.value.rest, GROUP_START);
      var t := NextChar(body.value.rest);
      if t.Some? {
        MinInRange(t.value.rest, 0, false);
      }
    }
  }

  lemma {:induction false} ParsedExpressible(s: Text, done: seq<Element>, es: seq<Element>)
    requires AllExpressible(done) && ReadAll(s, done) == Some(es)
    ensures AllExpressible(es)
    decreases |s|
  {
    if s != [] {
      ElementExpressible(s);
      var e := ReadElement(s);
      ParsedExpressible(e.value.rest, done + [e.value.value], es);
    }
  }

  predicate Denotes(pattern: Text, es: seq<Element>) { Parsed(pattern) == Some(es) }

  lemma PrintedDenotes(es: seq<Element>)
    requires AllExpressible(es)
    ensures Denotes(PrintAll(es), es)
  {
    AllRead(es, []);
    assert [] + es == es;
  }

  lemma DenotedIsExpressible(pattern: Text, es: seq<Element>)
    requires Denotes(pattern, es)
    ensures AllExpressible(es)
  {
    ParsedExpressible(pattern, [], es);
  }

  /** The patterns denote exactly these element lists. */
  lemma PatternExistsIff(es: seq<Element>)
    ensures (exists pattern :: Denotes(pattern, es)) <==> AllExpressible(es)
  {
    if AllExpressible(es) {
      PrintedDenotes(es);
    } else if pattern :| Denotes(pattern, es) {
      DenotedIsExpressible(pattern, es);
    }
  }

  // ----- which patterns have an empty range -----

  /** Behind the opening of a range: digits and a comma, nothing more, with a minimum above MAX_COUNT. */
  predicate OpenTooHigh(s: Text, min: nat)
    decreases |s|
  {
    s != [] &&
    if IsDigit(s[0]) then OpenTooHigh(s[1..], min * 10 + DigitValue(s[0]))
    else |s| >= 3 && s[..3] == [COMMA] + Escaped(CLOSE_BRACE) && min > MAX_COUNT
  }

  /** Some element of the pattern is followed by such a range. */
  predicate HasOpenTooHigh(s: Text)
    decreases |s|
  {
    s != [] && ReadElement(s).Some? &&
    var behind := ReadBody(s).value.rest;
    || (|behind| >= 2 && behind[..2] == Escaped(OPEN_BRACE) && OpenTooHigh(behind[2..], 0))
    || HasOpenTooHigh(ReadElement(s).value.rest)
  }

  lemma {:induction false} MaxGiven(s: Text, min: nat, max: nat)
    ensures var r := ReadMax(s, min, max, true); r.Some? ==> r.value.value.minimum <= r.value.value.maximum
    decreases |s|
  {
    var next := NextChar(s);
    if next.Some? && !next.value.value.escaped && IsDigit(next.value.value.character) {
      MaxGiven(next.value.rest, min, max * 10 + DigitValue(next.value.value.character));
    }
  }

  lemma MaxOpen(s: Text, min: nat)
    requires s != [] && s[0] == COMMA
    ensures var r := ReadMax(s[1..], min, 0, false);
            r.Some? ==> (r.value.value.minimum > r.value.value.maximum <==> OpenTooHigh(s, min))
  {
    var next := NextChar(s[1..]);
    if next.Some? {
      var gc := next.value.value;
      if !gc.escaped && IsDigit(gc.character) {
        MaxGiven(next.value.rest, min, DigitValue(gc.character));
      } else if gc == GeneralChar(CLOSE_BRACE, true) {
        assert s[..3] == [COMMA] + Escaped(CLOSE_BRACE);
      }
    }
  }

  lemma {:induction false} MinTooHigh(s: Text, min: nat, minRead: bool)
    ensures var r := ReadMin(s, min, minRead);
            r.Some? ==> (r.value.value.minimum > r.value.value.maximum <==> OpenTooHigh(s, min))
    decreases |s|
  {
    var next := NextChar(s);
    if next.Some? && !next.value.value.escaped {
      if IsDigit(next.value.value.character) {
        MinTooHigh(next.value.rest, min * 10 + DigitValue(next.value.value.character), true);
      } else if next.value.value.character == COMMA {
        MaxOpen(s, min);
      }
    }
  }

  lemma ElementEmptyIff(s: Text)
    requires ReadElement(s).Some?
    ensures var e, behind := ReadElement(s).value.value, ReadBody(s).value.rest;
            e.minimum > e.maximum <==>
            |behind| >= 2 && behind[..2] == Escaped(OPEN_BRACE) && OpenTooHigh(behind[2..], 0)
  {
    var behind := ReadBody(s).value.rest;
    if |behind| >= 2 {
      MinTooHigh(behind[2..], 0, false);
    }
  }

  lemma {:induction false} AllRangedIff(s: Text, done: seq<Element>)
    requires ReadAll(s, done).Some?
    ensures Ranged(ReadAll(s, done).value) <==> Ranged(done) && !HasOpenTooHigh(s)
    decreases |s|
  {
    if s != [] {
      ElementEmptyIff(s);
      var e := ReadElement(s).value;
      AllRangedIff(e.rest, done + [e.value]);
      assert Ranged(done + [e.value]) <==> Ranged(done) && e.value.minimum <= e.value.maximum by {
        assert forall x :: x in done + [e.value] <==> x in done || x == e.value;
      }
    }
  }

  /** Parsing yields an empty range, on which matching fails, exactly for an open range above MAX_COUNT. */
  lemma RangedIff(pattern: Text)
    requires Parsed(pattern).Some?
    ensures Ranged(Parsed(pattern).value) <==> !HasOpenTooHigh(pattern)
  {
    AllRangedIff(pattern, []);
  }
}
