/**
 What patterns mean: a grammar of their concrete syntax, a language for every form of it, and the
 proof that parsing and matching decide that language.
 */
module RegExpGrammar {
  import opened Wrappers
  import opened RegExp
  import opened RegExpParse

  // ----- the syntax, as it is written -----

  datatype GroupItem = Single(c: GeneralChar) | Range(first: GeneralChar, last: GeneralChar)

  datatype Atom = Letter(c: GeneralChar) | Dot | Bracket(negated: bool, items: seq<GroupItem>)

  /** The numbers are written in decimal digits. */
  datatype Sign = Once | Question | Plus | Star | Exactly(n: Text) | AtLeast(n: Text) | Between(n: Text, m: Text)

  datatype Piece = Piece(atom: Atom, sign: Sign)

  type Syntax = seq<Piece>

  function ShowChar(c: GeneralChar): Text { if c.escaped then Escaped(c.character) else [c.character] }

  function ShowItem(item: GroupItem): Text {
    match item
    case Single(c) => ShowChar(c)
    case Range(first, last) => ShowChar(first) + ([DASH] + ShowChar(last))
  }

  function ShowItems(items: seq<GroupItem>): Text {
    if items == [] then [] else ShowItem(items[0]) + ShowItems(items[1..])
  }

  function ShowAtom(atom: Atom): Text {
    match atom
    case Letter(c) => ShowChar(c)
    case Dot => [DOT]
    case Bracket(negated, items) =>
      [OPEN_BRACKET] + ((if negated then [CARET] else []) + (ShowItems(items) + [CLOSE_BRACKET]))
  }

  function ShowSign(sign: Sign): Text {
    match sign
    case Once => []
    case Question => ['?' as int]
    case Plus => ['+' as int]
    case Star => ['*' as int]
    case Exactly(n) => Escaped(OPEN_BRACE) + (n + Escaped(CLOSE_BRACE))
    case AtLeast(n) => Escaped(OPEN_BRACE) + (n + ([COMMA] + Escaped(CLOSE_BRACE)))
    case Between(n, m) => Escaped(OPEN_BRACE) + (n + ([COMMA] + (m + Escaped(CLOSE_BRACE))))
  }

  function Show(syntax: Syntax): Text {
    if syntax == [] then [] else ShowAtom(syntax[0].atom) + (ShowSign(syntax[0].sign) + Show(syntax[1..]))
  }

  // ----- which syntax is good -----

  /** A backslash escapes, and a closing bracket closes. */
  predicate GoodInBracket(c: GeneralChar) { c.escaped || (c.character != BACKSLASH && c.character != CLOSE_BRACKET) }

  predicate GoodItem(item: GroupItem) {
    match item
    case Single(c) => GoodInBracket(c)
    case Range(first, last) => GoodInBracket(first) && GoodInBracket(last) && last != Plain(DASH)
  }

  function StartOf(item: GroupItem): GeneralChar {
    match item case Single(c) => c case Range(first, _) => first
  }

  /** A dash starts an item only at the front of a group that is not negated; a caret there would negate it. */
  predicate GoodItems(negated: bool, items: seq<GroupItem>) {
    && items != [] && (forall i :: 0 <= i < |items| ==> GoodItem(items[i]))
    && (forall i :: 1 <= i < |items| ==> StartOf(items[i]) != Plain(DASH))
    && StartOf(items[0]) != Plain(if negated then DASH else CARET)
  }

  predicate GoodAtom(atom: Atom) {
    match atom
    case Letter(c) => c.escaped || c.character !in {BACKSLASH, DOT, OPEN_BRACKET}
    case Dot => true
    case Bracket(negated, items) => GoodItems(negated, items)
  }

  predicate AllDigits(s: Text) { forall i :: 0 <= i < |s| ==> IsDigit(s[i]) }

  /** The decimal number. */
  function Value(s: Text): nat
    requires AllDigits(s)
  {
    if s == [] then 0 else Value(s[..|s| - 1]) * 10 + DigitValue(s[|s| - 1])
  }

  predicate GoodSign(sign: Sign) {
    match sign
    case Exactly(n) => AllDigits(n)
    case AtLeast(n) => AllDigits(n) && n != []
    case Between(n, m) => AllDigits(n) && AllDigits(m) && n != [] && m != [] && Value(n) <= Value(m)
    case _ => true
  }

  function FirstOf(atom: Atom): GeneralChar {
    match atom case Letter(c) => c case Dot => Plain(DOT) case Bracket(_, _) => Plain(OPEN_BRACKET)
  }

  /** Behind an element that stands alone these would be its sign. */
  predicate IsSign(c: GeneralChar) {
    c in {Plain('?' as int), Plain('+' as int), Plain('*' as int), GeneralChar(OPEN_BRACE, true)}
  }

  predicate Good(syntax: Syntax) {
    && (forall i :: 0 <= i < |syntax| ==> GoodAtom(syntax[i].atom) && GoodSign(syntax[i].sign))
    && (forall i :: 1 <= i < |syntax| ==> !(syntax[i - 1].sign.Once? && IsSign(FirstOf(syntax[i].atom))))
  }

  // ----- the language -----

  /** How many characters a sign lets its element take; + and * and open ranges end at 10000. */
  predicate Takes(sign: Sign, k: nat)
    requires GoodSign(sign)
  {
    match sign
    case Once => k == 1
    case Question => k <= 1
    case Plus => 1 <= k <= 10000
    case Star => k <= 10000
    case Exactly(n) => k == Value(n)
    case AtLeast(n) => Value(n) <= k <= 10000
    case Between(n, m) => Value(n) <= k <= Value(m)
  }

  predicate ItemHas(item: GroupItem, ch: int) {
    match item
    case Single(c) => ch == c.character
    case Range(first, last) => first.character <= ch <= last.character
  }

  predicate AtomHas(atom: Atom, ch: int) {
    match atom
    case Letter(c) => ch == c.character
    case Dot => true
    case Bracket(negated, items) => negated != exists i :: 0 <= i < |items| && ItemHas(items[i], ch)
  }

  predicate AllHave(atom: Atom, text: Text) { forall i :: 0 <= i < |text| ==> AtomHas(atom, text[i]) }

  /** The text is in the language: a first part for the first piece, and the rest for the others. */
  predicate InLanguage(text: Text, syntax: Syntax)
    requires Good(syntax)
    decreases |syntax|
  {
    if syntax == [] then text == []
    else
      exists k: nat | k <= |text| ::
        Takes(syntax[0].sign, k) && AllHave(syntax[0].atom, text[..k]) && InLanguage(text[k..], syntax[1..])
  }

  // ----- what the parser makes of it -----

  function ItemOf(item: GroupItem): Item {
    match item
    case Single(c) => Item(c.character, c.character)
    case Range(first, last) => Item(first.character, last.character)
  }

  function ItemsOf(items: seq<GroupItem>): (r: seq<Item>)
    ensures |r| == |items| && forall i :: 0 <= i < |r| ==> r[i] == ItemOf(items[i])
  {
    if items == [] then [] else [ItemOf(items[0])] + ItemsOf(items[1..])
  }

  function KindOf(atom: Atom): Kind {
    match atom
    case Letter(c) => Exact(c.character)
    case Dot => AnyOne
    case Bracket(negated, items) => Group(negated, ItemsOf(items))
  }

  function ModifierOf(sign: Sign): Modifier
    requires GoodSign(sign)
  {
    match sign
    case Once => Modifier(1, 1)
    case Question => Modifier(0, 1)
    case Plus => Modifier(1, MAX_COUNT)
    case Star => Modifier(0, MAX_COUNT)
    case Exactly(n) => Modifier(Value(n), Value(n))
    case AtLeast(n) => Modifier(Value(n), MAX_COUNT)
    case Between(n, m) => Modifier(Value(n), Value(m))
  }

  function ElementOf(p: Piece): Element
    requires GoodSign(p.sign)
  {
    var m := ModifierOf(p.sign);
    Element(KindOf(p.atom), m.minimum, m.maximum)
  }

  function ElementsOf(syntax: Syntax): (r: seq<Element>)
    requires Good(syntax)
    ensures |r| == |syntax| && forall i :: 0 <= i < |r| ==> r[i] == ElementOf(syntax[i])
  {
    if syntax == [] then [] else [ElementOf(syntax[0])] + ElementsOf(syntax[1..])
  }

  // ----- good syntax is parsed -----

  lemma CharRead(c: GeneralChar, rest: Text)
    requires c.escaped || c.character != BACKSLASH
    ensures NextChar(ShowChar(c) + rest) == Some(Read(c, rest))
  {
    if c.escaped {
      NextEscaped(c.character, rest);
    } else {
      NextPlain(c.character, rest);
    }
  }

  /** The items behind the state, counting a character that may still become a range. */
  function Collected(g: Group0): seq<Item> {
    if g.state == SearchSplitter then g.items + [Item(g.begin, g.begin)] else g.items
  }

  predicate Starts(g: Group0, c: GeneralChar) {
    && GoodInBracket(c) && g.state != ReadEnd
    && c != Plain(if g.state == SearchReverse then CARET else DASH)
  }

  /** One character where an item may start. */
  lemma StartRead(g: Group0, c: GeneralChar, rest: Text)
    requires Starts(g, c)
    ensures ReadGroup(ShowChar(c) + rest, g)
            == ReadGroup(rest, Group0(SearchSplitter, c.character, g.reversed, Collected(g)))
  {
    CharRead(c, rest);
  }

  lemma RangeReadOn(g: Group0, last: GeneralChar, rest: Text)
    requires g.state == SearchSplitter && GoodInBracket(last) && last != Plain(DASH)
    ensures ReadGroup([DASH] + (ShowChar(last) + rest), g)
            == ReadGroup(rest, Group0(ReadBegin, g.begin, g.reversed, g.items + [Item(g.begin, last.character)]))
  {
    NextPlain(DASH, ShowChar(last) + rest);
    var h := g.(state := ReadEnd);
    assert ReadGroup([DASH] + (ShowChar(last) + rest), g) == ReadGroup(ShowChar(last) + rest, h);
    CharRead(last, rest);
  }

  lemma ItemReadOn(g: Group0, item: GroupItem, rest: Text) returns (h: Group0)
    requires GoodItem(item) && Starts(g, StartOf(item))
    ensures ReadGroup(ShowItem(item) + rest, g) == ReadGroup(rest, h)
    ensures h.state in {SearchSplitter, ReadBegin} && h.reversed == g.reversed && Collected(h) == Collected(g) + [ItemOf(item)]
  {
    h := Group0(SearchSplitter, StartOf(item).character, g.reversed, Collected(g));
    match item {
      case Single(c) =>
        StartRead(g, c, rest);
      case Range(first, last) =>
        assert ShowItem(item) + rest == ShowChar(first) + ([DASH] + (ShowChar(last) + rest));
        StartRead(g, first, [DASH] + (ShowChar(last) + rest));
        RangeReadOn(h, last, rest);
        h := Group0(ReadBegin, h.begin, h.reversed, h.items + [Item(h.begin, last.character)]);
    }
  }

  lemma {:induction false} ItemsReadOn(g: Group0, items: seq<GroupItem>, rest: Text)
    requires forall i :: 0 <= i < |items| ==> GoodItem(items[i])
    requires forall i :: 1 <= i < |items| ==> StartOf(items[i]) != Plain(DASH)
    requires if items == [] then g.state in {SearchSplitter, ReadBegin} && Collected(g) != [] else Starts(g, StartOf(items[0]))
    ensures ReadGroup(ShowItems(items) + ([CLOSE_BRACKET] + rest), g)
            == Some(Read(Group(g.reversed, Collected(g) + ItemsOf(items)), rest))
    decreases |items|
  {
    var tail := [CLOSE_BRACKET] + rest;
    if items == [] {
      assert ShowItems(items) + tail == tail && Collected(g) + ItemsOf(items) == Collected(g);
      GroupCloses(g, rest);
    } else {
      var more := ShowItems(items[1..]) + tail;
      FirstItem(items, tail);
      var h := ItemReadOn(g, items[0], more);
      ItemsReadOn(h, items[1..], rest);
      FirstMeaning(Collected(g), items);
    }
  }

  lemma GroupCloses(g: Group0, rest: Text)
    requires g.state in {SearchSplitter, ReadBegin} && Collected(g) != []
    ensures ReadGroup([CLOSE_BRACKET] + rest, g) == Some(Read(Group(g.reversed, Collected(g)), rest))
  {
    NextPlain(CLOSE_BRACKET, rest);
  }

  lemma FirstItem(items: seq<GroupItem>, tail: Text)
    requires items != []
    ensures ShowItems(items) + tail == ShowItem(items[0]) + (ShowItems(items[1..]) + tail)
  {
  }

  lemma FirstMeaning(done: seq<Item>, items: seq<GroupItem>)
    requires items != []
    ensures done + [ItemOf(items[0])] + ItemsOf(items[1..]) == done + ItemsOf(items)
  {
  }

  lemma BracketReadOn(negated: bool, items: seq<GroupItem>, rest: Text)
    requires GoodItems(negated, items)
    ensures ReadGroup((if negated then [CARET] else []) + (ShowItems(items) + [CLOSE_BRACKET]) + rest, GROUP_START)
            == Some(Read(Group(negated, ItemsOf(items)), rest))
  {
    var inside := ShowItems(items) + ([CLOSE_BRACKET] + rest);
    BracketText(negated, ShowItems(items), rest);
    assert [] + ItemsOf(items) == ItemsOf(items);
    if negated {
      CaretRead(inside);
      ItemsReadOn(Group0(ReadBegin, 0, true, []), items, rest);
    } else {
      ItemsReadOn(GROUP_START, items, rest);
    }
  }

  lemma BracketText(negated: bool, items: Text, rest: Text)
    ensures (if negated then [CARET] else []) + (items + [CLOSE_BRACKET]) + rest
            == if negated then [CARET] + (items + ([CLOSE_BRACKET] + rest)) else items + ([CLOSE_BRACKET] + rest)
  {
  }

  lemma CaretRead(inside: Text)
    ensures ReadGroup([CARET] + inside, GROUP_START) == ReadGroup(inside, Group0(ReadBegin, 0, true, []))
  {
    NextPlain(CARET, inside);
  }

  lemma AtomRead(atom: Atom, rest: Text)
    requires GoodAtom(atom)
    ensures ReadBody(ShowAtom(atom) + rest) == Some(Read(KindOf(atom), rest))
  {
    match atom {
      case Letter(c) => LetterRead(c, rest);
      case Dot => NextPlain(DOT, rest);
      case Bracket(negated, items) =>
        BracketReadOn(negated, items, rest);
        BracketRead((if negated then [CARET] else []) + (ShowItems(items) + [CLOSE_BRACKET]), rest);
    }
  }

  lemma LetterRead(c: GeneralChar, rest: Text)
    requires c.escaped || c.character !in {BACKSLASH, DOT, OPEN_BRACKET}
    ensures ReadBody(ShowChar(c) + rest) == Some(Read(Exact(c.character), rest))
  {
    CharRead(c, rest);
  }

  /** The number after more digits. */
  function ValueFrom(v: nat, s: Text): nat
    requires AllDigits(s)
    decreases |s|
  {
    if s == [] then v else ValueFrom(v * 10 + DigitValue(s[0]), s[1..])
  }

  lemma {:induction false} ValueFromEnd(v: nat, s: Text)
    requires AllDigits(s) && s != []
    ensures ValueFrom(v, s) == ValueFrom(v, s[..|s| - 1]) * 10 + DigitValue(s[|s| - 1])
    decreases |s|
  {
    if |s| > 1 {
      ValueFromEnd(v * 10 + DigitValue(s[0]), s[1..]);
      assert s[1..][..|s| - 2] == s[..|s| - 1][1..];
    }
  }

  lemma {:induction false} ValueIsFrom(s: Text)
    requires AllDigits(s)
    ensures Value(s) == ValueFrom(0, s)
    decreases |s|
  {
    if s != [] {
      ValueIsFrom(s[..|s| - 1]);
      ValueFromEnd(0, s);
    }
  }

  lemma {:induction false} MinNumberRead(v: nat, s: Text, rest: Text, minRead: bool)
    requires AllDigits(s)
    ensures ReadMin(s + rest, v, minRead) == ReadMin(rest, ValueFrom(v, s), minRead || s != [])
    decreases |s|
  {
    if s == [] {
      assert s + rest == rest;
    } else {
      assert s + rest == [s[0]] + (s[1..] + rest);
      NextPlain(s[0], s[1..] + rest);
      MinNumberRead(v * 10 + DigitValue(s[0]), s[1..], rest, true);
    }
  }

  lemma {:induction false} MaxNumberRead(min: nat, v: nat, s: Text, rest: Text, maxRead: bool)
    requires AllDigits(s)
    ensures ReadMax(s + rest, min, v, maxRead) == ReadMax(rest, min, ValueFrom(v, s), maxRead || s != [])
    decreases |s|
  {
    if s == [] {
      assert s + rest == rest;
    } else {
      assert s + rest == [s[0]] + (s[1..] + rest);
      NextPlain(s[0], s[1..] + rest);
      MaxNumberRead(min, v * 10 + DigitValue(s[0]), s[1..], rest, true);
    }
  }

  /** What follows an element that stands alone. */
  predicate NoSign(rest: Text) { rest == [] || (NextChar(rest).Some? && !IsSign(NextChar(rest).value.value)) }

  lemma ExactlyRead(n: Text, rest: Text)
    requires AllDigits(n)
    ensures ReadModifier(Escaped(OPEN_BRACE) + (n + Escaped(CLOSE_BRACE)) + rest) == Some(Read(Modifier(Value(n), Value(n)), rest))
  {
    var tail := Escaped(CLOSE_BRACE) + rest;
    assert Escaped(OPEN_BRACE) + (n + Escaped(CLOSE_BRACE)) + rest == Escaped(OPEN_BRACE) + (n + tail);
    BraceRead(n + tail);
    MinNumberRead(0, n, tail, false);
    ValueIsFrom(n);
    NextEscaped(CLOSE_BRACE, rest);
  }

  lemma AtLeastRead(n: Text, rest: Text)
    requires AllDigits(n) && n != []
    ensures ReadModifier(Escaped(OPEN_BRACE) + (n + ([COMMA] + Escaped(CLOSE_BRACE))) + rest)
            == Some(Read(Modifier(Value(n), MAX_COUNT), rest))
  {
    var tail := Escaped(CLOSE_BRACE) + rest;
    assert Escaped(OPEN_BRACE) + (n + ([COMMA] + Escaped(CLOSE_BRACE))) + rest
           == Escaped(OPEN_BRACE) + (n + ([COMMA] + tail));
    BraceRead(n + ([COMMA] + tail));
    MinNumberRead(0, n, [COMMA] + tail, false);
    ValueIsFrom(n);
    CommaRead(Value(n), tail);
    CloseRead(Value(n), 0, false, rest);
  }

  lemma BetweenRead(n: Text, m: Text, rest: Text)
    requires AllDigits(n) && AllDigits(m) && n != [] && m != [] && Value(n) <= Value(m)
    ensures ReadModifier(Escaped(OPEN_BRACE) + (n + ([COMMA] + (m + Escaped(CLOSE_BRACE)))) + rest)
            == Some(Read(Modifier(Value(n), Value(m)), rest))
  {
    var tail := Escaped(CLOSE_BRACE) + rest;
    Regroup(Escaped(OPEN_BRACE), n, [COMMA], m, Escaped(CLOSE_BRACE), rest);
    BraceRead(n + ([COMMA] + (m + tail)));
    MinNumberRead(0, n, [COMMA] + (m + tail), false);
    ValueIsFrom(n);
    CommaRead(Value(n), m + tail);
    MaxNumberRead(Value(n), 0, m, tail, false);
    ValueIsFrom(m);
    CloseRead(Value(n), Value(m), true, rest);
  }

  lemma OneSignRead(c: int, rest: Text)
    requires c in {'?' as int, '+' as int, '*' as int}
    ensures ReadModifier([c] + rest) == Some(Read(
              if c == '?' as int then Modifier(0, 1) else if c == '+' as int then Modifier(1, MAX_COUNT) else Modifier(0, MAX_COUNT),
              rest))
  {
    NextPlain(c, rest);
  }

  lemma SignRead(sign: Sign, rest: Text)
    requires GoodSign(sign) && (sign.Once? ==> NoSign(rest))
    ensures ReadModifier(ShowSign(sign) + rest) == Some(Read(ModifierOf(sign), rest))
  {
    match sign {
      case Once => assert [] + rest == rest;
      case Question => OneSignRead('?' as int, rest);
      case Plus => OneSignRead('+' as int, rest);
      case Star => OneSignRead('*' as int, rest);
      case Exactly(n) => ExactlyRead(n, rest);
      case AtLeast(n) => AtLeastRead(n, rest);
      case Between(n, m) => BetweenRead(n, m, rest);
    }
  }

  lemma AtomStarts(atom: Atom, rest: Text)
    requires GoodAtom(atom)
    ensures var s := ShowAtom(atom) + rest;
            s != [] && NextChar(s).Some? && NextChar(s).value.value == FirstOf(atom)
  {
    match atom {
      case Letter(c) => CharRead(c, rest);
      case Dot => NextPlain(DOT, rest);
      case Bracket(negated, items) =>
        BracketStarts((if negated then [CARET] else []) + (ShowItems(items) + [CLOSE_BRACKET]), rest);
    }
  }

  lemma BracketStarts(inside: Text, rest: Text)
    ensures var s := [OPEN_BRACKET] + inside + rest;
            s != [] && NextChar(s).Some? && NextChar(s).value.value == Plain(OPEN_BRACKET)
  {
    assert [OPEN_BRACKET] + inside + rest == [OPEN_BRACKET] + (inside + rest);
    NextPlain(OPEN_BRACKET, inside + rest);
  }

  lemma ShowStarts(syntax: Syntax)
    requires Good(syntax) && syntax != []
    ensures Show(syntax) != [] && NextChar(Show(syntax)).Some? && NextChar(Show(syntax)).value.value == FirstOf(syntax[0].atom)
  {
    AtomStarts(syntax[0].atom, ShowSign(syntax[0].sign) + Show(syntax[1..]));
  }

  lemma PieceRead(p: Piece, rest: Text)
    requires GoodAtom(p.atom) && GoodSign(p.sign) && (p.sign.Once? ==> NoSign(rest))
    ensures ReadElement(ShowAtom(p.atom) + (ShowSign(p.sign) + rest)) == Some(Read(ElementOf(p), rest))
  {
    AtomRead(p.atom, ShowSign(p.sign) + rest);
    SignRead(p.sign, rest);
  }

  lemma {:induction false} SyntaxRead(syntax: Syntax, done: seq<Element>)
    requires Good(syntax)
    ensures ReadAll(Show(syntax), done) == Some(done + ElementsOf(syntax))
    decreases |syntax|
  {
    if syntax == [] {
      assert done + ElementsOf(syntax) == done;
    } else {
      SyntaxStep(syntax, done);
      SyntaxRead(syntax[1..], done + [ElementOf(syntax[0])]);
      ElementThenOthers(done, ElementOf(syntax[0]), ElementsOf(syntax[1..]));
    }
  }

  lemma SyntaxStep(syntax: Syntax, done: seq<Element>)
    requires Good(syntax) && syntax != []
    ensures ReadAll(Show(syntax), done) == ReadAll(Show(syntax[1..]), done + [ElementOf(syntax[0])])
  {
    var rest := Show(syntax[1..]);
    if syntax[1..] != [] {
      ShowStarts(syntax[1..]);
      assert FirstOf(syntax[1..][0].atom) == FirstOf(syntax[1].atom);
    }
    PieceRead(syntax[0], rest);
    ShowStarts(syntax);
    ReadStep(Show(syntax), ElementOf(syntax[0]), rest, done);
  }

  // ----- what is parsed has good syntax -----

  lemma NextSplits(s: Text)
    requires NextChar(s).Some?
    ensures var c := NextChar(s).value; s == ShowChar(c.value) + c.rest && (c.value.escaped || c.value.character != BACKSLASH)
  {
  }

  /** From behind a character that starts an item. */
  lemma {:induction false} PendingItems(s: Text, g: Group0, c: GeneralChar) returns (items: seq<GroupItem>)
    requires ReadGroup(s, g).Some? && g.state == SearchSplitter && g.begin == c.character && GoodInBracket(c)
    ensures items != [] && StartOf(items[0]) == c
    ensures forall i :: 0 <= i < |items| ==> GoodItem(items[i])
    ensures forall i :: 1 <= i < |items| ==> StartOf(items[i]) != Plain(DASH)
    ensures var r := ReadGroup(s, g).value;
            ShowChar(c) + s == ShowItems(items) + ([CLOSE_BRACKET] + r.rest) && r.value == Group(g.reversed, g.items + ItemsOf(items))
    decreases |s|
  {
    NextSplits(s);
    var d, rest := NextChar(s).value.value, NextChar(s).value.rest;
    var end := ReadGroup(s, g).value.rest;
    if d == Plain(CLOSE_BRACKET) {
      items := [Single(c)];
      OneItem(Single(c));
    } else if d == Plain(DASH) {
      var e, rest2 := RangeGoesOn(s, g, rest);
      var h := Group0(ReadBegin, g.begin, g.reversed, g.items + [Item(g.begin, e.character)]);
      var more := MoreItems(rest2, h);
      items := JoinItems(Range(c, e), more, rest2, end, g.items);
      RangeText(c, e, rest2);
    } else {
      SingleGoesOn(s, g, d, rest);
      var h := Group0(SearchSplitter, d.character, g.reversed, g.items + [Item(g.begin, g.begin)]);
      var more := PendingItems(rest, h, d);
      items := JoinItems(Single(c), more, s, end, g.items);
    }
  }

  lemma RangeText(c: GeneralChar, e: GeneralChar, rest: Text)
    ensures ShowChar(c) + ([DASH] + (ShowChar(e) + rest)) == ShowItem(Range(c, e)) + rest
  {
  }

  /** Behind a dash. */
  lemma RangeGoesOn(s: Text, g: Group0, rest: Text) returns (e: GeneralChar, rest2: Text)
    requires ReadGroup(s, g).Some? && g.state == SearchSplitter && NextChar(s) == Some(Read(Plain(DASH), rest))
    ensures s == [DASH] + (ShowChar(e) + rest2) && GoodInBracket(e) && e != Plain(DASH) && |rest2| < |s|
    ensures ReadGroup(s, g)
            == ReadGroup(rest2, Group0(ReadBegin, g.begin, g.reversed, g.items + [Item(g.begin, e.character)]))
  {
    NextSplits(s);
    assert ReadGroup(s, g) == ReadGroup(rest, g.(state := ReadEnd));
    NextSplits(rest);
    e, rest2 := NextChar(rest).value.value, NextChar(rest).value.rest;
  }

  lemma SingleGoesOn(s: Text, g: Group0, d: GeneralChar, rest: Text)
    requires ReadGroup(s, g).Some? && g.state == SearchSplitter && NextChar(s) == Some(Read(d, rest))
    requires d != Plain(DASH) && d != Plain(CLOSE_BRACKET)
    ensures ReadGroup(s, g)
            == ReadGroup(rest, Group0(SearchSplitter, d.character, g.reversed, g.items + [Item(g.begin, g.begin)]))
  {
  }

  lemma OneItem(item: GroupItem)
    ensures ShowItems([item]) == ShowItem(item) && ItemsOf([item]) == [ItemOf(item)]
  {
    assert [item][1..] == [];
  }

  lemma JoinItems(item: GroupItem, more: seq<GroupItem>, s: Text, rest: Text, done: seq<Item>) returns (items: seq<GroupItem>)
    requires GoodItem(item) && s == ShowItems(more) + ([CLOSE_BRACKET] + rest)
    requires forall i :: 0 <= i < |more| ==> GoodItem(more[i]) && StartOf(more[i]) != Plain(DASH)
    ensures items != [] && items[0] == item && forall i :: 0 <= i < |items| ==> GoodItem(items[i])
    ensures forall i :: 1 <= i < |items| ==> StartOf(items[i]) != Plain(DASH)
    ensures ShowItem(item) + s == ShowItems(items) + ([CLOSE_BRACKET] + rest)
    ensures done + [ItemOf(item)] + ItemsOf(more) == done + ItemsOf(items)
  {
    items := [item] + more;
    assert items[1..] == more;
    FirstItem(items, [CLOSE_BRACKET] + rest);
    FirstMeaning(done, items);
  }

  /** From where an item may start. */
  lemma {:induction false} MoreItems(s: Text, g: Group0) returns (items: seq<GroupItem>)
    requires ReadGroup(s, g).Some? && g.state == ReadBegin
    ensures forall i :: 0 <= i < |items| ==> GoodItem(items[i]) && StartOf(items[i]) != Plain(DASH)
    ensures var r := ReadGroup(s, g).value;
            s == ShowItems(items) + ([CLOSE_BRACKET] + r.rest) && r.value == Group(g.reversed, g.items + ItemsOf(items))
    decreases |s|
  {
    NextSplits(s);
    var d, rest := NextChar(s).value.value, NextChar(s).value.rest;
    if d == Plain(CLOSE_BRACKET) {
      items := [];
      assert g.items + ItemsOf(items) == g.items && ShowItems(items) + s == s;
    } else {
      items := PendingItems(rest, Group0(SearchSplitter, d.character, g.reversed, g.items), d);
    }
  }

  lemma BracketSound(s: Text) returns (negated: bool, items: seq<GroupItem>)
    requires ReadGroup(s, GROUP_START).Some?
    ensures GoodItems(negated, items)
    ensures var r := ReadGroup(s, GROUP_START).value;
            && s == (if negated then [CARET] else []) + (ShowItems(items) + [CLOSE_BRACKET]) + r.rest
            && r.value == Group(negated, ItemsOf(items))
  {
    NextSplits(s);
    var d, rest := NextChar(s).value.value, NextChar(s).value.rest;
    var end := ReadGroup(s, GROUP_START).value.rest;
    GroupHasItems(s, GROUP_START);
    if d == Plain(CARET) {
      CaretRead(rest);
      negated := true;
      items := MoreItems(rest, Group0(ReadBegin, 0, true, []));
    } else {
      assert ReadGroup(s, GROUP_START) == ReadGroup(rest, Group0(SearchSplitter, d.character, false, []));
      negated := false;
      items := PendingItems(rest, Group0(SearchSplitter, d.character, false, []), d);
    }
    assert [] + ItemsOf(items) == ItemsOf(items);
    BracketText(negated, ShowItems(items), end);
  }

  lemma AtomSound(s: Text) returns (atom: Atom)
    requires ReadBody(s).Some?
    ensures GoodAtom(atom) && s == ShowAtom(atom) + ReadBody(s).value.rest && ReadBody(s).value.value == KindOf(atom)
  {
    NextSplits(s);
    var c, rest := NextChar(s).value.value, NextChar(s).value.rest;
    if c == Plain(DOT) {
      atom := Dot;
    } else if c == Plain(OPEN_BRACKET) {
      var negated, items := BracketSound(rest);
      atom := Bracket(negated, items);
      assert s == [OPEN_BRACKET] + rest;
    } else {
      atom := Letter(c);
    }
  }

  lemma {:induction false} MaxSound(s: Text, min: nat, v: nat, maxRead: bool) returns (m: Text)
    requires ReadMax(s, min, v, maxRead).Some?
    ensures AllDigits(m) && s == m + (Escaped(CLOSE_BRACE) + ReadMax(s, min, v, maxRead).value.rest)
    ensures var r := ReadMax(s, min, v, maxRead).value.value;
            if maxRead || m != [] then r == Modifier(min, ValueFrom(v, m)) && min <= ValueFrom(v, m) else r == Modifier(min, MAX_COUNT)
    decreases |s|
  {
    NextSplits(s);
    var c, rest := NextChar(s).value.value, NextChar(s).value.rest;
    if c == GeneralChar(CLOSE_BRACE, true) {
      m := [];
    } else {
      var more := MaxSound(rest, min, v * 10 + DigitValue(c.character), true);
      m := [c.character] + more;
      assert m[1..] == more;
    }
  }

  /** A first number, a second one if there is a comma and digits follow it, and the closing brace. */
  predicate RangeIs(s: Text, v: nat, n: Text, comma: bool, m: Text, r: Read<Modifier>)
    requires AllDigits(n) && AllDigits(m)
  {
    var (tail, low) := (Escaped(CLOSE_BRACE) + r.rest, ValueFrom(v, n));
    if !comma then s == n + tail && r.value == Modifier(low, low)
    else
      && s == n + ([COMMA] + (m + tail))
      && (if m == [] then r.value == Modifier(low, MAX_COUNT)
          else r.value == Modifier(low, ValueFrom(0, m)) && low <= ValueFrom(0, m))
  }

  lemma RangeWithDigit(c: int, s: Text, v: nat, n: Text, comma: bool, m: Text, r: Read<Modifier>)
    requires IsDigit(c) && AllDigits(n) && AllDigits(m) && RangeIs(s, v * 10 + DigitValue(c), n, comma, m, r)
    ensures AllDigits([c] + n) && RangeIs([c] + s, v, [c] + n, comma, m, r)
  {
    assert ([c] + n)[1..] == n;
  }

  lemma {:induction false} MinSound(s: Text, v: nat, minRead: bool) returns (n: Text, comma: bool, m: Text)
    requires ReadMin(s, v, minRead).Some?
    ensures AllDigits(n) && AllDigits(m) && (comma ==> minRead || n != [])
    ensures RangeIs(s, v, n, comma, m, ReadMin(s, v, minRead).value)
    decreases |s|
  {
    NextSplits(s);
    var c, rest := NextChar(s).value.value, NextChar(s).value.rest;
    n, comma, m := [], false, [];
    if c != GeneralChar(CLOSE_BRACE, true) {
      if IsDigit(c.character) {
        n, comma, m := MinSound(rest, v * 10 + DigitValue(c.character), true);
        RangeWithDigit(c.character, rest, v, n, comma, m, ReadMin(s, v, minRead).value);
        n := [c.character] + n;
      } else {
        comma := true;
        m := MaxSound(rest, v, 0, false);
      }
    }
  }

  lemma SignSound(s: Text) returns (sign: Sign)
    requires ReadModifier(s).Some?
    ensures GoodSign(sign) && s == ShowSign(sign) + ReadModifier(s).value.rest && ReadModifier(s).value.value == ModifierOf(sign)
    ensures sign.Once? ==> NoSign(s) && ReadModifier(s).value.rest == s
  {
    if s == [] {
      sign := Once;
      return;
    }
    NextSplits(s);
    var c, rest := NextChar(s).value.value, NextChar(s).value.rest;
    if c == GeneralChar(OPEN_BRACE, true) {
      var n, comma, m := MinSound(rest, 0, false);
      ValueIsFrom(n);
      ValueIsFrom(m);
      sign := if !comma then Exactly(n) else if m == [] then AtLeast(n) else Between(n, m);
      RangeShown(s, n, comma, m, ReadModifier(s).value.rest);
    } else {
      sign := if c == Plain('?' as int) then Question else if c == Plain('+' as int) then Plus
              else if c == Plain('*' as int) then Star else Once;
    }
  }

  lemma RangeShown(s: Text, n: Text, comma: bool, m: Text, rest: Text)
    requires var tail := Escaped(CLOSE_BRACE) + rest;
             s == Escaped(OPEN_BRACE) + if !comma then n + tail else n + ([COMMA] + (m + tail))
    ensures s == ShowSign(if !comma then Exactly(n) else if m == [] then AtLeast(n) else Between(n, m)) + rest
  {
    if comma {
      Regroup(Escaped(OPEN_BRACE), n, [COMMA], m, Escaped(CLOSE_BRACE), rest);
      assert [] + Escaped(CLOSE_BRACE) == Escaped(CLOSE_BRACE);
    }
  }

  lemma PieceSound(s: Text) returns (p: Piece)
    requires ReadElement(s).Some?
    ensures GoodAtom(p.atom) && GoodSign(p.sign) && ReadElement(s).value.value == ElementOf(p)
    ensures s == ShowAtom(p.atom) + (ShowSign(p.sign) + ReadElement(s).value.rest)
    ensures p.sign.Once? ==> NoSign(ReadElement(s).value.rest)
  {
    var atom := AtomSound(s);
    var sign := SignSound(ReadBody(s).value.rest);
    p := Piece(atom, sign);
  }

  lemma {:induction false} SyntaxSound(s: Text, done: seq<Element>) returns (syntax: Syntax)
    requires ReadAll(s, done).Some?
    ensures Good(syntax) && Show(syntax) == s && ReadAll(s, done).value == done + ElementsOf(syntax)
    decreases |s|
  {
    if s == [] {
      syntax := [];
      assert done + ElementsOf(syntax) == done;
    } else {
      var p := PieceSound(s);
      var rest := ReadElement(s).value.rest;
      ReadStep(s, ElementOf(p), rest, done);
      var more := SyntaxSound(rest, done + [ElementOf(p)]);
      syntax := [p] + more;
      PieceThen(p, more);
      ElementThenOthers(done, ElementOf(p), ElementsOf(more));
    }
  }

  lemma ElementThenOthers(done: seq<Element>, e: Element, more: seq<Element>)
    ensures done + [e] + more == done + ([e] + more)
  {
  }

  lemma PieceThen(p: Piece, more: Syntax)
    requires GoodAtom(p.atom) && GoodSign(p.sign) && Good(more) && (p.sign.Once? ==> NoSign(Show(more)))
    ensures Good([p] + more)
    ensures Show([p] + more) == ShowAtom(p.atom) + (ShowSign(p.sign) + Show(more))
    ensures ElementsOf([p] + more) == [ElementOf(p)] + ElementsOf(more)
  {
    var syntax := [p] + more;
    assert syntax[1..] == more;
    if more != [] {
      ShowStarts(more);
    }
    forall i | 1 <= i < |syntax| ensures !(syntax[i - 1].sign.Once? && IsSign(FirstOf(syntax[i].atom))) {
      if i > 1 {
        assert syntax[i - 1] == more[i - 2] && syntax[i] == more[i - 1];
      }
    }
  }

  // ----- the main results -----

  /** A pattern is accepted exactly if it is written in good syntax, and then it means what that syntax says. */
  lemma ParsedIffSyntax(pattern: Text)
    ensures Parsed(pattern).Some? <==> exists syntax :: Good(syntax) && Show(syntax) == pattern
    ensures forall syntax | Good(syntax) && Show(syntax) == pattern :: Parsed(pattern) == Some(ElementsOf(syntax))
  {
    if Parsed(pattern).Some? {
      var syntax := SyntaxSound(pattern, []);
    }
    forall syntax | Good(syntax) && Show(syntax) == pattern ensures Parsed(pattern) == Some(ElementsOf(syntax)) {
      SyntaxRead(syntax, []);
      assert [] + ElementsOf(syntax) == ElementsOf(syntax);
    }
  }

  lemma AtomAccepts(atom: Atom, ch: int)
    ensures AtomHas(atom, ch) <==> Accepts(KindOf(atom), ch)
  {
    if atom.Bracket? {
      var items := ItemsOf(atom.items);
      if i :| 0 <= i < |atom.items| && ItemHas(atom.items[i], ch) {
        assert InItem(items[i], ch) && items[i] in items;
      }
      if item :| item in items && InItem(item, ch) {
        var i :| 0 <= i < |items| && items[i] == item;
        assert ItemHas(atom.items[i], ch);
      }
    }
  }

  /** The first piece of a split. */
  lemma SplitsFirst(text: Text, e: Element, es: seq<Element>)
    ensures TextSplits(text, [e] + es) <==>
            exists k: nat | k <= |text| ::
              e.minimum <= k <= e.maximum && (forall i :: 0 <= i < k ==> Accepts(e.kind, text[..k][i])) && TextSplits(text[k..], es)
  {
    if TextSplits(text, [e] + es) {
      var pieces :| PiecesMatch(pieces, [e] + es) && Concatenates(pieces, text);
      var k := |pieces[0]|;
      assert text[..k] == pieces[0] && ([e] + es)[0] == e;
      assert forall i :: 0 <= i < |es| ==> ([e] + es)[i + 1] == es[i];
      assert PiecesMatch(pieces[1..], es) && Concatenates(pieces[1..], text[k..]);
      assert TextSplits(text[k..], es);
    }
    if k: nat :| k <= |text| && e.minimum <= k <= e.maximum
                 && (forall i :: 0 <= i < k ==> Accepts(e.kind, text[..k][i])) && TextSplits(text[k..], es) {
      var rest :| PiecesMatch(rest, es) && Concatenates(rest, text[k..]);
      var pieces := [text[..k]] + rest;
      assert pieces[1..] == rest;
      assert forall ch <- text[..k] :: Accepts(e.kind, ch);
      assert PiecesMatch(pieces, [e] + es) && Concatenates(pieces, text);
    }
  }

  lemma {:induction false} LanguageIsSplits(text: Text, syntax: Syntax)
    requires Good(syntax)
    ensures InLanguage(text, syntax) <==> TextSplits(text, ElementsOf(syntax))
    decreases |syntax|
  {
    if syntax == [] {
      assert text == [] ==> PiecesMatch([], []) && Concatenates([], text);
    } else {
      var (p, more) := (syntax[0], syntax[1..]);
      forall k: nat | k <= |text|
        ensures (Takes(p.sign, k) && AllHave(p.atom, text[..k]) && InLanguage(text[k..], more)) <==>
                (ElementOf(p).minimum <= k <= ElementOf(p).maximum
                 && (forall i :: 0 <= i < k ==> Accepts(ElementOf(p).kind, text[..k][i]))
                 && TextSplits(text[k..], ElementsOf(more)))
      {
        LanguageIsSplits(text[k..], more);
        PartAccepted(p.atom, text[..k]);
      }
      SplitsFirst(text, ElementOf(p), ElementsOf(more));
    }
  }

  lemma PartAccepted(atom: Atom, part: Text)
    ensures AllHave(atom, part) <==> forall i :: 0 <= i < |part| ==> Accepts(KindOf(atom), part[i])
  {
    forall i | 0 <= i < |part| ensures AtomHas(atom, part[i]) <==> Accepts(KindOf(atom), part[i]) {
      AtomAccepts(atom, part[i]);
    }
  }

  /** Matching fails to decide the language only for open ranges that start above 10000. */
  predicate NoneTooHigh(syntax: Syntax)
    requires Good(syntax)
  {
    forall i :: 0 <= i < |syntax| ==> (syntax[i].sign.AtLeast? ==> Value(syntax[i].sign.n) <= 10000)
  }

  lemma RangedIffNoneTooHigh(syntax: Syntax)
    requires Good(syntax)
    ensures Ranged(ElementsOf(syntax)) <==> NoneTooHigh(syntax)
    ensures NoneTooHigh(syntax) <==> !HasOpenTooHigh(Show(syntax))
  {
    var es := ElementsOf(syntax);
    assert Ranged(es) <==> forall i :: 0 <= i < |es| ==> es[i].minimum <= es[i].maximum;
    forall i | 0 <= i < |es|
      ensures es[i].minimum <= es[i].maximum <==> (syntax[i].sign.AtLeast? ==> Value(syntax[i].sign.n) <= 10000)
    {
      PieceRanged(syntax[i]);
    }
    ParsedIffSyntax(Show(syntax));
    RangedIff(Show(syntax));
  }

  lemma PieceRanged(p: Piece)
    requires GoodSign(p.sign)
    ensures ElementOf(p).minimum <= ElementOf(p).maximum <==> (p.sign.AtLeast? ==> Value(p.sign.n) <= 10000)
  {
  }

  /**
   A pattern applied to a text. The pattern is rejected exactly if it has no good syntax; and if no open
   range starts above 10000 the answer is whether the text is in the language.
   */
  method MatchPattern(pattern: Text, mem: Mem, ghost text: Text, end: nat) returns (matched: Option<bool>)
    requires Holds(mem, text) && end == |text|
    ensures matched.Some? <==> exists syntax :: Good(syntax) && Show(syntax) == pattern
    ensures forall syntax | Good(syntax) && Show(syntax) == pattern && NoneTooHigh(syntax) ::
              matched == Some(InLanguage(text, syntax))
  {
    var es := Parse(pattern);
    ParsedIffSyntax(pattern);
    if es.None? {
      return None;
    }
    var ok, high := MatchImpl(mem, end, es.value, 0, 0);
    matched := Some(ok);
    forall syntax | Good(syntax) && Show(syntax) == pattern && NoneTooHigh(syntax)
      ensures matched == Some(InLanguage(text, syntax))
    {
      RangedIffNoneTooHigh(syntax);
      LanguageIsSplits(text, syntax);
      SearchAll(mem, end, es.value, 0);
      SplitsIsTextSplits(mem, text, es.value);
    }
  }
}
