/**
 The texts the JSON parser accepts, as a grammar, and the value of each: white space anywhere between
 tokens, letters of either case in the three words, escapes with digits of either case, all forms of
 numbers, repeated names. Where the grammar is wider than RFC 8259 it says so.
 */
module JsonGrammar {
  import opened Wrappers
  import opened Json
  import opened JsonRoundTrip

  // ----- concrete syntax -----

  datatype HexDigit = HexDigit(value: nat, upper: bool)

  /** One character of a string: itself, a one-letter escape, or an escape of four hexadecimal digits. */
  datatype Ch = Raw(c: int) | Short(e: int) | Hex(a: HexDigit, b: HexDigit, c2: HexDigit, d: HexDigit)

  /** Without an exponent the letter is 0, without a sign the sign. */
  datatype Exponent = Exponent(letter: int, sign: int, digits: WStr)

  datatype Syn =
    | Quoted(chars: seq<Ch>)
    | Word(value: Value, letters: WStr)
    | Numeral(minus: bool, whole: WStr, fraction: WStr, exponent: Exponent)
    | Array(space: WStr, items: seq<Item>)
    | Object(space: WStr, entries: seq<Entry>)

  datatype Item = Item(before: WStr, v: Syn, after: WStr)

  /** `quote` is what stands where the name's opening quote belongs: the parser does not look at it. */
  datatype Entry = Entry(before: WStr, quote: int, name: seq<Ch>, mid: WStr, mid2: WStr, v: Syn, after: WStr)

  function ShowHex(h: HexDigit): int {
    if h.value < 10 then '0' as int + h.value else (if h.upper then 'A' as int else 'a' as int) + (h.value - 10)
  }

  function ShowCh(ch: Ch): WStr {
    match ch
    case Raw(c) => [c]
    case Short(e) => [BACKSLASH, e]
    case Hex(a, b, c, d) => [BACKSLASH, 'u' as int, ShowHex(a), ShowHex(b), ShowHex(c), ShowHex(d)]
  }

  function ShowChs(chars: seq<Ch>): WStr {
    if chars == [] then [] else ShowCh(chars[0]) + ShowChs(chars[1..])
  }

  function ShowExponent(e: Exponent): WStr {
    if e.letter == 0 then [] else [e.letter] + ((if e.sign == 0 then [] else [e.sign]) + e.digits)
  }

  function ShowFraction(fraction: WStr): WStr { if fraction == [] then [] else ['.' as int] + fraction }

  function ShowNumeral(minus: bool, whole: WStr, fraction: WStr, exponent: Exponent): WStr {
    (if minus then ['-' as int] else []) + (whole + (ShowFraction(fraction) + ShowExponent(exponent)))
  }

  function Show(syn: Syn): WStr
    decreases syn, 1
  {
    match syn
    case Quoted(chars) => [QUOTE] + (ShowChs(chars) + [QUOTE])
    case Word(_, letters) => letters
    case Numeral(minus, whole, fraction, exponent) => ShowNumeral(minus, whole, fraction, exponent)
    case Array(space, items) => [LBRACKET] + ((if items == [] then space else ShowItems(items)) + [RBRACKET])
    case Object(space, entries) => [LBRACE] + ((if entries == [] then space else ShowEntries(entries)) + [RBRACE])
  }

  function ShowItem(item: Item): WStr
    decreases item, 1
  {
    item.before + (Show(item.v) + item.after)
  }

  function ShowItems(items: seq<Item>): WStr
    decreases items, 0
  {
    if items == [] then []
    else if |items| == 1 then ShowItem(items[0])
    else ShowItem(items[0]) + ([COMMA] + ShowItems(items[1..]))
  }

  function ShowName(e: Entry): WStr { [e.quote] + (ShowChs(e.name) + ([QUOTE] + (e.mid + [COLON]))) }

  function ShowEntry(e: Entry): WStr
    decreases e, 1
  {
    e.before + (ShowName(e) + (e.mid2 + (Show(e.v) + e.after)))
  }

  function ShowEntries(entries: seq<Entry>): WStr
    decreases entries, 0
  {
    if entries == [] then []
    else if |entries| == 1 then ShowEntry(entries[0])
    else ShowEntry(entries[0]) + ([COMMA] + ShowEntries(entries[1..]))
  }

  // ----- which syntax is good -----

  /** Section 2 of RFC 8259: space, tab, line feed and carriage return, and nothing else. */
  lemma {:induction false} SpaceIs(s: WStr)
    ensures AllSpace(s) <==> forall i :: 0 <= i < |s| ==> s[i] in {9, 10, 13, 32}
  {
  }

  predicate AllDigits(s: WStr) { forall i :: 0 <= i < |s| ==> IsDigit(s[i]) }

  /** Section 7 of RFC 8259, and a tab is let through unescaped. */
  predicate GoodCh(ch: Ch) {
    match ch
    case Raw(c) => c != QUOTE && c != BACKSLASH && (c >= 0x20 || c == 9)
    case Short(e) => e in {QUOTE, BACKSLASH, SLASH, 'b' as int, 'f' as int, 'n' as int, 'r' as int, 't' as int}
    case Hex(a, b, c, d) => a.value < 16 && b.value < 16 && c.value < 16 && d.value < 16
  }

  predicate GoodChs(chars: seq<Ch>) { forall i :: 0 <= i < |chars| ==> GoodCh(chars[i]) }

  function WordFor(v: Value): string
    requires v.Null? || v.Bool?
  {
    if v.Null? then "null" else if v.b then "true" else "false"
  }

  /** The word, each letter in either case. */
  predicate SpellsWord(letters: WStr, word: string) {
    |letters| == |word| && forall i :: 0 <= i < |word| ==> letters[i] == word[i] as int || letters[i] == word[i] as int - 32
  }

  predicate GoodExponent(e: Exponent) {
    e.letter == 0 ||
    (e.letter in {'e' as int, 'E' as int} && e.sign in {0, '+' as int, '-' as int} && AllDigits(e.digits) && e.digits != [])
  }

  /** Section 6 of RFC 8259. */
  predicate GoodNumeral(whole: WStr, fraction: WStr, exponent: Exponent) {
    && AllDigits(whole) && whole != [] && (whole[0] == '0' as int ==> |whole| == 1)
    && AllDigits(fraction) && GoodExponent(exponent)
  }

  predicate Good(syn: Syn)
    decreases syn, 1
  {
    match syn
    case Quoted(chars) => GoodChs(chars)
    case Word(value, letters) => (value.Null? || value.Bool?) && SpellsWord(letters, WordFor(value))
    case Numeral(_, whole, fraction, exponent) => GoodNumeral(whole, fraction, exponent)
    case Array(space, items) => AllSpace(space) && GoodItems(items)
    case Object(space, entries) => AllSpace(space) && GoodEntries(entries, true)
  }

  predicate GoodItems(items: seq<Item>)
    decreases items, 0
  {
    items == [] ||
    (AllSpace(items[0].before) && Good(items[0].v) && AllSpace(items[0].after) && GoodItems(items[1..]))
  }

  /** A space would be skipped before the name, and a brace at its place would close an empty object. */
  predicate GoodEntry(e: Entry, first: bool)
    decreases e, 1
  {
    && AllSpace(e.before) && e.quote !in {9, 10, 13, 32} && (first ==> e.quote != RBRACE)
    && GoodChs(e.name) && AllSpace(e.mid) && AllSpace(e.mid2) && Good(e.v) && AllSpace(e.after)
  }

  predicate GoodEntries(entries: seq<Entry>, first: bool)
    decreases entries, 0
  {
    entries == [] || (GoodEntry(entries[0], first) && GoodEntries(entries[1..], false))
  }

  // ----- the values -----

  function ChOf(ch: Ch): int {
    match ch
    case Raw(c) => c
    case Short(e) =>
      if e == 'b' as int then 8 else if e == 'f' as int then 12 else if e == 'n' as int then 10
      else if e == 'r' as int then 13 else if e == 't' as int then 9 else e
    case Hex(a, b, c, d) => ((a.value * 16 + b.value) * 16 + c.value) * 16 + d.value
  }

  function ChsOf(chars: seq<Ch>): (r: WStr)
    ensures |r| == |chars| && forall i :: 0 <= i < |r| ==> r[i] == ChOf(chars[i])
  {
    if chars == [] then [] else [ChOf(chars[0])] + ChsOf(chars[1..])
  }

  function ValueOf(syn: Syn): Value
    decreases syn, 1
  {
    match syn
    case Quoted(chars) => Str(ChsOf(chars))
    case Word(value, _) => value
    case Numeral(minus, whole, fraction, exponent) => Number(ShowNumeral(minus, whole, fraction, exponent))
    case Array(_, items) => Arr(ValuesOf(items))
    case Object(_, entries) => Obj(MembersOf(entries, []))
  }

  function ValuesOf(items: seq<Item>): (r: seq<Value>)
    ensures |r| == |items|
    decreases items, 0
  {
    if items == [] then [] else [ItemValue(items[0])] + ValuesOf(items[1..])
  }

  function ItemValue(item: Item): Value
    decreases item, 1
  {
    ValueOf(item.v)
  }

  function EntryValue(e: Entry): Value
    decreases e, 1
  {
    ValueOf(e.v)
  }

  /** The members that the entries add to those before them. */
  function MembersOf(entries: seq<Entry>, done: seq<Member>): seq<Member>
    decreases entries, 0
  {
    if entries == [] then done else MembersOf(entries[1..], Put(done, ChsOf(entries[0].name), EntryValue(entries[0])))
  }

  // ----- good syntax is parsed: strings -----

  lemma HexRead2(h: HexDigit)
    requires h.value < 16
    ensures HexValue(ShowHex(h)) == Some(h.value)
  {
  }

  lemma ChRead(ch: Ch, rest: WStr, str: WStr)
    requires GoodCh(ch)
    ensures Extract(ShowCh(ch) + rest, str) == Extract(rest, str + [ChOf(ch)])
  {
    match ch {
      case Raw(c) => assert ([c] + rest)[1..] == rest;
      case Short(e) => assert ([BACKSLASH, e] + rest)[2..] == rest;
      case Hex(a, b, c, d) => HexChRead(a, b, c, d, rest, str);
    }
  }

  lemma HexChRead(a: HexDigit, b: HexDigit, c: HexDigit, d: HexDigit, rest: WStr, str: WStr)
    requires a.value < 16 && b.value < 16 && c.value < 16 && d.value < 16
    ensures Extract(ShowCh(Hex(a, b, c, d)) + rest, str) == Extract(rest, str + [ChOf(Hex(a, b, c, d))])
  {
    HexRead2(a);
    HexRead2(b);
    HexRead2(c);
    HexRead2(d);
    HexEscape(ShowHex(a), ShowHex(b), ShowHex(c), ShowHex(d), ChOf(Hex(a, b, c, d)), rest, str);
  }

  lemma HexEscape(a: int, b: int, c: int, d: int, v: int, rest: WStr, str: WStr)
    requires Hex4([a, b, c, d]) == Some(v)
    ensures Extract([BACKSLASH, 'u' as int, a, b, c, d] + rest, str) == Extract(rest, str + [v])
  {
    var s := [BACKSLASH, 'u' as int, a, b, c, d] + rest;
    assert s[2..][..4] == [a, b, c, d];
    assert s[2..][0] == a && s[2..][1] == b && s[2..][2] == c && s[2..][3] == d;
    assert s[6..] == rest;
  }

  lemma {:induction false} ChsRead(chars: seq<Ch>, rest: WStr, str: WStr)
    requires GoodChs(chars)
    ensures Extract(ShowChs(chars) + ([QUOTE] + rest), str) == Some(Extracted(str + ChsOf(chars), rest))
    decreases |chars|
  {
    var tail := [QUOTE] + rest;
    if chars == [] {
      assert ShowChs(chars) + tail == tail && tail[1..] == rest && str + ChsOf(chars) == str;
    } else {
      assert ShowChs(chars) + tail == ShowCh(chars[0]) + (ShowChs(chars[1..]) + tail);
      ChRead(chars[0], ShowChs(chars[1..]) + tail, str);
      ChsRead(chars[1..], rest, str + [ChOf(chars[0])]);
      assert str + [ChOf(chars[0])] + ChsOf(chars[1..]) == str + ChsOf(chars);
    }
  }

  lemma QuotedRead(chars: seq<Ch>, rest: WStr)
    requires GoodChs(chars)
    ensures ParseValue(Show(Quoted(chars)) + rest) == Some(Parsed(Str(ChsOf(chars)), rest))
  {
    assert Show(Quoted(chars)) + rest == [QUOTE] + (ShowChs(chars) + ([QUOTE] + rest));
    StringBehindQuote(ShowChs(chars) + ([QUOTE] + rest));
    ChsRead(chars, rest, []);
    assert [] + ChsOf(chars) == ChsOf(chars);
  }

  // ----- words and numbers -----

  lemma LettersMatch(letters: WStr, word: string, rest: WStr)
    requires SpellsWord(letters, word) && forall i :: 0 <= i < |word| ==> 'a' <= word[i] <= 'z'
    ensures StartsWithWord(letters + rest, word)
  {
    forall i | 0 <= i < |word| ensures Lower((letters + rest)[i]) == Lower(word[i] as int) {
      assert (letters + rest)[i] == letters[i];
    }
  }

  lemma WordRead(value: Value, letters: WStr, rest: WStr)
    requires (value.Null? || value.Bool?) && SpellsWord(letters, WordFor(value))
    ensures ParseValue(letters + rest) == Some(Parsed(value, rest))
  {
    LettersMatch(letters, WordFor(value), rest);
    var s := letters + rest;
    assert s[0] == letters[0];
    assert s[|letters|..] == rest;
  }

  lemma {:induction false} DigitsRead(digits: WStr, rest: WStr)
    requires AllDigits(digits) && !IsDigit(Head(rest))
    ensures SkipDigits(digits + rest) == rest
    decreases |digits|
  {
    if digits == [] {
      assert digits + rest == rest;
    } else {
      assert (digits + rest)[1..] == digits[1..] + rest;
      DigitsRead(digits[1..], rest);
    }
  }

  /** What may follow a number: nothing that would lengthen it. */
  predicate EndsNumber(rest: WStr) { !IsDigit(Head(rest)) && Head(rest) !in {'.' as int, 'e' as int, 'E' as int} }

  lemma ExponentRead(e: Exponent, rest: WStr)
    requires GoodExponent(e) && EndsNumber(rest)
    ensures SkipExponent(ShowExponent(e) + rest) == Some(rest)
    ensures !IsDigit(Head(ShowExponent(e) + rest)) && Head(ShowExponent(e) + rest) != '.' as int
  {
    if e.letter == 0 {
      assert ShowExponent(e) + rest == rest;
    } else {
      var s := ShowExponent(e) + rest;
      var tail := e.digits + rest;
      DigitsRead(e.digits, rest);
      assert tail[0] == e.digits[0];
      if e.sign == 0 {
        assert s == [e.letter] + tail && s[1..] == tail;
      } else {
        assert s == [e.letter] + ([e.sign] + tail) && s[1..] == [e.sign] + tail && s[2..] == tail;
      }
    }
  }

  lemma FractionRead(fraction: WStr, rest: WStr)
    requires AllDigits(fraction) && !IsDigit(Head(rest)) && Head(rest) != '.' as int
    ensures SkipFraction(ShowFraction(fraction) + rest) == Some(rest)
    ensures !IsDigit(Head(ShowFraction(fraction) + rest))
  {
    if fraction == [] {
      assert ShowFraction(fraction) + rest == rest;
    } else {
      var s := ShowFraction(fraction) + rest;
      assert s[1..] == fraction + rest && (fraction + rest)[0] == fraction[0];
      DigitsRead(fraction, rest);
    }
  }

  lemma NumeralSkipped(minus: bool, whole: WStr, fraction: WStr, exponent: Exponent, rest: WStr)
    requires GoodNumeral(whole, fraction, exponent) && EndsNumber(rest)
    ensures var s := ShowNumeral(minus, whole, fraction, exponent) + rest;
            (Head(s) == '-' as int || IsDigit(Head(s))) && SkipNumber(s) == Some(rest)
  {
    var tail2 := ShowExponent(exponent) + rest;
    var tail := ShowFraction(fraction) + tail2;
    ExponentRead(exponent, rest);
    FractionRead(fraction, tail2);
    WholeRead(whole, tail);
    NumeralText(minus, whole, fraction, exponent, rest);
    Signed(minus, whole + tail);
    SkipIs((if minus then ['-' as int] else []) + (whole + tail), whole + tail, tail, tail2, rest);
  }

  lemma WholeRead(whole: WStr, tail: WStr)
    requires AllDigits(whole) && whole != [] && (whole[0] == '0' as int ==> |whole| == 1) && !IsDigit(Head(tail))
    ensures var s1 := whole + tail;
            IsDigit(Head(s1)) && tail == if s1[0] == '0' as int then s1[1..] else SkipDigits(s1)
  {
    assert (whole + tail)[0] == whole[0];
    if whole[0] == '0' as int {
      assert (whole + tail)[1..] == tail;
    } else {
      DigitsRead(whole, tail);
    }
  }

  lemma Signed(minus: bool, s1: WStr)
    requires IsDigit(Head(s1))
    ensures var s := (if minus then ['-' as int] else []) + s1;
            s != [] && s1 == if s[0] == '-' as int then s[1..] else s
  {
    assert (['-' as int] + s1)[1..] == s1 && [] + s1 == s1;
  }

  lemma NumeralText(minus: bool, whole: WStr, fraction: WStr, exponent: Exponent, rest: WStr)
    ensures ShowNumeral(minus, whole, fraction, exponent) + rest
            == (if minus then ['-' as int] else []) + (whole + (ShowFraction(fraction) + (ShowExponent(exponent) + rest)))
  {
    FourAndRest(if minus then ['-' as int] else [], whole, ShowFraction(fraction), ShowExponent(exponent), rest);
  }

  lemma FourAndRest(a: WStr, b: WStr, c: WStr, d: WStr, rest: WStr)
    ensures a + (b + (c + d)) + rest == a + (b + (c + (d + rest)))
  {
  }

  lemma SkipIs(s: WStr, s1: WStr, s2: WStr, s3: WStr, rest: WStr)
    requires s != [] && s1 == (if s[0] == '-' as int then s[1..] else s) && IsDigit(Head(s1))
    requires s2 == if s1[0] == '0' as int then s1[1..] else SkipDigits(s1)
    requires SkipFraction(s2) == Some(s3) && SkipExponent(s3) == Some(rest)
    ensures (Head(s) == '-' as int || IsDigit(Head(s))) && SkipNumber(s) == Some(rest)
  {
  }

  lemma NumeralRead(minus: bool, whole: WStr, fraction: WStr, exponent: Exponent, rest: WStr)
    requires GoodNumeral(whole, fraction, exponent) && EndsNumber(rest)
    ensures ParseValue(ShowNumeral(minus, whole, fraction, exponent) + rest)
            == Some(Parsed(Number(ShowNumeral(minus, whole, fraction, exponent)), rest))
  {
    var shown := ShowNumeral(minus, whole, fraction, exponent);
    NumeralSkipped(minus, whole, fraction, exponent, rest);
    NumberBehind(shown + rest, rest);
    assert (shown + rest)[..|shown|] == shown;
  }

  lemma NumberBehind(s: WStr, rest: WStr)
    requires (Head(s) == '-' as int || IsDigit(Head(s))) && SkipNumber(s) == Some(rest)
    ensures ParseValue(s) == Some(Parsed(Number(s[..|s| - |rest|]), rest))
  {
    NoWord(s);
    assert Head(s) == s[0] != QUOTE;
    var number := SkipNumber(s);
    assert ParseValue(s) == Some(Parsed(Number(s[..|s| - |number.value|]), number.value));
  }

  lemma NoWord(s: WStr)
    requires s != [] && s[0] < 'A' as int
    ensures !StartsWithWord(s, "true") && !StartsWithWord(s, "false") && !StartsWithWord(s, "null")
  {
    assert Lower(s[0]) == s[0];
  }

  // ----- arrays and objects -----

  /** A value starts with no space and no closing bracket. */
  lemma SynStarts(syn: Syn)
    requires Good(syn)
    ensures Show(syn) != [] && Opens(Show(syn)[0])
  {
    match syn {
      case Numeral(minus, whole, fraction, exponent) =>
        assert Show(syn)[0] == if minus then '-' as int else whole[0];
      case Word(value, letters) => assert letters[0] != SPACE;
      case _ =>
    }
  }

  lemma SpaceBefore(space: WStr, s: WStr)
    requires AllSpace(space) && s != [] && !IsSpace(s[0])
    ensures SkipSpace(space + s) == s
  {
    SpaceSkipped(space, s);
    NoSpace(s);
  }

  lemma Ends(space: WStr, c: int, tail: WStr)
    requires AllSpace(space) && c in {COMMA, RBRACKET, RBRACE}
    ensures EndsNumber(space + ([c] + tail)) && SkipSpace(space + ([c] + tail)) == [c] + tail
  {
    SpaceBefore(space, [c] + tail);
    if space != [] {
      assert (space + ([c] + tail))[0] == space[0];
    } else {
      assert space + ([c] + tail) == [c] + tail;
    }
  }

  lemma DelimitedRead<T>(item: T, space: WStr, c: int, tail: WStr, close: int)
    requires AllSpace(space) && close in {RBRACKET, RBRACE} && c in {COMMA, close}
    ensures Delimited(item, space + ([c] + tail), close) == if c == close then Last(item, tail) else More(item, tail)
  {
    Ends(space, c, tail);
    assert ([c] + tail)[1..] == tail;
  }

  lemma {:induction false} SynRead(syn: Syn, rest: WStr)
    requires Good(syn) && (syn.Numeral? ==> EndsNumber(rest))
    ensures ParseValue(Show(syn) + rest) == Some(Parsed(ValueOf(syn), rest))
    decreases syn, 1
  {
    match syn {
      case Quoted(chars) => QuotedRead(chars, rest);
      case Word(value, letters) => WordRead(value, letters, rest);
      case Numeral(minus, whole, fraction, exponent) => NumeralRead(minus, whole, fraction, exponent, rest);
      case Array(space, items) =>
        Behind(LBRACKET, if items == [] then space else ShowItems(items), RBRACKET, rest);
        if items == [] {
          NothingRead(space, RBRACKET, rest);
        } else {
          ItemsRead(items, [], rest);
          assert [] + ValuesOf(items) == ValuesOf(items);
        }
      case Object(space, entries) =>
        Behind(LBRACE, if entries == [] then space else ShowEntries(entries), RBRACE, rest);
        if entries == [] {
          NothingRead(space, RBRACE, rest);
        } else {
          EntriesRead(entries, [], rest);
        }
    }
  }

  lemma Behind(open: int, body: WStr, close: int, rest: WStr)
    requires open in {LBRACKET, LBRACE}
    ensures var s := [open] + (body + [close]) + rest;
            ParseValue(s) == if open == LBRACKET then ParseElements(body + ([close] + rest), [])
                             else ParseMembers(body + ([close] + rest), [])
  {
    var s := [open] + (body + [close]) + rest;
    ReadOpening(s);
    assert s[1..] == body + ([close] + rest);
  }

  lemma NothingRead(space: WStr, close: int, rest: WStr)
    requires AllSpace(space)
    ensures close == RBRACKET ==> ParseElements(space + ([close] + rest), []) == Some(Parsed(Arr([]), rest))
    ensures close == RBRACE ==> ParseMembers(space + ([close] + rest), []) == Some(Parsed(Obj([]), rest))
  {
    var s := space + ([close] + rest);
    assert close in {RBRACKET, RBRACE} ==> SkipSpace(s) == [close] + rest by {
      if close in {RBRACKET, RBRACE} {
        Ends(space, close, rest);
      }
    }
    assert ([close] + rest)[1..] == rest;
  }

  lemma {:induction false} ItemsRead(items: seq<Item>, done: seq<Value>, rest: WStr)
    requires GoodItems(items) && items != []
    ensures ParseElements(ShowItems(items) + ([RBRACKET] + rest), done) == Some(Parsed(Arr(done + ValuesOf(items)), rest))
    decreases items, 0, 1
  {
    var item, more := items[0], |items| > 1;
    var tail := if more then ShowItems(items[1..]) + ([RBRACKET] + rest) else rest;
    FirstItemRead(items, done, rest, tail);
    FirstValue(done, items);
    if more {
      ItemsRead(items[1..], done + [ItemValue(item)], rest);
    }
  }

  lemma {:induction false} FirstItemRead(items: seq<Item>, done: seq<Value>, rest: WStr, tail: WStr)
    requires GoodItems(items) && items != []
    requires tail == if |items| > 1 then ShowItems(items[1..]) + ([RBRACKET] + rest) else rest
    ensures ParseElements(ShowItems(items) + ([RBRACKET] + rest), done) ==
            if |items| > 1 then ParseElements(tail, done + [ItemValue(items[0])])
            else Some(Parsed(Arr(done + [ItemValue(items[0])]), tail))
    decreases items, 0, 0
  {
    var more := |items| > 1;
    ItemsText(items, rest);
    ItemRead(items[0], if more then COMMA else RBRACKET, tail, done == []);
    ElementsStep(ShowItems(items) + ([RBRACKET] + rest), done, ItemValue(items[0]), more, tail);
  }

  lemma FirstValue(done: seq<Value>, items: seq<Item>)
    requires items != []
    ensures |items| > 1 ==> done + [ItemValue(items[0])] + ValuesOf(items[1..]) == done + ValuesOf(items)
    ensures |items| == 1 ==> done + [ItemValue(items[0])] == done + ValuesOf(items)
  {
    OneByOne(done, ItemValue(items[0]), ValuesOf(items[1..]));
    if |items| == 1 {
      assert items[1..] == [];
      assert [ItemValue(items[0])] + [] == [ItemValue(items[0])];
    }
  }

  lemma OneByOne(done: seq<Value>, v: Value, more: seq<Value>)
    ensures done + [v] + more == done + ([v] + more)
  {
  }

  lemma ElementsStep(s: WStr, done: seq<Value>, v: Value, more: bool, tail: WStr)
    requires NextElement(s, done == []) == if more then More(v, tail) else Last(v, tail)
    ensures ParseElements(s, done) == if more then ParseElements(tail, done + [v]) else Some(Parsed(Arr(done + [v]), tail))
  {
  }

  lemma ItemsText(items: seq<Item>, rest: WStr)
    requires items != []
    ensures ShowItems(items) + ([RBRACKET] + rest) ==
            ShowItem(items[0]) + (if |items| > 1 then [COMMA] + (ShowItems(items[1..]) + ([RBRACKET] + rest)) else [RBRACKET] + rest)
  {
    if |items| > 1 {
      ThreeAndRest(ShowItem(items[0]), [COMMA], ShowItems(items[1..]), [RBRACKET] + rest);
    }
  }

  lemma {:induction false} ItemRead(item: Item, c: int, tail: WStr, first: bool)
    requires AllSpace(item.before) && Good(item.v) && AllSpace(item.after) && c in {COMMA, RBRACKET}
    ensures NextElement(ShowItem(item) + ([c] + tail), first) ==
            if c == RBRACKET then Last(ItemValue(item), tail) else More(ItemValue(item), tail)
    decreases item, 2
  {
    var behind := item.after + ([c] + tail);
    var s1 := Show(item.v) + behind;
    assert ShowItem(item) + ([c] + tail) == item.before + s1;
    SynStarts(item.v);
    SpaceBefore(item.before, s1);
    Ends(item.after, c, tail);
    SynRead(item.v, behind);
    DelimitedRead(ItemValue(item), item.after, c, tail, RBRACKET);
  }

  lemma {:induction false} EntriesRead(entries: seq<Entry>, done: seq<Member>, rest: WStr)
    requires GoodEntries(entries, done == []) && entries != []
    ensures ParseMembers(ShowEntries(entries) + ([RBRACE] + rest), done) == Some(Parsed(Obj(MembersOf(entries, done)), rest))
    decreases entries, 0
  {
    var e := entries[0];
    var more := |entries| > 1;
    var tail := if more then ShowEntries(entries[1..]) + ([RBRACE] + rest) else rest;
    EntriesText(entries, rest);
    EntryRead(e, if more then COMMA else RBRACE, tail, done == []);
    var next := Put(done, ChsOf(e.name), EntryValue(e));
    if more {
      EntriesRead(entries[1..], next, rest);
    } else {
      assert entries[1..] == [] && MembersOf([], next) == next;
    }
  }

  lemma EntriesText(entries: seq<Entry>, rest: WStr)
    requires entries != []
    ensures ShowEntries(entries) + ([RBRACE] + rest) ==
            ShowEntry(entries[0]) + (if |entries| > 1 then [COMMA] + (ShowEntries(entries[1..]) + ([RBRACE] + rest)) else [RBRACE] + rest)
  {
    if |entries| > 1 {
      ThreeAndRest(ShowEntry(entries[0]), [COMMA], ShowEntries(entries[1..]), [RBRACE] + rest);
    }
  }

  lemma NameRead(e: Entry, rest: WStr)
    requires GoodChs(e.name) && AllSpace(e.mid)
    ensures NextName(ShowName(e) + rest) == Some(Extracted(ChsOf(e.name), rest))
  {
    var s := ShowName(e) + rest;
    var behind := e.mid + ([COLON] + rest);
    assert s[1..] == ShowChs(e.name) + ([QUOTE] + behind);
    ChsRead(e.name, behind, []);
    assert [] + ChsOf(e.name) == ChsOf(e.name);
    SpaceBefore(e.mid, [COLON] + rest);
    assert ([COLON] + rest)[1..] == rest;
  }

  lemma EntryShown(e: Entry, rest: WStr)
    ensures ShowEntry(e) + rest == e.before + (ShowName(e) + (e.mid2 + (Show(e.v) + (e.after + rest))))
  {
    FourAndRest(e.before, ShowName(e), e.mid2, Show(e.v) + e.after, rest);
    assert Show(e.v) + e.after + rest == Show(e.v) + (e.after + rest);
  }

  lemma {:induction false} EntryRead(e: Entry, c: int, tail: WStr, first: bool)
    requires GoodEntry(e, first) && c in {COMMA, RBRACE}
    ensures var m := Member(ChsOf(e.name), EntryValue(e));
            NextMember(ShowEntry(e) + ([c] + tail), first) == if c == RBRACE then Last(m, tail) else More(m, tail)
    decreases e, 2
  {
    var behind := e.after + ([c] + tail);
    var s3 := Show(e.v) + behind;
    var s2 := e.mid2 + s3;
    var s1 := ShowName(e) + s2;
    EntryShown(e, [c] + tail);
    assert s1[0] == e.quote;
    SpaceBefore(e.before, s1);
    NameRead(e, s2);
    SynStarts(e.v);
    SpaceBefore(e.mid2, s3);
    Ends(e.after, c, tail);
    SynRead(e.v, behind);
    DelimitedRead(Member(ChsOf(e.name), EntryValue(e)), e.after, c, tail, RBRACE);
  }

  // ----- what is parsed has good syntax -----

  lemma {:induction false} SpaceSplits(s: WStr) returns (space: WStr)
    ensures AllSpace(space) && s == space + SkipSpace(s)
    decreases |s|
  {
    if s != [] && IsSpace(s[0]) {
      var more := SpaceSplits(s[1..]);
      space := [s[0]] + more;
      HeadAndTail(s);
      Reassociate([s[0]], more, SkipSpace(s));
    } else {
      space := [];
    }
  }

  lemma Reassociate(a: WStr, b: WStr, c: WStr)
    ensures a + (b + c) == a + b + c
  {
  }

  lemma HexSound(c: int) returns (h: HexDigit)
    requires HexValue(c).Some?
    ensures h.value < 16 && ShowHex(h) == c && HexValue(c) == Some(h.value)
  {
    h := HexDigit(HexValue(c).value, c <= 'F' as int);
  }

  lemma ChSound(s: WStr, str: WStr) returns (ch: Ch, rest: WStr)
    requires Extract(s, str).Some? && s != [] && s[0] != QUOTE
    ensures GoodCh(ch) && s == ShowCh(ch) + rest && Extract(s, str) == Extract(rest, str + [ChOf(ch)])
  {
    if s[0] != BACKSLASH {
      ch, rest := Raw(s[0]), s[1..];
    } else if |s| >= 2 && Unescape(s[1]).Some? {
      ch, rest := Short(s[1]), s[2..];
    } else {
      var a := HexSound(s[2]);
      var b := HexSound(s[3]);
      var c := HexSound(s[4]);
      var d := HexSound(s[5]);
      assert s[2..][..4] == [s[2], s[3], s[4], s[5]];
      ch, rest := Hex(a, b, c, d), s[6..];
    }
  }

  lemma {:induction false} ChsSound(s: WStr, str: WStr) returns (chars: seq<Ch>)
    requires Extract(s, str).Some?
    ensures GoodChs(chars)
    ensures var r := Extract(s, str).value; s == ShowChs(chars) + ([QUOTE] + r.rest) && r.str == str + ChsOf(chars)
    decreases |s|
  {
    if s[0] == QUOTE {
      chars := [];
      assert ShowChs(chars) + s == s && str + ChsOf(chars) == str;
    } else {
      var ch, rest := ChSound(s, str);
      var more := ChsSound(rest, str + [ChOf(ch)]);
      chars := JoinCh(ch, more, str);
      Reassociate(ShowCh(ch), ShowChs(more), [QUOTE] + Extract(s, str).value.rest);
    }
  }

  lemma JoinCh(ch: Ch, more: seq<Ch>, str: WStr) returns (chars: seq<Ch>)
    requires GoodCh(ch) && GoodChs(more)
    ensures GoodChs(chars) && ShowChs(chars) == ShowCh(ch) + ShowChs(more)
    ensures str + [ChOf(ch)] + ChsOf(more) == str + ChsOf(chars)
  {
    chars := [ch] + more;
    assert chars[1..] == more;
  }

  lemma WordSound(s: WStr, value: Value)
    requires (value.Null? || value.Bool?) && StartsWithWord(s, WordFor(value))
    ensures SpellsWord(s[..|WordFor(value)|], WordFor(value))
  {
    var word := WordFor(value);
    forall i | 0 <= i < |word| ensures s[i] == word[i] as int || s[i] == word[i] as int - 32 {
      assert Lower(s[i]) == Lower(word[i] as int) == word[i] as int;
    }
  }

  lemma {:induction false} DigitsSound(s: WStr)
    ensures |SkipDigits(s)| <= |s| && s == s[..|s| - |SkipDigits(s)|] + SkipDigits(s)
    ensures AllDigits(s[..|s| - |SkipDigits(s)|])
    decreases |s|
  {
    if s != [] && IsDigit(s[0]) {
      DigitsSound(s[1..]);
      var n := |s| - |SkipDigits(s)|;
      assert s[..n] == [s[0]] + s[1..][..n - 1];
    }
  }

  lemma ExponentSound(s: WStr) returns (e: Exponent)
    requires SkipExponent(s).Some?
    ensures GoodExponent(e) && s == ShowExponent(e) + SkipExponent(s).value
  {
    if Head(s) != 'E' as int && Head(s) != 'e' as int {
      e := Exponent(0, 0, []);
    } else {
      var signed := Head(s[1..]) == '-' as int || Head(s[1..]) == '+' as int;
      var s1 := if signed then s[2..] else s[1..];
      DigitsSound(s1);
      var digits := s1[..|s1| - |SkipDigits(s1)|];
      e := Exponent(s[0], if signed then s[1] else 0, digits);
      assert digits != [] by {
        assert IsDigit(Head(s1));
      }
      ExponentText(s, signed, digits, SkipDigits(s1));
    }
  }

  lemma ExponentText(s: WStr, signed: bool, digits: WStr, rest: WStr)
    requires s != [] && s[0] != 0 && (signed ==> |s| > 1 && s[1] != 0)
    requires digits + rest == if signed then s[2..] else s[1..]
    ensures s == ShowExponent(Exponent(s[0], if signed then s[1] else 0, digits)) + rest
  {
    HeadAndTail(s);
    if signed {
      HeadAndTail(s[1..]);
      assert s[1..][1..] == s[2..];
      ThreeAndRest([s[0]], [s[1]], digits, rest);
    } else {
      ThreeAndRest([s[0]], [], digits, rest);
      assert [] + (digits + rest) == digits + rest;
    }
  }

  lemma FractionSound(s: WStr) returns (fraction: WStr)
    requires SkipFraction(s).Some?
    ensures AllDigits(fraction) && s == ShowFraction(fraction) + SkipFraction(s).value
  {
    if Head(s) != '.' as int {
      fraction := [];
    } else {
      DigitsSound(s[1..]);
      fraction := s[1..][..|s[1..]| - |SkipDigits(s[1..])|];
    }
  }

  lemma WholeSound(s1: WStr) returns (whole: WStr)
    requires IsDigit(Head(s1))
    ensures AllDigits(whole) && whole != [] && (whole[0] == '0' as int ==> |whole| == 1)
    ensures s1 == whole + if s1[0] == '0' as int then s1[1..] else SkipDigits(s1)
  {
    if s1[0] == '0' as int {
      whole := [s1[0]];
    } else {
      DigitsSound(s1);
      whole := s1[..|s1| - |SkipDigits(s1)|];
    }
  }

  lemma NumeralSound(s: WStr) returns (minus: bool, whole: WStr, fraction: WStr, exponent: Exponent)
    requires (Head(s) == '-' as int || IsDigit(Head(s))) && SkipNumber(s).Some?
    ensures GoodNumeral(whole, fraction, exponent)
    ensures s == ShowNumeral(minus, whole, fraction, exponent) + SkipNumber(s).value
  {
    minus := s[0] == '-' as int;
    var s1 := if minus then s[1..] else s;
    whole := WholeSound(s1);
    var s2 := if s1[0] == '0' as int then s1[1..] else SkipDigits(s1);
    fraction := FractionSound(s2);
    exponent := ExponentSound(SkipFraction(s2).value);
    NumeralText(minus, whole, fraction, exponent, SkipNumber(s).value);
  }

  lemma {:induction false} SynSound(s: WStr) returns (syn: Syn)
    requires ParseValue(s).Some?
    ensures Good(syn) && s == Show(syn) + ParseValue(s).value.rest && ParseValue(s).value.value == ValueOf(syn)
    decreases |s|, 0
  {
    if Head(s) == QUOTE {
      syn := QuotedSyn(s);
    } else if StartsWithWord(s, "true") || StartsWithWord(s, "false") || StartsWithWord(s, "null") {
      syn := WordSyn(s);
    } else if Head(s) == '-' as int || IsDigit(Head(s)) {
      syn := NumeralSyn(s);
    } else if Head(s) == LBRACE {
      ReadOpening(s);
      var space, entries := EntriesSound(s[1..], []);
      syn := Object(space, entries);
      BehindText(s, if entries == [] then space else ShowEntries(entries), RBRACE, ParseValue(s).value.rest);
    } else {
      ReadOpening(s);
      var space, items := ItemsSound(s[1..], []);
      syn := Array(space, items);
      assert [] + ValuesOf(items) == ValuesOf(items);
      BehindText(s, if items == [] then space else ShowItems(items), RBRACKET, ParseValue(s).value.rest);
    }
  }

  lemma BehindText(s: WStr, body: WStr, close: int, rest: WStr)
    requires s != [] && s[1..] == body + ([close] + rest)
    ensures s == [s[0]] + (body + [close]) + rest
  {
    assert s == [s[0]] + s[1..];
  }

  lemma QuotedSyn(s: WStr) returns (syn: Syn)
    requires Head(s) == QUOTE && ParseValue(s).Some?
    ensures Good(syn) && s == Show(syn) + ParseValue(s).value.rest && ParseValue(s).value.value == ValueOf(syn)
  {
    assert s == [QUOTE] + s[1..];
    StringBehindQuote(s[1..]);
    var chars := ChsSound(s[1..], []);
    syn := Quoted(chars);
    assert [] + ChsOf(chars) == ChsOf(chars);
    BehindText(s, ShowChs(chars), QUOTE, ParseValue(s).value.rest);
  }

  lemma NumeralSyn(s: WStr) returns (syn: Syn)
    requires (Head(s) == '-' as int || IsDigit(Head(s))) && ParseValue(s).Some?
    ensures Good(syn) && s == Show(syn) + ParseValue(s).value.rest && ParseValue(s).value.value == ValueOf(syn)
  {
    NoWord(s);
    var rest := SkipNumber(s).value;
    NumberBehind(s, rest);
    var minus, whole, fraction, exponent := NumeralSound(s);
    var shown := ShowNumeral(minus, whole, fraction, exponent);
    syn := Numeral(minus, whole, fraction, exponent);
    assert (shown + rest)[..|shown|] == shown;
  }

  lemma WordSyn(s: WStr) returns (syn: Syn)
    requires Head(s) != QUOTE && (StartsWithWord(s, "true") || StartsWithWord(s, "false") || StartsWithWord(s, "null"))
    ensures ParseValue(s).Some?
    ensures Good(syn) && s == Show(syn) + ParseValue(s).value.rest && ParseValue(s).value.value == ValueOf(syn)
  {
    var value := if StartsWithWord(s, "true") then Bool(true) else if StartsWithWord(s, "false") then Bool(false) else Null;
    WordSound(s, value);
    syn := Word(value, s[..|WordFor(value)|]);
  }

  lemma DelimitedSound<T>(item: T, s: WStr, close: int) returns (after: WStr)
    requires !Delimited(item, s, close).Bad? && close in {RBRACKET, RBRACE}
    ensures AllSpace(after)
    ensures var t := Delimited(item, s, close);
            (t.Last? || t.More?) && t.item == item && s == after + ([if t.Last? then close else COMMA] + t.rest)
  {
    after := SpaceSplits(s);
  }

  lemma {:induction false} ItemSound(s: WStr, first: bool) returns (item: Item)
    requires var t := NextElement(s, first); t.Last? || t.More?
    ensures AllSpace(item.before) && Good(item.v) && AllSpace(item.after)
    ensures var t := NextElement(s, first);
            t.item == ItemValue(item) && s == ShowItem(item) + ([if t.Last? then RBRACKET else COMMA] + t.rest)
    decreases |s|, 1
  {
    var before := SpaceSplits(s);
    var s1 := SkipSpace(s);
    var v := SynSound(s1);
    var r := ParseValue(s1).value;
    var after := DelimitedSound(r.value, r.rest, RBRACKET);
    item := Item(before, v, after);
    ThreeAndRest(before, Show(v), after, r.rest[|after|..]);
    assert r.rest == after + r.rest[|after|..];
  }

  lemma ThreeAndRest(a: WStr, b: WStr, c: WStr, rest: WStr)
    ensures a + (b + c) + rest == a + (b + (c + rest))
  {
  }

  lemma {:induction false} ItemsSound(s: WStr, done: seq<Value>) returns (space: WStr, items: seq<Item>)
    requires ParseElements(s, done).Some?
    ensures AllSpace(space) && GoodItems(items) && (done != [] ==> items != [])
    ensures var r := ParseElements(s, done).value;
            && s == (if items == [] then space else ShowItems(items)) + ([RBRACKET] + r.rest)
            && r.value == Arr(done + ValuesOf(items))
    decreases |s|, 2
  {
    space := [];
    var t := NextElement(s, done == []);
    match t {
      case Empty(rest) =>
        space := SpaceSplits(s);
        items := [];
        assert done + ValuesOf(items) == done;
      case Last(v, rest) =>
        var item := ItemSound(s, done == []);
        items := OneItem(item);
      case More(v, rest) =>
        var item := ItemSound(s, done == []);
        var _, more := ItemsSound(rest, done + [v]);
        items := JoinItem(item, more, s, ParseElements(s, done).value.rest, done);
    }
  }

  lemma OneItem(item: Item) returns (items: seq<Item>)
    requires AllSpace(item.before) && Good(item.v) && AllSpace(item.after)
    ensures items != [] && GoodItems(items) && ShowItems(items) == ShowItem(item) && ValuesOf(items) == [ItemValue(item)]
  {
    items := [item];
    assert items[1..] == [];
  }

  lemma JoinItem(item: Item, more: seq<Item>, s: WStr, rest: WStr, done: seq<Value>) returns (items: seq<Item>)
    requires AllSpace(item.before) && Good(item.v) && AllSpace(item.after) && GoodItems(more) && more != []
    requires s == ShowItem(item) + ([COMMA] + (ShowItems(more) + ([RBRACKET] + rest)))
    ensures items != [] && GoodItems(items) && s == ShowItems(items) + ([RBRACKET] + rest)
    ensures done + [ItemValue(item)] + ValuesOf(more) == done + ValuesOf(items)
  {
    items := [item] + more;
    assert items[1..] == more;
    ItemsText(items, rest);
  }

  lemma NameSound(s: WStr) returns (name: seq<Ch>, mid: WStr)
    requires s != [] && NextName(s).Some?
    ensures GoodChs(name) && AllSpace(mid)
    ensures var r := NextName(s).value;
            s == [s[0]] + (ShowChs(name) + ([QUOTE] + (mid + ([COLON] + r.rest)))) && r.str == ChsOf(name)
  {
    name := ChsSound(s[1..], []);
    var behind := Extract(s[1..], []).value.rest;
    mid := SpaceSplits(behind);
    assert [] + ChsOf(name) == ChsOf(name);
    var s1 := SkipSpace(behind);
    assert s1 == [COLON] + s1[1..];
    HeadAndTail(s);
  }

  lemma HeadAndTail(s: WStr)
    requires s != []
    ensures s == [s[0]] + s[1..]
  {
  }

  lemma {:induction false} EntrySound(s: WStr, first: bool) returns (e: Entry)
    requires var t := NextMember(s, first); t.Last? || t.More?
    ensures GoodEntry(e, first)
    ensures var t := NextMember(s, first);
            && t.item == Member(ChsOf(e.name), EntryValue(e))
            && s == ShowEntry(e) + ([if t.Last? then RBRACE else COMMA] + t.rest)
    decreases |s|, 1
  {
    var before := SpaceSplits(s);
    var s1 := SkipSpace(s);
    var name, mid := NameSound(s1);
    var r1 := NextName(s1).value;
    var mid2 := SpaceSplits(r1.rest);
    var s2 := SkipSpace(r1.rest);
    var v := SynSound(s2);
    var r := ParseValue(s2).value;
    var after := DelimitedSound(Member(r1.str, r.value), r.rest, RBRACE);
    e := Entry(before, s1[0], name, mid, mid2, v, after);
    EntryText(e, s, s1, r1.rest, s2, r.rest);
  }

  lemma EntryText(e: Entry, s: WStr, s1: WStr, s2: WStr, s3: WStr, s4: WStr)
    requires s == e.before + s1 && s1 == [e.quote] + (ShowChs(e.name) + ([QUOTE] + (e.mid + ([COLON] + s2))))
    requires s2 == e.mid2 + s3 && s3 == Show(e.v) + s4 && e.after <= s4
    ensures s == ShowEntry(e) + s4[|e.after|..]
  {
    var rest := s4[|e.after|..];
    assert s4 == e.after + rest;
    FourAndRest([e.quote], ShowChs(e.name), [QUOTE], e.mid + [COLON], s2);
    assert e.mid + [COLON] + s2 == e.mid + ([COLON] + s2);
    ThreeAndRest(e.mid2, Show(e.v), e.after, rest);
    ThreeAndRest(e.before, ShowName(e), e.mid2 + (Show(e.v) + e.after), rest);
  }

  lemma {:induction false} EntriesSound(s: WStr, done: seq<Member>) returns (space: WStr, entries: seq<Entry>)
    requires ParseMembers(s, done).Some?
    ensures AllSpace(space) && GoodEntries(entries, done == []) && (done != [] ==> entries != [])
    ensures var r := ParseMembers(s, done).value;
            && s == (if entries == [] then space else ShowEntries(entries)) + ([RBRACE] + r.rest)
            && r.value == Obj(MembersOf(entries, done))
    decreases |s|, 2
  {
    space := [];
    var t := NextMember(s, done == []);
    match t {
      case Empty(rest) =>
        space := SpaceSplits(s);
        entries := [];
      case Last(m, rest) =>
        var e := EntrySound(s, done == []);
        entries := OneEntry(e, done);
      case More(m, rest) =>
        var e := EntrySound(s, done == []);
        var _, more := EntriesSound(rest, Put(done, m.key, m.value));
        entries := JoinEntry(e, more, s, ParseMembers(s, done).value.rest, done);
    }
  }

  lemma OneEntry(e: Entry, done: seq<Member>) returns (entries: seq<Entry>)
    requires GoodEntry(e, done == [])
    ensures entries != [] && GoodEntries(entries, done == []) && ShowEntries(entries) == ShowEntry(e)
    ensures MembersOf(entries, done) == Put(done, ChsOf(e.name), EntryValue(e))
  {
    entries := [e];
    assert entries[1..] == [];
  }

  lemma JoinEntry(e: Entry, more: seq<Entry>, s: WStr, rest: WStr, done: seq<Member>) returns (entries: seq<Entry>)
    requires GoodEntry(e, done == []) && GoodEntries(more, false) && more != []
    requires s == ShowEntry(e) + ([COMMA] + (ShowEntries(more) + ([RBRACE] + rest)))
    ensures entries != [] && GoodEntries(entries, done == []) && s == ShowEntries(entries) + ([RBRACE] + rest)
    ensures MembersOf(entries, done) == MembersOf(more, Put(done, ChsOf(e.name), EntryValue(e)))
  {
    entries := [e] + more;
    assert entries[1..] == more;
    EntriesText(entries, rest);
  }

  // ----- the main result -----

  /** A text of the grammar, with white space around it. */
  predicate Writes(s: WStr, before: WStr, syn: Syn, after: WStr) {
    AllSpace(before) && Good(syn) && AllSpace(after) && s == before + (Show(syn) + after)
  }

  /** The parser accepts exactly the texts of the grammar, and gives each its value. */
  lemma ParseIffGrammar(s: WStr)
    ensures Parse(s).Some? <==> exists before, syn, after :: Writes(s, before, syn, after)
    ensures forall before, syn, after | Writes(s, before, syn, after) :: Parse(s) == Some(ValueOf(syn))
  {
    if Parse(s).Some? {
      var before := SpaceSplits(s);
      var syn := SynSound(SkipSpace(s));
      var rest := ParseValue(SkipSpace(s)).value.rest;
      var after := SpaceSplits(rest);
      assert after + [] == after;
      assert Writes(s, before, syn, after);
    }
    forall before, syn, after | Writes(s, before, syn, after) ensures Parse(s) == Some(ValueOf(syn)) {
      WrittenIsParsed(s, before, syn, after);
    }
  }

  lemma WrittenIsParsed(s: WStr, before: WStr, syn: Syn, after: WStr)
    requires Writes(s, before, syn, after)
    ensures Parse(s) == Some(ValueOf(syn))
  {
    SynStarts(syn);
    SpaceBefore(before, Show(syn) + after);
    SynRead(syn, after);
    SpaceSkipped(after, []);
    assert after + [] == after;
  }

  // ----- repeated names -----

  /** The value under a key, if there is one. */
  function Lookup(members: seq<Member>, key: WStr): Option<Value> {
    if members == [] then None else if members[0].key == key then Some(members[0].value) else Lookup(members[1..], key)
  }

  /** The order of the keys: at the first difference the smaller character decides, and a prefix comes first. */
  lemma {:induction false} LessIff(a: WStr, b: WStr)
    ensures Less(a, b) <==>
            exists k :: 0 <= k <= |a| && k < |b| && a[..k] == b[..k] && (k == |a| || a[k] < b[k])
    decreases |a|
  {
    if a == [] || b == [] {
      assert b != [] ==> a[..0] == b[..0];
    } else {
      LessIff(a[1..], b[1..]);
      if k :| 0 <= k <= |a[1..]| && k < |b[1..]| && a[1..][..k] == b[1..][..k] && (k == |a[1..]| || a[1..][k] < b[1..][k]) {
        FirstDifference(a, b, k);
      }
      if k :| 0 <= k <= |a| && k < |b| && a[..k] == b[..k] && (k == |a| || a[k] < b[k]) {
        assert a[..0] == b[..0];
        if k > 0 {
          assert a[..k][0] == a[0] && b[..k][0] == b[0];
          assert a[1..][..k - 1] == a[..k][1..] && b[1..][..k - 1] == b[..k][1..];
        }
      }
    }
  }

  lemma FirstDifference(a: WStr, b: WStr, k: nat)
    requires a != [] && b != [] && k <= |a[1..]| && k < |b[1..]| && a[1..][..k] == b[1..][..k]
    ensures a[0] == b[0] ==> a[..k + 1] == b[..k + 1]
  {
    assert a[..k + 1] == [a[0]] + a[1..][..k] && b[..k + 1] == [b[0]] + b[1..][..k];
  }

  lemma {:induction false} LessTotal(a: WStr, b: WStr)
    ensures a == b || Less(a, b) || Less(b, a)
    decreases |a|
  {
    if a != [] && b != [] && a[0] == b[0] {
      LessTotal(a[1..], b[1..]);
      assert a == [a[0]] + a[1..] && b == [b[0]] + b[1..];
    }
  }

  lemma {:induction false} LessTransitive(a: WStr, b: WStr, c: WStr)
    requires Less(a, b) && Less(b, c)
    ensures Less(a, c)
    decreases |b|
  {
    if a != [] && a[0] == b[0] && b[0] == c[0] {
      LessTransitive(a[1..], b[1..], c[1..]);
    }
  }

  lemma {:induction false} LookupBelow(members: seq<Member>, key: WStr)
    requires forall i :: 0 <= i < |members| ==> Less(key, members[i].key)
    ensures Lookup(members, key) == None
    decreases |members|
  {
    if members != [] {
      LessAsymmetric(key, members[0].key);
      LookupBelow(members[1..], key);
    }
  }

  lemma {:induction false} PutKeys(members: seq<Member>, key: WStr, value: Value)
    ensures forall m <- Put(members, key, value) :: m.key == key || exists i :: 0 <= i < |members| && members[i].key == m.key
    decreases |members|
  {
    if members != [] && !Less(key, members[0].key) && members[0].key != key {
      var rest := members[1..];
      PutKeys(rest, key, value);
      forall m <- Put(members, key, value) ensures m.key == key || exists i :: 0 <= i < |members| && members[i].key == m.key {
        if m == members[0] {
          assert members[0].key == m.key;
        } else if m.key != key {
          var i :| 0 <= i < |rest| && rest[i].key == m.key;
          assert members[i + 1].key == m.key;
        }
      }
    } else {
      forall m <- Put(members, key, value) ensures m.key == key || exists i :: 0 <= i < |members| && members[i].key == m.key {
        if m.key != key {
          var i :| 0 <= i < |members| && members[i] == m;
        }
      }
    }
  }

  /** Setting a member keeps the keys in order, replaces the value under its key, and leaves the others. */
  lemma {:induction false} PutSets(members: seq<Member>, key: WStr, value: Value, other: WStr)
    requires Ascending(members)
    ensures Ascending(Put(members, key, value))
    ensures Lookup(Put(members, key, value), other) == if other == key then Some(value) else Lookup(members, other)
    decreases |members|
  {
    if members == [] {
    } else if Less(key, members[0].key) {
      PutFront(members, Member(key, value));
    } else if members[0].key == key {
      assert Put(members, key, value)[1..] == members[1..];
    } else {
      LessTotal(key, members[0].key);
      PutSets(members[1..], key, value, other);
      PutBehind(members, key, value);
    }
  }

  lemma PutFront(members: seq<Member>, m: Member)
    requires Ascending(members) && members != [] && Less(m.key, members[0].key)
    ensures Ascending([m] + members) && ([m] + members)[1..] == members
  {
    var r := [m] + members;
    forall i, j | 0 <= i < j < |r| ensures Less(r[i].key, r[j].key) {
      if i == 0 && j > 1 {
        LessTransitive(m.key, members[0].key, members[j - 1].key);
      }
    }
  }

  lemma PutBehind(members: seq<Member>, key: WStr, value: Value)
    requires Ascending(members) && members != [] && Less(members[0].key, key) && Ascending(Put(members[1..], key, value))
    ensures Ascending([members[0]] + Put(members[1..], key, value))
    ensures ([members[0]] + Put(members[1..], key, value))[1..] == Put(members[1..], key, value)
  {
    var rest := members[1..];
    var tail := Put(rest, key, value);
    PutKeys(rest, key, value);
    var r := [members[0]] + tail;
    forall i, j | 0 <= i < j < |r| ensures Less(r[i].key, r[j].key) {
      if i == 0 {
        assert r[j] in tail;
        if r[j].key != key {
          var k :| 0 <= k < |rest| && rest[k].key == r[j].key;
          assert Less(members[0].key, members[k + 1].key);
        }
      }
    }
  }

  /** An object's members are in order, and the last of several entries with one name gives its value. */
  lemma {:induction false} LastEntryWins(entries: seq<Entry>, done: seq<Member>, key: WStr)
    requires Ascending(done)
    ensures Ascending(MembersOf(entries, done))
    ensures Lookup(MembersOf(entries, done), key) ==
            if Names(entries, key) then Some(EntryValue(entries[LastWith(entries, key)])) else Lookup(done, key)
    decreases |entries|
  {
    if entries != [] {
      var e, rest := entries[0], entries[1..];
      PutSets(done, ChsOf(e.name), EntryValue(e), key);
      LastEntryWins(rest, Put(done, ChsOf(e.name), EntryValue(e)), key);
      NamesStep(entries, key);
    }
  }

  /** Some entry has this name. */
  predicate Names(entries: seq<Entry>, key: WStr) { exists i :: 0 <= i < |entries| && ChsOf(entries[i].name) == key }

  lemma NamesStep(entries: seq<Entry>, key: WStr)
    requires entries != []
    ensures Names(entries, key) <==> ChsOf(entries[0].name) == key || Names(entries[1..], key)
  {
    var rest := entries[1..];
    if i :| 0 <= i < |rest| && ChsOf(rest[i].name) == key {
      assert ChsOf(entries[i + 1].name) == key;
    }
    if i :| 0 <= i < |entries| && ChsOf(entries[i].name) == key {
      assert i > 0 ==> ChsOf(rest[i - 1].name) == key;
    }
  }

  /** The last entry with a name. */
  function LastWith(entries: seq<Entry>, key: WStr): (r: nat)
    requires Names(entries, key)
    ensures r < |entries| && ChsOf(entries[r].name) == key
    ensures forall j :: r < j < |entries| ==> ChsOf(entries[j].name) != key
    decreases |entries|
  {
    NamesStep(entries, key);
    var rest := entries[1..];
    if Names(rest, key) then
      var r := LastWith(rest, key);
      assert forall j :: r + 1 < j < |entries| ==> entries[j] == rest[j - 1];
      r + 1
    else
      assert forall j :: 0 < j < |entries| ==> entries[j] == rest[j - 1];
      0
  }
}
