/**
 The backtracking matcher of xframe/comserv/cregexpele.C.

 Characters are C `char` values as integers. `mem` is the memory the string iterators walk over:
 the text lies at [0, end), its terminating 0 at `end`, and anything at all lies beyond.
 */
module RegExp {

  type Mem = int -> int

  datatype Item = Item(begin: int, end: int)

  datatype Kind = Exact(c: int) | AnyOne | Group(reversed: bool, items: seq<Item>)

  datatype Element = Element(kind: Kind, minimum: nat, maximum: nat)

  predicate InItem(item: Item, ch: int) { item.begin <= ch <= item.end }

  predicate Accepts(kind: Kind, ch: int) {
    match kind
    case Exact(c) => ch == c
    case AnyOne => true
    case Group(reversed, items) => (exists item <- items :: InItem(item, ch)) != reversed
  }

  /** match_component: the loop over m_componentList. */
  method MatchComponent(reversed: bool, items: seq<Item>, ch: int) returns (found: bool)
    ensures found == Accepts(Group(reversed, items), ch)
  {
    found := false;
    var i := 0;
    while i < |items| && !found
      invariant 0 <= i <= |items|
      invariant found <==> exists j :: 0 <= j < i && InItem(items[j], ch)
    {
      found := InItem(items[i], ch);
      i := i + 1;
    }
    assert found ==> exists item <- items :: InItem(item, ch);
    assert (exists item <- items :: InItem(item, ch)) ==> found by {
      if item :| item in items && InItem(item, ch) {
        var j :| 0 <= j < |items| && items[j] == item;
      }
    }
    if reversed {
      found := !found;
    }
  }

  datatype MResult = Certain | CertainNot | UnCertain

  datatype Front = Front(result: MResult, begin: int)

  function Max(a: int, b: int): int { if a < b then b else a }

  predicate AllAccepted(kind: Kind, mem: Mem, from: int, to: int) {
    forall k :: from <= k < to ==> Accepts(kind, mem(k))
  }

  /** How many characters the loop of match_front wants, capped by the maximum. */
  function Wanted(e: Element, begin: int, target: int): int {
    var n := Max(e.minimum, target - begin);
    if n < e.maximum then n else e.maximum
  }

  /** What match_front answers. */
  ghost function MatchesFront(e: Element, mem: Mem, end: int, begin: int, target: int): Front {
    if e.kind.AnyOne? then
      if target - begin == e.maximum then Front(Certain, target)
      else if target - begin < e.maximum && end - begin >= e.minimum then
        Front(UnCertain, Max(begin + e.minimum, target))
      else Front(CertainNot, begin)
    else if target - begin <= e.maximum && end - begin >= e.minimum then
      var n := Wanted(e, begin, target);
      if !AllAccepted(e.kind, mem, begin, begin + n) then Front(CertainNot, begin)
      else Front(if n == e.maximum && target == begin + n then Certain else UnCertain, begin + n)
    else Front(CertainNot, begin)
  }

  method AcceptsOne(kind: Kind, ch: int) returns (ok: bool)
    requires !kind.AnyOne?
    ensures ok == Accepts(kind, ch)
  {
    match kind {
      case Exact(c) => ok := ch == c;
      case Group(reversed, items) => ok := MatchComponent(reversed, items, ch);
    }
  }

  /** match_front of the three kinds; `high` is the highest index it dereferences, if above `low`. */
  method MatchFront(e: Element, mem: Mem, end: int, begin0: int, target: int, low: int)
    returns (result: MResult, begin: int, high: int)
    requires target >= begin0
    ensures result == MatchesFront(e, mem, end, begin0, target).result
    ensures result != CertainNot ==> begin == MatchesFront(e, mem, end, begin0, target).begin
    ensures mem(end) == 0 && (e.kind.AnyOne? || !Accepts(e.kind, 0)) && low <= end ==> high <= end
  {
    begin, high := begin0, low;
    if e.kind.AnyOne? {
      if target - begin == e.maximum {
        return Certain, target, high;
      } else if target - begin < e.maximum && end - begin >= e.minimum {
        if begin + e.minimum > target {
          begin := begin + e.minimum;
        } else {
          begin := target;
        }
        return UnCertain, begin, high;
      }
      return CertainNot, begin, high;
    }
    if !(target - begin <= e.maximum && end - begin >= e.minimum) {
      return CertainNot, begin, high;
    }
    var passed := 0;
    while (target > begin || passed < e.minimum) && passed < e.maximum
      invariant 0 <= passed <= Max(0, Wanted(e, begin0, target)) && begin == begin0 + passed
      invariant AllAccepted(e.kind, mem, begin0, begin)
      invariant mem(end) == 0 && !Accepts(e.kind, 0) && low <= end ==> high <= end && begin <= end
      decreases e.maximum - passed
    {
      high := Max(high, begin);
      var ok := AcceptsOne(e.kind, mem(begin));
      if !ok {
        assert !AllAccepted(e.kind, mem, begin0, begin0 + Wanted(e, begin0, target));
        return CertainNot, begin, high;
      }
      begin := begin + 1;
      passed := passed + 1;
    }
    if passed == e.maximum && target > begin {
      result := CertainNot;
    } else if passed == e.maximum && target == begin {
      result := Certain;
    } else {
      result := UnCertain;
    }
  }

  /** The search match_impl performs for the elements `es`, standing at `begin` with the current `target`. */
  ghost function Search(mem: Mem, end: int, es: seq<Element>, begin: int, target: int): bool
    requires target >= begin
    decreases |es|, if es == [] then 0 else Max(0, es[0].maximum + 1 - (target - begin))
  {
    if es == [] then begin == end
    else
      var f := MatchesFront(es[0], mem, end, begin, target);
      match f.result
      case Certain => Search(mem, end, es[1..], f.begin, f.begin)
      case CertainNot => false
      case UnCertain => Search(mem, end, es[1..], f.begin, f.begin) || Search(mem, end, es, begin, target + 1)
  }

  predicate ZeroFree(es: seq<Element>) {
    forall e <- es :: e.kind.AnyOne? || !Accepts(e.kind, 0)
  }

  /** match_impl: the loop over elements, recursing on every uncertain answer. */
  method MatchImpl(mem: Mem, end: int, es: seq<Element>, begin: int, low: int) returns (matched: bool, high: int)
    ensures matched == Search(mem, end, es, begin, begin)
    ensures mem(end) == 0 && ZeroFree(es) && low <= end ==> high <= end
    decreases |es|
  {
    high := low;
    var objBCur, objItTemp, target, i := begin, begin, begin, 0;
    while i < |es|
      invariant 0 <= i <= |es| && objItTemp == objBCur <= target
      invariant Search(mem, end, es[i..], objBCur, target) == Search(mem, end, es, begin, begin)
      invariant mem(end) == 0 && ZeroFree(es) && low <= end ==> high <= end
      decreases |es| - i, if i == |es| then 0 else Max(0, es[i].maximum + 1 - (target - objBCur))
    {
      assert es[i..][0] == es[i] && es[i..][1..] == es[i + 1..];
      var result;
      result, objItTemp, high := MatchFront(es[i], mem, end, objItTemp, target, high);
      match result {
        case Certain =>
          objBCur := objItTemp;
          target := objBCur;
          i := i + 1;
        case CertainNot =>
          return false, high;
        case UnCertain =>
          matched, high := MatchImpl(mem, end, es[i + 1..], objItTemp, high);
          if matched {
            return true, high;
          }
          objItTemp := objBCur;
          target := target + 1;
      }
    }
    matched := objBCur == end;
  }

  // ----- the declarative meaning -----

  /** Piece [from, to) of the text is one that the element matches. */
  predicate Piece(e: Element, mem: Mem, from: int, to: int) {
    e.minimum <= to - from <= e.maximum && AllAccepted(e.kind, mem, from, to)
  }

  /** The positions `cuts` split [begin, end) into one consecutive piece per element. */
  predicate SplitAt(mem: Mem, end: int, es: seq<Element>, begin: int, cuts: seq<int>) {
    && |cuts| == |es| + 1 && cuts[0] == begin && cuts[|es|] == end
    && forall i :: 0 <= i < |es| ==> Piece(es[i], mem, cuts[i], cuts[i + 1])
  }

  ghost predicate Splits(mem: Mem, end: int, es: seq<Element>, begin: int) {
    exists cuts :: SplitAt(mem, end, es, begin, cuts)
  }

  ghost predicate SplitsAfter(mem: Mem, end: int, es: seq<Element>, begin: int, n: int)
    requires es != []
  {
    Piece(es[0], mem, begin, begin + n) && Splits(mem, end, es[1..], begin + n)
  }

  lemma {:induction false} CutsAscend(mem: Mem, end: int, es: seq<Element>, begin: int, cuts: seq<int>)
    requires SplitAt(mem, end, es, begin, cuts)
    ensures begin <= end
    decreases |es|
  {
    if es != [] {
      assert SplitAt(mem, end, es[1..], cuts[1], cuts[1..]);
      CutsAscend(mem, end, es[1..], cuts[1], cuts[1..]);
    }
  }

  /** A split begins with one piece for the first element. */
  lemma SplitsStep(mem: Mem, end: int, es: seq<Element>, begin: int)
    requires es != []
    ensures Splits(mem, end, es, begin) <==> exists n :: SplitsAfter(mem, end, es, begin, n)
  {
    if cuts :| SplitAt(mem, end, es, begin, cuts) {
      assert SplitAt(mem, end, es[1..], cuts[1], cuts[1..]);
      assert SplitsAfter(mem, end, es, begin, cuts[1] - begin);
    }
    if n :| SplitsAfter(mem, end, es, begin, n) {
      var rest :| SplitAt(mem, end, es[1..], begin + n, rest);
      assert SplitAt(mem, end, es, begin, [begin] + rest);
    }
  }

  lemma SplitsNowhere(mem: Mem, end: int, es: seq<Element>, begin: int)
    requires begin > end
    ensures !Splits(mem, end, es, begin)
  {
    if cuts :| SplitAt(mem, end, es, begin, cuts) {
      CutsAscend(mem, end, es, begin, cuts);
    }
  }

  predicate Ranged(es: seq<Element>) { forall e <- es :: e.minimum <= e.maximum }

  /** Some first piece at least as long as the current target allows leads to a split. */
  ghost predicate SplitsFrom(mem: Mem, end: int, es: seq<Element>, begin: int, target: int)
    requires es != []
  {
    exists n :: n >= target - begin && SplitsAfter(mem, end, es, begin, n)
  }

  /** The search from a given target finds exactly the splits whose first piece reaches that target. */
  lemma {:induction false} SearchFrom(mem: Mem, end: int, es: seq<Element>, begin: int, target: int)
    requires es != [] && Ranged(es) && target >= begin
    ensures Search(mem, end, es, begin, target) <==> SplitsFrom(mem, end, es, begin, target)
    decreases |es|, Max(0, es[0].maximum + 1 - (target - begin))
  {
    var e, f := es[0], MatchesFront(es[0], mem, end, begin, target);
    if f.result == CertainNot {
      forall n | n >= target - begin && SplitsAfter(mem, end, es, begin, n) ensures false {
        NoSplitBeyond(mem, end, es, begin, n);
      }
    } else {
      SearchAll(mem, end, es[1..], f.begin);
      var n0 := f.begin - begin;
      if Splits(mem, end, es[1..], f.begin) {
        if f.begin > end {
          SplitsNowhere(mem, end, es[1..], f.begin);
        }
        assert SplitsAfter(mem, end, es, begin, n0);
      }
      if f.result == UnCertain {
        SearchFrom(mem, end, es, begin, target + 1);
        forall n | n >= target - begin && SplitsAfter(mem, end, es, begin, n) && n < target + 1 - begin
          ensures Splits(mem, end, es[1..], f.begin)
        {
          assert n == n0;
        }
      }
    }
  }

  /** No piece runs past the end of the text. */
  lemma NoSplitBeyond(mem: Mem, end: int, es: seq<Element>, begin: int, n: int)
    requires es != [] && SplitsAfter(mem, end, es, begin, n)
    ensures begin + n <= end
  {
    if begin + n > end {
      SplitsNowhere(mem, end, es[1..], begin + n);
    }
  }

  /** match_impl returns true exactly when the text splits into pieces its elements match. */
  lemma {:induction false} SearchAll(mem: Mem, end: int, es: seq<Element>, begin: int)
    requires Ranged(es)
    ensures Search(mem, end, es, begin, begin) <==> Splits(mem, end, es, begin)
    decreases |es|
  {
    if es == [] {
      assert begin == end ==> SplitAt(mem, end, es, begin, [begin]);
    } else {
      SearchFrom(mem, end, es, begin, begin);
      SplitsStep(mem, end, es, begin);
    }
  }

  /** The memory holds the text followed by its terminating 0. */
  ghost predicate Holds(mem: Mem, text: seq<int>) {
    (forall i :: 0 <= i < |text| ==> mem(i) == text[i]) && mem(|text|) == 0
  }

  ghost predicate Concatenates(pieces: seq<seq<int>>, text: seq<int>)
    decreases |pieces|
  {
    if pieces == [] then text == []
    else pieces[0] <= text && Concatenates(pieces[1..], text[|pieces[0]|..])
  }

  /** The text is a concatenation of pieces, the i-th accepted by element i. */
  ghost predicate TextSplits(text: seq<int>, es: seq<Element>) {
    exists pieces: seq<seq<int>> :: PiecesMatch(pieces, es) && Concatenates(pieces, text)
  }

  ghost predicate PiecesMatch(pieces: seq<seq<int>>, es: seq<Element>) {
    && |pieces| == |es|
    && forall i :: 0 <= i < |es| ==>
         && es[i].minimum <= |pieces[i]| <= es[i].maximum
         && forall ch <- pieces[i] :: Accepts(es[i].kind, ch)
  }

  lemma {:induction false} CutsToPieces(mem: Mem, text: seq<int>, es: seq<Element>, begin: nat, cuts: seq<int>)
    returns (pieces: seq<seq<int>>)
    requires Holds(mem, text) && begin <= |text| && SplitAt(mem, |text|, es, begin, cuts)
    ensures PiecesMatch(pieces, es) && Concatenates(pieces, text[begin..])
    decreases |es|
  {
    if es == [] {
      pieces := [];
    } else {
      assert SplitAt(mem, |text|, es[1..], cuts[1], cuts[1..]);
      CutsAscend(mem, |text|, es[1..], cuts[1], cuts[1..]);
      var rest := CutsToPieces(mem, text, es[1..], cuts[1], cuts[1..]);
      pieces := [text[begin..cuts[1]]] + rest;
      assert pieces[1..] == rest && text[begin..][|pieces[0]|..] == text[cuts[1]..];
      assert pieces[0] <= text[begin..];
    }
  }

  lemma {:induction false} PiecesToCuts(mem: Mem, text: seq<int>, es: seq<Element>, begin: nat, pieces: seq<seq<int>>)
    requires Holds(mem, text) && begin <= |text| && PiecesMatch(pieces, es) && Concatenates(pieces, text[begin..])
    ensures Splits(mem, |text|, es, begin)
    decreases |es|
  {
    if es == [] {
      assert SplitAt(mem, |text|, es, begin, [begin]);
    } else {
      var next := begin + |pieces[0]|;
      assert text[begin..][|pieces[0]|..] == text[next..];
      PiecesToCuts(mem, text, es[1..], next, pieces[1..]);
      forall k | begin <= k < next ensures Accepts(es[0].kind, mem(k)) {
        assert mem(k) == text[begin..][k - begin] == pieces[0][k - begin];
      }
      assert SplitsAfter(mem, |text|, es, begin, next - begin);
      SplitsStep(mem, |text|, es, begin);
    }
  }

  lemma SplitsIsTextSplits(mem: Mem, text: seq<int>, es: seq<Element>)
    requires Holds(mem, text)
    ensures Splits(mem, |text|, es, 0) <==> TextSplits(text, es)
  {
    assert text[0..] == text;
    if cuts :| SplitAt(mem, |text|, es, 0, cuts) {
      var pieces := CutsToPieces(mem, text, es, 0, cuts);
    }
    if pieces :| PiecesMatch(pieces, es) && Concatenates(pieces, text) {
      PiecesToCuts(mem, text, es, 0, pieces);
    }
  }

  /**
   CRegExpEleRoot::match on a text in memory. It is right for every text and every element list whose
   ranges are not empty, whatever lies behind the text; and if no element accepts the character 0
   it reads nothing behind the terminator.
   */
  method Match(mem: Mem, ghost text: seq<int>, end: nat, es: seq<Element>) returns (matched: bool, high: int)
    requires Holds(mem, text) && end == |text| && Ranged(es)
    ensures matched <==> TextSplits(text, es)
    ensures ZeroFree(es) ==> high <= end
  {
    matched, high := MatchImpl(mem, end, es, 0, 0);
    SearchAll(mem, end, es, 0);
    SplitsIsTextSplits(mem, text, es);
  }

  // ----- empty ranges, such as \\{20000,\\} whose maximum is MAX_COUNT -----

  /**
   An element whose minimum exceeds its maximum can match no piece at all, yet the search accepts
   it in some context, once the first `maximum` characters are accepted.
   */
  lemma EmptyRangeIsAccepted(e: Element, mem: Mem)
    requires e.minimum > e.maximum
    requires AllAccepted(e.kind, mem, 0, e.maximum)
    ensures var es := [e, Element(AnyOne, 0, e.minimum)];
            Search(mem, e.minimum, es, 0, 0) && !Splits(mem, e.minimum, es, 0)
  {
    var end := e.minimum;
    var rest := [Element(AnyOne, 0, end)];
    var es := [e, Element(AnyOne, 0, end)];
    assert es[1..] == rest;
    var f := MatchesFront(e, mem, end, 0, 0);
    assert f.result != CertainNot && 0 <= f.begin <= end;
    assert SplitAt(mem, end, rest, f.begin, [f.begin, end]);
    SearchAll(mem, end, rest, f.begin);
    SplitsStep(mem, end, es, 0);
  }

  /** An element that wants a character and accepts none is rejected whatever its range. */
  ghost predicate AcceptsNothing(e: Element) { e.maximum > 0 && forall ch :: !Accepts(e.kind, ch) }

  lemma NothingIsRejected(e: Element, mem: Mem, end: int, rest: seq<Element>)
    requires e.minimum > e.maximum && AcceptsNothing(e)
    ensures !Search(mem, end, [e] + rest, 0, 0) && !Splits(mem, end, [e] + rest, 0)
  {
    var es := [e] + rest;
    assert !Accepts(e.kind, mem(0));
    assert MatchesFront(e, mem, end, 0, 0).result == CertainNot;
    SplitsStep(mem, end, es, 0);
  }

  /** Every element is matched rightly in every context iff its range is not empty or it accepts nothing. */
  lemma FaithfulIffRanged(e: Element)
    ensures e.minimum <= e.maximum || AcceptsNothing(e) <==>
            forall mem: Mem, end: int, rest: seq<Element> | Ranged(rest) ::
              Search(mem, end, [e] + rest, 0, 0) <==> Splits(mem, end, [e] + rest, 0)
  {
    if e.minimum <= e.maximum || AcceptsNothing(e) {
      forall mem: Mem, end: int, rest: seq<Element> | Ranged(rest)
        ensures Search(mem, end, [e] + rest, 0, 0) <==> Splits(mem, end, [e] + rest, 0)
      {
        if e.minimum <= e.maximum {
          SearchAll(mem, end, [e] + rest, 0);
        } else {
          NothingIsRejected(e, mem, end, rest);
        }
      }
    } else {
      var ch :| e.maximum > 0 ==> Accepts(e.kind, ch);
      EmptyRangeIsAccepted(e, _ => ch);
      assert [e] + [Element(AnyOne, 0, e.minimum)] == [e, Element(AnyOne, 0, e.minimum)];
      assert Ranged([Element(AnyOne, 0, e.minimum)]);
    }
  }
}
