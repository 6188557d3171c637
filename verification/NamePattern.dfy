/** The fragment of Go's regexp syntax and semantics the naming rules use:
    (?i), ^, $, bracketed classes with ranges and escapes, and the * and + repeats. */
module NamePattern {
  import opened Common
  import opened Ascii

  datatype Range = Range(lo: char, hi: char)

  datatype Repeat = One | Star | Plus

  datatype Item = Item(ranges: seq<Range>, repeat: Repeat)

  /** An anchored pattern; fold is the (?i) flag. */
  datatype Pattern = Pattern(fold: bool, items: seq<Item>)

  // --- meaning ---

  predicate InRanges(ranges: seq<Range>, c: char) {
    exists i :: 0 <= i < |ranges| && ranges[i].lo <= c <= ranges[i].hi
  }

  predicate InClass(fold: bool, ranges: seq<Range>, c: char) {
    InRanges(ranges, c) || (fold && InRanges(ranges, SwapCase(c)))
  }

  /** Does all of s match the items in order? */
  predicate MatchesItems(fold: bool, items: seq<Item>, s: string)
    decreases |s|, |items|
  {
    if items == [] then s == ""
    else
      var head := s != "" && InClass(fold, items[0].ranges, s[0]);
      match items[0].repeat
      case One => head && MatchesItems(fold, items[1..], s[1..])
      case Star => MatchesItems(fold, items[1..], s) || (head && MatchesItems(fold, items, s[1..]))
      case Plus => head && (MatchesItems(fold, items[1..], s[1..]) || MatchesItems(fold, items, s[1..]))
  }

  predicate Matches(p: Pattern, s: string) {
    MatchesItems(p.fold, p.items, s)
  }

  // --- syntax ---

  /** The class body up to its closing bracket, and the text after it. */
  function ParseClass(t: string): (r: Option<(seq<Range>, string)>)
    ensures r.Some? ==> |r.value.1| < |t|
  {
    if t == "" then None
    else if t[0] == ']' then Some(([], t[1..]))
    else if t[0] == '\\' then
      if |t| < 2 then None else Prepend(Range(t[1], t[1]), ParseClass(t[2..]))
    else if |t| >= 3 && t[1] == '-' && t[2] != ']' then Prepend(Range(t[0], t[2]), ParseClass(t[3..]))
    else Prepend(Range(t[0], t[0]), ParseClass(t[1..]))
  }

  function Prepend(r: Range, rest: Option<(seq<Range>, string)>): Option<(seq<Range>, string)> {
    match rest
    case None => None
    case Some((ranges, t)) => Some(([r] + ranges, t))
  }

  function ParseItems(t: string): Option<seq<Item>>
    decreases |t|
  {
    if t == "$" then Some([])
    else if t == "" || t[0] != '[' then None
    else
      match ParseClass(t[1..])
      case None => None
      case Some((ranges, rest)) =>
        if rest != "" && rest[0] == '*' then Push(Item(ranges, Star), ParseItems(rest[1..]))
        else if rest != "" && rest[0] == '+' then Push(Item(ranges, Plus), ParseItems(rest[1..]))
        else Push(Item(ranges, One), ParseItems(rest))
  }

  function Push(item: Item, rest: Option<seq<Item>>): Option<seq<Item>> {
    match rest
    case None => None
    case Some(items) => Some([item] + items)
  }

  const FOLD := "(?i)"

  function ParsePattern(t: string): Option<Pattern> {
    var fold := FOLD <= t;
    var body := if fold then t[|FOLD|..] else t;
    if body == "" || body[0] != '^' then None
    else
      match ParseItems(body[1..])
      case None => None
      case Some(items) => Some(Pattern(fold, items))
  }

  // --- the shapes the rules use ---

  /** [class]* followed by one character of another class. */
  lemma {:induction false} StarThenOne(fold: bool, middle: seq<Range>, end: seq<Range>, s: string)
    ensures MatchesItems(fold, [Item(middle, Star), Item(end, One)], s)
            <==> s != "" && InClass(fold, end, s[|s| - 1])
                 && forall i :: 0 <= i < |s| - 1 ==> InClass(fold, middle, s[i])
  {
    var items := [Item(middle, Star), Item(end, One)];
    var last := items[1..];
    assert last == [Item(end, One)] && last[1..] == [];
    assert MatchesItems(fold, last, s) <==> s != "" && InClass(fold, end, s[0]) && s[1..] == "";
    if s != "" {
      StarThenOne(fold, middle, end, s[1..]);
      if |s| > 1 {
        assert s[1..][|s[1..]| - 1] == s[|s| - 1];
        assert forall i :: 0 <= i < |s[1..]| - 1 ==> s[1..][i] == s[i + 1];
        if forall i :: 0 <= i < |s| - 1 ==> InClass(fold, middle, s[i]) {
          assert InClass(fold, middle, s[0]);
        }
        if InClass(fold, middle, s[0]) && forall i :: 0 <= i < |s[1..]| - 1 ==> InClass(fold, middle, s[1..][i]) {
          forall i | 0 <= i < |s| - 1 ensures InClass(fold, middle, s[i]) {
            if i > 0 {
              assert s[i] == s[1..][i - 1];
            }
          }
        }
      }
    }
  }

  lemma OneStarOne(fold: bool, first: seq<Range>, middle: seq<Range>, end: seq<Range>, s: string)
    ensures MatchesItems(fold, [Item(first, One), Item(middle, Star), Item(end, One)], s)
            <==> |s| >= 2 && InClass(fold, first, s[0]) && InClass(fold, end, s[|s| - 1])
                 && forall i :: 1 <= i < |s| - 1 ==> InClass(fold, middle, s[i])
  {
    var items := [Item(first, One), Item(middle, Star), Item(end, One)];
    assert items[1..] == [Item(middle, Star), Item(end, One)];
    if s != "" {
      StarThenOne(fold, middle, end, s[1..]);
      if |s| >= 2 {
        assert forall i :: 0 <= i < |s[1..]| - 1 ==> s[1..][i] == s[i + 1];
        assert forall i :: 1 <= i < |s| - 1 ==> s[i] == s[1..][i - 1];
      }
    }
  }

  lemma {:induction false} OnlyPlus(fold: bool, ranges: seq<Range>, s: string)
    ensures MatchesItems(fold, [Item(ranges, Plus)], s)
            <==> s != "" && forall i :: 0 <= i < |s| ==> InClass(fold, ranges, s[i])
  {
    if s != "" {
      OnlyPlus(fold, ranges, s[1..]);
      assert forall i :: 0 <= i < |s[1..]| ==> s[1..][i] == s[i + 1];
      assert forall i :: 1 <= i < |s| ==> s[i] == s[1..][i - 1];
    }
  }

  // --- reading back class text ---

  lemma ClosedClass(rest: string)
    ensures ParseClass("]" + rest) == Some(([], rest))
  {
    assert ("]" + rest)[1..] == rest;
  }

  /** A range, written lo-hi. */
  lemma RangeThen(lo: char, hi: char, rest: string)
    requires lo != ']' && lo != '\\' && hi != ']'
    ensures ParseClass([lo, '-', hi] + rest) == Prepend(Range(lo, hi), ParseClass(rest))
  {
    assert ([lo, '-', hi] + rest)[3..] == rest;
  }

  lemma EscapeThen(c: char, rest: string)
    ensures ParseClass(['\\', c] + rest) == Prepend(Range(c, c), ParseClass(rest))
  {
    assert (['\\', c] + rest)[2..] == rest;
  }

  lemma LiteralThen(c: char, rest: string)
    requires c != ']' && c != '\\' && (rest != "" ==> rest[0] != '-')
    ensures ParseClass([c] + rest) == Prepend(Range(c, c), ParseClass(rest))
  {
    assert ([c] + rest)[1..] == rest;
  }
}
