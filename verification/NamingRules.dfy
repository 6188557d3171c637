/** The two rule records, the two built-in rule sets (conventions.go) and the compilation of
    configured rules, pattern text included (validator.go). */
module NamingRules {
  import opened Common
  import opened NamePattern

  datatype Rules = Rules(
    maxLength: nat,
    minLength: nat,
    pattern: Pattern,
    reservedNames: ReservedNames,
    requiredPrefix: string,
    requiredSuffix: string,
    caseSensitive: bool,
    allowNumbers: bool,
    allowHyphens: bool,
    allowUnderscores: bool)

  /** types.AgentNamingRules, as configured. */
  datatype Config = Config(
    maxLength: int,
    minLength: int,
    caseSensitive: bool,
    allowNumbers: bool,
    allowHyphens: bool,
    allowUnderscores: bool,
    requiredPrefix: string,
    requiredSuffix: string,
    reservedNames: seq<string>)

  /** Which names are reserved: the built-in list or a configured one. */
  datatype ReservedNames = BuiltIn | Listed(names: set<string>)

  predicate IsReserved(reserved: ReservedNames, n: string) {
    match reserved
    case BuiltIn => IsSystemName(n) || IsProtocolName(n) || IsServiceName(n) || IsCommonName(n) || IsTestName(n)
    case Listed(names) => n in names
  }

  predicate IsSystemName(n: string) {
    n in ["system", "admin", "root", "coordinator", "manager", "supervisor", "monitor"]
  }

  predicate IsProtocolName(n: string) {
    n in ["teneo", "protocol", "network", "blockchain", "validator", "consensus"]
  }

  predicate IsServiceName(n: string) {
    n in ["api", "gateway", "proxy", "load-balancer", "health", "metrics", "logging"]
  }

  predicate IsCommonName(n: string) {
    n in ["agent", "bot", "service", "handler", "processor", "worker", "client", "server"]
  }

  predicate IsTestName(n: string) {
    n in ["test", "demo", "example", "sample", "mock", "stub", "dev", "debug"]
  }

  const LETTERS := [Range('a', 'z'), Range('A', 'Z')]
  const DIGITS := [Range('0', '9')]

  const DEFAULT_PATTERN := Pattern(false, [
    Item(LETTERS, One),
    Item(LETTERS + DIGITS + [Range('-', '-'), Range('_', '_')], Star),
    Item(LETTERS + DIGITS, One)])

  const STRICT_PATTERN := Pattern(false, [
    Item([Range('a', 'z')], One),
    Item([Range('a', 'z'), Range('0', '9'), Range('-', '-')], Star),
    Item([Range('a', 'z'), Range('0', '9')], One)])

  const DEFAULT_RULES := Rules(50, 3, DEFAULT_PATTERN, BuiltIn, "", "", false, true, true, true)

  const STRICT_RULES := Rules(30, 5, STRICT_PATTERN, BuiltIn, "", "-agent", true, true, true, false)

  // --- compiling configured rules ---

  function ClassText(c: Config): string {
    "a-zA-Z" + (if c.allowNumbers then "0-9" else "")
  }

  function MiddleText(c: Config): string {
    (if c.allowHyphens then "\\-" else "") + (if c.allowUnderscores then "_" else "")
  }

  /** The text createPatternFromRules hands to the regexp compiler. */
  function PatternText(c: Config): string {
    (if c.caseSensitive then "" else FOLD) +
    (if MiddleText(c) != "" then "^[a-zA-Z][" + ClassText(c) + MiddleText(c) + "]*[" + ClassText(c) + "]$"
     else "^[" + ClassText(c) + "]+$")
  }

  function CompiledPattern(c: Config): Pattern {
    match ParsePattern(PatternText(c))
    case Some(p) => p
    case None => DEFAULT_PATTERN
  }

  function OrDefault(value: int, default: nat): nat {
    if value <= 0 then default else value
  }

  function Converted(c: Config): Rules {
    var names := set n | n in c.reservedNames;
    Rules(OrDefault(c.maxLength, 50), OrDefault(c.minLength, 3), CompiledPattern(c),
          if names == {} then BuiltIn else Listed(names),
          c.requiredPrefix, c.requiredSuffix, c.caseSensitive,
          c.allowNumbers, c.allowHyphens, c.allowUnderscores)
  }

  function ClassRanges(c: Config): seq<Range> {
    LETTERS + (if c.allowNumbers then DIGITS else [])
  }

  function MiddleRanges(c: Config): seq<Range> {
    (if c.allowHyphens then [Range('-', '-')] else []) + (if c.allowUnderscores then [Range('_', '_')] else [])
  }

  function ExpectedItems(c: Config): seq<Item> {
    if c.allowHyphens || c.allowUnderscores
    then [Item(LETTERS, One), Item(ClassRanges(c) + MiddleRanges(c), Star), Item(ClassRanges(c), One)]
    else [Item(ClassRanges(c), Plus)]
  }

  function After(ranges: seq<Range>, parsed: Option<(seq<Range>, string)>): Option<(seq<Range>, string)> {
    match parsed
    case None => None
    case Some((more, rest)) => Some((ranges + more, rest))
  }

  lemma AfterAppend(a: seq<Range>, b: seq<Range>, parsed: Option<(seq<Range>, string)>)
    ensures After(a, After(b, parsed)) == After(a + b, parsed)
    ensures After([], parsed) == parsed
  {
    if parsed.Some? {
      assert a + (b + parsed.value.0) == a + b + parsed.value.0;
      assert [] + parsed.value.0 == parsed.value.0;
    }
  }

  lemma LettersThen(rest: string)
    ensures ParseClass("a-zA-Z" + rest) == After(LETTERS, ParseClass(rest))
  {
    RangeThen('A', 'Z', rest);
    RangeThen('a', 'z', "A-Z" + rest);
    assert "a-z" + ("A-Z" + rest) == "a-zA-Z" + rest;
    assert ['A', '-', 'Z'] == "A-Z" && ['a', '-', 'z'] == "a-z";
    AfterAppend([Range('a', 'z')], [Range('A', 'Z')], ParseClass(rest));
    assert LETTERS == [Range('a', 'z')] + [Range('A', 'Z')];
  }

  lemma DigitsThen(rest: string)
    ensures ParseClass("0-9" + rest) == After(DIGITS, ParseClass(rest))
  {
    RangeThen('0', '9', rest);
    assert ['0', '-', '9'] == "0-9";
  }

  lemma ClassTextThen(c: Config, rest: string)
    ensures ParseClass(ClassText(c) + rest) == After(ClassRanges(c), ParseClass(rest))
  {
    if c.allowNumbers {
      DigitsThen(rest);
      LettersThen("0-9" + rest);
      assert "a-zA-Z" + ("0-9" + rest) == ClassText(c) + rest;
      AfterAppend(LETTERS, DIGITS, ParseClass(rest));
    } else {
      LettersThen(rest);
      assert "a-zA-Z" + rest == ClassText(c) + rest;
      assert ClassRanges(c) == LETTERS;
    }
  }

  lemma MiddleTextThen(c: Config, rest: string)
    requires rest != "" && rest[0] != '-'
    ensures ParseClass(MiddleText(c) + rest) == After(MiddleRanges(c), ParseClass(rest))
  {
    var underscores := (if c.allowUnderscores then "_" else "") + rest;
    var u: seq<Range> := if c.allowUnderscores then [Range('_', '_')] else [];
    if c.allowUnderscores {
      LiteralThen('_', rest);
      assert ['_'] + rest == underscores;
    } else {
      assert underscores == rest;
    }
    AfterAppend([], u, ParseClass(rest));
    assert ParseClass(underscores) == After(u, ParseClass(rest));
    if c.allowHyphens {
      EscapeThen('-', underscores);
      assert ['\\', '-'] + underscores == MiddleText(c) + rest;
      AfterAppend([Range('-', '-')], u, ParseClass(rest));
    } else {
      assert underscores == MiddleText(c) + rest;
      assert MiddleRanges(c) == u;
    }
  }

  /** The class text between the brackets reads back as the intended class. */
  lemma WholeClass(c: Config, middle: bool, rest: string)
    ensures ParseClass(ClassText(c) + (if middle then MiddleText(c) else "") + "]" + rest)
            == Some((ClassRanges(c) + (if middle then MiddleRanges(c) else []), rest))
  {
    ClosedClass(rest);
    if middle {
      MiddleTextThen(c, "]" + rest);
      ClassThenMore(c, MiddleText(c), MiddleRanges(c), "]", rest);
    } else {
      AfterAppend([], [], ParseClass("]" + rest));
      assert "" + ("]" + rest) == "]" + rest;
      ClassThenMore(c, "", [], "]", rest);
    }
  }

  lemma ClassThenMore(c: Config, m: string, mr: seq<Range>, close: string, rest: string)
    requires ParseClass(m + (close + rest)) == After(mr, Some(([], rest)))
    ensures ParseClass(ClassText(c) + m + close + rest) == Some((ClassRanges(c) + mr, rest))
  {
    ClassTextThen(c, m + (close + rest));
    AfterAppend(ClassRanges(c), mr, Some(([], rest)));
    Grouped(ClassText(c), m, close, rest);
    assert ClassRanges(c) + mr + [] == ClassRanges(c) + mr;
  }

  lemma Grouped(a: string, b: string, c: string, d: string)
    ensures a + (b + (c + d)) == a + b + c + d
  {
    assert a + (b + (c + d)) == a + b + (c + d);
  }

  lemma BracketThen(inner: string, ranges: seq<Range>, rest: string)
    requires ParseClass(inner) == Some((ranges, rest)) && rest != ""
    ensures ParseItems(['['] + inner) ==
            if rest[0] == '*' then Push(Item(ranges, Star), ParseItems(rest[1..]))
            else if rest[0] == '+' then Push(Item(ranges, Plus), ParseItems(rest[1..]))
            else Push(Item(ranges, One), ParseItems(rest))
  {
    var t := ['['] + inner;
    assert t[1..] == inner && t[0] == '[' && t != "$";
  }

  lemma EndItem(c: Config)
    ensures ParseItems("[" + ClassText(c) + "]$") == Some([Item(ClassRanges(c), One)])
  {
    WholeClass(c, false, "$");
    var inner := ClassText(c) + "" + "]" + "$";
    BracketThen(inner, ClassRanges(c) + [], "$");
    assert ['['] + inner == "[" + ClassText(c) + "]$";
    assert ClassRanges(c) + [] == ClassRanges(c);
    assert ParseItems("$") == Some([]);
    assert [Item(ClassRanges(c), One)] + [] == [Item(ClassRanges(c), One)];
  }

  lemma StarShape(a: string, b: string)
    ensures ['['] + (a + b + "]" + ("*" + ("[" + a + "]$"))) == "[" + a + b + "]*[" + a + "]$"
  {
    assert "]" + ("*" + ("[" + a + "]$")) == "]*[" + (a + "]$");
    assert a + b + "]" + ("*" + ("[" + a + "]$")) == a + b + ("]*[" + (a + "]$"));
  }

  lemma StarItem(c: Config)
    ensures ParseItems("[" + ClassText(c) + MiddleText(c) + "]*[" + ClassText(c) + "]$")
            == Some([Item(ClassRanges(c) + MiddleRanges(c), Star), Item(ClassRanges(c), One)])
  {
    var a, b := ClassText(c), MiddleText(c);
    var end := "[" + a + "]$";
    EndItem(c);
    WholeClass(c, true, "*" + end);
    StarThen(a + b + "]" + ("*" + end), ClassRanges(c) + MiddleRanges(c), end, [Item(ClassRanges(c), One)]);
    StarShape(a, b);
    assert [Item(ClassRanges(c) + MiddleRanges(c), Star)] + [Item(ClassRanges(c), One)]
           == [Item(ClassRanges(c) + MiddleRanges(c), Star), Item(ClassRanges(c), One)];
  }

  lemma StarThen(inner: string, ranges: seq<Range>, end: string, items: seq<Item>)
    requires ParseClass(inner) == Some((ranges, "*" + end)) && ParseItems(end) == Some(items)
    ensures ParseItems(['['] + inner) == Some([Item(ranges, Star)] + items)
  {
    BracketThen(inner, ranges, "*" + end);
    assert ("*" + end)[1..] == end;
  }

  lemma PlusItem(c: Config)
    ensures ParseItems("[" + ClassText(c) + "]+$") == Some([Item(ClassRanges(c), Plus)])
  {
    WholeClass(c, false, "+$");
    var inner := ClassText(c) + "" + "]" + "+$";
    BracketThen(inner, ClassRanges(c) + [], "+$");
    assert ['['] + inner == "[" + ClassText(c) + "]+$";
    assert ClassRanges(c) + [] == ClassRanges(c);
    assert "+$"[1..] == "$";
    assert ParseItems("$") == Some([]);
    assert [Item(ClassRanges(c), Plus)] + [] == [Item(ClassRanges(c), Plus)];
  }

  lemma LettersItem(rest: string)
    requires rest != "" && rest[0] == '['
    ensures ParseItems("[a-zA-Z]" + rest) == Push(Item(LETTERS, One), ParseItems(rest))
  {
    LettersThen("]" + rest);
    ClosedClass(rest);
    assert LETTERS + [] == LETTERS;
    var inner := "a-zA-Z" + ("]" + rest);
    BracketThen(inner, LETTERS, rest);
    assert ['['] + inner == "[a-zA-Z]" + rest;
  }

  lemma Anchored(fold: bool, items: string, parsed: seq<Item>)
    requires ParseItems(items) == Some(parsed)
    ensures ParsePattern((if fold then FOLD else "") + ("^" + items)) == Some(Pattern(fold, parsed))
  {
    var body := "^" + items;
    assert body[1..] == items;
    if fold {
      assert (FOLD + body)[|FOLD|..] == body;
    } else {
      assert "" + body == body && body[0] == '^';
    }
  }

  function ItemsText(c: Config): string {
    if MiddleText(c) != "" then "[a-zA-Z]" + ("[" + ClassText(c) + MiddleText(c) + "]*[" + ClassText(c) + "]$")
    else "[" + ClassText(c) + "]+$"
  }

  lemma ItemsTextParses(c: Config)
    ensures ParseItems(ItemsText(c)) == Some(ExpectedItems(c))
  {
    if c.allowHyphens || c.allowUnderscores {
      assert MiddleText(c) != "";
      StarItem(c);
      LettersItem("[" + ClassText(c) + MiddleText(c) + "]*[" + ClassText(c) + "]$");
      assert [Item(LETTERS, One)] + [Item(ClassRanges(c) + MiddleRanges(c), Star), Item(ClassRanges(c), One)]
             == ExpectedItems(c);
    } else {
      assert MiddleText(c) == "";
      PlusItem(c);
    }
  }

  lemma PatternTextShape(c: Config)
    ensures PatternText(c) == (if c.caseSensitive then "" else FOLD) + ("^" + ItemsText(c))
  {
    SeparatedShape(ClassText(c), MiddleText(c));
    UnseparatedShape(ClassText(c));
  }

  lemma SeparatedShape(class_: string, middle: string)
    ensures "^" + ("[a-zA-Z]" + ("[" + class_ + middle + "]*[" + class_ + "]$"))
            == "^[a-zA-Z][" + class_ + middle + "]*[" + class_ + "]$"
  {
  }

  lemma UnseparatedShape(class_: string)
    ensures "^" + ("[" + class_ + "]+$") == "^[" + class_ + "]+$"
  {
  }

  /** The compiled text is the pattern the rules describe, for every one of the sixteen rule
      combinations; the fallback to the default pattern is never taken. */
  lemma PatternTextCompiles(c: Config)
    ensures ParsePattern(PatternText(c)) == Some(Pattern(!c.caseSensitive, ExpectedItems(c)))
  {
    ItemsTextParses(c);
    PatternTextShape(c);
    Anchored(!c.caseSensitive, ItemsText(c), ExpectedItems(c));
  }

  /** The text of the default rules' pattern, in six pieces, is DEFAULT_PATTERN. */
  lemma DefaultText()
    ensures ParsePattern("^[a-zA-Z][" + "a-zA-Z0-9" + "\\-_" + "]*[" + "a-zA-Z0-9" + "]$") == Some(DEFAULT_PATTERN)
  {
    var c := Config(0, 0, true, true, true, true, "", "", []);
    PatternTextCompiles(c);
    assert ClassText(c) == "a-zA-Z0-9" && MiddleText(c) == "\\-_";
    assert "" + ("^[a-zA-Z][" + ClassText(c) + MiddleText(c) + "]*[" + ClassText(c) + "]$")
           == "^[a-zA-Z][" + ClassText(c) + MiddleText(c) + "]*[" + ClassText(c) + "]$";
    assert ClassRanges(c) + MiddleRanges(c) == LETTERS + DIGITS + [Range('-', '-'), Range('_', '_')];
  }

  lemma LowerThen(rest: string)
    ensures ParseClass("a-z" + rest) == After([Range('a', 'z')], ParseClass(rest))
  {
    RangeThen('a', 'z', rest);
    assert ['a', '-', 'z'] == "a-z";
  }

  lemma StrictEnd()
    ensures ParseItems("[a-z0-9]$") == Some([Item([Range('a', 'z'), Range('0', '9')], One)])
  {
    var close := "]" + "$";
    ClosedClass("$");
    DigitsThen(close);
    LowerThen("0-9" + close);
    AfterAppend([Range('a', 'z')], DIGITS, ParseClass(close));
    assert [Range('a', 'z')] + DIGITS + [] == [Range('a', 'z'), Range('0', '9')];
    StrictEndItem("a-z" + ("0-9" + close));
    StrictEndShape();
  }

  lemma StrictEndItem(inner: string)
    requires ParseClass(inner) == Some(([Range('a', 'z'), Range('0', '9')], "$"))
    ensures ParseItems(['['] + inner) == Some([Item([Range('a', 'z'), Range('0', '9')], One)])
  {
    BracketThen(inner, [Range('a', 'z'), Range('0', '9')], "$");
    assert ParseItems("$") == Some([]);
    var item := Item([Range('a', 'z'), Range('0', '9')], One);
    assert [item] + [] == [item];
  }

  lemma StrictEndShape()
    ensures ['['] + ("a-z" + ("0-9" + ("]" + "$"))) == "[a-z0-9]$"
  {
  }

  lemma StrictMiddle(end: string)
    ensures ParseClass("a-z0-9\\-]" + end) == Some(([Range('a', 'z'), Range('0', '9'), Range('-', '-')], end))
  {
    ClosedClass(end);
    EscapeThen('-', "]" + end);
    DigitsThen("\\-" + ("]" + end));
    LowerThen("0-9" + ("\\-" + ("]" + end)));
    assert ['\\', '-'] + ("]" + end) == "\\-" + ("]" + end);
    assert "a-z" + ("0-9" + ("\\-" + ("]" + end))) == "a-z0-9\\-]" + end;
    assert [Range('a', 'z')] + (DIGITS + ([Range('-', '-')] + []))
           == [Range('a', 'z'), Range('0', '9'), Range('-', '-')];
  }

  lemma StrictTail()
    ensures ParseItems("[a-z0-9\\-]*" + "[a-z0-9]$") == Some(STRICT_PATTERN.items[1..])
  {
    var end := "[a-z0-9]$";
    StrictEnd();
    StrictMiddle("*" + end);
    StarThen("a-z0-9\\-]" + ("*" + end), STRICT_PATTERN.items[1].ranges, end, [STRICT_PATTERN.items[2]]);
    StrictTailShape(end);
    assert [STRICT_PATTERN.items[1]] + [STRICT_PATTERN.items[2]] == STRICT_PATTERN.items[1..];
  }

  lemma StrictTailShape(end: string)
    ensures ['['] + ("a-z0-9\\-]" + ("*" + end)) == "[a-z0-9\\-]*" + end
  {
  }

  lemma StrictHead(rest: string)
    requires rest != "" && rest[0] == '['
    ensures ParseItems("[a-z]" + rest) == Push(Item([Range('a', 'z')], One), ParseItems(rest))
  {
    ClosedClass(rest);
    LowerThen("]" + rest);
    assert [Range('a', 'z')] + [] == [Range('a', 'z')];
    BracketThen("a-z" + ("]" + rest), [Range('a', 'z')], rest);
    StrictHeadShape(rest);
  }

  lemma StrictHeadShape(rest: string)
    ensures ['['] + ("a-z" + ("]" + rest)) == "[a-z]" + rest
  {
  }

  /** The text of the strict rules' pattern, in four pieces, is STRICT_PATTERN. */
  lemma StrictText()
    ensures ParsePattern("^" + ("[a-z]" + ("[a-z0-9\\-]*" + "[a-z0-9]$"))) == Some(STRICT_PATTERN)
  {
    StrictTail();
    StrictWhole("[a-z0-9\\-]*" + "[a-z0-9]$");
  }

  lemma StrictWhole(tail: string)
    requires tail != "" && tail[0] == '[' && ParseItems(tail) == Some(STRICT_PATTERN.items[1..])
    ensures ParsePattern("^" + ("[a-z]" + tail)) == Some(STRICT_PATTERN)
  {
    StrictHead(tail);
    assert [STRICT_PATTERN.items[0]] + STRICT_PATTERN.items[1..] == STRICT_PATTERN.items;
    Anchored(false, "[a-z]" + tail, STRICT_PATTERN.items);
    assert "" + ("^" + ("[a-z]" + tail)) == "^" + ("[a-z]" + tail);
  }
}
