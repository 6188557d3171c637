/** conventions.go and validator.go: validating, normalising, generating and suggesting agent
    names. Text is ASCII throughout. */
module AgentNaming {
  import opened Ascii
  import opened NamePattern
  import opened NamingRules

  // --- the library's string functions ---

  predicate IsSpecial(c: char) {
    c == '-' || c == '_'
  }

  function Replaced(s: string, from: char, to: char): string {
    seq(|s|, i requires 0 <= i < |s| => if s[i] == from then to else s[i])
  }

  /** strings.TrimRight(s, "-_"). */
  function TrimRightSpecial(s: string): string {
    if s != "" && IsSpecial(s[|s| - 1]) then TrimRightSpecial(s[..|s| - 1]) else s
  }

  predicate HasSuffix(s: string, suffix: string) {
    |suffix| <= |s| && s[|s| - |suffix|..] == suffix
  }

  // --- validation ---

  datatype NameError =
    | Empty | TooShort | TooLong | BadPattern | Reserved
    | MissingPrefix | MissingSuffix | HasNumbers | HasHyphens | HasUnderscores

  function Cased(name: string, r: Rules): string {
    if r.caseSensitive then TrimSpace(name) else Lowered(TrimSpace(name))
  }

  predicate Acceptable(n: string, r: Rules) {
    && n != ""
    && r.minLength <= |n| <= r.maxLength
    && Matches(r.pattern, n)
    && !IsReserved(r.reservedNames, n)
    && r.requiredPrefix <= n
    && HasSuffix(n, r.requiredSuffix)
    && (r.allowNumbers || forall i :: 0 <= i < |n| ==> !IsDigit(n[i]))
    && (r.allowHyphens || '-' !in n)
    && (r.allowUnderscores || '_' !in n)
  }

  predicate Numbered(s: string) {
    exists i :: 0 <= i < |s| && IsDigit(s[i])
  }

  function When(broken: bool, e: NameError): seq<NameError> {
    if broken then [e] else []
  }

  function ShapeErrors(n: string, r: Rules): seq<NameError> {
    When(|n| < r.minLength, TooShort)
    + When(|n| > r.maxLength, TooLong)
    + When(!Matches(r.pattern, n), BadPattern)
    + When(IsReserved(r.reservedNames, n), Reserved)
  }

  function AffixErrors(n: string, r: Rules): seq<NameError> {
    When(r.requiredPrefix != "" && !(r.requiredPrefix <= n), MissingPrefix)
    + When(r.requiredSuffix != "" && !HasSuffix(n, r.requiredSuffix), MissingSuffix)
  }

  function CharacterErrors(n: string, r: Rules): seq<NameError> {
    When(!r.allowNumbers && Numbered(n), HasNumbers)
    + When(!r.allowHyphens && '-' in n, HasHyphens)
    + When(!r.allowUnderscores && '_' in n, HasUnderscores)
  }

  /** The errors reported for a normalised name, in order. */
  function Errors(n: string, r: Rules): seq<NameError> {
    if n == "" then [Empty] else ShapeErrors(n, r) + AffixErrors(n, r) + CharacterErrors(n, r)
  }

  /** Nothing is reported exactly for the names that meet every rule. */
  lemma NoErrorsExactly(n: string, r: Rules)
    ensures Errors(n, r) == [] <==> Acceptable(n, r)
  {
    assert r.requiredSuffix == "" ==> n[|n|..] == "";
  }

  method ContainsNumbers(s: string) returns (found: bool)
    ensures found <==> Numbered(s)
  {
    for i := 0 to |s|
      invariant forall j :: 0 <= j < i ==> !IsDigit(s[j])
    {
      if IsDigit(s[i]) {
        return true;
      }
    }
    return false;
  }

  // --- warnings ---

  datatype Warning = LeadingNumber | ConsecutiveSpecial | Long | Abbreviation

  predicate StartsWithNumber(s: string) {
    s != "" && IsDigit(s[0])
  }

  predicate TwoSpecial(s: string, i: nat)
    requires i < |s|
  {
    i > 0 && IsSpecial(s[i - 1]) && IsSpecial(s[i])
  }

  method ContainsConsecutiveSpecialChars(s: string) returns (found: bool)
    ensures found <==> exists i :: 0 <= i < |s| && TwoSpecial(s, i)
  {
    var prev := ' ';
    for i := 0 to |s|
      invariant prev == if i == 0 then ' ' else s[i - 1]
      invariant forall j :: 0 <= j < i ==> !TwoSpecial(s, j)
    {
      if IsSpecial(s[i]) && IsSpecial(prev) {
        assert TwoSpecial(s, i);
        return true;
      }
      prev := s[i];
    }
    return false;
  }

  function UpperCount(s: string): nat {
    if s == "" then 0 else UpperCount(s[..|s| - 1]) + (if IsUpper(s[|s| - 1]) then 1 else 0)
  }

  /** At most four characters, more than three fifths of them capitals. */
  predicate IsShortCapitals(s: string) {
    0 < |s| <= 4 && 5 * UpperCount(s) > 3 * |s|
  }

  /** For the empty text the quotient is 0/0, which is not above 0.6. */
  method IsAbbreviation(s: string) returns (abbreviation: bool)
    ensures abbreviation <==> IsShortCapitals(s)
  {
    if |s| > 4 {
      return false;
    }
    var upperCount := 0;
    for i := 0 to |s|
      invariant upperCount == UpperCount(s[..i])
    {
      assert s[..i + 1][..i] == s[..i];
      if IsUpper(s[i]) {
        upperCount := upperCount + 1;
      }
    }
    assert s[..|s|] == s;
    return s != "" && upperCount as real / |s| as real > 0.6;
  }

  function WhenWarned(raised: bool, w: Warning): seq<Warning> {
    if raised then [w] else []
  }

  /** The warnings given for a normalised name, in order; an empty one gets none. */
  ghost function Warnings(n: string): seq<Warning> {
    WhenWarned(StartsWithNumber(n), LeadingNumber)
    + WhenWarned(exists i :: 0 <= i < |n| && TwoSpecial(n, i), ConsecutiveSpecial)
    + WhenWarned(|n| > 30, Long)
    + WhenWarned(IsShortCapitals(n), Abbreviation)
  }

  method CheckStyle(n: string) returns (warnings: seq<Warning>)
    ensures warnings == Warnings(n)
  {
    var consecutive := ContainsConsecutiveSpecialChars(n);
    var abbreviation := IsAbbreviation(n);
    warnings := [];
    if StartsWithNumber(n) {
      warnings := warnings + [LeadingNumber];
    }
    if consecutive {
      warnings := warnings + [ConsecutiveSpecial];
    }
    if |n| > 30 {
      warnings := warnings + [Long];
    }
    if abbreviation {
      warnings := warnings + [Abbreviation];
    }
  }

  lemma {:induction false} NoCapitalsNoCount(s: string)
    requires forall i :: 0 <= i < |s| ==> !IsUpper(s[i])
    ensures UpperCount(s) == 0
  {
    if s != "" {
      NoCapitalsNoCount(s[..|s| - 1]);
    }
  }

  /** Where case does not matter names are lowered first, so none is ever called an abbreviation. */
  lemma LoweredIsNoAbbreviation(name: string, r: Rules)
    requires !r.caseSensitive
    ensures Abbreviation !in Warnings(Cased(name, r))
  {
    var n := Cased(name, r);
    NoCapitalsNoCount(n);
  }

  /** strings.TrimSpace, strings.ToLower and every check of the source, in its order. */
  method ValidateAgentName(name: string, r: Rules)
    returns (isValid: bool, errors: seq<NameError>, warnings: seq<Warning>, normalizedName: string)
    ensures normalizedName == Cased(name, r)
    ensures errors == Errors(normalizedName, r)
    ensures warnings == Warnings(normalizedName)
    ensures isValid <==> IsValidName(name, r)
  {
    normalizedName := TrimSpace(name);
    if !r.caseSensitive {
      normalizedName := Lowered(normalizedName);
    }
    NoErrorsExactly(normalizedName, r);
    if normalizedName == "" {
      return false, [Empty], [], normalizedName;
    }
    errors := CheckShape(normalizedName, r);
    var affixes := CheckAffixes(normalizedName, r);
    errors := errors + affixes;
    var characters := CheckCharacters(normalizedName, r);
    errors := errors + characters;
    isValid := errors == [];
    warnings := CheckStyle(normalizedName);
  }

  method CheckShape(n: string, r: Rules) returns (errors: seq<NameError>)
    ensures errors == ShapeErrors(n, r)
  {
    errors := [];
    if |n| < r.minLength {
      errors := errors + [TooShort];
    }
    if |n| > r.maxLength {
      errors := errors + [TooLong];
    }
    if !Matches(r.pattern, n) {
      errors := errors + [BadPattern];
    }
    if IsReserved(r.reservedNames, n) {
      errors := errors + [Reserved];
    }
  }

  method CheckAffixes(n: string, r: Rules) returns (errors: seq<NameError>)
    ensures errors == AffixErrors(n, r)
  {
    errors := [];
    if r.requiredPrefix != "" && !(r.requiredPrefix <= n) {
      errors := errors + [MissingPrefix];
    }
    if r.requiredSuffix != "" && !HasSuffix(n, r.requiredSuffix) {
      errors := errors + [MissingSuffix];
    }
  }

  method CheckCharacters(n: string, r: Rules) returns (errors: seq<NameError>)
    ensures errors == CharacterErrors(n, r)
  {
    errors := [];
    var numbers := ContainsNumbers(n);
    if !r.allowNumbers && numbers {
      errors := errors + [HasNumbers];
    }
    if !r.allowHyphens && '-' in n {
      errors := errors + [HasHyphens];
    }
    if !r.allowUnderscores && '_' in n {
      errors := errors + [HasUnderscores];
    }
  }

  predicate IsValidName(name: string, r: Rules) {
    Acceptable(Cased(name, r), r)
  }

  // --- the language of compiled rules ---

  predicate IsValidCharacter(c: char, hyphens: bool, underscores: bool, numbers: bool) {
    IsLetter(c) || (numbers && IsDigit(c)) || (hyphens && c == '-') || (underscores && c == '_')
  }

  predicate ValidFor(c: char, r: Rules) {
    IsValidCharacter(c, r.allowHyphens, r.allowUnderscores, r.allowNumbers)
  }

  /** What configured rules mean, said without a pattern. */
  predicate Described(c: Config, s: string) {
    if c.allowHyphens || c.allowUnderscores then
      && |s| >= 2
      && IsLetter(s[0])
      && IsValidCharacter(s[|s| - 1], false, false, c.allowNumbers)
      && (forall i :: 1 <= i < |s| - 1 ==> IsValidCharacter(s[i], c.allowHyphens, c.allowUnderscores, c.allowNumbers))
    else
      s != "" && forall i :: 0 <= i < |s| ==> IsValidCharacter(s[i], false, false, c.allowNumbers)
  }

  lemma RangesAppend(a: seq<Range>, b: seq<Range>, c: char)
    ensures InRanges(a + b, c) <==> InRanges(a, c) || InRanges(b, c)
  {
    if InRanges(a, c) {
      var i :| 0 <= i < |a| && a[i].lo <= c <= a[i].hi;
      assert (a + b)[i] == a[i];
    }
    if InRanges(b, c) {
      var i :| 0 <= i < |b| && b[i].lo <= c <= b[i].hi;
      assert (a + b)[|a| + i] == b[i];
    }
  }

  lemma RangesOne(r: Range, c: char)
    ensures InRanges([r], c) <==> r.lo <= c <= r.hi
  {
    assert [r][0] == r;
  }

  lemma LettersMean(c: char)
    ensures InRanges(LETTERS, c) <==> IsLetter(c)
  {
    RangesOne(Range('a', 'z'), c);
    RangesOne(Range('A', 'Z'), c);
    RangesAppend([Range('a', 'z')], [Range('A', 'Z')], c);
    assert LETTERS == [Range('a', 'z')] + [Range('A', 'Z')];
  }

  lemma ClassMeans(k: Config, c: char)
    ensures InRanges(ClassRanges(k), c) <==> IsValidCharacter(c, false, false, k.allowNumbers)
  {
    LettersMean(c);
    RangesOne(Range('0', '9'), c);
    RangesAppend(LETTERS, if k.allowNumbers then DIGITS else [], c);
  }

  lemma MiddleMeans(k: Config, c: char)
    ensures InRanges(ClassRanges(k) + MiddleRanges(k), c)
            <==> IsValidCharacter(c, k.allowHyphens, k.allowUnderscores, k.allowNumbers)
  {
    ClassMeans(k, c);
    RangesAppend(ClassRanges(k), MiddleRanges(k), c);
    RangesOne(Range('-', '-'), c);
    RangesOne(Range('_', '_'), c);
    RangesAppend(if k.allowHyphens then [Range('-', '-')] else [],
                 if k.allowUnderscores then [Range('_', '_')] else [], c);
  }

  /** Folding case changes none of the classes, which hold both cases of every letter. */
  lemma FoldingChangesNothing(k: Config, fold: bool, c: char)
    ensures InClass(fold, LETTERS, c) <==> IsLetter(c)
    ensures InClass(fold, ClassRanges(k), c) <==> IsValidCharacter(c, false, false, k.allowNumbers)
    ensures InClass(fold, ClassRanges(k) + MiddleRanges(k), c)
            <==> IsValidCharacter(c, k.allowHyphens, k.allowUnderscores, k.allowNumbers)
  {
    LettersMean(c);
    LettersMean(SwapCase(c));
    ClassMeans(k, c);
    ClassMeans(k, SwapCase(c));
    MiddleMeans(k, c);
    MiddleMeans(k, SwapCase(c));
  }

  /** The pattern compiled from configured rules accepts exactly the names the rules describe,
      and caseSensitive does not change its language. */
  lemma CompiledPatternMeansRules(k: Config, s: string)
    ensures Matches(CompiledPattern(k), s) <==> Described(k, s)
    ensures Matches(CompiledPattern(k), s) <==> Matches(CompiledPattern(k.(caseSensitive := !k.caseSensitive)), s)
  {
    LanguageIsDescribed(k, s);
    LanguageIsDescribed(k.(caseSensitive := !k.caseSensitive), s);
  }

  lemma LanguageIsDescribed(k: Config, s: string)
    ensures Matches(CompiledPattern(k), s) <==> Described(k, s)
  {
    PatternTextCompiles(k);
    var fold := !k.caseSensitive;
    forall i | 0 <= i < |s|
      ensures InClass(fold, LETTERS, s[i]) <==> IsLetter(s[i])
      ensures InClass(fold, ClassRanges(k), s[i]) <==> IsValidCharacter(s[i], false, false, k.allowNumbers)
      ensures InClass(fold, ClassRanges(k) + MiddleRanges(k), s[i])
              <==> IsValidCharacter(s[i], k.allowHyphens, k.allowUnderscores, k.allowNumbers)
    {
      FoldingChangesNothing(k, fold, s[i]);
    }
    if k.allowHyphens || k.allowUnderscores {
      OneStarOne(fold, LETTERS, ClassRanges(k) + MiddleRanges(k), ClassRanges(k), s);
    } else {
      OnlyPlus(fold, ClassRanges(k), s);
    }
  }

  /** For converted rules the three Allow checks never reject a name the pattern accepts. */
  lemma AllowChecksAreRedundant(k: Config, n: string)
    ensures var r := Converted(k);
            Matches(r.pattern, n) ==>
              && (r.allowNumbers || forall i :: 0 <= i < |n| ==> !IsDigit(n[i]))
              && (r.allowHyphens || '-' !in n)
              && (r.allowUnderscores || '_' !in n)
  {
    LanguageIsDescribed(k, n);
    if Described(k, n) {
      forall i | 0 <= i < |n|
        ensures IsValidCharacter(n[i], k.allowHyphens, k.allowUnderscores, k.allowNumbers)
      {
      }
    }
  }

  // --- normalisation ---

  function Separated(s: string, r: Rules): string {
    if !r.allowUnderscores && r.allowHyphens then Replaced(s, '_', '-')
    else if !r.allowHyphens && r.allowUnderscores then Replaced(s, '-', '_')
    else s
  }

  function Filtered(s: string, r: Rules): string {
    if s == "" then ""
    else Filtered(s[..|s| - 1], r) + (if ValidFor(s[|s| - 1], r) then [s[|s| - 1]] else "")
  }

  /** The characters of the name that normalisation keeps. */
  function Kept(name: string, r: Rules): string {
    Filtered(Separated(Cased(name, r), r), r)
  }

  const LEAD := "agent-"

  function Led(kept: string): string {
    TrimRightSpecial(if kept != "" && !IsLetter(kept[0]) then LEAD + kept else kept)
  }

  function Affixed(s: string, r: Rules): string {
    var p := if r.requiredPrefix <= s then s else r.requiredPrefix + s;
    if HasSuffix(p, r.requiredSuffix) then p else p + r.requiredSuffix
  }

  function Cut(s: string, r: Rules): string {
    if |s| > r.maxLength then TrimRightSpecial(s[..r.maxLength]) else s
  }

  function Padded(s: string, r: Rules): string {
    if |s| >= r.minLength then s
    else s + seq(r.minLength - |s|, _ => if r.allowNumbers then '1' else 'x')
  }

  function Normalized(name: string, r: Rules): string {
    Padded(Cut(Affixed(Led(Kept(name, r)), r), r), r)
  }

  method RemoveInvalid(s: string, r: Rules) returns (result: string)
    ensures result == Filtered(s, r)
  {
    result := "";
    for i := 0 to |s|
      invariant result == Filtered(s[..i], r)
    {
      assert s[..i + 1][..i] == s[..i];
      if ValidFor(s[i], r) {
        result := result + [s[i]];
      }
    }
    assert s[..|s|] == s;
  }

  method Pad(s: string, r: Rules) returns (padded: string)
    ensures padded == Padded(s, r)
  {
    padded := s;
    var fill := if r.allowNumbers then '1' else 'x';
    while |padded| < r.minLength
      invariant padded == s || |s| < |padded| <= r.minLength
      invariant |padded| >= |s| && padded == s + seq(|padded| - |s|, _ => fill)
    {
      padded := padded + [fill];
    }
  }

  /** The first half of NormalizeAgentName: case, separators and invalid characters. */
  method KeepCharacters(name: string, r: Rules) returns (kept: string)
    ensures kept == Kept(name, r)
  {
    kept := TrimSpace(name);
    if !r.caseSensitive {
      kept := Lowered(kept);
    }
    if !r.allowUnderscores && r.allowHyphens {
      kept := Replaced(kept, '_', '-');
    } else if !r.allowHyphens && r.allowUnderscores {
      kept := Replaced(kept, '-', '_');
    }
    kept := RemoveInvalid(kept, r);
  }

  method AddAffixes(s: string, r: Rules) returns (affixed: string)
    ensures affixed == Affixed(s, r)
  {
    affixed := s;
    if r.requiredPrefix != "" && !(r.requiredPrefix <= s) {
      affixed := r.requiredPrefix + s;
    }
    if r.requiredSuffix != "" && !HasSuffix(affixed, r.requiredSuffix) {
      affixed := affixed + r.requiredSuffix;
    }
  }

  method NormalizeAgentName(name: string, r: Rules) returns (normalized: string)
    ensures normalized == Normalized(name, r)
  {
    normalized := KeepCharacters(name, r);
    if |normalized| > 0 && !IsLetter(normalized[0]) {
      normalized := LEAD + normalized;
    }
    normalized := TrimRightSpecial(normalized);
    normalized := AddAffixes(normalized, r);
    if |normalized| > r.maxLength {
      normalized := TrimRightSpecial(normalized[..r.maxLength]);
    }
    normalized := Pad(normalized, r);
  }
}
