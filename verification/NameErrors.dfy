/** Which errors and warnings a name gets: for each, exactly when, and in which order. */
module NameErrors {
  import opened Common
  import opened Ascii
  import opened NamePattern
  import opened NamingRules
  import opened AgentNaming

  /** The rule behind an error is broken. */
  ghost predicate Breaks(e: NameError, n: string, r: Rules) {
    match e
    case Empty => n == ""
    case TooShort => |n| < r.minLength
    case TooLong => |n| > r.maxLength
    case BadPattern => !Matches(r.pattern, n)
    case Reserved => IsReserved(r.reservedNames, n)
    case MissingPrefix => !(r.requiredPrefix <= n)
    case MissingSuffix => !(exists x :: n == x + r.requiredSuffix)
    case HasNumbers => !r.allowNumbers && exists i :: 0 <= i < |n| && '0' <= n[i] <= '9'
    case HasHyphens => !r.allowHyphens && '-' in n
    case HasUnderscores => !r.allowUnderscores && '_' in n
  }

  ghost function Broken(n: string, r: Rules): NameError -> bool {
    (e: NameError) => Breaks(e, n, r)
  }

  const SHAPE := [TooShort, TooLong, BadPattern, Reserved]
  const ORDER := SHAPE + [MissingPrefix, MissingSuffix] + [HasNumbers, HasHyphens, HasUnderscores]

  lemma SuffixExactly(n: string, suffix: string)
    ensures HasSuffix(n, suffix) <==> exists x :: n == x + suffix
  {
    if HasSuffix(n, suffix) {
      assert n == n[..|n| - |suffix|] + suffix;
    }
    if x :| n == x + suffix {
      assert n[|n| - |suffix|..] == suffix;
    }
  }

  lemma NextError(es: seq<NameError>, order: seq<NameError>, n: string, r: Rules, before: seq<nat>,
                  e: NameError, broken: bool)
    returns (at: seq<nat>)
    requires Selects(es, order, Broken(n, r), before) && (broken <==> Breaks(e, n, r))
    ensures Selects(es + When(broken, e), order + [e], Broken(n, r), at)
  {
    SelectsNext(es, order, Broken(n, r), before, e);
    at := before + (if Broken(n, r)(e) then [|order|] else []);
  }

  lemma TwoErrors(es: seq<NameError>, order: seq<NameError>, n: string, r: Rules, before: seq<nat>,
                  e: NameError, broken: bool, f: NameError, alsoBroken: bool)
    returns (at: seq<nat>)
    requires Selects(es, order, Broken(n, r), before)
    requires (broken <==> Breaks(e, n, r)) && (alsoBroken <==> Breaks(f, n, r))
    ensures Selects(es + (When(broken, e) + When(alsoBroken, f)), order + [e, f], Broken(n, r), at)
  {
    at := NextError(es, order, n, r, before, e, broken);
    at := NextError(es + When(broken, e), order + [e], n, r, at, f, alsoBroken);
    Regrouped(es, When(broken, e), When(alsoBroken, f));
    Regrouped(order, [e], [f]);
    assert [e] + [f] == [e, f];
  }

  lemma ShapeInOrder(n: string, r: Rules) returns (at: seq<nat>)
    ensures Selects(ShapeErrors(n, r), SHAPE, Broken(n, r), at)
  {
    var short, long := |n| < r.minLength, |n| > r.maxLength;
    var pattern, reserved := !Matches(r.pattern, n), IsReserved(r.reservedNames, n);
    var lengths := When(short, TooShort) + When(long, TooLong);
    at := TwoErrors([], [], n, r, [], TooShort, short, TooLong, long);
    assert [] + lengths == lengths && [] + [TooShort, TooLong] == [TooShort, TooLong];
    at := TwoErrors(lengths, [TooShort, TooLong], n, r, at, BadPattern, pattern, Reserved, reserved);
    Regrouped(lengths, When(pattern, BadPattern), When(reserved, Reserved));
    assert [TooShort, TooLong] + [BadPattern, Reserved] == SHAPE;
  }

  lemma AffixesInOrder(es: seq<NameError>, order: seq<NameError>, n: string, r: Rules, before: seq<nat>)
    returns (at: seq<nat>)
    requires Selects(es, order, Broken(n, r), before)
    ensures Selects(es + AffixErrors(n, r), order + [MissingPrefix, MissingSuffix], Broken(n, r), at)
  {
    SuffixExactly(n, r.requiredSuffix);
    assert n == n + "";
    at := TwoErrors(es, order, n, r, before,
                    MissingPrefix, r.requiredPrefix != "" && !(r.requiredPrefix <= n),
                    MissingSuffix, r.requiredSuffix != "" && !HasSuffix(n, r.requiredSuffix));
  }

  lemma CharactersInOrder(es: seq<NameError>, order: seq<NameError>, n: string, r: Rules, before: seq<nat>)
    returns (at: seq<nat>)
    requires Selects(es, order, Broken(n, r), before)
    ensures Selects(es + CharacterErrors(n, r), order + [HasNumbers, HasHyphens, HasUnderscores], Broken(n, r), at)
  {
    var numbers, hyphens := !r.allowNumbers && Numbered(n), !r.allowHyphens && '-' in n;
    var underscores := !r.allowUnderscores && '_' in n;
    at := TwoErrors(es, order, n, r, before, HasNumbers, numbers, HasHyphens, hyphens);
    var first := When(numbers, HasNumbers) + When(hyphens, HasHyphens);
    at := NextError(es + first, order + [HasNumbers, HasHyphens], n, r, at, HasUnderscores, underscores);
    Regrouped(es, first, When(underscores, HasUnderscores));
    Regrouped(order, [HasNumbers, HasHyphens], [HasUnderscores]);
    assert [HasNumbers, HasHyphens] + [HasUnderscores] == [HasNumbers, HasHyphens, HasUnderscores];
  }

  lemma Regrouped<T>(a: seq<T>, b: seq<T>, c: seq<T>)
    ensures a + b + c == a + (b + c)
  {
  }

  /** A name that is not empty gets exactly the errors of the rules it breaks, in a fixed order. */
  lemma ErrorsInOrder(n: string, r: Rules) returns (at: seq<nat>)
    requires n != ""
    ensures Selects(Errors(n, r), ORDER, Broken(n, r), at)
  {
    at := ShapeInOrder(n, r);
    at := AffixesInOrder(ShapeErrors(n, r), SHAPE, n, r, at);
    at := CharactersInOrder(ShapeErrors(n, r) + AffixErrors(n, r), SHAPE + [MissingPrefix, MissingSuffix], n, r, at);
  }

  /** Each error is reported exactly when its rule is broken; an empty name is only told that it is empty. */
  lemma ErrorsExactly(n: string, r: Rules, e: NameError)
    ensures n == "" ==> Errors(n, r) == [Empty]
    ensures n != "" ==> (e in Errors(n, r) <==> Breaks(e, n, r))
  {
    if n != "" {
      var at := ErrorsInOrder(n, r);
      SelectsMembers(Errors(n, r), ORDER, Broken(n, r), at, e);
      AllInOrder(e);
    }
  }

  lemma AllInOrder(e: NameError)
    ensures e in ORDER <==> e != Empty
  {
    assert ORDER == [TooShort, TooLong, BadPattern, Reserved, MissingPrefix, MissingSuffix,
                     HasNumbers, HasHyphens, HasUnderscores];
  }

  // --- warnings ---

  /** The places of the capitals. */
  function Capitals(s: string): set<nat> {
    set i: nat | i < |s| && 'A' <= s[i] <= 'Z'
  }

  lemma {:induction false} UpperCountMeans(s: string)
    ensures UpperCount(s) == |Capitals(s)|
  {
    if s != "" {
      var init := s[..|s| - 1];
      UpperCountMeans(init);
      assert Capitals(s) == Capitals(init) + (if IsUpper(s[|s| - 1]) then {|init|} else {});
    }
  }

  /** Each warning is given exactly when its condition holds. */
  lemma WarningsExactly(n: string)
    ensures LeadingNumber in Warnings(n) <==> n != "" && '0' <= n[0] <= '9'
    ensures ConsecutiveSpecial in Warnings(n) <==>
              exists i :: 0 < i < |n| && n[i - 1] in ['-', '_'] && n[i] in ['-', '_']
    ensures Long in Warnings(n) <==> |n| > 30
    ensures Abbreviation in Warnings(n) <==> 0 < |n| <= 4 && 5 * |Capitals(n)| > 3 * |n|
  {
    UpperCountMeans(n);
    if i :| 0 < i < |n| && n[i - 1] in ['-', '_'] && n[i] in ['-', '_'] {
      assert TwoSpecial(n, i);
    }
  }

  // --- configured rules ---

  /** What configured rules accept, said of the configuration itself: the bounds or their defaults, the
      language the switches describe, the reserved names or the built-in ones, prefix and suffix. */
  lemma ConvertedRulesMean(c: Config, name: string)
    ensures var n := if c.caseSensitive then TrimSpace(name) else Lowered(TrimSpace(name));
            IsValidName(name, Converted(c)) <==>
              && n != ""
              && (if c.minLength <= 0 then 3 else c.minLength) <= |n|
              && |n| <= (if c.maxLength <= 0 then 50 else c.maxLength)
              && Described(c, n)
              && !(if c.reservedNames == [] then IsReserved(BuiltIn, n) else n in c.reservedNames)
              && c.requiredPrefix <= n && HasSuffix(n, c.requiredSuffix)
  {
    var n := Cased(name, Converted(c));
    LanguageIsDescribed(c, n);
    AllowChecksAreRedundant(c, n);
    ConvertedReserved(c, n);
  }

  lemma ConvertedReserved(c: Config, n: string)
    ensures IsReserved(Converted(c).reservedNames, n)
            <==> if c.reservedNames == [] then IsReserved(BuiltIn, n) else n in c.reservedNames
  {
    var names := set m | m in c.reservedNames;
    if c.reservedNames != [] {
      assert c.reservedNames[0] in names;
    }
  }
}
