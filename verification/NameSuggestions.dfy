/** conventions.go GenerateAgentName and validator.go SuggestNames. */
module NameSuggestions {
  import opened Ascii
  import opened Common
  import opened NamePattern
  import opened NamingRules
  import opened AgentNaming
  import opened NameNormalization
  import opened NameText

  /** The parts joined with the separator the rules allow. */
  function Joined(baseName: string, purpose: string, r: Rules): string {
    var separator := if !r.allowHyphens && r.allowUnderscores then "_" else "-";
    if baseName == "" && purpose == "" then "custom"
    else if baseName == "" then purpose
    else if purpose == "" then baseName
    else baseName + separator + purpose
  }

  function Generated(baseName: string, purpose: string, r: Rules): string {
    Normalized(Joined(baseName, purpose, r), r)
  }

  /** Under the default rules a generated name has the pattern, and is valid unless reserved,
      exactly when both parts or neither were given, or the one given has a character to keep. */
  lemma GeneratedExactly(baseName: string, purpose: string)
    ensures var n := Generated(baseName, purpose, DEFAULT_RULES);
            var keeps := (baseName == "" <==> purpose == "")
                         || exists c :: c in baseName + purpose && Keepable(c);
            && (Matches(DEFAULT_PATTERN, n) <==> keeps)
            && (IsValidName(n, DEFAULT_RULES) <==> keeps && !IsReserved(BuiltIn, n))
  {
    var joined := Joined(baseName, purpose, DEFAULT_RULES);
    DefaultNormalization(joined);
    KeptExactly(joined, DEFAULT_RULES);
    if baseName == "" && purpose == "" {
      assert "custom"[0] == 'c';
      assert 'c' in joined && Keepable('c');
    } else if baseName != "" && purpose != "" {
      assert joined[|baseName|] == '-';
      assert '-' in joined && Keepable('-');
    } else {
      assert joined == baseName + purpose;
    }
  }

  /** Characters the rules leave alone. */
  predicate Plain(s: string, r: Rules) {
    forall i :: 0 <= i < |s| ==> Folded(s[i], r) == s[i] && Allowed(s[i], r)
  }

  /** Two parts that the rules leave alone come out whole, in this order, with a hyphen between them, or an
      underscore where only underscores are allowed. */
  lemma PartsAreKept(baseName: string, purpose: string, r: Rules)
    requires r.requiredPrefix == "" && r.requiredSuffix == "" && (r.allowHyphens || r.allowUnderscores)
    requires Plain(baseName, r) && Plain(purpose, r) && baseName != "" && purpose != ""
    requires IsLetter(baseName[0]) && purpose[|purpose| - 1] != '-' && purpose[|purpose| - 1] != '_'
    requires r.minLength <= |baseName| + 1 + |purpose| <= r.maxLength
    ensures Generated(baseName, purpose, r) == baseName + (if r.allowHyphens then "-" else "_") + purpose
  {
    var joined := baseName + (if r.allowHyphens then "-" else "_") + purpose;
    forall i | 0 <= i < |joined| ensures Folded(joined[i], r) == joined[i] && Allowed(joined[i], r) {
      if i < |baseName| {
        assert joined[i] == baseName[i];
      } else if i > |baseName| {
        assert joined[i] == purpose[i - |baseName| - 1];
      }
    }
    EmptySuffix(joined);
    assert joined[|joined| - 1] == purpose[|purpose| - 1];
    FixedUnderAnyRules(joined, r);
  }

  /** With one part missing the other is normalised alone, and with both missing "custom" is. */
  lemma MissingParts(part: string, r: Rules)
    ensures Generated(part, "", r) == Generated("", part, r) == Normalized(if part == "" then "custom" else part, r)
  {
  }

  /** The text after the first listed prefix it properly starts with, or all of it. */
  function WithoutPrefix(name: string, prefixes: seq<string>): string {
    if prefixes == [] then name
    else if |name| > |prefixes[0]| && prefixes[0] <= name then name[|prefixes[0]|..]
    else WithoutPrefix(name, prefixes[1..])
  }

  function WithoutSuffix(name: string, suffixes: seq<string>): string {
    if suffixes == [] then name
    else if |name| > |suffixes[0]| && HasSuffix(name, suffixes[0]) then name[..|name| - |suffixes[0]|]
    else WithoutSuffix(name, suffixes[1..])
  }

  function ExtractBaseName(name: string): string {
    WithoutSuffix(WithoutPrefix(name, ["teneo-", "agent-", "bot-", "service-"]),
                  ["-agent", "-bot", "-service", "-handler"])
  }

  predicate ProperlyStarts(name: string, prefix: string) {
    |name| > |prefix| && prefix <= name
  }

  predicate ProperlyEnds(name: string, suffix: string) {
    |name| > |suffix| && HasSuffix(name, suffix)
  }

  lemma {:induction false} PrefixSplit(name: string, prefixes: seq<string>) returns (prefix: string)
    ensures name == prefix + WithoutPrefix(name, prefixes)
    ensures || (prefix in prefixes && ProperlyStarts(name, prefix))
            || (prefix == "" && forall p :: p in prefixes ==> !ProperlyStarts(name, p))
  {
    if prefixes == [] {
      prefix := "";
    } else if ProperlyStarts(name, prefixes[0]) {
      prefix := prefixes[0];
    } else {
      prefix := PrefixSplit(name, prefixes[1..]);
      assert forall p :: p in prefixes ==> p == prefixes[0] || p in prefixes[1..];
    }
  }

  lemma {:induction false} SuffixSplit(name: string, suffixes: seq<string>) returns (suffix: string)
    ensures name == WithoutSuffix(name, suffixes) + suffix
    ensures || (suffix in suffixes && ProperlyEnds(name, suffix))
            || (suffix == "" && forall x :: x in suffixes ==> !ProperlyEnds(name, x))
  {
    if suffixes == [] {
      suffix := "";
    } else if ProperlyEnds(name, suffixes[0]) {
      suffix := suffixes[0];
    } else {
      suffix := SuffixSplit(name, suffixes[1..]);
      assert forall x :: x in suffixes ==> x == suffixes[0] || x in suffixes[1..];
    }
  }

  lemma SplitBoth(name: string, prefixes: seq<string>, suffixes: seq<string>, base: string)
    returns (prefix: string, suffix: string)
    requires base == WithoutSuffix(WithoutPrefix(name, prefixes), suffixes)
    ensures name == prefix + base + suffix && (name != "" ==> base != "")
    ensures || (prefix in prefixes && ProperlyStarts(name, prefix))
            || (prefix == "" && forall p :: p in prefixes ==> !ProperlyStarts(name, p))
    ensures || (suffix in suffixes && ProperlyEnds(base + suffix, suffix))
            || (suffix == "" && forall x :: x in suffixes ==> !ProperlyEnds(base, x))
  {
    var rest := WithoutPrefix(name, prefixes);
    prefix := PrefixSplit(name, prefixes);
    suffix := SuffixSplit(rest, suffixes);
    assert rest == base + suffix;
    if suffix == "" {
      assert rest == base;
    }
    assert prefix + (base + suffix) == prefix + base + suffix;
  }

  /** The base name is the name without one of four prefixes, if it properly starts with one, and then
      without one of four suffixes, if the rest properly ends with one; no more of it is lost. */
  lemma BaseNameSplits(name: string) returns (prefix: string, suffix: string)
    ensures var base := ExtractBaseName(name);
            var prefixes := ["teneo-", "agent-", "bot-", "service-"];
            var suffixes := ["-agent", "-bot", "-service", "-handler"];
            && name == prefix + base + suffix && (name != "" ==> base != "")
            && (|| (prefix in prefixes && ProperlyStarts(name, prefix))
                || (prefix == "" && forall p :: p in prefixes ==> !ProperlyStarts(name, p)))
            && (|| (suffix in suffixes && ProperlyEnds(base + suffix, suffix))
                || (suffix == "" && forall x :: x in suffixes ==> !ProperlyEnds(base, x)))
  {
    prefix, suffix := SplitBoth(name, ["teneo-", "agent-", "bot-", "service-"],
                                ["-agent", "-bot", "-service", "-handler"], ExtractBaseName(name));
  }

  const PURPOSES := ["agent", "bot", "service", "handler", "processor"]
  const NUMERALS := ["1", "2", "3", "4", "5"]

  /** The names SuggestNames considers, in order, up to the i-th purpose: the normalised name, then for
      each purpose the generated name and, where numbers are allowed, that name with its numeral. */
  function Candidates(normalized: string, baseName: string, r: Rules, i: nat): seq<string>
    requires i <= |PURPOSES|
  {
    if i == 0 then [normalized]
    else Candidates(normalized, baseName, r, i - 1) + Variations(baseName, r, i - 1)
  }

  function AllCandidates(invalidName: string, r: Rules): seq<string> {
    Candidates(Normalized(invalidName, r), ExtractBaseName(invalidName), r, |PURPOSES|)
  }

  function Variations(baseName: string, r: Rules, i: nat): seq<string>
    requires i < |PURPOSES|
  {
    var generated := Generated(baseName, PURPOSES[i], r);
    [generated] + (if r.allowNumbers then [generated + NUMERALS[i]] else [])
  }

  lemma VariationsMean(baseName: string, r: Rules, i: nat)
    requires i < |PURPOSES|
    ensures var generated := Generated(baseName, ["agent", "bot", "service", "handler", "processor"][i], r);
            Variations(baseName, r, i) ==
              if r.allowNumbers then [generated, generated + ["1", "2", "3", "4", "5"][i]] else [generated]
  {
  }

  lemma {:induction false} CandidatesLength(normalized: string, baseName: string, r: Rules, n: nat)
    requires n <= |PURPOSES|
    ensures |Candidates(normalized, baseName, r, n)| == 1 + (if r.allowNumbers then 2 * n else n)
  {
    if n > 0 {
      CandidatesLength(normalized, baseName, r, n - 1);
      VariationsMean(baseName, r, n - 1);
    }
  }

  lemma {:induction false} CandidatesGrow(normalized: string, baseName: string, r: Rules, i: nat, n: nat)
    requires i <= n <= |PURPOSES|
    ensures Candidates(normalized, baseName, r, i) <= Candidates(normalized, baseName, r, n)
    decreases n - i
  {
    if i < n {
      CandidatesGrow(normalized, baseName, r, i + 1, n);
    }
  }

  lemma Block(before: seq<string>, more: seq<string>, names: seq<string>, at: nat)
    requires before + more <= names && at == |before|
    ensures at + |more| <= |names| && names[at..at + |more|] == more
  {
    assert (before + more)[|before|..] == more;
  }

  lemma OneMorePurpose(normalized: string, baseName: string, r: Rules, i: nat)
    requires i < |PURPOSES|
    ensures Candidates(normalized, baseName, r, i + 1)
            == Candidates(normalized, baseName, r, i) + Variations(baseName, r, i)
  {
  }

  lemma BlockAt(normalized: string, baseName: string, r: Rules, i: nat, n: nat, at: nat)
    requires i < n <= |PURPOSES| && at == |Candidates(normalized, baseName, r, i)|
    ensures var names, more := Candidates(normalized, baseName, r, n), Variations(baseName, r, i);
            at + |more| <= |names| && names[at..at + |more|] == more
  {
    var before, more := Candidates(normalized, baseName, r, i), Variations(baseName, r, i);
    OneMorePurpose(normalized, baseName, r, i);
    CandidatesGrow(normalized, baseName, r, i + 1, n);
    Block(before, more, Candidates(normalized, baseName, r, n), at);
  }

  /** Which candidate stands where: the normalised name first, then the variations of each purpose in turn. */
  lemma CandidatesAt(invalidName: string, r: Rules, i: nat)
    requires i < |PURPOSES|
    ensures var names := AllCandidates(invalidName, r);
            var at := if r.allowNumbers then 1 + 2 * i else 1 + i;
            var more := Variations(ExtractBaseName(invalidName), r, i);
            && |names| == (if r.allowNumbers then 11 else 6) && names[0] == Normalized(invalidName, r)
            && at + |more| <= |names| && names[at..at + |more|] == more
  {
    var normalized, baseName := Normalized(invalidName, r), ExtractBaseName(invalidName);
    CandidatesLength(normalized, baseName, r, |PURPOSES|);
    FirstCandidate(normalized, baseName, r, |PURPOSES|);
    CandidatesLength(normalized, baseName, r, i);
    BlockAt(normalized, baseName, r, i, |PURPOSES|, if r.allowNumbers then 1 + 2 * i else 1 + i);
  }

  function Valid(r: Rules): string -> bool {
    name => IsValidName(name, r)
  }

  /** Takes the name if there is room and it is valid and new. */
  function Taken(picked: seq<string>, name: string, limit: nat, valid: string -> bool): seq<string> {
    if |picked| < limit && valid(name) && name !in picked then picked + [name] else picked
  }

  /** The first limit different valid names of a list. */
  function FirstValid(names: seq<string>, limit: nat, valid: string -> bool): seq<string> {
    if names == [] then []
    else Taken(FirstValid(names[..|names| - 1], limit, valid), names[|names| - 1], limit, valid)
  }

  lemma FirstValidAppend(names: seq<string>, name: string, limit: nat, valid: string -> bool)
    ensures FirstValid(names + [name], limit, valid) == Taken(FirstValid(names, limit, valid), name, limit, valid)
  {
    assert (names + [name])[..|names|] == names;
  }

  /** A full list takes no more names. */
  lemma {:induction false} FirstValidFull(names: seq<string>, more: seq<string>, limit: nat, valid: string -> bool)
    requires |FirstValid(names, limit, valid)| >= limit
    ensures FirstValid(names + more, limit, valid) == FirstValid(names, limit, valid)
  {
    if more == [] {
      assert names + [] == names;
    } else {
      var init, last := more[..|more| - 1], more[|more| - 1];
      FirstValidFull(names, init, limit, valid);
      FirstValidAppend(names + init, last, limit, valid);
      assert names + init + [last] == names + more;
    }
  }

  /** What FirstValid gives: different valid names of the list, no more than the limit, and all of
      them when there are fewer. */
  lemma {:induction false} FirstValidMeans(names: seq<string>, limit: nat, valid: string -> bool)
    ensures var picked := FirstValid(names, limit, valid);
            && Distinct(picked) && |picked| <= limit
            && (forall name :: name in picked ==> name in names && valid(name))
            && (|picked| < limit ==> forall name :: name in names && valid(name) ==> name in picked)
  {
    if names != [] {
      var init, last := names[..|names| - 1], names[|names| - 1];
      FirstValidMeans(init, limit, valid);
      assert names == init + [last];
      assert forall name :: name in names <==> name in init || name == last;
    }
  }

  /** They stand in the list's order: at says where each stood. When the limit is reached every other
      valid name of the list stands further back than the last one taken. */
  lemma {:induction false} FirstValidInOrder(names: seq<string>, limit: nat, valid: string -> bool)
    returns (at: seq<nat>)
    ensures var picked := FirstValid(names, limit, valid);
            && |at| == |picked|
            && (forall i :: 0 <= i < |at| ==> at[i] < |names| && picked[i] == names[at[i]])
            && (forall i, j :: 0 <= i < j < |at| ==> at[i] < at[j])
            && (forall j :: 0 <= j < |names| && valid(names[j]) && names[j] !in picked ==>
                  |picked| == limit && forall i :: 0 <= i < |at| ==> at[i] < j)
  {
    at := [];
    if names != [] {
      var init, last := names[..|names| - 1], names[|names| - 1];
      var before := FirstValidInOrder(init, limit, valid);
      var picked := FirstValid(init, limit, valid);
      FirstValidMeans(init, limit, valid);
      at := before + (if |picked| < limit && valid(last) && last !in picked then [|init|] else []);
    }
  }

  lemma {:induction false} FirstValidKeepsFirst(names: seq<string>, limit: nat, valid: string -> bool)
    requires names != [] && limit > 0 && valid(names[0])
    ensures FirstValid(names, limit, valid) != [] && FirstValid(names, limit, valid)[0] == names[0]
  {
    if |names| > 1 {
      FirstValidKeepsFirst(names[..|names| - 1], limit, valid);
    } else {
      assert names[..0] == [];
    }
  }

  function Limit(count: int): nat {
    if count <= 0 then 3 else count
  }

  /** Adds a candidate if it is valid and new. */
  method Offer(suggestions: seq<string>, candidate: string, limit: nat, r: Rules) returns (extended: seq<string>)
    requires |suggestions| < limit
    ensures extended == Taken(suggestions, candidate, limit, Valid(r))
  {
    var ok, errors, warnings, cased := ValidateAgentName(candidate, r);
    if ok && candidate !in suggestions {
      return suggestions + [candidate];
    }
    return suggestions;
  }

  /** The body of the loop over the purposes: names is what has been considered before. */
  method OfferVariations(suggestions: seq<string>, baseName: string, i: nat, limit: nat, r: Rules,
                         ghost names: seq<string>)
    returns (extended: seq<string>)
    requires i < |PURPOSES| && |suggestions| < limit && suggestions == FirstValid(names, limit, Valid(r))
    ensures extended == FirstValid(names + Variations(baseName, r, i), limit, Valid(r))
  {
    var generated := NormalizeAgentName(Joined(baseName, PURPOSES[i], r), r);
    extended := OfferPair(suggestions, generated, generated + NUMERALS[i], limit, r, names);
  }

  /** Offers a name and, where numbers are allowed and there is room, its numbered form. */
  method OfferPair(suggestions: seq<string>, generated: string, numbered: string, limit: nat, r: Rules,
                   ghost names: seq<string>)
    returns (extended: seq<string>)
    requires |suggestions| < limit && suggestions == FirstValid(names, limit, Valid(r))
    ensures extended == FirstValid(names + ([generated] + (if r.allowNumbers then [numbered] else [])), limit, Valid(r))
  {
    extended := Offer(suggestions, generated, limit, r);
    FirstValidAppend(names, generated, limit, Valid(r));
    FirstValidAppend(names + [generated], numbered, limit, Valid(r));
    assert [generated] + [] == [generated];
    assert names + [generated] + [numbered] == names + ([generated] + [numbered]);
    if |extended| < limit && r.allowNumbers {
      extended := Offer(extended, numbered, limit, r);
    }
  }

  lemma {:induction false} FullEarly(normalized: string, baseName: string, r: Rules, i: nat, n: nat, limit: nat,
                                      valid: string -> bool)
    requires i <= n <= |PURPOSES|
    ensures var picked := FirstValid(Candidates(normalized, baseName, r, i), limit, valid);
            |picked| >= limit ==> FirstValid(Candidates(normalized, baseName, r, n), limit, valid) == picked
    decreases n - i
  {
    if i < n && |FirstValid(Candidates(normalized, baseName, r, i), limit, valid)| >= limit {
      FirstValidFull(Candidates(normalized, baseName, r, i), Variations(baseName, r, i), limit, valid);
      FullEarly(normalized, baseName, r, i + 1, n, limit, valid);
    }
  }

  /** The loop over the first n purposes; suggestions already holds what came of the normalised name. */
  method OfferAll(suggestions: seq<string>, ghost normalized: string, baseName: string, n: nat, limit: nat, r: Rules)
    returns (extended: seq<string>)
    requires n <= |PURPOSES|
    requires suggestions == FirstValid(Candidates(normalized, baseName, r, 0), limit, Valid(r))
    ensures extended == FirstValid(Candidates(normalized, baseName, r, n), limit, Valid(r))
  {
    extended := suggestions;
    var i := 0;
    while i < n
      invariant 0 <= i <= n
      invariant extended == FirstValid(Candidates(normalized, baseName, r, i), limit, Valid(r))
    {
      if |extended| >= limit {
        FullEarly(normalized, baseName, r, i, n, limit, Valid(r));
        break;
      }
      extended := OfferVariations(extended, baseName, i, limit, r, Candidates(normalized, baseName, r, i));
      i := i + 1;
    }
  }

  /** The suggestions are the first different valid candidates, in order, as many as asked for. */
  method SuggestNames(invalidName: string, count: int, r: Rules) returns (suggestions: seq<string>)
    ensures suggestions == FirstValid(AllCandidates(invalidName, r), Limit(count), Valid(r))
  {
    var limit := Limit(count);
    var normalized := NormalizeAgentName(invalidName, r);
    suggestions := Offer([], normalized, limit, r);
    assert [normalized][..0] == [];
    suggestions := OfferAll(suggestions, normalized, ExtractBaseName(invalidName), |PURPOSES|, limit, r);
  }

  /** Every suggestion is a valid candidate, none is repeated, there are never more than asked for, the
      normalised name comes first whenever it is valid, and when there are fewer than asked for no
      valid candidate was left out. */
  lemma SuggestionsMeet(invalidName: string, count: int, r: Rules)
    ensures var candidates := AllCandidates(invalidName, r);
            var suggestions := FirstValid(candidates, Limit(count), Valid(r));
            && Distinct(suggestions) && |suggestions| <= Limit(count)
            && (forall name :: name in suggestions ==> name in candidates && IsValidName(name, r))
            && (|suggestions| < Limit(count) ==>
                  forall name :: name in candidates && IsValidName(name, r) ==> name in suggestions)
            && (IsValidName(Normalized(invalidName, r), r) ==>
                  suggestions != [] && suggestions[0] == Normalized(invalidName, r))
  {
    var candidates := AllCandidates(invalidName, r);
    FirstValidMeans(candidates, Limit(count), Valid(r));
    FirstCandidate(Normalized(invalidName, r), ExtractBaseName(invalidName), r, |PURPOSES|);
    if IsValidName(Normalized(invalidName, r), r) {
      FirstValidKeepsFirst(candidates, Limit(count), Valid(r));
    }
  }

  lemma {:induction false} FirstCandidate(normalized: string, baseName: string, r: Rules, i: nat)
    requires i <= |PURPOSES|
    ensures Candidates(normalized, baseName, r, i) != [] && Candidates(normalized, baseName, r, i)[0] == normalized
  {
    if i > 0 {
      FirstCandidate(normalized, baseName, r, i - 1);
    }
  }
}
