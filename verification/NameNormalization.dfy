/** What normalising an agent name promises under the default and the strict rules, and when. */
module NameNormalization {
  import opened Common
  import opened Ascii
  import opened NamePattern
  import opened NamingRules
  import opened AgentNaming

  // --- the passes, one by one ---

  lemma {:induction false} FilteredKeeps(s: string, r: Rules)
    ensures forall c :: c in Filtered(s, r) <==> c in s && ValidFor(c, r)
    ensures (forall c :: c in s ==> ValidFor(c, r)) ==> Filtered(s, r) == s
  {
    if s != "" {
      var init, last := s[..|s| - 1], s[|s| - 1];
      FilteredKeeps(init, r);
      assert s == init + [last];
      forall c ensures c in Filtered(s, r) <==> c in s && ValidFor(c, r) {
        assert c in s <==> c in init || c == last;
      }
      if forall c :: c in s ==> ValidFor(c, r) {
        assert last in s && forall c :: c in init ==> c in s;
      }
    }
  }

  lemma {:induction false} TrimmedSpecial(s: string)
    ensures var t := TrimRightSpecial(s);
            && |t| <= |s| && t == s[..|t|]
            && (t != "" ==> !IsSpecial(t[|t| - 1]))
            && (forall i :: |t| <= i < |s| ==> IsSpecial(s[i]))
  {
    if s != "" && IsSpecial(s[|s| - 1]) {
      TrimmedSpecial(s[..|s| - 1]);
    }
  }

  lemma {:induction false} TrimmedLeft(s: string)
    ensures forall c :: !IsSpace(c) ==> (c in TrimLeftSpace(s) <==> c in s)
    ensures forall c :: c in TrimLeftSpace(s) ==> c in s
    ensures s == "" || !IsSpace(s[0]) ==> TrimLeftSpace(s) == s
  {
    if s != "" && IsSpace(s[0]) {
      TrimmedLeft(s[1..]);
      assert s == [s[0]] + s[1..];
    }
  }

  lemma {:induction false} TrimmedRight(s: string)
    ensures forall c :: !IsSpace(c) ==> (c in TrimRightSpace(s) <==> c in s)
    ensures forall c :: c in TrimRightSpace(s) ==> c in s
    ensures s == "" || !IsSpace(s[|s| - 1]) ==> TrimRightSpace(s) == s
  {
    if s != "" && IsSpace(s[|s| - 1]) {
      TrimmedRight(s[..|s| - 1]);
      assert s == s[..|s| - 1] + [s[|s| - 1]];
    }
  }

  lemma Trimmed(s: string)
    ensures forall c :: !IsSpace(c) ==> (c in TrimSpace(s) <==> c in s)
    ensures forall c :: c in TrimSpace(s) ==> c in s
    ensures (forall c :: c in s ==> !IsSpace(c)) ==> TrimSpace(s) == s
  {
    TrimmedLeft(s);
    TrimmedRight(TrimLeftSpace(s));
  }

  /** A name that starts with a letter and does not end with a separator. */
  predicate WellEnded(s: string) {
    s != "" && IsLetter(s[0]) && !IsSpecial(s[|s| - 1])
  }

  lemma TrimmedIsWellEnded(s: string)
    requires s != "" && IsLetter(s[0])
    ensures WellEnded(TrimRightSpecial(s))
  {
    TrimmedSpecial(s);
  }

  lemma WellEndedIsTrimmed(s: string)
    requires WellEnded(s)
    ensures TrimRightSpecial(s) == s
  {
  }

  /** Whatever was kept, the led text is well ended, and uses only kept characters and the lead's. */
  lemma LedIsWellEnded(kept: string)
    requires kept != ""
    ensures WellEnded(Led(kept))
    ensures forall c :: c in Led(kept) ==> c in kept || c in LEAD
  {
    var x := if IsLetter(kept[0]) then kept else LEAD + kept;
    TrimmedIsWellEnded(x);
    TrimmedSpecial(x);
  }

  // --- default rules ---

  /** What of the default rules normalisation looks at. */
  predicate Lenient(r: Rules) {
    && !r.caseSensitive && r.allowNumbers && r.allowHyphens && r.allowUnderscores
    && r.requiredPrefix == "" && r.requiredSuffix == ""
    && r.minLength == 3 && r.maxLength == 50
  }

  /** A character the default rules keep. */
  predicate Keepable(c: char) {
    IsLetter(c) || IsDigit(c) || IsSpecial(c)
  }

  /** Lower-case letters, digits and separators, well ended. */
  predicate Clean(s: string) {
    WellEnded(s) && forall c :: c in s ==> Keepable(c) && !IsUpper(c)
  }

  lemma LoweredIsLower(s: string)
    ensures forall c :: c in Lowered(s) ==> !IsUpper(c)
    ensures (forall c :: c in s ==> !IsUpper(c)) ==> Lowered(s) == s
  {
    if forall c :: c in s ==> !IsUpper(c) {
      assert forall i :: 0 <= i < |s| ==> Lowered(s)[i] == s[i];
    }
  }

  lemma DefaultKept(name: string, r: Rules)
    requires Lenient(r)
    ensures forall c :: c in Kept(name, r) ==> Keepable(c) && !IsUpper(c)
  {
    LoweredIsLower(TrimSpace(name));
    FilteredKeeps(Cased(name, r), r);
  }

  lemma LoweredAt(s: string, c: char)
    requires c in s
    ensures ToLower(c) in Lowered(s)
  {
    var i :| 0 <= i < |s| && s[i] == c;
    assert Lowered(s)[i] == ToLower(c);
  }

  lemma LoweredFrom(s: string, c: char)
    requires c in Lowered(s)
    ensures exists d :: d in s && c == ToLower(d)
  {
    var i :| 0 <= i < |s| && Lowered(s)[i] == c;
    assert s[i] in s;
  }

  lemma KeptFrom(name: string, r: Rules)
    requires Lenient(r)
    ensures forall c :: c in Kept(name, r) <==> c in Lowered(TrimSpace(name)) && Keepable(c)
  {
    FilteredKeeps(Lowered(TrimSpace(name)), r);
  }

  /** Normalisation keeps something exactly when the name holds a letter, digit, hyphen or underscore. */
  lemma KeptExactly(name: string, r: Rules)
    requires Lenient(r)
    ensures Kept(name, r) != "" <==> exists c :: c in name && Keepable(c)
  {
    var t, kept := TrimSpace(name), Kept(name, r);
    Trimmed(name);
    KeptFrom(name, r);
    if kept != "" {
      assert kept[0] in kept;
      LoweredFrom(t, kept[0]);
      var d :| d in t && kept[0] == ToLower(d);
      assert d in name && Keepable(d);
    } else {
      forall c | c in name ensures !Keepable(c) {
        if Keepable(c) {
          LoweredAt(t, c);
        }
      }
    }
  }

  lemma EmptySuffix(s: string)
    ensures HasSuffix(s, "") && "" <= s
  {
    assert s[|s|..] == "";
  }

  lemma PaddedIsClean(s: string, r: Rules)
    requires Lenient(r)
    requires Clean(s)
    ensures Clean(Padded(s, r))
    ensures |Padded(s, r)| == Max(|s|, 3)
  {
    var p := Padded(s, r);
    forall c | c in p ensures Keepable(c) && !IsUpper(c) {
      var i :| 0 <= i < |p| && p[i] == c;
      if i < |s| {
        assert p[i] == s[i];
      }
    }
  }

  lemma CutIsClean(s: string, r: Rules)
    requires Lenient(r)
    requires Clean(s)
    ensures Clean(Cut(s, r)) && |Cut(s, r)| <= 50
  {
    if |s| > 50 {
      TrimmedIsWellEnded(s[..50]);
      TrimmedSpecial(s[..50]);
    }
  }

  lemma DefaultResult(name: string, r: Rules)
    requires Lenient(r)
    requires Kept(name, r) != ""
    ensures Clean(Normalized(name, r)) && 3 <= |Normalized(name, r)| <= 50
  {
    var kept := Kept(name, r);
    DefaultKept(name, r);
    LedIsWellEnded(kept);
    assert Clean(Led(kept));
    EmptySuffix(Led(kept));
    CutIsClean(Led(kept), r);
    PaddedIsClean(Cut(Led(kept), r), r);
  }

  lemma FixedByEveryPass(s: string, r: Rules)
    requires Kept(s, r) == s && Led(s) == s && Affixed(s, r) == s
    requires r.minLength <= |s| <= r.maxLength
    ensures Normalized(s, r) == s
  {
    var led := Led(Kept(s, r));
    assert led == s;
    var cut := Cut(Affixed(led, r), r);
    assert cut == s by {
      FitsUncut(s, r);
    }
    FitsUncut(cut, r);
  }

  lemma FitsUncut(s: string, r: Rules)
    requires r.minLength <= |s| <= r.maxLength
    ensures Cut(s, r) == s && Padded(s, r) == s
  {
  }

  lemma CleanIsKept(s: string, r: Rules)
    requires Lenient(r) && Clean(s)
    ensures Cased(s, r) == s && Kept(s, r) == s
  {
    Trimmed(s);
    LoweredIsLower(s);
    FilteredKeeps(s, r);
  }

  lemma CleanIsFixed(s: string, r: Rules)
    requires Lenient(r)
    requires Clean(s) && 3 <= |s| <= 50
    ensures Cased(s, r) == s && Normalized(s, r) == s
  {
    CleanIsKept(s, r);
    WellEndedIsTrimmed(s);
    EmptySuffix(s);
    assert Led(s) == s && Affixed(s, r) == s;
    FixedByEveryPass(s, r);
  }

  const ALL_ALLOWED := Config(0, 0, true, true, true, true, "", "", [])

  lemma DefaultLanguage(s: string)
    ensures Matches(DEFAULT_PATTERN, s) <==> Described(ALL_ALLOWED, s)
  {
    DefaultText();
    PatternTextCompiles(ALL_ALLOWED);
    assert ClassRanges(ALL_ALLOWED) + MiddleRanges(ALL_ALLOWED)
           == LETTERS + DIGITS + [Range('-', '-'), Range('_', '_')];
    assert CompiledPattern(ALL_ALLOWED) == DEFAULT_PATTERN;
    LanguageIsDescribed(ALL_ALLOWED, s);
  }

  lemma CleanMatches(s: string)
    requires Clean(s) && |s| >= 2
    ensures Matches(DEFAULT_PATTERN, s)
  {
    DefaultLanguage(s);
    assert s[|s| - 1] in s;
  }

  lemma NothingKept(name: string, r: Rules)
    requires Lenient(r) && Kept(name, r) == ""
    ensures Normalized(name, r) == "111"
  {
    EmptySuffix("");
    assert Led("") == "";
    assert Padded("", r) == "111";
  }

  lemma OnesAreNotANormalForm(r: Rules)
    requires Lenient(r)
    ensures !Matches(DEFAULT_PATTERN, "111")
    ensures Normalized("111", r) != "111" && Cased("111", r) == "111"
  {
    var ones := "111";
    DefaultLanguage(ones);
    assert ones[0] == '1';
    Trimmed(ones);
    LoweredIsLower(ones);
    FilteredKeeps(ones, r);
    assert Kept(ones, r) == ones;
    DefaultResult(ones, r);
  }

  /** Default rules, any name. The length bounds always hold; the pattern and idempotence hold
      exactly when a character is kept; and the result is then valid exactly when not reserved. */
  lemma DefaultNormalization(name: string)
    ensures var n, kept := Normalized(name, DEFAULT_RULES), Kept(name, DEFAULT_RULES) != "";
            && 3 <= |n| <= 50
            && (kept <==> Matches(DEFAULT_PATTERN, n))
            && (kept <==> Normalized(n, DEFAULT_RULES) == n)
            && (IsValidName(n, DEFAULT_RULES) <==> kept && !IsReserved(BuiltIn, n))
  {
    var n := Normalized(name, DEFAULT_RULES);
    EmptySuffix(n);
    if Kept(name, DEFAULT_RULES) == "" {
      NothingKept(name, DEFAULT_RULES);
      OnesAreNotANormalForm(DEFAULT_RULES);
    } else {
      DefaultResult(name, DEFAULT_RULES);
      CleanMatches(n);
      CleanIsFixed(n, DEFAULT_RULES);
    }
  }

  // --- strict rules ---

  const SUFFIX := "-agent"

  /** What of the strict rules normalisation looks at. */
  predicate Suffixing(r: Rules) {
    && r.caseSensitive && r.allowNumbers && r.allowHyphens && !r.allowUnderscores
    && r.requiredPrefix == "" && r.requiredSuffix == SUFFIX
    && r.minLength == 5 && r.maxLength == 30
  }

  predicate StrictChar(c: char) {
    IsLower(c) || IsDigit(c) || c == '-'
  }

  predicate StrictClean(s: string) {
    && WellEnded(s) && HasSuffix(s, SUFFIX) && |s| <= 30
    && forall c :: c in s ==> StrictChar(c)
  }

  lemma StrictMeans(c: char)
    ensures InRanges([Range('a', 'z')], c) <==> IsLower(c)
    ensures InRanges([Range('a', 'z'), Range('0', '9')], c) <==> IsLower(c) || IsDigit(c)
    ensures InRanges([Range('a', 'z'), Range('0', '9'), Range('-', '-')], c) <==> StrictChar(c)
  {
    RangesOne(Range('a', 'z'), c);
    RangesOne(Range('0', '9'), c);
    RangesOne(Range('-', '-'), c);
    RangesAppend([Range('a', 'z')], [Range('0', '9')], c);
    assert [Range('a', 'z')] + [Range('0', '9')] == [Range('a', 'z'), Range('0', '9')];
    RangesAppend([Range('a', 'z'), Range('0', '9')], [Range('-', '-')], c);
    assert [Range('a', 'z'), Range('0', '9')] + [Range('-', '-')]
           == [Range('a', 'z'), Range('0', '9'), Range('-', '-')];
  }

  lemma StrictLanguage(s: string)
    ensures Matches(STRICT_PATTERN, s) <==>
            |s| >= 2 && IsLower(s[0]) && (IsLower(s[|s| - 1]) || IsDigit(s[|s| - 1]))
            && forall i :: 1 <= i < |s| - 1 ==> StrictChar(s[i])
  {
    var a, b, c := STRICT_PATTERN.items[0].ranges, STRICT_PATTERN.items[1].ranges, STRICT_PATTERN.items[2].ranges;
    OneStarOne(false, a, b, c, s);
    assert STRICT_PATTERN.items == [Item(a, One), Item(b, Star), Item(c, One)];
    forall i | 0 <= i < |s|
      ensures InRanges(a, s[i]) <==> IsLower(s[i])
      ensures InRanges(b, s[i]) <==> StrictChar(s[i])
      ensures InRanges(c, s[i]) <==> IsLower(s[i]) || IsDigit(s[i])
    {
      StrictMeans(s[i]);
    }
  }

  lemma SuffixChars(s: string)
    requires HasSuffix(s, SUFFIX)
    ensures |s| >= 6 && s[|s| - 1] == 't' && s[|s| - 2] == 'n' && s[|s| - 6] == '-'
  {
    assert s[|s| - 6..][5] == 't' && s[|s| - 6..][4] == 'n' && s[|s| - 6..][0] == '-';
  }

  /** No reserved name ends with the strict suffix. */
  lemma SuffixedIsNotReserved(s: string)
    requires HasSuffix(s, SUFFIX)
    ensures !IsReserved(BuiltIn, s)
  {
    SuffixChars(s);
  }

  lemma StrictCleanIsValid(s: string)
    requires StrictClean(s)
    ensures Cased(s, STRICT_RULES) == s && IsValidName(s, STRICT_RULES)
  {
    Trimmed(s);
    SuffixChars(s);
    StrictLanguage(s);
    SuffixedIsNotReserved(s);
  }

  lemma StrictCleanIsKept(s: string, r: Rules)
    requires Suffixing(r) && forall c :: c in s ==> StrictChar(c)
    ensures Kept(s, r) == s
  {
    Trimmed(s);
    forall i | 0 <= i < |s| ensures Replaced(s, '_', '-')[i] == s[i] {
      assert s[i] in s;
    }
    assert Replaced(s, '_', '-') == s;
    FilteredKeeps(s, r);
  }

  lemma StrictCleanIsFixed(s: string, r: Rules)
    requires Suffixing(r)
    requires StrictClean(s)
    ensures Normalized(s, r) == s
  {
    SuffixChars(s);
    StrictCleanIsKept(s, r);
    WellEndedIsTrimmed(s);
    assert Led(s) == s && Affixed(s, r) == s;
    FixedByEveryPass(s, r);
  }

  /** The name with its suffix, before truncation. */
  function Suffixed(name: string, r: Rules): string {
    Affixed(Led(Kept(name, r)), r)
  }

  lemma StrictKept(name: string, r: Rules)
    requires Suffixing(r)
    ensures forall c :: c in Kept(name, r) ==> IsLetter(c) || IsDigit(c) || c == '-'
    ensures (forall c :: c in name ==> !IsUpper(c)) ==> forall c :: c in Kept(name, r) ==> !IsUpper(c)
  {
    Trimmed(name);
    var t := Replaced(TrimSpace(name), '_', '-');
    FilteredKeeps(t, r);
    forall c | c in Kept(name, r) && IsUpper(c) ensures c in name {
      var i :| 0 <= i < |t| && t[i] == c;
      assert TrimSpace(name)[i] == c;
    }
  }

  lemma ReplacedAt(s: string, c: char)
    requires c in s
    ensures (if c == '_' then '-' else c) in Replaced(s, '_', '-')
  {
    var i :| 0 <= i < |s| && s[i] == c;
    assert Replaced(s, '_', '-')[i] == if c == '_' then '-' else c;
  }

  /** Strict rules keep something exactly when the default ones do: a letter, digit, hyphen, or an
      underscore, which turns into a hyphen. */
  lemma StrictKeptExactly(name: string, r: Rules)
    requires Suffixing(r)
    ensures Kept(name, r) != "" <==> exists c :: c in name && Keepable(c)
  {
    var u := TrimSpace(name);
    var t, kept := Replaced(u, '_', '-'), Kept(name, r);
    Trimmed(name);
    FilteredKeeps(t, r);
    if kept != "" {
      assert kept[0] in kept;
      var i :| 0 <= i < |t| && t[i] == kept[0];
      assert u[i] in u && Keepable(u[i]);
    } else {
      forall c | c in name ensures !Keepable(c) {
        if Keepable(c) {
          ReplacedAt(u, c);
        }
      }
    }
  }

  lemma AffixedShape(l: string, r: Rules)
    requires Suffixing(r)
    requires WellEnded(l)
    ensures var s := Affixed(l, r);
            && WellEnded(s) && HasSuffix(s, SUFFIX)
            && forall c :: c in s ==> c in l || c in SUFFIX
  {
    var s := Affixed(l, r);
    assert "" <= l;
    if !HasSuffix(l, SUFFIX) {
      assert s == l + SUFFIX && (l + SUFFIX)[|l|..] == SUFFIX;
    }
    SuffixChars(s);
  }

  /** Lead and suffix are made of lower-case letters and hyphens. */
  lemma FixedText(c: char)
    requires c in LEAD || c in SUFFIX
    ensures IsLower(c) || c == '-'
  {
  }

  lemma SuffixedFrom(name: string, r: Rules, c: char)
    requires Suffixing(r) && Kept(name, r) != "" && c in Suffixed(name, r)
    ensures c in Kept(name, r) || IsLower(c) || c == '-'
  {
    LedIsWellEnded(Kept(name, r));
    AffixedShape(Led(Kept(name, r)), r);
    if c !in Kept(name, r) {
      FixedText(c);
    }
  }

  lemma SuffixedShape(name: string, r: Rules)
    requires Suffixing(r) && Kept(name, r) != ""
    ensures WellEnded(Suffixed(name, r)) && HasSuffix(Suffixed(name, r), SUFFIX)
    ensures forall c :: c in Suffixed(name, r) ==> IsLetter(c) || IsDigit(c) || c == '-'
    ensures (forall c :: c in name ==> !IsUpper(c)) ==> forall c :: c in Suffixed(name, r) ==> !IsUpper(c)
  {
    StrictKept(name, r);
    LedIsWellEnded(Kept(name, r));
    AffixedShape(Led(Kept(name, r)), r);
    forall c | c in Suffixed(name, r) ensures c in Kept(name, r) || IsLower(c) || c == '-' {
      SuffixedFrom(name, r, c);
    }
  }

  /** Does the suffix end up, whole, at the end of the strict result? l is the text before it is added:
      either l fits with it, or l is too long and its first 30 characters happen to end with the suffix,
      trailing hyphens aside. */
  predicate SuffixFits(l: string) {
    || |l| <= 24
    || (|l| <= 30 && HasSuffix(l, SUFFIX))
    || (|l| > 30 && exists k :: 6 <= k <= 30 && SuffixEndsAt(l, k))
  }

  predicate SuffixEndsAt(l: string, k: nat)
    requires 6 <= k <= 30 < |l|
  {
    l[k - 6..k] == SUFFIX && forall i :: k <= i < 30 ==> l[i] == '-'
  }

  /** Strict rules, any name, with l the kept characters after leading and trimming: the result is
      valid exactly when something is kept, the suffix fits, and none of the first 30 characters of l
      is a capital; and then it is a fixed point. */
  lemma StrictNormalization(name: string)
    ensures var n, l := Normalized(name, STRICT_RULES), Led(Kept(name, STRICT_RULES));
            && (IsValidName(n, STRICT_RULES) <==>
                  && Kept(name, STRICT_RULES) != ""
                  && SuffixFits(l)
                  && (forall i :: 0 <= i < Min(30, |l|) ==> !IsUpper(l[i])))
            && (IsValidName(n, STRICT_RULES) ==> Normalized(n, STRICT_RULES) == n)
  {
    if Kept(name, STRICT_RULES) == "" {
      StrictNothingKept(name);
    } else {
      var l := Led(Kept(name, STRICT_RULES));
      SuffixedShape(name, STRICT_RULES);
      SuffixedOutcome(Suffixed(name, STRICT_RULES));
      StrictLed(name);
      SuffixFitsExactly(l);
      CapitalsSurviveExactly(l);
    }
  }

  lemma StrictLed(name: string)
    requires Kept(name, STRICT_RULES) != ""
    ensures var l := Led(Kept(name, STRICT_RULES));
            WellEnded(l) && forall c :: c in l ==> IsLetter(c) || IsDigit(c) || c == '-'
  {
    StrictKept(name, STRICT_RULES);
    LedIsWellEnded(Kept(name, STRICT_RULES));
    forall c | c in Led(Kept(name, STRICT_RULES)) ensures IsLetter(c) || IsDigit(c) || c == '-' {
      if c !in Kept(name, STRICT_RULES) {
        FixedText(c);
      }
    }
  }

  /** The cut text, when there is a cut: the first 30 characters up to the last that is no separator. */
  lemma CutAt(s: string)
    requires |s| > 30
    ensures var cut := Cut(s, STRICT_RULES);
            && |cut| <= 30 && cut == s[..|cut|]
            && (cut != "" ==> !IsSpecial(s[|cut| - 1]))
            && (forall i :: |cut| <= i < 30 ==> IsSpecial(s[i]))
  {
    TrimmedSpecial(s[..30]);
    var cut := TrimRightSpecial(s[..30]);
    assert s[..30][..|cut|] == s[..|cut|];
    forall i | |cut| <= i < 30 ensures IsSpecial(s[i]) {
      assert s[..30][i] == s[i];
    }
  }

  lemma SuffixFitsExactly(l: string)
    requires WellEnded(l) && forall c :: c in l ==> IsLetter(c) || IsDigit(c) || c == '-'
    ensures var s := Affixed(l, STRICT_RULES);
            (|s| <= 30 || HasSuffix(Cut(s, STRICT_RULES), SUFFIX)) <==> SuffixFits(l)
  {
    var s := Affixed(l, STRICT_RULES);
    AffixedText(l, STRICT_RULES);
    if |s| > 30 {
      CutAt(s);
      if |l| > 30 {
        LongSuffixExactly(l, Cut(s, STRICT_RULES));
      } else {
        SuffixCutOff(l, Cut(s, STRICT_RULES));
      }
    }
  }

  lemma AffixedText(l: string, r: Rules)
    requires Suffixing(r)
    ensures Affixed(l, r) == if HasSuffix(l, SUFFIX) then l else l + SUFFIX
    ensures |SUFFIX| == 6 && l <= Affixed(l, r)
  {
    assert "" <= l;
  }

  /** A text of 25 to 30 characters without the suffix loses it to the cut. */
  lemma SuffixCutOff(l: string, cut: string)
    requires 24 < |l| <= 30 && WellEnded(l) && |cut| <= 30 && cut == (l + SUFFIX)[..|cut|]
    requires !HasSuffix(l, SUFFIX)
    requires forall i :: |cut| <= i < 30 ==> IsSpecial((l + SUFFIX)[i])
    ensures !HasSuffix(cut, SUFFIX)
  {
    var s := l + SUFFIX;
    assert s[|l| - 1] == l[|l| - 1];
    assert |cut| >= |l|;
    if |cut| == |l| {
      assert cut == l;
    } else {
      SuffixBeforeT(|cut| - 1 - |l|);
      SuffixEndsInT(cut);
    }
  }

  lemma SuffixBeforeT(i: nat)
    requires i < 5
    ensures |SUFFIX| == 6 && SUFFIX[i] != 't'
  {
  }

  lemma SuffixEndsInT(s: string)
    ensures HasSuffix(s, SUFFIX) ==> s != "" && s[|s| - 1] == 't'
  {
    if HasSuffix(s, SUFFIX) {
      SuffixChars(s);
    }
  }

  lemma LongSuffixExactly(l: string, cut: string)
    requires |l| > 30 && |cut| <= 30 && cut == l[..|cut|]
    requires forall c :: c in l ==> IsLetter(c) || IsDigit(c) || c == '-'
    requires cut != "" ==> !IsSpecial(l[|cut| - 1])
    requires forall i :: |cut| <= i < 30 ==> IsSpecial(l[i])
    ensures HasSuffix(cut, SUFFIX) <==> exists k :: 6 <= k <= 30 && SuffixEndsAt(l, k)
  {
    if HasSuffix(cut, SUFFIX) {
      SuffixChars(cut);
      assert l[|cut| - 6..|cut|] == cut[|cut| - 6..];
      forall i | |cut| <= i < 30 ensures l[i] == '-' {
        assert l[i] in l;
      }
      assert SuffixEndsAt(l, |cut|);
    }
    if k :| 6 <= k <= 30 && SuffixEndsAt(l, k) {
      assert l[k - 1] == l[k - 6..k][5] == 't';
      assert |cut| == k;
      assert cut[|cut| - 6..] == l[k - 6..k];
    }
  }

  /** The cut, the suffix and the trimmed hyphens neither add nor remove capitals. */
  lemma CapitalsSurviveExactly(l: string)
    requires WellEnded(l)
    ensures var cut := Cut(Affixed(l, STRICT_RULES), STRICT_RULES);
            (forall c :: c in cut ==> !IsUpper(c)) <==> forall i :: 0 <= i < Min(30, |l|) ==> !IsUpper(l[i])
  {
    var s := Affixed(l, STRICT_RULES);
    var cut := Cut(s, STRICT_RULES);
    AffixedText(l, STRICT_RULES);
    assert forall i :: 0 <= i < |l| ==> s[i] == l[i];
    if |s| > 30 {
      CutAt(s);
    }
    assert cut == s[..|cut|] && |cut| <= 30;
    forall i | 0 <= i < Min(30, |l|) && IsUpper(l[i]) ensures l[i] in cut {
      assert cut[i] == l[i];
    }
    if forall i :: 0 <= i < Min(30, |l|) ==> !IsUpper(l[i]) {
      forall c | c in cut ensures !IsUpper(c) {
        var i :| 0 <= i < |cut| && cut[i] == c;
        if i >= |l| {
          assert s[i] == SUFFIX[i - |l|];
          FixedText(c);
        }
      }
    }
  }

  /** What truncation and padding make of a suffixed name. */
  lemma SuffixedOutcome(s: string)
    requires WellEnded(s) && HasSuffix(s, SUFFIX)
    requires forall c :: c in s ==> IsLetter(c) || IsDigit(c) || c == '-'
    ensures var cut := Cut(s, STRICT_RULES);
            var n := Padded(cut, STRICT_RULES);
            && (IsValidName(n, STRICT_RULES) <==>
                  (forall c :: c in cut ==> !IsUpper(c)) && (|s| <= 30 || HasSuffix(cut, SUFFIX)))
            && (IsValidName(n, STRICT_RULES) ==> Normalized(n, STRICT_RULES) == n)
  {
    var cut := Cut(s, STRICT_RULES);
    CutShape(s, STRICT_RULES);
    if HasSuffix(cut, SUFFIX) {
      SuffixChars(cut);
      assert Padded(cut, STRICT_RULES) == cut;
      if forall c :: c in cut ==> !IsUpper(c) {
        assert StrictClean(cut);
        StrictCleanIsValid(cut);
        StrictCleanIsFixed(cut, STRICT_RULES);
      } else {
        CapitalIsInvalid(cut);
      }
    } else {
      LosingTheSuffix(cut);
    }
  }

  lemma CutShape(s: string, r: Rules)
    requires Suffixing(r)
    requires WellEnded(s)
    ensures var cut := Cut(s, r);
            && WellEnded(cut) && |cut| <= 30
            && (forall c :: c in cut ==> c in s)
            && (|s| <= 30 ==> cut == s)
  {
    if |s| > 30 {
      TrimmedIsWellEnded(s[..30]);
      TrimmedSpecial(s[..30]);
    }
  }

  lemma CapitalIsInvalid(s: string)
    requires exists c :: c in s && IsUpper(c)
    requires forall c :: c in s ==> !IsSpace(c)
    ensures !IsValidName(s, STRICT_RULES)
  {
    Trimmed(s);
    StrictLanguage(s);
    var c :| c in s && IsUpper(c);
    var i :| 0 <= i < |s| && s[i] == c;
  }

  lemma LosingTheSuffix(cut: string)
    requires !HasSuffix(cut, SUFFIX) && forall c :: c in cut ==> !IsSpace(c)
    ensures !IsValidName(Padded(cut, STRICT_RULES), STRICT_RULES)
  {
    var p := Padded(cut, STRICT_RULES);
    forall c | c in p ensures !IsSpace(c) {
      var i :| 0 <= i < |p| && p[i] == c;
      if i < |cut| {
        assert p[i] == cut[i];
      }
    }
    Trimmed(p);
    assert |cut| < 5 ==> |p| == 5;
  }

  lemma HyphenFirstIsInvalid(s: string)
    requires s != "" && s[0] == '-' && forall c :: c in s ==> !IsSpace(c)
    ensures !IsValidName(s, STRICT_RULES)
  {
    Trimmed(s);
    StrictLanguage(s);
  }

  lemma OnlySuffix(r: Rules)
    requires Suffixing(r)
    ensures Padded(Cut(Affixed(Led(""), r), r), r) == SUFFIX
  {
    assert Led("") == "";
    assert "" + SUFFIX == SUFFIX && |SUFFIX| == 6;
    assert Affixed("", r) == SUFFIX;
  }

  /** With nothing kept the strict rules produce the bare suffix, which is invalid. */
  lemma StrictNothingKept(name: string)
    requires Kept(name, STRICT_RULES) == ""
    ensures Normalized(name, STRICT_RULES) == SUFFIX && !IsValidName(SUFFIX, STRICT_RULES)
  {
    OnlySuffix(STRICT_RULES);
    var s := SUFFIX;
    forall c | c in s ensures !IsSpace(c) {
      FixedText(c);
    }
    HyphenFirstIsInvalid(s);
  }

  /** The promise of the strict rules: a name without capitals that keeps a character and fits in
      30 with its suffix normalises to a valid name, which normalising again leaves alone. */
  lemma StrictPromise(name: string)
    requires forall c :: c in name ==> !IsUpper(c)
    requires Kept(name, STRICT_RULES) != "" && |Suffixed(name, STRICT_RULES)| <= 30
    ensures var n := Normalized(name, STRICT_RULES);
            IsValidName(n, STRICT_RULES) && Normalized(n, STRICT_RULES) == n
  {
    SuffixedShape(name, STRICT_RULES);
    StrictNormalization(name);
  }
}
