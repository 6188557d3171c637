/** What normalisation does with the text of a name, character by character, under any rules: which
    characters it keeps and in which order, and what it adds, cuts and pads. */
module NameText {
  import opened Common
  import opened Ascii
  import opened NamingRules
  import opened AgentNaming
  import opened NameNormalization

  // --- trimming ---

  lemma {:induction false} LeftTrimmed(s: string) returns (i: nat)
    ensures i <= |s| && TrimLeftSpace(s) == s[i..]
    ensures (forall k :: 0 <= k < i ==> IsSpace(s[k])) && (i < |s| ==> !IsSpace(s[i]))
  {
    i := 0;
    if s != "" && IsSpace(s[0]) {
      i := LeftTrimmed(s[1..]);
      assert s[1..][i..] == s[i + 1..];
      assert forall k :: 1 <= k < i + 1 ==> s[k] == s[1..][k - 1];
      i := i + 1;
    }
  }

  lemma {:induction false} RightTrimmed(s: string) returns (j: nat)
    ensures j <= |s| && TrimRightSpace(s) == s[..j]
    ensures (forall k :: j <= k < |s| ==> IsSpace(s[k])) && (j > 0 ==> !IsSpace(s[j - 1]))
  {
    j := |s|;
    if s != "" && IsSpace(s[|s| - 1]) {
      j := RightTrimmed(s[..|s| - 1]);
      assert s[..|s| - 1][..j] == s[..j];
    }
  }

  /** TrimSpace takes the spaces off both ends and nothing else. */
  lemma SpaceTrimmed(s: string) returns (i: nat, j: nat)
    ensures i <= j <= |s| && TrimSpace(s) == s[i..j]
    ensures (forall k :: 0 <= k < i ==> IsSpace(s[k])) && (forall k :: j <= k < |s| ==> IsSpace(s[k]))
    ensures i < j ==> !IsSpace(s[i]) && !IsSpace(s[j - 1])
  {
    i := LeftTrimmed(s);
    var rest := s[i..];
    var length := RightTrimmed(rest);
    j := i + length;
    assert rest[..length] == s[i..j];
    forall k | j <= k < |s| ensures IsSpace(s[k]) {
      assert s[k] == rest[k - i];
    }
    if i < j {
      assert rest[0] == s[i] && rest[length - 1] == s[j - 1];
    }
  }

  /** The ASCII white space: tab to carriage return, and the blank. */
  lemma SpacesAre(c: char)
    ensures IsSpace(c) <==> c as int in [9, 10, 11, 12, 13, 32]
  {
  }

  lemma HasSuffixExactly(s: string, suffix: string)
    ensures HasSuffix(s, suffix) <==> exists x :: s == x + suffix
  {
    if HasSuffix(s, suffix) {
      assert s == s[..|s| - |suffix|] + suffix;
    }
    if x :| s == x + suffix {
      assert s[|s| - |suffix|..] == suffix;
    }
  }

  // --- the kept characters ---

  /** What case folding and the replacement of the forbidden separator make of a character. */
  function Folded(c: char, r: Rules): char {
    var d := if !r.caseSensitive && 'A' <= c <= 'Z' then c - 'A' + 'a' else c;
    if d == '_' && !r.allowUnderscores && r.allowHyphens then '-'
    else if d == '-' && !r.allowHyphens && r.allowUnderscores then '_'
    else d
  }

  predicate Allowed(c: char, r: Rules) {
    || 'a' <= c <= 'z' || 'A' <= c <= 'Z'
    || (r.allowNumbers && '0' <= c <= '9') || (r.allowHyphens && c == '-') || (r.allowUnderscores && c == '_')
  }

  /** k holds the allowed characters of t, folded, all of them and in their order: at says where each stood. */
  ghost predicate KeepsInOrder(k: string, t: string, r: Rules, at: seq<nat>) {
    && |at| == |k|
    && (forall i :: 0 <= i < |at| ==> at[i] < |t| && k[i] == Folded(t[at[i]], r))
    && (forall i, j :: 0 <= i < j < |at| ==> at[i] < at[j])
    && (forall j :: 0 <= j < |t| ==> (Allowed(Folded(t[j], r), r) <==> j in at))
  }

  function ValidUnder(r: Rules): char -> bool {
    (c: char) => ValidFor(c, r)
  }

  lemma {:induction false} FilteredInOrder(s: string, r: Rules) returns (at: seq<nat>)
    ensures Selects(Filtered(s, r), s, ValidUnder(r), at)
  {
    at := [];
    if s != "" {
      var init, last := s[..|s| - 1], s[|s| - 1];
      at := FilteredInOrder(init, r);
      SelectsNext(Filtered(init, r), init, ValidUnder(r), at, last);
      assert init + [last] == s;
      at := at + (if ValidUnder(r)(last) then [|init|] else []);
    }
  }

  lemma FoldedAt(name: string, r: Rules)
    ensures var t, s := TrimSpace(name), Separated(Cased(name, r), r);
            |s| == |t| && forall j :: 0 <= j < |t| ==> s[j] == Folded(t[j], r)
  {
  }

  lemma KeptInOrder(name: string, r: Rules) returns (at: seq<nat>)
    ensures KeepsInOrder(Kept(name, r), TrimSpace(name), r, at)
  {
    var t, s := TrimSpace(name), Separated(Cased(name, r), r);
    FoldedAt(name, r);
    at := FilteredInOrder(s, r);
    forall j | 0 <= j < |t| ensures Allowed(Folded(t[j], r), r) <==> j in at {
      assert ValidUnder(r)(s[j]) <==> j in at;
    }
  }

  // --- the whole result ---

  /** t is s without its trailing separators. */
  ghost predicate WithoutSeparators(t: string, s: string) {
    && t <= s
    && (forall i :: |t| <= i < |s| ==> s[i] == '-' || s[i] == '_')
    && (t != "" ==> t[|t| - 1] != '-' && t[|t| - 1] != '_')
  }

  /** cut is s, or the first limit characters of it without trailing separators if it is longer. */
  ghost predicate CutTo(cut: string, s: string, limit: nat) {
    if |s| <= limit then cut == s else WithoutSeparators(cut, s[..limit])
  }

  /** n is cut, and as many fill characters as it takes to have at least this many. */
  predicate FilledUp(n: string, cut: string, least: nat, fill: char) {
    |n| == Max(|cut|, least) && cut <= n && forall i :: |cut| <= i < |n| ==> n[i] == fill
  }

  /** A text with what it lacks of a required prefix and suffix. */
  ghost predicate Completed(s: string, led: string, prefix: string, suffix: string) {
    var p := if prefix <= led then led else prefix + led;
    if exists x :: p == x + suffix then s == p else s == p + suffix
  }

  lemma TrimmedIsWithout(s: string)
    ensures WithoutSeparators(TrimRightSpecial(s), s)
  {
    TrimmedSpecial(s);
  }

  lemma LedText(k: string)
    ensures WithoutSeparators(Led(k), if k == "" || IsLetter(k[0]) then k else "agent-" + k)
  {
    TrimmedIsWithout(if k == "" || IsLetter(k[0]) then k else "agent-" + k);
  }

  lemma AffixedText(led: string, r: Rules)
    ensures Completed(Affixed(led, r), led, r.requiredPrefix, r.requiredSuffix)
  {
    HasSuffixExactly(if r.requiredPrefix <= led then led else r.requiredPrefix + led, r.requiredSuffix);
  }

  lemma CutText(s: string, r: Rules)
    ensures CutTo(Cut(s, r), s, r.maxLength)
  {
    if |s| > r.maxLength {
      TrimmedIsWithout(s[..r.maxLength]);
    }
  }

  lemma PaddedText(cut: string, r: Rules)
    ensures FilledUp(Padded(cut, r), cut, r.minLength, if r.allowNumbers then '1' else 'x')
  {
  }

  /** Under any rules: k, the allowed characters in their order; led, that text started with a letter
      and without trailing separators; s, with prefix and suffix; cut, at most maxLength of it; and the
      result, filled up to minLength. */
  lemma NormalizedText(name: string, r: Rules) returns (k: string, at: seq<nat>, led: string, s: string, cut: string)
    ensures KeepsInOrder(k, TrimSpace(name), r, at)
    ensures WithoutSeparators(led, if k == "" || IsLetter(k[0]) then k else "agent-" + k)
    ensures Completed(s, led, r.requiredPrefix, r.requiredSuffix)
    ensures CutTo(cut, s, r.maxLength)
    ensures FilledUp(Normalized(name, r), cut, r.minLength, if r.allowNumbers then '1' else 'x')
  {
    k := Kept(name, r);
    at := KeptInOrder(name, r);
    led := Led(k);
    LedText(k);
    s := Affixed(led, r);
    AffixedText(led, r);
    cut := Cut(s, r);
    CutText(s, r);
    PaddedText(cut, r);
  }

  lemma NothingToComplete(s: string, led: string)
    requires Completed(s, led, "", "")
    ensures s == led
  {
    assert led == led + "" && "" <= led;
  }

  /** The default rules: the letters, digits and separators of the name, lowered and in their order,
      after "agent-" when they do not start with a letter, without trailing separators, cut at 50
      characters and filled up to three with ones. */
  lemma DefaultNameText(name: string) returns (k: string, at: seq<nat>, led: string, cut: string)
    ensures KeepsInOrder(k, TrimSpace(name), DEFAULT_RULES, at)
    ensures WithoutSeparators(led, if k == "" || IsLetter(k[0]) then k else "agent-" + k)
    ensures CutTo(cut, led, 50)
    ensures FilledUp(Normalized(name, DEFAULT_RULES), cut, 3, '1')
  {
    var s: string;
    k, at, led, s, cut := NormalizedText(name, DEFAULT_RULES);
    NothingToComplete(s, led);
  }

  /** The strict rules: the letters, digits and hyphens of the name, underscores turned into hyphens,
      in their order and their case; after "agent-" when they do not start with a letter, without trailing
      separators; with "-agent" at the end, cut at 30 characters and filled up to five with ones. */
  lemma StrictNameText(name: string) returns (k: string, at: seq<nat>, led: string, s: string, cut: string)
    ensures KeepsInOrder(k, TrimSpace(name), STRICT_RULES, at)
    ensures WithoutSeparators(led, if k == "" || IsLetter(k[0]) then k else "agent-" + k)
    ensures s == if exists x :: led == x + "-agent" then led else led + "-agent"
    ensures CutTo(cut, s, 30)
    ensures FilledUp(Normalized(name, STRICT_RULES), cut, 5, '1')
  {
    k, at, led, s, cut := NormalizedText(name, STRICT_RULES);
    assert "" <= led;
  }

  /** How the two rule sets fold a character, and what they allow. */
  lemma FoldedUnderBuiltIns(c: char)
    ensures Folded(c, DEFAULT_RULES) == if 'A' <= c <= 'Z' then c - 'A' + 'a' else c
    ensures Folded(c, STRICT_RULES) == if c == '_' then '-' else c
    ensures Allowed(c, DEFAULT_RULES) <==> IsLetter(c) || IsDigit(c) || c == '-' || c == '_'
    ensures Allowed(c, STRICT_RULES) <==> IsLetter(c) || IsDigit(c) || c == '-'
  {
  }

  // --- fixed points under any rules ---

  lemma UnchangedIsKept(s: string, r: Rules)
    requires s != "" && !IsSpace(s[0]) && !IsSpace(s[|s| - 1])
    requires forall i :: 0 <= i < |s| ==> Folded(s[i], r) == s[i] && Allowed(s[i], r)
    ensures Kept(s, r) == s
  {
    TrimmedLeft(s);
    TrimmedRight(s);
    FoldedAt(s, r);
    assert Separated(Cased(s, r), r) == s;
    FilteredKeeps(s, r);
  }

  /** A text that already is what the rules ask for, character by character and in its length, start and
      end, is left alone. */
  lemma FixedUnderAnyRules(s: string, r: Rules)
    requires WellEnded(s) && r.minLength <= |s| <= r.maxLength
    requires forall i :: 0 <= i < |s| ==> Folded(s[i], r) == s[i] && Allowed(s[i], r)
    requires r.requiredPrefix <= s && HasSuffix(s, r.requiredSuffix)
    ensures Normalized(s, r) == s
  {
    assert Allowed(s[|s| - 1], r);
    UnchangedIsKept(s, r);
    WellEndedIsTrimmed(s);
    FixedByEveryPass(s, r);
  }
}
