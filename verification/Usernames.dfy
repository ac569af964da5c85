/** Compliant user names from arbitrary ones (pkg/usersignup/usersignup.go, TransformUsername). Every
    character that is not a letter or a digit is replaced early, so from then on characters are bytes. */
module Usernames {
  import opened DnsLabels
  import opened Sequences

  const MAX_LENGTH := 20
  const MAX_LENGTH_WITH_PREFIX := MAX_LENGTH - 4

  // ----- the steps, as functions -----

  function BeforeAt(s: string): string {
    if s == "" || s[0] == '@' then "" else [s[0]] + BeforeAt(s[1..])
  }

  function AtSpelledOut(s: string): string {
    if s == "" then "" else (if s[0] == '@' then "at-" else [s[0]]) + AtSpelledOut(s[1..])
  }

  /** Everything but letters and digits becomes a hyphen. */
  function Dashed(s: string): (r: string)
    ensures |r| == |s| && forall i :: 0 <= i < |s| ==> r[i] == if IsAlphanumeric(s[i]) then s[i] else '-'
  {
    seq(|s|, i requires 0 <= i < |s| => if IsAlphanumeric(s[i]) then s[i] else '-')
  }

  predicate OnlyNumbers(s: string) {
    forall i :: 0 <= i < |s| ==> IsDigit(s[i])
  }

  predicate HasDoubleHyphen(s: string) {
    exists i :: 0 <= i < |s| - 1 && s[i] == '-' && s[i + 1] == '-'
  }

  /** One pass of replacing "--" by "-", left to right without overlaps. */
  function HalvedRuns(s: string): string {
    if s == "" then ""
    else if |s| >= 2 && s[0] == '-' && s[1] == '-' then "-" + HalvedRuns(s[2..])
    else [s[0]] + HalvedRuns(s[1..])
  }

  /** Every run of hyphens becomes one hyphen. */
  function Collapsed(s: string): string {
    if s == "" then ""
    else if |s| >= 2 && s[0] == '-' && s[1] == '-' then Collapsed(s[1..])
    else [s[0]] + Collapsed(s[1..])
  }

  function Named(username: string): string {
    var head := Dashed(BeforeAt(username));
    Dashed(if head == "" then AtSpelledOut(username) else head)
  }

  function Numbered(name: string): string {
    if OnlyNumbers(name) then "crt-" + name else name
  }

  function Cleaned(username: string): string {
    Collapsed(Numbered(Named(username)))
  }

  function EndsFixed(s: string): string {
    var t := if "-" <= s then "crt" + s else s;
    if t != "" && t[|t| - 1] == '-' then t + "crt" else t
  }

  function CutOff(s: string): string {
    if |s| <= MAX_LENGTH then s
    else if IsDNS1123Label(s[..MAX_LENGTH]) then s[..MAX_LENGTH]
    else Trim(s[..MAX_LENGTH])
  }

  /** The name before forbidden prefixes and suffixes are looked at. */
  function BaseName(username: string): string {
    CutOff(EndsFixed(Cleaned(username)))
  }

  predicate HasSuffix(s: string, suffix: string) {
    |suffix| <= |s| && s[|s| - |suffix|..] == suffix
  }

  predicate HasAnyPrefix(s: string, prefixes: seq<string>) {
    exists p :: p in prefixes && p <= s
  }

  predicate HasAnySuffix(s: string, suffixes: seq<string>) {
    exists x :: x in suffixes && HasSuffix(s, x)
  }

  function PrefixFixed(name: string, prefixes: seq<string>): string {
    if !HasAnyPrefix(name, prefixes) then name
    else if |name| > MAX_LENGTH_WITH_PREFIX then "crt-" + name[3..]
    else "crt-" + name
  }

  function SuffixFixed(name: string, suffixes: seq<string>): string {
    if !HasAnySuffix(name, suffixes) then name
    else if |name| > MAX_LENGTH_WITH_PREFIX then name[..MAX_LENGTH_WITH_PREFIX] + "-crt"
    else name + "-crt"
  }

  function Transformed(username: string, prefixes: seq<string>, suffixes: seq<string>): string {
    SuffixFixed(PrefixFixed(BaseName(username), prefixes), suffixes)
  }

  // ----- the loop that removes double hyphens -----

  lemma {:induction false} HalvingKeepsTheCollapse(c: char, s: string)
    ensures Collapsed([c] + HalvedRuns(s)) == Collapsed([c] + s)
    decreases |s|
  {
    if s == "" {
    } else if |s| >= 2 && s[0] == '-' && s[1] == '-' {
      HalvingKeepsTheCollapse('-', s[2..]);
      var halved := HalvedRuns(s[2..]);
      assert ([c] + HalvedRuns(s))[1..] == ['-'] + halved;
      assert ([c] + s)[1..] == s && s[1..] == ['-'] + s[2..];
    } else {
      HalvingKeepsTheCollapse(s[0], s[1..]);
      assert ([c] + HalvedRuns(s))[1..] == [s[0]] + HalvedRuns(s[1..]);
      assert ([c] + s)[1..] == [s[0]] + s[1..];
    }
  }

  lemma {:induction false} HalvingShortens(s: string)
    ensures |HalvedRuns(s)| <= |s|
    ensures HasDoubleHyphen(s) ==> |HalvedRuns(s)| < |s|
  {
    if s == "" {
    } else if |s| >= 2 && s[0] == '-' && s[1] == '-' {
      HalvingShortens(s[2..]);
    } else {
      HalvingShortens(s[1..]);
      if HasDoubleHyphen(s) {
        var i :| 0 <= i < |s| - 1 && s[i] == '-' && s[i + 1] == '-';
        assert s[1..][i - 1] == '-' && s[1..][i] == '-';
      }
    }
  }

  lemma {:induction false} CollapsedIsFixed(s: string)
    requires !HasDoubleHyphen(s)
    ensures Collapsed(s) == s
  {
    if s != "" {
      var t := s[1..];
      assert forall i :: 0 <= i < |t| ==> t[i] == s[i + 1];
      CollapsedIsFixed(s[1..]);
    }
  }

  /** The "--" loop ends, and leaves what a single pass over the hyphen runs yields. */
  method CollapseHyphens(s: string) returns (r: string)
    ensures r == Collapsed(s)
  {
    r := s;
    while HasDoubleHyphen(r)
      invariant Collapsed(r) == Collapsed(s)
      decreases |r|
    {
      HalvingShortens(r);
      HalvingKeepsTheCollapse(r[0], r[1..]);
      FirstOfHalved(r);
      r := HalvedRuns(r);
    }
    CollapsedIsFixed(r);
  }

  lemma FirstOfHalved(s: string)
    ensures Collapsed(HalvedRuns(s)) == Collapsed(s)
  {
  }

  // ----- the method -----

  method TransformUsername(username: string, forbiddenPrefixes: seq<string>, forbiddenSuffixes: seq<string>)
    returns (newUsername: string)
    ensures newUsername == Transformed(username, forbiddenPrefixes, forbiddenSuffixes)
  {
    newUsername := Dashed(BeforeAt(username));
    if |newUsername| == 0 {
      newUsername := AtSpelledOut(username);
    }
    newUsername := Dashed(newUsername);
    assert newUsername == Named(username);
    if OnlyNumbers(newUsername) {
      newUsername := "crt-" + newUsername;
    }
    newUsername := CollapseHyphens(newUsername);
    newUsername := FixEnds(newUsername);
    newUsername := CutToLength(newUsername);
    newUsername := AvoidForbiddenPrefix(newUsername, forbiddenPrefixes);
    newUsername := AvoidForbiddenSuffix(newUsername, forbiddenSuffixes);
  }

  method FixEnds(name: string) returns (r: string)
    ensures r == EndsFixed(name)
  {
    r := name;
    if "-" <= r {
      r := "crt" + r;
    }
    HyphenAtEnd(r);
    if HasSuffix(r, "-") {
      r := r + "crt";
    }
  }

  lemma HyphenAtEnd(s: string)
    ensures HasSuffix(s, "-") <==> s != "" && s[|s| - 1] == '-'
  {
    if s != "" {
      assert s[|s| - 1..] == [s[|s| - 1]];
    }
  }

  method CutToLength(name: string) returns (r: string)
    ensures r == CutOff(name)
  {
    r := name;
    if |r| > MAX_LENGTH {
      r := r[0..MAX_LENGTH];
      if !IsDNS1123Label(r) {
        r := Trim(r);
      }
    }
  }

  /** The prefix loop: the first match changes the name and ends the loop. */
  method AvoidForbiddenPrefix(name: string, prefixes: seq<string>) returns (r: string)
    ensures r == PrefixFixed(name, prefixes)
  {
    for i := 0 to |prefixes|
      invariant forall j :: 0 <= j < i ==> !(prefixes[j] <= name)
    {
      if prefixes[i] <= name {
        assert prefixes[i] in prefixes;
        return if |name| > MAX_LENGTH_WITH_PREFIX then "crt-" + name[3..] else "crt-" + name;
      }
    }
    return name;
  }

  /** The suffix loop, likewise. */
  method AvoidForbiddenSuffix(name: string, suffixes: seq<string>) returns (r: string)
    ensures r == SuffixFixed(name, suffixes)
  {
    for i := 0 to |suffixes|
      invariant forall j :: 0 <= j < i ==> !HasSuffix(name, suffixes[j])
    {
      if HasSuffix(name, suffixes[i]) {
        assert suffixes[i] in suffixes;
        return if |name| > MAX_LENGTH_WITH_PREFIX then name[..MAX_LENGTH_WITH_PREFIX] + "-crt" else name + "-crt";
      }
    }
    return name;
  }

  // ----- shape and length -----

  /** Letters, digits and hyphens, a letter or digit at both ends. */
  ghost predicate WellShaped(s: string) {
    && s != ""
    && (forall i :: 0 <= i < |s| ==> IsAlphanumeric(s[i]) || s[i] == '-')
    && IsAlphanumeric(s[0]) && IsAlphanumeric(s[|s| - 1])
  }

  lemma {:induction false} CollapsedShape(s: string)
    requires forall i :: 0 <= i < |s| ==> IsAlphanumeric(s[i]) || s[i] == '-'
    ensures !HasDoubleHyphen(Collapsed(s))
    ensures forall i :: 0 <= i < |Collapsed(s)| ==> IsAlphanumeric(Collapsed(s)[i]) || Collapsed(s)[i] == '-'
    ensures s != "" ==> Collapsed(s) != "" && Collapsed(s)[0] == s[0]
  {
    if s != "" {
      CollapsedShape(s[1..]);
    }
  }

  lemma CleanedShape(username: string)
    ensures Cleaned(username) != "" && !HasDoubleHyphen(Cleaned(username))
    ensures forall i :: 0 <= i < |Cleaned(username)| ==> IsAlphanumeric(Cleaned(username)[i]) || Cleaned(username)[i] == '-'
    ensures OnlyNumbers(Named(username)) ==> !("-" <= Cleaned(username))
  {
    NumberedShape(Named(username));
    CollapsedShape(Numbered(Named(username)));
  }

  lemma NumberedShape(name: string)
    requires forall i :: 0 <= i < |name| ==> IsAlphanumeric(name[i]) || name[i] == '-'
    ensures Numbered(name) != "" && (OnlyNumbers(name) ==> Numbered(name)[0] == 'c')
    ensures forall i :: 0 <= i < |Numbered(name)| ==> IsAlphanumeric(Numbered(name)[i]) || Numbered(name)[i] == '-'
  {
  }

  lemma BaseNameShape(username: string)
    ensures WellShaped(BaseName(username)) && !HasDoubleHyphen(BaseName(username)) && |BaseName(username)| <= MAX_LENGTH
  {
    CleanedShape(username);
    EndsFixedShape(Cleaned(username));
    if |EndsFixed(Cleaned(username))| > MAX_LENGTH {
      CutOffShape(EndsFixed(Cleaned(username)));
    }
  }

  lemma EndsFixedShape(s: string)
    requires s != "" && !HasDoubleHyphen(s)
    requires forall i :: 0 <= i < |s| ==> IsAlphanumeric(s[i]) || s[i] == '-'
    ensures WellShaped(EndsFixed(s)) && !HasDoubleHyphen(EndsFixed(s))
  {
  }

  lemma CutOffShape(s: string)
    requires |s| > MAX_LENGTH && WellShaped(s) && !HasDoubleHyphen(s)
    ensures WellShaped(CutOff(s)) && !HasDoubleHyphen(CutOff(s)) && |CutOff(s)| <= MAX_LENGTH
  {
    var t := s[..MAX_LENGTH];
    var lo, hi := TrimIsASlice(t);
    assert lo == 0 && hi >= MAX_LENGTH - 1 by {
      assert t[0] == s[0] && !(s[18] == '-' && s[18 + 1] == '-');
    }
  }

  /** Whatever the user name and the forbidden lists: the new name is well shaped, and it has at most 20
      characters except exactly 21 when a 20-character name has its first three characters replaced for
      a forbidden prefix and no forbidden suffix follows. */
  lemma ShapeAndLength(username: string, prefixes: seq<string>, suffixes: seq<string>)
    ensures var base, name := BaseName(username), Transformed(username, prefixes, suffixes);
            && WellShaped(name)
            && |name| <= MAX_LENGTH + 1
            && (|name| == MAX_LENGTH + 1 <==>
                  |base| == MAX_LENGTH && HasAnyPrefix(base, prefixes)
                  && !HasAnySuffix("crt-" + base[3..], suffixes))
  {
    BaseNameShape(username);
    PrefixFixedShape(BaseName(username), prefixes);
    SuffixFixedShape(PrefixFixed(BaseName(username), prefixes), suffixes);
  }

  lemma PrefixFixedShape(name: string, prefixes: seq<string>)
    requires WellShaped(name) && |name| <= MAX_LENGTH
    ensures var fixed := PrefixFixed(name, prefixes);
            WellShaped(fixed) && |fixed| <= MAX_LENGTH + 1
            && (|fixed| == MAX_LENGTH + 1 <==> |name| == MAX_LENGTH && HasAnyPrefix(name, prefixes))
  {
  }

  lemma SuffixFixedShape(name: string, suffixes: seq<string>)
    requires WellShaped(name) && |name| <= MAX_LENGTH + 1
    ensures var fixed := SuffixFixed(name, suffixes);
            WellShaped(fixed) && |fixed| <= MAX_LENGTH + 1
            && (|fixed| == MAX_LENGTH + 1 <==> |name| == MAX_LENGTH + 1 && !HasAnySuffix(name, suffixes))
  {
  }

  /** So the intended limit of 20 is exceeded: by every clean 20-character name that starts with a
      forbidden prefix and keeps no forbidden suffix. */
  lemma TwentyOneCharacters(username: string, prefix: string)
    requires Clean(username) && |username| == MAX_LENGTH && prefix <= username
    ensures |Transformed(username, [prefix], [])| == MAX_LENGTH + 1
  {
    AlreadyClean(username);
    assert prefix in [prefix];
    ShapeAndLength(username, [prefix], []);
  }

  ghost predicate NoUpperCase(s: string) {
    forall i :: 0 <= i < |s| ==> !IsUpper(s[i])
  }

  /** A user name without upper case becomes a valid DNS label. */
  lemma LabelWithoutUpperCase(username: string, prefixes: seq<string>, suffixes: seq<string>)
    requires NoUpperCase(username)
    ensures IsDNS1123Label(Transformed(username, prefixes, suffixes))
  {
    ShapeAndLength(username, prefixes, suffixes);
    NoUpperCaseAppears(username);
    BaseNameShape(username);
    NoUpperCaseInFixes(BaseName(username), prefixes, suffixes);
    LabelFromShape(Transformed(username, prefixes, suffixes));
  }

  lemma LabelFromShape(s: string)
    requires WellShaped(s) && NoUpperCase(s) && |s| <= MAX_LENGTH + 1
    ensures IsDNS1123Label(s)
  {
  }

  lemma NoUpperCaseConcat(a: string, b: string)
    requires NoUpperCase(a) && NoUpperCase(b)
    ensures NoUpperCase(a + b)
  {
  }

  lemma NoUpperCaseInFixes(name: string, prefixes: seq<string>, suffixes: seq<string>)
    requires WellShaped(name) && NoUpperCase(name)
    ensures NoUpperCase(SuffixFixed(PrefixFixed(name, prefixes), suffixes))
  {
    NoUpperCaseConcat("crt-", if |name| > MAX_LENGTH_WITH_PREFIX then name[3..] else name);
    var fixed := PrefixFixed(name, prefixes);
    assert NoUpperCase(fixed);
    NoUpperCaseConcat(if |fixed| > MAX_LENGTH_WITH_PREFIX then fixed[..MAX_LENGTH_WITH_PREFIX] else fixed, "-crt");
  }

  lemma NoUpperCaseAppears(username: string)
    requires NoUpperCase(username)
    ensures NoUpperCase(BaseName(username))
  {
    NoUpperCaseInParts(username);
    NoUpperCaseConcat("crt-", Named(username));
    NoUpperCaseInCollapse(Numbered(Named(username)));
    NoUpperCaseInEnds(Cleaned(username));
    NoUpperCaseInCut(EndsFixed(Cleaned(username)));
  }

  lemma NoUpperCaseInEnds(s: string)
    requires NoUpperCase(s)
    ensures NoUpperCase(EndsFixed(s))
  {
  }

  lemma NoUpperCaseInCut(s: string)
    requires NoUpperCase(s)
    ensures NoUpperCase(CutOff(s))
  {
    if |s| > MAX_LENGTH {
      var lo, hi := TrimIsASlice(s[..MAX_LENGTH]);
    }
  }

  lemma {:induction false} NoUpperCaseInParts(s: string)
    requires NoUpperCase(s)
    ensures NoUpperCase(BeforeAt(s)) && NoUpperCase(AtSpelledOut(s))
  {
    if s != "" {
      NoUpperCaseInParts(s[1..]);
    }
  }

  lemma {:induction false} NoUpperCaseInCollapse(s: string)
    requires NoUpperCase(s)
    ensures NoUpperCase(Collapsed(s))
  {
    if s != "" {
      NoUpperCaseInCollapse(s[1..]);
    }
  }

  // ----- names that need no change -----

  /** A name the transformation has nothing to do to: well shaped, no double hyphen, not only digits, at
      most 20 characters. */
  ghost predicate Clean(s: string) {
    WellShaped(s) && !HasDoubleHyphen(s) && !OnlyNumbers(s) && |s| <= MAX_LENGTH
  }

  lemma AlreadyClean(username: string)
    requires Clean(username)
    ensures BaseName(username) == username
  {
    CleanedIsFixed(username);
    EndsStay(username);
  }

  lemma EndsStay(s: string)
    requires WellShaped(s)
    ensures EndsFixed(s) == s
  {
  }

  lemma CleanedIsFixed(username: string)
    requires Clean(username)
    ensures Cleaned(username) == username
  {
    NothingToDash(username);
    NothingBeforeAt(username);
    CollapsedIsFixed(username);
  }

  lemma NothingToDash(s: string)
    requires WellShaped(s)
    ensures Dashed(s) == s && '@' !in s
  {
  }

  lemma {:induction false} NothingBeforeAt(s: string)
    requires '@' !in s
    ensures BeforeAt(s) == s
  {
    if s != "" {
      assert s[0] in s && forall c :: c in s[1..] ==> c in s;
      NothingBeforeAt(s[1..]);
    }
  }

  /** Clean names without forbidden ends are left alone, so transforming twice changes nothing more when
      the first result is one. */
  lemma CleanNamesStay(username: string, prefixes: seq<string>, suffixes: seq<string>)
    requires Clean(username) && !HasAnyPrefix(username, prefixes) && !HasAnySuffix(username, suffixes)
    ensures Transformed(username, prefixes, suffixes) == username
  {
    AlreadyClean(username);
  }

  // ----- what is kept of a user name -----

  /** The letters and digits of a string, in order. */
  function Letters(s: string): string {
    if s == "" then "" else LetterOf(s[0]) + Letters(s[1..])
  }

  function LetterOf(c: char): string {
    if IsAlphanumeric(c) then [c] else ""
  }

  lemma {:induction false} LettersConcat(a: string, b: string)
    ensures Letters(a + b) == Letters(a) + Letters(b)
  {
    if a == "" {
      assert a + b == b;
    } else {
      LettersConcat(a[1..], b);
      assert (a + b)[0] == a[0] && (a + b)[1..] == a[1..] + b;
      Regrouped(LetterOf(a[0]), Letters(a[1..]), Letters(b));
    }
  }

  lemma {:induction false} LettersOfDashed(s: string)
    ensures Letters(Dashed(s)) == Letters(s)
  {
    if s != "" {
      LettersOfDashed(s[1..]);
      assert Dashed(s)[1..] == Dashed(s[1..]);
    }
  }

  lemma {:induction false} LettersOfCollapsed(s: string)
    ensures Letters(Collapsed(s)) == Letters(s)
  {
    if s != "" {
      LettersOfCollapsed(s[1..]);
      var rest := Collapsed(s[1..]);
      assert ([s[0]] + rest)[1..] == rest;
    }
  }

  lemma LettersOfCrt()
    ensures Letters("crt") == "crt" && Letters("crt-") == "crt"
  {
  }

  /** The cut keeps all of a name of up to 20 characters, and at least the first 19 of a longer one. */
  lemma CutKeepsTheFront(username: string)
    ensures var base, whole := BaseName(username), EndsFixed(Cleaned(username));
            base <= whole && if |whole| <= MAX_LENGTH then base == whole else |base| >= MAX_LENGTH - 1
  {
    CleanedShape(username);
    EndsFixedShape(Cleaned(username));
    CutOffIsPrefix(EndsFixed(Cleaned(username)));
  }

  lemma CutOffIsPrefix(s: string)
    requires WellShaped(s) && !HasDoubleHyphen(s)
    ensures CutOff(s) <= s && if |s| <= MAX_LENGTH then CutOff(s) == s else |CutOff(s)| >= MAX_LENGTH - 1
  {
    if |s| > MAX_LENGTH {
      var t := s[..MAX_LENGTH];
      var lo, hi := TrimIsASlice(t);
      assert lo == 0 && hi >= MAX_LENGTH - 1 by {
        assert t[0] == s[0] && !(s[18] == '-' && s[18 + 1] == '-');
      }
    }
  }

  // ----- forbidden words -----

  ghost predicate HyphenFree(words: seq<string>) {
    forall w :: w in words ==> '-' !in w
  }

  ghost predicate FreeOfForbidden(name: string, prefixes: seq<string>, suffixes: seq<string>) {
    !HasAnyPrefix(name, prefixes) && !HasAnySuffix(name, suffixes)
  }

  predicate Comparable(a: string, b: string) {
    a <= b || b <= a
  }

  predicate SuffixComparable(a: string, b: string) {
    HasSuffix(a, b) || HasSuffix(b, a)
  }

  /** The word ends the way `-crt` begins, so that appending `-crt` can complete it. */
  predicate Completable(word: string) {
    exists k :: 1 <= k <= 4 && HasSuffix(word, "-crt"[..k])
  }

  /** No prefix is comparable with `crt-` or can be completed by `-crt`, and no suffix is comparable with
      `-crt`. */
  ghost predicate Harmless(prefixes: seq<string>, suffixes: seq<string>) {
    && (forall p :: p in prefixes ==> !Comparable(p, "crt-") && !Completable(p))
    && (forall x :: x in suffixes ==> !SuffixComparable(x, "-crt"))
  }

  lemma PrefixesCompare(a: string, b: string, s: string)
    requires a <= s && b <= s
    ensures Comparable(a, b)
  {
    if |a| <= |b| {
      assert a == s[..|a|] == b[..|a|];
    } else {
      assert b == s[..|b|] == a[..|b|];
    }
  }

  lemma SuffixesCompare(a: string, b: string, s: string)
    requires HasSuffix(s, a) && HasSuffix(s, b)
    ensures SuffixComparable(a, b)
  {
    if |a| <= |b| {
      assert s[|s| - |a|..] == s[|s| - |b|..][|b| - |a|..];
    } else {
      assert s[|s| - |b|..] == s[|s| - |a|..][|a| - |b|..];
    }
  }

  lemma PrefixOfCompleted(word: string, head: string, tail: string)
    requires word <= head + tail
    ensures word <= head || (|head| < |word| <= |head| + |tail| && HasSuffix(word, tail[..|word| - |head|]))
  {
    if |word| <= |head| {
      assert word == (head + tail)[..|word|] == head[..|word|];
    } else {
      assert word[|head|..] == (head + tail)[|head|..|word|] == tail[..|word| - |head|];
    }
  }

  lemma NewFrontIsHarmless(front: string, rest: string, words: seq<string>)
    requires forall w :: w in words ==> !Comparable(w, front)
    ensures !HasAnyPrefix(front + rest, words)
  {
    forall w | w in words ensures !(w <= front + rest) {
      if w <= front + rest {
        PrefixesCompare(w, front, front + rest);
      }
    }
  }

  lemma NewEndIsHarmless(head: string, end: string, words: seq<string>)
    requires forall w :: w in words ==> !SuffixComparable(w, end)
    ensures !HasAnySuffix(head + end, words)
  {
    assert (head + end)[|head|..] == end;
    forall w | w in words ensures !HasSuffix(head + end, w) {
      if HasSuffix(head + end, w) {
        SuffixesCompare(w, end, head + end);
      }
    }
  }

  lemma NewEndCompletesNoPrefix(name: string, head: string, words: seq<string>)
    requires head <= name && !HasAnyPrefix(name, words) && forall w :: w in words ==> !Completable(w)
    ensures !HasAnyPrefix(head + "-crt", words)
  {
    forall w | w in words ensures !(w <= head + "-crt") {
      if w <= head + "-crt" {
        PrefixOfCompleted(w, head, "-crt");
      }
    }
  }

  lemma PrefixStepHelps(name: string, prefixes: seq<string>)
    requires forall p :: p in prefixes ==> !Comparable(p, "crt-")
    ensures !HasAnyPrefix(PrefixFixed(name, prefixes), prefixes)
  {
    if HasAnyPrefix(name, prefixes) {
      NewFrontIsHarmless("crt-", if |name| > MAX_LENGTH_WITH_PREFIX then name[3..] else name, prefixes);
    }
  }

  lemma SuffixStepHelps(name: string, prefixes: seq<string>, suffixes: seq<string>)
    requires Harmless(prefixes, suffixes) && !HasAnyPrefix(name, prefixes)
    ensures FreeOfForbidden(SuffixFixed(name, suffixes), prefixes, suffixes)
  {
    if HasAnySuffix(name, suffixes) {
      var head := if |name| > MAX_LENGTH_WITH_PREFIX then name[..MAX_LENGTH_WITH_PREFIX] else name;
      NewEndCompletesNoPrefix(name, head, prefixes);
      NewEndIsHarmless(head, "-crt", suffixes);
    }
  }

  /** For harmless lists, whatever the words, every transformed name is free of forbidden words, although each
      loop stops at its first match and the suffix step rewrites after the prefix step. */
  lemma HarmlessWordsAreKeptOut(username: string, prefixes: seq<string>, suffixes: seq<string>)
    requires Harmless(prefixes, suffixes)
    ensures FreeOfForbidden(Transformed(username, prefixes, suffixes), prefixes, suffixes)
  {
    PrefixStepHelps(BaseName(username), prefixes);
    SuffixStepHelps(PrefixFixed(BaseName(username), prefixes), prefixes, suffixes);
  }

  lemma HyphenFreePrefix(word: string)
    requires '-' !in word && !(word <= "crt")
    ensures !Comparable(word, "crt-") && !Completable(word)
  {
    PrefixOfCrt(word);
    HyphenWithin(word);
  }

  lemma PrefixOfCrt(word: string)
    ensures word <= "crt-" ==> word <= "crt" || '-' in word
  {
    if word <= "crt-" {
      if |word| == 4 {
        assert word[3] == "crt-"[3];
      } else {
        assert word == "crt-"[..|word|] == "crt"[..|word|];
      }
    }
  }

  lemma HyphenWithin(word: string)
    ensures "crt-" <= word || Completable(word) || HasSuffix(word, "-crt") ==> '-' in word
  {
    if "crt-" <= word {
      assert word[3] == "crt-"[3];
    }
    if Completable(word) {
      var k :| 1 <= k <= 4 && HasSuffix(word, "-crt"[..k]);
      assert word[|word| - k..][0] == '-';
    }
    if HasSuffix(word, "-crt") {
      assert word[|word| - 4..][0] == '-';
    }
  }

  lemma HyphenFreeSuffix(word: string)
    requires '-' !in word && !HasSuffix("crt", word)
    ensures !SuffixComparable(word, "-crt")
  {
    SuffixOfCrt(word);
    HyphenWithin(word);
  }

  lemma SuffixOfCrt(word: string)
    ensures HasSuffix("-crt", word) ==> HasSuffix("crt", word) || '-' in word
  {
    if HasSuffix("-crt", word) {
      if |word| == 4 {
        assert word[0] == "-crt"[0..][0];
      } else {
        assert word == "-crt"[4 - |word|..] == "crt"[3 - |word|..];
      }
    }
  }

  /** With hyphen-free words, lists are harmless unless one of them is a prefix or a suffix of `crt` itself. */
  lemma NoForbiddenWordSurvives(username: string, prefixes: seq<string>, suffixes: seq<string>)
    requires HyphenFree(prefixes) && HyphenFree(suffixes)
    requires !HasAnyPrefix("crt", prefixes) && !HasAnySuffix("crt", suffixes)
    ensures FreeOfForbidden(Transformed(username, prefixes, suffixes), prefixes, suffixes)
  {
    forall p | p in prefixes ensures !Comparable(p, "crt-") && !Completable(p) {
      HyphenFreePrefix(p);
    }
    forall x | x in suffixes ensures !SuffixComparable(x, "-crt") {
      HyphenFreeSuffix(x);
    }
    HarmlessWordsAreKeptOut(username, prefixes, suffixes);
  }

  /** The condition on the lists is exact: for hyphen-free words, every transformed name is free of
      forbidden words if and only if no forbidden prefix starts `crt` and no forbidden suffix ends it. */
  lemma ForbiddenWordsExactly(prefixes: seq<string>, suffixes: seq<string>)
    requires HyphenFree(prefixes) && HyphenFree(suffixes)
    ensures (forall username :: FreeOfForbidden(Transformed(username, prefixes, suffixes), prefixes, suffixes))
            <==> FreeOfForbidden("crt", prefixes, suffixes)
  {
    if FreeOfForbidden("crt", prefixes, suffixes) {
      forall username ensures FreeOfForbidden(Transformed(username, prefixes, suffixes), prefixes, suffixes) {
        NoForbiddenWordSurvives(username, prefixes, suffixes);
      }
    } else {
      assert BaseName("crt") == "crt" by {
        AlreadyClean("crt");
      }
      BrokenFromTheStart(prefixes, suffixes);
      assert !FreeOfForbidden(Transformed("crt", prefixes, suffixes), prefixes, suffixes);
    }
  }

  /** For words with hyphens that condition is not enough: `crt-` is no prefix of `crt`, yet it starts every name
      that a forbidden prefix has changed. */
  lemma HyphenatedWordsCanSurvive(username: string, prefix: string, prefixes: seq<string>)
    requires Clean(username) && |username| <= MAX_LENGTH_WITH_PREFIX
    requires prefix in prefixes && prefix <= username && "crt-" in prefixes
    ensures !FreeOfForbidden(Transformed(username, prefixes, []), prefixes, [])
  {
    AlreadyClean(username);
    PrefixPutInFront(username, prefix, prefixes);
    CrtStarts(username, prefixes);
  }

  lemma PrefixPutInFront(name: string, prefix: string, prefixes: seq<string>)
    requires prefix in prefixes && prefix <= name && |name| <= MAX_LENGTH_WITH_PREFIX
    ensures SuffixFixed(PrefixFixed(name, prefixes), []) == "crt-" + name
  {
  }

  lemma CrtStarts(name: string, prefixes: seq<string>)
    requires "crt-" in prefixes
    ensures HasAnyPrefix("crt-" + name, prefixes)
  {
    assert "crt-" <= "crt-" + name;
  }

  lemma BrokenFromTheStart(prefixes: seq<string>, suffixes: seq<string>)
    requires !FreeOfForbidden("crt", prefixes, suffixes)
    ensures !FreeOfForbidden(SuffixFixed(PrefixFixed("crt", prefixes), suffixes), prefixes, suffixes)
  {
    var name := SuffixFixed(PrefixFixed("crt", prefixes), suffixes);
    assert "crt" <= name && HasSuffix(name, "crt");
    if HasAnyPrefix("crt", prefixes) {
      var p :| p in prefixes && p <= "crt";
      assert p <= name;
    } else {
      var x :| x in suffixes && HasSuffix("crt", x);
      assert name[|name| - |x|..] == name[|name| - 3..][3 - |x|..];
      assert HasSuffix(name, x);
    }
  }
}
