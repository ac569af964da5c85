/** The transformation of user names, told from the characters of the name (pkg/usersignup/usersignup.go,
    TransformUsername). */
module UsernameCases {
  import opened DnsLabels
  import opened Sequences
  import opened Usernames

  // ----- what the name is made from -----

  /** Of a name with something in front of an `@`, only that counts. */
  lemma OnlyTheFrontCounts(a: string, b: string, prefixes: seq<string>, suffixes: seq<string>)
    requires a != "" && '@' !in a
    ensures Transformed(a + "@" + b, prefixes, suffixes) == Transformed(a, prefixes, suffixes)
  {
    FrontBeforeAt(a, b);
    NothingBeforeAt(a);
    NamedByTheFront(a + "@" + b, a);
    NamedByTheFront(a, a);
  }

  lemma {:induction false} FrontBeforeAt(a: string, b: string)
    requires '@' !in a
    ensures BeforeAt(a + "@" + b) == a
  {
    var s := a + "@" + b;
    if a != "" {
      assert a[0] in a && forall c :: c in a[1..] ==> c in a;
      FrontBeforeAt(a[1..], b);
      assert s[0] == a[0] && s[1..] == a[1..] + "@" + b;
    } else {
      assert s[0] == '@';
    }
  }

  lemma NamedByTheFront(username: string, a: string)
    requires BeforeAt(username) == a && a != ""
    ensures Named(username) == Dashed(a)
  {
    assert Dashed(Dashed(a)) == Dashed(a);
  }

  /** The parts with a separator after each but the last. */
  function Join(parts: seq<string>, separator: string): string {
    if parts == [] then ""
    else if |parts| == 1 then parts[0]
    else parts[0] + separator + Join(parts[1..], separator)
  }

  ghost predicate WithoutAt(parts: seq<string>) {
    forall i :: 0 <= i < |parts| ==> '@' !in parts[i]
  }

  /** In a name that starts with an `@`, each `@` is spelled out. */
  lemma LeadingAtIsSpelledOut(parts: seq<string>, prefixes: seq<string>, suffixes: seq<string>)
    requires parts != [] && WithoutAt(parts)
    ensures Transformed("@" + Join(parts, "@"), prefixes, suffixes) ==
            Transformed("at-" + Join(parts, "at-"), prefixes, suffixes)
  {
    var username, spelled := "@" + Join(parts, "@"), "at-" + Join(parts, "at-");
    SpelledOut(parts);
    NoAtInJoin(parts);
    assert username[1..] == Join(parts, "@");
    assert AtSpelledOut(username) == spelled;
    NothingBeforeAt(spelled);
    NamedByTheFront(spelled, spelled);
    assert Named(username) == Dashed(spelled);
  }

  lemma {:induction false} SpelledOut(parts: seq<string>)
    requires WithoutAt(parts)
    ensures AtSpelledOut(Join(parts, "@")) == Join(parts, "at-")
  {
    if |parts| == 1 {
      SpelledOutFrom(parts[0], "");
      assert parts[0] + "" == parts[0];
    } else if parts != [] {
      SpelledOut(parts[1..]);
      var rest := Join(parts[1..], "@");
      SpelledOutFrom(parts[0], "@" + rest);
      Regrouped(parts[0], "@", rest);
      assert ("@" + rest)[1..] == rest;
      Regrouped(parts[0], "at-", AtSpelledOut(rest));
    }
  }

  lemma {:induction false} SpelledOutFrom(a: string, rest: string)
    requires '@' !in a
    ensures AtSpelledOut(a + rest) == a + AtSpelledOut(rest)
  {
    if a == "" {
      assert a + rest == rest;
    } else {
      assert a[0] in a && forall c :: c in a[1..] ==> c in a;
      SpelledOutFrom(a[1..], rest);
      assert (a + rest)[1..] == a[1..] + rest;
    }
  }

  lemma {:induction false} NoAtInJoin(parts: seq<string>)
    requires WithoutAt(parts)
    ensures '@' !in Join(parts, "at-")
  {
    if |parts| > 1 {
      NoAtInJoin(parts[1..]);
    }
  }

  /** The empty name is treated like a hyphen. */
  lemma EmptyName(username: string, prefixes: seq<string>, suffixes: seq<string>)
    requires username == ""
    ensures Transformed(username, prefixes, suffixes) == Transformed("-", prefixes, suffixes)
  {
    EmptyLikeHyphen(username, "-");
    SameBase(username, "-");
  }

  lemma EmptyLikeHyphen(username: string, hyphen: string)
    requires username == "" && hyphen == "-"
    ensures EndsFixed(Cleaned(username)) == EndsFixed(Cleaned(hyphen))
  {
    NumberedCleaned(username, username);
    HyphenCleaned(hyphen);
    CrtInFront(hyphen);
    assert "crt-" + username == "crt" + hyphen;
  }

  lemma HyphenCleaned(username: string)
    requires username == "-"
    ensures Cleaned(username) == username
  {
    NothingBeforeAt(username);
    NamedByTheFront(username, username);
    NotNumberedCleaned(username, username);
  }

  lemma CrtInFront(s: string)
    requires "-" <= s
    ensures EndsFixed("crt" + s) == EndsFixed(s)
  {
    EndsByCharacter(s);
    EndsByCharacter("crt" + s);
    Regrouped("", "crt", s);
  }

  lemma SameBase(username: string, other: string)
    requires EndsFixed(Cleaned(username)) == EndsFixed(Cleaned(other))
    ensures BaseName(username) == BaseName(other)
  {
  }

  lemma NumberedCleaned(username: string, a: string)
    requires Named(username) == a && forall i :: 0 <= i < |a| ==> IsDigit(a[i])
    ensures Cleaned(username) == "crt-" + a
  {
    NoDoubleBehindCrt(a);
    CollapsedIsFixed("crt-" + a);
  }

  lemma NotNumberedCleaned(username: string, a: string)
    requires Named(username) == a && !OnlyNumbers(a) && !HasDoubleHyphen(a)
    ensures Cleaned(username) == a
  {
    CollapsedIsFixed(a);
  }

  // ----- words and hyphens -----

  /** Each stretch of other characters than letters and digits is one hyphen. */
  function Hyphenated(s: string): string {
    Collapsed(Dashed(s))
  }

  ghost predicate IsWord(s: string) {
    forall i :: 0 <= i < |s| ==> IsAlphanumeric(s[i])
  }

  /** Other characters than letters and digits, at least one. */
  ghost predicate IsGap(s: string) {
    s != "" && forall i :: 0 <= i < |s| ==> !IsAlphanumeric(s[i])
  }

  lemma WordsStay(s: string)
    requires IsWord(s)
    ensures Hyphenated(s) == s
  {
    assert Dashed(s) == s;
    CollapsedIsFixed(s);
  }

  lemma GapsBecomeOneHyphen(a: string, gap: string, b: string)
    requires IsGap(gap)
    requires a == "" || IsAlphanumeric(a[|a| - 1])
    requires b == "" || IsAlphanumeric(b[0])
    ensures Hyphenated(a + gap + b) == Hyphenated(a) + "-" + Hyphenated(b)
  {
    var run := Dashed(gap);
    assert Dashed(a + gap + b) == Dashed(a) + run + Dashed(b);
    CollapsedAround(Dashed(a), run, Dashed(b));
  }

  ghost predicate IsRun(s: string) {
    s != "" && forall i :: 0 <= i < |s| ==> s[i] == '-'
  }

  lemma {:induction false} CollapsedRun(run: string, b: string)
    requires IsRun(run) && (b == "" || b[0] != '-')
    ensures Collapsed(run + b) == "-" + Collapsed(b)
  {
    var s := run + b;
    assert s[1..] == run[1..] + b;
    if |run| == 1 {
      assert s[1..] == b;
    } else {
      CollapsedRun(run[1..], b);
    }
  }

  lemma {:induction false} CollapsedAround(a: string, run: string, b: string)
    requires IsRun(run) && (a == "" || a[|a| - 1] != '-') && (b == "" || b[0] != '-')
    ensures Collapsed(a + run + b) == Collapsed(a) + "-" + Collapsed(b)
  {
    if a == "" {
      CollapsedRun(run, b);
      assert a + run + b == run + b;
    } else {
      CollapsedAround(a[1..], run, b);
      var s := a + run + b;
      assert s[0] == a[0] && s[1..] == a[1..] + run + b;
      if !(|a| >= 2 && a[0] == '-' && a[1] == '-') {
        assert !(s[0] == '-' && s[1] == '-');
        Regrouped([a[0]], Collapsed(a[1..]) + "-", Collapsed(b));
        Regrouped([a[0]], Collapsed(a[1..]), "-");
      }
    }
  }

  // ----- the ends and the cut -----

  function FrontOf(a: string): string
    requires a != ""
  {
    if forall i :: 0 <= i < |a| ==> IsDigit(a[i]) then "crt-"
    else if !IsAlphanumeric(a[0]) then "crt"
    else ""
  }

  function BackOf(a: string): string
    requires a != ""
  {
    if !IsAlphanumeric(a[|a| - 1]) then "crt" else ""
  }

  /** The name before the cut. */
  function Whole(a: string): string
    requires a != ""
  {
    FrontOf(a) + Hyphenated(a) + BackOf(a)
  }

  /** Without forbidden words, a name of more than 20 characters is cut behind the 20th, or in front of it when
      that is a hyphen. */
  lemma TransformedExactly(a: string)
    requires a != "" && '@' !in a
    ensures var whole := Whole(a);
            Transformed(a, [], []) ==
            if |whole| <= 20 then whole else if whole[19] == '-' then whole[..19] else whole[..20]
  {
    NothingBeforeAt(a);
    NamedByTheFront(a, a);
    WholeIsFixed(a);
    CleanedShape(a);
    EndsFixedShape(Cleaned(a));
    CutExactly(Whole(a));
  }

  lemma WholeIsFixed(a: string)
    requires a != "" && Named(a) == Dashed(a)
    ensures EndsFixed(Cleaned(a)) == Whole(a)
  {
    if forall i :: 0 <= i < |a| ==> IsDigit(a[i]) {
      WholeNumber(a);
    } else {
      SomeNoNumber(a);
      WholeName(a);
    }
  }

  lemma WholeNumber(a: string)
    requires a != "" && Named(a) == Dashed(a) && forall i :: 0 <= i < |a| ==> IsDigit(a[i])
    ensures EndsFixed(Cleaned(a)) == Whole(a)
  {
    WordsStay(a);
    assert Dashed(a) == a;
    NumberedCleaned(a, a);
    LetterEnds("crt-" + a);
    NothingBehind("crt-" + a);
  }

  lemma LetterEnds(s: string)
    requires s != "" && s[0] != '-' && s[|s| - 1] != '-'
    ensures EndsFixed(s) == s
  {
  }

  lemma WholeName(a: string)
    requires a != "" && Named(a) == Dashed(a) && !OnlyNumbers(Dashed(a)) && !OnlyNumbers(a)
    ensures EndsFixed(Cleaned(a)) == Whole(a)
  {
    assert Cleaned(a) == Hyphenated(a);
    EndsOfHyphenated(a);
    EndsByCharacter(Hyphenated(a));
    FrontAndBack(a);
  }

  lemma FrontAndBack(a: string)
    requires a != "" && !OnlyNumbers(a)
    ensures FrontOf(a) == if !IsAlphanumeric(a[0]) then "crt" else ""
    ensures BackOf(a) == if !IsAlphanumeric(a[|a| - 1]) then "crt" else ""
  {
  }

  lemma NothingInFront(s: string)
    ensures "" + s == s
  {
  }

  lemma NothingBehind(s: string)
    ensures s + "" == s
  {
  }

  lemma SomeNoNumber(a: string)
    requires exists i :: 0 <= i < |a| && !IsDigit(a[i])
    ensures !OnlyNumbers(Dashed(a)) && !OnlyNumbers(a)
  {
    var i :| 0 <= i < |a| && !IsDigit(a[i]);
    assert !IsDigit(Dashed(a)[i]);
  }

  lemma NoDoubleBehindCrt(a: string)
    requires forall i :: 0 <= i < |a| ==> IsDigit(a[i])
    ensures !HasDoubleHyphen("crt-" + a)
  {
    var s := "crt-" + a;
    assert forall i :: 4 <= i < |s| ==> s[i] == a[i - 4];
  }

  lemma EndsByCharacter(s: string)
    requires s != ""
    ensures EndsFixed(s) == (if s[0] == '-' then "crt" else "") + s + (if s[|s| - 1] == '-' then "crt" else "")
  {
    assert s[..1] == [s[0]];
    NothingInFront(s);
    NothingBehind(s);
    NothingBehind("crt" + s);
  }

  lemma EndsOfHyphenated(a: string)
    requires a != ""
    ensures var h := Hyphenated(a);
            h != "" && (h[0] == '-' <==> !IsAlphanumeric(a[0])) && (h[|h| - 1] == '-' <==> !IsAlphanumeric(a[|a| - 1]))
  {
    CollapsedShape(Dashed(a));
    LastOfCollapsed(Dashed(a));
  }

  lemma {:induction false} LastOfCollapsed(s: string)
    requires s != ""
    ensures Collapsed(s) != "" && Collapsed(s)[|Collapsed(s)| - 1] == s[|s| - 1]
  {
    if |s| > 1 {
      LastOfCollapsed(s[1..]);
    }
  }

  lemma CutExactly(whole: string)
    requires WellShaped(whole) && !HasDoubleHyphen(whole)
    ensures CutOff(whole) == if |whole| <= 20 then whole else if whole[19] == '-' then whole[..19] else whole[..20]
  {
    if |whole| > 20 {
      var lo, hi := TrimIsASlice(whole[..20]);
      assert !(whole[18] == '-' && whole[18 + 1] == '-');
      TrimToFront(whole, lo, hi);
    }
  }

  lemma TrimToFront(whole: string, lo: nat, hi: nat)
    requires |whole| > 20 && WellShaped(whole) && !(whole[18] == '-' && whole[19] == '-')
    requires lo <= hi <= 20 && Trim(whole[..20]) == whole[..20][lo..hi] && Trimmed(Trim(whole[..20]))
    requires forall i :: 0 <= i < lo || hi <= i < 20 ==> whole[..20][i] == '-'
    ensures Trim(whole[..20]) == if whole[19] == '-' then whole[..19] else whole[..20]
  {
    var t := whole[..20];
    assert t[0] == whole[0] && t[18] == whole[18] && t[19] == whole[19];
  }

  // ----- forbidden words -----

  /** When a forbidden prefix matches, `crt-` is put in front, in place of the first three characters if there are
      more than 16; when then a forbidden suffix matches, `-crt` is put behind, of such a name in place of all from
      the 17th character on. */
  lemma ForbiddenWordsReplace(username: string, prefixes: seq<string>, suffixes: seq<string>)
    ensures var base, named := Transformed(username, [], []), Transformed(username, prefixes, []);
            && named == (if forall p :: p in prefixes ==> !(p <= base) then base
                         else if |base| > 16 then "crt-" + base[3..]
                         else "crt-" + base)
            && Transformed(username, prefixes, suffixes) ==
               (if forall x :: x in suffixes ==> !EndsIn(named, x) then named
                else if |named| > 16 then named[..16] + "-crt"
                else named + "-crt")
  {
    var base := BaseName(username);
    NothingForbidden(base);
    PrefixReplaced(base, prefixes);
    NothingForbidden(PrefixFixed(base, prefixes));
    SuffixReplaced(PrefixFixed(base, prefixes), suffixes);
  }

  lemma NothingForbidden(name: string)
    ensures PrefixFixed(name, []) == name && SuffixFixed(name, []) == name
  {
  }

  lemma PrefixReplaced(name: string, prefixes: seq<string>)
    ensures PrefixFixed(name, prefixes) ==
            if forall p :: p in prefixes ==> !(p <= name) then name
            else if |name| > 16 then "crt-" + name[3..]
            else "crt-" + name
  {
  }

  lemma SuffixReplaced(name: string, suffixes: seq<string>)
    ensures SuffixFixed(name, suffixes) ==
            if forall x :: x in suffixes ==> !EndsIn(name, x) then name
            else if |name| > 16 then name[..16] + "-crt"
            else name + "-crt"
  {
    forall x: string ensures HasSuffix(name, x) <==> EndsIn(name, x) {
      SuffixIsAnEnd(name, x);
    }
  }

  ghost predicate EndsIn(s: string, end: string) {
    exists front :: s == front + end
  }

  lemma SuffixIsAnEnd(s: string, end: string)
    ensures HasSuffix(s, end) <==> EndsIn(s, end)
  {
    if HasSuffix(s, end) {
      assert s == s[..|s| - |end|] + end;
    }
  }

  // ----- what is kept of a user name -----

  /** No letter or digit in front of the `@` is lost, altered or moved before the cut: one `crt` goes in front of
      a name of digits only and of one that starts with another character, and one behind a name that ends with
      one. */
  lemma LettersSurvive(a: string)
    requires a != ""
    ensures Letters(Whole(a)) ==
            (if (forall i :: 0 <= i < |a| ==> IsDigit(a[i])) || !IsAlphanumeric(a[0]) then "crt" else "")
            + Letters(a)
            + (if !IsAlphanumeric(a[|a| - 1]) then "crt" else "")
  {
    LettersOfCrt();
    LettersOfDashed(a);
    LettersOfCollapsed(Dashed(a));
    LettersConcat(FrontOf(a), Hyphenated(a));
    LettersConcat(FrontOf(a) + Hyphenated(a), BackOf(a));
  }

  /** Of a name that starts with an `@` these are the letters of its parts with `at` for each `@`. */
  lemma {:induction false} LettersOfSpelledOut(parts: seq<string>)
    ensures Letters(Join(parts, "at-")) == Letters(Join(parts, "at"))
  {
    if |parts| > 1 {
      LettersOfSpelledOut(parts[1..]);
      assert Letters("at-") == Letters("at");
      LettersConcat(parts[0] + "at-", Join(parts[1..], "at-"));
      LettersConcat(parts[0] + "at", Join(parts[1..], "at"));
      LettersConcat(parts[0], "at-");
      LettersConcat(parts[0], "at");
    }
  }
}
