/** Encoded user identifiers (pkg/usersignup/usersignup.go, EncodeUserIdentifier). The encoded text is
    ASCII, so its length in characters is its length in bytes. */
module UserIdentifiers {
  import opened DnsLabels
  import opened Sequences

  const DNS1123_NAME_MAXIMUM_LENGTH := 63

  /** Library behaviour the encoder relies on: lower-casing of one character, and CRC-32. */
  datatype Library = Library(toLower: char -> char, checksum: string -> nat)

  /** Lower-casing leaves lower-case letters, digits and the hyphen alone; checksums have 32 bits. */
  ghost predicate Lawful(lib: Library) {
    && (forall c :: IsLabelChar(c) ==> lib.toLower(c) == c)
    && (forall s :: lib.checksum(s) < 0x1_0000_0000)
  }

  function HexDigit(d: nat): char
    requires d < 16
  {
    "0123456789abcdef"[d]
  }

  /** Lower-case hexadecimal without leading zeros. */
  function Hex(n: nat): string {
    if n < 16 then [HexDigit(n)] else Hex(n / 16) + [HexDigit(n % 16)]
  }

  function Power16(k: nat): nat {
    if k == 0 then 1 else 16 * Power16(k - 1)
  }

  lemma {:induction false} HexShape(n: nat, k: nat)
    requires n < Power16(k) && k > 0
    ensures 1 <= |Hex(n)| <= k
    ensures forall i :: 0 <= i < |Hex(n)| ==> IsDigit(Hex(n)[i]) || IsLower(Hex(n)[i])
  {
    if n >= 16 {
      HexShape(n / 16, k - 1);
    }
  }

  /** A 32-bit checksum prints as one to eight hexadecimal digits. */
  lemma ChecksumShape(n: nat)
    requires n < 0x1_0000_0000
    ensures 1 <= |Hex(n)| <= 8
    ensures forall i :: 0 <= i < |Hex(n)| ==> IsDigit(Hex(n)[i]) || IsLower(Hex(n)[i])
  {
    assert Power16(4) == 0x1_0000;
    assert Power16(8) == 0x1_0000 * Power16(4);
    HexShape(n, 8);
  }

  function KeptOf(lib: Library, c: char): string {
    if IsLabelChar(lib.toLower(c)) then [lib.toLower(c)] else ""
  }

  /** The label characters of the lower-cased string, in order. */
  function Kept(lib: Library, s: string): string {
    if s == "" then ""
    else KeptOf(lib, s[0]) + Kept(lib, s[1..])
  }

  function Sanitized(lib: Library, s: string): string {
    Trim(Kept(lib, s))
  }

  function Encoded(lib: Library, subject: string): string {
    var sanitized := Sanitized(lib, subject);
    var encoded := if sanitized == subject then sanitized else Hex(lib.checksum(subject)) + "-" + sanitized;
    if |encoded| > DNS1123_NAME_MAXIMUM_LENGTH then encoded[..DNS1123_NAME_MAXIMUM_LENGTH] else encoded
  }

  lemma {:induction false} KeptConcat(lib: Library, a: string, b: string)
    ensures Kept(lib, a + b) == Kept(lib, a) + Kept(lib, b)
  {
    if a == "" {
      assert a + b == b;
    } else {
      KeptConcat(lib, a[1..], b);
      assert (a + b)[0] == a[0] && (a + b)[1..] == a[1..] + b;
      Regrouped(KeptOf(lib, a[0]), Kept(lib, a[1..]), Kept(lib, b));
    }
  }

  lemma {:induction false} OnlyLabelCharsAreKept(lib: Library, s: string)
    ensures |Kept(lib, s)| <= |s| && forall i :: 0 <= i < |Kept(lib, s)| ==> IsLabelChar(Kept(lib, s)[i])
  {
    if s != "" {
      OnlyLabelCharsAreKept(lib, s[1..]);
    }
  }

  method SanitizeDNS1123(lib: Library, str: string) returns (r: string)
    ensures r == Sanitized(lib, str)
  {
    var b := "";
    for i := 0 to |str|
      invariant b == Kept(lib, str[..i])
    {
      var c := lib.toLower(str[i]);
      assert str[..i + 1] == str[..i] + [str[i]];
      KeptConcat(lib, str[..i], [str[i]]);
      assert [str[i]][1..] == "";
      if '0' <= c <= '9' || 'a' <= c <= 'z' || c == '-' {
        b := b + [c];
      }
    }
    assert str[..|str|] == str;
    r := Trim(b);
  }

  method EncodeUserIdentifier(lib: Library, subject: string) returns (encoded: string)
    ensures encoded == Encoded(lib, subject)
  {
    encoded := SanitizeDNS1123(lib, subject);
    if encoded != subject {
      encoded := Hex(lib.checksum(subject)) + "-" + encoded;
    }
    if |encoded| > DNS1123_NAME_MAXIMUM_LENGTH {
      encoded := encoded[0..DNS1123_NAME_MAXIMUM_LENGTH];
    }
  }

  // ----- laws -----

  /** The value of a lower-case hexadecimal text, the most significant digit first. */
  function HexValue(s: string): int {
    if s == "" then 0
    else
      var c := s[|s| - 1];
      16 * HexValue(s[..|s| - 1]) + if '0' <= c <= '9' then c as int - '0' as int else 10 + c as int - 'a' as int
  }

  lemma HexDigitValue(d: nat)
    requires d < 16
    ensures var c := HexDigit(d);
            ('0' <= c <= '9' && c as int - '0' as int == d) || ('a' <= c <= 'f' && 10 + c as int - 'a' as int == d)
  {
  }

  /** The digits of a number have its value, and none of them is a leading zero. */
  lemma {:induction false} HexExactly(n: nat)
    ensures HexValue(Hex(n)) == n && Hex(n) != "" && (Hex(n)[0] == '0' <==> n == 0)
    ensures forall i :: 0 <= i < |Hex(n)| ==> '0' <= Hex(n)[i] <= '9' || 'a' <= Hex(n)[i] <= 'f'
  {
    HexDigitValue(n % 16);
    if n < 16 {
      assert Hex(n)[..0] == "";
    } else {
      HexExactly(n / 16);
      assert Hex(n)[..|Hex(n)| - 1] == Hex(n / 16);
    }
  }

  /** Of each character its lower case is kept if it is a letter from a to z, a digit or a hyphen. */
  lemma KeptOfOne(lib: Library, c: char)
    ensures var lower := lib.toLower(c);
            Kept(lib, [c]) == if '0' <= lower <= '9' || 'a' <= lower <= 'z' || lower == '-' then [lower] else ""
  {
    assert [c][1..] == "";
  }

  /** Hyphens are taken off both ends of what is kept, and nothing else. */
  lemma SanitizedExactly(lib: Library, s: string) returns (lo: nat, hi: nat)
    ensures lo <= hi <= |Kept(lib, s)| && Sanitized(lib, s) == Kept(lib, s)[lo..hi]
    ensures forall i :: 0 <= i < lo || hi <= i < |Kept(lib, s)| ==> Kept(lib, s)[i] == '-'
    ensures lo < hi ==> Kept(lib, s)[lo] != '-' && Kept(lib, s)[hi - 1] != '-'
  {
    lo, hi := TrimIsASlice(Kept(lib, s));
  }

  /** A subject that is not compliant is encoded as its checksum, a hyphen and what is kept of it, cut off behind 63
      characters. */
  lemma EncodedExactly(lib: Library, subject: string)
    requires Lawful(lib) && !Compliant(subject)
    ensures var whole := Hex(lib.checksum(subject)) + "-" + Sanitized(lib, subject);
            Encoded(lib, subject) == if |whole| <= 63 then whole else whole[..63]
  {
    SanitizedIsCompliant(lib, subject);
  }

  /** A subject that is its own sanitised form. */
  ghost predicate Compliant(s: string) {
    (forall i :: 0 <= i < |s| ==> IsLabelChar(s[i])) && Trimmed(s)
  }

  lemma {:induction false} LabelCharsAreKept(lib: Library, s: string)
    requires Lawful(lib) && forall i :: 0 <= i < |s| ==> IsLabelChar(s[i])
    ensures Kept(lib, s) == s
  {
    if s != "" {
      LabelCharsAreKept(lib, s[1..]);
    }
  }

  lemma SanitizedIsCompliant(lib: Library, s: string)
    requires Lawful(lib)
    ensures Compliant(Sanitized(lib, s))
    ensures Sanitized(lib, s) == s <==> Compliant(s)
  {
    OnlyLabelCharsAreKept(lib, s);
    var lo, hi := TrimIsASlice(Kept(lib, s));
    if Compliant(s) {
      LabelCharsAreKept(lib, s);
      TrimmedIsFixed(s);
    }
  }

  /** For every subject: at most 63 characters out of a-z, 0-9 and the hyphen, no hyphen in front, and
      empty only for the empty subject. */
  lemma EncodedShape(lib: Library, subject: string)
    requires Lawful(lib)
    ensures var e := Encoded(lib, subject);
            && |e| <= DNS1123_NAME_MAXIMUM_LENGTH
            && (forall i :: 0 <= i < |e| ==> IsLabelChar(e[i]))
            && (e != "" ==> e[0] != '-')
            && (e == "" <==> subject == "")
  {
    SanitizedIsCompliant(lib, subject);
    ChecksumShape(lib.checksum(subject));
  }

  /** A compliant subject is only cut off at 63 characters, so one that fits is unchanged. */
  lemma CompliantSubjectsStay(lib: Library, subject: string)
    requires Lawful(lib) && Compliant(subject)
    ensures Encoded(lib, subject) == if |subject| <= 63 then subject else subject[..63]
  {
    SanitizedIsCompliant(lib, subject);
  }

  predicate EndsInHyphen(s: string) {
    s != "" && s[|s| - 1] == '-'
  }

  /** The encoded text before it is cut off. */
  function Uncut(lib: Library, subject: string): string {
    if Sanitized(lib, subject) == subject then subject else Hex(lib.checksum(subject)) + "-" + Sanitized(lib, subject)
  }

  /** Which subjects are encoded with a hyphen at the end: those of which nothing is kept, and those whose
      cut falls behind a hyphen. */
  lemma EncodedWithHyphen(lib: Library, subject: string)
    requires Lawful(lib)
    ensures EndsInHyphen(Encoded(lib, subject)) <==>
            || (subject != "" && Sanitized(lib, subject) == "")
            || (|Uncut(lib, subject)| > DNS1123_NAME_MAXIMUM_LENGTH && Uncut(lib, subject)[62] == '-')
  {
    SanitizedIsCompliant(lib, subject);
    var s, whole := Sanitized(lib, subject), Uncut(lib, subject);
    assert Encoded(lib, subject) == if |whole| > 63 then whole[..63] else whole;
    if s == "" {
      assert whole == if subject == "" then "" else Hex(lib.checksum(subject)) + "-";
      assert subject != "" ==> whole[|whole| - 1] == '-' && |whole| <= 9 by {
        ChecksumShape(lib.checksum(subject));
      }
    } else {
      assert whole[|whole| - 1] == s[|s| - 1];
    }
  }

  /** The text is the part over and over again. */
  ghost predicate Repeats(s: string, part: string) {
    part <= s && forall i :: |part| <= i < |s| ==> s[i] == s[i - |part|]
  }

  /** A text of full length that repeats its own checksum and a hyphen. */
  ghost predicate RepeatsItsChecksum(lib: Library, s: string) {
    |s| == DNS1123_NAME_MAXIMUM_LENGTH && Repeats(s, Hex(lib.checksum(s)) + "-")
  }

  /** Only hyphens are trimmed from the end of a text with label characters that does not start with one. */
  lemma SanitizedEnd(lib: Library, s: string) returns (n: nat)
    requires Lawful(lib) && s != "" && s[0] != '-' && forall i :: 0 <= i < |s| ==> IsLabelChar(s[i])
    ensures 0 < n <= |s| && Sanitized(lib, s) == s[..n] && s[n - 1] != '-'
    ensures forall i :: n <= i < |s| ==> s[i] == '-'
  {
    LabelCharsAreKept(lib, s);
    var lo, hi := TrimIsASlice(s);
    n := hi;
  }

  lemma ShiftedIsRepetition(s: string, part: string, front: string)
    requires front <= s && |part + front| >= |s| > |part|
    ensures (part + front)[..|s|] == s <==> Repeats(s, part)
  {
    var t := (part + front)[..|s|];
    assert t[..|part|] == part;
    assert forall k :: |part| <= k < |s| ==> t[k] == front[k - |part|] == s[k - |part|];
  }

  lemma {:induction false} NoTwoHyphens(s: string, hex: string, i: nat)
    requires hex != "" && '-' !in hex && Repeats(s, hex + "-") && i < |s| - 1
    ensures !(s[i] == '-' && s[i + 1] == '-')
    decreases i
  {
    var m := |hex| + 1;
    if i >= m {
      NoTwoHyphens(s, hex, i - m);
    } else {
      assert forall k :: 0 <= k < |hex| ==> s[k] == (hex + "-")[k] && (hex + "-")[k] in hex;
      assert i == m - 1 ==> s[m] == s[m - |hex + "-"|];
    }
  }

  /** Among encoded texts, those with a hyphen at the end that stay when they are encoded again are exactly
      those that repeat their own checksum. */
  lemma HyphenatedFixedPoints(lib: Library, s: string)
    requires Lawful(lib) && |s| <= DNS1123_NAME_MAXIMUM_LENGTH && EndsInHyphen(s)
    requires s[0] != '-' && forall i :: 0 <= i < |s| ==> IsLabelChar(s[i])
    ensures Encoded(lib, s) == s <==> RepeatsItsChecksum(lib, s)
  {
    ChecksumShape(lib.checksum(s));
    var hex := Hex(lib.checksum(s));
    var n := EncodedOfHyphenated(lib, s, hex + "-");
    FrontAndStart(s, hex + "-", n);
    if RepeatsItsChecksum(lib, s) {
      OneHyphenAtTheEnd(s, hex, n);
    }
  }

  lemma EncodedOfHyphenated(lib: Library, s: string, part: string) returns (n: nat)
    requires Lawful(lib) && EndsInHyphen(s) && s[0] != '-' && forall i :: 0 <= i < |s| ==> IsLabelChar(s[i])
    requires part == Hex(lib.checksum(s)) + "-"
    ensures 0 < n <= |s| && s[n - 1] != '-' && forall i :: n <= i < |s| ==> s[i] == '-'
    ensures Encoded(lib, s) == if |part + s[..n]| > 63 then (part + s[..n])[..63] else part + s[..n]
  {
    n := SanitizedEnd(lib, s);
  }

  lemma OneHyphenAtTheEnd(s: string, hex: string, n: nat)
    requires |s| == 63 && 1 <= |hex| <= 8 && '-' !in hex && Repeats(s, hex + "-") && n <= 63
    requires forall i :: n <= i < |s| ==> s[i] == '-'
    ensures n >= 62
  {
    NoTwoHyphens(s, hex, 61);
  }

  /** When a text with a hyphen at the end is the part and its own start up to n, cut off. */
  lemma FrontAndStart(s: string, part: string, n: nat)
    requires |s| <= 63 && EndsInHyphen(s) && 0 < n <= |s| && s[n - 1] != '-' && 0 < |part| < 63
    ensures var whole := part + s[..n];
            (if |whole| > 63 then whole[..63] else whole) == s <==> |s| == 63 && |part| + n >= 63 && Repeats(s, part)
  {
    var whole := part + s[..n];
    assert whole[|whole| - 1] == s[n - 1];
    if |s| == 63 && |whole| >= 63 {
      ShiftedIsRepetition(s, part, s[..n]);
      assert |whole| == 63 ==> whole[..63] == whole;
    }
  }

  lemma {:induction false} CharsOfRepetition(s: string, part: string, i: nat)
    requires part != "" && Repeats(s, part) && i < |s|
    ensures s[i] in part
    decreases i
  {
    if i >= |part| {
      CharsOfRepetition(s, part, i - |part|);
    } else {
      assert s[i] == part[i];
    }
  }

  /** The encoder's fixed points are exactly the compliant subjects that fit, and texts of full length that
      repeat their own checksum. */
  lemma FixedPoints(lib: Library, subject: string)
    requires Lawful(lib)
    ensures Encoded(lib, subject) == subject <==>
            (Compliant(subject) && |subject| <= DNS1123_NAME_MAXIMUM_LENGTH) || RepeatsItsChecksum(lib, subject)
  {
    EncodedShape(lib, subject);
    if Compliant(subject) {
      CompliantSubjectsStay(lib, subject);
    }
    if RepeatsItsChecksum(lib, subject) {
      ChecksumShape(lib.checksum(subject));
      forall i | 0 <= i < |subject| ensures IsLabelChar(subject[i]) {
        CharsOfRepetition(subject, Hex(lib.checksum(subject)) + "-", i);
      }
    }
    if EndsInHyphen(subject) && subject[0] != '-' && |subject| <= DNS1123_NAME_MAXIMUM_LENGTH
       && forall i :: 0 <= i < |subject| ==> IsLabelChar(subject[i])
    {
      HyphenatedFixedPoints(lib, subject);
    }
  }

  /** An encoded value is encoded as itself if and only if it does not end with a hyphen, or it has full
      length and repeats its own checksum. */
  lemma EncodingTwice(lib: Library, subject: string)
    requires Lawful(lib)
    ensures var e := Encoded(lib, subject);
            Encoded(lib, e) == e <==> !EndsInHyphen(e) || RepeatsItsChecksum(lib, e)
  {
    EncodedShape(lib, subject);
    FixedPoints(lib, Encoded(lib, subject));
  }

  /** A subject of which nothing is kept is encoded differently each time, for instance a single hyphen. */
  lemma NothingKept(lib: Library, subject: string)
    requires Lawful(lib) && subject != "" && Sanitized(lib, subject) == ""
    ensures Encoded(lib, Encoded(lib, subject)) != Encoded(lib, subject)
    ensures Sanitized(lib, "-") == ""
  {
    EncodedWithHyphen(lib, subject);
    EncodingTwice(lib, subject);
    ChecksumShape(lib.checksum(subject));
    LabelCharsAreKept(lib, "-");
    assert "-"[1..] == "";
  }
}
