/** Characters, trimming and the label shape of section 2.1 of RFC 1123, shared by the name encoders. */
module DnsLabels {
  predicate IsDigit(c: char) { '0' <= c <= '9' }
  predicate IsLower(c: char) { 'a' <= c <= 'z' }
  predicate IsUpper(c: char) { 'A' <= c <= 'Z' }
  predicate IsAlphanumeric(c: char) { IsDigit(c) || IsLower(c) || IsUpper(c) }
  predicate IsLabelChar(c: char) { IsDigit(c) || IsLower(c) || c == '-' }

  /** The check of the validation library: 1 to 63 characters, no hyphen at either end. */
  predicate IsDNS1123Label(s: string) {
    && 1 <= |s| <= 63
    && (forall i :: 0 <= i < |s| ==> IsLabelChar(s[i]))
    && s[0] != '-' && s[|s| - 1] != '-'
  }

  function TrimLeft(s: string): string {
    if s != "" && s[0] == '-' then TrimLeft(s[1..]) else s
  }

  function TrimRight(s: string): string {
    if s != "" && s[|s| - 1] == '-' then TrimRight(s[..|s| - 1]) else s
  }

  function Trim(s: string): string {
    TrimRight(TrimLeft(s))
  }

  /** No hyphen at either end. */
  predicate Trimmed(s: string) {
    s != "" ==> s[0] != '-' && s[|s| - 1] != '-'
  }

  lemma {:induction false} TrimLeftIsSuffix(s: string) returns (n: nat)
    ensures n <= |s| && TrimLeft(s) == s[n..] && (forall i :: 0 <= i < n ==> s[i] == '-')
    ensures n < |s| ==> s[n] != '-'
  {
    if s != "" && s[0] == '-' {
      n := TrimLeftIsSuffix(s[1..]);
      n := n + 1;
    } else {
      n := 0;
    }
  }

  lemma {:induction false} TrimRightIsPrefix(s: string) returns (n: nat)
    ensures n <= |s| && TrimRight(s) == s[..n] && (forall i :: n <= i < |s| ==> s[i] == '-')
    ensures n > 0 ==> s[n - 1] != '-'
  {
    if s != "" && s[|s| - 1] == '-' {
      n := TrimRightIsPrefix(s[..|s| - 1]);
    } else {
      n := |s|;
    }
  }

  /** Trimming takes a stretch of the string out of hyphens only, and nothing more can be trimmed. */
  lemma TrimIsASlice(s: string) returns (lo: nat, hi: nat)
    ensures lo <= hi <= |s| && Trim(s) == s[lo..hi] && Trimmed(Trim(s))
    ensures forall i :: 0 <= i < lo || hi <= i < |s| ==> s[i] == '-'
  {
    lo := TrimLeftIsSuffix(s);
    var n := TrimRightIsPrefix(s[lo..]);
    hi := lo + n;
    assert s[lo..][..n] == s[lo..hi];
    assert forall i :: hi <= i < |s| ==> s[i] == s[lo..][i - lo];
  }

  lemma TrimmedIsFixed(s: string)
    requires Trimmed(s)
    ensures Trim(s) == s
  {
  }
}
