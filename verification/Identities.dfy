/** Names of identity resources (pkg/identity/identity_naming_standard.go). Strings are byte sequences. */
module Identities {
  import opened Wrappers
  import opened Base64

  type Bytes = seq<Byte>

  const COLON: Byte := 58
  const SLASH: Byte := 47
  const B64_PREFIX: Bytes := [98, 54, 52, COLON]

  datatype Identity = Identity(name: Bytes, providerName: Bytes, providerUserName: Bytes)

  predicate IsIdentityNameCompliant(name: Bytes) {
    COLON !in name && SLASH !in name
  }

  function Username(userID: Bytes): Bytes {
    if IsIdentityNameCompliant(userID) then userID else B64_PREFIX + Encode(userID)
  }

  function IdentityName(provider: Bytes, userID: Bytes): Bytes {
    provider + [COLON] + Username(userID)
  }

  class NamedIdentity {
    var identity: Identity

    constructor (identity: Identity)
      ensures this.identity == identity
    {
      this.identity := identity;
    }

    method ApplyToIdentity(userID: Bytes, provider: Bytes)
      modifies this
      ensures identity.providerName == provider
      ensures DecodeUsername(identity.providerUserName) == Some(userID)
      ensures DecodeName(identity.providerName, identity.name) == Some(userID)
      ensures identity.name == identity.providerName + [COLON] + identity.providerUserName
    {
      identity := identity.(name := IdentityName(provider, userID));
      identity := identity.(providerName := provider);
      identity := identity.(providerUserName := Username(userID));
      UsernameDecodes(userID, identity.providerUserName);
      NameDecodes(provider, userID, identity.name);
    }
  }

  /** The provider, a colon and the user name. That is the ID itself, or if the ID holds a colon (58) or a slash (47),
      `b64:` and its encoding. */
  lemma NamesExactly(provider: Bytes, userID: Bytes)
    ensures IdentityName(provider, userID) == provider + [58] + Username(userID)
    ensures (exists i :: 0 <= i < |userID| && (userID[i] == 58 || userID[i] == 47)) ==>
              Username(userID) == [98, 54, 52, 58] + Encode(userID)
    ensures (forall i :: 0 <= i < |userID| ==> userID[i] != 58 && userID[i] != 47) ==> Username(userID) == userID
  {
  }

  /** Reads a user name back: a `b64:` form whose payload stands for an ID that needs it, or a plain ID. */
  function DecodeUsername(username: Bytes): Option<Bytes> {
    if B64_PREFIX <= username then
      match Decode(username[4..])
      case Some(userID) => if IsIdentityNameCompliant(userID) then None else Some(userID)
      case None => None
    else if IsIdentityNameCompliant(username) then Some(username)
    else None
  }

  function DecodeName(provider: Bytes, name: Bytes): Option<Bytes> {
    if provider + [COLON] <= name then DecodeUsername(name[|provider| + 1..]) else None
  }

  /** The decoder answers with an ID exactly on the user name of that ID. */
  lemma UsernameDecodes(userID: Bytes, username: Bytes)
    ensures DecodeUsername(username) == Some(userID) <==> Username(userID) == username
  {
    ColonOfUsername(userID);
    if !IsIdentityNameCompliant(userID) && Username(userID) == username {
      assert username[4..] == Encode(userID);
      DecodeEncode(userID);
    }
    if DecodeUsername(username) == Some(userID) && B64_PREFIX <= username {
      EncodeDecode(username[4..]);
      assert username == B64_PREFIX + username[4..];
    }
  }

  /** For a fixed provider, decoding and naming are inverse on all byte strings: the decoder answers with
      an ID exactly on the name of that ID, so names are injective. */
  lemma NameDecodes(provider: Bytes, userID: Bytes, name: Bytes)
    ensures DecodeName(provider, name) == Some(userID) <==> IdentityName(provider, userID) == name
  {
    if provider + [COLON] <= name {
      assert name == provider + [COLON] + name[|provider| + 1..];
      UsernameDecodes(userID, name[|provider| + 1..]);
      assert IdentityName(provider, userID)[|provider| + 1..] == Username(userID);
    } else {
      assert provider + [COLON] <= IdentityName(provider, userID);
    }
  }

  lemma NamesAreInjective(provider: Bytes, userID: Bytes, userID': Bytes)
    requires IdentityName(provider, userID) == IdentityName(provider, userID')
    ensures userID == userID'
  {
    NameDecodes(provider, userID, IdentityName(provider, userID));
    NameDecodes(provider, userID', IdentityName(provider, userID));
  }

  /** The longer provider is the shorter one followed by `:b64`, and its user ID is the slash-free encoding of
      an ID of the shorter one that had to be encoded. */
  ghost predicate Meet(shorter: Bytes, userID: Bytes, longer: Bytes, userID': Bytes) {
    && longer == shorter + [COLON] + B64_PREFIX[..3]
    && !IsIdentityNameCompliant(userID)
    && userID' == Encode(userID) && IsIdentityNameCompliant(userID')
  }

  /** Names coincide for the same provider and user ID, and otherwise in exactly one way. */
  lemma NamesAcrossProviders(provider: Bytes, userID: Bytes, provider': Bytes, userID': Bytes)
    ensures IdentityName(provider, userID) == IdentityName(provider', userID') <==>
            || (provider == provider' && userID == userID')
            || Meet(provider, userID, provider', userID')
            || Meet(provider', userID', provider, userID)
  {
    if |provider| < |provider'| {
      NamesWithLongerProvider(provider, userID, provider', userID');
    } else if |provider'| < |provider| {
      NamesWithLongerProvider(provider', userID', provider, userID);
    } else if IdentityName(provider, userID) == IdentityName(provider', userID') {
      assert IdentityName(provider, userID)[..|provider|] == provider;
      assert IdentityName(provider', userID')[..|provider|] == provider';
      NamesAreInjective(provider, userID, userID');
    }
  }

  lemma NamesWithLongerProvider(provider: Bytes, userID: Bytes, longer: Bytes, userID': Bytes)
    requires |provider| < |longer|
    ensures IdentityName(provider, userID) == IdentityName(longer, userID') <==> Meet(provider, userID, longer, userID')
  {
    ColonOfUsername(userID);
    ColonOfUsername(userID');
    if IdentityName(provider, userID) == IdentityName(longer, userID') {
      MeetingSplits(provider, Username(userID), longer, Username(userID'));
      EncodeHasNoColon(userID);
    }
    if Meet(provider, userID, longer, userID') {
      MeetingHappens(provider, Encode(userID));
    }
  }

  lemma MeetingHappens(provider: Bytes, payload: Bytes)
    ensures provider + [COLON] + (B64_PREFIX + payload) == (provider + [COLON] + B64_PREFIX[..3]) + [COLON] + payload
  {
  }

  /** When names of different providers meet, the shorter provider's user name holds a colon right after
      the rest of the longer provider. */
  lemma MeetingSplits(provider: Bytes, user: Bytes, longer: Bytes, user': Bytes)
    requires |provider| < |longer| && provider + [COLON] + user == longer + [COLON] + user'
    requires forall at :: 0 <= at < |user| && user[at] == COLON ==> at == 3 && B64_PREFIX <= user
    ensures B64_PREFIX <= user && longer == provider + [COLON] + B64_PREFIX[..3] && user' == user[4..]
  {
    var name := provider + [COLON] + user;
    var at := |longer| - |provider| - 1;
    assert (longer + [COLON] + user')[|longer|] == COLON;
    assert name[|longer|] == user[at];
    assert name[..|longer|] == longer && name[|longer| + 1..] == user';
    assert name[..|longer|] == provider + [COLON] + user[..at];
  }

  /** A user name holds at most one colon, the fourth byte of a `b64:` form. */
  lemma ColonOfUsername(userID: Bytes)
    ensures IsIdentityNameCompliant(userID) ==> COLON !in Username(userID) && !(B64_PREFIX <= Username(userID))
    ensures !IsIdentityNameCompliant(userID) ==> B64_PREFIX <= Username(userID) && Username(userID)[4..] == Encode(userID)
    ensures forall at :: 0 <= at < |Username(userID)| && Username(userID)[at] == COLON ==> at == 3
  {
    PrefixHoldsColon(userID);
    EncodeHasNoColon(userID);
    var encoded := Encode(userID);
    assert (B64_PREFIX + encoded)[4..] == encoded;
    assert forall i :: 0 <= i < |encoded| ==> encoded[i] in encoded;
    assert forall at :: 4 <= at < |B64_PREFIX + encoded| ==> (B64_PREFIX + encoded)[at] == encoded[at - 4];
  }

  lemma PrefixHoldsColon(username: Bytes)
    ensures B64_PREFIX <= username ==> COLON in username
  {
    if B64_PREFIX <= username {
      assert username[3] == B64_PREFIX[3];
    }
  }

  /** Every ID with a colon or slash whose encoding has no slash takes part in such a meeting. */
  lemma MeetingOf(provider: Bytes, userID: Bytes)
    requires !IsIdentityNameCompliant(userID) && SLASH !in Encode(userID)
    ensures IdentityName(provider, userID) == IdentityName(provider + [COLON] + B64_PREFIX[..3], Encode(userID))
  {
    EncodeHasNoColon(userID);
    NamesAcrossProviders(provider, userID, provider + [COLON] + B64_PREFIX[..3], Encode(userID));
  }

  lemma EncodeOfByte(b: Byte)
    ensures Encode([b]) == [Digit(b / 4), Digit(b % 4 * 16)]
  {
  }

  /** For instance the one-byte ID ":", encoded as "Og". */
  lemma TwoProvidersMeet(provider: Bytes)
    ensures Encode([COLON]) == [79, 103]
    ensures IdentityName(provider, [COLON]) == IdentityName(provider + [COLON] + B64_PREFIX[..3], [79, 103])
  {
    EncodeOfByte(COLON);
    assert [COLON][0] == COLON;
    MeetingOf(provider, [COLON]);
  }
}
