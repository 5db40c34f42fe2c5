/** The arguments of a token, the normalisation of its symbol into a registry
    key, the key's character set, and the child account a token lives in. */
module Token {
  import opened Primitives
  import opened Results

  type AccountId = string
  type TokenId = string
  type PublicKey = seq<U8>

  /** FungibleTokenMetadata (NEP-148). Only the symbol is read by the factory;
      the other fields travel to the child contract unchanged. */
  datatype Metadata = Metadata(
    spec: string,
    name: string,
    symbol: string,
    icon: Option<string>,
    reference: Option<string>,
    referenceHash: Option<seq<U8>>,
    decimals: U8)

  /** The arguments of create_token, stored in the registry and passed to the
      child's initializer. */
  datatype TokenArgs = TokenArgs(ownerId: AccountId, totalSupply: U128, metadata: Metadata)

  predicate IsAsciiUppercase(c: char) { 'A' <= c <= 'Z' }

  predicate IsAsciiLowercase(c: char) { 'a' <= c <= 'z' }

  predicate IsAsciiDigit(c: char) { '0' <= c <= '9' }

  predicate IsAsciiAlphanumeric(c: char) {
    IsAsciiDigit(c) || IsAsciiLowercase(c) || IsAsciiUppercase(c)
  }

  /** The lowercase letter of an ASCII capital; every other character is kept. */
  function AsciiLower(c: char): char {
    if IsAsciiUppercase(c) then (c as int + 32) as char else c
  }

  /** str::to_ascii_lowercase: ASCII capitals become lowercase, every other
      character is kept in place. */
  function ToAsciiLowercase(s: string): (r: string)
    ensures |r| == |s|
    ensures forall i :: 0 <= i < |s| ==> r[i] == AsciiLower(s[i])
  {
    if s == [] then [] else [AsciiLower(s[0])] + ToAsciiLowercase(s[1..])
  }

  /** Two strings that are equal once ASCII case is ignored: at each position
      the characters agree, or they are the two cases of one ASCII letter. */
  predicate SameIgnoringAsciiCase(a: string, b: string) {
    && |a| == |b|
    && forall i :: 0 <= i < |a| ==>
         || a[i] == b[i]
         || (IsAsciiUppercase(a[i]) && b[i] as int == a[i] as int + 32)
         || (IsAsciiLowercase(a[i]) && b[i] as int == a[i] as int - 32)
  }

  /** Symbols map to the same registry key exactly when they differ only in
      ASCII case. */
  lemma SameKeyIffSameIgnoringCase(a: string, b: string)
    ensures ToAsciiLowercase(a) == ToAsciiLowercase(b) <==> SameIgnoringAsciiCase(a, b)
  {
    var la, lb := ToAsciiLowercase(a), ToAsciiLowercase(b);
    if la == lb {
      forall i | 0 <= i < |a|
        ensures || a[i] == b[i]
                || (IsAsciiUppercase(a[i]) && b[i] as int == a[i] as int + 32)
                || (IsAsciiLowercase(a[i]) && b[i] as int == a[i] as int - 32)
      {
        assert AsciiLower(a[i]) == la[i] == lb[i] == AsciiLower(b[i]);
      }
    }
    if SameIgnoringAsciiCase(a, b) {
      forall i | 0 <= i < |a| ensures la[i] == lb[i] {
        assert la[i] == AsciiLower(a[i]) && lb[i] == AsciiLower(b[i]);
      }
      assert la == lb;
    }
  }

  /** A registry key is already lowercase: normalising it again changes nothing. */
  lemma LowercaseIdempotent(s: string)
    ensures ToAsciiLowercase(ToAsciiLowercase(s)) == ToAsciiLowercase(s)
  {
    var l := ToAsciiLowercase(s);
    forall i | 0 <= i < |l| ensures ToAsciiLowercase(l)[i] == l[i] {
      assert l[i] == AsciiLower(s[i]);
    }
  }

  /** The characters a token id may contain. */
  const TOKEN_ID_ALPHABET: string := "0123456789abcdefghijklmnopqrstuvwxyz"

  /** Reference definition of a legal token id: every character is one of
      TOKEN_ID_ALPHABET. The empty id is legal. */
  predicate ValidTokenId(s: string) {
    forall i :: 0 <= i < |s| ==> s[i] in TOKEN_ID_ALPHABET
  }

  lemma InAlphabetIff(c: char)
    ensures c in TOKEN_ID_ALPHABET <==> IsAsciiDigit(c) || IsAsciiLowercase(c)
  {
    if IsAsciiDigit(c) {
      assert TOKEN_ID_ALPHABET[c as int - '0' as int] == c;
    } else if IsAsciiLowercase(c) {
      assert TOKEN_ID_ALPHABET[c as int - 'a' as int + 10] == c;
    }
  }

  /** is_valid_token_id: scans the id and stops at the first character outside
      the digit and lowercase-letter ranges. */
  method IsValidTokenId(tokenId: TokenId) returns (valid: bool)
    ensures valid <==> ValidTokenId(tokenId)
  {
    var i := 0;
    while i < |tokenId|
      invariant 0 <= i <= |tokenId|
      invariant forall j :: 0 <= j < i ==> tokenId[j] in TOKEN_ID_ALPHABET
    {
      var c := tokenId[i];
      InAlphabetIff(c);
      if !('0' <= c <= '9' || 'a' <= c <= 'z') {
        return false;
      }
      i := i + 1;
    }
    return true;
  }

  /** A symbol is accepted after lowercasing exactly when each of its
      characters is an ASCII digit or letter of either case. */
  lemma LowercasedSymbolValidIff(symbol: string)
    ensures ValidTokenId(ToAsciiLowercase(symbol))
        <==> forall i :: 0 <= i < |symbol| ==> IsAsciiAlphanumeric(symbol[i])
  {
    var l := ToAsciiLowercase(symbol);
    forall i | 0 <= i < |symbol|
      ensures l[i] in TOKEN_ID_ALPHABET <==> IsAsciiAlphanumeric(symbol[i])
    {
      InAlphabetIff(l[i]);
    }
  }

  /** The account of a token: "<token_id>.<factory account>". */
  function ChildAccountId(tokenId: TokenId, currentAccountId: AccountId): (a: AccountId)
    ensures |a| == |tokenId| + 1 + |currentAccountId|
    ensures a[|tokenId|] == '.'
  {
    tokenId + "." + currentAccountId
  }

  /** Distinct legal token ids give distinct child accounts, whatever the
      factory accounts: the id is everything before the first dot. */
  lemma ChildAccountIdInjective(t1: TokenId, c1: AccountId, t2: TokenId, c2: AccountId)
    requires ValidTokenId(t1) && ValidTokenId(t2)
    requires ChildAccountId(t1, c1) == ChildAccountId(t2, c2)
    ensures t1 == t2 && c1 == c2
  {
    var r := ChildAccountId(t1, c1);
    assert '.' !in TOKEN_ID_ALPHABET by { InAlphabetIff('.'); }
    assert r[|t1|] == '.' && r[|t2|] == '.';
    assert forall i :: 0 <= i < |t1| ==> r[i] == t1[i] && r[i] in TOKEN_ID_ALPHABET;
    assert forall i :: 0 <= i < |t2| ==> r[i] == t2[i] && r[i] in TOKEN_ID_ALPHABET;
    assert |t1| == |t2|;
    assert t1 == r[..|t1|] == t2;
    assert c1 == r[|t1| + 1..] == c2;
  }
}
