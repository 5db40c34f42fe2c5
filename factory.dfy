/** The factory contract's persistent state and its entry points, updated in
    place as the contract does. Each mutating method is proved against the
    pure definitions in Ledger and Protocol. */
module Factory {
  import opened Primitives
  import opened Results
  import opened Token
  import opened Cost
  import Ledger
  import opened Protocol

  /** "a" repeated n times: the 64-character account used by the probe. */
  function Repeat(c: char, n: nat): (s: string)
    ensures |s| == n
  {
    if n == 0 then [] else [c] + Repeat(c, n - 1)
  }

  class Contract {
    /** The registry: token id to the arguments it was created with. */
    var tokens: map<TokenId, TokenArgs>
    /** The ledger: spendable storage credit per registered account. */
    var storageDeposits: map<AccountId, NearToken>
    /** The one-time registration fee, calibrated once by `New`. */
    const storageBalanceCost: NearToken
    /** FT_WASM_CODE.len(): the length of the embedded token binary. */
    const wasmLen: nat

    /** The object invariant: the registry is well formed. */
    ghost predicate Valid()
      reads this
    {
      RegistryWellFormed(tokens)
    }

    /** new: measures what one maximal-length ledger entry costs by inserting
        and removing a probe account; `probeBytes` is the storage growth the
        host reports for that insert. */
    constructor New(storageByteCost: NearToken, probeBytes: U64, wasmLen: nat)
      ensures tokens == map[] && storageDeposits == map[]
      ensures Valid()
      ensures storageBalanceCost as int == Min(storageByteCost as int * probeBytes as int, U128_MAX)
      ensures this.wasmLen == wasmLen
    {
      var deposits: map<AccountId, NearToken> := map[];
      var probeAccountId := Repeat('a', 64);
      deposits := deposits[probeAccountId := 0];
      storageBalanceCost := SaturatingMul(storageByteCost, probeBytes as nat);
      deposits := deposits - {probeAccountId};
      this.wasmLen := wasmLen;
      tokens := map[];
      storageDeposits := deposits;
    }

    /** get_required_deposit, a view: it reads the ledger and changes nothing. */
    function GetRequiredDeposit(storageByteCost: NearToken, args: TokenArgs, accountId: AccountId): (r: NearToken)
      reads this
      ensures var cost := MinAttachedBalance(storageByteCost, wasmLen, args);
        && (accountId in storageDeposits ==>
              r as int == Max(0, cost as int - storageDeposits[accountId] as int))
        && (accountId !in storageDeposits ==>
              r as int == Min(storageBalanceCost as int + cost as int, U128_MAX))
    {
      RequiredDeposit(storageDeposits, storageBalanceCost, storageByteCost, wasmLen, args, accountId)
    }

    /** get_number_of_tokens, a view: the number of registered token ids. */
    function GetNumberOfTokens(): (n: nat)
      reads this
      ensures n == |tokens.Keys|
    {
      |tokens|
    }

    /** storage_deposit by `accountId` with `deposit` attached. */
    method StorageDeposit(accountId: AccountId, deposit: NearToken) returns (r: Result<(), Error>)
      requires Valid()
      modifies this`storageDeposits
      ensures Valid()
      ensures match Ledger.Deposit(old(storageDeposits), storageBalanceCost, accountId, deposit)
        case Ok(d) => r == Ok(()) && storageDeposits == d
        case Err(e) => r == Err(e) && storageDeposits == old(storageDeposits)
    {
      if accountId in storageDeposits {
        var previousBalance := storageDeposits[accountId];
        storageDeposits := storageDeposits[accountId := SaturatingAdd(previousBalance, deposit)];
      } else {
        if deposit < storageBalanceCost {
          return Err(DepositTooLow);
        }
        storageDeposits := storageDeposits[accountId := SaturatingSub(deposit, storageBalanceCost)];
      }
      r := Ok(());
    }

    /** create_token: an optional top-up, the checks, the debit and the
        insert, in the contract's order. A failing check aborts the call; the
        host then discards the call's writes, which the method does by going
        back to the state it started from. */
    method CreateToken(host: Host, args: TokenArgs) returns (r: Result<Batch, Error>)
      requires Valid()
      modifies this
      ensures Valid()
      ensures var spec := Protocol.CreateToken(old(storageDeposits), old(tokens), storageBalanceCost, wasmLen, host, args);
        match spec
        case Ok(c) => r == Ok(c.batch) && storageDeposits == c.storageDeposits && tokens == c.tokens
        case Err(e) => r == Err(e) && storageDeposits == old(storageDeposits) && tokens == old(tokens)
      ensures r.Ok? ==> GetNumberOfTokens() == old(GetNumberOfTokens()) + 1
    {
      var savedDeposits, savedTokens := storageDeposits, tokens;
      ghost var spec := Protocol.CreateToken(savedDeposits, savedTokens, storageBalanceCost, wasmLen, host, args);
      ghost var topped :=
        if host.attachedDeposit > 0 then
          Ledger.Deposit(savedDeposits, storageBalanceCost, host.predecessorAccountId, host.attachedDeposit)
        else Ok(savedDeposits);
      if host.attachedDeposit > 0 {
        var topUp := StorageDeposit(host.predecessorAccountId, host.attachedDeposit);
        if topUp.Err? {
          assert spec == Err(topUp.error);
          return Err(topUp.error);
        }
      }
      assert topped.Ok? && storageDeposits == topped.value;
      if !host.metadataIsValid(args.metadata) {
        storageDeposits := savedDeposits;
        assert spec == Err(InvalidMetadata);
        return Err(InvalidMetadata);
      }
      var tokenId := ToAsciiLowercase(args.metadata.symbol);
      var validId := IsValidTokenId(tokenId);
      if !validId {
        storageDeposits := savedDeposits;
        assert spec == Err(InvalidSymbol);
        return Err(InvalidSymbol);
      }
      var tokenAccountId := ChildAccountId(tokenId, host.currentAccountId);
      if !host.isValidAccountId(tokenAccountId) {
        storageDeposits := savedDeposits;
        assert spec == Err(InvalidTokenAccountId);
        return Err(InvalidTokenAccountId);
      }
      var accountId := host.predecessorAccountId;
      var requiredBalance := MinAttachedBalance(host.storageByteCost, wasmLen, args);
      if accountId !in storageDeposits {
        storageDeposits := savedDeposits;
        assert spec == Err(AccountNotRegistered);
        return Err(AccountNotRegistered);
      }
      var userBalance := storageDeposits[accountId];
      if userBalance < requiredBalance {
        storageDeposits := savedDeposits;
        assert spec == Err(NotEnoughBalance);
        return Err(NotEnoughBalance);
      }
      storageDeposits := storageDeposits[accountId := SaturatingSub(userBalance, requiredBalance)];
      // The map insert replaces an existing entry and reports the old one;
      // the contract then aborts, so the replacement is rolled back too.
      var previous := if tokenId in tokens then Some(tokens[tokenId]) else None;
      tokens := tokens[tokenId := args];
      if previous.Some? {
        storageDeposits, tokens := savedDeposits, savedTokens;
        assert spec == Err(TokenIdTaken);
        return Err(TokenIdTaken);
      }
      var storageBalanceUsed := SaturatingMul(host.storageByteCost, host.tokenInsertBytes as nat);
      r := Ok(TokenBatch(tokenAccountId, SaturatingSub(requiredBalance, storageBalanceUsed),
                         host.signerAccountPk, wasmLen, args));
      assert spec == Ok(Created(storageDeposits, tokens, r.value));
      CreateTokenPreservesRegistry(savedDeposits, savedTokens, storageBalanceCost, wasmLen, host, args);
    }
  }

  /** A client run: register, create a token, then try its case variant
      and a symbol with a dash. */
  method CreateTwiceScenario() {
    // Registration costs 100 yoctoNEAR; with an empty binary a token costs
    // 10002 bytes at one yoctoNEAR each.
    var factory := new Contract.New(1, 100, 0);
    assert factory.storageBalanceCost == 100;
    var deposited := factory.StorageDeposit("alice.near", 10152);
    assert deposited.Ok? && factory.storageDeposits == map["alice.near" := 10052];

    CreateScenario(factory);
  }

  /** Continues CreateTwiceScenario once alice is registered. */
  method CreateScenario(factory: Contract)
    requires factory.storageBalanceCost == 100 && factory.wasmLen == 0
    requires factory.storageDeposits == map["alice.near" := 10052] && factory.tokens == map[]
    modifies factory
  {
    var metadata := Metadata("ft-1.0.0", "Example", "ExA", None, None, None, 24);
    var args := TokenArgs("alice.near", 1000, metadata);
    var host := Host("alice.near", [], 0, 1, "factory.near", 500, m => true, a => true);
    ExampleCommits(host, args);
    var created := factory.CreateToken(host, args);
    assert created.Ok?;
    assert factory.storageDeposits["alice.near"] == 50;
    assert factory.GetNumberOfTokens() == 1;
    assert created.value.receiverId == ChildAccountId("exa", "factory.near");
    assert created.value.actions[1] == Transfer(9502);
    assert forall m :: host.metadataIsValid(m);
    assert forall a :: host.isValidAccountId(a);
    RetryScenario(factory, host, args);
  }

  /** The symbol "ExA" is filed as "exa", a legal id, at a cost of 10002. */
  lemma ExampleChecksPass(args: TokenArgs)
    requires args.metadata.symbol == "ExA"
    ensures KeyOf(args) == "exa" && ValidTokenId(KeyOf(args))
    ensures MinAttachedBalance(1, 0, args) == 10002
  {
    assert ToAsciiLowercase("ExA") == "exa";
    assert ValidTokenId("exa") by { InAlphabetIff('e'); InAlphabetIff('x'); InAlphabetIff('a'); }
  }

  /** The first create of CreateTwiceScenario passes every check: with
      nothing attached and a credit of 10052 it commits. */
  lemma ExampleIsCommit(host: Host, args: TokenArgs)
    requires host == Host("alice.near", [], 0, 1, "factory.near", 500, m => true, a => true)
    requires args.metadata.symbol == "ExA"
    ensures Protocol.CreateToken(map["alice.near" := 10052], map[], 100, 0, host, args)
         == Ok(Commit(map["alice.near" := 10052], map[], 0, host, args))
  {
    ExampleChecksPass(args);
  }

  /** ... and what it commits: alice's credit of 10052 pays the cost of
      10002, "ExA" is filed as "exa", and the child is funded with the cost
      less 500 bytes. */
  lemma ExampleCommits(host: Host, args: TokenArgs)
    requires host == Host("alice.near", [], 0, 1, "factory.near", 500, m => true, a => true)
    requires args.metadata.symbol == "ExA"
    ensures var r := Protocol.CreateToken(map["alice.near" := 10052], map[], 100, 0, host, args);
      && r.Ok?
      && r.value.storageDeposits == map["alice.near" := 50]
      && r.value.tokens == map["exa" := args]
      && r.value.batch.receiverId == ChildAccountId("exa", "factory.near")
      && r.value.batch.actions[1] == Transfer(9502)
  {
    ExampleIsCommit(host, args);
    ExampleChecksPass(args);
    var c := Commit(map["alice.near" := 10052], map[], 0, host, args);
    assert SaturatingSub(10002, SaturatingMul(1, 500)) == 9502;
    assert c.storageDeposits == map["alice.near" := 50];
    assert c.tokens == map["exa" := args];
  }

  /** Continues CreateTwiceScenario once the token "exa" exists. */
  method RetryScenario(factory: Contract, host: Host, args: TokenArgs)
    requires factory.storageBalanceCost == 100 && factory.wasmLen == 0
    requires factory.storageDeposits == map["alice.near" := 50]
    requires factory.tokens == map["exa" := args]
    requires factory.Valid()
    requires host.predecessorAccountId == "alice.near" && host.storageByteCost == 1
    requires host.currentAccountId == "factory.near"
    requires forall m :: host.metadataIsValid(m)
    requires forall a :: host.isValidAccountId(a)
    modifies factory
  {
    // The same symbol in another case, now with enough attached to pay
    // again: the key is taken, and the top-up is rolled back with the rest.
    var same := args.(metadata := args.metadata.(symbol := "EXA"));
    var paying := host.(attachedDeposit := 10002);
    assert ToAsciiLowercase("EXA") == "exa";
    assert ValidTokenId("exa") by { InAlphabetIff('e'); InAlphabetIff('x'); InAlphabetIff('a'); }
    assert MinAttachedBalance(1, 0, same) == 10002;
    var again := factory.CreateToken(paying, same);
    assert again == Err(TokenIdTaken);
    assert factory.storageDeposits["alice.near"] == 50;
    assert factory.GetNumberOfTokens() == 1;

    var dashed := args.(metadata := args.metadata.(symbol := "AB-1"));
    assert !ValidTokenId(ToAsciiLowercase("AB-1")) by {
      assert ToAsciiLowercase("AB-1")[2] == '-';
      InAlphabetIff('-');
    }
    var rejected := factory.CreateToken(paying, dashed);
    assert rejected == Err(InvalidSymbol);
    assert factory.storageDeposits["alice.near"] == 50;
  }
}
