/** create_token as a function of the state it starts from: either the call
    aborts (and the host rolls every write back), or it commits a new ledger,
    a new registry and the action batch that builds the token's account. */
module Protocol {
  import opened Primitives
  import opened Results
  import opened Token
  import opened Cost
  import Ledger

  /** Gas given to the child's initializer, in teragas. */
  const INIT_GAS_TGAS: nat := 50
  /** The child contract's initializer. */
  const INIT_METHOD: string := "new"

  /** What the host supplies to one call: the caller, the signer's key, the
      attached deposit, the storage byte price, this contract's account, the
      storage growth measured around the registry insert, and the two
      validators whose rules live outside the factory. */
  datatype Host = Host(
    predecessorAccountId: AccountId,
    signerAccountPk: PublicKey,
    attachedDeposit: NearToken,
    storageByteCost: NearToken,
    currentAccountId: AccountId,
    tokenInsertBytes: U64,
    metadataIsValid: Metadata -> bool,
    isValidAccountId: AccountId -> bool)

  /** One action of the deferred batch; the deployed code is the embedded
      fungible-token binary, represented by its length. */
  datatype Action =
    | CreateAccount
    | Transfer(amount: NearToken)
    | AddFullAccessKey(publicKey: PublicKey)
    | DeployContract(codeLength: nat)
    | FunctionCall(methodName: string, args: TokenArgs, deposit: NearToken, gasTgas: nat)

  /** The Promise create_token returns: actions on one receiver, run by the
      host after the call commits, never observed by the factory. */
  datatype Batch = Batch(receiverId: AccountId, actions: seq<Action>)

  /** What a successful create_token commits. */
  datatype Created = Created(
    storageDeposits: map<AccountId, NearToken>,
    tokens: map<TokenId, TokenArgs>,
    batch: Batch)

  /** The batch that creates the token account, funds it, gives the signer
      full access, deploys the binary and initialises it with `args`. */
  function TokenBatch(
    tokenAccountId: AccountId, transfer: NearToken, signerPk: PublicKey,
    wasmLen: nat, args: TokenArgs): (b: Batch)
    ensures b.receiverId == tokenAccountId && |b.actions| == 5
    ensures b.actions[1] == Transfer(transfer)
    ensures b.actions[4].FunctionCall? && b.actions[4].methodName == INIT_METHOD && b.actions[4].args == args
  {
    Batch(tokenAccountId, [
      CreateAccount,
      Transfer(transfer),
      AddFullAccessKey(signerPk),
      DeployContract(wasmLen),
      FunctionCall(INIT_METHOD, args, 0, INIT_GAS_TGAS)])
  }

  /** The registry key of a request. */
  function KeyOf(args: TokenArgs): TokenId {
    ToAsciiLowercase(args.metadata.symbol)
  }

  /** The optional top-up create_token starts with: storage_deposit when a
      deposit is attached, nothing otherwise. */
  function TopUp(storageDeposits: map<AccountId, NearToken>, storageBalanceCost: NearToken, host: Host)
    : (r: Result<map<AccountId, NearToken>, Error>)
    ensures var credit := Ledger.AvailableCredit(storageDeposits, storageBalanceCost,
                                                 host.predecessorAccountId, host.attachedDeposit);
      && (r.Ok? && host.predecessorAccountId in r.value <==> credit.Some?)
      && (credit.Some? ==> r.value[host.predecessorAccountId] == credit.value)
    ensures r.Err? <==> && host.attachedDeposit > 0
                        && host.predecessorAccountId !in storageDeposits
                        && host.attachedDeposit < storageBalanceCost
    ensures r.Err? ==> r.error == DepositTooLow
    ensures host.attachedDeposit == 0 ==> r == Ok(storageDeposits)
    ensures r.Ok? ==> r.value.Keys <= storageDeposits.Keys + {host.predecessorAccountId}
    ensures r.Ok? ==> forall a :: a in storageDeposits && a != host.predecessorAccountId
                                  ==> a in r.value && r.value[a] == storageDeposits[a]
  {
    if host.attachedDeposit > 0 then
      Ledger.Deposit(storageDeposits, storageBalanceCost, host.predecessorAccountId, host.attachedDeposit)
    else Ok(storageDeposits)
  }

  /** The writes and the batch of a create_token whose checks all passed:
      the debit of the caller, the registry insert, the funded batch. */
  function Commit(
    ledger: map<AccountId, NearToken>, tokens: map<TokenId, TokenArgs>,
    wasmLen: nat, host: Host, args: TokenArgs): (c: Created)
    requires host.predecessorAccountId in ledger
    requires ledger[host.predecessorAccountId] >= MinAttachedBalance(host.storageByteCost, wasmLen, args)
    requires KeyOf(args) !in tokens
    ensures c.storageDeposits.Keys == ledger.Keys
    ensures c.storageDeposits[host.predecessorAccountId] as int
         == ledger[host.predecessorAccountId] as int - MinAttachedBalance(host.storageByteCost, wasmLen, args) as int
    ensures forall a :: a in ledger && a != host.predecessorAccountId ==> c.storageDeposits[a] == ledger[a]
    ensures c.tokens.Keys == tokens.Keys + {KeyOf(args)}
    ensures c.tokens[KeyOf(args)] == args
    ensures forall k :: k in tokens ==> c.tokens[k] == tokens[k]
    ensures |c.tokens| == |tokens| + 1
  {
    var accountId := host.predecessorAccountId;
    var tokenId := KeyOf(args);
    var requiredBalance := MinAttachedBalance(host.storageByteCost, wasmLen, args);
    var storageBalanceUsed := SaturatingMul(host.storageByteCost, host.tokenInsertBytes as nat);
    Created(
      ledger[accountId := SaturatingSub(ledger[accountId], requiredBalance)],
      tokens[tokenId := args],
      TokenBatch(ChildAccountId(tokenId, host.currentAccountId),
                 SaturatingSub(requiredBalance, storageBalanceUsed), host.signerAccountPk, wasmLen, args))
  }

  /** create_token, step by step as the contract runs it. */
  function CreateToken(
    storageDeposits: map<AccountId, NearToken>, tokens: map<TokenId, TokenArgs>,
    storageBalanceCost: NearToken, wasmLen: nat, host: Host, args: TokenArgs): (r: Result<Created, Error>)
    ensures r.Ok? ==> KeyOf(args) !in tokens
    ensures r.Ok? ==> r.value.tokens.Keys == tokens.Keys + {KeyOf(args)}
    ensures r.Ok? ==> r.value.tokens[KeyOf(args)] == args
    ensures r.Ok? ==> forall k :: k in tokens ==> r.value.tokens[k] == tokens[k]
    ensures r.Ok? ==> |r.value.tokens| == |tokens| + 1
  {
    var ledger :- TopUp(storageDeposits, storageBalanceCost, host);
    if !host.metadataIsValid(args.metadata) then Err(InvalidMetadata)
    else
      var tokenId := ToAsciiLowercase(args.metadata.symbol);
      if !ValidTokenId(tokenId) then Err(InvalidSymbol)
      else if !host.isValidAccountId(ChildAccountId(tokenId, host.currentAccountId)) then Err(InvalidTokenAccountId)
      else
        var accountId := host.predecessorAccountId;
        if accountId !in ledger then Err(AccountNotRegistered)
        else if ledger[accountId] < MinAttachedBalance(host.storageByteCost, wasmLen, args) then Err(NotEnoughBalance)
        else if tokenId in tokens then Err(TokenIdTaken)
        else Ok(Commit(ledger, tokens, wasmLen, host, args))
  }

  /** The checks create_token makes, all of them stated on the state the
      call starts from. */
  predicate Admissible(
    storageDeposits: map<AccountId, NearToken>, tokens: map<TokenId, TokenArgs>,
    storageBalanceCost: NearToken, wasmLen: nat, host: Host, args: TokenArgs)
  {
    var credit := Ledger.AvailableCredit(storageDeposits, storageBalanceCost,
                                         host.predecessorAccountId, host.attachedDeposit);
    && host.metadataIsValid(args.metadata)
    && ValidTokenId(KeyOf(args))
    && host.isValidAccountId(ChildAccountId(KeyOf(args), host.currentAccountId))
    && credit.Some?
    && credit.value >= MinAttachedBalance(host.storageByteCost, wasmLen, args)
    && KeyOf(args) !in tokens
  }

  /** create_token commits exactly when every check passes: valid metadata,
      a legal lowercased symbol and child account, a registered caller whose
      credit (after the top-up) covers the cost, and a free key. */
  lemma CreateTokenSucceedsIff(
    storageDeposits: map<AccountId, NearToken>, tokens: map<TokenId, TokenArgs>,
    storageBalanceCost: NearToken, wasmLen: nat, host: Host, args: TokenArgs)
    ensures CreateToken(storageDeposits, tokens, storageBalanceCost, wasmLen, host, args).Ok?
        <==> Admissible(storageDeposits, tokens, storageBalanceCost, wasmLen, host, args)
  {
  }

  /** The caller's credit after the top-up drops by exactly the creation
      cost, and no other account's credit changes. */
  lemma CreateTokenDebitsCaller(
    storageDeposits: map<AccountId, NearToken>, tokens: map<TokenId, TokenArgs>,
    storageBalanceCost: NearToken, wasmLen: nat, host: Host, args: TokenArgs)
    requires CreateToken(storageDeposits, tokens, storageBalanceCost, wasmLen, host, args).Ok?
    ensures var d := CreateToken(storageDeposits, tokens, storageBalanceCost, wasmLen, host, args).value.storageDeposits;
      var caller := host.predecessorAccountId;
      var credit := Ledger.AvailableCredit(storageDeposits, storageBalanceCost, caller, host.attachedDeposit);
      && d.Keys == storageDeposits.Keys + {caller}
      && d[caller] as int == credit.value as int - MinAttachedBalance(host.storageByteCost, wasmLen, args) as int
      && (forall a :: a in storageDeposits && a != caller ==> d[a] == storageDeposits[a])
  {
    var ledger := TopUp(storageDeposits, storageBalanceCost, host).value;
    assert host.predecessorAccountId in ledger;
    assert CreateToken(storageDeposits, tokens, storageBalanceCost, wasmLen, host, args).value
        == Commit(ledger, tokens, wasmLen, host, args);
  }

  /** The batch goes to "<token_id>.<factory>" and hands the new account the
      creation cost less what the registry entry cost in storage (never below
      zero). */
  lemma CreateTokenBatchFundsChild(
    storageDeposits: map<AccountId, NearToken>, tokens: map<TokenId, TokenArgs>,
    storageBalanceCost: NearToken, wasmLen: nat, host: Host, args: TokenArgs)
    requires CreateToken(storageDeposits, tokens, storageBalanceCost, wasmLen, host, args).Ok?
    ensures var b := CreateToken(storageDeposits, tokens, storageBalanceCost, wasmLen, host, args).value.batch;
      && b.receiverId == KeyOf(args) + "." + host.currentAccountId
      && b.actions[1].Transfer?
      && b.actions[1].amount as int
           == Max(0, MinAttachedBalance(host.storageByteCost, wasmLen, args) as int
                     - Min(host.storageByteCost as int * host.tokenInsertBytes as int, U128_MAX))
  {
    var ledger := TopUp(storageDeposits, storageBalanceCost, host).value;
    assert host.predecessorAccountId in ledger;
    assert CreateToken(storageDeposits, tokens, storageBalanceCost, wasmLen, host, args).value
        == Commit(ledger, tokens, wasmLen, host, args);
  }

  /** A request whose key is already registered aborts, and when it passed
      every earlier check it aborts with TokenIdTaken. */
  lemma TakenKeyAborts(
    storageDeposits: map<AccountId, NearToken>, tokens: map<TokenId, TokenArgs>,
    storageBalanceCost: NearToken, wasmLen: nat, host: Host, args: TokenArgs)
    requires KeyOf(args) in tokens
    ensures var r := CreateToken(storageDeposits, tokens, storageBalanceCost, wasmLen, host, args);
      && r.Err?
      && (var credit := Ledger.AvailableCredit(storageDeposits, storageBalanceCost,
                                               host.predecessorAccountId, host.attachedDeposit);
          && host.metadataIsValid(args.metadata)
          && ValidTokenId(KeyOf(args))
          && host.isValidAccountId(ChildAccountId(KeyOf(args), host.currentAccountId))
          && credit.Some?
          && credit.value >= MinAttachedBalance(host.storageByteCost, wasmLen, args)
          ==> r.error == TokenIdTaken)
  {
  }

  /** The registry's invariant: every entry is filed under the lowercased
      symbol of the arguments it holds, and that key is a legal token id. */
  predicate RegistryWellFormed(tokens: map<TokenId, TokenArgs>) {
    forall k :: k in tokens ==> k == KeyOf(tokens[k]) && ValidTokenId(k)
  }

  /** A commit keeps the registry well formed. */
  lemma CreateTokenPreservesRegistry(
    storageDeposits: map<AccountId, NearToken>, tokens: map<TokenId, TokenArgs>,
    storageBalanceCost: NearToken, wasmLen: nat, host: Host, args: TokenArgs)
    requires RegistryWellFormed(tokens)
    ensures var r := CreateToken(storageDeposits, tokens, storageBalanceCost, wasmLen, host, args);
      r.Ok? ==> RegistryWellFormed(r.value.tokens)
  {
  }

  /** At most one token per key: in a well-formed registry, a request whose
      symbol differs only in ASCII case from a registered token's symbol
      aborts. */
  lemma CaseVariantsShareOneToken(
    storageDeposits: map<AccountId, NearToken>, tokens: map<TokenId, TokenArgs>,
    storageBalanceCost: NearToken, wasmLen: nat, host: Host, args: TokenArgs, k: TokenId)
    requires RegistryWellFormed(tokens)
    requires k in tokens && SameIgnoringAsciiCase(tokens[k].metadata.symbol, args.metadata.symbol)
    ensures CreateToken(storageDeposits, tokens, storageBalanceCost, wasmLen, host, args).Err?
  {
    SameKeyIffSameIgnoringCase(tokens[k].metadata.symbol, args.metadata.symbol);
    TakenKeyAborts(storageDeposits, tokens, storageBalanceCost, wasmLen, host, args);
  }

  /** A symbol with a character that is not an ASCII letter or digit is
      rejected with InvalidSymbol once the top-up and the metadata check have
      passed, before the ledger is debited. */
  lemma NonAlphanumericSymbolRejected(
    storageDeposits: map<AccountId, NearToken>, tokens: map<TokenId, TokenArgs>,
    storageBalanceCost: NearToken, wasmLen: nat, host: Host, args: TokenArgs, i: nat)
    requires i < |args.metadata.symbol| && !IsAsciiAlphanumeric(args.metadata.symbol[i])
    requires host.attachedDeposit > 0 ==>
      Ledger.Deposit(storageDeposits, storageBalanceCost, host.predecessorAccountId, host.attachedDeposit).Ok?
    requires host.metadataIsValid(args.metadata)
    ensures CreateToken(storageDeposits, tokens, storageBalanceCost, wasmLen, host, args) == Err(InvalidSymbol)
  {
    LowercasedSymbolValidIff(args.metadata.symbol);
  }

  /** The quote is the least deposit that lets the caller pay: after a top-up
      with `attached` the caller can cover the creation cost exactly when
      `attached` is at least get_required_deposit and the caller is either
      registered or attaches something. For an unregistered caller this needs
      the fee plus the cost to fit in a u128, since the quote saturates. */
  lemma QuoteIsLeastSufficientDeposit(
    storageDeposits: map<AccountId, NearToken>, storageBalanceCost: NearToken,
    storageByteCost: NearToken, wasmLen: nat, args: TokenArgs, accountId: AccountId, attached: NearToken)
    requires accountId !in storageDeposits ==>
      storageBalanceCost as int + MinAttachedBalance(storageByteCost, wasmLen, args) as int <= U128_MAX
    ensures var credit := Ledger.AvailableCredit(storageDeposits, storageBalanceCost, accountId, attached);
      (credit.Some? && credit.value >= MinAttachedBalance(storageByteCost, wasmLen, args))
        <==> (&& attached >= RequiredDeposit(storageDeposits, storageBalanceCost, storageByteCost, wasmLen, args, accountId)
              && (accountId in storageDeposits || attached > 0))
  {
  }

  /** End to end: a request that passes the metadata, symbol, account and
      key checks commits exactly when the deposit attached to it is at least
      the quote for the caller (and, for a caller not yet registered, is not
      zero). */
  lemma CreateTokenSucceedsIffQuotePaid(
    storageDeposits: map<AccountId, NearToken>, tokens: map<TokenId, TokenArgs>,
    storageBalanceCost: NearToken, wasmLen: nat, host: Host, args: TokenArgs)
    requires host.predecessorAccountId !in storageDeposits ==>
      storageBalanceCost as int + MinAttachedBalance(host.storageByteCost, wasmLen, args) as int <= U128_MAX
    ensures && host.metadataIsValid(args.metadata)
            && ValidTokenId(KeyOf(args))
            && host.isValidAccountId(ChildAccountId(KeyOf(args), host.currentAccountId))
            && KeyOf(args) !in tokens
      ==> (CreateToken(storageDeposits, tokens, storageBalanceCost, wasmLen, host, args).Ok?
           <==> (&& host.attachedDeposit >= RequiredDeposit(storageDeposits, storageBalanceCost, host.storageByteCost,
                                                             wasmLen, args, host.predecessorAccountId)
                 && (host.predecessorAccountId in storageDeposits || host.attachedDeposit > 0)))
  {
    CreateTokenSucceedsIff(storageDeposits, tokens, storageBalanceCost, wasmLen, host, args);
    QuoteIsLeastSufficientDeposit(storageDeposits, storageBalanceCost, host.storageByteCost, wasmLen, args,
                                  host.predecessorAccountId, host.attachedDeposit);
  }
}
