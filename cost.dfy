/** The cost model: what creating a token costs, and the read-only quote a
    caller uses to size a deposit. */
module Cost {
  import opened Primitives
  import opened Token

  /** Bytes budgeted on top of the child binary (EXTRA_BYTES). */
  const EXTRA_BYTES: nat := 10000

  /** get_min_attached_balance: the byte price times the child binary's length
      plus EXTRA_BYTES plus twice the length of a one-element vector holding
      the arguments. That vector always has length one, so the cost is the
      same for every argument value. */
  function MinAttachedBalance(storageByteCost: NearToken, wasmLen: nat, args: TokenArgs): (r: NearToken)
    ensures r as int == Min(storageByteCost as int * (wasmLen + EXTRA_BYTES + 2), U128_MAX)
  {
    SaturatingMul(storageByteCost, wasmLen + EXTRA_BYTES + |[args]| * 2)
  }

  /** get_required_deposit: what `account` still has to attach so that a
      create_token with `args` can pay for itself. A registered account is
      charged the creation cost less its credit (never below zero); an
      unregistered one also pays the registration fee. */
  function RequiredDeposit(
    storageDeposits: map<AccountId, NearToken>, storageBalanceCost: NearToken,
    storageByteCost: NearToken, wasmLen: nat, args: TokenArgs, accountId: AccountId): (r: NearToken)
    ensures var cost := MinAttachedBalance(storageByteCost, wasmLen, args);
      && (accountId in storageDeposits ==>
            r as int == Max(0, cost as int - storageDeposits[accountId] as int))
      && (accountId !in storageDeposits ==>
            r as int == Min(storageBalanceCost as int + cost as int, U128_MAX))
  {
    var argsDeposit := MinAttachedBalance(storageByteCost, wasmLen, args);
    if accountId in storageDeposits then SaturatingSub(argsDeposit, storageDeposits[accountId])
    else SaturatingAdd(storageBalanceCost, argsDeposit)
  }
}
