/** The storage-credit ledger: per-account prepaid credit, topped up by
    storage_deposit and debited by create_token. */
module Ledger {
  import opened Primitives
  import opened Results
  import opened Token

  /** storage_deposit: a registered account's credit grows by `deposit`
      (saturating); an unregistered account pays `storageBalanceCost` out of
      `deposit` to register and is credited the rest, and a deposit below that
      fee aborts. */
  function Deposit(
    storageDeposits: map<AccountId, NearToken>, storageBalanceCost: NearToken,
    accountId: AccountId, deposit: NearToken): (r: Result<map<AccountId, NearToken>, Error>)
    ensures r.Err? <==> accountId !in storageDeposits && deposit < storageBalanceCost
    ensures r.Err? ==> r.error == DepositTooLow
    ensures r.Ok? ==> r.value.Keys == storageDeposits.Keys + {accountId}
    ensures r.Ok? ==> forall a :: a in storageDeposits && a != accountId ==> r.value[a] == storageDeposits[a]
    ensures r.Ok? && accountId !in storageDeposits ==>
      r.value[accountId] as int == deposit as int - storageBalanceCost as int
    ensures accountId in storageDeposits ==>
      r.Ok? && r.value[accountId] as int == Min(storageDeposits[accountId] as int + deposit as int, U128_MAX)
  {
    if accountId in storageDeposits then
      Ok(storageDeposits[accountId := SaturatingAdd(storageDeposits[accountId], deposit)])
    else if deposit >= storageBalanceCost then
      Ok(storageDeposits[accountId := SaturatingSub(deposit, storageBalanceCost)])
    else
      Err(DepositTooLow)
  }

  /** The credit create_token finds for the caller once the optional top-up
      with `attached` has run: None when the caller ends up unregistered or
      the top-up aborted. */
  function AvailableCredit(
    storageDeposits: map<AccountId, NearToken>, storageBalanceCost: NearToken,
    accountId: AccountId, attached: NearToken): (r: Option<NearToken>)
    ensures r.Some? <==> accountId in storageDeposits || (0 < attached && storageBalanceCost <= attached)
    ensures accountId in storageDeposits ==>
      r.value as int == Min(storageDeposits[accountId] as int + attached as int, U128_MAX)
    ensures accountId !in storageDeposits && r.Some? ==>
      r.value as int == attached as int - storageBalanceCost as int
  {
    if attached > 0 then
      match Deposit(storageDeposits, storageBalanceCost, accountId, attached)
      case Ok(d) => Some(d[accountId])
      case Err(_) => None
    else if accountId in storageDeposits then Some(storageDeposits[accountId])
    else None
  }
}
