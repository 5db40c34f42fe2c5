# Token factory: a Dafny model

A model of the token factory contract for the NEAR host in
`contracts/factory/src/lib.rs`. The contract keeps three pieces of state:

- a **storage-credit ledger** (`storage_deposits`): prepaid credit per account;
- an **insert-once registry** (`tokens`): token id to the arguments the token was created with;
- the **registration fee** (`storage_balance_cost`), calibrated once by `new`.

`storage_deposit` tops up the caller's credit. The first top-up of an account
pays the registration fee out of the deposit. `create_token` runs these steps
in order: an optional top-up, the metadata check, the symbol lowercased into a
token id, the id's character check, the child account
`"<token_id>.<factory>"`, the credit check, the debit, and the insert-once
into the registry. It then returns the action batch that creates, funds,
deploys and initialises the token's own account. Any failed check aborts the
whole call, and the host rolls back every write the call made.

All amounts are `NearToken` (a u128) with saturating add, subtract and
multiply. The model encodes these as a `newtype` over `0 .. 2^128-1` whose
operations clamp.

Layout:

- `results.dfy`: `Option`, `Result` and the `Error` taxonomy, one constructor per panic of the contract.
- `primitives.dfy`: the u8/u64/u128 and `NearToken` newtypes and the saturating operations.
- `token.dfy`: `TokenArgs`/`Metadata`, ASCII lowercasing, `is_valid_token_id` (a loop) against a reference predicate, and the child account id.
- `cost.dfy`: `get_min_attached_balance` and the quote `get_required_deposit`.
- `ledger.dfy`: the top-up rule of `storage_deposit`, and the credit `create_token` sees after its optional top-up.
- `protocol.dfy`: `create_token` as a pure function of the starting state (abort, or commit a new ledger, registry and batch), plus the lemmas about it.
- `factory.dfy`: the `Contract` class. Its fields are updated in place by `New`, `StorageDeposit` and `CreateToken`, each proved against the pure definitions. It also holds the views `GetRequiredDeposit` and `GetNumberOfTokens` (Dafny functions, so they cannot change state) and a client scenario.

Host readings become parameters, bundled in `Protocol.Host`: the predecessor,
the signer's key, the attached deposit, the storage byte price, the current
account, and the storage growth measured around the registry insert. The two
validators whose rules are not in this repository are also `Host` fields of
arrow type: `metadataIsValid` and `isValidAccountId`. The storage growth the
probe measures in `new` is a constructor parameter. So is the length of the
embedded token binary, `FT_WASM_CODE.len()`.

### Behaviour of the code the model keeps

- The creation cost is `byte_cost ×sat (wasm_len + 10000 + vec![args].len() * 2)`. `vec![args].len()` is 1, so the cost is `byte_cost ×sat (wasm_len + 10002)` for every argument value.
- The credit check comes before the registry insert. A second `create_token` with a taken key therefore reports "Not enough required balance" when the caller's remaining credit is below the cost. It reports "Token ID is already taken" only when the credit covers the cost. Either way the call aborts and nothing changes. `Factory.RetryScenario` takes the second path by attaching a fresh deposit, which is rolled back as well.
- `is_valid_token_id` accepts the empty token id. Whether `".<factory>"` is then a legal account is left to the host predicate.

## Model

| member | source | states |
|---|---|---|
| `Primitives.SaturatingAdd` | contracts/factory/src/lib.rs:81-83 | the result is the exact sum, or 2^128-1 when the sum does not fit; it is at least each operand |
| `Primitives.SaturatingSub` | contracts/factory/src/lib.rs:67 | the result is the exact difference, or 0 when it would be negative; it is at most the minuend |
| `Primitives.SaturatingMul` | contracts/factory/src/lib.rs:46-47 | the result is the exact product, or 2^128-1 when it does not fit; with a positive factor it is at least the price |
| `Token.ToAsciiLowercase` | contracts/factory/src/lib.rs:101 | same length; each ASCII capital is replaced by its lowercase letter, every other character is kept |
| `Token.SameKeyIffSameIgnoringCase` | contracts/factory/src/lib.rs:101 | two symbols lowercase to the same token id exactly when, position by position, they are equal or the two cases of one ASCII letter |
| `Token.LowercaseIdempotent` | contracts/factory/src/lib.rs:101 | lowercasing a token id again leaves it unchanged |
| `Token.InAlphabetIff` | contracts/factory/src/lib.rs:151 | a character is in the token-id alphabet `0-9a-z` exactly when it lies in the digit range or the lowercase-letter range |
| `Token.IsValidTokenId` | contracts/factory/src/lib.rs:148-156 | the loop with early exit returns true exactly when every character of the id is in `0-9a-z`; so the empty id is accepted |
| `Token.LowercasedSymbolValidIff` | contracts/factory/src/lib.rs:101-102 | a symbol passes the check after lowercasing exactly when every character is an ASCII digit or letter of either case |
| `Token.ChildAccountId` | contracts/factory/src/lib.rs:104 | the child account is the token id, a dot, then the factory account: its length is the sum plus one, and the dot sits right after the id |
| `Token.ChildAccountIdInjective` | contracts/factory/src/lib.rs:104 | for legal token ids, equal child accounts `"<id>.<factory>"` have equal ids and equal factory accounts |
| `Factory.Repeat` | contracts/factory/src/lib.rs:42 | the probe account `"a".repeat(64)` has length n |
| `Cost.MinAttachedBalance` | contracts/factory/src/lib.rs:58-61 | the cost equals `min(byte_cost * (wasm_len + 10000 + 2), 2^128-1)`, which does not depend on the arguments |
| `Cost.RequiredDeposit` | contracts/factory/src/lib.rs:63-71 | a registered account is quoted `max(0, cost - credit)`; an unregistered one is quoted `min(fee + cost, 2^128-1)` |
| `Factory.Contract.GetRequiredDeposit` | contracts/factory/src/lib.rs:63-71 | a function over the contract's fields, so the state is unchanged; a registered account is quoted `max(0, cost - credit)`, an unregistered one `min(fee + cost, 2^128-1)` |
| `Factory.Contract.GetNumberOfTokens` | contracts/factory/src/lib.rs:73-75 | a function over the contract's fields, so the state is unchanged; it is the number of registered token ids |
| `Ledger.Deposit` | contracts/factory/src/lib.rs:77-91 | the call aborts with DepositTooLow exactly when the account is unregistered and the deposit is below the fee. A new account is credited exactly `deposit - fee`. A registered account gets `min(credit + deposit, 2^128-1)`. The key set gains only the caller, and every other entry is unchanged |
| `Ledger.AvailableCredit` | contracts/factory/src/lib.rs:95-97 | the caller has credit after the optional top-up exactly when it was registered, or attached a non-zero deposit covering the fee; the credit's value is the top-up rule's |
| `Protocol.TokenBatch` | contracts/factory/src/lib.rs:134-144 | the batch targets the token account and holds five actions; the second transfers the given amount and the last is a function call of the initializer `new` carrying the arguments |
| `Protocol.TopUp` | contracts/factory/src/lib.rs:81-97 | the top-up aborts with DepositTooLow exactly when a non-zero deposit is attached by an unregistered caller and is below the fee; with nothing attached the ledger is unchanged; the caller is in the ledger after the top-up exactly when it has credit then, with that credit as its entry; no key but the caller's is added and no other account changes |
| `Protocol.Commit` | contracts/factory/src/lib.rs:112-144 | the caller is debited exactly the cost and no other account changes; the registry gains exactly the new key, mapped to the arguments, with every old entry kept and the count one higher |
| `Protocol.CreateToken` | contracts/factory/src/lib.rs:93-145 | on commit, the key (the lowercased symbol) was absent; the registry gains exactly that key, mapped to the arguments; no existing entry changes; the count rises by one |
| `Protocol.CreateTokenSucceedsIff` | contracts/factory/src/lib.rs:95-129 | the call commits exactly when the metadata is valid, the token id is legal, the child account is legal, the caller has credit after the top-up, that credit covers the cost, and the key is free |
| `Protocol.CreateTokenDebitsCaller` | contracts/factory/src/lib.rs:112-122 | on commit, the caller's credit after the top-up drops by exactly the cost, the ledger's keys gain only the caller, and no other account changes |
| `Protocol.CreateTokenBatchFundsChild` | contracts/factory/src/lib.rs:124-136 | on commit, the batch goes to `"<token_id>.<factory>"` and transfers `max(0, cost - min(byte_cost * insert_bytes, 2^128-1))` |
| `Protocol.TakenKeyAborts` | contracts/factory/src/lib.rs:126-129 | a request whose key is registered always aborts, with TokenIdTaken when every earlier check passed |
| `Protocol.CreateTokenPreservesRegistry` | contracts/factory/src/lib.rs:101-128 | a commit keeps every registry entry filed under the lowercased symbol of its own arguments, with that key a legal token id |
| `Protocol.CaseVariantsShareOneToken` | contracts/factory/src/lib.rs:101-128 | in a well-formed registry, every request whose symbol differs only in ASCII case from a registered token's symbol aborts |
| `Protocol.NonAlphanumericSymbolRejected` | contracts/factory/src/lib.rs:99-102 | once the top-up and the metadata check pass, a symbol with a character that is not an ASCII letter or digit is rejected with InvalidSymbol, before any debit |
| `Protocol.QuoteIsLeastSufficientDeposit` | contracts/factory/src/lib.rs:63-71 | after a top-up with `attached`, the credit covers the cost exactly when `attached` is at least the quote and the caller is registered or attaches something |
| `Protocol.CreateTokenSucceedsIffQuotePaid` | contracts/factory/src/lib.rs:93-122 | for any caller and any request, a request passing the metadata, id, account and key checks commits exactly when the attached deposit is at least the quote, and is non-zero for an unregistered caller |
| `Factory.Contract.New` | contracts/factory/src/lib.rs:37-56 | after the insert/remove probe, both maps are empty, the registry invariant holds, and the fee is `min(byte_cost * probe_bytes, 2^128-1)` |
| `Factory.Contract.StorageDeposit` | contracts/factory/src/lib.rs:77-91 | the ledger becomes what `Ledger.Deposit` gives; an aborted call leaves it unchanged; the registry is outside the frame, so the registry invariant `Valid` is kept |
| `Factory.Contract.CreateToken` | contracts/factory/src/lib.rs:93-145 | the in-place steps, with rollback on abort, end in the state and batch `Protocol.CreateToken` gives; an aborted call leaves both maps unchanged, including any top-up; a commit raises `GetNumberOfTokens` by one; the registry invariant `Valid` is kept |

## Left out

- Running the returned `Promise` is left out: account creation, transfer, key, deployment, function call and gas are host work run after the call commits. The batch is only a value (`Protocol.Batch`). A failed batch never reaches the contract, so a taken key stays taken.
- `env::storage_usage()` and `env::storage_byte_cost()` are host measurements. Three stand-ins replace them: the byte price, the probe's byte delta for `new`, and the insert's byte delta for `create_token`. Each delta is whatever the host reports for the u64 difference of the two `env::storage_usage()` readings; the model leaves it free, and a reading that falls below the first one is not modelled.
- `FungibleTokenMetadata::assert_valid` is an external predicate, modelled as the opaque `Host.metadataIsValid`. `env::is_valid_account_id` is the host's, modelled as `Host.isValidAccountId`. The `.parse().unwrap()` of the child account id checks the same rules, and is folded into `Host.isValidAccountId`.
- `serde_json` serialization of the initializer arguments is left out: the function-call action carries the `TokenArgs` value itself.
- The contents of the embedded wasm binary are left out; only its length (`Contract.wasmLen`) is used.
- borsh encoding, the storage prefixes, and the iteration order of `IterableMap` are left out; the code never relies on them.
- `env::signer_account_pk()` is a host value, `Host.signerAccountPk`. Key derivation is not modelled.
- Strings are sequences of characters, while `is_valid_token_id` scans UTF-8 bytes. The two agree: a non-ASCII character encodes to bytes of 0x80 or above, which never pass the check, and every ASCII character is one byte.
- Contract.GetNumberOfTokens: returns an unbounded count; the u32 length limit of `IterableMap` (about four billion entries) is not modelled.
- Cost.MinAttachedBalance: the sum `wasm_len + 10000 + 2` is computed in usize in the source; its overflow is not modelled, as the binary is far smaller than the usize range.
- Protocol.QuoteIsLeastSufficientDeposit: for an unregistered caller it assumes that fee plus cost fits in a u128. Beyond that the quote saturates at 2^128-1, and paying it no longer covers the cost.
- Protocol.CreateTokenSucceedsIffQuotePaid: carries the same no-saturation assumption for an unregistered caller.
- The `tests` module of the source is empty (its tests are commented out), so there is nothing to model.
