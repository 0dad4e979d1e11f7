# Bank-account chaincode ledger, modelled in Dafny

A model of the bank-account smart contract of the Hyperledger Fabric
`asset-transfer-basic` Go chaincode. The contract keeps `Account{ID, Owner,
Balance}` records in the peer's key-value world state and offers eight
transaction functions: `InitLedger`, `CreateAccount`, `ReadAccount`,
`UpdateAccount`, `DeleteAccount`, `AccountExists`, `GetAllAccounts` and
`TransferFunds`.

The world state is an immutable `map<string, Account>`. Each transaction is
a pure function from the committed state to a `Result`: either the state the
transaction would commit or a typed failure. The failures are
`AlreadyExists(id)`, `NotFound(id)` and `InsufficientFunds(id)`. A failed
transaction commits nothing, so the caller keeps the state it passed in.
`GetAllAccounts` is a method: it scans the keys in an unspecified order.

Files:

- `world_state.dfy` (module `WorldState`): the `Account` record and the
  state. It also holds the three store primitives the contract calls
  (`GetState`, `PutState`, `DelState`), the `WellKeyed` invariant ("every
  record is stored under its own ID") and the ledger total `Total` with its
  summation lemmas.
- `smart_contract.dfy` (module `SmartContract`): the eight transaction
  functions, with existence gating, "nothing else changes" frames and
  `WellKeyed` preservation in their contracts.
- `ledger_properties.dfy` (module `LedgerProperties`): read-back and delete
  properties, and transfer conservation for the pair and for the whole
  ledger. It also holds the self-transfer behaviour and its corrected
  variant, the invariant over any run of transactions, and the end-to-end
  scenarios (seed, transfer 300, overdraft, delete, list).

Decisions:

- `TransferFunds` is modelled as written. It reads both accounts, checks the
  source balance, and then writes the debited source record and the
  credited destination record, in that order. When `fromID == toID` the
  second write replaces the first, so the balance ends at `B + amount`.
  A zero or negative amount is not rejected. Between distinct accounts, a
  negative amount passes the funds check whenever the source balance is at
  least `amount`, in particular whenever that balance is non-negative.
  Balances themselves may be negative, since `CreateAccount` and
  `UpdateAccount` accept any balance, and then a negative amount below
  such a balance is still refused with `InsufficientFunds`.
- The doc comment of `TransferFunds` (smartcontract.go:162) says funds
  move "from one account to another"; a self-transfer that instead adds
  `amount` to the account is recorded under "## Findings". The model keeps
  the code's behaviour for non-positive amounts.
- Balances are `real`, so sums are exact.

## Model

| member | source | states |
|---|---|---|
| SmartContract.InitLedger | asset-transfer-basic/chaincode-go/chaincode/smartcontract.go:22-45 | always succeeds; its body is `PutAll`, the front-to-back write loop of lines 32-42 over the six seeds; each of the six seed accounts is stored under its ID, overwriting any earlier record; no other key is added or changed; a well-keyed state stays well-keyed |
| SmartContract.PutAllFrame | asset-transfer-basic/chaincode-go/chaincode/smartcontract.go:32-42 | the seeding loop's writes add exactly the batch's IDs to the key set and leave every other key as it was |
| SmartContract.PutAllStores | asset-transfer-basic/chaincode-go/chaincode/smartcontract.go:32-42 | when the batch's IDs are distinct, every record of the batch is what the loop leaves stored under its ID |
| SmartContract.PutAllWellKeyed | asset-transfer-basic/chaincode-go/chaincode/smartcontract.go:32-42 | the loop writes each record under its own ID, so a well-keyed state stays well-keyed |
| SmartContract.SeedsDistinct | asset-transfer-basic/chaincode-go/chaincode/smartcontract.go:23-30 | the six seed accounts have pairwise different IDs |
| SmartContract.AccountExists | asset-transfer-basic/chaincode-go/chaincode/smartcontract.go:126-133 | true exactly when the ID is a key of the state |
| SmartContract.CreateAccount | asset-transfer-basic/chaincode-go/chaincode/smartcontract.go:48-67 | an existing ID fails with AlreadyExists and commits nothing; an absent ID succeeds, adds exactly that key holding {id, owner, balance}, and leaves every other key unchanged |
| SmartContract.ReadAccount | asset-transfer-basic/chaincode-go/chaincode/smartcontract.go:71-87 | succeeds exactly when the key is present and returns the stored record; otherwise fails with NotFound(id) |
| SmartContract.UpdateAccount | asset-transfer-basic/chaincode-go/chaincode/smartcontract.go:90-110 | an absent ID fails with NotFound and no write; a present ID keeps the key set, replaces the record in full by {id, owner, balance}, and leaves every other key unchanged |
| SmartContract.DeleteAccount | asset-transfer-basic/chaincode-go/chaincode/smartcontract.go:113-123 | an absent ID fails with NotFound and no write; a present ID removes exactly that key and leaves every other key unchanged |
| SmartContract.GetAllAccounts | asset-transfer-basic/chaincode-go/chaincode/smartcontract.go:136-160 | one record per key: the length equals the number of keys and every stored record is listed; in a well-keyed state the IDs are pairwise different, each listed record is the one stored under its ID, and the set of IDs is the key set |
| SmartContract.TransferFunds | asset-transfer-basic/chaincode-go/chaincode/smartcontract.go:163-199 | a missing source fails NotFound(fromID), then a missing destination fails NotFound(toID), then a source balance below amount fails InsufficientFunds, all with no write; success happens exactly otherwise; on success only the two keys change; with distinct IDs the source loses and the destination gains amount, with owners and IDs kept; with one ID the record ends at balance + amount |
| LedgerProperties.CreateThenRead | asset-transfer-basic/chaincode-go/chaincode/smartcontract.go:48-87 | creating an absent account and then reading it returns exactly {id, owner, balance}, and the account then exists |
| LedgerProperties.UpdateThenRead | asset-transfer-basic/chaincode-go/chaincode/smartcontract.go:90-110 | after an update, a read returns the full replacement record |
| LedgerProperties.DeleteThenGone | asset-transfer-basic/chaincode-go/chaincode/smartcontract.go:113-133 | after a delete, AccountExists is false and ReadAccount fails with NotFound |
| LedgerProperties.ExistsAgreesWithRead | asset-transfer-basic/chaincode-go/chaincode/smartcontract.go:71-133 | AccountExists holds exactly when ReadAccount succeeds, and is false exactly when ReadAccount fails with NotFound |
| LedgerProperties.TransferConservesPair | asset-transfer-basic/chaincode-go/chaincode/smartcontract.go:177-196 | a successful transfer between different accounts keeps the sum of the two balances and both owners |
| LedgerProperties.TransferConservesTotal | asset-transfer-basic/chaincode-go/chaincode/smartcontract.go:177-196 | a successful transfer between different accounts keeps the total balance of the whole ledger |
| LedgerProperties.SelfTransferAddsAmount | asset-transfer-basic/chaincode-go/chaincode/smartcontract.go:164-196 | a successful transfer from an account to itself raises its balance, and the ledger total, by amount |
| LedgerProperties.SelfTransferCounterexample | asset-transfer-basic/chaincode-go/chaincode/smartcontract.go:177-196 | moving 300 from account1 (balance 1000) to itself commits balance 1300 |
| LedgerProperties.NegativeAmountReverses | asset-transfer-basic/chaincode-go/chaincode/smartcontract.go:173-178 | between two distinct existing accounts, a negative amount passes the funds check whenever the source balance is at least amount, in particular whenever it is non-negative; the transfer then raises the source balance and lowers the destination balance |
| LedgerProperties.TransferFundsCorrected | asset-transfer-basic/chaincode-go/chaincode/smartcontract.go:163-199 | same success condition and same failures as TransferFunds; a self-transfer leaves the state unchanged; every success keeps the ledger total |
| LedgerProperties.CorrectedAgreesOnDistinct | asset-transfer-basic/chaincode-go/chaincode/smartcontract.go:163-199 | between different accounts, the corrected transfer equals the transfer as written |
| LedgerProperties.RunTransfersConserveTotal | asset-transfer-basic/chaincode-go/chaincode/smartcontract.go:163-199 | any sequence of corrected transfers keeps the ledger total, whether each one is accepted or rejected |
| LedgerProperties.RunKeepsWellKeyed | asset-transfer-basic/chaincode-go/chaincode/smartcontract.go:22-199 | from a well-keyed state, any sequence of transactions (failures committing nothing) leaves every record stored under its own ID |
| LedgerProperties.SeededLedger | asset-transfer-basic/chaincode-go/chaincode/smartcontract.go:22-45 | seeding an empty ledger gives exactly the keys account1..account6, each holding a record with that ID |
| LedgerProperties.SeededCount | asset-transfer-basic/chaincode-go/chaincode/smartcontract.go:23-30 | the seeded ledger holds six accounts |
| LedgerProperties.ScenarioTransfer | asset-transfer-basic/chaincode-go/chaincode/smartcontract.go:163-199 | on the seeded ledger, moving 300 from account1 to account2 succeeds, and the two then read back with balances 700 and 2300 |
| LedgerProperties.ScenarioInsufficientFunds | asset-transfer-basic/chaincode-go/chaincode/smartcontract.go:173-175 | moving 99999 from account1 fails with InsufficientFunds, both on the seeded ledger and after the 300 transfer |
| LedgerProperties.ScenarioDelete | asset-transfer-basic/chaincode-go/chaincode/smartcontract.go:113-133 | deleting account3 from the seeded ledger succeeds; account3 then cannot be read and does not exist |
| LedgerProperties.ScenarioListSeeded | asset-transfer-basic/chaincode-go/chaincode/smartcontract.go:136-160 | listing the seeded ledger returns six records whose IDs are exactly account1..account6 |

## Left out

- JSON encoding and decoding (`json.Marshal`, `json.Unmarshal`) are not modelled. Records are stored decoded, as if the encoding were an exact round trip. So the model has no encoding or decoding failures, and a corrupt stored value cannot make `ReadAccount` or `GetAllAccounts` fail.
- Failures of the store itself are not modelled. This covers errors from `GetState`, `PutState`, `DelState` and `GetStateByRange`, and the error results of the iterator's `Next`. Every operation fails only on its own guard. Because no write can fail, `InitLedger`'s partial writes before a failure are not modelled either.
- `float64` balances are modelled as exact `real` numbers. IEEE rounding, and the inexact conservation it brings, is not modelled.
- The `contractapi` transaction context is not modelled; the state is an explicit parameter instead. The Fabric peer's read/write sets, MVCC validation and concurrency are also left out.
- The iterator's `Close` is not modelled. The order of `GetStateByRange` is left unspecified: `GetAllAccounts` visits keys in an arbitrary order.
- CreateAccount: an empty `id` is accepted by the model. The Fabric stub's `PutState` refuses the empty key, so in the program `CreateAccount("", …)` fails; that rule lives in the Fabric shim, which is not part of this model.
- TransferFunds: a float64 balance that overflows to ±Inf makes `json.Marshal` fail at lines 180-183 or 189-192, so the program's transfer fails and commits nothing. With exact `real` balances there is no overflow, and the model returns `Ok`.
- Error message text is not modelled; each failure is a constructor carrying the ID it names.
- GetAllAccounts: on a state that is not well-keyed, the contract states only the length and that every stored record is listed, not a one-to-one pairing of keys with list entries. Every state reachable from an empty ledger is well-keyed (RunKeepsWellKeyed).

## Findings

| source | as written | input that shows it | evidently intended | confidence | as-written member | corrected member |
|---|---|---|---|---|---|---|
| asset-transfer-basic/chaincode-go/chaincode/smartcontract.go:177-196 | both accounts are read before either is written; when `fromID == toID` the credit written second replaces the debit written first | `TransferFunds(account1, account1, 300)` with account1 at balance 1000 commits balance 1300 and raises the ledger total by 300 | a transfer from an account to itself changes no balance | high; not executed | LedgerProperties.SelfTransferCounterexample | LedgerProperties.TransferFundsCorrected |

`TransferFunds` models the code as written. `TransferFundsCorrected`
treats a self-transfer as a no-op, and `RunTransfersConserveTotal` uses it
to show that every run of transfers keeps the ledger total.
