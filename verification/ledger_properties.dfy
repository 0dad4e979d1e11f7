/** Properties that relate several contract calls: read-back after a write,
    existence after a delete, conservation of currency by transfers, the
    ID-keying invariant over any run of transactions, and the end-to-end
    scenarios the contract is meant to support. */
module LedgerProperties {
  import opened WorldState
  import opened SmartContract

  /** A freshly created account reads back exactly as given. */
  lemma CreateThenRead(st: State, id: string, owner: string, balance: real)
    requires id !in st
    ensures CreateAccount(st, id, owner, balance).Ok?
    ensures ReadAccount(CreateAccount(st, id, owner, balance).value, id) == Ok(Account(id, owner, balance))
    ensures AccountExists(CreateAccount(st, id, owner, balance).value, id)
  {
  }

  /** An update reads back as the full replacement record. */
  lemma UpdateThenRead(st: State, id: string, owner: string, balance: real)
    requires id in st
    ensures UpdateAccount(st, id, owner, balance).Ok?
    ensures ReadAccount(UpdateAccount(st, id, owner, balance).value, id) == Ok(Account(id, owner, balance))
  {
  }

  /** After a delete the account is gone for both probes. */
  lemma DeleteThenGone(st: State, id: string)
    requires id in st
    ensures DeleteAccount(st, id).Ok?
    ensures !AccountExists(DeleteAccount(st, id).value, id)
    ensures ReadAccount(DeleteAccount(st, id).value, id) == Err(NotFound(id))
  {
  }

  /** The existence probe and the read agree on every key, and neither
      changes the state, so asking twice gives the same answer. */
  lemma ExistsAgreesWithRead(st: State, id: string)
    ensures AccountExists(st, id) <==> ReadAccount(st, id).Ok?
    ensures !AccountExists(st, id) <==> ReadAccount(st, id) == Err(NotFound(id))
  {
  }

  /** A successful transfer between two different accounts moves
      `amount` from one to the other: their sum is unchanged and so is
      every owner. */
  lemma TransferConservesPair(st: State, fromID: string, toID: string, amount: real)
    requires fromID != toID
    requires TransferFunds(st, fromID, toID, amount).Ok?
    ensures var st' := TransferFunds(st, fromID, toID, amount).value;
            && st'[fromID].balance + st'[toID].balance == st[fromID].balance + st[toID].balance
            && st'[fromID].owner == st[fromID].owner
            && st'[toID].owner == st[toID].owner
  {
  }

  /** A successful transfer between two different accounts leaves the
      total currency of the whole ledger unchanged. */
  lemma TransferConservesTotal(st: State, fromID: string, toID: string, amount: real)
    requires fromID != toID
    requires TransferFunds(st, fromID, toID, amount).Ok?
    ensures Total(TransferFunds(st, fromID, toID, amount).value) == Total(st)
  {
    var debited := st[fromID].(balance := st[fromID].balance - amount);
    var credited := st[toID].(balance := st[toID].balance + amount);
    var mid := PutState(st, fromID, debited);
    TotalAfterPut(st, fromID, debited);
    TotalAfterPut(mid, toID, credited);
    assert TransferFunds(st, fromID, toID, amount).value == PutState(mid, toID, credited);
  }

  /** Transferring from an account to itself, as written, adds `amount`
      to that account and so to the ledger total. */
  lemma SelfTransferAddsAmount(st: State, id: string, amount: real)
    requires TransferFunds(st, id, id, amount).Ok?
    ensures TransferFunds(st, id, id, amount).value[id].balance == st[id].balance + amount
    ensures Total(TransferFunds(st, id, id, amount).value) == Total(st) + amount
  {
    var credited := st[id].(balance := st[id].balance + amount);
    TotalAfterPut(st, id, credited);
    assert TransferFunds(st, id, id, amount).value == PutState(st, id, credited);
  }

  /** A concrete self-transfer: 300 moved from account1 to itself turns a
      balance of 1000 into 1300. */
  lemma SelfTransferCounterexample()
    ensures var st := map["account1" := Account("account1", "Tomoko", 1000.0)];
            TransferFunds(st, "account1", "account1", 300.0)
              == Ok(map["account1" := Account("account1", "Tomoko", 1300.0)])
  {
    var st := map["account1" := Account("account1", "Tomoko", 1000.0)];
    var r := TransferFunds(st, "account1", "account1", 300.0);
    assert r.value.Keys == {"account1"};
    assert r.value["account1"] == Account("account1", "Tomoko", 1300.0);
    assert r.value == map["account1" := Account("account1", "Tomoko", 1300.0)];
  }

  /** Between distinct accounts, a negative amount passes the funds check
      whenever the source balance is at least `amount`, in particular
      whenever that balance is non-negative, and it then moves currency
      from the destination to the source. */
  lemma NegativeAmountReverses(st: State, fromID: string, toID: string, amount: real)
    requires fromID in st && toID in st && fromID != toID
    requires amount < 0.0
    requires st[fromID].balance >= amount
    ensures TransferFunds(st, fromID, toID, amount).Ok?
    ensures TransferFunds(st, fromID, toID, amount).value[fromID].balance > st[fromID].balance
    ensures TransferFunds(st, fromID, toID, amount).value[toID].balance < st[toID].balance
  {
  }

  /** The transfer with a self-transfer treated as a no-op: the same
      existence and funds checks, and when the two IDs coincide the
      store is left as it was. */
  function TransferFundsCorrected(st: State, fromID: string, toID: string, amount: real): (r: Result<State>)
    ensures r.Ok? <==> fromID in st && toID in st && st[fromID].balance >= amount
    ensures r.Err? ==> r == TransferFunds(st, fromID, toID, amount)
    ensures r.Ok? && fromID == toID ==> r.value == st
    ensures r.Ok? ==> Total(r.value) == Total(st)
  {
    match TransferFunds(st, fromID, toID, amount)
    case Err(e) => Err(e)
    case Ok(written) =>
      if fromID == toID then Ok(st)
      else
        TransferConservesTotal(st, fromID, toID, amount);
        Ok(written)
  }

  /** Between different accounts the corrected transfer is the one
      written in the contract. */
  lemma CorrectedAgreesOnDistinct(st: State, fromID: string, toID: string, amount: real)
    requires fromID != toID
    ensures TransferFundsCorrected(st, fromID, toID, amount) == TransferFunds(st, fromID, toID, amount)
  {
  }

  /** One requested transfer. */
  datatype Transfer = Transfer(fromID: string, toID: string, amount: real)

  /** Applies the corrected transfers in order; a rejected one commits
      nothing and the rest still run. */
  function RunTransfers(st: State, ts: seq<Transfer>): State
    decreases |ts|
  {
    if |ts| == 0 then st
    else
      var t := ts[0];
      var next := match TransferFundsCorrected(st, t.fromID, t.toID, t.amount)
        case Ok(st') => st'
        case Err(_) => st;
      RunTransfers(next, ts[1..])
  }

  /** Any run of corrected transfers keeps the ledger total. */
  lemma {:induction false} RunTransfersConserveTotal(st: State, ts: seq<Transfer>)
    ensures Total(RunTransfers(st, ts)) == Total(st)
    decreases |ts|
  {
    if |ts| > 0 {
      var t := ts[0];
      var next := match TransferFundsCorrected(st, t.fromID, t.toID, t.amount)
        case Ok(st') => st'
        case Err(_) => st;
      RunTransfersConserveTotal(next, ts[1..]);
    }
  }

  /** One submitted transaction of the contract. */
  datatype Tx =
    | InitLedgerTx
    | CreateAccountTx(id: string, owner: string, balance: real)
    | UpdateAccountTx(id: string, owner: string, balance: real)
    | DeleteAccountTx(id: string)
    | TransferFundsTx(fromID: string, toID: string, amount: real)

  /** The state committed by one transaction: its writes on success, the
      unchanged state on failure. */
  function Apply(st: State, tx: Tx): State
  {
    var r := match tx
      case InitLedgerTx => InitLedger(st)
      case CreateAccountTx(id, owner, balance) => CreateAccount(st, id, owner, balance)
      case UpdateAccountTx(id, owner, balance) => UpdateAccount(st, id, owner, balance)
      case DeleteAccountTx(id) => DeleteAccount(st, id)
      case TransferFundsTx(fromID, toID, amount) => TransferFunds(st, fromID, toID, amount);
    if r.Ok? then r.value else st
  }

  function Run(st: State, txs: seq<Tx>): State
    decreases |txs|
  {
    if |txs| == 0 then st else Run(Apply(st, txs[0]), txs[1..])
  }

  /** From any state in which every record is stored under its own ID,
      every sequence of transactions leaves a state where that still holds.
      The empty ledger is such a state. */
  lemma {:induction false} RunKeepsWellKeyed(st: State, txs: seq<Tx>)
    requires WellKeyed(st)
    ensures WellKeyed(Run(st, txs))
    decreases |txs|
  {
    if |txs| > 0 {
      RunKeepsWellKeyed(Apply(st, txs[0]), txs[1..]);
    }
  }

  /** The ledger as seeded on an empty world state. */
  function Seeded(): State
  {
    InitLedger(map[]).value
  }

  /** The six seeded IDs. */
  function SeedIds(): set<string>
  {
    {"account1", "account2", "account3", "account4", "account5", "account6"}
  }

  lemma SeedIdsCount()
    ensures |SeedIds()| == 6
  {
    var ids := ["account1", "account2", "account3", "account4", "account5", "account6"];
    assert forall i :: 0 <= i < |ids| ==> |ids[i]| == 8 && ids[i][7] == ('1' as int + i) as char;
    assert SeedIds() == {ids[0]} + {ids[1]} + {ids[2]} + {ids[3]} + {ids[4]} + {ids[5]};
  }

  lemma SeedsHaveSeedIds()
    ensures IdsOf(Seeds()) == SeedIds()
  {
    var seeds := Seeds();
    assert seeds[0] in seeds && seeds[1] in seeds && seeds[2] in seeds;
    assert seeds[3] in seeds && seeds[4] in seeds && seeds[5] in seeds;
  }

  /** Seeding an empty ledger stores exactly the six seed accounts, each
      under its own ID. */
  lemma SeededLedger()
    ensures Seeded().Keys == SeedIds()
    ensures WellKeyed(Seeded())
  {
    SeedsHaveSeedIds();
  }

  /** The seeded ledger holds six accounts. */
  lemma SeededCount()
    ensures |Seeded()| == 6
  {
    SeededLedger();
    SeedIdsCount();
    assert |Seeded()| == |Seeded().Keys|;
  }

  /** Seed, then move 300 from account1 to account2: the balances read
      back as 700 and 2300. */
  lemma ScenarioTransfer()
    ensures TransferFunds(Seeded(), "account1", "account2", 300.0).Ok?
    ensures var st := TransferFunds(Seeded(), "account1", "account2", 300.0).value;
            && ReadAccount(st, "account1") == Ok(Account("account1", "Tomoko", 700.0))
            && ReadAccount(st, "account2") == Ok(Account("account2", "Brad", 2300.0))
  {
    SeededLedger();
  }

  /** An overdraft on the seeded ledger, or after the first transfer, is
      refused and commits nothing. */
  lemma ScenarioInsufficientFunds()
    ensures TransferFunds(Seeded(), "account1", "account2", 99999.0) == Err(InsufficientFunds("account1"))
    ensures var st := TransferFunds(Seeded(), "account1", "account2", 300.0).value;
            TransferFunds(st, "account1", "account2", 99999.0) == Err(InsufficientFunds("account1"))
  {
    ScenarioTransfer();
  }

  /** Deleting account3 from the seeded ledger: it can no longer be read
      and no longer exists. */
  lemma ScenarioDelete()
    ensures DeleteAccount(Seeded(), "account3").Ok?
    ensures ReadAccount(DeleteAccount(Seeded(), "account3").value, "account3") == Err(NotFound("account3"))
    ensures !AccountExists(DeleteAccount(Seeded(), "account3").value, "account3")
  {
    SeededLedger();
  }

  /** Listing the freshly seeded ledger yields six records whose IDs are
      the six seeded IDs. */
  method ScenarioListSeeded() returns (accounts: seq<Account>)
    ensures |accounts| == 6
    ensures (set a | a in accounts :: a.id) == SeedIds()
  {
    SeededLedger();
    SeededCount();
    accounts := GetAllAccounts(Seeded());
  }
}
