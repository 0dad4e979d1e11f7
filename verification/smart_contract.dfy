/** The bank-account smart contract: every transaction function of the
    contract as a pure function from the committed world state to either a
    failure or the world state the transaction would commit (plus, for the
    queries, the value it returns). A failed transaction commits nothing,
    so on failure the caller keeps the state it passed in. */
module SmartContract {
  import opened WorldState

  /** Why a transaction was rejected; the message text is not modelled. */
  datatype Error =
    | AlreadyExists(id: string)
    | NotFound(id: string)
    | InsufficientFunds(id: string)

  datatype Result<T> = Ok(value: T) | Err(error: Error)

  /** The six accounts the ledger is seeded with, in write order. */
  function Seeds(): seq<Account>
  {
    [ Account("account1", "Tomoko", 1000.0),
      Account("account2", "Brad", 2000.0),
      Account("account3", "Jin Soo", 3000.0),
      Account("account4", "Max", 4000.0),
      Account("account5", "Adriana", 5000.0),
      Account("account6", "Michel", 6000.0) ]
  }

  /** The IDs the records in `accounts` are written under. */
  function IdsOf(accounts: seq<Account>): set<string>
  {
    set a | a in accounts :: a.id
  }

  /** No two records in `accounts` share an ID. */
  ghost predicate DistinctIds(accounts: seq<Account>)
  {
    forall i, j :: 0 <= i < j < |accounts| ==> accounts[i].id != accounts[j].id
  }

  lemma IdsOfCons(accounts: seq<Account>)
    requires |accounts| > 0
    ensures IdsOf(accounts) == {accounts[0].id} + IdsOf(accounts[1..])
    ensures DistinctIds(accounts) ==> DistinctIds(accounts[1..]) && accounts[0].id !in IdsOf(accounts[1..])
  {
    assert accounts == [accounts[0]] + accounts[1..];
    if accounts[0].id in IdsOf(accounts[1..]) {
      var a :| a in accounts[1..] && a.id == accounts[0].id;
      var j :| 0 <= j < |accounts[1..]| && accounts[1..][j] == a;
      assert accounts[j + 1].id == accounts[0].id;
    }
  }

  /** Writes each record under its own ID, front to back, as the seeding
      loop does. */
  function PutAll(st: State, accounts: seq<Account>): State
    decreases |accounts|
  {
    if |accounts| == 0 then st
    else PutAll(PutState(st, accounts[0].id, accounts[0]), accounts[1..])
  }

  /** Writing a batch adds the batch's keys and changes nothing else. */
  lemma {:induction false} PutAllFrame(st: State, accounts: seq<Account>)
    ensures PutAll(st, accounts).Keys == st.Keys + IdsOf(accounts)
    ensures SameOutside(st, PutAll(st, accounts), IdsOf(accounts))
    decreases |accounts|
  {
    if |accounts| > 0 {
      IdsOfCons(accounts);
      PutAllFrame(PutState(st, accounts[0].id, accounts[0]), accounts[1..]);
    }
  }

  /** With distinct IDs no write is overwritten later in the batch, so
      every record of the batch is what ends up stored under its ID. */
  lemma {:induction false} PutAllStores(st: State, accounts: seq<Account>)
    requires DistinctIds(accounts)
    ensures forall a :: a in accounts ==> a.id in PutAll(st, accounts) && PutAll(st, accounts)[a.id] == a
    decreases |accounts|
  {
    if |accounts| > 0 {
      var st' := PutState(st, accounts[0].id, accounts[0]);
      IdsOfCons(accounts);
      PutAllStores(st', accounts[1..]);
      PutAllFrame(st', accounts[1..]);
      assert accounts == [accounts[0]] + accounts[1..];
    }
  }

  /** Each record is written under its own ID, so a well-keyed store stays
      well-keyed whatever the batch holds. */
  lemma {:induction false} PutAllWellKeyed(st: State, accounts: seq<Account>)
    ensures WellKeyed(st) ==> WellKeyed(PutAll(st, accounts))
    decreases |accounts|
  {
    if |accounts| > 0 {
      PutAllWellKeyed(PutState(st, accounts[0].id, accounts[0]), accounts[1..]);
    }
  }

  lemma SeedsDistinct()
    ensures DistinctIds(Seeds())
  {
    var seeds := Seeds();
    assert forall i :: 0 <= i < |seeds| ==> |seeds[i].id| == 8 && seeds[i].id[7] == ('1' as int + i) as char;
  }

  /** InitLedger: writes the seed accounts unconditionally, overwriting
      any records already stored under their IDs. */
  function InitLedger(st: State): (r: Result<State>)
    ensures r.Ok?
    ensures r.value.Keys == st.Keys + IdsOf(Seeds())
    ensures SameOutside(st, r.value, IdsOf(Seeds()))
    ensures forall a :: a in Seeds() ==> r.value[a.id] == a
    ensures WellKeyed(st) ==> WellKeyed(r.value)
  {
    SeedsDistinct();
    PutAllFrame(st, Seeds());
    PutAllStores(st, Seeds());
    PutAllWellKeyed(st, Seeds());
    Ok(PutAll(st, Seeds()))
  }

  /** AccountExists: true when the store holds a value for `id`. */
  function AccountExists(st: State, id: string): (present: bool)
    ensures present <==> id in st
  {
    GetState(st, id).Some?
  }

  /** CreateAccount: stores a fresh record, refusing an ID already in use. */
  function CreateAccount(st: State, id: string, owner: string, balance: real): (r: Result<State>)
    ensures id in st ==> r == Err(AlreadyExists(id))
    ensures id !in st ==> r.Ok?
    ensures r.Ok? ==> r.value.Keys == st.Keys + {id}
    ensures r.Ok? ==> r.value[id] == Account(id, owner, balance)
    ensures r.Ok? ==> SameOutside(st, r.value, {id})
    ensures r.Ok? && WellKeyed(st) ==> WellKeyed(r.value)
  {
    if AccountExists(st, id) then Err(AlreadyExists(id))
    else Ok(PutState(st, id, Account(id, owner, balance)))
  }

  /** ReadAccount: the stored record, or NotFound when the key is absent. */
  function ReadAccount(st: State, id: string): (r: Result<Account>)
    ensures r.Ok? <==> id in st
    ensures r.Ok? ==> r.value == st[id]
    ensures r.Err? ==> r.error == NotFound(id)
    ensures r.Ok? && WellKeyed(st) ==> r.value.id == id
  {
    match GetState(st, id)
    case None => Err(NotFound(id))
    case Some(a) => Ok(a)
  }

  /** UpdateAccount: replaces owner and balance of an existing record in
      full; the ID stays the key. */
  function UpdateAccount(st: State, id: string, owner: string, balance: real): (r: Result<State>)
    ensures id !in st ==> r == Err(NotFound(id))
    ensures id in st ==> r.Ok?
    ensures r.Ok? ==> r.value.Keys == st.Keys
    ensures r.Ok? ==> r.value[id] == Account(id, owner, balance)
    ensures r.Ok? ==> SameOutside(st, r.value, {id})
    ensures r.Ok? && WellKeyed(st) ==> WellKeyed(r.value)
  {
    if !AccountExists(st, id) then Err(NotFound(id))
    else Ok(PutState(st, id, Account(id, owner, balance)))
  }

  /** DeleteAccount: removes an existing record. */
  function DeleteAccount(st: State, id: string): (r: Result<State>)
    ensures id !in st ==> r == Err(NotFound(id))
    ensures id in st ==> r.Ok?
    ensures r.Ok? ==> r.value.Keys == st.Keys - {id}
    ensures r.Ok? ==> SameOutside(st, r.value, {id})
    ensures r.Ok? && WellKeyed(st) ==> WellKeyed(r.value)
  {
    if !AccountExists(st, id) then Err(NotFound(id))
    else Ok(DelState(st, id))
  }

  /** TransferFunds, as written: read both accounts, check the source
      balance, then write the debited source record and afterwards the
      credited destination record. Both records are read before either is
      written, so when the two IDs coincide the second write replaces the
      first. Nothing rejects a zero or negative amount. */
  function TransferFunds(st: State, fromID: string, toID: string, amount: real): (r: Result<State>)
    ensures fromID !in st ==> r == Err(NotFound(fromID))
    ensures fromID in st && toID !in st ==> r == Err(NotFound(toID))
    ensures fromID in st && toID in st && st[fromID].balance < amount ==> r == Err(InsufficientFunds(fromID))
    ensures r.Ok? <==> fromID in st && toID in st && st[fromID].balance >= amount
    ensures r.Ok? ==> r.value.Keys == st.Keys && SameOutside(st, r.value, {fromID, toID})
    ensures r.Ok? && fromID != toID ==>
              && r.value[fromID] == st[fromID].(balance := st[fromID].balance - amount)
              && r.value[toID] == st[toID].(balance := st[toID].balance + amount)
    ensures r.Ok? && fromID == toID ==>
              r.value[toID] == st[toID].(balance := st[toID].balance + amount)
    ensures r.Ok? && WellKeyed(st) ==> WellKeyed(r.value)
  {
    match ReadAccount(st, fromID)
    case Err(e) => Err(e)
    case Ok(fromAccount) =>
      match ReadAccount(st, toID)
      case Err(e) => Err(e)
      case Ok(toAccount) =>
        if fromAccount.balance < amount then Err(InsufficientFunds(fromID))
        else
          var debited := fromAccount.(balance := fromAccount.balance - amount);
          var credited := toAccount.(balance := toAccount.balance + amount);
          Ok(PutState(PutState(st, fromID, debited), toID, credited))
  }

  /** GetAllAccounts: one full range scan over the store. The order in
      which the store yields keys is not fixed here; each step takes any
      key not yet visited. */
  method GetAllAccounts(st: State) returns (accounts: seq<Account>)
    ensures |accounts| == |st|
    ensures forall k :: k in st ==> st[k] in accounts
    ensures forall i :: 0 <= i < |accounts| ==> accounts[i] in st.Values
    ensures WellKeyed(st) ==> forall i :: 0 <= i < |accounts| ==>
              accounts[i].id in st && st[accounts[i].id] == accounts[i]
    ensures WellKeyed(st) ==> forall i, j :: 0 <= i < j < |accounts| ==> accounts[i].id != accounts[j].id
    ensures WellKeyed(st) ==> (set a | a in accounts :: a.id) == st.Keys
  {
    var remaining := st.Keys;
    ghost var visited: seq<string> := [];
    accounts := [];
    while remaining != {}
      invariant remaining <= st.Keys
      invariant |visited| == |accounts|
      invariant |visited| + |remaining| == |st.Keys|
      invariant forall i :: 0 <= i < |visited| ==> visited[i] in st && visited[i] !in remaining
      invariant forall i :: 0 <= i < |visited| ==> accounts[i] == st[visited[i]]
      invariant forall i, j :: 0 <= i < j < |visited| ==> visited[i] != visited[j]
      invariant forall k :: k in st ==> k in remaining || k in visited
      decreases remaining
    {
      var key :| key in remaining;
      var a := GetState(st, key).value;
      accounts := accounts + [a];
      visited := visited + [key];
      remaining := remaining - {key};
    }
    assert |st| == |st.Keys|;
    forall k | k in st ensures st[k] in accounts {
      var i :| 0 <= i < |visited| && visited[i] == k;
      assert accounts[i] == st[k];
    }
    if WellKeyed(st) {
      forall i | 0 <= i < |accounts| ensures accounts[i].id == visited[i] { }
    }
  }
}
