/** The world state the chaincode runs against: a finite map from account
    keys to account records, together with the three store primitives the
    contract uses (read a key, write a key, delete a key). Records are kept
    decoded: the JSON encoding between the contract and the store is taken
    to be an exact round trip and is not modelled. */
module WorldState {

  /** One bank account. Balances are exact rationals rather than IEEE
      doubles, so sums and differences are exact. */
  datatype Account = Account(id: string, owner: string, balance: real)

  /** The committed key-value store, keyed by account ID. */
  type State = map<string, Account>

  datatype Option<T> = None | Some(value: T)

  /** The store read: `None` plays the part of the nil byte slice that
      the store returns for an absent key. */
  function GetState(st: State, key: string): (r: Option<Account>)
    ensures r.Some? <==> key in st
    ensures r.Some? ==> r.value == st[key]
  {
    if key in st then Some(st[key]) else None
  }

  /** The store write: the new record replaces whatever the key held. */
  function PutState(st: State, key: string, a: Account): (r: State)
    ensures r.Keys == st.Keys + {key}
    ensures r[key] == a
    ensures forall k :: k in st && k != key ==> r[k] == st[k]
  {
    st[key := a]
  }

  /** The store delete. */
  function DelState(st: State, key: string): (r: State)
    ensures r.Keys == st.Keys - {key}
    ensures forall k :: k in r ==> r[k] == st[k]
  {
    st - {key}
  }

  /** Every record is stored under its own ID. All contract operations
      keep this true, which is what makes the key set and the set of
      listed IDs coincide. */
  ghost predicate WellKeyed(st: State)
  {
    forall k :: k in st ==> st[k].id == k
  }

  /** `st'` differs from `st` at most on the keys in `touched`. */
  ghost predicate SameOutside(st: State, st': State, touched: set<string>)
  {
    && (forall k :: k !in touched ==> (k in st <==> k in st'))
    && (forall k :: k in st && k !in touched ==> st'[k] == st[k])
  }

  /** Sum of the balances of the accounts under `keys`. */
  ghost function SumOver(st: State, keys: set<string>): real
    requires keys <= st.Keys
    decreases keys
  {
    if keys == {} then 0.0
    else
      var k :| k in keys;
      st[k].balance + SumOver(st, keys - {k})
  }

  /** Total currency held by the whole ledger. */
  ghost function Total(st: State): real
  {
    SumOver(st, st.Keys)
  }

  /** Any key of `keys` can be split off the sum, whichever key the
      definition happened to pick first. */
  lemma {:induction false} SumOverRemove(st: State, keys: set<string>, k: string)
    requires keys <= st.Keys
    requires k in keys
    ensures SumOver(st, keys) == st[k].balance + SumOver(st, keys - {k})
    decreases keys
  {
    var j :| j in keys && SumOver(st, keys) == st[j].balance + SumOver(st, keys - {j});
    if j != k {
      SumOverRemove(st, keys - {j}, k);
      SumOverRemove(st, keys - {k}, j);
      assert keys - {j} - {k} == keys - {k} - {j};
    }
  }

  /** The sum only looks at the records under `keys`. */
  lemma {:induction false} SumOverFrame(st: State, st': State, keys: set<string>)
    requires keys <= st.Keys && keys <= st'.Keys
    requires forall k :: k in keys ==> st[k].balance == st'[k].balance
    ensures SumOver(st, keys) == SumOver(st', keys)
    decreases keys
  {
    if keys != {} {
      var k :| k in keys && SumOver(st, keys) == st[k].balance + SumOver(st, keys - {k});
      SumOverRemove(st', keys, k);
      SumOverFrame(st, st', keys - {k});
    }
  }

  /** Rewriting one existing record changes the ledger total by exactly the
      change in that record's balance. */
  lemma TotalAfterPut(st: State, key: string, a: Account)
    requires key in st
    ensures Total(PutState(st, key, a)) == Total(st) - st[key].balance + a.balance
  {
    var st' := PutState(st, key, a);
    assert st'.Keys == st.Keys;
    SumOverRemove(st, st.Keys, key);
    SumOverRemove(st', st'.Keys, key);
    SumOverFrame(st, st', st.Keys - {key});
  }

}
