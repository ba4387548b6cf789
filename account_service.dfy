/**
 * getAccountsMap: the account list folded into an object keyed by account
 * id. The fold writes each account under its id in list order, so a later
 * account with the same id replaces an earlier one.
 */
module AccountService {
  import opened Schema

  /** The map after folding in the accounts one by one. */
  function AccountsMap(accounts: seq<AccountRow>): (m: map<int, AccountRow>)
    ensures m.Keys == set a | a in accounts :: a.id
    ensures forall id :: id in m ==> m[id] in accounts && m[id].id == id
    decreases |accounts|
  {
    if accounts == [] then map[]
    else
      var n := |accounts| - 1;
      assert accounts == accounts[..n] + [accounts[n]];
      AccountsMap(accounts[..n])[accounts[n].id := accounts[n]]
  }

  /** The fold itself: the aggregator is updated in place, one account at a time. */
  method GetAccountsMap(accounts: seq<AccountRow>) returns (m: map<int, AccountRow>)
    ensures m == AccountsMap(accounts)
    ensures m.Keys == set a | a in accounts :: a.id
    ensures m == map[] <==> accounts == []
  {
    m := map[];
    for i := 0 to |accounts|
      invariant m == AccountsMap(accounts[..i])
    {
      assert accounts[..i + 1][..i] == accounts[..i];
      m := m[accounts[i].id := accounts[i]];
    }
    assert accounts[..|accounts|] == accounts;
    if accounts != [] {
      assert accounts[0].id in m;
    }
  }

  /** The account stored under an id is the last one in the list that has it. */
  lemma {:induction false} LastAccountWins(accounts: seq<AccountRow>, k: int)
    requires 0 <= k < |accounts|
    requires forall j :: k < j < |accounts| ==> accounts[j].id != accounts[k].id
    ensures AccountsMap(accounts)[accounts[k].id] == accounts[k]
    decreases |accounts|
  {
    var n := |accounts| - 1;
    if k < n {
      LastAccountWins(accounts[..n], k);
    }
  }

  /** With distinct ids, as the account table guarantees, every account is found under its own id. */
  lemma EveryAccountUnderItsId(accounts: seq<AccountRow>)
    requires AccountIdsIncreasing(accounts)
    ensures forall a :: a in accounts ==> AccountsMap(accounts)[a.id] == a
  {
    forall a | a in accounts ensures AccountsMap(accounts)[a.id] == a {
      var k :| 0 <= k < |accounts| && accounts[k] == a;
      LastAccountWins(accounts, k);
    }
  }

  /** Two accounts sharing an id: the fold keeps the second. */
  lemma RepeatedIdKeepsLater(a: AccountRow, b: AccountRow)
    requires a.id == b.id
    ensures AccountsMap([a, b]) == map[a.id := b]
  {
    assert [a, b][..1] == [a];
    assert [a][..0] == [];
  }
}
