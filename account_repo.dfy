/**
 * The account repository: create, look up, update and delete rows of the
 * account table, and the derived balance of every account. Each method
 * either commits its change or reports the error PostgreSQL raises and
 * leaves the database as it was.
 */
module AccountRepo {
  import opened DbResult
  import opened Schema
  import opened Tables
  import opened AccountBalance

  // ------------------------------------------------------------ reads

  /** SELECT * FROM account WHERE account_number = ..., failing when no row matches. */
  function GetAccountByNumber(db: Database, accountNumber: string): (r: Result<AccountRow>)
    reads db
    ensures r.Ok? ==> r.value in db.accounts && r.value.accountNumber == accountNumber
    ensures r.Err? <==> forall a :: a in db.accounts ==> a.accountNumber != accountNumber
    ensures r.Err? ==> r.error == NoResult
  {
    match FindAccountByNumber(db.accounts, accountNumber)
    case Some(a) => Ok(a)
    case None => Err(NoResult)
  }

  /** Under the unique key, the lookup returns the one account holding the number. */
  lemma GetAccountByNumberFindsAccount(db: Database, a: AccountRow)
    requires db.Valid()
    requires a in db.accounts
    ensures GetAccountByNumber(db, a.accountNumber) == Ok(a)
  {
    FindAccountByNumberIsUnique(db.accounts, a);
  }

  /** SELECT * FROM account: every row, no order promised beyond the table's own. */
  function GetAllAccounts(db: Database): (r: seq<AccountRow>)
    reads db
    requires db.Valid()
    ensures forall a :: a in r <==> a in db.accounts
    ensures AccountNumbersDistinct(r) && forall a :: a in r ==> AccountColumnsFit(a)
  {
    db.accounts
  }

  // ------------------------------------------------------------ create

  /** INSERT INTO account ... RETURNING *. */
  method CreateAccount(db: Database, input: NewAccount) returns (r: Result<AccountRow>)
    requires db.Valid()
    modifies db
    ensures db.Valid()
    ensures r.Ok? <==>
      InsertAccountRow(old(db.nextAccountId), input).Ok?
      && FindAccountByNumber(old(db.accounts), InsertAccountRow(old(db.nextAccountId), input).value.accountNumber).None?
    ensures r.Ok? ==>
      && r.value == InsertAccountRow(old(db.nextAccountId), input).value
      && db.accounts == old(db.accounts) + [r.value]
      && db.nextAccountId == old(db.nextAccountId) + 1
      && db.journals == old(db.journals) && db.lines == old(db.lines)
      && db.nextJournalId == old(db.nextJournalId) && db.nextLineId == old(db.nextLineId)
    ensures r.Err? ==> unchanged(db)
    ensures r.Err? && InsertAccountRow(old(db.nextAccountId), input).Ok? ==> r.error == UniqueViolation
    ensures r.Err? && InsertAccountRow(old(db.nextAccountId), input).Err? ==>
      r.error == InsertAccountRow(old(db.nextAccountId), input).error
  {
    var row := InsertAccountRow(db.nextAccountId, input);
    if row.Err? {
      return Err(row.error);
    }
    if FindAccountByNumber(db.accounts, row.value.accountNumber).Some? {
      return Err(UniqueViolation);
    }
    ghost var before := db.accounts;
    db.accounts := db.accounts + [row.value];
    db.nextAccountId := db.nextAccountId + 1;
    forall l | l in db.lines ensures FindAccount(db.accounts, l.accountId).Some? {
      assert FindAccount(before, l.accountId).value in db.accounts;
    }
    r := Ok(row.value);
  }

  // ------------------------------------------------------------ update

  /** The columns an UPDATE sets; `None` leaves a column as it is. */
  datatype AccountPatch = AccountPatch(accountNumber: Option<string>, name: Option<string>,
                                       accountType: Option<string>, normalBalance: Option<string>)

  predicate IsEmptyPatch(p: AccountPatch) {
    p.accountNumber.None? && p.name.None? && p.accountType.None? && p.normalBalance.None?
  }

  predicate PatchSideParses(p: AccountPatch) {
    p.normalBalance.Some? ==> ParseSide(p.normalBalance.value).Some?
  }

  /** Every supplied varchar value can be assigned to its column. */
  predicate PatchFits(p: AccountPatch) {
    && (p.accountNumber.Some? ==> ToVarchar(p.accountNumber.value, AccountNumberMaxLength).Some?)
    && (p.accountType.Some? ==> ToVarchar(p.accountType.value, AccountTypeMaxLength).Some?)
  }

  /** The row after SET: supplied columns replaced by the values their columns store, the rest kept. */
  function Patched(a: AccountRow, p: AccountPatch): (r: AccountRow)
    requires PatchSideParses(p) && PatchFits(p)
    ensures r.id == a.id
    ensures r.accountNumber == (if p.accountNumber.Some? then ToVarchar(p.accountNumber.value, AccountNumberMaxLength).value else a.accountNumber)
    ensures r.name == (if p.name.Some? then p.name.value else a.name)
    ensures r.accountType == (if p.accountType.Some? then ToVarchar(p.accountType.value, AccountTypeMaxLength).value else a.accountType)
    ensures r.normalBalance == (if p.normalBalance.Some? then ParseSide(p.normalBalance.value).value else a.normalBalance)
    ensures AccountColumnsFit(a) ==> AccountColumnsFit(r)
  {
    AccountRow(a.id,
               if p.accountNumber.Some? then ToVarchar(p.accountNumber.value, AccountNumberMaxLength).value else a.accountNumber,
               if p.name.Some? then p.name.value else a.name,
               if p.accountType.Some? then ToVarchar(p.accountType.value, AccountTypeMaxLength).value else a.accountType,
               if p.normalBalance.Some? then ParseSide(p.normalBalance.value).value else a.normalBalance)
  }

  /** The table with the row of the same id replaced. */
  function ReplaceAccount(accounts: seq<AccountRow>, row: AccountRow): (r: seq<AccountRow>)
    ensures |r| == |accounts|
    ensures forall k :: 0 <= k < |accounts| ==> r[k] == if accounts[k].id == row.id then row else accounts[k]
  {
    if accounts == [] then []
    else [if accounts[0].id == row.id then row else accounts[0]] + ReplaceAccount(accounts[1..], row)
  }

  /** True when an account other than `id` already holds the number. */
  predicate NumberTakenByOther(accounts: seq<AccountRow>, id: int, accountNumber: string) {
    exists a :: a in accounts && a.id != id && a.accountNumber == accountNumber
  }

  /**
   * UPDATE account SET ... WHERE id = ... RETURNING *. The bound values
   * are converted to their column types when the statement is planned,
   * before any row is matched: the enum label is read, then each value is
   * assigned to its varchar column (see ToVarchar). A statement that matches
   * no row returns nothing; the matched row's new number must keep
   * account_number unique. A SET with no column is not a statement
   * PostgreSQL accepts.
   */
  method UpdateAccount(db: Database, id: int, patch: AccountPatch) returns (r: Result<AccountRow>)
    requires db.Valid()
    modifies db
    ensures db.Valid()
    ensures r.Err? ==> unchanged(db)
    ensures r == Err(InvalidStatement) <==> IsEmptyPatch(patch)
    ensures r == Err(InvalidEnumValue) <==> !IsEmptyPatch(patch) && !PatchSideParses(patch)
    ensures r == Err(StringTooLong) <==>
      !IsEmptyPatch(patch) && PatchSideParses(patch) && !PatchFits(patch)
    ensures r == Err(NoResult) <==>
      !IsEmptyPatch(patch) && PatchSideParses(patch) && PatchFits(patch) && FindAccount(old(db.accounts), id).None?
    ensures r.Ok? ==>
      && FindAccount(old(db.accounts), id).Some? && PatchFits(patch)
      && r.value == Patched(FindAccount(old(db.accounts), id).value, patch)
      && db.accounts == ReplaceAccount(old(db.accounts), r.value)
      && db.journals == old(db.journals) && db.lines == old(db.lines)
      && db.nextAccountId == old(db.nextAccountId)
      && db.nextJournalId == old(db.nextJournalId) && db.nextLineId == old(db.nextLineId)
    ensures r.Ok? <==>
      && !IsEmptyPatch(patch) && PatchSideParses(patch) && FindAccount(old(db.accounts), id).Some?
      && PatchFits(patch)
      && !NumberTakenByOther(old(db.accounts), id, Patched(FindAccount(old(db.accounts), id).value, patch).accountNumber)
  {
    if IsEmptyPatch(patch) {
      return Err(InvalidStatement);
    }
    if !PatchSideParses(patch) {
      return Err(InvalidEnumValue);
    }
    if !PatchFits(patch) {
      return Err(StringTooLong);
    }
    var found := FindAccount(db.accounts, id);
    if found.None? {
      return Err(NoResult);
    }
    var row := Patched(found.value, patch);
    if NumberTakenByOther(db.accounts, id, row.accountNumber) {
      return Err(UniqueViolation);
    }
    ghost var before := db.accounts;
    db.accounts := ReplaceAccount(db.accounts, row);
    UpdateKeepsKeys(before, row, db.lines);
    r := Ok(row);
  }

  /** Replacing a row by one with the same id keeps every id in place. */
  lemma ReplaceKeepsIds(accounts: seq<AccountRow>, row: AccountRow)
    ensures var r := ReplaceAccount(accounts, row);
            forall k :: 0 <= k < |r| ==> r[k].id == accounts[k].id
  {
  }

  lemma ReplaceKeepsNumbersDistinct(accounts: seq<AccountRow>, row: AccountRow)
    requires AccountIdsIncreasing(accounts) && AccountNumbersDistinct(accounts)
    requires !NumberTakenByOther(accounts, row.id, row.accountNumber)
    ensures AccountNumbersDistinct(ReplaceAccount(accounts, row))
  {
    var r := ReplaceAccount(accounts, row);
    forall i, j | 0 <= i < j < |r| ensures r[i].accountNumber != r[j].accountNumber {
      if accounts[i].id == row.id && accounts[j].id != row.id {
        assert accounts[j] in accounts;
      } else if accounts[j].id == row.id && accounts[i].id != row.id {
        assert accounts[i] in accounts;
      }
    }
  }

  /** Replacing a row by one with the same id, a free number and fitting columns keeps every key valid. */
  lemma UpdateKeepsKeys(accounts: seq<AccountRow>, row: AccountRow, lines: seq<LedgerRow>)
    requires AccountIdsIncreasing(accounts) && AccountNumbersDistinct(accounts)
    requires !NumberTakenByOther(accounts, row.id, row.accountNumber)
    requires forall l :: l in lines ==> FindAccount(accounts, l.accountId).Some?
    ensures var r := ReplaceAccount(accounts, row);
            && AccountIdsIncreasing(r) && AccountNumbersDistinct(r)
            && (forall a :: a in r ==> a in accounts || a == row)
            && (forall l :: l in lines ==> FindAccount(r, l.accountId).Some?)
  {
    var r := ReplaceAccount(accounts, row);
    ReplaceKeepsIds(accounts, row);
    ReplaceKeepsNumbersDistinct(accounts, row);
    forall a | a in r ensures a in accounts || a == row {
      var k :| 0 <= k < |r| && r[k] == a;
    }
    forall l | l in lines ensures FindAccount(r, l.accountId).Some? {
      var b := FindAccount(accounts, l.accountId).value;
      var k :| 0 <= k < |accounts| && accounts[k] == b;
      assert r[k] in r;
    }
  }

  /** An update that names another account's number fails and changes nothing. */
  lemma UpdateToTakenNumberFails(db: Database, id: int, other: AccountRow, patch: AccountPatch)
    requires db.Valid()
    requires other in db.accounts && other.id != id
    requires patch.accountNumber == Some(other.accountNumber)
    ensures PatchFits(patch) <==>
      patch.accountType.Some? ==> ToVarchar(patch.accountType.value, AccountTypeMaxLength).Some?
    ensures FindAccount(db.accounts, id).Some? && PatchSideParses(patch) && PatchFits(patch) ==>
      NumberTakenByOther(db.accounts, id, Patched(FindAccount(db.accounts, id).value, patch).accountNumber)
  {
    assert ToVarchar(other.accountNumber, AccountNumberMaxLength) == Some(other.accountNumber);
  }

  // ------------------------------------------------------------ delete

  /**
   * DELETE FROM account WHERE id = .... A row still named by a ledger line
   * is protected by the foreign key; a statement that matches no row
   * succeeds and deletes nothing.
   */
  method DeleteAccount(db: Database, id: int) returns (r: Result<()>)
    requires db.Valid()
    modifies db
    ensures db.Valid()
    ensures r.Err? <==> FindAccount(old(db.accounts), id).Some? && AccountIsReferenced(old(db.lines), id)
    ensures r.Err? ==> r.error == ForeignKeyViolation && unchanged(db)
    ensures r.Ok? ==>
      && db.accounts == WithoutAccount(old(db.accounts), id)
      && db.journals == old(db.journals) && db.lines == old(db.lines)
      && db.nextAccountId == old(db.nextAccountId)
      && db.nextJournalId == old(db.nextJournalId) && db.nextLineId == old(db.nextLineId)
  {
    if FindAccount(db.accounts, id).Some? && AccountIsReferenced(db.lines, id) {
      return Err(ForeignKeyViolation);
    }
    ghost var before := db.accounts;
    db.accounts := WithoutAccount(db.accounts, id);
    forall l | l in db.lines ensures FindAccount(db.accounts, l.accountId).Some? {
      var b := FindAccount(before, l.accountId).value;
      assert b in db.accounts;
    }
    r := Ok(());
  }

  /** Once an account is deleted, looking it up by its number fails. */
  lemma DeletedAccountIsNotFound(accounts: seq<AccountRow>, a: AccountRow)
    requires AccountNumbersDistinct(accounts)
    requires a in accounts
    ensures FindAccountByNumber(WithoutAccount(accounts, a.id), a.accountNumber).None?
  {
    forall b | b in WithoutAccount(accounts, a.id) ensures b.accountNumber != a.accountNumber {
      var i :| 0 <= i < |accounts| && accounts[i] == a;
      var j :| 0 <= j < |accounts| && accounts[j] == b;
      assert i != j;
    }
  }

  // --------------------------------------------------------- balances

  /** An account together with its derived balance. */
  datatype AccountWithBalance = AccountWithBalance(account: AccountRow, balance: int)

  /**
   * Every account with its balance: the amounts on its normal side minus the
   * amounts on the other side, over every ledger line that names it.
   */
  function GetAllAccountsWithBalance(db: Database): (r: seq<AccountWithBalance>)
    reads db
    ensures |r| == |db.accounts|
    ensures forall k :: 0 <= k < |r| ==>
      && r[k].account == db.accounts[k]
      && r[k].balance == AccountSideTotal(db.lines, db.accounts[k].id, db.accounts[k].normalBalance)
                         - AccountSideTotal(db.lines, db.accounts[k].id, Opposite(db.accounts[k].normalBalance))
  {
    seq(|db.accounts|, k requires 0 <= k < |db.accounts| reads db =>
      AccountWithBalance(db.accounts[k], Balance(db.lines, db.accounts[k].id, db.accounts[k].normalBalance)))
  }

  /** An account no line names has balance zero. */
  lemma UnusedAccountHasZeroBalance(db: Database, k: int)
    requires 0 <= k < |db.accounts|
    requires !AccountIsReferenced(db.lines, db.accounts[k].id)
    ensures GetAllAccountsWithBalance(db)[k].balance == 0
  {
    BalanceOfUnusedAccount(db.lines, db.accounts[k].id, db.accounts[k].normalBalance);
  }

  /** The sum of the listed balances of the accounts whose normal side is `side`. */
  function ListedSideBalances(rows: seq<AccountWithBalance>, side: Side): int {
    if rows == [] then 0
    else (if rows[0].account.normalBalance == side then rows[0].balance else 0) + ListedSideBalances(rows[1..], side)
  }

  lemma {:induction false} ListedMatchesSideBalances(lines: seq<LedgerRow>, accounts: seq<AccountRow>, rows: seq<AccountWithBalance>, side: Side)
    requires |rows| == |accounts|
    requires forall k :: 0 <= k < |rows| ==>
      rows[k].account == accounts[k] && rows[k].balance == Balance(lines, accounts[k].id, accounts[k].normalBalance)
    ensures ListedSideBalances(rows, side) == SideBalances(lines, accounts, side)
  {
    if rows != [] {
      ListedMatchesSideBalances(lines, accounts[1..], rows[1..], side);
    }
  }

  /** In a consistent database the listed debit-normal balances add up to the credit-normal ones. */
  lemma ListedBalancesAreInBalance(db: Database)
    requires db.Valid()
    ensures ListedSideBalances(GetAllAccountsWithBalance(db), Debit) == ListedSideBalances(GetAllAccountsWithBalance(db), Credit)
  {
    var rows := GetAllAccountsWithBalance(db);
    ListedMatchesSideBalances(db.lines, db.accounts, rows, Debit);
    ListedMatchesSideBalances(db.lines, db.accounts, rows, Credit);
    TrialBalance(db.lines, db.accounts);
  }
}
