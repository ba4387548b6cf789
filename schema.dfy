/**
 * The accounting schema: the rows of the account, journal_entry and
 * ledger_entry tables, their column constraints, and the sum that the
 * ensure_journal_balance trigger function compares with zero.
 */
module Schema {
  import opened DbResult

  /** The debit_credit enum type. */
  datatype Side = Debit | Credit

  function Opposite(s: Side): (r: Side)
    ensures r != s
  {
    if s == Debit then Credit else Debit
  }

  /** PostgreSQL reading a text value as a label of debit_credit. */
  function ParseSide(text: string): (r: Option<Side>)
    ensures r.Some? <==> text == "debit" || text == "credit"
  {
    if text == "debit" then Some(Debit)
    else if text == "credit" then Some(Credit)
    else None
  }

  /** The range of an `integer` (int4) column. */
  const MinInt4: int := -0x8000_0000
  const MaxInt4: int := 0x7fff_ffff

  predicate IsInt4(x: int) {
    MinInt4 <= x <= MaxInt4
  }

  /** account.account_number is varchar(10), account.type is varchar(50). */
  const AccountNumberMaxLength: nat := 10
  const AccountTypeMaxLength: nat := 50

  /** Dates are opaque ordered values (a day number). */
  datatype AccountRow = AccountRow(id: int, accountNumber: string, name: string, accountType: string, normalBalance: Side)
  datatype JournalRow = JournalRow(id: int, description: string, date: int)
  datatype LedgerRow = LedgerRow(id: int, journalEntryId: int, accountId: int, amount: int, side: Side)

  /**
   * The values an INSERT INTO account is given; `None` is a column the
   * statement leaves out, and normal_balance arrives as text.
   */
  datatype NewAccount = NewAccount(accountNumber: Option<string>, name: Option<string>,
                                   accountType: Option<string>, normalBalance: Option<string>)

  /**
   * A text value assigned to a varchar(n) column: a value of at most n
   * characters is stored as it is; a longer one is cut to n characters when
   * every character past the limit is a space, and refused otherwise.
   */
  function ToVarchar(s: string, n: nat): (r: Option<string>)
    ensures r.Some? <==> |s| <= n || forall k :: n <= k < |s| ==> s[k] == ' '
    ensures r.Some? ==> |r.value| <= n
    ensures r.Some? && |s| <= n ==> r.value == s
    ensures r.Some? && |s| > n ==> r.value == s[..n]
  {
    if |s| <= n then Some(s)
    else if forall k :: n <= k < |s| ==> s[k] == ' ' then Some(s[..n])
    else None
  }

  predicate AccountColumnsFit(a: AccountRow) {
    |a.accountNumber| <= AccountNumberMaxLength && |a.accountType| <= AccountTypeMaxLength
  }

  /**
   * The row an INSERT INTO account with serial value `id` produces, or the
   * error PostgreSQL raises before the unique index is consulted: the enum
   * label is read first, then the values are assigned to their varchar
   * columns, then NOT NULL is checked.
   */
  function InsertAccountRow(id: int, input: NewAccount): (r: Result<AccountRow>)
    ensures r.Ok? <==>
      && input.accountNumber.Some? && input.name.Some? && input.accountType.Some? && input.normalBalance.Some?
      && ParseSide(input.normalBalance.value).Some?
      && ToVarchar(input.accountNumber.value, AccountNumberMaxLength).Some?
      && ToVarchar(input.accountType.value, AccountTypeMaxLength).Some?
    ensures r.Ok? ==>
      && r.value.id == id
      && Some(r.value.accountNumber) == ToVarchar(input.accountNumber.value, AccountNumberMaxLength)
      && Some(r.value.name) == input.name
      && Some(r.value.accountType) == ToVarchar(input.accountType.value, AccountTypeMaxLength)
      && ParseSide(input.normalBalance.value) == Some(r.value.normalBalance)
      && AccountColumnsFit(r.value)
    ensures r.Err? ==>
      (r.error == InvalidEnumValue <==> input.normalBalance.Some? && ParseSide(input.normalBalance.value).None?)
    ensures r.Err? ==>
      (r.error == StringTooLong <==>
        && (input.normalBalance.Some? ==> ParseSide(input.normalBalance.value).Some?)
        && ((input.accountNumber.Some? && ToVarchar(input.accountNumber.value, AccountNumberMaxLength).None?)
            || (input.accountType.Some? && ToVarchar(input.accountType.value, AccountTypeMaxLength).None?)))
    ensures r.Err? ==> r.error in {InvalidEnumValue, StringTooLong, NotNullViolation}
  {
    if input.normalBalance.Some? && ParseSide(input.normalBalance.value).None? then
      Err(InvalidEnumValue)
    else if (input.accountNumber.Some? && ToVarchar(input.accountNumber.value, AccountNumberMaxLength).None?)
         || (input.accountType.Some? && ToVarchar(input.accountType.value, AccountTypeMaxLength).None?) then
      Err(StringTooLong)
    else if input.accountNumber.None? || input.name.None? || input.accountType.None? || input.normalBalance.None? then
      Err(NotNullViolation)
    else
      Ok(AccountRow(id, ToVarchar(input.accountNumber.value, AccountNumberMaxLength).value, input.name.value,
                    ToVarchar(input.accountType.value, AccountTypeMaxLength).value,
                    ParseSide(input.normalBalance.value).value))
  }

  /** Trailing spaces past the limit are cut off; any other excess character is refused. */
  lemma VarcharTruncatesOnlySpaces()
    ensures ToVarchar("1234567890 ", AccountNumberMaxLength) == Some("1234567890")
    ensures ToVarchar("1234567890X", AccountNumberMaxLength).None?
    ensures ToVarchar("1000 ", AccountNumberMaxLength) == Some("1000 ")
  {
    assert "1234567890X"[10] == 'X';
    assert "1234567890 "[..10] == "1234567890";
  }

  // ---------------------------------------------------------------- lookups

  function FindAccount(accounts: seq<AccountRow>, id: int): (r: Option<AccountRow>)
    ensures r.Some? ==> r.value in accounts && r.value.id == id
    ensures r.None? <==> forall a :: a in accounts ==> a.id != id
  {
    if accounts == [] then None
    else if accounts[0].id == id then Some(accounts[0])
    else FindAccount(accounts[1..], id)
  }

  function FindAccountByNumber(accounts: seq<AccountRow>, accountNumber: string): (r: Option<AccountRow>)
    ensures r.Some? ==> r.value in accounts && r.value.accountNumber == accountNumber
    ensures r.None? <==> forall a :: a in accounts ==> a.accountNumber != accountNumber
  {
    if accounts == [] then None
    else if accounts[0].accountNumber == accountNumber then Some(accounts[0])
    else FindAccountByNumber(accounts[1..], accountNumber)
  }

  function FindJournal(journals: seq<JournalRow>, id: int): (r: Option<JournalRow>)
    ensures r.Some? ==> r.value in journals && r.value.id == id
    ensures r.None? <==> forall j :: j in journals ==> j.id != id
  {
    if journals == [] then None
    else if journals[0].id == id then Some(journals[0])
    else FindJournal(journals[1..], id)
  }

  /** True when some ledger line names the account (the ON DELETE NO ACTION key). */
  predicate AccountIsReferenced(lines: seq<LedgerRow>, accountId: int) {
    exists l :: l in lines && l.accountId == accountId
  }

  // ------------------------------------------------------ primary keys

  /** Serial ids grow in insertion order, so each table's ids are strictly increasing. */
  ghost predicate AccountIdsIncreasing(s: seq<AccountRow>) {
    forall i, j :: 0 <= i < j < |s| ==> s[i].id < s[j].id
  }

  ghost predicate AccountNumbersDistinct(s: seq<AccountRow>) {
    forall i, j :: 0 <= i < j < |s| ==> s[i].accountNumber != s[j].accountNumber
  }

  ghost predicate JournalIdsIncreasing(s: seq<JournalRow>) {
    forall i, j :: 0 <= i < j < |s| ==> s[i].id < s[j].id
  }

  ghost predicate LineIdsIncreasing(s: seq<LedgerRow>) {
    forall i, j :: 0 <= i < j < |s| ==> s[i].id < s[j].id
  }

  /** With increasing ids, a lookup by id finds the one row that has it. */
  lemma FindAccountIsUnique(accounts: seq<AccountRow>, a: AccountRow)
    requires AccountIdsIncreasing(accounts)
    requires a in accounts
    ensures FindAccount(accounts, a.id) == Some(a)
  {
    var i :| 0 <= i < |accounts| && accounts[i] == a;
    var b := FindAccount(accounts, a.id).value;
    var k :| 0 <= k < |accounts| && accounts[k] == b;
    assert i == k;
  }

  lemma FindAccountByNumberIsUnique(accounts: seq<AccountRow>, a: AccountRow)
    requires AccountNumbersDistinct(accounts)
    requires a in accounts
    ensures FindAccountByNumber(accounts, a.accountNumber) == Some(a)
  {
    var i :| 0 <= i < |accounts| && accounts[i] == a;
    var b := FindAccountByNumber(accounts, a.accountNumber).value;
    var k :| 0 <= k < |accounts| && accounts[k] == b;
    assert i == k;
  }

  lemma FindJournalIsUnique(journals: seq<JournalRow>, j: JournalRow)
    requires JournalIdsIncreasing(journals)
    requires j in journals
    ensures FindJournal(journals, j.id) == Some(j)
  {
    var i :| 0 <= i < |journals| && journals[i] == j;
    var b := FindJournal(journals, j.id).value;
    var k :| 0 <= k < |journals| && journals[k] == b;
    assert i == k;
  }

  // ---------------------------------------------------------- deletions

  /** DELETE FROM account WHERE id = ... */
  function WithoutAccount(accounts: seq<AccountRow>, id: int): (r: seq<AccountRow>)
    ensures forall a :: a in r <==> a in accounts && a.id != id
    ensures AccountIdsIncreasing(accounts) ==> AccountIdsIncreasing(r)
    ensures AccountNumbersDistinct(accounts) ==> AccountNumbersDistinct(r)
  {
    if accounts == [] then []
    else
      var rest := WithoutAccount(accounts[1..], id);
      if accounts[0].id == id then rest
      else
        assert forall k :: 0 <= k < |rest| ==> rest[k] in accounts[1..];
        [accounts[0]] + rest
  }

  /** DELETE FROM journal_entry WHERE id = ... */
  function WithoutJournal(journals: seq<JournalRow>, id: int): (r: seq<JournalRow>)
    ensures forall j :: j in r <==> j in journals && j.id != id
    ensures JournalIdsIncreasing(journals) ==> JournalIdsIncreasing(r)
  {
    if journals == [] then []
    else
      var rest := WithoutJournal(journals[1..], id);
      if journals[0].id == id then rest
      else
        assert forall k :: 0 <= k < |rest| ==> rest[k] in journals[1..];
        [journals[0]] + rest
  }

  /** DELETE FROM ledger_entry WHERE journal_entry_id = ... (also what ON DELETE CASCADE removes). */
  function WithoutJournalLines(lines: seq<LedgerRow>, journalId: int): (r: seq<LedgerRow>)
    ensures forall l :: l in r <==> l in lines && l.journalEntryId != journalId
    ensures |r| <= |lines|
    ensures LineIdsIncreasing(lines) ==> LineIdsIncreasing(r)
  {
    if lines == [] then []
    else
      var rest := WithoutJournalLines(lines[1..], journalId);
      if lines[0].journalEntryId == journalId then rest
      else
        assert forall k :: 0 <= k < |rest| ==> rest[k] in lines[1..];
        [lines[0]] + rest
  }

  /** SELECT * FROM ledger_entry WHERE journal_entry_id = ..., in table order. */
  function LinesOfJournal(lines: seq<LedgerRow>, journalId: int): (r: seq<LedgerRow>)
    ensures forall l :: l in r <==> l in lines && l.journalEntryId == journalId
  {
    if lines == [] then []
    else if lines[0].journalEntryId == journalId then [lines[0]] + LinesOfJournal(lines[1..], journalId)
    else LinesOfJournal(lines[1..], journalId)
  }

  lemma {:induction false} LinesOfJournalAppend(xs: seq<LedgerRow>, ys: seq<LedgerRow>, journalId: int)
    ensures LinesOfJournal(xs + ys, journalId) == LinesOfJournal(xs, journalId) + LinesOfJournal(ys, journalId)
  {
    if xs == [] {
      assert xs + ys == ys;
    } else {
      assert (xs + ys)[1..] == xs[1..] + ys;
      LinesOfJournalAppend(xs[1..], ys, journalId);
    }
  }

  /** Removing one journal's lines leaves every other journal's lines as they were, in order. */
  lemma {:induction false} DeleteKeepsOtherJournals(lines: seq<LedgerRow>, removed: int, kept: int)
    requires removed != kept
    ensures LinesOfJournal(WithoutJournalLines(lines, removed), kept) == LinesOfJournal(lines, kept)
  {
    if lines != [] {
      DeleteKeepsOtherJournals(lines[1..], removed, kept);
    }
  }

  /** The cascade that follows an explicit delete of a journal's lines finds nothing left to remove. */
  lemma {:induction false} CascadeAfterDeleteRemovesNothing(lines: seq<LedgerRow>, journalId: int)
    ensures WithoutJournalLines(WithoutJournalLines(lines, journalId), journalId) == WithoutJournalLines(lines, journalId)
  {
    if lines != [] {
      CascadeAfterDeleteRemovesNothing(lines[1..], journalId);
    }
  }

  // ------------------------------------------------ ensure_journal_balance

  /** SUM(CASE WHEN side = s THEN amount ELSE 0 END) over the lines of one journal. */
  function JournalSideTotal(lines: seq<LedgerRow>, journalId: int, side: Side): int {
    if lines == [] then 0
    else (if lines[0].journalEntryId == journalId && lines[0].side == side then lines[0].amount else 0)
         + JournalSideTotal(lines[1..], journalId, side)
  }

  /** The value ensure_journal_balance compares with zero: debits minus credits of one journal. */
  function Imbalance(lines: seq<LedgerRow>, journalId: int): int {
    JournalSideTotal(lines, journalId, Debit) - JournalSideTotal(lines, journalId, Credit)
  }

  predicate Balanced(lines: seq<LedgerRow>, journalId: int) {
    Imbalance(lines, journalId) == 0
  }

  /** Every journal balances; a journal with no lines has nothing to balance. */
  ghost predicate AllBalanced(lines: seq<LedgerRow>) {
    forall j :: Balanced(lines, j)
  }

  /**
   * What the deferred constraint trigger checks at commit: each journal id
   * queued by a row event of the transaction balances in the final state.
   */
  predicate DeferredCheckPasses(lines: seq<LedgerRow>, touched: set<int>) {
    forall j :: j in touched ==> Balanced(lines, j)
  }

  lemma {:induction false} JournalSideTotalAppend(xs: seq<LedgerRow>, ys: seq<LedgerRow>, journalId: int, side: Side)
    ensures JournalSideTotal(xs + ys, journalId, side) == JournalSideTotal(xs, journalId, side) + JournalSideTotal(ys, journalId, side)
  {
    if xs == [] {
      assert xs + ys == ys;
    } else {
      assert (xs + ys)[1..] == xs[1..] + ys;
      JournalSideTotalAppend(xs[1..], ys, journalId, side);
    }
  }

  /** The trigger's sum is additive over the rows of the table. */
  lemma ImbalanceAppend(xs: seq<LedgerRow>, ys: seq<LedgerRow>, journalId: int)
    ensures Imbalance(xs + ys, journalId) == Imbalance(xs, journalId) + Imbalance(ys, journalId)
  {
    JournalSideTotalAppend(xs, ys, journalId, Debit);
    JournalSideTotalAppend(xs, ys, journalId, Credit);
  }

  lemma {:induction false} JournalSideTotalOfOtherJournals(lines: seq<LedgerRow>, journalId: int, side: Side)
    requires forall l :: l in lines ==> l.journalEntryId != journalId
    ensures JournalSideTotal(lines, journalId, side) == 0
  {
    if lines != [] {
      JournalSideTotalOfOtherJournals(lines[1..], journalId, side);
    }
  }

  /** A journal without lines balances (the SQL sum is NULL there, which the trigger lets pass). */
  lemma NoLinesIsBalanced(lines: seq<LedgerRow>, journalId: int)
    requires forall l :: l in lines ==> l.journalEntryId != journalId
    ensures Balanced(lines, journalId)
  {
    JournalSideTotalOfOtherJournals(lines, journalId, Debit);
    JournalSideTotalOfOtherJournals(lines, journalId, Credit);
  }

  /**
   * The trigger re-examines only the journals whose lines a transaction
   * inserted; when lines are only appended, that keeps every journal balanced.
   */
  lemma PerJournalCheckSuffices(before: seq<LedgerRow>, added: seq<LedgerRow>, touched: set<int>)
    requires AllBalanced(before)
    requires forall l :: l in added ==> l.journalEntryId in touched
    requires DeferredCheckPasses(before + added, touched)
    ensures AllBalanced(before + added)
  {
    forall j
      ensures Balanced(before + added, j)
    {
      if j !in touched {
        ImbalanceAppend(before, added, j);
        assert Balanced(before, j);
        NoLinesIsBalanced(added, j);
      }
    }
  }

  lemma {:induction false} JournalSideTotalWithout(lines: seq<LedgerRow>, removed: int, kept: int, side: Side)
    requires removed != kept
    ensures JournalSideTotal(WithoutJournalLines(lines, removed), kept, side) == JournalSideTotal(lines, kept, side)
  {
    if lines != [] {
      JournalSideTotalWithout(lines[1..], removed, kept, side);
    }
  }

  /** Deleting all lines of one journal keeps every journal balanced; the trigger need not fire. */
  lemma RemovingJournalKeepsBalance(lines: seq<LedgerRow>, journalId: int)
    requires AllBalanced(lines)
    ensures AllBalanced(WithoutJournalLines(lines, journalId))
  {
    var rest := WithoutJournalLines(lines, journalId);
    forall k
      ensures Balanced(rest, k)
    {
      if k == journalId {
        NoLinesIsBalanced(rest, k);
      } else {
        JournalSideTotalWithout(lines, journalId, k, Debit);
        JournalSideTotalWithout(lines, journalId, k, Credit);
        assert Balanced(lines, k);
      }
    }
  }

  // ------------------------------------------------------- ledger-wide net

  function SignedAmount(l: LedgerRow): int {
    if l.side == Debit then l.amount else -l.amount
  }

  /** One step of the sum: the first line's signed amount, if it belongs to the journal, plus the rest. */
  lemma ImbalanceUnfold(lines: seq<LedgerRow>, journalId: int)
    requires lines != []
    ensures Imbalance(lines, journalId)
            == (if lines[0].journalEntryId == journalId then SignedAmount(lines[0]) else 0) + Imbalance(lines[1..], journalId)
  {
  }

  /** Debits minus credits over the whole ledger_entry table. */
  function Net(lines: seq<LedgerRow>): int {
    if lines == [] then 0 else SignedAmount(lines[0]) + Net(lines[1..])
  }

  lemma {:induction false} NetSplitsByJournal(lines: seq<LedgerRow>, journalId: int)
    ensures Net(lines) == Imbalance(lines, journalId) + Net(WithoutJournalLines(lines, journalId))
  {
    if lines != [] {
      NetSplitsByJournal(lines[1..], journalId);
    }
  }

  /** When every journal balances, the ledger as a whole has equal debits and credits. */
  lemma {:induction false} BalancedLedgerNetsToZero(lines: seq<LedgerRow>)
    requires AllBalanced(lines)
    ensures Net(lines) == 0
    decreases |lines|
  {
    if lines != [] {
      var j := lines[0].journalEntryId;
      var rest := WithoutJournalLines(lines, j);
      assert rest == WithoutJournalLines(lines[1..], j);
      NetSplitsByJournal(lines, j);
      assert Balanced(lines, j);
      RemovingJournalKeepsBalance(lines, j);
      BalancedLedgerNetsToZero(rest);
    }
  }
}
