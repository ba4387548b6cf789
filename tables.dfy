/**
 * The three accounting tables as one in-memory database. Each table is a
 * sequence in insertion order and each serial column a counter; the class
 * invariant collects every constraint the schema enforces on committed data,
 * including the one the balance trigger is there to keep: every journal
 * balances.
 */
module Tables {
  import opened Schema

  /** Primary keys, the unique account_number, column widths, both foreign keys, and balance. */
  ghost predicate Consistent(accounts: seq<AccountRow>, journals: seq<JournalRow>, lines: seq<LedgerRow>,
                             nextAccountId: int, nextJournalId: int, nextLineId: int)
  {
    && 1 <= nextAccountId && 1 <= nextJournalId && 1 <= nextLineId
    && AccountIdsIncreasing(accounts)
    && (forall a :: a in accounts ==> 0 < a.id < nextAccountId && AccountColumnsFit(a))
    && AccountNumbersDistinct(accounts)
    && JournalIdsIncreasing(journals)
    && (forall j :: j in journals ==> 0 < j.id < nextJournalId)
    && LineIdsIncreasing(lines)
    && (forall l :: l in lines ==> 0 < l.id < nextLineId && IsInt4(l.amount))
    && (forall l :: l in lines ==> FindJournal(journals, l.journalEntryId).Some?)
    && (forall l :: l in lines ==> FindAccount(accounts, l.accountId).Some?)
    && AllBalanced(lines)
  }

  class Database {
    var accounts: seq<AccountRow>
    var journals: seq<JournalRow>
    var lines: seq<LedgerRow>
    /** The next value of each serial sequence. */
    var nextAccountId: int
    var nextJournalId: int
    var nextLineId: int

    ghost predicate Valid()
      reads this
    {
      Consistent(accounts, journals, lines, nextAccountId, nextJournalId, nextLineId)
    }

    /** A freshly migrated database: empty tables, sequences starting at 1. */
    constructor()
      ensures Valid()
      ensures accounts == [] && journals == [] && lines == []
      ensures nextAccountId == 1 && nextJournalId == 1 && nextLineId == 1
    {
      accounts, journals, lines := [], [], [];
      nextAccountId, nextJournalId, nextLineId := 1, 1, 1;
      new;
      forall j ensures Balanced(lines, j) {
        NoLinesIsBalanced(lines, j);
      }
    }
  }
}
