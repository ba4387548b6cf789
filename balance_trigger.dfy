/**
 * The check_journal_balance constraint trigger as a transaction sees it.
 *
 * A transaction runs statements against ledger_entry one at a time; each row
 * an INSERT or UPDATE touches queues one deferred event carrying
 * NEW.journal_entry_id. At COMMIT every queued event runs
 * ensure_journal_balance over the final table, and one non-zero sum rolls the
 * whole transaction back. Intermediate states are never checked.
 *
 * `QueueAsWritten` is that queue as the migration defines it. It misses the
 * journal a DELETE takes a line from and the journal an UPDATE moves a line
 * out of (OLD.journal_entry_id), so such transactions can commit an
 * unbalanced journal. `Queue` is the queue with those journals added; the
 * rest of the model commits through it, and for the only statements the
 * repositories issue on ledger_entry inside a checked transaction (inserts)
 * the two coincide.
 */
module BalanceTrigger {
  import opened DbResult
  import opened Schema

  datatype LineStatement =
    | InsertLine(row: LedgerRow)          // INSERT INTO ledger_entry VALUES (row)
    | UpdateLine(row: LedgerRow)          // UPDATE ledger_entry SET <columns of row> WHERE id = row.id
    | DeleteLine(id: int)                 // DELETE FROM ledger_entry WHERE id = ...
    | DeleteJournalLines(journalId: int)  // DELETE FROM ledger_entry WHERE journal_entry_id = ...

  predicate InsertsOnly(stmts: seq<LineStatement>) {
    forall k :: 0 <= k < |stmts| ==> stmts[k].InsertLine?
  }

  /** True when the row is one the statement updates or deletes. */
  predicate Matches(s: LineStatement, l: LedgerRow) {
    match s
    case InsertLine(_) => false
    case UpdateLine(row) => l.id == row.id
    case DeleteLine(id) => l.id == id
    case DeleteJournalLines(journalId) => l.journalEntryId == journalId
  }

  function ReplaceLine(lines: seq<LedgerRow>, row: LedgerRow): (r: seq<LedgerRow>)
    ensures |r| == |lines|
    ensures forall k :: 0 <= k < |lines| ==> r[k] == if lines[k].id == row.id then row else lines[k]
  {
    if lines == [] then []
    else [if lines[0].id == row.id then row else lines[0]] + ReplaceLine(lines[1..], row)
  }

  function WithoutLine(lines: seq<LedgerRow>, id: int): (r: seq<LedgerRow>)
    ensures forall l :: l in r <==> l in lines && l.id != id
  {
    if lines == [] then []
    else if lines[0].id == id then WithoutLine(lines[1..], id)
    else [lines[0]] + WithoutLine(lines[1..], id)
  }

  /** The table after one statement. */
  function Apply(lines: seq<LedgerRow>, s: LineStatement): seq<LedgerRow> {
    match s
    case InsertLine(row) => lines + [row]
    case UpdateLine(row) => ReplaceLine(lines, row)
    case DeleteLine(id) => WithoutLine(lines, id)
    case DeleteJournalLines(journalId) => WithoutJournalLines(lines, journalId)
  }

  function Execute(lines: seq<LedgerRow>, stmts: seq<LineStatement>): seq<LedgerRow>
    decreases |stmts|
  {
    if stmts == [] then lines else Execute(Apply(lines, stmts[0]), stmts[1..])
  }

  /** The journals of the rows a statement updates or deletes (their OLD.journal_entry_id). */
  function AffectedJournals(lines: seq<LedgerRow>, s: LineStatement): (r: set<int>)
    ensures forall l :: l in lines && Matches(s, l) ==> l.journalEntryId in r
  {
    set l | l in lines && Matches(s, l) :: l.journalEntryId
  }

  /** AFTER INSERT OR UPDATE ... FOR EACH ROW, reading NEW.journal_entry_id. */
  function FiredAsWritten(lines: seq<LedgerRow>, s: LineStatement): set<int> {
    match s
    case InsertLine(row) => {row.journalEntryId}
    case UpdateLine(row) => if exists l :: l in lines && l.id == row.id then {row.journalEntryId} else {}
    case DeleteLine(_) => {}
    case DeleteJournalLines(_) => {}
  }

  /** Every journal whose sum a statement can change: NEW and OLD journal ids alike. */
  function Fired(lines: seq<LedgerRow>, s: LineStatement): set<int> {
    match s
    case InsertLine(row) => {row.journalEntryId}
    case UpdateLine(row) =>
      (if exists l :: l in lines && l.id == row.id then {row.journalEntryId} else {}) + AffectedJournals(lines, s)
    case DeleteLine(_) => AffectedJournals(lines, s)
    case DeleteJournalLines(_) => AffectedJournals(lines, s)
  }

  function QueueAsWritten(lines: seq<LedgerRow>, stmts: seq<LineStatement>): set<int>
    decreases |stmts|
  {
    if stmts == [] then {} else FiredAsWritten(lines, stmts[0]) + QueueAsWritten(Apply(lines, stmts[0]), stmts[1..])
  }

  function Queue(lines: seq<LedgerRow>, stmts: seq<LineStatement>): set<int>
    decreases |stmts|
  {
    if stmts == [] then {} else Fired(lines, stmts[0]) + Queue(Apply(lines, stmts[0]), stmts[1..])
  }

  /** COMMIT as the migration defines it: the final table, or a rollback. */
  function CommitAsWritten(lines: seq<LedgerRow>, stmts: seq<LineStatement>): Result<seq<LedgerRow>> {
    var final := Execute(lines, stmts);
    if DeferredCheckPasses(final, QueueAsWritten(lines, stmts)) then Ok(final) else Err(Unbalanced)
  }

  /** COMMIT with every journal whose sum changed re-examined. */
  function Commit(lines: seq<LedgerRow>, stmts: seq<LineStatement>): Result<seq<LedgerRow>> {
    var final := Execute(lines, stmts);
    if DeferredCheckPasses(final, Queue(lines, stmts)) then Ok(final) else Err(Unbalanced)
  }

  // ------------------------------------------------------------ proofs

  lemma {:induction false} ReplaceLineKeepsOtherJournals(lines: seq<LedgerRow>, row: LedgerRow, j: int, side: Side)
    requires row.journalEntryId != j || !(exists l :: l in lines && l.id == row.id)
    requires forall l :: l in lines && l.id == row.id ==> l.journalEntryId != j
    ensures JournalSideTotal(ReplaceLine(lines, row), j, side) == JournalSideTotal(lines, j, side)
  {
    if lines != [] {
      assert ReplaceLine(lines, row)[1..] == ReplaceLine(lines[1..], row);
      ReplaceLineKeepsOtherJournals(lines[1..], row, j, side);
    }
  }

  lemma {:induction false} WithoutLineKeepsOtherJournals(lines: seq<LedgerRow>, id: int, j: int, side: Side)
    requires forall l :: l in lines && l.id == id ==> l.journalEntryId != j
    ensures JournalSideTotal(WithoutLine(lines, id), j, side) == JournalSideTotal(lines, j, side)
  {
    if lines != [] {
      WithoutLineKeepsOtherJournals(lines[1..], id, j, side);
    }
  }

  /** A statement leaves the sum of every journal it does not queue unchanged. */
  lemma StatementKeepsUnqueuedJournals(lines: seq<LedgerRow>, s: LineStatement, j: int)
    requires j !in Fired(lines, s)
    ensures Imbalance(Apply(lines, s), j) == Imbalance(lines, j)
  {
    match s
    case InsertLine(row) =>
      ImbalanceAppend(lines, [row], j);
      NoLinesIsBalanced([row], j);
    case UpdateLine(row) =>
      ReplaceLineKeepsOtherJournals(lines, row, j, Debit);
      ReplaceLineKeepsOtherJournals(lines, row, j, Credit);
    case DeleteLine(id) =>
      WithoutLineKeepsOtherJournals(lines, id, j, Debit);
      WithoutLineKeepsOtherJournals(lines, id, j, Credit);
    case DeleteJournalLines(removed) =>
      if removed == j {
        assert forall l :: l in lines ==> l.journalEntryId != j;
        NoLinesIsBalanced(lines, j);
        NoLinesIsBalanced(WithoutJournalLines(lines, removed), j);
      } else {
        JournalSideTotalWithout(lines, removed, j, Debit);
        JournalSideTotalWithout(lines, removed, j, Credit);
      }
  }

  lemma {:induction false} TransactionKeepsUnqueuedJournals(lines: seq<LedgerRow>, stmts: seq<LineStatement>, j: int)
    requires j !in Queue(lines, stmts)
    ensures Imbalance(Execute(lines, stmts), j) == Imbalance(lines, j)
    decreases |stmts|
  {
    if stmts != [] {
      StatementKeepsUnqueuedJournals(lines, stmts[0], j);
      TransactionKeepsUnqueuedJournals(Apply(lines, stmts[0]), stmts[1..], j);
    }
  }

  /**
   * With every changed journal queued, a committed transaction keeps every
   * journal balanced, whatever unbalanced states it passed through.
   */
  lemma CommitPreservesBalance(lines: seq<LedgerRow>, stmts: seq<LineStatement>)
    requires AllBalanced(lines)
    requires Commit(lines, stmts).Ok?
    ensures AllBalanced(Commit(lines, stmts).value)
  {
    var final := Execute(lines, stmts);
    forall j
      ensures Balanced(final, j)
    {
      if j !in Queue(lines, stmts) {
        TransactionKeepsUnqueuedJournals(lines, stmts, j);
        assert Balanced(lines, j);
      }
    }
  }

  /** For transactions that only insert, both queues agree, and so do both commits. */
  lemma {:induction false} InsertsCommitAsWritten(lines: seq<LedgerRow>, stmts: seq<LineStatement>)
    requires InsertsOnly(stmts)
    ensures QueueAsWritten(lines, stmts) == Queue(lines, stmts)
    ensures CommitAsWritten(lines, stmts) == Commit(lines, stmts)
    decreases |stmts|
  {
    if stmts != [] {
      assert stmts[0].InsertLine?;
      assert InsertsOnly(stmts[1..]) by {
        forall k | 0 <= k < |stmts[1..]| ensures stmts[1..][k].InsertLine? {
          assert stmts[1..][k] == stmts[k + 1];
        }
      }
      InsertsCommitAsWritten(Apply(lines, stmts[0]), stmts[1..]);
    }
  }

  /** Removing every line of a journal commits; the journal is left with nothing to balance. */
  lemma RemovingWholeJournalCommits(lines: seq<LedgerRow>, journalId: int)
    ensures Commit(lines, [DeleteJournalLines(journalId)]) == Ok(WithoutJournalLines(lines, journalId))
  {
    var s := DeleteJournalLines(journalId);
    var final := WithoutJournalLines(lines, journalId);
    assert Execute(lines, [s]) == Execute(final, []) == final;
    assert Queue(lines, [s]) == Fired(lines, s) + Queue(final, []);
    forall j | j in AffectedJournals(lines, s)
      ensures Balanced(final, j)
    {
      NoLinesIsBalanced(final, j);
    }
  }

  // ------------------------------------------------------- scenarios

  /** One statement of a transaction, for the concrete scenarios below. */
  lemma Step(lines: seq<LedgerRow>, stmts: seq<LineStatement>)
    requires stmts != []
    ensures Execute(lines, stmts) == Execute(Apply(lines, stmts[0]), stmts[1..])
    ensures Queue(lines, stmts) == Fired(lines, stmts[0]) + Queue(Apply(lines, stmts[0]), stmts[1..])
    ensures QueueAsWritten(lines, stmts) == FiredAsWritten(lines, stmts[0]) + QueueAsWritten(Apply(lines, stmts[0]), stmts[1..])
  {
  }

  /** Sums a concrete journal line by line. */
  lemma Sum2(lines: seq<LedgerRow>, j: int)
    requires |lines| == 2
    ensures Imbalance(lines, j)
            == (if lines[0].journalEntryId == j then SignedAmount(lines[0]) else 0)
             + (if lines[1].journalEntryId == j then SignedAmount(lines[1]) else 0)
  {
    ImbalanceUnfold(lines, j);
    ImbalanceUnfold(lines[1..], j);
    assert lines[1..][1..] == [];
  }

  lemma Sum4(lines: seq<LedgerRow>, j: int)
    requires |lines| == 4
    ensures Imbalance(lines, j)
            == (if lines[0].journalEntryId == j then SignedAmount(lines[0]) else 0)
             + (if lines[1].journalEntryId == j then SignedAmount(lines[1]) else 0)
             + (if lines[2].journalEntryId == j then SignedAmount(lines[2]) else 0)
             + (if lines[3].journalEntryId == j then SignedAmount(lines[3]) else 0)
  {
    ImbalanceUnfold(lines, j);
    ImbalanceUnfold(lines[1..], j);
    Sum2(lines[2..], j);
    assert lines[1..][1..] == lines[2..];
  }

  const Cash: int := 1
  const Bank: int := 2

  /**
   * A debit of 10000 and a credit of 10000 to the same account: the first
   * insert leaves the journal unbalanced; only the final state is checked,
   * so the transaction commits.
   */
  lemma DeferredCheckSeesOnlyFinalState()
    ensures var stmts := [InsertLine(LedgerRow(1, 1, Cash, 10000, Debit)), InsertLine(LedgerRow(2, 1, Cash, 10000, Credit))];
            && Imbalance(Execute([], stmts[..1]), 1) == 10000
            && Commit([], stmts) == Ok(Execute([], stmts))
  {
    var l1, l2 := LedgerRow(1, 1, Cash, 10000, Debit), LedgerRow(2, 1, Cash, 10000, Credit);
    var stmts := [InsertLine(l1), InsertLine(l2)];
    assert stmts[..1] == [InsertLine(l1)];
    Step([], stmts[..1]);
    assert Execute([], stmts[..1]) == [l1];
    ImbalanceUnfold([l1], 1);
    Step([], stmts);
    Step([l1], stmts[1..]);
    assert Execute([], stmts) == [l1, l2];
    assert Queue([], stmts) == {1};
    Sum2([l1, l2], 1);
  }

  /** Debit 5000 against credit 4000 rolls back. */
  lemma UnbalancedInsertsRollBack()
    ensures Commit([], [InsertLine(LedgerRow(1, 1, Cash, 5000, Debit)), InsertLine(LedgerRow(2, 1, Bank, 4000, Credit))]) == Err(Unbalanced)
  {
    var l1, l2 := LedgerRow(1, 1, Cash, 5000, Debit), LedgerRow(2, 1, Bank, 4000, Credit);
    var stmts := [InsertLine(l1), InsertLine(l2)];
    Step([], stmts);
    Step([l1], stmts[1..]);
    assert Execute([], stmts) == [l1, l2];
    assert 1 in Queue([], stmts);
    Sum2([l1, l2], 1);
  }

  /** The check is per journal: a journal the transaction does not touch is not re-examined. */
  lemma OtherJournalsAreNotReexamined()
    ensures var before := [LedgerRow(1, 2, Cash, 700, Debit)];
            var stmts := [InsertLine(LedgerRow(2, 1, Cash, 5000, Debit)), InsertLine(LedgerRow(3, 1, Bank, 5000, Credit))];
            && !Balanced(before, 2)
            && Commit(before, stmts).Ok?
  {
    var l0 := LedgerRow(1, 2, Cash, 700, Debit);
    var l1, l2 := LedgerRow(2, 1, Cash, 5000, Debit), LedgerRow(3, 1, Bank, 5000, Credit);
    var stmts := [InsertLine(l1), InsertLine(l2)];
    ImbalanceUnfold([l0], 2);
    Step([l0], stmts);
    Step([l0, l1], stmts[1..]);
    assert Execute([l0], stmts) == [l0, l1, l2];
    assert Queue([l0], stmts) == {1};
    ImbalanceUnfold([l0, l1, l2], 1);
    Sum2([l0, l1, l2][1..], 1);
  }

  /**
   * The trigger does not fire on DELETE: removing one line of a balanced
   * journal commits as written and leaves the journal unbalanced, while the
   * corrected queue rolls the same transaction back.
   */
  lemma DeletingOneLineEscapesCheck()
    ensures var before := [LedgerRow(1, 1, Cash, 5000, Debit), LedgerRow(2, 1, Bank, 5000, Credit)];
            && AllBalanced(before)
            && CommitAsWritten(before, [DeleteLine(2)]) == Ok([LedgerRow(1, 1, Cash, 5000, Debit)])
            && !AllBalanced(CommitAsWritten(before, [DeleteLine(2)]).value)
            && Commit(before, [DeleteLine(2)]) == Err(Unbalanced)
  {
    var l1, l2 := LedgerRow(1, 1, Cash, 5000, Debit), LedgerRow(2, 1, Bank, 5000, Credit);
    var before := [l1, l2];
    forall j ensures Balanced(before, j) {
      Sum2(before, j);
    }
    assert before[1..] == [l2];
    assert WithoutLine([l2], 2) == [];
    assert WithoutLine(before, 2) == [l1];
    Step(before, [DeleteLine(2)]);
    assert Execute(before, [DeleteLine(2)]) == [l1];
    assert QueueAsWritten(before, [DeleteLine(2)]) == {};
    ImbalanceUnfold([l1], 1);
    assert !Balanced([l1], 1);
    assert l2 in before && Matches(DeleteLine(2), l2);
    assert 1 in Queue(before, [DeleteLine(2)]);
  }

  // Two balanced journals; the transaction moves line 2 from journal 1 to
  // journal 2 and zeroes line 4 so that journal 2 still balances.
  const Moved: seq<LedgerRow> := [LedgerRow(1, 1, Cash, 5000, Debit), LedgerRow(2, 1, Bank, 5000, Credit),
                                  LedgerRow(3, 2, Cash, 5000, Debit), LedgerRow(4, 2, Bank, 5000, Credit)]
  const MoveStatements: seq<LineStatement> := [UpdateLine(LedgerRow(2, 2, Bank, 5000, Credit)), UpdateLine(LedgerRow(4, 2, Bank, 0, Credit))]
  const AfterMove: seq<LedgerRow> := [LedgerRow(1, 1, Cash, 5000, Debit), LedgerRow(2, 2, Bank, 5000, Credit),
                                      LedgerRow(3, 2, Cash, 5000, Debit), LedgerRow(4, 2, Bank, 0, Credit)]

  lemma MoveStartsBalanced()
    ensures AllBalanced(Moved)
  {
    forall j ensures Balanced(Moved, j) {
      Sum4(Moved, j);
    }
  }

  lemma MoveExecutes()
    ensures Execute(Moved, MoveStatements) == AfterMove
    ensures QueueAsWritten(Moved, MoveStatements) == {2}
    ensures 1 in Queue(Moved, MoveStatements)
  {
    var mid := [Moved[0], MoveStatements[0].row, Moved[2], Moved[3]];
    assert ReplaceLine(Moved, MoveStatements[0].row) == mid;
    assert ReplaceLine(mid, MoveStatements[1].row) == AfterMove;
    Step(Moved, MoveStatements);
    Step(mid, MoveStatements[1..]);
    assert Moved[1] in Moved && mid[3] in mid;
    assert Matches(MoveStatements[0], Moved[1]);
  }

  /**
   * An UPDATE that moves a line to another journal queues only the journal
   * it moves to, so the journal it left is never re-examined.
   */
  lemma MovingLineEscapesCheck()
    ensures AllBalanced(Moved)
    ensures CommitAsWritten(Moved, MoveStatements) == Ok(AfterMove)
    ensures Imbalance(AfterMove, 1) == 5000
    ensures Commit(Moved, MoveStatements) == Err(Unbalanced)
  {
    MoveStartsBalanced();
    MoveExecutes();
    Sum4(AfterMove, 1);
    Sum4(AfterMove, 2);
  }
}
