/**
 * The ledger repository: creating a journal with its lines in one
 * transaction, deleting a journal, and the queries that read journals
 * back, alone or regrouped with their lines.
 */
module LedgerRepo {
  import opened DbResult
  import opened Schema
  import opened Tables
  import opened LedgerModel
  import opened JournalGrouping
  import BalanceTrigger

  // --------------------------------------------------- createJournalEntry

  /**
   * The error INSERT INTO ledger_entry raises for one line, if any: a value
   * outside the integer columns' range is refused when bound, and then an
   * account_id naming no account breaks the foreign key.
   */
  function LineInsertError(accounts: seq<AccountRow>, e: NewLedgerEntry): (r: Option<DbError>)
    ensures r.None? <==> IsInt4(e.accountId) && IsInt4(e.amount) && FindAccount(accounts, e.accountId).Some?
    ensures r.Some? ==> r.value in {OutOfRange, ForeignKeyViolation}
  {
    if !IsInt4(e.accountId) || !IsInt4(e.amount) then Some(OutOfRange)
    else if FindAccount(accounts, e.accountId).None? then Some(ForeignKeyViolation)
    else None
  }

  /** The error of the first line that fails to insert; the statements after it never run. */
  function FirstLineError(accounts: seq<AccountRow>, es: seq<NewLedgerEntry>): (r: Option<DbError>)
    ensures r.None? <==> forall k :: 0 <= k < |es| ==> LineInsertError(accounts, es[k]).None?
  {
    if es == [] then None
    else if LineInsertError(accounts, es[0]).Some? then LineInsertError(accounts, es[0])
    else FirstLineError(accounts, es[1..])
  }

  lemma {:induction false} FirstLineErrorAt(accounts: seq<AccountRow>, es: seq<NewLedgerEntry>, i: int)
    requires 0 <= i < |es|
    requires forall k :: 0 <= k < i ==> LineInsertError(accounts, es[k]).None?
    requires LineInsertError(accounts, es[i]).Some?
    ensures FirstLineError(accounts, es) == LineInsertError(accounts, es[i])
  {
    if i > 0 {
      FirstLineErrorAt(accounts, es[1..], i - 1);
    }
  }

  /** The rows the lines become: consecutive serial ids, all in the new journal. */
  function Attach(es: seq<NewLedgerEntry>, journalId: int, firstId: int): (r: seq<LedgerRow>)
    ensures |r| == |es|
    ensures forall k :: 0 <= k < |es| ==> r[k] == LedgerRow(firstId + k, journalId, es[k].accountId, es[k].amount, es[k].side)
  {
    seq(|es|, k requires 0 <= k < |es| => LedgerRow(firstId + k, journalId, es[k].accountId, es[k].amount, es[k].side))
  }

  /** The sum the trigger computes for the new journal is the payload's own debits minus credits. */
  lemma {:induction false} AttachImbalance(es: seq<NewLedgerEntry>, journalId: int, firstId: int)
    ensures Imbalance(Attach(es, journalId, firstId), journalId) == EntriesImbalance(es)
  {
    if es != [] {
      var a := Attach(es, journalId, firstId);
      ImbalanceUnfold(a, journalId);
      assert a[1..] == Attach(es[1..], journalId, firstId + 1);
      AttachImbalance(es[1..], journalId, firstId + 1);
    }
  }

  /** No committed line belongs to a journal id the sequence has not handed out yet. */
  lemma NoLinesOfFreshJournal(db: Database)
    requires db.Valid()
    ensures forall l :: l in db.lines ==> l.journalEntryId != db.nextJournalId
  {
    forall l | l in db.lines ensures l.journalEntryId != db.nextJournalId {
      assert FindJournal(db.journals, l.journalEntryId).value in db.journals;
    }
  }

  /**
   * INSERT INTO journal_entry, then one INSERT INTO ledger_entry per line,
   * in one transaction; at COMMIT the deferred trigger checks the new
   * journal. Any failure rolls the whole transaction back.
   */
  method CreateJournalEntry(db: Database, payload: CreateJournalWithEntries) returns (r: Result<JournalRow>)
    requires db.Valid()
    modifies db
    ensures db.Valid()
    ensures r.Ok? <==>
      FirstLineError(old(db.accounts), payload.ledgerEntries).None? && EntriesImbalance(payload.ledgerEntries) == 0
    ensures r.Err? ==> unchanged(db)
    ensures r.Err? ==> r.error == if FirstLineError(old(db.accounts), payload.ledgerEntries).Some?
                                 then FirstLineError(old(db.accounts), payload.ledgerEntries).value
                                 else Unbalanced
    ensures r.Ok? ==>
      && r.value == JournalRow(old(db.nextJournalId), payload.journal.description, payload.journal.date)
      && db.journals == old(db.journals) + [r.value]
      && db.lines == old(db.lines) + Attach(payload.ledgerEntries, r.value.id, old(db.nextLineId))
      && db.accounts == old(db.accounts) && db.nextAccountId == old(db.nextAccountId)
      && db.nextJournalId == old(db.nextJournalId) + 1
      && db.nextLineId == old(db.nextLineId) + |payload.ledgerEntries|
  {
    var es := payload.ledgerEntries;
    var journal := JournalRow(db.nextJournalId, payload.journal.description, payload.journal.date);
    var lines := db.lines;
    var nextLineId := db.nextLineId;
    var touched: set<int> := {};
    for i := 0 to |es|
      invariant lines == db.lines + Attach(es[..i], journal.id, db.nextLineId)
      invariant nextLineId == db.nextLineId + i
      invariant touched == if i == 0 then {} else {journal.id}
      invariant forall k :: 0 <= k < i ==> LineInsertError(db.accounts, es[k]).None?
    {
      var e := es[i];
      var err := LineInsertError(db.accounts, e);
      if err.Some? {
        FirstLineErrorAt(db.accounts, es, i);
        return Err(err.value);
      }
      assert Attach(es[..i + 1], journal.id, db.nextLineId)
          == Attach(es[..i], journal.id, db.nextLineId) + [LedgerRow(nextLineId, journal.id, e.accountId, e.amount, e.side)];
      lines := lines + [LedgerRow(nextLineId, journal.id, e.accountId, e.amount, e.side)];
      nextLineId := nextLineId + 1;
      touched := touched + {journal.id};
    }
    assert es[..|es|] == es;
    CommitDecision(db.accounts, db.journals, db.lines, db.nextAccountId, db.nextJournalId, db.nextLineId, es, journal, touched);
    if !DeferredCheckPasses(lines, touched) {
      return Err(Unbalanced);
    }
    db.journals := db.journals + [journal];
    db.lines := lines;
    db.nextJournalId := db.nextJournalId + 1;
    db.nextLineId := nextLineId;
    r := Ok(journal);
  }

  /**
   * What COMMIT decides for the new journal: the trigger's check passes
   * exactly when the payload's lines balance, and the committed tables are
   * then consistent again.
   */
  lemma CommitDecision(accounts: seq<AccountRow>, journals: seq<JournalRow>, lines: seq<LedgerRow>,
                       nextAccountId: int, nextJournalId: int, nextLineId: int,
                       es: seq<NewLedgerEntry>, journal: JournalRow, touched: set<int>)
    requires Consistent(accounts, journals, lines, nextAccountId, nextJournalId, nextLineId)
    requires journal.id == nextJournalId
    requires touched == if |es| == 0 then {} else {journal.id}
    requires forall k :: 0 <= k < |es| ==> LineInsertError(accounts, es[k]).None?
    ensures var added := Attach(es, journal.id, nextLineId);
            && (DeferredCheckPasses(lines + added, touched) <==> EntriesImbalance(es) == 0)
            && (DeferredCheckPasses(lines + added, touched) ==>
                  Consistent(accounts, journals + [journal], lines + added, nextAccountId, nextJournalId + 1, nextLineId + |es|))
  {
    forall l | l in lines ensures l.journalEntryId != journal.id {
      assert FindJournal(journals, l.journalEntryId).value in journals;
    }
    NewJournalCheck(lines, es, journal.id, nextLineId, touched);
    if DeferredCheckPasses(lines + Attach(es, journal.id, nextLineId), touched) {
      CreateKeepsConsistent(accounts, journals, lines, nextAccountId, nextJournalId, nextLineId, es, journal, touched);
    }
  }

  /** The check queued for a journal that had no lines before passes exactly when its new lines balance. */
  lemma NewJournalCheck(lines: seq<LedgerRow>, es: seq<NewLedgerEntry>, journalId: int, firstId: int, touched: set<int>)
    requires forall l :: l in lines ==> l.journalEntryId != journalId
    requires touched == if |es| == 0 then {} else {journalId}
    ensures DeferredCheckPasses(lines + Attach(es, journalId, firstId), touched) <==> EntriesImbalance(es) == 0
  {
    var added := Attach(es, journalId, firstId);
    ImbalanceAppend(lines, added, journalId);
    NoLinesIsBalanced(lines, journalId);
    AttachImbalance(es, journalId, firstId);
    if |es| > 0 {
      assert DeferredCheckPasses(lines + added, touched) <==> Balanced(lines + added, journalId);
    }
  }

  lemma CreateKeepsConsistent(accounts: seq<AccountRow>, journals: seq<JournalRow>, lines: seq<LedgerRow>,
                              nextAccountId: int, nextJournalId: int, nextLineId: int,
                              es: seq<NewLedgerEntry>, journal: JournalRow, touched: set<int>)
    requires Consistent(accounts, journals, lines, nextAccountId, nextJournalId, nextLineId)
    requires journal.id == nextJournalId
    requires touched == if |es| == 0 then {} else {journal.id}
    requires forall k :: 0 <= k < |es| ==> LineInsertError(accounts, es[k]).None?
    requires DeferredCheckPasses(lines + Attach(es, journal.id, nextLineId), touched)
    ensures Consistent(accounts, journals + [journal], lines + Attach(es, journal.id, nextLineId),
                       nextAccountId, nextJournalId + 1, nextLineId + |es|)
  {
    var added := Attach(es, journal.id, nextLineId);
    forall k | 0 <= k < |added| ensures added[k].journalEntryId in touched {
    }
    PerJournalCheckSuffices(lines, added, touched);
    CreatedRowsKeepKeys(journals, journal, accounts, lines, added, nextLineId);
    AttachedRowsFit(accounts, lines, es, journal.id, nextLineId);
  }

  lemma AttachedRowsFit(accounts: seq<AccountRow>, lines: seq<LedgerRow>, es: seq<NewLedgerEntry>, journalId: int, firstId: int)
    requires 1 <= firstId
    requires forall l :: l in lines ==> 0 < l.id < firstId && IsInt4(l.amount) && FindAccount(accounts, l.accountId).Some?
    requires forall k :: 0 <= k < |es| ==> LineInsertError(accounts, es[k]).None?
    ensures forall l :: l in lines + Attach(es, journalId, firstId) ==>
              0 < l.id < firstId + |es| && IsInt4(l.amount) && FindAccount(accounts, l.accountId).Some?
  {
    var added := Attach(es, journalId, firstId);
    forall l | l in lines + added
      ensures 0 < l.id < firstId + |es| && IsInt4(l.amount) && FindAccount(accounts, l.accountId).Some?
    {
      if l !in lines {
        var k :| 0 <= k < |added| && added[k] == l;
        assert LineInsertError(accounts, es[k]).None?;
      }
    }
  }

  /** The INSERT INTO ledger_entry statements the create transaction runs, one per row. */
  function InsertStatements(rows: seq<LedgerRow>): (r: seq<BalanceTrigger.LineStatement>)
    ensures |r| == |rows|
    ensures forall k :: 0 <= k < |rows| ==> r[k] == BalanceTrigger.InsertLine(rows[k])
  {
    seq(|rows|, k requires 0 <= k < |rows| => BalanceTrigger.InsertLine(rows[k]))
  }

  /** Running the inserts appends the rows, and queues the journal of every row. */
  lemma {:induction false} InsertsAppend(lines: seq<LedgerRow>, rows: seq<LedgerRow>)
    ensures BalanceTrigger.Execute(lines, InsertStatements(rows)) == lines + rows
    ensures BalanceTrigger.Queue(lines, InsertStatements(rows)) == set l | l in rows :: l.journalEntryId
    decreases |rows|
  {
    if rows == [] {
      assert lines + rows == lines;
    } else {
      var stmts := InsertStatements(rows);
      assert stmts[1..] == InsertStatements(rows[1..]);
      InsertsAppend(lines + [rows[0]], rows[1..]);
      assert lines + [rows[0]] + rows[1..] == lines + rows;
      assert rows == [rows[0]] + rows[1..];
      assert (set l | l in rows :: l.journalEntryId)
          == {rows[0].journalEntryId} + (set l | l in rows[1..] :: l.journalEntryId);
    }
  }

  /**
   * The create transaction, run as statements against the balance trigger,
   * commits exactly when the payload balances and then leaves the ledger
   * with the new lines appended: CreateJournalEntry's commit rule is the
   * trigger's, and the trigger as written agrees, since only inserts run.
   */
  lemma CreateIsTriggerCommit(lines: seq<LedgerRow>, es: seq<NewLedgerEntry>, journalId: int, firstId: int)
    requires forall l :: l in lines ==> l.journalEntryId != journalId
    ensures var stmts := InsertStatements(Attach(es, journalId, firstId));
            && BalanceTrigger.Commit(lines, stmts)
               == (if EntriesImbalance(es) == 0 then Ok(lines + Attach(es, journalId, firstId)) else Err(Unbalanced))
            && BalanceTrigger.CommitAsWritten(lines, stmts) == BalanceTrigger.Commit(lines, stmts)
  {
    var added := Attach(es, journalId, firstId);
    var stmts := InsertStatements(added);
    InsertsAppend(lines, added);
    var touched: set<int> := if |es| == 0 then {} else {journalId};
    assert (set l | l in added :: l.journalEntryId) == touched by {
      if |es| > 0 {
        assert added[0] in added;
      }
    }
    NewJournalCheck(lines, es, journalId, firstId, touched);
    assert BalanceTrigger.InsertsOnly(stmts);
    BalanceTrigger.InsertsCommitAsWritten(lines, stmts);
  }

  /** Appending the new journal and its lines keeps every key and foreign key valid. */
  lemma CreatedRowsKeepKeys(journals: seq<JournalRow>, journal: JournalRow, accounts: seq<AccountRow>,
                            lines: seq<LedgerRow>, added: seq<LedgerRow>, firstId: int)
    requires JournalIdsIncreasing(journals) && forall j :: j in journals ==> j.id < journal.id
    requires LineIdsIncreasing(lines) && forall l :: l in lines ==> l.id < firstId
    requires forall l :: l in lines ==> FindJournal(journals, l.journalEntryId).Some?
    requires forall k :: 0 <= k < |added| ==> added[k].id == firstId + k && added[k].journalEntryId == journal.id
    ensures JournalIdsIncreasing(journals + [journal])
    ensures LineIdsIncreasing(lines + added)
    ensures forall l :: l in lines + added ==> FindJournal(journals + [journal], l.journalEntryId).Some?
  {
    var js := journals + [journal];
    forall i, j | 0 <= i < j < |js| ensures js[i].id < js[j].id {
      if j == |journals| {
        assert js[i] in journals;
      }
    }
    var ls := lines + added;
    forall i, j | 0 <= i < j < |ls| ensures ls[i].id < ls[j].id {
      if i < |lines| && j >= |lines| {
        assert ls[i] in lines;
      }
    }
    forall l | l in ls ensures FindJournal(js, l.journalEntryId).Some? {
      if l in lines {
        assert FindJournal(journals, l.journalEntryId).value in js;
      } else {
        assert journal in js;
      }
    }
  }

  // ---------------------------------------------------------- reads

  /** SELECT * FROM journal_entry WHERE id = ..., failing when no row matches. */
  function GetJournalEntryById(db: Database, id: int): (r: Result<JournalRow>)
    reads db
    ensures r.Ok? ==> r.value in db.journals && r.value.id == id
    ensures r.Err? <==> forall j :: j in db.journals ==> j.id != id
    ensures r.Err? ==> r.error == NoResult
  {
    match FindJournal(db.journals, id)
    case Some(j) => Ok(j)
    case None => Err(NoResult)
  }

  /** SELECT * FROM journal_entry. */
  function GetAllJournalEntries(db: Database): (r: seq<JournalRow>)
    reads db
    requires db.Valid()
    ensures forall j :: j in r <==> j in db.journals
    ensures JournalIdsIncreasing(r)
  {
    db.journals
  }

  /** SELECT * FROM ledger_entry WHERE journal_entry_id = ...; in a consistent database the lines balance. */
  function GetLedgerEntriesByJournalEntry(db: Database, journalId: int): (r: seq<LedgerRow>)
    reads db
    ensures forall l :: l in r <==> l in db.lines && l.journalEntryId == journalId
    ensures db.Valid() ==> Balanced(r, journalId)
  {
    assert db.Valid() ==> Balanced(db.lines, journalId);
    LinesOfJournalImbalance(db.lines, journalId);
    LinesOfJournal(db.lines, journalId)
  }

  lemma {:induction false} LinesOfJournalImbalance(lines: seq<LedgerRow>, journalId: int)
    ensures Imbalance(LinesOfJournal(lines, journalId), journalId) == Imbalance(lines, journalId)
  {
    if lines != [] {
      LinesOfJournalImbalance(lines[1..], journalId);
      ImbalanceUnfold(lines, journalId);
      if lines[0].journalEntryId == journalId {
        ImbalanceUnfold(LinesOfJournal(lines, journalId), journalId);
        assert LinesOfJournal(lines, journalId)[1..] == LinesOfJournal(lines[1..], journalId);
      }
    }
  }

  /** The journal with id `id` and its lines, failing when the journal does not exist. */
  function GetJournalEntryWithLedgerById(db: Database, id: int): (r: Result<GetJournalEntry>)
    reads db
    ensures r.Err? <==> forall j :: j in db.journals ==> j.id != id
    ensures r.Err? ==> r.error == NoResult
    ensures r.Ok? ==>
      && JournalRow(id, r.value.description, r.value.date) in db.journals
      && r.value.id == id
      && forall l :: l in r.value.ledgerEntries <==> l in db.lines && l.journalEntryId == id
  {
    match FindJournal(db.journals, id)
    case None => Err(NoResult)
    case Some(j) => Ok(GetJournalEntry(j.id, j.date, j.description, LinesOfJournal(db.lines, id)))
  }

  /**
   * A journal read back passes GetJournalEntrySchema exactly when its
   * description is non-empty and none of its lines has a zero or negative
   * amount, which the create side does not exclude.
   */
  lemma ReadJournalValidIff(db: Database, id: int)
    requires db.Valid()
    requires GetJournalEntryWithLedgerById(db, id).Ok?
    ensures var e := GetJournalEntryWithLedgerById(db, id).value;
            ValidGetJournalEntry(ReadForm(e.id, e.description, e.date, e.ledgerEntries))
            <==> |e.description| >= 1 && forall l :: l in e.ledgerEntries ==> l.amount > 0
  {
    var e := GetJournalEntryWithLedgerById(db, id).value;
    assert JournalRow(id, e.description, e.date) in db.journals;
    forall l | l in e.ledgerEntries ensures l.id > 0 && l.journalEntryId > 0 && l.accountId > 0 {
      assert l in db.lines;
      assert FindAccount(db.accounts, l.accountId).value in db.accounts;
    }
    StoredJournalValidIff(e.id, e.description, e.date, e.ledgerEntries);
  }

  /** A created journal reads back with exactly the lines it was created with, in order. */
  lemma CreatedJournalReadsBack(journals: seq<JournalRow>, lines: seq<LedgerRow>, journal: JournalRow, es: seq<NewLedgerEntry>, firstId: int)
    requires JournalIdsIncreasing(journals + [journal])
    requires forall l :: l in lines ==> l.journalEntryId != journal.id
    ensures FindJournal(journals + [journal], journal.id) == Some(journal)
    ensures LinesOfJournal(lines + Attach(es, journal.id, firstId), journal.id) == Attach(es, journal.id, firstId)
  {
    FindJournalIsUnique(journals + [journal], journal);
    LinesOfJournalAppend(lines, Attach(es, journal.id, firstId), journal.id);
    NoOwnLines(lines, journal.id);
    AllOwnLines(Attach(es, journal.id, firstId), journal.id);
  }

  lemma {:induction false} NoOwnLines(lines: seq<LedgerRow>, journalId: int)
    requires forall l :: l in lines ==> l.journalEntryId != journalId
    ensures LinesOfJournal(lines, journalId) == []
  {
    if lines != [] {
      assert lines[0] in lines;
      NoOwnLines(lines[1..], journalId);
    }
  }

  lemma {:induction false} AllOwnLines(lines: seq<LedgerRow>, journalId: int)
    requires forall k :: 0 <= k < |lines| ==> lines[k].journalEntryId == journalId
    ensures LinesOfJournal(lines, journalId) == lines
  {
    if lines != [] {
      AllOwnLines(lines[1..], journalId);
    }
  }

  /** createJournalEntry followed by getJournalEntryWithLedgerById returns the header and lines just stored. */
  lemma CreateThenRead(db: Database, journal: JournalRow, es: seq<NewLedgerEntry>, oldJournals: seq<JournalRow>, oldLines: seq<LedgerRow>, firstId: int)
    requires db.Valid()
    requires db.journals == oldJournals + [journal]
    requires db.lines == oldLines + Attach(es, journal.id, firstId)
    requires forall l :: l in oldLines ==> l.journalEntryId != journal.id
    ensures GetJournalEntryWithLedgerById(db, journal.id)
            == Ok(GetJournalEntry(journal.id, journal.date, journal.description, Attach(es, journal.id, firstId)))
  {
    CreatedJournalReadsBack(oldJournals, oldLines, journal, es, firstId);
  }

  // --------------------------------------------------- deleteJournalEntry

  /**
   * DELETE FROM ledger_entry WHERE journal_entry_id = ..., then DELETE FROM
   * journal_entry WHERE id = ..., in one transaction. Deletions queue no
   * balance check, a missing id deletes nothing, and the ON DELETE CASCADE
   * the header delete sets off finds no line left to remove.
   */
  method DeleteJournalEntry(db: Database, id: int)
    requires db.Valid()
    modifies db
    ensures db.Valid()
    ensures db.journals == WithoutJournal(old(db.journals), id)
    ensures db.lines == WithoutJournalLines(old(db.lines), id)
    ensures BalanceTrigger.Commit(old(db.lines), [BalanceTrigger.DeleteJournalLines(id)]) == Ok(db.lines)
    ensures db.accounts == old(db.accounts) && db.nextAccountId == old(db.nextAccountId)
    ensures db.nextJournalId == old(db.nextJournalId) && db.nextLineId == old(db.nextLineId)
  {
    var lines := WithoutJournalLines(db.lines, id);
    var journals := WithoutJournal(db.journals, id);
    CascadeAfterDeleteRemovesNothing(db.lines, id);
    lines := WithoutJournalLines(lines, id);
    BalanceTrigger.RemovingWholeJournalCommits(db.lines, id);
    RemovingJournalKeepsBalance(db.lines, id);
    forall l | l in lines ensures FindJournal(journals, l.journalEntryId).Some? {
      assert FindJournal(db.journals, l.journalEntryId).value in journals;
    }
    db.lines := lines;
    db.journals := journals;
  }

  /** After the delete neither the header nor any line of the journal remains; other journals keep their lines. */
  lemma DeletedJournalIsGone(journals: seq<JournalRow>, lines: seq<LedgerRow>, id: int, other: int)
    requires other != id
    ensures FindJournal(WithoutJournal(journals, id), id).None?
    ensures LinesOfJournal(WithoutJournalLines(lines, id), id) == []
    ensures LinesOfJournal(WithoutJournalLines(lines, id), other) == LinesOfJournal(lines, other)
    ensures FindJournal(WithoutJournal(journals, id), other) == FindJournal(journals, other)
  {
    NoOwnLines(WithoutJournalLines(lines, id), id);
    DeleteKeepsOtherJournals(lines, id, other);
    WithoutOtherJournalKeepsLookup(journals, id, other);
  }

  lemma {:induction false} WithoutOtherJournalKeepsLookup(journals: seq<JournalRow>, id: int, other: int)
    requires other != id
    ensures FindJournal(WithoutJournal(journals, id), other) == FindJournal(journals, other)
  {
    if journals != [] {
      WithoutOtherJournalKeepsLookup(journals[1..], id, other);
    }
  }

  // ------------------------------------------------------ joined queries

  /** The join row pairing a line with its journal's header. */
  function JoinOf(j: JournalRow, l: LedgerRow): (v: JoinRow)
    requires l.journalEntryId == j.id
    ensures ToLine(v) == l
    ensures JournalRow(v.journalId, v.journalDescription, v.journalDate) == j
  {
    JoinRow(j.id, j.description, j.date, l.id, l.accountId, l.amount, l.side)
  }

  /**
   * journal_entry INNER JOIN ledger_entry ON journal_entry_id = id: one row
   * per line whose journal exists, in ledger_entry order.
   */
  function JoinRows(journals: seq<JournalRow>, lines: seq<LedgerRow>): (r: seq<JoinRow>)
    ensures forall v :: v in r ==>
              FindJournal(journals, v.journalId) == Some(JournalRow(v.journalId, v.journalDescription, v.journalDate))
    decreases |lines|
  {
    if lines == [] then []
    else
      var l := lines[|lines| - 1];
      var prefix := JoinRows(journals, lines[..|lines| - 1]);
      match FindJournal(journals, l.journalEntryId)
      case None => prefix
      case Some(j) => prefix + [JoinOf(j, l)]
  }

  /** Under the foreign key no line is dropped by the join: the joined rows carry exactly the lines. */
  lemma {:induction false} JoinKeepsEveryLine(journals: seq<JournalRow>, lines: seq<LedgerRow>)
    requires forall l :: l in lines ==> FindJournal(journals, l.journalEntryId).Some?
    ensures Lines(JoinRows(journals, lines)) == lines
    decreases |lines|
  {
    if lines != [] {
      var n := |lines| - 1;
      var p := lines[..n];
      assert lines == p + [lines[n]];
      assert forall l :: l in p ==> l in lines;
      JoinKeepsEveryLine(journals, p);
      assert lines[n] in lines;
      var j := FindJournal(journals, lines[n].journalEntryId).value;
      var v := JoinOf(j, lines[n]);
      var prefix := JoinRows(journals, p);
      assert JoinRows(journals, lines) == prefix + [v];
      LinesSnoc(prefix, v);
    }
  }

  lemma LinesSnoc(rows: seq<JoinRow>, v: JoinRow)
    ensures Lines(rows + [v]) == Lines(rows) + [ToLine(v)]
  {
  }

  /** A journal id occurs among the joined rows exactly when some line names it. */
  lemma JoinOccurs(journals: seq<JournalRow>, lines: seq<LedgerRow>, id: int)
    requires forall l :: l in lines ==> FindJournal(journals, l.journalEntryId).Some?
    ensures Occurs(JoinRows(journals, lines), id) <==> exists l :: l in lines && l.journalEntryId == id
  {
    var rows := JoinRows(journals, lines);
    JoinKeepsEveryLine(journals, lines);
    if Occurs(rows, id) {
      var k :| 0 <= k < |rows| && rows[k].journalId == id;
      assert Lines(rows)[k] in lines;
    }
    if exists l :: l in lines && l.journalEntryId == id {
      var l :| l in lines && l.journalEntryId == id;
      var k :| 0 <= k < |lines| && lines[k] == l;
      assert Lines(rows)[k] == ToLine(rows[k]);
    }
  }

  /** getAllJournalsWithLedgerEntries: the inner join, regrouped per journal. */
  method GetAllJournalsWithLedgerEntries(db: Database) returns (result: seq<GetJournalEntry>)
    requires db.Valid()
    ensures result == Grouping(JoinRows(db.journals, db.lines))
    ensures forall k :: 0 <= k < |result| ==>
              && result[k].ledgerEntries == LinesOfJournal(db.lines, result[k].id)
              && result[k].ledgerEntries != []
              && FindJournal(db.journals, result[k].id) == Some(JournalRow(result[k].id, result[k].description, result[k].date))
    ensures forall l :: l in db.lines ==> exists k :: 0 <= k < |result| && result[k].id == l.journalEntryId
    ensures forall i, j :: 0 <= i < j < |result| ==> result[i].id != result[j].id
    ensures multiset(Flatten(result)) == multiset(db.lines)
  {
    var rows := JoinRows(db.journals, db.lines);
    result := TransformResultToGetJournalEntry(rows);
    forall k | 0 <= k < |result| {
      JoinedJournal(db.journals, db.lines, k);
    }
    GroupingHasOneJournalPerId(rows);
    forall l | l in db.lines ensures exists k :: 0 <= k < |result| && result[k].id == l.journalEntryId {
      JoinOccurs(db.journals, db.lines, l.journalEntryId);
    }
    JoinKeepsEveryLine(db.journals, db.lines);
    GroupingKeepsEveryLine(rows);
  }

  /** Each regrouped journal carries its stored header and all of its stored lines, and at least one. */
  lemma JoinedJournal(journals: seq<JournalRow>, lines: seq<LedgerRow>, k: int)
    requires forall l :: l in lines ==> FindJournal(journals, l.journalEntryId).Some?
    requires 0 <= k < |Grouping(JoinRows(journals, lines))|
    ensures var e := Grouping(JoinRows(journals, lines))[k];
            && e.ledgerEntries == LinesOfJournal(lines, e.id)
            && e.ledgerEntries != []
            && FindJournal(journals, e.id) == Some(JournalRow(e.id, e.description, e.date))
  {
    var rows := JoinRows(journals, lines);
    var e := Grouping(rows)[k];
    GroupingHeaderFromFirstRow(rows, k);
    assert rows[FirstIndex(rows, e.id)] in rows;
    LinesForIsLinesOfJournal(rows, e.id);
    JoinKeepsEveryLine(journals, lines);
    JoinOccurs(journals, lines, e.id);
    var l :| l in lines && l.journalEntryId == e.id;
    assert l in e.ledgerEntries;
  }

  /** ledger_entry WHERE account_id = ...: the lines of one account, in ledger order. */
  function LinesOfAccount(lines: seq<LedgerRow>, accountId: int): (r: seq<LedgerRow>)
    ensures forall l :: l in r <==> l in lines && l.accountId == accountId
  {
    if lines == [] then []
    else if lines[0].accountId == accountId then [lines[0]] + LinesOfAccount(lines[1..], accountId)
    else LinesOfAccount(lines[1..], accountId)
  }

  predicate SortedByDate(rows: seq<JoinRow>) {
    forall i, j :: 0 <= i < j < |rows| ==> rows[i].journalDate <= rows[j].journalDate
  }

  /** Puts a row after every row dated no later than it. */
  function InsertByDate(v: JoinRow, s: seq<JoinRow>): (r: seq<JoinRow>)
    ensures multiset(r) == multiset(s) + multiset{v}
    ensures forall x :: x in r <==> x in s || x == v
    ensures multiset(Lines(r)) == multiset(Lines(s)) + multiset{ToLine(v)}
    ensures SortedByDate(s) ==> SortedByDate(r)
  {
    if s == [] then [v]
    else if v.journalDate < s[0].journalDate then
      LinesCons(v, s);
      assert multiset([v] + s) == multiset{v} + multiset(s);
      [v] + s
    else
      var t := InsertByDate(v, s[1..]);
      assert s == [s[0]] + s[1..];
      InsertBehindHead(s[0], s[1..], v, t);
      [s[0]] + t
  }

  /** The step of InsertByDate that keeps the head and inserts into the rest. */
  lemma InsertBehindHead(h: JoinRow, rest: seq<JoinRow>, v: JoinRow, t: seq<JoinRow>)
    requires h.journalDate <= v.journalDate
    requires multiset(t) == multiset(rest) + multiset{v}
    requires multiset(Lines(t)) == multiset(Lines(rest)) + multiset{ToLine(v)}
    requires SortedByDate(rest) ==> SortedByDate(t)
    ensures multiset([h] + t) == multiset([h] + rest) + multiset{v}
    ensures forall x :: x in [h] + t <==> x in [h] + rest || x == v
    ensures multiset(Lines([h] + t)) == multiset(Lines([h] + rest)) + multiset{ToLine(v)}
    ensures SortedByDate([h] + rest) ==> SortedByDate([h] + t)
  {
    LinesCons(h, t);
    LinesCons(h, rest);
    assert multiset([h] + t) == multiset{h} + multiset(t);
    assert multiset([h] + rest) == multiset{h} + multiset(rest);
    forall x ensures x in [h] + t <==> x in [h] + rest || x == v {
      assert x in [h] + t <==> x in multiset([h] + t);
      assert x in [h] + rest <==> x in multiset([h] + rest);
    }
    forall x | x in t ensures x in rest || x == v {
      assert x in multiset(t);
    }
    if SortedByDate([h] + rest) {
      assert SortedByDate(rest) by {
        forall i, j | 0 <= i < j < |rest| ensures rest[i].journalDate <= rest[j].journalDate {
          assert rest[i] == ([h] + rest)[i + 1] && rest[j] == ([h] + rest)[j + 1];
        }
      }
    }
    InsertKeepsOrder(h, rest, v, t);
  }

  lemma LinesCons(v: JoinRow, rows: seq<JoinRow>)
    ensures Lines([v] + rows) == [ToLine(v)] + Lines(rows)
  {
  }

  /** A head no later than every row of the rest, and than the inserted row, stays first. */
  lemma InsertKeepsOrder(h: JoinRow, rest: seq<JoinRow>, v: JoinRow, t: seq<JoinRow>)
    requires h.journalDate <= v.journalDate
    requires forall x :: x in t ==> x in rest || x == v
    requires SortedByDate([h] + rest) ==> SortedByDate(t)
    ensures SortedByDate([h] + rest) ==> SortedByDate([h] + t)
  {
    if SortedByDate([h] + rest) {
      forall x | x in t ensures h.journalDate <= x.journalDate {
        if x != v {
          var m :| 0 <= m < |rest| && rest[m] == x;
          assert ([h] + rest)[0] == h && ([h] + rest)[m + 1] == x;
        }
      }
      forall i, j | 0 <= i < j < |[h] + t|
        ensures ([h] + t)[i].journalDate <= ([h] + t)[j].journalDate
      {
        if i == 0 {
          assert ([h] + t)[j] in t;
        } else {
          assert ([h] + t)[i] == t[i - 1] && ([h] + t)[j] == t[j - 1];
        }
      }
    }
  }

  /** ORDER BY j.date ASC; rows with the same date keep their ledger order. */
  function SortByDate(rows: seq<JoinRow>): (r: seq<JoinRow>)
    ensures SortedByDate(r)
    ensures multiset(r) == multiset(rows)
    ensures forall x :: x in r <==> x in rows
    ensures multiset(Lines(r)) == multiset(Lines(rows))
    decreases |rows|
  {
    if rows == [] then []
    else
      var n := |rows| - 1;
      assert rows == rows[..n] + [rows[n]];
      assert Lines(rows) == Lines(rows[..n]) + [ToLine(rows[n])];
      InsertByDate(rows[n], SortByDate(rows[..n]))
  }

  /** The rows getAllLedgerEntriesForAccount hands to the regrouping. */
  function AccountRows(journals: seq<JournalRow>, lines: seq<LedgerRow>, accountId: int): seq<JoinRow> {
    SortByDate(JoinRows(journals, LinesOfAccount(lines, accountId)))
  }

  /** getAllLedgerEntriesForAccount: the account's lines with their journals, by date, regrouped per journal. */
  method GetAllLedgerEntriesForAccount(db: Database, accountId: int) returns (result: seq<GetJournalEntry>)
    requires db.Valid()
    ensures result == Grouping(AccountRows(db.journals, db.lines, accountId))
    ensures forall k :: 0 <= k < |result| ==>
              FindJournal(db.journals, result[k].id) == Some(JournalRow(result[k].id, result[k].description, result[k].date))
    ensures forall k :: 0 <= k < |result| ==>
              forall l :: l in result[k].ledgerEntries <==>
                l in db.lines && l.accountId == accountId && l.journalEntryId == result[k].id
    ensures forall i, j :: 0 <= i < j < |result| ==> result[i].date <= result[j].date
    ensures multiset(Flatten(result)) == multiset(LinesOfAccount(db.lines, accountId))
    ensures result == [] <==> !AccountIsReferenced(db.lines, accountId)
  {
    var rows := AccountRows(db.journals, db.lines, accountId);
    result := TransformResultToGetJournalEntry(rows);
    AccountLedger(db.journals, db.lines, accountId);
  }

  lemma AccountLedger(journals: seq<JournalRow>, lines: seq<LedgerRow>, accountId: int)
    requires forall l :: l in lines ==> FindJournal(journals, l.journalEntryId).Some?
    ensures var g := Grouping(AccountRows(journals, lines, accountId));
            && (forall k :: 0 <= k < |g| ==> FindJournal(journals, g[k].id) == Some(JournalRow(g[k].id, g[k].description, g[k].date)))
            && (forall k :: 0 <= k < |g| ==>
                  forall l :: l in g[k].ledgerEntries <==> l in lines && l.accountId == accountId && l.journalEntryId == g[k].id)
            && (forall i, j :: 0 <= i < j < |g| ==> g[i].date <= g[j].date)
            && multiset(Flatten(g)) == multiset(LinesOfAccount(lines, accountId))
            && (g == [] <==> !AccountIsReferenced(lines, accountId))
  {
    var rows := AccountRows(journals, lines, accountId);
    var g := Grouping(rows);
    forall k | 0 <= k < |g|
      ensures FindJournal(journals, g[k].id) == Some(JournalRow(g[k].id, g[k].description, g[k].date))
      ensures forall l :: l in g[k].ledgerEntries <==> l in lines && l.accountId == accountId && l.journalEntryId == g[k].id
    {
      AccountJournal(journals, lines, accountId, k);
    }
    AccountJournalsByDate(journals, lines, accountId);
    AccountLinesKept(journals, lines, accountId);
  }

  /** The account's rows carry exactly the account's lines. */
  lemma AccountRowsLines(journals: seq<JournalRow>, lines: seq<LedgerRow>, accountId: int)
    requires forall l :: l in lines ==> FindJournal(journals, l.journalEntryId).Some?
    ensures multiset(Lines(AccountRows(journals, lines, accountId))) == multiset(LinesOfAccount(lines, accountId))
  {
    JoinKeepsEveryLine(journals, LinesOfAccount(lines, accountId));
  }

  lemma AccountJournal(journals: seq<JournalRow>, lines: seq<LedgerRow>, accountId: int, k: int)
    requires forall l :: l in lines ==> FindJournal(journals, l.journalEntryId).Some?
    requires 0 <= k < |Grouping(AccountRows(journals, lines, accountId))|
    ensures var e := Grouping(AccountRows(journals, lines, accountId))[k];
            && FindJournal(journals, e.id) == Some(JournalRow(e.id, e.description, e.date))
            && forall l :: l in e.ledgerEntries <==> l in lines && l.accountId == accountId && l.journalEntryId == e.id
  {
    var own := LinesOfAccount(lines, accountId);
    var rows := AccountRows(journals, lines, accountId);
    var e := Grouping(rows)[k];
    GroupingHeaderFromFirstRow(rows, k);
    assert rows[FirstIndex(rows, e.id)] in rows;
    LinesForIsLinesOfJournal(rows, e.id);
    assert e.ledgerEntries == LinesFor(rows, e.id) by {
      assert FirstSeen(rows)[k] == e.id;
    }
    AccountRowsLines(journals, lines, accountId);
    forall l ensures l in Lines(rows) <==> l in own {
      assert l in Lines(rows) <==> l in multiset(Lines(rows));
      assert l in own <==> l in multiset(own);
    }
  }

  /** Journals come out by ascending date. */
  lemma AccountJournalsByDate(journals: seq<JournalRow>, lines: seq<LedgerRow>, accountId: int)
    ensures var g := Grouping(AccountRows(journals, lines, accountId));
            forall i, j :: 0 <= i < j < |g| ==> g[i].date <= g[j].date
  {
    var rows := AccountRows(journals, lines, accountId);
    var g := Grouping(rows);
    GroupingKeepsFirstSeenOrder(rows);
    forall i, j | 0 <= i < j < |g| ensures g[i].date <= g[j].date {
      GroupingHeaderFromFirstRow(rows, i);
      GroupingHeaderFromFirstRow(rows, j);
    }
  }

  /** Every line of the account appears once, and the result is empty only for an account no line names. */
  lemma AccountLinesKept(journals: seq<JournalRow>, lines: seq<LedgerRow>, accountId: int)
    requires forall l :: l in lines ==> FindJournal(journals, l.journalEntryId).Some?
    ensures var g := Grouping(AccountRows(journals, lines, accountId));
            && multiset(Flatten(g)) == multiset(LinesOfAccount(lines, accountId))
            && (g == [] <==> !AccountIsReferenced(lines, accountId))
  {
    var own := LinesOfAccount(lines, accountId);
    var rows := AccountRows(journals, lines, accountId);
    var g := Grouping(rows);
    AccountRowsLines(journals, lines, accountId);
    GroupingKeepsEveryLine(rows);
    if g == [] {
      assert |rows| == 0;
      assert |multiset(own)| == 0;
    } else {
      assert |rows| > 0 by {
        assert FirstSeen(rows) != [];
      }
      assert |multiset(own)| > 0;
      assert own[0] in own;
    }
  }
}
