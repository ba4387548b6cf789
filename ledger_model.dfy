/**
 * The zod schemas of the ledger forms as validity predicates. A payload
 * arrives with its enum fields as text; parsing checks it against the
 * create-side schemas and yields the typed values the repository inserts.
 */
module LedgerModel {
  import opened DbResult
  import opened Schema

  // ---------------------------------------------------- create side

  /** A ledger line as submitted (LedgerEntrySchema before validation). */
  datatype LedgerEntryForm = LedgerEntryForm(accountId: int, amount: int, side: string)
  /** A journal header as submitted (JournalEntrySchema before validation). */
  datatype JournalForm = JournalForm(date: int, description: string)
  datatype CreateJournalForm = CreateJournalForm(journal: JournalForm, ledgerEntries: seq<LedgerEntryForm>)

  /** The validated, typed payload createJournalEntry receives. */
  datatype NewJournal = NewJournal(date: int, description: string)
  datatype NewLedgerEntry = NewLedgerEntry(accountId: int, amount: int, side: Side)
  datatype CreateJournalWithEntries = CreateJournalWithEntries(journal: NewJournal, ledgerEntries: seq<NewLedgerEntry>)

  /** account_id a positive integer, amount any number, side one of the two labels. */
  predicate ValidLedgerEntry(e: LedgerEntryForm) {
    e.accountId > 0 && (e.side == "debit" || e.side == "credit")
  }

  /** A description of at least one character. */
  predicate ValidJournalEntry(j: JournalForm) {
    |j.description| >= 1
  }

  /** A valid header and at least two valid lines; nothing relates the amounts to each other. */
  predicate ValidCreateJournalWithEntries(p: CreateJournalForm) {
    && ValidJournalEntry(p.journal)
    && |p.ledgerEntries| >= 2
    && forall k :: 0 <= k < |p.ledgerEntries| ==> ValidLedgerEntry(p.ledgerEntries[k])
  }

  /** The enum label PostgreSQL and the forms use for a side. */
  function SideLabel(s: Side): (r: string)
    ensures ParseSide(r) == Some(s)
  {
    match s
    case Debit => "debit"
    case Credit => assert ParseSide("credit") == Some(Credit) by { assert |"credit"| == 6; } "credit"
  }

  function ParseEntries(es: seq<LedgerEntryForm>): (r: seq<NewLedgerEntry>)
    requires forall k :: 0 <= k < |es| ==> ParseSide(es[k].side).Some?
    ensures |r| == |es|
    ensures forall k :: 0 <= k < |es| ==>
      r[k].accountId == es[k].accountId && r[k].amount == es[k].amount && Some(r[k].side) == ParseSide(es[k].side)
  {
    if es == [] then [] else [NewLedgerEntry(es[0].accountId, es[0].amount, ParseSide(es[0].side).value)] + ParseEntries(es[1..])
  }

  /** CreateJournalWithEntriesSchema.safeParse: the typed payload, or nothing when a rule fails. */
  function ParseCreateJournalWithEntries(p: CreateJournalForm): (r: Option<CreateJournalWithEntries>)
    ensures r.Some? <==> ValidCreateJournalWithEntries(p)
    ensures r.Some? ==>
      && r.value.journal == NewJournal(p.journal.date, p.journal.description)
      && |r.value.ledgerEntries| == |p.ledgerEntries|
      && forall k :: 0 <= k < |p.ledgerEntries| ==>
           && r.value.ledgerEntries[k].accountId == p.ledgerEntries[k].accountId
           && r.value.ledgerEntries[k].amount == p.ledgerEntries[k].amount
           && Some(r.value.ledgerEntries[k].side) == ParseSide(p.ledgerEntries[k].side)
  {
    if ValidCreateJournalWithEntries(p) then
      Some(CreateJournalWithEntries(NewJournal(p.journal.date, p.journal.description), ParseEntries(p.ledgerEntries)))
    else None
  }

  /** The typed payload written back as a form, enum values as their labels. */
  function Render(c: CreateJournalWithEntries): (r: CreateJournalForm)
    ensures |r.ledgerEntries| == |c.ledgerEntries|
  {
    CreateJournalForm(JournalForm(c.journal.date, c.journal.description),
                      seq(|c.ledgerEntries|, k requires 0 <= k < |c.ledgerEntries| =>
                            LedgerEntryForm(c.ledgerEntries[k].accountId, c.ledgerEntries[k].amount,
                                            SideLabel(c.ledgerEntries[k].side))))
  }

  /** Parsing a valid form and writing it back gives the form again. */
  lemma ParseThenRender(p: CreateJournalForm)
    requires ValidCreateJournalWithEntries(p)
    ensures Render(ParseCreateJournalWithEntries(p).value) == p
  {
    var c := ParseCreateJournalWithEntries(p).value;
    var r := Render(c);
    forall k | 0 <= k < |p.ledgerEntries|
      ensures r.ledgerEntries[k] == p.ledgerEntries[k]
    {
      assert ValidLedgerEntry(p.ledgerEntries[k]);
    }
  }

  /** Rendering a payload that meets the schema's rules and parsing it gives the payload again. */
  lemma RenderThenParse(c: CreateJournalWithEntries)
    requires |c.journal.description| >= 1 && |c.ledgerEntries| >= 2
    requires forall k :: 0 <= k < |c.ledgerEntries| ==> c.ledgerEntries[k].accountId > 0
    ensures ParseCreateJournalWithEntries(Render(c)) == Some(c)
  {
    var p := Render(c);
    forall k | 0 <= k < |p.ledgerEntries|
      ensures ValidLedgerEntry(p.ledgerEntries[k])
    {
      assert ParseSide(p.ledgerEntries[k].side).Some?;
    }
    var r := ParseCreateJournalWithEntries(p).value;
    assert r.ledgerEntries == c.ledgerEntries;
  }

  /** The debits minus credits of a payload's lines. */
  function EntriesImbalance(es: seq<NewLedgerEntry>): int {
    if es == [] then 0
    else (if es[0].side == Debit then es[0].amount else -es[0].amount) + EntriesImbalance(es[1..])
  }

  /** The schema does not relate amounts: a payload it accepts can still be unbalanced. */
  lemma ValidPayloadMayBeUnbalanced()
    ensures var p := CreateJournalForm(JournalForm(0, "Test"),
                                       [LedgerEntryForm(1, 5000, "debit"), LedgerEntryForm(2, 4000, "credit")]);
            && ValidCreateJournalWithEntries(p)
            && EntriesImbalance(ParseCreateJournalWithEntries(p).value.ledgerEntries) == 1000
  {
    var p := CreateJournalForm(JournalForm(0, "Test"),
                               [LedgerEntryForm(1, 5000, "debit"), LedgerEntryForm(2, 4000, "credit")]);
    var es := ParseCreateJournalWithEntries(p).value.ledgerEntries;
    assert es == [NewLedgerEntry(1, 5000, Debit), NewLedgerEntry(2, 4000, Credit)];
    assert es[1..][1..] == [];
  }

  // ------------------------------------------------------ read side

  /** A ledger line as read back (GetLedgerEntrySchema before validation). */
  datatype GetLedgerEntryForm = GetLedgerEntryForm(id: int, journalEntryId: int, accountId: int, amount: int, side: string)
  datatype GetJournalEntryForm = GetJournalEntryForm(id: int, description: string, date: int, ledgerEntries: seq<GetLedgerEntryForm>)

  /** Every number a positive integer, side one of the two labels. */
  predicate ValidGetLedgerEntry(e: GetLedgerEntryForm) {
    e.id > 0 && e.journalEntryId > 0 && e.accountId > 0 && e.amount > 0 && (e.side == "debit" || e.side == "credit")
  }

  predicate ValidGetJournalEntry(j: GetJournalEntryForm) {
    && j.id > 0 && |j.description| >= 1
    && forall k :: 0 <= k < |j.ledgerEntries| ==> ValidGetLedgerEntry(j.ledgerEntries[k])
  }

  /** A stored line as the read schema sees it. */
  function LineForm(l: LedgerRow): (r: GetLedgerEntryForm)
    ensures ParseSide(r.side) == Some(l.side)
  {
    GetLedgerEntryForm(l.id, l.journalEntryId, l.accountId, l.amount, SideLabel(l.side))
  }

  /** A stored line with positive keys passes the read schema exactly when its amount is positive. */
  lemma StoredLineValidIffPositive(l: LedgerRow)
    requires l.id > 0 && l.journalEntryId > 0 && l.accountId > 0
    ensures ValidGetLedgerEntry(LineForm(l)) <==> l.amount > 0
  {
    assert ParseSide(LineForm(l).side).Some?;
  }

  /** A stored journal and its lines as the read schema sees them. */
  function ReadForm(id: int, description: string, date: int, lines: seq<LedgerRow>): (r: GetJournalEntryForm)
    ensures r.id == id && r.description == description && r.date == date
    ensures |r.ledgerEntries| == |lines|
    ensures forall k :: 0 <= k < |lines| ==> r.ledgerEntries[k] == LineForm(lines[k])
  {
    GetJournalEntryForm(id, description, date, seq(|lines|, k requires 0 <= k < |lines| => LineForm(lines[k])))
  }

  /**
   * A stored journal with positive keys passes GetJournalEntrySchema exactly
   * when its description is non-empty and every one of its amounts is positive.
   */
  lemma StoredJournalValidIff(id: int, description: string, date: int, lines: seq<LedgerRow>)
    requires id > 0
    requires forall l :: l in lines ==> l.id > 0 && l.journalEntryId > 0 && l.accountId > 0
    ensures ValidGetJournalEntry(ReadForm(id, description, date, lines))
            <==> |description| >= 1 && forall l :: l in lines ==> l.amount > 0
  {
    var r := ReadForm(id, description, date, lines);
    forall k | 0 <= k < |lines|
      ensures ValidGetLedgerEntry(r.ledgerEntries[k]) <==> lines[k].amount > 0
    {
      StoredLineValidIffPositive(lines[k]);
    }
  }

  /**
   * The create schema admits amounts the read schema refuses: a payload can
   * write a zero or negative amount that then fails validation on the way out.
   */
  lemma CreateAdmitsWhatReadRefuses()
    ensures ValidLedgerEntry(LedgerEntryForm(1, -300, "credit"))
    ensures !ValidGetLedgerEntry(LineForm(LedgerRow(1, 1, 1, -300, Credit)))
  {
  }
}
