/**
 * The invoice repository: uploaded PDF files wait as drafts in
 * draft_invoice until processing copies the file, with the supplier,
 * amounts and date, into invoice and deletes the draft, all in one
 * transaction. Both tables are sequences in insertion order with a serial
 * counter each; the timestamp the database's now() supplies is a parameter.
 */
module InvoiceRepo {
  import opened DbResult
  import opened Schema

  /** One octet of a bytea value. */
  newtype byte = x: int | 0 <= x < 256

  datatype DraftInvoice = DraftInvoice(id: int, fileData: seq<byte>, filename: string, uploadedAt: int)

  datatype Invoice = Invoice(id: int, fileData: seq<byte>, filename: string, supplier: string,
                             amount: int, invoiceDate: int, vat: int, createdAt: int)

  function FindDraft(drafts: seq<DraftInvoice>, id: int): (r: Option<DraftInvoice>)
    ensures r.Some? ==> r.value in drafts && r.value.id == id
    ensures r.None? <==> forall d :: d in drafts ==> d.id != id
  {
    if drafts == [] then None
    else if drafts[0].id == id then Some(drafts[0])
    else FindDraft(drafts[1..], id)
  }

  function FindInvoice(invoices: seq<Invoice>, id: int): (r: Option<Invoice>)
    ensures r.Some? ==> r.value in invoices && r.value.id == id
    ensures r.None? <==> forall v :: v in invoices ==> v.id != id
  {
    if invoices == [] then None
    else if invoices[0].id == id then Some(invoices[0])
    else FindInvoice(invoices[1..], id)
  }

  /** DELETE FROM draft_invoice WHERE id = ...: every other draft stays, in order. */
  function WithoutDraft(drafts: seq<DraftInvoice>, id: int): (r: seq<DraftInvoice>)
    ensures forall d :: d in r <==> d in drafts && d.id != id
    ensures |r| <= |drafts|
  {
    if drafts == [] then []
    else if drafts[0].id == id then WithoutDraft(drafts[1..], id)
    else [drafts[0]] + WithoutDraft(drafts[1..], id)
  }

  ghost predicate DraftIdsIncreasing(s: seq<DraftInvoice>) {
    forall i, j :: 0 <= i < j < |s| ==> s[i].id < s[j].id
  }

  ghost predicate InvoiceIdsIncreasing(s: seq<Invoice>) {
    forall i, j :: 0 <= i < j < |s| ==> s[i].id < s[j].id
  }

  class InvoiceTables {
    var drafts: seq<DraftInvoice>
    var invoices: seq<Invoice>
    var nextDraftId: int
    var nextInvoiceId: int

    /** Serial primary keys, and amounts and VAT that fit the integer columns. */
    ghost predicate Valid()
      reads this
    {
      && 1 <= nextDraftId && 1 <= nextInvoiceId
      && DraftIdsIncreasing(drafts)
      && (forall d :: d in drafts ==> 0 < d.id < nextDraftId)
      && InvoiceIdsIncreasing(invoices)
      && (forall v :: v in invoices ==> 0 < v.id < nextInvoiceId && IsInt4(v.amount) && IsInt4(v.vat))
    }

    constructor()
      ensures Valid()
      ensures drafts == [] && invoices == []
      ensures nextDraftId == 1 && nextInvoiceId == 1
    {
      drafts, invoices := [], [];
      nextDraftId, nextInvoiceId := 1, 1;
    }
  }

  // ------------------------------------------------------------ drafts

  /** INSERT INTO draft_invoice ... RETURNING *: the new draft gets the next id and the current time. */
  method CreateDraftInvoice(t: InvoiceTables, fileData: seq<byte>, filename: string, now: int) returns (d: DraftInvoice)
    requires t.Valid()
    modifies t
    ensures t.Valid()
    ensures d == DraftInvoice(old(t.nextDraftId), fileData, filename, now)
    ensures d.id > 0
    ensures t.drafts == old(t.drafts) + [d] && t.nextDraftId == old(t.nextDraftId) + 1
    ensures t.invoices == old(t.invoices) && t.nextInvoiceId == old(t.nextInvoiceId)
  {
    d := DraftInvoice(t.nextDraftId, fileData, filename, now);
    t.drafts := t.drafts + [d];
    t.nextDraftId := t.nextDraftId + 1;
  }

  /** SELECT * FROM draft_invoice WHERE id = ..., failing when no row matches. */
  function GetDraftInvoiceById(t: InvoiceTables, id: int): (r: Result<DraftInvoice>)
    reads t
    ensures r.Ok? ==> r.value in t.drafts && r.value.id == id
    ensures r.Err? <==> forall d :: d in t.drafts ==> d.id != id
    ensures r.Err? ==> r.error == NoResult
  {
    match FindDraft(t.drafts, id)
    case Some(d) => Ok(d)
    case None => Err(NoResult)
  }

  /** SELECT * FROM draft_invoice. */
  function GetAllDraftInvoices(t: InvoiceTables): (r: seq<DraftInvoice>)
    reads t
    ensures forall d :: d in r <==> d in t.drafts
    ensures |r| == |t.drafts|
  {
    t.drafts
  }

  /** DELETE FROM draft_invoice WHERE id = ...; a missing id deletes nothing and raises nothing. */
  method DeleteDraftInvoice(t: InvoiceTables, id: int)
    requires t.Valid()
    modifies t
    ensures t.Valid()
    ensures t.drafts == WithoutDraft(old(t.drafts), id)
    ensures GetDraftInvoiceById(t, id) == Err(NoResult)
    ensures t.invoices == old(t.invoices)
    ensures t.nextDraftId == old(t.nextDraftId) && t.nextInvoiceId == old(t.nextInvoiceId)
  {
    WithoutDraftKeepsOrder(t.drafts, id);
    t.drafts := WithoutDraft(t.drafts, id);
  }

  lemma {:induction false} WithoutDraftKeepsOrder(drafts: seq<DraftInvoice>, id: int)
    requires DraftIdsIncreasing(drafts)
    ensures DraftIdsIncreasing(WithoutDraft(drafts, id))
  {
    if drafts != [] {
      assert DraftIdsIncreasing(drafts[1..]) by {
        forall i, j | 0 <= i < j < |drafts[1..]| ensures drafts[1..][i].id < drafts[1..][j].id {
          assert drafts[1..][i] == drafts[i + 1] && drafts[1..][j] == drafts[j + 1];
        }
      }
      WithoutDraftKeepsOrder(drafts[1..], id);
      if drafts[0].id != id {
        var r := [drafts[0]] + WithoutDraft(drafts[1..], id);
        forall i, j | 0 <= i < j < |r| ensures r[i].id < r[j].id {
          if i == 0 {
            assert r[j] in drafts[1..];
            var m :| 0 <= m < |drafts[1..]| && drafts[1..][m] == r[j];
            assert drafts[m + 1] == r[j];
          }
        }
      }
    }
  }

  /** With unique ids, deleting an existing draft removes exactly one row. */
  lemma {:induction false} WithoutExistingDraft(drafts: seq<DraftInvoice>, id: int)
    requires DraftIdsIncreasing(drafts)
    requires FindDraft(drafts, id).Some?
    ensures |WithoutDraft(drafts, id)| == |drafts| - 1
  {
    if drafts[0].id == id {
      forall d | d in drafts[1..] ensures d.id != id {
        var m :| 0 <= m < |drafts[1..]| && drafts[1..][m] == d;
        assert drafts[m + 1] == d;
      }
      WithoutAbsentDraft(drafts[1..], id);
    } else {
      assert DraftIdsIncreasing(drafts[1..]) by {
        forall i, j | 0 <= i < j < |drafts[1..]| ensures drafts[1..][i].id < drafts[1..][j].id {
          assert drafts[1..][i] == drafts[i + 1] && drafts[1..][j] == drafts[j + 1];
        }
      }
      WithoutExistingDraft(drafts[1..], id);
    }
  }

  lemma {:induction false} WithoutAbsentDraft(drafts: seq<DraftInvoice>, id: int)
    requires forall d :: d in drafts ==> d.id != id
    ensures WithoutDraft(drafts, id) == drafts
  {
    if drafts != [] {
      assert drafts[0] in drafts;
      assert forall d :: d in drafts[1..] ==> d in drafts;
      WithoutAbsentDraft(drafts[1..], id);
    }
  }

  // ---------------------------------------------------------- invoices

  /** The error the INSERT INTO invoice raises when its parameters are bound, if any, in parameter order. */
  function InvoiceInsertError(amount: int, invoiceDate: Option<int>, vat: int): (r: Option<DbError>)
    ensures r.None? <==> IsInt4(amount) && invoiceDate.Some? && IsInt4(vat)
    ensures invoiceDate.None? && IsInt4(amount) ==> r == Some(InvalidDate)
    ensures r.Some? ==> r.value in {OutOfRange, InvalidDate}
  {
    if !IsInt4(amount) then Some(OutOfRange)
    else if invoiceDate.None? then Some(InvalidDate)
    else if !IsInt4(vat) then Some(OutOfRange)
    else None
  }

  /**
   * Nothing in the statement or the invoice columns refuses a negative
   * amount or VAT: any value in the integer range is inserted.
   */
  lemma NonPositiveAmountsAreInserted(date: int)
    ensures InvoiceInsertError(-1000, Some(date), 200).None?
    ensures InvoiceInsertError(1000, Some(date), -200).None?
    ensures InvoiceInsertError(0, Some(date), 0).None?
  {
  }

  /**
   * processDraftInvoice: in one transaction, read the draft's file, insert
   * the invoice carrying it, delete the draft. `invoiceDate` is the date
   * PostgreSQL reads from the text given, or None when it cannot read one.
   * Any failure rolls back: the draft stays and no invoice is added.
   */
  method ProcessDraftInvoice(t: InvoiceTables, draftId: int, supplier: string, amount: int,
                             invoiceDate: Option<int>, vat: int, now: int) returns (r: Result<Invoice>)
    requires t.Valid()
    modifies t
    ensures t.Valid()
    ensures r.Err? ==> unchanged(t)
    ensures r.Err? <==> FindDraft(old(t.drafts), draftId).None? || InvoiceInsertError(amount, invoiceDate, vat).Some?
    ensures r.Err? ==> r.error == if FindDraft(old(t.drafts), draftId).None? then NoResult
                                 else InvoiceInsertError(amount, invoiceDate, vat).value
    ensures r.Ok? ==>
      var d := FindDraft(old(t.drafts), draftId).value;
      r.value == Invoice(old(t.nextInvoiceId), d.fileData, d.filename, supplier, amount, invoiceDate.value, vat, now)
    ensures r.Ok? ==>
      && t.invoices == old(t.invoices) + [r.value]
      && t.drafts == WithoutDraft(old(t.drafts), draftId)
      && t.nextInvoiceId == old(t.nextInvoiceId) + 1 && t.nextDraftId == old(t.nextDraftId)
  {
    var draft := FindDraft(t.drafts, draftId);
    if draft.None? {
      return Err(NoResult);
    }
    var err := InvoiceInsertError(amount, invoiceDate, vat);
    if err.Some? {
      return Err(err.value);
    }
    var d := draft.value;
    var invoice := Invoice(t.nextInvoiceId, d.fileData, d.filename, supplier, amount, invoiceDate.value, vat, now);
    var invoices := t.invoices + [invoice];
    var drafts := WithoutDraft(t.drafts, draftId);
    WithoutDraftKeepsOrder(t.drafts, draftId);
    t.invoices := invoices;
    t.drafts := drafts;
    t.nextInvoiceId := t.nextInvoiceId + 1;
    r := Ok(invoice);
  }

  /**
   * A successful processing moves the file: the draft can no longer be
   * found, the invoice can, with the draft's bytes and filename, and the
   * two tables together still hold as many rows.
   */
  lemma ProcessMovesDraft(draftsBefore: seq<DraftInvoice>, invoicesBefore: seq<Invoice>,
                          draftId: int, invoice: Invoice)
    requires DraftIdsIncreasing(draftsBefore)
    requires FindDraft(draftsBefore, draftId).Some?
    requires forall v :: v in invoicesBefore ==> v.id < invoice.id
    requires invoice.fileData == FindDraft(draftsBefore, draftId).value.fileData
    requires invoice.filename == FindDraft(draftsBefore, draftId).value.filename
    ensures FindDraft(WithoutDraft(draftsBefore, draftId), draftId).None?
    ensures FindInvoice(invoicesBefore + [invoice], invoice.id) == Some(invoice)
    ensures var v := FindInvoice(invoicesBefore + [invoice], invoice.id).value;
            v.fileData == FindDraft(draftsBefore, draftId).value.fileData
            && v.filename == FindDraft(draftsBefore, draftId).value.filename
    ensures |WithoutDraft(draftsBefore, draftId)| + |invoicesBefore + [invoice]| == |draftsBefore| + |invoicesBefore|
  {
    WithoutExistingDraft(draftsBefore, draftId);
    FindNewInvoice(invoicesBefore, invoice);
  }

  lemma {:induction false} FindNewInvoice(invoices: seq<Invoice>, invoice: Invoice)
    requires forall v :: v in invoices ==> v.id < invoice.id
    ensures FindInvoice(invoices + [invoice], invoice.id) == Some(invoice)
  {
    if invoices != [] {
      assert invoices[0] in invoices;
      assert (invoices + [invoice])[1..] == invoices[1..] + [invoice];
      assert forall v :: v in invoices[1..] ==> v in invoices;
      FindNewInvoice(invoices[1..], invoice);
    }
  }

  /** SELECT * FROM invoice WHERE id = ..., failing when no row matches. */
  function GetInvoiceById(t: InvoiceTables, id: int): (r: Result<Invoice>)
    reads t
    ensures r.Ok? ==> r.value in t.invoices && r.value.id == id
    ensures r.Err? <==> forall v :: v in t.invoices ==> v.id != id
    ensures r.Err? ==> r.error == NoResult
  {
    match FindInvoice(t.invoices, id)
    case Some(v) => Ok(v)
    case None => Err(NoResult)
  }

  /** SELECT * FROM invoice. */
  function GetAllInvoices(t: InvoiceTables): (r: seq<Invoice>)
    reads t
    ensures forall v :: v in r <==> v in t.invoices
    ensures |r| == |t.invoices|
  {
    t.invoices
  }

  /** A draft just created is found by its id. */
  lemma CreatedDraftIsFound(drafts: seq<DraftInvoice>, d: DraftInvoice)
    requires forall e :: e in drafts ==> e.id < d.id
    ensures FindDraft(drafts + [d], d.id) == Some(d)
  {
    if drafts != [] {
      assert drafts[0] in drafts;
      assert (drafts + [d])[1..] == drafts[1..] + [d];
      assert forall e :: e in drafts[1..] ==> e in drafts;
      CreatedDraftIsFound(drafts[1..], d);
    }
  }
}
