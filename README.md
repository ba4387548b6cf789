# open-accounting ledger core in Dafny

This project models the core of open-accounting, a small double-entry
bookkeeping application backed by PostgreSQL. The model covers:

- **The accounting schema** (`schema.dfy`, `tables.dfy`). It has three
  tables: `account`, `journal_entry` and `ledger_entry`. A journal is
  balanced when its debits minus its credits sum to zero, which is what the
  `ensure_journal_balance` trigger function computes. The column and
  foreign-key constraints are modelled too. The tables live in one `Database`
  object whose invariant includes "every committed journal balances".
- **The deferred balance trigger** (`balance_trigger.dfy`). A transaction is
  a sequence of statements against `ledger_entry`. At COMMIT the
  `check_journal_balance` constraint trigger re-examines the journals its
  rows queued. The model includes both the trigger as the migration
  declares it and a corrected trigger (see Findings).
- **The ledger repository** (`ledger_repo.dfy`, `grouping.dfy`).
  `createJournalEntry` inserts a header and then one line at a time inside a
  transaction. The file also covers `deleteJournalEntry`, the read queries,
  the two join queries, and `transformResultToGetJournalEntry`, which
  regroups flat join rows into journals with nested lines.
- **The account repository and the derived balance** (`account_repo.dfy`,
  `balance.dfy`). Covers create, lookup, update and delete under the unique,
  length and foreign-key rules. The balance of an account is the sum of its
  normal side minus the sum of the opposite side.
- **The input schemas** (`ledger_model.dfy`, `account_model.dfy`). The zod
  schemas become validity predicates and parsers.
- **`getAccountsMap`** (`account_service.dfy`): the reduce that keys accounts
  by id.
- **The invoice repository** (`invoice_repo.dfy`). Drafts hold uploaded
  files. `processDraftInvoice` atomically copies a draft into `invoice` and
  deletes the draft.

Tables are sequences in insertion order, and each serial column is a
counter. A transaction builds its new state locally. It assigns that state
only on commit. On any error the object is left unchanged. Errors are
modelled one kind per rule (`DbResult.DbError`), in the order PostgreSQL
checks them:

- enum labels are read when parameters are bound;
- then varchar lengths, when the values are converted to their column types
  (for an UPDATE this happens at planning, before any row is matched);
- then NOT NULL;
- then unique and foreign keys;
- the balance check runs last, at commit.

Where the design description of the system and the code differ, the model
follows the code:

- `journal_entry` deletion cascades to its lines (`ON DELETE CASCADE`).
- `getAllAccounts` has no ORDER BY, so the model promises table order, not
  account-number order.
- Account-number length and emptiness are not checked by the repository.
  The varchar(10) column refuses a number over 10 characters with
  `StringTooLong`, unless every character past the tenth is a space: then
  PostgreSQL stores the first ten. The type column does the same at 50. Only
  the form schema refuses an empty number.
- `getAllLedgerEntriesForAccount` returns journals grouped with their lines,
  not a flat list of lines.

Strings are sequences of Unicode characters. The form schemas measure
lengths in UTF-16 code units, as JavaScript does (`AccountModel.Utf16Length`),
while varchar columns count characters. A character outside the Basic
Multilingual Plane therefore counts twice in the schema and once in the column.

## Model

| member | source | states |
|---|---|---|
| Schema.ParseSide | migrations/migrations/2025-02-01T120000_create_accounting_schema.ts:5 | text is read as a debit_credit value exactly when it is "debit" or "credit" |
| Schema.ToVarchar | migrations/migrations/2025-02-01T120000_create_accounting_schema.ts:11-13 | a value assigned to varchar(n) is stored unchanged when it has at most n characters, cut to its first n when every character past the limit is a space, and refused otherwise |
| Schema.VarcharTruncatesOnlySpaces | migrations/migrations/2025-02-01T120000_create_accounting_schema.ts:11 | "1234567890 " is stored as "1234567890", "1234567890X" is refused, "1000 " is stored with its space |
| Schema.InsertAccountRow | migrations/migrations/2025-02-01T120000_create_accounting_schema.ts:8-15 | an INSERT INTO account yields a row exactly when every column is supplied, normal_balance is an enum label, and the number and type can be assigned to varchar(10) and varchar(50); the row carries the supplied name and side and the stored (possibly space-truncated) number and type; a bad label gives InvalidEnumValue, an unassignable value StringTooLong, otherwise NotNullViolation |
| Schema.FindAccountIsUnique | migrations/migrations/2025-02-01T120000_create_accounting_schema.ts:10 | with increasing serial ids, a lookup by id returns the one account that has it |
| Schema.FindAccountByNumberIsUnique | migrations/migrations/2025-02-01T120000_create_accounting_schema.ts:11 | under the unique account_number, a lookup by number returns the one account that holds it |
| Schema.FindJournalIsUnique | migrations/migrations/2025-02-01T120000_create_accounting_schema.ts:20 | with increasing serial ids, a lookup by id returns the one journal that has it |
| Schema.WithoutJournalLines | migrations/migrations/2025-02-01T120000_create_accounting_schema.ts:32-34 | deleting a journal's lines keeps exactly the lines of other journals, keeps line ids increasing, and never grows the table |
| Schema.DeleteKeepsOtherJournals | src/lib/server/ledger/repository/ledger-repo.ts:68-73 | removing one journal's lines leaves every other journal's lines as they were, in order |
| Schema.CascadeAfterDeleteRemovesNothing | migrations/migrations/2025-02-01T120000_create_accounting_schema.ts:32-34 | the cascade set off by deleting the header finds no line left to remove |
| Schema.ImbalanceAppend | migrations/migrations/2025-02-01T120000_create_accounting_schema.ts:47-51 | the trigger's debit-minus-credit sum over a table is the sum over its parts |
| Schema.NoLinesIsBalanced | migrations/migrations/2025-02-01T120000_create_accounting_schema.ts:47-53 | a journal no line names passes the check |
| Schema.PerJournalCheckSuffices | migrations/migrations/2025-02-01T120000_create_accounting_schema.ts:51 | if every journal balanced before, and every journal that received lines passes the check at commit, then every journal balances after |
| Schema.RemovingJournalKeepsBalance | src/lib/server/ledger/repository/ledger-repo.ts:68-73 | deleting every line of one journal keeps every other journal balanced |
| Schema.NetSplitsByJournal | migrations/migrations/2025-02-01T120000_create_accounting_schema.ts:47-51 | the ledger's total debits minus credits is one journal's sum plus that of the rest |
| Schema.BalancedLedgerNetsToZero | migrations/migrations/2025-02-01T120000_create_accounting_schema.ts:47-51 | when every journal balances, the whole ledger's debits equal its credits |
| BalanceTrigger.StatementKeepsUnqueuedJournals | migrations/migrations/2025-02-01T120000_create_accounting_schema.ts:64-67 | a statement changes the sum of no journal it does not queue for re-examination (corrected trigger) |
| BalanceTrigger.TransactionKeepsUnqueuedJournals | migrations/migrations/2025-02-01T120000_create_accounting_schema.ts:64-67 | a whole transaction changes only the sums of the journals it queued |
| BalanceTrigger.CommitPreservesBalance | migrations/migrations/2025-02-01T120000_create_accounting_schema.ts:64-67 | with the corrected trigger, a transaction that commits leaves every journal balanced if every journal balanced before |
| BalanceTrigger.InsertsCommitAsWritten | migrations/migrations/2025-02-01T120000_create_accounting_schema.ts:65 | for transactions that only insert lines, the trigger as written queues the same journals as the corrected one, and both commit alike |
| BalanceTrigger.RemovingWholeJournalCommits | src/lib/server/ledger/repository/ledger-repo.test.ts:177-210 | deleting all lines of a journal commits and leaves the other journals' lines |
| BalanceTrigger.DeferredCheckSeesOnlyFinalState | src/lib/server/account/repository/account-repo.test.ts:156-176 | a debit of 10000 and a credit of 10000 to one account: between the two inserts the journal is 10000 out of balance, yet the transaction commits, because only the final state is checked |
| BalanceTrigger.UnbalancedInsertsRollBack | src/lib/server/ledger/repository/ledger-repo.test.ts:107-128 | a debit of 5000 against a credit of 4000 is rolled back with Unbalanced |
| BalanceTrigger.OtherJournalsAreNotReexamined | migrations/migrations/2025-02-01T120000_create_accounting_schema.ts:51 | inserting into one journal queues only that journal; an already unbalanced other journal does not block the commit |
| BalanceTrigger.DeletingOneLineEscapesCheck | migrations/migrations/2025-02-01T120000_create_accounting_schema.ts:65 | as written, deleting one line of a balanced journal commits an unbalanced journal; the corrected trigger refuses it |
| BalanceTrigger.MovingLineEscapesCheck | migrations/migrations/2025-02-01T120000_create_accounting_schema.ts:51 | as written, updating a line into another journal leaves its old journal 5000 out of balance and commits; the corrected trigger refuses it |
| Tables.Database.constructor | migrations/migrations/2025-02-01T120000_create_accounting_schema.ts:8-40 | a freshly migrated database is empty, its sequences start at 1, and the invariant holds |
| LedgerModel.SideLabel | src/lib/models/ledger.model.ts:7 | every side's label parses back to that side |
| LedgerModel.ParseCreateJournalWithEntries | src/lib/models/ledger.model.ts:17-20 | the form parses exactly when the description is non-empty, there are at least two lines, each with a positive account id and a known side; the payload carries the form's values |
| LedgerModel.ParseThenRender | src/lib/models/ledger.model.ts:4-20 | parsing a valid form and writing it back gives the same form |
| LedgerModel.RenderThenParse | src/lib/models/ledger.model.ts:4-20 | a payload meeting the schema's rules, written out and parsed, is the same payload |
| LedgerModel.ValidPayloadMayBeUnbalanced | src/lib/models/ledger.model.ts:6 | the schema accepts a debit of 5000 against a credit of 4000: it does not relate amounts |
| LedgerModel.StoredLineValidIffPositive | src/lib/models/ledger.model.ts:28-34 | a stored line with positive keys passes the read schema exactly when its amount is positive |
| LedgerModel.StoredJournalValidIff | src/lib/models/ledger.model.ts:37-42 | a stored journal with positive keys passes the read schema exactly when its description is non-empty and every line amount is positive |
| LedgerModel.CreateAdmitsWhatReadRefuses | src/lib/models/ledger.model.ts:32 | a negative amount passes the create schema but the same line, read back, fails the read schema |
| AccountModel.ValidNumberFitsColumn | src/lib/models/account.model.ts:4 | an account number the schema accepts (1 to 10 UTF-16 code units) has 1 to 10 characters and is stored in varchar(10) unchanged |
| AccountModel.SchemaAgreesWithInsert | src/lib/models/account.model.ts:3-8 | a valid form with a type of at most 50 characters inserts exactly the submitted row; an insert of a non-empty number that succeeds came from a valid form exactly when the number is at most 10 UTF-16 code units long |
| AccountModel.SchemaAdmitsOverlongType | src/lib/models/account.model.ts:6 | the schema accepts a 51-character type that the column refuses with StringTooLong |
| AccountModel.TableAdmitsEmptyNumber | src/lib/models/account.model.ts:4 | the table accepts an empty account number that the schema refuses |
| AccountModel.TableAdmitsAstralNumber | src/lib/models/account.model.ts:4 | six characters outside the Basic Multilingual Plane are 12 UTF-16 code units: the schema refuses the number, the table stores it unchanged |
| AccountModel.TableTruncatesPaddedNumber | src/lib/models/account.model.ts:4 | "1234567890 " is refused by the schema and stored by the table as "1234567890" |
| AccountBalance.Balance | src/lib/server/account/repository/account-repo.test.ts:205-440 | the balance accumulated line by line equals the normal side's total minus the opposite side's total |
| AccountBalance.BalanceOfUnusedAccount | src/lib/server/account/repository/account-repo.test.ts:235-247 | an account no line names has balance 0 |
| AccountBalance.BalanceAppend | src/lib/server/account/repository/account-repo.test.ts:249-293 | balances accumulate: the balance over two runs of lines is the sum of the two |
| AccountBalance.BalanceFlipsWithNormalSide | src/lib/server/account/repository/account-repo.test.ts:322-440 | reading the same lines from the other normal side negates the balance |
| AccountBalance.SignConventions | src/lib/server/account/repository/account-repo.test.ts:322-440 | crediting a credit-normal or debiting a debit-normal account raises it (5000, 6000); the other two lower it below zero (-3000, -4000) |
| AccountBalance.BalanceAccumulatesAcrossJournals | src/lib/server/account/repository/account-repo.test.ts:249-293 | credit 10000, debit 4000, credit 2000 on a credit-normal account gives 8000, and 8000 on the offsetting debit-normal account |
| AccountBalance.NetIsSumOverAccounts | migrations/migrations/2025-02-01T120000_create_accounting_schema.ts:35-37 | when every line names a known account, the ledger's debits minus credits is the sum of the accounts' debit balances |
| AccountBalance.TrialBalance | migrations/migrations/2025-02-01T120000_create_accounting_schema.ts:45-67 | when every journal balances and every line names a known account, the debit-normal balances add up to the credit-normal ones |
| AccountRepo.GetAccountByNumber | src/lib/server/account/repository/account-repo.ts:5-11 | returns an account holding the number, and fails with NoResult exactly when none does |
| AccountRepo.GetAccountByNumberFindsAccount | src/lib/server/account/repository/account-repo.ts:5-11 | in a consistent database the lookup returns the one account holding the number |
| AccountRepo.GetAllAccounts | src/lib/server/account/repository/account-repo.ts:13-15 | returns exactly the stored accounts, with distinct numbers that fit their columns |
| AccountRepo.CreateAccount | src/lib/server/account/repository/account-repo.ts:17-19 | appends the row the insert produces (values as stored, trailing spaces past a limit cut) exactly when the insert is well-formed and no account holds the stored number; a taken number fails with UniqueViolation, other failures pass through; a failure changes nothing; the invariant is kept |
| AccountRepo.UpdateAccount | src/lib/server/account/repository/account-repo.ts:21-31 | an empty SET fails with InvalidStatement, a bad label with InvalidEnumValue, a value its varchar column cannot take with StringTooLong (before any row is matched), a missing id with NoResult; otherwise only the supplied columns of that one row change, to the values their columns store, exactly when the number is not another account's; a failure changes nothing |
| AccountRepo.UpdateKeepsKeys | migrations/migrations/2025-02-01T120000_create_accounting_schema.ts:11 | replacing a row by one with the same id and a free number keeps ids increasing, numbers distinct and every line's account present |
| AccountRepo.UpdateToTakenNumberFails | src/lib/server/account/repository/account-repo.test.ts:186-203 | setting the number another account holds is caught as a taken number |
| AccountRepo.DeleteAccount | src/lib/server/account/repository/account-repo.ts:33-35 | fails with ForeignKeyViolation and no change exactly when the account exists and a line names it; otherwise removes it, or nothing for a missing id, without raising |
| AccountRepo.DeletedAccountIsNotFound | src/lib/server/account/repository/account-repo.test.ts:126-180 | after deleting an account, looking up its number fails |
| AccountRepo.GetAllAccountsWithBalance | src/lib/server/account/repository/account-repo.test.ts:205-440 | one entry per account, in table order, each with its normal side's total minus the opposite side's |
| AccountRepo.UnusedAccountHasZeroBalance | src/lib/server/account/repository/account-repo.test.ts:235-247 | an account no line names is listed with balance 0 |
| AccountRepo.ListedBalancesAreInBalance | migrations/migrations/2025-02-01T120000_create_accounting_schema.ts:45-67 | in a consistent database the listed debit-normal balances add up to the listed credit-normal ones |
| JournalGrouping.FirstSeen | src/lib/server/ledger/repository/ledger-repo.ts:150-157 | the journal ids the map receives are distinct, and an id is among them exactly when some row carries it |
| JournalGrouping.FirstIndex | src/lib/server/ledger/repository/ledger-repo.ts:150-157 | the position of a journal's first row: it carries the id and no earlier row does |
| JournalGrouping.TransformResultToGetJournalEntry | src/lib/server/ledger/repository/ledger-repo.ts:136-180 | the map-and-forEach loop returns the grouping: one journal per first-seen id, with the header of its first row and its lines in input order |
| JournalGrouping.GroupingHasOneJournalPerId | src/lib/server/ledger/repository/ledger-repo.ts:147-179 | exactly one output journal per distinct journal id of the input, and no other |
| JournalGrouping.GroupingKeepsFirstSeenOrder | src/lib/server/ledger/repository/ledger-repo.ts:147-179 | output journals come in the order their first rows appear |
| JournalGrouping.GroupingLinesBelongToJournal | src/lib/server/ledger/repository/ledger-repo.ts:164-176 | a line is nested under a journal exactly when some input row of that journal carries it |
| JournalGrouping.LinesForIsLinesOfJournal | src/lib/server/ledger/repository/ledger-repo.ts:164-176 | a journal's nested lines are the input's lines of that journal, in input order |
| JournalGrouping.GroupingHeaderFromFirstRow | src/lib/server/ledger/repository/ledger-repo.ts:150-157 | each journal's date and description come from its first row |
| JournalGrouping.GroupingKeepsEveryLine | src/lib/server/ledger/repository/ledger-repo.ts:149-177 | the nested lines are the input's lines as a multiset, and as many as the input rows |
| LedgerRepo.LineInsertError | migrations/migrations/2025-02-01T120000_create_accounting_schema.ts:32-38 | a line inserts exactly when its account id and amount fit integer columns and its account exists; otherwise OutOfRange or ForeignKeyViolation |
| LedgerRepo.FirstLineError | src/lib/server/ledger/repository/ledger-repo.ts:24-32 | the loop raises nothing exactly when every line inserts |
| LedgerRepo.FirstLineErrorAt | src/lib/server/ledger/repository/ledger-repo.ts:24-32 | the error reported is the first failing line's |
| LedgerRepo.AttachImbalance | migrations/migrations/2025-02-01T120000_create_accounting_schema.ts:47-51 | the sum the trigger computes over the new journal's rows is the payload's debits minus credits |
| LedgerRepo.CreateJournalEntry | src/lib/server/ledger/repository/ledger-repo.ts:10-36 | commits exactly when every line inserts and the lines balance: the header with the next id, the given description and date, then each line with consecutive ids and the new journal id, in order; else reports the first line's error or Unbalanced and changes nothing; the invariant is kept |
| LedgerRepo.CommitDecision | migrations/migrations/2025-02-01T120000_create_accounting_schema.ts:64-67 | the new journal's deferred check passes exactly when the payload balances, and the committed tables are then consistent |
| LedgerRepo.CreateIsTriggerCommit | migrations/migrations/2025-02-01T120000_create_accounting_schema.ts:64-67 | the create transaction's line inserts, run against the trigger model, commit exactly when the payload balances; the trigger as written and the corrected one agree |
| LedgerRepo.GetJournalEntryById | src/lib/server/ledger/repository/ledger-repo.ts:41-43 | returns the journal with that id, failing with NoResult exactly when none exists |
| LedgerRepo.GetAllJournalEntries | src/lib/server/ledger/repository/ledger-repo.ts:48-50 | returns exactly the stored journals |
| LedgerRepo.GetLedgerEntriesByJournalEntry | src/lib/server/ledger/repository/ledger-repo.ts:55-63 | returns exactly the lines of the journal; in a consistent database they balance |
| LedgerRepo.GetJournalEntryWithLedgerById | src/lib/server/ledger/repository/ledger-repo.ts:78-92 | fails with NoResult exactly when the journal is missing; otherwise its stored header with exactly its lines |
| LedgerRepo.ReadJournalValidIff | src/lib/server/ledger/repository/ledger-repo.ts:78-92 | in a consistent database, a journal read back passes the read schema exactly when its description is non-empty and every one of its amounts is positive |
| LedgerRepo.CreateThenRead | src/lib/server/ledger/repository/ledger-repo.test.ts:63-67 | a journal just created reads back with its header and exactly the lines it was created with, in order |
| LedgerRepo.DeleteJournalEntry | src/lib/server/ledger/repository/ledger-repo.ts:68-73 | removes the header and every line of the journal, and nothing else; the corrected trigger commits it; the invariant is kept |
| LedgerRepo.DeletedJournalIsGone | src/lib/server/ledger/repository/ledger-repo.ts:68-73 | after the delete the journal and its lines are gone, and every other journal keeps its header and lines |
| LedgerRepo.JoinRows | src/lib/server/ledger/repository/ledger-repo.ts:99-100 | every joined row carries the stored header of its journal |
| LedgerRepo.JoinKeepsEveryLine | src/lib/server/ledger/repository/ledger-repo.ts:99-100 | under the foreign key the inner join carries every line, once, in ledger order |
| LedgerRepo.JoinOccurs | src/lib/server/ledger/repository/ledger-repo.ts:99-100 | a journal appears in the join exactly when some line names it |
| LedgerRepo.GetAllJournalsWithLedgerEntries | src/lib/server/ledger/repository/ledger-repo.ts:97-114 | one journal per journal that has lines, each with its stored header and exactly its lines in order; journals without lines are omitted; every line appears once |
| LedgerRepo.JoinedJournal | src/lib/server/ledger/repository/ledger-repo.ts:97-114 | each regrouped journal has its stored header and all its lines, and at least one |
| LedgerRepo.LinesOfAccount | src/lib/server/ledger/repository/ledger-repo.ts:120 | keeps exactly the lines naming the account |
| LedgerRepo.InsertByDate | src/lib/server/ledger/repository/ledger-repo.ts:130 | the result is the rows plus the new one, as a multiset, and sorted rows stay sorted |
| LedgerRepo.SortByDate | src/lib/server/ledger/repository/ledger-repo.ts:130 | the rows come out sorted by journal date and are a permutation of the input (equal multisets) |
| LedgerRepo.GetAllLedgerEntriesForAccount | src/lib/server/ledger/repository/ledger-repo.ts:116-134 | only lines of the account, grouped under their stored journal headers, journals by ascending date, every line of the account once; empty exactly when no line names the account |
| LedgerRepo.AccountLedger | src/lib/server/ledger/repository/ledger-repo.ts:116-134 | the same five facts about the regrouped account rows, for any tables meeting the foreign key |
| LedgerRepo.AccountJournalsByDate | src/lib/server/ledger/repository/ledger-repo.ts:130 | journals of the account's history come out by ascending date |
| AccountService.AccountsMap | src/lib/server/account/service/account-service.ts:5-8 | the keys are exactly the accounts' ids, and each key maps to an account with that id |
| AccountService.GetAccountsMap | src/lib/server/account/service/account-service.ts:4-9 | the in-place fold computes that map; it is empty exactly for an empty list |
| AccountService.LastAccountWins | src/lib/server/account/service/account-service.ts:6 | the account stored under an id is the last one in the list that has it |
| AccountService.EveryAccountUnderItsId | src/lib/server/account/service/account-service.ts:5-8 | with distinct ids, every account is stored under its own id |
| AccountService.RepeatedIdKeepsLater | src/lib/server/account/service/account-service.ts:6 | of two accounts sharing an id, the map keeps the second |
| InvoiceRepo.InvoiceTables.constructor | migrations/migrations/2025-02-04T172300_invoice.ts:5-28 | both tables start empty with sequences at 1, and the invariant holds |
| InvoiceRepo.CreateDraftInvoice | src/lib/server/invoice/repository/invoice-repo.ts:12-24 | appends a draft with the next, positive id, the given bytes and filename and the current time, and nothing else |
| InvoiceRepo.GetDraftInvoiceById | src/lib/server/invoice/repository/invoice-repo.ts:32-40 | returns the draft with that id, failing with NoResult exactly when none exists |
| InvoiceRepo.CreatedDraftIsFound | src/lib/server/invoice/repository/invoice-repo.ts:12-40 | a draft appended with an id above every earlier one is found by that id |
| InvoiceRepo.GetAllDraftInvoices | src/lib/server/invoice/repository/invoice-repo.ts:47-49 | returns every draft, as many as the table holds |
| InvoiceRepo.DeleteDraftInvoice | src/lib/server/invoice/repository/invoice-repo.ts:56-58 | removes the drafts with that id, or nothing without raising; the lookup then fails with NoResult |
| InvoiceRepo.WithoutExistingDraft | src/lib/server/invoice/repository/invoice-repo.ts:102 | with unique ids, deleting an existing draft removes exactly one row |
| InvoiceRepo.InvoiceInsertError | src/lib/server/invoice/repository/invoice-repo.ts:88-99 | the invoice insert succeeds exactly when amount and vat fit integer columns and the date was read; an unreadable date with a fitting amount gives InvalidDate |
| InvoiceRepo.NonPositiveAmountsAreInserted | src/lib/server/invoice/repository/invoice-repo.test.ts:118-134 | a negative amount, a negative VAT and zero amounts all pass the invoice insert, although the function's documentation asks for positive integers |
| InvoiceRepo.ProcessDraftInvoice | src/lib/server/invoice/repository/invoice-repo.ts:72-106 | fails with NoResult for a missing draft, else with the insert's error, changing nothing; otherwise appends an invoice with the next id, the draft's bytes and filename and the given supplier, amount, date and vat, and deletes the draft |
| InvoiceRepo.ProcessMovesDraft | src/lib/server/invoice/repository/invoice-repo.ts:88-102 | after processing, the draft is gone, the invoice is found by its id with the draft's bytes and filename, and the two tables hold as many rows as before |
| InvoiceRepo.GetInvoiceById | src/lib/server/invoice/repository/invoice-repo.ts:114-122 | returns the invoice with that id, failing with NoResult exactly when none exists |
| InvoiceRepo.GetAllInvoices | src/lib/server/invoice/repository/invoice-repo.ts:129-131 | returns every invoice, as many as the table holds |

## Left out

- Serial values consumed by a failed insert are not modelled. PostgreSQL does not roll back sequence increments, so after a failure the next id may skip. In the model the counters move only on commit.
- Serial overflow past the int4 range is not modelled. Ids are unbounded.
- SELECT without ORDER BY returns rows in table (insertion) order in the model. The join queries return rows in ledger_entry order. PostgreSQL promises no order here.
- Among lines with the same journal date, ORDER BY leaves the order open. The model keeps ledger order.
- AccountBalance.Balance: the balance is an unbounded integer. The bigint-as-text form the driver returns is not modelled.
- A SUM over no rows is NULL in SQL, and `NULL <> 0` does not raise. The model's zero gives the same outcome.
- Amounts are integers. `z.number()` also admits fractions, which the integer column would refuse; that case is not modelled.
- Dates are opaque integers (day numbers). The current time that `now()` supplies is a parameter. Parsing date text is a parameter too: `invoiceDate` is `None` when PostgreSQL cannot read the text.
- InvoiceRepo.ProcessDraftInvoice: accepts a zero or negative amount or VAT and an empty supplier. The function's documentation asks for positive integers, and skipped tests (invoice-repo.test.ts:118-143) expect these to be refused, but neither the code nor the invoice table checks them. The model follows the code (`InvoiceRepo.NonPositiveAmountsAreInserted`).
- AccountRepo.UpdateAccount: an explicit NULL in the patch is not modelled. `None` means "column not supplied", so the NOT NULL violation on update is outside the model.
- AccountRepo.GetAllAccountsWithBalance: the function's body is not part of the repository's source. It is specified from its tests. Rows come in table order, not by account number.
- The file data, filenames and suppliers have no length limits and are not parsed. The PDF `File` check in the invoice model is a browser type and is not modelled.
- Concurrency and isolation levels are not modelled. The model is sequential, so the race between deleting an account and inserting a line that names it is outside it.
- Kysely query building, the connection pool, the migration runner, the HTTP routes and logging are not modelled. They only call the repositories and validators.
- Some ledger repository tests import a function that does not exist. They also expect a flat per-line result from the account history query. The model follows the code, which returns grouped journals.
- `getAllLedgerEntriesForAccount` and `getAllJournalsWithLedgerEntries` are modelled on a database whose foreign keys hold. An inner join with a dangling journal id is specified (`JoinRows` drops that line), but the query's properties are proved only for consistent tables.

## Findings

| source | as written | input that shows it | evidently intended | confidence | as-written member | corrected member |
|---|---|---|---|---|---|---|
| migrations/migrations/2025-02-01T120000_create_accounting_schema.ts:64-67 | the balance trigger fires only AFTER INSERT OR UPDATE, so a DELETE of a line queues no check | a balanced journal 1 with line 1 debit 5000 and line 2 credit 5000; one transaction deletes line 2; the commit succeeds and journal 1 is 5000 out of balance | every journal whose sum a statement changes is re-examined at commit, so no unbalanced journal can be committed | medium, not executed | BalanceTrigger.DeletingOneLineEscapesCheck | BalanceTrigger.CommitPreservesBalance |
| migrations/migrations/2025-02-01T120000_create_accounting_schema.ts:51 | the trigger function sums only NEW.journal_entry_id, so an UPDATE that moves a line out of a journal never re-examines that journal | journal 1 balanced by lines 1 and 2, journal 2 by lines 3 and 4; one transaction updates line 2 into journal 2 and line 4 to amount 0; journal 2 still balances, journal 1 is left 5000 out of balance, and the commit succeeds | the OLD journal of an updated line is re-examined as well | medium, not executed | BalanceTrigger.MovingLineEscapesCheck | BalanceTrigger.CommitPreservesBalance |

The repository's own operations never reach either gap. `createJournalEntry`
only inserts lines, and for insert-only transactions the trigger as written
and the corrected one agree (`BalanceTrigger.InsertsCommitAsWritten`,
`LedgerRepo.CreateIsTriggerCommit`). `deleteJournalEntry` removes whole
journals, which the corrected trigger commits
(`BalanceTrigger.RemovingWholeJournalCommits`). The database invariant is
therefore kept by every modelled operation. The gap opens for any other
writer of `ledger_entry`.
