/** CreateAccountSchema as a validity predicate, and how it relates to the account table's columns. */
module AccountModel {
  import opened DbResult
  import opened Schema

  /** An account as submitted, every field text. */
  datatype AccountForm = AccountForm(accountNumber: string, name: string, accountType: string, normalBalance: string)

  /** A character outside the Basic Multilingual Plane, which UTF-16 writes as a surrogate pair. */
  predicate IsAstral(c: char) {
    c as int > 0xFFFF
  }

  /** The length JavaScript reports for a string: its UTF-16 code units. */
  function Utf16Length(s: string): (n: nat)
    ensures |s| <= n <= 2 * |s|
    ensures n == |s| <==> forall k :: 0 <= k < |s| ==> !IsAstral(s[k])
    ensures n == 2 * |s| <==> forall k :: 0 <= k < |s| ==> IsAstral(s[k])
  {
    if s == [] then 0
    else
      var rest := Utf16Length(s[1..]);
      assert forall k :: 1 <= k < |s| ==> s[k] == s[1..][k - 1];
      (if IsAstral(s[0]) then 2 else 1) + rest
  }

  /**
   * An account number of 1 to 10 UTF-16 code units and a known normal
   * balance; name and type are unconstrained.
   */
  predicate ValidCreateAccount(f: AccountForm) {
    && 1 <= Utf16Length(f.accountNumber) <= 10
    && (f.normalBalance == "debit" || f.normalBalance == "credit")
  }

  /** The INSERT a validated form becomes: every column supplied. */
  function ToNewAccount(f: AccountForm): (r: NewAccount)
    ensures r.accountNumber == Some(f.accountNumber) && r.name == Some(f.name)
    ensures r.accountType == Some(f.accountType) && r.normalBalance == Some(f.normalBalance)
  {
    NewAccount(Some(f.accountNumber), Some(f.name), Some(f.accountType), Some(f.normalBalance))
  }

  /** An account number the schema accepts fits the varchar(10) column and is stored unchanged. */
  lemma ValidNumberFitsColumn(f: AccountForm)
    requires ValidCreateAccount(f)
    ensures 1 <= |f.accountNumber| <= AccountNumberMaxLength
    ensures ToVarchar(f.accountNumber, AccountNumberMaxLength) == Some(f.accountNumber)
  {
  }

  /**
   * A valid form whose type fits its column is inserted as submitted. In the
   * other direction, an insert of a non-empty number that succeeds came from
   * a valid form exactly when the number is at most 10 UTF-16 code units
   * long: the column counts characters, and cuts trailing spaces, where the
   * schema counts code units.
   */
  lemma SchemaAgreesWithInsert(id: int, f: AccountForm)
    ensures ValidCreateAccount(f) && |f.accountType| <= AccountTypeMaxLength
            ==> InsertAccountRow(id, ToNewAccount(f)) == Ok(AccountRow(id, f.accountNumber, f.name, f.accountType, ParseSide(f.normalBalance).value))
    ensures InsertAccountRow(id, ToNewAccount(f)).Ok? && |f.accountNumber| >= 1
            ==> (ValidCreateAccount(f) <==> Utf16Length(f.accountNumber) <= 10)
  {
  }

  /** A form the schema accepts can still be refused by the type column. */
  lemma SchemaAdmitsOverlongType()
    ensures var f := AccountForm("1000", "Cash", seq(51, _ => 'a'), "debit");
            ValidCreateAccount(f) && InsertAccountRow(1, ToNewAccount(f)) == Err(StringTooLong)
  {
    var t: string := seq(51, _ => 'a');
    assert t[50] != ' ';
  }

  /** The table accepts an empty account number that the schema refuses. */
  lemma TableAdmitsEmptyNumber()
    ensures var f := AccountForm("", "Cash", "asset", "debit");
            !ValidCreateAccount(f) && InsertAccountRow(1, ToNewAccount(f)).Ok?
  {
  }

  /**
   * Six characters outside the Basic Multilingual Plane are twelve UTF-16
   * code units: the schema refuses the number, the varchar(10) column stores it.
   */
  lemma TableAdmitsAstralNumber()
    ensures var f := AccountForm(seq(6, _ => '\U{1F600}'), "Cash", "asset", "debit");
            && !ValidCreateAccount(f)
            && InsertAccountRow(1, ToNewAccount(f)) == Ok(AccountRow(1, f.accountNumber, "Cash", "asset", Debit))
  {
    var n: string := seq(6, _ => '\U{1F600}');
    assert forall k :: 0 <= k < |n| ==> IsAstral(n[k]);
  }

  /**
   * An eleven-character number ending in a space: the schema refuses it, the
   * column stores its first ten characters.
   */
  lemma TableTruncatesPaddedNumber()
    ensures var f := AccountForm("1234567890 ", "Cash", "asset", "debit");
            && !ValidCreateAccount(f)
            && InsertAccountRow(1, ToNewAccount(f)) == Ok(AccountRow(1, "1234567890", "Cash", "asset", Debit))
  {
    VarcharTruncatesOnlySpaces();
  }
}
