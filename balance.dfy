/**
 * The balance of an account: what its normal side received minus what the
 * opposite side received, over every ledger line that names it. The sum is
 * signed, zero for an account no line names, and summed over a balanced
 * ledger the debit-normal balances equal the credit-normal ones.
 */
module AccountBalance {
  import opened Schema

  /** SUM(amount) over the lines of one account on one side. */
  function AccountSideTotal(lines: seq<LedgerRow>, accountId: int, side: Side): int {
    if lines == [] then 0
    else (if lines[0].accountId == accountId && lines[0].side == side then lines[0].amount else 0)
         + AccountSideTotal(lines[1..], accountId, side)
  }

  /** One line's effect on the balance of an account whose normal side is `normal`. */
  function Contribution(l: LedgerRow, accountId: int, normal: Side): int {
    if l.accountId != accountId then 0
    else if l.side == normal then l.amount
    else -l.amount
  }

  /** The balance, accumulated line by line in a single pass. */
  function Balance(lines: seq<LedgerRow>, accountId: int, normal: Side): (b: int)
    ensures b == AccountSideTotal(lines, accountId, normal) - AccountSideTotal(lines, accountId, Opposite(normal))
  {
    if lines == [] then 0
    else Contribution(lines[0], accountId, normal) + Balance(lines[1..], accountId, normal)
  }

  lemma {:induction false} BalanceOfUnusedAccount(lines: seq<LedgerRow>, accountId: int, normal: Side)
    requires !AccountIsReferenced(lines, accountId)
    ensures Balance(lines, accountId, normal) == 0
  {
    if lines != [] {
      assert lines[0] in lines;
      assert !AccountIsReferenced(lines[1..], accountId) by {
        forall l | l in lines[1..] ensures l.accountId != accountId {
          assert l in lines;
        }
      }
      BalanceOfUnusedAccount(lines[1..], accountId, normal);
    }
  }

  /** Balances accumulate: the lines of later journals add to the balance of earlier ones. */
  lemma {:induction false} BalanceAppend(xs: seq<LedgerRow>, ys: seq<LedgerRow>, accountId: int, normal: Side)
    ensures Balance(xs + ys, accountId, normal) == Balance(xs, accountId, normal) + Balance(ys, accountId, normal)
  {
    if xs == [] {
      assert xs + ys == ys;
    } else {
      assert (xs + ys)[1..] == xs[1..] + ys;
      BalanceAppend(xs[1..], ys, accountId, normal);
    }
  }

  /** Reading the same lines from the other normal side negates the balance. */
  lemma {:induction false} BalanceFlipsWithNormalSide(lines: seq<LedgerRow>, accountId: int, normal: Side)
    ensures Balance(lines, accountId, Opposite(normal)) == -Balance(lines, accountId, normal)
  {
    if lines != [] {
      BalanceFlipsWithNormalSide(lines[1..], accountId, normal);
    }
  }

  // ------------------------------------------------------ trial balance

  /** The lines that do not name the account. */
  function WithoutAccountLines(lines: seq<LedgerRow>, accountId: int): (r: seq<LedgerRow>)
    ensures forall l :: l in r <==> l in lines && l.accountId != accountId
  {
    if lines == [] then []
    else if lines[0].accountId == accountId then WithoutAccountLines(lines[1..], accountId)
    else [lines[0]] + WithoutAccountLines(lines[1..], accountId)
  }

  lemma {:induction false} NetSplitsByAccount(lines: seq<LedgerRow>, accountId: int)
    ensures Net(lines) == Balance(lines, accountId, Debit) + Net(WithoutAccountLines(lines, accountId))
  {
    if lines != [] {
      NetSplitsByAccount(lines[1..], accountId);
      if lines[0].accountId != accountId {
        assert ([lines[0]] + WithoutAccountLines(lines[1..], accountId))[1..] == WithoutAccountLines(lines[1..], accountId);
      }
    }
  }

  lemma {:induction false} BalanceWithoutOtherAccount(lines: seq<LedgerRow>, removed: int, accountId: int, normal: Side)
    requires removed != accountId
    ensures Balance(WithoutAccountLines(lines, removed), accountId, normal) == Balance(lines, accountId, normal)
  {
    if lines != [] {
      BalanceWithoutOtherAccount(lines[1..], removed, accountId, normal);
      if lines[0].accountId != removed {
        assert ([lines[0]] + WithoutAccountLines(lines[1..], removed))[1..] == WithoutAccountLines(lines[1..], removed);
      }
    }
  }

  /** Debits minus credits per account, summed over a list of accounts. */
  function DebitNetOver(lines: seq<LedgerRow>, accounts: seq<AccountRow>): int {
    if accounts == [] then 0 else Balance(lines, accounts[0].id, Debit) + DebitNetOver(lines, accounts[1..])
  }

  /** The sum of the balances of the accounts whose normal side is `side`. */
  function SideBalances(lines: seq<LedgerRow>, accounts: seq<AccountRow>, side: Side): int {
    if accounts == [] then 0
    else (if accounts[0].normalBalance == side then Balance(lines, accounts[0].id, side) else 0)
         + SideBalances(lines, accounts[1..], side)
  }

  lemma {:induction false} DebitNetOverWithout(lines: seq<LedgerRow>, accounts: seq<AccountRow>, removed: int)
    requires forall a :: a in accounts ==> a.id != removed
    ensures DebitNetOver(WithoutAccountLines(lines, removed), accounts) == DebitNetOver(lines, accounts)
  {
    if accounts != [] {
      assert accounts[0] in accounts;
      BalanceWithoutOtherAccount(lines, removed, accounts[0].id, Debit);
      DebitNetOverWithout(lines, accounts[1..], removed);
    }
  }

  /** When every line names one of the accounts, the ledger's net is the sum of the accounts' nets. */
  lemma {:induction false} NetIsSumOverAccounts(lines: seq<LedgerRow>, accounts: seq<AccountRow>)
    requires AccountIdsIncreasing(accounts)
    requires forall k :: 0 <= k < |lines| ==> FindAccount(accounts, lines[k].accountId).Some?
    ensures Net(lines) == DebitNetOver(lines, accounts)
    decreases |accounts|
  {
    if accounts != [] {
      var a := accounts[0];
      var rest := WithoutAccountLines(lines, a.id);
      NetSplitsByAccount(lines, a.id);
      forall k | 0 <= k < |rest| ensures FindAccount(accounts[1..], rest[k].accountId).Some? {
        assert rest[k] in rest;
        var i :| 0 <= i < |lines| && lines[i] == rest[k];
        var b := FindAccount(accounts, lines[i].accountId).value;
        assert b != a;
        assert b in accounts[1..];
      }
      assert AccountIdsIncreasing(accounts[1..]) by {
        forall i, j | 0 <= i < j < |accounts[1..]| ensures accounts[1..][i].id < accounts[1..][j].id {
          assert accounts[1..][i] == accounts[i + 1] && accounts[1..][j] == accounts[j + 1];
        }
      }
      NetIsSumOverAccounts(rest, accounts[1..]);
      forall b | b in accounts[1..] ensures b.id != a.id {
        var k :| 0 <= k < |accounts[1..]| && accounts[1..][k] == b;
        assert accounts[k + 1] == b;
      }
      DebitNetOverWithout(lines, accounts[1..], a.id);
    }
  }

  lemma {:induction false} DebitNetIsSideDifference(lines: seq<LedgerRow>, accounts: seq<AccountRow>)
    ensures DebitNetOver(lines, accounts) == SideBalances(lines, accounts, Debit) - SideBalances(lines, accounts, Credit)
  {
    if accounts != [] {
      BalanceFlipsWithNormalSide(lines, accounts[0].id, Debit);
      DebitNetIsSideDifference(lines, accounts[1..]);
    }
  }

  /**
   * Trial balance: when every journal balances and every line names a known
   * account, the debit-normal balances add up to the credit-normal ones.
   */
  lemma TrialBalance(lines: seq<LedgerRow>, accounts: seq<AccountRow>)
    requires AllBalanced(lines)
    requires AccountIdsIncreasing(accounts)
    requires forall l :: l in lines ==> FindAccount(accounts, l.accountId).Some?
    ensures SideBalances(lines, accounts, Debit) == SideBalances(lines, accounts, Credit)
  {
    BalancedLedgerNetsToZero(lines);
    assert forall k :: 0 <= k < |lines| ==> lines[k] in lines;
    NetIsSumOverAccounts(lines, accounts);
    DebitNetIsSideDifference(lines, accounts);
  }

  // ----------------------------------------------------------- scenarios

  lemma Balance2(lines: seq<LedgerRow>, accountId: int, normal: Side)
    requires |lines| == 2
    ensures Balance(lines, accountId, normal) == Contribution(lines[0], accountId, normal) + Contribution(lines[1], accountId, normal)
  {
    assert lines[1..][1..] == [];
  }

  const Cash: int := 1
  const Payable: int := 2

  /**
   * The four sign conventions: crediting a credit-normal account or debiting
   * a debit-normal one raises its balance, the other two lower it, below zero.
   */
  lemma SignConventions()
    ensures Balance([LedgerRow(1, 1, Cash, 5000, Debit), LedgerRow(2, 1, Payable, 5000, Credit)], Payable, Credit) == 5000
    ensures Balance([LedgerRow(1, 1, Payable, 3000, Debit), LedgerRow(2, 1, Cash, 3000, Credit)], Payable, Credit) == -3000
    ensures Balance([LedgerRow(1, 1, Cash, 4000, Credit), LedgerRow(2, 1, Payable, 4000, Debit)], Cash, Debit) == -4000
    ensures Balance([LedgerRow(1, 1, Cash, 6000, Debit), LedgerRow(2, 1, Payable, 6000, Credit)], Cash, Debit) == 6000
  {
    Balance2([LedgerRow(1, 1, Cash, 5000, Debit), LedgerRow(2, 1, Payable, 5000, Credit)], Payable, Credit);
    Balance2([LedgerRow(1, 1, Payable, 3000, Debit), LedgerRow(2, 1, Cash, 3000, Credit)], Payable, Credit);
    Balance2([LedgerRow(1, 1, Cash, 4000, Credit), LedgerRow(2, 1, Payable, 4000, Debit)], Cash, Debit);
    Balance2([LedgerRow(1, 1, Cash, 6000, Debit), LedgerRow(2, 1, Payable, 6000, Credit)], Cash, Debit);
  }

  const Revenue: int := 1
  const Offset: int := 2
  const Journal1: seq<LedgerRow> := [LedgerRow(1, 1, Revenue, 10000, Credit), LedgerRow(2, 1, Offset, 10000, Debit)]
  const Journal2: seq<LedgerRow> := [LedgerRow(3, 2, Revenue, 4000, Debit), LedgerRow(4, 2, Offset, 4000, Credit)]
  const Journal3: seq<LedgerRow> := [LedgerRow(5, 3, Revenue, 2000, Credit), LedgerRow(6, 3, Offset, 2000, Debit)]

  /** Credit 10000, debit 4000, credit 2000 on a credit-normal account: 8000, and 8000 on the offset account. */
  lemma BalanceAccumulatesAcrossJournals()
    ensures Balance(Journal1 + Journal2 + Journal3, Revenue, Credit) == 8000
    ensures Balance(Journal1 + Journal2 + Journal3, Offset, Debit) == 8000
  {
    forall id, normal ensures Balance(Journal1 + Journal2 + Journal3, id, normal)
                            == Balance(Journal1, id, normal) + Balance(Journal2, id, normal) + Balance(Journal3, id, normal) {
      BalanceAppend(Journal1 + Journal2, Journal3, id, normal);
      BalanceAppend(Journal1, Journal2, id, normal);
    }
    Balance2(Journal1, Revenue, Credit);
    Balance2(Journal2, Revenue, Credit);
    Balance2(Journal3, Revenue, Credit);
    Balance2(Journal1, Offset, Debit);
    Balance2(Journal2, Offset, Debit);
    Balance2(Journal3, Offset, Debit);
  }
}
