/**
 * transformResultToGetJournalEntry: flat rows of a journal_entry/ledger_entry
 * join regrouped into one journal per journal id, each with its lines
 * nested. Journals come out in the order their id is first seen; each keeps
 * the header of its first row and its lines in input order.
 */
module JournalGrouping {
  import opened Schema

  /** One row of the join: the journal's columns beside one of its lines. */
  datatype JoinRow = JoinRow(journalId: int, journalDescription: string, journalDate: int,
                             ledgerId: int, ledgerAccountId: int, ledgerAmount: int, ledgerSide: Side)

  /** A journal with its lines nested (the GetJournalEntry shape). */
  datatype GetJournalEntry = GetJournalEntry(id: int, date: int, description: string, ledgerEntries: seq<LedgerRow>)

  /** The line a join row carries. */
  function ToLine(v: JoinRow): (l: LedgerRow)
    ensures l.journalEntryId == v.journalId && l.id == v.ledgerId && l.accountId == v.ledgerAccountId
    ensures l.amount == v.ledgerAmount && l.side == v.ledgerSide
  {
    LedgerRow(v.ledgerId, v.journalId, v.ledgerAccountId, v.ledgerAmount, v.ledgerSide)
  }

  function Lines(rows: seq<JoinRow>): (r: seq<LedgerRow>)
    ensures |r| == |rows| && forall k :: 0 <= k < |rows| ==> r[k] == ToLine(rows[k])
  {
    seq(|rows|, k requires 0 <= k < |rows| => ToLine(rows[k]))
  }

  predicate Occurs(rows: seq<JoinRow>, id: int) {
    exists k :: 0 <= k < |rows| && rows[k].journalId == id
  }

  lemma OccursSnoc(rows: seq<JoinRow>)
    requires rows != []
    ensures forall id :: Occurs(rows, id) <==> Occurs(rows[..|rows| - 1], id) || rows[|rows| - 1].journalId == id
  {
    var p := rows[..|rows| - 1];
    forall id ensures Occurs(rows, id) <==> Occurs(p, id) || rows[|rows| - 1].journalId == id {
      if Occurs(p, id) {
        var k :| 0 <= k < |p| && p[k].journalId == id;
        assert rows[k] == p[k];
      }
      if Occurs(rows, id) && rows[|rows| - 1].journalId != id {
        var k :| 0 <= k < |rows| && rows[k].journalId == id;
        assert p[k] == rows[k];
      }
    }
  }

  /** The distinct journal ids, in order of first appearance. */
  function FirstSeen(rows: seq<JoinRow>): (r: seq<int>)
    ensures forall i, j :: 0 <= i < j < |r| ==> r[i] != r[j]
    ensures forall id :: id in r <==> Occurs(rows, id)
    decreases |rows|
  {
    if rows == [] then []
    else
      var prefix := FirstSeen(rows[..|rows| - 1]);
      var id := rows[|rows| - 1].journalId;
      OccursSnoc(rows);
      if id in prefix then prefix else prefix + [id]
  }

  /** The lines of one journal, in input order. */
  function LinesFor(rows: seq<JoinRow>, id: int): (r: seq<LedgerRow>)
    ensures forall l :: l in r ==> l.journalEntryId == id
    decreases |rows|
  {
    if rows == [] then []
    else LinesFor(rows[..|rows| - 1], id) + (if rows[|rows| - 1].journalId == id then [ToLine(rows[|rows| - 1])] else [])
  }

  /** The position of the first row of a journal. */
  function FirstIndex(rows: seq<JoinRow>, id: int): (r: nat)
    requires Occurs(rows, id)
    ensures r < |rows| && rows[r].journalId == id
    ensures forall k :: 0 <= k < r ==> rows[k].journalId != id
  {
    if rows[0].journalId == id then 0
    else
      assert Occurs(rows[1..], id) by {
        var k :| 0 <= k < |rows| && rows[k].journalId == id;
        assert rows[1..][k - 1] == rows[k];
      }
      1 + FirstIndex(rows[1..], id)
  }

  /** The grouped result the transformation promises. */
  function Grouping(rows: seq<JoinRow>): seq<GetJournalEntry> {
    var ids := FirstSeen(rows);
    seq(|ids|, k requires 0 <= k < |ids| =>
      var first := rows[FirstIndex(rows, ids[k])];
      GetJournalEntry(ids[k], first.journalDate, first.journalDescription, LinesFor(rows, ids[k])))
  }

  // ------------------------------------------------- the transformation

  lemma FirstIndexSnoc(rows: seq<JoinRow>, i: int, id: int)
    requires 0 <= i < |rows|
    requires Occurs(rows[..i + 1], id)
    ensures Occurs(rows[..i], id) ==> FirstIndex(rows[..i + 1], id) == FirstIndex(rows[..i], id)
    ensures !Occurs(rows[..i], id) ==> FirstIndex(rows[..i + 1], id) == i
  {
    var longer := FirstIndex(rows[..i + 1], id);
    if Occurs(rows[..i], id) {
      var shorter := FirstIndex(rows[..i], id);
      assert rows[..i + 1][shorter] == rows[..i][shorter];
      assert forall k :: 0 <= k < i ==> rows[..i][k] == rows[..i + 1][k];
    } else {
      assert forall k :: 0 <= k < i ==> rows[..i][k] == rows[..i + 1][k];
    }
  }

  /**
   * A map keyed by journal id, filled in one pass: a journal is added with
   * the header of its first row, and every row appends its line. The map's
   * insertion order is kept as a separate key list, which is the order the
   * values come out in.
   */
  method TransformResultToGetJournalEntry(rows: seq<JoinRow>) returns (result: seq<GetJournalEntry>)
    ensures result == Grouping(rows)
  {
    var keys: seq<int> := [];
    var entries: map<int, GetJournalEntry> := map[];
    for i := 0 to |rows|
      invariant keys == FirstSeen(rows[..i])
      invariant forall id :: id in entries <==> id in keys
      invariant forall id :: id in entries ==>
        && Occurs(rows[..i], id)
        && entries[id] == GetJournalEntry(id, rows[FirstIndex(rows[..i], id)].journalDate,
                                          rows[FirstIndex(rows[..i], id)].journalDescription, LinesFor(rows[..i], id))
    {
      var v := rows[i];
      ghost var before := entries;
      assert rows[..i + 1][..i] == rows[..i];
      assert rows[..i + 1][i] == v;
      OccursSnoc(rows[..i + 1]);
      if v.journalId !in entries {
        NoLinesForAbsentJournal(rows[..i], v.journalId);
        entries := entries[v.journalId := GetJournalEntry(v.journalId, v.journalDate, v.journalDescription, [])];
        keys := keys + [v.journalId];
      }
      // The lookup cannot miss: the id was added just above if it was new.
      var journalEntry := entries[v.journalId];
      entries := entries[v.journalId := journalEntry.(ledgerEntries := journalEntry.ledgerEntries + [ToLine(v)])];
      forall id | id in entries
        ensures Occurs(rows[..i + 1], id)
        ensures entries[id] == GetJournalEntry(id, rows[FirstIndex(rows[..i + 1], id)].journalDate,
                                               rows[FirstIndex(rows[..i + 1], id)].journalDescription, LinesFor(rows[..i + 1], id))
      {
        FirstIndexSnoc(rows, i, id);
        assert LinesFor(rows[..i + 1], id) == LinesFor(rows[..i], id) + (if v.journalId == id then [ToLine(v)] else []);
        if id != v.journalId {
          assert id in before;
        }
      }
    }
    assert rows[..|rows|] == rows;
    forall m | 0 <= m < |keys| ensures keys[m] in entries {
      var id := keys[m];
      assert id in keys;
      assert id in entries <==> id in keys;
    }
    result := [];
    for k := 0 to |keys|
      invariant |result| == k
      invariant forall m :: 0 <= m < k ==> result[m] == entries[keys[m]]
    {
      result := result + [entries[keys[k]]];
    }
  }

  // ------------------------------------------------------------ lemmas

  /** Exactly one journal per distinct id, and no other. */
  lemma GroupingHasOneJournalPerId(rows: seq<JoinRow>)
    ensures var g := Grouping(rows);
            && (forall i, j :: 0 <= i < j < |g| ==> g[i].id != g[j].id)
            && (forall id :: Occurs(rows, id) <==> exists k :: 0 <= k < |g| && g[k].id == id)
  {
    var g := Grouping(rows);
    var ids := FirstSeen(rows);
    forall id | Occurs(rows, id) ensures exists k :: 0 <= k < |g| && g[k].id == id {
      var k :| 0 <= k < |ids| && ids[k] == id;
      assert g[k].id == id;
    }
  }

  /** Journals come out in the order their first row appears. */
  lemma {:induction false} FirstSeenOrder(rows: seq<JoinRow>)
    ensures var ids := FirstSeen(rows);
            forall i, j :: 0 <= i < j < |ids| ==> FirstIndex(rows, ids[i]) < FirstIndex(rows, ids[j])
    decreases |rows|
  {
    if rows != [] {
      var n := |rows| - 1;
      var p := rows[..n];
      var ids := FirstSeen(rows);
      FirstSeenOrder(p);
      assert rows[..n + 1] == rows;
      forall i, j | 0 <= i < j < |ids| ensures FirstIndex(rows, ids[i]) < FirstIndex(rows, ids[j]) {
        FirstIndexSnoc(rows, n, ids[i]);
        FirstIndexSnoc(rows, n, ids[j]);
        assert ids[i] in FirstSeen(p);
      }
    }
  }

  lemma GroupingKeepsFirstSeenOrder(rows: seq<JoinRow>)
    ensures var g := Grouping(rows);
            forall i, j :: 0 <= i < j < |g| ==> FirstIndex(rows, g[i].id) < FirstIndex(rows, g[j].id)
  {
    FirstSeenOrder(rows);
    assert forall k :: 0 <= k < |Grouping(rows)| ==> Grouping(rows)[k].id == FirstSeen(rows)[k];
  }

  /** A line is in a journal's group exactly when some row of that journal carries it. */
  lemma {:induction false} LinesForMembership(rows: seq<JoinRow>, id: int)
    ensures forall l :: l in LinesFor(rows, id) <==> exists k :: 0 <= k < |rows| && rows[k].journalId == id && ToLine(rows[k]) == l
    decreases |rows|
  {
    if rows != [] {
      var n := |rows| - 1;
      LinesForMembership(rows[..n], id);
      forall l ensures l in LinesFor(rows, id) <==> exists k :: 0 <= k < |rows| && rows[k].journalId == id && ToLine(rows[k]) == l {
        if l in LinesFor(rows[..n], id) {
          var k :| 0 <= k < n && rows[..n][k].journalId == id && ToLine(rows[..n][k]) == l;
          assert rows[k] == rows[..n][k];
        }
        if exists k :: 0 <= k < |rows| && rows[k].journalId == id && ToLine(rows[k]) == l {
          var k :| 0 <= k < |rows| && rows[k].journalId == id && ToLine(rows[k]) == l;
          if k < n {
            assert rows[..n][k] == rows[k];
          }
        }
      }
    }
  }

  lemma GroupingLinesBelongToJournal(rows: seq<JoinRow>)
    ensures var g := Grouping(rows);
            forall k :: 0 <= k < |g| ==>
              forall l :: l in g[k].ledgerEntries <==> exists m :: 0 <= m < |rows| && rows[m].journalId == g[k].id && ToLine(rows[m]) == l
  {
    var g := Grouping(rows);
    forall k | 0 <= k < |g| {
      LinesForMembership(rows, g[k].id);
    }
  }

  /** Every journal keeps the header of its first row. */
  lemma GroupingHeaderFromFirstRow(rows: seq<JoinRow>, k: int)
    requires 0 <= k < |Grouping(rows)|
    ensures var e := Grouping(rows)[k];
            Occurs(rows, e.id)
            && e.date == rows[FirstIndex(rows, e.id)].journalDate
            && e.description == rows[FirstIndex(rows, e.id)].journalDescription
  {
    assert FirstSeen(rows)[k] in FirstSeen(rows);
  }

  // ------------------------------------------------- partition of lines

  /** The nested lines, one journal after another. */
  function Flatten(gs: seq<GetJournalEntry>): seq<LedgerRow> {
    if gs == [] then [] else gs[0].ledgerEntries + Flatten(gs[1..])
  }

  function Grouped(rows: seq<JoinRow>, ids: seq<int>): seq<LedgerRow> {
    if ids == [] then [] else LinesFor(rows, ids[0]) + Grouped(rows, ids[1..])
  }

  lemma {:induction false} FlattenIsGrouped(rows: seq<JoinRow>, gs: seq<GetJournalEntry>, ids: seq<int>)
    requires |gs| == |ids|
    requires forall k :: 0 <= k < |gs| ==> gs[k].ledgerEntries == LinesFor(rows, ids[k])
    ensures Flatten(gs) == Grouped(rows, ids)
  {
    if gs != [] {
      FlattenIsGrouped(rows, gs[1..], ids[1..]);
    }
  }

  lemma NoLinesForAbsentJournal(rows: seq<JoinRow>, id: int)
    requires !Occurs(rows, id)
    ensures LinesFor(rows, id) == []
  {
    LinesForMembership(rows, id);
    if LinesFor(rows, id) != [] {
      assert LinesFor(rows, id)[0] in LinesFor(rows, id);
    }
  }

  lemma {:induction false} GroupedAppendId(rows: seq<JoinRow>, ids: seq<int>, x: int)
    ensures Grouped(rows, ids + [x]) == Grouped(rows, ids) + LinesFor(rows, x)
  {
    if ids == [] {
      assert ids + [x] == [x];
    } else {
      assert (ids + [x])[1..] == ids[1..] + [x];
      GroupedAppendId(rows, ids[1..], x);
    }
  }

  /** Appending one row adds its line to the group of its journal, if that journal is listed. */
  lemma {:induction false} GroupedAppendRow(rows: seq<JoinRow>, v: JoinRow, ids: seq<int>)
    requires forall i, j :: 0 <= i < j < |ids| ==> ids[i] != ids[j]
    ensures multiset(Grouped(rows + [v], ids))
            == multiset(Grouped(rows, ids)) + (if v.journalId in ids then multiset{ToLine(v)} else multiset{})
  {
    if ids != [] {
      assert (rows + [v])[..|rows + [v]| - 1] == rows;
      GroupedAppendRow(rows, v, ids[1..]);
      assert v.journalId == ids[0] ==> v.journalId !in ids[1..];
      assert v.journalId in ids <==> v.journalId == ids[0] || v.journalId in ids[1..];
    }
  }

  /** Regrouping neither loses, duplicates nor invents a line. */
  lemma {:induction false} GroupingPartitionsLines(rows: seq<JoinRow>)
    ensures multiset(Grouped(rows, FirstSeen(rows))) == multiset(Lines(rows))
    decreases |rows|
  {
    if rows != [] {
      var n := |rows| - 1;
      var p := rows[..n];
      var v := rows[n];
      assert rows == p + [v];
      GroupingPartitionsLines(p);
      GroupedAppendRow(p, v, FirstSeen(p));
      assert Lines(rows) == Lines(p) + [ToLine(v)];
      if v.journalId !in FirstSeen(p) {
        GroupedAppendId(rows, FirstSeen(p), v.journalId);
        NoLinesForAbsentJournal(p, v.journalId);
        assert LinesFor(rows, v.journalId) == [ToLine(v)];
      }
    }
  }

  /** The nested lines are the input's lines, and as many of them. */
  lemma GroupingKeepsEveryLine(rows: seq<JoinRow>)
    ensures multiset(Flatten(Grouping(rows))) == multiset(Lines(rows))
    ensures |Flatten(Grouping(rows))| == |rows|
  {
    FlattenIsGrouped(rows, Grouping(rows), FirstSeen(rows));
    GroupingPartitionsLines(rows);
    assert |multiset(Flatten(Grouping(rows)))| == |multiset(Lines(rows))|;
  }

  /** A journal's group holds the same lines, in the same order, as filtering the rows' lines by journal id. */
  lemma {:induction false} LinesForIsLinesOfJournal(rows: seq<JoinRow>, id: int)
    ensures LinesFor(rows, id) == LinesOfJournal(Lines(rows), id)
    decreases |rows|
  {
    if rows != [] {
      var n := |rows| - 1;
      LinesForIsLinesOfJournal(rows[..n], id);
      assert Lines(rows) == Lines(rows[..n]) + [ToLine(rows[n])];
      LinesOfJournalAppend(Lines(rows[..n]), [ToLine(rows[n])], id);
      assert [ToLine(rows[n])][1..] == [];
    }
  }
}
