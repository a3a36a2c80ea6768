/** The append-only ledger collection, its sums, and deletion by transfer number and wallet. */
module Ledgers {
  /** Amounts are integer thousandths of a dinar. */
  datatype Row = Row(number: string, entity: string, amount: int, before: int, after: int)

  /** `calculateBalance(entityId)`: the sum of the wallet's rows. */
  function CalculateBalance(ledger: seq<Row>, entity: string): int {
    if ledger == [] then 0 else
      CalculateBalance(ledger[..|ledger| - 1], entity) +
      if ledger[|ledger| - 1].entity == entity then ledger[|ledger| - 1].amount else 0
  }

  /** The rows `deleteMany({ transactionId, entityId })` matches. */
  predicate Matches(row: Row, number: string, entity: string) {
    row.number == number && row.entity == entity
  }

  function DeleteRows(ledger: seq<Row>, number: string, entity: string): seq<Row> {
    if ledger == [] then [] else
      DeleteRows(ledger[..|ledger| - 1], number, entity) +
      if Matches(ledger[|ledger| - 1], number, entity) then [] else [ledger[|ledger| - 1]]
  }

  /** The rows a deletion removes, oldest first. */
  function MatchingRows(ledger: seq<Row>, number: string, entity: string): seq<Row> {
    if ledger == [] then [] else
      MatchingRows(ledger[..|ledger| - 1], number, entity) +
      if Matches(ledger[|ledger| - 1], number, entity) then [ledger[|ledger| - 1]] else []
  }

  lemma AppendedRow(ledger: seq<Row>, row: Row, n: string, w: string)
    ensures CalculateBalance(ledger + [row], w) == CalculateBalance(ledger, w) + if row.entity == w then row.amount else 0
    ensures MatchingRows(ledger + [row], n, w) ==
            if Matches(row, n, w) then MatchingRows(ledger, n, w) + [row] else MatchingRows(ledger, n, w)
  {
    assert (ledger + [row])[..|ledger|] == ledger;
    assert MatchingRows(ledger, n, w) + [] == MatchingRows(ledger, n, w);
  }

  lemma DeletionOfOneMore(ledger: seq<Row>, row: Row, number: string, entity: string)
    ensures DeleteRows(ledger + [row], number, entity) ==
            if Matches(row, number, entity) then DeleteRows(ledger, number, entity) else DeleteRows(ledger, number, entity) + [row]
  {
    assert (ledger + [row])[..|ledger|] == ledger;
    assert DeleteRows(ledger, number, entity) + [] == DeleteRows(ledger, number, entity);
  }

  /** Deleting a transfer's rows on a wallet takes exactly their sum out of that wallet's sum. */
  lemma {:induction false} DeletionMovesOneSum(ledger: seq<Row>, number: string, entity: string, other: string)
    ensures CalculateBalance(DeleteRows(ledger, number, entity), other) ==
            CalculateBalance(ledger, other)
            - if other == entity then CalculateBalance(MatchingRows(ledger, number, entity), entity) else 0
  {
    if ledger == [] {
    } else {
      hide CalculateBalance, DeleteRows, MatchingRows;
      var rest, last := ledger[..|ledger| - 1], ledger[|ledger| - 1];
      DeletionMovesOneSum(rest, number, entity, other);
      assert ledger == rest + [last];
      DeletionOfOneMore(rest, last, number, entity);
      AppendedRow(rest, last, number, entity);
      AppendedRow(rest, last, number, other);
      AppendedRow(DeleteRows(rest, number, entity), last, number, other);
      AppendedRow(MatchingRows(rest, number, entity), last, number, entity);
    }
  }

  lemma NoRowsSum(entity: string)
    ensures CalculateBalance([], entity) == 0
  {
  }

  lemma OneRowSum(rows: seq<Row>, entity: string)
    requires |rows| == 1 && rows[0].entity == entity
    ensures CalculateBalance(rows, entity) == rows[0].amount
  {
    assert rows[..0] == [];
  }

  /** Deletion empties its own key and leaves every other key's rows as they were. */
  lemma {:induction false} DeletionKeepsOtherRows(ledger: seq<Row>, number: string, entity: string, n: string, w: string)
    ensures MatchingRows(DeleteRows(ledger, number, entity), n, w) ==
            if n == number && w == entity then [] else MatchingRows(ledger, n, w)
  {
    if ledger != [] {
      DeletionKeepsOtherRows(ledger[..|ledger| - 1], number, entity, n, w);
      var rest, last := ledger[..|ledger| - 1], ledger[|ledger| - 1];
      var kept := DeleteRows(rest, number, entity);
      assert (kept + [last])[..|kept|] == kept;
      assert kept + [] == kept;
    }
  }

  lemma {:induction false} DeletionOnlyRemoves(ledger: seq<Row>, number: string, entity: string, row: Row)
    ensures row in DeleteRows(ledger, number, entity) <==> row in ledger && !Matches(row, number, entity)
  {
    if ledger != [] {
      DeletionOnlyRemoves(ledger[..|ledger| - 1], number, entity, row);
      assert ledger == ledger[..|ledger| - 1] + [ledger[|ledger| - 1]];
    }
  }
}
