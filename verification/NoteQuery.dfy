/** The query for spendable notes, and its cut-off once enough value is found. */
module NoteQuery {
  import opened Prelude
  import opened Chain

  /** A row of the join of notes and spendable notes. */
  datatype NoteRow = NoteRow(note: Note, account: nat, spent: bool)

  datatype Filter = Filter(includeSpent: bool, asset: Option<AssetId>, account: Option<nat>, amountToSpend: Option<nat>)
  {
    /** The amount counts only for unspent notes of one asset. */
    predicate CutsOff() {
      amountToSpend.Some? && !includeSpent && asset.Some?
    }

    function Needed(): nat {
      if amountToSpend.Some? then amountToSpend.value else 0
    }

    /** What the query's text selects. */
    predicate InTable(row: NoteRow) {
      (includeSpent || !row.spent) && (asset.None? || row.note.asset == asset.value)
    }

    predicate Selects(row: NoteRow) {
      InTable(row) && (account.None? || row.account == account.value)
    }
  }

  function Matching(f: Filter, rows: seq<NoteRow>): seq<NoteRow> {
    if rows == [] then []
    else (if f.Selects(rows[0]) then [rows[0]] else []) + Matching(f, rows[1..])
  }

  function Visible(rows: seq<NoteRow>): seq<NoteRow> {
    if rows == [] then []
    else (if rows[0].note.amount > 0 then [rows[0]] else []) + Visible(rows[1..])
  }

  function Total(rows: seq<NoteRow>): nat {
    if rows == [] then 0 else rows[0].note.amount + Total(rows[1..])
  }

  /** The row is unspent unless spent ones are asked for, of the asset asked for, and of the account asked for. */
  predicate Wanted(f: Filter, row: NoteRow) {
    && (row.spent ==> f.includeSpent)
    && (f.asset.None? || f.asset == Some(row.note.asset))
    && (f.account.None? || f.account == Some(row.account))
  }

  lemma {:induction false} MatchingAppend(f: Filter, rows: seq<NoteRow>, row: NoteRow)
    ensures Matching(f, rows + [row]) == Matching(f, rows) + if f.Selects(row) then [row] else []
  {
    if rows == [] {
      assert rows + [row] == [row] && [row][1..] == [];
    } else {
      MatchingAppend(f, rows[1..], row);
      assert (rows + [row])[1..] == rows[1..] + [row];
      var head, last := if f.Selects(rows[0]) then [rows[0]] else [], if f.Selects(row) then [row] else [];
      assert head + (Matching(f, rows[1..]) + last) == head + Matching(f, rows[1..]) + last;
    }
  }

  /** Exactly the wanted rows match, in their order. */
  lemma {:induction false} MatchingInOrder(f: Filter, rows: seq<NoteRow>) returns (places: seq<nat>)
    ensures |places| == |Matching(f, rows)|
    ensures forall k :: 0 <= k < |places| ==> places[k] < |rows| && Matching(f, rows)[k] == rows[places[k]]
    ensures forall k, l :: 0 <= k < l < |places| ==> places[k] < places[l]
    ensures forall i :: 0 <= i < |rows| ==> (i in places <==> Wanted(f, rows[i]))
    decreases |rows|
  {
    if rows == [] {
      places := [];
    } else {
      var init, last := rows[..|rows| - 1], |rows| - 1;
      places := MatchingInOrder(f, init);
      MatchingAppend(f, init, rows[last]);
      assert rows == init + [rows[last]];
      hide Matching;
      if Wanted(f, rows[last]) {
        places := places + [last];
      }
    }
  }

  /** Exactly the rows of positive amount are shown, in their order. */
  lemma {:induction false} VisibleInOrder(rows: seq<NoteRow>) returns (places: seq<nat>)
    ensures |places| == |Visible(rows)|
    ensures forall k :: 0 <= k < |places| ==> places[k] < |rows| && Visible(rows)[k] == rows[places[k]]
    ensures forall k, l :: 0 <= k < l < |places| ==> places[k] < places[l]
    ensures forall i :: 0 <= i < |rows| ==> (i in places <==> rows[i].note.amount > 0)
    decreases |rows|
  {
    if rows == [] {
      places := [];
    } else {
      var init, last := rows[..|rows| - 1], |rows| - 1;
      places := VisibleInOrder(init);
      OneMore(init, rows[last]);
      assert rows == init + [rows[last]];
      hide Visible, Total;
      if rows[last].note.amount > 0 {
        places := places + [last];
      }
    }
  }

  /** What the wanted rows are worth. */
  function WantedTotal(f: Filter, rows: seq<NoteRow>): nat {
    if rows == [] then 0
    else (if Wanted(f, rows[0]) then rows[0].note.amount else 0) + WantedTotal(f, rows[1..])
  }

  lemma {:induction false} MatchingTotal(f: Filter, rows: seq<NoteRow>)
    ensures Total(Matching(f, rows)) == WantedTotal(f, rows)
  {
    if rows != [] {
      MatchingTotal(f, rows[1..]);
      var head := if f.Selects(rows[0]) then [rows[0]] else [];
      TotalAppend(head, Matching(f, rows[1..]));
      assert head == [] || head[1..] == [];
    }
  }

  lemma RowsShown(f: Filter, rows: seq<NoteRow>, considered: seq<NoteRow>)
    requires considered <= Matching(f, rows)
    ensures forall row <- Visible(considered) :: row in rows && Wanted(f, row) && row.note.amount > 0
  {
    var places := MatchingInOrder(f, rows);
    var shown := VisibleInOrder(considered);
    forall row | row in Visible(considered) ensures row in rows && Wanted(f, row) && row.note.amount > 0 {
      var k :| 0 <= k < |shown| && row == Visible(considered)[k];
      assert shown[k] in shown;
      assert row == Matching(f, rows)[shown[k]] == rows[places[shown[k]]];
      assert places[shown[k]] in places;
    }
  }

  /** Every row shown of those considered is one of the table's, worth something and wanted. */
  lemma ConsideredShown(f: Filter, rows: seq<NoteRow>)
    ensures forall row <- Visible(if f.CutsOff() then UpTo(Matching(f, rows), f.Needed()) else Matching(f, rows)) ::
              row in rows && row.note.amount > 0 && Wanted(f, row)
  {
    hide Matching, Visible, Total, UpTo, Wanted;
    UpToIsShortest(Matching(f, rows), f.Needed());
    RowsShown(f, rows, Matching(f, rows));
    RowsShown(f, rows, UpTo(Matching(f, rows), f.Needed()));
  }

  /** Rows up to and including the one with which the amount is reached. */
  function UpTo(rows: seq<NoteRow>, need: nat): seq<NoteRow> {
    if rows == [] then []
    else if rows[0].note.amount >= need then [rows[0]]
    else [rows[0]] + UpTo(rows[1..], need - rows[0].note.amount)
  }

  /** The rows considered: the shortest run of them that reaches the amount, or all of them. */
  lemma {:induction false} UpToIsShortest(rows: seq<NoteRow>, need: nat)
    ensures UpTo(rows, need) <= rows
    ensures need > 0 ==> (Total(UpTo(rows, need)) >= need <==> Total(rows) >= need)
    ensures Total(rows) < need ==> UpTo(rows, need) == rows
  {
    if rows != [] && rows[0].note.amount < need {
      UpToIsShortest(rows[1..], need - rows[0].note.amount);
      assert rows == [rows[0]] + rows[1..];
    }
  }

  lemma {:induction false} ShorterFallsShort(rows: seq<NoteRow>, need: nat, k: nat)
    requires 0 < k < |UpTo(rows, need)| && k <= |rows|
    ensures Total(rows[..k]) < need
  {
    assert rows[..k][1..] == rows[1..][..k - 1];
    if k == 1 {
      assert rows[1..][..0] == [];
    } else {
      ShorterFallsShort(rows[1..], need - rows[0].note.amount, k - 1);
    }
  }

  lemma {:induction false} VisibleAppend(rows: seq<NoteRow>, more: seq<NoteRow>)
    ensures Visible(rows + more) == Visible(rows) + Visible(more)
  {
    if rows == [] {
      assert rows + more == more;
    } else {
      VisibleAppend(rows[1..], more);
      assert (rows + more)[1..] == rows[1..] + more;
      var head := if rows[0].note.amount > 0 then [rows[0]] else [];
      assert head + (Visible(rows[1..]) + Visible(more)) == head + Visible(rows[1..]) + Visible(more);
    }
  }

  /** How far the loop is: the rows taken and those still to match, and what has been added up. */
  ghost predicate Considered(f: Filter, all: seq<NoteRow>, taken: seq<NoteRow>, rest: seq<NoteRow>, total: nat) {
    && all == taken + rest
    && total == (if f.CutsOff() then Total(taken) else 0)
    && (f.CutsOff() ==> taken == [] || total < f.Needed())
    && (f.CutsOff() ==> UpTo(all, f.Needed()) == taken + UpToMore(rest, f.Needed() - total))
  }

  /** One more matching row, unless it is the one with which the amount is reached. */
  lemma ConsiderNext(f: Filter, all: seq<NoteRow>, taken: seq<NoteRow>, row: NoteRow, rest: seq<NoteRow>, total: nat)
    requires Considered(f, all, taken, [row] + rest, total)
    ensures var total' := if f.CutsOff() then total + row.note.amount else 0;
            if f.CutsOff() && total' >= f.Needed() then
              UpTo(all, f.Needed()) == taken + [row] && Total(all) >= f.Needed()
            else
              Considered(f, all, taken + [row], rest, total')
  {
    hide Total, UpTo, UpToMore;
    NoTotal();
    OneMore(taken, row);
    TotalAppend(taken + [row], rest);
    Reassociate(taken, row, rest);
    if f.CutsOff() {
      UpToNext(row, rest, f.Needed() - total);
      Reassociate(taken, row, UpToMore(rest, f.Needed() - total - row.note.amount));
    }
  }

  lemma NoTotal()
    ensures Total([]) == 0
  {
  }

  lemma Reassociate(taken: seq<NoteRow>, row: NoteRow, rest: seq<NoteRow>)
    ensures taken + ([row] + rest) == taken + [row] + rest
  {
  }

  /** With no rows left, everything was taken. */
  lemma ConsideredAll(f: Filter, all: seq<NoteRow>, taken: seq<NoteRow>, total: nat)
    requires Considered(f, all, taken, [], total)
    ensures taken == all && (f.CutsOff() ==> UpTo(all, f.Needed()) == taken && total == Total(all))
    ensures !f.CutsOff() ==> total == 0
  {
  }

  lemma NothingTaken(f: Filter, rows: seq<NoteRow>)
    ensures Visible([]) == [] && rows[0..] == rows && Matching(f, rows[|rows|..]) == []
    ensures Considered(f, Matching(f, rows), [], Matching(f, rows), 0)
  {
  }

  /** The documentation says the amount is ignored unless one asset's unspent notes are asked for. In the code it is
      then never reached, since nothing is added up, and any positive amount makes the query fail. */
  method Notes(f: Filter, rows: seq<NoteRow>) returns (r: Result<seq<NoteRow>, string>)
    ensures r.Err? <==> f.amountToSpend.Some? && f.amountToSpend.value > 0
                        && (f.includeSpent || f.asset.None? || WantedTotal(f, rows) < f.amountToSpend.value)
    ensures r.Ok? ==> r.value == Visible(if f.CutsOff() then UpTo(Matching(f, rows), f.Needed()) else Matching(f, rows))
    ensures r.Ok? ==> forall row <- r.value ::
              && row in rows && row.note.amount > 0
              && (row.spent ==> f.includeSpent)
              && (f.asset.None? || f.asset == Some(row.note.asset))
              && (f.account.None? || f.account == Some(row.account))
  {
    hide Matching, Visible, Total, UpTo, Considered;
    ConsideredShown(f, rows);
    MatchingTotal(f, rows);
    var output: seq<NoteRow> := [];
    var total: nat := 0;
    ghost var all := Matching(f, rows);
    ghost var taken: seq<NoteRow> := [];
    NothingTaken(f, rows);
    for i := 0 to |rows|
      invariant output == Visible(taken)
      invariant Considered(f, all, taken, Matching(f, rows[i..]), total)
    {
      var row := rows[i];
      NextRow(f, rows, i);
      if !f.InTable(row) {
        continue;
      }
      if f.account.Some? && row.account != f.account.value {
        continue;
      }
      ConsiderNext(f, all, taken, row, Matching(f, rows[i + 1..]), total);
      OneMore(taken, row);
      taken := taken + [row];
      if row.note.amount > 0 {
        output := output + [row];
      }
      if f.CutsOff() {
        total := total + row.note.amount;
        if total >= f.Needed() {
          return Ok(output);
        }
      } else {
        assert total == 0 by { NotAdding(f, all, taken[..|taken| - 1], [row] + Matching(f, rows[i + 1..]), total); }
      }
    }
    ConsideredAll(f, all, taken, total);
    if total < f.Needed() {
      return Err("requested amount exceeds total");
    }
    return Ok(output);
  }

  lemma NotAdding(f: Filter, all: seq<NoteRow>, taken: seq<NoteRow>, rest: seq<NoteRow>, total: nat)
    requires Considered(f, all, taken, rest, total) && !f.CutsOff()
    ensures total == 0
  {
  }

  function UpToMore(rows: seq<NoteRow>, need: int): seq<NoteRow> {
    if need >= 0 then UpTo(rows, need) else []
  }

  lemma NextRow(f: Filter, rows: seq<NoteRow>, i: nat)
    requires i < |rows|
    ensures Matching(f, rows[i..])
            == if f.Selects(rows[i]) then [rows[i]] + Matching(f, rows[i + 1..]) else Matching(f, rows[i + 1..])
  {
    assert rows[i..][1..] == rows[i + 1..];
  }

  lemma UpToNext(row: NoteRow, rest: seq<NoteRow>, need: int)
    requires need >= 0
    ensures UpToMore([row] + rest, need)
            == if row.note.amount >= need then [row] else [row] + UpToMore(rest, need - row.note.amount)
  {
    assert ([row] + rest)[1..] == rest;
  }

  lemma OneMore(rows: seq<NoteRow>, row: NoteRow)
    ensures Visible(rows + [row]) == Visible(rows) + (if row.note.amount > 0 then [row] else [])
    ensures Total(rows + [row]) == Total(rows) + row.note.amount
  {
    VisibleAppend(rows, [row]);
    TotalAppend(rows, [row]);
    assert [row][1..] == [];
  }

  lemma {:induction false} TotalAppend(rows: seq<NoteRow>, more: seq<NoteRow>)
    ensures Total(rows + more) == Total(rows) + Total(more)
  {
    if rows == [] {
      assert rows + more == more;
    } else {
      TotalAppend(rows[1..], more);
      assert (rows + more)[1..] == rows[1..] + more;
    }
  }
}
