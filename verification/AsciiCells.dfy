// Cells of a row before and after bytes are put in or taken out.
module AsciiCells {
  import opened FitsBytes

  // The bytes of a row from a 1-based start.
  function Cell(row: seq<byte>, start: int, width: nat): (cell: seq<byte>) {
    if 1 <= start && start - 1 + width <= |row| then row[start - 1..start - 1 + width] else []
  }

  lemma CellInFront(front: seq<byte>, back: seq<byte>, start: int, width: nat)
    requires 1 <= start && start - 1 + width <= |front|
    ensures Cell(front + back, start, width) == Cell(front, start, width)
  {
  }

  lemma CellBehind(front: seq<byte>, back: seq<byte>, start: int, width: nat)
    requires 1 <= start && start - 1 + width <= |back|
    ensures Cell(front + back, |front| + start, width) == Cell(back, start, width)
  {
  }

  lemma InsertedCell(row: seq<byte>, pre: nat, text: seq<byte>, start: int, width: nat)
    requires 1 <= start && start - 1 + width <= |row| && pre <= |row|
    ensures start - 1 + width <= pre ==> Cell(row[..pre] + text + row[pre..], start, width) == Cell(row, start, width)
    ensures start - 1 >= pre ==> Cell(row[..pre] + text + row[pre..], start + |text|, width) == Cell(row, start, width)
  {
    hide Cell;
    var front, back := row[..pre], row[pre..];
    assert row == front + back;
    if start - 1 + width <= pre {
      SeqAssoc(front, text, back);
      CellInFront(front, text + back, start, width);
      CellInFront(front, back, start, width);
    }
    if start - 1 >= pre {
      CellBehind(front + text, back, start - pre, width);
      CellBehind(front, back, start - pre, width);
    }
  }

  lemma AddedCell(row: seq<byte>, pre: nat, text: seq<byte>)
    requires pre <= |row|
    ensures Cell(row[..pre] + text + row[pre..], pre + 1, |text|) == text
  {
    CellInFront(row[..pre] + text, row[pre..], pre + 1, |text|);
    CellBehind(row[..pre], text, 1, |text|);
  }

  lemma DeletedCell(row: seq<byte>, pre: nat, gone: nat, start: int, width: nat)
    requires 1 <= start && start - 1 + width <= |row| && pre + gone <= |row|
    ensures start - 1 + width <= pre ==> Cell(row[..pre] + row[pre + gone..], start, width) == Cell(row, start, width)
    ensures start - 1 >= pre + gone ==>
      Cell(row[..pre] + row[pre + gone..], start - gone, width) == Cell(row, start, width)
  {
    hide Cell;
    var front, back := row[..pre], row[pre + gone..];
    if start - 1 + width <= pre {
      assert row == front + row[pre..];
      CellInFront(front, back, start, width);
      CellInFront(front, row[pre..], start, width);
    }
    if start - 1 >= pre + gone {
      assert row == row[..pre + gone] + back;
      CellBehind(front, back, start - pre - gone, width);
      CellBehind(row[..pre + gone], back, start - pre - gone, width);
    }
  }

  // An insertion `pre` bytes into a row of w bytes keeps a cell, whatever the
  // row holds, exactly when the cell lies on the side of it that its start
  // was told: in front for the columns that stay, behind for those that move.
  lemma CellSurvivesIff(w: nat, pre: nat, added: nat, start: int, width: nat, moves: bool)
    requires 1 <= start && start - 1 + width <= w && pre <= w && added > 0 && width > 0
    ensures (forall row: seq<byte>, text: seq<byte> :: |row| == w && |text| == added ==>
               Cell(row[..pre] + text + row[pre..], if moves then start + added else start, width)
                    == Cell(row, start, width))
       <==> (if moves then pre <= start - 1 else start - 1 + width <= pre)
  {
    forall row: seq<byte>, text: seq<byte> | |row| == w && |text| == added
      ensures (if moves then pre <= start - 1 else start - 1 + width <= pre) ==>
        Cell(row[..pre] + text + row[pre..], if moves then start + added else start, width) == Cell(row, start, width)
    {
      InsertedCell(row, pre, text, start, width);
    }
    if !(if moves then pre <= start - 1 else start - 1 + width <= pre) {
      var q := if moves then start - 1 else Max(start - 1, pre);
      MarkedRow(w, pre, added, start, width, moves, q);
    }
  }

  // A row that is zero but for one byte.
  function Marked(w: nat, q: nat): (row: seq<byte>)
    ensures |row| == w
  {
    seq(w, i => if i == q then 1 else 0)
  }

  lemma MarkedRow(w: nat, pre: nat, added: nat, start: int, width: nat, moves: bool, q: nat)
    requires 1 <= start && start - 1 + width <= w && pre <= w && added > 0 && width > 0
    requires if moves then q == start - 1 < pre else q == Max(start - 1, pre) < start - 1 + width
    ensures var row, text := Marked(w, q), Marked(added, added);
            Cell(row[..pre] + text + row[pre..], if moves then start + added else start, width)
            != Cell(row, start, width)
  {
    var row, text := Marked(w, q), Marked(added, added);
    var to := if moves then start + added else start;
    var new_, at := row[..pre] + text + row[pre..], q - (start - 1);
    assert Cell(row, start, width)[at] == row[q] == 1;
    assert Cell(new_, to, width)[at] == new_[to - 1 + at];
    assert new_[to - 1 + at] == 0;
  }

  // The mirror for a deletion of `gone` bytes: the cell must lie in front of
  // them if its column stays, behind them if it moves.
  lemma CellSurvivesDeletionIff(w: nat, pre: nat, gone: nat, start: int, width: nat, moves: bool)
    requires 1 <= start && start - 1 + width <= w && pre + gone <= w && gone > 0 && width > 0
    ensures (forall row: seq<byte> :: |row| == w ==>
               Cell(row[..pre] + row[pre + gone..], if moves then start - gone else start, width)
                    == Cell(row, start, width))
       <==> (if moves then pre + gone <= start - 1 else start - 1 + width <= pre)
  {
    forall row: seq<byte> | |row| == w
      ensures (if moves then pre + gone <= start - 1 else start - 1 + width <= pre) ==>
        Cell(row[..pre] + row[pre + gone..], if moves then start - gone else start, width) == Cell(row, start, width)
    {
      DeletedCell(row, pre, gone, start, width);
    }
    if !(if moves then pre + gone <= start - 1 else start - 1 + width <= pre) {
      MarkedDeletion(w, pre, gone, start, width, moves, if moves then start - 1 else Max(start - 1, pre));
    }
  }

  lemma MarkedDeletion(w: nat, pre: nat, gone: nat, start: int, width: nat, moves: bool, q: nat)
    requires 1 <= start && start - 1 + width <= w && pre + gone <= w && gone > 0 && width > 0
    requires if moves then q == start - 1 < pre + gone else q == Max(start - 1, pre) < start - 1 + width
    ensures var row := Marked(w, q);
            Cell(row[..pre] + row[pre + gone..], if moves then start - gone else start, width)
            != Cell(row, start, width)
  {
    var row := Marked(w, q);
    var to := if moves then start - gone else start;
    var new_, at := row[..pre] + row[pre + gone..], q - (start - 1);
    assert |Cell(row, start, width)| == width && Cell(row, start, width)[at] == row[q] == 1;
    if 1 <= to && to - 1 + width <= |new_| {
      var p := to - 1 + at;
      assert Cell(new_, to, width)[at] == new_[p];
      assert new_[p] == row[if p < pre then p else p + gone] == 0;
    }
  }
}
