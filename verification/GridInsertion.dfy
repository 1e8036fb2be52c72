/** What the handler of an added item does to the grid, wherever the item comes. */
module GridInsertions {
  import opened RichText
  import opened WidgetTree
  import opened SequenceGrids

  /** The last row that moves, if one does, still fits 16 bits. */
  predicate FitsInsertion(n: nat, item: nat, add: Option<bool>) {
    if add.Some? then n + 1 < 65536 else item < n ==> n < 65536
  }

  lemma {:induction false} RowPushed(k: nat, w: Widget, on: bool, item: nat, size: nat, limits: Limits)
    requires k + 1 < size && (item <= k ==> k + 1 < 65536)
    ensures Collect(Down(item, size, limits), Row(k, w, on)) == Row(if item <= k then k + 1 else k, w, size > limits.min)
  {
    CollectTwo(Down(item, size, limits), Row(k, w, on));
  }

  /** Rows from the place of the item on move down by one, with the numbers stored in their buttons. */
  lemma {:induction false} RowsPushed(ws: seq<Widget>, k: nat, on: bool, item: nat, size: nat, limits: Limits, k': nat)
    requires (k + |ws| <= item && k' == k) || (item <= k && k' == k + 1)
    requires k + |ws| < size && (item <= k && ws != [] ==> k + |ws| < 65536)
    ensures Collect(Down(item, size, limits), Rows(ws, k, on)) == Rows(ws, k', size > limits.min)
  {
    if ws != [] {
      RowPushed(k, ws[0], on, item, size, limits);
      RowsPushed(ws[1..], k + 1, on, item, size, limits, k' + 1);
      CollectConcat(Down(item, size, limits), Row(k, ws[0], on), Rows(ws[1..], k + 1, on));
    }
  }

  lemma {:induction false} AddRowPushed(n: nat, item: nat, add: Option<bool>, limits: Limits)
    requires item <= n && (add.Some? ==> n + 1 < 65536)
    ensures Collect(Down(item, n + 1, limits), AddRow(n, add))
         == AddRow(n + 1, if add.Some? then Some(n + 1 < limits.max) else None)
  {
    if add.Some? {
      CollectTwo(Down(item, n + 1, limits), AddRow(n, add));
    }
  }

  /** The three stretches of the grid after the loops. */
  lemma {:induction false} AllPushed(a: seq<Widget>, b: seq<Widget>, on: bool, limits: Limits, add: Option<bool>,
                                     item: nat, n: nat, add': Option<bool>, f: Cell -> seq<Cell>)
    requires item == |a| && n == |a| + |b| && FitsInsertion(n, item, add) && f == Down(item, n + 1, limits)
    requires add' == if add.Some? then Some(n + 1 < limits.max) else None
    ensures Collect(f, Rows(a, 0, on) + Rows(b, item, on) + AddRow(n, add))
         == Rows(a, 0, n + 1 > limits.min) + Rows(b, item + 1, n + 1 > limits.min) + AddRow(n + 1, add')
  {
    CollectThree(f, Rows(a, 0, on), Rows(b, item, on), AddRow(n, add));
    BothPushed(a, b, on, limits, add, item, n);
    AddRowPushed(n, item, add, limits);
  }

  lemma {:induction false} BothPushed(a: seq<Widget>, b: seq<Widget>, on: bool, limits: Limits, add: Option<bool>,
                                      item: nat, n: nat)
    requires item == |a| && n == |a| + |b| && FitsInsertion(n, item, add)
    ensures Collect(Down(item, n + 1, limits), Rows(a, 0, on)) == Rows(a, 0, n + 1 > limits.min)
    ensures Collect(Down(item, n + 1, limits), Rows(b, item, on)) == Rows(b, item + 1, n + 1 > limits.min)
  {
    RowsPushed(a, 0, on, item, n + 1, limits, 0);
    RowsPushed(b, item, on, item, n + 1, limits, item + 1);
  }

  lemma {:induction false} LayoutSplit(a: seq<Widget>, b: seq<Widget>, min: nat, add: Option<bool>)
    ensures var n := |a| + |b|;
            Layout(a + b, min, add) == Rows(a, 0, n > min) + Rows(b, |a|, n > min) + AddRow(n, add)
  {
    RowsConcat(a, b, 0, |a| + |b| > min);
  }

  lemma {:induction false} LayoutAround(a: seq<Widget>, w: Widget, b: seq<Widget>, min: nat, add: Option<bool>)
    ensures var n, on := |a| + 1 + |b|, |a| + 1 + |b| > min;
            Layout(a + [w] + b, min, add) == Rows(a, 0, on) + Row(|a|, w, on) + Rows(b, |a| + 1, on) + AddRow(n, add)
  {
    var on := |a| + 1 + |b| > min;
    LayoutSplit(a + [w], b, min, add);
    LayoutMore(a, w, on);
  }

  lemma {:induction false} Together(a: seq<Cell>, b: seq<Cell>, last: seq<Cell>, row: seq<Cell>)
    ensures multiset(a + b + last + row) == multiset(a + row + b + last)
  {
  }

  lemma {:induction false} OnlyOrder(x: seq<Cell>, y: seq<Cell>, row: seq<Cell>)
    requires multiset(x) == multiset(y)
    ensures multiset(x + row) == multiset(y + row)
  {
  }

  lemma {:induction false} SameMoved(f: Cell -> seq<Cell>, cells: seq<Cell>, whole: seq<Cell>, moved: seq<Cell>)
    requires multiset(cells) == multiset(whole) && Collect(f, whole) == moved
    ensures multiset(Collect(f, cells)) == multiset(moved)
  {
    CollectMultiset(f, cells, whole);
  }

  lemma {:induction false} CellsSplit(cells: seq<Cell>, a: seq<Widget>, b: seq<Widget>, min: nat, add: Option<bool>,
                                      whole: seq<Cell>)
    requires LaidOut(cells, a + b, min, add)
    requires whole == Rows(a, 0, |a| + |b| > min) + Rows(b, |a|, |a| + |b| > min) + AddRow(|a| + |b|, add)
    ensures multiset(cells) == multiset(whole)
  {
    LayoutSplit(a, b, min, add);
  }

  lemma {:induction false} WholePushed(a: seq<Widget>, b: seq<Widget>, limits: Limits, add: Option<bool>,
                                       add': Option<bool>, f: Cell -> seq<Cell>, whole: seq<Cell>, moved: seq<Cell>)
    requires FitsInsertion(|a| + |b|, |a|, add) && f == Down(|a|, |a| + |b| + 1, limits)
    requires add' == if add.Some? then Some(|a| + |b| + 1 < limits.max) else None
    requires whole == Rows(a, 0, |a| + |b| > limits.min) + Rows(b, |a|, |a| + |b| > limits.min) + AddRow(|a| + |b|, add)
    requires moved == Rows(a, 0, |a| + |b| + 1 > limits.min) + Rows(b, |a| + 1, |a| + |b| + 1 > limits.min)
                      + AddRow(|a| + |b| + 1, add')
    ensures Collect(f, whole) == moved
  {
    AllPushed(a, b, |a| + |b| > limits.min, limits, add, |a|, |a| + |b|, add', f);
  }

  lemma {:induction false} MovedForInsertion(cells: seq<Cell>, a: seq<Widget>, b: seq<Widget>, limits: Limits,
                                             add: Option<bool>, add': Option<bool>, f: Cell -> seq<Cell>,
                                             whole: seq<Cell>, moved: seq<Cell>)
    requires multiset(cells) == multiset(whole)
    requires FitsInsertion(|a| + |b|, |a|, add) && f == Down(|a|, |a| + |b| + 1, limits)
    requires add' == if add.Some? then Some(|a| + |b| + 1 < limits.max) else None
    requires whole == Rows(a, 0, |a| + |b| > limits.min) + Rows(b, |a|, |a| + |b| > limits.min) + AddRow(|a| + |b|, add)
    requires moved == Rows(a, 0, |a| + |b| + 1 > limits.min) + Rows(b, |a| + 1, |a| + |b| + 1 > limits.min)
                      + AddRow(|a| + |b| + 1, add')
    ensures multiset(Collect(f, cells)) == multiset(moved)
  {
    WholePushed(a, b, limits, add, add', f, whole, moved);
    SameMoved(f, cells, whole, moved);
  }

  lemma {:induction false} CellsMoved(cells: seq<Cell>, a: seq<Widget>, b: seq<Widget>, limits: Limits,
                                      add: Option<bool>, add': Option<bool>, f: Cell -> seq<Cell>, moved: seq<Cell>)
    requires LaidOut(cells, a + b, limits.min, add)
    requires FitsInsertion(|a| + |b|, |a|, add) && f == Down(|a|, |a| + |b| + 1, limits)
    requires add' == if add.Some? then Some(|a| + |b| + 1 < limits.max) else None
    requires moved == Rows(a, 0, |a| + |b| + 1 > limits.min) + Rows(b, |a| + 1, |a| + |b| + 1 > limits.min)
                      + AddRow(|a| + |b| + 1, add')
    ensures multiset(Collect(f, cells)) == multiset(moved)
  {
    var whole := Rows(a, 0, |a| + |b| > limits.min) + Rows(b, |a|, |a| + |b| > limits.min) + AddRow(|a| + |b|, add);
    CellsSplit(cells, a, b, limits.min, add, whole);
    MovedForInsertion(cells, a, b, limits, add, add', f, whole, moved);
  }

  lemma {:induction false} RowBetween(moved: seq<Cell>, x: seq<Cell>, y: seq<Cell>, last: seq<Cell>, row: seq<Cell>)
    requires multiset(moved) == multiset(x + y + last)
    ensures multiset(moved + row) == multiset(x + row + y + last)
  {
    Together(x, y, last, row);
    OnlyOrder(moved, x + y + last, row);
  }

  /** Wherever an item comes, the grid is laid out afterwards for the widgets with the new one in its place:
      the rows after it, their numbers and the row to add items go down by one, and every button can be
      pressed as the new size says. */
  lemma {:induction false} InsertedLaidOut(cells: seq<Cell>, a: seq<Widget>, b: seq<Widget>, limits: Limits,
                                           add: Option<bool>, w: Widget, add': Option<bool>)
    requires LaidOut(cells, a + b, limits.min, add) && FitsInsertion(|a| + |b|, |a|, add)
    requires add' == if add.Some? then Some(|a| + |b| + 1 < limits.max) else None
    ensures LaidOut(AfterAdded(cells, |a|, |a| + |b| + 1, limits, w), a + [w] + b, limits.min, add')
  {
    var n, more := |a| + |b|, |a| + |b| + 1 > limits.min;
    var moved, x, y := Collect(Down(|a|, n + 1, limits), cells), Rows(a, 0, more), Rows(b, |a| + 1, more);
    CellsMoved(cells, a, b, limits, add, add', Down(|a|, n + 1, limits), x + y + AddRow(n + 1, add'));
    RowBetween(moved, x, y, AddRow(n + 1, add'), Row(|a|, w, more));
    LayoutAround(a, w, b, limits.min, add');
  }
}
