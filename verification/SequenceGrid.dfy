/** The grid that shows a sequence: a row for each item, with the item's widget and a button to
    remove it, then perhaps a row to add an item. */
module SequenceGrids {
  import opened RichText
  import opened WidgetTree

  datatype Kind = Field(widget: Widget) | RemoveButton | AddLabel | AddButton

  /** A widget of the grid.  `index` is the number stored in it, 0 when there is none. */
  datatype Cell = Cell(kind: Kind, top: nat, left: nat, index: nat, sensitive: bool)

  datatype Limits = Limits(min: nat, max: nat)

  // ----- rewriting all the cells -----

  function Collect(f: Cell -> seq<Cell>, cells: seq<Cell>): seq<Cell> {
    if cells == [] then [] else f(cells[0]) + Collect(f, cells[1..])
  }

  lemma {:induction false} CollectConcat(f: Cell -> seq<Cell>, a: seq<Cell>, b: seq<Cell>)
    ensures Collect(f, a + b) == Collect(f, a) + Collect(f, b)
  {
    if a == [] {
      assert a + b == b;
    } else {
      assert (a + b)[1..] == a[1..] + b;
      CollectConcat(f, a[1..], b);
    }
  }

  lemma {:induction false} OneOut(a: seq<Cell>, b: seq<Cell>, j: nat)
    requires multiset(a) == multiset(b) && a != [] && j < |b| && b[j] == a[0]
    ensures multiset(a[1..]) == multiset(b[..j] + b[j+1..])
  {
    var x, l, r := a[0], b[..j], b[j+1..];
    assert a == [x] + a[1..];
    assert b == l + [x] + r;
    assert multiset(a[1..]) == multiset(a) - multiset{x};
    assert multiset(l + r) == multiset(b) - multiset{x};
  }

  lemma {:induction false} CollectAround(f: Cell -> seq<Cell>, b: seq<Cell>, j: nat)
    requires j < |b|
    ensures multiset(Collect(f, b)) == multiset(f(b[j])) + multiset(Collect(f, b[..j] + b[j+1..]))
  {
    var x, l, r := b[j], b[..j], b[j+1..];
    assert b == l + ([x] + r);
    CollectConcat(f, l, [x] + r);
    CollectConcat(f, l, r);
    assert ([x] + r)[1..] == r;
  }

  /** The order of the cells does not matter. */
  lemma {:induction false} CollectMultiset(f: Cell -> seq<Cell>, a: seq<Cell>, b: seq<Cell>)
    requires multiset(a) == multiset(b)
    ensures multiset(Collect(f, a)) == multiset(Collect(f, b))
  {
    if a == [] {
      assert |multiset(b)| == 0;
      assert b == [];
    } else {
      assert a[0] in multiset(b);
      var j :| 0 <= j < |b| && b[j] == a[0];
      OneOut(a, b, j);
      CollectMultiset(f, a[1..], b[..j] + b[j+1..]);
      CollectAround(f, b, j);
    }
  }

  // ----- what the grid should hold -----

  function Row(k: nat, w: Widget, on: bool): seq<Cell> {
    [Cell(Field(w), k, 0, 0, true), Cell(RemoveButton, k, 1, k + 1, on)]
  }

  function Rows(ws: seq<Widget>, k: nat, on: bool): seq<Cell> {
    if ws == [] then [] else Row(k, ws[0], on) + Rows(ws[1..], k + 1, on)
  }

  /** The row to add an item, if there is one; `add` tells whether its button is sensitive. */
  function AddRow(n: nat, add: Option<bool>): seq<Cell> {
    match add
    case None => []
    case Some(on) => [Cell(AddLabel, n, 0, 0, true), Cell(AddButton, n, 1, 0, on)]
  }

  /** The cells for items with the widgets `ws`. */
  function Layout(ws: seq<Widget>, min: nat, add: Option<bool>): seq<Cell> {
    Rows(ws, 0, |ws| > min) + AddRow(|ws|, add)
  }

  /** The grid holds just these cells, in any order. */
  predicate LaidOut(cells: seq<Cell>, ws: seq<Widget>, min: nat, add: Option<bool>) {
    multiset(cells) == multiset(Layout(ws, min, add))
  }

  predicate DistinctWidgets(ws: seq<Widget>) {
    forall j, k :: 0 <= j < k < |ws| ==> ws[j] != ws[k]
  }

  lemma {:induction false} RowsConcat(a: seq<Widget>, b: seq<Widget>, k: nat, on: bool)
    ensures Rows(a + b, k, on) == Rows(a, k, on) + Rows(b, k + |a|, on)
  {
    if a == [] {
      assert a + b == b;
    } else {
      assert (a + b)[1..] == a[1..] + b;
      RowsConcat(a[1..], b, k + 1, on);
    }
  }

  // ----- what the handlers do to the cells -----

  /** The handlers keep the new row of a widget in 16 bits. */
  const ROW_MODULUS := 0x1_0000

  /** What the handler of an added item does to a cell that is already there; `size` counts the new
      item. */
  function MovedDown(c: Cell, item: nat, size: nat, limits: Limits): Cell {
    var c1 :=
      if c.left != 1 then c
      else if c.top == size - 1 then c.(sensitive := size < limits.max)
      else c.(sensitive := size > limits.min);
    if c1.top >= item then c1.(top := (c1.top + 1) % ROW_MODULUS, index := if c1.index > 0 then c1.index + 1 else 0) else c1
  }

  function Down(item: nat, size: nat, limits: Limits): Cell -> seq<Cell> {
    c => [MovedDown(c, item, size, limits)]
  }

  /** What the handler of a removed item does to a cell that stays; `size` still counts the item. */
  function MovedUp(c: Cell, item: nat, size: nat, limits: Limits): Cell {
    var c1 :=
      if c.left != 1 then c
      else if c.top == size then c.(sensitive := true)
      else c.(sensitive := size - 1 > limits.min);
    if c1.top > item then c1.(top := (c1.top - 1) % ROW_MODULUS, index := if c1.index > 0 then c1.index - 1 else 0) else c1
  }

  function Up(item: nat, size: nat, limits: Limits): Cell -> seq<Cell> {
    c => [MovedUp(c, item, size, limits)]
  }

  function NotRow(item: nat): Cell -> seq<Cell> {
    (c: Cell) => if c.top == item then [] else [c]
  }

  function NotField(w: Widget): Cell -> seq<Cell> {
    (c: Cell) => if c.kind == Field(w) then [] else [c]
  }

  /** The cells after an item was added at place `item`, shown by the widget `w`. */
  function AfterAdded(cells: seq<Cell>, item: nat, size: nat, limits: Limits, w: Widget): seq<Cell> {
    Collect(Down(item, size, limits), cells) + Row(item, w, size > limits.min)
  }

  /** The cells after the item at place `item`, shown by the widget `w`, was removed. */
  function AfterRemoved(cells: seq<Cell>, item: nat, size: nat, limits: Limits, w: Widget): seq<Cell> {
    Collect(Up(item, size, limits), Collect(NotRow(item), Collect(NotField(w), cells)))
  }

  lemma {:induction false} RowsDown(ws: seq<Widget>, k: nat, on: bool, size: nat, limits: Limits)
    requires k + |ws| < size
    ensures Collect(Down(size - 1, size, limits), Rows(ws, k, on)) == Rows(ws, k, size > limits.min)
  {
    if ws != [] {
      var f := Down(size - 1, size, limits);
      RowsDown(ws[1..], k + 1, on, size, limits);
      CollectConcat(f, Row(k, ws[0], on), Rows(ws[1..], k + 1, on));
      CollectTwo(f, Row(k, ws[0], on));
    }
  }

  lemma {:induction false} CollectTwo(f: Cell -> seq<Cell>, cells: seq<Cell>)
    requires |cells| == 2
    ensures Collect(f, cells) == f(cells[0]) + f(cells[1])
  {
    assert cells[1..][1..] == [];
    assert Collect(f, cells[1..]) == f(cells[1]) + Collect(f, []);
  }

  /** Adding an item after `n` items moves the row to add items, which has to fit. */
  predicate FitsDown(n: nat, add: Option<bool>) {
    add.None? || n + 1 < ROW_MODULUS
  }

  lemma {:induction false} AddRowDown(n: nat, add: Option<bool>, limits: Limits)
    requires FitsDown(n, add)
    ensures Collect(Down(n, n + 1, limits), AddRow(n, add))
         == AddRow(n + 1, if add.Some? then Some(n + 1 < limits.max) else None)
  {
    if add.Some? {
      CollectTwo(Down(n, n + 1, limits), AddRow(n, add));
    }
  }

  /** The handler's moves set all sensitivities and take the row to add items down by one. */
  lemma {:induction false} MovedForOneMore(cells: seq<Cell>, ws: seq<Widget>, limits: Limits, add: Option<bool>,
                                           add': Option<bool>, n: nat, moved: seq<Cell>)
    requires LaidOut(cells, ws, limits.min, add) && FitsDown(|ws|, add)
    requires add' == if add.Some? then Some(|ws| + 1 < limits.max) else None
    requires n == |ws| && moved == Collect(Down(n, n + 1, limits), cells)
    ensures multiset(moved) == multiset(Rows(ws, 0, n + 1 > limits.min) + AddRow(n + 1, add'))
  {
    var f, rows, last := Down(n, n + 1, limits), Rows(ws, 0, n > limits.min), AddRow(n, add);
    CollectMultiset(f, cells, rows + last);
    CollectConcat(f, rows, last);
    RowsDown(ws, 0, n > limits.min, n + 1, limits);
    AddRowDown(n, add, limits);
  }

  /** An item added at the end keeps the grid laid out, if the rows fit. */
  lemma {:induction false} AddedLaidOut(cells: seq<Cell>, ws: seq<Widget>, limits: Limits, add: Option<bool>, w: Widget,
                                        add': Option<bool>)
    requires LaidOut(cells, ws, limits.min, add) && FitsDown(|ws|, add)
    requires add' == if add.Some? then Some(|ws| + 1 < limits.max) else None
    ensures LaidOut(AfterAdded(cells, |ws|, |ws| + 1, limits, w), ws + [w], limits.min, add')
  {
    var n, on := |ws|, |ws| + 1 > limits.min;
    var moved := Collect(Down(n, n + 1, limits), cells);
    MovedForOneMore(cells, ws, limits, add, add', n, moved);
    LayoutGrown(ws, w, limits.min, add');
    Shuffled(moved, Rows(ws, 0, on), AddRow(n + 1, add'), Row(n, w, on));
  }

  lemma {:induction false} LayoutGrown(ws: seq<Widget>, w: Widget, min: nat, add: Option<bool>)
    ensures var on := |ws| + 1 > min;
            Layout(ws + [w], min, add) == Rows(ws, 0, on) + Row(|ws|, w, on) + AddRow(|ws| + 1, add)
  {
    LayoutMore(ws, w, |ws| + 1 > min);
  }

  lemma {:induction false} LayoutMore(ws: seq<Widget>, w: Widget, on: bool)
    ensures Rows(ws + [w], 0, on) == Rows(ws, 0, on) + Row(|ws|, w, on)
  {
    RowsConcat(ws, [w], 0, on);
    assert Rows([w], |ws|, on) == Row(|ws|, w, on) + Rows([w][1..], |ws| + 1, on);
  }

  lemma {:induction false} Shuffled(cells: seq<Cell>, rows: seq<Cell>, last: seq<Cell>, row: seq<Cell>)
    requires multiset(cells) == multiset(rows + last)
    ensures multiset(cells + row) == multiset(rows + row + last)
  {
  }

  /** No other row shows the widget `w`. */
  lemma {:induction false} RowsNotField(ws: seq<Widget>, k: nat, on: bool, w: Widget)
    requires w !in ws
    ensures Collect(NotField(w), Rows(ws, k, on)) == Rows(ws, k, on)
  {
    if ws != [] {
      RowsNotField(ws[1..], k + 1, on, w);
      CollectConcat(NotField(w), Row(k, ws[0], on), Rows(ws[1..], k + 1, on));
      CollectTwo(NotField(w), Row(k, ws[0], on));
    }
  }

  lemma {:induction false} RowsNotRow(ws: seq<Widget>, k: nat, on: bool, item: nat)
    requires k + |ws| <= item || item < k
    ensures Collect(NotRow(item), Rows(ws, k, on)) == Rows(ws, k, on)
  {
    if ws != [] {
      RowsNotRow(ws[1..], k + 1, on, item);
      CollectConcat(NotRow(item), Row(k, ws[0], on), Rows(ws[1..], k + 1, on));
      CollectTwo(NotRow(item), Row(k, ws[0], on));
    }
  }

  lemma {:induction false} RowsUp(ws: seq<Widget>, k: nat, on: bool, item: nat, size: nat, limits: Limits)
    requires (k + |ws| <= item || item < k) && k + |ws| <= size && item < size
    requires ws == [] || k <= item || k + |ws| - 2 < ROW_MODULUS
    ensures Collect(Up(item, size, limits), Rows(ws, k, on))
         == Rows(ws, if item < k then k - 1 else k, size - 1 > limits.min)
  {
    if ws != [] {
      var f := Up(item, size, limits);
      RowsUp(ws[1..], k + 1, on, item, size, limits);
      CollectConcat(f, Row(k, ws[0], on), Rows(ws[1..], k + 1, on));
      CollectTwo(f, Row(k, ws[0], on));
    }
  }

  /** Whatever the stretch does to each of four parts, it does to the whole. */
  lemma {:induction false} CollectFour(f: Cell -> seq<Cell>, a: seq<Cell>, b: seq<Cell>, c: seq<Cell>, d: seq<Cell>)
    ensures Collect(f, a + b + c + d) == Collect(f, a) + Collect(f, b) + Collect(f, c) + Collect(f, d)
  {
    CollectConcat(f, a, b);
    CollectConcat(f, a + b, c);
    CollectConcat(f, a + b + c, d);
  }

  lemma {:induction false} LayoutAround(ws: seq<Widget>, min: nat, add: Option<bool>, item: nat)
    requires item < |ws|
    ensures Layout(ws, min, add)
         == Rows(ws[..item], 0, |ws| > min) + Row(item, ws[item], |ws| > min)
            + Rows(ws[item+1..], item + 1, |ws| > min) + AddRow(|ws|, add)
  {
    var on := |ws| > min;
    assert ws == ws[..item] + ([ws[item]] + ws[item+1..]);
    RowsConcat(ws[..item], [ws[item]] + ws[item+1..], 0, on);
    RowsConcat([ws[item]], ws[item+1..], item, on);
    assert Rows([ws[item]], item, on) == Row(item, ws[item], on);
  }

  lemma {:induction false} AddRowStays(n: nat, add: Option<bool>, w: Widget, item: nat)
    requires item < n
    ensures Collect(NotField(w), AddRow(n, add)) == AddRow(n, add)
    ensures Collect(NotRow(item), AddRow(n, add)) == AddRow(n, add)
  {
    if add.Some? {
      CollectTwo(NotField(w), AddRow(n, add));
      CollectTwo(NotRow(item), AddRow(n, add));
    }
  }

  lemma {:induction false} FieldGone(item: nat, w: Widget, on: bool)
    ensures Collect(NotField(w), Row(item, w, on)) == [Row(item, w, on)[1]]
    ensures Collect(NotRow(item), [Row(item, w, on)[1]]) == []
  {
    CollectTwo(NotField(w), Row(item, w, on));
    var button := [Row(item, w, on)[1]];
    assert button[1..] == [];
    assert Collect(NotRow(item), button) == NotRow(item)(button[0]) + Collect(NotRow(item), []);
  }

  /** Destroying the widget leaves the button of its row. */
  lemma {:induction false} FieldDestroyed(ws: seq<Widget>, min: nat, add: Option<bool>, item: nat, on: bool)
    requires item < |ws| && DistinctWidgets(ws) && on == (|ws| > min)
    ensures Collect(NotField(ws[item]), Layout(ws, min, add))
         == Rows(ws[..item], 0, on) + [Row(item, ws[item], on)[1]] + Rows(ws[item+1..], item + 1, on) + AddRow(|ws|, add)
  {
    var w := ws[item];
    LayoutAround(ws, min, add, item);
    CollectFour(NotField(w), Rows(ws[..item], 0, on), Row(item, w, on), Rows(ws[item+1..], item + 1, on), AddRow(|ws|, add));
    RowsNotField(ws[..item], 0, on, w);
    RowsNotField(ws[item+1..], item + 1, on, w);
    FieldGone(item, w, on);
    AddRowStays(|ws|, add, w, item);
  }

  /** Destroying the rest of the row leaves the other rows. */
  lemma {:induction false} RowDestroyed(ws: seq<Widget>, min: nat, add: Option<bool>, item: nat, on: bool)
    requires item < |ws| && DistinctWidgets(ws) && on == (|ws| > min)
    ensures Collect(NotRow(item), Collect(NotField(ws[item]), Layout(ws, min, add)))
         == Rows(ws[..item], 0, on) + Rows(ws[item+1..], item + 1, on) + AddRow(|ws|, add)
  {
    FieldDestroyed(ws, min, add, item, on);
    var button := [Row(item, ws[item], on)[1]];
    var a, b, last := Rows(ws[..item], 0, on), Rows(ws[item+1..], item + 1, on), AddRow(|ws|, add);
    CollectFour(NotRow(item), a, button, b, last);
    RowsNotRow(ws[..item], 0, on, item);
    RowsNotRow(ws[item+1..], item + 1, on, item);
    FieldGone(item, ws[item], on);
    AddRowStays(|ws|, add, ws[item], item);
    NothingBetween(a, b, last);
  }

  lemma {:induction false} NothingBetween(a: seq<Cell>, b: seq<Cell>, c: seq<Cell>)
    ensures a + [] + b + c == a + b + c
  {
  }

  /** The last row of the grid of `n` items. */
  function LastRow(n: nat, add: Option<bool>): int {
    if add.Some? then n else n - 1
  }

  /** Removing an item moves the rows after it, which have to fit. */
  predicate FitsUp(n: nat, item: nat, add: Option<bool>) {
    LastRow(n, add) <= item || LastRow(n, add) - 1 < ROW_MODULUS
  }

  lemma {:induction false} AddRowUp(n: nat, item: nat, add: Option<bool>, limits: Limits)
    requires item < n && FitsUp(n, item, add)
    ensures Collect(Up(item, n, limits), AddRow(n, add)) == AddRow(n - 1, if add.Some? then Some(true) else None)
  {
    if add.Some? {
      CollectTwo(Up(item, n, limits), AddRow(n, add));
    }
  }

  /** The rows that are left move together. */
  lemma {:induction false} RowsClosed(ws: seq<Widget>, limits: Limits, add: Option<bool>, item: nat, on: bool)
    requires item < |ws| && FitsUp(|ws|, item, add)
    ensures var f, left, add' := Up(item, |ws|, limits), ws[..item] + ws[item+1..],
                                 if add.Some? then Some(true) else None;
            Collect(f, Rows(ws[..item], 0, on) + Rows(ws[item+1..], item + 1, on) + AddRow(|ws|, add))
            == Layout(left, limits.min, add')
  {
    var n, f := |ws|, Up(item, |ws|, limits);
    var a, b, last := Rows(ws[..item], 0, on), Rows(ws[item+1..], item + 1, on), AddRow(n, add);
    CollectThree(f, a, b, last);
    BothUp(ws, limits, add, item, on, ws[..item], ws[item+1..]);
    AddRowUp(n, item, add, limits);
    LeftRows(ws, item, n - 1 > limits.min, ws[..item], ws[item+1..]);
  }

  lemma {:induction false} BothUp(ws: seq<Widget>, limits: Limits, add: Option<bool>, item: nat, on: bool,
                                  a: seq<Widget>, b: seq<Widget>)
    requires item < |ws| && FitsUp(|ws|, item, add) && a == ws[..item] && b == ws[item+1..]
    ensures Collect(Up(item, |ws|, limits), Rows(a, 0, on)) == Rows(a, 0, |ws| - 1 > limits.min)
    ensures Collect(Up(item, |ws|, limits), Rows(b, item + 1, on)) == Rows(b, item, |ws| - 1 > limits.min)
  {
    RowsUp(a, 0, on, item, |ws|, limits);
    RowsUp(b, item + 1, on, item, |ws|, limits);
  }

  lemma {:induction false} LeftRows(ws: seq<Widget>, item: nat, on: bool, a: seq<Widget>, b: seq<Widget>)
    requires item < |ws| && a == ws[..item] && b == ws[item+1..]
    ensures Rows(a, 0, on) + Rows(b, item, on) == Rows(a + b, 0, on) && |a + b| == |ws| - 1
  {
    RowsConcat(a, b, 0, on);
  }

  lemma {:induction false} CollectThree(f: Cell -> seq<Cell>, a: seq<Cell>, b: seq<Cell>, c: seq<Cell>)
    ensures Collect(f, a + b + c) == Collect(f, a) + Collect(f, b) + Collect(f, c)
  {
    CollectConcat(f, a, b);
    CollectConcat(f, a + b, c);
  }

  /** Removing any item keeps the grid laid out, if the rows fit. */
  lemma {:induction false} RemovedLaidOut(cells: seq<Cell>, ws: seq<Widget>, limits: Limits, add: Option<bool>, item: nat)
    requires LaidOut(cells, ws, limits.min, add) && DistinctWidgets(ws) && item < |ws| && FitsUp(|ws|, item, add)
    ensures LaidOut(AfterRemoved(cells, item, |ws|, limits, ws[item]), ws[..item] + ws[item+1..], limits.min,
                    if add.Some? then Some(true) else None)
  {
    var f, g, h := NotField(ws[item]), NotRow(item), Up(item, |ws|, limits);
    var whole := Layout(ws, limits.min, add);
    CollectMultiset(f, cells, whole);
    CollectMultiset(g, Collect(f, cells), Collect(f, whole));
    CollectMultiset(h, Collect(g, Collect(f, cells)), Collect(g, Collect(f, whole)));
    RowDestroyed(ws, limits.min, add, item, |ws| > limits.min);
    RowsClosed(ws, limits, add, item, |ws| > limits.min);
  }

  // ----- what a laid out grid means -----

  /** What a cell of the item rows is. */
  predicate InRow(ws: seq<Widget>, k: nat, on: bool, c: Cell) {
    && k <= c.top < k + |ws|
    && (c == Cell(Field(ws[c.top-k]), c.top, 0, 0, true) || c == Cell(RemoveButton, c.top, 1, c.top + 1, on))
  }

  lemma {:induction false} RowsMean(ws: seq<Widget>, k: nat, on: bool, c: Cell)
    requires c in Rows(ws, k, on)
    ensures InRow(ws, k, on, c)
  {
    if c !in Row(k, ws[0], on) {
      RowsMean(ws[1..], k + 1, on, c);
      assert ws[1..][c.top-(k+1)] == ws[c.top-k];
    }
  }

  /** Each button of a row is there to remove the item of its row, and can be pressed when there are
      more items than the minimum. */
  lemma {:induction false} ButtonsNameItems(cells: seq<Cell>, ws: seq<Widget>, min: nat, add: Option<bool>, c: Cell)
    requires LaidOut(cells, ws, min, add) && c in cells
    ensures c.kind == RemoveButton ==>
              c.top < |ws| && c.left == 1 && c.index == c.top + 1 && c.sensitive == (|ws| > min)
    ensures c.kind.Field? ==> c.top < |ws| && c.left == 0 && c.kind.widget == ws[c.top]
    ensures c.kind == AddButton ==> c.top == |ws| && c.left == 1 && add == Some(c.sensitive)
    ensures c.kind == AddLabel ==> c.top == |ws| && c.left == 0 && add.Some?
  {
    var rows := Rows(ws, 0, |ws| > min);
    assert c in multiset(cells);
    assert c in rows + AddRow(|ws|, add);
    if c in rows {
      RowsMean(ws, 0, |ws| > min, c);
    }
  }

  function AtPlace(top: nat, left: nat): Cell -> seq<Cell> {
    (c: Cell) => if c.top == top && c.left == left then [c] else []
  }

  lemma {:induction false} RowsAtPlace(ws: seq<Widget>, k: nat, on: bool, top: nat, left: nat)
    ensures |Collect(AtPlace(top, left), Rows(ws, k, on))| == if k <= top < k + |ws| && left <= 1 then 1 else 0
  {
    if ws != [] {
      RowsAtPlace(ws[1..], k + 1, on, top, left);
      CollectConcat(AtPlace(top, left), Row(k, ws[0], on), Rows(ws[1..], k + 1, on));
      CollectTwo(AtPlace(top, left), Row(k, ws[0], on));
    }
  }

  /** The rows of the items, and the row after them if items can be added, are filled once; there
      is nothing else in the grid. */
  lemma {:induction false} PlacesFilledOnce(cells: seq<Cell>, ws: seq<Widget>, min: nat, add: Option<bool>,
                                            top: nat, left: nat)
    requires LaidOut(cells, ws, min, add)
    ensures |Collect(AtPlace(top, left), cells)|
         == if left <= 1 && (top < |ws| || (top == |ws| && add.Some?)) then 1 else 0
  {
    var f := AtPlace(top, left);
    var whole := Layout(ws, min, add);
    CollectMultiset(f, cells, whole);
    SameLength(Collect(f, cells), Collect(f, whole));
    LayoutAtPlace(ws, min, add, top, left);
  }

  lemma {:induction false} SameLength(a: seq<Cell>, b: seq<Cell>)
    requires multiset(a) == multiset(b)
    ensures |a| == |b|
  {
    assert |multiset(a)| == |a| && |multiset(b)| == |b|;
  }

  lemma {:induction false} LayoutAtPlace(ws: seq<Widget>, min: nat, add: Option<bool>, top: nat, left: nat)
    ensures |Collect(AtPlace(top, left), Layout(ws, min, add))|
         == if left <= 1 && (top < |ws| || (top == |ws| && add.Some?)) then 1 else 0
  {
    var f := AtPlace(top, left);
    var rows, last := Rows(ws, 0, |ws| > min), AddRow(|ws|, add);
    CollectConcat(f, rows, last);
    RowsAtPlace(ws, 0, |ws| > min, top, left);
    if add.Some? {
      CollectTwo(f, last);
    }
  }

  // ----- rows that do not fit -----

  lemma {:induction false} CollectHas(f: Cell -> seq<Cell>, cells: seq<Cell>, c: Cell, x: Cell)
    requires c in cells && x in f(c)
    ensures x in Collect(f, cells)
  {
    if c != cells[0] {
      CollectHas(f, cells[1..], c, x);
    }
  }

  lemma {:induction false} LayoutIn(cells: seq<Cell>, ws: seq<Widget>, min: nat, add: Option<bool>, c: Cell)
    requires LaidOut(cells, ws, min, add) && c in Layout(ws, min, add)
    ensures c in cells
  {
    assert c in multiset(Layout(ws, min, add));
    assert c in multiset(cells);
  }

  lemma {:induction false} AddedUnfit(cells: seq<Cell>, ws: seq<Widget>, limits: Limits, add: Option<bool>, w: Widget,
                                      add': Option<bool>, after: seq<Cell>)
    requires LaidOut(cells, ws, limits.min, add) && !FitsDown(|ws|, add)
    requires after == AfterAdded(cells, |ws|, |ws| + 1, limits, w)
    ensures !LaidOut(after, ws + [w], limits.min, add')
  {
    var n := |ws|;
    var c := Cell(AddLabel, n, 0, 0, true);
    var x := MovedDown(c, n, n + 1, limits);
    assert c == AddRow(n, add)[0];
    LayoutIn(cells, ws, limits.min, add, c);
    CollectHas(Down(n, n + 1, limits), cells, c, x);
    if LaidOut(after, ws + [w], limits.min, add') {
      ButtonsNameItems(after, ws + [w], limits.min, add', x);
    }
  }

  /** With 65535 items one more sends the row to add items to the top of the grid, where the first item
      is. */
  lemma {:induction false} AddRowWraps(cells: seq<Cell>, ws: seq<Widget>, limits: Limits, on: bool, w: Widget,
                                       after: seq<Cell>)
    requires LaidOut(cells, ws, limits.min, Some(on)) && |ws| == 65535
    requires after == AfterAdded(cells, |ws|, |ws| + 1, limits, w)
    ensures Cell(AddLabel, 0, 0, 0, true) in after && Cell(Field(ws[0]), 0, 0, 0, true) in after
    ensures !LaidOut(after, ws + [w], limits.min, Some(|ws| + 1 < limits.max))
  {
    var c, first := Cell(AddLabel, 65535, 0, 0, true), Cell(Field(ws[0]), 0, 0, 0, true);
    var add := Some(on);
    assert c == AddRow(65535, add)[0];
    LayoutIn(cells, ws, limits.min, add, c);
    CollectHas(Down(65535, 65536, limits), cells, c, Cell(AddLabel, 0, 0, 0, true));
    RowIn(ws, limits.min, add, 0);
    LayoutIn(cells, ws, limits.min, add, first);
    CollectHas(Down(65535, 65536, limits), cells, first, first);
    AddedUnfit(cells, ws, limits, add, w, Some(|ws| + 1 < limits.max), after);
  }

  /** An item added at the end keeps the grid laid out if and only if the row to add items, if there
      is one, is still below the modulus. */
  lemma {:induction false} AddedLaidOutExactly(cells: seq<Cell>, ws: seq<Widget>, limits: Limits, add: Option<bool>,
                                               w: Widget, add': Option<bool>)
    requires LaidOut(cells, ws, limits.min, add)
    requires add' == if add.Some? then Some(|ws| + 1 < limits.max) else None
    ensures LaidOut(AfterAdded(cells, |ws|, |ws| + 1, limits, w), ws + [w], limits.min, add') <==> FitsDown(|ws|, add)
  {
    if FitsDown(|ws|, add) {
      AddedLaidOut(cells, ws, limits, add, w, add');
    } else {
      AddedUnfit(cells, ws, limits, add, w, add', AfterAdded(cells, |ws|, |ws| + 1, limits, w));
    }
  }

  /** A cell of another row than the removed one moves. */
  lemma {:induction false} MovedUpIn(cells: seq<Cell>, item: nat, size: nat, limits: Limits, w: Widget, c: Cell)
    requires c in cells && c.top != item && c.kind != Field(w)
    ensures MovedUp(c, item, size, limits) in AfterRemoved(cells, item, size, limits, w)
  {
    CollectHas(NotField(w), cells, c, c);
    CollectHas(NotRow(item), Collect(NotField(w), cells), c, c);
    CollectHas(Up(item, size, limits), Collect(NotRow(item), Collect(NotField(w), cells)), c,
               MovedUp(c, item, size, limits));
  }

  lemma {:induction false} RowIn(ws: seq<Widget>, min: nat, add: Option<bool>, j: nat)
    requires j < |ws|
    ensures Cell(Field(ws[j]), j, 0, 0, true) in Layout(ws, min, add)
  {
    RowsFrom(ws, 0, |ws| > min, j);
  }

  lemma {:induction false} RowsFrom(ws: seq<Widget>, k: nat, on: bool, j: nat)
    requires j < |ws|
    ensures Cell(Field(ws[j]), k + j, 0, 0, true) in Rows(ws, k, on)
  {
    if j == 0 {
      assert Row(k, ws[0], on)[0] in Row(k, ws[0], on);
    } else {
      RowsFrom(ws[1..], k + 1, on, j - 1);
    }
  }

  lemma {:induction false} RemovedUnfit(cells: seq<Cell>, ws: seq<Widget>, limits: Limits, add: Option<bool>, item: nat,
                                        left: seq<Widget>, add': Option<bool>, after: seq<Cell>)
    requires LaidOut(cells, ws, limits.min, add) && DistinctWidgets(ws) && item < |ws| && !FitsUp(|ws|, item, add)
    requires left == ws[..item] + ws[item+1..]
    requires after == AfterRemoved(cells, item, |ws|, limits, ws[item])
    ensures !LaidOut(after, left, limits.min, add')
  {
    var n := |ws|;
    var c := if add.Some? then Cell(AddLabel, n, 0, 0, true) else Cell(Field(ws[n-1]), n - 1, 0, 0, true);
    if add.Some? {
      assert c == AddRow(n, add)[0];
    } else {
      RowIn(ws, limits.min, add, n - 1);
    }
    LayoutIn(cells, ws, limits.min, add, c);
    MovedUpIn(cells, item, n, limits, ws[item], c);
    var x := MovedUp(c, item, n, limits);
    if add.None? {
      LeftWidget(ws, item, left, x.top);
    }
    WrongRow(after, left, limits.min, add', x);
  }

  /** The last widget is not on another row. */
  lemma {:induction false} LeftWidget(ws: seq<Widget>, item: nat, left: seq<Widget>, top: nat)
    requires DistinctWidgets(ws) && item < |ws| - 1 && left == ws[..item] + ws[item+1..]
    ensures top < |left| - 1 ==> left[top] != ws[|ws|-1]
  {
    if top < |left| - 1 {
      assert left[top] == ws[if top < item then top else top + 1];
    }
  }

  lemma {:induction false} WrongRow(after: seq<Cell>, left: seq<Widget>, min: nat, add': Option<bool>, x: Cell)
    requires x in after
    requires || (x.kind == AddLabel && x.top != |left|)
             || (x.kind.Field? && (x.top < |left| ==> left[x.top] != x.kind.widget))
    ensures !LaidOut(after, left, min, add')
  {
    if LaidOut(after, left, min, add') {
      ButtonsNameItems(after, left, min, add', x);
    }
  }

  /** Removing an item keeps the grid laid out if and only if the rows that move end up below the
      modulus. */
  lemma {:induction false} RemovedLaidOutExactly(cells: seq<Cell>, ws: seq<Widget>, limits: Limits, add: Option<bool>,
                                                 item: nat, left: seq<Widget>, add': Option<bool>)
    requires LaidOut(cells, ws, limits.min, add) && DistinctWidgets(ws) && item < |ws|
    requires left == ws[..item] + ws[item+1..] && add' == if add.Some? then Some(true) else None
    ensures LaidOut(AfterRemoved(cells, item, |ws|, limits, ws[item]), left, limits.min, add')
            <==> FitsUp(|ws|, item, add)
  {
    if FitsUp(|ws|, item, add) {
      RemovedLaidOut(cells, ws, limits, add, item);
    } else {
      RemovedUnfit(cells, ws, limits, add, item, left, add', AfterRemoved(cells, item, |ws|, limits, ws[item]));
    }
  }

  /** Had the item come anywhere else than at the end, its widget, which is last in the tree, would
      be on the wrong row. */
  lemma {:induction false} InStepOnlyAtEnd(cells: seq<Cell>, ws: seq<Widget>, limits: Limits, add: Option<bool>,
                                           w: Widget, item: nat, add': Option<bool>)
    requires LaidOut(cells, ws, limits.min, add) && item <= |ws| && w !in ws
    requires LaidOut(AfterAdded(cells, item, |ws| + 1, limits, w), ws + [w], limits.min, add')
    ensures item == |ws|
  {
    var after := AfterAdded(cells, item, |ws| + 1, limits, w);
    var c := Cell(Field(w), item, 0, 0, true);
    assert after[|after|-2] == c;
    assert forall k :: 0 <= k < |ws| ==> (ws + [w])[k] in ws;
    ButtonsNameItems(after, ws + [w], limits.min, add', c);
  }

  // ----- the grid itself -----

  /** Rewriting the cells one for one. */
  lemma {:induction false} CollectEach(f: Cell -> seq<Cell>, cells: seq<Cell>, result: seq<Cell>)
    requires |result| == |cells| && forall k :: 0 <= k < |cells| ==> f(cells[k]) == [result[k]]
    ensures Collect(f, cells) == result
  {
    if cells != [] {
      assert f(cells[0]) == [result[0]];
      forall k | 0 <= k < |cells[1..]| ensures f(cells[1..][k]) == [result[1..][k]] {
        assert f(cells[k+1]) == [result[k+1]];
      }
      CollectEach(f, cells[1..], result[1..]);
    }
  }

  /** A cell that is dropped may as well be taken out first. */
  lemma {:induction false} CollectSkips(f: Cell -> seq<Cell>, cells: seq<Cell>, j: nat)
    requires j < |cells| && f(cells[j]) == []
    ensures Collect(f, cells[..j] + cells[j+1..]) == Collect(f, cells)
  {
    assert cells == cells[..j] + ([cells[j]] + cells[j+1..]);
    CollectConcat(f, cells[..j], cells[j+1..]);
    CollectConcat(f, cells[..j], [cells[j]] + cells[j+1..]);
    assert ([cells[j]] + cells[j+1..])[1..] == cells[j+1..];
  }

  /** A widget to move, and the row to move it to. */
  datatype MoveChild = MoveChild(child: nat, top: nat)

  class Grid {
    var cells: seq<Cell>

    constructor ()
      ensures cells == []
    {
      cells := [];
    }

    /** sequence_grid_attach_widget. */
    method Attach(w: Widget, index: nat, size: nat, min: nat)
      modifies this
      ensures cells == old(cells) + Row(index, w, size > min)
    {
      cells := cells + [Cell(Field(w), index, 0, 0, true)];
      var button := Cell(RemoveButton, index, 1, index + 1, true);
      if size <= min {
        button := button.(sensitive := false);
      }
      cells := cells + [button];
    }

    /** The last row, for new entries. */
    method AttachAddRow(size: nat)
      modifies this
      ensures cells == old(cells) + AddRow(size, Some(true))
    {
      cells := cells + [Cell(AddLabel, size, 0, 0, true)];
      cells := cells + [Cell(AddButton, size, 1, 0, true)];
    }

    /** The first loop of the handler of an added item: sensitivities and stored indexes change,
        and the widgets to move down are noted. */
    method NoteDown(item: nat, size: nat, limits: Limits) returns (toMove: seq<MoveChild>)
      modifies this
      ensures |cells| == |old(cells)|
      ensures forall k :: 0 <= k < |cells| ==> cells[k] == NotedDown(old(cells)[k], item, size, limits)
      ensures toMove == ToMove(old(cells), |cells|, item, true)
    {
      toMove := [];
      var list := 0;
      while list < |cells|
        invariant list <= |cells| == |old(cells)|
        invariant forall k :: list <= k < |cells| ==> cells[k] == old(cells)[k]
        invariant forall k :: 0 <= k < list ==> cells[k] == NotedDown(old(cells)[k], item, size, limits)
        invariant toMove == ToMove(old(cells), list, item, true)
      {
        var child := cells[list];
        if child.left == 1 {
          if child.top == size - 1 {
            child := child.(sensitive := size < limits.max);
          } else {
            child := child.(sensitive := size > limits.min);
          }
        }
        if child.top >= item {
          toMove := toMove + [MoveChild(list, (child.top + 1) % ROW_MODULUS)];
          if child.index > 0 {
            child := child.(index := child.index + 1);
          }
        }
        cells := cells[list := child];
        list := list + 1;
      }
    }

    /** The first loop of the handler of a removed item that is over the widgets that stay. */
    method NoteUp(item: nat, size: nat, limits: Limits) returns (toMove: seq<MoveChild>)
      requires size > 0
      modifies this
      ensures |cells| == |old(cells)|
      ensures forall k :: 0 <= k < |cells| ==> cells[k] == NotedUp(old(cells)[k], item, size, limits)
      ensures toMove == ToMove(old(cells), |cells|, item + 1, false)
    {
      toMove := [];
      var list := 0;
      while list < |cells|
        invariant list <= |cells| == |old(cells)|
        invariant forall k :: list <= k < |cells| ==> cells[k] == old(cells)[k]
        invariant forall k :: 0 <= k < list ==> cells[k] == NotedUp(old(cells)[k], item, size, limits)
        invariant toMove == ToMove(old(cells), list, item + 1, false)
      {
        var child := cells[list];
        if child.left == 1 {
          if child.top == size {
            child := child.(sensitive := true);
          } else {
            child := child.(sensitive := size - 1 > limits.min);
          }
        }
        if child.top > item {
          toMove := toMove + [MoveChild(list, (child.top - 1) % ROW_MODULUS)];
          if child.index > 0 {
            child := child.(index := child.index - 1);
          }
        }
        cells := cells[list := child];
        list := list + 1;
      }
    }

    /** The last loop of both handlers. */
    method Move(toMove: seq<MoveChild>, first: nat, down: bool)
      requires (first > 0 || down) && toMove == ToMove(cells, |cells|, first, down)
      modifies this
      ensures |cells| == |old(cells)|
      ensures forall k :: 0 <= k < |cells| ==> cells[k] == Shifted(old(cells)[k], first, down)
    {
      ToMoveNoted(cells, |cells|, first, down);
      var list := 0;
      while list < |toMove|
        invariant list <= |toMove| && |cells| == |old(cells)|
        invariant forall k :: 0 <= k < |cells| ==>
                    cells[k] == Shifted(old(cells)[k], first, down)
                    || (cells[k] == old(cells)[k] && forall m :: 0 <= m < list ==> toMove[m].child != k)
      {
        var mc := toMove[list];
        cells := cells[mc.child := cells[mc.child].(top := mc.top)];
        list := list + 1;
      }
    }

    /** Makes room for an item, and sets which buttons can be pressed. */
    method MoveDown(item: nat, size: nat, limits: Limits)
      modifies this
      ensures cells == Collect(Down(item, size, limits), old(cells))
    {
      var toMove := NoteDown(item, size, limits);
      ToMoveTops(old(cells), cells, |cells|, item, true);
      Move(toMove, item, true);
      CollectEach(Down(item, size, limits), old(cells), cells);
    }

    /** Closes the gap left by an item, and sets which buttons can be pressed. */
    method MoveUp(item: nat, size: nat, limits: Limits)
      requires size > 0
      modifies this
      ensures cells == Collect(Up(item, size, limits), old(cells))
    {
      var toMove := NoteUp(item, size, limits);
      ToMoveTops(old(cells), cells, |cells|, item + 1, false);
      Move(toMove, item + 1, false);
      CollectEach(Up(item, size, limits), old(cells), cells);
    }

    /** Destroying a widget takes it out of the grid. */
    method DestroyField(w: Widget)
      modifies this
      ensures cells == Collect(NotField(w), old(cells))
    {
      var j := 0;
      while j < |cells|
        invariant j <= |cells|
        invariant forall k :: 0 <= k < j ==> cells[k].kind != Field(w)
        invariant Collect(NotField(w), cells) == Collect(NotField(w), old(cells))
        decreases |cells| - j
      {
        if cells[j].kind == Field(w) {
          CollectSkips(NotField(w), cells, j);
          cells := cells[..j] + cells[j+1..];
        } else {
          j := j + 1;
        }
      }
      CollectEach(NotField(w), cells, cells);
    }

    /** Destroys the widgets of a row, starting over after each one. */
    method DestroyRow(item: nat)
      modifies this
      ensures cells == Collect(NotRow(item), old(cells))
    {
      var list := 0;
      while list < |cells|
        invariant list <= |cells|
        invariant forall k :: 0 <= k < list ==> cells[k].top != item
        invariant Collect(NotRow(item), cells) == Collect(NotRow(item), old(cells))
        decreases |cells|, |cells| - list
      {
        if cells[list].top == item {
          CollectSkips(NotRow(item), cells, list);
          cells := cells[..list] + cells[list+1..];
          list := 0;
        } else {
          list := list + 1;
        }
      }
      CollectEach(NotRow(item), cells, cells);
    }
  }

  /** The row a widget of row `top` moves to, as it is noted. */
  function NewRow(top: nat, down: bool): nat {
    (if down then top + 1 else top - 1) % ROW_MODULUS
  }

  /** The widgets to move among the first `n`: those from row `first` on. */
  function ToMove(cells: seq<Cell>, n: nat, first: nat, down: bool): seq<MoveChild>
    requires n <= |cells| && (first > 0 || down)
  {
    if n == 0 then []
    else
      var top := cells[n-1].top;
      ToMove(cells, n - 1, first, down)
      + (if top >= first then [MoveChild(n - 1, NewRow(top, down))] else [])
  }

  lemma {:induction false} ToMoveTops(a: seq<Cell>, b: seq<Cell>, n: nat, first: nat, down: bool)
    requires n <= |a| == |b| && (first > 0 || down) && forall k :: 0 <= k < n ==> a[k].top == b[k].top
    ensures ToMove(a, n, first, down) == ToMove(b, n, first, down)
  {
    if n > 0 {
      ToMoveTops(a, b, n - 1, first, down);
    }
  }

  lemma {:induction false} ToMoveNoted(cells: seq<Cell>, n: nat, first: nat, down: bool)
    requires n <= |cells| && (first > 0 || down)
    ensures Noted(ToMove(cells, n, first, down), cells, n, first, down)
  {
    if n > 0 {
      ToMoveNoted(cells, n - 1, first, down);
      NotedNext(ToMove(cells, n - 1, first, down), ToMove(cells, n, first, down), cells, n - 1, first, down);
    }
  }

  /** The widgets noted among the first `n`: all those from row `first` on, with their new rows. */
  predicate Noted(toMove: seq<MoveChild>, cells: seq<Cell>, n: nat, first: nat, down: bool)
    requires n <= |cells|
  {
    && (forall m :: 0 <= m < |toMove| ==>
          toMove[m].child < n && first <= cells[toMove[m].child].top
          && toMove[m].top == NewRow(cells[toMove[m].child].top, down))
    && (forall k :: 0 <= k < n && first <= cells[k].top ==> exists m :: 0 <= m < |toMove| && toMove[m].child == k)
  }

  lemma {:induction false} NotedNext(before: seq<MoveChild>, toMove: seq<MoveChild>, cells: seq<Cell>, n: nat,
                                     first: nat, down: bool)
    requires n < |cells| && Noted(before, cells, n, first, down) && (first > 0 || down)
    requires var top := cells[n].top;
             toMove == if top >= first then before + [MoveChild(n, NewRow(top, down))] else before
    ensures Noted(toMove, cells, n + 1, first, down)
  {
    forall m | 0 <= m < |toMove|
      ensures toMove[m].child < n + 1 && first <= cells[toMove[m].child].top
      ensures toMove[m].top == NewRow(cells[toMove[m].child].top, down)
    {
      assert m < |before| ==> toMove[m] == before[m];
    }
    forall k | 0 <= k < n + 1 && first <= cells[k].top
      ensures exists m :: 0 <= m < |toMove| && toMove[m].child == k
    {
      if k < n {
        var m :| 0 <= m < |before| && before[m].child == k;
        assert toMove[m].child == k;
      } else {
        assert toMove[|before|].child == k;
      }
    }
  }

  function Shifted(c: Cell, first: nat, down: bool): Cell
    requires first > 0 || down
  {
    if c.top < first then c else c.(top := NewRow(c.top, down))
  }

  function NotedDown(c: Cell, item: nat, size: nat, limits: Limits): Cell {
    MovedDown(c, item, size, limits).(top := c.top)
  }

  function NotedUp(c: Cell, item: nat, size: nat, limits: Limits): Cell
    requires size > 0
  {
    MovedUp(c, item, size, limits).(top := c.top)
  }
}
