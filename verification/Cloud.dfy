/** The cloud: a tag for each row of a model, drawn larger for a larger weight, and a selection
    that its mode restricts. */
module Clouds {
  import opened RichText

  datatype Mode = NoSelection | Single | Browse | Multiple

  /** The weights of the rows: none of them, or one for each row that has a value. */
  type Weights = Option<seq<Option<real>>>

  // ----- weights and scales -----

  function PowerOfTwo(n: nat): (p: real)
    ensures p >= 1.0
  {
    if n == 0 then 1.0 else 2.0 * PowerOfTwo(n - 1)
  }

  /** The largest and the least positive normal value of a double. */
  const G_MAXDOUBLE: real := PowerOfTwo(1024) - PowerOfTwo(971)
  const G_MINDOUBLE: real := 1.0 / PowerOfTwo(1022)

  function Doubled(x: real, n: nat): real
    decreases n
  {
    if n == 0 then x else Doubled(2.0 * x, n - 1)
  }

  lemma {:induction false} DoubledPower(x: real, n: nat)
    ensures Doubled(x, n) == x * PowerOfTwo(n)
    decreases n
  {
    if n > 0 {
      DoubledPower(2.0 * x, n - 1);
    }
  }

  lemma {:induction false} HalvedDoubled(n: nat, x: real)
    requires x == 1.0 / PowerOfTwo(n)
    ensures Doubled(x, n) == 1.0
  {
    DoubledPower(x, n);
    Quotient(1.0, PowerOfTwo(n), x);
  }

  lemma {:induction false} DifferenceDoubled(n: nat, m: nat, x: real)
    requires x == PowerOfTwo(n) - PowerOfTwo(m)
    ensures x == Doubled(1.0, n) - Doubled(1.0, m)
  {
    DoubledPower(1.0, n);
    DoubledPower(1.0, m);
  }

  /** The least positive normal double is the one that makes 1 when it is doubled 1022 times; the greatest
      one is 2 to the 1024th, less 2 to the 971st. */
  lemma {:induction false} DoubleLimits()
    ensures Doubled(G_MINDOUBLE, 1022) == 1.0
    ensures G_MAXDOUBLE == Doubled(1.0, 1024) - Doubled(1.0, 971)
  {
    HalvedDoubled(1022, G_MINDOUBLE);
    DifferenceDoubled(1024, 971, G_MAXDOUBLE);
  }

  predicate Doubles(ws: seq<Option<real>>) {
    forall i :: 0 <= i < |ws| && ws[i].Some? ==> -G_MAXDOUBLE <= ws[i].value <= G_MAXDOUBLE
  }

  /** The least of the first `n` weights; with none, the value the search starts from. */
  function Least(ws: seq<Option<real>>, n: nat): real
    requires n <= |ws|
  {
    if n == 0 then G_MAXDOUBLE
    else
      var m := Least(ws, n - 1);
      if ws[n-1].Some? && ws[n-1].value < m then ws[n-1].value else m
  }

  /** The greatest of the first `n` weights and of the value the search starts from. */
  function Greatest(ws: seq<Option<real>>, n: nat): real
    requires n <= |ws|
  {
    if n == 0 then G_MINDOUBLE
    else
      var m := Greatest(ws, n - 1);
      if ws[n-1].Some? && ws[n-1].value > m then ws[n-1].value else m
  }

  lemma {:induction false} Bounds(ws: seq<Option<real>>, n: nat)
    requires n <= |ws|
    ensures forall i :: 0 <= i < n && ws[i].Some? ==> Least(ws, n) <= ws[i].value <= Greatest(ws, n)
    ensures G_MINDOUBLE <= Greatest(ws, n) && Least(ws, n) <= G_MAXDOUBLE
    ensures Least(ws, n) == G_MAXDOUBLE || exists i :: 0 <= i < n && ws[i] == Some(Least(ws, n))
    ensures Greatest(ws, n) == G_MINDOUBLE || exists i :: 0 <= i < n && ws[i] == Some(Greatest(ws, n))
  {
    if n > 0 {
      Bounds(ws, n - 1);
    }
  }

  function ScaleStep(lo: real, hi: real, minScale: real, maxScale: real): real {
    if hi > lo then (maxScale - minScale) / (hi - lo) else 0.0
  }

  /** The scale of a row of weight `w`. */
  function Scale(w: real, lo: real, hi: real, minScale: real, maxScale: real): real {
    minScale + ScaleStep(lo, hi, minScale, maxScale) * (w - lo)
  }

  lemma {:induction false} Quotient(a: real, b: real, q: real)
    requires b > 0.0 && q == a / b
    ensures q * b == a
    ensures (a > 0.0 <==> q > 0.0) && (a < 0.0 <==> q < 0.0)
  {
  }

  lemma {:induction false} Product(q: real, x: real, y: real)
    requires x <= y
    ensures q >= 0.0 ==> q * x <= q * y
    ensures q > 0.0 && x < y ==> q * x < q * y
    ensures q <= 0.0 ==> q * x >= q * y
  {
    assert q * (y - x) == q * y - q * x;
  }

  /** Of two rows the one of larger weight is drawn larger, exactly when the scales differ at all. */
  lemma {:induction false} ScaleOrder(v: real, w: real, lo: real, hi: real, minScale: real, maxScale: real)
    requires lo <= v <= hi && lo <= w <= hi && minScale <= maxScale
    ensures Scale(v, lo, hi, minScale, maxScale) < Scale(w, lo, hi, minScale, maxScale)
            <==> v < w && minScale < maxScale
    ensures v <= w ==> Scale(v, lo, hi, minScale, maxScale) <= Scale(w, lo, hi, minScale, maxScale)
  {
    var q := ScaleStep(lo, hi, minScale, maxScale);
    if hi > lo {
      Quotient(maxScale - minScale, hi - lo, q);
    }
    if v <= w {
      Product(q, v - lo, w - lo);
    } else {
      Product(q, w - lo, v - lo);
    }
  }

  lemma {:induction false} ScaleEnds(lo: real, hi: real, minScale: real, maxScale: real)
    ensures Scale(lo, lo, hi, minScale, maxScale) == minScale
    ensures hi > lo ==> Scale(hi, lo, hi, minScale, maxScale) == maxScale
  {
    if hi > lo {
      Quotient(maxScale - minScale, hi - lo, ScaleStep(lo, hi, minScale, maxScale));
    }
  }

  /** Every scale is between the least and the greatest one. */
  lemma {:induction false} ScaleWithin(w: real, lo: real, hi: real, minScale: real, maxScale: real)
    requires lo <= w <= hi && minScale <= maxScale
    ensures minScale <= Scale(w, lo, hi, minScale, maxScale) <= maxScale
  {
    ScaleEnds(lo, hi, minScale, maxScale);
    ScaleOrder(lo, w, lo, hi, minScale, maxScale);
    ScaleOrder(w, hi, lo, hi, minScale, maxScale);
    if hi == lo {
      assert ScaleStep(lo, hi, minScale, maxScale) == 0.0;
    }
  }

  /** The scales of the rows of a model. */
  function RowScale(ws: Weights, i: nat, minScale: real, maxScale: real): real
    requires ws.Some? ==> i < |ws.value|
  {
    if ws.None? || ws.value[i].None? then 1.0
    else
      var n := |ws.value|;
      Scale(ws.value[i].value, Least(ws.value, n), Greatest(ws.value, n), minScale, maxScale)
  }

  /** No weight is less than `lo`, which is one of them, or the greatest double. */
  predicate Lightest(ws: seq<Option<real>>, lo: real) {
    && lo <= G_MAXDOUBLE && (forall i :: 0 <= i < |ws| && ws[i].Some? ==> lo <= ws[i].value)
    && (lo == G_MAXDOUBLE || Some(lo) in ws)
  }

  /** No weight is greater than `hi`, which is one of them, or the least positive double. */
  predicate Heaviest(ws: seq<Option<real>>, hi: real) {
    && hi >= G_MINDOUBLE && (forall i :: 0 <= i < |ws| && ws[i].Some? ==> ws[i].value <= hi)
    && (hi == G_MINDOUBLE || Some(hi) in ws)
  }

  /** A row without a weight is drawn at scale 1.  A weighted one is as far between the two scales as its
      weight is between the least and the greatest one. */
  ghost predicate Drawn(row: int, scale: real, ws: Weights, minScale: real, maxScale: real) {
    if ws.None? || !(0 <= row < |ws.value|) || ws.value[row].None? then scale == 1.0
    else
      forall lo, hi :: Lightest(ws.value, lo) && Heaviest(ws.value, hi) ==>
        Between(scale, ws.value[row].value, lo, hi, minScale, maxScale)
  }

  predicate Between(scale: real, w: real, lo: real, hi: real, minScale: real, maxScale: real) {
    if hi <= lo then scale == minScale
    else (scale - minScale) * (hi - lo) == (maxScale - minScale) * (w - lo)
  }

  /** There is one lightest and one heaviest weight. */
  lemma {:induction false} LimitsExactly(ws: seq<Option<real>>, lo: real, hi: real)
    ensures Lightest(ws, lo) <==> lo == Least(ws, |ws|)
    ensures Heaviest(ws, hi) <==> hi == Greatest(ws, |ws|)
  {
    Bounds(ws, |ws|);
    var least, greatest := Least(ws, |ws|), Greatest(ws, |ws|);
    assert Lightest(ws, least) && Heaviest(ws, greatest);
    if Lightest(ws, lo) && lo != G_MAXDOUBLE {
      var i :| 0 <= i < |ws| && ws[i] == Some(lo);
    }
    if Heaviest(ws, hi) && hi != G_MINDOUBLE {
      var i :| 0 <= i < |ws| && ws[i] == Some(hi);
    }
  }

  lemma {:induction false} Interpolated(w: real, lo: real, hi: real, minScale: real, maxScale: real)
    ensures Between(Scale(w, lo, hi, minScale, maxScale), w, lo, hi, minScale, maxScale)
  {
    var q, v := ScaleStep(lo, hi, minScale, maxScale), w - lo;
    if hi > lo {
      Quotient(maxScale - minScale, hi - lo, q);
      Turned(q, v, hi - lo);
    }
  }

  lemma {:induction false} Turned(q: real, v: real, x: real)
    ensures (q * v) * x == (q * x) * v
  {
  }

  lemma {:induction false} RowDrawn(ws: Weights, i: nat, minScale: real, maxScale: real)
    requires ws.Some? ==> i < |ws.value|
    ensures Drawn(i, RowScale(ws, i, minScale, maxScale), ws, minScale, maxScale)
  {
    if ws.Some? && ws.value[i].Some? {
      var n, w := |ws.value|, ws.value[i].value;
      forall lo, hi | Lightest(ws.value, lo) && Heaviest(ws.value, hi)
        ensures Between(RowScale(ws, i, minScale, maxScale), w, lo, hi, minScale, maxScale)
      {
        LimitsExactly(ws.value, lo, hi);
        Interpolated(w, lo, hi, minScale, maxScale);
      }
    }
  }

  /** The weighted rows keep to the range of scales, and to the order of their weights. */
  lemma {:induction false} WeightedRows(ws: Weights, i: nat, j: nat, minScale: real, maxScale: real)
    requires ws.Some? && i < |ws.value| && j < |ws.value| && ws.value[i].Some? && ws.value[j].Some?
    requires minScale <= maxScale
    ensures minScale <= RowScale(ws, i, minScale, maxScale) <= maxScale
    ensures RowScale(ws, i, minScale, maxScale) < RowScale(ws, j, minScale, maxScale)
            <==> ws.value[i].value < ws.value[j].value && minScale < maxScale
  {
    var n := |ws.value|;
    Bounds(ws.value, n);
    var lo, hi := Least(ws.value, n), Greatest(ws.value, n);
    ScaleWithin(ws.value[i].value, lo, hi, minScale, maxScale);
    ScaleOrder(ws.value[i].value, ws.value[j].value, lo, hi, minScale, maxScale);
  }

  /** A heaviest row is drawn at the greatest scale exactly when its weight is not below the value
      the search starts from and some row weighs less. */
  lemma {:induction false} HeaviestRow(ws: Weights, i: nat, minScale: real, maxScale: real)
    requires ws.Some? && i < |ws.value| && ws.value[i].Some? && Doubles(ws.value) && minScale < maxScale
    requires forall j :: 0 <= j < |ws.value| && ws.value[j].Some? ==> ws.value[j].value <= ws.value[i].value
    ensures RowScale(ws, i, minScale, maxScale) == maxScale
            <==> ws.value[i].value >= G_MINDOUBLE
                 && exists j :: 0 <= j < |ws.value| && ws.value[j].Some? && ws.value[j].value < ws.value[i].value
  {
    var n, w := |ws.value|, ws.value[i].value;
    Bounds(ws.value, n);
    var lo, hi := Least(ws.value, n), Greatest(ws.value, n);
    ScaleEnds(lo, hi, minScale, maxScale);
    ScaleOrder(w, hi, lo, hi, minScale, maxScale);
    if lo < w {
      assert lo != G_MAXDOUBLE;
    }
  }

  // ----- the selection -----

  /** The one row in a list of rows, leaving out what is no row; -1 when there is none or several. */
  function UniqueRow(rows: seq<int>): int {
    var proper := RealRows(rows);
    if |proper| == 1 then proper[0] else -1
  }

  function RealRows(rows: seq<int>): seq<int> {
    if rows == [] then []
    else RealRows(rows[..|rows|-1]) + (if rows[|rows|-1] >= 0 then [rows[|rows|-1]] else [])
  }

  lemma {:induction false} RealRowsGrow(rows: seq<int>, n: nat)
    requires n <= |rows|
    ensures |RealRows(rows[..n])| <= |RealRows(rows)|
    decreases |rows|
  {
    if n < |rows| {
      RealRowsGrow(rows[..|rows|-1], n);
      assert rows[..|rows|-1][..n] == rows[..n];
    } else {
      assert rows[..n] == rows;
    }
  }

  /** g_slist_remove. */
  function Without<T(==)>(list: seq<T>, x: T): seq<T> {
    if list == [] then [] else if list[0] == x then list[1..] else [list[0]] + Without(list[1..], x)
  }

  predicate NoRepeat<T(==)>(list: seq<T>) {
    forall i, j :: 0 <= i < j < |list| ==> list[i] != list[j]
  }

  lemma {:induction false} WithoutFacts<T>(list: seq<T>, x: T)
    requires NoRepeat(list)
    ensures NoRepeat(Without(list, x))
    ensures forall y :: y in Without(list, x) ==> y in list && y != x
    ensures forall y :: y in list && y != x ==> y in Without(list, x)
    ensures |Without(list, x)| == if x in list then |list| - 1 else |list|
  {
    if list != [] {
      var rest := list[1..];
      assert forall i, j :: 0 <= i < j < |rest| ==> rest[i] == list[i+1] && rest[j] == list[j+1];
      assert list[0] !in rest;
      WithoutFacts(rest, x);
    }
  }

  predicate AtMostOne(mode: Mode) {
    mode == Single || mode == Browse
  }

  /** The selection after a click on `tag`. */
  function Clicked<T(==)>(mode: Mode, selected: seq<T>, tag: T): seq<T> {
    match mode
    case NoSelection => selected
    case Single => if tag in selected then [] else [tag]
    case Browse => [tag]
    case Multiple => if tag in selected then Without(selected, tag) else [tag] + selected
  }

  /** What the mode leaves of the selection `toggled` after a click on `tag`. */
  function Restricted(mode: Mode, toggled: seq<TextTag>, tag: TextTag): seq<TextTag> {
    if !AtMostOne(mode) then toggled
    else if |toggled| > 1 then toggled[..1] + toggled[2..]
    else if mode == Browse && toggled == [] then [tag]
    else toggled
  }

  /** Toggling and then restricting. */
  lemma {:induction false} ClickedSteps(mode: Mode, selected: seq<TextTag>, tag: TextTag)
    requires mode != NoSelection && NoRepeat(selected) && (AtMostOne(mode) ==> |selected| <= 1)
    ensures var toggled := Clicked(Multiple, selected, tag);
            && (AtMostOne(mode) ==> |toggled| <= 2 && |Clicked(mode, selected, tag)| <= 1)
            && Restricted(mode, toggled, tag) == Clicked(mode, selected, tag)
  {
    if AtMostOne(mode) && |selected| == 1 {
      assert selected == [selected[0]];
    }
  }

  /** The selection that is left when the mode changes. */
  function CutDown<T>(mode: Mode, selected: seq<T>): seq<T> {
    match mode
    case NoSelection => []
    case Multiple => selected
    case _ => if |selected| > 1 then selected[..1] else selected
  }

  /** What a click does to the selection: it toggles the tag among any others where several may be
      selected; otherwise it leaves the tag alone selected, or nothing when the tag was selected and
      may be given up. */
  lemma {:induction false} ClickedMeaning<T>(mode: Mode, selected: seq<T>, tag: T, other: T)
    requires NoRepeat(selected) && other != tag && mode != NoSelection
    ensures NoRepeat(Clicked(mode, selected, tag))
    ensures tag in Clicked(mode, selected, tag) <==> tag !in selected || mode == Browse
    ensures other in Clicked(mode, selected, tag) <==> mode == Multiple && other in selected
    ensures AtMostOne(mode) ==> |Clicked(mode, selected, tag)| <= 1
  {
    WithoutFacts(selected, tag);
  }

  /** The iterator is on the row of a selected tag exactly when no other selected tag has a row. */
  lemma {:induction false} UniqueRowExactly(rows: seq<int>, i: nat)
    requires i < |rows| && rows[i] >= 0
    ensures UniqueRow(rows) == rows[i] <==> forall j :: 0 <= j < |rows| && j != i ==> rows[j] < 0
  {
    RealRowsCount(rows, i);
  }

  /** It is on no row when no selected tag has one, or several have. */
  lemma {:induction false} NoUniqueRow(rows: seq<int>, i: nat, j: nat)
    requires (forall k :: 0 <= k < |rows| ==> rows[k] < 0) || (i < j < |rows| && rows[i] >= 0 && rows[j] >= 0)
    ensures UniqueRow(rows) == -1
  {
    NoRealRows(rows);
    if i < j < |rows| && rows[i] >= 0 && rows[j] >= 0 {
      RealRowsCount(rows, i);
    }
  }

  lemma {:induction false} RealRowsCount(rows: seq<int>, i: nat)
    requires i < |rows| && rows[i] >= 0
    ensures rows[i] in RealRows(rows)
    ensures |RealRows(rows)| == 1 <==> forall j :: 0 <= j < |rows| && j != i ==> rows[j] < 0
  {
    var last := |rows| - 1;
    var init := rows[..last];
    if i < last {
      RealRowsCount(init, i);
      assert forall j :: 0 <= j < last ==> init[j] == rows[j];
    } else {
      NoRealRows(init);
      assert forall j :: 0 <= j < last ==> init[j] == rows[j];
    }
  }

  lemma {:induction false} NoRealRows(rows: seq<int>)
    ensures RealRows(rows) == [] <==> forall j :: 0 <= j < |rows| ==> rows[j] < 0
  {
    if rows != [] {
      var init := rows[..|rows|-1];
      NoRealRows(init);
      assert forall j :: 0 <= j < |init| ==> init[j] == rows[j];
    }
  }

  /** `row` is -1 for the tag of section titles, which stands for no row. */
  class TextTag {
    const row: int
    const scale: real
    var backgroundSet: bool

    constructor (row: int, scale: real)
      ensures this.row == row && this.scale == scale && !backgroundSet
    {
      this.row, this.scale, backgroundSet := row, scale, false;
    }
  }

  class Cloud {
    var selectionMode: Mode
    /** The tag selected last comes first. */
    var selectedTags: seq<TextTag>
    /** The table of tags. */
    var tags: seq<TextTag>
    const section: TextTag
    /** The row of the iterator, once there is one; -1 when it is on no row. */
    var iter: Option<int>
    var minScale: real
    var maxScale: real
    /** The signals emitted so far: rows activated, and changes of the selection. */
    var activated: seq<int>
    var selectionChanged: nat

    constructor ()
      ensures Valid() && selectionMode == Single && selectedTags == [] && tags == [section] && iter == None
    {
      selectionMode, selectedTags, iter := Single, [], None;
      minScale, maxScale, activated, selectionChanged := 0.8, 2.0, [], 0;
      var t := new TextTag(-1, 1.0);
      section, tags := t, [t];
    }

    static ghost function Rows(list: seq<TextTag>): (rows: seq<int>)
      ensures |rows| == |list|
    {
      seq(|list|, i requires 0 <= i < |list| => list[i].row)
    }

    /** One tag for each row. */
    ghost predicate TagsOk()
      reads this
    {
      && tags != [] && tags[0] == section && section.row == -1
      && (forall i :: 1 <= i < |tags| ==> tags[i].row >= 0)
      && (forall i, j :: 0 <= i < j < |tags| ==> tags[i] != tags[j] && tags[i].row != tags[j].row)
    }

    /** No tag is selected twice, and no more are selected than the mode allows. */
    ghost predicate SelectionOk()
      reads this
    {
      && NoRepeat(selectedTags)
      && (forall t :: t in selectedTags ==> t in tags)
      && (selectionMode == NoSelection ==> selectedTags == [])
      && (AtMostOne(selectionMode) ==> |selectedTags| <= 1)
    }

    /** The selected tags are highlighted, and of the rows' tags no others are. */
    ghost predicate HighlightOk()
      reads this, tags, selectedTags
    {
      && (forall t :: t in selectedTags ==> t.backgroundSet)
      && (forall t :: t in tags && t.row >= 0 && t !in selectedTags ==> !t.backgroundSet)
    }

    ghost predicate IterOk()
      reads this
    {
      iter.Some? ==> iter.value == UniqueRow(Rows(selectedTags))
    }

    ghost predicate Valid()
      reads this, tags, selectedTags
    {
      TagsOk() && SelectionOk() && HighlightOk() && IterOk()
    }

    /** sync_iter_with_selection; moving to a row of the model does not fail. */
    method SyncIterWithSelection()
      modifies this`iter
      ensures old(iter).None? ==> iter.None?
      ensures old(iter).Some? ==> iter == Some(UniqueRow(Rows(selectedTags)))
    {
      if iter.None? {
        return;
      }
      var selrow := -1;
      var list := 0;
      ghost var rows := Rows(selectedTags);
      while list < |selectedTags|
        invariant list <= |selectedTags|
        invariant selrow >= -1
        invariant RealRows(rows[..list]) == if selrow == -1 then [] else [selrow]
      {
        var row := selectedTags[list].row;
        assert rows[..list+1][..list] == rows[..list] && rows[list] == row;
        if row >= 0 {
          if selrow == -1 {
            selrow := row;
          } else {
            selrow := -1;
            assert |RealRows(rows[..list+1])| == 2;
            RealRowsGrow(rows, list + 1);
            break;
          }
        }
        list := list + 1;
        assert list == |selectedTags| ==> rows[..list] == rows;
      }
      assert list == |selectedTags| ==> rows[..list] == rows;
      iter := Some(selrow);
    }

    /** Selecting and unselecting a tag, with its highlight. */
    method Select(tag: TextTag)
      modifies this`selectedTags, tag
      ensures selectedTags == [tag] + old(selectedTags) && tag.backgroundSet
    {
      selectedTags := [tag] + selectedTags;
      tag.backgroundSet := true;
    }

    method Unselect(tag: TextTag)
      modifies this`selectedTags, tag
      ensures selectedTags == Without(old(selectedTags), tag) && !tag.backgroundSet
    {
      selectedTags := Without(selectedTags, tag);
      tag.backgroundSet := false;
    }

    /** The first part of row_clicked: the tag is selected if it was not, and the other way
        round. */
    method Toggle(tag: TextTag)
      requires TagsOk() && SelectionOk() && HighlightOk() && tag in tags
      modifies this`selectedTags, tag
      ensures selectedTags == Clicked(Multiple, old(selectedTags), tag)
      ensures NoRepeat(selectedTags) && (forall t :: t in selectedTags ==> t in tags) && HighlightOk()
    {
      WithoutFacts(selectedTags, tag);
      if tag in selectedTags {
        ghost var rest := Without(selectedTags, tag);
        Unselect(tag);
        assert selectedTags == rest;
        forall t | t in selectedTags ensures t in old(selectedTags) && t != tag {
          assert t in rest;
        }
      } else {
        Select(tag);
      }
    }

    /** The second part: what the mode does not allow is undone. */
    method Restrict(tag: TextTag)
      requires TagsOk() && tag in tags && NoRepeat(selectedTags) && (forall t :: t in selectedTags ==> t in tags)
      requires HighlightOk()
      requires AtMostOne(selectionMode) ==> |selectedTags| <= 2
      modifies this`selectedTags, tags
      ensures selectedTags == Restricted(selectionMode, old(selectedTags), tag)
      ensures NoRepeat(selectedTags) && (forall t :: t in selectedTags ==> t in tags) && HighlightOk()
    {
      if selectionMode == Single || selectionMode == Browse {
        if |selectedTags| > 1 {
          var tag2 := selectedTags[1];
          WithoutFacts(selectedTags, tag2);
          Unselect(tag2);
        }
      }
      if selectionMode == Browse {
        if selectedTags == [] {
          Select(tag);
        }
      }
    }

    /** row_clicked. */
    method RowClicked(row: int, tag: TextTag)
      requires Valid() && tag in tags
      modifies this`selectedTags, this`iter, this`activated, this`selectionChanged, tags
      ensures Valid() && selectedTags == Clicked(selectionMode, old(selectedTags), tag)
      ensures activated == if selectionMode == NoSelection then old(activated) + [row] else old(activated)
      ensures selectionChanged == old(selectionChanged) + (if selectionMode == NoSelection then 0 else 1)
      ensures iter.Some? == old(iter).Some?
    {
      if selectionMode == NoSelection {
        activated := activated + [row];
        return;
      }
      ClickSelection(tag);
      SyncIterWithSelection();
      selectionChanged := selectionChanged + 1;
    }

    method ClickSelection(tag: TextTag)
      requires TagsOk() && SelectionOk() && HighlightOk() && tag in tags && selectionMode != NoSelection
      modifies this`selectedTags, tags
      ensures SelectionOk() && HighlightOk() && selectedTags == Clicked(selectionMode, old(selectedTags), tag)
    {
      ClickedSteps(selectionMode, selectedTags, tag);
      Toggle(tag);
      Restrict(tag);
    }

    /** The highlights of tags that are no longer selected. */
    method ClearHighlights(list: seq<TextTag>)
      modifies list
      ensures forall t :: t in list ==> !t.backgroundSet
    {
      var i := 0;
      while i < |list|
        invariant i <= |list| && forall k :: 0 <= k < i ==> !list[k].backgroundSet
      {
        list[i].backgroundSet := false;
        i := i + 1;
      }
    }

    /** Cuts down to one selected tag, the one selected last. */
    method KeepFirst()
      requires NoRepeat(selectedTags) && HighlightOk() && |selectedTags| > 1
      modifies this`selectedTags, selectedTags
      ensures selectedTags == old(selectedTags)[..1] && HighlightOk()
    {
      var newsel := selectedTags[..1];
      selectedTags := selectedTags[1..];
      ClearHighlights(selectedTags);
      assert newsel[0] !in selectedTags;
      selectedTags := newsel;
    }

    /** gdaui_cloud_set_selection_mode. */
    method SetSelectionMode(mode: Mode)
      requires Valid()
      modifies this`selectionMode, this`selectedTags, this`iter, this`selectionChanged, selectedTags
      ensures Valid() && selectionMode == mode && selectedTags == CutDown(mode, old(selectedTags))
      ensures selectionChanged == old(selectionChanged) + (if selectedTags == old(selectedTags) then 0 else 1)
      ensures iter.Some? == old(iter).Some?
    {
      if mode == selectionMode {
        return;
      }
      match mode {
      case NoSelection =>
        if selectedTags != [] {
          ClearHighlights(selectedTags);
          selectedTags := [];
          SyncIterWithSelection();
          selectionChanged := selectionChanged + 1;
        }
      case Single | Browse =>
        if |selectedTags| > 1 {
          KeepFirst();
          SyncIterWithSelection();
          selectionChanged := selectionChanged + 1;
        }
      case Multiple =>
      }
      selectionMode := mode;
    }

    /** cloud_selector_select_row.  A row is selected when the table has a tag for it; -1 stands for
        the tag of section titles. */
    method SelectRow(row: int) returns (ok: bool)
      requires Valid()
      modifies this`selectedTags, this`iter, this`activated, this`selectionChanged, tags
      ensures Valid()
      ensures ok <==> selectionMode != NoSelection && exists t :: t in tags && t.row == row
      ensures ok ==> exists t :: t in selectedTags && t.row == row
      ensures !ok ==> selectedTags == old(selectedTags) && iter == old(iter)
      ensures selectionChanged == old(selectionChanged) + (if selectedTags == old(selectedTags) then 0 else 1)
      ensures activated == old(activated) && iter.Some? == old(iter).Some?
      ensures forall t :: t in tags && t.row == row ==>
                selectedTags == if t in old(selectedTags) then old(selectedTags)
                                else Clicked(selectionMode, old(selectedTags), t)
    {
      if selectionMode == NoSelection {
        return false;
      }
      var selected := RowSelected(row);
      if selected {
        TagOfRow(row);
        return true;
      }
      var found := FindTag(row);
      if found.Some? {
        TagOfRow(row);
        RowClicked(row, found.value);
        assert found.value in selectedTags;
        ok := RowSelected(row);
      } else {
        ok := false;
      }
    }

    /** Where the table is searched for the tag of a row. */
    method FindTag(row: int) returns (found: Option<TextTag>)
      ensures found.Some? ==> found.value in tags && found.value.row == row
      ensures found.None? ==> forall t :: t in tags ==> t.row != row
    {
      found := None;
      var i := 0;
      while i < |tags|
        invariant i <= |tags|
        invariant found.Some? ==> found.value in tags && found.value.row == row
        invariant found.None? ==> forall k :: 0 <= k < i ==> tags[k].row != row
      {
        if found.None? && tags[i].row == row {
          found := Some(tags[i]);
        }
        i := i + 1;
      }
    }

    /** The row has one tag at most. */
    lemma {:induction false} TagOfRow(row: int)
      requires TagsOk()
      ensures forall s, t :: s in tags && t in tags && s.row == row && t.row == row ==> s == t
    {
      forall s, t | s in tags && t in tags && s.row == row && t.row == row ensures s == t {
        var i :| 0 <= i < |tags| && tags[i] == s;
        var j :| 0 <= j < |tags| && tags[j] == t;
        assert i < j || j < i || i == j;
      }
    }

    method RowSelected(row: int) returns (selected: bool)
      ensures selected <==> exists t :: t in selectedTags && t.row == row
    {
      var i := 0;
      while i < |selectedTags|
        invariant i <= |selectedTags| && forall k :: 0 <= k < i ==> selectedTags[k].row != row
      {
        if selectedTags[i].row == row {
          return true;
        }
        i := i + 1;
      }
      return false;
    }

    /** cloud_selector_unselect_row. */
    method UnselectRow(row: int)
      requires Valid()
      modifies this`selectedTags, this`iter, this`selectionChanged, selectedTags
      ensures Valid()
      ensures forall t :: t in selectedTags <==> t in old(selectedTags) && t.row != row
      ensures forall t :: t in old(selectedTags) && t.row == row ==> selectedTags == Without(old(selectedTags), t)
      ensures (forall t :: t in old(selectedTags) ==> t.row != row) ==> selectedTags == old(selectedTags)
      ensures selectionChanged == old(selectionChanged) + (if selectedTags == old(selectedTags) then 0 else 1)
      ensures iter.Some? == old(iter).Some?
      ensures selectedTags == old(selectedTags) ==> iter == old(iter) && selectionChanged == old(selectionChanged)
    {
      if selectionMode == NoSelection {
        return;
      }
      var i := 0;
      while i < |selectedTags|
        invariant i <= |selectedTags| && forall k :: 0 <= k < i ==> selectedTags[k].row != row
        invariant Valid() && selectedTags == old(selectedTags)
        invariant iter == old(iter) && selectionChanged == old(selectionChanged)
      {
        var tag := selectedTags[i];
        if tag.row == row {
          TagOfRow(row);
          UnselectTag(tag);
          break;
        }
        i := i + 1;
      }
    }

    method UnselectTag(tag: TextTag)
      requires Valid() && tag in selectedTags
      modifies this`selectedTags, this`iter, this`selectionChanged, tag
      ensures Valid() && selectedTags == Without(old(selectedTags), tag)
      ensures selectionChanged == old(selectionChanged) + 1 && iter.Some? == old(iter).Some?
      ensures forall t :: t in selectedTags <==> t in old(selectedTags) && t != tag
      ensures |selectedTags| < |old(selectedTags)|
    {
      WithoutFacts(selectedTags, tag);
      ghost var rest := Without(selectedTags, tag);
      Unselect(tag);
      forall t | t in selectedTags ensures t in old(selectedTags) && t != tag {
        assert t in rest;
      }
      SyncIterWithSelection();
      selectionChanged := selectionChanged + 1;
    }

    /** cloud_selector_get_data_set: the iterator is made when it is first asked for. */
    method GetDataSet()
      requires Valid()
      modifies this`iter
      ensures Valid() && iter.Some?
    {
      if iter.None? {
        iter := Some(-1);
        SyncIterWithSelection();
      }
    }

    /** The loop of update_display over the weights. */
    method WeightRange(ws: Weights) returns (minWeight: real, maxWeight: real)
      ensures ws.Some? ==> minWeight == Least(ws.value, |ws.value|) && maxWeight == Greatest(ws.value, |ws.value|)
    {
      minWeight, maxWeight := G_MAXDOUBLE, G_MINDOUBLE;
      if ws.Some? {
        var i := 0;
        while i < |ws.value|
          invariant i <= |ws.value| && minWeight == Least(ws.value, i) && maxWeight == Greatest(ws.value, i)
        {
          if ws.value[i].Some? {
            var weight := ws.value[i].value;
            minWeight := if minWeight < weight then minWeight else weight;
            maxWeight := if maxWeight > weight then maxWeight else weight;
          }
          i := i + 1;
        }
      }
    }

    /** The tags made so far, for the rows before `i`. */
    ghost predicate TagsMade(made: seq<TextTag>, labels: seq<bool>, ws: Weights, i: nat)
      requires i <= |labels| && (ws.Some? ==> |ws.value| == |labels|)
      reads this`minScale, this`maxScale, made
    {
      && (forall k :: 0 <= k < |made| ==>
            0 <= made[k].row < i && labels[made[k].row] && !made[k].backgroundSet
            && made[k].scale == RowScale(ws, made[k].row, minScale, maxScale))
      && (forall j, k :: 0 <= j < k < |made| ==> made[j] != made[k] && made[j].row != made[k].row)
      && (forall row :: 0 <= row < i && labels[row] ==> exists k :: 0 <= k < |made| && made[k].row == row)
    }

    lemma {:induction false} TagsMore(made: seq<TextTag>, tag: TextTag, labels: seq<bool>, ws: Weights, i: nat)
      requires i < |labels| && (ws.Some? ==> |ws.value| == |labels|) && TagsMade(made, labels, ws, i)
      requires labels[i] && tag.row == i && !tag.backgroundSet && tag.scale == RowScale(ws, i, minScale, maxScale)
      requires forall k :: 0 <= k < |made| ==> made[k] != tag
      ensures TagsMade(made + [tag], labels, ws, i + 1)
    {
      var more := made + [tag];
      forall row | 0 <= row < i + 1 && labels[row] ensures exists k :: 0 <= k < |more| && more[k].row == row {
        if row < i {
          var k :| 0 <= k < |made| && made[k].row == row;
          assert more[k].row == row;
        } else {
          assert more[|made|].row == row;
        }
      }
    }

    lemma {:induction false} NoTag(made: seq<TextTag>, labels: seq<bool>, ws: Weights, i: nat)
      requires i < |labels| && (ws.Some? ==> |ws.value| == |labels|) && TagsMade(made, labels, ws, i) && !labels[i]
      ensures TagsMade(made, labels, ws, i + 1)
    {
    }

    /** The scale of one more row. */
    method WeighRow(ws: Weights, i: nat, minWeight: real, wrange: real) returns (weight: real)
      requires ws.Some? ==> i < |ws.value| && minWeight == Least(ws.value, |ws.value|)
      requires ws.Some? ==> wrange == ScaleStep(minWeight, Greatest(ws.value, |ws.value|), minScale, maxScale)
      ensures weight == RowScale(ws, i, minScale, maxScale)
    {
      weight := 1.0;
      if ws.Some? && ws.value[i].Some? {
        weight := ws.value[i].value;
        weight := minScale + wrange * (weight - minWeight);
      }
    }

    method MakeTags(labels: seq<bool>, ws: Weights, minWeight: real, wrange: real) returns (made: seq<TextTag>)
      requires ws.Some? ==> |ws.value| == |labels|
      requires ws.Some? ==> minWeight == Least(ws.value, |ws.value|)
      requires ws.Some? ==> wrange == ScaleStep(minWeight, Greatest(ws.value, |ws.value|), minScale, maxScale)
      ensures TagsMade(made, labels, ws, |labels|) && forall t :: t in made ==> fresh(t)
    {
      made := [];
      var i := 0;
      while i < |labels|
        invariant i <= |labels| && TagsMade(made, labels, ws, i)
        invariant forall t :: t in made ==> fresh(t)
      {
        if labels[i] {
          made := MakeTag(made, labels, ws, i, minWeight, wrange);
        } else {
          NoTag(made, labels, ws, i);
        }
        i := i + 1;
      }
    }

    method MakeTag(made: seq<TextTag>, labels: seq<bool>, ws: Weights, i: nat, minWeight: real, wrange: real)
      returns (more: seq<TextTag>)
      requires i < |labels| && labels[i] && (ws.Some? ==> |ws.value| == |labels|) && TagsMade(made, labels, ws, i)
      requires ws.Some? ==> minWeight == Least(ws.value, |ws.value|)
      requires ws.Some? ==> wrange == ScaleStep(minWeight, Greatest(ws.value, |ws.value|), minScale, maxScale)
      ensures TagsMade(more, labels, ws, i + 1)
      ensures forall t :: t in more ==> t in made || fresh(t)
    {
      var weight := WeighRow(ws, i, minWeight, wrange);
      var tag := new TextTag(i, weight);
      TagsMore(made, tag, labels, ws, i);
      more := made + [tag];
    }

    /** update_display, for a model with a text column to show: `labels` tells which rows have a
        text, `ws` gives the weights of the rows. */
    method UpdateDisplay(labels: seq<bool>, ws: Weights)
      requires Valid() && (ws.Some? ==> |ws.value| == |labels|)
      modifies this`selectedTags, this`tags, this`iter, this`selectionChanged
      ensures Valid() && selectedTags == [] && iter.Some? == old(iter).Some?
      ensures selectionChanged == old(selectionChanged) + (if old(selectedTags) == [] then 0 else 1)
      ensures |tags| > 0 && tags[0] == section && TagsMade(tags[1..], labels, ws, |labels|)
      ensures forall t :: t in tags[1..] ==> Drawn(t.row, t.scale, ws, minScale, maxScale)
      ensures forall t :: t in tags[1..] ==> fresh(t)
      ensures section.backgroundSet == old(section.backgroundSet)
      ensures old(section in selectedTags) ==> section.backgroundSet && section !in selectedTags
    {
      if selectedTags != [] {
        selectedTags := [];
        SyncIterWithSelection();
        selectionChanged := selectionChanged + 1;
      }
      var minWeight, maxWeight := WeightRange(ws);
      var wrange := if maxWeight > minWeight then (maxScale - minScale) / (maxWeight - minWeight) else 0.0;
      var made := MakeTags(labels, ws, minWeight, wrange);
      MadeDrawn(made, labels, ws);
      SetTags(made);
    }

    lemma {:induction false} MadeDrawn(made: seq<TextTag>, labels: seq<bool>, ws: Weights)
      requires (ws.Some? ==> |ws.value| == |labels|) && TagsMade(made, labels, ws, |labels|)
      ensures forall t :: t in made ==> Drawn(t.row, t.scale, ws, minScale, maxScale)
    {
      forall t | t in made ensures Drawn(t.row, t.scale, ws, minScale, maxScale) {
        var k :| 0 <= k < |made| && made[k] == t;
        RowDrawn(ws, t.row, minScale, maxScale);
      }
    }

    method SetTags(made: seq<TextTag>)
      requires section.row == -1 && selectedTags == [] && IterOk()
      requires forall k :: 0 <= k < |made| ==> made[k].row >= 0 && !made[k].backgroundSet
      requires forall j, k :: 0 <= j < k < |made| ==> made[j] != made[k] && made[j].row != made[k].row
      modifies this`tags
      ensures Valid() && tags == [section] + made && tags[1..] == made
    {
      tags := [section] + made;
    }
  }
}
