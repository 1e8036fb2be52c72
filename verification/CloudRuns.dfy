/** What any run of clicks, selections, changes of mode and changes of the model does to a cloud. */
module CloudRuns {
  import opened Clouds

  /** What the user and the program do to a cloud; `Refresh` is a change of the model. */
  datatype Action =
    | Click(row: int) | Select(row: int) | Unselect(row: int)
    | Choose(mode: Mode)
    | Refresh(labels: seq<bool>, weights: Weights)

  /** The selected rows, the row selected last first, and the rows that have a tag. */
  datatype View = View(mode: Mode, selected: seq<int>, table: set<int>)

  predicate Fitting(a: Action) {
    a.Refresh? && a.weights.Some? ==> |a.weights.value| == |a.labels|
  }

  function Tabled(labels: seq<bool>): set<int> {
    {-1} + set i | 0 <= i < |labels| && labels[i]
  }

  function Acted(v: View, a: Action): View {
    match a
    case Click(row) => if row in v.table then v.(selected := Clicked(v.mode, v.selected, row)) else v
    case Select(row) =>
      if row in v.table && row !in v.selected then v.(selected := Clicked(v.mode, v.selected, row)) else v
    case Unselect(row) => v.(selected := Without(v.selected, row))
    case Choose(mode) => v.(mode := mode, selected := CutDown(mode, v.selected))
    case Refresh(labels, _) => View(v.mode, [], Tabled(labels))
  }

  function ActedAll(v: View, run: seq<Action>): View
    decreases |run|
  {
    if run == [] then v else ActedAll(Acted(v, run[0]), run[1..])
  }

  /** No row is selected twice, only rows of the table are, and no more than the mode allows. */
  predicate Proper(v: View) {
    && NoRepeat(v.selected) && (forall row :: row in v.selected ==> row in v.table)
    && (v.mode == NoSelection ==> v.selected == []) && (AtMostOne(v.mode) ==> |v.selected| <= 1)
  }

  lemma {:induction false} ActedProper(v: View, a: Action)
    requires Proper(v)
    ensures Proper(Acted(v, a))
  {
    match a
    case Click(row) => WithoutFacts(v.selected, row);
    case Select(row) => WithoutFacts(v.selected, row);
    case Unselect(row) => WithoutFacts(v.selected, row);
    case Choose(mode) =>
    case Refresh(labels, _) =>
  }

  /** After any run the selection is as the mode of the moment allows. */
  lemma {:induction false} RunProper(v: View, run: seq<Action>)
    requires Proper(v)
    ensures Proper(ActedAll(v, run))
    decreases |run|
  {
    if run != [] {
      ActedProper(v, run[0]);
      RunProper(Acted(v, run[0]), run[1..]);
    }
  }

  // ----- one selected element in browse mode -----

  predicate OneWhileBrowsing(v: View) {
    v.mode == Browse ==> |v.selected| == 1
  }

  /** The action leaves one row selected if the mode is then browse. */
  predicate LeavesOne(v: View, a: Action) {
    match a
    case Click(row) => v.mode == Browse ==> row in v.table || v.selected != []
    case Select(row) => v.mode == Browse ==> row in v.table || v.selected != []
    case Unselect(row) => v.mode == Browse ==> v.selected != [] && row !in v.selected
    case Choose(mode) => mode == Browse ==> v.selected != []
    case Refresh(_, _) => v.mode != Browse
  }

  /** One row is selected in browse mode after an action exactly when the action is no click or selection
      of a row without a tag while none is selected, takes no selected row away, does not choose browse mode
      with none selected, and is no change of the model. */
  lemma {:induction false} OneExactly(v: View, a: Action)
    requires Proper(v)
    ensures OneWhileBrowsing(Acted(v, a)) <==> LeavesOne(v, a)
  {
    match a
    case Click(row) => WithoutFacts(v.selected, row);
    case Select(row) => WithoutFacts(v.selected, row);
    case Unselect(row) => WithoutFacts(v.selected, row);
    case Choose(mode) =>
    case Refresh(_, _) =>
  }

  /** From browse mode: one row is selected after the action, whatever the mode is then. */
  lemma {:induction false} OneLeftExactly(v: View, a: Action)
    requires Proper(v) && v.mode == Browse
    ensures |Acted(v, a).selected| == 1 <==> LeavesOne(v, a) && (a.Choose? ==> a.mode != NoSelection && v.selected != [])
  {
    OneExactly(v, a);
  }

  /** All along the run one row is selected whenever the mode is browse. */
  predicate AlwaysOne(v: View, run: seq<Action>)
    decreases |run|
  {
    OneWhileBrowsing(v) && (run != [] ==> AlwaysOne(Acted(v, run[0]), run[1..]))
  }

  predicate RunLeavesOne(v: View, run: seq<Action>)
    decreases |run|
  {
    run == [] || (LeavesOne(v, run[0]) && RunLeavesOne(Acted(v, run[0]), run[1..]))
  }

  /** Over any run one element is always selected in browse mode exactly when it is so at the start and
      each action leaves one. */
  lemma {:induction false} AlwaysOneExactly(v: View, run: seq<Action>)
    requires Proper(v)
    ensures AlwaysOne(v, run) <==> OneWhileBrowsing(v) && RunLeavesOne(v, run)
    decreases |run|
  {
    if run != [] {
      var next := Acted(v, run[0]);
      ActedProper(v, run[0]);
      OneExactly(v, run[0]);
      AlwaysOneExactly(next, run[1..]);
    }
  }

  /** A new cloud that is put into browse mode has none selected; nor has one whose only selected row is
      unselected, or whose model changes. */
  lemma {:induction false} NoneSelected(v: View, row: int, labels: seq<bool>, weights: Weights)
    requires v.mode == Single && v.selected == []
    ensures var browsing := Acted(v, Choose(Browse));
            && browsing.mode == Browse && browsing.selected == []
            && (row in v.table ==>
                  var one := Acted(browsing, Click(row));
                  && one.selected == [row]
                  && Acted(one, Unselect(row)).selected == [] && Acted(one, Refresh(labels, weights)).selected == [])
  {
    assert [row][1..] == [];
  }

  /** In browse mode one row stays selected, whatever is clicked or selected. */
  lemma {:induction false} BrowseKeepsOne(v: View, run: seq<Action>)
    requires v.mode == Browse && |v.selected| == 1 && forall a :: a in run ==> a.Click? || a.Select?
    ensures |ActedAll(v, run).selected| == 1
    decreases |run|
  {
    if run != [] {
      assert run[0] in run && forall a :: a in run[1..] ==> a in run;
      BrowseKeepsOne(Acted(v, run[0]), run[1..]);
    }
  }

  /** Where several rows may be selected the clicks on a row decide alone whether it is: it has changed
      sides exactly when their number is odd. */
  lemma {:induction false} ClicksToggle(v: View, run: seq<Action>, row: int)
    requires Proper(v) && v.mode == Multiple && row in v.table && forall a :: a in run ==> a.Click?
    ensures row in ActedAll(v, run).selected <==> (row in v.selected <==> Clicks(run, row) % 2 == 0)
    decreases |run|
  {
    if run != [] {
      assert run[0] in run && forall a :: a in run[1..] ==> a in run;
      ActedProper(v, run[0]);
      WithoutFacts(v.selected, run[0].row);
      ClicksToggle(Acted(v, run[0]), run[1..], row);
    }
  }

  function Clicks(run: seq<Action>, row: int): nat {
    if run == [] then 0 else (if run[0] == Click(row) then 1 else 0) + Clicks(run[1..], row)
  }

  // ----- what a change of mode keeps -----

  /** A row that is selected last where several may be is the one that stays when the mode allows one. */
  lemma {:induction false} NewestKept(v: View, a: Action, row: int, mode: Mode)
    requires Proper(v) && v.mode == Multiple && row in v.table && row !in v.selected
    requires (a == Click(row) || a == Select(row)) && (mode == Single || mode == Browse)
    ensures Acted(Acted(v, a), Choose(mode)).selected == [row]
  {
  }

  /** Choosing multiple mode leaves the selection as it was, and so does choosing a mode for one row while at
      most one is selected; choosing no selection empties it. */
  lemma {:induction false} ModeKeeps(v: View, mode: Mode)
    ensures Acted(v, Choose(Multiple)).selected == v.selected
    ensures (mode == Single || mode == Browse) && |v.selected| <= 1 ==> Acted(v, Choose(mode)).selected == v.selected
    ensures Acted(v, Choose(NoSelection)).selected == [] && Acted(v, Choose(mode)).mode == mode
    ensures Acted(v, Choose(mode)).table == v.table
  {
  }

  lemma {:induction false} ActedLast(v: View, run: seq<Action>)
    requires run != []
    ensures ActedAll(v, run) == Acted(ActedAll(v, run[..|run|-1]), run[|run|-1])
    decreases |run|
  {
    var next := Acted(v, run[0]);
    if |run| == 1 {
      assert ActedAll(next, run[1..]) == next && ActedAll(v, run[..0]) == v;
    } else {
      ActedLast(next, run[1..]);
      assert run[1..][..|run|-2] == run[..|run|-1][1..];
    }
  }

  /** The step at which the row last came into the selection; -1 if it never did. */
  function CameIn(v: View, run: seq<Action>, row: int): int
    decreases |run|
  {
    if run == [] then -1
    else
      var n := |run| - 1;
      if row !in ActedAll(v, run[..n]).selected && row in ActedAll(v, run).selected then n
      else CameIn(v, run[..n], row)
  }

  /** Clicks, selections and unselections. */
  predicate Picks(run: seq<Action>) {
    forall a :: a in run ==> a.Click? || a.Select? || a.Unselect?
  }

  /** The rows of `list` came in one after the other, the first one last, all before step `n`. */
  predicate NewestFirst(v: View, run: seq<Action>, list: seq<int>) {
    && (forall i :: 0 <= i < |list| ==> 0 <= CameIn(v, run, list[i]) < |run|)
    && (forall i, j :: 0 <= i < j < |list| ==> CameIn(v, run, list[i]) > CameIn(v, run, list[j]))
  }

  lemma {:induction false} WithoutOne<T>(list: seq<T>, x: T) returns (p: nat)
    requires x in list
    ensures p < |list| && list[p] == x && Without(list, x) == list[..p] + list[p+1..]
  {
    if list[0] == x {
      p := 0;
    } else {
      p := WithoutOne(list[1..], x);
      p := p + 1;
      assert list[..p] == [list[0]] + list[1..][..p-1] && list[p+1..] == list[1..][p..];
    }
  }

  lemma {:induction false} WithoutNone<T>(list: seq<T>, x: T)
    requires x !in list
    ensures Without(list, x) == list
  {
    if list != [] {
      WithoutNone(list[1..], x);
    }
  }

  /** Rows that were selected and still are came in when they did. */
  lemma {:induction false} CameInBefore(v: View, run: seq<Action>, list: seq<int>)
    requires run != [] && NewestFirst(v, run[..|run|-1], list)
    requires forall i :: 0 <= i < |list| ==> list[i] in ActedAll(v, run[..|run|-1]).selected
    ensures NewestFirst(v, run, list)
  {
    forall i | 0 <= i < |list| ensures CameIn(v, run, list[i]) == CameIn(v, run[..|run|-1], list[i]) {
      assert list[i] in ActedAll(v, run[..|run|-1]).selected;
    }
  }

  lemma {:induction false} PutNewest(v: View, run: seq<Action>, list: seq<int>, row: int)
    requires run != [] && NewestFirst(v, run[..|run|-1], list)
    requires forall i :: 0 <= i < |list| ==> list[i] in ActedAll(v, run[..|run|-1]).selected
    requires row !in ActedAll(v, run[..|run|-1]).selected && row in ActedAll(v, run).selected
    ensures NewestFirst(v, run, [row] + list)
  {
    var more := [row] + list;
    CameInBefore(v, run, list);
    CameInEarlier(v, run, list);
    assert CameIn(v, run, row) == |run| - 1;
    forall i | 0 <= i < |more| ensures 0 <= CameIn(v, run, more[i]) < |run| {
      assert i > 0 ==> more[i] == list[i-1];
    }
    forall i, j | 0 <= i < j < |more| ensures CameIn(v, run, more[i]) > CameIn(v, run, more[j]) {
      assert more[j] == list[j-1] && (i > 0 ==> more[i] == list[i-1]);
    }
  }

  lemma {:induction false} DropOne(v: View, run: seq<Action>, list: seq<int>, p: nat)
    requires p < |list| && NewestFirst(v, run, list)
    ensures NewestFirst(v, run, list[..p] + list[p+1..])
  {
    var less := list[..p] + list[p+1..];
    assert forall i :: 0 <= i < |less| ==> less[i] == list[if i < p then i else i + 1];
  }

  /** What a pick does to the selection where several rows may be selected. */
  lemma {:induction false} PickCases(v: View, a: Action)
    requires Proper(v) && v.mode == Multiple && (a.Click? || a.Select? || a.Unselect?)
    ensures Acted(v, a).selected ==
            if a.row in v.selected then (if a.Select? then v.selected else Without(v.selected, a.row))
            else if !a.Unselect? && a.row in v.table then [a.row] + v.selected
            else v.selected
  {
    if a.row !in v.selected {
      WithoutNone(v.selected, a.row);
    }
  }

  lemma {:induction false} StepNewestFirst(v: View, run: seq<Action>, before: View, after: View)
    requires run != [] && before == ActedAll(v, run[..|run|-1]) && after == ActedAll(v, run)
    requires after == Acted(before, run[|run|-1]) && Proper(before) && before.mode == Multiple
    requires Picks(run) && NewestFirst(v, run[..|run|-1], before.selected)
    ensures NewestFirst(v, run, after.selected)
  {
    var a, list := run[|run|-1], before.selected;
    assert a in run;
    PickCases(before, a);
    if a.row in list && !a.Select? {
      var p := WithoutOne(list, a.row);
      CameInBefore(v, run, list);
      DropOne(v, run, list, p);
    } else if a.row !in list && !a.Unselect? && a.row in before.table {
      PutNewest(v, run, list, a.row);
    } else {
      CameInBefore(v, run, list);
    }
  }

  lemma {:induction false} CameInEarlier(v: View, run: seq<Action>, list: seq<int>)
    requires run != [] && NewestFirst(v, run[..|run|-1], list)
    requires forall i :: 0 <= i < |list| ==> list[i] in ActedAll(v, run[..|run|-1]).selected
    ensures forall i :: 0 <= i < |list| ==> CameIn(v, run, list[i]) < |run| - 1
  {
    forall i | 0 <= i < |list| ensures CameIn(v, run, list[i]) == CameIn(v, run[..|run|-1], list[i]) {
      assert list[i] in ActedAll(v, run[..|run|-1]).selected;
    }
  }

  lemma {:induction false} PicksKeepMode(v: View, run: seq<Action>)
    requires Proper(v) && Picks(run)
    ensures ActedAll(v, run).mode == v.mode && Proper(ActedAll(v, run))
    decreases |run|
  {
    RunProper(v, run);
    if run != [] {
      assert run[0] in run && forall a :: a in run[1..] ==> a in run;
      ActedProper(v, run[0]);
      PicksKeepMode(Acted(v, run[0]), run[1..]);
    }
  }

  lemma {:induction false} RunNewestFirst(v: View, run: seq<Action>)
    requires Proper(v) && v.mode == Multiple && v.selected == [] && Picks(run)
    ensures NewestFirst(v, run, ActedAll(v, run).selected)
    decreases |run|
  {
    if run != [] {
      var init := run[..|run|-1];
      assert forall a :: a in init ==> a in run;
      RunNewestFirst(v, init);
      PicksKeepMode(v, init);
      ActedLast(v, run);
      StepNewestFirst(v, run, ActedAll(v, init), ActedAll(v, run));
    }
  }

  /** Of the rows still selected it came in last. */
  predicate Newest(v: View, run: seq<Action>, row: int) {
    && row in ActedAll(v, run).selected
    && forall other :: other in ActedAll(v, run).selected && other != row ==> CameIn(v, run, other) < CameIn(v, run, row)
  }

  /** After any run of clicks, selections and unselections where several rows may be selected, choosing a mode
      for one row leaves the row that, of those still selected, was selected last. */
  lemma {:induction false} NewestOfAllKept(v: View, run: seq<Action>, mode: Mode)
    requires Proper(v) && v.mode == Multiple && v.selected == [] && Picks(run) && (mode == Single || mode == Browse)
    ensures forall row :: Newest(v, run, row) ==> Acted(ActedAll(v, run), Choose(mode)).selected == [row]
    ensures ActedAll(v, run).selected != [] ==> exists row :: Newest(v, run, row)
  {
    var end := ActedAll(v, run);
    RunNewestFirst(v, run);
    PicksKeepMode(v, run);
    if end.selected != [] {
      var first := end.selected[0];
      forall other | other in end.selected && other != first ensures CameIn(v, run, other) < CameIn(v, run, first) {
        var i :| 0 <= i < |end.selected| && end.selected[i] == other;
      }
      assert Newest(v, run, first);
    }
  }

  /** Different tags stand for different rows. */
  ghost predicate Told(list: seq<TextTag>, x: TextTag) {
    forall t :: t in list && t.row == x.row ==> t == x
  }

  lemma {:induction false} RowsWithout(list: seq<TextTag>, x: TextTag)
    requires Told(list, x)
    ensures Cloud.Rows(Without(list, x)) == Without(Cloud.Rows(list), x.row)
  {
    if list != [] {
      var rest := list[1..];
      assert list[0] in list && forall t :: t in rest ==> t in list;
      assert Cloud.Rows(list)[1..] == Cloud.Rows(rest);
      RowsWithout(rest, x);
      if list[0] != x {
        assert Cloud.Rows([list[0]] + Without(rest, x)) == [list[0].row] + Cloud.Rows(Without(rest, x));
      }
    }
  }

  lemma {:induction false} RowsMember(list: seq<TextTag>, x: TextTag)
    requires Told(list, x)
    ensures x in list <==> x.row in Cloud.Rows(list)
  {
    if x in list {
      var i :| 0 <= i < |list| && list[i] == x;
      assert Cloud.Rows(list)[i] == x.row;
    }
    if x.row in Cloud.Rows(list) {
      var i :| 0 <= i < |list| && Cloud.Rows(list)[i] == x.row;
      assert list[i] in list;
    }
  }

  /** A click on a tag is a click on its row. */
  lemma {:induction false} RowsClicked(mode: Mode, list: seq<TextTag>, x: TextTag)
    requires Told(list, x)
    ensures Cloud.Rows(Clicked(mode, list, x)) == Clicked(mode, Cloud.Rows(list), x.row)
  {
    RowsMember(list, x);
    RowsWithout(list, x);
    assert Cloud.Rows([x]) == [x.row];
    assert Cloud.Rows([x] + list) == [x.row] + Cloud.Rows(list);
  }

  // ----- the cloud -----

  ghost function Viewed(cloud: Cloud): View
    reads cloud
  {
    View(cloud.selectionMode, Cloud.Rows(cloud.selectedTags), set t | t in cloud.tags :: t.row)
  }

  /** No two tags of the table have one row. */
  lemma {:induction false} SelectedTold(cloud: Cloud, x: TextTag)
    requires cloud.TagsOk() && cloud.SelectionOk() && x in cloud.tags
    ensures Told(cloud.selectedTags, x)
  {
    cloud.TagOfRow(x.row);
  }

  lemma {:induction false} TableOf(cloud: Cloud, made: seq<TextTag>, labels: seq<bool>, ws: Weights)
    requires cloud.tags == [cloud.section] + made && cloud.section.row == -1
    requires (ws.Some? ==> |ws.value| == |labels|) && cloud.TagsMade(made, labels, ws, |labels|)
    ensures Viewed(cloud).table == Tabled(labels)
  {
    forall row | row in Tabled(labels) ensures row in Viewed(cloud).table {
      if row == -1 {
        assert cloud.tags[0] == cloud.section;
      } else {
        var k :| 0 <= k < |made| && made[k].row == row;
        assert cloud.tags[k+1] == made[k];
      }
    }
  }

  method ClickRow(cloud: Cloud, row: int)
    requires cloud.Valid()
    modifies cloud`selectedTags, cloud`iter, cloud`activated, cloud`selectionChanged, cloud.tags
    ensures cloud.Valid() && Viewed(cloud) == Acted(old(Viewed(cloud)), Click(row))
  {
    var found := cloud.FindTag(row);
    if found.Some? {
      SelectedTold(cloud, found.value);
      RowsClicked(cloud.selectionMode, cloud.selectedTags, found.value);
      cloud.RowClicked(row, found.value);
    }
  }

  method SelectByRow(cloud: Cloud, row: int)
    requires cloud.Valid()
    modifies cloud`selectedTags, cloud`iter, cloud`activated, cloud`selectionChanged, cloud.tags
    ensures cloud.Valid() && Viewed(cloud) == Acted(old(Viewed(cloud)), Select(row))
  {
    var found := cloud.FindTag(row);
    if found.Some? {
      SelectedTold(cloud, found.value);
      RowsMember(cloud.selectedTags, found.value);
      RowsClicked(cloud.selectionMode, cloud.selectedTags, found.value);
    }
    var ok := cloud.SelectRow(row);
  }

  method UnselectByRow(cloud: Cloud, row: int)
    requires cloud.Valid()
    modifies cloud`selectedTags, cloud`iter, cloud`selectionChanged, cloud.selectedTags
    ensures cloud.Valid() && Viewed(cloud) == Acted(old(Viewed(cloud)), Unselect(row))
  {
    RowsUnselected(cloud, cloud.selectedTags, row);
    cloud.UnselectRow(row);
  }

  /** Unselecting the tag of a row, if there is one, unselects the row. */
  lemma {:induction false} RowsUnselected(cloud: Cloud, before: seq<TextTag>, row: int)
    requires cloud.TagsOk() && cloud.SelectionOk() && before == cloud.selectedTags
    ensures forall t :: t in before && t.row == row ==> Cloud.Rows(Without(before, t)) == Without(Cloud.Rows(before), row)
    ensures (exists t :: t in before && t.row == row) || Without(Cloud.Rows(before), row) == Cloud.Rows(before)
  {
    var rows := Cloud.Rows(before);
    forall t | t in before && t.row == row ensures Cloud.Rows(Without(before, t)) == Without(rows, row) {
      SelectedTold(cloud, t);
      RowsWithout(before, t);
    }
    if row in rows {
      var i :| 0 <= i < |rows| && rows[i] == row;
      assert before[i] in before && before[i].row == row;
    } else {
      WithoutNone(rows, row);
    }
  }

  method ChooseMode(cloud: Cloud, mode: Mode)
    requires cloud.Valid()
    modifies cloud`selectionMode, cloud`selectedTags, cloud`iter, cloud`selectionChanged, cloud.selectedTags
    ensures cloud.Valid() && Viewed(cloud) == Acted(old(Viewed(cloud)), Choose(mode))
  {
    ghost var before := cloud.selectedTags;
    cloud.SetSelectionMode(mode);
    assert Cloud.Rows(CutDown(mode, before)) == CutDown(mode, Cloud.Rows(before));
  }

  method RefreshRows(cloud: Cloud, labels: seq<bool>, ws: Weights)
    requires cloud.Valid() && (ws.Some? ==> |ws.value| == |labels|)
    modifies cloud`selectedTags, cloud`tags, cloud`iter, cloud`selectionChanged
    ensures cloud.Valid() && Viewed(cloud) == Acted(old(Viewed(cloud)), Refresh(labels, ws))
    ensures forall t :: t in cloud.tags ==> t == cloud.section || fresh(t)
  {
    cloud.UpdateDisplay(labels, ws);
    ghost var made := cloud.tags[1..];
    assert cloud.tags == [cloud.section] + made;
    TableOf(cloud, made, labels, ws);
  }

  method Perform(cloud: Cloud, a: Action)
    requires cloud.Valid() && Fitting(a)
    modifies cloud, cloud.tags
    ensures cloud.Valid() && Viewed(cloud) == Acted(old(Viewed(cloud)), a)
    ensures forall t :: t in cloud.tags ==> t in old(cloud.tags) || fresh(t)
  {
    assert cloud.section == cloud.tags[0];
    assert forall i :: 0 <= i < |cloud.selectedTags| ==> cloud.selectedTags[i] in cloud.tags;
    match a
    case Click(row) => ClickRow(cloud, row);
    case Select(row) => SelectByRow(cloud, row);
    case Unselect(row) => UnselectByRow(cloud, row);
    case Choose(mode) => ChooseMode(cloud, mode);
    case Refresh(labels, weights) => RefreshRows(cloud, labels, weights);
  }

  /** Over any run of actions the cloud shows what the actions say, and stays valid. */
  method PerformAll(cloud: Cloud, run: seq<Action>)
    requires cloud.Valid() && forall a :: a in run ==> Fitting(a)
    modifies cloud, cloud.tags
    ensures cloud.Valid() && Viewed(cloud) == ActedAll(old(Viewed(cloud)), run)
    decreases |run|
  {
    if run != [] {
      assert forall a :: a in run[1..] ==> a in run;
      assert run[0] in run;
      ghost var before := cloud.tags;
      Perform(cloud, run[0]);
      assert forall i :: 0 <= i < |cloud.tags| ==> cloud.tags[i] in before || fresh(cloud.tags[i]);
      PerformAll(cloud, run[1..]);
    }
  }
}
