/** The form of a server operation, which follows the operation's sequences: items come at the end
    of a sequence and go from anywhere in it. */
module ServerOperationForms {
  import opened RichText
  import opened WidgetTree
  import opened SequenceGrids

  /** The operation, as far as its sequences go. */
  class ServerOperation {
    var sequences: map<string, seq<int>>
    const limits: map<string, Limits>

    constructor (sequences: map<string, seq<int>>, limits: map<string, Limits>)
      ensures this.sequences == sequences && this.limits == limits
    {
      this.sequences, this.limits := sequences, limits;
    }
  }

  function Widgets(children: seq<Node>): (ws: seq<Widget>)
    ensures |ws| == |children|
  {
    seq(|children|, i requires 0 <= i < |children| => children[i].widget)
  }

  function Items(children: seq<Node>): (items: seq<int>)
    ensures |items| == |children|
  {
    seq(|children|, i requires 0 <= i < |children| => children[i].widget.item)
  }

  /** The children of a sequence: items without name, with widgets of their own. */
  predicate ItemNodes(children: seq<Node>, nextWidget: nat) {
    && Unnamed(children) && |children| <= INT_MAX
    && (forall j :: 0 <= j < |children| ==> children[j].widget.id < nextWidget)
    && (forall j, k :: 0 <= j < k < |children| ==> children[j].widget.id != children[k].widget.id)
  }

  /** What a sequence of the form consists of. */
  datatype View = View(node: Node, cells: seq<Cell>)

  /** A sequence's node and grid show the items `items`. */
  predicate InStep(node: Node, cells: seq<Cell>, items: seq<int>, min: nat, add: Option<bool>, nextWidget: nat) {
    && ItemNodes(node.children, nextWidget)
    && Items(node.children) == items
    && LaidOut(cells, Widgets(node.children), min, add)
  }

  function WithChild(node: Node, w: Widget): Node {
    node.(children := node.children + [Node(None, w, [])])
  }

  function WithoutChild(node: Node, k: nat): Node
    requires k < |node.children|
  {
    node.(children := node.children[..k] + node.children[k+1..])
  }

  /** A new item at the end, in the tree and, if the rows fit, in the grid. */
  lemma {:induction false} AddedInStep(view: View, items: seq<int>, limits: Limits, add: Option<bool>, w: Widget,
                                       after: View, more: seq<int>, add': Option<bool>)
    requires InStep(view.node, view.cells, items, limits.min, add, w.id) && |items| < INT_MAX
    requires add' == if add.Some? then Some(|items| + 1 < limits.max) else None
    requires after == View(WithChild(view.node, w), AfterAdded(view.cells, |items|, |items| + 1, limits, w))
    requires more == items + [w.item]
    ensures InStep(after.node, after.cells, more, limits.min, add', w.id + 1) <==> FitsDown(|items|, add)
  {
    NodesAdded(view.node.children, w, items);
    AddedLaidOutExactly(view.cells, Widgets(view.node.children), limits, add, w, add');
  }

  lemma {:induction false} NodesAdded(children: seq<Node>, w: Widget, items: seq<int>)
    requires ItemNodes(children, w.id) && |children| < INT_MAX && Items(children) == items
    ensures var more := children + [Node(None, w, [])];
            ItemNodes(more, w.id + 1) && Widgets(more) == Widgets(children) + [w] && Items(more) == items + [w.item]
  {
    var more := children + [Node(None, w, [])];
    assert forall k :: 0 <= k < |more| ==> more[k] == if k < |children| then children[k] else Node(None, w, []);
  }

  /** An item less, in the tree and, if the rows fit, in the grid. */
  lemma {:induction false} RemovedInStep(view: View, items: seq<int>, limits: Limits, add: Option<bool>, nextWidget: nat,
                                         k: nat, after: View, less: seq<int>, add': Option<bool>)
    requires InStep(view.node, view.cells, items, limits.min, add, nextWidget) && k < |items|
    requires add' == if add.Some? then Some(true) else None
    requires after == View(WithoutChild(view.node, k),
                           AfterRemoved(view.cells, k, |items|, limits, view.node.children[k].widget))
    requires less == items[..k] + items[k+1..]
    ensures InStep(after.node, after.cells, less, limits.min, add', nextWidget) <==> FitsUp(|items|, k, add)
  {
    var ws := Widgets(view.node.children);
    NodesRemoved(view.node.children, nextWidget, k, items);
    RemovedLaidOutExactly(view.cells, ws, limits, add, k, ws[..k] + ws[k+1..], add');
  }

  lemma {:induction false} NodesRemoved(children: seq<Node>, nextWidget: nat, k: nat, items: seq<int>)
    requires ItemNodes(children, nextWidget) && k < |children| && Items(children) == items
    ensures var ws, less := Widgets(children), children[..k] + children[k+1..];
            && ItemNodes(less, nextWidget) && DistinctWidgets(ws)
            && Widgets(less) == ws[..k] + ws[k+1..] && Items(less) == items[..k] + items[k+1..]
  {
    var less := children[..k] + children[k+1..];
    assert forall j :: 0 <= j < |less| ==> less[j] == if j < k then children[j] else children[j+1];
  }

  predicate ShowsOne(view: View, limits: map<string, Limits>, adds: map<string, Option<bool>>,
                     sequences: map<string, seq<int>>, nextWidget: nat) {
    && view.node.name.Some?
    && view.node.name.value in limits && view.node.name.value in adds && view.node.name.value in sequences
    && InStep(view.node, view.cells, sequences[view.node.name.value], limits[view.node.name.value].min,
              adds[view.node.name.value], nextWidget)
  }

  /** Every sequence of the form shows the items it has in `sequences`. */
  predicate ShowsAll(views: seq<View>, limits: map<string, Limits>, adds: map<string, Option<bool>>,
                     sequences: map<string, seq<int>>, nextWidget: nat) {
    forall r {:trigger ShowsOne(views[r], limits, adds, sequences, nextWidget)} ::
      0 <= r < |views| ==> ShowsOne(views[r], limits, adds, sequences, nextWidget)
  }

  predicate NamesApart(views: seq<View>) {
    forall r, s :: 0 <= r < s < |views| ==> views[r].node.name != views[s].node.name
  }

  /** A change of one sequence leaves the others as they are. */
  lemma {:induction false} OneChanged(views: seq<View>, limits: map<string, Limits>, adds: map<string, Option<bool>>,
                                      sequences: map<string, seq<int>>, nextWidget: nat, r: nat, view: View,
                                      name: string, add: Option<bool>, items: seq<int>, later: nat)
    requires ShowsAll(views, limits, adds, sequences, nextWidget) && NamesApart(views) && nextWidget <= later
    requires r < |views| && views[r].node.name == Some(name) == view.node.name && name in limits
    requires InStep(view.node, view.cells, items, limits[name].min, add, later)
    ensures ShowsAll(views[r := view], limits, adds[name := add], sequences[name := items], later)
  {
    var after := views[r := view];
    forall k | 0 <= k < |after|
      ensures ShowsOne(after[k], limits, adds[name := add], sequences[name := items], later)
    {
      if k != r {
        assert views[k].node.name != views[r].node.name;
        OneKept(views[k], limits, adds, sequences, nextWidget, name, add, items, later);
      }
    }
  }

  lemma {:induction false} OneKept(view: View, limits: map<string, Limits>, adds: map<string, Option<bool>>,
                                   sequences: map<string, seq<int>>, nextWidget: nat, name: string,
                                   add: Option<bool>, items: seq<int>, later: nat)
    requires ShowsOne(view, limits, adds, sequences, nextWidget) && nextWidget <= later
    requires view.node.name != Some(name)
    ensures ShowsOne(view, limits, adds[name := add], sequences[name := items], later)
  {
  }

  /** The form as plain values: its sequences, which of them have a row to add items, what the
      operation's sequences hold, and the next widget. */
  datatype Snapshot = Snapshot(views: seq<View>, adds: map<string, Option<bool>>, sequences: map<string, seq<int>>,
                             nextWidget: nat)

  predicate Mirrors(p: Snapshot, limits: map<string, Limits>) {
    ShowsAll(p.views, limits, p.adds, p.sequences, p.nextWidget) && NamesApart(p.views)
  }

  function NameAt(p: Snapshot, r: nat): string
    requires r < |p.views|
  {
    if p.views[r].node.name.Some? then p.views[r].node.name.value else ""
  }

  /** The form once an item was added to the sequence at `r`. */
  function Added(p: Snapshot, limits: map<string, Limits>, r: nat, item: int): Snapshot
    requires r < |p.views|
    requires NameAt(p, r) in limits && NameAt(p, r) in p.adds && NameAt(p, r) in p.sequences
  {
    var name, view, w := NameAt(p, r), p.views[r], Widget(p.nextWidget, item);
    var items := p.sequences[name];
    Snapshot(p.views[r := View(WithChild(view.node, w),
                              AfterAdded(view.cells, |items|, |items| + 1, limits[name], w))],
            p.adds[name := if p.adds[name].None? then None else Some(|items| + 1 < limits[name].max)],
            p.sequences[name := items + [item]],
            p.nextWidget + 1)
  }

  /** What a snapshot that mirrors the operation holds at `r`. */
  lemma {:induction false} MirrorsAt(p: Snapshot, limits: map<string, Limits>, r: nat)
    requires Mirrors(p, limits) && r < |p.views|
    ensures var view, name := p.views[r], NameAt(p, r);
            && view.node.name == Some(name) && name in limits && name in p.adds && name in p.sequences
            && ItemNodes(view.node.children, p.nextWidget) && |view.node.children| == |p.sequences[name]|
            && InStep(view.node, view.cells, p.sequences[name], limits[name].min, p.adds[name], p.nextWidget)
  {
    assert ShowsOne(p.views[r], limits, p.adds, p.sequences, p.nextWidget);
  }

  lemma {:induction false} NodesAt(p: Snapshot, limits: map<string, Limits>, r: nat)
    requires Mirrors(p, limits) && r < |p.views| && NameAt(p, r) in p.sequences
    ensures ItemNodes(p.views[r].node.children, p.nextWidget)
    ensures |p.views[r].node.children| == |p.sequences[NameAt(p, r)]|
  {
    MirrorsAt(p, limits, r);
  }

  lemma {:induction false} AddedShown(p: Snapshot, limits: map<string, Limits>, r: nat, item: int, name: string,
                                      q: Snapshot)
    requires Mirrors(p, limits) && r < |p.views| && name == NameAt(p, r)
    requires name in limits && name in p.adds && name in p.sequences && |p.sequences[name]| < INT_MAX
    requires q == Added(p, limits, r, item)
    ensures p.views[r].node.name == Some(name)
    ensures var view, more := q.views[r], p.sequences[name] + [item];
            InStep(view.node, view.cells, more, limits[name].min, q.adds[name], q.nextWidget)
            <==> FitsDown(|p.sequences[name]|, p.adds[name])
  {
    var items := p.sequences[name];
    MirrorsAt(p, limits, r);
    AddedInStep(p.views[r], items, limits[name], p.adds[name], Widget(p.nextWidget, item), q.views[r], items + [item],
                q.adds[name]);
  }

  lemma {:induction false} AddedMirrors(p: Snapshot, limits: map<string, Limits>, r: nat, item: int)
    requires Mirrors(p, limits) && r < |p.views|
    requires NameAt(p, r) in limits && NameAt(p, r) in p.adds && NameAt(p, r) in p.sequences
    requires |p.sequences[NameAt(p, r)]| < INT_MAX
    ensures Mirrors(Added(p, limits, r, item), limits) <==> FitsDown(|p.sequences[NameAt(p, r)]|, p.adds[NameAt(p, r)])
  {
    var name, q := NameAt(p, r), Added(p, limits, r, item);
    AddedShown(p, limits, r, item, name, q);
    ChangedMirrors(p, limits, r, name, q, p.sequences[name] + [item]);
  }

  lemma {:induction false} ChangedMirrors(p: Snapshot, limits: map<string, Limits>, r: nat, name: string, q: Snapshot,
                                        items: seq<int>)
    requires Mirrors(p, limits) && r < |p.views| && r < |q.views| && name in limits && name in q.adds
    requires p.views[r].node.name == Some(name) == q.views[r].node.name && p.nextWidget <= q.nextWidget
    requires q.views == p.views[r := q.views[r]] && q.adds == p.adds[name := q.adds[name]]
    requires q.sequences == p.sequences[name := items]
    ensures Mirrors(q, limits)
            <==> InStep(q.views[r].node, q.views[r].cells, items, limits[name].min, q.adds[name], q.nextWidget)
  {
    if Mirrors(q, limits) {
      ChangedAt(q, limits, r, name, items);
    } else if InStep(q.views[r].node, q.views[r].cells, items, limits[name].min, q.adds[name], q.nextWidget) {
      ChangedShows(p, limits, r, name, q, items);
    }
  }

  lemma {:induction false} ChangedAt(q: Snapshot, limits: map<string, Limits>, r: nat, name: string, items: seq<int>)
    requires Mirrors(q, limits) && r < |q.views| && q.views[r].node.name == Some(name)
    requires name in limits && name in q.adds && name in q.sequences && q.sequences[name] == items
    ensures InStep(q.views[r].node, q.views[r].cells, items, limits[name].min, q.adds[name], q.nextWidget)
  {
    MirrorsAt(q, limits, r);
  }

  lemma {:induction false} ChangedShows(p: Snapshot, limits: map<string, Limits>, r: nat, name: string, q: Snapshot,
                                        items: seq<int>)
    requires Mirrors(p, limits) && r < |p.views| && r < |q.views| && name in limits && name in q.adds
    requires p.views[r].node.name == Some(name) == q.views[r].node.name && p.nextWidget <= q.nextWidget
    requires q.views == p.views[r := q.views[r]] && q.adds == p.adds[name := q.adds[name]]
    requires q.sequences == p.sequences[name := items]
    requires InStep(q.views[r].node, q.views[r].cells, items, limits[name].min, q.adds[name], q.nextWidget)
    ensures Mirrors(q, limits)
  {
    OneChanged(p.views, limits, p.adds, p.sequences, p.nextWidget, r, q.views[r], name, q.adds[name], items, q.nextWidget);
  }

  /** The form once item `k` was removed from the sequence at `r`. */
  function Removed(p: Snapshot, limits: map<string, Limits>, r: nat, k: nat): Snapshot
    requires r < |p.views| && k < |p.views[r].node.children|
    requires NameAt(p, r) in limits && NameAt(p, r) in p.adds && NameAt(p, r) in p.sequences
    requires k < |p.sequences[NameAt(p, r)]|
  {
    var name, view := NameAt(p, r), p.views[r];
    var items, w := p.sequences[name], view.node.children[k].widget;
    Snapshot(p.views[r := View(WithoutChild(view.node, k), AfterRemoved(view.cells, k, |items|, limits[name], w))],
             p.adds[name := if p.adds[name].None? then None else Some(true)],
             p.sequences[name := items[..k] + items[k+1..]],
             p.nextWidget)
  }

  lemma {:induction false} RemovedShown(p: Snapshot, limits: map<string, Limits>, r: nat, k: nat, name: string,
                                        q: Snapshot)
    requires Mirrors(p, limits) && r < |p.views| && k < |p.views[r].node.children| && name == NameAt(p, r)
    requires name in limits && name in p.adds && name in p.sequences && k < |p.sequences[name]|
    requires q == Removed(p, limits, r, k)
    ensures p.views[r].node.name == Some(name)
    ensures var view, less := q.views[r], p.sequences[name][..k] + p.sequences[name][k+1..];
            InStep(view.node, view.cells, less, limits[name].min, q.adds[name], q.nextWidget)
            <==> FitsUp(|p.sequences[name]|, k, p.adds[name])
  {
    var items := p.sequences[name];
    MirrorsAt(p, limits, r);
    RemovedInStep(p.views[r], items, limits[name], p.adds[name], p.nextWidget, k, q.views[r],
                  items[..k] + items[k+1..], q.adds[name]);
  }

  lemma {:induction false} RemovedMirrors(p: Snapshot, limits: map<string, Limits>, r: nat, k: nat)
    requires Mirrors(p, limits) && r < |p.views| && k < |p.views[r].node.children|
    requires NameAt(p, r) in limits && NameAt(p, r) in p.adds && NameAt(p, r) in p.sequences
    requires k < |p.sequences[NameAt(p, r)]|
    ensures Mirrors(Removed(p, limits, r, k), limits)
            <==> FitsUp(|p.sequences[NameAt(p, r)]|, k, p.adds[NameAt(p, r)])
  {
    var name, q := NameAt(p, r), Removed(p, limits, r, k);
    RemovedShown(p, limits, r, k, name, q);
    ChangedMirrors(p, limits, r, name, q, p.sequences[name][..k] + p.sequences[name][k+1..]);
  }

  lemma {:induction false} FilledNames(views: seq<View>, view: View)
    requires NamesApart(views) && forall k :: 0 <= k < |views| ==> views[k].node.name != view.node.name
    ensures NamesApart(views + [view])
  {
  }

  lemma {:induction false} FilledShows(views: seq<View>, limits: map<string, Limits>, adds: map<string, Option<bool>>,
                                       sequences: map<string, seq<int>>, nextWidget: nat, view: View, name: string,
                                       add: Option<bool>, later: nat)
    requires ShowsAll(views, limits, adds, sequences, nextWidget) && nextWidget <= later && name in sequences
    requires forall k :: 0 <= k < |views| ==> views[k].node.name != Some(name)
    requires ShowsOne(view, limits, adds[name := add], sequences, later)
    ensures ShowsAll(views + [view], limits, adds[name := add], sequences, later)
  {
    var after := views + [view];
    assert sequences[name := sequences[name]] == sequences;
    forall k | 0 <= k < |after| ensures ShowsOne(after[k], limits, adds[name := add], sequences, later) {
      if k < |views| {
        OneKept(views[k], limits, adds, sequences, nextWidget, name, add, sequences[name], later);
      }
    }
  }

  /** A sequence more. */
  lemma {:induction false} FilledMirrors(p: Snapshot, limits: map<string, Limits>, view: View, name: string,
                                         add: Option<bool>, later: nat, q: Snapshot)
    requires Mirrors(p, limits) && p.nextWidget <= later && name in limits && name in p.sequences
    requires view.node.name == Some(name) && forall k :: 0 <= k < |p.views| ==> p.views[k].node.name != Some(name)
    requires ShowsOne(view, limits, p.adds[name := add], p.sequences, later)
    requires q == Snapshot(p.views + [view], p.adds[name := add], p.sequences, later)
    ensures Mirrors(q, limits)
  {
    FilledNames(p.views, view);
    FilledShows(p.views, limits, p.adds, p.sequences, p.nextWidget, view, name, add, later);
  }

  /** The rows of all the items, and the row to add items. */
  lemma {:induction false} FilledInStep(node: Node, rows: seq<Cell>, cells: seq<Cell>, items: seq<int>, limits: Limits,
                                        add: Option<bool>, nextWidget: nat)
    requires ItemNodes(node.children, nextWidget) && Items(node.children) == items[..|items|]
    requires rows == Rows(Widgets(node.children), 0, |items| > limits.min)
    requires cells == rows + AddRow(|items|, add) || (add.None? && cells == rows)
    ensures InStep(node, cells, items, limits.min, add, nextWidget)
  {
    assert items[..|items|] == items;
    assert rows + [] == rows;
  }

  // ----- runs -----

  datatype Change = AddLast(r: nat, item: int) | RemoveAt(r: nat, k: nat)

  /** The change is possible: the sequence exists and stays small enough, or has that item. */
  predicate Possible(p: Snapshot, limits: map<string, Limits>, c: Change) {
    && c.r < |p.views|
    && NameAt(p, c.r) in limits && NameAt(p, c.r) in p.adds && NameAt(p, c.r) in p.sequences
    && match c
       case AddLast(_, _) => |p.sequences[NameAt(p, c.r)]| < INT_MAX
       case RemoveAt(r, k) => k < |p.sequences[NameAt(p, r)]| && k < |p.views[r].node.children|
  }

  function Changed(p: Snapshot, limits: map<string, Limits>, c: Change): Snapshot
    requires Possible(p, limits, c)
  {
    match c
    case AddLast(r, item) => Added(p, limits, r, item)
    case RemoveAt(r, k) => Removed(p, limits, r, k)
  }

  predicate PossibleRun(p: Snapshot, limits: map<string, Limits>, run: seq<Change>)
    decreases |run|
  {
    run == [] || (Possible(p, limits, run[0]) && PossibleRun(Changed(p, limits, run[0]), limits, run[1..]))
  }

  function AfterRun(p: Snapshot, limits: map<string, Limits>, run: seq<Change>): Snapshot
    requires PossibleRun(p, limits, run)
    decreases |run|
  {
    if run == [] then p else AfterRun(Changed(p, limits, run[0]), limits, run[1..])
  }

  /** The buttons to add items can be pressed exactly when there is room. */
  predicate Accurate(p: Snapshot, limits: map<string, Limits>) {
    forall name :: name in p.adds && name in p.sequences && name in limits && p.adds[name].Some? ==>
      p.adds[name].value == (|p.sequences[name]| < limits[name].max)
  }

  /** No sequence is over its maximum. */
  predicate WithinMax(p: Snapshot, limits: map<string, Limits>) {
    forall name :: name in p.sequences && name in limits ==> |p.sequences[name]| <= limits[name].max
  }

  predicate RunWithinMax(p: Snapshot, limits: map<string, Limits>, run: seq<Change>)
    requires PossibleRun(p, limits, run)
    decreases |run|
  {
    WithinMax(p, limits) && (run != [] ==> RunWithinMax(Changed(p, limits, run[0]), limits, run[1..]))
  }

  /** A removal keeps the add button accurate exactly when the sequence was not over its maximum. */
  lemma {:induction false} RemovalAccurate(p: Snapshot, limits: map<string, Limits>, r: nat, k: nat)
    requires Accurate(p, limits) && Possible(p, limits, RemoveAt(r, k))
    ensures var name := NameAt(p, r);
            Accurate(Removed(p, limits, r, k), limits)
            <==> p.adds[name].None? || |p.sequences[name]| <= limits[name].max
  {
    var name, q := NameAt(p, r), Removed(p, limits, r, k);
    assert |q.sequences[name]| == |p.sequences[name]| - 1;
    assert name in q.adds && name in q.sequences && name in limits;
  }

  /** The rows that the change moves fit where the handlers keep them. */
  predicate Fits(p: Snapshot, limits: map<string, Limits>, c: Change)
    requires Possible(p, limits, c)
  {
    var name := NameAt(p, c.r);
    match c
    case AddLast(_, _) => FitsDown(|p.sequences[name]|, p.adds[name])
    case RemoveAt(_, k) => FitsUp(|p.sequences[name]|, k, p.adds[name])
  }

  predicate RunFits(p: Snapshot, limits: map<string, Limits>, run: seq<Change>)
    requires PossibleRun(p, limits, run)
    decreases |run|
  {
    run == [] || (Fits(p, limits, run[0]) && RunFits(Changed(p, limits, run[0]), limits, run[1..]))
  }

  /** Tree, grid and operation are in step all along the run. */
  predicate AlwaysMirrors(p: Snapshot, limits: map<string, Limits>, run: seq<Change>)
    requires PossibleRun(p, limits, run)
    decreases |run|
  {
    Mirrors(p, limits) && (run != [] ==> AlwaysMirrors(Changed(p, limits, run[0]), limits, run[1..]))
  }

  lemma {:induction false} ChangeInStep(p: Snapshot, limits: map<string, Limits>, c: Change)
    requires Mirrors(p, limits) && Possible(p, limits, c)
    ensures Mirrors(Changed(p, limits, c), limits) <==> Fits(p, limits, c)
  {
    match c
    case AddLast(r, item) => AddedMirrors(p, limits, r, item);
    case RemoveAt(r, k) => RemovedMirrors(p, limits, r, k);
  }

  /** Whatever is added and removed, tree, grid and operation stay in step if and only if the rows
      that move always fit. */
  lemma {:induction false} RunInStep(p: Snapshot, limits: map<string, Limits>, run: seq<Change>)
    requires Mirrors(p, limits) && PossibleRun(p, limits, run)
    ensures AlwaysMirrors(p, limits, run) <==> RunFits(p, limits, run)
    ensures RunFits(p, limits, run) ==> Mirrors(AfterRun(p, limits, run), limits)
    decreases |run|
  {
    if run != [] {
      var q := Changed(p, limits, run[0]);
      ChangeInStep(p, limits, run[0]);
      if Fits(p, limits, run[0]) {
        RunInStep(q, limits, run[1..]);
      }
    }
  }

  /** As long as no sequence gets over its maximum the add buttons stay accurate. */
  lemma {:induction false} RunAccurate(p: Snapshot, limits: map<string, Limits>, run: seq<Change>)
    requires Accurate(p, limits) && PossibleRun(p, limits, run) && RunWithinMax(p, limits, run)
    ensures Accurate(AfterRun(p, limits, run), limits)
    decreases |run|
  {
    if run != [] {
      if run[0].RemoveAt? {
        RemovalAccurate(p, limits, run[0].r, run[0].k);
      }
      RunAccurate(Changed(p, limits, run[0]), limits, run[1..]);
    }
  }

  /** While a sequence has fewer items than rows that fit, any change of it fits. */
  lemma {:induction false} SmallFits(p: Snapshot, limits: map<string, Limits>, c: Change)
    requires Possible(p, limits, c) && |p.sequences[NameAt(p, c.r)]| + 1 < ROW_MODULUS
    ensures Fits(p, limits, c)
  {
  }

  class ServerOperationForm {
    const op: ServerOperation
    /** The tree of widget descriptions. */
    var roots: seq<Node>
    /** The grids of the sequences, by the widget of the sequence's node. */
    var grids: map<nat, Grid>
    var nextWidget: nat
    /** The form as plain values. */
    ghost var seen: Snapshot

    constructor (op: ServerOperation)
      ensures this.op == op && roots == [] && grids == map[] && Valid()
    {
      this.op := op;
      roots, grids, nextWidget := [], map[], 0;
      seen := Snapshot([], map[], op.sequences, 0);
    }

    ghost predicate Named(r: nat)
      requires r < |roots|
      reads this, op
    {
      && roots[r].name.Some? && '/' !in roots[r].name.value
      && roots[r].name.value in op.sequences && roots[r].name.value in op.limits && roots[r].name.value in seen.adds
      && roots[r].widget.id in grids && roots[r].widget.id < nextWidget
    }

    /** The sequences have names and grids of their own. */
    ghost predicate Apart()
      reads this, op
    {
      && |roots| <= INT_MAX
      && (forall r :: 0 <= r < |roots| ==> Named(r))
      && (forall r, s :: 0 <= r < s < |roots| ==>
            && Named(r) && Named(s)
            && roots[r].name != roots[s].name
            && roots[r].widget.id != roots[s].widget.id
            && grids[roots[r].widget.id] != grids[roots[s].widget.id])
    }

    ghost predicate SeenAs(r: nat, view: View)
      requires r < |roots| && Named(r)
      reads this, op, grids.Values
    {
      view.node == roots[r] && view.cells == grids[roots[r].widget.id].cells
    }

    ghost predicate Tied()
      reads this, op, grids.Values
    {
      && Apart() && |seen.views| == |roots|
      && seen.sequences == op.sequences && seen.nextWidget == nextWidget
      && forall r :: 0 <= r < |roots| ==> Named(r) && SeenAs(r, seen.views[r])
    }

    /** The form shows the operation's sequences. */
    ghost predicate Valid()
      reads this, op, grids.Values
    {
      Tied() && Mirrors(seen, op.limits)
    }

    /** The place of the sequence `name` in the tree. */
    method SequenceNode(name: string, ghost r: nat) returns (place: nat)
      requires Apart() && r < |roots| && roots[r].name == Some(name) && ItemNodes(roots[r].children, nextWidget)
      ensures place == r
    {
      assert Named(r);
      FindItem(roots, r, name, 0);
      var wd := WidgetDataFind(roots, Join([name]));
      place := wd.value[0];
    }

    /** The place of an item among the children of its sequence. */
    method ItemNode(name: string, index: nat, ghost r: nat) returns (place: nat)
      requires Apart() && r < |roots| && roots[r].name == Some(name) && ItemNodes(roots[r].children, nextWidget)
      requires index < |roots[r].children|
      ensures place == index
    {
      assert Named(r);
      FindItem(roots, r, name, index);
      var wd := WidgetDataFind(roots, ItemPath(name, index));
      place := wd.value[1];
    }

    /** fill_create_widget for an item: its widget, and a node for it at the end of the sequence's
        children. */
    method FillItem(name: string, index: nat, ghost r: nat) returns (w: Widget)
      requires Apart() && r < |roots| && roots[r].name == Some(name) && ItemNodes(roots[r].children, nextWidget)
      requires Named(r) && index < |op.sequences[name]|
      modifies this`roots, this`nextWidget
      ensures w == Widget(old(nextWidget), op.sequences[name][index]) && nextWidget == old(nextWidget) + 1
      ensures roots == old(roots)[r := WithChild(old(roots)[r], w)]
    {
      var wdp := SequenceNode(name, r);
      w := Widget(nextWidget, op.sequences[name][index]);
      nextWidget := nextWidget + 1;
      roots := roots[wdp := roots[wdp].(children := roots[wdp].children + [Node(None, w, [])])];
    }

    /** sequence_item_added_cb: the operation tells that its sequence got an item. */
    method SequenceItemAdded(name: string, itemIndex: nat, ghost r: nat)
      requires Apart() && r < |roots| && roots[r].name == Some(name) && ItemNodes(roots[r].children, nextWidget)
      requires Named(r) && itemIndex < |op.sequences[name]|
      modifies this`roots, this`nextWidget, grids.Values
      ensures nextWidget == old(nextWidget) + 1 && Apart()
      ensures var w, size := Widget(old(nextWidget), op.sequences[name][itemIndex]), |op.sequences[name]|;
              && roots == old(roots)[r := WithChild(old(roots)[r], w)]
              && old(Named(r))
              && grids[roots[r].widget.id].cells
                 == AfterAdded(old(grids[roots[r].widget.id].cells), itemIndex, size, op.limits[name], w)
      ensures forall g :: g in grids.Values && g != grids[roots[r].widget.id] ==> g.cells == old(g.cells)
    {
      var limits, size := op.limits[name], |op.sequences[name]|;
      var wd := SequenceNode(name, r);
      assert Named(r);
      var grid := grids[roots[wd].widget.id];
      grid.MoveDown(itemIndex, size, limits);
      var wid := FillItem(name, itemIndex, r);
      grid.Attach(wid, itemIndex, size, limits.min);
    }

    /** The operation adds an item at the end of a sequence, and tells the form. */
    method AddItem(name: string, item: int, ghost r: nat)
      requires Valid() && r < |roots| && roots[r].name == Some(name)
      requires Named(r) && |op.sequences[name]| < INT_MAX
      modifies op, this`roots, this`nextWidget, this`seen, grids.Values
      ensures Tied() && old(Tied() && Named(r)) && seen == Added(old(seen), op.limits, r, item)
      ensures Valid() <==> FitsDown(|old(op.sequences)[name]|, old(seen).adds[name])
    {
      assert SeenAs(r, seen.views[r]);
      NodesAt(seen, op.limits, r);
      AddedMirrors(seen, op.limits, r, item);
      TellAdded(name, item, r);
    }

    method TellAdded(name: string, item: int, ghost r: nat)
      requires Tied() && r < |roots| && roots[r].name == Some(name) && ItemNodes(roots[r].children, nextWidget)
      requires Named(r)
      modifies op, this`roots, this`nextWidget, this`seen, grids.Values
      ensures Tied() && old(Tied() && Named(r)) && seen == Added(old(seen), op.limits, r, item)
    {
      assert SeenAs(r, seen.views[r]);
      op.sequences := op.sequences[name := op.sequences[name] + [item]];
      SequenceItemAdded(name, |op.sequences[name]| - 1, r);
      seen := Added(seen, op.limits, r, item);
      forall k | 0 <= k < |roots| ensures Named(k) && SeenAs(k, seen.views[k]) {
        assert k != r ==> old(Named(k) && SeenAs(k, seen.views[k]));
      }
    }

    /** sequence_item_remove_cb: the operation tells that an item of its sequence is about to go. */
    method SequenceItemRemove(name: string, itemIndex: nat, ghost r: nat)
      requires Apart() && r < |roots| && roots[r].name == Some(name) && ItemNodes(roots[r].children, nextWidget)
      requires Named(r) && itemIndex < |roots[r].children| && op.sequences[name] != []
      modifies this`roots, grids.Values
      ensures Apart()
      ensures && roots == old(roots)[r := WithoutChild(old(roots)[r], itemIndex)]
              && old(Named(r))
              && grids[roots[r].widget.id].cells
                 == AfterRemoved(old(grids[roots[r].widget.id].cells), itemIndex, |op.sequences[name]|, op.limits[name],
                                 old(roots)[r].children[itemIndex].widget)
      ensures forall g :: g in grids.Values && g != grids[roots[r].widget.id] ==> g.cells == old(g.cells)
    {
      var limits, size := op.limits[name], |op.sequences[name]|;
      var wds, place := FindRow(name, itemIndex, r);
      assert Named(r);
      var grid := grids[roots[wds].widget.id];
      grid.DestroyField(roots[wds].children[place].widget);
      roots := roots[wds := roots[wds].(children := roots[wds].children[..place] + roots[wds].children[place+1..])];
      CloseGap(grid, itemIndex, size, limits);
    }

    /** The places of a sequence and of one of its items. */
    method FindRow(name: string, index: nat, ghost r: nat) returns (wds: nat, place: nat)
      requires Apart() && r < |roots| && roots[r].name == Some(name) && ItemNodes(roots[r].children, nextWidget)
      requires index < |roots[r].children|
      ensures wds == r && place == index
    {
      wds := SequenceNode(name, r);
      place := ItemNode(name, index, r);
    }

    /** What is left of the row goes, and the rows after it move up. */
    method CloseGap(grid: Grid, item: nat, size: nat, limits: Limits)
      requires size > 0
      modifies grid
      ensures grid.cells == Collect(Up(item, size, limits), Collect(NotRow(item), old(grid.cells)))
    {
      grid.DestroyRow(item);
      grid.MoveUp(item, size, limits);
    }

    /** The operation removes an item, and tells the form first. */
    method DelItem(name: string, index: nat, ghost r: nat)
      requires Valid() && r < |roots| && roots[r].name == Some(name)
      requires Named(r) && index < |op.sequences[name]|
      modifies op, this`roots, this`seen, grids.Values
      ensures Tied() && old(Tied() && Named(r)) && index < |old(seen).views[r].node.children|
      ensures seen == Removed(old(seen), op.limits, r, index)
      ensures Valid() <==> FitsUp(|old(op.sequences)[name]|, index, old(seen).adds[name])
    {
      assert SeenAs(r, seen.views[r]);
      NodesAt(seen, op.limits, r);
      RemovedMirrors(seen, op.limits, r, index);
      TellRemoved(name, index, r);
    }

    method TellRemoved(name: string, index: nat, ghost r: nat)
      requires Tied() && r < |roots| && roots[r].name == Some(name) && ItemNodes(roots[r].children, nextWidget)
      requires Named(r) && index < |op.sequences[name]| && index < |roots[r].children|
      modifies op, this`roots, this`seen, grids.Values
      ensures Tied() && old(Tied() && Named(r)) && index < |old(seen).views[r].node.children|
      ensures seen == Removed(old(seen), op.limits, r, index)
    {
      assert SeenAs(r, seen.views[r]);
      SequenceItemRemove(name, index, r);
      op.sequences := op.sequences[name := op.sequences[name][..index] + op.sequences[name][index+1..]];
      seen := Removed(seen, op.limits, r, index);
      forall k | 0 <= k < |roots| ensures Named(k) && SeenAs(k, seen.views[k]) {
        assert k != r ==> old(Named(k) && SeenAs(k, seen.views[k]));
      }
    }

    /** seq_del_item: the button on a row of the grid removes the item shown on that row. */
    method SeqDelItem(name: string, button: Cell, ghost r: nat)
      requires Valid() && r < |roots| && roots[r].name == Some(name)
      requires Named(r) && button in grids[roots[r].widget.id].cells && button.kind == RemoveButton
      modifies op, this`roots, this`seen, grids.Values
      ensures Tied() && old(Tied() && Named(r)) && button.top < |old(op.sequences)[name]|
      ensures Valid() <==> FitsUp(|old(op.sequences)[name]|, button.top, old(seen).adds[name])
      ensures op.sequences == old(op.sequences)[name := old(op.sequences)[name][..button.top]
                                                         + old(op.sequences)[name][button.top+1..]]
    {
      ghost var view := seen.views[r];
      assert SeenAs(r, view);
      MirrorsAt(seen, op.limits, r);
      ButtonsNameItems(view.cells, Widgets(view.node.children), op.limits[name].min, seen.adds[name], button);
      var index := button.index - 1;
      DelItem(name, index, r);
    }

    /** The node and the grid of a sequence, still empty. */
    method NewSequence(name: string) returns (grid: Grid)
      requires Tied() && |roots| < INT_MAX && '/' !in name
      requires name in op.sequences && name in op.limits && name in seen.adds
      requires forall r :: 0 <= r < |roots| ==> roots[r].name != Some(name)
      modifies this`roots, this`grids, this`nextWidget
      ensures fresh(grid) && grid.cells == [] && nextWidget == old(nextWidget) + 1
      ensures grids == old(grids)[old(nextWidget) := grid]
      ensures roots == old(roots) + [Node(Some(name), Widget(old(nextWidget), 0), [])] && Apart()
    {
      assert forall k :: 0 <= k < |roots| ==> Named(k) && SeenAs(k, seen.views[k]);
      grid := new Grid();
      var id := nextWidget;
      nextWidget := id + 1;
      grids := grids[id := grid];
      roots := roots + [Node(Some(name), Widget(id, 0), [])];
      forall k | 0 <= k < |roots| ensures Named(k) {
        assert k < |old(roots)| ==> old(Named(k)) && roots[k] == old(roots)[k];
      }
      forall k, l | 0 <= k < l < |roots|
        ensures Named(k) && Named(l) && roots[k].name != roots[l].name && roots[k].widget.id != roots[l].widget.id
        ensures grids[roots[k].widget.id] != grids[roots[l].widget.id]
      {
        assert old(Named(k)) && roots[k] == old(roots)[k];
        assert l < |old(roots)| ==> old(Named(l)) && roots[l] == old(roots)[l];
      }
    }

    /** One more row for an item that is already there. */
    method FillRow(name: string, n: nat, grid: Grid, ghost r: nat, ghost on: bool)
      requires Apart() && r < |roots| && roots[r].name == Some(name) && ItemNodes(roots[r].children, nextWidget)
      requires Named(r) && grids[roots[r].widget.id] == grid && n < |op.sequences[name]| <= INT_MAX
      requires Items(roots[r].children) == op.sequences[name][..n]
      requires on == (|op.sequences[name]| > op.limits[name].min)
      requires grid.cells == Rows(Widgets(roots[r].children), 0, on)
      modifies this`roots, this`nextWidget, grid
      ensures |roots| == |old(roots)| && roots == old(roots)[r := roots[r]] && nextWidget == old(nextWidget) + 1
      ensures roots[r].name == Some(name) && roots[r].widget == old(roots)[r].widget && Apart()
      ensures ItemNodes(roots[r].children, nextWidget) && Items(roots[r].children) == op.sequences[name][..n+1]
      ensures grid.cells == Rows(Widgets(roots[r].children), 0, on)
    {
      ghost var children := roots[r].children;
      var wid := FillItem(name, n, r);
      grid.Attach(wid, n, |op.sequences[name]|, op.limits[name].min);
      NodesAdded(children, wid, op.sequences[name][..n]);
      LayoutMore(Widgets(children), wid, on);
      assert forall k :: 0 <= k < |roots| ==> old(Named(k)) && Named(k);
    }

    /** The rows of the items a sequence already has, and the row to add items. */
    method FillRows(name: string, grid: Grid, ghost r: nat)
      requires Apart() && r < |roots| && roots[r].name == Some(name) && roots[r].children == []
      requires Named(r) && grids[roots[r].widget.id] == grid && grid.cells == []
      requires |op.sequences[name]| <= INT_MAX
      modifies this`roots, this`nextWidget, grid
      ensures |roots| == |old(roots)| && roots == old(roots)[r := roots[r]] && nextWidget >= old(nextWidget)
      ensures roots[r].name == Some(name) && roots[r].widget == old(roots)[r].widget && Apart()
      ensures InStep(roots[r], grid.cells, op.sequences[name], op.limits[name].min,
                     if |op.sequences[name]| < op.limits[name].max then Some(true) else None, nextWidget)
    {
      var max, size := op.limits[name].max, |op.sequences[name]|;
      FillExisting(name, grid, r, size > op.limits[name].min);
      ghost var rows := grid.cells;
      if size < max {
        grid.AttachAddRow(size);
      }
      FilledInStep(roots[r], rows, grid.cells, op.sequences[name], op.limits[name],
                   if size < max then Some(true) else None, nextWidget);
    }

    /** The loop over the existing entries. */
    method FillExisting(name: string, grid: Grid, ghost r: nat, ghost on: bool)
      requires Apart() && r < |roots| && roots[r].name == Some(name) && roots[r].children == []
      requires Named(r) && grids[roots[r].widget.id] == grid && grid.cells == []
      requires |op.sequences[name]| <= INT_MAX && on == (|op.sequences[name]| > op.limits[name].min)
      modifies this`roots, this`nextWidget, grid
      ensures |roots| == |old(roots)| && roots == old(roots)[r := roots[r]] && nextWidget >= old(nextWidget)
      ensures roots[r].name == Some(name) && roots[r].widget == old(roots)[r].widget && Apart()
      ensures ItemNodes(roots[r].children, nextWidget)
      ensures Items(roots[r].children) == op.sequences[name][..|op.sequences[name]|]
      ensures grid.cells == Rows(Widgets(roots[r].children), 0, on)
    {
      var size := |op.sequences[name]|;
      var n := 0;
      while n < size
        invariant n <= size && nextWidget == old(nextWidget) + n
        invariant |roots| == |old(roots)| && roots == old(roots)[r := roots[r]] && Apart()
        invariant roots[r].name == Some(name) && roots[r].widget == old(roots)[r].widget
        invariant ItemNodes(roots[r].children, nextWidget)
        invariant Items(roots[r].children) == op.sequences[name][..n]
        invariant grid.cells == Rows(Widgets(roots[r].children), 0, on)
      {
        FillRow(name, n, grid, r, on);
        n := n + 1;
      }
    }

    /** Filling the rows of the new sequence completes the form. */
    method FillLast(name: string, grid: Grid, ghost r: nat, ghost p: Snapshot, ghost add: Option<bool>)
      requires Apart() && r < |roots| && roots[r].name == Some(name) && roots[r].children == []
      requires Named(r) && grids[roots[r].widget.id] == grid && grid.cells == []
      requires |op.sequences[name]| <= INT_MAX
      requires Mirrors(p, op.limits) && forall k :: 0 <= k < |p.views| ==> p.views[k].node.name != Some(name)
      requires p.sequences == op.sequences && p.nextWidget <= nextWidget && seen.adds == p.adds[name := add]
      requires add == if |op.sequences[name]| < op.limits[name].max then Some(true) else None
      modifies this`roots, this`nextWidget, grid
      ensures |roots| == |old(roots)| && roots == old(roots)[r := roots[r]] && nextWidget >= old(nextWidget) && Apart()
      ensures roots[r].name == Some(name) && roots[r].widget == old(roots)[r].widget
      ensures Mirrors(Snapshot(p.views + [View(roots[r], grid.cells)], seen.adds, op.sequences, nextWidget), op.limits)
    {
      FillRows(name, grid, r);
      ghost var view := View(roots[r], grid.cells);
      assert ShowsOne(view, op.limits, seen.adds, op.sequences, nextWidget);
      FilledMirrors(p, op.limits, view, name, add, nextWidget,
                    Snapshot(p.views + [view], seen.adds, op.sequences, nextWidget));
    }

    /** From now on there is a sequence called `name`. */
    ghost method TakeName(name: string, add: Option<bool>)
      requires Tied()
      modifies this`seen
      ensures Tied() && seen == old(seen).(adds := old(seen).adds[name := add])
    {
      seen := seen.(adds := seen.adds[name := add]);
      forall k | 0 <= k < |roots| ensures Named(k) && SeenAs(k, seen.views[k]) {
        assert old(Named(k) && SeenAs(k, seen.views[k]));
      }
    }

    /** fill_create_widget for a sequence: a node and a grid, a row for each item, and a row to add
        items when there is room. */
    method FillSequence(name: string)
      requires Valid() && |roots| < INT_MAX && '/' !in name
      requires name in op.sequences && name in op.limits && |op.sequences[name]| <= INT_MAX
      requires forall r :: 0 <= r < |roots| ==> roots[r].name != Some(name)
      modifies this
      ensures Valid() && |roots| == |old(roots)| + 1 && roots[|roots|-1].name == Some(name)
      ensures roots[..|roots|-1] == old(roots)
      ensures name in seen.adds
              && seen.adds[name] == if |op.sequences[name]| < op.limits[name].max then Some(true) else None
    {
      ghost var r := |roots|;
      ghost var add := if |op.sequences[name]| < op.limits[name].max then Some(true) else None;
      TakeName(name, add);
      var grid := NewSequence(name);
      assert Named(r);
      FillLast(name, grid, r, old(seen), add);
      seen := Snapshot(old(seen).views + [View(roots[r], grid.cells)], seen.adds, op.sequences, nextWidget);
      forall k | 0 <= k < |roots| ensures Named(k) && SeenAs(k, seen.views[k]) {
        assert k < r ==> old(Named(k) && SeenAs(k, seen.views[k])) && roots[k] == old(roots)[k];
      }
    }
  }
}
