/** The data store: it follows a data proxy, whose row events it turns into row signals for the
    views, and hands out iterators that go stale when a row changes. */
module DataStores {
  import opened RichText

  /** The contents of a row. */
  type Row = int

  // ----- what the views see -----

  /** A row signal, with the contents a view reads when it gets it. */
  datatype Signal = Inserted(row: nat, contents: Row) | Changed(row: nat, contents: Row) | Deleted(row: nat)

  /** What a view that holds `view` holds after a signal. */
  function ReplayOne(view: seq<Row>, s: Signal): seq<Row> {
    match s
    case Inserted(row, x) => if row <= |view| then view[..row] + [x] + view[row..] else view
    case Changed(row, x) => if row < |view| then view[row := x] else view
    case Deleted(row) => if row < |view| then view[..row] + view[row+1..] else view
  }

  function Replay(view: seq<Row>, signals: seq<Signal>): seq<Row>
    decreases |signals|
  {
    if signals == [] then view else Replay(ReplayOne(view, signals[0]), signals[1..])
  }

  lemma {:induction false} ReplayConcat(view: seq<Row>, a: seq<Signal>, b: seq<Signal>)
    ensures Replay(view, a + b) == Replay(Replay(view, a), b)
    decreases |a|
  {
    if a == [] {
      assert a + b == b;
    } else {
      assert (a + b)[1..] == a[1..] + b;
      ReplayConcat(ReplayOne(view, a[0]), a[1..], b);
    }
  }

  lemma {:induction false} ReplayLast(view: seq<Row>, signals: seq<Signal>, s: Signal)
    ensures Replay(view, signals + [s]) == ReplayOne(Replay(view, signals), s)
  {
    ReplayConcat(view, signals, [s]);
    assert [s][1..] == [];
  }

  // ----- what happens to the proxy -----

  datatype Event = Insert(row: nat, contents: Row) | Update(row: nat, contents: Row) | Remove(row: nat)
                 | Reset(rows: seq<Row>)

  predicate Allowed(rows: seq<Row>, e: Event) {
    match e
    case Insert(row, _) => row <= |rows|
    case Update(row, _) => row < |rows|
    case Remove(row) => row < |rows|
    case Reset(_) => true
  }

  /** The rows of the proxy after an event. */
  function After(rows: seq<Row>, e: Event): seq<Row>
    requires Allowed(rows, e)
  {
    match e
    case Insert(row, x) => rows[..row] + [x] + rows[row..]
    case Update(row, x) => rows[row := x]
    case Remove(row) => rows[..row] + rows[row+1..]
    case Reset(reset) => reset
  }

  function Deletions(n: nat): seq<Signal> {
    if n == 0 then [] else [Deleted(n - 1)] + Deletions(n - 1)
  }

  function Insertions(rows: seq<Row>, i: nat): seq<Signal>
    requires i <= |rows|
  {
    if i == 0 then [] else Insertions(rows, i - 1) + [Inserted(i - 1, rows[i-1])]
  }

  /** The signals the store emits for an event, having counted `n` rows so far. */
  function Signals(n: nat, e: Event): seq<Signal> {
    match e
    case Insert(row, x) => [Inserted(row, x)]
    case Update(row, x) => [Changed(row, x)]
    case Remove(row) => [Deleted(row)]
    case Reset(rows) => Deletions(n) + Insertions(rows, |rows|)
  }

  lemma {:induction false} DeletionsLastFirst(n: nat, k: nat)
    requires k < n
    ensures |Deletions(n)| == n && Deletions(n)[k] == Deleted(n - 1 - k)
  {
    if n > 1 {
      DeletionsLastFirst(n - 1, if k > 0 then k - 1 else 0);
    }
  }

  lemma {:induction false} InsertionsInOrder(rows: seq<Row>, i: nat, k: nat)
    requires k < i <= |rows|
    ensures |Insertions(rows, i)| == i && Insertions(rows, i)[k] == Inserted(k, rows[k])
  {
    if i > 1 {
      InsertionsInOrder(rows, i - 1, if k < i - 1 then k else 0);
    }
  }

  /** A reset deletes the old rows, the last one first, and inserts the new ones, the first one first. */
  lemma {:induction false} ResetSignals(n: nat, rows: seq<Row>, k: nat)
    ensures |Signals(n, Reset(rows))| == n + |rows|
    ensures k < n ==> Signals(n, Reset(rows))[k] == Deleted(n - 1 - k)
    ensures k < |rows| ==> Signals(n, Reset(rows))[n+k] == Inserted(k, rows[k])
  {
    if n > 0 {
      DeletionsLastFirst(n, if k < n then k else 0);
    }
    if rows != [] {
      InsertionsInOrder(rows, |rows|, if k < |rows| then k else 0);
    }
  }

  lemma {:induction false} ReplayDeletions(view: seq<Row>)
    ensures Replay(view, Deletions(|view|)) == []
    decreases |view|
  {
    if view != [] {
      var last := |view| - 1;
      assert view[..last] + view[last+1..] == view[..last];
      assert Deletions(|view|)[1..] == Deletions(last);
      ReplayDeletions(view[..last]);
    }
  }

  lemma {:induction false} ReplayInsertions(rows: seq<Row>, i: nat)
    requires i <= |rows|
    ensures Replay([], Insertions(rows, i)) == rows[..i]
  {
    if i > 0 {
      ReplayInsertions(rows, i - 1);
      ReplayLast([], Insertions(rows, i - 1), Inserted(i - 1, rows[i-1]));
      assert rows[..i-1] + [rows[i-1]] + rows[..i-1][i-1..] == rows[..i];
    }
  }

  /** A view that holds the proxy's rows before an event, and replays the signals for it, holds the
      proxy's rows after it. */
  lemma {:induction false} EventMirrored(rows: seq<Row>, e: Event)
    requires Allowed(rows, e)
    ensures Replay(rows, Signals(|rows|, e)) == After(rows, e)
  {
    match e
    case Reset(reset) =>
      ReplayConcat(rows, Deletions(|rows|), Insertions(reset, |reset|));
      ReplayDeletions(rows);
      ReplayInsertions(reset, |reset|);
      assert reset[..|reset|] == reset;
    case _ =>
      assert Signals(|rows|, e) == [Signals(|rows|, e)[0]];
      ReplayLast(rows, [], Signals(|rows|, e)[0]);
      assert [] + [Signals(|rows|, e)[0]] == [Signals(|rows|, e)[0]];
  }

  // ----- traces -----

  predicate AllowedTrace(rows: seq<Row>, trace: seq<Event>)
    decreases |trace|
  {
    trace == [] || (Allowed(rows, trace[0]) && AllowedTrace(After(rows, trace[0]), trace[1..]))
  }

  function AfterTrace(rows: seq<Row>, trace: seq<Event>): seq<Row>
    requires AllowedTrace(rows, trace)
    decreases |trace|
  {
    if trace == [] then rows else AfterTrace(After(rows, trace[0]), trace[1..])
  }

  /** The row count the store keeps: it goes up and down by one with each row event. */
  function Counted(n: nat, e: Event): nat {
    match e
    case Insert(_, _) => n + 1
    case Update(_, _) => n
    case Remove(_) => if n == 0 then 0 else n - 1
    case Reset(rows) => |rows|
  }

  function CountedTrace(n: nat, trace: seq<Event>): nat
    decreases |trace|
  {
    if trace == [] then n else CountedTrace(Counted(n, trace[0]), trace[1..])
  }

  /** The signals for a trace, from a count of `n` rows. */
  function SignalsTrace(n: nat, trace: seq<Event>): seq<Signal>
    decreases |trace|
  {
    if trace == [] then []
    else Signals(n, trace[0]) + SignalsTrace(Counted(n, trace[0]), trace[1..])
  }

  /** After any trace the store counts the proxy's rows, and a view that replayed the signals holds
      them. */
  lemma {:induction false} TraceMirrored(rows: seq<Row>, trace: seq<Event>)
    requires AllowedTrace(rows, trace)
    ensures Replay(rows, SignalsTrace(|rows|, trace)) == AfterTrace(rows, trace)
    ensures CountedTrace(|rows|, trace) == |AfterTrace(rows, trace)|
    decreases |trace|
  {
    if trace != [] {
      var n, e, rest := |rows|, trace[0], trace[1..];
      var next := After(rows, e);
      EventMirrored(rows, e);
      EventCounted(rows, e, next);
      ReplayConcat(rows, Signals(n, e), SignalsTrace(|next|, rest));
      TraceMirrored(next, rest);
    }
  }

  lemma {:induction false} EventCounted(rows: seq<Row>, e: Event, next: seq<Row>)
    requires Allowed(rows, e) && next == After(rows, e)
    ensures Counted(|rows|, e) == |next|
  {
  }

  /** Some row comes, changes or goes by itself. */
  predicate HasRowEvent(trace: seq<Event>) {
    trace != [] && (!trace[0].Reset? || HasRowEvent(trace[1..]))
  }

  lemma {:induction false} Rejoined(a: seq<Signal>, b: seq<Signal>, c: seq<Signal>, whole: seq<Signal>)
    requires whole == a + b + c
    ensures whole == a + (b + c)
  {
  }

  // ----- the store -----

  class Proxy {
    var rows: seq<Row>

    constructor (rows: seq<Row>)
      ensures this.rows == rows
    {
      this.rows := rows;
    }
  }

  /** The source of stamps: each one is new. */
  class StampSource {
    var last: int

    constructor ()
    {
      last := 0;
    }

    method Fresh() returns (stamp: int)
      modifies this
      ensures stamp == last > old(last)
    {
      last := last + 1;
      stamp := last;
    }
  }

  class TreeIter {
    var stamp: int
    var row: int

    constructor ()
    {
      stamp, row := 0, 0;
    }
  }

  class DataStore {
    const proxy: Proxy
    const stamps: StampSource
    var nrows: int
    var stamp: int
    var resetting: bool
    /** The signals emitted so far. */
    var emitted: seq<Signal>

    constructor (proxy: Proxy, stamps: StampSource)
      modifies stamps
      ensures this.proxy == proxy && this.stamps == stamps && Valid()
    {
      this.proxy, this.stamps := proxy, stamps;
      nrows, resetting, emitted := |proxy.rows|, false, [];
      new;
      stamp := stamps.Fresh();
    }

    /** The store counts the proxy's rows, and its stamp is the last one. */
    predicate Valid()
      reads this, proxy, stamps
    {
      nrows == |proxy.rows| && stamp == stamps.last && !resetting
    }

    /** An iterator made before the stamp was last changed. */
    predicate Stale(iter: TreeIter)
      reads this, iter
    {
      iter.stamp < stamp
    }

    // ----- the proxy's events -----

    method RowInsertedCb(row: nat)
      requires row <= nrows < |proxy.rows| && stamp == stamps.last
      modifies this`nrows, this`stamp, this`emitted, stamps
      ensures nrows == old(nrows) + 1 && stamp == stamps.last > old(stamp)
      ensures emitted == old(emitted) + [Inserted(row, proxy.rows[row])]
    {
      nrows := nrows + 1;
      stamp := stamps.Fresh();
      var iter := new TreeIter();
      var found := GetIter(iter, row);
      if found {
        emitted := emitted + [Inserted(row, proxy.rows[iter.row])];
      }
    }

    method RowUpdatedCb(row: nat)
      requires row < nrows == |proxy.rows| && stamp == stamps.last
      modifies this`stamp, this`emitted, stamps
      ensures stamp == stamps.last > old(stamp)
      ensures emitted == old(emitted) + [Changed(row, proxy.rows[row])]
    {
      stamp := stamps.Fresh();
      var iter := new TreeIter();
      var found := GetIter(iter, row);
      if found {
        emitted := emitted + [Changed(row, proxy.rows[iter.row])];
      }
    }

    method RowRemovedCb(row: nat)
      requires stamp == stamps.last
      modifies this`nrows, this`stamp, this`emitted, stamps
      ensures nrows == old(nrows) - 1 && stamp == stamps.last > old(stamp)
      ensures emitted == old(emitted) + [Deleted(row)]
    {
      nrows := nrows - 1;
      stamp := stamps.Fresh();
      emitted := emitted + [Deleted(row)];
    }

    /** The first loop of proxy_reset_cb: every row goes, the last one first. */
    method RemoveAll()
      requires nrows >= 0 && stamp == stamps.last
      modifies this`nrows, this`stamp, this`emitted, stamps
      ensures nrows == 0 && stamp == stamps.last && emitted == old(emitted) + Deletions(old(nrows))
      ensures if old(nrows) == 0 then stamp == old(stamp) else stamp > old(stamp)
    {
      while nrows > 0
        invariant 0 <= nrows <= old(nrows) && stamp == stamps.last
        invariant if nrows == old(nrows) then stamp == old(stamp) else stamp > old(stamp)
        invariant emitted + Deletions(nrows) == old(emitted) + Deletions(old(nrows))
      {
        ghost var before := emitted;
        RowRemovedCb(nrows - 1);
        assert before + ([Deleted(nrows)] + Deletions(nrows)) == emitted + Deletions(nrows);
      }
      assert emitted + [] == emitted;
    }

    /** The second loop: the new rows come. */
    method InsertAll()
      requires nrows == 0 && stamp == stamps.last
      modifies this`nrows, this`stamp, this`emitted, stamps
      ensures nrows == |proxy.rows| && stamp == stamps.last
      ensures emitted == old(emitted) + Insertions(proxy.rows, |proxy.rows|)
      ensures if proxy.rows == [] then stamp == old(stamp) else stamp > old(stamp)
    {
      var n := |proxy.rows|;
      var i := 0;
      assert emitted + [] == emitted;
      while i < n
        invariant i <= n == |proxy.rows| && nrows == i && stamp == stamps.last
        invariant if i == 0 then stamp == old(stamp) else stamp > old(stamp)
        invariant emitted == old(emitted) + Insertions(proxy.rows, i)
      {
        RowInsertedCb(i);
        i := i + 1;
        assert old(emitted) + Insertions(proxy.rows, i - 1) + [Inserted(i - 1, proxy.rows[i-1])]
            == old(emitted) + Insertions(proxy.rows, i);
      }
    }

    /** proxy_reset_cb. */
    method ProxyResetCb()
      requires nrows >= 0 && stamp == stamps.last
      modifies this, stamps
      ensures Valid()
      ensures emitted == old(emitted) + Signals(old(nrows), Reset(proxy.rows))
      ensures old(nrows) > 0 || proxy.rows != [] ==> stamp > old(stamp)
      ensures old(nrows) == 0 && proxy.rows == [] ==> stamp == old(stamp)
    {
      resetting := true;
      RemoveAll();
      resetting := false;
      nrows := 0;
      InsertAll();
      assert old(emitted) + Deletions(old(nrows)) + Insertions(proxy.rows, |proxy.rows|)
          == old(emitted) + Signals(old(nrows), Reset(proxy.rows));
    }

    /** An event of the proxy and the store's answer to it. */
    method Happen(e: Event)
      requires Valid() && Allowed(proxy.rows, e)
      modifies this, proxy, stamps
      ensures Valid() && proxy.rows == After(old(proxy.rows), e)
      ensures emitted == old(emitted) + Signals(old(nrows), e)
      ensures !e.Reset? || old(nrows) > 0 || proxy.rows != [] ==> stamp > old(stamp)
      ensures stamp >= old(stamp)
    {
      proxy.rows := After(proxy.rows, e);
      match e
      case Insert(row, _) => RowInsertedCb(row);
      case Update(row, _) => RowUpdatedCb(row);
      case Remove(row) => RowRemovedCb(row);
      case Reset(_) => ProxyResetCb();
    }

    /** After any trace of events a view that has followed the signals holds the proxy's rows. */
    method HappenAll(trace: seq<Event>)
      requires Valid() && AllowedTrace(proxy.rows, trace)
      modifies this, proxy, stamps
      ensures Valid() && proxy.rows == AfterTrace(old(proxy.rows), trace)
      ensures emitted == old(emitted) + SignalsTrace(|old(proxy.rows)|, trace)
      ensures Replay(old(proxy.rows), emitted[|old(emitted)|..]) == proxy.rows
      ensures stamp >= old(stamp) && (HasRowEvent(trace) ==> stamp > old(stamp))
      decreases |trace|
    {
      ghost var rows, start := proxy.rows, emitted;
      TraceMirrored(rows, trace);
      if trace == [] {
        assert emitted[|start|..] == [];
        return;
      }
      Happen(trace[0]);
      EventCounted(rows, trace[0], proxy.rows);
      ghost var first := emitted;
      HappenAll(trace[1..]);
      Rejoined(start, Signals(|rows|, trace[0]), SignalsTrace(Counted(|rows|, trace[0]), trace[1..]), emitted);
      assert emitted == start + SignalsTrace(|rows|, trace);
      assert emitted[|start|..] == SignalsTrace(|rows|, trace);
    }

    // ----- iterators -----

    /** data_store_get_iter, for a path of one index.  A negative index is not refused. */
    method GetIter(iter: TreeIter, n: int) returns (ok: bool)
      modifies iter
      ensures ok <==> n < nrows
      ensures if ok then iter.stamp == stamp && iter.row == n else iter.stamp == old(iter.stamp) && iter.row == old(iter.row)
    {
      if n < nrows {
        iter.stamp := stamp;
        iter.row := n;
        return true;
      } else {
        return false;
      }
    }

    /** data_store_get_path; nothing for an iterator of another stamp. */
    method GetPath(iter: TreeIter) returns (path: Option<int>)
      ensures path == if iter.stamp == stamp then Some(iter.row) else None
      ensures Stale(iter) ==> path == None
    {
      if iter.stamp != stamp {
        return None;
      }
      path := Some(iter.row);
    }

    method IterNext(iter: TreeIter) returns (ok: bool)
      modifies iter
      ensures ok <==> iter.stamp == stamp && old(iter.row) + 1 < nrows
      ensures iter.stamp == old(iter.stamp) && iter.row == (if ok then old(iter.row) + 1 else old(iter.row))
      ensures old(Stale(iter)) ==> !ok
    {
      if iter.stamp != stamp {
        return false;
      }
      var row := iter.row;
      row := row + 1;
      if row >= nrows {
        return false;
      } else {
        iter.row := row;
        return true;
      }
    }

    /** data_store_iter_children; rows have no children. */
    method IterChildren(iter: TreeIter, parent: Option<TreeIter>) returns (ok: bool)
      modifies iter
      ensures ok <==> parent.None? && nrows > 0
      ensures if ok then iter.stamp == stamp && iter.row == 0 else iter.stamp == old(iter.stamp) && iter.row == old(iter.row)
    {
      if parent.None? && nrows > 0 {
        iter.stamp := stamp;
        iter.row := 0;
        return true;
      } else {
        return false;
      }
    }

    /** data_store_iter_nth_child.  A negative number is not refused. */
    method IterNthChild(iter: TreeIter, parent: Option<TreeIter>, n: int) returns (ok: bool)
      modifies iter
      ensures ok <==> parent.None? && n < nrows
      ensures if ok then iter.stamp == stamp && iter.row == n else iter.stamp == old(iter.stamp) && iter.row == old(iter.row)
    {
      if parent.None? && n < nrows {
        iter.stamp := stamp;
        iter.row := n;
        return true;
      } else {
        return false;
      }
    }

    /** gdaui_data_store_append: the proxy gets a row at its end and tells the store, and only then
        is the iterator set; `accepted` is whether the proxy agrees. */
    method Append(iter: TreeIter, contents: Row, accepted: bool) returns (ok: bool)
      requires !resetting ==> Valid()
      modifies this, proxy, stamps, iter
      ensures ok <==> !old(resetting) && accepted
      ensures ok ==> Valid() && proxy.rows == old(proxy.rows) + [contents]
                     && iter.stamp == stamp && iter.row == nrows - 1 == |old(proxy.rows)|
                     && emitted == old(emitted) + [Inserted(|old(proxy.rows)|, contents)]
      ensures !ok ==> nrows == old(nrows) && stamp == old(stamp) && proxy.rows == old(proxy.rows)
                      && emitted == old(emitted) && resetting == old(resetting)
                      && iter.stamp == old(iter.stamp) && iter.row == old(iter.row)
    {
      if resetting || !accepted {
        return false;
      }
      var row := |proxy.rows|;
      Happen(Insert(row, contents));
      assert row == |old(proxy.rows)|;
      iter.row := row;
      iter.stamp := stamp;
      return true;
    }

    /** Walking over the store from its first row visits every row once, in order. */
    method Walk() returns (visited: seq<int>)
      requires nrows >= 0
      ensures |visited| == nrows && forall k :: 0 <= k < nrows ==> visited[k] == k
    {
      visited := [];
      var iter := new TreeIter();
      var more := IterChildren(iter, None);
      while more
        invariant |visited| == (if more then iter.row else nrows)
        invariant more ==> iter.stamp == stamp && 0 <= iter.row < nrows
        invariant |visited| <= nrows && forall k :: 0 <= k < |visited| ==> visited[k] == k
        decreases nrows - |visited|
      {
        var path := GetPath(iter);
        visited := visited + [path.value];
        more := IterNext(iter);
      }
    }
  }
}
