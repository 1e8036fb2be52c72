/** Which items of a document are written, and where their marks go when an image ends their run. */
module WrittenItems {
  import opened RichText
  import opened Streams
  import opened Serializer

  // ----- what is written -----

  /** An image comes after item `i`, with nothing but items of the same tags up to it. */
  predicate ImageFollows(d: Buffer, i: nat)
    requires i < |d|
  {
    exists j :: i < j < |d| && !d[j].glyph.Chr? && forall k :: i <= k <= j ==> d[k].tags == d[i].tags
  }

  lemma {:induction false} ImageAheadExactly(d: Buffer, i: nat)
    requires i < |d| && d[i].glyph.Chr?
    ensures ImageAhead(d, i) <==> ImageFollows(d, i)
    decreases |d| - i
  {
    if i + 1 < |d| && d[i+1].tags == d[i].tags {
      if d[i+1].glyph.Chr? {
        ImageAheadExactly(d, i + 1);
        FollowsNext(d, i);
      } else {
        assert forall k :: i <= k <= i + 1 ==> d[k].tags == d[i].tags;
      }
    }
  }

  lemma {:induction false} FollowsNext(d: Buffer, i: nat)
    requires i + 1 < |d| && d[i+1].tags == d[i].tags && d[i+1].glyph.Chr?
    ensures ImageFollows(d, i) <==> ImageFollows(d, i + 1)
  {
    if ImageFollows(d, i) {
      var j :| i < j < |d| && !d[j].glyph.Chr? && forall k :: i <= k <= j ==> d[k].tags == d[i].tags;
      assert forall k :: i + 1 <= k <= j ==> d[k].tags == d[i+1].tags;
    }
    if ImageFollows(d, i + 1) {
      var j :| i + 1 < j < |d| && !d[j].glyph.Chr? && forall k :: i + 1 <= k <= j ==> d[k].tags == d[i+1].tags;
      assert forall k :: i <= k <= j ==> d[k].tags == d[i].tags;
    }
  }

  /** A character is left out exactly when it has a list tag and no image follows it; pictures are written,
      and bullets only by their marks. */
  function ShownEvents(d: Buffer, i: nat): Stream
    requires i <= |d|
    decreases |d| - i
  {
    if i == |d| then []
    else
      (match d[i].glyph
       case Chr(c) => if (List1 in d[i].tags || List2 in d[i].tags) && !ImageFollows(d, i) then [] else [Put(c)]
       case Picture(p) => [Image(p)]
       case Bullet(_) => [])
      + ShownEvents(d, i + 1)
  }

  lemma {:induction false} VisibleExactly(d: Buffer, i: nat)
    requires i <= |d|
    ensures Visible(d, i) == ShownEvents(d, i)
    decreases |d| - i
  {
    if i < |d| {
      VisibleExactly(d, i + 1);
      if d[i].glyph.Chr? {
        ImageAheadExactly(d, i);
      }
    }
  }

  /** Of any document just these characters and pictures are written, in their order. */
  lemma {:induction false} WrittenExactly(d: Buffer)
    ensures Unmarked(Written(d)) == ShownEvents(d, 0)
  {
    MarksNest(d);
    VisibleExactly(d, 0);
  }

  // ----- a run that an image ends -----

  predicate OneRun(d: Buffer, tags: set<Tag>) {
    d != [] && !d[|d|-1].glyph.Chr? && forall i :: 0 <= i < |d| ==> d[i].tags == tags
  }

  function Bare(d: Buffer, i: nat): Stream
    requires i <= |d|
    decreases |d| - i
  {
    if i == |d| then []
    else
      (match d[i].glyph
       case Chr(c) => [Put(c)]
       case Picture(p) => [Image(p)]
       case Bullet(_) => [])
      + Bare(d, i + 1)
  }

  lemma {:induction false} ImageLast(d: Buffer, tags: set<Tag>, i: nat)
    requires OneRun(d, tags) && i < |d|
    ensures ImageAhead(d, i)
    decreases |d| - i
  {
    if i + 1 < |d| {
      ImageLast(d, tags, i + 1);
    }
  }

  lemma {:induction false} BareItem(d: Buffer, tags: set<Tag>, i: nat, none: seq<Tag>)
    requires OneRun(d, tags) && i + 1 < |d| && none == []
    ensures ItemEmission(d, i, none).live == none
    ensures ItemEmission(d, i, none).events + Bare(d, i + 1) == Bare(d, i)
  {
    ImageLast(d, tags, i);
    assert CloseMarks(none) == [];
  }

  lemma {:induction false} LastBare(d: Buffer, tags: set<Tag>, none: seq<Tag>, ts: seq<Tag>)
    requires OneRun(d, tags) && none == [] && ts == Added(none, TagsInOrder(tags))
    ensures StreamFrom(d, |d| - 1, none) == Bare(d, |d| - 1) + OpenMarks(ts) + CloseMarks(ts)
  {
    var i := |d| - 1;
    assert CloseMarks(none) == [] && ts + none == ts;
    var e := ItemEmission(d, i, none);
    assert e.live == ts;
    assert StreamFrom(d, i + 1, ts) == CloseMarks(ts);
    assert e.events == Bare(d, i) + OpenMarks(ts);
  }

  lemma {:induction false} BareRun(d: Buffer, tags: set<Tag>, i: nat, none: seq<Tag>, ts: seq<Tag>)
    requires OneRun(d, tags) && i < |d| && none == [] && ts == Added(none, TagsInOrder(tags))
    ensures StreamFrom(d, i, none) == Bare(d, i) + OpenMarks(ts) + CloseMarks(ts)
    decreases |d| - i
  {
    if i == |d| - 1 {
      LastBare(d, tags, none, ts);
    } else {
      BareItem(d, tags, i, none);
      BareRun(d, tags, i + 1, none, ts);
      Joined(ItemEmission(d, i, none).events, Bare(d, i + 1), OpenMarks(ts), CloseMarks(ts));
    }
  }

  lemma {:induction false} Joined(a: Stream, b: Stream, c: Stream, e: Stream)
    ensures a + (b + c + e) == (a + b) + c + e
  {
  }

  /** Where all items have the same tags and the last one is an image, everything is written without a mark
      around it; then all the tags are opened, and closed at once. */
  lemma {:induction false} ImageRunWritten(d: Buffer, tags: set<Tag>)
    requires OneRun(d, tags)
    ensures exists ts ::
              && Distinct(ts) && (forall t :: t in ts <==> t in tags)
              && Written(d) == Bare(d, 0) + OpenMarks(ts) + CloseMarks(ts)
  {
    var ts := Added([], TagsInOrder(tags));
    AddedOk([], tags);
    assert ts + [] == ts;
    assert forall t :: t in ts <==> t in TagSet(ts);
    BareRun(d, tags, 0, [], ts);
  }

  // ----- a run without images -----

  predicate TextRun(d: Buffer, tags: set<Tag>) {
    d != [] && forall i :: 0 <= i < |d| ==> d[i].glyph.Chr? && d[i].tags == tags
  }

  lemma {:induction false} NoneAhead(d: Buffer, tags: set<Tag>, i: nat)
    requires TextRun(d, tags) && i < |d|
    ensures !ImageAhead(d, i)
    decreases |d| - i
  {
    if i + 1 < |d| {
      NoneAhead(d, tags, i + 1);
    }
  }

  lemma {:induction false} HiddenItem(d: Buffer, tags: set<Tag>, i: nat, none: seq<Tag>)
    requires TextRun(d, tags) && (List1 in tags || List2 in tags) && i + 1 < |d| && none == []
    ensures ItemEmission(d, i, none) == Emission([], none)
  {
    NoneAhead(d, tags, i);
    assert CloseMarks(none) == [];
  }

  lemma {:induction false} LastHidden(d: Buffer, tags: set<Tag>, none: seq<Tag>, ts: seq<Tag>)
    requires TextRun(d, tags) && (List1 in tags || List2 in tags) && none == [] && ts == Added(none, TagsInOrder(tags))
    ensures StreamFrom(d, |d| - 1, none) == OpenMarks(ts) + CloseMarks(ts)
  {
    var i := |d| - 1;
    NoneAhead(d, tags, i);
    assert CloseMarks(none) == [] && ts + none == ts;
    var e := ItemEmission(d, i, none);
    assert e.live == ts && e.events == OpenMarks(ts);
    assert StreamFrom(d, i + 1, ts) == CloseMarks(ts);
  }

  lemma {:induction false} HiddenRun(d: Buffer, tags: set<Tag>, i: nat, none: seq<Tag>, ts: seq<Tag>)
    requires TextRun(d, tags) && (List1 in tags || List2 in tags) && i < |d| && none == []
    requires ts == Added(none, TagsInOrder(tags))
    ensures StreamFrom(d, i, none) == OpenMarks(ts) + CloseMarks(ts)
    decreases |d| - i
  {
    if i == |d| - 1 {
      LastHidden(d, tags, none, ts);
    } else {
      HiddenItem(d, tags, i, none);
      HiddenRun(d, tags, i + 1, none, ts);
      assert [] + StreamFrom(d, i + 1, none) == StreamFrom(d, i + 1, none);
    }
  }

  /** Text that has a list tag and no image leaves only its marks. */
  lemma {:induction false} HiddenRunWritten(d: Buffer, tags: set<Tag>)
    requires TextRun(d, tags) && (List1 in tags || List2 in tags)
    ensures exists ts ::
              Distinct(ts) && (forall t :: t in ts <==> t in tags) && Written(d) == OpenMarks(ts) + CloseMarks(ts)
  {
    var ts := Added([], TagsInOrder(tags));
    AddedOk([], tags);
    assert ts + [] == ts;
    assert forall t :: t in ts <==> t in TagSet(ts);
    HiddenRun(d, tags, 0, [], ts);
  }
}
