/** serialize_text as it runs: run by run, with a stack of open tags and a growing string. */
module SerializeText {
  import opened RichText
  import opened Parser
  import opened Streams
  import opened Serializer
  import Base64

  /** A U+FFFC character that stands for no image. */
  predicate BareObject(it: Item) {
    it.glyph == Chr(OBJECT_REPLACEMENT)
  }

  predicate NoBareObject(d: Buffer) {
    forall i :: 0 <= i < |d| ==> !BareObject(d[i])
  }

  // ----- the shape of a run -----

  /** Items `lo..hi` of one run, as written before the run's last image. */
  function RawStream(d: Buffer, lo: nat, hi: nat): Stream
    requires lo <= hi <= |d|
    decreases hi - lo
  {
    if lo == hi then []
    else
      (match d[lo].glyph
       case Chr(c) => [Put(c)]
       case Picture(p) => [Image(p)]
       case Bullet(_) => [])
      + RawStream(d, lo + 1, hi)
  }

  function Missing(kept: seq<Tag>, tags: set<Tag>): seq<Tag> {
    Added(kept, TagsInOrder(tags))
  }

  /** Items `j..e`, the text after the run's last image. */
  function TailText(d: Buffer, j: nat, e: nat, tags: set<Tag>, kept: seq<Tag>): Emission
    requires j <= e <= |d|
    decreases e - j
  {
    var missing := Missing(kept, tags);
    if j == e then Emission(OpenMarks(missing), missing + kept)
    else if d[j].glyph == Chr('\n') then
      var rest := TailText(d, j + 1, e, tags, kept);
      Emission(CloseMarks(kept) + ([Put('\n')] + OpenMarks(kept)) + rest.events, rest.live)
    else
      var c := if d[j].glyph.Chr? then d[j].glyph.c else NUL;
      var rest := TailText(d, j + 1, e, tags, missing + kept);
      Emission(OpenMarks(missing) + [Put(c)] + rest.events, rest.live)
  }

  /** What follows the last image of a run; list-tagged text is passed over. */
  function Tail(d: Buffer, m: nat, e: nat, tags: set<Tag>, kept: seq<Tag>): Emission
    requires m <= e <= |d|
  {
    TailText(d, if ListTagged(tags) then e else m, e, tags, kept)
  }

  /** Items `r..e` form the rest of a run. */
  predicate RestOfRun(d: Buffer, r: nat, e: nat, tags: set<Tag>) {
    && r <= e <= |d|
    && (forall k :: r <= k < e ==> d[k].tags == tags)
    && (e < |d| ==> d[e].tags != tags)
  }

  predicate NoImage(d: Buffer, lo: nat, hi: nat)
    requires lo <= hi <= |d|
  {
    forall k :: lo <= k < hi ==> d[k].glyph.Chr?
  }

  lemma {:induction false} NoImageAhead(d: Buffer, j: nat, e: nat, tags: set<Tag>)
    requires RestOfRun(d, j, e, tags) && j < e && NoImage(d, j, e)
    ensures !ImageAhead(d, j)
    decreases e - j
  {
    if j + 1 < e {
      NoImageAhead(d, j + 1, e, tags);
    }
  }

  lemma {:induction false} ImageComes(d: Buffer, k: nat, m: nat, e: nat, tags: set<Tag>)
    requires RestOfRun(d, k, e, tags) && k < m <= e && !d[m-1].glyph.Chr?
    ensures ImageAhead(d, k)
    decreases m - k
  {
    if k + 1 < m {
      ImageComes(d, k + 1, m, e, tags);
    }
  }

  lemma {:induction false} NothingPopped(kept: seq<Tag>, tags: set<Tag>)
    requires OpenTagsOk(kept, tags)
    ensures Popped(kept, tags) == 0
  {
    PoppedFacts(kept, tags);
    assert forall k :: 0 <= k < |kept| ==> kept[k] in kept;
  }

  /** An item of a run other than its first one closes nothing. */
  lemma {:induction false} MiddleItem(d: Buffer, j: nat, e: nat, tags: set<Tag>, kept: seq<Tag>, body: Emission)
    requires RestOfRun(d, j, e, tags) && j + 1 < e && OpenTagsOk(kept, tags) && body == Body(d, j, kept)
    ensures OpenTagsOk(body.live, tags)
    ensures StreamFrom(d, j, kept) == body.events + StreamFrom(d, j + 1, body.live)
  {
    NothingPopped(kept, tags);
    BodyLive(d, j, kept);
    InnerEmission(d, j, kept, body);
    StreamStep(d, j, kept, ItemEmission(d, j, kept));
  }

  /** The last item of a run opens what is missing. */
  lemma {:induction false} LastItem(d: Buffer, j: nat, e: nat, tags: set<Tag>, kept: seq<Tag>, body: Emission,
                                    tail: Emission)
    requires RestOfRun(d, j, e, tags) && j + 1 == e && OpenTagsOk(kept, tags) && body == Body(d, j, kept)
    requires tail == TailText(d, e, e, tags, body.live)
    ensures StreamFrom(d, j, kept) == (body.events + tail.events) + StreamFrom(d, e, tail.live)
  {
    NothingPopped(kept, tags);
    InnerEmission(d, j, kept, body);
    StreamStep(d, j, kept, ItemEmission(d, j, kept));
  }

  lemma {:induction false} StreamStep(d: Buffer, j: nat, live: seq<Tag>, e: Emission)
    requires j < |d| && e == ItemEmission(d, j, live)
    ensures StreamFrom(d, j, live) == e.events + StreamFrom(d, j + 1, e.live)
  {
  }

  lemma {:induction false} BodyLive(d: Buffer, j: nat, kept: seq<Tag>)
    requires j < |d| && OpenTagsOk(kept, d[j].tags)
    ensures OpenTagsOk(Body(d, j, kept).live, d[j].tags)
  {
    AddedOk(kept, d[j].tags);
  }

  lemma {:induction false} InnerEmission(d: Buffer, j: nat, kept: seq<Tag>, body: Emission)
    requires j < |d| && Popped(kept, d[j].tags) == 0 && body == Body(d, j, kept)
    ensures ItemEmission(d, j, kept) ==
            if RunEnds(d, j) then
              Emission(body.events + OpenMarks(Missing(body.live, d[j].tags)),
                       Missing(body.live, d[j].tags) + body.live)
            else body
  {
    assert kept[0..] == kept && kept[..0] == [];
    var tail := RunTail(d, j, body.live);
    assert [] + (body.events + tail.events) == body.events + tail.events;
    assert body.events + [] == body.events;
  }

  lemma {:induction false} Associative(a: Stream, b: Stream, c: Stream)
    ensures a + (b + c) == (a + b) + c
    ensures [] + a == a && a + [] == a
  {
  }

  lemma {:induction false} Chained(whole: Stream, x: Stream, mid: Stream, y: Stream, xy: Stream, after: Stream)
    requires whole == x + mid && mid == y + after && xy == x + y
    ensures whole == xy + after
  {
  }

  lemma {:induction false} TailTextItems(d: Buffer, j: nat, e: nat, tags: set<Tag>, kept: seq<Tag>, t: Emission,
                                         whole: Stream, after: Stream)
    requires RestOfRun(d, j, e, tags) && j < e && NoImage(d, j, e) && !ListTagged(tags)
    requires OpenTagsOk(kept, tags) && t == TailText(d, j, e, tags, kept)
    requires whole == StreamFrom(d, j, kept) && after == StreamFrom(d, e, t.live)
    ensures whole == t.events + after
    decreases e - j, 1
  {
    var body := Body(d, j, kept);
    var rest := TailText(d, j + 1, e, tags, body.live);
    TailTextStep(d, j, e, tags, kept, body, rest);
    if j + 1 < e {
      TailTextMiddle(d, j, e, tags, kept, t, body, rest, whole, after);
    } else {
      LastItem(d, j, e, tags, kept, body, rest);
    }
  }

  lemma {:induction false} TailTextMiddle(d: Buffer, j: nat, e: nat, tags: set<Tag>, kept: seq<Tag>, t: Emission,
                                          body: Emission, rest: Emission, whole: Stream, after: Stream)
    requires RestOfRun(d, j, e, tags) && j + 1 < e && NoImage(d, j, e) && !ListTagged(tags)
    requires OpenTagsOk(kept, tags) && body == Body(d, j, kept)
    requires rest == TailText(d, j + 1, e, tags, body.live) && t == Emission(body.events + rest.events, rest.live)
    requires whole == StreamFrom(d, j, kept) && after == StreamFrom(d, e, t.live)
    ensures whole == t.events + after
    decreases e - j, 0
  {
    MiddleItem(d, j, e, tags, kept, body);
    var mid := StreamFrom(d, j + 1, body.live);
    TailTextItems(d, j + 1, e, tags, body.live, rest, mid, after);
    Chained(whole, body.events, mid, rest.events, t.events, after);
  }

  lemma {:induction false} TailTextStep(d: Buffer, j: nat, e: nat, tags: set<Tag>, kept: seq<Tag>,
                                        body: Emission, rest: Emission)
    requires RestOfRun(d, j, e, tags) && j < e && NoImage(d, j, e) && !ListTagged(tags)
    requires body == Body(d, j, kept) && rest == TailText(d, j + 1, e, tags, body.live)
    ensures TailText(d, j, e, tags, kept) == Emission(body.events + rest.events, rest.live)
  {
    NoImageAhead(d, j, e, tags);
  }

  /** List-tagged text is passed over. */
  lemma {:induction false} HiddenStep(d: Buffer, j: nat, e: nat, tags: set<Tag>, kept: seq<Tag>)
    requires RestOfRun(d, j, e, tags) && j + 1 < e && NoImage(d, j, e) && ListTagged(tags)
    requires OpenTagsOk(kept, tags)
    ensures StreamFrom(d, j, kept) == StreamFrom(d, j + 1, kept)
  {
    NoImageAhead(d, j, e, tags);
    MiddleItem(d, j, e, tags, kept, Emission([], kept));
    Associative(StreamFrom(d, j + 1, kept), [], []);
  }

  lemma {:induction false} HiddenItems(d: Buffer, j: nat, e: nat, tags: set<Tag>, kept: seq<Tag>, last: nat,
                                       whole: Stream, end: Stream)
    requires RestOfRun(d, j, e, tags) && j <= last && last + 1 == e && NoImage(d, j, e) && ListTagged(tags)
    requires OpenTagsOk(kept, tags) && whole == StreamFrom(d, j, kept) && end == StreamFrom(d, last, kept)
    ensures whole == end
    decreases last - j
  {
    if j < last {
      HiddenStep(d, j, e, tags, kept);
      HiddenItems(d, j + 1, e, tags, kept, last, StreamFrom(d, j + 1, kept), end);
    }
  }

  /** At its end the missing tags are opened. */
  lemma {:induction false} HiddenLast(d: Buffer, j: nat, e: nat, tags: set<Tag>, kept: seq<Tag>, t: Emission)
    requires RestOfRun(d, j, e, tags) && j + 1 == e && NoImage(d, j, e) && ListTagged(tags)
    requires OpenTagsOk(kept, tags) && t == TailText(d, e, e, tags, kept)
    ensures StreamFrom(d, j, kept) == t.events + StreamFrom(d, e, t.live)
  {
    NoImageAhead(d, j, e, tags);
    LastItem(d, j, e, tags, kept, Emission([], kept), t);
    Associative(t.events, [], []);
  }

  lemma {:induction false} HiddenTail(d: Buffer, m: nat, e: nat, tags: set<Tag>, kept: seq<Tag>, t: Emission,
                                      whole: Stream, after: Stream, last: nat)
    requires RestOfRun(d, m, e, tags) && m < e && NoImage(d, m, e) && OpenTagsOk(kept, tags) && ListTagged(tags)
    requires t == Tail(d, m, e, tags, kept) && last == e - 1
    requires whole == StreamFrom(d, m, kept) && after == StreamFrom(d, e, t.live)
    ensures whole == t.events + after
  {
    HiddenItems(d, m, e, tags, kept, last, whole, StreamFrom(d, last, kept));
    HiddenLast(d, last, e, tags, kept, t);
  }

  lemma {:induction false} TailItems(d: Buffer, m: nat, e: nat, tags: set<Tag>, kept: seq<Tag>, t: Emission,
                                     whole: Stream, after: Stream)
    requires RestOfRun(d, m, e, tags) && m < e && NoImage(d, m, e) && OpenTagsOk(kept, tags)
    requires t == Tail(d, m, e, tags, kept)
    requires whole == StreamFrom(d, m, kept) && after == StreamFrom(d, e, t.live)
    ensures whole == t.events + after
  {
    if ListTagged(tags) {
      HiddenTail(d, m, e, tags, kept, t, whole, after, e - 1);
    } else {
      TailTextItems(d, m, e, tags, kept, t, whole, after);
    }
  }

  lemma {:induction false} RawStep(d: Buffer, k: nat, m: nat, kept: seq<Tag>, body: Emission)
    requires k < m <= |d| && ImageAhead(d, k) && body == Body(d, k, kept)
    ensures body.live == kept && RawStream(d, k, m) == body.events + RawStream(d, k + 1, m)
  {
  }

  /** The items up to the last image of a run. */
  lemma {:induction false} RawItems(d: Buffer, k: nat, m: nat, e: nat, tags: set<Tag>, kept: seq<Tag>, t: Emission,
                                    whole: Stream, after: Stream)
    requires RestOfRun(d, k, e, tags) && k < m <= e && !d[m-1].glyph.Chr? && NoImage(d, m, e)
    requires OpenTagsOk(kept, tags) && t == Tail(d, m, e, tags, kept)
    requires whole == StreamFrom(d, k, kept) && after == StreamFrom(d, e, t.live)
    ensures whole == RawStream(d, k, m) + (t.events + after)
    decreases m - k
  {
    ImageComes(d, k, m, e, tags);
    var body := Body(d, k, kept);
    RawStep(d, k, m, kept, body);
    Associative(body.events, RawStream(d, k + 1, m), t.events + after);
    Associative(body.events, t.events, after);
    Associative(body.events, [], []);
    if k + 1 < m {
      MiddleItem(d, k, e, tags, kept, body);
      RawItems(d, k + 1, m, e, tags, kept, t, StreamFrom(d, k + 1, kept), after);
    } else if m < e {
      MiddleItem(d, k, e, tags, kept, body);
      TailItems(d, m, e, tags, kept, t, StreamFrom(d, m, kept), after);
    } else {
      LastItem(d, k, e, tags, kept, body, t);
    }
  }

  /** The first item of a run closes what has to be closed. */
  lemma {:induction false} FirstItem(d: Buffer, r: nat, live: seq<Tag>)
    requires r < |d| && Distinct(live)
    ensures var n := Popped(live, d[r].tags);
            StreamFrom(d, r, live) == CloseMarks(live[..n]) + StreamFrom(d, r, live[n..])
  {
    var n := Popped(live, d[r].tags);
    var kept := live[n..];
    KeptOk(d, r, live);
    NothingPopped(kept, d[r].tags);
    var body := Body(d, r, kept);
    InnerEmission(d, r, kept, body);
    var once := ItemEmission(d, r, live);
    var later := ItemEmission(d, r, kept);
    FirstEmission(d, r, live, n, body);
    assert StreamFrom(d, r, live) == once.events + StreamFrom(d, r + 1, once.live);
    assert StreamFrom(d, r, kept) == later.events + StreamFrom(d, r + 1, later.live);
    assert (CloseMarks(live[..n]) + later.events) + StreamFrom(d, r + 1, later.live)
        == CloseMarks(live[..n]) + (later.events + StreamFrom(d, r + 1, later.live));
  }

  lemma {:induction false} FirstEmission(d: Buffer, r: nat, live: seq<Tag>, n: nat, body: Emission)
    requires r < |d| && n == Popped(live, d[r].tags) && body == Body(d, r, live[n..])
    requires Popped(live[n..], d[r].tags) == 0
    ensures var later := ItemEmission(d, r, live[n..]);
            ItemEmission(d, r, live) == Emission(CloseMarks(live[..n]) + later.events, later.live)
  {
    var kept := live[n..];
    assert kept[0..] == kept && kept[..0] == [];
    var events := body.events + RunTail(d, r, body.live).events;
    assert [] + events == events;
  }

  /** A whole run: `m` is just after its last image, or its start. */
  lemma {:induction false} RunItems(d: Buffer, r: nat, m: nat, e: nat, tags: set<Tag>, live: seq<Tag>)
    requires RestOfRun(d, r, e, tags) && r < e && r <= m <= e && NoImage(d, m, e)
    requires m == r || !d[m-1].glyph.Chr?
    requires Distinct(live)
    ensures var n := Popped(live, tags);
            var t := Tail(d, m, e, tags, live[n..]);
            StreamFrom(d, r, live) ==
            CloseMarks(live[..n]) + (RawStream(d, r, m) + (t.events + StreamFrom(d, e, t.live)))
  {
    var n := Popped(live, tags);
    var kept := live[n..];
    KeptOk(d, r, live);
    FirstItem(d, r, live);
    var t := Tail(d, m, e, tags, kept);
    var whole, after := StreamFrom(d, r, kept), StreamFrom(d, e, t.live);
    if m == r {
      TailItems(d, m, e, tags, kept, t, whole, after);
      Associative(t.events + after, [], []);
    } else {
      RawItems(d, r, m, e, tags, kept, t, whole, after);
    }
  }
  // ----- the loops -----

  /** Closes the tags up to the deepest one that is not in `tags` any more. */
  method CloseTags(codec: Codec, text0: string, live0: seq<Tag>, tags: set<Tag>)
    returns (text: string, live: seq<Tag>)
    ensures var n := Popped(live0, tags);
            text == text0 + Text(codec, CloseMarks(live0[..n])) && live == live0[n..]
  {
    PoppedFacts(live0, tags);
    ghost var n := Popped(live0, tags);
    var dlist := |live0|;
    while dlist > 0 && live0[dlist-1] in tags
      invariant n <= dlist <= |live0|
    {
      dlist := dlist - 1;
    }
    assert dlist == n;
    text, live := text0, live0;
    var i := 0;
    while i < dlist
      invariant 0 <= i <= dlist
      invariant live == live0[i..]
      invariant text + Text(codec, CloseMarks(live0[i..n])) == text0 + Text(codec, CloseMarks(live0[..n]))
    {
      CloseOneMore(codec, live0, i, n, text);
      text := text + MarkText(live[0], false);
      live := live[1..];
      i := i + 1;
    }
  }

  lemma {:induction false} CloseOneMore(codec: Codec, live: seq<Tag>, i: nat, n: nat, text: string)
    requires i < n <= |live|
    ensures text + Text(codec, CloseMarks(live[i..n]))
            == (text + MarkText(live[i], false)) + Text(codec, CloseMarks(live[i+1..n]))
  {
    assert live[i..n][1..] == live[i+1..n];
    assert CloseMarks(live[i..n])[1..] == CloseMarks(live[i+1..n]);
    Joined(text, MarkText(live[i], false), Text(codec, CloseMarks(live[i+1..n])));
  }

  /** Opens the tags of `list` that are not open yet. */
  method OpenTags(codec: Codec, text0: string, live0: seq<Tag>, list: seq<Tag>)
    returns (text: string, live: seq<Tag>)
    ensures text == text0 + Text(codec, OpenMarks(Added(live0, list))) && live == Added(live0, list) + live0
  {
    text, live := text0, live0;
    var i := 0;
    while i < |list|
      invariant 0 <= i <= |list|
      invariant Added(live0, list) + live0 == Added(live, list[i..]) + live
      invariant text + Text(codec, OpenMarks(Added(live, list[i..]))) == text0 + Text(codec, OpenMarks(Added(live0, list)))
    {
      assert list[i..][1..] == list[i+1..];
      if list[i] !in live {
        OpenOne(codec, live, list[i..]);
        text := text + MarkText(list[i], true);
        live := [list[i]] + live;
      }
      i := i + 1;
    }
  }

  /** The tag met first is opened first. */
  lemma {:induction false} OpenOne(codec: Codec, live: seq<Tag>, list: seq<Tag>)
    requires list != [] && list[0] !in live
    ensures var live' := [list[0]] + live;
            && Added(live, list) + live == Added(live', list[1..]) + live'
            && Text(codec, OpenMarks(Added(live, list))) ==
               MarkText(list[0], true) + Text(codec, OpenMarks(Added(live', list[1..])))
  {
    var live' := [list[0]] + live;
    var rest := Added(live', list[1..]);
    assert Added(live, list) == rest + [list[0]];
    OpenMarksConcat(rest, [list[0]]);
    OpenMarksSingle(list[0]);
    TextConcat(codec, [Open(list[0])], OpenMarks(rest));
    TextSingle(codec, Open(list[0]));
  }

  lemma {:induction false} OpenMarksSingle(t: Tag)
    ensures OpenMarks([t]) == [Open(t)]
  {
    assert [t][1..] == [];
  }

  lemma {:induction false} TextSingle(codec: Codec, e: Event)
    ensures Text(codec, [e]) == EventText(codec, e)
  {
    assert [e][1..] == [];
    assert EventText(codec, e) + "" == EventText(codec, e);
  }

  lemma {:induction false} OpenMarksConcat(ts: seq<Tag>, us: seq<Tag>)
    ensures OpenMarks(ts + us) == OpenMarks(us) + OpenMarks(ts)
  {
    if ts == [] {
      assert ts + us == us;
    } else {
      assert (ts + us)[1..] == ts[1..] + us;
      OpenMarksConcat(ts[1..], us);
    }
  }

  /** Closes all open tags without forgetting them. */
  method CloseAll(codec: Codec, text0: string, live: seq<Tag>) returns (text: string)
    ensures text == text0 + Text(codec, CloseMarks(live))
  {
    text := text0;
    var i := 0;
    while i < |live|
      invariant 0 <= i <= |live|
      invariant text + Text(codec, CloseMarks(live[i..])) == text0 + Text(codec, CloseMarks(live))
    {
      assert live[i..][1..] == live[i+1..];
      assert CloseMarks(live[i..])[1..] == CloseMarks(live[i+1..]);
      text := text + MarkText(live[i], false);
      i := i + 1;
    }
  }

  /** Opens them again, the one opened first being the first. */
  method ReopenAll(codec: Codec, text0: string, live: seq<Tag>) returns (text: string)
    ensures text == text0 + Text(codec, OpenMarks(live))
  {
    text := text0;
    var i := |live|;
    assert live[i..] == [];
    while i > 0
      invariant 0 <= i <= |live|
      invariant text == text0 + Text(codec, OpenMarks(live[i..]))
    {
      i := i - 1;
      assert live[i..][1..] == live[i+1..];
      TextConcat(codec, OpenMarks(live[i+1..]), [Open(live[i])]);
      TextSingle(codec, Open(live[i]));
      text := text + MarkText(live[i], true);
    }
    assert live[0..] == live;
  }

  /** What has been written of the run that starts at `start`, up to `to`. */
  ghost predicate WrittenTo(codec: Codec, d: Buffer, start: nat, to: nat, text0: string, text: string) {
    start <= to <= |d| && text == text0 + Text(codec, RawStream(d, start, to))
  }

  /** Writes the text before the image at `iter` and, unless it is a bullet, the image. */
  method PassImage(codec: Codec, d: Buffer, ghost start: nat, oldIter: nat, iter: nat, text1: string,
                   ghost text0: string) returns (text: string, next: nat)
    requires oldIter <= iter < |d| && NoImage(d, oldIter, iter) && !d[iter].glyph.Chr?
    requires WrittenTo(codec, d, start, oldIter, text0, text1)
    ensures next == iter + 1 && WrittenTo(codec, d, start, next, text0, text)
  {
    var slice := Characters(d[oldIter..iter]);
    var image := EncodedImage(codec, d[iter].glyph);
    text := text1 + (slice + image);
    RawText(codec, d, start, oldIter, iter);
    Joined(text0, Text(codec, RawStream(d, start, oldIter)), slice + image);
    next := iter + 1;
  }

  lemma {:induction false} Joined(a: string, b: string, c: string)
    ensures (a + b) + c == a + (b + c)
  {
  }

  method EncodedImage(codec: Codec, g: Glyph) returns (text: string)
    ensures text == ImageText(codec, g)
  {
    text := "";
    if g.Picture? {
      var data := Base64.AddNewlines(codec.encode(g.pixbuf));
      text := "[[[" + data + "]]]";
    }
  }

  /** Where the scan of a run stands: nothing but text since `oldIter`, which is the start of the
      run or follows an image, and all of the run before it is written. */
  ghost predicate Scanned(codec: Codec, d: Buffer, start: nat, oldIter: nat, iter: nat, text0: string, text: string) {
    && start <= oldIter <= iter <= |d|
    && NoImage(d, oldIter, iter)
    && (oldIter == start || !d[oldIter-1].glyph.Chr?)
    && WrittenTo(codec, d, start, oldIter, text0, text)
  }

  /** Where one turn of the scan leads: past an item, unless it is a U+FFFC character that stands for
      no image. */
  function ScanMove(d: Buffer, iter: nat): (next: nat)
    requires iter < |d|
    ensures iter <= next <= |d|
  {
    if BareObject(d[iter]) then iter else iter + 1
  }

  /** One turn of the scan. */
  method ScanItem(codec: Codec, d: Buffer, ghost start: nat, oldIter1: nat, iter1: nat, text1: string,
                  ghost text0: string) returns (text: string, oldIter: nat, iter: nat)
    requires Scanned(codec, d, start, oldIter1, iter1, text0, text1) && iter1 < |d|
    ensures iter == ScanMove(d, iter1) && Scanned(codec, d, start, oldIter, iter, text0, text)
  {
    text, oldIter, iter := text1, oldIter1, iter1;
    if !d[iter1].glyph.Chr? {
      text, iter := PassImage(codec, d, start, oldIter1, iter1, text1, text0);
      oldIter := iter;
    } else if !BareObject(d[iter1]) {
      iter := iter1 + 1;
    }
  }

  /** Goes to the end of the run, writing what comes before each image and each picture on the
      way; `oldIter` ends up after the run's last image. */
  method ScanRun(codec: Codec, d: Buffer, start: nat, text0: string)
    returns (text: string, oldIter: nat, iter: nat)
    requires start < |d| && NoBareObject(d)
    ensures start < iter && Scanned(codec, d, start, oldIter, iter, text0, text)
    ensures RestOfRun(d, start, iter, d[start].tags)
  {
    text, oldIter, iter := text0, start, start;
    NothingWritten(codec, d, start, text0);
    text, oldIter, iter := ScanItem(codec, d, start, oldIter, iter, text, text0);
    text, oldIter, iter := ScanRest(codec, d, start, oldIter, iter, text, text0, d[start].tags);
  }

  method ScanRest(codec: Codec, d: Buffer, ghost start: nat, oldIter1: nat, iter1: nat, text1: string,
                  ghost text0: string, ghost tags: set<Tag>)
    returns (text: string, oldIter: nat, iter: nat)
    requires NoBareObject(d) && start + 1 == iter1 <= |d| && d[start].tags == tags
    requires Scanned(codec, d, start, oldIter1, iter1, text0, text1)
    ensures start < iter && Scanned(codec, d, start, oldIter, iter, text0, text)
    ensures RestOfRun(d, start, iter, tags)
  {
    text, oldIter, iter := text1, oldIter1, iter1;
    while iter < |d| && d[iter].tags == d[iter-1].tags
      invariant start < iter <= |d| && Scanned(codec, d, start, oldIter, iter, text0, text)
      invariant SameTags(d, start, iter, tags)
    {
      RunGoesOn(d, start, iter, tags);
      text, oldIter, iter := ScanItem(codec, d, start, oldIter, iter, text, text0);
    }
    RunIsOver(d, start, iter, tags);
  }

  predicate SameTags(d: Buffer, start: nat, iter: nat, tags: set<Tag>)
    requires start <= iter <= |d|
  {
    forall k :: start <= k < iter ==> d[k].tags == tags
  }

  lemma {:induction false} RunGoesOn(d: Buffer, start: nat, iter: nat, tags: set<Tag>)
    requires start < iter < |d| && SameTags(d, start, iter, tags) && d[iter].tags == d[iter-1].tags
    ensures SameTags(d, start, iter + 1, tags)
  {
  }

  lemma {:induction false} RunIsOver(d: Buffer, start: nat, iter: nat, tags: set<Tag>)
    requires start < iter <= |d| && SameTags(d, start, iter, tags)
    requires iter < |d| ==> d[iter].tags != d[iter-1].tags
    ensures RestOfRun(d, start, iter, tags)
  {
  }

  lemma {:induction false} NothingWritten(codec: Codec, d: Buffer, start: nat, text0: string)
    requires start <= |d|
    ensures WrittenTo(codec, d, start, start, text0, text0)
  {
    assert RawStream(d, start, start) == [];
    assert text0 + "" == text0;
  }

  function ImageText(codec: Codec, g: Glyph): string {
    if g.Picture? then PictureText(codec, g.pixbuf) else ""
  }

  /** The text up to an image, and the image. */
  lemma {:induction false} RawText(codec: Codec, d: Buffer, start: nat, lo: nat, hi: nat)
    requires start <= lo <= hi < |d| && NoImage(d, lo, hi) && !d[hi].glyph.Chr?
    ensures Text(codec, RawStream(d, start, hi + 1)) ==
            Text(codec, RawStream(d, start, lo)) + (Characters(d[lo..hi]) + ImageText(codec, d[hi].glyph))
  {
    var before, between, image := RawStream(d, start, lo), RawStream(d, lo, hi), RawStream(d, hi, hi + 1);
    RawStreamConcat(d, start, lo, hi + 1);
    RawStreamConcat(d, lo, hi, hi + 1);
    RawCharacters(codec, d, lo, hi);
    RawImage(codec, d, hi);
    TextConcat(codec, before, between + image);
    TextConcat(codec, between, image);
  }

  lemma {:induction false} RawImage(codec: Codec, d: Buffer, hi: nat)
    requires hi < |d| && !d[hi].glyph.Chr?
    ensures Text(codec, RawStream(d, hi, hi + 1)) == ImageText(codec, d[hi].glyph)
  {
    var image := ImageEvents(d[hi].glyph);
    assert RawStream(d, hi + 1, hi + 1) == [];
    assert RawStream(d, hi, hi + 1) == image;
    if d[hi].glyph.Picture? {
      TextSingle(codec, Image(d[hi].glyph.pixbuf));
    }
  }

  lemma {:induction false} RawStreamConcat(d: Buffer, lo: nat, mid: nat, hi: nat)
    requires lo <= mid <= hi <= |d|
    ensures RawStream(d, lo, hi) == RawStream(d, lo, mid) + RawStream(d, mid, hi)
    decreases mid - lo
  {
    if lo < mid {
      RawStreamConcat(d, lo + 1, mid, hi);
    }
  }

  lemma {:induction false} RawCharacters(codec: Codec, d: Buffer, lo: nat, hi: nat)
    requires lo <= hi <= |d| && NoImage(d, lo, hi)
    ensures Text(codec, RawStream(d, lo, hi)) == Characters(d[lo..hi])
    decreases hi - lo
  {
    if lo < hi {
      RawCharacters(codec, d, lo, hi - 1);
      RawStreamConcat(d, lo, hi - 1, hi);
      assert RawStream(d, hi, hi) == [];
      var c := d[hi-1].glyph.c;
      assert RawStream(d, hi - 1, hi) == [Put(c)];
      TextConcat(codec, RawStream(d, lo, hi - 1), [Put(c)]);
      TextSingle(codec, Put(c));
      assert d[lo..hi][..hi-lo-1] == d[lo..hi-1];
    }
  }
  /** Text `text` is `text0` followed by `es` as written. */
  ghost predicate Appended(codec: Codec, text0: string, es: Stream, text: string) {
    text == text0 + Text(codec, es)
  }

  lemma {:induction false} AppendedThen(codec: Codec, text0: string, es: Stream, text1: string, fs: Stream, text: string)
    requires Appended(codec, text0, es, text1) && Appended(codec, text1, fs, text)
    ensures Appended(codec, text0, es + fs, text)
  {
    TextConcat(codec, es, fs);
    Joined(text0, Text(codec, es), Text(codec, fs));
  }

  lemma {:induction false} AppendedNothing(codec: Codec, text: string)
    ensures Appended(codec, text, [], text)
  {
    assert text + "" == text;
  }

  lemma {:induction false} AppendedCharacter(codec: Codec, text: string, c: char)
    ensures Appended(codec, text, [Put(c)], text + [c])
  {
    TextSingle(codec, Put(c));
  }

  /** Closes all tags, writes the newline, opens the tags again. */
  method WriteNewline(codec: Codec, text0: string, live: seq<Tag>) returns (text: string)
    ensures Appended(codec, text0, CloseMarks(live) + ([Put('\n')] + OpenMarks(live)), text)
  {
    var text1 := CloseAll(codec, text0, live);
    var text2 := text1 + "\n";
    text := ReopenAll(codec, text2, live);
    AppendedCharacter(codec, text1, '\n');
    AppendedThen(codec, text1, [Put('\n')], text2, OpenMarks(live), text);
    AppendedThen(codec, text0, CloseMarks(live), text1, [Put('\n')] + OpenMarks(live), text);
  }

  /** Opens the missing tags, if that is still to be done, and writes the character. */
  method WriteCharacter(codec: Codec, text0: string, live0: seq<Tag>, tags: set<Tag>, c: char, needs: bool)
    returns (text: string, live: seq<Tag>)
    requires OpenTagsOk(live0, tags) && (!needs ==> TagSet(live0) == tags)
    ensures Appended(codec, text0, OpenMarks(Missing(live0, tags)) + [Put(c)], text)
    ensures live == Missing(live0, tags) + live0
    ensures OpenTagsOk(live, tags) && TagSet(live) == tags
  {
    AddedOk(live0, tags);
    var text1;
    if needs {
      text1, live := OpenTags(codec, text0, live0, TagsInOrder(tags));
    } else {
      text1, live := text0, live0;
      AllAdded(live0, tags);
      AppendedNothing(codec, text0);
    }
    text := text1 + [c];
    AppendedCharacter(codec, text1, c);
    AppendedThen(codec, text0, OpenMarks(Missing(live0, tags)), text1, [Put(c)], text);
  }

  /** What the character `c` adds to the text after the last image, and the tags open after it. */
  ghost function OneCharacter(live: seq<Tag>, tags: set<Tag>, c: char): Emission {
    if c == '\n' then Emission(CloseMarks(live) + ([Put('\n')] + OpenMarks(live)), live)
    else Emission(OpenMarks(Missing(live, tags)) + [Put(c)], Missing(live, tags) + live)
  }

  /** The text `t` after the last image is `es` and then items `j..e`. */
  ghost predicate StillToCome(d: Buffer, j: nat, e: nat, tags: set<Tag>, live: seq<Tag>, es: Stream, t: Emission) {
    j <= e <= |d| && t == Emission(es + TailText(d, j, e, tags, live).events, TailText(d, j, e, tags, live).live)
  }

  lemma {:induction false} OneMoreItem(d: Buffer, j: nat, e: nat, tags: set<Tag>, live: seq<Tag>, es: Stream, t: Emission,
                                       one: Emission)
    requires j < e <= |d| && d[j].glyph.Chr? && StillToCome(d, j, e, tags, live, es, t)
    requires one == OneCharacter(live, tags, d[j].glyph.c)
    ensures StillToCome(d, j + 1, e, tags, one.live, es + one.events, t)
  {
    var rest := TailText(d, j + 1, e, tags, one.live);
    Associative(es, one.events, rest.events);
  }

  /** Writes one character of the text after the last image. */
  method WriteItem(codec: Codec, text0: string, live0: seq<Tag>, tags: set<Tag>, c: char, needs: bool)
    returns (text: string, live: seq<Tag>, still: bool)
    requires OpenTagsOk(live0, tags) && (!needs ==> TagSet(live0) == tags)
    ensures Appended(codec, text0, OneCharacter(live0, tags, c).events, text) && live == OneCharacter(live0, tags, c).live
    ensures OpenTagsOk(live, tags) && (!still ==> TagSet(live) == tags)
  {
    text, live, still := text0, live0, needs;
    if c != '\n' {
      text, live := WriteCharacter(codec, text0, live0, tags, c, needs);
      still := false;
    } else {
      text := WriteNewline(codec, text0, live0);
    }
  }

  /** At the end of a run the tags still missing are opened. */
  method OpenStillMissing(codec: Codec, text0: string, live0: seq<Tag>, tags: set<Tag>, needs: bool)
    returns (text: string, live: seq<Tag>)
    requires OpenTagsOk(live0, tags) && (!needs ==> TagSet(live0) == tags)
    ensures Appended(codec, text0, OpenMarks(Missing(live0, tags)), text)
    ensures live == Missing(live0, tags) + live0 && OpenTagsOk(live, tags)
  {
    text, live := text0, live0;
    AddedOk(live0, tags);
    if needs {
      text, live := OpenTags(codec, text0, live0, TagsInOrder(tags));
    } else {
      AllAdded(live0, tags);
      AppendedNothing(codec, text0);
    }
  }

  /** The text after the last image of a run, then the tags still missing. */
  method WriteTail(codec: Codec, d: Buffer, from: nat, e: nat, text0: string, live0: seq<Tag>, tags: set<Tag>)
    returns (text: string, live: seq<Tag>)
    requires from <= e <= |d| && NoImage(d, from, e) && OpenTagsOk(live0, tags)
    ensures Appended(codec, text0, TailText(d, from, e, tags, live0).events, text)
    ensures live == TailText(d, from, e, tags, live0).live && OpenTagsOk(live, tags)
  {
    text, live := text0, live0;
    var tagsNeedReopened := true;
    var j := from;
    ghost var es: Stream := [];
    ghost var t := TailText(d, from, e, tags, live0);
    AppendedNothing(codec, text0);
    assert [] + t.events == t.events;
    while j < e
      invariant from <= j <= e
      invariant OpenTagsOk(live, tags) && (!tagsNeedReopened ==> TagSet(live) == tags)
      invariant Appended(codec, text0, es, text) && StillToCome(d, j, e, tags, live, es, t)
    {
      var c := d[j].glyph.c;
      ghost var one, text1 := OneCharacter(live, tags, c), text;
      OneMoreItem(d, j, e, tags, live, es, t, one);
      text, live, tagsNeedReopened := WriteItem(codec, text, live, tags, c, tagsNeedReopened);
      AppendedThen(codec, text0, es, text1, one.events, text);
      es := es + one.events;
      j := j + 1;
    }
    ghost var missing, text1 := OpenMarks(Missing(live, tags)), text;
    text, live := OpenStillMissing(codec, text, live, tags, tagsNeedReopened);
    AppendedThen(codec, text0, es, text1, missing, text);
  }

  /** One run. */
  method WriteRun(codec: Codec, d: Buffer, r: nat, text0: string, live0: seq<Tag>)
    returns (text: string, live: seq<Tag>, e: nat, ghost es: Stream)
    requires r < |d| && NoBareObject(d) && Distinct(live0)
    ensures r < e <= |d| && Distinct(live)
    ensures Appended(codec, text0, es, text)
    ensures StreamFrom(d, r, live0) == es + StreamFrom(d, e, live)
  {
    var tags := d[r].tags;
    ghost var n := Popped(live0, tags);
    var text1, kept := CloseTags(codec, text0, live0, tags);
    KeptOk(d, r, live0);
    var text2, m;
    text2, m, e := ScanRun(codec, d, r, text1);
    var from := if m < |d| && ListTagged(d[m].tags) then e else m;
    ghost var t := Tail(d, m, e, tags, kept);
    assert t == TailText(d, from, e, tags, kept);
    text, live := WriteTail(codec, d, from, e, text2, kept, tags);
    AppendedThen(codec, text1, RawStream(d, r, m), text2, t.events, text);
    AppendedThen(codec, text0, CloseMarks(live0[..n]), text1, RawStream(d, r, m) + t.events, text);
    es := CloseMarks(live0[..n]) + (RawStream(d, r, m) + t.events);
    RunItems(d, r, m, e, tags, live0);
    Regrouped(CloseMarks(live0[..n]), RawStream(d, r, m), t.events, StreamFrom(d, e, live));
  }

  lemma {:induction false} Regrouped(a: Stream, b: Stream, c: Stream, x: Stream)
    ensures a + (b + (c + x)) == (a + (b + c)) + x
  {
  }

  /** serialize_text. */
  method Serialize(codec: Codec, d: Buffer) returns (text: string)
    requires NoBareObject(d)
    ensures text == Serialized(codec, d)
  {
    text := "";
    var live: seq<Tag> := [];
    var iter := 0;
    ghost var es: Stream := [];
    AppendedNothing(codec, "");
    assert [] + StreamFrom(d, 0, []) == Written(d);
    while iter != |d|
      invariant iter <= |d| && Distinct(live)
      invariant Appended(codec, "", es, text)
      invariant es + StreamFrom(d, iter, live) == Written(d)
      decreases |d| - iter
    {
      ghost var es0, text0 := es, text;
      ghost var more;
      text, live, iter, more := WriteRun(codec, d, iter, text, live);
      AppendedThen(codec, "", es0, text0, more, text);
      Associative(es0, more, StreamFrom(d, iter, live));
      es := es0 + more;
    }
    ghost var text0 := text;
    text := CloseAll(codec, text, live);
    AppendedThen(codec, "", es, text0, CloseMarks(live), text);
  }
}
