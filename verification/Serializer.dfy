/** Writing a document as marked-up text: which marks go where. */
module Serializer {
  import opened RichText
  import opened Parser
  import opened Streams

  const CREATION_ORDER: seq<Tag> :=
    [List1, List2, Italic, Bold, Mono, Verbatim, Underline, Strike, Title1, Title2]

  function Chosen(order: seq<Tag>, tags: set<Tag>): seq<Tag>
    decreases |order|, tags
  {
    if order == [] then []
    else (if order[0] in tags then [order[0]] else []) + Chosen(order[1..], tags)
  }

  lemma {:induction false} ChosenFacts(order: seq<Tag>, tags: set<Tag>)
    ensures forall t :: t in Chosen(order, tags) <==> t in order && t in tags
  {
    if order != [] {
      ChosenFacts(order[1..], tags);
    }
  }

  /** gtk_text_iter_get_tags: the tags at a position, by creation order. */
  function TagsInOrder(tags: set<Tag>): seq<Tag> {
    Chosen(CREATION_ORDER, tags)
  }

  lemma {:induction false} TagsInOrderFacts(tags: set<Tag>)
    ensures forall t :: t in TagsInOrder(tags) <==> t in tags
  {
    ChosenFacts(CREATION_ORDER, tags);
    forall t ensures t in CREATION_ORDER {
      OrderComplete(t);
    }
  }

  /** How many tags have to be closed so that none outside `tags` is left open. */
  function Popped(live: seq<Tag>, tags: set<Tag>): (n: nat)
    ensures n <= |live|
  {
    if live == [] then 0
    else
      var n := Popped(live[1..], tags);
      if n > 0 then n + 1 else if live[0] !in tags then 1 else 0
  }

  lemma {:induction false} PoppedFacts(live: seq<Tag>, tags: set<Tag>)
    ensures var n := Popped(live, tags);
            && (forall k :: n <= k < |live| ==> live[k] in tags)
            && (n > 0 ==> live[n-1] !in tags)
  {
    if live != [] {
      PoppedFacts(live[1..], tags);
    }
  }

  /** The tags of `list` that are not open yet, as they will lie on the stack. */
  function Added(live: seq<Tag>, list: seq<Tag>): seq<Tag>
    decreases |list|
  {
    if list == [] then []
    else if list[0] in live then Added(live, list[1..])
    else Added([list[0]] + live, list[1..]) + [list[0]]
  }

  lemma {:induction false} AddedFacts(live: seq<Tag>, list: seq<Tag>)
    ensures forall t :: t in Added(live, list) <==> t in list && t !in live
    decreases |list|
  {
    if list != [] {
      if list[0] in live {
        AddedFacts(live, list[1..]);
      } else {
        AddedFacts([list[0]] + live, list[1..]);
      }
    }
  }

  lemma {:induction false} AddedDistinct(live: seq<Tag>, list: seq<Tag>)
    requires Distinct(live)
    ensures Distinct(Added(live, list) + live)
    decreases |list|
  {
    if list == [] {
      assert Added(live, list) + live == live;
    } else if list[0] in live {
      AddedDistinct(live, list[1..]);
    } else {
      var live' := [list[0]] + live;
      assert live'[1..] == live;
      AddedDistinct(live', list[1..]);
      assert Added(live, list) + live == Added(live', list[1..]) + live';
    }
  }

  lemma {:induction false} DistinctDrop(ts: seq<Tag>, n: nat)
    requires Distinct(ts) && n <= |ts|
    ensures Distinct(ts[n..])
  {
    if n > 0 {
      DistinctDrop(ts[1..], n - 1);
      assert ts[1..][n-1..] == ts[n..];
    } else {
      assert ts[0..] == ts;
    }
  }

  lemma {:induction false} OrderComplete(t: Tag)
    ensures t in CREATION_ORDER
  {
    var i := match t
      case List1 => 0 case List2 => 1 case Italic => 2 case Bold => 3 case Mono => 4
      case Verbatim => 5 case Underline => 6 case Strike => 7 case Title1 => 8 case Title2 => 9;
    assert CREATION_ORDER[i] == t;
  }

  // ----- runs -----

  /** Whether a tag starts or stops after item `i`, or the document does. */
  predicate RunEnds(d: Buffer, i: nat)
    requires i < |d|
  {
    i + 1 == |d| || d[i+1].tags != d[i].tags
  }

  /** Whether an image comes at `i` or later in the same run. */
  predicate ImageAhead(d: Buffer, i: nat)
    requires i < |d|
    decreases |d| - i
  {
    !d[i].glyph.Chr? || (!RunEnds(d, i) && ImageAhead(d, i + 1))
  }

  /** Text whose tags include a list tag is not written, unless an image follows it in its run. */
  predicate Hidden(d: Buffer, i: nat)
    requires i < |d|
  {
    d[i].glyph.Chr? && ListTagged(d[i].tags) && !ImageAhead(d, i)
  }

  // ----- what each item contributes -----

  datatype Emission = Emission(events: Stream, live: seq<Tag>)

  function ImageEvents(g: Glyph): Stream {
    if g.Picture? then [Image(g.pixbuf)] else []
  }

  /** The item's own text, given the tags `kept` open from before.  A newline closes the open
      tags and opens them again; the first other character of a run opens its missing tags; text
      before an image opens nothing. */
  function Body(d: Buffer, i: nat, kept: seq<Tag>): Emission
    requires i < |d|
  {
    var added := Added(kept, TagsInOrder(d[i].tags));
    match d[i].glyph
    case Bullet(_) => Emission([], kept)
    case Picture(p) => Emission([Image(p)], kept)
    case Chr(c) =>
      if ImageAhead(d, i) then Emission([Put(c)], kept)
      else if Hidden(d, i) then Emission([], kept)
      else if c == '\n' then Emission(CloseMarks(kept) + ([Put(c)] + OpenMarks(kept)), kept)
      else Emission(OpenMarks(added) + [Put(c)], added + kept)
  }

  /** At the end of a run the tags still missing are opened. */
  function RunTail(d: Buffer, i: nat, kept: seq<Tag>): Emission
    requires i < |d|
  {
    if RunEnds(d, i) then
      var added := Added(kept, TagsInOrder(d[i].tags));
      Emission(OpenMarks(added), added + kept)
    else Emission([], kept)
  }

  function ItemEmission(d: Buffer, i: nat, live: seq<Tag>): Emission
    requires i < |d|
  {
    var n := Popped(live, d[i].tags);
    var body := Body(d, i, live[n..]);
    var tail := RunTail(d, i, body.live);
    Emission(CloseMarks(live[..n]) + (body.events + tail.events), tail.live)
  }

  function StreamFrom(d: Buffer, i: nat, live: seq<Tag>): Stream
    requires i <= |d|
    decreases |d| - i
  {
    if i == |d| then CloseMarks(live)
    else
      var e := ItemEmission(d, i, live);
      e.events + StreamFrom(d, i + 1, e.live)
  }

  /** The marks, characters and images written for the document `d`. */
  function Written(d: Buffer): Stream {
    StreamFrom(d, 0, [])
  }

  function Serialized(codec: Codec, d: Buffer): string {
    Text(codec, Written(d))
  }

  // ----- every document -----

  function VisibleItem(d: Buffer, i: nat): Stream
    requires i < |d|
  {
    match d[i].glyph
    case Chr(c) => if Hidden(d, i) then [] else [Put(c)]
    case Picture(p) => [Image(p)]
    case Bullet(_) => []
  }

  /** The characters and pictures of `d` from `i` on that are written. */
  function Visible(d: Buffer, i: nat): Stream
    requires i <= |d|
    decreases |d| - i
  {
    if i == |d| then [] else VisibleItem(d, i) + Visible(d, i + 1)
  }

  predicate OpenTagsOk(live: seq<Tag>, tags: set<Tag>) {
    Distinct(live) && forall t :: t in live ==> t in tags
  }

  /** Keeping what may stay open. */
  lemma {:induction false} KeptOk(d: Buffer, i: nat, live: seq<Tag>)
    requires i < |d| && Distinct(live)
    ensures OpenTagsOk(live[Popped(live, d[i].tags)..], d[i].tags)
  {
    DistinctDrop(live, Popped(live, d[i].tags));
    PoppedFacts(live, d[i].tags);
  }

  /** Opening what is missing leaves open exactly the tags of the item. */
  lemma {:induction false} AddedOk(kept: seq<Tag>, tags: set<Tag>)
    requires OpenTagsOk(kept, tags)
    ensures var added := Added(kept, TagsInOrder(tags));
            && OpenTagsOk(added + kept, tags)
            && TagSet(added + kept) == tags
  {
    var added := Added(kept, TagsInOrder(tags));
    AddedDistinct(kept, TagsInOrder(tags));
    AddedFacts(kept, TagsInOrder(tags));
    TagsInOrderFacts(tags);
    assert forall t :: t in added + kept <==> t in tags;
  }

  /** What the item's own text stands for when it is read back. */
  function BodyMeaning(d: Buffer, i: nat, kept: seq<Tag>): Buffer
    requires i < |d|
  {
    var added := Added(kept, TagsInOrder(d[i].tags));
    match d[i].glyph
    case Bullet(_) => []
    case Picture(p) => [Item(Picture(p), TagSet(kept))]
    case Chr(c) =>
      if ImageAhead(d, i) then [Item(Chr(c), TagSet(kept))]
      else if Hidden(d, i) then []
      else if c == '\n' then [Item(Chr(c), {})] + BulletsOf(kept)
      else BulletsOf(added) + [Item(Chr(c), TagSet(added + kept))]
  }

  function TailMeaning(d: Buffer, i: nat, kept: seq<Tag>): Buffer
    requires i < |d|
  {
    if RunEnds(d, i) then BulletsOf(Added(kept, TagsInOrder(d[i].tags))) else []
  }

  lemma {:induction false} NewlineYields(kept: seq<Tag>, byLine: bool)
    requires Distinct(kept)
    ensures Yields(kept, CloseMarks(kept) + ([Put('\n')] + OpenMarks(kept)), kept,
                   [Item(Chr('\n'), {})] + BulletsOf(kept), [Put('\n')], byLine)
  {
    assert kept + [] == kept;
    CloseMarksYield(kept, [], byLine);
    OneYields([], Put('\n'), byLine);
    OpenMarksYield(kept, [], byLine);
    var item := [Item(Chr('\n'), {})];
    assert TagSet([]) == {};
    YieldsConcat([], [Put('\n')], [], item, [Put('\n')], OpenMarks(kept), kept, BulletsOf(kept), [], byLine);
    assert [Put('\n')] + [] == [Put('\n')];
    YieldsConcat(kept, CloseMarks(kept), [], [], [], [Put('\n')] + OpenMarks(kept), kept,
                 item + BulletsOf(kept), [Put('\n')], byLine);
    assert [] + (item + BulletsOf(kept)) == item + BulletsOf(kept);
    assert [] + [Put('\n')] == [Put('\n')];
  }

  lemma {:induction false} CharacterYields(kept: seq<Tag>, added: seq<Tag>, c: char, byLine: bool)
    requires Distinct(added + kept) && c != '\n'
    ensures Yields(kept, OpenMarks(added) + [Put(c)], added + kept,
                   BulletsOf(added) + [Item(Chr(c), TagSet(added + kept))], [Put(c)], byLine)
  {
    OpenMarksYield(added, kept, byLine);
    OneYields(added + kept, Put(c), byLine);
    YieldsConcat(kept, OpenMarks(added), added + kept, BulletsOf(added), [],
                 [Put(c)], added + kept, [Item(Chr(c), TagSet(added + kept))], [Put(c)], byLine);
    assert [] + [Put(c)] == [Put(c)];
  }

  /** A newline written without closing the open tags. */
  predicate RawNewline(d: Buffer, i: nat, kept: seq<Tag>)
    requires i < |d|
  {
    d[i].glyph == Chr('\n') && ImageAhead(d, i) && kept != []
  }

  lemma {:induction false} BodyYields(d: Buffer, i: nat, kept: seq<Tag>, byLine: bool)
    requires i < |d| && OpenTagsOk(kept, d[i].tags)
    requires byLine ==> !RawNewline(d, i, kept)
    ensures var body := Body(d, i, kept);
            && Yields(kept, body.events, body.live, BodyMeaning(d, i, kept), VisibleItem(d, i), byLine)
            && OpenTagsOk(body.live, d[i].tags)
  {
    AddedOk(kept, d[i].tags);
    NoneYields(kept, byLine);
    match d[i].glyph
    case Bullet(_) =>
    case Picture(p) => OneYields(kept, Image(p), byLine);
    case Chr(c) =>
      if ImageAhead(d, i) {
        OneYields(kept, Put(c), byLine);
      } else if Hidden(d, i) {
      } else if c == '\n' {
        NewlineYields(kept, byLine);
      } else {
        CharacterYields(kept, Added(kept, TagsInOrder(d[i].tags)), c, byLine);
      }
  }

  lemma {:induction false} TailYields(d: Buffer, i: nat, kept: seq<Tag>, byLine: bool)
    requires i < |d| && OpenTagsOk(kept, d[i].tags)
    ensures var tail := RunTail(d, i, kept);
            && Yields(kept, tail.events, tail.live, TailMeaning(d, i, kept), [], byLine)
            && OpenTagsOk(tail.live, d[i].tags)
  {
    AddedOk(kept, d[i].tags);
    NoneYields(kept, byLine);
    OpenMarksYield(Added(kept, TagsInOrder(d[i].tags)), kept, byLine);
  }

  function ItemMeaning(d: Buffer, i: nat, live: seq<Tag>): Buffer
    requires i < |d|
  {
    var kept := live[Popped(live, d[i].tags)..];
    BodyMeaning(d, i, kept) + TailMeaning(d, i, Body(d, i, kept).live)
  }

  lemma {:induction false} ItemYields(d: Buffer, i: nat, live: seq<Tag>, byLine: bool)
    requires i < |d| && Distinct(live)
    requires byLine ==> !RawNewline(d, i, live[Popped(live, d[i].tags)..])
    ensures var e := ItemEmission(d, i, live);
            && Yields(live, e.events, e.live, ItemMeaning(d, i, live), VisibleItem(d, i), byLine)
            && OpenTagsOk(e.live, d[i].tags)
  {
    var n := Popped(live, d[i].tags);
    var kept := live[n..];
    KeptOk(d, i, live);
    assert live[..n] + kept == live;
    CloseMarksYield(live[..n], kept, byLine);
    var body := Body(d, i, kept);
    BodyYields(d, i, kept, byLine);
    var tail := RunTail(d, i, body.live);
    TailYields(d, i, body.live, byLine);
    var m, u := ItemMeaning(d, i, live), VisibleItem(d, i);
    YieldsConcat(kept, body.events, body.live, BodyMeaning(d, i, kept), u,
                 tail.events, tail.live, TailMeaning(d, i, body.live), [], byLine);
    assert u + [] == u;
    YieldsConcat(live, CloseMarks(live[..n]), kept, [], [], body.events + tail.events, tail.live, m, u, byLine);
    assert [] + m == m && [] + u == u;
  }

  function MeaningFrom(d: Buffer, i: nat, live: seq<Tag>): Buffer
    requires i <= |d|
    decreases |d| - i
  {
    if i == |d| then []
    else ItemMeaning(d, i, live) + MeaningFrom(d, i + 1, ItemEmission(d, i, live).live)
  }

  lemma {:induction false} StreamYields(d: Buffer, i: nat, live: seq<Tag>, whole: Stream, m: Buffer, u: Stream)
    requires i <= |d| && Distinct(live)
    requires whole == StreamFrom(d, i, live) && m == MeaningFrom(d, i, live) && u == Visible(d, i)
    ensures Yields(live, whole, [], m, u, false)
    decreases |d| - i
  {
    if i == |d| {
      assert live + [] == live;
      CloseMarksYield(live, [], false);
    } else {
      var e := ItemEmission(d, i, live);
      var rest, n, v := StreamFrom(d, i + 1, e.live), MeaningFrom(d, i + 1, e.live), Visible(d, i + 1);
      ItemYields(d, i, live, false);
      StreamYields(d, i + 1, e.live, rest, n, v);
      YieldsConcat(live, e.events, e.live, ItemMeaning(d, i, live), VisibleItem(d, i), rest, [], n, v, false);
    }
  }

  /** Whatever the document, marks nest properly and all of them are closed at the end; erasing
      them leaves the characters and pictures of the document, in order, but for the text hidden
      by a list tag. */
  lemma {:induction false} MarksNest(d: Buffer)
    ensures Nested([], Written(d), false) && OpenAfter([], Written(d)) == []
    ensures Unmarked(Written(d)) == Visible(d, 0)
  {
    StreamYields(d, 0, [], Written(d), MeaningFrom(d, 0, []), Visible(d, 0));
  }

  // ----- documents as the editor lays them out -----

  /** List tags cover exactly the bullets, no bullet follows another one, and pictures carry no
      tag. */
  predicate Laid(d: Buffer) {
    forall i :: 0 <= i < |d| ==> LaidAt(d, i)
  }

  predicate LaidAt(d: Buffer, i: nat)
    requires i < |d|
  {
    match d[i].glyph
    case Chr(_) => !ListTagged(d[i].tags)
    case Bullet(nested) => d[i].tags == {ListTag(nested)} && (i + 1 < |d| ==> !d[i+1].glyph.Bullet?)
    case Picture(_) => d[i].tags == {}
  }

  /** The document with no tag on its newlines. */
  function Normal(d: Buffer): (r: Buffer)
    ensures |r| == |d|
  {
    seq(|d|, i requires 0 <= i < |d| => if d[i].glyph == Chr('\n') then d[i].(tags := {}) else d[i])
  }

  /** In such a document text before an image carries no tag. */
  lemma {:induction false} LaidAhead(d: Buffer, i: nat)
    requires Laid(d) && i < |d| && d[i].glyph.Chr? && ImageAhead(d, i)
    ensures d[i].tags == {}
    decreases |d| - i
  {
    assert LaidAt(d, i) && LaidAt(d, i + 1);
    if d[i+1].glyph.Chr? {
      LaidAhead(d, i + 1);
    }
  }

  lemma {:induction false} NoMember(ts: seq<Tag>)
    requires forall t :: t !in ts
    ensures ts == []
  {
    var first := if ts == [] then List1 else ts[0];
    assert first !in ts;
  }

  lemma {:induction false} NothingKept(kept: seq<Tag>)
    requires OpenTagsOk(kept, {})
    ensures kept == []
  {
    NoMember(kept);
  }

  lemma {:induction false} LaidItem(d: Buffer, i: nat, live: seq<Tag>)
    requires Laid(d) && i < |d| && Distinct(live)
    requires forall t :: t in live ==> i > 0 && t in d[i-1].tags
    ensures !RawNewline(d, i, live[Popped(live, d[i].tags)..])
    ensures ItemMeaning(d, i, live) == [Normal(d)[i]]
  {
    assert LaidAt(d, i);
    KeptOk(d, i, live);
    var kept := live[Popped(live, d[i].tags)..];
    if d[i].glyph.Bullet? {
      LaidBullet(d, i, live, d[i].glyph.nested);
    } else if d[i].glyph.Picture? || ImageAhead(d, i) {
      if d[i].glyph.Chr? {
        LaidAhead(d, i);
      }
      Untagged(d, i, kept);
    } else {
      LaidText(d, i, kept, d[i].glyph.c);
    }
  }

  lemma {:induction false} NothingAdded(kept: seq<Tag>, tags: set<Tag>)
    requires kept == [] && tags == {}
    ensures Added(kept, TagsInOrder(tags)) == []
  {
    AddedOk(kept, tags);
    var added := Added(kept, TagsInOrder(tags));
    assert added + kept == added;
    NothingKept(added);
  }

  /** Pictures and text before an image open nothing. */
  lemma {:induction false} RawBody(d: Buffer, i: nat, kept: seq<Tag>)
    requires i < |d| && !d[i].glyph.Bullet?
    requires d[i].glyph.Chr? ==> ImageAhead(d, i)
    ensures Body(d, i, kept).live == kept
    ensures BodyMeaning(d, i, kept) == [Item(d[i].glyph, TagSet(kept))]
  {
  }

  lemma {:induction false} Untagged(d: Buffer, i: nat, kept: seq<Tag>)
    requires i < |d| && d[i].tags == {} && OpenTagsOk(kept, {}) && !d[i].glyph.Bullet?
    requires d[i].glyph.Chr? ==> ImageAhead(d, i)
    ensures kept == []
    ensures BodyMeaning(d, i, kept) + TailMeaning(d, i, Body(d, i, kept).live) == [d[i]]
  {
    NothingKept(kept);
    RawBody(d, i, kept);
    NothingAdded(kept, d[i].tags);
    assert TailMeaning(d, i, kept) == [];
    assert TagSet(kept) == {};
  }

  lemma {:induction false} LaidText(d: Buffer, i: nat, kept: seq<Tag>, c: char)
    requires i < |d| && d[i].glyph == Chr(c) && !ListTagged(d[i].tags)
    requires !ImageAhead(d, i) && OpenTagsOk(kept, d[i].tags)
    ensures BodyMeaning(d, i, kept) + TailMeaning(d, i, Body(d, i, kept).live) == [Normal(d)[i]]
  {
    var added := Added(kept, TagsInOrder(d[i].tags));
    AddedOk(kept, d[i].tags);
    assert forall t :: t in added + kept <==> t in TagSet(added + kept);
    OpenMarksMeaning(kept, []);
    OpenMarksMeaning(added, []);
    if c != '\n' {
      AllAdded(added + kept, d[i].tags);
    }
  }

  /** Nothing is missing once every tag is open. */
  lemma {:induction false} AllAdded(live: seq<Tag>, tags: set<Tag>)
    requires TagSet(live) == tags
    ensures Added(live, TagsInOrder(tags)) == []
  {
    assert forall t :: t in TagSet(live) <==> t in live;
    AddedFacts(live, TagsInOrder(tags));
    TagsInOrderFacts(tags);
    NoMember(Added(live, TagsInOrder(tags)));
  }

  lemma {:induction false} LaidBullet(d: Buffer, i: nat, live: seq<Tag>, nested: bool)
    requires Laid(d) && i < |d| && Distinct(live) && d[i].glyph == Bullet(nested)
    requires forall t :: t in live ==> i > 0 && t in d[i-1].tags
    ensures ItemMeaning(d, i, live) == [d[i]]
  {
    var tag := ListTag(nested);
    var kept := live[Popped(live, d[i].tags)..];
    KeptOk(d, i, live);
    assert LaidAt(d, i) && (i > 0 ==> LaidAt(d, i - 1)) && (i + 1 < |d| ==> LaidAt(d, i + 1));
    assert |kept| > 0 ==> kept[0] in kept && kept[0] in live && ListTagged(d[i-1].tags);
    assert kept == [];
    assert tag in d[i].tags && RunEnds(d, i);
    AddedOk([], d[i].tags);
    OneTag(Added([], TagsInOrder(d[i].tags)), tag);
    assert [Item(Bullet(nested), {tag})] == [d[i]];
  }

  lemma {:induction false} OneTag(ts: seq<Tag>, t: Tag)
    requires Distinct(ts + []) && TagSet(ts + []) == {t}
    ensures ts == [t]
    ensures t in {List1, List2} ==> BulletsOf(ts) == [Item(Bullet(t == List2), {t})]
  {
    assert ts + [] == ts;
    assert t in TagSet(ts);
    assert ts[0] in TagSet(ts);
    forall x ensures x in ts[1..] ==> x == t {
      assert x in ts[1..] ==> x in ts && x in TagSet(ts);
    }
    NoMember(ts[1..]);
  }

  /** An item and what follows it. */
  lemma {:induction false} LaidStep(d: Buffer, i: nat, live: seq<Tag>, e: Emission, rest: Stream, n: Buffer)
    requires Laid(d) && i < |d| && Distinct(live) && e == ItemEmission(d, i, live) && n == Normal(d)
    requires forall t :: t in live ==> i > 0 && t in d[i-1].tags
    requires Yields(e.live, rest, [], n[i+1..], Visible(d, i + 1), true)
    ensures Yields(live, e.events + rest, [], n[i..], VisibleItem(d, i) + Visible(d, i + 1), true)
  {
    LaidItem(d, i, live);
    ItemYields(d, i, live, true);
    YieldsConcat(live, e.events, e.live, [n[i]], VisibleItem(d, i), rest, [], n[i+1..], Visible(d, i + 1), true);
    assert n[i..] == [n[i]] + n[i+1..];
  }

  lemma {:induction false} LiveWithin(d: Buffer, i: nat, live: seq<Tag>)
    requires Laid(d) && i < |d| && Distinct(live)
    requires forall t :: t in live ==> i > 0 && t in d[i-1].tags
    ensures OpenTagsOk(ItemEmission(d, i, live).live, d[i].tags)
  {
    LaidItem(d, i, live);
    ItemYields(d, i, live, true);
  }

  /** What is written from item `i` on, with only tags of the item before it open. */
  predicate LaidRest(d: Buffer, i: nat, live: seq<Tag>, whole: Stream, u: Stream)
    requires i <= |d|
  {
    && Distinct(live) && (forall t :: t in live ==> i > 0 && t in d[i-1].tags)
    && whole == StreamFrom(d, i, live) && u == Visible(d, i)
  }

  lemma {:induction false} LaidNext(d: Buffer, i: nat, live: seq<Tag>, n: Buffer, whole: Stream, u: Stream)
    returns (live': seq<Tag>, rest: Stream, v: Stream)
    requires Laid(d) && i < |d| && n == Normal(d) && LaidRest(d, i, live, whole, u)
    ensures LaidRest(d, i + 1, live', rest, v)
    ensures Yields(live', rest, [], n[i+1..], v, true) ==> Yields(live, whole, [], n[i..], u, true)
  {
    var e := ItemEmission(d, i, live);
    live', rest, v := e.live, StreamFrom(d, i + 1, e.live), Visible(d, i + 1);
    LiveWithin(d, i, live);
    assert whole == e.events + rest && u == VisibleItem(d, i) + v;
    if Yields(live', rest, [], n[i+1..], v, true) {
      LaidStep(d, i, live, e, rest, n);
    }
  }

  lemma {:induction false} LaidEnd(d: Buffer, live: seq<Tag>, n: Buffer, whole: Stream, u: Stream)
    requires |n| == |d| && LaidRest(d, |d|, live, whole, u)
    ensures Yields(live, whole, [], n[|d|..], u, true)
  {
    assert live + [] == live;
    CloseMarksYield(live, [], true);
  }

  lemma {:induction false} LaidStream(d: Buffer, i: nat, live: seq<Tag>, n: Buffer, whole: Stream, u: Stream)
    requires Laid(d) && i <= |d| && n == Normal(d) && LaidRest(d, i, live, whole, u)
    ensures Yields(live, whole, [], n[i..], u, true)
    decreases |d| - i
  {
    if i == |d| {
      LaidEnd(d, live, n, whole, u);
    } else {
      var live', rest, v := LaidNext(d, i, live, n, whole, u);
      LaidStream(d, i + 1, live', n, rest, v);
    }
  }

  /** The marks of such a document stand for the document itself, newlines apart, and every line
      closes the marks it opens. */
  lemma {:induction false} WrittenMeansDocument(d: Buffer)
    requires Laid(d)
    ensures Meaning([], Written(d)) == Normal(d)
    ensures Nested([], Written(d), true) && OpenAfter([], Written(d)) == []
  {
    LaidStream(d, 0, [], Normal(d), Written(d), Visible(d, 0));
    assert Normal(d)[0..] == Normal(d);
  }
}
