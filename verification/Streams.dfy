/** The serialized form of a document before it is spelled out: a stream of marks, characters and
    images. */
module Streams {
  import opened RichText
  import opened Parser
  import Base64

  datatype Event = Open(tag: Tag) | Close(tag: Tag) | Put(c: char) | Image(pixbuf: int)

  type Stream = seq<Event>

  /** serialize_tag. */
  function MarkText(t: Tag, starting: bool): string {
    match t
    case Italic => "//"
    case Bold => "**"
    case Underline => "__"
    case Strike => "--"
    case Mono => "``"
    case Verbatim => "\"\"\""
    case Title1 => if starting then "= " else " ="
    case Title2 => if starting then "== " else " =="
    case List1 => if starting then "- " else ""
    case List2 => if starting then " - " else ""
  }

  function PictureText(codec: Codec, pixbuf: int): string {
    "[[[" + Base64.Wrapped(codec.encode(pixbuf)) + "]]]"
  }

  function EventText(codec: Codec, e: Event): string {
    match e
    case Open(t) => MarkText(t, true)
    case Close(t) => MarkText(t, false)
    case Put(c) => [c]
    case Image(p) => PictureText(codec, p)
  }

  function Text(codec: Codec, es: Stream): string {
    if es == [] then "" else EventText(codec, es[0]) + Text(codec, es[1..])
  }

  lemma {:induction false} TextConcat(codec: Codec, es: Stream, fs: Stream)
    ensures Text(codec, es + fs) == Text(codec, es) + Text(codec, fs)
  {
    if es == [] {
      assert es + fs == fs;
    } else {
      assert (es + fs)[1..] == es[1..] + fs;
      TextConcat(codec, es[1..], fs);
    }
  }

  predicate ListTagged(tags: set<Tag>) {
    List1 in tags || List2 in tags
  }

  function TagSet(open: seq<Tag>): set<Tag> {
    set t | t in open
  }

  /** The open tags after one event; `open[0]` is the tag opened last. */
  function OpenNext(open: seq<Tag>, e: Event): seq<Tag> {
    match e
    case Open(t) => [t] + open
    case Close(_) => if open == [] then [] else open[1..]
    case _ => open
  }

  function OpenAfter(open: seq<Tag>, es: Stream): seq<Tag>
    decreases |es|
  {
    if es == [] then open else OpenAfter(OpenNext(open, es[0]), es[1..])
  }

  function EventMeaning(open: seq<Tag>, e: Event): Buffer {
    match e
    case Open(t) => if t in {List1, List2} then [Item(Bullet(t == List2), {t})] else []
    case Close(_) => []
    case Put(c) => [Item(Chr(c), TagSet(open))]
    case Image(p) => [Item(Picture(p), TagSet(open))]
  }

  /** The document a stream stands for: each character and image carries the tags open around
      it, and opening a list tag stands for a bullet. */
  function Meaning(open: seq<Tag>, es: Stream): Buffer
    decreases |es|
  {
    if es == [] then [] else EventMeaning(open, es[0]) + Meaning(OpenNext(open, es[0]), es[1..])
  }

  lemma {:induction false} OpenAfterConcat(open: seq<Tag>, es: Stream, fs: Stream)
    ensures OpenAfter(open, es + fs) == OpenAfter(OpenAfter(open, es), fs)
    decreases |es|
  {
    if es == [] {
      assert es + fs == fs;
    } else {
      assert (es + fs)[1..] == es[1..] + fs;
      OpenAfterConcat(OpenNext(open, es[0]), es[1..], fs);
    }
  }

  lemma {:induction false} MeaningConcat(open: seq<Tag>, es: Stream, fs: Stream)
    ensures Meaning(open, es + fs) == Meaning(open, es) + Meaning(OpenAfter(open, es), fs)
    decreases |es|
  {
    if es == [] {
      assert es + fs == fs;
    } else {
      assert (es + fs)[1..] == es[1..] + fs;
      MeaningConcat(OpenNext(open, es[0]), es[1..], fs);
    }
  }

  predicate EventNested(open: seq<Tag>, e: Event, byLine: bool) {
    match e
    case Open(t) => t !in open
    case Close(t) => open != [] && open[0] == t
    case Put(c) => byLine && c == '\n' ==> open == []
    case Image(_) => true
  }

  /** Each close mark answers the last open mark still open, no tag is opened twice, and when
      `byLine` is set everything is closed at each newline. */
  predicate Nested(open: seq<Tag>, es: Stream, byLine: bool)
    decreases |es|
  {
    es == [] || (EventNested(open, es[0], byLine) && Nested(OpenNext(open, es[0]), es[1..], byLine))
  }

  lemma {:induction false} NestedConcat(open: seq<Tag>, es: Stream, fs: Stream, byLine: bool)
    ensures Nested(open, es + fs, byLine) <==>
            Nested(open, es, byLine) && Nested(OpenAfter(open, es), fs, byLine)
    decreases |es|
  {
    if es == [] {
      assert es + fs == fs;
    } else {
      assert (es + fs)[1..] == es[1..] + fs;
      NestedConcat(OpenNext(open, es[0]), es[1..], fs, byLine);
    }
  }

  /** What is left of a stream when its marks are erased. */
  function Unmarked(es: Stream): Stream {
    if es == [] then []
    else (if es[0].Put? || es[0].Image? then [es[0]] else []) + Unmarked(es[1..])
  }

  lemma {:induction false} UnmarkedConcat(es: Stream, fs: Stream)
    ensures Unmarked(es + fs) == Unmarked(es) + Unmarked(fs)
  {
    if es == [] {
      assert es + fs == fs;
    } else {
      var rest, head := es[1..], if es[0].Put? || es[0].Image? then [es[0]] else [];
      assert (es + fs)[1..] == rest + fs && (es + fs)[0] == es[0];
      UnmarkedConcat(rest, fs);
      InTwo(head, Unmarked(rest), Unmarked(fs));
    }
  }

  lemma {:induction false} InTwo(a: Stream, b: Stream, c: Stream)
    ensures a + (b + c) == (a + b) + c
  {
  }

  // ----- runs of marks -----

  /** Close marks for the tags `ts`, the first one first. */
  function CloseMarks(ts: seq<Tag>): Stream {
    if ts == [] then [] else [Close(ts[0])] + CloseMarks(ts[1..])
  }

  /** Open marks that put `ts` in front of the open tags, so the last one first. */
  function OpenMarks(ts: seq<Tag>): Stream {
    if ts == [] then [] else OpenMarks(ts[1..]) + [Open(ts[0])]
  }

  predicate Distinct(ts: seq<Tag>) {
    ts == [] || (ts[0] !in ts[1..] && Distinct(ts[1..]))
  }

  predicate NoListTag(ts: seq<Tag>) {
    List1 !in ts && List2 !in ts
  }

  lemma {:induction false} CloseMarksFacts(ts: seq<Tag>, open: seq<Tag>, byLine: bool)
    ensures OpenAfter(ts + open, CloseMarks(ts)) == open
    ensures Meaning(ts + open, CloseMarks(ts)) == []
    ensures Nested(ts + open, CloseMarks(ts), byLine)
    ensures Unmarked(CloseMarks(ts)) == []
  {
    if ts == [] {
      assert ts + open == open;
    } else {
      CloseMarksFacts(ts[1..], open, byLine);
      assert (ts + open)[1..] == ts[1..] + open;
      assert CloseMarks(ts)[1..] == CloseMarks(ts[1..]);
    }
  }

  lemma {:induction false} OpenMarksUnmarked(ts: seq<Tag>)
    ensures Unmarked(OpenMarks(ts)) == []
  {
    if ts != [] {
      OpenMarksUnmarked(ts[1..]);
      UnmarkedConcat(OpenMarks(ts[1..]), [Open(ts[0])]);
    }
  }

  lemma {:induction false} OpenMarksAfter(ts: seq<Tag>, open: seq<Tag>)
    ensures OpenAfter(open, OpenMarks(ts)) == ts + open
  {
    if ts == [] {
      assert ts + open == open;
    } else {
      var tail := ts[1..] + open;
      OpenMarksAfter(ts[1..], open);
      OpenAfterConcat(open, OpenMarks(ts[1..]), [Open(ts[0])]);
      OpenAfterOne(tail, Open(ts[0]));
      assert [ts[0]] + tail == ts + open;
    }
  }

  lemma {:induction false} OpenAfterOne(open: seq<Tag>, e: Event)
    ensures OpenAfter(open, [e]) == OpenNext(open, e)
  {
    assert [e][1..] == [];
  }

  lemma {:induction false} OpenMarksNested(ts: seq<Tag>, open: seq<Tag>, byLine: bool)
    requires Distinct(ts + open)
    ensures Nested(open, OpenMarks(ts), byLine)
  {
    if ts != [] {
      assert (ts + open)[1..] == ts[1..] + open;
      OpenMarksNested(ts[1..], open, byLine);
      OpenMarksAfter(ts[1..], open);
      var one := [Open(ts[0])];
      NestedConcat(open, OpenMarks(ts[1..]), one, byLine);
      assert one[1..] == [];
    }
  }

  /** The bullets that opening `ts` stands for. */
  function BulletsOf(ts: seq<Tag>): Buffer {
    if ts == [] then []
    else BulletsOf(ts[1..]) + (if ts[0] in {List1, List2} then [Item(Bullet(ts[0] == List2), {ts[0]})] else [])
  }

  lemma {:induction false} OpenMarksMeaning(ts: seq<Tag>, open: seq<Tag>)
    ensures Meaning(open, OpenMarks(ts)) == BulletsOf(ts)
    ensures NoListTag(ts) ==> BulletsOf(ts) == []
  {
    if ts != [] {
      OpenMarksMeaning(ts[1..], open);
      OpenMarksAfter(ts[1..], open);
      var one := [Open(ts[0])];
      MeaningConcat(open, OpenMarks(ts[1..]), one);
      assert one[1..] == [];
      assert ts[0] in ts && forall t :: t in ts[1..] ==> t in ts;
    }
  }
  // ----- composing stretches of a stream -----

  /** From open tags `open`, the stretch `es` is well nested, leads to `open'`, stands for `m` and
      writes the characters and images `u`. */
  predicate Yields(open: seq<Tag>, es: Stream, open': seq<Tag>, m: Buffer, u: Stream, byLine: bool) {
    && Nested(open, es, byLine)
    && OpenAfter(open, es) == open'
    && Meaning(open, es) == m
    && Unmarked(es) == u
  }

  lemma {:induction false} YieldsConcat(open: seq<Tag>, es: Stream, mid: seq<Tag>, m: Buffer, u: Stream,
                     fs: Stream, end: seq<Tag>, n: Buffer, v: Stream, byLine: bool)
    requires Yields(open, es, mid, m, u, byLine) && Yields(mid, fs, end, n, v, byLine)
    ensures Yields(open, es + fs, end, m + n, u + v, byLine)
  {
    NestedConcat(open, es, fs, byLine);
    OpenAfterConcat(open, es, fs);
    MeaningConcat(open, es, fs);
    UnmarkedConcat(es, fs);
  }

  lemma {:induction false} CloseMarksYield(ts: seq<Tag>, open: seq<Tag>, byLine: bool)
    ensures Yields(ts + open, CloseMarks(ts), open, [], [], byLine)
  {
    CloseMarksFacts(ts, open, byLine);
  }

  lemma {:induction false} OpenMarksYield(ts: seq<Tag>, open: seq<Tag>, byLine: bool)
    requires Distinct(ts + open)
    ensures Yields(open, OpenMarks(ts), ts + open, BulletsOf(ts), [], byLine)
    ensures NoListTag(ts) ==> BulletsOf(ts) == []
  {
    OpenMarksNested(ts, open, byLine);
    OpenMarksAfter(ts, open);
    OpenMarksMeaning(ts, open);
    OpenMarksUnmarked(ts);
  }

  lemma {:induction false} OneYields(open: seq<Tag>, e: Event, byLine: bool)
    requires EventNested(open, e, byLine)
    ensures Yields(open, [e], OpenNext(open, e), EventMeaning(open, e), Unmarked([e]), byLine)
    ensures Unmarked([e]) == if e.Put? || e.Image? then [e] else []
  {
    assert [e][1..] == [];
    assert EventMeaning(open, e) + [] == EventMeaning(open, e);
  }

  lemma {:induction false} NoneYields(open: seq<Tag>, byLine: bool)
    ensures Yields(open, [], open, [], [], byLine)
  {
  }
}
