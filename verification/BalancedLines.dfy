/** When each line of what is written closes the marks it opens, and which tags are open around each
    character. */
module BalancedLines {
  import opened RichText
  import opened Parser
  import opened Streams
  import opened Serializer
  import Base64

  // ----- lines -----

  predicate HoldsBreak(s: string) {
    exists k :: 0 <= k < |s| && LineBreak(Chr(s[k]))
  }

  predicate EventBalanced(codec: Codec, open: seq<Tag>, e: Event) {
    EventNested(open, e, false) && (HoldsBreak(EventText(codec, e)) ==> open == [])
  }

  /** The marks nest, and wherever a line ends in what is written, be it in the data of a picture, all of
      them are closed. */
  predicate Balanced(codec: Codec, open: seq<Tag>, es: Stream)
    decreases |es|
  {
    es == [] || (EventBalanced(codec, open, es[0]) && Balanced(codec, OpenNext(open, es[0]), es[1..]))
  }

  lemma {:induction false} BalancedConcat(codec: Codec, open: seq<Tag>, es: Stream, mid: seq<Tag>, fs: Stream)
    requires OpenAfter(open, es) == mid
    ensures Balanced(codec, open, es + fs) <==> Balanced(codec, open, es) && Balanced(codec, mid, fs)
    decreases |es|
  {
    if es == [] {
      assert es + fs == fs;
    } else {
      assert (es + fs)[1..] == es[1..] + fs;
      BalancedConcat(codec, OpenNext(open, es[0]), es[1..], mid, fs);
    }
  }

  lemma {:induction false} BalancedOne(codec: Codec, open: seq<Tag>, e: Event)
    ensures Balanced(codec, open, [e]) <==> EventBalanced(codec, open, e)
  {
    assert [e][1..] == [];
  }

  predicate MarksOnly(es: Stream) {
    forall e :: e in es ==> e.Open? || e.Close?
  }

  lemma {:induction false} MarkHoldsNoBreak(t: Tag, starting: bool)
    ensures !HoldsBreak(MarkText(t, starting))
  {
    var text := MarkText(t, starting);
    forall k | 0 <= k < |text| ensures !LineBreak(Chr(text[k])) {
      assert k == 0 || k == 1 || k == 2;
    }
  }

  /** Marks alone break no line. */
  lemma {:induction false} MarksBalanced(codec: Codec, open: seq<Tag>, es: Stream)
    requires MarksOnly(es) && Nested(open, es, false)
    ensures Balanced(codec, open, es)
    decreases |es|
  {
    if es != [] {
      assert es[0] in es && forall e :: e in es[1..] ==> e in es;
      MarkHoldsNoBreak(es[0].tag, es[0].Open?);
      MarksBalanced(codec, OpenNext(open, es[0]), es[1..]);
    }
  }

  lemma {:induction false} RunsAreMarks(ts: seq<Tag>)
    ensures MarksOnly(CloseMarks(ts)) && MarksOnly(OpenMarks(ts))
  {
    if ts != [] {
      RunsAreMarks(ts[1..]);
    }
  }

  lemma {:induction false} ClosesBalanced(codec: Codec, ts: seq<Tag>, open: seq<Tag>)
    ensures Balanced(codec, ts + open, CloseMarks(ts)) && OpenAfter(ts + open, CloseMarks(ts)) == open
  {
    RunsAreMarks(ts);
    CloseMarksFacts(ts, open, false);
    MarksBalanced(codec, ts + open, CloseMarks(ts));
  }

  lemma {:induction false} OpensBalanced(codec: Codec, ts: seq<Tag>, open: seq<Tag>)
    requires Distinct(ts + open)
    ensures Balanced(codec, open, OpenMarks(ts)) && OpenAfter(open, OpenMarks(ts)) == ts + open
  {
    RunsAreMarks(ts);
    OpenMarksNested(ts, open, false);
    OpenMarksAfter(ts, open);
    MarksBalanced(codec, open, OpenMarks(ts));
  }

  // ----- items -----

  /** The tags open around the item's own text. */
  function Around(d: Buffer, i: nat, kept: seq<Tag>): seq<Tag>
    requires i < |d|
  {
    if !d[i].glyph.Chr? || ImageAhead(d, i) then kept
    else if d[i].glyph == Chr('\n') then []
    else Added(kept, TagsInOrder(d[i].tags)) + kept
  }

  /** The item is written with a line break in its text while tags are open. */
  predicate BreaksOpen(codec: Codec, d: Buffer, i: nat, kept: seq<Tag>)
    requires i < |d|
  {
    && VisibleItem(d, i) != [] && HoldsBreak(EventText(codec, VisibleItem(d, i)[0]))
    && Around(d, i, kept) != []
  }

  lemma {:induction false} NewlineBalanced(codec: Codec, kept: seq<Tag>)
    requires Distinct(kept)
    ensures Balanced(codec, kept, CloseMarks(kept) + ([Put('\n')] + OpenMarks(kept)))
  {
    assert kept + [] == kept;
    ClosesBalanced(codec, kept, []);
    BalancedOne(codec, [], Put('\n'));
    OpenAfterOne([], Put('\n'));
    OpensBalanced(codec, kept, []);
    BalancedConcat(codec, [], [Put('\n')], [], OpenMarks(kept));
    BalancedConcat(codec, kept, CloseMarks(kept), [], [Put('\n')] + OpenMarks(kept));
  }

  lemma {:induction false} CharacterBalanced(codec: Codec, kept: seq<Tag>, added: seq<Tag>, c: char)
    requires Distinct(added + kept)
    ensures Balanced(codec, kept, OpenMarks(added) + [Put(c)]) <==> EventBalanced(codec, added + kept, Put(c))
  {
    OpensBalanced(codec, added, kept);
    BalancedOne(codec, added + kept, Put(c));
    BalancedConcat(codec, kept, OpenMarks(added), added + kept, [Put(c)]);
  }

  lemma {:induction false} BodyBalanced(codec: Codec, d: Buffer, i: nat, kept: seq<Tag>)
    requires i < |d| && OpenTagsOk(kept, d[i].tags)
    ensures Balanced(codec, kept, Body(d, i, kept).events) <==> !BreaksOpen(codec, d, i, kept)
  {
    match d[i].glyph
    case Bullet(_) =>
    case Picture(p) => BalancedOne(codec, kept, Image(p));
    case Chr(c) =>
      if ImageAhead(d, i) {
        BalancedOne(codec, kept, Put(c));
      } else if Hidden(d, i) {
      } else if c == '\n' {
        NewlineBalanced(codec, kept);
      } else {
        AddedOk(kept, d[i].tags);
        CharacterBalanced(codec, kept, Added(kept, TagsInOrder(d[i].tags)), c);
      }
  }

  lemma {:induction false} TailBalanced(codec: Codec, d: Buffer, i: nat, kept: seq<Tag>)
    requires i < |d| && OpenTagsOk(kept, d[i].tags)
    ensures Balanced(codec, kept, RunTail(d, i, kept).events)
  {
    AddedOk(kept, d[i].tags);
    OpensBalanced(codec, Added(kept, TagsInOrder(d[i].tags)), kept);
  }

  lemma {:induction false} PartsBalanced(codec: Codec, closed: seq<Tag>, kept: seq<Tag>, body: Emission, tail: Emission)
    requires OpenAfter(kept, body.events) == body.live && Balanced(codec, body.live, tail.events)
    ensures Balanced(codec, closed + kept, CloseMarks(closed) + (body.events + tail.events))
            <==> Balanced(codec, kept, body.events)
  {
    ClosesBalanced(codec, closed, kept);
    BalancedConcat(codec, kept, body.events, body.live, tail.events);
    BalancedConcat(codec, closed + kept, CloseMarks(closed), kept, body.events + tail.events);
  }

  lemma {:induction false} ItemBalanced(codec: Codec, d: Buffer, i: nat, live: seq<Tag>, e: Emission, kept: seq<Tag>)
    requires i < |d| && Distinct(live) && e == ItemEmission(d, i, live) && kept == live[Popped(live, d[i].tags)..]
    ensures Balanced(codec, live, e.events) <==> !BreaksOpen(codec, d, i, kept)
    ensures OpenAfter(live, e.events) == e.live && Distinct(e.live)
  {
    var closed := live[..Popped(live, d[i].tags)];
    var body := Body(d, i, kept);
    assert closed + kept == live;
    KeptOk(d, i, live);
    BodyYields(d, i, kept, false);
    TailBalanced(codec, d, i, body.live);
    PartsBalanced(codec, closed, kept, body, RunTail(d, i, body.live));
    BodyBalanced(codec, d, i, kept);
    ItemYields(d, i, live, false);
  }

  // ----- documents -----

  lemma {:induction false} DistinctNext(d: Buffer, i: nat, live: seq<Tag>, next: seq<Tag>)
    requires i < |d| && Distinct(live) && next == ItemEmission(d, i, live).live
    ensures Distinct(next)
  {
    ItemYields(d, i, live, false);
  }

  /** The tags the serializer holds open when it comes to item `i`. */
  function LiveAt(d: Buffer, i: nat): (live: seq<Tag>)
    requires i <= |d|
    ensures Distinct(live)
  {
    if i == 0 then []
    else
      var e := ItemEmission(d, i - 1, LiveAt(d, i - 1));
      DistinctNext(d, i - 1, LiveAt(d, i - 1), e.live);
      e.live
  }

  /** Those of them that stay open. */
  function KeptAt(d: Buffer, i: nat): seq<Tag>
    requires i < |d|
  {
    LiveAt(d, i)[Popped(LiveAt(d, i), d[i].tags)..]
  }

  /** From item `i` on no line is broken while tags are open. */
  predicate LinesWhole(codec: Codec, d: Buffer, i: nat)
    requires i <= |d|
  {
    forall j :: i <= j < |d| ==> !BreaksOpen(codec, d, j, KeptAt(d, j))
  }

  /** What is written from item `i` on. */
  predicate Rest(d: Buffer, i: nat, live: seq<Tag>, whole: Stream)
    requires i <= |d|
  {
    Distinct(live) && live == LiveAt(d, i) && whole == StreamFrom(d, i, live)
  }

  predicate Agrees(codec: Codec, d: Buffer, i: nat, live: seq<Tag>, whole: Stream)
    requires i <= |d|
  {
    Balanced(codec, live, whole) <==> LinesWhole(codec, d, i)
  }

  lemma {:induction false} WholeNext(codec: Codec, d: Buffer, i: nat)
    requires i < |d|
    ensures LinesWhole(codec, d, i) <==> !BreaksOpen(codec, d, i, KeptAt(d, i)) && LinesWhole(codec, d, i + 1)
  {
  }

  lemma {:induction false} AgreesNext(codec: Codec, d: Buffer, i: nat, live: seq<Tag>, whole: Stream)
    returns (live': seq<Tag>, rest: Stream)
    requires i < |d| && Rest(d, i, live, whole)
    ensures Rest(d, i + 1, live', rest)
    ensures Agrees(codec, d, i + 1, live', rest) ==> Agrees(codec, d, i, live, whole)
  {
    var e := ItemEmission(d, i, live);
    live', rest := e.live, StreamFrom(d, i + 1, e.live);
    ItemBalanced(codec, d, i, live, e, KeptAt(d, i));
    BalancedConcat(codec, live, e.events, live', rest);
    WholeNext(codec, d, i);
  }

  lemma {:induction false} StreamBalanced(codec: Codec, d: Buffer, i: nat, live: seq<Tag>, whole: Stream)
    requires i <= |d| && Rest(d, i, live, whole)
    ensures Agrees(codec, d, i, live, whole)
    decreases |d| - i
  {
    if i == |d| {
      assert live + [] == live;
      ClosesBalanced(codec, live, []);
    } else {
      var live', rest := AgreesNext(codec, d, i, live, whole);
      StreamBalanced(codec, d, i + 1, live', rest);
    }
  }

  /** Every line of what is written closes the marks it opens, whatever the document, exactly when no
      item is written with a line break in its text while tags are open; at the end all are closed. */
  lemma {:induction false} LinesBalancedExactly(codec: Codec, d: Buffer)
    ensures Balanced(codec, [], Written(d)) <==> LinesWhole(codec, d, 0)
    ensures OpenAfter([], Written(d)) == []
  {
    MarksNest(d);
    StreamBalanced(codec, d, 0, [], Written(d));
  }

  // ----- pictures -----

  lemma {:induction false} BreakConcat(s: string, t: string)
    ensures HoldsBreak(s + t) <==> HoldsBreak(s) || HoldsBreak(t)
  {
    if HoldsBreak(s) {
      var k :| 0 <= k < |s| && LineBreak(Chr(s[k]));
      assert (s + t)[k] == s[k];
    }
    if HoldsBreak(t) {
      var k :| 0 <= k < |t| && LineBreak(Chr(t[k]));
      assert (s + t)[|s|+k] == t[k];
    }
    if HoldsBreak(s + t) {
      var k :| 0 <= k < |s + t| && LineBreak(Chr((s + t)[k]));
      assert (s + t)[k] == if k < |s| then s[k] else t[k-|s|];
    }
  }

  lemma {:induction false} WrappedBreaks(s: string)
    ensures HoldsBreak(Base64.Wrapped(s)) <==> |s| > 100 || HoldsBreak(s)
  {
    if s != [] {
      var before, c := s[..|s|-1], s[|s|-1];
      var line := if Base64.Breaks(|before|) then "\n" else "";
      WrappedBreaks(before);
      assert s == before + [c];
      BreakConcat(before, [c]);
      BreakConcat(Base64.Wrapped(before), line);
      BreakConcat(Base64.Wrapped(before) + line, [c]);
      assert Base64.Breaks(|before|) ==> LineBreak(Chr(line[0]));
      assert Base64.Wrapped(s) == Base64.Wrapped(before) + line + [c];
    }
  }

  /** The text of a picture breaks its line exactly when its encoding is longer than a line or holds a
      line break itself. */
  lemma {:induction false} PictureBreaks(codec: Codec, p: int)
    ensures HoldsBreak(PictureText(codec, p)) <==> |codec.encode(p)| > 100 || HoldsBreak(codec.encode(p))
  {
    var data := Base64.Wrapped(codec.encode(p));
    WrappedBreaks(codec.encode(p));
    BreakConcat("[[[", data);
    BreakConcat("[[[" + data, "]]]");
  }

  // ----- documents with whole lines -----

  /** No tag is around an item that breaks its line, but for newlines that no image follows in their run
      and hidden text. */
  predicate BareBreakItem(codec: Codec, d: Buffer, i: nat)
    requires i < |d|
  {
    d[i].tags == {} ||
    match d[i].glyph
    case Bullet(_) => true
    case Picture(p) => !HoldsBreak(PictureText(codec, p))
    case Chr(c) => !LineBreak(d[i].glyph) || (c == '\n' && !ImageAhead(d, i)) || Hidden(d, i)
  }

  lemma {:induction false} UntaggedAround(d: Buffer, i: nat, kept: seq<Tag>)
    requires i < |d| && d[i].tags == {} && OpenTagsOk(kept, d[i].tags)
    ensures Around(d, i, kept) == []
  {
    NothingKept(kept);
    NothingAdded(kept, d[i].tags);
  }

  lemma {:induction false} OneCharacter(codec: Codec, c: char)
    ensures HoldsBreak(EventText(codec, Put(c))) <==> LineBreak(Chr(c))
  {
    assert EventText(codec, Put(c)) == [c];
    assert [c][0] == c;
  }

  lemma {:induction false} BareAround(codec: Codec, d: Buffer, i: nat, kept: seq<Tag>)
    requires i < |d| && OpenTagsOk(kept, d[i].tags) && BareBreakItem(codec, d, i)
    ensures !BreaksOpen(codec, d, i, kept)
  {
    if d[i].tags == {} {
      UntaggedAround(d, i, kept);
    } else if d[i].glyph.Chr? {
      OneCharacter(codec, d[i].glyph.c);
    }
  }

  /** In such a document every line is balanced, whatever else is tagged. */
  lemma {:induction false} LinesBalanced(codec: Codec, d: Buffer)
    requires forall i :: 0 <= i < |d| ==> BareBreakItem(codec, d, i)
    ensures Balanced(codec, [], Written(d))
  {
    forall i | 0 <= i < |d| ensures !BreaksOpen(codec, d, i, KeptAt(d, i)) {
      KeptOk(d, i, LiveAt(d, i));
      BareAround(codec, d, i, KeptAt(d, i));
    }
    LinesBalancedExactly(codec, d);
  }

  // ----- documents with broken lines -----

  lemma {:induction false} Unbalanced(codec: Codec, d: Buffer, i: nat)
    requires i < |d| && BreaksOpen(codec, d, i, KeptAt(d, i))
    ensures !Balanced(codec, [], Written(d))
  {
    LinesBalancedExactly(codec, d);
  }

  /** After a character that is written the tags open are exactly its own. */
  lemma {:induction false} LiveAfter(d: Buffer, i: nat)
    requires i < |d| && d[i].glyph.Chr? && d[i].glyph.c != '\n' && !ImageAhead(d, i) && !Hidden(d, i)
    ensures TagSet(LiveAt(d, i + 1)) == d[i].tags
    ensures TagSet(Around(d, i, KeptAt(d, i))) == d[i].tags
  {
    var live, kept := LiveAt(d, i), KeptAt(d, i);
    KeptOk(d, i, live);
    AddedOk(kept, d[i].tags);
    var now := Added(kept, TagsInOrder(d[i].tags)) + kept;
    AllAdded(now, d[i].tags);
    assert [] + now == now;
    assert Body(d, i, kept).live == now;
    assert LiveAt(d, i + 1) == now;
  }

  /** The tags of such a character stay open before an item that has them all. */
  lemma {:induction false} StaysOpen(d: Buffer, i: nat)
    requires 0 < i < |d| && d[i-1].glyph.Chr? && d[i-1].glyph.c != '\n' && !ImageAhead(d, i - 1) && !Hidden(d, i - 1)
    requires d[i-1].tags != {} && d[i-1].tags <= d[i].tags
    ensures KeptAt(d, i) != []
  {
    var live := LiveAt(d, i);
    LiveAfter(d, i - 1);
    SomeOpen(live, d[i-1].tags);
    assert forall t :: t in live ==> t in TagSet(live);
    PoppedFacts(live, d[i].tags);
  }

  lemma {:induction false} SomeOpen(open: seq<Tag>, tags: set<Tag>)
    requires TagSet(open) == tags && tags != {}
    ensures open != []
  {
  }

  /** A picture with long data after a tagged character, inside its tags. */
  lemma {:induction false} PictureUnbalanced(codec: Codec, d: Buffer, i: nat)
    requires 0 < i < |d| && d[i-1].glyph.Chr? && d[i-1].glyph.c != '\n' && !ImageAhead(d, i - 1) && !Hidden(d, i - 1)
    requires d[i-1].tags != {} && d[i-1].tags <= d[i].tags
    requires d[i].glyph.Picture? && |codec.encode(d[i].glyph.pixbuf)| > 100
    ensures !Balanced(codec, [], Written(d))
  {
    StaysOpen(d, i);
    PictureBreaks(codec, d[i].glyph.pixbuf);
    Unbalanced(codec, d, i);
  }

  /** A newline after a tagged character, inside its tags, with an image later in its run. */
  lemma {:induction false} NewlineUnbalanced(codec: Codec, d: Buffer, i: nat)
    requires 0 < i < |d| && d[i-1].glyph.Chr? && d[i-1].glyph.c != '\n' && !ImageAhead(d, i - 1) && !Hidden(d, i - 1)
    requires d[i-1].tags != {} && d[i-1].tags <= d[i].tags
    requires d[i].glyph == Chr('\n') && ImageAhead(d, i)
    ensures !Balanced(codec, [], Written(d))
  {
    StaysOpen(d, i);
    OneCharacter(codec, '\n');
    Unbalanced(codec, d, i);
  }

  /** A tagged carriage return or paragraph separator. */
  lemma {:induction false} ReturnUnbalanced(codec: Codec, d: Buffer, i: nat)
    requires i < |d| && LineBreak(d[i].glyph) && d[i].glyph.c != '\n' && !ImageAhead(d, i) && !Hidden(d, i)
    requires d[i].tags != {}
    ensures !Balanced(codec, [], Written(d))
  {
    LiveAfter(d, i);
    SomeOpen(Around(d, i, KeptAt(d, i)), d[i].tags);
    OneCharacter(codec, d[i].glyph.c);
    Unbalanced(codec, d, i);
  }

  // One document of each kind.

  lemma {:induction false} PictureDocument(codec: Codec, d: Buffer, p: int)
    requires |d| == 2 && d[0] == Item(Chr('x'), {Bold}) && d[1] == Item(Picture(p), {Bold, Italic})
    requires |codec.encode(p)| > 100
    ensures !Balanced(codec, [], Written(d))
  {
    assert Italic in d[1].tags && Italic !in d[0].tags;
    PictureUnbalanced(codec, d, 1);
  }

  lemma {:induction false} NewlineDocument(codec: Codec, d: Buffer, p: int)
    requires |d| == 3 && d[0] == Item(Chr('x'), {Bold}) && d[1] == Item(Chr('\n'), {Bold, Italic})
    requires d[2] == Item(Picture(p), {Bold, Italic})
    ensures !Balanced(codec, [], Written(d))
  {
    assert Italic in d[1].tags && Italic !in d[0].tags;
    assert ImageAhead(d, 2);
    assert ImageAhead(d, 1);
    NewlineUnbalanced(codec, d, 1);
  }

  lemma {:induction false} ReturnDocument(codec: Codec, d: Buffer)
    requires |d| == 1 && d[0] == Item(Chr('\r'), {Bold})
    ensures !Balanced(codec, [], Written(d))
  {
    ReturnUnbalanced(codec, d, 0);
  }

  // ----- characters -----

  /** Text before an image of its run carries no tag, as in every document without images. */
  predicate Tame(d: Buffer) {
    forall i :: 0 <= i < |d| && d[i].glyph.Chr? && ImageAhead(d, i) ==> d[i].tags == {}
  }

  predicate ImageFree(d: Buffer) {
    forall i :: 0 <= i < |d| ==> d[i].glyph.Chr?
  }

  lemma {:induction false} NoneAhead(d: Buffer, i: nat)
    requires ImageFree(d) && i < |d|
    ensures !ImageAhead(d, i)
    decreases |d| - i
  {
    if !RunEnds(d, i) {
      NoneAhead(d, i + 1);
    }
  }

  lemma {:induction false} ImageFreeTame(d: Buffer)
    requires ImageFree(d)
    ensures Tame(d)
  {
    forall i | 0 <= i < |d| ensures !ImageAhead(d, i) {
      NoneAhead(d, i);
    }
  }

  /** In a document without images every line is balanced exactly when no carriage return and no paragraph
      separator that is written carries a tag. */
  lemma {:induction false} ImageFreeBalanced(codec: Codec, d: Buffer)
    requires ImageFree(d)
    ensures Balanced(codec, [], Written(d)) <==>
            forall i :: 0 <= i < |d| && LineBreak(d[i].glyph) && d[i].glyph.c != '\n' ==>
              d[i].tags == {} || Hidden(d, i)
  {
    forall i | 0 <= i < |d| ensures !ImageAhead(d, i) {
      NoneAhead(d, i);
    }
    if i :| 0 <= i < |d| && LineBreak(d[i].glyph) && d[i].glyph.c != '\n' && d[i].tags != {} && !Hidden(d, i) {
      ReturnUnbalanced(codec, d, i);
    } else {
      LinesBalanced(codec, d);
    }
  }

  /** Documents as the editor lays them out, without tagged breaks, have balanced lines too. */
  lemma {:induction false} LaidBalanced(codec: Codec, d: Buffer)
    requires Laid(d)
    requires forall i :: 0 <= i < |d| && LineBreak(d[i].glyph) && d[i].glyph.c != '\n' ==> d[i].tags == {}
    ensures Balanced(codec, [], Written(d))
  {
    forall i | 0 <= i < |d| ensures BareBreakItem(codec, d, i) {
      assert LaidAt(d, i);
      if d[i].glyph == Chr('\n') && ImageAhead(d, i) {
        LaidAhead(d, i);
      }
    }
    LinesBalanced(codec, d);
  }

  function OnlyText(m: Buffer): Buffer {
    if m == [] then [] else (if m[0].glyph.Chr? then [m[0]] else []) + OnlyText(m[1..])
  }

  lemma {:induction false} OnlyTextConcat(a: Buffer, b: Buffer)
    ensures OnlyText(a + b) == OnlyText(a) + OnlyText(b)
  {
    if a == [] {
      assert a + b == b;
    } else {
      var head := if a[0].glyph.Chr? then [a[0]] else [];
      assert (a + b)[1..] == a[1..] + b;
      OnlyTextConcat(a[1..], b);
      assert head + (OnlyText(a[1..]) + OnlyText(b)) == (head + OnlyText(a[1..])) + OnlyText(b);
    }
  }

  lemma {:induction false} OnlyBullets(ts: seq<Tag>)
    ensures OnlyText(BulletsOf(ts)) == []
  {
    if ts != [] {
      var last := if ts[0] in {List1, List2} then [Item(Bullet(ts[0] == List2), {ts[0]})] else [];
      OnlyBullets(ts[1..]);
      OnlyTextConcat(BulletsOf(ts[1..]), last);
      assert last != [] ==> last[1..] == [];
      assert OnlyText(last) == [];
    }
  }

  /** A character that is written, with its own tags; a newline with none. */
  function ShownItem(d: Buffer, i: nat): Buffer
    requires i < |d|
  {
    if !d[i].glyph.Chr? || Hidden(d, i) then []
    else [Item(d[i].glyph, if d[i].glyph == Chr('\n') then {} else d[i].tags)]
  }

  function ShownFrom(d: Buffer, i: nat): Buffer
    requires i <= |d|
    decreases |d| - i
  {
    if i == |d| then [] else ShownItem(d, i) + ShownFrom(d, i + 1)
  }

  lemma {:induction false} OneShown(x: Item, more: Buffer)
    requires OnlyText(more) == []
    ensures OnlyText([x] + more) == if x.glyph.Chr? then [x] else []
    ensures OnlyText(more + [x]) == if x.glyph.Chr? then [x] else []
  {
    assert [x][1..] == [];
    OnlyTextConcat([x], more);
    OnlyTextConcat(more, [x]);
  }

  lemma {:induction false} RawShown(d: Buffer, i: nat, kept: seq<Tag>)
    requires Tame(d) && i < |d| && OpenTagsOk(kept, d[i].tags) && d[i].glyph.Chr? && ImageAhead(d, i)
    ensures OnlyText(BodyMeaning(d, i, kept)) == ShownItem(d, i)
  {
    NothingKept(kept);
    assert TagSet(kept) == d[i].tags;
    OneShown(Item(d[i].glyph, d[i].tags), []);
  }

  lemma {:induction false} BodyShown(d: Buffer, i: nat, kept: seq<Tag>)
    requires Tame(d) && i < |d| && OpenTagsOk(kept, d[i].tags)
    ensures OnlyText(BodyMeaning(d, i, kept)) == ShownItem(d, i)
  {
    var added := Added(kept, TagsInOrder(d[i].tags));
    if d[i].glyph.Chr? && ImageAhead(d, i) {
      RawShown(d, i, kept);
    } else if d[i].glyph == Chr('\n') {
      OnlyBullets(kept);
      OneShown(Item(d[i].glyph, {}), BulletsOf(kept));
    } else if d[i].glyph.Chr? {
      OnlyBullets(added);
      AddedOk(kept, d[i].tags);
      OneShown(Item(d[i].glyph, d[i].tags), BulletsOf(added));
    } else if d[i].glyph.Picture? {
      OneShown(Item(d[i].glyph, TagSet(kept)), []);
    }
  }

  lemma {:induction false} ItemShown(d: Buffer, i: nat, live: seq<Tag>)
    requires Tame(d) && i < |d| && Distinct(live)
    ensures OnlyText(ItemMeaning(d, i, live)) == ShownItem(d, i) && Distinct(ItemEmission(d, i, live).live)
  {
    var kept := live[Popped(live, d[i].tags)..];
    KeptOk(d, i, live);
    ItemYields(d, i, live, false);
    BodyShown(d, i, kept);
    var tail := TailMeaning(d, i, Body(d, i, kept).live);
    OnlyBullets(Added(Body(d, i, kept).live, TagsInOrder(d[i].tags)));
    assert OnlyText(tail) == [];
    OnlyTextConcat(BodyMeaning(d, i, kept), tail);
  }

  lemma {:induction false} ShownNext(d: Buffer, i: nat, live: seq<Tag>, m: Buffer) returns (live': seq<Tag>, rest: Buffer)
    requires Tame(d) && i < |d| && Distinct(live) && m == MeaningFrom(d, i, live)
    ensures Distinct(live') && rest == MeaningFrom(d, i + 1, live')
    ensures OnlyText(rest) == ShownFrom(d, i + 1) ==> OnlyText(m) == ShownFrom(d, i)
  {
    live' := ItemEmission(d, i, live).live;
    rest := MeaningFrom(d, i + 1, live');
    ItemShown(d, i, live);
    OnlyTextConcat(ItemMeaning(d, i, live), rest);
  }

  lemma {:induction false} TextShown(d: Buffer, i: nat, live: seq<Tag>, m: Buffer)
    requires Tame(d) && i <= |d| && Distinct(live) && m == MeaningFrom(d, i, live)
    ensures OnlyText(m) == ShownFrom(d, i)
    decreases |d| - i
  {
    if i < |d| {
      var live', rest := ShownNext(d, i, live, m);
      TextShown(d, i + 1, live', rest);
    }
  }

  /** Around each written character exactly its own tags are open, and none around a newline; what a list
      tag hides is left out. */
  lemma {:induction false} CharactersTagged(d: Buffer)
    requires Tame(d)
    ensures OnlyText(Meaning([], Written(d))) == ShownFrom(d, 0)
  {
    StreamYields(d, 0, [], Written(d), MeaningFrom(d, 0, []), Visible(d, 0));
    TextShown(d, 0, [], MeaningFrom(d, 0, []));
  }
}
