/** Which documents the parser reads back from what the serializer writes, said on the documents
    themselves. */
module PortableDocs {
  import opened RichText
  import opened Streams
  import opened Serializer
  import opened Reading

  // ----- what the line holds before an item -----

  datatype Seen = Seen(ink: Ink, list: bool, colon: bool)

  /** What the items of the line before item `i` amount to. */
  function SeenAt(d: Buffer, i: nat): Seen
    requires i <= |d|
  {
    if i == 0 then Seen(Bare, false, false)
    else
      var s := SeenAt(d, i - 1);
      match d[i-1].glyph
      case Bullet(_) => Seen(Inked, true, false)
      case Picture(_) => Seen(Inked, s.list, false)
      case Chr(c) =>
        if PlainBreak(d[i-1]) then Seen(Bare, false, false)
        else if BreakChar(c) then Seen(Blank, s.list, false)
        else Seen(if IsSpace(c) && s.ink != Inked then Blank else Inked, s.list, c == ':')
  }

  predicate Newline(it: Item) {
    it.glyph == Chr('\n')
  }

  /** A line break outside any verbatim text. */
  predicate PlainBreak(it: Item) {
    Newline(it) || (LineBreak(it.glyph) && it.tags == {})
  }

  predicate StartOfLine(d: Buffer, i: nat)
    requires i < |d|
  {
    i == 0 || PlainBreak(d[i-1])
  }

  predicate Titled(it: Item) {
    Title1 in it.tags || Title2 in it.tags
  }

  // ----- portable documents -----

  /** Plain text avoids the delimiter characters; verbatim text only avoids quotes, and carries no
      tag that is written after the verbatim mark.  A line break that is no newline carries no tag,
      or only the verbatim one, outside list items. */
  predicate PortableText(it: Item, list: bool) {
    it.glyph.Chr? &&
    if BreakChar(it.glyph.c) then it.tags == {} || (it.tags == {Verbatim} && !list)
    else if Verbatim in it.tags then VerbatimChar(it.glyph.c) && it.tags <= {Italic, Bold, Mono, Verbatim}
    else PlainChar(it.glyph.c)
  }

  /** A title starts its line with one untagged-but-for-it character and takes up the whole line. */
  predicate TitleFits(d: Buffer, i: nat)
    requires i < |d|
  {
    && !(Title1 in d[i].tags && Title2 in d[i].tags)
    && (Titled(d[i]) ==>
          if StartOfLine(d, i) then |d[i].tags| == 1
          else Titled(d[i-1]) && d[i-1].glyph.Chr? && (Title1 in d[i].tags <==> Title1 in d[i-1].tags))
    && (!Titled(d[i]) && !StartOfLine(d, i) ==> !Titled(d[i-1]))
  }

  /** No italic mark is written right after a colon. */
  predicate ColonFits(d: Buffer, i: nat)
    requires i < |d|
  {
    d[i].glyph == Chr(':') ==>
      if i + 1 == |d| || Newline(d[i+1]) then Italic !in d[i].tags
      else (Italic in d[i].tags <==> Italic in d[i+1].tags)
           && (Italic in d[i].tags ==> d[i].tags <= d[i+1].tags)
  }

  /** Nothing is opened inside a verbatim text. */
  predicate VerbatimFits(d: Buffer, i: nat)
    requires i < |d|
  {
    i > 0 && Verbatim in d[i].tags && Verbatim in d[i-1].tags ==> d[i].tags <= d[i-1].tags
  }

  /** A title may cover the newline after it, where the line after that is empty or again such a title. */
  predicate TitleLine(d: Buffer, i: nat)
    requires i < |d|
  {
    && (d[i].tags == {Title1} || d[i].tags == {Title2})
    && (i + 1 < |d| ==> Newline(d[i+1]) || (d[i+1].glyph.Chr? && d[i+1].tags == d[i].tags))
  }

  predicate PortableAt(d: Buffer, i: nat)
    requires i < |d|
  {
    && VerbatimFits(d, i)
    && ColonFits(d, i)
    && match d[i].glyph
       case Bullet(_) => StartOfLine(d, i)
       case Picture(_) => TitleFits(d, i)
       case Chr(c) =>
         if c == '\n' then
           || d[i].tags <= {Italic, Bold, Mono, Underline} || d[i].tags <= {Italic, Bold, Mono, Verbatim}
           || TitleLine(d, i)
         else
           && PortableText(d[i], SeenAt(d, i).list)
           && TitleFits(d, i)
           && (d[i].tags == {Strike} ==> SeenAt(d, i).ink == Inked)
  }

  /** Lists are laid out as the editor does, and every item is written with marks the parser will
      recognise. */
  predicate Portable(d: Buffer) {
    Laid(d) && forall i :: 0 <= i < |d| ==> PortableAt(d, i)
  }

  // ----- the order of marks -----

  function Rank(t: Tag): nat {
    match t
    case List1 => 0 case List2 => 1 case Italic => 2 case Bold => 3 case Mono => 4
    case Verbatim => 5 case Underline => 6 case Strike => 7 case Title1 => 8 case Title2 => 9
  }

  predicate Ascending(ts: seq<Tag>) {
    forall i, j :: 0 <= i < j < |ts| ==> Rank(ts[i]) < Rank(ts[j])
  }

  predicate Descending(ts: seq<Tag>) {
    forall i, j :: 0 <= i < j < |ts| ==> Rank(ts[i]) > Rank(ts[j])
  }

  lemma {:induction false} ChosenAscending(order: seq<Tag>, tags: set<Tag>)
    requires Ascending(order)
    ensures Ascending(Chosen(order, tags))
  {
    if order != [] {
      assert forall i, j :: 0 <= i < j < |order[1..]| ==> Rank(order[1..][i]) < Rank(order[1..][j]);
      ChosenAscending(order[1..], tags);
      ChosenFacts(order[1..], tags);
      var r := Chosen(order[1..], tags);
      forall k | 0 <= k < |r| ensures Rank(order[0]) < Rank(r[k]) {
        assert r[k] in order[1..];
      }
    }
  }

  lemma {:induction false} OrderAscending()
    ensures Ascending(CREATION_ORDER)
  {
    forall i | 0 <= i < |CREATION_ORDER| ensures Rank(CREATION_ORDER[i]) == i {
      assert i in {0, 1, 2, 3, 4, 5, 6, 7, 8, 9};
    }
  }

  lemma {:induction false} AddedDescending(live: seq<Tag>, list: seq<Tag>)
    requires Ascending(list)
    ensures Descending(Added(live, list))
    decreases |list|
  {
    if list != [] {
      assert forall i, j :: 0 <= i < j < |list[1..]| ==> Rank(list[1..][i]) < Rank(list[1..][j]);
      if list[0] in live {
        AddedDescending(live, list[1..]);
      } else {
        var live' := [list[0]] + live;
        AddedDescending(live', list[1..]);
        AddedFacts(live', list[1..]);
        var r := Added(live', list[1..]);
        forall k | 0 <= k < |r| ensures Rank(r[k]) > Rank(list[0]) {
          assert r[k] in list[1..];
        }
      }
    }
  }

  /** The tags opened at an item: which ones they are, and that they are opened by rank. */
  lemma {:induction false} MissingFacts(kept: seq<Tag>, tags: set<Tag>)
    ensures var ts := Added(kept, TagsInOrder(tags));
            && Descending(ts)
            && (forall t :: t in ts <==> t in tags && t !in kept)
  {
    OrderAscending();
    ChosenAscending(CREATION_ORDER, tags);
    AddedDescending(kept, TagsInOrder(tags));
    AddedFacts(kept, TagsInOrder(tags));
    TagsInOrderFacts(tags);
  }

  // ----- reading runs of marks -----

  /** The reader accepts the stretch `es` and is `r'` after it. */
  predicate Takes(r: Reader, es: Stream, r': Reader) {
    ReadableSoFar(r, es) && FeedAll(r, es) == r'
  }

  lemma {:induction false} TakesConcat(r: Reader, es: Stream, r': Reader, fs: Stream, r'': Reader)
    requires Takes(r, es, r') && Takes(r', fs, r'')
    ensures Takes(r, es + fs, r'')
  {
    SoFarConcat(r, es, fs);
  }

  lemma {:induction false} TakesOne(r: Reader, e: Event)
    requires Accepts(r, e) && (r.ended ==> e == Put('\n'))
    ensures Takes(r, [e], Feed(r, e))
  {
    assert [e][1..] == [];
  }

  lemma {:induction false} TakesNothing(r: Reader)
    ensures Takes(r, [], r)
  {
  }

  /** Closing the tags `ts`; a title can only be the outermost one. */
  lemma {:induction false} TakesCloses(r: Reader, ts: seq<Tag>, rest: seq<Tag>)
    requires r.open == ts + rest && !r.ended && (Italic in ts ==> !r.colon)
    requires forall k :: 0 <= k < |ts| - 1 ==> !TitleTag(ts[k])
    ensures Takes(r, CloseMarks(ts), r.(open := rest, ended := ts != [] && TitleTag(ts[|ts|-1])))
    decreases |ts|
  {
    if ts == [] {
      assert ts + rest == rest;
    } else {
      var r' := Feed(r, Close(ts[0]));
      assert (ts + rest)[1..] == ts[1..] + rest;
      assert Italic in ts[1..] ==> Italic in ts;
      TakesOne(r, Close(ts[0]));
      if |ts| == 1 {
        assert ts[1..] == [] && [] + rest == rest;
        TakesNothing(r');
      } else {
        TakesCloses(r', ts[1..], rest);
      }
      TakesConcat(r, [Close(ts[0])], r', CloseMarks(ts[1..]),
                  r.(open := rest, ended := ts != [] && TitleTag(ts[|ts|-1])));
    }
  }

  /** The tags `ts` may be opened, the last one first. */
  predicate MayOpen(r: Reader, ts: seq<Tag>) {
    && !r.ended && !InListMark(r.open)
    && (forall t :: t in ts ==> t !in r.open && !ListMark(t) && !TitleTag(t))
    && Distinct(ts)
    && (ts != [] ==> !InVerbatim(r.open))
    && (forall k :: 1 <= k < |ts| ==> ts[k] != Verbatim)
    && (Verbatim in ts ==> !HasTitle(r.open))
    && (Italic in ts ==> !r.colon)
    && (ts != [] && ts[|ts|-1] == Strike ==> r.open != [] || r.list || r.ink == Inked)
  }

  lemma {:induction false} TakesOpens(r: Reader, ts: seq<Tag>)
    requires MayOpen(r, ts)
    ensures Takes(r, OpenMarks(ts), r.(open := ts + r.open))
    decreases |ts|
  {
    if ts == [] {
      assert [] + r.open == r.open;
    } else {
      var rest := ts[1..];
      assert forall t :: t in rest ==> t in ts;
      assert ts[0] in ts;
      TakesOpens(r, rest);
      var r' := r.(open := rest + r.open);
      assert r'.open != [] ==> r'.open[0] in rest || r'.open == r.open;
      LastAccepted(r, ts);
      TakesOne(r', Open(ts[0]));
      assert [ts[0]] + (rest + r.open) == ts + r.open;
      TakesConcat(r, OpenMarks(rest), r', [Open(ts[0])], r.(open := ts + r.open));
    }
  }

  lemma {:induction false} LastAccepted(r: Reader, ts: seq<Tag>)
    requires MayOpen(r, ts) && ts != []
    ensures AcceptsOpening(r.(open := ts[1..] + r.open), ts[0])
  {
    var rest := ts[1..];
    var open := rest + r.open;
    assert ts[0] in ts && forall t :: t in rest ==> t in ts;
    assert rest != [] ==> open[0] == ts[1];
    assert HasTitle(open) ==> HasTitle(r.open);
  }
}
