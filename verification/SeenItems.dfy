/** Which styled texts come back, said on their items: the order in which the styles were opened
    decides which marks are written again. */
module SeenItems {
  import opened RichText
  import opened Parser
  import opened Streams
  import opened Serializer
  import opened Reading
  import opened PortableDocs
  import opened ExactRoundTrip
  import RoundTrip
  import Misreading
  import opened SerializeText
  import SerializeLoops

  // ----- the condition -----

  /** The tags that can stay open before an item with the tags `tags`: the outer ones, up to the first
      that the item does not have. */
  function Kept(open: seq<Tag>, tags: set<Tag>): seq<Tag> {
    open[Popped(open, tags)..]
  }

  /** The tags of item `i - 1` that are open before item `i`, the innermost one first.  What is missing at
      a newline is only opened if the next item has other tags. */
  function OpenAt(d: Buffer, i: nat): seq<Tag>
    requires i <= |d|
  {
    if i == 0 then []
    else
      var kept := Kept(OpenAt(d, i - 1), d[i-1].tags);
      if Newline(d[i-1]) && !RunEnds(d, i - 1) then kept else Missing(kept, d[i-1].tags) + kept
  }

  predicate AfterColonItem(d: Buffer, i: nat)
    requires i <= |d|
  {
    i > 0 && d[i-1].glyph == Chr(':')
  }

  /** After a colon no italic starts or stops, nor is closed with a tag around it. */
  predicate ColonSeen(d: Buffer, i: nat)
    requires i <= |d|
  {
    AfterColonItem(d, i) ==>
      if i == |d| || Newline(d[i]) then Italic !in OpenAt(d, i)
      else Italic in OpenAt(d, i) || Italic in d[i].tags ==> Italic in Kept(OpenAt(d, i), d[i].tags)
  }

  /** On a line that is still blank no strike is opened outside everything else; so it is not the
      outermost tag open at a newline. */
  predicate StrikeSeen(d: Buffer, i: nat)
    requires i < |d|
  {
    if Newline(d[i]) then Outermost(OpenAt(d, i + 1)) != Some(Strike)
    else d[i].tags == {Strike} && Kept(OpenAt(d, i), d[i].tags) == [] ==> SeenAt(d, i).ink == Inked
  }

  function Outermost(open: seq<Tag>): Option<Tag> {
    if open == [] then None else Some(open[|open|-1])
  }

  /** Carriage returns and paragraph separators carry no tag. */
  predicate BreakSeen(d: Buffer, i: nat)
    requires i < |d|
  {
    LineBreak(d[i].glyph) && !Newline(d[i]) ==> d[i].tags == {}
  }

  predicate ItemSeen(d: Buffer, i: nat)
    requires i < |d|
  {
    ColonSeen(d, i) && StrikeSeen(d, i) && BreakSeen(d, i)
  }

  predicate ItemsSeen(d: Buffer) {
    (forall i :: 0 <= i < |d| ==> ItemSeen(d, i)) && ColonSeen(d, |d|)
  }

  // ----- when the reader accepts a stretch -----

  /** From `r` the stretch `es` leads to `r'`, and is accepted exactly when `ok`. */
  predicate Leads(r: Reader, es: Stream, r': Reader, ok: bool) {
    FeedAll(r, es) == r' && (ReadableSoFar(r, es) <==> ok)
  }

  lemma {:induction false} LeadsConcat(r: Reader, es: Stream, r1: Reader, ok1: bool, fs: Stream, r2: Reader, ok2: bool)
    requires Leads(r, es, r1, ok1) && Leads(r1, fs, r2, ok2)
    ensures Leads(r, es + fs, r2, ok1 && ok2)
    decreases |es|
  {
    if es == [] {
      assert es + fs == fs;
    } else {
      assert (es + fs)[1..] == es[1..] + fs;
      var next := Feed(r, es[0]);
      LeadsConcat(next, es[1..], r1, ReadableSoFar(next, es[1..]), fs, r2, ok2);
    }
  }

  lemma {:induction false} ReadableApart(r: Reader, es: Stream, r1: Reader, ok: bool, fs: Stream)
    requires Leads(r, es, r1, ok)
    ensures Readable(r, es + fs) <==> ok && Readable(r1, fs)
    decreases |es|
  {
    if es == [] {
      assert es + fs == fs;
    } else {
      assert (es + fs)[1..] == es[1..] + fs;
      var next := Feed(r, es[0]);
      ReadableApart(next, es[1..], r1, ReadableSoFar(next, es[1..]), fs);
    }
  }

  lemma {:induction false} LeadsOne(r: Reader, e: Event)
    requires !r.ended
    ensures Leads(r, [e], Feed(r, e), Accepts(r, e))
  {
    assert [e][1..] == [];
  }

  predicate Plainly(r: Reader) {
    !r.ended && !r.list && StyleTags(r.open)
  }

  lemma {:induction false} LeadsCloses(r: Reader, ts: seq<Tag>, rest: seq<Tag>)
    requires Plainly(r) && r.open == ts + rest
    ensures Leads(r, CloseMarks(ts), r.(open := rest), Italic in ts ==> !r.colon)
    ensures Plainly(r.(open := rest))
    decreases |ts|
  {
    if ts == [] {
      assert ts + rest == rest;
    } else {
      var r' := r.(open := ts[1..] + rest);
      assert (ts + rest)[1..] == ts[1..] + rest;
      assert ts[0] in r.open && forall t :: t in r'.open ==> t in r.open;
      LeadsOne(r, Close(ts[0]));
      assert Feed(r, Close(ts[0])) == r';
      LeadsCloses(r', ts[1..], rest);
      LeadsConcat(r, [Close(ts[0])], r', ts[0] == Italic ==> !r.colon, CloseMarks(ts[1..]), r.(open := rest),
                  Italic in ts[1..] ==> !r.colon);
    }
  }

  /** Whether the tags `ts` may be opened, the last one first. */
  predicate Openable(r: Reader, ts: seq<Tag>) {
    (Italic in ts ==> !r.colon) && (ts != [] && ts[|ts|-1] == Strike && r.open == [] ==> r.ink == Inked)
  }

  lemma {:induction false} LeadsOpens(r: Reader, ts: seq<Tag>)
    requires Plainly(r) && StyleTags(ts) && Distinct(ts + r.open)
    ensures Leads(r, OpenMarks(ts), r.(open := ts + r.open), Openable(r, ts))
    ensures Plainly(r.(open := ts + r.open))
    decreases |ts|
  {
    if ts == [] {
      assert ts + r.open == r.open;
    } else {
      var rest := ts[1..];
      var r' := r.(open := rest + r.open);
      assert (ts + r.open)[1..] == r'.open && [ts[0]] + r'.open == ts + r.open;
      assert ts[0] in ts && forall t :: t in rest ==> t in ts;
      LeadsOpens(r, rest);
      LeadsOne(r', Open(ts[0]));
      OneOpens(r', ts[0]);
      LeadsConcat(r, OpenMarks(rest), r', Openable(r, rest), [Open(ts[0])], r.(open := ts + r.open), Openable(r', [ts[0]]));
      assert rest != [] ==> rest[|rest|-1] == ts[|ts|-1];
    }
  }

  lemma {:induction false} OneOpens(r: Reader, t: Tag)
    requires Plainly(r) && StyleTags([t]) && t !in r.open
    ensures Accepts(r, Open(t)) <==> Openable(r, [t])
    ensures Feed(r, Open(t)) == r.(open := [t] + r.open)
  {
    assert t in [t];
    assert r.open != [] ==> r.open[0] in r.open;
  }

  // ----- items -----

  lemma {:induction false} LiveStyles(d: Buffer, i: nat, live: seq<Tag>)
    requires Styled(d) && i < |d| && Distinct(live) && StyleTags(live)
    ensures var kept := Kept(live, d[i].tags);
            var added := Missing(kept, d[i].tags);
            && OpenTagsOk(kept, d[i].tags) && StyleTags(kept) && StyleTags(added)
            && Distinct(added + kept) && StyleTags(added + kept) && TagSet(added + kept) == d[i].tags
  {
    var kept := Kept(live, d[i].tags);
    assert StyledItem(d[i]);
    KeptOk(d, i, live);
    AddedOk(kept, d[i].tags);
    MissingFacts(kept, d[i].tags);
  }

  lemma {:induction false} SeenPlainly(d: Buffer, i: nat, live: seq<Tag>)
    requires Styled(d) && i <= |d| && StyleTags(live)
    ensures Plainly(RoundTrip.At(d, i, live)) && (SeenAt(d, i).colon <==> AfterColonItem(d, i))
  {
    if i > 0 {
      SeenPlainly(d, i - 1, live);
      assert StyledItem(d[i-1]);
    }
  }

  lemma {:induction false} PutLeads(d: Buffer, i: nat, live: seq<Tag>, c: char)
    requires Styled(d) && i < |d| && d[i].glyph == Chr(c) && c != '\n' && StyleTags(live) && TagSet(live) == d[i].tags
    ensures Leads(RoundTrip.At(d, i, live), [Put(c)], RoundTrip.At(d, i + 1, live), BreakSeen(d, i))
  {
    assert StyledItem(d[i]);
    SeenPlainly(d, i, live);
    LeadsOne(RoundTrip.At(d, i, live), Put(c));
    assert live != [] ==> live[0] in live && live[0] in TagSet(live);
    assert live == [] ==> TagSet(live) == {};
  }

  lemma {:induction false} CharacterLeads(d: Buffer, i: nat, live: seq<Tag>, c: char, e: Emission)
    requires Styled(d) && i < |d| && Distinct(live) && StyleTags(live) && d[i].glyph == Chr(c) && c != '\n'
    requires live == OpenAt(d, i) && e == ItemEmission(d, i, live)
    ensures Leads(RoundTrip.At(d, i, live), e.events, RoundTrip.At(d, i + 1, e.live), ItemSeen(d, i))
    ensures e.live == OpenAt(d, i + 1) && Distinct(e.live) && StyleTags(e.live)
  {
    var n := Popped(live, d[i].tags);
    var closed, kept := live[..n], live[n..];
    var added := Missing(kept, d[i].tags);
    var r, r1, r2 := RoundTrip.At(d, i, live), RoundTrip.At(d, i, kept), RoundTrip.At(d, i, added + kept);
    assert closed + kept == live;
    assert StyledItem(d[i]);
    ExactRoundTrip.NoImageAhead(d, i);
    RoundTrip.CharacterEmission(d, i, live, c, kept, added);
    LiveStyles(d, i, live);
    SeenPlainly(d, i, live);
    LeadsCloses(r, closed, kept);
    LeadsOpens(r1, added);
    PutLeads(d, i, added + kept, c);
    var ok1, ok2 := Italic in closed ==> !r.colon, Openable(r1, added);
    LeadsConcat(r1, OpenMarks(added), r2, ok2, [Put(c)], RoundTrip.At(d, i + 1, added + kept), BreakSeen(d, i));
    LeadsConcat(r, CloseMarks(closed), r1, ok1, OpenMarks(added) + [Put(c)], RoundTrip.At(d, i + 1, added + kept),
                ok2 && BreakSeen(d, i));
    SeenExactly(d, i, live, closed, kept, added);
  }

  /** The conditions on the marks are those on the item. */
  lemma {:induction false} SeenExactly(d: Buffer, i: nat, live: seq<Tag>, closed: seq<Tag>, kept: seq<Tag>, added: seq<Tag>)
    requires Styled(d) && i < |d| && Distinct(live) && StyleTags(live) && !Newline(d[i]) && live == OpenAt(d, i)
    requires live == closed + kept && kept == Kept(live, d[i].tags) && added == Missing(kept, d[i].tags)
    ensures ColonSeen(d, i) && StrikeSeen(d, i) <==>
            (Italic in closed ==> !RoundTrip.At(d, i, live).colon) && Openable(RoundTrip.At(d, i, kept), added)
  {
    SeenPlainly(d, i, live);
    MissingFacts(kept, d[i].tags);
    KeptApart(live, closed, kept);
    KeptOk(d, i, live);
    if kept == [] {
      StrikeAlone(added, d[i].tags);
    }
    ItalicExactly(live, closed, kept, added, d[i].tags);
    var r := RoundTrip.At(d, i, kept);
    assert r.open == kept && r.ink == SeenAt(d, i).ink && r.colon == SeenAt(d, i).colon;
    StrikeExactly(r, added, d[i].tags);
  }

  lemma {:induction false} ItalicExactly(live: seq<Tag>, closed: seq<Tag>, kept: seq<Tag>, added: seq<Tag>, tags: set<Tag>)
    requires live == closed + kept && forall t :: t in live ==> (t in closed <==> t !in kept)
    requires OpenTagsOk(kept, tags) && forall t :: t in added <==> t in tags && t !in kept
    ensures (Italic in live || Italic in tags ==> Italic in kept) <==> Italic !in closed && Italic !in added
  {
  }

  lemma {:induction false} StrikeExactly(r: Reader, added: seq<Tag>, tags: set<Tag>)
    requires r.open == [] ==> (added != [] && added[|added|-1] == Strike <==> tags == {Strike})
    ensures Openable(r, added) <==>
            (Italic in added ==> !r.colon) && (tags == {Strike} && r.open == [] ==> r.ink == Inked)
  {
  }

  lemma {:induction false} KeptApart(live: seq<Tag>, closed: seq<Tag>, kept: seq<Tag>)
    requires Distinct(live) && live == closed + kept
    ensures forall t :: t in live ==> (t in closed <==> t !in kept)
  {
    if closed != [] {
      assert live[1..] == closed[1..] + kept;
      KeptApart(live[1..], closed[1..], kept);
      forall t | t in live ensures t in closed <==> t !in kept {
        assert t == live[0] || t in live[1..];
        assert closed[0] == live[0] && live[0] !in live[1..];
        assert t in kept ==> t in live[1..];
        assert t in closed <==> t == closed[0] || t in closed[1..];
      }
    }
  }

  /** Opened by rank, strike comes first only when it is alone. */
  lemma {:induction false} StrikeAlone(added: seq<Tag>, tags: set<Tag>)
    requires Descending(added) && tags <= Misreading.STYLES && forall t :: t in added <==> t in tags
    ensures added != [] && added[|added|-1] == Strike <==> tags == {Strike}
  {
    if added != [] && added[|added|-1] == Strike {
      forall t | t in tags ensures t == Strike {
        var k :| 0 <= k < |added| && added[k] == t;
        assert k < |added| - 1 ==> Rank(added[k]) > Rank(added[|added|-1]);
      }
      assert Strike in added;
    }
    if tags == {Strike} {
      assert Strike in added;
      assert added[|added|-1] in added;
    }
  }

  lemma {:induction false} NewlineLeads(d: Buffer, i: nat, live: seq<Tag>, e: Emission)
    requires Styled(d) && i < |d| && Distinct(live) && StyleTags(live) && Newline(d[i])
    requires live == OpenAt(d, i) && e == ItemEmission(d, i, live)
    ensures Leads(RoundTrip.At(d, i, live), e.events, RoundTrip.At(d, i + 1, e.live), ItemSeen(d, i))
    ensures e.live == OpenAt(d, i + 1) && Distinct(e.live) && StyleTags(e.live)
  {
    var kept := Kept(live, d[i].tags);
    var added := Missing(kept, d[i].tags);
    var r := RoundTrip.At(d, i, live);
    assert StyledItem(d[i]);
    ExactRoundTrip.NoImageAhead(d, i);
    RoundTrip.LineEmission(d, i, live, kept, added);
    LiveStyles(d, i, live);
    SeenPlainly(d, i, live);
    var ok := Italic in live ==> !r.colon;
    LineLeads(r, live, kept, added, ok);
    if RunEnds(d, i) {
      OutermostOf(added, kept);
    } else {
      assert kept + [] == kept;
    }
  }

  lemma {:induction false} OutermostOf(added: seq<Tag>, kept: seq<Tag>)
    ensures Outermost(added + kept) == if kept != [] then Outermost(kept) else Outermost(added)
  {
    assert kept == [] ==> added + kept == added;
  }

  lemma {:induction false} LineLeads(r: Reader, live: seq<Tag>, kept: seq<Tag>, added: seq<Tag>, ok: bool)
    requires Plainly(r) && r.open == live && StyleTags(kept) && StyleTags(added) && Distinct(kept) && Distinct(added + kept)
    requires ok == (Italic in live ==> !r.colon)
    ensures var line := CloseMarks(live) + [Put('\n')] + OpenMarks(kept);
            && Leads(r, line, START.(open := kept), ok && Outermost(kept) != Some(Strike))
            && Leads(r, line + OpenMarks(added), START.(open := added + kept), ok && Outermost(added + kept) != Some(Strike))
  {
    assert live + [] == live && kept + [] == kept;
    var closed, line := r.(open := []), CloseMarks(live) + [Put('\n')] + OpenMarks(kept);
    LeadsCloses(r, live, []);
    LeadsOne(closed, Put('\n'));
    LeadsConcat(r, CloseMarks(live), closed, ok, [Put('\n')], START, true);
    LeadsOpens(START, kept);
    LeadsConcat(r, CloseMarks(live) + [Put('\n')], START, ok, OpenMarks(kept), START.(open := kept), Openable(START, kept));
    var again := START.(open := kept);
    LeadsOpens(again, added);
    LeadsConcat(r, line, again, ok && Openable(START, kept), OpenMarks(added), START.(open := added + kept),
                Openable(again, added));
    OutermostOf(added, kept);
  }

  lemma {:induction false} ItemLeads(d: Buffer, i: nat, live: seq<Tag>, e: Emission)
    requires Styled(d) && i < |d| && Distinct(live) && StyleTags(live)
    requires live == OpenAt(d, i) && e == ItemEmission(d, i, live)
    ensures Leads(RoundTrip.At(d, i, live), e.events, RoundTrip.At(d, i + 1, e.live), ItemSeen(d, i))
    ensures e.live == OpenAt(d, i + 1) && Distinct(e.live) && StyleTags(e.live)
  {
    assert StyledItem(d[i]);
    if Newline(d[i]) {
      NewlineLeads(d, i, live, e);
    } else {
      CharacterLeads(d, i, live, d[i].glyph.c, e);
    }
  }

  // ----- documents -----

  predicate SeenFrom(d: Buffer, i: nat)
    requires i <= |d|
  {
    (forall j :: i <= j < |d| ==> ItemSeen(d, j)) && ColonSeen(d, |d|)
  }

  lemma {:induction false} SeenNext(d: Buffer, i: nat)
    requires i < |d|
    ensures SeenFrom(d, i) <==> ItemSeen(d, i) && SeenFrom(d, i + 1)
  {
  }

  lemma {:induction false} ItemApart(d: Buffer, i: nat, live: seq<Tag>, e: Emission, rest: Stream, whole: Stream)
    requires Styled(d) && i < |d| && Distinct(live) && StyleTags(live)
    requires live == OpenAt(d, i) && e == ItemEmission(d, i, live)
    requires rest == StreamFrom(d, i + 1, e.live) && whole == StreamFrom(d, i, live)
    ensures e.live == OpenAt(d, i + 1) && Distinct(e.live) && StyleTags(e.live)
    ensures Readable(RoundTrip.At(d, i, live), whole) <==>
            ItemSeen(d, i) && Readable(RoundTrip.At(d, i + 1, e.live), rest)
  {
    ItemLeads(d, i, live, e);
    ReadableApart(RoundTrip.At(d, i, live), e.events, RoundTrip.At(d, i + 1, e.live), ItemSeen(d, i), rest);
  }

  /** What is written from item `i` on. */
  predicate Rest(d: Buffer, i: nat, live: seq<Tag>, whole: Stream)
    requires i <= |d|
  {
    Distinct(live) && StyleTags(live) && live == OpenAt(d, i) && whole == StreamFrom(d, i, live)
  }

  predicate Agrees(d: Buffer, i: nat, live: seq<Tag>, whole: Stream)
    requires i <= |d|
  {
    Readable(RoundTrip.At(d, i, live), whole) <==> SeenFrom(d, i)
  }

  lemma {:induction false} AgreesEnd(d: Buffer, live: seq<Tag>, whole: Stream)
    requires Styled(d) && Rest(d, |d|, live, whole)
    ensures Agrees(d, |d|, live, whole)
  {
    var r := RoundTrip.At(d, |d|, live);
    SeenPlainly(d, |d|, live);
    assert live + [] == live && CloseMarks(live) + [] == CloseMarks(live);
    LeadsCloses(r, live, []);
    ReadableApart(r, CloseMarks(live), r.(open := []), Italic in live ==> !r.colon, []);
  }

  lemma {:induction false} AgreesNext(d: Buffer, i: nat, live: seq<Tag>, whole: Stream)
    returns (live': seq<Tag>, rest: Stream)
    requires Styled(d) && i < |d| && Rest(d, i, live, whole)
    ensures Rest(d, i + 1, live', rest)
    ensures Agrees(d, i + 1, live', rest) ==> Agrees(d, i, live, whole)
  {
    var e := ItemEmission(d, i, live);
    live', rest := e.live, StreamFrom(d, i + 1, e.live);
    ItemApart(d, i, live, e, rest, whole);
    SeenNext(d, i);
  }

  lemma {:induction false} ReadableItems(d: Buffer, i: nat, live: seq<Tag>, whole: Stream)
    requires Styled(d) && i <= |d| && Rest(d, i, live, whole)
    ensures Agrees(d, i, live, whole)
    decreases |d| - i
  {
    if i == |d| {
      AgreesEnd(d, live, whole);
    } else {
      var live', rest := AgreesNext(d, i, live, whole);
      ReadableItems(d, i + 1, live', rest);
    }
  }

  /** The condition on what is written is the one on the items. */
  lemma {:induction false} SeenOnItems(d: Buffer)
    requires Styled(d)
    ensures AllSeen(d) <==> ItemsSeen(d)
  {
    var es := Written(d);
    ReadableItems(d, 0, [], es);
    StyledLaid(d);
    WrittenMeansDocument(d);
    var end := WrittenTidy(d, 0, [], es);
    ReadableExactly(es, 0);
    assert es[..0] == [] && es[0..] == es;
  }

  /** Styled text comes back from its marked-up form exactly when, on its items, no italic meets a colon,
      no strike comes first on a line, no break but newlines is tagged, and no bare U+FFFC stands. */
  lemma {:induction false} StyledRoundTrip(codec: Codec, d: Buffer)
    requires Styled(d)
    ensures Parsed(codec, Plain(Serialized(codec, d))) == Normal(d) <==> ItemsSeen(d)
    ensures SerializeLoops.ComesBack(codec, d) <==> ItemsSeen(d) && NoBareObject(d)
  {
    SeenOnItems(d);
    RoundTripExactly(codec, d);
  }

  // ----- texts that do not come back -----

  /** Parsing what is written does not give the document back. */
  predicate Lost(codec: Codec, d: Buffer) {
    Parsed(codec, Plain(Serialized(codec, d))) != Normal(d)
  }

  lemma {:induction false} LostAt(codec: Codec, d: Buffer, i: nat)
    requires Styled(d) && i < |d| && !ItemSeen(d, i)
    ensures Lost(codec, d)
  {
    StyledRoundTrip(codec, d);
  }

  /** Only tags of the item before it are open before an item, and all of them after a character. */
  lemma {:induction false} OpenWithin(d: Buffer, i: nat)
    requires Styled(d) && i <= |d|
    ensures Distinct(OpenAt(d, i)) && StyleTags(OpenAt(d, i))
    ensures forall t :: t in OpenAt(d, i) ==> i > 0 && t in d[i-1].tags
    ensures i > 0 && !Newline(d[i-1]) ==> TagSet(OpenAt(d, i)) == d[i-1].tags
  {
    if i > 0 {
      OpenWithin(d, i - 1);
      LiveStyles(d, i - 1, OpenAt(d, i - 1));
    }
  }

  /** Wherever italic text starts right after a colon. */
  lemma {:induction false} ColonLost(codec: Codec, d: Buffer, i: nat)
    requires Styled(d) && 0 < i < |d| && d[i-1].glyph == Chr(':') && !Newline(d[i])
    requires Italic !in d[i-1].tags && Italic in d[i].tags
    ensures Lost(codec, d)
  {
    OpenWithin(d, i);
    assert !ColonSeen(d, i);
    LostAt(codec, d, i);
  }

  /** Wherever a line starts with text that is only struck. */
  lemma {:induction false} StruckLost(codec: Codec, d: Buffer, i: nat)
    requires Styled(d) && i < |d| && d[i].tags == {Strike} && !Newline(d[i])
    requires i == 0 || (PlainBreak(d[i-1]) && d[i-1].tags == {})
    ensures Lost(codec, d)
  {
    OpenWithin(d, i);
    NoMember(OpenAt(d, i));
    LostAt(codec, d, i);
  }

  lemma {:induction false} OnlyTag(open: seq<Tag>, t: Tag)
    requires Distinct(open) && TagSet(open) == {t}
    ensures open == [t]
  {
    assert open + [] == open;
    OneTag(open, t);
  }

  /** Wherever struck text runs over a newline. */
  lemma {:induction false} StruckLinesLost(codec: Codec, d: Buffer, i: nat)
    requires Styled(d) && 0 < i < |d| && !Newline(d[i-1]) && Newline(d[i]) && d[i-1].tags == d[i].tags == {Strike}
    ensures Lost(codec, d)
  {
    var open := OpenAt(d, i);
    OpenWithin(d, i);
    OnlyTag(open, Strike);
    NothingClosed(open, d[i].tags);
    AllAdded(open, d[i].tags);
    assert [] + open == open;
    assert Outermost(OpenAt(d, i + 1)) == Some(Strike);
    LostAt(codec, d, i);
  }

  lemma {:induction false} NothingClosed(open: seq<Tag>, tags: set<Tag>)
    requires forall t :: t in open ==> t in tags
    ensures Kept(open, tags) == open
  {
    PoppedFacts(open, tags);
    assert open[0..] == open;
  }

  /** Wherever a carriage return or a paragraph separator carries a tag. */
  lemma {:induction false} TaggedBreakLost(codec: Codec, d: Buffer, i: nat)
    requires Styled(d) && i < |d| && LineBreak(d[i].glyph) && !Newline(d[i]) && d[i].tags != {}
    ensures Lost(codec, d)
  {
    assert !BreakSeen(d, i);
    LostAt(codec, d, i);
  }

  // One text of each kind.

  lemma {:induction false} ColonText(codec: Codec, d: Buffer)
    requires |d| == 2 && d[0] == Item(Chr(':'), {}) && d[1] == Item(Chr('x'), {Italic})
    ensures Lost(codec, d)
  {
    ColonLost(codec, d, 1);
  }

  lemma {:induction false} StruckText(codec: Codec, d: Buffer)
    requires |d| == 1 && d[0] == Item(Chr('x'), {Strike})
    ensures Lost(codec, d)
  {
    StruckLost(codec, d, 0);
  }

  lemma {:induction false} StruckLinesText(codec: Codec, d: Buffer)
    requires |d| == 4 && d[0] == Item(Chr('w'), {}) && d[1] == Item(Chr('x'), {Strike})
    requires d[2] == Item(Chr('\n'), {Strike}) && d[3] == Item(Chr('y'), {Strike})
    ensures Lost(codec, d)
  {
    StruckLinesLost(codec, d, 2);
  }

  lemma {:induction false} BoldReturnText(codec: Codec, d: Buffer)
    requires |d| == 1 && d[0] == Item(Chr('\r'), {Bold})
    ensures Lost(codec, d)
  {
    TaggedBreakLost(codec, d, 0);
  }
}
