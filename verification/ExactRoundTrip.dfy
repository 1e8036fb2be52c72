/** Exactly when styled text survives being written and parsed again. */
module ExactRoundTrip {
  import opened RichText
  import opened Parser
  import opened Streams
  import opened Serializer
  import opened Reading
  import opened PortableDocs
  import opened Misreading
  import SerializeText
  import SerializeLoops
  import RoundTrip
  import ReadBack

  /** Plain characters and line breaks with any styles. */
  predicate Styled(d: Buffer) {
    forall i :: 0 <= i < |d| ==> StyledItem(d[i])
  }

  predicate StyledItem(it: Item) {
    it.glyph.Chr? && it.tags <= STYLES && (PlainChar(it.glyph.c) || BreakChar(it.glyph.c))
  }

  lemma {:induction false} StyledLaid(d: Buffer)
    requires Styled(d)
    ensures Laid(d)
  {
    forall i | 0 <= i < |d| ensures LaidAt(d, i) {
      assert StyledItem(d[i]);
    }
  }

  lemma {:induction false} NoImageAhead(d: Buffer, i: nat)
    requires Styled(d) && i < |d|
    ensures !ImageAhead(d, i)
    decreases |d| - i
  {
    assert StyledItem(d[i]);
    if !RunEnds(d, i) {
      NoImageAhead(d, i + 1);
    }
  }

  // ----- the order of the marks in what is written -----

  function ModeAll(mode: Mode, open: seq<Tag>, es: Stream): Mode
    decreases |es|
  {
    if es == [] then mode else ModeAll(ModeAfter(mode, open, es[0]), OpenNext(open, es[0]), es[1..])
  }

  predicate Tidies(mode: Mode, open: seq<Tag>, es: Stream, mode': Mode, open': seq<Tag>) {
    StyledStream(es) && Tidy(mode, open, es) && ModeAll(mode, open, es) == mode' && OpenAfter(open, es) == open'
  }

  lemma {:induction false} TidiesConcat(mode: Mode, open: seq<Tag>, es: Stream, mid: Mode, open1: seq<Tag>, fs: Stream,
                                        end: Mode, open2: seq<Tag>)
    requires Tidies(mode, open, es, mid, open1) && Tidies(mid, open1, fs, end, open2)
    ensures Tidies(mode, open, es + fs, end, open2)
    decreases |es|
  {
    if es == [] {
      assert es + fs == fs;
    } else {
      var rest := es[1..] + fs;
      assert (es + fs)[1..] == rest;
      assert es[0] in es && forall e :: e in es[1..] ==> e in es;
      TidiesConcat(ModeAfter(mode, open, es[0]), OpenNext(open, es[0]), es[1..], mid, open1, fs, end, open2);
      assert forall e :: e in es + fs <==> e == es[0] || e in rest;
    }
  }

  lemma {:induction false} TidiesOne(mode: Mode, open: seq<Tag>, e: Event)
    requires StyledEvent(e) && TidyEvent(mode, e)
    ensures Tidies(mode, open, [e], ModeAfter(mode, open, e), OpenNext(open, e))
  {
    assert [e][1..] == [];
  }

  predicate StyleTags(ts: seq<Tag>) {
    forall t :: t in ts ==> t in STYLES
  }

  /** After closing `ts`, with `rest` still open. */
  function ClosedMode(mode: Mode, ts: seq<Tag>, rest: seq<Tag>): Mode {
    if mode.AtStart? && rest == [] && ts != [] && ts[|ts|-1] == Strike then Ceased else mode
  }

  lemma {:induction false} ClosesTidy(mode: Mode, ts: seq<Tag>, rest: seq<Tag>)
    requires StyleTags(ts) && Distinct(ts + rest) && (mode.AtStart? || mode.AfterText?)
    ensures Tidies(mode, ts + rest, CloseMarks(ts), ClosedMode(mode, ts, rest), rest)
  {
    if ts == [] {
      assert ts + rest == rest;
    } else {
      var open, next := ts + rest, ts[1..] + rest;
      assert open[1..] == next;
      assert ts[0] in ts && forall t :: t in ts[1..] ==> t in ts;
      TidiesOne(mode, open, Close(ts[0]));
      if open == [Strike] {
        assert ts[1..] == [] && rest == [] && next == [];
      } else {
        CloseOneMore(ts, rest);
        ClosesTidy(mode, ts[1..], rest);
        TidiesConcat(mode, open, [Close(ts[0])], mode, next, CloseMarks(ts[1..]), ClosedMode(mode, ts, rest), rest);
      }
    }
  }

  lemma {:induction false} CloseOneMore(ts: seq<Tag>, rest: seq<Tag>)
    requires ts != [] && ts + rest != [Strike]
    ensures rest == [] && ts[|ts|-1] == Strike ==> ts[1..] != [] && ts[1..][|ts|-2] == Strike
    ensures ts[1..] != [] ==> ts[1..][|ts|-2] == ts[|ts|-1]
  {
    if rest == [] && |ts| == 1 {
      assert ts + rest == [ts[0]];
    }
  }

  /** Marks opened at the start of a line. */
  lemma {:induction false} ReopensTidy(ts: seq<Tag>, open: seq<Tag>)
    requires StyleTags(ts)
    ensures Tidies(AtStart, open, OpenMarks(ts), AtStart, ts + open)
  {
    if ts == [] {
      assert ts + open == open;
    } else {
      var last := ts[1..] + open;
      assert [ts[0]] + last == ts + open;
      assert ts[0] in ts && forall t :: t in ts[1..] ==> t in ts;
      ReopensTidy(ts[1..], open);
      TidiesOne(AtStart, last, Open(ts[0]));
      TidiesConcat(AtStart, open, OpenMarks(ts[1..]), AtStart, last, [Open(ts[0])], AtStart, ts + open);
    }
  }

  /** Marks opened before a character: by rank, so italic comes first and strike comes last. */
  lemma {:induction false} OpensTidy(mode: Mode, ts: seq<Tag>, open: seq<Tag>)
    requires StyleTags(ts) && Descending(ts) && (mode.AtStart? || mode.AfterText? || (mode.Ceased? && Strike !in ts))
    ensures Tidies(mode, open, OpenMarks(ts), OpenedMode(mode, ts), ts + open)
  {
    if ts == [] {
      assert ts + open == open;
    } else {
      var rest := ts[1..];
      var last := rest + open;
      assert [ts[0]] + last == ts + open;
      assert ts[0] in ts && forall t :: t in rest ==> t in ts;
      assert rest != [] ==> ts[1] == rest[0] && rest[0] in STYLES && Rank(ts[0]) > Rank(ts[1]);
      assert Descending(rest) by {
        assert forall k :: 0 <= k < |rest| ==> rest[k] == ts[k+1];
      }
      OpensTidy(mode, rest, open);
      TidiesOne(OpenedMode(mode, rest), last, Open(ts[0]));
      TidiesConcat(mode, open, OpenMarks(rest), OpenedMode(mode, rest), last, [Open(ts[0])], OpenedMode(mode, ts), ts + open);
    }
  }

  function OpenedMode(mode: Mode, ts: seq<Tag>): Mode {
    if ts == [] || mode.AtStart? || mode.Ceased? then mode
    else if ts[0] == Strike then Struck else Marking
  }

  function ModeAt(d: Buffer, i: nat): Mode
    requires i <= |d|
  {
    if i == 0 || LineBreak(d[i-1].glyph) then AtStart else AfterText
  }

  /** What was closed before a character is not opened again at it. */
  lemma {:induction false} CeasedApart(mode: Mode, live: seq<Tag>, tags: set<Tag>)
    requires mode.AtStart? || mode.AfterText?
    ensures var n := Popped(live, tags);
            ClosedMode(mode, live[..n], live[n..]).Ceased? ==> Strike !in tags
  {
    PoppedFacts(live, tags);
  }

  lemma {:induction false} CharacterTidy(d: Buffer, i: nat, live: seq<Tag>, c: char)
    requires Styled(d) && i < |d| && Distinct(live) && StyleTags(live) && d[i].glyph == Chr(c) && c != '\n'
    ensures var e := ItemEmission(d, i, live);
            Tidies(ModeAt(d, i), live, e.events, ModeAt(d, i + 1), e.live) && Distinct(e.live) && StyleTags(e.live)
  {
    var n, mode := Popped(live, d[i].tags), ModeAt(d, i);
    var closed, kept := live[..n], live[n..];
    var added := Added(kept, TagsInOrder(d[i].tags));
    var mode1 := ClosedMode(mode, closed, kept);
    assert StyledItem(d[i]);
    NoImageAhead(d, i);
    RoundTrip.CharacterEmission(d, i, live, c, kept, added);
    MissingFacts(kept, d[i].tags);
    CeasedApart(mode, live, d[i].tags);
    assert closed + kept == live;
    ClosesTidy(mode, closed, kept);
    OpensTidy(mode1, added, kept);
    PutTidy(d, i, live, c, closed, kept, added, mode, mode1);
  }

  lemma {:induction false} PutTidy(d: Buffer, i: nat, live: seq<Tag>, c: char, closed: seq<Tag>, kept: seq<Tag>,
                                   added: seq<Tag>, mode: Mode, mode1: Mode)
    requires i < |d| && d[i].glyph == Chr(c) && StyledEvent(Put(c))
    requires Tidies(mode, live, CloseMarks(closed), mode1, kept)
    requires Tidies(mode1, kept, OpenMarks(added), OpenedMode(mode1, added), added + kept)
    ensures Tidies(mode, live, CloseMarks(closed) + (OpenMarks(added) + [Put(c)]), ModeAt(d, i + 1), added + kept)
  {
    var live', mode2, end := added + kept, OpenedMode(mode1, added), ModeAt(d, i + 1);
    TidiesOne(mode2, live', Put(c));
    TidiesConcat(mode1, kept, OpenMarks(added), mode2, live', [Put(c)], end, live');
    TidiesConcat(mode, live, CloseMarks(closed), mode1, kept, OpenMarks(added) + [Put(c)], end, live');
  }

  lemma {:induction false} NewlineTidy(d: Buffer, i: nat, live: seq<Tag>)
    requires Styled(d) && i < |d| && Distinct(live) && StyleTags(live) && Newline(d[i])
    ensures var e := ItemEmission(d, i, live);
            Tidies(ModeAt(d, i), live, e.events, AtStart, e.live) && Distinct(e.live) && StyleTags(e.live)
  {
    var mode := ModeAt(d, i);
    var kept := live[Popped(live, d[i].tags)..];
    var added := Added(kept, TagsInOrder(d[i].tags));
    assert StyledItem(d[i]);
    NoImageAhead(d, i);
    RoundTrip.LineEmission(d, i, live, kept, added);
    KeptOk(d, i, live);
    AddedOk(kept, d[i].tags);
    MissingFacts(kept, d[i].tags);
    assert live + [] == live;
    ClosesTidy(mode, live, []);
    LineTidy(mode, ClosedMode(mode, live, []), live, kept, added);
  }

  lemma {:induction false} LineTidy(mode: Mode, mode1: Mode, live: seq<Tag>, kept: seq<Tag>, added: seq<Tag>)
    requires Tidies(mode, live, CloseMarks(live), mode1, []) && StyleTags(kept) && StyleTags(added)
    ensures var line := CloseMarks(live) + [Put('\n')] + OpenMarks(kept);
            && Tidies(mode, live, line, AtStart, kept)
            && Tidies(mode, live, line + OpenMarks(added), AtStart, added + kept)
  {
    TidiesOne(mode1, [], Put('\n'));
    TidiesConcat(mode, live, CloseMarks(live), mode1, [], [Put('\n')], AtStart, []);
    ReopensTidy(kept, []);
    assert kept + [] == kept;
    TidiesConcat(mode, live, CloseMarks(live) + [Put('\n')], AtStart, [], OpenMarks(kept), AtStart, kept);
    ReopensTidy(added, kept);
    TidiesConcat(mode, live, CloseMarks(live) + [Put('\n')] + OpenMarks(kept), AtStart, kept, OpenMarks(added), AtStart,
                 added + kept);
  }

  lemma {:induction false} ItemTidy(d: Buffer, i: nat, live: seq<Tag>)
    requires Styled(d) && i < |d| && Distinct(live) && StyleTags(live)
    ensures var e := ItemEmission(d, i, live);
            Tidies(ModeAt(d, i), live, e.events, ModeAt(d, i + 1), e.live) && Distinct(e.live) && StyleTags(e.live)
  {
    assert StyledItem(d[i]);
    if Newline(d[i]) {
      NewlineTidy(d, i, live);
    } else {
      CharacterTidy(d, i, live, d[i].glyph.c);
    }
  }

  lemma {:induction false} WrittenTidy(d: Buffer, i: nat, live: seq<Tag>, whole: Stream) returns (end: Mode)
    requires Styled(d) && i <= |d| && Distinct(live) && StyleTags(live) && whole == StreamFrom(d, i, live)
    ensures Tidies(ModeAt(d, i), live, whole, end, [])
    decreases |d| - i
  {
    if i == |d| {
      assert live + [] == live;
      ClosesTidy(ModeAt(d, i), live, []);
      end := ClosedMode(ModeAt(d, i), live, []);
    } else {
      var e := ItemEmission(d, i, live);
      var rest, next := StreamFrom(d, i + 1, e.live), ModeAt(d, i + 1);
      ItemTidy(d, i, live);
      end := WrittenTidy(d, i + 1, e.live, rest);
      TidiesConcat(ModeAt(d, i), live, e.events, next, e.live, rest, end, []);
    }
  }

  // ----- the marks the parser does not see -----

  /** The last character written, marks apart, is a colon. */
  predicate AfterColon(es: Stream)
    decreases |es|
  {
    es != [] &&
    var last := es[|es|-1];
    if last.Put? then last.c == ':' else AfterColon(es[..|es|-1])
  }

  /** Only spaces were written since the last line break, marks apart. */
  predicate BlankLine(es: Stream)
    decreases |es|
  {
    es == [] ||
    var last := es[|es|-1];
    if last.Put? && BreakChar(last.c) then true
    else (last.Put? ==> IsSpace(last.c)) && BlankLine(es[..|es|-1])
  }

  /** An italic mark comes right after a colon, other marks apart. */
  predicate ItalicAfterColon(es: Stream, k: nat)
    requires k < |es|
  {
    (es[k] == Open(Italic) || es[k] == Close(Italic)) && AfterColon(es[..k])
  }

  /** A strike mark comes first on its line, spaces apart, and outside any other mark. */
  predicate StrikeFirst(es: Stream, k: nat)
    requires k < |es|
  {
    es[k] == Open(Strike) && OpenAfter([], es[..k]) == [] && BlankLine(es[..k])
  }

  /** A line break other than a newline is written inside marks. */
  predicate BreakInMarks(es: Stream, k: nat)
    requires k < |es|
  {
    es[k].Put? && BreakChar(es[k].c) && es[k].c != '\n' && OpenAfter([], es[..k]) != []
  }

  /** What the parser misreads. */
  predicate Unread(es: Stream, k: nat)
    requires k < |es|
  {
    ItalicAfterColon(es, k) || StrikeFirst(es, k) || BreakInMarks(es, k)
  }

  lemma {:induction false} FeedLast(r: Reader, es: Stream, e: Event)
    ensures FeedAll(r, es + [e]) == Feed(FeedAll(r, es), e)
    decreases |es|
  {
    if es == [] {
      assert es + [e] == [e] && [e][1..] == [];
    } else {
      assert (es + [e])[1..] == es[1..] + [e];
      FeedLast(Feed(r, es[0]), es[1..], e);
    }
  }

  /** The reader `r` remembers what it needs of the stream `pre`. */
  predicate Remembers(r: Reader, pre: Stream) {
    && r.open == OpenAfter([], pre) && StyleTags(r.open) && !r.list && !r.ended
    && (r.colon <==> AfterColon(pre)) && (r.ink != Inked <==> BlankLine(pre))
  }

  lemma {:induction false} RemembersNext(r: Reader, pre: Stream, e: Event, next: Stream)
    requires Remembers(r, pre) && StyledEvent(e) && next == pre + [e] && (e == Put('\n') ==> r.open == [])
    ensures Remembers(Feed(r, e), next)
  {
    RemembersOpen(r, pre, e, next);
    assert next[..|next|-1] == pre && next[|next|-1] == e;
  }

  lemma {:induction false} RemembersOpen(r: Reader, pre: Stream, e: Event, next: Stream)
    requires r.open == OpenAfter([], pre) && StyleTags(r.open) && StyledEvent(e) && next == pre + [e]
    requires e == Put('\n') ==> r.open == []
    ensures Feed(r, e).open == OpenAfter([], next) && StyleTags(Feed(r, e).open)
  {
    OpenAfterConcat([], pre, [e]);
    OpenAfterOne(r.open, e);
    FeedOpen(r, e);
    assert StyleTags(OpenNext(r.open, e));
  }

  lemma {:induction false} ReaderRemembers(es: Stream, k: nat)
    requires k <= |es| && StyledStream(es) && Nested([], es, true)
    ensures Remembers(FeedAll(START, es[..k]), es[..k])
    ensures Nested(FeedAll(START, es[..k]).open, es[k..], true)
    decreases k
  {
    if k == 0 {
      assert es[0..] == es && es[..0] == [];
    } else {
      var pre, e := es[..k-1], es[k-1];
      ReaderRemembers(es, k - 1);
      assert es[..k] == pre + [e] && es[k-1..][1..] == es[k..] && es[k-1..][0] == e;
      assert e in es;
      FeedLast(START, pre, e);
      RemembersNext(FeedAll(START, pre), pre, e, es[..k]);
      FeedOpen(FeedAll(START, pre), e);
    }
  }

  lemma {:induction false} FeedOpen(r: Reader, e: Event)
    requires StyledEvent(e) && (e == Put('\n') ==> r.open == [])
    ensures Feed(r, e).open == OpenNext(r.open, e)
  {
  }

  /** The reader accepts what follows exactly when it holds no unseen mark. */
  lemma {:induction false} ReadableExactly(es: Stream, k: nat)
    requires k <= |es| && StyledStream(es) && Nested([], es, true) && OpenAfter([], es) == []
    ensures Readable(FeedAll(START, es[..k]), es[k..]) <==>
            forall j :: k <= j < |es| ==> !Unread(es, j)
    decreases |es| - k
  {
    ReaderRemembers(es, k);
    if k == |es| {
      assert es[..k] == es && es[k..] == [];
    } else {
      var r, e := FeedAll(START, es[..k]), es[k];
      assert es[..k+1] == es[..k] + [e] && es[k..][1..] == es[k+1..] && es[k..][0] == e;
      assert e in es;
      FeedLast(START, es[..k], e);
      SeenAccepted(r, e);
      assert Unseen(r, e) <==> Unread(es, k);
      ReadableExactly(es, k + 1);
    }
  }

  /** Nothing that is written for the document will be misread. */
  predicate AllSeen(d: Buffer) {
    var es := Written(d);
    forall k :: 0 <= k < |es| ==> !Unread(es, k)
  }

  lemma {:induction false} NormalHasNoMark(d: Buffer)
    requires Styled(d)
    ensures !LeavesMark(Normal(d))
  {
    forall k | 0 <= k < |d| ensures !MarkItem(Normal(d)[k]) {
      assert StyledItem(d[k]);
    }
  }

  /** Styled text comes back from its marked-up form exactly when no italic mark is written right
      after a colon, no strike mark first on a line, and no line break but newlines inside marks. */
  lemma {:induction false} RoundTripExactly(codec: Codec, d: Buffer)
    requires Styled(d)
    ensures Parsed(codec, Plain(Serialized(codec, d))) == Normal(d) <==> AllSeen(d)
    ensures SerializeLoops.ComesBack(codec, d) <==> AllSeen(d) && SerializeText.NoBareObject(d)
  {
    SerializeLoops.ComesBackExactly(codec, d);
    var es := Written(d);
    StyledLaid(d);
    WrittenMeansDocument(d);
    var end := WrittenTidy(d, 0, [], es);
    ReadableExactly(es, 0);
    assert es[..0] == [] && es[0..] == es;
    if AllSeen(d) {
      assert forall e :: e in es ==> StyledEvent(e);
      ReadBack.ParsedReadable(codec, es);
    } else {
      MisreadLeavesMark(codec, es);
      NormalHasNoMark(d);
    }
  }
}
