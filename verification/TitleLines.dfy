/** A title that covers the newline after it is written once more, empty, on the next line; followed by
    other text that mark is not read. */
module TitleLines {
  import opened RichText
  import opened Tokens
  import opened Parser
  import opened ParserRuns
  import opened Streams
  import opened Reading
  import opened Frames
  import opened ReadBack
  import opened PortableDocs
  import Serializer
  import RoundTrip

  lemma {:induction false} SoFarFits(codec: Codec, r: Reader, es: Stream, s: string)
    requires ReadableSoFar(r, es) && OpenShape(r.open) && (es == [] ==> Fits(r, s))
    ensures Fits(r, Text(codec, es) + s)
  {
    if es == [] {
      assert Text(codec, es) + s == s;
    } else {
      var text := EventText(codec, es[0]);
      assert text != "" ==> (Text(codec, es) + s)[0] == text[0];
      if HasTitle(r.open) {
        assert !InVerbatim(r.open);
        assert text != "" && text[0] != '=';
      }
    }
  }

  /** What is read of a stream, with more text behind it. */
  lemma {:induction false} ReadSoFar(codec: Codec, l: Buffer, stack: seq<Opening>, r: Reader, es: Stream, s: string)
    returns (m: Buffer, stack': seq<Opening>)
    requires Following(l, stack, r) && ReadableSoFar(r, es) && AllFaithful(codec, es) && Fits(FeedAll(r, es), s)
    ensures Same(codec, Here(l, stack, Text(codec, es) + s), Here(m, stack', s))
    ensures Following(m, stack', FeedAll(r, es))
    ensures Read(m, stack', FeedAll(r, es).open, FeedAll(r, es).list) == Read(l, stack, r.open, r.list) + Meaning(r.open, es)
    decreases |es|
  {
    if es == [] {
      m, stack' := l, stack;
      assert Text(codec, es) + s == s;
    } else {
      var p := Read(l, stack, r.open, r.list);
      var e, rest := es[0], es[1..];
      var more := Text(codec, rest) + s;
      FeedShape(r, e);
      assert rest == [] ==> FeedAll(Feed(r, e), rest) == Feed(r, e);
      SoFarFits(codec, Feed(r, e), rest, s);
      RestFaithful(codec, es);
      var l1, stack1 := OneEvent(codec, l, stack, r, e, more, p);
      m, stack' := ReadSoFar(codec, l1, stack1, Feed(r, e), rest, s);
      SameTrans(codec, Here(l, stack, EventText(codec, e) + more), Here(l1, stack1, more), Here(m, stack', s));
      TextAhead(codec, es, s);
      Concatenated(p, EventMeaning(r.open, e), Meaning(Feed(r, e).open, rest));
    }
  }

  lemma {:induction false} TextAhead(codec: Codec, es: Stream, s: string)
    requires es != []
    ensures Text(codec, es) + s == EventText(codec, es[0]) + (Text(codec, es[1..]) + s)
  {
  }

  predicate Equals(b: Buffer) {
    exists k :: 0 <= k < |b| && b[k].glyph == Chr('=')
  }

  /** Behind the mark of a title comes the mark that would end it, and then more text. */
  lemma {:induction false} EmptyTitleLeft(codec: Codec, m: Buffer, o: Opening, stack: seq<Opening>, c: char, b: Buffer)
    requires stack == [o] && o.markup == Title1Start && Inv(State(b, stack, |m|)) && b == m + Plain(" =" + [c])
    requires |m| >= 2 && m[|m|-2] == Item(Chr('='), {}) && m[|m|-1] == Item(Chr(' '), {}) && PlainChar(c)
    ensures Ends(codec, State(b, stack, |m|), b) && Equals(b)
  {
    var s, n := " =" + [c], |m|;
    Ahead(m, s, 0);
    Ahead(m, s, 1);
    Ahead(m, s, 2);
    assert s[0] == ' ' && s[1] == '=' && s[2] == c && |b| == n + 3;
    BlankSkipped(b, o, n, c);
    EqualsSkipped(b, o, n + 1);
    InertAt(b, Some(o), n + 2);
    ThreeSkipped(codec, b, o, stack, n);
    assert b[n+1].glyph == Chr('=');
  }

  lemma {:induction false} ThreeSkipped(codec: Codec, b: Buffer, o: Opening, stack: seq<Opening>, n: nat)
    requires stack == [o] && o.markup == Title1Start && |b| == n + 3 && Inv(State(b, stack, n))
    requires TokenAt(b, Some(o), n).markup == NoMark && TokenAt(b, Some(o), n + 1).markup == NoMark
    requires TokenAt(b, Some(o), n + 2).markup == NoMark
    ensures Ends(codec, State(b, stack, n), b)
  {
    SkipMany(codec, State(b, stack, n), State(b, stack, n + 3));
    EndMove(codec, State(b, stack, n + 3));
    assert Ends(codec, State(b, stack, n + 3), b);
  }

  lemma {:induction false} BlankSkipped(b: Buffer, o: Opening, n: nat, c: char)
    requires o.markup == Title1Start && 2 <= n && |b| == n + 3 && PlainChar(c)
    requires b[n-2] == Item(Chr('='), {}) && b[n-1] == Item(Chr(' '), {}) && b[n] == Item(Chr(' '), {})
    requires b[n+1] == Item(Chr('='), {}) && b[n+2] == Item(Chr(c), {})
    ensures TokenAt(b, Some(o), n).markup == NoMark && Indent(b, n + 1) < 0
  {
    assert Indent(b, n - 1) < 0;
    assert Indent(b, n) < 0;
    assert DelimiterAt(b, n) == NoMark && !EndsLine(b, n + 2);
  }

  lemma {:induction false} EqualsSkipped(b: Buffer, o: Opening, n: nat)
    requires o.markup == Title1Start && n < |b| && b[n] == Item(Chr('='), {}) && Indent(b, n) < 0
    ensures TokenAt(b, Some(o), n).markup == NoMark
  {
    assert DelimiterAt(b, n) == NoMark && Swallowed(b, n) == 0;
  }

  lemma {:induction false} TitlePending(codec: Codec, l: Buffer, none: seq<Opening>, c: char, s: string, m: Buffer,
                                        o: Opening)
    requires Following(l, none, START) && none == [] && s == " =" + [c] && PlainChar(c)
    requires m == l + Plain("= ") && o == Opening(Title1Start, |l|, |l| + 2)
    ensures Ends(codec, Here(l, none, "= " + s), m + Plain(s)) && Equals(m + Plain(s))
  {
    TitleTaken(codec, l, none, s, m, o);
    assert m[|l|] == Item(Chr('='), {}) && m[|l|+1] == Item(Chr(' '), {});
    EmptyTitleLeft(codec, m, o, [o], c, m + Plain(s));
    EndsSame(codec, Here(l, none, "= " + s), Here(m, [o], s), m + Plain(s));
  }

  lemma {:induction false} TitleTaken(codec: Codec, l: Buffer, none: seq<Opening>, s: string, m: Buffer, o: Opening)
    requires Following(l, none, START) && none == []
    requires m == l + Plain("= ") && o == Opening(Title1Start, |l|, |l| + 2)
    ensures Same(codec, Here(l, none, "= " + s), Here(m, [o], s)) && Inv(Here(m, [o], s))
  {
    var t := Title1;
    assert [o] + none == [o];
    TitleMove(codec, l, none, START, t, s, MarkText(t, true));
    FollowOpening(l, none, START, t);
    HereInv(m, [o], [t], false, s);
  }

  /** After anything that is read up to the start of a line. */
  lemma {:induction false} EmptyTitleStays(codec: Codec, es: Stream, c: char, text: string)
    requires ReadableSoFar(START, es) && AllFaithful(codec, es) && FeedAll(START, es) == START && PlainChar(c)
    requires text == Text(codec, es) + ("= " + (" =" + [c]))
    ensures Equals(Parsed(codec, Plain(text)))
  {
    var none: seq<Opening> := [];
    var s := " =" + [c];
    var l := ReadLines(codec, es, "= " + s, none);
    var m := l + Plain("= ");
    TitlePending(codec, l, none, c, s, m, Opening(Title1Start, |l|, |l| + 2));
    assert [] + Plain(text) == Plain(text);
    EndsSame(codec, Here([], none, text), Here(l, none, "= " + s), m + Plain(s));
  }

  /** What is read from the start of the text up to the start of a line. */
  lemma {:induction false} ReadLines(codec: Codec, es: Stream, s: string, none: seq<Opening>) returns (l: Buffer)
    requires ReadableSoFar(START, es) && AllFaithful(codec, es) && FeedAll(START, es) == START && none == []
    ensures Same(codec, Here([], none, Text(codec, es) + s), Here(l, none, s)) && Following(l, none, START)
    ensures Read(l, none, [], false) == Meaning([], es)
  {
    FollowFrom([], none, START, []);
    var stack;
    l, stack := ReadSoFar(codec, [], none, START, es, s);
    assert stack == none;
    assert [] + Meaning([], es) == Meaning([], es);
  }

  // ----- documents -----

  /** A character of a title, a newline that the title covers, and a character of plain text. */
  predicate CoveredLine(d: Buffer, t: Tag) {
    && |d| == 3 && t == Title1
    && d[0].glyph.Chr? && PlainChar(d[0].glyph.c) && d[0].tags == {t}
    && d[1].glyph == Chr('\n') && d[1].tags == {t}
    && d[2].glyph.Chr? && PlainChar(d[2].glyph.c) && d[2].tags == {}
  }

  lemma {:induction false} NoImages(d: Buffer, t: Tag, i: nat)
    requires CoveredLine(d, t) && i < 3
    ensures !Serializer.ImageAhead(d, i) && Serializer.RunEnds(d, 1) && PlainChar('x')
    decreases 3 - i
  {
    assert t in d[1].tags && t !in d[2].tags;
    if i < 2 {
      NoImages(d, t, i + 1);
    }
  }

  lemma {:induction false} TitleAdded(none: seq<Tag>, open: seq<Tag>, t: Tag, tags: set<Tag>)
    requires none == [] && open == [t] && tags == {t}
    ensures Serializer.Added(none, Serializer.TagsInOrder(tags)) == open
    ensures Serializer.Added(open, Serializer.TagsInOrder(tags)) == []
  {
    Serializer.AddedOk(none, tags);
    Serializer.OneTag(Serializer.Added(none, Serializer.TagsInOrder(tags)), t);
    Serializer.AllAdded(open, tags);
  }

  lemma {:induction false} OneMarkText(open: seq<Tag>, t: Tag)
    requires open == [t]
    ensures OpenMarks(open) == [Open(t)] && CloseMarks(open) == [Close(t)]
  {
    assert open[1..] == [];
  }

  lemma {:induction false} FirstItem(d: Buffer, t: Tag, none: seq<Tag>, open: seq<Tag>)
    requires CoveredLine(d, t) && none == [] && open == [t]
    ensures Serializer.ItemEmission(d, 0, none) == Serializer.Emission([Open(t), Put(d[0].glyph.c)], open)
  {
    TitleAdded(none, open, t, d[0].tags);
    OneMarkText(open, t);
    NoImages(d, t, 0);
    RoundTrip.CharacterEmission(d, 0, none, d[0].glyph.c, none, open);
    assert open + none == open;
  }

  lemma {:induction false} NothingPopped(open: seq<Tag>, t: Tag, tags: set<Tag>)
    requires open == [t] && tags == {t}
    ensures Serializer.Popped(open, tags) == 0
  {
    assert open[1..] == [];
  }

  lemma {:induction false} SecondItem(d: Buffer, t: Tag, none: seq<Tag>, open: seq<Tag>)
    requires CoveredLine(d, t) && none == [] && open == [t]
    ensures Serializer.ItemEmission(d, 1, open)
         == Serializer.Emission([Close(t), Put('\n'), Open(t)], open)
  {
    TitleAdded(none, open, t, d[1].tags);
    OneMarkText(open, t);
    NoImages(d, t, 1);
    NothingPopped(open, t, d[1].tags);
    assert open[0..] == open;
    RoundTrip.LineEmission(d, 1, open, open, none);
    assert OpenMarks(none) == [] && none + open == open;
  }

  lemma {:induction false} ThirdItem(d: Buffer, t: Tag, none: seq<Tag>, open: seq<Tag>)
    requires CoveredLine(d, t) && none == [] && open == [t]
    ensures Serializer.ItemEmission(d, 2, open) == Serializer.Emission([Close(t), Put(d[2].glyph.c)], none)
  {
    OneMarkText(open, t);
    NoImages(d, t, 2);
    assert open[1..] == none && Serializer.Popped(open, d[2].tags) == 1;
    assert open[..1] == open;
    Serializer.NothingAdded(none, d[2].tags);
    RoundTrip.CharacterEmission(d, 2, open, d[2].glyph.c, none, none);
    assert OpenMarks(none) == [] && none + none == none;
  }

  /** What is read, and what is not. */
  lemma {:induction false} CoveredWritten(d: Buffer, t: Tag, none: seq<Tag>, open: seq<Tag>, es: Stream, fs: Stream)
    requires CoveredLine(d, t) && none == [] && open == [t]
    requires es == [Open(t), Put(d[0].glyph.c), Close(t), Put('\n')] && fs == [Open(t), Close(t), Put(d[2].glyph.c)]
    ensures Serializer.StreamFrom(d, 0, none) == es + fs
  {
    FirstItem(d, t, none, open);
    SecondItem(d, t, none, open);
    ThirdItem(d, t, none, open);
    LastStream(d, none);
    var e2 := Serializer.StreamFrom(d, 2, open);
    assert e2 == [Close(t), Put(d[2].glyph.c)] + [];
    var e1 := Serializer.StreamFrom(d, 1, open);
    assert e1 == [Close(t), Put('\n'), Open(t)] + e2;
  }

  lemma {:induction false} LastStream(d: Buffer, none: seq<Tag>)
    requires |d| == 3 && none == []
    ensures Serializer.StreamFrom(d, 3, none) == []
  {
  }

  lemma {:induction false} TitledRead(es: Stream, t: Tag, c: char)
    requires es == [Open(t), Put(c), Close(t), Put('\n')] && TitleTag(t) && PlainChar(c)
    ensures Takes(START, es, START)
  {
    var r1 := Feed(START, Open(t));
    var r2 := Feed(r1, Put(c));
    var r3 := Feed(r2, Close(t));
    TakesOne(START, Open(t));
    TakesOne(r1, Put(c));
    TakesOne(r2, Close(t));
    TakesOne(r3, Put('\n'));
    TakesConcat(START, [Open(t)], r1, [Put(c)], r2);
    TakesConcat(START, [Open(t)] + [Put(c)], r2, [Close(t)], r3);
    TakesConcat(START, [Open(t)] + [Put(c)] + [Close(t)], r3, [Put('\n')], START);
    assert es == [Open(t)] + [Put(c)] + [Close(t)] + [Put('\n')];
  }

  lemma {:induction false} AgainText(codec: Codec, fs: Stream, t: Tag, c: char)
    requires fs == [Open(t), Close(t), Put(c)] && t == Title1
    ensures Text(codec, fs) == "= " + (" =" + [c])
  {
    var t1, t2 := fs[1..], fs[2..];
    assert t1[1..] == t2 && t2[1..] == [];
    assert Text(codec, t2) == [c] + "";
    assert Text(codec, t1) == " =" + Text(codec, t2);
  }

  lemma {:induction false} CoveredText(codec: Codec, d: Buffer, t: Tag, es: Stream, x: char, y: char, none: seq<Tag>)
    requires CoveredLine(d, t) && x == d[0].glyph.c && y == d[2].glyph.c && none == []
    requires es == [Open(t), Put(x), Close(t), Put('\n')]
    ensures Text(codec, Serializer.StreamFrom(d, 0, none)) == Text(codec, es) + ("= " + (" =" + [y]))
  {
    var fs := [Open(t), Close(t), Put(y)];
    CoveredWritten(d, t, none, [t], es, fs);
    TextConcat(codec, es, fs);
    AgainText(codec, fs, t, y);
  }

  lemma {:induction false} NormalHasNoEquals(d: Buffer, t: Tag)
    requires CoveredLine(d, t)
    ensures !Equals(Serializer.Normal(d))
  {
  }

  /** Such a document does not come back: the empty title on the second line stays in the text. */
  lemma {:induction false} CoveredLineLost(codec: Codec, d: Buffer, t: Tag)
    requires CoveredLine(d, t)
    ensures Parsed(codec, Plain(Serializer.Serialized(codec, d))) != Serializer.Normal(d)
  {
    var x, y := d[0].glyph.c, d[2].glyph.c;
    var es := [Open(t), Put(x), Close(t), Put('\n')];
    CoveredText(codec, d, t, es, x, y, []);
    TitledRead(es, t, x);
    EmptyTitleStays(codec, es, y, Serializer.Serialized(codec, d));
    NormalHasNoEquals(d, t);
  }
}
