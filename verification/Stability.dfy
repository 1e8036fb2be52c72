/** Parsing again: what has been read stays as it is, but a parse can also bring the halves of a
    new mark together. */
module Stability {
  import opened RichText
  import opened Tokens
  import opened Parser
  import opened ParserRuns
  import opened Accounting
  import opened Frames
  import opened Streams
  import opened Serializer
  import opened PortableDocs
  import Reading
  import ReadBack

  // ----- when parsing again changes nothing -----

  /** A parse changes the buffer with each pair it matches, and only then. */
  lemma {:induction false} PairsChange(codec: Codec, st: State, tr: Tracked)
    requires Inv(st) && |tr.origins| == |st.buf|
    ensures |Run(codec, st).buf| <= |st.buf| && |Track(codec, st, tr).cuts| >= |tr.cuts|
    ensures Run(codec, st).buf == st.buf <==> |Track(codec, st, tr).cuts| == |tr.cuts|
    decreases |st.buf|, |st.buf| - st.pos
  {
    if !Finished(st) {
      StepKeepsInv(codec, st);
      StepProgress(codec, st);
      PairsChange(codec, Step(codec, st), TrackStep(codec, st, tr));
      if NextTokenOf(st).markup != NoMark && Closes(st) {
        CloseShrinks(codec, st);
      }
    }
  }

  /** A text stays as it is exactly when the parse matches no pair in it. */
  lemma {:induction false} StaysExactly(codec: Codec, b: Buffer)
    ensures Parsed(codec, b) == b <==> Account(codec, b).cuts == []
  {
    PairsChange(codec, State(b, [], 0), Tracked(seq(|b|, i => i), []));
  }

  /** A second parse changes nothing exactly when it matches no pair in what the first one left. */
  lemma {:induction false} IdempotentExactly(codec: Codec, b: Buffer)
    ensures Parsed(codec, Parsed(codec, b)) == Parsed(codec, b) <==> Account(codec, Parsed(codec, b)).cuts == []
  {
    StaysExactly(codec, Parsed(codec, b));
  }

  /** What an accepted stream stands for holds no mark outside verbatim stretches. */
  lemma {:induction false} MeaningInert(r: Reading.Reader, es: Stream)
    requires Reading.Readable(r, es)
    ensures InertText(Meaning(r.open, es))
    decreases |es|
  {
    if es != [] {
      EventInert(r, es[0]);
      MeaningInert(Reading.Feed(r, es[0]), es[1..]);
    }
  }

  lemma {:induction false} EventInert(r: Reading.Reader, e: Event)
    requires Reading.Accepts(r, e)
    ensures InertText(EventMeaning(r.open, e))
    ensures Reading.Feed(r, e).open == OpenNext(r.open, e)
  {
    assert r.open != [] ==> r.open[0] in TagSet(r.open);
  }

  /** The text of a stream the reader accepts is read once and for all. */
  lemma {:induction false} ReadableIdempotent(codec: Codec, es: Stream)
    requires Reading.Readable(Reading.START, es) && ReadBack.AllFaithful(codec, es)
    ensures var b := Plain(Text(codec, es)); Parsed(codec, Parsed(codec, b)) == Parsed(codec, b)
  {
    ReadBack.ParsedReadable(codec, es);
    MeaningInert(Reading.START, es);
    InertStays(codec, Meaning([], es));
  }

  /** Text that holds no mark outside verbatim stretches is left alone. */
  lemma {:induction false} InertStays(codec: Codec, b: Buffer)
    requires InertText(b)
    ensures Parsed(codec, b) == b
  {
    var none: seq<Opening> := [];
    var st, last := State(b, none, 0), State(b, none, |b|);
    forall k | 0 <= k < |b| ensures TokenAt(b, Top(none), k).markup == NoMark {
      if InertItem(b[k]) {
        ReadBack.InertAt(b, Top(none), k);
      } else {
        ReadBack.BreakAt(b, k);
      }
    }
    SkipMany(codec, st, last);
    EndMove(codec, last);
    assert Ends(codec, st, b);
  }

  /** A portable document that was read back is not changed by the parses that later edits set
      off. */
  lemma {:induction false} PortableStays(codec: Codec, d: Buffer)
    requires Portable(d)
    ensures Parsed(codec, Normal(d)) == Normal(d)
  {
    forall k | 0 <= k < |d| ensures InertItem(Normal(d)[k]) || BreakItem(Normal(d)[k]) {
      assert PortableAt(d, k) && LaidAt(d, k);
    }
    InertStays(codec, Normal(d));
  }

  // ----- halves that meet -----

  /** An asterisk before the closing mark of an italic text and one after it. */
  const HALVES: Buffer := Plain("//x*//*y**")

  /** The same once the italic text is read. */
  const MET: Buffer := [Item(Chr('x'), {Italic}), Item(Chr('*'), {Italic}), Item(Chr('*'), {}), Item(Chr('y'), {}),
                        Item(Chr('*'), {}), Item(Chr('*'), {})]

  const READ: Buffer := [Item(Chr('x'), {Italic}), Item(Chr('y'), {Bold})]

  lemma {:induction false} DelimiterSeen(b: Buffer, top: Option<Opening>, i: nat, m: Markup)
    requires i < |b| && Verbatim !in b[i].tags && DelimiterAt(b, i) == m && m in {BoldMark, ItalicMark}
    requires top.Some? ==> top.value.markup in {BoldMark, ItalicMark}
    ensures TokenAt(b, top, i) == Token(m, i + 2)
  {
    DelimiterShape(b, i);
    MarkCharacterItem(b, i);
    assert CharAt(b, i) in {'*', '/'};
    assert LineTokenAt(b, i).markup == NoMark && Swallowed(b, i) == 0;
  }

  lemma {:induction false} NothingSeen(b: Buffer, top: Option<Opening>, i: nat)
    requires i < |b| && CharAt(b, i) in {'*', 'x', 'y'} && DelimiterAt(b, i) == NoMark
    requires top.Some? ==> top.value.markup in {BoldMark, ItalicMark}
    ensures TokenAt(b, top, i).markup == NoMark
  {
    assert LineTokenAt(b, i).markup == NoMark && Swallowed(b, i) == 0;
    assert !LineBreak(b[i].glyph);
  }

  lemma {:induction false} HalvesText()
    ensures |HALVES| == 10
    ensures forall k :: 0 <= k < 10 ==> HALVES[k] == Item(Chr("//x*//*y**"[k]), {})
  {
  }

  lemma {:induction false} ItalicPushed(codec: Codec, o: Opening, none: seq<Opening>)
    requires o == Opening(ItalicMark, 0, 2) && none == []
    ensures Same(codec, State(HALVES, none, 0), State(HALVES, [o], 2)) && Inv(State(HALVES, [o], 2))
  {
    HalvesText();
    DelimiterSeen(HALVES, None, 0, ItalicMark);
    assert [o] + none == [o];
    PushMove(codec, State(HALVES, none, 0), State(HALVES, [o], 2), Token(ItalicMark, 2));
  }

  lemma {:induction false} SkipTwo(codec: Codec, b: Buffer, stack: seq<Opening>, i: nat)
    requires Inv(State(b, stack, i)) && i + 2 <= |b|
    requires TokenAt(b, Top(stack), i).markup == NoMark && TokenAt(b, Top(stack), i + 1).markup == NoMark
    ensures Same(codec, State(b, stack, i), State(b, stack, i + 2)) && Inv(State(b, stack, i + 2))
  {
    SkipMany(codec, State(b, stack, i), State(b, stack, i + 2));
  }

  lemma {:induction false} ItalicSkipped(codec: Codec, o: Opening, stack: seq<Opening>)
    requires o == Opening(ItalicMark, 0, 2) && stack == [o] && Inv(State(HALVES, stack, 2))
    ensures Same(codec, State(HALVES, stack, 2), State(HALVES, stack, 4)) && Inv(State(HALVES, stack, 4))
  {
    HalvesText();
    NothingSeen(HALVES, Some(o), 2);
    NothingSeen(HALVES, Some(o), 3);
    SkipTwo(codec, HALVES, stack, 2);
  }

  /** Up to the closing italic mark. */
  lemma {:induction false} OpenItalic(codec: Codec, o: Opening)
    requires o == Opening(ItalicMark, 0, 2)
    ensures Same(codec, State(HALVES, [], 0), State(HALVES, [o], 4)) && Inv(State(HALVES, [o], 4))
  {
    ItalicPushed(codec, o, []);
    ItalicSkipped(codec, o, [o]);
    SameTrans(codec, State(HALVES, [], 0), State(HALVES, [o], 2), State(HALVES, [o], 4));
  }

  lemma {:induction false} OneLine(b: Buffer, i: nat)
    requires i <= |b| && forall k :: 0 <= k < i ==> !LineBreak(b[k].glyph)
    ensures Line(b, i) == 0
  {
    SameLine(b, 0, i);
  }

  lemma {:induction false} ItalicPieces(left: Buffer, body: Buffer, right: Buffer)
    requires left == HALVES[..0] && body == AddTag(HALVES[2..4], Italic) && right == HALVES[6..]
    ensures MET == left + body + right && |left| + |body| == 2
  {
    HalvesText();
    assert {} + {Italic} == {Italic};
    assert body[0] == MET[0] && body[1] == MET[1];
    assert body == MET[..2];
    assert right[0] == MET[2] && right[1] == MET[3] && right[2] == MET[4] && right[3] == MET[5];
    assert right == MET[2..];
    assert MET == [] + MET[..2] + MET[2..];
  }

  lemma {:induction false} BoldPieces(left: Buffer, body: Buffer, right: Buffer)
    requires left == MET[..1] && body == AddTag(MET[3..4], Bold) && right == MET[6..]
    ensures READ == left + body + right && |left| + |body| == 2
  {
    assert {} + {Bold} == {Bold};
    assert left == [READ[0]] && body == [READ[1]] && right == [];
  }

  /** Past the closing italic mark: the asterisks have met, and the scan is between them. */
  lemma {:induction false} CloseItalic(codec: Codec, o: Opening)
    requires o == Opening(ItalicMark, 0, 2) && Inv(State(HALVES, [o], 4))
    ensures Same(codec, State(HALVES, [o], 4), State(MET, [], 2))
  {
    HalvesText();
    DelimiterSeen(HALVES, Some(o), 4, ItalicMark);
    OneLine(HALVES, 4);
    var next := State(MET, [], 2);
    var left, body, right := HALVES[..0], AddTag(HALVES[2..4], Italic), HALVES[6..];
    ItalicPieces(left, body, right);
    StyleCloses(codec, HALVES, o, 4, 6, Italic, left, body, right);
    assert [o][1..] == [];
    CloseMove(codec, State(HALVES, [o], 4), next, Token(ItalicMark, 6));
  }

  lemma {:induction false} BoldPending(codec: Codec, o: Opening, none: seq<Opening>)
    requires o == Opening(BoldMark, 4, 6) && none == [] && Inv(State(MET, none, 4))
    ensures Ends(codec, State(MET, none, 4), MET)
  {
    var s4, s5 := State(MET, none, 4), State(MET, [o], 6);
    DelimiterSeen(MET, None, 4, BoldMark);
    assert [o] + none == [o];
    PushMove(codec, s4, s5, Token(BoldMark, 6));
    EndMove(codec, s5);
    assert Ends(codec, s5, MET);
  }

  /** From there on only the last two asterisks are seen, and find no partner. */
  lemma {:induction false} BoldUnmatched(codec: Codec, o: Opening)
    requires o == Opening(BoldMark, 4, 6)
    ensures Ends(codec, State(MET, [], 2), MET)
  {
    var none: seq<Opening> := [];
    NothingSeen(MET, None, 2);
    NothingSeen(MET, None, 3);
    SkipMany(codec, State(MET, none, 2), State(MET, none, 4));
    BoldPending(codec, o, none);
    assert Ends(codec, State(MET, none, 4), MET);
  }

  lemma {:induction false} FirstParse(codec: Codec)
    ensures Parsed(codec, HALVES) == MET
  {
    var o := Opening(ItalicMark, 0, 2);
    OpenItalic(codec, o);
    CloseItalic(codec, o);
    BoldUnmatched(codec, Opening(BoldMark, 4, 6));
    assert Ends(codec, State(HALVES, [o], 4), MET);
    assert Ends(codec, State(HALVES, [], 0), MET);
  }

  /** The asterisks that have met are now seen. */
  lemma {:induction false} OpenBold(codec: Codec, o: Opening, none: seq<Opening>)
    requires o == Opening(BoldMark, 1, 3) && none == []
    ensures Same(codec, State(MET, none, 0), State(MET, [o], 3)) && Inv(State(MET, [o], 3))
  {
    var s0, s1, s2 := State(MET, none, 0), State(MET, none, 1), State(MET, [o], 3);
    NothingSeen(MET, None, 0);
    SkipOne(codec, s0, s1);
    DelimiterSeen(MET, None, 1, BoldMark);
    assert [o] + none == [o];
    PushMove(codec, s1, s2, Token(BoldMark, 3));
    SameTrans(codec, s0, s1, s2);
  }

  lemma {:induction false} SecondParse(codec: Codec)
    ensures Parsed(codec, MET) == READ
  {
    var o := Opening(BoldMark, 1, 3);
    OpenBold(codec, o, []);
    var s2, s3 := State(MET, [o], 3), State(MET, [o], 4);
    NothingSeen(MET, Some(o), 3);
    SkipOne(codec, s2, s3);
    BoldRead(codec, o, s3);
    assert Ends(codec, s2, READ);
    assert Ends(codec, State(MET, [], 0), READ);
  }

  lemma {:induction false} BoldClosed(codec: Codec, o: Opening, next: State)
    requires o == Opening(BoldMark, 1, 3) && next == State(READ, [], 2)
    ensures next.buf == ClosedBuffer(codec, MET, o, 4, 6) && next.pos == ResumeAt(codec, MET, [o], 4, 6)
  {
    var left, body, right := MET[..1], AddTag(MET[3..4], Bold), MET[6..];
    BoldPieces(left, body, right);
    StyleCloses(codec, MET, o, 4, 6, Bold, left, body, right);
    assert [o][1..] == [];
  }

  lemma {:induction false} BoldRead(codec: Codec, o: Opening, s3: State)
    requires o == Opening(BoldMark, 1, 3) && s3 == State(MET, [o], 4) && Inv(s3)
    ensures Ends(codec, s3, READ)
  {
    var s4 := State(READ, [], 2);
    DelimiterSeen(MET, Some(o), 4, BoldMark);
    OneLine(MET, 1);
    OneLine(MET, 4);
    BoldClosed(codec, o, s4);
    CloseMove(codec, s3, s4, Token(BoldMark, 6));
    EndMove(codec, s4);
    assert Ends(codec, s4, READ);
  }

  /** A second parse may change the result of the first one. */
  lemma {:induction false} NotIdempotent(codec: Codec)
    ensures Parsed(codec, Parsed(codec, HALVES)) != Parsed(codec, HALVES)
  {
    FirstParse(codec);
    SecondParse(codec);
  }
}
