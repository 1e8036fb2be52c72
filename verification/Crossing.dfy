/** A text in which one parse matches two pairs that cross: once the inner pair is gone, what stood
    before it on the line turns into the end of a title, and is found when the scan goes back. */
module Crossing {
  import opened RichText
  import opened Tokens
  import opened Parser
  import opened ParserRuns
  import opened Accounting
  import opened Nesting

  const CROSSED: Buffer := Plain("= __ =__")

  /** The text when the underlined pair is gone. */
  const UNCOVERED: Buffer :=
    [Item(Chr('='), {}), Item(Chr(' '), {}), Item(Chr(' '), {Underline}), Item(Chr('='), {Underline})]

  const TITLE := Opening(Title1Start, 0, 2)
  const UNDERLINED := Opening(UnderlineMark, 2, 4)

  const INNER := Cut(UNDERLINED, [], [2, 3], [], [6, 7], [6], [], [1], [])
  const OUTER := Cut(TITLE, [], [0, 1], [], [4, 5], [4], [], [], [])

  lemma {:induction false} CrossedText()
    ensures |CROSSED| == 8
    ensures forall k :: 0 <= k < 8 ==> CROSSED[k] == Item(Chr("= __ =__"[k]), {})
  {
  }

  /** One turn of the parser with the account carried along. */
  lemma {:induction false} Turn(codec: Codec, st: State, tr: Tracked, next: State, tr': Tracked)
    requires Inv(st) && !Finished(st) && |tr.origins| == |st.buf|
    requires next == Step(codec, st) && tr' == TrackStep(codec, st, tr)
    ensures Inv(next) && |tr'.origins| == |next.buf|
    ensures Track(codec, st, tr) == Track(codec, next, tr')
  {
    StepKeepsInv(codec, st);
    StepProgress(codec, st);
  }

  lemma {:induction false} TitleOpens(codec: Codec, tr: Tracked)
    requires |tr.origins| == 8
    ensures var s0, s1 := State(CROSSED, [], 0), State(CROSSED, [TITLE], 2);
            && Inv(s0) && Inv(s1) && |CROSSED| == 8
            && Track(codec, s0, tr) == Track(codec, s1, tr)
  {
    CrossedText();
    var none: seq<Opening> := [];
    var s0 := State(CROSSED, none, 0);
    assert TokenAt(CROSSED, None, 0) == Token(Title1Start, 2);
    assert [TITLE] + none == [TITLE];
    Turn(codec, s0, tr, State(CROSSED, [TITLE], 2), tr);
  }

  lemma {:induction false} UnderlineAt(i: nat, top: Opening)
    requires (i == 2 && top == TITLE) || (i == 6 && top == UNDERLINED)
    ensures |CROSSED| == 8 && TokenAt(CROSSED, Some(top), i) == Token(UnderlineMark, i + 2)
  {
    CrossedText();
    NotIndented(CROSSED, i);
    assert Swallowed(CROSSED, i) == 0 && LineTokenAt(CROSSED, i).markup == NoMark;
    assert DelimiterAt(CROSSED, i) == UnderlineMark;
  }

  /** An equals sign stands before it. */
  lemma {:induction false} NotIndented(b: Buffer, i: nat)
    requires 0 < i <= |b| && b[0].glyph == Chr('=') && forall k :: 0 <= k < i ==> !LineBreak(b[k].glyph)
    ensures Indent(b, i) < 0
  {
    if i > 1 {
      NotIndented(b, i - 1);
    }
  }

  lemma {:induction false} UnderlineOpens(codec: Codec, tr: Tracked)
    requires |tr.origins| == 8
    ensures var s1, s2 := State(CROSSED, [TITLE], 2), State(CROSSED, [UNDERLINED, TITLE], 4);
            |CROSSED| == 8 && (Inv(s1) ==> Inv(s2) && Track(codec, s1, tr) == Track(codec, s2, tr))
  {
    var s1 := State(CROSSED, [TITLE], 2);
    UnderlineAt(2, TITLE);
    assert [UNDERLINED] + [TITLE] == [UNDERLINED, TITLE];
    if Inv(s1) {
      Turn(codec, s1, tr, State(CROSSED, [UNDERLINED, TITLE], 4), tr);
    }
  }

  lemma {:induction false} NothingInside(i: nat)
    requires i == 4 || i == 5
    ensures |CROSSED| == 8 && TokenAt(CROSSED, Some(UNDERLINED), i).markup == NoMark
  {
    CrossedText();
    NotIndented(CROSSED, i);
    assert !LineBreak(CROSSED[i].glyph);
    assert LineTokenAt(CROSSED, i).markup == NoMark && Swallowed(CROSSED, i) == 0;
    assert DelimiterAt(CROSSED, i) == NoMark;
  }

  lemma {:induction false} InsideSkipped(codec: Codec, tr: Tracked, stack: seq<Opening>)
    requires |tr.origins| == 8 && stack == [UNDERLINED, TITLE]
    ensures var s2, s3 := State(CROSSED, stack, 4), State(CROSSED, stack, 6);
            |CROSSED| == 8 && (Inv(s2) ==> Inv(s3) && Track(codec, s2, tr) == Track(codec, s3, tr))
  {
    var s2 := State(CROSSED, stack, 4);
    NothingInside(4);
    NothingInside(5);
    UnderlineAt(6, UNDERLINED);
    var top := Some(UNDERLINED);
    assert NextStop(CROSSED, top, 6) == 6 && NextStop(CROSSED, top, 5) == 6;
    if Inv(s2) {
      Turn(codec, s2, tr, State(CROSSED, stack, 6), tr);
    }
  }

  lemma {:induction false} InnerPieces(codec: Codec)
    ensures |CROSSED| == 8
    ensures ClosedBuffer(codec, CROSSED, UNDERLINED, 6, 8) == UNCOVERED
  {
    CrossedText();
    var left, body, right := CROSSED[..2], AddTag(CROSSED[4..6], Underline), CROSSED[8..];
    StyleCloses(codec, CROSSED, UNDERLINED, 6, 8, Underline, left, body, right);
    assert {} + {Underline} == {Underline};
    assert left == UNCOVERED[..2] && right == [];
    assert body[0] == UNCOVERED[2] && body[1] == UNCOVERED[3];
    assert body == UNCOVERED[2..];
    assert UNCOVERED[..2] + UNCOVERED[2..] + [] == UNCOVERED;
  }

  lemma {:induction false} InnerCut(codec: Codec, org: Origins)
    requires org == seq(8, i => i)
    ensures |CROSSED| == 8
    ensures var c := SpliceOf(codec, CROSSED, UNDERLINED, 6, 8);
            SplicedOrigins(c, org) == [0, 1, 4, 5] && CutOf(c, UNDERLINED, org) == INNER
  {
    CrossedText();
    var c := SpliceOf(codec, CROSSED, UNDERLINED, 6, 8);
    assert c == Splice(2, [], 4, 6, 8);
    assert SplicedOrigins(c, org) == org[..2] + [] + org[4..6] + org[8..];
    assert org[2..4] == [2, 3] && org[6..8] == [6, 7] && org[2..2] == [] && org[4..4] == [];
  }

  lemma {:induction false} InnerCloses(codec: Codec, tr: Tracked, stack: seq<Opening>, tr': Tracked)
    requires tr == Tracked(seq(8, i => i), []) && stack == [UNDERLINED, TITLE] && tr' == Tracked([0, 1, 4, 5], [INNER])
    ensures var s3, s4 := State(CROSSED, stack, 6), State(UNCOVERED, [TITLE], 2);
            |CROSSED| == 8 && (Inv(s3) ==> Inv(s4) && Track(codec, s3, tr) == Track(codec, s4, tr'))
  {
    var s3, s4 := State(CROSSED, stack, 6), State(UNCOVERED, [TITLE], 2);
    CrossedText();
    UnderlineAt(6, UNDERLINED);
    InnerPieces(codec);
    InnerCut(codec, tr.origins);
    SameLine(CROSSED, 2, 6);
    assert stack[1..] == [TITLE];
    if Inv(s3) {
      assert Closes(s3);
      assert tr.cuts + [INNER] == [INNER];
      Turn(codec, s3, tr, s4, tr');
    }
  }

  predicate Uncovered(b: Buffer, o: Opening) {
    b == UNCOVERED && o == TITLE
  }

  lemma {:induction false} TitleEnds(b: Buffer, o: Opening)
    requires Uncovered(b, o)
    ensures TokenAt(b, Some(o), 2) == Token(Title1End, 4)
    ensures Line(b, 0) == Line(b, 2)
  {
    NotIndented(b, 2);
    SameLine(b, 0, 2);
    SameLine(b, 0, 3);
    assert LineTokenAt(b, 2).markup == NoMark && Swallowed(b, 2) == 0;
    assert DelimiterAt(b, 2) == NoMark;
    assert TitleEndAt(b, Line(b, 0), 2, 1);
  }

  lemma {:induction false} OuterCloses(codec: Codec, b: Buffer, o: Opening, s4: State, s5: State, tr: Tracked, tr': Tracked)
    requires Uncovered(b, o) && s4 == State(b, [o], 2) && s5 == State([], [], 0) && Inv(s4)
    requires tr == Tracked([0, 1, 4, 5], [INNER]) && tr' == Tracked([], [INNER] + [OUTER])
    ensures Inv(s5) && Track(codec, s4, tr) == Track(codec, s5, tr')
  {
    TitleEnds(b, o);
    TitleMatches(b, o, s4);
    OuterCut(codec, b, o, tr.origins);
    LastTurn(codec, b, o, s4, s5, tr, tr', OUTER);
    Turn(codec, s4, tr, s5, tr');
  }

  /** A turn that closes the innermost pair. */
  lemma {:induction false} MatchTurn(codec: Codec, st: State, tr: Tracked, t: Token, next: State, tr': Tracked)
    requires Inv(st) && st.open != [] && |tr.origins| == |st.buf| && st.open[0].s < st.open[0].e <= st.pos
    requires t == TokenAt(st.buf, Some(st.open[0]), st.pos) && t.markup !in {NoMark, EndOfText} && t.end <= |st.buf|
    requires st.pos <= t.end && Closes(st)
    requires next.buf == ClosedBuffer(codec, st.buf, st.open[0], st.pos, t.end) && next.open == st.open[1..]
    requires next.pos == ResumeAt(codec, st.buf, st.open, st.pos, t.end)
    requires var c := SpliceOf(codec, st.buf, st.open[0], st.pos, t.end);
             tr' == Tracked(SplicedOrigins(c, tr.origins), tr.cuts + [CutOf(c, st.open[0], tr.origins)])
    ensures !Finished(st) && next == Step(codec, st) && tr' == TrackStep(codec, st, tr)
  {
  }

  lemma {:induction false} TitleMatches(b: Buffer, o: Opening, s4: State)
    requires Uncovered(b, o) && s4 == State(b, [o], 2) && Inv(s4)
    ensures Closes(s4)
  {
    TitleEnds(b, o);
  }

  /** A turn after which nothing is left. */
  lemma {:induction false} LastTurn(codec: Codec, b: Buffer, o: Opening, s4: State, s5: State, tr: Tracked, tr': Tracked,
                                    cut: Cut)
    requires |b| == 4 && o.s < o.e <= 2 && s4 == State(b, [o], 2) && Inv(s4) && Closes(s4) && |tr.origins| == 4
    requires TokenAt(b, Some(o), 2) == Token(Title1End, 4)
    requires ClosedBuffer(codec, b, o, 2, 4) == [] && ClosedMark(codec, b, o, 2, 4) == 0
    requires var c := SpliceOf(codec, b, o, 2, 4); SplicedOrigins(c, tr.origins) == [] && CutOf(c, o, tr.origins) == cut
    requires s5 == State([], [], 0) && tr' == Tracked([], tr.cuts + [cut])
    ensures !Finished(s4) && s5 == Step(codec, s4) && tr' == TrackStep(codec, s4, tr)
  {
    assert [o][1..] == [];
    MatchTurn(codec, s4, tr, Token(Title1End, 4), s5, tr');
  }

  lemma {:induction false} OuterCut(codec: Codec, b: Buffer, o: Opening, org: Origins)
    requires Uncovered(b, o) && org == [0, 1, 4, 5]
    ensures var c := SpliceOf(codec, b, o, 2, 4);
            && SplicedOrigins(c, org) == [] && CutOf(c, o, org) == OUTER
            && ClosedBuffer(codec, b, o, 2, 4) == [] && ClosedMark(codec, b, o, 2, 4) == 0
  {
    var c := SpliceOf(codec, b, o, 2, 4);
    assert c == Splice(0, [], 2, 2, 4);
    assert SplicedOrigins(c, org) == org[..0] + [] + org[2..2] + org[4..];
    assert org[0..2] == [0, 1] && org[2..4] == [4, 5] && org[0..0] == [] && org[2..2] == [];
    var left, body, right := b[..0], AddTag(b[2..2], Title1), b[4..];
    StyleCloses(codec, b, o, 2, 4, Title1, left, body, right);
  }

  lemma {:induction false} InnerFound(codec: Codec, tr: Tracked, tr': Tracked, s0: State, s4: State)
    requires tr == Tracked(seq(8, i => i), []) && tr' == Tracked([0, 1, 4, 5], [INNER])
    requires s0 == State(CROSSED, [], 0) && s4 == State(UNCOVERED, [TITLE], 2)
    ensures Inv(s0) && Inv(s4) && |CROSSED| == 8 && Track(codec, s0, tr) == Track(codec, s4, tr')
  {
    TitleOpens(codec, tr);
    UnderlineOpens(codec, tr);
    InsideSkipped(codec, tr, [UNDERLINED, TITLE]);
    InnerCloses(codec, tr, [UNDERLINED, TITLE], tr');
  }

  lemma {:induction false} TrackEnds(codec: Codec, st: State, tr: Tracked)
    requires Inv(st) && Finished(st) && |tr.origins| == |st.buf|
    ensures Track(codec, st, tr) == tr
  {
  }

  lemma {:induction false} Crosses()
    ensures !NestOrApart(INNER, OUTER)
  {
  }

  /** The two pairs one parse matches in this text cross. */
  lemma {:induction false} PairsCross(codec: Codec)
    ensures Account(codec, CROSSED).cuts == [INNER, OUTER]
    ensures !NestOrApart(INNER, OUTER)
  {
    CrossedText();
    Crosses();
    var tr, tr', end := Tracked(seq(|CROSSED|, i => i), []), Tracked([0, 1, 4, 5], [INNER]), Tracked([], [INNER] + [OUTER]);
    var s0, s4, s5 := State(CROSSED, [], 0), State(UNCOVERED, [TITLE], 2), State([], [], 0);
    InnerFound(codec, tr, tr', s0, s4);
    OuterCloses(codec, UNCOVERED, TITLE, s4, s5, tr', end);
    EmptyEnds(s5);
    TrackEnds(codec, s5, end);
    assert [INNER] + [OUTER] == [INNER, OUTER];
  }

  lemma {:induction false} EmptyEnds(st: State)
    requires |st.buf| == 0 && |st.open| == 0 && st.pos == 0
    ensures Inv(st) && Finished(st)
  {
    assert TokenAt(st.buf, None, st.pos) == Token(EndOfText, 0);
  }
}
