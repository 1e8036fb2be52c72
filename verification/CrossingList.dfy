/** A text in which one parse matches an underlined pair and then a list item that crosses it: the mark
    of the item stands at the start of its line only once the underline mark before it is gone. */
module CrossingList {
  import opened RichText
  import opened Tokens
  import opened Parser
  import opened ParserRuns
  import opened Accounting
  import opened Nesting
  import opened Crossing

  const LISTED: string := "**\n__- __"

  const PENDING := Opening(BoldMark, 0, 2)
  const LINE := Opening(UnderlineMark, 3, 5)
  const ITEM := Opening(ListStart, 3, 5)
  const BULLET := Item(Bullet(false), {List1})

  const LINE_CUT := Cut(LINE, [], [3, 4], [], [7, 8], [7], [], [2], [])
  const ITEM_CUT := Cut(ITEM, [], [5, 6], [], [], [], [BULLET], [2], [])

  predicate Whole(b: Buffer) {
    |b| == 9 && forall k :: 0 <= k < 9 ==> b[k] == Item(Chr(LISTED[k]), {})
  }

  /** The text when the underline marks are gone. */
  predicate Bared(b: Buffer) {
    && |b| == 5 && (forall k :: 0 <= k < 3 ==> b[k] == Item(Chr(LISTED[k]), {}))
    && b[3] == Item(Chr('-'), {Underline}) && b[4] == Item(Chr(' '), {Underline})
  }

  /** The text when the list item is read. */
  predicate Listed(b: Buffer) {
    |b| == 4 && (forall k :: 0 <= k < 3 ==> b[k].glyph == Chr(LISTED[k]) && b[k].tags == {}) && b[3] == BULLET
  }

  // ----- turns -----

  lemma {:induction false} PushTurn(codec: Codec, st: State, tr: Tracked, t: Token, next: State)
    requires Inv(st) && |tr.origins| == |st.buf| && t == TokenAt(st.buf, Top(st.open), st.pos) && Starts(t.markup)
    requires st.open != [] ==> Counterpart(st.open[0].markup) != t.markup
    requires next == State(st.buf, [Opening(t.markup, st.pos, t.end)] + st.open, t.end)
    ensures Inv(next) && Track(codec, st, tr) == Track(codec, next, tr)
  {
    TokenBounds(st.buf, Top(st.open), st.pos);
    Turn(codec, st, tr, next, tr);
  }

  lemma {:induction false} SkipTurn(codec: Codec, st: State, tr: Tracked, next: State)
    requires Inv(st) && |tr.origins| == |st.buf| && st.pos < next.pos <= |st.buf|
    requires next == st.(pos := next.pos)
    requires forall k :: st.pos <= k < next.pos ==> TokenAt(st.buf, Top(st.open), k).markup == NoMark
    requires next.pos < |st.buf| ==> TokenAt(st.buf, Top(st.open), next.pos).markup != NoMark
    ensures Inv(next) && Track(codec, st, tr) == Track(codec, next, tr)
  {
    StopAt(st.buf, Top(st.open), st.pos + 1, next.pos);
    Turn(codec, st, tr, next, tr);
  }

  lemma {:induction false} StopAt(b: Buffer, top: Option<Opening>, j: nat, n: nat)
    requires j <= n <= |b| && forall k :: j <= k < n ==> TokenAt(b, top, k).markup == NoMark
    requires n < |b| ==> TokenAt(b, top, n).markup != NoMark
    ensures NextStop(b, top, j) == n
  {
  }

  lemma {:induction false} CloseTurn(codec: Codec, st: State, tr: Tracked, t: Token, next: State, tr': Tracked)
    requires Inv(st) && st.open != [] && |tr.origins| == |st.buf| && st.open[0].s < st.open[0].e <= st.pos
    requires t == TokenAt(st.buf, Some(st.open[0]), st.pos) && t.markup !in {NoMark, EndOfText} && t.end <= |st.buf|
    requires st.pos <= t.end && Closes(st)
    requires next.buf == ClosedBuffer(codec, st.buf, st.open[0], st.pos, t.end) && next.open == st.open[1..]
    requires next.pos == ResumeAt(codec, st.buf, st.open, st.pos, t.end)
    requires var c := SpliceOf(codec, st.buf, st.open[0], st.pos, t.end);
             tr' == Tracked(SplicedOrigins(c, tr.origins), tr.cuts + [CutOf(c, st.open[0], tr.origins)])
    ensures Inv(next) && |tr'.origins| == |next.buf| && Track(codec, st, tr) == Track(codec, next, tr')
  {
    MatchTurn(codec, st, tr, t, next, tr');
    Turn(codec, st, tr, next, tr');
  }

  // ----- the underlined pair -----

  lemma {:induction false} Characters(b: Buffer, k: nat)
    requires Whole(b) && k < 9
    ensures CharAt(b, k) == LISTED[k] && !(LineBreak(b[k].glyph) && k != 2)
    ensures CharAt(b, 9) == NUL
  {
  }

  lemma {:induction false} NewlineSkipped(b: Buffer, o: Opening, i: nat)
    requires i < |b| && b[i] == Item(Chr('\n'), {}) && Style(o.markup) && o.markup != VerbatimMark
    ensures TokenAt(b, Some(o), i).markup == NoMark
  {
    assert LineTokenAt(b, i).markup == NoMark && Swallowed(b, i) == 0 && DelimiterAt(b, i) == NoMark;
  }

  lemma {:induction false} BoldOpens(codec: Codec, b: Buffer, tr: Tracked, s0: State, s1: State)
    requires Whole(b) && |tr.origins| == 9 && s0 == State(b, [], 0) && s1 == State(b, [PENDING], 2)
    ensures Inv(s0) && Inv(s1) && Track(codec, s0, tr) == Track(codec, s1, tr)
  {
    Characters(b, 0);
    Characters(b, 1);
    assert LineTokenAt(b, 0).markup == NoMark && Swallowed(b, 0) == 0 && DelimiterAt(b, 0) == BoldMark;
    assert [PENDING] + s0.open == [PENDING];
    PushTurn(codec, s0, tr, Token(BoldMark, 2), s1);
  }

  lemma {:induction false} LineMark(b: Buffer, o: Opening, i: nat)
    requires Whole(b) && (i == 3 || i == 7) && Style(o.markup) && o.markup != VerbatimMark
    ensures TokenAt(b, Some(o), i) == Token(UnderlineMark, i + 2)
  {
    Characters(b, i);
    Characters(b, i + 1);
    assert LineTokenAt(b, i).markup == NoMark && Swallowed(b, i) == 0 && DelimiterAt(b, i) == UnderlineMark;
  }

  lemma {:induction false} LineOpens(codec: Codec, b: Buffer, tr: Tracked, s1: State, s2: State, s3: State)
    requires Whole(b) && |tr.origins| == 9 && s1 == State(b, [PENDING], 2) && Inv(s1)
    requires s2 == State(b, [PENDING], 3) && s3 == State(b, [LINE, PENDING], 5)
    ensures Inv(s3) && Track(codec, s1, tr) == Track(codec, s3, tr)
  {
    NewlineSkipped(b, PENDING, 2);
    LineMark(b, PENDING, 3);
    SkipTurn(codec, s1, tr, s2);
    assert [LINE] + s2.open == [LINE, PENDING];
    PushTurn(codec, s2, tr, Token(UnderlineMark, 5), s3);
  }

  lemma {:induction false} NothingInLine(b: Buffer, i: nat)
    requires Whole(b) && (i == 5 || i == 6)
    ensures TokenAt(b, Some(LINE), i).markup == NoMark
  {
    Characters(b, i);
    Characters(b, i + 1);
    Characters(b, 4);
    assert Indent(b, 5) < 0;
    assert Indent(b, i) < 0;
    assert DelimiterAt(b, i) == NoMark;
  }

  lemma {:induction false} LineEnds(codec: Codec, b: Buffer, tr: Tracked, s3: State, s4: State)
    requires Whole(b) && |tr.origins| == 9 && s3 == State(b, [LINE, PENDING], 5) && Inv(s3)
    requires s4 == State(b, [LINE, PENDING], 7)
    ensures Inv(s4) && Track(codec, s3, tr) == Track(codec, s4, tr)
  {
    NothingInLine(b, 5);
    NothingInLine(b, 6);
    LineMark(b, LINE, 7);
    SkipTurn(codec, s3, tr, s4);
  }

  lemma {:induction false} SameLineIn(b: Buffer, i: nat, j: nat)
    requires i <= j <= |b| && forall k :: i <= k < j ==> !LineBreak(b[k].glyph)
    ensures Line(b, i) == Line(b, j)
  {
    SameLine(b, i, j);
  }

  lemma {:induction false} LinePieces(codec: Codec, b: Buffer, c: Buffer)
    requires Whole(b) && c == ClosedBuffer(codec, b, LINE, 7, 9)
    ensures Bared(c)
  {
    StyleCloses(codec, b, LINE, 7, 9, Underline, b[..3], AddTag(b[5..7], Underline), b[9..]);
    var body := AddTag(b[5..7], Underline);
    assert {} + {Underline} == {Underline};
    assert b[5] == Item(Chr('-'), {}) && b[6] == Item(Chr(' '), {});
    assert body[0] == Item(Chr('-'), {Underline}) && body[1] == Item(Chr(' '), {Underline});
  }

  lemma {:induction false} LineCut(codec: Codec, b: Buffer, org: Origins)
    requires Whole(b) && |org| == 9 && forall k :: 0 <= k < 9 ==> org[k] == k
    ensures var c := SpliceOf(codec, b, LINE, 7, 9);
            SplicedOrigins(c, org) == [0, 1, 2, 5, 6] && CutOf(c, LINE, org) == LINE_CUT
  {
    var c := SpliceOf(codec, b, LINE, 7, 9);
    assert c == Splice(3, [], 5, 7, 9);
    assert SplicedOrigins(c, org) == org[..3] + [] + org[5..7] + org[9..];
    assert org[3..5] == [3, 4] && org[7..9] == [7, 8] && org[3..3] == [] && org[5..5] == [];
  }

  lemma {:induction false} LineCloses(codec: Codec, b: Buffer, c: Buffer, tr: Tracked, s4: State, s5: State, tr1: Tracked)
    requires Whole(b) && c == ClosedBuffer(codec, b, LINE, 7, 9) && s4 == State(b, [LINE, PENDING], 7) && Inv(s4)
    requires |tr.origins| == 9 && (forall k :: 0 <= k < 9 ==> tr.origins[k] == k) && tr.cuts == []
    requires s5 == State(c, [PENDING], 2) && tr1 == Tracked([0, 1, 2, 5, 6], [LINE_CUT])
    ensures Inv(s5) && Bared(c) && Track(codec, s4, tr) == Track(codec, s5, tr1)
  {
    LineMark(b, LINE, 7);
    SameLineIn(b, 3, 7);
    LinePieces(codec, b, c);
    LineCut(codec, b, tr.origins);
    assert s4.open[1..] == [PENDING];
    assert tr.cuts + [LINE_CUT] == [LINE_CUT];
    CloseTurn(codec, s4, tr, Token(UnderlineMark, 9), s5, tr1);
  }

  // ----- the list item -----

  lemma {:induction false} ItemMark(c: Buffer)
    requires Bared(c)
    ensures Indent(c, 3) == 0
    ensures TokenAt(c, Some(PENDING), 2).markup == NoMark
    ensures TokenAt(c, Some(PENDING), 3) == Token(ListStart, 5)
  {
    assert c[2] == Item(Chr('\n'), {});
    NewlineSkipped(c, PENDING, 2);
    assert StartsLine(c, 3);
    assert CharAt(c, 3) == '-' && CharAt(c, 4) == ' ';
    assert LineTokenAt(c, 3) == Token(ListStart, 5);
    assert !LineBreak(c[3].glyph);
  }

  lemma {:induction false} ItemOpens(codec: Codec, c: Buffer, tr: Tracked, s5: State, s6: State, s7: State)
    requires Bared(c) && |tr.origins| == 5 && s5 == State(c, [PENDING], 2) && Inv(s5)
    requires s6 == State(c, [PENDING], 3) && s7 == State(c, [ITEM, PENDING], 5)
    ensures Inv(s7) && Track(codec, s5, tr) == Track(codec, s7, tr)
  {
    ItemMark(c);
    SkipTurn(codec, s5, tr, s6);
    assert [ITEM] + s6.open == [ITEM, PENDING];
    PushTurn(codec, s6, tr, Token(ListStart, 5), s7);
  }

  lemma {:induction false} ItemEnd(c: Buffer)
    requires Bared(c)
    ensures TokenAt(c, Some(ITEM), 5) == Token(ListEnd, 5) && Line(c, 3) == Line(c, 5)
  {
    SameLineIn(c, 3, 5);
  }

  lemma {:induction false} ItemSplice(codec: Codec, c: Buffer, org: Origins)
    requires Bared(c) && org == [0, 1, 2, 5, 6]
    ensures var x := SpliceOf(codec, c, ITEM, 5, 5);
            && x == Splice(3, [BULLET], 5, 5, 5)
            && SplicedOrigins(x, org) == [0, 1, 2, NEW] && CutOf(x, ITEM, org) == ITEM_CUT
  {
    ItemMark(c);
    var x := SpliceOf(codec, c, ITEM, 5, 5);
    assert x == Splice(3, [BULLET], 5, 5, 5);
    assert SplicedOrigins(x, org) == org[..3] + [NEW] + org[5..5] + org[5..];
    assert org[3..5] == [5, 6] && org[5..5] == [] && org[3..3] == [];
  }

  lemma {:induction false} ItemPieces(codec: Codec, c: Buffer, e: Buffer)
    requires Bared(c) && e == ClosedBuffer(codec, c, ITEM, 5, 5)
    ensures Listed(e)
  {
    ItemSplice(codec, c, [0, 1, 2, 5, 6]);
    var head := KeepOnLast(c[..3], List1);
    assert e == head + [BULLET] + c[5..5] + c[5..];
    assert head[2].tags == {};
  }

  lemma {:induction false} ItemCloses(codec: Codec, c: Buffer, e: Buffer, tr1: Tracked, s7: State, s8: State, tr2: Tracked)
    requires Bared(c) && e == ClosedBuffer(codec, c, ITEM, 5, 5) && s7 == State(c, [ITEM, PENDING], 5) && Inv(s7)
    requires tr1.origins == [0, 1, 2, 5, 6]
    requires s8 == State(e, [PENDING], 2) && tr2 == Tracked([0, 1, 2, NEW], tr1.cuts + [ITEM_CUT])
    ensures Inv(s8) && Listed(e) && Track(codec, s7, tr1) == Track(codec, s8, tr2)
  {
    ItemEnd(c);
    ItemSplice(codec, c, tr1.origins);
    ItemPieces(codec, c, e);
    assert s7.open[1..] == [PENDING];
    CloseTurn(codec, s7, tr1, Token(ListEnd, 5), s8, tr2);
  }

  lemma {:induction false} NothingLeft(codec: Codec, e: Buffer, tr2: Tracked, s8: State, s9: State)
    requires Listed(e) && |tr2.origins| == 4 && s8 == State(e, [PENDING], 2) && Inv(s8) && s9 == State(e, [PENDING], 4)
    ensures Inv(s9) && Track(codec, s8, tr2) == tr2
  {
    assert e[2].glyph == Chr('\n') && e[2].tags == {};
    NewlineSkipped(e, PENDING, 2);
    BulletSkipped(e);
    SkipTurn(codec, s8, tr2, s9);
    assert TokenAt(e, Some(PENDING), 4).markup == EndOfText;
    TrackEnds(codec, s9, tr2);
  }

  lemma {:induction false} BulletSkipped(e: Buffer)
    requires Listed(e)
    ensures TokenAt(e, Some(PENDING), 3).markup == NoMark
  {
    assert CharAt(e, 3) == OTHER && CharAt(e, 4) == NUL;
    assert LineTokenAt(e, 3).markup == NoMark && Swallowed(e, 3) == 0 && DelimiterAt(e, 3) == NoMark;
  }

  // ----- both -----

  lemma {:induction false} LineFound(codec: Codec, b: Buffer, c: Buffer, tr: Tracked, tr1: Tracked, s0: State, s5: State)
    requires Whole(b) && c == ClosedBuffer(codec, b, LINE, 7, 9) && s0 == State(b, [], 0) && s5 == State(c, [PENDING], 2)
    requires |tr.origins| == 9 && (forall k :: 0 <= k < 9 ==> tr.origins[k] == k) && tr.cuts == []
    requires tr1 == Tracked([0, 1, 2, 5, 6], [LINE_CUT])
    ensures Inv(s0) && Inv(s5) && Bared(c) && Track(codec, s0, tr) == Track(codec, s5, tr1)
  {
    var s1, s2, s3 := State(b, [PENDING], 2), State(b, [PENDING], 3), State(b, [LINE, PENDING], 5);
    var s4 := State(b, [LINE, PENDING], 7);
    BoldOpens(codec, b, tr, s0, s1);
    LineOpens(codec, b, tr, s1, s2, s3);
    LineEnds(codec, b, tr, s3, s4);
    LineCloses(codec, b, c, tr, s4, s5, tr1);
  }

  lemma {:induction false} ItemTurns(codec: Codec, c: Buffer, e: Buffer, tr1: Tracked, tr2: Tracked, s5: State, s8: State)
    requires Bared(c) && s5 == State(c, [PENDING], 2) && Inv(s5) && tr1.origins == [0, 1, 2, 5, 6]
    requires e == ClosedBuffer(codec, c, ITEM, 5, 5) && s8 == State(e, [PENDING], 2)
    requires tr2 == Tracked([0, 1, 2, NEW], tr1.cuts + [ITEM_CUT])
    ensures Inv(s8) && Listed(e) && Track(codec, s5, tr1) == Track(codec, s8, tr2)
  {
    var s7 := State(c, [ITEM, PENDING], 5);
    ItemOpens(codec, c, tr1, s5, State(c, [PENDING], 3), s7);
    ItemCloses(codec, c, e, tr1, s7, s8, tr2);
  }

  lemma {:induction false} ItemFound(codec: Codec, c: Buffer, tr1: Tracked, s5: State)
    requires Bared(c) && s5 == State(c, [PENDING], 2) && Inv(s5) && tr1 == Tracked([0, 1, 2, 5, 6], [LINE_CUT])
    ensures Track(codec, s5, tr1).cuts == [LINE_CUT, ITEM_CUT]
  {
    var e := ClosedBuffer(codec, c, ITEM, 5, 5);
    var s8, tr2 := State(e, [PENDING], 2), Tracked([0, 1, 2, NEW], tr1.cuts + [ITEM_CUT]);
    ItemTurns(codec, c, e, tr1, tr2, s5, s8);
    NothingLeft(codec, e, tr2, s8, State(e, [PENDING], 4));
    assert tr1.cuts + [ITEM_CUT] == [LINE_CUT, ITEM_CUT];
  }

  lemma {:induction false} ItemCrosses()
    ensures !NestOrApart(LINE_CUT, ITEM_CUT)
  {
  }

  lemma {:induction false} AccountTrack(codec: Codec, b: Buffer, s0: State) returns (tr: Tracked)
    requires s0 == State(b, [], 0)
    ensures |tr.origins| == |b| && (forall k :: 0 <= k < |b| ==> tr.origins[k] == k) && tr.cuts == []
    ensures Inv(s0) && Account(codec, b) == Track(codec, s0, tr)
  {
    tr := Tracked(seq(|b|, i => i), []);
  }

  /** The list item that comes to light crosses the underlined pair. */
  lemma {:induction false} ItemCrossesPair(codec: Codec, b: Buffer)
    requires Whole(b)
    ensures Account(codec, b).cuts == [LINE_CUT, ITEM_CUT] && !NestOrApart(LINE_CUT, ITEM_CUT)
  {
    var c := ClosedBuffer(codec, b, LINE, 7, 9);
    var tr1 := Tracked([0, 1, 2, 5, 6], [LINE_CUT]);
    var s0, s5 := State(b, [], 0), State(c, [PENDING], 2);
    var tr := AccountTrack(codec, b, s0);
    LineFound(codec, b, c, tr, tr1, s0, s5);
    ItemFound(codec, c, tr1, s5);
    ItemCrosses();
  }
}
