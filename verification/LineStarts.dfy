/** What is read at the start of a line: equals signs before a delimiter go with it, and white space
    before the mark of a list item makes it a nested one. */
module LineStarts {
  import opened RichText
  import opened Tokens
  import opened TokenRules
  import opened Parser
  import opened ParserRuns
  import opened Streams
  import opened Reading
  import opened Frames
  import opened ReadBack
  import TitleLines

  predicate PlainText(x: string) {
    forall k :: 0 <= k < |x| ==> PlainChar(x[k])
  }

  // ----- equals signs before a delimiter -----

  predicate EqualsSigns(lead: string) {
    lead == "=" || lead == "=="
  }

  /** The buffer holds `lead`, two asterisks, `x` and two asterisks. */
  predicate LedBold(b: Buffer, lead: string, x: string) {
    && EqualsSigns(lead) && |b| == |lead| + 4 + |x|
    && (forall k :: 0 <= k < |lead| ==> b[k] == Item(Chr('='), {}))
    && (forall k :: |lead| <= k < |lead| + 2 ==> b[k] == Item(Chr('*'), {}))
    && (forall k :: 0 <= k < |x| ==> b[|lead|+2+k] == Item(Chr(x[k]), {}))
    && (forall k :: |b| - 2 <= k < |b| ==> b[k] == Item(Chr('*'), {}))
  }

  lemma {:induction false} LedBoldPlain(lead: string, x: string)
    requires EqualsSigns(lead)
    ensures LedBold(Plain(lead + "**" + x + "**"), lead, x)
  {
    var s := lead + "**" + x + "**";
    forall k | 0 <= k < |x| ensures s[|lead|+2+k] == x[k] {
    }
  }

  lemma {:induction false} LedOpens(b: Buffer, lead: string, x: string)
    requires LedBold(b, lead, x)
    ensures TokenAt(b, None, 0) == Token(BoldMark, |lead| + 2)
  {
    var n := |lead|;
    assert Indented(b, 0, 0);
    ReadsTwo(b, 0, '=', '=');
    assert "==" == ['=', '='] && "=" == ['='];
    assert CharAt(b, 0) == '=' && CharAt(b, n) == '*' && (n == 2 ==> CharAt(b, 1) == '=');
    assert Lead(b, 0, n);
    assert Reads(b, n, "**");
    DelimitersExactly(b, None, 0, BoldMark, n);
  }

  lemma {:induction false} LedCloses(b: Buffer, lead: string, x: string, o: Opening)
    requires LedBold(b, lead, x) && PlainText(x) && o == Opening(BoldMark, 0, |lead| + 2)
    ensures TokenAt(b, Some(o), |b| - 2) == Token(BoldMark, |b|)
    ensures Line(b, 0) == Line(b, |b| - 2)
  {
    var c := |b| - 2;
    ReadsTwo(b, c, '=', '=');
    ReadsTwo(b, c, '-', '-');
    assert "==" == ['=', '='] && "=" == ['='] && "-" == ['-'] && CharAt(b, c) == '*';
    assert Lead(b, c, 0) && Reads(b, c, "**");
    DelimitersExactly(b, Some(o), c, BoldMark, 0);
    forall k | 0 <= k < c ensures !LineBreak(b[k].glyph) {
      assert |lead| + 2 <= k ==> b[|lead|+2+(k-|lead|-2)].glyph == Chr(x[k-|lead|-2]);
    }
    SameLine(b, 0, c);
  }

  lemma {:induction false} LedSkips(codec: Codec, b: Buffer, lead: string, x: string, o: Opening, stack: seq<Opening>)
    requires LedBold(b, lead, x) && PlainText(x) && o == Opening(BoldMark, 0, |lead| + 2) && stack == [o]
    requires Inv(State(b, stack, |lead| + 2))
    ensures Same(codec, State(b, stack, |lead| + 2), State(b, stack, |b| - 2)) && Inv(State(b, stack, |b| - 2))
  {
    forall k | |lead| + 2 <= k < |b| - 2 ensures TokenAt(b, Top(stack), k).markup == NoMark {
      assert b[|lead|+2+(k-|lead|-2)].glyph == Chr(x[k-|lead|-2]);
      InertAt(b, Some(o), k);
    }
    SkipMany(codec, State(b, stack, |lead| + 2), State(b, stack, |b| - 2));
  }

  predicate AllBold(r: Buffer, x: string) {
    |r| == |x| && forall k :: 0 <= k < |x| ==> r[k] == Item(Chr(x[k]), {Bold})
  }

  lemma {:induction false} LedPieces(b: Buffer, lead: string, x: string, body: Buffer)
    requires LedBold(b, lead, x) && body == AddTag(b[|lead|+2..|b|-2], Bold)
    ensures AllBold(body, x)
  {
    forall k | 0 <= k < |x| ensures body[k] == Item(Chr(x[k]), {Bold}) {
      assert b[|lead|+2..|b|-2][k] == b[|lead|+2+k];
      assert {} + {Bold} == {Bold};
    }
  }

  lemma {:induction false} LedRead(codec: Codec, b: Buffer, lead: string, x: string, o: Opening, stack: seq<Opening>,
                                   body: Buffer)
    requires LedBold(b, lead, x) && PlainText(x) && o == Opening(BoldMark, 0, |lead| + 2) && stack == [o]
    requires body == AddTag(b[|lead|+2..|b|-2], Bold) && Inv(State(b, stack, |b| - 2))
    ensures Ends(codec, State(b, stack, |b| - 2), body)
  {
    var next := State(body, [], |body|);
    LedCloses(b, lead, x, o);
    LedClosed(codec, b, o, body);
    assert stack[1..] == [];
    CloseMove(codec, State(b, stack, |b| - 2), next, Token(BoldMark, |b|));
    EndMove(codec, next);
    assert Ends(codec, next, body);
  }

  lemma {:induction false} LedClosed(codec: Codec, b: Buffer, o: Opening, body: Buffer)
    requires o.markup == BoldMark && o.s == 0 && 0 < o.e <= |b| - 2 && body == AddTag(b[o.e..|b|-2], Bold)
    ensures ClosedBuffer(codec, b, o, |b| - 2, |b|) == body && ClosedMark(codec, b, o, |b| - 2, |b|) == |body|
  {
    assert b[..0] == [] && b[|b|..] == [];
    StyleCloses(codec, b, o, |b| - 2, |b|, Bold, [], body, []);
    assert [] + body + [] == body;
  }

  /** One or two equals signs right before bold text at the start of the text go with its mark. */
  lemma {:induction false} EqualsBeforeBold(codec: Codec, lead: string, x: string)
    requires EqualsSigns(lead) && PlainText(x)
    ensures AllBold(Parsed(codec, Plain(lead + "**" + x + "**")), x)
  {
    var b := Plain(lead + "**" + x + "**");
    var o, none: seq<Opening> := Opening(BoldMark, 0, |lead| + 2), [];
    var body := AddTag(b[|lead|+2..|b|-2], Bold);
    LedBoldPlain(lead, x);
    LedOpens(b, lead, x);
    assert [o] + none == [o];
    PushMove(codec, State(b, none, 0), State(b, [o], |lead| + 2), Token(BoldMark, |lead| + 2));
    LedSkips(codec, b, lead, x, o, [o]);
    LedRead(codec, b, lead, x, o, [o], body);
    LedPieces(b, lead, x, body);
    SameTrans(codec, State(b, none, 0), State(b, [o], |lead| + 2), State(b, [o], |b| - 2));
    EndsSame(codec, State(b, none, 0), State(b, [o], |b| - 2), body);
  }

  // ----- indented list items -----

  /** White space that stays on its line. */
  predicate Indentation(ws: string) {
    forall k :: 0 <= k < |ws| ==> WhiteSpace(Chr(ws[k])) && ws[k] !in {'\n', '\r', '\U{2029}'}
  }

  /** After `l` come the white space, the mark and the words of a list item. */
  predicate ItemLine(b: Buffer, l: Buffer, ws: string, x: string) {
    && |b| == |l| + |ws| + 2 + |x| && b[..|l|] == l
    && (forall k :: 0 <= k < |ws| ==> b[|l|+k] == Item(Chr(ws[k]), {}))
    && b[|l|+|ws|] == Item(Chr('-'), {}) && b[|l|+|ws|+1] == Item(Chr(' '), {})
    && b[|l|+|ws|+2..] == Plain(x)
  }

  lemma {:induction false} ItemLinePlain(l: Buffer, ws: string, x: string)
    ensures ItemLine(l + Plain(ws + "- " + x), l, ws, x)
  {
    var s := ws + "- " + x;
    assert s[|ws|+2..] == x;
    assert Plain(s)[|ws|+2..] == Plain(x);
  }

  lemma {:induction false} ItemIndented(b: Buffer, l: Buffer, ws: string, x: string)
    requires ItemLine(b, l, ws, x) && Indentation(ws) && StartsLine(l, |l|)
    ensures Indented(b, |l|, |l| + |ws|) && Indent(b, |l| + |ws|) == |ws|
  {
    assert |l| > 0 ==> b[|l|-1] == l[|l|-1];
    assert b[|l|].glyph != Chr('\n') by {
      if |ws| > 0 {
        assert b[|l|+0] == Item(Chr(ws[0]), {});
      }
    }
    LineRules(l, |l|);
    assert BeginsLine(b, |l|);
    forall k | |l| <= k < |l| + |ws| ensures WhiteSpace(b[k].glyph) && !LineBreak(b[k].glyph) {
      assert b[|l|+(k-|l|)] == Item(Chr(ws[k-|l|]), {});
    }
    var p := |l| + |ws|;
    IndentExactly(b, p);
    assert Indented(b, |l|, p);
  }

  lemma {:induction false} ItemMark(b: Buffer, l: Buffer, ws: string, x: string, p: nat)
    requires ItemLine(b, l, ws, x) && Indentation(ws) && StartsLine(l, |l|) && p == |l| + |ws|
    ensures TokenAt(b, None, p) == Token(ListStart, p + 2)
  {
    ItemIndented(b, l, ws, x);
    assert Reads(b, p, "- ");
    LineMarksExactly(b, None, p, Token(ListStart, p + 2));
  }

  lemma {:induction false} PlainIsInert(b: Buffer, k: nat, c: char)
    requires k < |b| && b[k] == Item(Chr(c), {}) && (PlainChar(c) || (WhiteSpace(Chr(c)) && c !in {'\n', '\r', '\U{2029}'}))
    ensures InertItem(b[k])
  {
  }

  lemma {:induction false} SkipIndent(codec: Codec, b: Buffer, l: Buffer, ws: string, x: string, none: seq<Opening>,
                                      st: State, next: State)
    requires ItemLine(b, l, ws, x) && Indentation(ws) && none == []
    requires st == State(b, none, |l|) && next == State(b, none, |l| + |ws|) && Inv(st)
    ensures Same(codec, st, next) && Inv(next)
  {
    forall k | |l| <= k < |l| + |ws| ensures TokenAt(b, Top(none), k).markup == NoMark {
      assert b[|l|+(k-|l|)] == Item(Chr(ws[k-|l|]), {});
      PlainIsInert(b, k, ws[k-|l|]);
      InertAt(b, None, k);
    }
    SkipMany(codec, st, next);
  }

  lemma {:induction false} SkipItem(codec: Codec, b: Buffer, l: Buffer, ws: string, x: string, o: Opening,
                                    stack: seq<Opening>, st: State, last: State)
    requires ItemLine(b, l, ws, x) && PlainText(x) && stack == [o] && o == Opening(ListStart, |l| + |ws|, |l| + |ws| + 2)
    requires st == State(b, stack, o.e) && last == State(b, stack, |b|) && Inv(st)
    ensures Same(codec, st, last) && Inv(last)
  {
    forall k | o.e <= k < |b| ensures TokenAt(b, Top(stack), k).markup == NoMark {
      WordInert(b, l, ws, x, k);
      InertAtItem(b, o, k);
    }
    SkipMany(codec, st, last);
  }

  lemma {:induction false} WordInert(b: Buffer, l: Buffer, ws: string, x: string, k: nat)
    requires ItemLine(b, l, ws, x) && PlainText(x) && |l| + |ws| + 2 <= k < |b|
    ensures InertItem(b[k]) && !LineBreak(b[k].glyph)
  {
    var e := |l| + |ws| + 2;
    assert b[k] == b[e..][k-e];
    assert b[k] == Item(Chr(x[k-e]), {});
  }

  lemma {:induction false} ItemOnLine(b: Buffer, l: Buffer, ws: string, x: string)
    requires ItemLine(b, l, ws, x) && PlainText(x)
    ensures Line(b, |l| + |ws|) == Line(b, |b|)
  {
    var p := |l| + |ws|;
    forall k | p <= k < |b| ensures !LineBreak(b[k].glyph) {
      if k >= p + 2 {
        WordInert(b, l, ws, x, k);
      }
    }
    SameLine(b, p, |b|);
  }

  lemma {:induction false} InertAtItem(b: Buffer, o: Opening, k: nat)
    requires k < |b| && InertItem(b[k]) && !LineBreak(b[k].glyph) && o.markup == ListStart
    ensures TokenAt(b, Some(o), k).markup == NoMark
  {
    InertAt(b, Some(o), k);
  }

  /** The buffer when the item is read. */
  function Itemized(l: Buffer, x: string): Buffer {
    l + [Item(Bullet(true), {List2})] + Plain(x)
  }

  lemma {:induction false} ItemClosed(codec: Codec, b: Buffer, l: Buffer, ws: string, x: string, o: Opening)
    requires ItemLine(b, l, ws, x) && Indentation(ws) && ws != "" && StartsLine(l, |l|)
    requires l != [] ==> l[|l|-1].tags == {}
    requires o == Opening(ListStart, |l| + |ws|, |l| + |ws| + 2)
    ensures ClosedBuffer(codec, b, o, |b|, |b|) == Itemized(l, x)
    ensures |l| <= ClosedMark(codec, b, o, |b|, |b|) <= |Itemized(l, x)|
  {
    ItemIndented(b, l, ws, x);
    NothingStripped(l, List2);
    assert b[|b|..] == [] && b[o.e..|b|] == Plain(x);
    ItemSpliced(codec, b, l, ws, x, o, SpliceOf(codec, b, o, |b|, |b|));
  }

  lemma {:induction false} NothingStripped(l: Buffer, t: Tag)
    requires l != [] ==> l[|l|-1].tags == {}
    ensures KeepOnLast(l, t) == l
  {
    assert l != [] ==> l[|l|-1].tags * {t} == {};
  }

  lemma {:induction false} ItemSpliced(codec: Codec, b: Buffer, l: Buffer, ws: string, x: string, o: Opening, c: Splice)
    requires |l| + |ws| + 2 + |x| == |b| && b[..|l|] == l && KeepOnLast(l, List2) == l && ws != ""
    requires o == Opening(ListStart, |l| + |ws|, |l| + |ws| + 2) && Indent(b, o.s) == |ws|
    requires b[|b|..] == [] && b[o.e..|b|] == Plain(x) && c == SpliceOf(codec, b, o, |b|, |b|)
    ensures ClosedBuffer(codec, b, o, |b|, |b|) == Itemized(l, x)
    ensures |l| <= ClosedMark(codec, b, o, |b|, |b|) <= |Itemized(l, x)|
  {
    assert c == Splice(|l|, [Item(Bullet(true), {List2})], o.e, |b|, |b|);
    assert l + [Item(Bullet(true), {List2})] + Plain(x) + [] == Itemized(l, x);
  }

  lemma {:induction false} RestInert(codec: Codec, r: Buffer, pos: nat, none: seq<Opening>)
    requires pos <= |r| && none == [] && forall k :: pos <= k < |r| ==> InertItem(r[k])
    ensures Ends(codec, State(r, none, pos), r)
  {
    forall k | pos <= k < |r| ensures TokenAt(r, Top(none), k).markup == NoMark {
      InertAt(r, None, k);
    }
    SkipMany(codec, State(r, none, pos), State(r, none, |r|));
    EndMove(codec, State(r, none, |r|));
    EndsSame(codec, State(r, none, pos), State(r, none, |r|), r);
  }

  lemma {:induction false} ItemRead(codec: Codec, b: Buffer, l: Buffer, ws: string, x: string, o: Opening,
                                    stack: seq<Opening>, last: State)
    requires ItemLine(b, l, ws, x) && Indentation(ws) && ws != "" && PlainText(x) && StartsLine(l, |l|)
    requires l != [] ==> l[|l|-1].tags == {}
    requires stack == [o] && o == Opening(ListStart, |l| + |ws|, |l| + |ws| + 2)
    requires last == State(b, stack, |b|) && Inv(last) && Line(b, |l| + |ws|) == Line(b, |b|)
    ensures Ends(codec, last, Itemized(l, x))
  {
    var r, pos := Itemized(l, x), ClosedMark(codec, b, o, |b|, |b|);
    ItemClosed(codec, b, l, ws, x, o);
    ItemizedInert(l, x);
    RestInert(codec, r, pos, []);
    ItemMatched(codec, b, o, stack, r, pos);
    EndsSame(codec, last, State(r, [], pos), r);
  }

  lemma {:induction false} ItemizedInert(l: Buffer, x: string)
    requires PlainText(x)
    ensures forall k :: |l| <= k < |Itemized(l, x)| ==> InertItem(Itemized(l, x)[k])
  {
  }

  lemma {:induction false} ItemMatched(codec: Codec, b: Buffer, o: Opening, stack: seq<Opening>, r: Buffer, pos: nat)
    requires stack == [o] && o.markup == ListStart && Inv(State(b, stack, |b|)) && o.s < o.e <= |b|
    requires Line(b, o.s) == Line(b, |b|)
    requires r == ClosedBuffer(codec, b, o, |b|, |b|) && pos == ClosedMark(codec, b, o, |b|, |b|) <= |r|
    ensures Same(codec, State(b, stack, |b|), State(r, [], pos))
  {
    assert TokenAt(b, Some(o), |b|) == Token(ListEnd, |b|);
    assert stack[1..] == [];
    CloseMove(codec, State(b, stack, |b|), State(r, [], pos), Token(ListEnd, |b|));
  }

  lemma {:induction false} ItemOpened(codec: Codec, b: Buffer, l: Buffer, ws: string, x: string, none: seq<Opening>,
                                      o: Opening, p: nat, st: State, next: State)
    requires ItemLine(b, l, ws, x) && Indentation(ws) && StartsLine(l, |l|) && none == []
    requires p == |l| + |ws| && o == Opening(ListStart, p, p + 2)
    requires st == State(b, none, |l|) && next == State(b, [o], p + 2) && Inv(st)
    ensures Same(codec, st, next) && Inv(next)
  {
    var mid := State(b, none, p);
    SkipIndent(codec, b, l, ws, x, none, st, mid);
    ItemMark(b, l, ws, x, p);
    ItemPushed(codec, b, none, o, p, mid, next);
    SameTrans(codec, st, mid, next);
  }

  lemma {:induction false} ItemPushed(codec: Codec, b: Buffer, none: seq<Opening>, o: Opening, p: nat,
                                      st: State, next: State)
    requires none == [] && st == State(b, none, p) && Inv(st) && TokenAt(b, None, p) == Token(ListStart, p + 2)
    requires o == Opening(ListStart, p, p + 2) && next == State(b, [o], p + 2)
    ensures Same(codec, st, next) && Inv(next)
  {
    assert Top(none) == None && [o] + none == [o];
    PushMove(codec, st, next, Token(ListStart, p + 2));
  }

  lemma {:induction false} ItemFinished(codec: Codec, b: Buffer, l: Buffer, ws: string, x: string, o: Opening,
                                        stack: seq<Opening>, st: State, last: State)
    requires ItemLine(b, l, ws, x) && Indentation(ws) && ws != "" && PlainText(x) && StartsLine(l, |l|)
    requires l != [] ==> l[|l|-1].tags == {}
    requires stack == [o] && o == Opening(ListStart, |l| + |ws|, |l| + |ws| + 2)
    requires st == State(b, stack, o.e) && last == State(b, stack, |b|) && Inv(st)
    ensures Ends(codec, st, Itemized(l, x))
  {
    SkipItem(codec, b, l, ws, x, o, stack, st, last);
    ItemOnLine(b, l, ws, x);
    ItemRead(codec, b, l, ws, x, o, stack, last);
    EndsSame(codec, st, last, Itemized(l, x));
  }

  lemma {:induction false} IndentedItem(codec: Codec, b: Buffer, l: Buffer, ws: string, x: string, none: seq<Opening>)
    requires ItemLine(b, l, ws, x) && Indentation(ws) && ws != "" && PlainText(x) && StartsLine(l, |l|)
    requires (l != [] ==> l[|l|-1].tags == {}) && none == [] && Inv(State(b, none, |l|))
    ensures Ends(codec, State(b, none, |l|), Itemized(l, x))
  {
    var p := |l| + |ws|;
    var o := Opening(ListStart, p, p + 2);
    var stack := [o];
    var st, next := State(b, none, |l|), State(b, stack, p + 2);
    ItemOpened(codec, b, l, ws, x, none, o, p, st, next);
    ItemFinished(codec, b, l, ws, x, o, stack, next, State(b, stack, |b|));
    EndsSame(codec, st, next, Itemized(l, x));
  }

  lemma {:induction false} LineIsFresh(l: Buffer, none: seq<Opening>)
    requires Following(l, none, START) && none == []
    ensures StartsLine(l, |l|) && (l != [] ==> l[|l|-1].tags == {}) && Read(l, none, [], false) == l
  {
    FollowItem(l, none, START, List1);
  }

  /** Whatever was read before, up to the start of a line: white space, a hyphen and a space make the rest
      of the line a nested list item. */
  lemma {:induction false} IndentedItemNests(codec: Codec, es: Stream, ws: string, x: string, text: string)
    requires ReadableSoFar(START, es) && AllFaithful(codec, es) && FeedAll(START, es) == START
    requires Indentation(ws) && ws != "" && PlainText(x) && text == Text(codec, es) + (ws + "- " + x)
    ensures Parsed(codec, Plain(text)) == Meaning([], es) + [Item(Bullet(true), {List2})] + Plain(x)
  {
    var none: seq<Opening> := [];
    var s := ws + "- " + x;
    var l := TitleLines.ReadLines(codec, es, s, none);
    LineIsFresh(l, none);
    ItemLinePlain(l, ws, x);
    HereInv(l, none, [], false, s);
    IndentedItem(codec, l + Plain(s), l, ws, x, none);
    assert [] + Plain(text) == Plain(text);
    EndsSame(codec, Here([], none, text), Here(l, none, s), Itemized(l, x));
  }
}
