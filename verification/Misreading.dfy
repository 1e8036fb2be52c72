/** Streams of styled text that are not read back: the first mark the parser fails to see leaves a
    mark character in the text for good. */
module Misreading {
  import opened RichText
  import opened Tokens
  import opened Parser
  import opened ParserRuns
  import opened Streams
  import opened Reading
  import opened Frames
  import opened ReadBack
  import opened Leftovers
  import opened Barriers
  import opened Hyphens

  const STYLES: set<Tag> := {Italic, Bold, Mono, Underline, Strike}

  predicate StyledEvent(e: Event) {
    match e
    case Put(c) => BreakChar(c) || PlainChar(c)
    case Image(_) => false
    case _ => e.tag in STYLES
  }

  predicate StyledStream(es: Stream) {
    forall e :: e in es ==> StyledEvent(e)
  }

  /** What came last in a stream: a line break and then marks, of which the last one may have closed a
      strike that was open alone; a character and then close marks, a character and then open marks,
      or a strike mark being opened. */
  datatype Mode = AtStart | Ceased | AfterText | Marking | Struck

  /** After a character the close marks come before the open ones, italic is the first style to be
      opened, and strike is opened right before a character.  At the start of a line a strike mark that
      was closed is not opened again before the next character. */
  predicate TidyEvent(mode: Mode, e: Event) {
    match e
    case Close(_) => mode.AtStart? || mode.AfterText?
    case Open(t) => !mode.Struck? && (mode.Marking? ==> t != Italic) && (mode.Ceased? ==> t != Strike)
    case _ => true
  }

  function ModeAfter(mode: Mode, open: seq<Tag>, e: Event): Mode {
    match e
    case Put(c) => if BreakChar(c) then AtStart else AfterText
    case Image(_) => AfterText
    case Open(t) => if mode.AtStart? || mode.Ceased? then mode else if t == Strike then Struck else Marking
    case Close(_) => if mode.AtStart? && open == [Strike] then Ceased else mode
  }

  predicate Tidy(mode: Mode, open: seq<Tag>, es: Stream)
    decreases |es|
  {
    es == [] || (TidyEvent(mode, es[0]) && Tidy(ModeAfter(mode, open, es[0]), OpenNext(open, es[0]), es[1..]))
  }

  /** What is misread: an italic mark after a colon, a strike mark opened on its own where the line
      is still blank, and a line break, other than a newline, inside marks. */
  predicate Unseen(r: Reader, e: Event) {
    match e
    case Open(t) => (t == Italic && r.colon) || (t == Strike && r.open == [] && r.ink != Inked)
    case Close(t) => t == Italic && r.colon
    case Put(c) => BreakChar(c) && c != '\n' && r.open != []
    case Image(_) => false
  }

  lemma {:induction false} SeenAccepted(r: Reader, e: Event)
    requires StyledEvent(e) && EventNested(r.open, e, true) && !r.list && !r.ended
    requires forall t :: t in r.open ==> t in STYLES
    ensures Accepts(r, e) <==> !Unseen(r, e)
  {
    assert r.open != [] ==> r.open[0] in r.open;
  }

  // ----- leftovers -----

  predicate MarkItem(it: Item) {
    it.glyph.Chr? && it.glyph.c in {'*', '/', '_', '-', '`'}
  }

  predicate LeavesMark(b: Buffer) {
    exists k :: 0 <= k < |b| && MarkItem(b[k])
  }

  /** The parser, started at `st`, leaves a mark character in the text. */
  predicate Spoiled(codec: Codec, st: State) {
    Inv(st) && LeavesMark(Run(codec, st).buf)
  }

  lemma {:induction false} SpoiledSame(codec: Codec, a: State, b: State)
    requires Same(codec, a, b) && Spoiled(codec, b)
    ensures Spoiled(codec, a)
  {
    assert Ends(codec, b, Run(codec, b).buf);
    assert Ends(codec, a, Run(codec, b).buf);
  }

  // ----- an italic mark after a colon -----

  lemma {:induction false} SpellingEnds(m: Markup)
    requires Starts(m)
    ensures var text := Spelling(m);
            && |text| >= 2 && text[|text|-1] in {'*', '/', '_', '-', '`', '"', '[', ' '}
            && (Block(m) ==> text[0] == '"' || text[0] == '[')
  {
  }

  lemma {:induction false} OneClear(b: Buffer, o: Opening, k: nat, text: string)
    requires Starts(o.markup) && text == Spelling(o.markup) && Spelled(b, o)
    requires o.e <= k + 1 && NoBlocks(b) && ColonSlash(b, k)
    ensures Clear(o, k)
  {
    var n := |text|;
    SpellingEnds(o.markup);
    assert CharAt(b, o.e - n + (n - 1)) == text[n-1];
    assert CharAt(b, o.e - n + 0) == text[0];
    assert CharAt(b, k) == ':';
  }

  lemma {:induction false} StackClear(b: Buffer, stack: seq<Opening>, k: nat)
    requires StackOk(b, stack, k + 1) && NoBlocks(b) && ColonSlash(b, k)
    ensures forall o :: o in stack ==> Clear(o, k)
  {
    forall o | o in stack ensures Clear(o, k) {
      StackMembers(b, stack, k + 1, o);
      OneClear(b, o, k, Spelling(o.markup));
    }
  }

  predicate NoBlockText(s: string) {
    forall k :: 0 <= k < |s| ==> s[k] != '"' && s[k] != '['
  }

  lemma {:induction false} StyledTextClean(codec: Codec, es: Stream)
    requires StyledStream(es)
    ensures NoBlockText(Text(codec, es))
  {
    if es != [] {
      assert es[0] in es && forall e :: e in es[1..] ==> e in es;
      StyledTextClean(codec, es[1..]);
      var text := EventText(codec, es[0]);
      forall k | 0 <= k < |text| ensures text[k] != '"' && text[k] != '[' {
        assert k == 0 || k == 1;
      }
    }
  }

  /** The parser does not see an italic mark right after a colon. */
  lemma {:induction false} ItalicLost(codec: Codec, l: Buffer, stack: seq<Opening>, open: seq<Tag>, list: bool,
                                      s: string, text: string)
    requires Framed(l, stack, open, list) && l != [] && l[|l|-1].glyph == Chr(':')
    requires NoBlocks(l) && NoBlockText(s) && text == "//" + s
    ensures Spoiled(codec, Here(l, stack, text))
  {
    var st, at := Here(l, stack, text), |l| - 1;
    HereInv(l, stack, open, list, text);
    Ahead(l, text, 0);
    assert st.buf[at] == l[at];
    StackClear(st.buf, stack, at);
    var k := StuckStays(codec, st, at);
    assert MarkItem(Run(codec, st).buf[k+1]);
  }

  // ----- a strike mark on a blank line -----

  /** The list test takes the first hyphen of a strike mark at the start of a line. */
  lemma {:induction false} HyphenTaken(b: Buffer, i: nat)
    requires i < |b| && Indent(b, i) >= 0 && b[i].tags == {}
    requires CharAt(b, i) == '-' && CharAt(b, i + 1) == '-' && CharAt(b, i + 2) != '-'
    ensures TokenAt(b, None, i).markup == NoMark
  {
    assert LineTokenAt(b, i).markup == NoMark && Swallowed(b, i) == 1;
    assert DelimiterAt(b, i + 1) == NoMark;
    assert !LineBreak(b[i].glyph);
  }

  lemma {:induction false} HyphenAhead(l: Buffer, s: string, text: string)
    requires Indent(l, |l|) >= 0 && (s == "" || s[0] != '-') && text == "--" + s
    ensures var b := l + Plain(text);
            TokenAt(b, None, |l|).markup == NoMark && b[|l|] == Item(Chr('-'), {})
  {
    Ahead(l, text, 0);
    Ahead(l, text, 1);
    Ahead(l, text, 2);
    assert s != "" ==> text[2] == s[0];
    IndentAhead(l, text);
    HyphenTaken(l + Plain(text), |l|);
  }

  lemma {:induction false} StrikeLost(codec: Codec, l: Buffer, stack: seq<Opening>, s: string, text: string)
    requires stack == [] && Indent(l, |l|) >= 0 && (s == "" || s[0] != '-') && text == "--" + s
    ensures Spoiled(codec, Here(l, stack, text))
  {
    HyphenAhead(l, s, text);
    var st, next := Here(l, stack, text), State(l + Plain(text), stack, |l| + 1);
    SkipOne(codec, st, next);
    PassedStays(codec, next, |l|);
    assert MarkItem(Run(codec, next).buf[|l|]);
    SpoiledSame(codec, st, next);
  }

  /** Marks but no hyphens, then something that is no mark. */
  predicate OtherMarks(s: string, n: nat) {
    && n <= |s| && (forall k :: 0 <= k < n ==> s[k] in {'*', '/', '_', '`'})
    && (n < |s| ==> BreakChar(s[n]) || PlainChar(s[n]))
  }

  lemma {:induction false} HyphensLodged(l: Buffer, s: string, n: nat, text: string)
    requires OtherMarks(s, n) && text == "----" + s
    ensures var b := l + Plain(text);
            && Lodged(b, |l| + 3, |l| + 4 + n)
            && forall k :: |l| <= k < |l| + 4 ==> b[k] == Item(Chr('-'), {})
  {
    var b := l + Plain(text);
    forall k | 0 <= k < |text| ensures b[|l|+k] == Item(Chr(text[k]), {}) {
      Ahead(l, text, k);
    }
    forall j | |l| + 3 < j < |l| + 4 + n ensures OtherMark(b[j]) {
      assert b[|l|+(j-|l|)].glyph == Chr(s[j-|l|-4]);
    }
    assert n < |s| ==> b[|l|+(4+n)].glyph == Chr(s[n]);
  }

  /** A strike mark that is opened and closed at once. */
  lemma {:induction false} HyphensLost(codec: Codec, l: Buffer, stack: seq<Opening>, s: string, n: nat, text: string)
    requires stack == [] && Indent(l, |l|) >= 0 && OtherMarks(s, n) && text == "----" + s
    requires Inv(Here(l, stack, text))
    ensures Spoiled(codec, Here(l, stack, text))
  {
    var b := l + Plain(text);
    HyphensLodged(l, s, n, text);
    Ahead(l, text, 0);
    IndentAhead(l, text);
    var j := ThreeTaken(codec, b, |l|, |l| + 4 + n, Opening(StrikeMark, |l|, |l| + 3));
    assert MarkItem(Run(codec, State(b, [], |l|)).buf[j]);
  }

  // ----- up to the first unseen mark -----

  predicate OpenStyles(r: Reader) {
    !r.ended && !r.list && forall t :: t in r.open ==> t in STYLES
  }

  predicate EndsInColon(l: Buffer) {
    l != [] && l[|l|-1].glyph == Chr(':')
  }

  predicate Midway(l: Buffer, stack: seq<Opening>, r: Reader, mode: Mode) {
    && Following(l, stack, r) && OpenStyles(r) && NoBlocks(l)
    && (mode.AtStart? || mode.Ceased? ==> !r.colon)
    && (mode.AfterText? && r.colon ==> EndsInColon(l))
  }

  lemma {:induction false} StylesFit(r: Reader, e: Event, s: string)
    requires OpenStyles(r) && StyledEvent(e)
    ensures NotEquals(r.open, s) && NotEquals(Feed(r, e).open, s) && OpenStyles(Feed(r, e))
    ensures r.open != [] ==> r.open[0] in STYLES && NotEquals(r.open[1..], s)
    ensures !InVerbatim(r.open) && !InListMark(r.open)
  {
    assert r.open != [] ==> r.open[0] in r.open;
    assert r.open != [] ==> forall t :: t in r.open[1..] ==> t in r.open;
  }

  lemma {:induction false} OntoBreak(codec: Codec, l: Buffer, stack: seq<Opening>, r: Reader, mode: Mode, c: char,
                                     s: string)
    returns (m: Buffer, stack': seq<Opening>)
    requires Midway(l, stack, r, mode) && r.open == [] && BreakChar(c)
    ensures Same(codec, Here(l, stack, [c] + s), Here(m, stack', s))
    ensures Midway(m, stack', START, AtStart)
  {
    m, stack' := l + [Break(c)], [];
    assert Read(l, stack, r.open, r.list) == l;
    ReadBreak(codec, l, stack, r, c, s, stack');
  }

  lemma {:induction false} OntoCharacter(codec: Codec, l: Buffer, stack: seq<Opening>, r: Reader, mode: Mode, c: char,
                                         s: string)
    returns (m: Buffer, stack': seq<Opening>)
    requires Midway(l, stack, r, mode) && PlainChar(c)
    ensures Same(codec, Here(l, stack, [c] + s), Here(m, stack', s))
    ensures Midway(m, stack', Feed(r, Put(c)), AfterText)
  {
    StylesFit(r, Put(c), s);
    m, stack' := l + [Item(Chr(c), {})], stack;
    ReadCharacter(codec, l, stack, r, c, s);
  }

  lemma {:induction false} MarkBlocks(l: Buffer, t: Tag)
    requires NoBlocks(l) && t in STYLES
    ensures NoBlocks(l + Plain(MarkText(t, true)))
  {
    var text := MarkText(t, true);
    forall k | 0 <= k < |text| ensures text[k] != '"' && text[k] != '[' {
      assert k == 0 || k == 1;
    }
    assert NoBlocks(Plain(text));
  }

  lemma {:induction false} OntoOpening(codec: Codec, l: Buffer, stack: seq<Opening>, r: Reader, mode: Mode, t: Tag,
                                       s: string, text: string)
    returns (m: Buffer, stack': seq<Opening>)
    requires Midway(l, stack, r, mode) && t in STYLES && AcceptsOpening(r, t) && text == MarkText(t, true)
    ensures Same(codec, Here(l, stack, text + s), Here(m, stack', s))
    ensures Midway(m, stack', Feed(r, Open(t)), ModeAfter(mode, r.open, Open(t)))
  {
    m, stack' := l + Plain(text), [Opening(MarkupOf(t), |l|, |l| + |text|)] + stack;
    OpeningMove(codec, l, stack, r, t, s, text);
    OpeningMidway(l, stack, r, mode, t, m, stack');
  }

  lemma {:induction false} OpeningMidway(l: Buffer, stack: seq<Opening>, r: Reader, mode: Mode, t: Tag,
                                         m: Buffer, stack': seq<Opening>)
    requires Midway(l, stack, r, mode) && t in STYLES && AcceptsOpening(r, t)
    requires m == l + Plain(MarkText(t, true))
    requires stack' == [Opening(MarkupOf(t), |l|, |m|)] + stack
    ensures Midway(m, stack', Feed(r, Open(t)), ModeAfter(mode, r.open, Open(t)))
  {
    MarkBlocks(l, t);
    OpeningStyles(r, mode, t);
    FollowOpening(l, stack, r, t);
  }

  lemma {:induction false} OpeningStyles(r: Reader, mode: Mode, t: Tag)
    requires OpenStyles(r) && t in STYLES && (mode.AtStart? || mode.Ceased? ==> !r.colon)
    ensures OpenStyles(Feed(r, Open(t)))
    ensures var next := ModeAfter(mode, r.open, Open(t));
            !next.AfterText? && (next.AtStart? || next.Ceased? ==> !Feed(r, Open(t)).colon)
  {
    StylesFit(r, Open(t), "");
  }

  /** What is left ends as before. */
  lemma {:induction false} PoppedEnd(l: Buffer, o: Opening, t: Tag)
    requires o.s < o.e <= |l| && NoBlocks(l)
    ensures NoBlocks(Popped(l, o, t))
    ensures EndsInColon(l) && o.e < |l| ==> EndsInColon(Popped(l, o, t))
  {
    var m := Popped(l, o, t);
    forall i | 0 <= i < |m| ensures m[i].glyph != Chr('"') && m[i].glyph != Chr('[') {
      assert m[i].glyph == if i < o.s then l[i].glyph else l[i-o.s+o.e].glyph;
    }
  }

  lemma {:induction false} MarkNoColon(l: Buffer, stack: seq<Opening>, open: seq<Tag>, list: bool)
    requires Framed(l, stack, open, list) && open != [] && open[0] in STYLES && EndsInColon(l)
    ensures stack[0].s < stack[0].e < |l|
  {
    var o, text := stack[0], MarkText(open[0], true);
    MarkTexts(open[0]);
    MarkItems(l, o, text);
    assert l[o.e-1] == Item(Chr(text[|text|-1]), {});
  }

  lemma {:induction false} OntoClosing(codec: Codec, l: Buffer, stack: seq<Opening>, r: Reader, mode: Mode, t: Tag,
                                       s: string)
    returns (m: Buffer, stack': seq<Opening>)
    requires Midway(l, stack, r, mode) && t in STYLES && Accepts(r, Close(t))
    ensures Same(codec, Here(l, stack, MarkText(t, false) + s), Here(m, stack', s))
    ensures Midway(m, stack', Feed(r, Close(t)), ModeAfter(mode, r.open, Close(t)))
  {
    StylesFit(r, Close(t), s);
    ReadClosing(codec, l, stack, r, t, s);
    m, stack' := Popped(l, stack[0], t), stack[1..];
    TopMarkup(l, stack, r.open, r.list);
    PoppedEnd(l, stack[0], t);
    if EndsInColon(l) {
      MarkNoColon(l, stack, r.open, r.list);
    }
  }

  lemma {:induction false} Onward(codec: Codec, l: Buffer, stack: seq<Opening>, r: Reader, mode: Mode, e: Event,
                                  s: string)
    returns (m: Buffer, stack': seq<Opening>)
    requires Midway(l, stack, r, mode) && StyledEvent(e) && TidyEvent(mode, e) && Accepts(r, e)
    ensures Same(codec, Here(l, stack, EventText(codec, e) + s), Here(m, stack', s))
    ensures Midway(m, stack', Feed(r, e), ModeAfter(mode, r.open, e))
  {
    match e
    case Put(c) =>
      if BreakChar(c) {
        StylesFit(r, e, s);
        m, stack' := OntoBreak(codec, l, stack, r, mode, c, s);
      } else {
        m, stack' := OntoCharacter(codec, l, stack, r, mode, c, s);
      }
    case Open(t) => m, stack' := OntoOpening(codec, l, stack, r, mode, t, s, MarkText(t, true));
    case Close(t) => m, stack' := OntoClosing(codec, l, stack, r, mode, t, s);
  }

  // ----- the whole stream -----

  /** A stream of styled text, well nested on each line from `r` on. */
  predicate StyledRest(r: Reader, mode: Mode, es: Stream) {
    && OpenStyles(r) && StyledStream(es) && Tidy(mode, r.open, es)
    && Nested(r.open, es, true) && OpenAfter(r.open, es) == []
  }

  lemma {:induction false} StyledNext(r: Reader, mode: Mode, es: Stream)
    requires StyledRest(r, mode, es) && es != []
    ensures StyledEvent(es[0]) && EventNested(r.open, es[0], true) && TidyEvent(mode, es[0])
    ensures Feed(r, es[0]).open == OpenNext(r.open, es[0])
    ensures StyledRest(Feed(r, es[0]), ModeAfter(mode, r.open, es[0]), es[1..])
  {
    assert es[0] in es && forall e :: e in es[1..] ==> e in es;
    StylesFit(r, es[0], "");
  }

  /** A line break inside marks keeps the innermost one from being closed. */
  lemma {:induction false} BreakLost(codec: Codec, l: Buffer, stack: seq<Opening>, r: Reader, c: char, s: string)
    requires Following(l, stack, r) && OpenStyles(r) && r.open != [] && BreakChar(c)
    ensures Spoiled(codec, Here(l, stack, [c] + s))
  {
    var st := Here(l, stack, [c] + s);
    HereInv(l, stack, r.open, r.list, [c] + s);
    TopMarkup(l, stack, r.open, r.list);
    StylesFit(r, Put(c), s);
    var o := stack[0];
    forall i | o.e <= i < |l| ensures InertItem(st.buf[i]) {
      assert st.buf[i] == l[o.e..][i-o.e];
    }
    Ahead(l, [c] + s, 0);
    BarredStays(codec, st, o, |stack|, |l|);
    var end := Run(codec, st);
    BarredMark(end, o, |stack|, |l|);
    assert MarkItem(end.buf[o.e-1]);
  }

  /** An unseen mark leaves a mark character in the text. */
  lemma {:induction false} UnseenStays(codec: Codec, l: Buffer, stack: seq<Opening>, r: Reader, mode: Mode, es: Stream)
    requires Midway(l, stack, r, mode) && StyledRest(r, mode, es) && es != [] && Unseen(r, es[0])
    ensures Spoiled(codec, Here(l, stack, Text(codec, es)))
  {
    StyledNext(r, mode, es);
    var s, text := Text(codec, es[1..]), Text(codec, es);
    if es[0].Put? {
      BreakLost(codec, l, stack, r, es[0].c, s);
    } else if es[0] == Open(Strike) {
      HereInv(l, stack, r.open, r.list, text);
      StrikeUnseen(codec, l, stack, r, mode, es, s, text);
    } else {
      assert forall e :: e in es[1..] ==> e in es;
      StyledTextClean(codec, es[1..]);
      ItalicLost(codec, l, stack, r.open, r.list, s, text);
    }
  }

  /** A strike mark that comes first on a line is followed by something else than a hyphen, or closed at
      once. */
  lemma {:induction false} StrikeUnseen(codec: Codec, l: Buffer, stack: seq<Opening>, r: Reader, mode: Mode, es: Stream,
                                        s: string, text: string)
    requires StyledRest(r, mode, es) && es != [] && es[0] == Open(Strike) && r.open == []
    requires stack == [] && Indent(l, |l|) >= 0 && s == Text(codec, es[1..]) && text == "--" + s
    requires Inv(Here(l, stack, text))
    ensures Spoiled(codec, Here(l, stack, text))
  {
    var rest, r1, mode1 := es[1..], Feed(r, es[0]), ModeAfter(mode, r.open, es[0]);
    StyledNext(r, mode, es);
    if rest != [] && rest[0].Close? {
      StyledNext(r1, mode1, rest);
      var n := CeasedText(codec, Feed(r1, rest[0]), rest[1..]);
      var s' := Text(codec, rest[1..]);
      assert text == "----" + s';
      HyphensLost(codec, l, stack, s', n, text);
    } else {
      if rest != [] {
        StyledNext(r1, mode1, rest);
      }
      StrikeLost(codec, l, stack, s, text);
    }
  }

  /** What follows a strike mark that was closed at the start of a line. */
  lemma {:induction false} CeasedText(codec: Codec, r: Reader, es: Stream) returns (n: nat)
    requires StyledRest(r, Ceased, es)
    ensures OtherMarks(Text(codec, es), n)
    decreases |es|
  {
    n := 0;
    if es != [] {
      StyledNext(r, Ceased, es);
      if es[0].Open? {
        n := CeasedText(codec, Feed(r, es[0]), es[1..]);
        MarksOn(MarkText(es[0].tag, true), Text(codec, es[1..]), n);
        n := n + 2;
      }
    }
  }

  lemma {:induction false} MarksOn(mark: string, s: string, n: nat)
    requires |mark| == 2 && OtherMarks(mark, 2) && OtherMarks(s, n)
    ensures OtherMarks(mark + s, n + 2)
  {
    forall k | 0 <= k < n + 2 ensures (mark + s)[k] in {'*', '/', '_', '`'} {
      assert k >= 2 ==> (mark + s)[k] == s[k-2];
    }
    assert n < |s| ==> (mark + s)[n+2] == s[n];
  }

  /** A stream that the reader does not accept is not read back. */
  lemma {:induction false} MisreadStream(codec: Codec, l: Buffer, stack: seq<Opening>, r: Reader, mode: Mode,
                                         es: Stream)
    requires Midway(l, stack, r, mode) && StyledRest(r, mode, es) && !Readable(r, es)
    ensures Spoiled(codec, Here(l, stack, Text(codec, es)))
    decreases |es|
  {
    StyledNext(r, mode, es);
    SeenAccepted(r, es[0]);
    if Unseen(r, es[0]) {
      UnseenStays(codec, l, stack, r, mode, es);
    } else {
      var s := Text(codec, es[1..]);
      var m, stack' := Onward(codec, l, stack, r, mode, es[0], s);
      MisreadStream(codec, m, stack', Feed(r, es[0]), ModeAfter(mode, r.open, es[0]), es[1..]);
      SpoiledSame(codec, Here(l, stack, EventText(codec, es[0]) + s), Here(m, stack', s));
    }
  }

  /** Misread text keeps a mark character. */
  lemma {:induction false} MisreadLeavesMark(codec: Codec, es: Stream)
    requires StyledRest(START, AtStart, es) && !Readable(START, es)
    ensures LeavesMark(Parsed(codec, Plain(Text(codec, es))))
  {
    var none: seq<Opening> := [];
    FollowFrom([], none, START, []);
    MisreadStream(codec, [], none, START, AtStart, es);
    assert [] + Plain(Text(codec, es)) == Plain(Text(codec, es));
  }
}
