/** The parser, event by event, on the text of a readable stream. */
module ReadBack {
  import opened RichText
  import opened Tokens
  import opened Parser
  import opened ParserRuns
  import opened Streams
  import opened Reading
  import opened Frames
  import Base64

  /** The parser has read `l` and has the text `s` before it. */
  function Here(l: Buffer, stack: seq<Opening>, s: string): State {
    State(l + Plain(s), stack, |l|)
  }

  /** No title is open, or the text ahead does not start with an equals sign. */
  predicate NotEquals(open: seq<Tag>, s: string) {
    HasTitle(open) ==> s == "" || s[0] != '='
  }

  lemma {:induction false} Ahead(l: Buffer, s: string, k: nat)
    ensures k < |s| ==> (l + Plain(s))[|l|+k] == Item(Chr(s[k]), {})
    ensures CharAt(l + Plain(s), |l| + k) ==
            if k >= |s| then NUL else if NUL < s[k] < '\U{0080}' then s[k] else OTHER
  {
  }

  lemma {:induction false} HereInv(l: Buffer, stack: seq<Opening>, open: seq<Tag>, list: bool, s: string)
    requires Framed(l, stack, open, list)
    ensures Inv(Here(l, stack, s))
  {
    FramedStack(l + Plain(s), l, stack, open, list);
  }

  /** What the innermost markup is. */
  lemma {:induction false} TopMarkup(l: Buffer, stack: seq<Opening>, open: seq<Tag>, list: bool)
    requires Framed(l, stack, open, list)
    ensures stack == [] <==> Ground(open) && !list
    ensures stack != [] ==> stack[0].markup == if Ground(open) then ListStart else MarkupOf(open[0])
    ensures stack != [] ==> stack[0].s < stack[0].e <= |l|
  {
    if !Ground(open) { MarkTexts(open[0]); }
  }

  // ----- positions without a token -----

  lemma {:induction false} InertAt(b: Buffer, top: Option<Opening>, i: nat)
    requires i < |b| && InertItem(b[i])
    requires top.Some? ==> top.value.markup !in {VerbatimMark, PictureStart}
    requires top.Some? && top.value.markup in {Title1Start, Title2Start} && CharAt(b, i) == ' ' ==>
               CharAt(b, i + 1) != '='
    ensures TokenAt(b, top, i).markup == NoMark
  {
    if Verbatim !in b[i].tags {
      assert !MarkCharacter(CharAt(b, i)) || CharAt(b, i) == ']';
      assert LineTokenAt(b, i).markup == NoMark && Swallowed(b, i) == 0;
      assert DelimiterAt(b, i) == NoMark;
      assert !LineBreak(b[i].glyph);
    }
  }

  lemma {:induction false} BreakAt(b: Buffer, i: nat)
    requires i < |b| && LineBreak(b[i].glyph)
    ensures TokenAt(b, None, i).markup == NoMark
  {
    assert CharAt(b, i) in {'\n', '\r', OTHER};
    assert LineTokenAt(b, i).markup == NoMark && Swallowed(b, i) == 0;
    assert DelimiterAt(b, i) == NoMark;
  }

  /** What was read since the innermost mark contains no token. */
  lemma {:induction false} InertSegment(l: Buffer, stack: seq<Opening>, open: seq<Tag>, list: bool, s: string)
    requires Framed(l, stack, open, list) && stack != [] && !InVerbatim(open) && NotEquals(open, s)
    ensures forall k :: stack[0].e <= k < |l| ==> TokenAt(l + Plain(s), Top(stack), k).markup == NoMark
  {
    var b := l + Plain(s);
    TopMarkup(l, stack, open, list);
    forall k | stack[0].e <= k < |l| ensures TokenAt(b, Top(stack), k).markup == NoMark {
      var seg := l[stack[0].e..];
      assert b[k] == l[k] && l[k] == seg[k-stack[0].e];
      if !Ground(open) && TitleTag(open[0]) {
        assert HasTitle(open);
        if k + 1 < |l| {
          assert b[k+1] == l[k+1] && l[k+1] == seg[k+1-stack[0].e];
        } else {
          Ahead(l, s, 0);
        }
      }
      InertAt(b, Top(stack), k);
    }
  }

  // ----- reading characters -----

  lemma {:induction false} AgreesPut(p: Buffer, r: Reader, x: Item)
    requires Agrees(p, r) && !LineBreak(x.glyph)
    ensures var space := SpaceItem(x) && r.ink != Inked;
            Agrees(p + [x], r.(ink := if space then Blank else Inked, colon := x.glyph == Chr(':')))
  {
    var q := p + [x];
    assert forall k :: 0 <= k < |p| ==> q[k] == p[k];
    assert q[|p|] == x;
    if |p| > 0 { assert q[|p|-1] == p[|p|-1]; }
    assert StartsLine(q, |p|) == StartsLine(p, |p|);
    IndentFrame(p, q, |p|);
    assert !StartsLine(q, |q|);
  }

  lemma {:induction false} AgreesBreak(p: Buffer, c: char)
    requires BreakChar(c)
    ensures Agrees(p + [Break(c)], START)
  {
    var q := p + [Break(c)];
    assert q[|p|] == Break(c);
    assert StartsLine(q, |q|);
  }

  /** A line break inside a verbatim text. */
  lemma {:induction false} AgreesRaw(p: Buffer, r: Reader, x: Item)
    requires LineBreak(x.glyph)
    ensures Agrees(p + [x], r.(ink := Blank, colon := false))
  {
    var q := p + [x];
    assert q[|p|] == x;
    assert StartsLine(q, |q|);
  }

  lemma {:induction false} VerbatimAt(b: Buffer, top: Option<Opening>, i: nat)
    requires i < |b| && top.Some? && top.value.markup == VerbatimMark && b[i].glyph != Chr('"')
    ensures TokenAt(b, top, i).markup == NoMark
  {
    assert CharAt(b, i) != '"';
  }

  lemma {:induction false} NoTokenAhead(l: Buffer, top: Option<Opening>, open: seq<Tag>, c: char, s: string)
    requires if InVerbatim(open) then c != '"' && top.Some? && top.value.markup == VerbatimMark
             else PlainChar(c) && (top.Some? ==> top.value.markup !in {VerbatimMark, PictureStart})
    requires top.Some? && top.value.markup in {Title1Start, Title2Start} ==> s == "" || s[0] != '='
    ensures TokenAt(l + Plain([c] + s), top, |l|).markup == NoMark
  {
    var b := l + Plain([c] + s);
    Ahead(l, [c] + s, 0);
    Ahead(l, [c] + s, 1);
    if InVerbatim(open) {
      VerbatimAt(b, top, |l|);
    } else {
      InertAt(b, top, |l|);
    }
  }

  lemma {:induction false} PassOne(codec: Codec, l: Buffer, stack: seq<Opening>, c: char, s: string)
    requires Inv(Here(l, stack, [c] + s)) && TokenAt(l + Plain([c] + s), Top(stack), |l|).markup == NoMark
    ensures Same(codec, Here(l, stack, [c] + s), Here(l + [Item(Chr(c), {})], stack, s))
  {
    var st, next := Here(l, stack, [c] + s), Here(l + [Item(Chr(c), {})], stack, s);
    assert st.buf == next.buf;
    SkipOne(codec, st, next);
  }

  /** The parser passes a character. */
  lemma {:induction false} PassCharacter(codec: Codec, l: Buffer, stack: seq<Opening>, r: Reader, c: char, s: string)
    requires Framed(l, stack, r.open, r.list) && AcceptsCharacter(r, c) && NotEquals(r.open, s)
    requires BreakChar(c) ==> r.open != []
    ensures Same(codec, Here(l, stack, [c] + s), Here(l + [Item(Chr(c), {})], stack, s))
  {
    TopMarkup(l, stack, r.open, r.list);
    HereInv(l, stack, r.open, r.list, [c] + s);
    TitleOnTop(r.open);
    NoTokenAhead(l, Top(stack), r.open, c, s);
    PassOne(codec, l, stack, c, s);
  }

  lemma {:induction false} FollowCharacter(l: Buffer, stack: seq<Opening>, r: Reader, c: char)
    requires Following(l, stack, r) && AcceptsCharacter(r, c) && (BreakChar(c) ==> r.open != [])
    ensures var x := Item(Chr(c), {});
            && Following(l + [x], stack, Feed(r, Put(c)))
            && Read(l + [x], stack, r.open, r.list) ==
               Read(l, stack, r.open, r.list) + [Item(Chr(c), TagSet(r.open))]
  {
    var x := Item(Chr(c), {});
    FramedPut(l, stack, r.open, r.list, x);
    var y := x.(tags := x.tags + OpenTags(r.open));
    assert y == Item(Chr(c), TagSet(r.open)) by {
      assert TagSet([]) == {};
      assert {} + OpenTags(r.open) == OpenTags(r.open);
    }
    if BreakChar(c) {
      AgreesRaw(Read(l, stack, r.open, r.list), r, y);
    } else {
      AgreesPut(Read(l, stack, r.open, r.list), r, y);
    }
  }

  lemma {:induction false} ReadCharacter(codec: Codec, l: Buffer, stack: seq<Opening>, r: Reader, c: char, s: string)
    requires Following(l, stack, r) && AcceptsCharacter(r, c) && NotEquals(r.open, s)
    requires BreakChar(c) ==> r.open != []
    ensures var x := Item(Chr(c), {});
            && Same(codec, Here(l, stack, [c] + s), Here(l + [x], stack, s))
            && Following(l + [x], stack, Feed(r, Put(c)))
            && Read(l + [x], stack, r.open, r.list) ==
               Read(l, stack, r.open, r.list) + [Item(Chr(c), TagSet(r.open))]
  {
    FollowCharacter(l, stack, r, c);
    PassCharacter(codec, l, stack, r, c, s);
  }

  lemma {:induction false} TitleOnTop(open: seq<Tag>)
    ensures open != [] && TitleTag(open[0]) ==> HasTitle(open)
  {
  }
  // ----- reading marks -----

  lemma {:induction false} IndentAhead(l: Buffer, s: string)
    requires s == "" || s[0] != '\n'
    ensures Indent(l + Plain(s), |l|) == Indent(l, |l|)
    ensures StartsLine(l + Plain(s), |l|) == StartsLine(l, |l|)
  {
    var b := l + Plain(s);
    assert forall k :: 0 <= k < |l| ==> b[k] == l[k];
    if |l| > 0 { assert b[|l|-1] == l[|l|-1]; }
    Ahead(l, s, 0);
    IndentFrame(l, b, |l|);
  }

  /** With a mark open the line is not blank, and no line has started since. */
  lemma {:induction false} OpenLine(l: Buffer, stack: seq<Opening>, open: seq<Tag>, list: bool, s: string)
    requires Framed(l, stack, open, list) && stack != [] && !InVerbatim(open)
    ensures stack[0].s < stack[0].e <= |l|
    ensures var b := l + Plain(s);
            && Indent(b, |l|) < 0
            && (forall k :: stack[0].s < k <= |l| ==> !StartsLine(b, k))
            && Line(b, stack[0].s) == Line(b, |l|)
  {
    var b := l + Plain(s);
    FramedOneLine(l, stack, open, list);
    assert forall k :: 0 <= k < |l| ==> b[k] == l[k];
    NotBlank(b, stack[0].s, |l|);
    SameLine(b, stack[0].s, |l|);
  }

  lemma {:induction false} DelimiterTokenAt(b: Buffer, top: Option<Opening>, i: nat)
    requires i < |b| && Verbatim !in b[i].tags && DelimiterAt(b, i) != NoMark
    requires top.Some? ==> top.value.markup !in {VerbatimMark, PictureStart}
    requires CharAt(b, i) == '-' ==> Indent(b, i) < 0
    ensures TokenAt(b, top, i) == Token(DelimiterAt(b, i), i + DelimiterLength(DelimiterAt(b, i)))
  {
    assert CharAt(b, i) != '=';
    assert LineTokenAt(b, i).markup == NoMark && Swallowed(b, i) == 0;
    DelimiterShape(b, i);
    MarkCharacterItem(b, i);
  }

  /** The delimiter of a style, spelled ahead. */
  lemma {:induction false} DelimiterAhead(l: Buffer, t: Tag, s: string)
    requires !ListMark(t) && !TitleTag(t)
    requires t == Italic ==> l == [] || l[|l|-1].glyph != Chr(':')
    ensures var b := l + Plain(MarkText(t, true) + s);
            && DelimiterAt(b, |l|) == MarkupOf(t)
            && DelimiterLength(MarkupOf(t)) == |MarkText(t, true)|
            && |l| < |b| && b[|l|].tags == {}
            && (CharAt(b, |l|) == '-' ==> t == Strike)
  {
    var text := MarkText(t, true) + s;
    Ahead(l, text, 0);
    Ahead(l, text, 1);
    Ahead(l, text, 2);
    var b := l + Plain(text);
    assert text[0] == MarkText(t, true)[0] && text[1] == MarkText(t, true)[1];
    assert t == Verbatim ==> text[2] == '"';
    if l != [] {
      assert b[|l|-1] == l[|l|-1];
    }
  }

  lemma {:induction false} NoColon(l: Buffer, stack: seq<Opening>, r: Reader)
    requires Following(l, stack, r) && !r.colon
    ensures l == [] || l[|l|-1].glyph != Chr(':')
  {
    if l != [] && l[|l|-1].glyph == Chr(':') {
      LastColon(l, stack, r.open, r.list);
      assert false;
    }
  }

  /** Where a strike mark is accepted the line is not blank. */
  lemma {:induction false} StrikeLine(l: Buffer, stack: seq<Opening>, r: Reader, s: string)
    requires Following(l, stack, r) && (r.open != [] || r.list || r.ink == Inked) && !InVerbatim(r.open)
    requires s == "" || s[0] != '\n'
    ensures Indent(l + Plain(s), |l|) < 0
  {
    TopMarkup(l, stack, r.open, r.list);
    if stack != [] {
      OpenLine(l, stack, r.open, r.list, s);
    } else {
      IndentAhead(l, s);
    }
  }

  /** The token of a style's delimiter, opening or closing. */
  lemma {:induction false} StyleToken(l: Buffer, stack: seq<Opening>, r: Reader, t: Tag, s: string)
    requires Following(l, stack, r) && !ListMark(t) && !TitleTag(t) && !InVerbatim(r.open)
    requires t == Italic ==> !r.colon
    requires t == Strike ==> r.open != [] || r.list || r.ink == Inked
    ensures var text := MarkText(t, true);
            TokenAt(l + Plain(text + s), Top(stack), |l|) == Token(MarkupOf(t), |l| + |text|)
  {
    var text := MarkText(t, true);
    if t == Italic { NoColon(l, stack, r); }
    DelimiterAhead(l, t, s);
    if t == Strike { StrikeLine(l, stack, r, text + s); }
    TopMarkup(l, stack, r.open, r.list);
    StyleTop(stack, r.open);
    DelimiterTokenAt(l + Plain(text + s), Top(stack), |l|);
  }

  lemma {:induction false} StyleTop(stack: seq<Opening>, open: seq<Tag>)
    requires stack != [] ==> stack[0].markup == if Ground(open) then ListStart else MarkupOf(open[0])
    requires !InVerbatim(open)
    ensures Top(stack).Some? ==> Top(stack).value.markup !in {VerbatimMark, PictureStart}
  {
    if !Ground(open) { MarkTexts(open[0]); }
  }

  /** Opening keeps the frames and what was read. */
  lemma {:induction false} FollowOpening(l: Buffer, stack: seq<Opening>, r: Reader, t: Tag)
    requires Following(l, stack, r) && AcceptsOpening(r, t) && !ListMark(t)
    ensures var text := MarkText(t, true);
            var stack' := [Opening(MarkupOf(t), |l|, |l| + |text|)] + stack;
            var r' := Feed(r, Open(t));
            && Following(l + Plain(text), stack', r')
            && Read(l + Plain(text), stack', r'.open, r'.list) == Read(l, stack, r.open, r.list)
  {
    var text, p, r' := MarkText(t, true), Read(l, stack, r.open, r.list), Feed(r, Open(t));
    var m, stack' := l + Plain(text), [Opening(MarkupOf(t), |l|, |l| + |text|)] + stack;
    FramedPush(l, stack, r.open, r.list, t);
    assert Framed(m, stack', r'.open, r'.list) && Read(m, stack', r'.open, r'.list) == p;
    OpenedShape(r, t);
    FollowFrom(m, stack', r', p);
  }

  lemma {:induction false} OpenedShape(r: Reader, t: Tag)
    requires OpenShape(r.open) && AcceptsOpening(r, t) && !ListMark(t) && (HasTitle(r.open) ==> !r.list)
    ensures var r' := Feed(r, Open(t));
            && OpenShape(r'.open) && !InListMark(r'.open) && (HasTitle(r'.open) ==> !r'.list) && !r'.ended
  {
    ShapePush(r, t);
  }

  lemma {:induction false} HereAppend(l: Buffer, stack: seq<Opening>, text: string, s: string)
    ensures Here(l + Plain(text), stack, s) == State(l + Plain(text + s), stack, |l| + |text|)
  {
    PlainConcat(text, s);
    assert l + (Plain(text) + Plain(s)) == (l + Plain(text)) + Plain(s);
  }

  /** The parser pushes an opening mark. */
  lemma {:induction false} PushAhead(codec: Codec, l: Buffer, stack: seq<Opening>, text: string, s: string, m: Markup,
                                     stack': seq<Opening>)
    requires Inv(Here(l, stack, text + s)) && Starts(m)
    requires TokenAt(l + Plain(text + s), Top(stack), |l|) == Token(m, |l| + |text|)
    requires stack != [] ==> Counterpart(stack[0].markup) != m
    requires stack' == [Opening(m, |l|, |l| + |text|)] + stack
    ensures Same(codec, Here(l, stack, text + s), Here(l + Plain(text), stack', s))
    ensures Inv(Here(l + Plain(text), stack', s))
  {
    HereAppend(l, stack', text, s);
    PushMove(codec, Here(l, stack, text + s), Here(l + Plain(text), stack', s), Token(m, |l| + |text|));
  }

  lemma {:induction false} MoveOpening(codec: Codec, l: Buffer, stack: seq<Opening>, open: seq<Tag>, list: bool,
                                       t: Tag, s: string, text: string)
    requires Framed(l, stack, open, list) && t !in open && !ListMark(t) && text == MarkText(t, true)
    requires TokenAt(l + Plain(text + s), Top(stack), |l|) == Token(MarkupOf(t), |l| + |text|)
    ensures Same(codec, Here(l, stack, text + s),
                 Here(l + Plain(text), [Opening(MarkupOf(t), |l|, |l| + |text|)] + stack, s))
  {
    HereInv(l, stack, open, list, text + s);
    MarkTexts(t);
    TopMarkup(l, stack, open, list);
    NotCounterpart(stack, open, t);
    PushAhead(codec, l, stack, text, s, MarkupOf(t), [Opening(MarkupOf(t), |l|, |l| + |text|)] + stack);
  }

  lemma {:induction false} NotCounterpart(stack: seq<Opening>, open: seq<Tag>, t: Tag)
    requires stack != [] ==> stack[0].markup == if Ground(open) then ListStart else MarkupOf(open[0])
    requires t !in open && !ListMark(t)
    ensures stack != [] ==> Counterpart(stack[0].markup) != MarkupOf(t)
  {
  }

  /** The mark of a title, where the line is blank. */
  lemma {:induction false} TitleToken(l: Buffer, t: Tag, s: string)
    requires TitleTag(t) && Indent(l, |l|) >= 0
    ensures var text := MarkText(t, true);
            TokenAt(l + Plain(text + s), None, |l|) == Token(MarkupOf(t), |l| + |text|)
  {
    var text := MarkText(t, true);
    var b := l + Plain(text + s);
    assert (text + s)[0] == '=' && (text + s)[1] == text[1] && (t == Title2 ==> (text + s)[2] == ' ');
    IndentAhead(l, text + s);
    Ahead(l, text + s, 0);
    Ahead(l, text + s, 1);
    Ahead(l, text + s, 2);
    assert LineTokenAt(b, |l|) == Token(MarkupOf(t), |l| + |text|);
    assert !LineBreak(b[|l|].glyph) && b[|l|].tags == {};
  }

  /** A title opens on a line that holds at most spaces. */
  lemma {:induction false} MoveTitle(codec: Codec, l: Buffer, t: Tag, s: string, text: string)
    requires InertText(l) && Indent(l, |l|) >= 0 && TitleTag(t) && text == MarkText(t, true)
    ensures Same(codec, Here(l, [], text + s), Here(l + Plain(text), [Opening(MarkupOf(t), |l|, |l| + |text|)], s))
  {
    TitleToken(l, t, s);
    var stack: seq<Opening> := [];
    HereInv(l, stack, [], false, text + s);
    PushAhead(codec, l, stack, text, s, MarkupOf(t), [Opening(MarkupOf(t), |l|, |l| + |text|)]);
  }

  /** The mark of a list item, where the line is blank. */
  lemma {:induction false} ItemToken(l: Buffer, s: string)
    requires Indent(l, |l|) >= 0
    ensures TokenAt(l + Plain("- " + s), None, |l|) == Token(ListStart, |l| + 2)
  {
    var b := l + Plain("- " + s);
    IndentAhead(l, "- " + s);
    Ahead(l, "- " + s, 0);
    Ahead(l, "- " + s, 1);
    assert LineTokenAt(b, |l|) == Token(ListStart, |l| + 2);
    assert !LineBreak(b[|l|].glyph) && b[|l|].tags == {};
  }

  lemma {:induction false} MoveMark(codec: Codec, l: Buffer, s: string, stack: seq<Opening>)
    requires InertText(l) && Indent(l, |l|) >= 0 && stack == []
    ensures Same(codec, Here(l, stack, "- " + s), Here(l + Plain("- "), [Opening(ListStart, |l|, |l| + 2)], s))
  {
    ItemToken(l, s);
    HereInv(l, stack, [], false, "- " + s);
    PushAhead(codec, l, stack, "- ", s, ListStart, [Opening(ListStart, |l|, |l| + 2)]);
  }

  lemma {:induction false} PassIndent(codec: Codec, l: Buffer, s: string, stack: seq<Opening>, l1: Buffer)
    requires InertText(l) && StartsLine(l, |l|) && stack == [] && l1 == l + [Item(Chr(' '), {})]
    ensures Same(codec, Here(l, stack, " - " + s), Here(l1, stack, "- " + s))
    ensures Indent(l1, |l1|) == 1
  {
    assert " - " + s == [' '] + ("- " + s);
    HereInv(l, stack, [], false, " - " + s);
    NoTokenAhead(l, Top(stack), [], ' ', "- " + s);
    PassOne(codec, l, stack, ' ', "- " + s);
    assert StartsLine(l1, |l|) by { if |l| > 0 { assert l1[|l|-1] == l[|l|-1]; } }
    assert Indent(l1, |l|) == 0 && SpaceItem(l1[|l|]);
  }

  /** A list item opens on an empty line; the space before a nested one is passed first. */
  lemma {:induction false} MoveItem(codec: Codec, l: Buffer, nested: bool, s: string, stack: seq<Opening>)
    requires InertText(l) && StartsLine(l, |l|) && stack == [] && (l != [] ==> l[|l|-1].tags == {})
    ensures var text := if nested then " - " else "- ";
            var at := |l| + (if nested then 1 else 0);
            Same(codec, Here(l, stack, text + s), Here(l + Plain(text), [Opening(ListStart, at, at + 2)], s))
  {
    if nested {
      var l1 := l + [Item(Chr(' '), {})];
      PassIndent(codec, l, s, stack, l1);
      MoveMark(codec, l1, s, stack);
      assert l1 + Plain("- ") == l + Plain(" - ");
      SameTrans(codec, Here(l, stack, " - " + s), Here(l1, stack, "- " + s),
                Here(l + Plain(" - "), [Opening(ListStart, |l| + 1, |l| + 3)], s));
    } else {
      MoveMark(codec, l, s, stack);
    }
  }

  // ----- closing -----

  /** The buffer once the innermost tag `t` is closed. */
  function Popped(l: Buffer, o: Opening, t: Tag): Buffer
    requires o.s <= o.e <= |l|
  {
    l[..o.s] + AddTag(l[o.e..], t)
  }

  lemma {:induction false} ClosedAhead(codec: Codec, l: Buffer, o: Opening, t: Tag, text: string, s: string)
    requires o.s < o.e <= |l| && StyleTag(o.markup) == Some(t)
    ensures var b := l + Plain(text + s);
            && ClosedBuffer(codec, b, o, |l|, |l| + |text|) == Popped(l, o, t) + Plain(s)
            && ClosedMark(codec, b, o, |l|, |l| + |text|) == |Popped(l, o, t)|
  {
    var b := l + Plain(text + s);
    PlainConcat(text, s);
    assert b[..o.s] == l[..o.s];
    assert b[o.e..|l|] == l[o.e..];
    assert b[|l|+|text|..] == Plain(s);
    StyleCloses(codec, b, o, |l|, |l| + |text|, t, l[..o.s], AddTag(l[o.e..], t), Plain(s));
  }

  function ResumePoint(m: Buffer, stack: seq<Opening>): nat {
    if stack != [] then stack[0].e else |m|
  }

  lemma {:induction false} CloseTo(codec: Codec, l: Buffer, stack: seq<Opening>, t: Tag, text: string, s: string)
    requires Inv(Here(l, stack, text + s)) && !ListMark(t)
    requires stack != [] && stack[0].markup == MarkupOf(t) && stack[0].s < stack[0].e <= |l|
    requires t == Verbatim || Line(l + Plain(text + s), stack[0].s) == Line(l + Plain(text + s), |l|)
    requires TokenAt(l + Plain(text + s), Top(stack), |l|) == Token(Counterpart(MarkupOf(t)), |l| + |text|)
    requires var m := Popped(l, stack[0], t);
             Quiet(m + Plain(s), stack[1..], ResumePoint(m, stack[1..]), |m|)
    ensures var m := Popped(l, stack[0], t);
            Same(codec, Here(l, stack, text + s), State(m + Plain(s), stack[1..], ResumePoint(m, stack[1..])))
  {
    var tok := Token(Counterpart(MarkupOf(t)), |l| + |text|);
    MarkTexts(t);
    ClosedState(codec, l, stack, t, text, s);
    var m := Popped(l, stack[0], t);
    CloseMove(codec, Here(l, stack, text + s), State(m + Plain(s), stack[1..], ResumePoint(m, stack[1..])), tok);
  }

  lemma {:induction false} ClosedState(codec: Codec, l: Buffer, stack: seq<Opening>, t: Tag, text: string, s: string)
    requires !ListMark(t) && stack != [] && stack[0].markup == MarkupOf(t) && stack[0].s < stack[0].e <= |l|
    ensures var b, m, ce := l + Plain(text + s), Popped(l, stack[0], t), |l| + |text|;
            && |l| <= ce <= |b|
            && ClosedBuffer(codec, b, stack[0], |l|, ce) == m + Plain(s)
            && ResumeAt(codec, b, stack, |l|, ce) == ResumePoint(m, stack[1..])
            && ClosedMark(codec, b, stack[0], |l|, ce) == |m|
  {
    MarkTexts(t);
    ClosedAhead(codec, l, stack[0], t, text, s);
    assert stack[1..] != [] ==> stack[1..][0] == stack[1];
  }

  /** The parser closes the innermost tag and scans again from the mark below it. */
  lemma {:induction false} CloseAhead(codec: Codec, l: Buffer, stack: seq<Opening>, open: seq<Tag>, list: bool,
                                      text: string, s: string)
    requires Framed(l, stack, open, list) && !Ground(open) && OpenShape(open)
    requires TokenAt(l + Plain(text + s), Top(stack), |l|) == Token(Counterpart(MarkupOf(open[0])), |l| + |text|)
    requires NotEquals(open[1..], s)
    ensures stack != [] && stack[0].s <= stack[0].e <= |l|
    ensures Same(codec, Here(l, stack, text + s), Here(Popped(l, stack[0], open[0]), stack[1..], s))
  {
    var t := open[0];
    TopMarkup(l, stack, open, list);
    HereInv(l, stack, open, list, text + s);
    if t != Verbatim {
      OpenLine(l, stack, open, list, text + s);
    }
    PopResumed(codec, l, stack, open, list, s);
    CloseTo(codec, l, stack, t, text, s);
    var m := Popped(l, stack[0], t);
    SameTrans(codec, Here(l, stack, text + s), State(m + Plain(s), stack[1..], ResumePoint(m, stack[1..])),
              Here(m, stack[1..], s));
  }

  lemma {:induction false} PopResumed(codec: Codec, l: Buffer, stack: seq<Opening>, open: seq<Tag>, list: bool, s: string)
    requires Framed(l, stack, open, list) && !Ground(open) && OpenShape(open)
    requires NotEquals(open[1..], s)
    requires stack[0].s <= stack[0].e <= |l|
    ensures var m := Popped(l, stack[0], open[0]);
            && Same(codec, State(m + Plain(s), stack[1..], ResumePoint(m, stack[1..])), Here(m, stack[1..], s))
            && Quiet(m + Plain(s), stack[1..], ResumePoint(m, stack[1..]), |m|)
  {
    FramedPop(l, stack, open, list);
    ShapeRest(open);
    Resumed(codec, Popped(l, stack[0], open[0]), stack[1..], open[1..], list, s);
  }

  /** Scanning again finds nothing new. */
  lemma {:induction false} Resumed(codec: Codec, m: Buffer, stack: seq<Opening>, open: seq<Tag>, list: bool,
                                   s: string)
    requires Framed(m, stack, open, list) && OpenShape(open) && !InVerbatim(open) && NotEquals(open, s)
    ensures Same(codec, State(m + Plain(s), stack, ResumePoint(m, stack)), Here(m, stack, s))
    ensures Quiet(m + Plain(s), stack, ResumePoint(m, stack), |m|)
  {
    var at := ResumePoint(m, stack);
    HereInv(m, stack, open, list, s);
    if stack != [] {
      TopMarkup(m, stack, open, list);
      InertSegment(m, stack, open, list, s);
      StackLimit(m + Plain(s), stack, |m|, at);
      SkipMany(codec, State(m + Plain(s), stack, at), Here(m, stack, s));
    }
  }
  lemma {:induction false} FollowClosing(l: Buffer, stack: seq<Opening>, r: Reader)
    requires Following(l, stack, r) && !Ground(r.open) && !r.ended
    requires TitleTag(r.open[0]) ==> r.open[1..] == [] && !r.list
    ensures stack != [] && stack[0].s <= stack[0].e <= |l|
    ensures var t := r.open[0];
            var m, r' := Popped(l, stack[0], t), Feed(r, Close(t));
            && Following(m, stack[1..], r')
            && Read(m, stack[1..], r'.open, r'.list) == Read(l, stack, r.open, r.list)
  {
    var p, t := Read(l, stack, r.open, r.list), r.open[0];
    FramedPop(l, stack, r.open, r.list);
    ShapeRest(r.open);
    FollowFrom(Popped(l, stack[0], t), stack[1..], Feed(r, Close(t)), p);
  }

  lemma {:induction false} FollowFrom(l: Buffer, stack: seq<Opening>, r: Reader, p: Buffer)
    requires Framed(l, stack, r.open, r.list) && Read(l, stack, r.open, r.list) == p && Agrees(p, r)
    requires (r.ended ==> r.open == [] && !r.list) && (InListMark(r.open) ==> r.list)
    requires (HasTitle(r.open) ==> !r.list) && OpenShape(r.open)
    ensures Following(l, stack, r)
  {
  }

  lemma {:induction false} VerbatimEnd(l: Buffer, top: Option<Opening>, s: string)
    requires top.Some? && top.value.markup == VerbatimMark
    ensures TokenAt(l + Plain("\"\"\"" + s), top, |l|) == Token(VerbatimMark, |l| + 3)
  {
    Ahead(l, "\"\"\"" + s, 0);
    Ahead(l, "\"\"\"" + s, 1);
    Ahead(l, "\"\"\"" + s, 2);
  }

  lemma {:induction false} StyleEndToken(l: Buffer, stack: seq<Opening>, r: Reader, s: string)
    requires Following(l, stack, r) && !Ground(r.open) && !TitleTag(r.open[0])
    requires r.open[0] == Italic ==> !r.colon
    ensures var t := r.open[0];
            TokenAt(l + Plain(MarkText(t, false) + s), Top(stack), |l|) ==
            Token(Counterpart(MarkupOf(t)), |l| + |MarkText(t, false)|)
  {
    TopMarkup(l, stack, r.open, r.list);
    if r.open[0] == Verbatim {
      VerbatimEnd(l, Top(stack), s);
    } else {
      StyleToken(l, stack, r, r.open[0], s);
    }
  }

  /** The end of a title, at the end of its line. */
  lemma {:induction false} TitleEndToken(l: Buffer, stack: seq<Opening>, t: Tag, s: string)
    requires TitleTag(t) && stack != [] && stack[0].markup == MarkupOf(t) && stack[0].s <= |l|
    requires s == "" || s[0] == '\n'
    requires var b := l + Plain(MarkText(t, false) + s);
             Line(b, stack[0].s) == Line(b, |l|)
    ensures TokenAt(l + Plain(MarkText(t, false) + s), Top(stack), |l|) ==
            Token(Counterpart(MarkupOf(t)), |l| + |MarkText(t, false)|)
  {
    var text := MarkText(t, false) + s;
    var b := l + Plain(text);
    var n := |MarkText(t, false)|;
    assert text[0] == ' ' && text[1] == '=' && (t == Title2 ==> text[2] == '=') && text[n..] == s;
    Ahead(l, text, 0);
    Ahead(l, text, 1);
    Ahead(l, text, 2);
    Ahead(l, text, n);
    assert s != "" ==> text[n] == s[0];
    assert !StartsLine(b, |l| + 1) && Line(b, |l| + 1) == Line(b, |l|);
    assert t == Title2 ==> !StartsLine(b, |l| + 2) && Line(b, |l| + 2) == Line(b, |l|);
    assert EndsLine(b, |l| + n);
    assert LineTokenAt(b, |l|).markup == NoMark && Swallowed(b, |l|) == 0 && DelimiterAt(b, |l|) == NoMark;
    assert !LineBreak(b[|l|].glyph) && b[|l|].tags == {};
    assert TitleEndAt(b, Line(b, stack[0].s), |l|, n - 1);
  }

  /** The closing mark of a style or title. */
  lemma {:induction false} ReadClosing(codec: Codec, l: Buffer, stack: seq<Opening>, r: Reader, t: Tag, s: string)
    requires Following(l, stack, r) && Accepts(r, Close(t)) && !ListMark(t) && !r.ended
    requires NotEquals(r.open[1..], s)
    requires TitleTag(t) ==> r.open[1..] == [] && !r.list && (s == "" || s[0] == '\n')
    ensures stack != [] && stack[0].s <= stack[0].e <= |l|
    ensures var m, r' := Popped(l, stack[0], t), Feed(r, Close(t));
            && Same(codec, Here(l, stack, MarkText(t, false) + s), Here(m, stack[1..], s))
            && Following(m, stack[1..], r')
            && Read(m, stack[1..], r'.open, r'.list) == Read(l, stack, r.open, r.list)
  {
    TopMarkup(l, stack, r.open, r.list);
    if TitleTag(t) {
      OpenLine(l, stack, r.open, r.list, MarkText(t, false) + s);
      TitleEndToken(l, stack, t, s);
    } else {
      StyleEndToken(l, stack, r, s);
    }
    CloseAhead(codec, l, stack, r.open, r.list, MarkText(t, false), s);
    FollowClosing(l, stack, r);
  }

  // ----- newlines and list items -----

  lemma {:induction false} KeepBreak(h: Buffer, t: Tag)
    requires h == [] || h[|h|-1].tags == {}
    ensures KeepOnLast(h, t) == h
  {
    assert {} * {t} == {};
  }

  /** Closing the list item: the bullet comes in, the mark and its indentation go. */
  lemma {:induction false} ItemClosed(codec: Codec, l: Buffer, o: Opening, s: string)
    requires ListFrame(l, o)
    ensures var b, p := l + Plain(s), Read(l, [o], [], true);
            && ClosedBuffer(codec, b, o, |l|, |l|) == p + Plain(s)
            && ClosedMark(codec, b, o, |l|, |l|) == (if |l| == o.e then |p| - 1 else |p|)
            && p != [] && (|l| == o.e ==> InertItem(p[|p|-1]))
  {
    var b, lo := l + Plain(s), o.s - Indent(l, o.s);
    var h := l[..lo];
    ItemIndent(l, o, b);
    assert b[..lo] == h && b[o.e..|l|] == l[o.e..] && b[|l|..] == Plain(s);
    ListCloses(codec, b, o, |l|, h, l[o.e..], Plain(s));
    assert lo > 0 ==> h[lo-1] == l[lo-1];
    KeepBreak(h, ListTag(lo < o.s));
  }

  lemma {:induction false} ItemIndent(l: Buffer, o: Opening, b: Buffer)
    requires ListFrame(l, o) && |l| <= |b| && b[..|l|] == l
    ensures Indent(b, o.s) == Indent(l, o.s)
  {
    assert forall k :: 0 <= k < |l| ==> b[k] == b[..|l|][k];
    assert StartsLine(b, o.s) == StartsLine(l, o.s);
    IndentFrame(l, b, o.s);
  }

  /** What closing a list item leaves. */
  lemma {:induction false} ListCloses(codec: Codec, b: Buffer, o: Opening, cs: nat, h: Buffer, body: Buffer, right: Buffer)
    requires o.s < o.e <= cs <= |b| && o.markup == ListStart && 0 <= Indent(b, o.s) <= o.s
    requires h == b[..o.s-Indent(b, o.s)] && body == b[o.e..cs] && right == b[cs..]
    ensures var t := ListTag(|h| < o.s);
            ClosedBuffer(codec, b, o, cs, cs) == KeepOnLast(h, t) + [Item(Bullet(|h| < o.s), {t})] + body + right
    ensures ClosedMark(codec, b, o, cs, cs) == if cs == o.e then |h| else |h| + 1 + |body|
  {
  }

  lemma {:induction false} ItemEndToken(l: Buffer, o: Opening, s: string)
    requires ListFrame(l, o) && (s == "" || BreakChar(s[0]))
    ensures o.s < o.e <= |l| && Line(l + Plain(s), o.s) == Line(l + Plain(s), |l|)
    ensures TokenAt(l + Plain(s), Some(o), |l|) == Token(ListEnd, |l|)
  {
    var b := l + Plain(s);
    FramedOneLine(l, [o], [], true);
    OpenLine(l, [o], [], true, s);
    Ahead(l, s, 0);
    assert b[|l|-1] == l[|l|-1] && !LineBreak(l[|l|-1].glyph);
    assert EndsLine(b, |l|);
  }

  /** At the end of its line a list item is closed. */
  lemma {:induction false} MoveItemEnd(codec: Codec, l: Buffer, o: Opening, s: string, p: Buffer, none: seq<Opening>)
    requires ListFrame(l, o) && (s == "" || BreakChar(s[0])) && p == Read(l, [o], [], true) && none == []
    ensures Same(codec, Here(l, [o], s), Here(p, none, s))
  {
    var b, stack := l + Plain(s), [o];
    HereInv(l, stack, [], true, s);
    ItemEndToken(l, o, s);
    ItemClosed(codec, l, o, s);
    assert stack[1..] == none;
    var at := if |l| == o.e then |p| - 1 else |p|;
    var next := State(p + Plain(s), none, at);
    CloseMove(codec, Here(l, stack, s), next, Token(ListEnd, |l|));
    if |l| == o.e {
      ItemResumed(codec, p, s, none, next);
      SameTrans(codec, Here(l, [o], s), next, Here(p, none, s));
    }
  }

  /** After an empty list item the scan goes on from just before the bullet. */
  lemma {:induction false} ItemResumed(codec: Codec, p: Buffer, s: string, none: seq<Opening>, next: State)
    requires p != [] && InertItem(p[|p|-1]) && none == [] && next == State(p + Plain(s), none, |p| - 1)
    ensures Same(codec, next, Here(p, none, s))
  {
    assert next.buf[|p|-1] == p[|p|-1];
    InertAt(next.buf, Top(none), |p| - 1);
    SkipOne(codec, next, Here(p, none, s));
  }

  /** A list item, once read, is inert text. */
  lemma {:induction false} ItemInert(l: Buffer, o: Opening)
    requires ListFrame(l, o)
    ensures InertText(Read(l, [o], [], true))
  {
    var lo := o.s - Indent(l, o.s);
    assert InertText(l[..lo]) && InertLine(l[o.e..]);
  }

  /** Everything open on the line is closed before a line break or the end of the text. */
  lemma {:induction false} LineEnd(codec: Codec, l: Buffer, stack: seq<Opening>, r: Reader, s: string, none: seq<Opening>)
    requires Following(l, stack, r) && r.open == [] && (s == "" || BreakChar(s[0])) && none == []
    ensures var p := Read(l, stack, r.open, r.list);
            && InertText(p) && Framed(p, none, [], false) && Read(p, none, [], false) == p
            && Same(codec, Here(l, stack, s), Here(p, none, s))
  {
    var p := Read(l, stack, r.open, r.list);
    if r.list {
      assert stack == [stack[0]];
      ItemInert(l, stack[0]);
      MoveItemEnd(codec, l, stack[0], s, p, none);
    } else {
      HereInv(l, stack, r.open, r.list, s);
      assert stack == none;
    }
  }

  lemma {:induction false} PassBreak(codec: Codec, p: Buffer, c: char, s: string, none: seq<Opening>)
    requires InertText(p) && none == [] && BreakChar(c)
    ensures Same(codec, Here(p, none, [c] + s), Here(p + [Break(c)], none, s))
  {
    HereInv(p, none, [], false, [c] + s);
    Ahead(p, [c] + s, 0);
    BreakAt(p + Plain([c] + s), |p|);
    assert Top(none) == None;
    PassOne(codec, p, none, c, s);
  }

  /** A line break. */
  lemma {:induction false} ReadBreak(codec: Codec, l: Buffer, stack: seq<Opening>, r: Reader, c: char, s: string,
                                     none: seq<Opening>)
    requires Following(l, stack, r) && r.open == [] && none == [] && BreakChar(c)
    ensures var p := Read(l, stack, r.open, r.list);
            && Same(codec, Here(l, stack, [c] + s), Here(p + [Break(c)], none, s))
            && Following(p + [Break(c)], none, START)
            && Read(p + [Break(c)], none, START.open, START.list) == p + [Break(c)]
  {
    var p := Read(l, stack, r.open, r.list);
    LineEnd(codec, l, stack, r, [c] + s, none);
    PassBreak(codec, p, c, s, none);
    SameTrans(codec, Here(l, stack, [c] + s), Here(p, none, [c] + s), Here(p + [Break(c)], none, s));
    AgreesBreak(p, c);
    FollowFrom(p + [Break(c)], none, START, p + [Break(c)]);
  }

  /** The end of the text. */
  lemma {:induction false} ReadEnd(codec: Codec, l: Buffer, stack: seq<Opening>, r: Reader, none: seq<Opening>)
    requires Following(l, stack, r) && r.open == [] && none == []
    ensures Ends(codec, Here(l, stack, ""), Read(l, stack, r.open, r.list)) && CleanFrom(codec, Here(l, stack, ""))
  {
    var p := Read(l, stack, r.open, r.list);
    LineEnd(codec, l, stack, r, "", none);
    assert p + Plain("") == p;
    HereInv(p, none, [], false, "");
    EndMove(codec, Here(p, none, ""));
  }

  // ----- pictures -----

  /** Decoding undoes encoding for the image `p`, whose encoding holds no bracket and no newline. */
  predicate Faithful(codec: Codec, p: int) {
    codec.decode(codec.encode(p)) == Some(p) && ']' !in codec.encode(p) && '\n' !in codec.encode(p)
  }

  lemma {:induction false} WrappedCharacters(s: string, c: char)
    requires c !in s && c != '\n'
    ensures c !in Base64.Wrapped(s)
  {
    if s != [] {
      assert s[|s|-1] in s && forall x :: x in s[..|s|-1] ==> x in s;
      WrappedCharacters(s[..|s|-1], c);
    }
  }

  lemma {:induction false} CharactersOfPlain(s: string)
    ensures Characters(Plain(s)) == s
  {
    if s != [] {
      assert Plain(s)[..|s|-1] == Plain(s[..|s|-1]);
      CharactersOfPlain(s[..|s|-1]);
      assert s == s[..|s|-1] + [s[|s|-1]];
    }
  }

  /** The data of a picture holds no token. */
  lemma {:induction false} PictureData(l: Buffer, top: Option<Opening>, data: string, s: string, k: nat, b: Buffer)
    requires ']' !in data && top.Some? && top.value.markup == PictureStart && |l| <= k < |l| + |data|
    requires b == l + Plain(data + s)
    ensures TokenAt(b, top, k).markup == NoMark
  {
    assert data[k-|l|] in data && (data + s)[k-|l|] == data[k-|l|];
    Ahead(l, data + s, k - |l|);
    assert CharAt(b, k) != ']';
  }

  lemma {:induction false} PictureEndToken(l: Buffer, o: Opening, s: string)
    requires o.markup == PictureStart
    ensures TokenAt(l + Plain("]]]" + s), Some(o), |l|) == Token(PictureEnd, |l| + 3)
  {
    Ahead(l, "]]]" + s, 0);
    Ahead(l, "]]]" + s, 1);
    Ahead(l, "]]]" + s, 2);
  }

  lemma {:induction false} PictureStartToken(l: Buffer, top: Option<Opening>, s: string)
    requires top.Some? ==> top.value.markup !in {VerbatimMark, PictureStart}
    ensures TokenAt(l + Plain("[[[" + s), top, |l|) == Token(PictureStart, |l| + 3)
  {
    Ahead(l, "[[[" + s, 0);
    Ahead(l, "[[[" + s, 1);
    Ahead(l, "[[[" + s, 2);
    DelimiterTokenAt(l + Plain("[[[" + s), top, |l|);
  }

  lemma {:induction false} PictureParts(l: Buffer, data: string, s: string)
    ensures var b := l + Plain("[[[" + data + "]]]" + s);
            var e, cs := |l| + 3, |l| + 3 + |data|;
            && cs + 3 <= |b|
            && b[..|l|] == l && b[e..cs] == Plain(data) && b[cs+3..] == Plain(s) && b[cs+2].tags == {}
  {
    var text := "[[[" + data + "]]]" + s;
    assert text[3..3+|data|] == data && text[|data|+6..] == s;
    Ahead(l, text, |data| + 5);
    var b := l + Plain(text);
    assert b[|l|+3..|l|+3+|data|] == Plain(text)[3..3+|data|];
    assert b[|l|+|data|+6..] == Plain(text)[|data|+6..];
  }

  lemma {:induction false} PictureSplice(codec: Codec, b: Buffer, o: Opening, cs: nat, p: int)
    requires o.s < o.e <= cs && cs + 3 <= |b| && o.markup == PictureStart
    requires DecodedPicture(codec, b[o.e..cs]) == Some(p) && b[cs+2].tags == {}
    ensures ClosedBuffer(codec, b, o, cs, cs + 3) == b[..o.s] + [Item(Picture(p), {})] + b[cs+3..]
    ensures ClosedMark(codec, b, o, cs, cs + 3) == o.s
  {
    assert InheritedTags(b, cs + 3) == {};
    assert b[cs..cs] == [];
  }

  lemma {:induction false} PictureClosed(codec: Codec, l: Buffer, o: Opening, p: int, data: string, s: string)
    requires o == Opening(PictureStart, |l|, |l| + 3)
    requires codec.decode(Base64.Unwrapped(data)) == Some(p)
    ensures var b := l + Plain("[[[" + data + "]]]" + s);
            var cs := |l| + 3 + |data|;
            && cs + 3 <= |b|
            && ClosedBuffer(codec, b, o, cs, cs + 3) == (l + [Item(Picture(p), {})]) + Plain(s)
            && ClosedMark(codec, b, o, cs, cs + 3) == |l|
  {
    PictureParts(l, data, s);
    PictureGone(codec, l, o, p, data, s, l + Plain("[[[" + data + "]]]" + s), |l| + 3 + |data|);
  }

  lemma {:induction false} PictureGone(codec: Codec, l: Buffer, o: Opening, p: int, data: string, s: string, b: Buffer,
                                       cs: nat)
    requires o == Opening(PictureStart, |l|, |l| + 3) && cs == |l| + 3 + |data| && cs + 3 <= |b|
    requires codec.decode(Base64.Unwrapped(data)) == Some(p)
    requires b[..|l|] == l && b[o.e..cs] == Plain(data) && b[cs+3..] == Plain(s) && b[cs+2].tags == {}
    ensures ClosedBuffer(codec, b, o, cs, cs + 3) == (l + [Item(Picture(p), {})]) + Plain(s)
    ensures ClosedMark(codec, b, o, cs, cs + 3) == |l|
  {
    CharactersOfPlain(data);
    PictureSplice(codec, b, o, cs, p);
  }

  lemma {:induction false} SkipData(codec: Codec, m: Buffer, stack: seq<Opening>, data: string, s: string)
    requires Inv(Here(m, stack, data + s)) && ']' !in data
    requires stack != [] && stack[0].markup == PictureStart
    ensures Same(codec, Here(m, stack, data + s), Here(m + Plain(data), stack, s))
    ensures Inv(Here(m + Plain(data), stack, s))
  {
    var b := m + Plain(data + s);
    forall k | |m| <= k < |m| + |data|
      ensures TokenAt(b, Top(stack), k).markup == NoMark
    {
      PictureData(m, Top(stack), data, s, k, b);
    }
    HereAppend(m, stack, data, s);
    SkipMany(codec, Here(m, stack, data + s), Here(m + Plain(data), stack, s));
  }

  /** The opening mark and the data of a picture. */
  lemma {:induction false} MovePictureData(codec: Codec, l: Buffer, stack: seq<Opening>, data: string, s: string,
                                           text: string, read: Buffer, stack': seq<Opening>)
    requires text == "[[[" + (data + s) && Inv(Here(l, stack, text)) && ']' !in data
    requires stack != [] ==> stack[0].markup !in {VerbatimMark, PictureStart}
    requires read == (l + Plain("[[[")) + Plain(data)
    requires stack' == [Opening(PictureStart, |l|, |l| + 3)] + stack
    ensures Same(codec, Here(l, stack, text), Here(read, stack', s)) && Inv(Here(read, stack', s))
  {
    var m := l + Plain("[[[");
    PictureStartToken(l, Top(stack), data + s);
    PushAhead(codec, l, stack, "[[[", data + s, PictureStart, stack');
    SkipData(codec, m, stack', data, s);
    SameTrans(codec, Here(l, stack, text), Here(m, stack', data + s), Here(read, stack', s));
  }

  lemma {:induction false} PictureSpelled(l: Buffer, data: string, s: string)
    ensures ((l + Plain("[[[")) + Plain(data)) + Plain("]]]" + s) == l + Plain("[[[" + data + "]]]" + s)
  {
    PlainConcat("[[[", data);
    PlainConcat("[[[" + data, "]]]" + s);
    assert ("[[[" + data) + ("]]]" + s) == "[[[" + data + "]]]" + s;
  }

  /** What closing the picture leads to. */
  lemma {:induction false} PictureNext(codec: Codec, l: Buffer, stack: seq<Opening>, p: int, data: string, s: string,
                                       read: Buffer, stack': seq<Opening>, at: nat, b: Buffer)
    requires at == if stack != [] then stack[0].e else |l|
    requires read == (l + Plain("[[[")) + Plain(data) && codec.decode(Base64.Unwrapped(data)) == Some(p)
    requires stack' == [Opening(PictureStart, |l|, |l| + 3)] + stack && b == read + Plain("]]]" + s)
    ensures |read| + 3 <= |b| && stack'[1..] == stack
    ensures (l + [Item(Picture(p), {})]) + Plain(s) == ClosedBuffer(codec, b, stack'[0], |read|, |read| + 3)
    ensures at == ResumeAt(codec, b, stack', |read|, |read| + 3)
    ensures ClosedMark(codec, b, stack'[0], |read|, |read| + 3) == |l|
  {
    PictureClosed(codec, l, stack'[0], p, data, s);
    PictureSpelled(l, data, s);
    assert stack'[1..] == stack && (stack != [] ==> stack'[1] == stack[0]);
  }

  /** The closing mark of a picture. */
  lemma {:induction false} MovePictureEnd(codec: Codec, l: Buffer, stack: seq<Opening>, p: int, data: string, s: string,
                                          read: Buffer, stack': seq<Opening>, at: nat)
    requires at == if stack != [] then stack[0].e else |l|
    requires read == (l + Plain("[[[")) + Plain(data) && codec.decode(Base64.Unwrapped(data)) == Some(p)
    requires stack' == [Opening(PictureStart, |l|, |l| + 3)] + stack && Inv(Here(read, stack', "]]]" + s))
    requires Quiet((l + [Item(Picture(p), {})]) + Plain(s), stack, at, |l|)
    ensures var m := l + [Item(Picture(p), {})];
            Same(codec, Here(read, stack', "]]]" + s), State(m + Plain(s), stack, at))
  {
    var st, next := Here(read, stack', "]]]" + s), State((l + [Item(Picture(p), {})]) + Plain(s), stack, at);
    PictureEndToken(read, stack'[0], s);
    PictureNext(codec, l, stack, p, data, s, read, stack', at, st.buf);
    CloseMove(codec, st, next, Token(PictureEnd, |read| + 3));
  }

  lemma {:induction false} FollowImage(l: Buffer, stack: seq<Opening>, r: Reader, p: int)
    requires Following(l, stack, r) && r.open == [] && !r.ended
    ensures var x := Item(Picture(p), {});
            && Following(l + [x], stack, Feed(r, Image(p)))
            && Read(l + [x], stack, r.open, r.list) == Read(l, stack, r.open, r.list) + [x]
  {
    var x := Item(Picture(p), {});
    FramedPut(l, stack, r.open, r.list, x);
    assert x.tags + OpenTags(r.open) == {};
    AgreesPut(Read(l, stack, r.open, r.list), r, x);
    FollowFrom(l + [x], stack, Feed(r, Image(p)), Read(l, stack, r.open, r.list) + [x]);
  }

  /** After a picture the parser scans again from the list mark, or from just before the picture. */
  lemma {:induction false} PictureResumed(codec: Codec, l: Buffer, stack: seq<Opening>, list: bool, p: int, s: string)
    requires Framed(l + [Item(Picture(p), {})], stack, [], list)
    ensures var m := l + [Item(Picture(p), {})];
            && Same(codec, State(m + Plain(s), stack, if stack != [] then stack[0].e else |l|), Here(m, stack, s))
            && Quiet(m + Plain(s), stack, if stack != [] then stack[0].e else |l|, |l|)
  {
    var m := l + [Item(Picture(p), {})];
    if stack != [] {
      Resumed(codec, m, stack, [], list, s);
    } else {
      HereInv(m, stack, [], list, s);
      assert (m + Plain(s))[|l|] == Item(Picture(p), {});
      InertAt(m + Plain(s), Top(stack), |l|);
      SkipOne(codec, State(m + Plain(s), stack, |l|), Here(m, stack, s));
    }
  }

  /** A picture. */
  lemma {:induction false} ReadImage(codec: Codec, l: Buffer, stack: seq<Opening>, r: Reader, p: int, s: string)
    requires Faithful(codec, p) && Following(l, stack, r) && r.open == [] && !r.ended
    ensures var x := Item(Picture(p), {});
            && Same(codec, Here(l, stack, PictureText(codec, p) + s), Here(l + [x], stack, s))
            && Following(l + [x], stack, Feed(r, Image(p)))
            && Read(l + [x], stack, r.open, r.list) == Read(l, stack, r.open, r.list) + [x]
  {
    FollowImage(l, stack, r, p);
    var data := Base64.Wrapped(codec.encode(p));
    WrappedCharacters(codec.encode(p), ']');
    Base64.UnwrapWrapped(codec.encode(p));
    var o := Opening(PictureStart, |l|, |l| + 3);
    var m, read := l + [Item(Picture(p), {})], (l + Plain("[[[")) + Plain(data);
    var text := PictureText(codec, p) + s;
    assert text == "[[[" + (data + ("]]]" + s));
    HereInv(l, stack, r.open, r.list, text);
    TopMarkup(l, stack, r.open, r.list);
    var at, stack' := if stack != [] then stack[0].e else |l|, [o] + stack;
    MovePictureData(codec, l, stack, data, "]]]" + s, text, read, stack');
    PictureResumed(codec, l, stack, r.list, p, s);
    MovePictureEnd(codec, l, stack, p, data, s, read, stack', at);
    SameTrans(codec, Here(l, stack, text), Here(read, stack', "]]]" + s), State(m + Plain(s), stack, at));
    SameTrans(codec, Here(l, stack, text), State(m + Plain(s), stack, at), Here(m, stack, s));
  }
  // ----- list items -----

  lemma {:induction false} FollowItem(l: Buffer, none: seq<Opening>, r: Reader, t: Tag)
    requires Following(l, none, r) && none == [] && AcceptsOpening(r, t) && ListMark(t)
    ensures InertText(l) && StartsLine(l, |l|) && (l != [] ==> l[|l|-1].tags == {})
    ensures var nested := t == List2;
            var at := |l| + (if nested then 1 else 0);
            var m, stack, r' := l + Plain(MarkText(t, true)), [Opening(ListStart, at, at + 2)], Feed(r, Open(t));
            && Following(m, stack, r')
            && Read(m, stack, r'.open, r'.list) == Read(l, none, r.open, r.list) + [ListItem(nested)]
  {
    var nested := t == List2;
    var at := |l| + (if nested then 1 else 0);
    var m, stack, r' := l + Plain(MarkText(t, true)), [Opening(ListStart, at, at + 2)], Feed(r, Open(t));
    var p := Read(l, none, r.open, r.list);
    assert p == l;
    FramedItem(l, nested);
    ItemFrames(m, stack, [t]);
    AgreesPut(p, r, ListItem(nested));
    FollowFrom(m, stack, r', p + [ListItem(nested)]);
  }

  lemma {:induction false} ItemFrames(m: Buffer, stack: seq<Opening>, open: seq<Tag>)
    requires Framed(m, stack, [], true) && InListMark(open)
    ensures Framed(m, stack, open, true) && Read(m, stack, open, true) == Read(m, stack, [], true)
  {
  }

  lemma {:induction false} FollowItemMark(l: Buffer, stack: seq<Opening>, r: Reader, t: Tag)
    requires Following(l, stack, r) && Accepts(r, Close(t)) && ListMark(t) && !r.ended
    ensures Following(l, stack, Feed(r, Close(t)))
    ensures Read(l, stack, Feed(r, Close(t)).open, r.list) == Read(l, stack, r.open, r.list)
  {
    ShapeRest(r.open);
    var r' := Feed(r, Close(t));
    assert |r.open| == 1 && r'.open == [];
    FollowFrom(l, stack, r', Read(l, stack, r.open, r.list));
  }

  // ----- one event, and the whole stream -----

  /** The text ahead fits the reader: no equals sign under an open title, and a newline or the end
      after a closed one. */
  predicate Fits(r: Reader, s: string) {
    NotEquals(r.open, s) && (r.ended ==> s == "" || s[0] == '\n')
  }

  /** One mark. */
  lemma {:induction false} OneMark(codec: Codec, l: Buffer, stack: seq<Opening>, r: Reader, e: Event, s: string)
    returns (m: Buffer, stack': seq<Opening>)
    requires Following(l, stack, r) && Accepts(r, e) && !r.ended && Fits(Feed(r, e), s)
    requires e.Open? || e.Close?
    ensures Same(codec, Here(l, stack, EventText(codec, e) + s), Here(m, stack', s))
    ensures Following(m, stack', Feed(r, e))
    ensures Read(m, stack', Feed(r, e).open, Feed(r, e).list) ==
            Read(l, stack, r.open, r.list) + EventMeaning(r.open, e)
  {
    var t, text, p := e.tag, EventText(codec, e), Read(l, stack, r.open, r.list);
    assert p + [] == p;
    if e.Open? && ListMark(t) {
      FollowItem(l, stack, r, t);
      MoveItem(codec, l, t == List2, s, stack);
      var at := |l| + (if t == List2 then 1 else 0);
      m, stack' := l + Plain(text), [Opening(ListStart, at, at + 2)];
    } else if e.Open? {
      m, stack' := OpenOne(codec, l, stack, r, t, s);
    } else {
      m, stack' := CloseOne(codec, l, stack, r, t, s);
    }
  }

  /** A close mark; nothing is written for a list tag. */
  lemma {:induction false} CloseOne(codec: Codec, l: Buffer, stack: seq<Opening>, r: Reader, t: Tag, s: string)
    returns (m: Buffer, stack': seq<Opening>)
    requires Following(l, stack, r) && Accepts(r, Close(t)) && !r.ended && Fits(Feed(r, Close(t)), s)
    ensures Same(codec, Here(l, stack, MarkText(t, false) + s), Here(m, stack', s))
    ensures Following(m, stack', Feed(r, Close(t)))
    ensures Read(m, stack', Feed(r, Close(t)).open, r.list) == Read(l, stack, r.open, r.list)
  {
    if ListMark(t) {
      FollowItemMark(l, stack, r, t);
      assert "" + s == s;
      m, stack' := l, stack;
    } else {
      ReadClosing(codec, l, stack, r, t, s);
      m, stack' := Popped(l, stack[0], t), stack[1..];
    }
  }


  /** The opening mark of a style. */
  lemma {:induction false} OpeningMove(codec: Codec, l: Buffer, stack: seq<Opening>, r: Reader, t: Tag, s: string,
                                       text: string)
    requires Following(l, stack, r) && !ListMark(t) && !TitleTag(t) && AcceptsOpening(r, t) && text == MarkText(t, true)
    ensures Same(codec, Here(l, stack, text + s),
                 Here(l + Plain(text), [Opening(MarkupOf(t), |l|, |l| + |text|)] + stack, s))
  {
    StyleToken(l, stack, r, t, s);
    MoveOpening(codec, l, stack, r.open, r.list, t, s, text);
  }

  /** The opening mark of a title. */
  lemma {:induction false} TitleMove(codec: Codec, l: Buffer, stack: seq<Opening>, r: Reader, t: Tag, s: string,
                                     text: string)
    requires Following(l, stack, r) && TitleTag(t) && AcceptsOpening(r, t) && text == MarkText(t, true)
    ensures Same(codec, Here(l, stack, text + s),
                 Here(l + Plain(text), [Opening(MarkupOf(t), |l|, |l| + |text|)] + stack, s))
  {
    BlankLine(l, stack, r);
    MoveTitle(codec, l, t, s, text);
    assert [Opening(MarkupOf(t), |l|, |l| + |text|)] + stack == [Opening(MarkupOf(t), |l|, |l| + |text|)];
  }

  lemma {:induction false} OpenOne(codec: Codec, l: Buffer, stack: seq<Opening>, r: Reader, t: Tag, s: string)
    returns (m: Buffer, stack': seq<Opening>)
    requires Following(l, stack, r) && AcceptsOpening(r, t) && !ListMark(t)
    ensures Same(codec, Here(l, stack, MarkText(t, true) + s), Here(m, stack', s))
    ensures Following(m, stack', Feed(r, Open(t)))
    ensures Read(m, stack', Feed(r, Open(t)).open, r.list) == Read(l, stack, r.open, r.list)
  {
    var text := MarkText(t, true);
    m, stack' := l + Plain(text), [Opening(MarkupOf(t), |l|, |l| + |text|)] + stack;
    FollowOpening(l, stack, r, t);
    if TitleTag(t) {
      TitleMove(codec, l, stack, r, t, s, text);
    } else {
      OpeningMove(codec, l, stack, r, t, s, text);
    }
  }

  lemma {:induction false} BlankLine(l: Buffer, stack: seq<Opening>, r: Reader)
    requires Following(l, stack, r) && r.open == [] && !r.list && r.ink != Inked
    ensures stack == [] && InertText(l) && Indent(l, |l|) >= 0
  {
  }

  /** One character or image. */
  lemma {:induction false} OneItem(codec: Codec, l: Buffer, stack: seq<Opening>, r: Reader, e: Event, s: string)
    returns (m: Buffer, stack': seq<Opening>)
    requires Following(l, stack, r) && Accepts(r, e) && Fits(Feed(r, e), s)
    requires e.Put? || (e.Image? && Faithful(codec, e.pixbuf)) 
    requires r.ended ==> e == Put('\n')
    ensures Same(codec, Here(l, stack, EventText(codec, e) + s), Here(m, stack', s))
    ensures Following(m, stack', Feed(r, e))
    ensures Read(m, stack', Feed(r, e).open, Feed(r, e).list) ==
            Read(l, stack, r.open, r.list) + EventMeaning(r.open, e)
  {
    if e.Image? {
      ReadImage(codec, l, stack, r, e.pixbuf, s);
      assert TagSet(r.open) == {};
      m, stack' := l + [Item(Picture(e.pixbuf), {})], stack;
    } else if BreakChar(e.c) && r.open == [] {
      assert TagSet(r.open) == {};
      m, stack' := Read(l, stack, r.open, r.list) + [Break(e.c)], [];
      ReadBreak(codec, l, stack, r, e.c, s, stack');
    } else {
      ReadCharacter(codec, l, stack, r, e.c, s);
      m, stack' := l + [Item(Chr(e.c), {})], stack;
    }
  }

  /** The text of a readable stream fits its reader. */
  lemma {:induction false} TextFits(codec: Codec, r: Reader, es: Stream)
    requires Readable(r, es) && OpenShape(r.open)
    ensures Fits(r, Text(codec, es))
  {
    if es != [] {
      var text := EventText(codec, es[0]);
      if HasTitle(r.open) {
        assert !InVerbatim(r.open);
        assert text != "" && text[0] != '=';
      }
      if r.ended {
        assert text == "\n";
      }
    }
  }

  predicate AllFaithful(codec: Codec, es: Stream) {
    forall e :: e in es && e.Image? ==> Faithful(codec, e.pixbuf)
  }

  lemma {:induction false} OneEvent(codec: Codec, l: Buffer, stack: seq<Opening>, r: Reader, e: Event, s: string,
                                    p: Buffer)
    returns (m: Buffer, stack': seq<Opening>)
    requires Following(l, stack, r) && Accepts(r, e) && Fits(Feed(r, e), s) && p == Read(l, stack, r.open, r.list)
    requires e.Image? ==> Faithful(codec, e.pixbuf)
    requires r.ended ==> e == Put('\n')
    ensures Same(codec, Here(l, stack, EventText(codec, e) + s), Here(m, stack', s))
    ensures Following(m, stack', Feed(r, e))
    ensures Read(m, stack', Feed(r, e).open, Feed(r, e).list) == p + EventMeaning(r.open, e)
  {
    if e.Open? || e.Close? {
      m, stack' := OneMark(codec, l, stack, r, e, s);
    } else {
      m, stack' := OneItem(codec, l, stack, r, e, s);
    }
  }

  lemma {:induction false} EndsSame(codec: Codec, st: State, next: State, b: Buffer)
    requires Same(codec, st, next) && Ends(codec, next, b)
    ensures Ends(codec, st, b)
  {
  }

  /** Reading the text of a readable stream, from any point on, gives what the stream stands for, and
      no match brings out a mark that was not seen before. */
  lemma {:induction false} ReadStream(codec: Codec, l: Buffer, stack: seq<Opening>, r: Reader, es: Stream, p: Buffer)
    requires Following(l, stack, r) && Readable(r, es) && AllFaithful(codec, es)
    requires p == Read(l, stack, r.open, r.list)
    ensures Ends(codec, Here(l, stack, Text(codec, es)), p + Meaning(r.open, es))
    ensures CleanFrom(codec, Here(l, stack, Text(codec, es)))
    decreases |es|
  {
    if es == [] {
      ReadEnd(codec, l, stack, r, []);
      assert p + [] == p;
    } else {
      var e, rest := es[0], es[1..];
      var s, r' := Text(codec, rest), Feed(r, e);
      FeedShape(r, e);
      TextFits(codec, r', rest);
      RestFaithful(codec, es);
      var m, stack' := OneEvent(codec, l, stack, r, e, s, p);
      var p' := p + EventMeaning(r.open, e);
      ReadStream(codec, m, stack', r', rest, p');
      Concatenated(p, EventMeaning(r.open, e), Meaning(r'.open, rest));
      EndsSame(codec, Here(l, stack, EventText(codec, e) + s), Here(m, stack', s), p' + Meaning(r'.open, rest));
    }
  }

  lemma {:induction false} Concatenated(a: Buffer, b: Buffer, c: Buffer)
    ensures (a + b) + c == a + (b + c)
  {
  }

  lemma {:induction false} RestFaithful(codec: Codec, es: Stream)
    requires es != [] && AllFaithful(codec, es)
    ensures es[0].Image? ==> Faithful(codec, es[0].pixbuf)
    ensures AllFaithful(codec, es[1..])
  {
    assert es[0] in es && forall x :: x in es[1..] ==> x in es;
  }

  lemma {:induction false} FeedShape(r: Reader, e: Event)
    requires Accepts(r, e) && OpenShape(r.open)
    ensures OpenShape(Feed(r, e).open)
    ensures Feed(r, e).open == OpenNext(r.open, e)
  {
    if e.Close? {
      ShapeRest(r.open);
    } else if e.Open? {
      var open' := [e.tag] + r.open;
      assert forall k :: 1 <= k < |open'| - 1 ==> open'[k] == r.open[k-1];
      forall k | 1 <= k < |open'| ensures open'[k] != Verbatim && !ListMark(open'[k]) {
        assert open'[k] == r.open[k-1];
      }
      assert HasTitle(open') ==> HasTitle(r.open) || TitleTag(e.tag);
    }
  }

  /** Parsing the text of a readable stream gives the document the stream stands for. */
  lemma {:induction false} ParsedReadable(codec: Codec, es: Stream)
    requires Readable(START, es) && AllFaithful(codec, es)
    ensures Parsed(codec, Plain(Text(codec, es))) == Meaning([], es)
    ensures CleanFrom(codec, State(Plain(Text(codec, es)), [], 0))
  {
    var none: seq<Opening> := [];
    FollowFrom([], none, START, []);
    ReadStream(codec, [], none, START, es, []);
    assert [] + Plain(Text(codec, es)) == Plain(Text(codec, es));
    assert [] + Meaning([], es) == Meaning([], es);
  }
}
