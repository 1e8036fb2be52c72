/** The buffer in the middle of a parse: text already read, with the open marks still in it. */
module Frames {
  import opened RichText
  import opened Tokens
  import opened Parser
  import opened Streams
  import opened Reading

  /** The markup a tag is written with. */
  function MarkupOf(t: Tag): Markup {
    match t
    case Italic => ItalicMark
    case Bold => BoldMark
    case Mono => MonoMark
    case Verbatim => VerbatimMark
    case Underline => UnderlineMark
    case Strike => StrikeMark
    case Title1 => Title1Start
    case Title2 => Title2Start
    case List1 => ListStart
    case List2 => ListStart
  }

  /** An item that starts no token, whatever comes around it. */
  predicate InertItem(it: Item) {
    it.glyph.Chr? ==>
      PlainChar(it.glyph.c) || (Verbatim in it.tags && VerbatimChar(it.glyph.c))
  }

  predicate InertLine(b: Buffer) {
    forall k :: 0 <= k < |b| ==> InertItem(b[k])
  }

  /** A line break, untagged or from a verbatim text. */
  predicate BreakItem(it: Item) {
    LineBreak(it.glyph) && it.tags <= {Verbatim}
  }

  /** A line break outside any verbatim text. */
  function Break(c: char): Item {
    Item(Chr(c), {})
  }

  /** Lines that are read. */
  predicate InertText(b: Buffer) {
    forall k :: 0 <= k < |b| ==> InertItem(b[k]) || BreakItem(b[k])
  }

  /** What may be inside a verbatim text that is still open. */
  predicate RawItem(it: Item, breaks: bool) {
    it.glyph.Chr? && (VerbatimChar(it.glyph.c) || (breaks && it.tags == {} && BreakChar(it.glyph.c)))
  }

  predicate RawVerbatim(b: Buffer, breaks: bool) {
    forall k :: 0 <= k < |b| ==> RawItem(b[k], breaks)
  }

  /** Whether a verbatim text may run over line breaks. */
  predicate Breaks(open: seq<Tag>, list: bool) {
    open == [Verbatim] && !list
  }

  predicate NoVerbatim(b: Buffer) {
    forall k :: 0 <= k < |b| ==> Verbatim !in b[k].tags
  }

  /** What lies after the innermost open mark. */
  predicate Segment(b: Buffer, open: seq<Tag>, list: bool)
    requires open != []
  {
    if open[0] == Verbatim then RawVerbatim(b, Breaks(open, list))
    else InertLine(b) && (HasTitle(open) ==> NoVerbatim(b))
  }

  /** No style or title is open. */
  predicate Ground(open: seq<Tag>) {
    open == [] || ListMark(open[0])
  }

  /** A list item: text, then the item's mark `o`, then the item so far. */
  predicate ListFrame(l: Buffer, o: Opening) {
    && o.markup == ListStart && o.e == o.s + 2 <= |l|
    && l[o.s..o.e] == Plain("- ")
    && 0 <= Indent(l, o.s) <= 1
    && Indent(l, o.s) <= o.s
    && InertText(l[..o.s-Indent(l, o.s)])
    && (o.s > Indent(l, o.s) ==> l[o.s-Indent(l, o.s)-1].tags == {})
    && InertLine(l[o.e..])
  }

  /** The buffer `l` holds what was read, and `stack` its marks for the open tags. */
  predicate Framed(l: Buffer, stack: seq<Opening>, open: seq<Tag>, list: bool)
    decreases |open|
  {
    if Ground(open) then
      if list then |stack| == 1 && ListFrame(l, stack[0]) else stack == [] && InertText(l)
    else
      && stack != []
      && stack[0].markup == MarkupOf(open[0])
      && stack[0].s + |MarkText(open[0], true)| == stack[0].e <= |l|
      && l[stack[0].s..stack[0].e] == Plain(MarkText(open[0], true))
      && Segment(l[stack[0].e..], open, list)
      && Framed(l[..stack[0].s], stack[1..], open[1..], list)
  }

  function ListItem(nested: bool): Item {
    Item(Bullet(nested), {ListTag(nested)})
  }

  /** What will be left of `l` once the open tags are closed. */
  function Read(l: Buffer, stack: seq<Opening>, open: seq<Tag>, list: bool): Buffer
    requires Framed(l, stack, open, list)
    decreases |open|
  {
    if Ground(open) then
      if list then
        var o := stack[0];
        l[..o.s-Indent(l, o.s)] + [ListItem(Indent(l, o.s) > 0)] + l[o.e..]
      else l
    else
      Read(l[..stack[0].s], stack[1..], open[1..], list) + AddTags(l[stack[0].e..], TagSet(open))
  }

  /** The reader's view of the line agrees with what was read. */
  predicate Agrees(p: Buffer, r: Reader) {
    && (r.ink == Bare ==> StartsLine(p, |p|) && (p != [] ==> p[|p|-1].tags == {}))
    && (r.ink != Inked <==> Indent(p, |p|) >= 0)
    && (r.colon <==> p != [] && p[|p|-1].glyph == Chr(':'))
  }

  predicate Following(l: Buffer, stack: seq<Opening>, r: Reader) {
    && Framed(l, stack, r.open, r.list)
    && Agrees(Read(l, stack, r.open, r.list), r)
    && (r.ended ==> r.open == [] && !r.list)
    && (InListMark(r.open) ==> r.list)
    && (HasTitle(r.open) ==> !r.list)
    && OpenShape(r.open)
  }

  // ----- marks in the buffer -----

  lemma {:induction false} MarkItems(l: Buffer, o: Opening, text: string)
    requires o.s + |text| == o.e <= |l| && l[o.s..o.e] == Plain(text)
    ensures forall k :: o.s <= k < o.e ==> l[k] == Item(Chr(text[k-o.s]), {})
  {
    forall k | o.s <= k < o.e ensures l[k] == Item(Chr(text[k-o.s]), {}) {
      assert l[o.s..o.e][k-o.s] == l[k];
    }
  }

  lemma {:induction false} MarkTexts(t: Tag)
    requires !ListMark(t)
    ensures Spelling(MarkupOf(t)) == MarkText(t, true)
    ensures Starts(MarkupOf(t)) && MarkupOf(t) != ListStart && MarkupOf(t) != PictureStart
    ensures StyleTag(MarkupOf(t)) == Some(t)
    ensures forall k :: 0 <= k < |MarkText(t, true)| ==>
              MarkText(t, true)[k] in {'*', '/', '_', '-', '`', '"', '=', ' '}
    ensures MarkText(t, true) != [] && MarkText(t, true)[0] != ' '
  {
    var m := MarkText(t, true);
    forall k | 0 <= k < |m| ensures m[k] in {'*', '/', '_', '-', '`', '"', '=', ' '} {
      assert k == 0 || k == 1 || k == 2;
    }
  }
  /** `b` starts with `l`. */
  predicate Extends(b: Buffer, l: Buffer) {
    |l| <= |b| && b[..|l|] == l
  }

  lemma {:induction false} ExtendsItems(b: Buffer, l: Buffer)
    requires Extends(b, l)
    ensures forall k :: 0 <= k < |l| ==> b[k] == l[k]
  {
    forall k | 0 <= k < |l| ensures b[k] == l[k] {
      assert b[..|l|][k] == b[k];
    }
  }

  lemma {:induction false} MarkSpelled(b: Buffer, o: Opening, text: string)
    requires o.s + |text| == o.e <= |b| && text == Spelling(o.markup)
    requires forall k :: o.s <= k < o.e ==> b[k] == Item(Chr(text[k-o.s]), {})
    requires forall k :: 0 <= k < |text| ==> text[k] in {'*', '/', '_', '-', '`', '"', '=', ' '}
    ensures Spelled(b, o)
  {
    var n := |text|;
    forall k | 0 <= k < n ensures CharAt(b, o.e - n + k) == text[k] {
      assert b[o.s + k] == Item(Chr(text[k]), {});
    }
  }

  /** The mark of a list item is an opening of the parser. */
  lemma {:induction false} ListOpeningOk(b: Buffer, l: Buffer, o: Opening)
    requires ListFrame(l, o) && Extends(b, l)
    ensures OpeningOk(b, o)
  {
    ExtendsItems(b, l);
    MarkItems(l, o, "- ");
    forall k | o.s <= k < o.e ensures b[k] == Item(Chr("- "[k-o.s]), {}) {
      assert b[k] == l[k];
    }
    MarkSpelled(b, o, "- ");
    assert b[o.s] == l[o.s];
    if o.s > 0 { assert b[o.s-1] == l[o.s-1]; }
    IndentFrame(l, b, o.s);
  }

  /** The marks in the buffer are openings of the parser. */
  lemma {:induction false} FramedStack(b: Buffer, l: Buffer, stack: seq<Opening>, open: seq<Tag>, list: bool)
    requires Framed(l, stack, open, list) && Extends(b, l)
    ensures StackOk(b, stack, |l|)
    decreases |open|
  {
    if Ground(open) {
      if list {
        ListOpeningOk(b, l, stack[0]);
        assert stack[1..] == [];
      }
    } else {
      var o, text := stack[0], MarkText(open[0], true);
      MarkTexts(open[0]);
      MarkItems(l, o, text);
      ExtendsItems(b, l);
      MarkSpelled(b, o, text);
      assert b[..o.s] == l[..o.s];
      FramedStack(b, l[..o.s], stack[1..], open[1..], list);
    }
  }

  lemma {:induction false} SegmentOneLine(b: Buffer, open: seq<Tag>, list: bool)
    requires open != [] && Segment(b, open, list) && open[0] != Verbatim
    ensures forall k :: 0 <= k < |b| ==> !LineBreak(b[k].glyph)
  {
    forall k | 0 <= k < |b| ensures !LineBreak(b[k].glyph) {
    }
  }

  /** From the innermost mark on there is no line break, and the mark is no space. */
  lemma {:induction false} FramedOneLine(l: Buffer, stack: seq<Opening>, open: seq<Tag>, list: bool)
    requires Framed(l, stack, open, list) && stack != [] && !InVerbatim(open)
    ensures stack[0].s < stack[0].e <= |l| && !SpaceItem(l[stack[0].s])
    ensures forall k :: stack[0].s <= k < |l| ==> !LineBreak(l[k].glyph)
  {
    var o := stack[0];
    var text := if Ground(open) then "- " else MarkText(open[0], true);
    if !Ground(open) {
      MarkTexts(open[0]);
      SegmentOneLine(l[o.e..], open, list);
    }
    MarkItems(l, o, text);
    forall k | o.s <= k < |l| ensures !LineBreak(l[k].glyph) {
      if k < o.e {
        assert l[k] == Item(Chr(text[k-o.s]), {});
      } else {
        assert l[k] == l[o.e..][k-o.e];
      }
    }
  }

  /** After an open mark the line is not blank. */
  lemma {:induction false} NotBlank(b: Buffer, s: nat, i: nat)
    requires s < i <= |b| && !SpaceItem(b[s])
    requires forall k :: s <= k < i ==> !LineBreak(b[k].glyph)
    ensures Indent(b, i) < 0
    ensures forall k :: s < k <= i ==> !StartsLine(b, k)
    decreases i - s
  {
    if s + 1 < i {
      NotBlank(b, s, i - 1);
    }
  }
  // ----- how the frames change -----

  predicate Allowed(x: Item, open: seq<Tag>, list: bool) {
    if Ground(open) then InertItem(x) || (!list && BreakItem(x))
    else if open[0] == Verbatim then RawItem(x, Breaks(open, list))
    else InertItem(x) && (HasTitle(open) ==> Verbatim !in x.tags)
  }

  function OpenTags(open: seq<Tag>): set<Tag> {
    if Ground(open) then {} else TagSet(open)
  }

  lemma {:induction false} ListFramePut(l: Buffer, o: Opening, x: Item)
    requires ListFrame(l, o) && InertItem(x)
    ensures ListFrame(l + [x], o) && Indent(l + [x], o.s) == Indent(l, o.s)
  {
    var m := l + [x];
    assert m[o.s] == l[o.s];
    if o.s > 0 { assert m[o.s-1] == l[o.s-1]; }
    IndentFrame(l, m, o.s);
    assert m[o.s..o.e] == l[o.s..o.e];
    assert m[..o.s-Indent(l, o.s)] == l[..o.s-Indent(l, o.s)];
    assert m[o.e..] == l[o.e..] + [x];
    if o.s > Indent(l, o.s) { assert m[o.s-Indent(l, o.s)-1] == l[o.s-Indent(l, o.s)-1]; }
  }

  lemma {:induction false} ListPut(l: Buffer, o: Opening, x: Item)
    requires ListFrame(l, o) && InertItem(x)
    ensures Framed(l + [x], [o], [], true)
    ensures Read(l + [x], [o], [], true) == Read(l, [o], [], true) + [x]
  {
    var m := l + [x];
    ListFramePut(l, o, x);
    assert m[..o.s-Indent(l, o.s)] == l[..o.s-Indent(l, o.s)];
    assert m[o.e..] == l[o.e..] + [x];
  }

  lemma {:induction false} StylePut(l: Buffer, stack: seq<Opening>, open: seq<Tag>, list: bool, x: Item)
    requires Framed(l, stack, open, list) && Allowed(x, open, list) && !Ground(open)
    ensures Framed(l + [x], stack, open, list)
    ensures Read(l + [x], stack, open, list) ==
            Read(l, stack, open, list) + [x.(tags := x.tags + TagSet(open))]
  {
    var m, o := l + [x], stack[0];
    var body := l[o.e..];
    assert m[..o.s] == l[..o.s];
    assert m[o.s..o.e] == l[o.s..o.e];
    assert m[o.e..] == body + [x];
    assert AddTags(body + [x], TagSet(open)) == AddTags(body, TagSet(open)) + [x.(tags := x.tags + TagSet(open))];
  }

  /** Reading one more character or image. */
  lemma {:induction false} FramedPut(l: Buffer, stack: seq<Opening>, open: seq<Tag>, list: bool, x: Item)
    requires Framed(l, stack, open, list) && Allowed(x, open, list)
    ensures Framed(l + [x], stack, open, list)
    ensures Read(l + [x], stack, open, list) ==
            Read(l, stack, open, list) + [x.(tags := x.tags + OpenTags(open))]
  {
    if Ground(open) {
      assert x.tags + {} == x.tags;
      if list {
        ListPut(l, stack[0], x);
        GroundSame(l + [x], l, stack, open);
      }
    } else {
      StylePut(l, stack, open, list, x);
    }
  }

  /** A list tag that is open changes nothing. */
  lemma {:induction false} GroundSame(m: Buffer, l: Buffer, stack: seq<Opening>, open: seq<Tag>)
    requires Ground(open) && Framed(l, stack, open, true) && Framed(m, [stack[0]], [], true)
    ensures Framed(m, stack, open, true) && Read(m, stack, open, true) == Read(m, [stack[0]], [], true)
    ensures Read(l, stack, open, true) == Read(l, [stack[0]], [], true)
  {
    assert stack == [stack[0]];
  }

  /** Reading the opening mark of a style or title. */
  lemma {:induction false} FramedPush(l: Buffer, stack: seq<Opening>, open: seq<Tag>, list: bool, t: Tag)
    requires Framed(l, stack, open, list) && !ListMark(t)
    ensures var text := MarkText(t, true);
            var o := Opening(MarkupOf(t), |l|, |l| + |text|);
            && Framed(l + Plain(text), [o] + stack, [t] + open, list)
            && Read(l + Plain(text), [o] + stack, [t] + open, list) == Read(l, stack, open, list)
  {
    var text := MarkText(t, true);
    var o := Opening(MarkupOf(t), |l|, |l| + |text|);
    var m, stack', open' := l + Plain(text), [o] + stack, [t] + open;
    assert stack'[1..] == stack && open'[1..] == open;
    assert m[..o.s] == l && m[o.s..o.e] == Plain(text) && m[o.e..] == [];
    assert Framed(m, stack', open', list);
    assert Read(l, stack, open, list) + AddTags([], TagSet(open')) == Read(l, stack, open, list);
  }

  lemma {:induction false} ItemIndent(l: Buffer, nested: bool, text: string, m: Buffer, s: nat)
    requires StartsLine(l, |l|) && text == (if nested then " - " else "- ") && m == l + Plain(text)
    requires s == |l| + (if nested then 1 else 0)
    ensures Indent(m, s) == if nested then 1 else 0
  {
    if |l| > 0 { assert m[|l|-1] == l[|l|-1]; }
    assert m[|l|] == Item(Chr(text[0]), {});
    assert StartsLine(m, |l|);
    if nested {
      assert !StartsLine(m, s);
      assert Indent(m, s - 1) == 0;
      assert SpaceItem(m[s-1]);
    }
  }

  /** Reading the mark of a list item, on a line that is still empty. */
  lemma {:induction false} FramedItem(l: Buffer, nested: bool)
    requires InertText(l) && StartsLine(l, |l|) && (l != [] ==> l[|l|-1].tags == {})
    ensures var m := l + Plain(if nested then " - " else "- ");
            var s := |l| + (if nested then 1 else 0);
            var o := Opening(ListStart, s, s + 2);
            && Framed(m, [o], [], true)
            && Read(m, [o], [], true) == l + [ListItem(nested)]
  {
    var text := if nested then " - " else "- ";
    var m := l + Plain(text);
    var s := |l| + (if nested then 1 else 0);
    var o := Opening(ListStart, s, s + 2);
    ItemIndent(l, nested, text, m, s);
    assert m[o.s..o.e] == Plain("- ");
    assert m[..|l|] == l && m[o.e..] == [];
    assert l + [ListItem(nested)] + [] == l + [ListItem(nested)];
  }

  /** Verbatim is only ever the innermost tag, not inside a title; a title is the outermost tag; a
      list tag stands alone. */
  predicate OpenShape(open: seq<Tag>) {
    && (forall k :: 0 <= k < |open| - 1 ==> !TitleTag(open[k]))
    && (forall k :: 1 <= k < |open| ==> open[k] != Verbatim && !ListMark(open[k]))
    && (|open| > 1 ==> !ListMark(open[0]))
    && (InVerbatim(open) ==> !HasTitle(open))
  }

  lemma {:induction false} ShapeRest(open: seq<Tag>)
    requires OpenShape(open) && open != []
    ensures OpenShape(open[1..]) && !InVerbatim(open[1..])
    ensures Ground(open[1..]) ==> open[1..] == []
    ensures HasTitle(open[1..]) ==> HasTitle(open) && open[0] != Verbatim
  {
    assert forall t :: t in open[1..] ==> t in open;
  }

  /** Opening a tag where the reader accepts it keeps the shape. */
  lemma {:induction false} ShapePush(r: Reader, t: Tag)
    requires OpenShape(r.open) && AcceptsOpening(r, t)
    ensures OpenShape([t] + r.open)
    ensures HasTitle([t] + r.open) ==> HasTitle(r.open) || (TitleTag(t) && !r.list)
  {
    var open := [t] + r.open;
    assert forall k :: 1 <= k < |open| ==> open[k] == r.open[k-1];
  }

  predicate AllAllowed(b: Buffer, open: seq<Tag>, list: bool) {
    forall k :: 0 <= k < |b| ==> Allowed(b[k], open, list)
  }

  lemma {:induction false} AddTagInert(b: Buffer, open: seq<Tag>, list: bool)
    requires open != [] && Segment(b, open, list) && OpenShape(open) && !Ground(open)
    ensures AllAllowed(AddTag(b, open[0]), open[1..], list)
  {
    ShapeRest(open);
    assert {} + {Verbatim} == {Verbatim};
  }

  lemma {:induction false} AddTagsTwice(b: Buffer, t: Tag, open: seq<Tag>)
    requires open != [] && open[0] == t
    ensures AddTags(AddTag(b, t), TagSet(open[1..])) == AddTags(b, TagSet(open))
    ensures open[1..] == [] ==> AddTags(b, TagSet(open)) == AddTag(b, t)
  {
    assert TagSet(open) == {t} + TagSet(open[1..]) by {
      forall u ensures u in TagSet(open) <==> u == t || u in TagSet(open[1..]) {
        assert u in open <==> u == open[0] || u in open[1..];
      }
    }
    forall i | 0 <= i < |b|
      ensures AddTags(AddTag(b, t), TagSet(open[1..]))[i] == AddTags(b, TagSet(open))[i]
    {
      assert b[i].tags + {t} + TagSet(open[1..]) == b[i].tags + TagSet(open);
    }
    if open[1..] == [] {
      assert TagSet(open[1..]) == {};
      assert TagSet(open) == {t};
    }
  }

  /** Reading the closing mark of a style or title: the mark goes and its tag comes in. */
  lemma {:induction false} FramedPop(l: Buffer, stack: seq<Opening>, open: seq<Tag>, list: bool)
    requires Framed(l, stack, open, list) && !Ground(open) && OpenShape(open)
    ensures var o := stack[0];
            var m := l[..o.s] + AddTag(l[o.e..], open[0]);
            && Framed(m, stack[1..], open[1..], list)
            && Read(m, stack[1..], open[1..], list) == Read(l, stack, open, list)
  {
    var o := stack[0];
    var h, body := l[..o.s], AddTag(l[o.e..], open[0]);
    ShapeRest(open);
    AddTagInert(l[o.e..], open, list);
    AddTagsTwice(l[o.e..], open[0], open);
    FramedAppend(h, stack[1..], open[1..], list, body);
  }

  /** What will be left of `body` once the open tags are closed. */
  function ReadBody(body: Buffer, open: seq<Tag>): Buffer {
    if Ground(open) then body else AddTags(body, TagSet(open))
  }

  lemma {:induction false} ReadBodyFirst(body: Buffer, open: seq<Tag>, p: Buffer)
    requires body != []
    ensures p + ReadBody(body, open)
         == (p + [body[0].(tags := body[0].tags + OpenTags(open))]) + ReadBody(body[1..], open)
  {
    assert body[0].tags + {} == body[0].tags;
  }

  /** Reading several items at once. */
  lemma {:induction false} FramedAppend(h: Buffer, stack: seq<Opening>, open: seq<Tag>, list: bool, body: Buffer)
    requires Framed(h, stack, open, list) && AllAllowed(body, open, list)
    ensures Framed(h + body, stack, open, list)
    ensures Read(h + body, stack, open, list) == Read(h, stack, open, list) + ReadBody(body, open)
    decreases |body|
  {
    var p := Read(h, stack, open, list);
    if body == [] {
      assert h + body == h && p + ReadBody(body, open) == p;
    } else {
      var first, rest := h + [body[0]], body[1..];
      FramedPut(h, stack, open, list, body[0]);
      assert AllAllowed(rest, open, list);
      FramedAppend(first, stack, open, list, rest);
      assert first + rest == h + body;
      ReadBodyFirst(body, open, p);
    }
  }

  /** The last character in the buffer is a mark's, or the last one read. */
  lemma {:induction false} LastColon(l: Buffer, stack: seq<Opening>, open: seq<Tag>, list: bool)
    requires Framed(l, stack, open, list) && l != [] && l[|l|-1].glyph == Chr(':')
    ensures var p := Read(l, stack, open, list); p != [] && p[|p|-1].glyph == Chr(':')
  {
    if stack != [] {
      var o := stack[0];
      var text := if Ground(open) then "- " else MarkText(open[0], true);
      if !Ground(open) { MarkTexts(open[0]); }
      MarkItems(l, o, text);
      assert text[|text|-1] != ':';
      assert l[o.e-1] == Item(Chr(text[|text|-1]), {});
      assert l[|l|-1] == l[o.e..][|l|-1-o.e];
    }
  }
}
