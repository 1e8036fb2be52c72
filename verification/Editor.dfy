/** The editor's markup analysis as it runs: loops over a buffer that is edited in place, with
    positions saved in marks. */
module Editor {
  import opened RichText
  import opened Tokens
  import opened Parser
  import opened TextBuffers
  import Base64
  import Serializer
  import SerializeText
  import PortableDocs
  import RoundTrip
  import ReadBack

  /** A pending markup: marks around its opening token. */
  datatype TextTag = TextTag(markup: Markup, mStart: nat, mEnd: nat)

  /** The editor's table of tags, in the order of its enumeration. */
  const TAG_ORDER: seq<Tag> :=
    [Italic, Bold, Mono, Verbatim, Underline, Strike, Title1, Title2, List1, List2]

  lemma {:induction false} TagOrderComplete(t: Tag)
    ensures t in TAG_ORDER
  {
    var i := match t
      case Italic => 0 case Bold => 1 case Mono => 2 case Verbatim => 3 case Underline => 4
      case Strike => 5 case Title1 => 6 case Title2 => 7 case List1 => 8 case List2 => 9;
    assert TAG_ORDER[i] == t;
  }

  function KeepOnly(b: Buffer, t: Tag, lo: nat, hi: nat): (r: Buffer)
    requires lo <= hi <= |b|
    ensures SameGlyphs(r, b)
  {
    seq(|b|, i requires 0 <= i < |b| => if lo <= i < hi then b[i].(tags := b[i].tags * {t}) else b[i])
  }

  function Without(b: Buffer, gone: set<Tag>, lo: nat, hi: nat): (r: Buffer)
    requires lo <= hi <= |b|
    ensures SameGlyphs(r, b)
  {
    seq(|b|, i requires 0 <= i < |b| => if lo <= i < hi then b[i].(tags := b[i].tags - gone) else b[i])
  }

  lemma {:induction false} WithoutStep(b: Buffer, gone: set<Tag>, t: Tag, lo: nat, hi: nat)
    requires lo <= hi <= |b|
    ensures Without(b, {}, lo, hi) == b
    ensures Untagged(Without(b, gone, lo, hi), t, lo, hi) == Without(b, gone + {t}, lo, hi)
  {
    forall k | lo <= k < hi
      ensures b[k].tags - {} == b[k].tags && (b[k].tags - gone) - {t} == b[k].tags - (gone + {t})
    {
    }
  }

  lemma {:induction false} StyleClosed(codec: Codec, b: Buffer, o: Opening, cs: nat, ce: nat, t: Tag)
    requires o.s < o.e <= cs <= ce <= |b| && StyleTag(o.markup) == Some(t)
    ensures var r := Tagged(b, t, o.s, ce);
            r[..o.s] + r[o.e..cs] + r[ce..] == ClosedBuffer(codec, b, o, cs, ce)
  {
    var r := Tagged(b, t, o.s, ce);
    forall k | 0 <= k < |b| ensures r[k] == if o.s <= k < ce then b[k].(tags := b[k].tags + {t}) else b[k] {
      TaggedAt(b, t, o.s, ce, k);
    }
    assert r[..o.s] == b[..o.s];
    assert r[o.e..cs] == AddTag(b[o.e..cs], t);
    assert r[ce..] == b[ce..];
  }

  lemma {:induction false} TaggedAt(b: Buffer, t: Tag, lo: nat, hi: nat, k: nat)
    requires lo <= hi <= |b| && k < |b|
    ensures Tagged(b, t, lo, hi)[k] == if lo <= k < hi then b[k].(tags := b[k].tags + {t}) else b[k]
  {
  }

  /** The buffer without the data `e..cs`, and with the picture at the end of the closing token. */
  function WithPicture(b: Buffer, e: nat, cs: nat, ce: nat, p: int): Buffer
    requires e <= cs <= ce <= |b|
  {
    var r := b[..e] + b[cs..];
    var at := e + (ce - cs);
    r[..at] + [Item(Picture(p), if 0 < at < |r| then r[at-1].tags * r[at].tags else {})] + r[at..]
  }

  /** Decoding puts the image in place of the data, at the end of the closing token. */
  lemma {:induction false} PictureClosed(codec: Codec, b: Buffer, o: Opening, cs: nat, ce: nat, p: int)
    requires o.s < o.e <= cs < ce <= |b| && o.markup == PictureStart
    requires DecodedPicture(codec, b[o.e..cs]) == Some(p)
    ensures var r', at := WithPicture(b, o.e, cs, ce, p), o.e + (ce - cs);
            at <= |r'| && r'[..o.s] + r'[o.e..o.e] + r'[at..] == ClosedBuffer(codec, b, o, cs, ce)
  {
    var r := b[..o.e] + b[cs..];
    var at := o.e + (ce - cs);
    assert r[at-1] == b[ce-1];
    assert at < |r| ==> r[at] == b[ce];
    assert r[at..] == b[ce..];
    var image := Item(Picture(p), InheritedTags(b, ce));
    var r' := r[..at] + [image] + r[at..];
    assert r'[at..] == [image] + b[ce..];
    assert r'[..o.s] == b[..o.s];
    assert b[cs..cs] == [];
  }

  lemma {:induction false} TwoCuts(b: Buffer, s: nat, e: nat, cs: nat, ce: nat)
    requires s <= e <= cs <= ce <= |b|
    ensures var r := b[..cs] + b[ce..];
            && (cs == ce ==> r == b)
            && r[..s] + r[e..] == b[..s] + b[e..cs] + b[ce..]
            && (s == e ==> r == b[..s] + b[e..cs] + b[ce..])
  {
  }

  lemma {:induction false} PictureMark(codec: Codec, b: Buffer, o: Opening, cs: nat, ce: nat, p: int)
    requires o.s < o.e <= cs < ce <= |b| && o.markup == PictureStart
    requires DecodedPicture(codec, b[o.e..cs]) == Some(p)
    ensures ClosedMark(codec, b, o, cs, ce) == o.s && SpliceOf(codec, b, o, cs, ce).lo == o.s
  {
  }

  /** The buffer of the list case once the indentation is gone and the bullet is in. */
  predicate BulletPlaced(b: Buffer, o: Opening, tags: set<Tag>, r: Buffer)
    requires o.s <= o.e <= |b|
  {
    var lo := o.s - ListDepth(b, o.s);
    && 0 <= lo <= o.s && ListTag(lo < o.s) in tags
    && r == b[..lo] + b[o.s..o.e] + [Item(Bullet(lo < o.s), tags)] + b[o.e..]
  }

  lemma {:induction false} BulletLine(b: Buffer, o: Opening, tags: set<Tag>, r: Buffer)
    requires o.markup == ListStart && OpeningOk(b, o) && BulletPlaced(b, o, tags, r)
    ensures LineStart(r, o.s - ListDepth(b, o.s) + 2) == o.s - ListDepth(b, o.s)
  {
    IndentMeaning(b, o.s);
    SpelledShape(b, o);
    var lo := o.s - ListDepth(b, o.s);
    if lo > 0 { assert r[lo-1] == b[lo-1]; }
    var m := b[o.s..o.e];
    assert r[lo] == m[0] && r[lo+1] == m[1];
    assert StartsLine(r, lo);
    assert !StartsLine(r, lo + 1) && !StartsLine(r, lo + 2);
  }

  lemma {:induction false} KeepOnlyParts(h: Buffer, m: Buffer, x: Item, w: Buffer, t: Tag)
    ensures var r := h + m + [x] + w;
            var k := KeepOnly(r, t, if |h| > 0 then |h| - 1 else 0, |h| + |m| + 1);
            && k[..|h|] == KeepOnLast(h, t)
            && k[|h|+|m|..] == [x.(tags := x.tags * {t})] + w
  {
  }

  lemma {:induction false} InsertParts(b: Buffer, lo: nat, s: nat, x: Item)
    requires lo <= s && s + 2 <= |b|
    ensures var r := b[..lo] + b[s..];
            r[..lo+2] + [x] + r[lo+2..] == b[..lo] + b[s..s+2] + [x] + b[s+2..]
  {
  }

  lemma {:induction false} TaggedOne(u: Buffer, x: Item, w: Buffer, t: Tag)
    ensures Tagged(u + [x] + w, t, |u|, |u| + 1) == u + [x.(tags := x.tags + {t})] + w
  {
  }

  lemma {:induction false} ListClosedBuffer(codec: Codec, b: Buffer, o: Opening, cs: nat)
    requires o.markup == ListStart && o.s + 2 == o.e <= cs <= |b|
    ensures var depth := ListDepth(b, o.s);
            depth <= o.s &&
            var lo := o.s - depth;
            var t := ListTag(lo < o.s);
            ClosedBuffer(codec, b, o, cs, cs) == KeepOnLast(b[..lo], t) + [Item(Bullet(lo < o.s), {t})] + b[o.e..]
  {
    IndentBound(b, o.s);
    assert b[o.e..] == b[o.e..cs] + b[cs..];
  }

  lemma {:induction false} ListClosed(codec: Codec, b: Buffer, o: Opening, cs: nat, tags: set<Tag>, r: Buffer)
    requires o.markup == ListStart && o.s + 2 == o.e <= cs <= |b| && BulletPlaced(b, o, tags, r)
    ensures var lo := o.s - ListDepth(b, o.s);
            var k := KeepOnly(r, ListTag(lo < o.s), if lo > 0 then lo - 1 else 0, lo + 3);
            k[..lo] + k[lo+2..] == ClosedBuffer(codec, b, o, cs, cs)
  {
    var lo := o.s - ListDepth(b, o.s);
    ListParts(b, o, tags, r, lo, ListTag(lo < o.s));
    ListClosedBuffer(codec, b, o, cs);
  }

  lemma {:induction false} ListParts(b: Buffer, o: Opening, tags: set<Tag>, r: Buffer, lo: nat, t: Tag)
    requires lo <= o.s && o.s + 2 == o.e <= |b| && t in tags
    requires r == b[..lo] + b[o.s..o.e] + [Item(Bullet(lo < o.s), tags)] + b[o.e..]
    ensures var k := KeepOnly(r, t, if lo > 0 then lo - 1 else 0, lo + 3);
            |k| >= lo + 2 && k[..lo] + k[lo+2..] == KeepOnLast(b[..lo], t) + [Item(Bullet(lo < o.s), {t})] + b[o.e..]
  {
    assert tags * {t} == {t};
    KeepOnlyParts(b[..lo], b[o.s..o.e], Item(Bullet(lo < o.s), tags), b[o.e..], t);
  }

  class RtEditor {
    const textbuffer: TextBuffer
    const codec: Codec
    var showMarkup: bool

    constructor (buffer: TextBuffer, codec: Codec)
      ensures textbuffer == buffer && this.codec == codec && !showMarkup
    {
      this.textbuffer, this.codec, showMarkup := buffer, codec, false;
    }

    /** The pending markup `tag` as positions in the buffer. */
    function OpeningOf(tag: TextTag): Opening
      requires tag.mStart in textbuffer.marks && tag.mEnd in textbuffer.marks
      reads textbuffer
    {
      Opening(tag.markup, textbuffer.marks[tag.mStart], textbuffer.marks[tag.mEnd])
    }

    function TopOf(tag: Option<TextTag>): Option<Opening>
      requires tag.Some? ==> tag.value.mStart in textbuffer.marks && tag.value.mEnd in textbuffer.marks
      reads textbuffer
    {
      if tag.Some? then Some(OpeningOf(tag.value)) else None
    }

    method SpacesSinceStartOfLine(iter: nat) returns (n: int)
      requires iter <= |textbuffer.items|
      ensures n == Indent(textbuffer.items, iter)
    {
      var i := 0;
      var inti: nat := iter;
      while !StartsLine(textbuffer.items, inti)
        invariant inti + i == iter && i >= 0
        invariant Indent(textbuffer.items, iter) ==
                  if Indent(textbuffer.items, inti) < 0 then -1 else Indent(textbuffer.items, inti) + i
        decreases inti
      {
        inti := inti - 1;
        if !SpaceItem(textbuffer.items[inti]) {
          return -1;
        }
        i := i + 1;
      }
      n := i;
    }

    /** The character after `inti`, and that position. */
    method NextChar(inti: nat) returns (next: nat, c: char)
      requires inti <= |textbuffer.items|
      ensures next == if inti < |textbuffer.items| then inti + 1 else inti
      ensures c == CharAt(textbuffer.items, inti + 1)
    {
      next := if inti < |textbuffer.items| then inti + 1 else inti;
      c := CharAt(textbuffer.items, next);
    }

    /** The three tests made at the start of a line, and the characters they read. */
    method LineStartTests(iter: nat) returns (markup: Markup, inti: nat, c: char)
      requires iter < |textbuffer.items| && Indent(textbuffer.items, iter) >= 0
      ensures markup == LineTokenAt(textbuffer.items, iter).markup
      ensures inti <= |textbuffer.items|
      ensures markup != NoMark ==> inti + 1 == LineTokenAt(textbuffer.items, iter).end
      ensures markup == NoMark ==>
                inti == iter + Swallowed(textbuffer.items, iter) && c == CharAt(textbuffer.items, inti)
      ensures markup == NoMark && inti > iter ==> c != ' '
    {
      inti, c := iter, CharAt(textbuffer.items, iter);
      if c == '=' {
        inti, c := NextChar(inti);
        if c == ' ' {
          return Title1Start, inti, c;
        } else if c == '=' {
          inti, c := NextChar(inti);
          if c == ' ' {
            return Title2Start, inti, c;
          }
        }
      } else if c == '-' {
        inti, c := NextChar(inti);
        if c == ' ' {
          return ListStart, inti, c;
        }
      }
      markup := NoMark;
    }

    /** The tests for the delimiters that may stand anywhere on a line; `inti` is the position of
        the last character read. */
    method DelimiterTests(start: nat, first: char) returns (markup: Markup, inti: nat)
      requires start <= |textbuffer.items| && first == CharAt(textbuffer.items, start)
      ensures markup == DelimiterAt(textbuffer.items, start)
      ensures markup != NoMark ==> inti + 1 == start + DelimiterLength(markup)
    {
      var c;
      inti, c := NextChar(start);
      if first == '*' {
        if c == '*' {
          return BoldMark, inti;
        }
      } else if first == '/' {
        if c == '/' {
          if inti >= 2 && CharAt(textbuffer.items, inti - 2) == ':' {
          } else {
            return ItalicMark, inti;
          }
        }
      } else if first == '_' {
        if c == '_' {
          return UnderlineMark, inti;
        }
      } else if first == '-' {
        if c == '-' {
          return StrikeMark, inti;
        }
      } else if first == '`' {
        if c == '`' {
          return MonoMark, inti;
        }
      } else if first == '"' {
        if c == '"' {
          inti, c := NextChar(inti);
          if c == '"' {
            return VerbatimMark, inti;
          }
        }
      } else if first == '[' {
        if c == '[' {
          inti, c := NextChar(inti);
          if c == '[' {
            return PictureStart, inti;
          }
        }
      }
      markup := NoMark;
    }

    /** The tests for the end of a title. */
    method TitleEndTests(iter: nat, startMarkup: Markup, linestart: nat) returns (markup: Markup, inti: nat)
      requires iter < |textbuffer.items|
      ensures inti <= |textbuffer.items|
      ensures var b := textbuffer.items;
              markup == if CharAt(b, iter + 1) == '=' && startMarkup == Title1Start
                           && EndsLine(b, iter + 2) && linestart == Line(b, iter + 1) then Title1End
                        else if Twice(b, iter + 1, '=') && startMarkup == Title2Start
                           && EndsLine(b, iter + 3) && linestart == Line(b, iter + 2) then Title2End
                        else NoMark
      ensures markup == Title1End ==> inti == iter + 1
      ensures markup == Title2End ==> inti == iter + 2
    {
      var b, c := textbuffer.items, NUL;
      inti, c := NextChar(iter);
      if c == '=' {
        if startMarkup == Title1Start {
          if EndsLine(b, inti + 1) && linestart == Line(b, inti) {
            return Title1End, inti;
          }
        } else {
          inti, c := NextChar(inti);
          if c == '=' {
            if startMarkup == Title2Start && EndsLine(b, inti + 1) && linestart == Line(b, inti) {
              return Title2End, inti;
            }
          }
        }
      }
      markup := NoMark;
    }

    /** The tests made inside a picture or a verbatim text, where only three `quote` count. */
    method ClosingTest(iter: nat, quote: char) returns (closed: bool)
      requires iter <= |textbuffer.items| && quote != NUL
      ensures closed == Thrice(textbuffer.items, iter, quote)
    {
      var inti, c := iter, CharAt(textbuffer.items, iter);
      if c == quote {
        inti, c := NextChar(inti);
        if c == quote {
          inti, c := NextChar(inti);
          return c == quote;
        }
      }
      closed := false;
    }

    /** get_markup_token: the token at `iter`, found by reading characters one by one. */
    method GetMarkupToken(iter: nat, startTag: Option<TextTag>) returns (markup: Markup, outEnd: nat)
      requires textbuffer.Valid() && iter <= |textbuffer.items|
      requires startTag.Some? ==>
                 startTag.value.mStart in textbuffer.marks && startTag.value.mEnd in textbuffer.marks
      ensures Token(markup, outEnd) == TokenAt(textbuffer.items, TopOf(startTag), iter)
    {
      var b := textbuffer.items;
      var startMarkup, linestart := EndOfText, 0;
      if startTag.Some? {
        startMarkup := startTag.value.markup;
        linestart := Line(b, textbuffer.marks[startTag.value.mStart]);
      }
      if startMarkup == PictureStart {
        var closed := ClosingTest(iter, ']');
        if closed {
          return PictureEnd, iter + 3;
        }
        return if iter == |b| then EndOfText else NoMark, iter;
      } else if startMarkup == VerbatimMark {
        var closed := ClosingTest(iter, '"');
        if closed {
          return VerbatimMark, iter + 3;
        }
        return if iter == |b| then EndOfText else NoMark, iter;
      } else if iter < |b| && Verbatim in b[iter].tags {
        return NoMark, iter;
      }
      if EndsLine(b, iter) && startMarkup == ListStart && linestart == Line(b, iter) {
        return ListEnd, iter;
      }
      if iter == |b| {
        return EndOfText, iter;
      }
      markup, outEnd := PlainToken(iter, startMarkup, linestart);
    }

    /** The part of get_markup_token for a position that is not inside a picture or a verbatim
        text. */
    method PlainToken(iter: nat, startMarkup: Markup, linestart: nat) returns (markup: Markup, outEnd: nat)
      requires iter < |textbuffer.items|
      ensures Token(markup, outEnd) == PlainTokenAt(textbuffer.items, startMarkup, linestart, iter)
    {
      var inti, c := iter, CharAt(textbuffer.items, iter);
      var ssol := SpacesSinceStartOfLine(iter);
      if ssol >= 0 {
        markup, inti, c := LineStartTests(iter);
        if markup != NoMark {
          return markup, inti + 1;
        }
      }
      markup, outEnd := LaterTests(iter, inti, c, startMarkup, linestart);
    }

    /** The tests that follow when no title or list starts at `iter`. */
    method LaterTests(iter: nat, inti: nat, c: char, startMarkup: Markup, linestart: nat)
      returns (markup: Markup, outEnd: nat)
      requires iter < |textbuffer.items| && LineTokenAt(textbuffer.items, iter).markup == NoMark
      requires inti == iter + Swallowed(textbuffer.items, iter) && c == CharAt(textbuffer.items, inti)
      requires c == ' ' ==> inti == iter
      ensures Token(markup, outEnd) == PlainTokenAt(textbuffer.items, startMarkup, linestart, iter)
    {
      var last;
      markup, last := DelimiterTests(inti, c);
      if markup != NoMark {
        return markup, last + 1;
      }
      if c == ' ' {
        markup, last := TitleEndTests(iter, startMarkup, linestart);
        if markup != NoMark {
          return markup, last + 1;
        }
      }
      return NoMark, iter;
    }

    /** get_token: the token at `iter`, or the text from `iter` up to the next token. */
    method GetToken(iter: nat, startTag: Option<TextTag>) returns (markup: Markup, outEnd: nat)
      requires textbuffer.Valid() && iter <= |textbuffer.items|
      requires startTag.Some? ==>
                 startTag.value.mStart in textbuffer.marks && startTag.value.mEnd in textbuffer.marks
      ensures Token(markup, outEnd) == NextToken(textbuffer.items, TopOf(startTag), iter)
    {
      markup, outEnd := GetMarkupToken(iter, startTag);
      if markup != NoMark {
        return;
      }
      ghost var top := TopOf(startTag);
      TokenBounds(textbuffer.items, top, iter);
      var inti := iter + 1;
      while inti < |textbuffer.items|
        invariant iter < inti <= |textbuffer.items|
        invariant NextStop(textbuffer.items, top, iter + 1) == NextStop(textbuffer.items, top, inti)
      {
        var m, _ := GetMarkupToken(inti, startTag);
        if m != NoMark {
          break;
        }
        inti := inti + 1;
      }
      outEnd := inti;
    }

    // ----- closing a markup -----

    /** What the closing methods need: marks around both tokens of a pair. */
    predicate Pair(current: TextTag, markStart: nat, markEnd: nat)
      reads textbuffer
    {
      && textbuffer.Valid()
      && {current.mStart, current.mEnd, markStart, markEnd} <= textbuffer.marks.Keys
      && OpeningOk(textbuffer.items, OpeningOf(current))
      && textbuffer.marks[current.mEnd] <= textbuffer.marks[markStart] <= textbuffer.marks[markEnd]
    }

    /** The buffer `b` with marks `ms` has become the one in which `o` is closed by `cs..ce`. */
    predicate ClosedFrom(b: Buffer, ms: map<nat, nat>, o: Opening, cs: nat, ce: nat, markEnd: nat)
      requires o.s < o.e <= cs <= ce <= |b|
      reads textbuffer
    {
      && textbuffer.Valid() && textbuffer.marks.Keys == ms.Keys
      && textbuffer.items == ClosedBuffer(codec, b, o, cs, ce)
      && markEnd in textbuffer.marks && textbuffer.marks[markEnd] == ClosedMark(codec, b, o, cs, ce)
      && (forall m :: m in ms && ms[m] <= SpliceOf(codec, b, o, cs, ce).lo ==> textbuffer.marks[m] == ms[m])
    }

    /** "remove markup text": the closing token goes first, then the opening one. */
    method RemoveMarkupText(current: TextTag, markStart: nat, markEnd: nat)
      requires textbuffer.Valid()
      requires {current.mStart, current.mEnd, markStart, markEnd} <= textbuffer.marks.Keys
      requires textbuffer.marks[current.mStart] <= textbuffer.marks[current.mEnd]
      requires textbuffer.marks[current.mEnd] <= textbuffer.marks[markStart] <= textbuffer.marks[markEnd]
      modifies textbuffer
      ensures textbuffer.Valid() && textbuffer.marks.Keys == old(textbuffer.marks.Keys)
      ensures var b, ms := old(textbuffer.items), old(textbuffer.marks);
              var s, e, cs, ce := ms[current.mStart], ms[current.mEnd], ms[markStart], ms[markEnd];
              && textbuffer.items == b[..s] + b[e..cs] + b[ce..]
              && (forall m :: m in ms && ms[m] <= s ==> textbuffer.marks[m] == ms[m])
              && textbuffer.marks[markEnd] == cs - (e - s)
    {
      var start, end := textbuffer.marks[markStart], textbuffer.marks[markEnd];
      TwoCuts(textbuffer.items, textbuffer.marks[current.mStart], textbuffer.marks[current.mEnd], start, end);
      if start != end {
        textbuffer.Delete(start, end);
      }
      start, end := textbuffer.marks[current.mStart], textbuffer.marks[current.mEnd];
      if start != end {
        textbuffer.Delete(start, end);
      }
    }

    method ApplyStyle(current: TextTag, markStart: nat, markEnd: nat)
      requires Pair(current, markStart, markEnd) && StyleTag(current.markup).Some?
      modifies textbuffer
      ensures ClosedFrom(old(textbuffer.items), old(textbuffer.marks), old(OpeningOf(current)),
                         old(textbuffer.marks[markStart]), old(textbuffer.marks[markEnd]), markEnd)
    {
      var astart, end := textbuffer.marks[current.mStart], textbuffer.marks[markEnd];
      StyleClosed(codec, textbuffer.items, OpeningOf(current), textbuffer.marks[markStart], end,
                  StyleTag(current.markup).value);
      textbuffer.ApplyTag(StyleTag(current.markup).value, astart, end);
      RemoveMarkupText(current, markStart, markEnd);
    }

    method ApplyPicture(current: TextTag, markStart: nat, markEnd: nat)
      requires Pair(current, markStart, markEnd) && current.markup == PictureStart
      requires textbuffer.marks[markStart] < textbuffer.marks[markEnd]
      modifies textbuffer
      ensures ClosedFrom(old(textbuffer.items), old(textbuffer.marks), old(OpeningOf(current)),
                         old(textbuffer.marks[markStart]), old(textbuffer.marks[markEnd]), markEnd)
    {
      var ps, pe := textbuffer.marks[current.mEnd], textbuffer.marks[markStart];
      var data := Base64.RemoveNewlines(Characters(textbuffer.items[ps..pe]));
      var pixbuf := codec.decode(data);
      assert pixbuf == DecodedPicture(codec, textbuffer.items[ps..pe]);
      if pixbuf.Some? {
        PlacePicture(current, markStart, markEnd, pixbuf.value);
      } else {
        RemoveMarkupText(current, markStart, markEnd);
      }
    }

    method PlacePicture(current: TextTag, markStart: nat, markEnd: nat, pixbuf: int)
      requires Pair(current, markStart, markEnd) && current.markup == PictureStart
      requires textbuffer.marks[markStart] < textbuffer.marks[markEnd]
      requires DecodedPicture(codec, textbuffer.items[textbuffer.marks[current.mEnd]..textbuffer.marks[markStart]])
               == Some(pixbuf)
      modifies textbuffer
      ensures ClosedFrom(old(textbuffer.items), old(textbuffer.marks), old(OpeningOf(current)),
                         old(textbuffer.marks[markStart]), old(textbuffer.marks[markEnd]), markEnd)
    {
      ghost var b, o, cs, ce := textbuffer.items, OpeningOf(current), textbuffer.marks[markStart], textbuffer.marks[markEnd];
      PictureClosed(codec, b, o, cs, ce, pixbuf);
      PictureMark(codec, b, o, cs, ce, pixbuf);
      PutPicture(current.mEnd, markStart, markEnd, pixbuf);
      ghost var ms := textbuffer.marks;
      assert ms[current.mStart] == o.s && ms[current.mEnd] == o.e == ms[markStart] && ms[markEnd] == o.e + (ce - cs);
      RemoveMarkupText(current, markStart, markEnd);
    }

    /** The data of the picture goes, and the picture comes in after the closing token. */
    method PutPicture(dataStart: nat, markStart: nat, markEnd: nat, pixbuf: int)
      requires textbuffer.Valid() && {dataStart, markStart, markEnd} <= textbuffer.marks.Keys
      requires textbuffer.marks[dataStart] <= textbuffer.marks[markStart] < textbuffer.marks[markEnd]
      modifies textbuffer
      ensures textbuffer.Valid() && textbuffer.marks.Keys == old(textbuffer.marks.Keys)
      ensures var b, ms := old(textbuffer.items), old(textbuffer.marks);
              var at := ms[dataStart] + (ms[markEnd] - ms[markStart]);
              && textbuffer.items == WithPicture(b, ms[dataStart], ms[markStart], ms[markEnd], pixbuf)
              && (forall m :: m in ms && ms[m] <= ms[dataStart] ==> textbuffer.marks[m] == ms[m])
              && textbuffer.marks[markStart] == ms[dataStart] && textbuffer.marks[markEnd] == at
    {
      var ps, pe := textbuffer.marks[dataStart], textbuffer.marks[markStart];
      textbuffer.Delete(ps, pe);
      ps := textbuffer.marks[markEnd];
      textbuffer.InsertImage(ps, Picture(pixbuf));
    }

    /** The loop at the end of the list case: every tag but `tag` goes. */
    method RemoveOtherTags(tag: Tag, lo: nat, hi: nat)
      requires textbuffer.Valid() && lo <= hi <= |textbuffer.items|
      modifies textbuffer`items
      ensures textbuffer.Valid()
      ensures textbuffer.items == KeepOnly(old(textbuffer.items), tag, lo, hi)
    {
      var i := 0;
      ghost var gone: set<Tag> := {};
      WithoutStep(textbuffer.items, {}, tag, lo, hi);
      while i < |TAG_ORDER|
        invariant 0 <= i <= |TAG_ORDER|
        invariant textbuffer.Valid()
        invariant textbuffer.items == Without(old(textbuffer.items), gone, lo, hi)
        invariant tag !in gone && forall t :: t in TAG_ORDER[..i] && t != tag ==> t in gone
      {
        if TAG_ORDER[i] != tag {
          WithoutStep(old(textbuffer.items), gone, TAG_ORDER[i], lo, hi);
          textbuffer.RemoveTag(TAG_ORDER[i], lo, hi);
          gone := gone + {TAG_ORDER[i]};
        }
        assert TAG_ORDER[..i+1] == TAG_ORDER[..i] + [TAG_ORDER[i]];
        i := i + 1;
      }
      forall k | lo <= k < hi
        ensures textbuffer.items[k].tags == old(textbuffer.items)[k].tags * {tag}
      {
        forall t: Tag | t != tag ensures t in gone {
          TagOrderComplete(t);
        }
      }
    }

    /** The first half of the list case: the indentation goes, the bullet comes in. */
    method PlaceBullet(current: TextTag) returns (tag: Tag, ghost tags: set<Tag>)
      requires textbuffer.Valid() && {current.mStart, current.mEnd} <= textbuffer.marks.Keys
      requires var o := OpeningOf(current);
               o.s + 2 == o.e <= |textbuffer.items| && Indent(textbuffer.items, o.s) >= 0
      modifies textbuffer
      ensures textbuffer.Valid() && textbuffer.marks.Keys == old(textbuffer.marks.Keys)
      ensures var b, ms, o := old(textbuffer.items), old(textbuffer.marks), old(OpeningOf(current));
              var lo := o.s - ListDepth(b, o.s);
              && tag == ListTag(lo < o.s)
              && BulletPlaced(b, o, tags, textbuffer.items)
              && (forall m :: m in ms ==>
                    textbuffer.marks[m] == AfterInsert(AfterDelete(ms[m], lo, o.s), lo + 2))
    {
      var ps := textbuffer.marks[current.mStart];
      var ssol := SpacesSinceStartOfLine(ps);
      ghost var b, s := textbuffer.items, ps;
      IndentBound(b, s);
      if ssol > 0 {
        textbuffer.Delete(ps - ssol, ps);
      }
      assert textbuffer.items == b[..s-ssol] + b[s..];
      tag, tags := InsertBullet(current, ssol, b, s - ssol, s);
    }

    method InsertBullet(current: TextTag, ssol: nat, ghost b: Buffer, ghost lo: nat, ghost s: nat)
      returns (tag: Tag, ghost tags: set<Tag>)
      requires textbuffer.Valid() && current.mEnd in textbuffer.marks && textbuffer.marks[current.mEnd] == lo + 2
      requires lo <= s && s + 2 <= |b| && textbuffer.items == b[..lo] + b[s..]
      modifies textbuffer
      ensures textbuffer.Valid() && textbuffer.marks.Keys == old(textbuffer.marks.Keys)
      ensures tag == ListTag(ssol > 0) && tag in tags
      ensures textbuffer.items == b[..lo] + b[s..s+2] + [Item(Bullet(ssol > 0), tags)] + b[s+2..]
      ensures forall m :: m in textbuffer.marks ==> textbuffer.marks[m] == AfterInsert(old(textbuffer.marks)[m], lo + 2)
    {
      var ps := textbuffer.marks[current.mEnd];
      tag := ListTag(ssol > 0);
      textbuffer.InsertImage(ps, Bullet(ssol > 0));
      ps := textbuffer.marks[current.mEnd];
      ghost var bullet := textbuffer.items[ps];
      InsertParts(b, lo, s, bullet);
      TaggedOne(b[..lo] + b[s..s+2], bullet, b[s+2..], tag);
      tags := bullet.tags + {tag};
      textbuffer.ApplyTag(tag, ps, ps + 1);
    }

    method ApplyList(current: TextTag, markStart: nat, markEnd: nat)
      requires Pair(current, markStart, markEnd) && current.markup == ListStart
      requires textbuffer.marks[markStart] == textbuffer.marks[markEnd]
      modifies textbuffer
      ensures ClosedFrom(old(textbuffer.items), old(textbuffer.marks), old(OpeningOf(current)),
                         old(textbuffer.marks[markStart]), old(textbuffer.marks[markEnd]), markEnd)
    {
      ghost var b, o, cs := textbuffer.items, OpeningOf(current), textbuffer.marks[markStart];
      ghost var tags;
      var tag;
      IndentBound(b, o.s);
      tag, tags := PlaceBullet(current);
      BulletLine(b, o, tags, textbuffer.items);
      ListClosed(codec, b, o, cs, tags, textbuffer.items);
      FinishList(current, markStart, markEnd, tag);
    }

    /** The second half: the bullet and the newline before it keep the list tag only. */
    method FinishList(current: TextTag, markStart: nat, markEnd: nat, tag: Tag)
      requires textbuffer.Valid()
      requires {current.mStart, current.mEnd, markStart, markEnd} <= textbuffer.marks.Keys
      requires textbuffer.marks[current.mStart] + 2 == textbuffer.marks[current.mEnd] < |textbuffer.items|
      requires LineStart(textbuffer.items, textbuffer.marks[current.mEnd]) == textbuffer.marks[current.mStart]
      requires textbuffer.marks[current.mEnd] <= textbuffer.marks[markStart] == textbuffer.marks[markEnd]
      modifies textbuffer
      ensures textbuffer.Valid() && textbuffer.marks.Keys == old(textbuffer.marks.Keys)
      ensures var lo, ms := old(textbuffer.marks[current.mStart]), old(textbuffer.marks);
              var k := KeepOnly(old(textbuffer.items), tag, if lo > 0 then lo - 1 else 0, lo + 3);
              && textbuffer.items == k[..lo] + k[lo+2..]
              && (forall m :: m in ms && ms[m] <= lo ==> textbuffer.marks[m] == ms[m])
              && textbuffer.marks[markEnd] == ms[markEnd] - 2
    {
      var ps := textbuffer.marks[current.mEnd];
      var pe := ps + 1;
      ps := LineStart(textbuffer.items, ps);
      ps := if ps > 0 then ps - 1 else 0;
      RemoveOtherTags(tag, ps, pe);
      ghost var k, lo, at := textbuffer.items, pe - 3, textbuffer.marks[markEnd];
      assert k[..lo] + k[lo+2..at] + k[at..] == k[..lo] + k[lo+2..];
      RemoveMarkupText(current, markStart, markEnd);
    }

    /** apply_markup. */
    method ApplyMarkup(current: TextTag, markStart: nat, markEnd: nat)
      requires Pair(current, markStart, markEnd)
      requires current.markup == ListStart ==> textbuffer.marks[markStart] == textbuffer.marks[markEnd]
      requires current.markup == PictureStart ==> textbuffer.marks[markStart] < textbuffer.marks[markEnd]
      modifies textbuffer
      ensures ClosedFrom(old(textbuffer.items), old(textbuffer.marks), old(OpeningOf(current)),
                         old(textbuffer.marks[markStart]), old(textbuffer.marks[markEnd]), markEnd)
    {
      if StyleTag(current.markup).Some? {
        ApplyStyle(current, markStart, markEnd);
      } else if current.markup == ListStart {
        ApplyList(current, markStart, markEnd);
      } else {
        ApplyPicture(current, markStart, markEnd);
      }
    }

    // ----- the analysis -----

    /** `queue` is the stack of markups still open, innermost first, held as marks. */
    predicate Represents(queue: seq<TextTag>, open: seq<Opening>)
      reads textbuffer
    {
      && |queue| == |open|
      && (forall k :: 0 <= k < |queue| ==>
            queue[k].mStart in textbuffer.marks && queue[k].mEnd in textbuffer.marks)
      && (forall k :: 0 <= k < |queue| ==> OpeningOf(queue[k]) == open[k])
    }

    /** The marks of `queue` are those added to `before`, each used once. */
    ghost predicate Owns(queue: seq<TextTag>, before: set<nat>, all: set<nat>)
    {
      if queue == [] then all == before
      else
        var t := queue[0];
        t.mStart != t.mEnd && {t.mStart, t.mEnd} <= all && {t.mStart, t.mEnd} !! before
        && Owns(queue[1..], before, all - {t.mStart, t.mEnd})
    }

    function CurrentOf(queue: seq<TextTag>): Option<TextTag> {
      if queue == [] then None else Some(queue[0])
    }

    lemma {:induction false} OwnsMember(queue: seq<TextTag>, before: set<nat>, all: set<nat>, k: nat)
      requires Owns(queue, before, all) && k < |queue|
      ensures {queue[k].mStart, queue[k].mEnd} <= all && {queue[k].mStart, queue[k].mEnd} !! before
    {
      if k > 0 {
        OwnsMember(queue[1..], before, all - {queue[0].mStart, queue[0].mEnd}, k - 1);
      }
    }

    lemma {:induction false} OwnsBefore(queue: seq<TextTag>, before: set<nat>, all: set<nat>)
      requires Owns(queue, before, all)
      ensures before <= all
    {
      if queue != [] {
        OwnsBefore(queue[1..], before, all - {queue[0].mStart, queue[0].mEnd});
      }
    }

    /** A token that opens a markup: marks go around it. */
    method Push(queue: seq<TextTag>, markup: Markup, start: nat, end: nat,
                ghost open: seq<Opening>, ghost before: set<nat>) returns (queue': seq<TextTag>)
      requires textbuffer.Valid() && start <= end <= |textbuffer.items|
      requires Represents(queue, open) && Owns(queue, before, textbuffer.marks.Keys)
      modifies textbuffer`marks, textbuffer`nextMark
      ensures textbuffer.Valid()
      ensures Represents(queue', [Opening(markup, start, end)] + open)
      ensures Owns(queue', before, textbuffer.marks.Keys)
    {
      OwnsBefore(queue, before, textbuffer.marks.Keys);
      ghost var keys := textbuffer.marks.Keys;
      var mStart := textbuffer.CreateMark(start);
      var mEnd := textbuffer.CreateMark(end);
      queue' := [TextTag(markup, mStart, mEnd)] + queue;
      assert queue'[1..] == queue;
      assert textbuffer.marks.Keys - {mStart, mEnd} == keys;
      forall k | 0 <= k < |queue| ensures OpeningOf(queue[k]) == open[k] {
      }
    }

    method DropMarks(current: TextTag, markStart: nat, markEnd: nat)
      requires textbuffer.Valid() && {current.mStart, current.mEnd, markStart, markEnd} <= textbuffer.marks.Keys
      requires current.mStart != current.mEnd && markStart != markEnd
      requires {current.mStart, current.mEnd} !! {markStart, markEnd}
      modifies textbuffer`marks
      ensures textbuffer.Valid()
      ensures textbuffer.marks == old(textbuffer.marks) - {current.mStart, current.mEnd, markStart, markEnd}
    {
      textbuffer.DeleteMark(current.mStart);
      textbuffer.DeleteMark(current.mEnd);
      textbuffer.DeleteMark(markEnd);
      textbuffer.DeleteMark(markStart);
    }

    /** A token that closes the innermost markup. */
    method CloseCurrent(queue: seq<TextTag>, start: nat, end: nat,
                        ghost open: seq<Opening>, ghost before: set<nat>)
      returns (queue': seq<TextTag>, end': nat)
      requires textbuffer.Valid() && start <= end <= |textbuffer.items|
      requires queue != [] && Represents(queue, open) && Owns(queue, before, textbuffer.marks.Keys)
      requires StackOk(textbuffer.items, open, start)
      requires open[0].markup == ListStart ==> start == end
      requires open[0].markup == PictureStart ==> start < end
      modifies textbuffer
      ensures textbuffer.Valid() && queue' == queue[1..]
      ensures textbuffer.items == ClosedBuffer(codec, old(textbuffer.items), open[0], start, end)
      ensures end' == ResumeAt(codec, old(textbuffer.items), open, start, end)
      ensures Represents(queue', open[1..]) && Owns(queue', before, textbuffer.marks.Keys)
    {
      var current := queue[0];
      ghost var keys := textbuffer.marks.Keys;
      var markStart, markEnd := ApplyToCurrent(queue, start, end, open);
      queue' := queue[1..];
      assert queue' != [] ==> queue'[0] == queue[1];
      end' := if queue' != [] then textbuffer.marks[queue'[0].mEnd] else textbuffer.marks[markEnd];
      ghost var ms := textbuffer.marks;
      DropMarks(current, markStart, markEnd);
      assert textbuffer.marks.Keys == keys - {current.mStart, current.mEnd};
      forall k | 0 <= k < |queue'|
        ensures queue'[k].mStart in textbuffer.marks && queue'[k].mEnd in textbuffer.marks
        ensures OpeningOf(queue'[k]) == open[1..][k]
      {
        OwnsMember(queue', before, textbuffer.marks.Keys, k);
        assert queue'[k] == queue[k+1];
        assert ms[queue[k+1].mStart] == open[k+1].s && ms[queue[k+1].mEnd] == open[k+1].e;
      }
    }

    /** The closing token gets marks of its own, then the markup is applied. */
    method ApplyToCurrent(queue: seq<TextTag>, start: nat, end: nat, ghost open: seq<Opening>)
      returns (markStart: nat, markEnd: nat)
      requires textbuffer.Valid() && start <= end <= |textbuffer.items|
      requires queue != [] && Represents(queue, open)
      requires StackOk(textbuffer.items, open, start)
      requires open[0].markup == ListStart ==> start == end
      requires open[0].markup == PictureStart ==> start < end
      modifies textbuffer
      ensures textbuffer.Valid() && markStart != markEnd && {markStart, markEnd} !! old(textbuffer.marks.Keys)
      ensures textbuffer.marks.Keys == old(textbuffer.marks.Keys) + {markStart, markEnd}
      ensures textbuffer.items == ClosedBuffer(codec, old(textbuffer.items), open[0], start, end)
      ensures textbuffer.marks[markEnd] == ClosedMark(codec, old(textbuffer.items), open[0], start, end)
      ensures forall k :: 1 <= k < |queue| ==>
                textbuffer.marks[queue[k].mStart] == open[k].s && textbuffer.marks[queue[k].mEnd] == open[k].e
    {
      ghost var b, old_ms := textbuffer.items, textbuffer.marks;
      assert OpeningOf(queue[0]) == open[0];
      markStart := textbuffer.CreateMark(start);
      markEnd := textbuffer.CreateMark(end);
      ghost var ms := textbuffer.marks;
      ghost var lo := SpliceOf(codec, b, open[0], start, end).lo;
      LowerMarks(b, open, start, lo);
      forall k | 1 <= k < |queue|
        ensures ms[queue[k].mStart] == open[k].s <= lo && ms[queue[k].mEnd] == open[k].e <= lo
      {
        assert open[k] == Opening(queue[k].markup, old_ms[queue[k].mStart], old_ms[queue[k].mEnd]);
      }
      assert OpeningOf(queue[0]) == open[0];
      ApplyMarkup(queue[0], markStart, markEnd);
    }

    /** The markups below the innermost one lie left of everything that closing it changes. */
    lemma {:induction false} LowerMarks(b: Buffer, open: seq<Opening>, cs: nat, lo: nat)
      requires open != [] && StackOk(b, open, cs)
      requires lo == open[0].s - (if open[0].markup == ListStart then ListDepth(b, open[0].s) else 0)
      ensures forall k :: 1 <= k < |open| ==> open[k].s <= open[k].e <= lo
    {
      if open[0].markup == ListStart {
        StackBelowIndent(b, open[1..], open[0].s);
      }
      BelowLimit(b, open[1..], lo);
      forall k | 1 <= k < |open| ensures open[k].s <= open[k].e <= lo {
        assert open[k] == open[1..][k-1];
      }
    }

    lemma {:induction false} BelowLimit(b: Buffer, open: seq<Opening>, limit: nat)
      requires StackOk(b, open, limit)
      ensures forall k :: 0 <= k < |open| ==> open[k].s <= open[k].e <= limit
    {
      if open != [] {
        BelowLimit(b, open[1..], open[0].s);
        forall k | 0 <= k < |open| ensures open[k].s <= open[k].e <= limit {
          if k > 0 { assert open[k] == open[1..][k-1]; }
        }
      }
    }

    /** One turn of the loop of text_buffer_changed_cb. */
    method Turn(queue: seq<TextTag>, mt: Markup, start: nat, end: nat, ghost st: State, ghost before: set<nat>)
      returns (queue': seq<TextTag>, start': nat)
      requires textbuffer.Valid() && Inv(st) && !Finished(st)
      requires st.buf == textbuffer.items && st.pos == start && Token(mt, end) == NextTokenOf(st)
      requires Represents(queue, st.open) && Owns(queue, before, textbuffer.marks.Keys)
      modifies textbuffer
      ensures textbuffer.Valid()
      ensures textbuffer.items == Step(codec, st).buf && start' == Step(codec, st).pos
      ensures Represents(queue', Step(codec, st).open) && Owns(queue', before, textbuffer.marks.Keys)
    {
      TokenBounds(st.buf, Top(st.open), start);
      assert queue != [] ==> OpeningOf(queue[0]) == st.open[0];
      if mt == NoMark {
        queue', start' := queue, end;
      } else if queue != [] &&
                Matches(queue[0].markup, Line(textbuffer.items, textbuffer.marks[queue[0].mStart]),
                        mt, Line(textbuffer.items, start)) {
        ClosingLength(st);
        queue', start' := CloseCurrent(queue, start, end, st.open, before);
      } else {
        queue' := Push(queue, mt, start, end, st.open, before);
        start' := end;
      }
    }

    lemma {:induction false} ClosingLength(st: State)
      requires Inv(st) && Closes(st)
      ensures st.open[0].markup == ListStart ==> NextTokenOf(st).end == st.pos
      ensures st.open[0].markup == PictureStart ==> NextTokenOf(st).end > st.pos
    {
      TokenBounds(st.buf, Top(st.open), st.pos);
    }

    /** text_buffer_changed_cb: applies the markup found in the buffer, in place.  No mark is
        left behind. */
    method TextBufferChanged()
      requires textbuffer.Valid()
      modifies textbuffer
      ensures textbuffer.Valid()
      ensures textbuffer.items == if showMarkup then old(textbuffer.items) else Parsed(codec, old(textbuffer.items))
      ensures textbuffer.marks.Keys == old(textbuffer.marks.Keys)
    {
      if showMarkup {
        return;
      }
      ghost var st := State(textbuffer.items, [], 0);
      var queue: seq<TextTag> := [];
      var start := 0;
      var mt, end := GetToken(start, CurrentOf(queue));
      while mt != EndOfText
        invariant textbuffer.Valid() && Inv(st)
        invariant st.buf == textbuffer.items && st.pos == start
        invariant Represents(queue, st.open) && Owns(queue, old(textbuffer.marks.Keys), textbuffer.marks.Keys)
        invariant Token(mt, end) == NextTokenOf(st)
        invariant Run(codec, st).buf == Parsed(codec, old(textbuffer.items))
        decreases |textbuffer.items|, |textbuffer.items| - start
      {
        StepKeepsInv(codec, st);
        StepProgress(codec, st);
        queue, start := Turn(queue, mt, start, end, st, old(textbuffer.marks.Keys));
        st := Step(codec, st);
        assert queue != [] ==> OpeningOf(queue[0]) == st.open[0];
        mt, end := GetToken(start, CurrentOf(queue));
      }
      DropQueue(queue, old(textbuffer.marks.Keys));
    }

    /** The last loop of text_buffer_changed_cb: the marks of the markups still pending go. */
    method DropQueue(queue0: seq<TextTag>, ghost before: set<nat>)
      requires textbuffer.Valid() && Owns(queue0, before, textbuffer.marks.Keys)
      modifies textbuffer`marks
      ensures textbuffer.Valid() && textbuffer.marks.Keys == before
    {
      var queue := queue0;
      while queue != []
        invariant textbuffer.Valid()
        invariant Owns(queue, before, textbuffer.marks.Keys)
      {
        ghost var keys := textbuffer.marks.Keys;
        textbuffer.DeleteMark(queue[0].mStart);
        textbuffer.DeleteMark(queue[0].mEnd);
        assert textbuffer.marks.Keys == keys - {queue[0].mStart, queue[0].mEnd};
        queue := queue[1..];
      }
    }

    // ----- the contents -----

    /** gdaui_rt_editor_get_contents: the marked-up text, or the text as it is shown. */
    method GetContents() returns (text: string)
      requires !showMarkup ==> SerializeText.NoBareObject(textbuffer.items)
      ensures text == Contents()
    {
      if showMarkup {
        text := Characters(textbuffer.items);
      } else {
        text := SerializeText.Serialize(codec, textbuffer.items);
      }
    }

    function Contents(): string
      reads this, textbuffer
    {
      if showMarkup then Characters(textbuffer.items) else Serializer.Serialized(codec, textbuffer.items)
    }

    /** gdaui_rt_editor_set_contents. */
    method SetContents(text: string)
      requires textbuffer.Valid()
      modifies textbuffer
      ensures textbuffer.Valid()
      ensures textbuffer.items == if showMarkup then Plain(text) else Parsed(codec, Plain(text))
      ensures textbuffer.marks.Keys == old(textbuffer.marks.Keys)
    {
      textbuffer.SetText(text);
      TextBufferChanged();
    }

    /** _gdaui_rt_editor_set_show_markup: showing the markup or applying it. */
    method SetShowMarkup(show: bool)
      requires textbuffer.Valid()
      requires show && !showMarkup ==> SerializeText.NoBareObject(textbuffer.items)
      modifies this`showMarkup, textbuffer
      ensures textbuffer.Valid() && showMarkup == show
      ensures show == old(showMarkup) ==> textbuffer.items == old(textbuffer.items)
      ensures show != old(showMarkup) ==>
                textbuffer.items == if show then Plain(old(Contents())) else Parsed(codec, Plain(old(Contents())))
    {
      if showMarkup == show {
        return;
      }
      var data := GetContents();
      showMarkup := show;
      SetContents(data);
    }

    /** Showing the markup of a portable document and hiding it again restores the document. */
    method ShowThenHide()
      requires textbuffer.Valid() && !showMarkup
      requires SerializeText.NoBareObject(textbuffer.items)
      modifies this`showMarkup, textbuffer
      ensures textbuffer.Valid() && !showMarkup
      ensures PortableDocs.Portable(old(textbuffer.items)) &&
              RoundTrip.PicturesFaithful(codec, old(textbuffer.items)) ==>
                textbuffer.items == Serializer.Normal(old(textbuffer.items))
    {
      ghost var d := textbuffer.items;
      SetShowMarkup(true);
      SetShowMarkup(false);
      ReadBack.CharactersOfPlain(Serializer.Serialized(codec, d));
      if PortableDocs.Portable(d) && RoundTrip.PicturesFaithful(codec, d) {
        RoundTrip.RoundTrip(codec, d);
      }
    }
  }
}
