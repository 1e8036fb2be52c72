/** The markup analysis of the editor as a state machine over the buffer, the stack of markups
    still open and the scan position. */
module Parser {
  import opened RichText
  import opened Tokens
  import Base64

  /** Encoding and decoding of images, which the editor leaves to other libraries. */
  datatype Codec = Codec(encode: int -> string, decode: string -> Option<int>)

  /** `open[0]` is the innermost open markup. */
  datatype State = State(buf: Buffer, open: seq<Opening>, pos: nat)

  function Top(open: seq<Opening>): Option<Opening> {
    if open == [] then None else Some(open[0])
  }

  // ----- what closing a markup does to the buffer -----

  function StyleTag(m: Markup): Option<Tag> {
    match m
    case BoldMark => Some(Bold)
    case MonoMark => Some(Mono)
    case VerbatimMark => Some(Verbatim)
    case ItalicMark => Some(Italic)
    case StrikeMark => Some(Strike)
    case UnderlineMark => Some(Underline)
    case Title1Start => Some(Title1)
    case Title2Start => Some(Title2)
    case _ => None
  }

  function ListTag(nested: bool): Tag {
    if nested then List2 else List1
  }

  /** The text of a stretch of buffer, images left out. */
  function Characters(b: Buffer): string {
    if b == [] then []
    else Characters(b[..|b|-1]) + (if b[|b|-1].glyph.Chr? then [b[|b|-1].glyph.c] else [])
  }

  function DecodedPicture(codec: Codec, data: Buffer): Option<int> {
    codec.decode(Base64.Unwrapped(Characters(data)))
  }

  /** The tags an image gets when it is inserted before position `i`: those that cover both
      neighbours. */
  function InheritedTags(b: Buffer, i: nat): set<Tag>
    requires i <= |b|
  {
    if 0 < i < |b| then b[i-1].tags * b[i].tags else {}
  }

  /** The last item keeps no tag but `t`. */
  function KeepOnLast(b: Buffer, t: Tag): (r: Buffer)
    ensures SameGlyphs(r, b)
  {
    if b == [] then [] else b[|b|-1 := b[|b|-1].(tags := b[|b|-1].tags * {t})]
  }

  /** Closing a markup leaves `b[..lo]`, then `objects`, then `b[from..to]`, then `b[hi..]`. */
  datatype Splice = Splice(lo: nat, objects: seq<Item>, from: nat, to: nat, hi: nat)

  function ListDepth(b: Buffer, s: nat): nat
    requires s <= |b|
  {
    if Indent(b, s) > 0 then Indent(b, s) else 0
  }

  /** The splice for the opening `o` closed by a token at `cs..ce`. */
  function SpliceOf(codec: Codec, b: Buffer, o: Opening, cs: nat, ce: nat): (r: Splice)
    requires o.s < o.e <= cs <= ce <= |b|
    ensures r.lo <= o.s && o.e <= r.from <= r.to == cs && r.hi == ce
  {
    if o.markup == ListStart then
      var depth := ListDepth(b, o.s);
      IndentBound(b, o.s);
      Splice(o.s - depth, [Item(Bullet(depth > 0), {ListTag(depth > 0)})], o.e, cs, ce)
    else if o.markup == PictureStart && DecodedPicture(codec, b[o.e..cs]).Some? then
      Splice(o.s, [Item(Picture(DecodedPicture(codec, b[o.e..cs]).value), InheritedTags(b, ce))],
             cs, cs, ce)
    else
      Splice(o.s, [], o.e, cs, ce)
  }

  lemma {:induction false} IndentBound(b: Buffer, i: nat)
    requires i <= |b|
    ensures -1 <= Indent(b, i) <= i
  {
    if !StartsLine(b, i) {
      IndentBound(b, i - 1);
    }
  }

  /** The buffer after apply_markup. */
  function ClosedBuffer(codec: Codec, b: Buffer, o: Opening, cs: nat, ce: nat): Buffer
    requires o.s < o.e <= cs <= ce <= |b|
  {
    var c := SpliceOf(codec, b, o, cs, ce);
    var head := if o.markup == ListStart then KeepOnLast(b[..c.lo], ListTag(c.lo < o.s)) else b[..c.lo];
    var body := if StyleTag(o.markup).Some? then AddTag(b[c.from..c.to], StyleTag(o.markup).value)
                else b[c.from..c.to];
    head + c.objects + body + b[c.hi..]
  }

  /** Where the mark put at the end of the closing token is once apply_markup is done.  That
      mark does not move when an image is inserted right at it. */
  function ClosedMark(codec: Codec, b: Buffer, o: Opening, cs: nat, ce: nat): nat
    requires o.s < o.e <= cs <= ce <= |b|
  {
    var c := SpliceOf(codec, b, o, cs, ce);
    if o.markup == ListStart && cs == ce == o.e then c.lo
    else if o.markup == PictureStart then c.lo + (c.to - c.from)
    else c.lo + |c.objects| + (c.to - c.from)
  }

  // ----- the reachable states -----

  /** The spelling of an opening mark. */
  function Spelling(m: Markup): string {
    match m
    case BoldMark => "**"
    case MonoMark => "``"
    case VerbatimMark => "\"\"\""
    case ItalicMark => "//"
    case StrikeMark => "--"
    case UnderlineMark => "__"
    case Title1Start => "= "
    case Title2Start => "== "
    case PictureStart => "[[["
    case ListStart => "- "
    case _ => ""
  }

  /** The mark of an open markup is still in the buffer: it ends with its spelling, which may
      follow one or two characters swallowed at the start of a line. */
  predicate Spelled(b: Buffer, o: Opening) {
    var n := |Spelling(o.markup)|;
    && o.s + n <= o.e <= |b|
    && (forall k :: 0 <= k < n ==> CharAt(b, o.e - n + k) == Spelling(o.markup)[k])
    && (forall k :: o.s <= k < o.e - n ==> CharAt(b, k) in {'=', '-'})
  }

  predicate OpeningOk(b: Buffer, o: Opening) {
    && Starts(o.markup)
    && o.s < o.e <= |b|
    && Spelled(b, o)
    && (o.markup == ListStart ==> o.e == o.s + 2 && Indent(b, o.s) >= 0)
  }

  /** The open markups are disjoint, in order, and left of `limit`. */
  predicate StackOk(b: Buffer, open: seq<Opening>, limit: nat) {
    open == [] ||
    (open[0].e <= limit && OpeningOk(b, open[0]) && StackOk(b, open[1..], open[0].s))
  }

  predicate Inv(st: State) {
    st.pos <= |st.buf| && StackOk(st.buf, st.open, st.pos)
  }

  function NextTokenOf(st: State): Token
    requires st.pos <= |st.buf|
  {
    NextToken(st.buf, Top(st.open), st.pos)
  }

  predicate Finished(st: State)
    requires st.pos <= |st.buf|
  {
    NextTokenOf(st).markup == EndOfText
  }

  predicate Closes(st: State)
    requires Inv(st)
  {
    st.open != [] &&
    Matches(st.open[0].markup, Line(st.buf, st.open[0].s), NextTokenOf(st).markup, Line(st.buf, st.pos))
  }

  /** One turn of the loop of text_buffer_changed_cb. */
  function Step(codec: Codec, st: State): State
    requires Inv(st) && !Finished(st)
  {
    var t := NextTokenOf(st);
    if t.markup == NoMark then st.(pos := t.end)
    else if Closes(st) then
      TokenBounds(st.buf, Top(st.open), st.pos);
      State(ClosedBuffer(codec, st.buf, st.open[0], st.pos, t.end), st.open[1..],
            ResumeAt(codec, st.buf, st.open, st.pos, t.end))
    else State(st.buf, [Opening(t.markup, st.pos, t.end)] + st.open, t.end)
  }

  lemma {:induction false} SpelledShape(b: Buffer, o: Opening)
    requires Starts(o.markup) && Spelled(b, o)
    ensures o.s < o.e <= |b|
    ensures !SpaceItem(b[o.s])
    ensures forall k :: o.s <= k < o.e ==> !LineBreak(b[k].glyph)
  {
    forall k | o.s <= k < o.e
      ensures !LineBreak(b[k].glyph) && (k == o.s ==> !SpaceItem(b[k]))
    {
      var n := |Spelling(o.markup)|;
      if k >= o.e - n {
        var j := k - (o.e - n);
        assert CharAt(b, o.e - n + j) == Spelling(o.markup)[j];
      }
      MarkCharacterItem(b, k);
    }
  }

  lemma {:induction false} DelimiterSpelled(b: Buffer, i: nat, j: nat)
    requires i <= j <= i + 2 && DelimiterAt(b, j) != NoMark
    requires forall k :: i <= k < j ==> CharAt(b, k) in {'=', '-'}
    ensures var m := DelimiterAt(b, j); Spelled(b, Opening(m, i, j + DelimiterLength(m)))
  {
    var m := DelimiterAt(b, j);
    var n := |Spelling(m)|;
    assert n == DelimiterLength(m);
    forall k | 0 <= k < n ensures CharAt(b, j + k) == Spelling(m)[k] {
      assert k == 0 || k == 1 || k == 2;
    }
    assert CharAt(b, j + n - 1) != NUL;
  }

  lemma {:induction false} LineTokenSpelled(b: Buffer, i: nat)
    requires i <= |b| && LineTokenAt(b, i).markup != NoMark
    ensures var t := LineTokenAt(b, i); Spelled(b, Opening(t.markup, i, t.end))
  {
    var t := LineTokenAt(b, i);
    var n := |Spelling(t.markup)|;
    assert t.end == i + n;
    forall k | 0 <= k < n ensures CharAt(b, i + k) == Spelling(t.markup)[k] {
      assert k == 0 || k == 1 || k == 2;
    }
  }

  lemma {:induction false} SwallowedCharacters(b: Buffer, i: nat)
    requires i <= |b|
    ensures Swallowed(b, i) <= 2
    ensures forall k :: i <= k < i + Swallowed(b, i) ==> CharAt(b, k) in {'=', '-'}
  {
    forall k | i <= k < i + Swallowed(b, i) ensures CharAt(b, k) in {'=', '-'} {
      assert k == i || k == i + 1;
    }
  }

  lemma {:induction false} TokenSpelled(b: Buffer, top: Option<Opening>, i: nat)
    requires i <= |b|
    requires Starts(TokenAt(b, top, i).markup)
    ensures var t := TokenAt(b, top, i); OpeningOk(b, Opening(t.markup, i, t.end))
  {
    OpeningShape(b, top, i);
    StartingForms(b, top, i);
    var t := TokenAt(b, top, i);
    if t.end == i + 3 && DelimiterAt(b, i) == VerbatimMark && t.markup == VerbatimMark {
      DelimiterSpelled(b, i, i);
    } else if t == LineTokenAt(b, i) {
      LineTokenSpelled(b, i);
    } else {
      SwallowedCharacters(b, i);
      DelimiterSpelled(b, i, i + Swallowed(b, i));
    }
  }

  /** The stack only looks at glyphs, and only left of its limit. */
  lemma {:induction false} StackFrame(a: Buffer, b: Buffer, open: seq<Opening>, limit: nat)
    requires limit <= |a| && limit <= |b|
    requires forall k :: 0 <= k < limit ==> a[k].glyph == b[k].glyph
    requires StackOk(a, open, limit)
    ensures StackOk(b, open, limit)
  {
    if open != [] {
      var o := open[0];
      var n := |Spelling(o.markup)|;
      forall k | o.s <= k < o.e ensures CharAt(b, k) == CharAt(a, k) {
      }
      forall k | 0 <= k < n ensures CharAt(b, o.e - n + k) == Spelling(o.markup)[k] {
        assert CharAt(a, o.e - n + k) == Spelling(o.markup)[k];
      }
      assert Spelled(b, o);
      if o.markup == ListStart {
        assert a[o.s].glyph == b[o.s].glyph;
        if o.s > 0 { assert a[o.s-1].glyph == b[o.s-1].glyph; }
        IndentFrame(a, b, o.s);
      }
      StackFrame(a, b, open[1..], o.s);
    }
  }

  lemma {:induction false} StackLimit(b: Buffer, open: seq<Opening>, limit: nat, lower: nat)
    requires StackOk(b, open, limit)
    requires open != [] ==> open[0].e <= lower
    ensures StackOk(b, open, lower)
  {
  }

  /** No open markup lies in the indentation of a list item. */
  lemma {:induction false} StackBelowIndent(b: Buffer, open: seq<Opening>, s: nat)
    requires s <= |b| && StackOk(b, open, s) && Indent(b, s) >= 0
    ensures Indent(b, s) <= s
    ensures StackOk(b, open, s - Indent(b, s))
  {
    IndentMeaning(b, s);
    var lo := s - Indent(b, s);
    if open != [] {
      var o := open[0];
      SpelledShape(b, o);
      if lo < o.e {
        assert false;
      }
    }
    StackLimit(b, open, s, lo);
  }

  /** Every step keeps the invariant. */
  lemma {:induction false} StepKeepsInv(codec: Codec, st: State)
    requires Inv(st) && !Finished(st)
    ensures Inv(Step(codec, st))
  {
    var t := NextTokenOf(st);
    var top := Top(st.open);
    TokenBounds(st.buf, top, st.pos);
    if t.markup == NoMark {
      StackLimit(st.buf, st.open, st.pos, t.end);
    } else if Closes(st) {
      CloseKeepsInv(codec, st.buf, st.open, st.pos, t.end);
    } else {
      if !Starts(t.markup) {
        EndsMatch(st.buf, top, st.pos);
        assert false;
      }
      TokenSpelled(st.buf, top, st.pos);
      var open := [Opening(t.markup, st.pos, t.end)] + st.open;
      assert open[1..] == st.open;
    }
  }

  /** Where the scan goes on after the innermost markup is closed. */
  function ResumeAt(codec: Codec, b: Buffer, open: seq<Opening>, cs: nat, ce: nat): nat
    requires open != [] && open[0].s < open[0].e <= cs <= ce <= |b|
  {
    if open[1..] != [] then open[1].e else ClosedMark(codec, b, open[0], cs, ce)
  }

  lemma {:induction false} CloseKeepsInv(codec: Codec, b: Buffer, open: seq<Opening>, cs: nat, ce: nat)
    requires open != [] && StackOk(b, open, cs) && cs <= ce <= |b|
    ensures Inv(State(ClosedBuffer(codec, b, open[0], cs, ce), open[1..], ResumeAt(codec, b, open, cs, ce)))
  {
    var o := open[0];
    var rest := open[1..];
    var c := SpliceOf(codec, b, o, cs, ce);
    var b' := ClosedBuffer(codec, b, o, cs, ce);
    if o.markup == ListStart {
      StackBelowIndent(b, rest, o.s);
    }
    assert StackOk(b, rest, c.lo);
    StackFrame(b, b', rest, c.lo);
    if rest != [] {
      assert open[1] == rest[0];
      StackLimit(b', rest, c.lo, rest[0].e);
    }
  }

  lemma {:induction false} CloseShrinks(codec: Codec, st: State)
    requires Inv(st) && !Finished(st) && NextTokenOf(st).markup != NoMark && Closes(st)
    ensures |Step(codec, st).buf| < |st.buf|
  {
    TokenBounds(st.buf, Top(st.open), st.pos);
  }

  /** The measure of text_buffer_changed_cb: text and openings move the scan on, and closing a
      markup shortens the buffer, even when it puts an image in and the scan goes back. */
  lemma {:induction false} StepProgress(codec: Codec, st: State)
    requires Inv(st) && !Finished(st)
    ensures var n := Step(codec, st);
            |n.buf| < |st.buf| || (n.buf == st.buf && st.pos < n.pos <= |n.buf|)
  {
    var t := NextTokenOf(st);
    var top := Top(st.open);
    TokenBounds(st.buf, top, st.pos);
    if t.markup == NoMark {
    } else if Closes(st) {
      CloseShrinks(codec, st);
    } else if !Starts(t.markup) {
      EndsMatch(st.buf, top, st.pos);
      assert false;
    }
  }

  /** The state in which the loop of text_buffer_changed_cb ends. */
  function Run(codec: Codec, st: State): (r: State)
    requires Inv(st)
    ensures Inv(r) && Finished(r)
    decreases |st.buf|, |st.buf| - st.pos
  {
    if Finished(st) then st
    else
      StepKeepsInv(codec, st);
      StepProgress(codec, st);
      Run(codec, Step(codec, st))
  }

  /** The buffer once its markup has been applied. */
  function Parsed(codec: Codec, b: Buffer): Buffer {
    Run(codec, State(b, [], 0)).buf
  }
}
