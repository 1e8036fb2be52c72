/** Characters the parser can no longer remove, whatever comes after them. */
module Leftovers {
  import opened RichText
  import opened Tokens
  import opened Parser

  // ----- a mark character left behind -----

  /** The scan has passed the character at `k`, and every open mark comes after it. */
  predicate Passed(st: State, k: nat) {
    && Inv(st)
    && k < st.pos
    && !SpaceItem(st.buf[k])
    && (forall o :: o in st.open ==> k < o.s)
  }

  lemma {:induction false} StackMembers(b: Buffer, open: seq<Opening>, limit: nat, o: Opening)
    requires StackOk(b, open, limit) && o in open
    ensures o.e <= limit && OpeningOk(b, o)
  {
    if o != open[0] {
      StackMembers(b, open[1..], open[0].s, o);
    }
  }

  lemma {:induction false} PassedClose(codec: Codec, st: State, k: nat)
    requires Passed(st, k) && !Finished(st) && NextTokenOf(st).markup != NoMark && Closes(st)
    ensures Passed(Step(codec, st), k) && Step(codec, st).buf[k].glyph == st.buf[k].glyph
  {
    var o, b := st.open[0], st.buf;
    var t := NextTokenOf(st);
    TokenBounds(b, Top(st.open), st.pos);
    var c := SpliceOf(codec, b, o, st.pos, t.end);
    StepKeepsInv(codec, st);
    assert k < c.lo by {
      if o.markup == ListStart {
        IndentMeaning(b, o.s);
      }
    }
    assert forall x :: x in st.open[1..] ==> x in st.open;
    if st.open[1..] != [] {
      assert st.open[1] in st.open;
      StackMembers(b, st.open, st.pos, st.open[1]);
    }
    assert Step(codec, st).buf[k].glyph == b[..c.lo][k].glyph;
  }

  lemma {:induction false} PassedStep(codec: Codec, st: State, k: nat)
    requires Passed(st, k) && !Finished(st)
    ensures Passed(Step(codec, st), k) && Step(codec, st).buf[k].glyph == st.buf[k].glyph
  {
    StepKeepsInv(codec, st);
    StepProgress(codec, st);
    if NextTokenOf(st).markup != NoMark && Closes(st) {
      PassedClose(codec, st, k);
    }
  }

  /** A character that was passed stays. */
  lemma {:induction false} PassedStays(codec: Codec, st: State, k: nat)
    requires Passed(st, k)
    ensures k < |Run(codec, st).buf| && Run(codec, st).buf[k].glyph == st.buf[k].glyph
    decreases |st.buf|, |st.buf| - st.pos
  {
    if !Finished(st) {
      PassedStep(codec, st, k);
      StepProgress(codec, st);
      PassedStays(codec, Step(codec, st), k);
    }
  }

  // ----- a slash right after a colon -----

  predicate ColonSlash(b: Buffer, k: nat) {
    Is(b, k, ':') && Is(b, k + 1, '/')
  }

  /** No picture and no verbatim text can start. */
  predicate NoBlocks(b: Buffer) {
    forall i :: 0 <= i < |b| ==> b[i].glyph != Chr('"') && b[i].glyph != Chr('[')
  }

  predicate Block(m: Markup) {
    m == PictureStart || m == VerbatimMark
  }

  predicate Clear(o: Opening, k: nat) {
    !Block(o.markup) && (o.e <= k || k + 1 < o.s)
  }

  predicate Stuck(st: State, k: nat) {
    && Inv(st)
    && ColonSlash(st.buf, k)
    && NoBlocks(st.buf)
    && (forall o :: o in st.open ==> Clear(o, k))
  }

  /** The characters of a token, which are never a colon. */
  lemma {:induction false} TokenCharacters(b: Buffer, top: Option<Opening>, i: nat)
    requires i <= |b| && NoBlocks(b)
    requires top.Some? ==> !Block(top.value.markup)
    ensures var t := TokenAt(b, top, i);
            && !Block(t.markup) && t.markup != PictureEnd
            && i <= t.end <= |b|
            && forall k :: i <= k < t.end ==> MarkCharacter(CharAt(b, k)) || CharAt(b, k) == ' '
  {
    var t := TokenAt(b, top, i);
    TokenBounds(b, top, i);
    assert forall j :: CharAt(b, j) != '"' && CharAt(b, j) != '[';
    if Starts(t.markup) {
      OpeningCharacters(b, top, i);
    } else if t.markup in {Title1End, Title2End} {
      forall k | i <= k < t.end ensures MarkCharacter(CharAt(b, k)) || CharAt(b, k) == ' ' {
        assert k == i || k == i + 1 || k == i + 2;
      }
    }
  }

  /** No token covers the colon or the slash. */
  lemma {:induction false} TokenMisses(b: Buffer, top: Option<Opening>, i: nat, k: nat)
    requires i <= |b| && NoBlocks(b) && ColonSlash(b, k)
    requires top.Some? ==> !Block(top.value.markup)
    ensures var t := TokenAt(b, top, i);
            i <= t.end <= |b| && (t.end <= k || k + 1 < i || t.end == i)
    ensures i == k + 1 ==> TokenAt(b, top, i).markup == NoMark
  {
    TokenCharacters(b, top, i);
    assert CharAt(b, k) == ':' && CharAt(b, k + 1) == '/';
    if i == k + 1 {
      assert Swallowed(b, i) == 0 && LineTokenAt(b, i).markup == NoMark;
      assert DelimiterAt(b, i) == NoMark;
      assert !LineBreak(b[i].glyph);
    }
    TokenBounds(b, top, i);
  }

  /** The item at `k` is kept. */
  predicate Keeps(c: Splice, k: nat) {
    k < c.lo || c.from <= k < c.to || c.hi <= k
  }

  /** Where the item at `k` goes when a markup is closed around or beside it. */
  function MovedTo(c: Splice, k: nat): nat
    requires c.from <= c.to && c.lo <= c.from
  {
    if k < c.lo then k
    else if k < c.to then c.lo + |c.objects| + (if k >= c.from then k - c.from else 0)
    else c.lo + |c.objects| + (c.to - c.from) + (if k >= c.hi then k - c.hi else 0)
  }

  /** Pieces of a buffer, put together again around some images. */
  lemma {:induction false} SplicedItem(b: Buffer, c: Splice, head: Buffer, body: Buffer, b': Buffer, k: nat)
    requires c.lo <= c.from <= c.to <= c.hi <= |b| && k < |b|
    requires SameGlyphs(head, b[..c.lo]) && SameGlyphs(body, b[c.from..c.to])
    requires b' == head + c.objects + body + b[c.hi..]
    requires Keeps(c, k)
    ensures MovedTo(c, k) < |b'| && b'[MovedTo(c, k)].glyph == b[k].glyph
  {
    if k < c.lo {
      assert head[k].glyph == b[..c.lo][k].glyph;
    } else if k < c.to {
      assert body[k-c.from].glyph == b[c.from..c.to][k-c.from].glyph;
    }
  }

  lemma {:induction false} SplicedBlocks(b: Buffer, c: Splice, head: Buffer, body: Buffer, b': Buffer)
    requires c.lo <= c.from <= c.to <= c.hi <= |b| && NoBlocks(b)
    requires SameGlyphs(head, b[..c.lo]) && SameGlyphs(body, b[c.from..c.to])
    requires b' == head + c.objects + body + b[c.hi..]
    requires forall x :: x in c.objects ==> !x.glyph.Chr?
    ensures NoBlocks(b')
  {
    assert NoBlocks(head) by {
      assert forall k :: 0 <= k < |head| ==> head[k].glyph == b[..c.lo][k].glyph && b[..c.lo][k] == b[k];
    }
    assert NoBlocks(body) by {
      forall k | 0 <= k < |body| ensures body[k].glyph != Chr('"') && body[k].glyph != Chr('[') {
        assert body[k].glyph == b[c.from..c.to][k].glyph && b[c.from..c.to][k] == b[c.from+k];
      }
    }
    assert NoBlocks(c.objects) && NoBlocks(b[c.hi..]);
  }

  /** Closing a markup moves what it keeps, and makes nothing but bullets. */
  lemma {:induction false} ClosedItems(codec: Codec, b: Buffer, o: Opening, cs: nat, ce: nat, k: nat)
    requires o.s < o.e <= cs <= ce <= |b| && !Block(o.markup) && k < |b| && NoBlocks(b)
    requires Keeps(SpliceOf(codec, b, o, cs, ce), k)
    ensures var c, b' := SpliceOf(codec, b, o, cs, ce), ClosedBuffer(codec, b, o, cs, ce);
            && MovedTo(c, k) < |b'| && b'[MovedTo(c, k)].glyph == b[k].glyph
            && NoBlocks(b')
  {
    var c, b' := SpliceOf(codec, b, o, cs, ce), ClosedBuffer(codec, b, o, cs, ce);
    var head := if o.markup == ListStart then KeepOnLast(b[..c.lo], ListTag(c.lo < o.s)) else b[..c.lo];
    var body := if StyleTag(o.markup).Some? then AddTag(b[c.from..c.to], StyleTag(o.markup).value)
                else b[c.from..c.to];
    SplicedItem(b, c, head, body, b', k);
    SplicedBlocks(b, c, head, body, b');
  }

  /** A pair next to the closed markup is kept. */
  lemma {:induction false} PairKept(codec: Codec, b: Buffer, o: Opening, cs: nat, ce: nat, k: nat)
    requires o.s < o.e <= cs <= ce <= |b| && OpeningOk(b, o)
    requires ColonSlash(b, k) && NoBlocks(b) && Clear(o, k)
    requires cs != k + 1 && (ce <= k || k + 1 < cs || cs == ce)
    ensures var c, b' := SpliceOf(codec, b, o, cs, ce), ClosedBuffer(codec, b, o, cs, ce);
            && ColonSlash(b', MovedTo(c, k)) && NoBlocks(b')
            && (if k < c.lo then MovedTo(c, k) == k && k + 1 < c.lo else c.lo <= MovedTo(c, k))
  {
    var c := SpliceOf(codec, b, o, cs, ce);
    SpliceSpaces(codec, b, o, cs, ce, c);
    PairMoves(b, o, c, k);
    ClosedItems(codec, b, o, cs, ce, k);
    ClosedItems(codec, b, o, cs, ce, k + 1);
  }

  lemma {:induction false} SpliceSpaces(codec: Codec, b: Buffer, o: Opening, cs: nat, ce: nat, c: Splice)
    requires o.s < o.e <= cs <= ce <= |b| && OpeningOk(b, o) && !Block(o.markup) && c == SpliceOf(codec, b, o, cs, ce)
    ensures c.lo <= o.s && c.from == o.e && c.to == cs && c.hi == ce
    ensures forall i :: c.lo <= i < o.s ==> SpaceItem(b[i])
  {
    if o.markup == ListStart {
      IndentMeaning(b, o.s);
    }
  }

  lemma {:induction false} PairMoves(b: Buffer, o: Opening, c: Splice, k: nat)
    requires c.lo <= o.s < o.e <= c.from <= c.to <= c.hi <= |b| && ColonSlash(b, k) && Clear(o, k)
    requires c.from == o.e && c.to != k + 1 && (c.hi <= k || k + 1 < c.to || c.to == c.hi)
    requires forall i :: c.lo <= i < o.s ==> SpaceItem(b[i])
    ensures Keeps(c, k) && Keeps(c, k + 1)
    ensures MovedTo(c, k + 1) == MovedTo(c, k) + 1
    ensures if k < c.lo then MovedTo(c, k) == k && k + 1 < c.lo else c.lo <= MovedTo(c, k)
  {
  }

  lemma {:induction false} StuckClose(codec: Codec, st: State, k: nat) returns (k': nat)
    requires Stuck(st, k) && !Finished(st) && NextTokenOf(st).markup != NoMark && Closes(st)
    ensures Stuck(Step(codec, st), k')
  {
    var o, b, t := st.open[0], st.buf, NextTokenOf(st);
    assert o in st.open;
    TokenMisses(b, Top(st.open), st.pos, k);
    PairKept(codec, b, o, st.pos, t.end, k);
    var c := SpliceOf(codec, b, o, st.pos, t.end);
    StepKeepsInv(codec, st);
    k' := MovedTo(c, k);
    forall x | x in st.open[1..] ensures Clear(x, k') {
      StackBelow(b, st.open, st.pos, c.lo, x);
    }
  }

  lemma {:induction false} StackBelow(b: Buffer, open: seq<Opening>, limit: nat, lo: nat, x: Opening)
    requires StackOk(b, open, limit) && limit <= |b| && open != [] && x in open[1..]
    requires lo == open[0].s || (open[0].markup == ListStart && lo == open[0].s - ListDepth(b, open[0].s))
    ensures x.e <= lo && x in open
  {
    if open[0].markup == ListStart {
      StackBelowIndent(b, open[1..], open[0].s);
    }
    StackMembers(b, open[1..], lo, x);
  }

  lemma {:induction false} StuckStep(codec: Codec, st: State, k: nat) returns (k': nat)
    requires Stuck(st, k) && !Finished(st)
    ensures Stuck(Step(codec, st), k')
  {
    var t, top := NextTokenOf(st), Top(st.open);
    StepKeepsInv(codec, st);
    if t.markup != NoMark && Closes(st) {
      k' := StuckClose(codec, st, k);
    } else {
      k' := k;
      if t.markup != NoMark {
        assert top.Some? ==> top.value in st.open;
        TokenMisses(st.buf, top, st.pos, k);
        TokenCharacters(st.buf, top, st.pos);
        StepProgress(codec, st);
        assert Clear(Opening(t.markup, st.pos, t.end), k);
      }
    }
  }

  /** The slash after the colon is never taken for an italic mark. */
  lemma {:induction false} StuckStays(codec: Codec, st: State, k: nat) returns (k': nat)
    requires Stuck(st, k)
    ensures ColonSlash(Run(codec, st).buf, k')
    decreases |st.buf|, |st.buf| - st.pos
  {
    k' := k;
    if !Finished(st) {
      k' := StuckStep(codec, st, k);
      StepProgress(codec, st);
      k' := StuckStays(codec, Step(codec, st), k');
    }
  }
}
