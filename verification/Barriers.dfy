/** A mark that is still open when its line ends can no longer be closed, and stays in the text. */
module Barriers {
  import opened RichText
  import opened Tokens
  import opened Parser
  import opened Frames
  import opened ReadBack
  import opened Leftovers

  /** The opening `o`, counted `depth` from the outermost one, is followed by a line break at `q`;
      nothing starts a token in between, and what was opened since comes after the break. */
  predicate Barred(st: State, o: Opening, depth: nat, q: nat) {
    && Inv(st) && 0 < depth <= |st.open| && st.open[|st.open|-depth] == o
    && Style(o.markup) && o.markup != VerbatimMark
    && o.e <= q < |st.buf| && LineBreak(st.buf[q].glyph)
    && (forall i :: o.e <= i < q ==> InertItem(st.buf[i]))
    && (forall k :: 0 <= k < |st.open| - depth ==> q < st.open[k].s)
    && (q < st.pos || (depth == |st.open| && o.e <= st.pos))
  }

  /** A line starts after the break, at the latest where there is no newline. */
  lemma {:induction false} LineAfter(b: Buffer, q: nat, p: nat) returns (k: nat)
    requires q < p < |b| && LineBreak(b[q].glyph) && b[p].glyph != Chr('\n')
    ensures q < k <= p && StartsLine(b, k)
  {
    k := if StartsLine(b, q + 1) then q + 1 else q + 2;
  }

  lemma {:induction false} IndentStops(b: Buffer, i: nat)
    requires i <= |b| && Indent(b, i) >= 0
    ensures forall k: nat :: i - Indent(b, i) < k <= i ==> !StartsLine(b, k)
  {
    if !StartsLine(b, i) {
      IndentStops(b, i - 1);
    }
  }

  /** Where the scan is before the break, it goes on after it. */
  lemma {:induction false} CrossBreak(b: Buffer, o: Opening, pos: nat, q: nat)
    requires o.e <= pos <= q < |b| && LineBreak(b[q].glyph) && Style(o.markup) && o.markup != VerbatimMark
    requires forall i :: o.e <= i < q ==> InertItem(b[i])
    ensures NextToken(b, Some(o), pos).markup == NoMark && NextToken(b, Some(o), pos).end > q
  {
    forall i | pos <= i <= q ensures TokenAt(b, Some(o), i).markup == NoMark {
      if i < q {
        InertAt(b, Some(o), i);
      } else {
        BreakInside(b, o, q);
      }
    }
  }

  lemma {:induction false} BreakInside(b: Buffer, o: Opening, q: nat)
    requires q < |b| && LineBreak(b[q].glyph) && Style(o.markup) && o.markup != VerbatimMark
    ensures TokenAt(b, Some(o), q).markup == NoMark
  {
    assert CharAt(b, q) in {'\n', '\r', OTHER};
    assert LineTokenAt(b, q).markup == NoMark && Swallowed(b, q) == 0;
    assert DelimiterAt(b, q) == NoMark;
  }

  /** The opening does not match on a later line. */
  lemma {:induction false} NotClosed(st: State, o: Opening, depth: nat, q: nat)
    requires Barred(st, o, depth, q) && !Finished(st) && q < st.pos && depth == |st.open|
    requires NextTokenOf(st).markup != NoMark
    ensures !Closes(st)
  {
    var t := NextTokenOf(st);
    if t.markup == o.markup {
      OpeningCharacters(st.buf, Top(st.open), st.pos);
      MarkCharacterItem(st.buf, st.pos);
      var k := LineAfter(st.buf, q, st.pos);
      SameLine(st.buf, o.s, st.pos);
    }
  }

  /** Closing what was opened after the break changes nothing before it. */
  lemma {:induction false} ClosedAfter(codec: Codec, b: Buffer, o: Opening, cs: nat, ce: nat, q: nat)
    requires o.s < o.e <= cs <= ce <= |b| && OpeningOk(b, o) && q < o.s && LineBreak(b[q].glyph)
    ensures var b' := ClosedBuffer(codec, b, o, cs, ce);
            && q < |b'| && b'[q].glyph == b[q].glyph && forall i :: 0 <= i < q ==> b'[i] == b[i]
  {
    var c := SpliceOf(codec, b, o, cs, ce);
    SpelledShape(b, o);
    if o.markup == ListStart {
      var k := LineAfter(b, q, o.s);
      IndentStops(b, o.s);
      IndentMeaning(b, o.s);
    }
    assert q < c.lo;
  }

  lemma {:induction false} BarredClose(codec: Codec, st: State, o: Opening, depth: nat, q: nat)
    requires Barred(st, o, depth, q) && !Finished(st) && q < st.pos && depth < |st.open|
    requires NextTokenOf(st).markup != NoMark && Closes(st)
    ensures Barred(Step(codec, st), o, depth, q)
  {
    var top, t, rest := st.open[0], NextTokenOf(st), st.open[1..];
    TokenBounds(st.buf, Top(st.open), st.pos);
    StepKeepsInv(codec, st);
    ClosedAfter(codec, st.buf, top, st.pos, t.end, q);
    assert rest[|rest|-depth] == st.open[|st.open|-depth];
    forall k | 0 <= k < |rest| - depth ensures q < rest[k].s {
      assert rest[k] == st.open[k+1];
    }
    assert st.open[1] == rest[0];
    StackMembers(st.buf, st.open, st.pos, rest[0]);
  }

  lemma {:induction false} BarredStep(codec: Codec, st: State, o: Opening, depth: nat, q: nat)
    requires Barred(st, o, depth, q) && !Finished(st)
    ensures Barred(Step(codec, st), o, depth, q)
  {
    StepKeepsInv(codec, st);
    StepProgress(codec, st);
    if st.pos <= q {
      CrossBreak(st.buf, o, st.pos, q);
    } else if NextTokenOf(st).markup != NoMark {
      if depth == |st.open| {
        NotClosed(st, o, depth, q);
      }
      if Closes(st) {
        BarredClose(codec, st, o, depth, q);
      } else {
        var t := NextTokenOf(st);
        BarredPush(st, o, depth, q, Opening(t.markup, st.pos, t.end), Step(codec, st));
      }
    }
  }

  lemma {:induction false} BarredPush(st: State, o: Opening, depth: nat, q: nat, top: Opening, next: State)
    requires Barred(st, o, depth, q) && q < top.s && q < next.pos && Inv(next)
    requires next.buf == st.buf && next.open == [top] + st.open
    ensures Barred(next, o, depth, q)
  {
    assert next.open[|next.open|-depth] == st.open[|st.open|-depth];
    assert forall k :: 1 <= k < |next.open| ==> next.open[k] == st.open[k-1];
  }

  /** The mark stays in the text. */
  lemma {:induction false} BarredStays(codec: Codec, st: State, o: Opening, depth: nat, q: nat)
    requires Barred(st, o, depth, q)
    ensures Barred(Run(codec, st), o, depth, q)
    decreases |st.buf|, |st.buf| - st.pos
  {
    if !Finished(st) {
      BarredStep(codec, st, o, depth, q);
      StepProgress(codec, st);
      BarredStays(codec, Step(codec, st), o, depth, q);
    }
  }

  /** So the text ends with a mark character in it. */
  lemma {:induction false} BarredMark(st: State, o: Opening, depth: nat, q: nat)
    requires Barred(st, o, depth, q)
    ensures 0 < o.e <= |st.buf| && st.buf[o.e-1].glyph.Chr?
    ensures st.buf[o.e-1].glyph.c in {'*', '/', '_', '-', '`'}
  {
    assert o in st.open;
    StackMembers(st.buf, st.open, st.pos, o);
    var n := |Spelling(o.markup)|;
    assert CharAt(st.buf, o.e - n + (n - 1)) == Spelling(o.markup)[n-1];
    MarkCharacterItem(st.buf, o.e - 1);
  }
}
