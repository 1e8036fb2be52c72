/** Four hyphens at the start of a line: the parser takes three of them for a strike mark, and the
    fourth one stays in the text. */
module Hyphens {
  import opened RichText
  import opened Tokens
  import opened Parser
  import opened Accounting
  import opened Leftovers

  predicate OtherMark(it: Item) {
    it.glyph.Chr? && it.glyph.c in {'*', '/', '_', '`'}
  }

  /** No opening token starts with such an item. */
  predicate Solid(it: Item) {
    it.glyph.Chr? ==> it.glyph.c !in {'*', '/', '_', '-', '`', '"', '=', '['}
  }

  /** A hyphen at `k` after a hyphen; other marks up to `q`. */
  predicate Lodged(b: Buffer, k: nat, q: nat) {
    && 0 < k < q <= |b| && b[k-1].glyph == Chr('-') && b[k].glyph == Chr('-')
    && (forall j :: k < j < q ==> OtherMark(b[j]))
    && (q < |b| ==> Solid(b[q]))
  }

  predicate Beyond(x: Opening, k: nat, q: nat) {
    q < x.s || (k < x.s && x.e <= q && Style(x.markup) && x.markup != VerbatimMark)
  }

  /** The outermost opening `o` ends right before the hyphen. */
  predicate Stranded(st: State, o: Opening, k: nat, q: nat) {
    && Inv(st) && st.open != [] && st.open[|st.open|-1] == o && o.markup == StrikeMark && o.s < o.e == k
    && Lodged(st.buf, k, q)
    && (forall i :: 0 <= i < |st.open| - 1 ==> Beyond(st.open[i], k, q))
  }

  lemma {:induction false} NotIndented(b: Buffer, i: nat, k: nat, q: nat)
    requires Lodged(b, k, q) && k <= i <= q
    ensures Indent(b, i) < 0
  {
    assert i > k + 1 ==> OtherMark(b[i-1]);
    assert !SpaceItem(b[i-1]) && !LineBreak(b[i-1].glyph);
  }

  /** The tokens between the hyphen and `q` are styles, and none covers `q`. */
  lemma {:induction false} TokenInside(b: Buffer, top: Opening, i: nat, k: nat, q: nat)
    requires Lodged(b, k, q) && k <= i <= q && Style(top.markup) && top.markup != VerbatimMark
    ensures var t := TokenAt(b, Some(top), i);
            || t.markup in {NoMark, EndOfText}
            || (k < i < t.end <= q && Style(t.markup) && t.markup != VerbatimMark)
  {
    NotIndented(b, i, k, q);
    if i < |b| {
      assert LineTokenAt(b, i).markup == NoMark && Swallowed(b, i) == 0;
      DelimiterInside(b, i, k, q);
    }
  }

  lemma {:induction false} DelimiterInside(b: Buffer, i: nat, k: nat, q: nat)
    requires Lodged(b, k, q) && k <= i <= q && i < |b|
    ensures var m := DelimiterAt(b, i);
            m == NoMark || (k < i && i + 2 <= q && Style(m) && m != VerbatimMark)
  {
    assert i == k || i == q || OtherMark(b[i]);
    assert i + 1 < q ==> OtherMark(b[i+1]);
  }

  /** Where the scan is between the hyphen and `q`, the innermost markup is a style. */
  lemma {:induction false} TopStyle(st: State, o: Opening, k: nat, q: nat)
    requires Stranded(st, o, k, q) && st.pos <= q
    ensures k <= st.pos && Style(st.open[0].markup) && st.open[0].markup != VerbatimMark
  {
    assert |st.open| > 1 ==> Beyond(st.open[0], k, q);
  }

  lemma {:induction false} ScanAfter(st: State, o: Opening, k: nat, q: nat)
    requires Stranded(st, o, k, q)
    ensures k <= st.pos
  {
    assert o in st.open;
    StackMembers(st.buf, st.open, st.pos, o);
  }

  /** The next token, if there is one, comes after the hyphen and does not cover `q`. */
  lemma {:induction false} TokenApart(st: State, o: Opening, k: nat, q: nat)
    requires Stranded(st, o, k, q) && !Finished(st) && NextTokenOf(st).markup != NoMark
    ensures var t := NextTokenOf(st);
            && st.pos <= t.end <= |st.buf|
            && (q < st.pos || (k < st.pos < t.end <= q && Style(t.markup) && t.markup != VerbatimMark))
  {
    TokenBounds(st.buf, Top(st.open), st.pos);
    ScanAfter(st, o, k, q);
    if st.pos <= q {
      TopStyle(st, o, k, q);
      TokenInside(st.buf, st.open[0], st.pos, k, q);
    }
  }

  lemma {:induction false} StrandedPush(st: State, o: Opening, k: nat, q: nat, top: Opening, next: State)
    requires Stranded(st, o, k, q) && Beyond(top, k, q) && Inv(next)
    requires next.buf == st.buf && next.open == [top] + st.open
    ensures Stranded(next, o, k, q)
  {
    forall i | 0 <= i < |next.open| - 1 ensures Beyond(next.open[i], k, q) {
      assert i > 0 ==> next.open[i] == st.open[i-1];
    }
  }

  /** Where `q` goes when a pair after the hyphen is closed. */
  function MovedEnd(c: Splice, q: nat): int {
    if q < c.lo then q else if q < c.to then q - (c.from - c.lo) else q - (c.from - c.lo) - (c.hi - c.to)
  }

  /** Closing a pair after the hyphen takes away only marks. */
  lemma {:induction false} LodgedClose(codec: Codec, b: Buffer, x: Opening, cs: nat, ce: nat, k: nat, q: nat, c: Splice,
                                       q': int)
    requires Lodged(b, k, q) && OpeningOk(b, x) && x.e <= cs <= ce <= |b| && Beyond(x, k, q)
    requires q < cs || (ce <= q && Style(x.markup))
    requires c == SpliceOf(codec, b, x, cs, ce) && q' == MovedEnd(c, q)
    ensures k < c.lo && k < q' && Lodged(ClosedBuffer(codec, b, x, cs, ce), k, q')
    ensures q < c.lo ==> q' == q
  {
    SpliceAfter(codec, b, x, cs, ce, k, q, c);
    var b' := ClosedBuffer(codec, b, x, cs, ce);
    forall j | k - 1 <= j <= q' && j < |b'|
      ensures if j <= k then b'[j].glyph == b[j].glyph else if j == q' then q < |b| && b'[j].glyph == b[q].glyph
              else OtherMark(b'[j])
    {
      ClosedGlyph(codec, b, x, cs, ce, j);
      assert j < q' ==> j <= k || OtherMark(b[Source(c, j)]);
    }
    assert |b'| == c.lo + |c.objects| + (c.to - c.from) + (|b| - c.hi);
  }

  lemma {:induction false} SpliceAfter(codec: Codec, b: Buffer, x: Opening, cs: nat, ce: nat, k: nat, q: nat, c: Splice)
    requires Lodged(b, k, q) && OpeningOk(b, x) && x.e <= cs <= ce <= |b| && Beyond(x, k, q)
    requires q < cs || (ce <= q && Style(x.markup))
    requires c == SpliceOf(codec, b, x, cs, ce)
    ensures k < c.lo <= x.s && c.hi == ce && c.to == cs
    ensures q < c.lo || (c.lo == x.s && c.from == x.e && c.objects == [])
  {
    if x.markup == ListStart {
      IndentMeaning(b, x.s);
      var lo := x.s - Indent(b, x.s);
      if lo <= k {
        assert false;
      } else if lo <= q {
        NotIndented(b, lo, k, q);
        assert false;
      }
    }
  }

  lemma {:induction false} StrandedClose(codec: Codec, st: State, o: Opening, k: nat, q: nat, t: Token, c: Splice)
    returns (q': nat)
    requires Stranded(st, o, k, q) && !Finished(st) && |st.open| > 1
    requires t == NextTokenOf(st) && t.markup != NoMark && Closes(st)
    requires st.open[0].e <= st.pos <= t.end <= |st.buf| && st.open[0].s < st.open[0].e
    requires c == SpliceOf(codec, st.buf, st.open[0], st.pos, t.end)
    ensures Stranded(Step(codec, st), o, k, q')
  {
    var x, rest := st.open[0], st.open[1..];
    assert Beyond(x, k, q);
    TokenApart(st, o, k, q);
    if st.pos <= q {
      TopStyle(st, o, k, q);
    }
    var moved := MovedEnd(c, q);
    LodgedClose(codec, st.buf, x, st.pos, t.end, k, q, c, moved);
    q' := moved;
    StepKeepsInv(codec, st);
    RestBeyond(st.buf, st.open, st.pos, k, q, c.lo, q');
    assert rest[|rest|-1] == o;
  }

  /** What was opened before the closed pair is where it was. */
  lemma {:induction false} RestBeyond(b: Buffer, open: seq<Opening>, limit: nat, k: nat, q: nat, lo: nat, q': nat)
    requires StackOk(b, open, limit) && limit <= |b| && open != []
    requires lo == open[0].s || (open[0].markup == ListStart && lo == open[0].s - ListDepth(b, open[0].s))
    requires forall i :: 0 <= i < |open| - 1 ==> Beyond(open[i], k, q)
    requires q < lo ==> q' == q
    requires q >= lo ==> q' >= lo
    ensures forall i :: 0 <= i < |open[1..]| - 1 ==> Beyond(open[1..][i], k, q')
  {
    forall i | 0 <= i < |open[1..]| - 1 ensures Beyond(open[1..][i], k, q') {
      assert open[1..][i] == open[i+1] && Beyond(open[i+1], k, q);
      StackBelow(b, open, limit, lo, open[i+1]);
      StackMembers(b, open, limit, open[i+1]);
    }
  }

  /** When the mark before the hyphen is matched the hyphen stays. */
  lemma {:induction false} HyphenPassed(codec: Codec, st: State, o: Opening, k: nat, q: nat)
    requires Stranded(st, o, k, q) && !Finished(st) && |st.open| == 1 && NextTokenOf(st).markup != NoMark && Closes(st)
    ensures Passed(Step(codec, st), o.s) && Step(codec, st).buf[o.s].glyph == Chr('-')
  {
    var t := NextTokenOf(st);
    TokenApart(st, o, k, q);
    StepKeepsInv(codec, st);
    var b' := ClosedBuffer(codec, st.buf, o, st.pos, t.end);
    var c := SpliceOf(codec, st.buf, o, st.pos, t.end);
    assert |b'| == c.lo + |c.objects| + (c.to - c.from) + (|st.buf| - c.hi);
    ClosedGlyph(codec, st.buf, o, st.pos, t.end, o.s);
    assert Source(c, o.s) == k;
  }

  lemma {:induction false} StrandedStep(codec: Codec, st: State, o: Opening, k: nat, q: nat) returns (q': nat)
    requires Stranded(st, o, k, q) && !Finished(st)
    requires !(|st.open| == 1 && NextTokenOf(st).markup != NoMark && Closes(st))
    ensures Stranded(Step(codec, st), o, k, q')
  {
    var t := NextTokenOf(st);
    q' := q;
    StepKeepsInv(codec, st);
    if t.markup != NoMark {
      TokenApart(st, o, k, q);
      if Closes(st) {
        q' := StrandedClose(codec, st, o, k, q, t, SpliceOf(codec, st.buf, st.open[0], st.pos, t.end));
      } else {
        StrandedPush(st, o, k, q, Opening(t.markup, st.pos, t.end), Step(codec, st));
      }
    }
  }

  /** The hyphen is still there at the end. */
  lemma {:induction false} HyphenStays(codec: Codec, st: State, o: Opening, k: nat, q: nat) returns (j: nat)
    requires Stranded(st, o, k, q)
    ensures j < |Run(codec, st).buf| && Run(codec, st).buf[j].glyph == Chr('-')
    decreases |st.buf|, |st.buf| - st.pos
  {
    if Finished(st) {
      j := k;
    } else {
      StepKeepsInv(codec, st);
      StepProgress(codec, st);
      if |st.open| == 1 && NextTokenOf(st).markup != NoMark && Closes(st) {
        HyphenPassed(codec, st, o, k, q);
        j := o.s;
        PassedStays(codec, Step(codec, st), j);
      } else {
        var q' := StrandedStep(codec, st, o, k, q);
        j := HyphenStays(codec, Step(codec, st), o, k, q');
      }
    }
  }

  /** The first three of four hyphens make a strike mark. */
  lemma {:induction false} ThreeTaken(codec: Codec, b: Buffer, i: nat, q: nat, o: Opening) returns (j: nat)
    requires i + 3 < |b| && Indent(b, i) >= 0 && forall k :: i <= k < i + 4 ==> b[k] == Item(Chr('-'), {})
    requires Lodged(b, i + 3, q) && o == Opening(StrikeMark, i, i + 3) && Inv(State(b, [], i))
    ensures j < |Run(codec, State(b, [], i)).buf| && Run(codec, State(b, [], i)).buf[j].glyph == Chr('-')
  {
    var none: seq<Opening> := [];
    var st, next := State(b, none, i), State(b, [o], i + 3);
    assert CharAt(b, i) == '-' && CharAt(b, i + 1) == '-' && CharAt(b, i + 2) == '-';
    assert LineTokenAt(b, i).markup == NoMark && Swallowed(b, i) == 1 && DelimiterAt(b, i + 1) == StrikeMark;
    assert TokenAt(b, None, i) == Token(StrikeMark, i + 3);
    assert [o] + none == [o];
    assert next == Step(codec, st);
    StepKeepsInv(codec, st);
    StepProgress(codec, st);
    j := HyphenStays(codec, next, o, i + 3, q);
  }
}
