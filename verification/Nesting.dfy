/** How the pairs that one parse matches lie in the original text. */
module Nesting {
  import opened RichText
  import opened Tokens
  import opened Parser
  import opened ParserRuns
  import opened Accounting
  import opened Leftovers
  import Streams
  import Reading
  import ReadBack
  import Serializer
  import PortableDocs
  import RoundTrip

  // ----- two pairs in the original text -----

  /** The pair ends before position `p` of the original text.  A list item ends where its line
      does. */
  predicate EndsBy(c: Cut, p: int) {
    if c.closing != [] then c.closing[|c.closing|-1] < p else c.next != [] && c.next[0] <= p
  }

  /** The pair starts after position `p`. */
  predicate StartsAfter(c: Cut, p: int) {
    c.opening != [] && p < c.opening[0]
  }

  predicate Follows(c: Cut, d: Cut) {
    d.opening != [] && EndsBy(c, d.opening[0])
  }

  /** The pair `c` lies between the two marks of `d`. */
  predicate Within(c: Cut, d: Cut) {
    && d.opening != [] && StartsAfter(c, d.opening[|d.opening|-1])
    && (d.next == [] || EndsBy(c, d.next[0]))
  }

  predicate NestOrApart(c: Cut, d: Cut) {
    Follows(c, d) || Follows(d, c) || Within(c, d) || Within(d, c)
  }

  // ----- parses that bring out nothing -----

  /** From `h` on the text is as it was originally, and all pairs so far end before it. */
  predicate Behind(cuts: seq<Cut>, org: Origins, h: nat) {
    forall i, k :: 0 <= i < |cuts| && h <= k < |org| && org[k] != NEW ==> EndsBy(cuts[i], org[k])
  }

  /** Each pair so far lies after the pending mark `o`, or before it. */
  predicate Beside(cuts: seq<Cut>, org: Origins, o: Opening)
    requires o.s < o.e <= |org|
  {
    forall i :: 0 <= i < |cuts| ==> StartsAfter(cuts[i], org[o.e-1]) || EndsBy(cuts[i], org[o.s])
  }

  predicate AllBeside(cuts: seq<Cut>, org: Origins, open: seq<Opening>, h: nat)
    requires h <= |org|
  {
    forall o :: o in open ==> o.s < o.e <= h && Beside(cuts, org, o)
  }

  /** The pairs so far: a later one follows an earlier one, or lies around it. */
  predicate Ordered(cuts: seq<Cut>) {
    forall i, j :: 0 <= i < j < |cuts| ==> Follows(cuts[i], cuts[j]) || Within(cuts[i], cuts[j])
  }

  /** The parse is behind `h`: there is nothing to be seen between the scan and `h`. */
  predicate Orderly(original: Buffer, st: State, tr: Tracked, h: nat) {
    && Inv(st) && h <= |st.buf|
    && Linked(original, st.buf, tr.origins) && InOrder(tr.origins)
    && AllBeside(tr.cuts, tr.origins, st.open, h)
    && Behind(tr.cuts, tr.origins, h)
    && Ordered(tr.cuts)
    && Quiet(st.buf, st.open, st.pos, h)
  }

  /** Characters come from the original text. */
  lemma {:induction false} FromOriginal(original: Buffer, b: Buffer, org: Origins, k: nat)
    requires Linked(original, b, org) && k < |b| && b[k].glyph.Chr?
    ensures org[k] != NEW
  {
  }

  lemma {:induction false} TokenFirst(b: Buffer, top: Option<Opening>, i: nat)
    requires i <= |b| && Starts(TokenAt(b, top, i).markup)
    ensures i < TokenAt(b, top, i).end <= |b| && b[i].glyph.Chr?
  {
    TokenBounds(b, top, i);
    OpeningCharacters(b, top, i);
    MarkCharacterItem(b, i);
  }

  /** A token is only met where the parse has not been. */
  lemma {:induction false} TokenBeyond(original: Buffer, st: State, tr: Tracked, h: nat)
    requires Orderly(original, st, tr, h) && NextTokenOf(st).markup != NoMark
    ensures h <= st.pos
  {
  }

  lemma {:induction false} PushOrderly(codec: Codec, original: Buffer, st: State, tr: Tracked, h: nat)
    requires Orderly(original, st, tr, h) && !Finished(st) && NextTokenOf(st).markup != NoMark && !Closes(st)
    ensures Orderly(original, Step(codec, st), TrackStep(codec, st, tr), NextTokenOf(st).end)
  {
    var t, top := NextTokenOf(st), Top(st.open);
    StepKeepsInv(codec, st);
    StepProgress(codec, st);
    TokenBeyond(original, st, tr, h);
    if !Starts(t.markup) {
      EndsMatch(st.buf, top, st.pos);
      assert false;
    }
    TokenFirst(st.buf, top, st.pos);
    FromOriginal(original, st.buf, tr.origins, st.pos);
  }

  // ----- closing a pair -----

  /** The new pair follows each earlier one, or lies around it. */
  lemma {:induction false} NewPair(cuts: seq<Cut>, org: Origins, o: Opening, cs: nat, h: nat, cut: Cut)
    requires o.s < o.e <= h <= cs <= |org| && Beside(cuts, org, o) && Behind(cuts, org, h) && Ordered(cuts)
    requires cut.opening == org[o.s..o.e] && cut.next == (if cs < |org| then [org[cs]] else [])
    requires cs < |org| ==> org[cs] != NEW
    ensures Ordered(cuts + [cut])
  {
    var after := cuts + [cut];
    forall i, j | 0 <= i < j < |after| ensures Follows(after[i], after[j]) || Within(after[i], after[j]) {
      if j == |cuts| {
        assert cut.opening[0] == org[o.s] && cut.opening[|cut.opening|-1] == org[o.e-1];
      }
    }
  }

  lemma {:induction false} NewBehind(cuts: seq<Cut>, org: Origins, h: nat, c: Splice, o: Opening, mark: nat)
    requires c.lo <= o.s < o.e <= c.from <= c.to <= c.hi <= |org| && h <= c.to
    requires Behind(cuts, org, h) && InOrder(org) && (c.to < |org| ==> org[c.to] != NEW)
    requires c.hi > c.to ==> org[c.hi-1] != NEW
    requires mark >= c.lo + (c.to - c.from) && (c.from < c.to && mark == c.lo + (c.to - c.from) ==> c.objects == [])
    requires c.from < c.to ==> mark >= c.lo + |c.objects| + (c.to - c.from)
    ensures Behind(cuts + [CutOf(c, o, org)], SplicedOrigins(c, org), mark)
  {
    var after, org' := cuts + [CutOf(c, o, org)], SplicedOrigins(c, org);
    forall i, k | 0 <= i < |after| && mark <= k < |org'| && org'[k] != NEW ensures EndsBy(after[i], org'[k]) {
      SplicedOrigin(c, org, k);
      var x := Source(c, k);
      assert c.hi <= x;
      assert org'[k] == org[x];
      if i < |cuts| {
        assert EndsBy(cuts[i], org[x]);
      } else if c.hi > c.to {
        assert org[c.to..c.hi][c.hi-c.to-1] == org[c.hi-1];
      }
    }
  }

  /** What was pending outside the pair lies before it. */
  lemma {:induction false} NewBeside(cuts: seq<Cut>, org: Origins, c: Splice, o: Opening, x: Opening)
    requires c.lo <= o.s < o.e <= c.from <= c.to <= c.hi <= |org| && InOrder(org)
    requires x.s < x.e <= c.lo && Beside(cuts, org, x) && org[x.e-1] != NEW && org[o.s] != NEW
    ensures x.e <= |SplicedOrigins(c, org)| && Beside(cuts + [CutOf(c, o, org)], SplicedOrigins(c, org), x)
  {
    var cut := CutOf(c, o, org);
    assert cut.opening[0] == org[o.s];
    SplicedOrigin(c, org, x.s);
    SplicedOrigin(c, org, x.e - 1);
  }

  /** The items at a match that are taken from the original text. */
  lemma {:induction false} MatchItems(b: Buffer, o: Opening, cs: nat, t: Token)
    requires cs <= |b| && o.s <= |b| && OpeningOk(b, o) && t == TokenAt(b, Some(o), cs) && t.markup == Counterpart(o.markup)
    ensures cs <= t.end <= |b|
    ensures b[o.s].glyph.Chr? && b[o.e-1].glyph.Chr?
    ensures cs < |b| ==> b[cs].glyph.Chr?
    ensures cs < t.end ==> b[t.end-1].glyph.Chr?
  {
    TokenBounds(b, Some(o), cs);
    EndsIn(b, o);
    if o.markup == ListStart {
      ItemEnds(b, o, cs);
    } else {
      EndTaken(b, o, cs, t);
    }
  }

  /** A list item ends where its line does. */
  lemma {:induction false} ItemEnds(b: Buffer, o: Opening, cs: nat)
    requires cs <= |b| && o.markup == ListStart && TokenAt(b, Some(o), cs).markup == ListEnd
    ensures EndsLine(b, cs) && TokenAt(b, Some(o), cs).end == cs
  {
    TokenBounds(b, Some(o), cs);
  }

  lemma {:induction false} EndTaken(b: Buffer, o: Opening, cs: nat, t: Token)
    requires cs <= |b| && Starts(o.markup) && o.markup != ListStart
    requires t == TokenAt(b, Some(o), cs) && t.markup == Counterpart(o.markup)
    ensures cs < t.end <= |b| && b[cs].glyph.Chr? && b[t.end-1].glyph.Chr?
  {
    ClosingSpelled(b, Some(o), cs, o.markup);
    ClosingItems(b, cs, t.end, o.markup, ClosingSpelling(o.markup));
  }

  /** The characters of a closing mark. */
  lemma {:induction false} ClosingItems(b: Buffer, cs: nat, ce: nat, m: Markup, text: string)
    requires Starts(m) && m != ListStart && text == ClosingSpelling(m) && cs + |text| <= ce <= |b|
    requires forall k :: 0 <= k < |text| ==> CharAt(b, ce - |text| + k) == text[k]
    requires forall k :: cs <= k < ce - |text| ==> CharAt(b, k) in {'=', '-'}
    ensures cs < ce && b[cs].glyph.Chr? && b[ce-1].glyph.Chr?
  {
    SpellingCharacters(m);
    assert 0 < |text|;
    assert CharAt(b, ce - |text| + (|text| - 1)) == text[|text|-1];
    TokenItem(b, ce - 1);
    assert cs == ce - |text| ==> CharAt(b, ce - |text| + 0) == text[0];
    TokenItem(b, cs);
  }

  lemma {:induction false} EndsIn(b: Buffer, o: Opening)
    requires OpeningOk(b, o)
    ensures b[o.s].glyph.Chr? && b[o.e-1].glyph.Chr?
  {
    var n := |Spelling(o.markup)|;
    SpellingCharacters(o.markup);
    assert CharAt(b, o.e - n + (n - 1)) == Spelling(o.markup)[n-1];
    TokenItem(b, o.e - 1);
    assert o.s == o.e - n ==> CharAt(b, o.e - n + 0) == Spelling(o.markup)[0];
    TokenItem(b, o.s);
  }

  lemma {:induction false} RestBeside(original: Buffer, b: Buffer, open: seq<Opening>, cs: nat, tr: Tracked, c: Splice,
                                      mark: nat)
    requires StackOk(b, open, cs) && cs <= |b| && open != [] && Linked(original, b, tr.origins) && InOrder(tr.origins)
    requires AllBeside(tr.cuts, tr.origins, open, cs)
    requires c.lo == open[0].s || (open[0].markup == ListStart && c.lo == open[0].s - ListDepth(b, open[0].s))
    requires c.lo <= open[0].s < open[0].e <= c.from <= c.to <= c.hi <= |b|
    requires c.lo <= mark <= |SplicedOrigins(c, tr.origins)|
    ensures AllBeside(tr.cuts + [CutOf(c, open[0], tr.origins)], SplicedOrigins(c, tr.origins), open[1..], mark)
  {
    var o, org := open[0], tr.origins;
    EndsIn(b, o);
    forall x | x in open[1..]
      ensures x.s < x.e <= mark && Beside(tr.cuts + [CutOf(c, o, org)], SplicedOrigins(c, org), x)
    {
      StackBelow(b, open, cs, c.lo, x);
      StackMembers(b, open, cs, x);
      EndsIn(b, x);
      NewBeside(tr.cuts, org, c, o, x);
    }
  }

  lemma {:induction false} MatchOrigins(original: Buffer, b: Buffer, o: Opening, t: Token, org: Origins, cs: nat)
    requires cs <= |b| && o.s <= |b| && OpeningOk(b, o) && t == TokenAt(b, Some(o), cs) && t.markup == Counterpart(o.markup)
    requires Linked(original, b, org)
    ensures cs <= t.end <= |b|
    ensures (cs < |b| ==> org[cs] != NEW) && (cs < t.end ==> org[t.end-1] != NEW)
  {
    MatchItems(b, o, cs, t);
  }

  lemma {:induction false} CutOrdered(original: Buffer, b: Buffer, o: Opening, t: Token, tr: Tracked, c: Splice, cs: nat,
                                      h: nat, mark: nat)
    requires h <= cs <= |b| && OpeningOk(b, o) && t == TokenAt(b, Some(o), cs) && t.markup == Counterpart(o.markup)
    requires Linked(original, b, tr.origins) && InOrder(tr.origins) && Behind(tr.cuts, tr.origins, h) && Ordered(tr.cuts)
    requires o.e <= h && Beside(tr.cuts, tr.origins, o)
    requires c.lo <= o.s && o.e <= c.from <= c.to == cs && c.hi == t.end <= |b|
    requires c.lo <= mark && (c.from < c.to ==> mark >= c.lo + |c.objects| + (c.to - c.from))
    ensures Ordered(tr.cuts + [CutOf(c, o, tr.origins)])
    ensures Behind(tr.cuts + [CutOf(c, o, tr.origins)], SplicedOrigins(c, tr.origins), mark)
  {
    MatchOrigins(original, b, o, t, tr.origins, cs);
    NewPair(tr.cuts, tr.origins, o, cs, h, CutOf(c, o, tr.origins));
    NewBehind(tr.cuts, tr.origins, h, c, o, mark);
  }

  lemma {:induction false} SpliceShape(codec: Codec, b: Buffer, o: Opening, cs: nat, ce: nat)
    requires o.s < o.e <= cs <= ce <= |b|
    ensures var c, mark := SpliceOf(codec, b, o, cs, ce), ClosedMark(codec, b, o, cs, ce);
            && (c.lo == o.s || (o.markup == ListStart && c.lo == o.s - ListDepth(b, o.s)))
            && c.lo <= mark <= |ClosedBuffer(codec, b, o, cs, ce)|
            && (c.from < c.to ==> mark >= c.lo + |c.objects| + (c.to - c.from))
  {
  }

  /** After a match that brings out nothing the parse is orderly from there on. */
  lemma {:induction false} CloseOrderly(codec: Codec, original: Buffer, st: State, tr: Tracked, h: nat, o: Opening, t: Token,
                                        next: State, tr': Tracked, mark: nat)
    requires Orderly(original, st, tr, h) && AtMatch(st) && QuietMatch(codec, st) && o == st.open[0] && t == NextTokenOf(st)
    requires o.e <= st.pos <= t.end <= |st.buf| && o.s < o.e
    requires next == Step(codec, st) && tr' == TrackStep(codec, st, tr)
    requires mark == ClosedMark(codec, st.buf, o, st.pos, t.end)
    ensures Orderly(original, next, tr', mark)
  {
    TokenBeyond(original, st, tr, h);
    StepKeepsInv(codec, st);
    assert next.buf == ClosedBuffer(codec, st.buf, o, st.pos, t.end);
    assert Quiet(next.buf, next.open, next.pos, mark);
    CloseCuts(codec, original, st.buf, st.open, st.pos, tr, h, t, mark);
  }

  lemma {:induction false} CloseCuts(codec: Codec, original: Buffer, b: Buffer, open: seq<Opening>, cs: nat, tr: Tracked,
                                     h: nat, t: Token, mark: nat)
    requires open != [] && StackOk(b, open, cs) && h <= cs <= t.end <= |b|
    requires t == TokenAt(b, Some(open[0]), cs) && t.markup == Counterpart(open[0].markup)
    requires Linked(original, b, tr.origins) && InOrder(tr.origins) && Behind(tr.cuts, tr.origins, h) && Ordered(tr.cuts)
    requires AllBeside(tr.cuts, tr.origins, open, h)
    requires mark == ClosedMark(codec, b, open[0], cs, t.end)
    ensures var o, c := open[0], SpliceOf(codec, b, open[0], cs, t.end);
            var cuts, org := tr.cuts + [CutOf(c, o, tr.origins)], SplicedOrigins(c, tr.origins);
            && Linked(original, ClosedBuffer(codec, b, o, cs, t.end), org) && InOrder(org)
            && mark <= |org| && AllBeside(cuts, org, open[1..], mark) && Behind(cuts, org, mark) && Ordered(cuts)
  {
    var o, c := open[0], SpliceOf(codec, b, open[0], cs, t.end);
    assert o in open;
    SpliceShape(codec, b, o, cs, t.end);
    SpliceLinked(codec, original, b, o, cs, t.end, tr.origins);
    SpliceInOrder(c, tr.origins);
    CutOrdered(original, b, o, t, tr, c, cs, h, mark);
    RestBeside(original, b, open, cs, tr, c, mark);
  }

  lemma {:induction false} StepOrderly(codec: Codec, original: Buffer, st: State, tr: Tracked, h: nat) returns (h': nat)
    requires Orderly(original, st, tr, h) && !Finished(st) && (AtMatch(st) ==> QuietMatch(codec, st))
    ensures |tr.origins| == |st.buf|
    ensures Orderly(original, Step(codec, st), TrackStep(codec, st, tr), h')
  {
    var t := NextTokenOf(st);
    if t.markup == NoMark {
      h' := h;
      SkipOrderly(codec, original, st, tr, h);
    } else if Closes(st) {
      TokenBounds(st.buf, Top(st.open), st.pos);
      h' := ClosedMark(codec, st.buf, st.open[0], st.pos, t.end);
      CloseOrderly(codec, original, st, tr, h, st.open[0], t, Step(codec, st), TrackStep(codec, st, tr), h');
    } else {
      h' := t.end;
      PushOrderly(codec, original, st, tr, h);
    }
  }

  lemma {:induction false} SkipOrderly(codec: Codec, original: Buffer, st: State, tr: Tracked, h: nat)
    requires Orderly(original, st, tr, h) && !Finished(st) && NextTokenOf(st).markup == NoMark
    ensures Orderly(original, Step(codec, st), TrackStep(codec, st, tr), h)
  {
    StepKeepsInv(codec, st);
    StepProgress(codec, st);
  }

  lemma {:induction false} TrackOrderly(codec: Codec, original: Buffer, st: State, tr: Tracked, h: nat)
    requires Orderly(original, st, tr, h) && Clean(codec, st)
    ensures |tr.origins| == |st.buf| && Ordered(Track(codec, st, tr).cuts)
    decreases |st.buf|, |st.buf| - st.pos
  {
    if !Finished(st) {
      StepKeepsInv(codec, st);
      StepProgress(codec, st);
      var h' := StepOrderly(codec, original, st, tr, h);
      TrackOrderly(codec, original, Step(codec, st), TrackStep(codec, st, tr), h');
    }
  }

  /** Of two pairs matched in a parse that brings out nothing, the later one follows the earlier one
      or lies around it. */
  lemma {:induction false} PairsNest(codec: Codec, b: Buffer)
    requires CleanFrom(codec, State(b, [], 0))
    ensures Ordered(Account(codec, b).cuts)
  {
    var org: Origins := seq(|b|, i => i);
    TrackOrderly(codec, b, State(b, [], 0), Tracked(org, []), 0);
  }

  /** So do those of the text of any stream the reader accepts. */
  lemma {:induction false} StreamPairsNest(codec: Codec, es: Streams.Stream)
    requires Reading.Readable(Reading.START, es) && ReadBack.AllFaithful(codec, es)
    ensures Ordered(Account(codec, Plain(Streams.Text(codec, es))).cuts)
  {
    ReadBack.ParsedReadable(codec, es);
    PairsNest(codec, Plain(Streams.Text(codec, es)));
  }

  /** And those of what is written for a portable document. */
  lemma {:induction false} PortablePairsNest(codec: Codec, d: Buffer)
    requires PortableDocs.Portable(d) && RoundTrip.PicturesFaithful(codec, d)
    ensures Ordered(Account(codec, Plain(Serializer.Serialized(codec, d))).cuts)
  {
    RoundTrip.PortableReadable(d);
    RoundTrip.WrittenFaithful(codec, d);
    StreamPairsNest(codec, Serializer.Written(d));
  }
}
