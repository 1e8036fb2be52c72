/** Which tags every item has after a parse: its own, and those the matched pairs gave it or took from
    it. */
module TagAccount {
  import opened RichText
  import opened Tokens
  import opened Parser
  import opened Accounting
  import opened Leftovers
  import opened Nesting

  /** The position `x` of the original text is between the two marks of the pair. */
  predicate Inside(c: Cut, x: int) {
    c.opening != [] && c.closing != [] && c.opening[|c.opening|-1] < x < c.closing[0]
  }

  /** What a pair does to the tags of the item that was at `x`: a style covers what is between its marks; of
      the item before a list item only the list tag is left. */
  function Retagged(tags: set<Tag>, c: Cut, x: int): set<Tag> {
    if c.pair.markup == ListStart then
      if c.before == [x] then tags * {ListTag(c.spaces != [])} else tags
    else if StyleTag(c.pair.markup).Some? && Inside(c, x) then tags + {StyleTag(c.pair.markup).value}
    else tags
  }

  /** The tags of the item that was at `x`, after the pairs `cuts`. */
  function TagsOf(original: Buffer, cuts: seq<Cut>, x: int): set<Tag>
    requires 0 <= x < |original|
  {
    if cuts == [] then original[x].tags
    else Retagged(TagsOf(original, cuts[..|cuts|-1], x), cuts[|cuts|-1], x)
  }

  /** A picture gets the tags that the last character of its mark and the item after it share. */
  predicate PictureTagged(original: Buffer, before: seq<Cut>, c: Cut) {
    c.pair.markup == PictureStart && c.added != [] ==>
      && c.closing != [] && 0 <= c.closing[|c.closing|-1] < |original|
      && (var mark := TagsOf(original, before, c.closing[|c.closing|-1]);
          if c.after == [] then c.added[0].tags == {}
          else if c.after[0] == NEW then c.added[0].tags <= mark
          else 0 <= c.after[0] < |original|
               && c.added[0].tags == mark * TagsOf(original, before, c.after[0]))
  }

  /** Each item from the original text has just these tags, and each picture was put in with them. */
  predicate Tagged(original: Buffer, b: Buffer, tr: Tracked) {
    && Linked(original, b, tr.origins) && InOrder(tr.origins)
    && (forall k :: 0 <= k < |b| && tr.origins[k] != NEW ==>
          b[k].tags == TagsOf(original, tr.cuts, tr.origins[k]))
    && (forall i :: 0 <= i < |tr.cuts| ==> PictureTagged(original, tr.cuts[..i], tr.cuts[i]))
  }

  /** The tags after the splice of the item that was at `x`. */
  function SplicedTags(b: Buffer, o: Opening, c: Splice, x: nat): set<Tag>
    requires x < |b|
  {
    if o.markup == ListStart && x == c.lo - 1 then b[x].tags * {ListTag(c.lo < o.s)}
    else if StyleTag(o.markup).Some? && c.from <= x < c.to then b[x].tags + {StyleTag(o.markup).value}
    else b[x].tags
  }

  lemma {:induction false} ClosedTags(codec: Codec, b: Buffer, o: Opening, cs: nat, ce: nat, k: nat, c: Splice)
    requires o.s < o.e <= cs <= ce <= |b| && k < |ClosedBuffer(codec, b, o, cs, ce)|
    requires c == SpliceOf(codec, b, o, cs, ce) && Source(c, k) != NEW
    ensures Source(c, k) < |b|
    ensures ClosedBuffer(codec, b, o, cs, ce)[k].tags == SplicedTags(b, o, c, Source(c, k))
  {
    var head := if o.markup == ListStart then KeepOnLast(b[..c.lo], ListTag(c.lo < o.s)) else b[..c.lo];
    var body := if StyleTag(o.markup).Some? then AddTag(b[c.from..c.to], StyleTag(o.markup).value)
                else b[c.from..c.to];
    ConcatTags(b, o, c, head, body, k);
  }

  lemma {:induction false} ConcatTags(b: Buffer, o: Opening, c: Splice, head: Buffer, body: Buffer, k: nat)
    requires c.lo <= c.from <= c.to <= c.hi <= |b| && c.lo <= o.s < o.e <= c.from
    requires head == if o.markup == ListStart then KeepOnLast(b[..c.lo], ListTag(c.lo < o.s)) else b[..c.lo]
    requires body == if StyleTag(o.markup).Some? then AddTag(b[c.from..c.to], StyleTag(o.markup).value)
                     else b[c.from..c.to]
    requires k < |head + c.objects + body + b[c.hi..]| && Source(c, k) != NEW
    ensures Source(c, k) < |b|
    ensures (head + c.objects + body + b[c.hi..])[k].tags == SplicedTags(b, o, c, Source(c, k))
  {
  }

  // ----- a matched pair -----

  /** Between the marks in the buffer is between them in the original text. */
  lemma {:induction false} InsideExactly(c: Splice, o: Opening, org: Origins, x: nat)
    requires c.lo <= o.s < o.e == c.from <= c.to < c.hi <= |org| && c.lo == o.s && InOrder(org)
    requires x < |org| && (x < c.lo || c.from <= x < c.to || c.hi <= x) && org[x] != NEW
    requires org[o.e-1] != NEW && org[c.to] != NEW
    ensures Inside(CutOf(c, o, org), org[x]) <==> c.from <= x < c.to
  {
    var cut := CutOf(c, o, org);
    assert cut.opening[|cut.opening|-1] == org[o.e-1] && cut.closing[0] == org[c.to];
  }

  lemma {:induction false} BeforeExactly(c: Splice, o: Opening, org: Origins, x: nat)
    requires c.lo <= o.s < o.e <= c.from <= c.to <= c.hi <= |org| && InOrder(org) && x < |org| && org[x] != NEW
    ensures CutOf(c, o, org).before == [org[x]] <==> x == c.lo - 1
    ensures CutOf(c, o, org).spaces != [] <==> c.lo < o.s
  {
    if c.lo > 0 && x != c.lo - 1 && org[c.lo-1] == org[x] {
      assert false;
    }
  }

  lemma {:induction false} RetaggedExactly(b: Buffer, c: Splice, o: Opening, org: Origins, x: nat)
    requires |org| == |b| && c.lo <= o.s < o.e <= c.from <= c.to <= c.hi <= |b| && InOrder(org)
    requires x < |b| && (x < c.lo || c.from <= x < c.to || c.hi <= x) && org[x] != NEW
    requires StyleTag(o.markup).Some? ==>
               c.lo == o.s && c.from == o.e && c.to < c.hi && org[o.e-1] != NEW && org[c.to] != NEW
    ensures Retagged(b[x].tags, CutOf(c, o, org), org[x]) == SplicedTags(b, o, c, x)
  {
    if o.markup == ListStart {
      BeforeExactly(c, o, org, x);
    } else if StyleTag(o.markup).Some? {
      InsideExactly(c, o, org, x);
    }
  }

  lemma {:induction false} StyleClosed(b: Buffer, o: Opening, cs: nat, t: Token)
    requires cs <= |b| && o.s <= |b| && OpeningOk(b, o) && t == TokenAt(b, Some(o), cs) && t.markup == Counterpart(o.markup)
    requires o.markup != ListStart
    ensures cs < t.end <= |b| && b[cs].glyph.Chr? && b[t.end-1].glyph.Chr? && b[o.e-1].glyph.Chr?
  {
    EndTaken(b, o, cs, t);
    EndsIn(b, o);
  }

  lemma {:induction false} CloseItems(codec: Codec, original: Buffer, b: Buffer, o: Opening, cs: nat, t: Token, tr: Tracked,
                                      c: Splice)
    requires Tagged(original, b, tr) && o.e <= cs <= t.end <= |b| && OpeningOk(b, o)
    requires t == TokenAt(b, Some(o), cs) && t.markup == Counterpart(o.markup)
    requires c == SpliceOf(codec, b, o, cs, t.end)
    ensures var b', org, cuts := ClosedBuffer(codec, b, o, cs, t.end), SplicedOrigins(c, tr.origins),
                                 tr.cuts + [CutOf(c, o, tr.origins)];
            && Linked(original, b', org)
            && forall k :: 0 <= k < |b'| && org[k] != NEW ==> b'[k].tags == TagsOf(original, cuts, org[k])
  {
    var b', org := ClosedBuffer(codec, b, o, cs, t.end), SplicedOrigins(c, tr.origins);
    var cut := CutOf(c, o, tr.origins);
    var cuts := tr.cuts + [cut];
    SpliceLinked(codec, original, b, o, cs, t.end, tr.origins);
    if o.markup != ListStart {
      StyleClosed(b, o, cs, t);
    }
    assert cuts[..|cuts|-1] == tr.cuts;
    forall k | 0 <= k < |b'| && org[k] != NEW ensures b'[k].tags == TagsOf(original, cuts, org[k]) {
      SplicedOrigin(c, tr.origins, k);
      ClosedTags(codec, b, o, cs, t.end, k, c);
      RetaggedExactly(b, c, o, tr.origins, Source(c, k));
    }
  }

  lemma {:induction false} ClosePicture(codec: Codec, original: Buffer, b: Buffer, o: Opening, cs: nat, t: Token, tr: Tracked,
                                        c: Splice)
    requires Tagged(original, b, tr) && o.e <= cs <= t.end <= |b| && OpeningOk(b, o)
    requires t == TokenAt(b, Some(o), cs) && t.markup == Counterpart(o.markup)
    requires c == SpliceOf(codec, b, o, cs, t.end)
    ensures PictureTagged(original, tr.cuts, CutOf(c, o, tr.origins))
  {
    var cut, org := CutOf(c, o, tr.origins), tr.origins;
    if o.markup == PictureStart && cut.added != [] {
      StyleClosed(b, o, cs, t);
      assert cut.closing[|cut.closing|-1] == org[t.end-1];
      assert cut.added[0].tags == InheritedTags(b, t.end);
    }
  }

  lemma {:induction false} StepTagged(codec: Codec, original: Buffer, st: State, tr: Tracked)
    requires Inv(st) && !Finished(st) && Tagged(original, st.buf, tr)
    ensures Tagged(original, Step(codec, st).buf, TrackStep(codec, st, tr))
  {
    var t := NextTokenOf(st);
    if t.markup != NoMark && Closes(st) {
      TokenBounds(st.buf, Top(st.open), st.pos);
      CloseTagged(codec, original, st.buf, st.open[0], st.pos, t, tr, SpliceOf(codec, st.buf, st.open[0], st.pos, t.end));
    }
  }

  lemma {:induction false} CloseTagged(codec: Codec, original: Buffer, b: Buffer, o: Opening, cs: nat, t: Token, tr: Tracked,
                                       c: Splice)
    requires Tagged(original, b, tr) && o.e <= cs <= t.end <= |b| && OpeningOk(b, o)
    requires t == TokenAt(b, Some(o), cs) && t.markup == Counterpart(o.markup)
    requires c == SpliceOf(codec, b, o, cs, t.end)
    ensures Tagged(original, ClosedBuffer(codec, b, o, cs, t.end),
                   Tracked(SplicedOrigins(c, tr.origins), tr.cuts + [CutOf(c, o, tr.origins)]))
  {
    var cuts := tr.cuts + [CutOf(c, o, tr.origins)];
    CloseItems(codec, original, b, o, cs, t, tr, c);
    ClosePicture(codec, original, b, o, cs, t, tr, c);
    SpliceInOrder(c, tr.origins);
    forall i | 0 <= i < |cuts| ensures PictureTagged(original, cuts[..i], cuts[i]) {
      assert cuts[..i] == tr.cuts[..i];
      assert i == |tr.cuts| ==> tr.cuts[..i] == tr.cuts;
    }
  }

  lemma {:induction false} TrackTagged(codec: Codec, original: Buffer, st: State, tr: Tracked)
    requires Inv(st) && Tagged(original, st.buf, tr)
    ensures Tagged(original, Run(codec, st).buf, Track(codec, st, tr))
    decreases |st.buf|, |st.buf| - st.pos
  {
    if !Finished(st) {
      StepKeepsInv(codec, st);
      StepProgress(codec, st);
      StepTagged(codec, original, st, tr);
      TrackTagged(codec, original, Step(codec, st), TrackStep(codec, st, tr));
    }
  }

  /** On any buffer at all: after the parse an item from the original text has the tags it had, with those
      of the matched styles that it was between, less what a list item after it took away; a picture is
      put in with the tags its two neighbours share. */
  lemma {:induction false} ParsingAccountsForTags(codec: Codec, b: Buffer)
    ensures Tagged(b, Parsed(codec, b), Account(codec, b))
  {
    TrackTagged(codec, b, State(b, [], 0), Tracked(seq(|b|, i => i), []));
  }
}
