/** Where every item of the parsed buffer comes from, and what became of every item of the
    original one. */
module Accounting {
  import opened RichText
  import opened Tokens
  import opened Parser
  import Base64

  /** The index in the original buffer of each item, or NEW for an image put in by the parser. */
  type Origins = seq<int>

  const NEW := -1

  /** What one matched pair took out of the original buffer, and the images it put in.  `next` is
      where the item at the closing token came from, if there is one; `before` and `after` are where the
      items around the place came from. */
  datatype Cut = Cut(pair: Opening, spaces: Origins, opening: Origins, data: Origins, closing: Origins,
                     next: Origins, added: seq<Item>, before: Origins, after: Origins)

  datatype Tracked = Tracked(origins: Origins, cuts: seq<Cut>)

  function CutOf(c: Splice, o: Opening, org: Origins): Cut
    requires c.lo <= o.s < o.e <= c.from <= c.to <= c.hi <= |org|
  {
    Cut(o, org[c.lo..o.s], org[o.s..o.e], org[o.e..c.from], org[c.to..c.hi],
        if c.to < |org| then [org[c.to]] else [], c.objects,
        if c.lo > 0 then [org[c.lo-1]] else [], if c.hi < |org| then [org[c.hi]] else [])
  }

  function SplicedOrigins(c: Splice, org: Origins): Origins
    requires c.lo <= c.from <= c.to <= c.hi <= |org|
  {
    org[..c.lo] + seq(|c.objects|, _ => NEW) + org[c.from..c.to] + org[c.hi..]
  }

  /** The parser's run, with the origins of the items carried along and every cut recorded. */
  function Track(codec: Codec, st: State, tr: Tracked): (r: Tracked)
    requires Inv(st) && |tr.origins| == |st.buf|
    ensures |r.origins| == |Run(codec, st).buf|
    decreases |st.buf|, |st.buf| - st.pos
  {
    if Finished(st) then tr
    else
      StepKeepsInv(codec, st);
      StepProgress(codec, st);
      TokenBounds(st.buf, Top(st.open), st.pos);
      Track(codec, Step(codec, st), TrackStep(codec, st, tr))
  }

  function TrackStep(codec: Codec, st: State, tr: Tracked): (r: Tracked)
    requires Inv(st) && !Finished(st) && |tr.origins| == |st.buf|
    ensures |r.origins| == |Step(codec, st).buf|
  {
    TokenBounds(st.buf, Top(st.open), st.pos);
    if NextTokenOf(st).markup != NoMark && Closes(st) then
      var o := st.open[0];
      var c := SpliceOf(codec, st.buf, o, st.pos, NextTokenOf(st).end);
      Tracked(SplicedOrigins(c, tr.origins), tr.cuts + [CutOf(c, o, tr.origins)])
    else tr
  }

  function Taken(c: Cut): multiset<int> {
    multiset(c.spaces) + multiset(c.opening) + multiset(c.data) + multiset(c.closing)
  }

  function AllTaken(cuts: seq<Cut>): multiset<int> {
    if cuts == [] then multiset{} else AllTaken(cuts[..|cuts|-1]) + Taken(cuts[|cuts|-1])
  }

  function AllAdded(cuts: seq<Cut>): nat {
    if cuts == [] then 0 else AllAdded(cuts[..|cuts|-1]) + |cuts[|cuts|-1].added|
  }

  function NewItems(n: nat): multiset<int> {
    multiset{}[NEW := n]
  }

  /** Nothing is reordered. */
  predicate InOrder(org: Origins) {
    forall i, j :: 0 <= i < j < |org| && org[i] != NEW && org[j] != NEW ==> org[i] < org[j]
  }

  /** Each item has the glyph of the original item it comes from; new items are images. */
  predicate Linked(original: Buffer, b: Buffer, org: Origins) {
    && |org| == |b|
    && (forall k :: 0 <= k < |org| && org[k] != NEW ==>
          0 <= org[k] < |original| && original[org[k]].glyph == b[k].glyph)
    && (forall k :: 0 <= k < |org| && org[k] == NEW ==> !b[k].glyph.Chr?)
  }

  /** `idx` lists original positions, and their characters satisfy `ok`. */
  predicate AllFrom(original: Buffer, idx: Origins, ok: char -> bool) {
    forall k :: 0 <= k < |idx| ==>
      0 <= idx[k] < |original| && original[idx[k]].glyph.Chr? && ok(original[idx[k]].glyph.c)
  }

  predicate TokenCharacter(c: char) {
    MarkCharacter(c) || c == ' '
  }

  /** The original characters at `idx`, images left out. */
  function TextOf(original: Buffer, idx: Origins): string {
    if idx == [] then []
    else
      var i := idx[|idx|-1];
      TextOf(original, idx[..|idx|-1])
      + (if 0 <= i < |original| && original[i].glyph.Chr? then [original[i].glyph.c] else [])
  }

  /** The original characters at `idx` end with `text`; before it there are only hyphens and equals
      signs that were swallowed at the start of a line. */
  predicate SpelledAt(original: Buffer, idx: Origins, text: string) {
    && AllFrom(original, idx, TokenCharacter)
    && |text| <= |idx|
    && (forall k :: 0 <= k < |text| ==>
          original[idx[|idx|-|text|+k]].glyph == Chr(text[k]))
    && (forall k :: 0 <= k < |idx| - |text| ==> original[idx[k]].glyph.c in {'=', '-'})
  }

  /** The spelling of a closing mark. */
  function ClosingSpelling(m: Markup): string {
    match m
    case Title1Start => " ="
    case Title2Start => " =="
    case PictureStart => "]]]"
    case ListStart => ""
    case _ => Spelling(m)
  }

  /** A cut takes the two marks of its pair.  For a list item it takes the spaces before it and puts
      in a bullet, of the second level if there are such spaces; for a picture it takes the data, if
      it decodes, and puts in the picture it decodes to; it takes and adds nothing else. */
  predicate Justified(codec: Codec, original: Buffer, c: Cut) {
    var m := c.pair.markup;
    && Starts(m) && SpelledAt(original, c.opening, Spelling(m)) && SpelledAt(original, c.closing, ClosingSpelling(m))
    && (if m == ListStart then
          && c.closing == [] && c.data == [] && AllFrom(original, c.spaces, IsSpace)
          && c.added == [Item(Bullet(c.spaces != []), {ListTag(c.spaces != [])})]
        else if m == PictureStart && c.added != [] then
          && c.spaces == [] && |c.added| == 1 && c.added[0].glyph.Picture?
          && codec.decode(Base64.Unwrapped(TextOf(original, c.data))) == Some(c.added[0].glyph.pixbuf)
        else c.spaces == [] && c.data == [] && c.added == [])
  }

  /** The account that every step keeps. */
  predicate Balanced(codec: Codec, original: Buffer, b: Buffer, tr: Tracked) {
    && Linked(original, b, tr.origins)
    && InOrder(tr.origins)
    && multiset(tr.origins) + AllTaken(tr.cuts) ==
       multiset(seq(|original|, i => i)) + NewItems(AllAdded(tr.cuts))
    && (forall k :: 0 <= k < |tr.cuts| ==> Justified(codec, original, tr.cuts[k]))
  }

  lemma {:induction false} SpliceMultiset(c: Splice, o: Opening, org: Origins)
    requires c.lo <= o.s < o.e <= c.from <= c.to <= c.hi <= |org|
    ensures multiset(SplicedOrigins(c, org)) + Taken(CutOf(c, o, org)) == multiset(org) + NewItems(|c.objects|)
  {
    assert org == org[..c.lo] + org[c.lo..o.s] + org[o.s..o.e] + org[o.e..c.from] + org[c.from..c.to]
                  + org[c.to..c.hi] + org[c.hi..];
    NewMultiset(|c.objects|);
  }

  lemma {:induction false} NewMultiset(n: nat)
    ensures multiset(seq(n, _ => NEW)) == NewItems(n)
  {
    if n > 0 {
      NewMultiset(n - 1);
      assert seq(n, _ => NEW) == seq(n - 1, _ => NEW) + [NEW];
    }
  }

  /** The position before the splice of the item at `k` after it; NEW for an inserted image. */
  function Source(c: Splice, k: nat): (r: int)
    requires c.lo <= c.from <= c.to <= c.hi
    ensures r == NEW || 0 <= r < c.lo || c.from <= r < c.to || c.hi <= r
  {
    var n := |c.objects|;
    if k < c.lo then k
    else if k < c.lo + n then NEW
    else if k < c.lo + n + (c.to - c.from) then c.from + (k - c.lo - n)
    else c.hi + (k - c.lo - n - (c.to - c.from))
  }

  lemma {:induction false} SourceOrder(c: Splice, j: nat, k: nat)
    requires c.lo <= c.from <= c.to <= c.hi && j < k
    ensures Source(c, j) != NEW && Source(c, k) != NEW ==> Source(c, j) < Source(c, k)
  {
  }

  lemma {:induction false} SplicedOrigin(c: Splice, org: Origins, k: nat)
    requires c.lo <= c.from <= c.to <= c.hi <= |org| && k < |SplicedOrigins(c, org)|
    ensures Source(c, k) < |org|
    ensures SplicedOrigins(c, org)[k] == if Source(c, k) == NEW then NEW else org[Source(c, k)]
  {
  }

  lemma {:induction false} ClosedGlyph(codec: Codec, b: Buffer, o: Opening, cs: nat, ce: nat, k: nat)
    requires o.s < o.e <= cs <= ce <= |b| && k < |ClosedBuffer(codec, b, o, cs, ce)|
    ensures var c := SpliceOf(codec, b, o, cs, ce);
            var r := ClosedBuffer(codec, b, o, cs, ce);
            && Source(c, k) < |b|
            && (Source(c, k) == NEW ==> !r[k].glyph.Chr?)
            && (Source(c, k) != NEW ==> r[k].glyph == b[Source(c, k)].glyph)
  {
    var c := SpliceOf(codec, b, o, cs, ce);
    var head := if o.markup == ListStart then KeepOnLast(b[..c.lo], ListTag(c.lo < o.s)) else b[..c.lo];
    var body := if StyleTag(o.markup).Some? then AddTag(b[c.from..c.to], StyleTag(o.markup).value)
                else b[c.from..c.to];
    ConcatGlyph(b, c, head, body, k);
  }

  lemma {:induction false} ConcatGlyph(b: Buffer, c: Splice, head: Buffer, body: Buffer, k: nat)
    requires c.lo <= c.from <= c.to <= c.hi <= |b|
    requires SameGlyphs(head, b[..c.lo]) && SameGlyphs(body, b[c.from..c.to])
    requires forall i :: 0 <= i < |c.objects| ==> !c.objects[i].glyph.Chr?
    requires k < |head + c.objects + body + b[c.hi..]|
    ensures Source(c, k) < |b|
    ensures var g := (head + c.objects + body + b[c.hi..])[k].glyph;
            if Source(c, k) == NEW then !g.Chr? else g == b[Source(c, k)].glyph
  {
  }

  lemma {:induction false} SpliceLinked(codec: Codec, original: Buffer, b: Buffer, o: Opening, cs: nat, ce: nat, org: Origins)
    requires o.s < o.e <= cs <= ce <= |b| && Linked(original, b, org)
    ensures Linked(original, ClosedBuffer(codec, b, o, cs, ce),
                   SplicedOrigins(SpliceOf(codec, b, o, cs, ce), org))
  {
    var c := SpliceOf(codec, b, o, cs, ce);
    var r := ClosedBuffer(codec, b, o, cs, ce);
    var org' := SplicedOrigins(c, org);
    assert |r| == |org'|;
    forall k | 0 <= k < |org'|
      ensures org'[k] != NEW ==>
                0 <= org'[k] < |original| && original[org'[k]].glyph == r[k].glyph
      ensures org'[k] == NEW ==> !r[k].glyph.Chr?
    {
      SplicedOrigin(c, org, k);
      ClosedGlyph(codec, b, o, cs, ce, k);
    }
  }

  lemma {:induction false} SpliceInOrder(c: Splice, org: Origins)
    requires c.lo <= c.from <= c.to <= c.hi <= |org| && InOrder(org)
    ensures InOrder(SplicedOrigins(c, org))
  {
    var org' := SplicedOrigins(c, org);
    forall i, j | 0 <= i < j < |org'| && org'[i] != NEW && org'[j] != NEW
      ensures org'[i] < org'[j]
    {
      SplicedOrigin(c, org, i);
      SplicedOrigin(c, org, j);
      SourceOrder(c, i, j);
    }
  }

  /** The token that closes a markup is spelled as its closing mark. */
  lemma {:induction false} ClosingSpelled(b: Buffer, top: Option<Opening>, i: nat, m: Markup)
    requires i <= |b| && Starts(m) && TokenAt(b, top, i).markup == Counterpart(m)
    ensures var t, text := TokenAt(b, top, i), ClosingSpelling(m);
            && i + |text| <= t.end <= |b|
            && (forall k :: 0 <= k < |text| ==> CharAt(b, t.end - |text| + k) == text[k])
            && (forall k :: i <= k < t.end - |text| ==> CharAt(b, k) in {'=', '-'})
            && (m == ListStart ==> t.end == i)
  {
    TokenBounds(b, top, i);
    if Style(m) {
      TokenSpelled(b, top, i);
    } else {
      EndSpelled(b, top, i, m);
    }
  }

  lemma {:induction false} EndSpelled(b: Buffer, top: Option<Opening>, i: nat, m: Markup)
    requires i <= |b| && Starts(m) && !Style(m) && TokenAt(b, top, i).markup == Counterpart(m)
    ensures var text := ClosingSpelling(m);
            && TokenAt(b, top, i).end == i + |text|
            && (forall k :: 0 <= k < |text| ==> CharAt(b, i + k) == text[k])
  {
    var text := ClosingSpelling(m);
    assert TokenAt(b, top, i).end == i + |text|;
    forall k | 0 <= k < |text| ensures CharAt(b, i + k) == text[k] {
      assert k == 0 || k == 1 || k == 2;
    }
  }

  lemma {:induction false} FromBuffer(original: Buffer, b: Buffer, org: Origins, lo: nat, hi: nat, ok: char -> bool)
    requires Linked(original, b, org) && lo <= hi <= |b|
    requires forall k :: lo <= k < hi ==> b[k].glyph.Chr? && ok(b[k].glyph.c)
    ensures AllFrom(original, org[lo..hi], ok)
  {
    forall k | 0 <= k < hi - lo
      ensures var i := org[lo..hi][k];
              0 <= i < |original| && original[i].glyph.Chr? && ok(original[i].glyph.c)
    {
      assert org[lo..hi][k] == org[lo+k];
      assert b[lo+k].glyph.Chr?;
    }
  }

  lemma {:induction false} TokenItem(b: Buffer, k: nat)
    requires TokenCharacter(CharAt(b, k))
    ensures k < |b| && b[k].glyph == Chr(CharAt(b, k))
  {
  }

  /** Where the buffer holds a mark, the original does too. */
  lemma {:induction false} MarkFrom(original: Buffer, b: Buffer, org: Origins, s: nat, e: nat, text: string)
    requires Linked(original, b, org) && s + |text| <= e <= |b|
    requires forall k :: 0 <= k < |text| ==> CharAt(b, e - |text| + k) == text[k] && TokenCharacter(text[k])
    requires forall k :: s <= k < e - |text| ==> CharAt(b, k) in {'=', '-'}
    ensures SpelledAt(original, org[s..e], text)
  {
    forall k | s <= k < e
      ensures TokenCharacter(CharAt(b, k)) && b[k].glyph == Chr(CharAt(b, k))
      ensures k >= e - |text| ==> CharAt(b, k) == text[k-(e-|text|)]
    {
      if k >= e - |text| {
        assert CharAt(b, e - |text| + (k - (e - |text|))) == text[k-(e-|text|)];
      }
      TokenItem(b, k);
    }
    FromBuffer(original, b, org, s, e, TokenCharacter);
    assert forall k :: s <= k < e ==> org[s..e][k-s] == org[k];
    MarkAt(original, org[s..e], text, b, s, e);
  }

  lemma {:induction false} MarkAt(original: Buffer, idx: Origins, text: string, b: Buffer, s: nat, e: nat)
    requires s + |text| <= e <= |b| && |idx| == e - s && AllFrom(original, idx, TokenCharacter)
    requires forall k :: s <= k < e ==> original[idx[k-s]].glyph == b[k].glyph
    requires forall k :: s <= k < e ==>
               b[k].glyph == Chr(CharAt(b, k)) && (k >= e - |text| ==> CharAt(b, k) == text[k-(e-|text|)])
    requires forall k :: s <= k < e - |text| ==> CharAt(b, k) in {'=', '-'}
    ensures SpelledAt(original, idx, text)
  {
    forall k | 0 <= k < |text| ensures original[idx[|idx|-|text|+k]].glyph == Chr(text[k]) {
      assert b[e-|text|+k].glyph == original[idx[e-|text|+k-s]].glyph;
    }
    forall k | 0 <= k < |idx| - |text| ensures original[idx[k]].glyph.c in {'=', '-'} {
      assert b[s+k].glyph == original[idx[s+k-s]].glyph;
    }
  }

  lemma {:induction false} SpellingCharacters(m: Markup)
    requires Starts(m)
    ensures forall k :: 0 <= k < |Spelling(m)| ==> TokenCharacter(Spelling(m)[k])
    ensures forall k :: 0 <= k < |ClosingSpelling(m)| ==> TokenCharacter(ClosingSpelling(m)[k])
  {
    forall k | 0 <= k < |Spelling(m)| ensures TokenCharacter(Spelling(m)[k]) {
      assert k == 0 || k == 1 || k == 2;
    }
    forall k | 0 <= k < |ClosingSpelling(m)| ensures TokenCharacter(ClosingSpelling(m)[k]) {
      assert k == 0 || k == 1 || k == 2;
    }
  }

  lemma {:induction false} DataFrom(original: Buffer, b: Buffer, org: Origins, lo: nat, hi: nat)
    requires Linked(original, b, org) && lo <= hi <= |b|
    ensures TextOf(original, org[lo..hi]) == Characters(b[lo..hi])
    decreases hi - lo
  {
    if lo < hi {
      DataFrom(original, b, org, lo, hi - 1);
      assert org[lo..hi][..hi-lo-1] == org[lo..hi-1] && b[lo..hi][..hi-lo-1] == b[lo..hi-1];
    }
  }

  lemma {:induction false} OpeningFrom(original: Buffer, b: Buffer, org: Origins, o: Opening)
    requires Linked(original, b, org) && OpeningOk(b, o)
    ensures SpelledAt(original, org[o.s..o.e], Spelling(o.markup))
  {
    SpellingCharacters(o.markup);
    MarkFrom(original, b, org, o.s, o.e, Spelling(o.markup));
  }

  lemma {:induction false} ClosingFrom(original: Buffer, b: Buffer, org: Origins, top: Option<Opening>, i: nat, m: Markup,
                                       e: nat)
    requires Linked(original, b, org) && i <= |b| && Starts(m) && TokenAt(b, top, i).markup == Counterpart(m)
    requires e == TokenAt(b, top, i).end
    ensures i <= e <= |b| && SpelledAt(original, org[i..e], ClosingSpelling(m)) && (m == ListStart ==> e == i)
  {
    SpellingCharacters(m);
    ClosingSpelled(b, top, i, m);
    MarkFrom(original, b, org, i, e, ClosingSpelling(m));
  }

  /** What a cut holds besides the two marks. */
  lemma {:induction false} CutContents(codec: Codec, original: Buffer, b: Buffer, org: Origins, o: Opening, cs: nat, ce: nat,
                                       cut: Cut)
    requires Linked(original, b, org) && OpeningOk(b, o) && o.e <= cs <= ce <= |b|
    requires cut == CutOf(SpliceOf(codec, b, o, cs, ce), o, org)
    requires SpelledAt(original, cut.opening, Spelling(o.markup))
    requires SpelledAt(original, cut.closing, ClosingSpelling(o.markup)) && (o.markup == ListStart ==> cs == ce)
    ensures Justified(codec, original, cut)
  {
    if o.markup == ListStart {
      IndentMeaning(b, o.s);
      FromBuffer(original, b, org, o.s - ListDepth(b, o.s), o.s, IsSpace);
    } else if o.markup == PictureStart {
      DataFrom(original, b, org, o.e, cs);
    }
  }

  lemma {:induction false} CutJustified(codec: Codec, original: Buffer, st: State, org: Origins)
    requires Inv(st) && NextTokenOf(st).markup !in {NoMark, EndOfText} && Closes(st)
    requires Linked(original, st.buf, org)
    ensures st.pos <= NextTokenOf(st).end <= |st.buf|
    ensures Justified(codec, original,
                      CutOf(SpliceOf(codec, st.buf, st.open[0], st.pos, NextTokenOf(st).end), st.open[0], org))
  {
    var o, t := st.open[0], NextTokenOf(st);
    TokenBounds(st.buf, Top(st.open), st.pos);
    OpeningFrom(original, st.buf, org, o);
    ClosingFrom(original, st.buf, org, Top(st.open), st.pos, o.markup, t.end);
    CutContents(codec, original, st.buf, org, o, st.pos, t.end, CutOf(SpliceOf(codec, st.buf, o, st.pos, t.end), o, org));
  }

  lemma {:induction false} CutAdded(original: Buffer, before: Origins, after: Origins, cuts: seq<Cut>, cut: Cut)
    requires multiset(before) + AllTaken(cuts) == multiset(seq(|original|, i => i)) + NewItems(AllAdded(cuts))
    requires multiset(after) + Taken(cut) == multiset(before) + NewItems(|cut.added|)
    ensures multiset(after) + AllTaken(cuts + [cut]) ==
            multiset(seq(|original|, i => i)) + NewItems(AllAdded(cuts + [cut]))
  {
    assert (cuts + [cut])[..|cuts|] == cuts;
    assert AllTaken(cuts + [cut]) == AllTaken(cuts) + Taken(cut);
    assert AllAdded(cuts + [cut]) == AllAdded(cuts) + |cut.added|;
    var whole := multiset(seq(|original|, i => i));
    forall x: int
      ensures (multiset(after) + AllTaken(cuts + [cut]))[x] ==
              (whole + NewItems(AllAdded(cuts + [cut])))[x]
    {
      assert (multiset(before) + AllTaken(cuts))[x] == (whole + NewItems(AllAdded(cuts)))[x];
      assert (multiset(after) + Taken(cut))[x] == (multiset(before) + NewItems(|cut.added|))[x];
    }
  }

  lemma {:induction false} StepBalanced(codec: Codec, original: Buffer, st: State, tr: Tracked)
    requires Inv(st) && !Finished(st) && Balanced(codec, original, st.buf, tr)
    ensures Balanced(codec, original, Step(codec, st).buf, TrackStep(codec, st, tr))
  {
    var t := NextTokenOf(st);
    if t.markup != NoMark && Closes(st) {
      CutJustified(codec, original, st, tr.origins);
      CloseBalanced(codec, original, st.buf, st.open[0], st.pos, t.end, tr);
    }
  }

  lemma {:induction false} CloseBalanced(codec: Codec, original: Buffer, b: Buffer, o: Opening, cs: nat, ce: nat, tr: Tracked)
    requires Balanced(codec, original, b, tr) && o.s < o.e <= cs <= ce <= |b|
    requires Justified(codec, original, CutOf(SpliceOf(codec, b, o, cs, ce), o, tr.origins))
    ensures var c := SpliceOf(codec, b, o, cs, ce);
            Balanced(codec, original, ClosedBuffer(codec, b, o, cs, ce),
                     Tracked(SplicedOrigins(c, tr.origins), tr.cuts + [CutOf(c, o, tr.origins)]))
  {
    var c := SpliceOf(codec, b, o, cs, ce);
    SpliceLinked(codec, original, b, o, cs, ce, tr.origins);
    SpliceInOrder(c, tr.origins);
    SpliceMultiset(c, o, tr.origins);
    CutAdded(original, tr.origins, SplicedOrigins(c, tr.origins), tr.cuts, CutOf(c, o, tr.origins));
  }

  lemma {:induction false} TrackBalanced(codec: Codec, original: Buffer, st: State, tr: Tracked)
    requires Inv(st) && Balanced(codec, original, st.buf, tr)
    ensures Balanced(codec, original, Run(codec, st).buf, Track(codec, st, tr))
    decreases |st.buf|, |st.buf| - st.pos
  {
    if !Finished(st) {
      StepKeepsInv(codec, st);
      StepProgress(codec, st);
      StepBalanced(codec, original, st, tr);
      TrackBalanced(codec, original, Step(codec, st), TrackStep(codec, st, tr));
    }
  }

  function Account(codec: Codec, b: Buffer): Tracked {
    Track(codec, State(b, [], 0), Tracked(seq(|b|, i => i), []))
  }

  /** On any buffer at all: what is left of it after parsing, together with the tokens of the
      matched pairs, the indentation of the list items and the data of the decoded pictures, is
      the whole buffer; one image is added per list item and decoded picture; nothing changes
      place. */
  lemma {:induction false} ParsingAccountsForEverything(codec: Codec, b: Buffer)
    ensures Balanced(codec, b, Parsed(codec, b), Account(codec, b))
  {
    var tr := Tracked(seq(|b|, i => i), []);
    assert multiset(tr.origins) + multiset{} == multiset(seq(|b|, i => i)) + NewItems(0);
    assert multiset(seq(|b|, i => i)) == multiset(tr.origins);
    TrackBalanced(codec, b, State(b, [], 0), tr);
  }

  /** When a pair is matched the markups still pending come before it, one after the other, and unless
      it is a picture or a verbatim text no line starts between its two marks. */
  lemma {:induction false} PendingBefore(st: State)
    requires Inv(st) && Closes(st)
    ensures forall k :: 1 <= k < |st.open| ==> st.open[k].s < st.open[k].e <= st.open[k-1].s
    ensures st.open[0].s < st.open[0].e <= st.pos
    ensures st.open[0].markup !in {PictureStart, VerbatimMark} ==>
              forall k :: st.open[0].s < k <= st.pos ==> !StartsLine(st.buf, k)
  {
    SameLine(st.buf, st.open[0].s, st.pos);
    StackOrder(st.buf, st.open, st.pos);
  }

  lemma {:induction false} StackOrder(b: Buffer, open: seq<Opening>, limit: nat)
    requires StackOk(b, open, limit)
    ensures forall k :: 1 <= k < |open| ==> open[k].s < open[k].e <= open[k-1].s
  {
    if open != [] {
      StackOrder(b, open[1..], open[0].s);
      forall k | 1 <= k < |open| ensures open[k].s < open[k].e <= open[k-1].s {
        assert open[k] == open[1..][k-1];
        if k > 1 { assert open[k-1] == open[1..][k-2]; }
      }
    }
  }

  /** The markups that find no counterpart stay in the text, spelled out, disjoint and in
      order. */
  lemma {:induction false} UnmatchedMarksStay(codec: Codec, b: Buffer)
    ensures var r := Run(codec, State(b, [], 0));
            && r.buf == Parsed(codec, b)
            && (forall k :: 0 <= k < |r.open| ==> OpeningOk(r.buf, r.open[k]))
            && (forall k :: 1 <= k < |r.open| ==> r.open[k].e <= r.open[k-1].s)
  {
    var r := Run(codec, State(b, [], 0));
    StackOrder(r.buf, r.open, r.pos);
    StackAll(r.buf, r.open, r.pos);
  }

  lemma {:induction false} StackAll(b: Buffer, open: seq<Opening>, limit: nat)
    requires StackOk(b, open, limit)
    ensures forall k :: 0 <= k < |open| ==> OpeningOk(b, open[k])
  {
    if open != [] {
      StackAll(b, open[1..], open[0].s);
      forall k | 0 <= k < |open| ensures OpeningOk(b, open[k]) {
        if k > 0 { assert open[k] == open[1..][k-1]; }
      }
    }
  }
}
