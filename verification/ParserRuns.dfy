/** How the parser moves: single moves that lead to the same result. */
module ParserRuns {
  import opened RichText
  import opened Tokens
  import opened Parser

  /** The parser, started at `st`, ends with the buffer `b`. */
  predicate Ends(codec: Codec, st: State, b: Buffer) {
    Inv(st) && Run(codec, st).buf == b
  }

  /** No token stands between `from` and `to`. */
  predicate Quiet(b: Buffer, open: seq<Opening>, from: nat, to: nat) {
    forall k :: from <= k < to && k <= |b| ==> TokenAt(b, Top(open), k).markup == NoMark
  }

  predicate AtMatch(st: State)
    requires Inv(st)
  {
    !Finished(st) && NextTokenOf(st).markup != NoMark && Closes(st)
  }

  /** After a match the scan finds nothing before the place of the match. */
  predicate QuietMatch(codec: Codec, st: State)
    requires Inv(st) && AtMatch(st)
  {
    TokenBounds(st.buf, Top(st.open), st.pos);
    var next := Step(codec, st);
    Quiet(next.buf, next.open, next.pos, ClosedMark(codec, st.buf, st.open[0], st.pos, NextTokenOf(st).end))
  }

  /** That is so after every match of the parse from `st` on. */
  predicate Clean(codec: Codec, st: State)
    requires Inv(st)
    decreases |st.buf|, |st.buf| - st.pos
  {
    Finished(st) ||
    (StepKeepsInv(codec, st);
     StepProgress(codec, st);
     (AtMatch(st) ==> QuietMatch(codec, st)) && Clean(codec, Step(codec, st)))
  }

  predicate CleanFrom(codec: Codec, st: State) {
    Inv(st) && Clean(codec, st)
  }

  /** From `a` the parser ends as it does from `b`, and finds nothing new on the way there. */
  ghost predicate Same(codec: Codec, a: State, b: State) {
    && (forall p {:trigger Ends(codec, b, p)} :: Ends(codec, b, p) ==> Ends(codec, a, p))
    && (CleanFrom(codec, b) ==> CleanFrom(codec, a))
  }

  lemma {:induction false} SameStep(codec: Codec, a: State, b: State)
    requires Inv(a) && !Finished(a) && b == Step(codec, a) && (AtMatch(a) ==> QuietMatch(codec, a))
    ensures Same(codec, a, b)
  {
    StepKeepsInv(codec, a);
    StepProgress(codec, a);
  }

  lemma {:induction false} SameTrans(codec: Codec, a: State, b: State, c: State)
    requires Same(codec, a, b) && Same(codec, b, c)
    ensures Same(codec, a, c)
  {
    forall p | Ends(codec, c, p) ensures Ends(codec, a, p) {
      assert Ends(codec, b, p);
    }
  }

  /** Where no token stands the parser may as well start at the next position. */
  lemma {:induction false} SkipOne(codec: Codec, st: State, next: State)
    requires Inv(st) && st.pos < |st.buf| && TokenAt(st.buf, Top(st.open), st.pos).markup == NoMark
    requires next == st.(pos := st.pos + 1)
    ensures Same(codec, st, next) && Inv(next)
  {
    var n := NextStop(st.buf, Top(st.open), next.pos);
    var far := st.(pos := n);
    StackLimit(st.buf, st.open, st.pos, next.pos);
    SameStep(codec, st, far);
    if n != next.pos {
      SkipRest(codec, next, far);
      SameTrans(codec, st, far, next);
    }
  }

  lemma {:induction false} SkipRest(codec: Codec, next: State, far: State)
    requires Inv(next) && far == next.(pos := NextStop(next.buf, Top(next.open), next.pos)) && far != next
    ensures Same(codec, far, next)
  {
    assert TokenAt(next.buf, Top(next.open), next.pos).markup == NoMark && next.pos < |next.buf|;
    assert NextStop(next.buf, Top(next.open), next.pos + 1) == far.pos;
    assert far == Step(codec, next);
    forall p | Ends(codec, next, p) ensures Ends(codec, far, p) {
      StepKeepsInv(codec, next);
    }
  }

  lemma {:induction false} SkipMany(codec: Codec, st: State, last: State)
    requires Inv(st) && st.pos <= last.pos <= |st.buf| && last == st.(pos := last.pos)
    requires forall k :: st.pos <= k < last.pos ==> TokenAt(st.buf, Top(st.open), k).markup == NoMark
    ensures Same(codec, st, last) && Inv(last)
    decreases last.pos - st.pos
  {
    if st.pos < last.pos {
      var next := st.(pos := st.pos + 1);
      SkipOne(codec, st, next);
      SkipMany(codec, next, last);
      SameTrans(codec, st, next, last);
    }
  }

  /** A token that opens a markup, when it does not close the innermost one. */
  lemma {:induction false} PushMove(codec: Codec, st: State, next: State, t: Token)
    requires Inv(st) && t == TokenAt(st.buf, Top(st.open), st.pos) && Starts(t.markup)
    requires st.open != [] ==> Counterpart(st.open[0].markup) != t.markup
    requires next == State(st.buf, [Opening(t.markup, st.pos, t.end)] + st.open, t.end)
    ensures Same(codec, st, next) && Inv(next)
  {
    TokenBounds(st.buf, Top(st.open), st.pos);
    SameStep(codec, st, next);
    StepKeepsInv(codec, st);
  }

  /** A token that closes the innermost markup. */
  lemma {:induction false} CloseMove(codec: Codec, st: State, next: State, t: Token)
    requires Inv(st) && t == TokenAt(st.buf, Top(st.open), st.pos) && st.open != []
    requires var o := st.open[0];
             && Starts(o.markup) && t.markup == Counterpart(o.markup)
             && o.s < o.e <= st.pos <= t.end <= |st.buf|
             && (o.markup in {PictureStart, VerbatimMark} || Line(st.buf, o.s) == Line(st.buf, st.pos))
    requires next.buf == ClosedBuffer(codec, st.buf, st.open[0], st.pos, t.end)
    requires next.open == st.open[1..] && next.pos == ResumeAt(codec, st.buf, st.open, st.pos, t.end)
    requires Quiet(next.buf, next.open, next.pos, ClosedMark(codec, st.buf, st.open[0], st.pos, t.end))
    ensures Same(codec, st, next)
  {
    assert t.markup != NoMark && t.markup != EndOfText;
    assert Closes(st);
    SameStep(codec, st, next);
  }

  /** What closing a style or title leaves, and where the scan is when nothing else is open. */
  lemma {:induction false} StyleCloses(codec: Codec, b: Buffer, o: Opening, cs: nat, ce: nat, t: Tag, left: Buffer,
                                       body: Buffer, right: Buffer)
    requires o.s < o.e <= cs <= ce <= |b| && StyleTag(o.markup) == Some(t)
    requires left == b[..o.s] && body == AddTag(b[o.e..cs], t) && right == b[ce..]
    ensures ClosedBuffer(codec, b, o, cs, ce) == left + body + right
    ensures ClosedMark(codec, b, o, cs, ce) == |left| + |body|
  {
    assert left + [] + body + right == left + body + right;
  }

  lemma {:induction false} EndMove(codec: Codec, st: State)
    requires Inv(st) && st.pos == |st.buf| && TokenAt(st.buf, Top(st.open), st.pos).markup == EndOfText
    ensures Ends(codec, st, st.buf) && CleanFrom(codec, st)
  {
  }
}
