/** The two loops of serialize_text turn by turn, and when they end. */
module SerializeLoops {
  import opened RichText
  import opened Parser
  import opened Streams
  import opened Serializer
  import opened SerializeText

  /** Where the loops stand: at the top of the outer loop, or in the inner loop of a run that starts
      at `start`, `from` being after the last image met.  `out` is what has been written. */
  datatype Loops =
    | Turn(iter: nat, live: seq<Tag>, out: Stream)
    | Scan(start: nat, from: nat, iter: nat, kept: seq<Tag>, out: Stream)
    | Done(out: Stream)

  function TagsAt(d: Buffer, i: nat): set<Tag> {
    if i < |d| then d[i].tags else {}
  }

  /** gtk_text_iter_toggles_tag: a tag starts or stops at `i`. */
  predicate Toggles(d: Buffer, i: nat) {
    (if i == 0 then {} else TagsAt(d, i - 1)) != TagsAt(d, i)
  }

  predicate Placed(d: Buffer, s: Loops) {
    match s
    case Turn(iter, _, _) => iter <= |d|
    case Scan(start, from, iter, _, _) => start <= from <= iter <= |d|
    case Done(_) => true
  }

  /** The end of a turn of the outer loop: the text after the last image, and the missing tags. */
  function Finish(d: Buffer, start: nat, from: nat, iter: nat, kept: seq<Tag>, out: Stream): (r: Loops)
    requires start <= from <= iter <= |d|
    ensures Placed(d, r)
  {
    var t := Tail(d, from, iter, TagsAt(d, start), kept);
    if iter == |d| then Done(out + t.events + CloseMarks(t.live)) else Turn(iter, t.live, out + t.events)
  }

  /** One turn of the inner loop, or what the outer loop does before it. */
  function LoopStep(d: Buffer, s: Loops): (r: Loops)
    requires Placed(d, s)
    ensures Placed(d, r)
  {
    match s
    case Done(_) => s
    case Turn(iter, live, out) =>
      var n := Popped(live, TagsAt(d, iter));
      Scan(iter, iter, iter, live[n..], out + CloseMarks(live[..n]))
    case Scan(start, from, iter, kept, out) =>
      if iter == |d| then Finish(d, start, from, iter, kept, out)
      else
        var next := ScanMove(d, iter);
        var from' := if d[iter].glyph.Chr? then from else next;
        var out' := if d[iter].glyph.Chr? then out else out + RawStream(d, from, next);
        if Toggles(d, next) then Finish(d, start, from', next, kept, out') else Scan(start, from', next, kept, out')
  }

  function Steps(d: Buffer, s: Loops, n: nat): (r: Loops)
    requires Placed(d, s)
    ensures Placed(d, r)
    decreases n
  {
    if n == 0 then s else Steps(d, LoopStep(d, s), n - 1)
  }

  const BEGIN := Turn(0, [], [])

  // ----- documents on which the loops end -----

  /** What is written and what is still to come make up the whole; `before` was written before the
      run that is scanned. */
  predicate OnTrack(d: Buffer, s: Loops, before: Stream) {
    && Placed(d, s)
    && match s
       case Done(out) => out == Written(d)
       case Turn(iter, live, out) =>
         && Distinct(live) && (iter == |d| ==> d == [] && live == [])
         && out + StreamFrom(d, iter, live) == Written(d)
       case Scan(start, from, iter, kept, out) =>
         && OpenTagsOk(kept, TagsAt(d, start)) && (start == |d| ==> d == [])
         && (forall k :: start <= k < iter ==> d[k].tags == TagsAt(d, start))
         && (start < iter < |d| ==> d[iter].tags == TagsAt(d, start))
         && NoImage(d, from, iter) && (from == start || !d[from-1].glyph.Chr?)
         && out == before + RawStream(d, start, from)
         && before + StreamFrom(d, start, kept) == Written(d)
  }

  lemma {:induction false} TurnOnTrack(d: Buffer, iter: nat, live: seq<Tag>, out: Stream) returns (before: Stream)
    requires OnTrack(d, Turn(iter, live, out), [])
    ensures OnTrack(d, LoopStep(d, Turn(iter, live, out)), before)
  {
    var n := Popped(live, TagsAt(d, iter));
    before := out + CloseMarks(live[..n]);
    assert RawStream(d, iter, iter) == [] && before + [] == before;
    if iter < |d| {
      KeptOk(d, iter, live);
      FirstItem(d, iter, live);
      Associative(out, CloseMarks(live[..n]), StreamFrom(d, iter, live[n..]));
    }
  }

  /** Where the inner loop goes on it stays in the run. */
  lemma {:induction false} MoveOnTrack(d: Buffer, start: nat, from: nat, iter: nat, out: Stream, before: Stream,
                                       from': nat, out': Stream)
    requires start <= from <= iter < |d| && NoImage(d, from, iter) && (from == start || !d[from-1].glyph.Chr?)
    requires out == before + RawStream(d, start, from)
    requires from' == if d[iter].glyph.Chr? then from else iter + 1
    requires out' == if d[iter].glyph.Chr? then out else out + RawStream(d, from, iter + 1)
    ensures start <= from' <= iter + 1 && NoImage(d, from', iter + 1) && (from' == start || !d[from'-1].glyph.Chr?)
    ensures out' == before + RawStream(d, start, from')
  {
    if !d[iter].glyph.Chr? {
      RawStreamConcat(d, start, from, iter + 1);
      Associative(before, RawStream(d, start, from), RawStream(d, from, iter + 1));
    }
  }

  lemma {:induction false} RunTags(d: Buffer, start: nat, from: nat, iter: nat, kept: seq<Tag>, out: Stream, before: Stream)
    requires OnTrack(d, Scan(start, from, iter, kept, out), before) && iter < |d|
    ensures forall k :: start <= k < iter + 1 ==> d[k].tags == TagsAt(d, start)
  {
  }

  lemma {:induction false} TailOpen(d: Buffer, j: nat, e: nat, tags: set<Tag>, kept: seq<Tag>)
    requires j <= e <= |d| && OpenTagsOk(kept, tags)
    ensures OpenTagsOk(TailText(d, j, e, tags, kept).live, tags)
    decreases e - j
  {
    AddedOk(kept, tags);
    if j < e {
      TailOpen(d, j + 1, e, tags, if d[j].glyph == Chr('\n') then kept else Missing(kept, tags) + kept);
    }
  }

  /** At the end of the document the open tags are closed. */
  lemma {:induction false} WholeWritten(d: Buffer, e: nat, live: seq<Tag>, out: Stream)
    requires e <= |d| && out + StreamFrom(d, e, live) == Written(d)
    ensures e == |d| ==> out + CloseMarks(live) == Written(d)
  {
  }

  /** What a run writes, between what came before and what follows. */
  lemma {:induction false} RunWritten(d: Buffer, start: nat, from: nat, e: nat, kept: seq<Tag>, before: Stream,
                                      tags: set<Tag>, t: Emission)
    requires start < e && start <= from <= e && RestOfRun(d, start, e, tags)
    requires NoImage(d, from, e) && (from == start || !d[from-1].glyph.Chr?) && OpenTagsOk(kept, tags)
    requires before + StreamFrom(d, start, kept) == Written(d) && t == Tail(d, from, e, tags, kept)
    ensures (before + RawStream(d, start, from) + t.events) + StreamFrom(d, e, t.live) == Written(d)
    ensures OpenTagsOk(t.live, tags)
  {
    var raw, rest := RawStream(d, start, from), StreamFrom(d, e, t.live);
    NothingPopped(kept, tags);
    RunItems(d, start, from, e, tags, kept);
    assert kept[0..] == kept && kept[..0] == [];
    FourJoined(before, raw, t.events, rest);
    TailOpen(d, if ListTagged(tags) then e else from, e, tags, kept);
  }

  lemma {:induction false} FourJoined(a: Stream, b: Stream, c: Stream, d: Stream)
    ensures a + ([] + (b + (c + d))) == (a + b + c) + d
  {
  }

  /** Where the inner loop stops the run ends. */
  lemma {:induction false} FinishOnTrack(d: Buffer, start: nat, from: nat, e: nat, kept: seq<Tag>, before: Stream,
                                         out: Stream, tags: set<Tag>)
    requires start < e && start <= from <= e && RestOfRun(d, start, e, tags) && tags == TagsAt(d, start)
    requires NoImage(d, from, e) && (from == start || !d[from-1].glyph.Chr?) && OpenTagsOk(kept, tags)
    requires before + StreamFrom(d, start, kept) == Written(d) && out == before + RawStream(d, start, from)
    ensures OnTrack(d, Finish(d, start, from, e, kept, out), [])
  {
    var t := Tail(d, from, e, tags, kept);
    RunWritten(d, start, from, e, kept, before, tags, t);
    WholeWritten(d, e, t.live, out + t.events);
  }

  lemma {:induction false} ScanOnTrack(d: Buffer, start: nat, from: nat, iter: nat, kept: seq<Tag>, out: Stream,
                                       before: Stream) returns (before': Stream)
    requires NoBareObject(d) && OnTrack(d, Scan(start, from, iter, kept, out), before) && d != []
    ensures OnTrack(d, LoopStep(d, Scan(start, from, iter, kept, out)), before')
  {
    if iter == |d| {
      FinishOnTrack(d, start, from, iter, kept, before, out, TagsAt(d, start));
      before' := [];
    } else {
      var from' := if d[iter].glyph.Chr? then from else iter + 1;
      var out' := if d[iter].glyph.Chr? then out else out + RawStream(d, from, iter + 1);
      MoveOnTrack(d, start, from, iter, out, before, from', out');
      RunTags(d, start, from, iter, kept, out, before);
      ScanStep(d, start, from, iter, kept, out, from', out');
      if Toggles(d, iter + 1) {
        RunDone(d, start, from, iter, kept, out, before, from', out');
        before' := [];
      } else {
        RunGoesOn(d, start, from, iter, kept, out, before, from', out');
        before' := before;
      }
    }
  }

  lemma {:induction false} ScanStep(d: Buffer, start: nat, from: nat, iter: nat, kept: seq<Tag>, out: Stream,
                                    from': nat, out': Stream)
    requires start <= from <= iter < |d| && !BareObject(d[iter])
    requires from' == if d[iter].glyph.Chr? then from else iter + 1
    requires out' == if d[iter].glyph.Chr? then out else out + RawStream(d, from, iter + 1)
    ensures LoopStep(d, Scan(start, from, iter, kept, out))
            == if Toggles(d, iter + 1) then Finish(d, start, from', iter + 1, kept, out')
               else Scan(start, from', iter + 1, kept, out')
  {
  }

  lemma {:induction false} RunGoesOn(d: Buffer, start: nat, from: nat, iter: nat, kept: seq<Tag>, out: Stream,
                                     before: Stream, from': nat, out': Stream)
    requires OnTrack(d, Scan(start, from, iter, kept, out), before) && iter < |d| && !Toggles(d, iter + 1)
    requires start <= from' <= iter + 1 && NoImage(d, from', iter + 1) && (from' == start || !d[from'-1].glyph.Chr?)
    requires out' == before + RawStream(d, start, from')
    requires forall k :: start <= k < iter + 1 ==> d[k].tags == TagsAt(d, start)
    ensures OnTrack(d, Scan(start, from', iter + 1, kept, out'), before)
  {
    assert TagsAt(d, iter + 1) == d[iter].tags;
  }

  /** Where a tag stops or starts the run is over. */
  lemma {:induction false} RunDone(d: Buffer, start: nat, from: nat, iter: nat, kept: seq<Tag>, out: Stream,
                                   before: Stream, from': nat, out': Stream)
    requires OnTrack(d, Scan(start, from, iter, kept, out), before) && iter < |d| && Toggles(d, iter + 1)
    requires start <= from' <= iter + 1 && NoImage(d, from', iter + 1) && (from' == start || !d[from'-1].glyph.Chr?)
    requires out' == before + RawStream(d, start, from')
    requires forall k :: start <= k < iter + 1 ==> d[k].tags == TagsAt(d, start)
    ensures OnTrack(d, Finish(d, start, from', iter + 1, kept, out'), [])
  {
    var tags := TagsAt(d, start);
    assert RestOfRun(d, start, iter + 1, tags);
    FinishOnTrack(d, start, from', iter + 1, kept, before, out', tags);
  }

  /** While no U+FFFC character stands in the way, a step leads on. */
  lemma {:induction false} StepOnTrack(d: Buffer, s: Loops, before: Stream) returns (before': Stream)
    requires NoBareObject(d) && OnTrack(d, s, before) && !s.Done?
    ensures OnTrack(d, LoopStep(d, s), before')
  {
    if s.Turn? {
      before' := TurnOnTrack(d, s.iter, s.live, s.out);
    } else if d == [] {
      EmptyDocument(d, s, before);
      before' := [];
    } else {
      before' := ScanOnTrack(d, s.start, s.from, s.iter, s.kept, s.out, before);
    }
  }

  lemma {:induction false} EmptyDocument(d: Buffer, s: Loops, before: Stream)
    requires d == [] && s.Scan? && OnTrack(d, s, before)
    ensures LoopStep(d, s) == Done(Written(d))
  {
    NothingKept(s.kept);
    NothingAdded(s.kept, {});
    assert RawStream(d, 0, 0) == [] && Tail(d, 0, 0, {}, []).events == [];
    assert before + [] == before && before + [] + CloseMarks([]) == before;
  }

  function Left(d: Buffer, s: Loops): nat
    requires Placed(d, s)
  {
    match s
    case Done(_) => 0
    case Turn(iter, _, _) => 2 * (|d| - iter) + 2
    case Scan(_, _, iter, _, _) => 2 * (|d| - iter) + 1
  }

  /** Every step brings the loops nearer to their end, which writes the whole document. */
  lemma {:induction false} StepsEnd(d: Buffer, s: Loops, before: Stream) returns (n: nat)
    requires NoBareObject(d) && OnTrack(d, s, before)
    ensures Steps(d, s, n) == Done(Written(d))
    decreases Left(d, s)
  {
    if s.Done? {
      n := 0;
    } else {
      var before' := StepOnTrack(d, s, before);
      n := StepsEnd(d, LoopStep(d, s), before');
      n := n + 1;
    }
  }

  // ----- documents on which they do not -----

  /** The loops have not got past item `i`. */
  predicate NotPast(s: Loops, i: nat) {
    match s
    case Done(_) => false
    case Turn(iter, _, _) => iter <= i
    case Scan(_, _, iter, _, _) => iter <= i
  }

  lemma {:induction false} StepsStuck(d: Buffer, s: Loops, n: nat, i: nat)
    requires Placed(d, s) && NotPast(s, i) && i < |d| && BareObject(d[i])
    ensures NotPast(Steps(d, s, n), i)
    decreases n
  {
    if n > 0 {
      StepsStuck(d, LoopStep(d, s), n - 1, i);
    }
  }

  /** The loops come to their end. */
  ghost predicate Returns(d: Buffer) {
    exists n: nat :: Steps(d, BEGIN, n).Done?
  }

  /** The loops of serialize_text end if and only if no item is a U+FFFC character that stands for no
      image, and then they have written the document.  Otherwise they never get past that item,
      whichever of the two loops goes on for ever. */
  lemma {:induction false} LoopsEndIff(d: Buffer)
    ensures Returns(d) <==> NoBareObject(d)
    ensures NoBareObject(d) ==> exists n: nat :: Steps(d, BEGIN, n) == Done(Written(d))
    ensures forall i :: 0 <= i < |d| && BareObject(d[i]) ==> forall n: nat :: NotPast(Steps(d, BEGIN, n), i)
  {
    if NoBareObject(d) {
      assert [] + StreamFrom(d, 0, []) == Written(d);
      var n := StepsEnd(d, BEGIN, []);
    }
    forall i, n: nat | 0 <= i < |d| && BareObject(d[i]) ensures NotPast(Steps(d, BEGIN, n), i) {
      StepsStuck(d, BEGIN, n, i);
    }
  }

  // ----- what comes back -----

  /** The loops come to their end, and parsing the text they have written gives the document back, but
      for the tags of newlines. */
  ghost predicate ComesBack(codec: Codec, d: Buffer) {
    exists n: nat :: ReadsBack(codec, d, Steps(d, BEGIN, n))
  }

  predicate ReadsBack(codec: Codec, d: Buffer, s: Loops) {
    s.Done? && Parsed(codec, Plain(Text(codec, s.out))) == Normal(d)
  }

  lemma {:induction false} DoneStays(d: Buffer, s: Loops, n: nat, m: nat)
    requires Placed(d, s) && n <= m && Steps(d, s, n).Done?
    ensures Steps(d, s, m) == Steps(d, s, n)
    decreases m
  {
    if n == 0 {
      if m > 0 {
        DoneStays(d, s, 0, m - 1);
      }
    } else {
      DoneStays(d, LoopStep(d, s), n - 1, m - 1);
    }
  }

  lemma {:induction false} ComesBackExactly(codec: Codec, d: Buffer)
    ensures ComesBack(codec, d) <==> NoBareObject(d) && Parsed(codec, Plain(Serialized(codec, d))) == Normal(d)
  {
    LoopsEndIff(d);
    if NoBareObject(d) {
      var m: nat :| Steps(d, BEGIN, m) == Done(Written(d));
      assert ReadsBack(codec, d, Done(Written(d))) <==> Parsed(codec, Plain(Serialized(codec, d))) == Normal(d);
      forall n: nat | ReadsBack(codec, d, Steps(d, BEGIN, n))
        ensures Steps(d, BEGIN, n) == Done(Written(d))
      {
        if n <= m {
          DoneStays(d, BEGIN, n, m);
        } else {
          DoneStays(d, BEGIN, m, n);
        }
      }
    } else {
      forall n: nat ensures !ReadsBack(codec, d, Steps(d, BEGIN, n)) {
        assert !Steps(d, BEGIN, n).Done?;
      }
    }
  }
}
