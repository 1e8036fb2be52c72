/** Writing a portable document and reading it back gives the same document. */
module RoundTrip {
  import opened RichText
  import opened Parser
  import opened Streams
  import opened Serializer
  import opened Reading
  import ReadBack
  import SerializeText
  import SerializeLoops
  import opened PortableDocs

  /** The state of the reader before item `i`, the tags `live` being open. */
  function At(d: Buffer, i: nat, live: seq<Tag>): Reader
    requires i <= |d|
  {
    var s := SeenAt(d, i);
    Reader(live, s.list, s.ink, s.colon, false)
  }

  predicate Character(it: Item) {
    it.glyph.Chr? && it.glyph.c != '\n'
  }

  /** What is open before item `i`: tags of the item before it; all of them after a character; a
      verbatim tag is innermost, a title outermost. */
  predicate Ready(d: Buffer, i: nat, live: seq<Tag>)
    requires i <= |d|
  {
    && Distinct(live)
    && (forall t :: t in live ==> i > 0 && t in d[i-1].tags)
    && (i > 0 && Character(d[i-1]) ==> TagSet(live) == d[i-1].tags)
    && (Verbatim in live ==> i > 0 && live[0] == Verbatim && TagSet(live) == d[i-1].tags)
    && (forall k :: 0 <= k < |live| - 1 ==> !TitleTag(live[k]))
  }

  lemma {:induction false} DistinctApart(ts: seq<Tag>, j: nat, k: nat)
    requires Distinct(ts) && j < k < |ts|
    ensures ts[j] != ts[k]
  {
    if j == 0 {
      assert ts[k] == ts[1..][k-1];
    } else {
      DistinctApart(ts[1..], j - 1, k - 1);
    }
  }

  lemma {:induction false} DistinctTake(ts: seq<Tag>, us: seq<Tag>)
    requires Distinct(ts + us)
    ensures Distinct(ts)
  {
    if ts != [] {
      assert (ts + us)[1..] == ts[1..] + us;
      assert forall t :: t in ts[1..] ==> t in (ts + us)[1..];
      DistinctTake(ts[1..], us);
    }
  }

  lemma {:induction false} ClosesConcat(ts: seq<Tag>, us: seq<Tag>)
    ensures CloseMarks(ts + us) == CloseMarks(ts) + CloseMarks(us)
  {
    if ts == [] {
      assert ts + us == us;
    } else {
      assert (ts + us)[1..] == ts[1..] + us;
      ClosesConcat(ts[1..], us);
    }
  }

  // ----- closing -----

  /** An italic tag open after a colon stays open. */
  lemma {:induction false} ColonKeeps(d: Buffer, i: nat, live: seq<Tag>)
    requires Portable(d) && 0 < i <= |d| && Ready(d, i, live)
    requires SeenAt(d, i).colon && Italic in live
    ensures i < |d| && !Newline(d[i]) && Popped(live, d[i].tags) == 0
  {
    assert PortableAt(d, i - 1);
    PoppedFacts(live, d[i].tags);
    assert forall k :: 0 <= k < |live| ==> live[k] in live;
  }

  /** All the open tags can be closed where a line or the document ends. */
  lemma {:induction false} AllClosed(d: Buffer, i: nat, live: seq<Tag>)
    requires Portable(d) && i <= |d| && Ready(d, i, live) && (i < |d| ==> Newline(d[i]))
    ensures Takes(At(d, i, live), CloseMarks(live),
                  At(d, i, live).(open := [], ended := live != [] && TitleTag(live[|live|-1])))
  {
    if i > 0 && SeenAt(d, i).colon && Italic in live {
      ColonKeeps(d, i, live);
      assert false;
    }
    assert live + [] == live;
    TakesCloses(At(d, i, live), live, []);
  }

  /** A title is closed only where its line ends. */
  lemma {:induction false} NoTitleClosed(d: Buffer, i: nat, live: seq<Tag>, t: Tag)
    requires Portable(d) && i < |d| && Ready(d, i, live) && !Newline(d[i])
    requires TitleTag(t) && t in live
    ensures t in d[i].tags
  {
    assert PortableAt(d, i) && PortableAt(d, i - 1) && LaidAt(d, i - 1);
    assert t in d[i-1].tags;
  }

  lemma {:induction false} SomeClosed(d: Buffer, i: nat, live: seq<Tag>)
    requires Portable(d) && i < |d| && Ready(d, i, live) && !Newline(d[i])
    ensures var n := Popped(live, d[i].tags);
            Takes(At(d, i, live), CloseMarks(live[..n]), At(d, i, live[n..]))
  {
    var n := Popped(live, d[i].tags);
    if i > 0 && SeenAt(d, i).colon && Italic in live {
      ColonKeeps(d, i, live);
    }
    assert Italic in live[..n] ==> Italic in live;
    PoppedFacts(live, d[i].tags);
    assert live[..n] + live[n..] == live;
    if n > 0 && TitleTag(live[n-1]) {
      NoTitleClosed(d, i, live, live[n-1]);
      assert false;
    }
    TakesCloses(At(d, i, live), live[..n], live[n..]);
  }

  // ----- opening -----

  /** Once a verbatim tag is open nothing is missing. */
  lemma {:induction false} VerbatimComplete(d: Buffer, i: nat, live: seq<Tag>)
    requires Portable(d) && i < |d| && Ready(d, i, live) && Verbatim in live && Verbatim in d[i].tags
    ensures Popped(live, d[i].tags) == 0 || Verbatim !in live[Popped(live, d[i].tags)..]
    ensures Popped(live, d[i].tags) == 0 ==> TagSet(live) == d[i].tags
  {
    assert PortableAt(d, i);
    var n := Popped(live, d[i].tags);
    PoppedFacts(live, d[i].tags);
    assert Verbatim !in live[1..];
    assert n > 0 ==> forall t :: t in live[n..] ==> t in live[1..];
    if n == 0 {
      assert forall t :: t in live ==> t in d[i].tags;
      assert forall t :: t in d[i-1].tags ==> t in TagSet(live);
    }
  }

  /** Only the innermost of the tags opened together can be the verbatim tag. */
  lemma {:induction false} VerbatimLast(ts: seq<Tag>, tags: set<Tag>)
    requires Descending(ts) && (forall t :: t in ts ==> t in tags)
    requires Verbatim in tags ==> tags <= {Italic, Bold, Mono, Verbatim}
    ensures forall k :: 1 <= k < |ts| ==> ts[k] != Verbatim
  {
    forall k | 1 <= k < |ts| ensures ts[k] != Verbatim {
      assert ts[0] in ts && ts[k] in ts;
      assert Rank(ts[0]) > Rank(ts[k]);
    }
  }

  /** The tags missing at an item may be opened. */
  lemma {:induction false} MissingOpen(r: Reader, kept: seq<Tag>, tags: set<Tag>, ts: seq<Tag>)
    requires r.open == kept && !r.ended && OpenTagsOk(kept, tags) && !ListTagged(tags)
    requires ts == Added(kept, TagsInOrder(tags))
    requires Verbatim in tags ==> tags <= {Italic, Bold, Mono, Verbatim}
    requires Verbatim in kept ==> TagSet(kept) == tags
    requires forall t :: TitleTag(t) && t in tags ==> t in kept
    requires Italic in tags && Italic !in kept ==> !r.colon
    requires tags == {Strike} ==> r.list || r.ink == Inked
    ensures MayOpen(r, ts)
  {
    MissingFacts(kept, tags);
    AddedOk(kept, tags);
    DistinctTake(ts, kept);
    VerbatimLast(ts, tags);
    assert kept != [] ==> kept[0] in kept;
    if Verbatim in kept {
      AllAdded(kept, tags);
    }
    if ts != [] && ts[|ts|-1] == Strike && kept == [] {
      LonelyStrike(ts, tags);
    }
    NoTitleVerbatim(kept, tags);
  }

  lemma {:induction false} NoTitleVerbatim(kept: seq<Tag>, tags: set<Tag>)
    requires forall t :: t in kept ==> t in tags
    requires Verbatim in tags ==> tags <= {Italic, Bold, Mono, Verbatim}
    ensures Verbatim in tags ==> !HasTitle(kept)
  {
  }

  /** Strike is opened after every other style. */
  lemma {:induction false} LonelyStrike(ts: seq<Tag>, tags: set<Tag>)
    requires Descending(ts) && (forall t :: t in ts <==> t in tags) && ts != []
    requires ts[|ts|-1] == Strike && (forall t :: TitleTag(t) ==> t !in tags)
    ensures tags == {Strike}
  {
    assert ts[|ts|-1] in ts;
    forall t | t in tags ensures t == Strike {
      assert t in ts;
      var k :| 0 <= k < |ts| && ts[k] == t;
      assert k < |ts| - 1 ==> Rank(ts[k]) > Rank(Strike);
    }
  }

  // ----- items -----

  /** Reading what is written for item `i` leads from `live` to `live'`. */
  predicate ItemTaken(d: Buffer, i: nat, live: seq<Tag>, es: Stream, live': seq<Tag>)
    requires i < |d|
  {
    Takes(At(d, i, live), es, At(d, i + 1, live')) && Ready(d, i + 1, live')
  }

  /** What is written for an untagged item of which only the marks before it are closed. */
  lemma {:induction false} RawEmission(d: Buffer, i: nat, live: seq<Tag>, e: Event)
    requires i < |d| && Distinct(live)
    requires d[i].tags == {} && !d[i].glyph.Bullet? && (d[i].glyph.Chr? ==> ImageAhead(d, i))
    requires e == if d[i].glyph.Chr? then Put(d[i].glyph.c) else Image(d[i].glyph.pixbuf)
    ensures ItemEmission(d, i, live) == Emission(CloseMarks(live[..Popped(live, d[i].tags)]) + [e], [])
    ensures live[Popped(live, d[i].tags)..] == []
  {
    var n := Popped(live, {});
    KeptOk(d, i, live);
    NothingKept(live[n..]);
    NothingAdded([], d[i].tags);
    assert [e] + [] == [e];
    assert OpenMarks([]) == [];
  }

  lemma {:induction false} RawItem(d: Buffer, i: nat, live: seq<Tag>, e: Event)
    requires Portable(d) && i < |d| && Ready(d, i, live) && !Newline(d[i])
    requires d[i].tags == {} && !d[i].glyph.Bullet? && (d[i].glyph.Chr? ==> ImageAhead(d, i))
    requires e == if d[i].glyph.Chr? then Put(d[i].glyph.c) else Image(d[i].glyph.pixbuf)
    ensures ItemTaken(d, i, live, ItemEmission(d, i, live).events, ItemEmission(d, i, live).live)
  {
    var closes := CloseMarks(live[..Popped(live, d[i].tags)]);
    SomeClosed(d, i, live);
    RawEmission(d, i, live, e);
    assert PortableAt(d, i);
    TakesOne(At(d, i, []), e);
    TakesConcat(At(d, i, live), closes, At(d, i, []), [e], At(d, i + 1, []));
  }

  lemma {:induction false} BulletItem(d: Buffer, i: nat, live: seq<Tag>, t: Tag)
    requires Portable(d) && i < |d| && Ready(d, i, live)
    requires d[i].glyph.Bullet? && t == ListTag(d[i].glyph.nested)
    ensures ItemTaken(d, i, live, ItemEmission(d, i, live).events, ItemEmission(d, i, live).live)
  {
    var n := Popped(live, d[i].tags);
    assert LaidAt(d, i) && PortableAt(d, i);
    BulletEmission(d, i, live, t);
    SomeClosed(d, i, live);
    TakesOne(At(d, i, []), Open(t));
    TakesConcat(At(d, i, live), CloseMarks(live[..n]), At(d, i, []), [Open(t)], At(d, i + 1, [t]));
  }

  /** A bullet closes everything and is written as its list mark. */
  lemma {:induction false} BulletEmission(d: Buffer, i: nat, live: seq<Tag>, t: Tag)
    requires Portable(d) && i < |d| && Ready(d, i, live)
    requires d[i].glyph.Bullet? && t == ListTag(d[i].glyph.nested)
    ensures var n := Popped(live, d[i].tags);
            live[n..] == [] && ItemEmission(d, i, live) == Emission(CloseMarks(live[..n]) + [Open(t)], [t])
    ensures d[i].tags == {t}
  {
    var kept := live[Popped(live, d[i].tags)..];
    KeptOk(d, i, live);
    assert LaidAt(d, i) && PortableAt(d, i) && (i > 0 ==> LaidAt(d, i - 1)) && (i + 1 < |d| ==> LaidAt(d, i + 1));
    assert forall x :: x in kept ==> x in live && ListTagged({x});
    NoMember(kept);
    assert t in d[i].tags && RunEnds(d, i);
    AddedOk([], d[i].tags);
    OneTag(Added([], TagsInOrder(d[i].tags)), t);
    MarkWritten(d, i, live, t);
  }

  lemma {:induction false} MarkWritten(d: Buffer, i: nat, live: seq<Tag>, t: Tag)
    requires i < |d| && d[i].glyph.Bullet? && RunEnds(d, i) && live[Popped(live, d[i].tags)..] == []
    requires Added([], TagsInOrder(d[i].tags)) == [t]
    ensures ItemEmission(d, i, live) == Emission(CloseMarks(live[..Popped(live, d[i].tags)]) + [Open(t)], [t])
  {
    assert OpenMarks([t]) == [Open(t)];
    assert [] + [Open(t)] == [Open(t)] && [t] + [] == [t];
  }

  /** What is written for a character. */
  lemma {:induction false} CharacterEmission(d: Buffer, i: nat, live: seq<Tag>, c: char, kept: seq<Tag>, added: seq<Tag>)
    requires i < |d| && Distinct(live) && c != '\n'
    requires d[i].glyph == Chr(c) && !ImageAhead(d, i) && !ListTagged(d[i].tags)
    requires kept == live[Popped(live, d[i].tags)..] && added == Added(kept, TagsInOrder(d[i].tags))
    ensures ItemEmission(d, i, live).events
         == CloseMarks(live[..Popped(live, d[i].tags)]) + (OpenMarks(added) + [Put(c)])
    ensures ItemEmission(d, i, live).live == added + kept
    ensures TagSet(added + kept) == d[i].tags && OpenTagsOk(added + kept, d[i].tags) && OpenTagsOk(kept, d[i].tags)
  {
    KeptOk(d, i, live);
    AddedOk(kept, d[i].tags);
    AllAdded(added + kept, d[i].tags);
    assert OpenMarks([]) == [];
    var body := OpenMarks(added) + [Put(c)];
    assert body + [] == body;
    assert [] + (added + kept) == added + kept;
  }

  /** The characters of a line after its title mark, and those of a line without title. */
  lemma {:induction false} CharacterOpens(d: Buffer, i: nat, live: seq<Tag>, kept: seq<Tag>, added: seq<Tag>)
    requires Portable(d) && i < |d| && Ready(d, i, live) && Character(d[i])
    requires !(StartOfLine(d, i) && Titled(d[i]))
    requires kept == live[Popped(live, d[i].tags)..] && added == Added(kept, TagsInOrder(d[i].tags))
    ensures MayOpen(At(d, i, kept), added)
  {
    var tags := d[i].tags;
    assert PortableAt(d, i) && LaidAt(d, i);
    KeptOk(d, i, live);
    PoppedFacts(live, tags);
    if Verbatim in kept {
      assert Verbatim in live;
      VerbatimComplete(d, i, live);
      assert live[0..] == live;
    }
    forall t | TitleTag(t) && t in tags ensures t in kept {
      TitleKept(d, i, live, t);
    }
    if Italic in tags && Italic !in kept {
      ItalicAfter(d, i, live);
    }
    MissingOpen(At(d, i, kept), kept, tags, added);
  }

  lemma {:induction false} TitleKept(d: Buffer, i: nat, live: seq<Tag>, t: Tag)
    requires Portable(d) && i < |d| && Ready(d, i, live) && Character(d[i])
    requires !StartOfLine(d, i) && TitleTag(t) && t in d[i].tags
    ensures t in live[Popped(live, d[i].tags)..]
  {
    assert PortableAt(d, i);
    assert t in TagSet(live);
    PoppedFacts(live, d[i].tags);
    var last := |live| - 1;
    assert live[last] == t by {
      var k :| 0 <= k < |live| && live[k] == t;
    }
    assert live[Popped(live, d[i].tags)..][last - Popped(live, d[i].tags)] == t;
  }

  /** An italic tag is not opened after a colon. */
  lemma {:induction false} ItalicAfter(d: Buffer, i: nat, live: seq<Tag>)
    requires Portable(d) && i < |d| && Ready(d, i, live) && Character(d[i])
    requires Italic in d[i].tags && Italic !in live[Popped(live, d[i].tags)..]
    ensures !SeenAt(d, i).colon
  {
    assert live[0..] == live;
    if SeenAt(d, i).colon {
      assert PortableAt(d, i - 1);
      assert Italic in TagSet(live);
      ColonKeeps(d, i, live);
    }
  }

  /** A title mark stands alone at the start of its line. */
  lemma {:induction false} TitleOpens(d: Buffer, i: nat, live: seq<Tag>, kept: seq<Tag>, added: seq<Tag>)
    requires Portable(d) && i < |d| && Ready(d, i, live) && Character(d[i])
    requires StartOfLine(d, i) && Titled(d[i])
    requires kept == live[Popped(live, d[i].tags)..] && added == Added(kept, TagsInOrder(d[i].tags))
    ensures Takes(At(d, i, kept), OpenMarks(added), At(d, i, added + kept))
  {
    var t := if Title1 in d[i].tags then Title1 else Title2;
    TitleAlone(d, i, live, kept, t);
    if kept == [] {
      AddedOk(kept, d[i].tags);
      OneTag(added, t);
      TakesOne(At(d, i, kept), Open(t));
      assert OpenMarks([t]) == [Open(t)];
    } else {
      AllAdded(kept, d[i].tags);
      TakesNothing(At(d, i, kept));
      assert [] + kept == kept;
    }
  }

  /** A title starts its line with its tag alone, and nothing else stays open before it. */
  lemma {:induction false} TitleAlone(d: Buffer, i: nat, live: seq<Tag>, kept: seq<Tag>, t: Tag)
    requires Portable(d) && i < |d| && Ready(d, i, live) && Character(d[i])
    requires StartOfLine(d, i) && Titled(d[i]) && t == if Title1 in d[i].tags then Title1 else Title2
    requires kept == live[Popped(live, d[i].tags)..]
    ensures d[i].tags == {t} && (kept == [] || kept == [t])
  {
    assert PortableAt(d, i) && (i > 0 ==> PortableAt(d, i - 1) && LaidAt(d, i - 1));
    assert d[i].tags == {t} by {
      assert t in d[i].tags && |d[i].tags - {t}| == 0;
    }
    KeptOk(d, i, live);
    OneAtMost(kept, t);
  }

  lemma {:induction false} OneAtMost(kept: seq<Tag>, t: Tag)
    requires Distinct(kept) && forall x :: x in kept ==> x == t
    ensures kept == [] || kept == [t]
  {
    if kept != [] {
      assert kept[0] in kept && forall x :: x in kept[1..] ==> x in kept;
      NoMember(kept[1..]);
    }
  }

  lemma {:induction false} CharacterPut(d: Buffer, i: nat, live: seq<Tag>, c: char)
    requires Portable(d) && i < |d| && d[i].glyph == Chr(c) && c != '\n'
    requires TagSet(live) == d[i].tags && Distinct(live)
    requires Verbatim in live ==> live[0] == Verbatim
    ensures Takes(At(d, i, live), [Put(c)], At(d, i + 1, live))
  {
    assert PortableAt(d, i) && LaidAt(d, i);
    assert live != [] ==> live[0] in TagSet(live);
    assert Verbatim in TagSet(live) <==> Verbatim in live;
    if BreakChar(c) && d[i].tags != {} {
      assert live + [] == live;
      OneTag(live, Verbatim);
    }
    TakesOne(At(d, i, live), Put(c));
  }

  /** A verbatim tag is opened last, a title first. */
  lemma {:induction false} ReadyAfter(d: Buffer, i: nat, live: seq<Tag>, kept: seq<Tag>, added: seq<Tag>)
    requires Portable(d) && i < |d| && Ready(d, i, live) && Character(d[i])
    requires kept == live[Popped(live, d[i].tags)..] && added == Added(kept, TagsInOrder(d[i].tags))
    requires TagSet(added + kept) == d[i].tags && Distinct(added + kept)
    ensures Ready(d, i + 1, added + kept)
  {
    var tags := d[i].tags;
    var live' := added + kept;
    assert PortableAt(d, i) && LaidAt(d, i);
    assert forall t :: t in live' <==> t in TagSet(live');
    MissingFacts(kept, tags);
    VerbatimLast(added, tags);
    PoppedFacts(live, tags);
    if Verbatim in kept {
      VerbatimComplete(d, i, live);
      assert live[0..] == live;
      AllAdded(kept, tags);
    }
    assert Verbatim in live' ==> live'[0] == Verbatim;
    forall k | 0 <= k < |live'| - 1 ensures !TitleTag(live'[k]) {
      TitleStays(d, i, live, kept, added, k);
    }
  }

  lemma {:induction false} TitleStays(d: Buffer, i: nat, live: seq<Tag>, kept: seq<Tag>, added: seq<Tag>, k: nat)
    requires Portable(d) && i < |d| && Ready(d, i, live) && Character(d[i])
    requires kept == live[Popped(live, d[i].tags)..] && added == Added(kept, TagsInOrder(d[i].tags))
    requires TagSet(added + kept) == d[i].tags && Distinct(added + kept) && k < |added + kept| - 1
    ensures !TitleTag((added + kept)[k])
  {
    var live' := added + kept;
    var t := live'[k];
    assert t in TagSet(live');
    if TitleTag(t) {
      assert PortableAt(d, i);
      if StartOfLine(d, i) {
        assert live'[k+1] in TagSet(live');
        DistinctApart(live', k, k + 1);
        assert {t, live'[k+1]} <= d[i].tags && |{t, live'[k+1]}| == 2;
        TwoTags(d[i].tags, t, live'[k+1]);
        assert false;
      }
      TitleKept(d, i, live, t);
      var j :| 0 <= j < |kept| && kept[j] == t;
      assert kept[j] == live[Popped(live, d[i].tags) + j];
      assert j == |kept| - 1;
      assert live'[|live'|-1] == t;
      DistinctApart(live', k, |live'| - 1);
    }
  }

  lemma {:induction false} TwoTags(tags: set<Tag>, s: Tag, t: Tag)
    requires s in tags && t in tags && s != t
    ensures |tags| > 1
  {
    var rest := tags - {s};
    assert t in rest && tags == rest + {s};
    assert |rest| >= 1 && |rest + {s}| == |rest| + 1;
  }

  lemma {:induction false} CharacterItem(d: Buffer, i: nat, live: seq<Tag>, c: char)
    requires Portable(d) && i < |d| && Ready(d, i, live) && !ImageAhead(d, i)
    requires d[i].glyph == Chr(c) && c != '\n'
    ensures ItemTaken(d, i, live, ItemEmission(d, i, live).events, ItemEmission(d, i, live).live)
  {
    var n := Popped(live, d[i].tags);
    var kept := live[n..];
    var added := Added(kept, TagsInOrder(d[i].tags));
    assert LaidAt(d, i);
    SomeClosed(d, i, live);
    CharacterEmission(d, i, live, c, kept, added);
    if StartOfLine(d, i) && Titled(d[i]) {
      TitleOpens(d, i, live, kept, added);
    } else {
      CharacterOpens(d, i, live, kept, added);
      TakesOpens(At(d, i, kept), added);
    }
    ReadyAfter(d, i, live, kept, added);
    CharacterPut(d, i, added + kept, c);
    var before, after := At(d, i, live), At(d, i + 1, added + kept);
    TakesConcat(At(d, i, kept), OpenMarks(added), At(d, i, added + kept), [Put(c)], after);
    TakesConcat(before, CloseMarks(live[..n]), At(d, i, kept), OpenMarks(added) + [Put(c)], after);
  }

  // ----- newlines -----

  /** Everything is closed, then comes the newline. */
  lemma {:induction false} LineClosed(d: Buffer, i: nat, live: seq<Tag>)
    requires Portable(d) && i < |d| && Ready(d, i, live) && Newline(d[i])
    ensures Takes(At(d, i, live), CloseMarks(live) + [Put('\n')], START) && At(d, i + 1, []) == START
  {
    var closed := At(d, i, live).(open := [], ended := live != [] && TitleTag(live[|live|-1]));
    AllClosed(d, i, live);
    TakesOne(closed, Put('\n'));
    TakesConcat(At(d, i, live), CloseMarks(live), closed, [Put('\n')], START);
  }

  lemma {:induction false} RawNewlineItem(d: Buffer, i: nat, live: seq<Tag>)
    requires Portable(d) && i < |d| && Ready(d, i, live) && Newline(d[i]) && ImageAhead(d, i)
    ensures ItemTaken(d, i, live, ItemEmission(d, i, live).events, ItemEmission(d, i, live).live)
  {
    LaidAhead(d, i);
    RawEmission(d, i, live, Put('\n'));
    assert live[..Popped(live, d[i].tags)] == live;
    LineClosed(d, i, live);
  }

  /** What is open at a newline is opened again after it. */
  lemma {:induction false} LineReopens(d: Buffer, i: nat, live: seq<Tag>, kept: seq<Tag>)
    requires Portable(d) && i < |d| && Ready(d, i, live) && Newline(d[i]) && !Titled(d[i])
    requires kept == live[Popped(live, d[i].tags)..]
    ensures OpenTagsOk(kept, d[i].tags) && Ready(d, i + 1, kept)
  {
    KeptOk(d, i, live);
    if Verbatim in kept {
      VerbatimComplete(d, i, live);
      assert live[0..] == live;
    }
    NewlineTags(d, i);
    assert forall k :: 0 <= k < |kept| ==> kept[k] in kept;
  }

  lemma {:induction false} NewlineTags(d: Buffer, i: nat)
    requires Portable(d) && i < |d| && Newline(d[i]) && !Titled(d[i])
    ensures forall t :: t in d[i].tags ==> t in {Italic, Bold, Mono, Underline, Verbatim}
    ensures Verbatim in d[i].tags ==> d[i].tags <= {Italic, Bold, Mono, Verbatim}
    ensures !ListTagged(d[i].tags)
  {
    assert PortableAt(d, i);
    assert LaidAt(d, i);
  }

  lemma {:induction false} KeptMayOpen(d: Buffer, i: nat, kept: seq<Tag>)
    requires Portable(d) && i < |d| && Newline(d[i]) && !Titled(d[i])
    requires OpenTagsOk(kept, d[i].tags) && Ready(d, i + 1, kept)
    ensures MayOpen(START, kept)
  {
    NewlineTags(d, i);
    assert forall k :: 0 <= k < |kept| ==> kept[k] in kept;
    assert forall k :: 1 <= k < |kept| ==> kept[k] == kept[1..][k-1];
  }

  /** At the end of a run the tags missing on a newline are opened on the next line. */
  lemma {:induction false} LineOpens(d: Buffer, i: nat, live: seq<Tag>, kept: seq<Tag>, added: seq<Tag>)
    requires Portable(d) && i < |d| && Ready(d, i, live) && Newline(d[i]) && !Titled(d[i])
    requires kept == live[Popped(live, d[i].tags)..] && added == Added(kept, TagsInOrder(d[i].tags))
    ensures Takes(START.(open := kept), OpenMarks(added), START.(open := added + kept))
    ensures Ready(d, i + 1, added + kept)
  {
    NewlineTags(d, i);
    LineReopens(d, i, live, kept);
    NewlineComplete(d, i, live, kept);
    MissingOpen(START.(open := kept), kept, d[i].tags, added);
    TakesOpens(START.(open := kept), added);
    NewlineReady(d, i, kept, added);
  }

  /** A verbatim tag that stays open at a newline leaves nothing missing. */
  lemma {:induction false} NewlineComplete(d: Buffer, i: nat, live: seq<Tag>, kept: seq<Tag>)
    requires Portable(d) && i < |d| && Ready(d, i, live) && Newline(d[i])
    requires kept == live[Popped(live, d[i].tags)..] && OpenTagsOk(kept, d[i].tags)
    ensures Verbatim in kept ==> TagSet(kept) == d[i].tags
  {
    if Verbatim in kept {
      VerbatimComplete(d, i, live);
      assert live[0..] == live;
    }
  }

  lemma {:induction false} NewlineReady(d: Buffer, i: nat, kept: seq<Tag>, added: seq<Tag>)
    requires Portable(d) && i < |d| && Newline(d[i]) && !Titled(d[i]) && OpenTagsOk(kept, d[i].tags)
    requires Ready(d, i + 1, kept) && (Verbatim in kept ==> TagSet(kept) == d[i].tags)
    requires added == Added(kept, TagsInOrder(d[i].tags))
    ensures Ready(d, i + 1, added + kept)
  {
    var live' := added + kept;
    NewlineTags(d, i);
    AddedOk(kept, d[i].tags);
    MissingFacts(kept, d[i].tags);
    VerbatimLast(added, d[i].tags);
    if Verbatim in kept {
      AllAdded(kept, d[i].tags);
    }
    assert Verbatim in live' ==> live'[0] == Verbatim;
    assert forall k :: 0 <= k < |live'| ==> live'[k] in live';
  }

  lemma {:induction false} NewlineItem(d: Buffer, i: nat, live: seq<Tag>)
    requires Portable(d) && i < |d| && Ready(d, i, live) && Newline(d[i]) && !Titled(d[i]) && !ImageAhead(d, i)
    ensures ItemTaken(d, i, live, ItemEmission(d, i, live).events, ItemEmission(d, i, live).live)
  {
    var n := Popped(live, d[i].tags);
    var kept := live[n..];
    var added := Added(kept, TagsInOrder(d[i].tags));
    var before := At(d, i, live);
    LineClosed(d, i, live);
    ClosesConcat(live[..n], kept);
    assert live[..n] + kept == live;
    NewlineTags(d, i);
    LineReopens(d, i, live, kept);
    KeptMayOpen(d, i, kept);
    TakesOpens(START, kept);
    assert kept + [] == kept;
    TakesConcat(before, CloseMarks(live) + [Put('\n')], START, OpenMarks(kept), START.(open := kept));
    LineEmission(d, i, live, kept, added);
    if RunEnds(d, i) {
      LineOpens(d, i, live, kept, added);
      TakesConcat(before, CloseMarks(live) + [Put('\n')] + OpenMarks(kept), START.(open := kept),
                  OpenMarks(added), START.(open := added + kept));
    }
  }

  /** A newline inside a title: the title is closed and opened again. */
  lemma {:induction false} TitleNewlineItem(d: Buffer, i: nat, live: seq<Tag>)
    requires Portable(d) && i < |d| && Ready(d, i, live) && Newline(d[i]) && Titled(d[i]) && !ImageAhead(d, i)
    ensures ItemTaken(d, i, live, ItemEmission(d, i, live).events, ItemEmission(d, i, live).live)
  {
    var t := if Title1 in d[i].tags then Title1 else Title2;
    var kept := live[Popped(live, d[i].tags)..];
    var added := Added(kept, TagsInOrder(d[i].tags));
    TitleNewlineTags(d, i, t);
    KeptOk(d, i, live);
    OneAtMost(kept, t);
    LineClosed(d, i, live);
    TitleLineTaken(At(d, i, live), CloseMarks(live) + [Put('\n')], kept, added, t);
    LineEmission(d, i, live, kept, added);
    TitleReady(d, i, t, kept);
    TitleReady(d, i, t, added + kept);
  }

  lemma {:induction false} TitleNewlineTags(d: Buffer, i: nat, t: Tag)
    requires Portable(d) && i < |d| && Newline(d[i]) && Titled(d[i]) && t == if Title1 in d[i].tags then Title1 else Title2
    ensures d[i].tags == {t} && !ListTagged(d[i].tags)
  {
    assert PortableAt(d, i) && LaidAt(d, i);
  }

  lemma {:induction false} TitleReady(d: Buffer, i: nat, t: Tag, open: seq<Tag>)
    requires i < |d| && Newline(d[i]) && d[i].tags == {t} && TitleTag(t) && (open == [] || open == [t])
    ensures Ready(d, i + 1, open) && At(d, i + 1, open) == START.(open := open)
  {
    assert open != [] ==> open[1..] == [];
  }

  lemma {:induction false} TitleLineTaken(r: Reader, line: Stream, kept: seq<Tag>, added: seq<Tag>, t: Tag)
    requires Takes(r, line, START)
    requires (kept == [] || kept == [t]) && added == Added(kept, TagsInOrder({t})) && TitleTag(t)
    ensures Takes(r, line + OpenMarks(kept), START.(open := kept))
    ensures Takes(r, line + OpenMarks(kept) + OpenMarks(added), START.(open := [t])) && added + kept == [t]
  {
    TitleReopens(kept, added, t);
    TakesConcat(r, line, START, OpenMarks(kept), START.(open := kept));
    TakesConcat(r, line + OpenMarks(kept), START.(open := kept), OpenMarks(added), START.(open := [t]));
  }

  lemma {:induction false} TitleReopens(kept: seq<Tag>, added: seq<Tag>, t: Tag)
    requires (kept == [] || kept == [t]) && added == Added(kept, TagsInOrder({t})) && TitleTag(t)
    ensures Takes(START, OpenMarks(kept), START.(open := kept))
    ensures Takes(START.(open := kept), OpenMarks(added), START.(open := [t])) && added + kept == [t]
  {
    TakesNothing(START);
    TakesOne(START, Open(t));
    assert OpenMarks([t]) == [Open(t)];
    if kept == [] {
      AddedOk(kept, {t});
      OneTag(added, t);
    } else {
      AllAdded(kept, {t});
      TakesNothing(START.(open := kept));
    }
  }

  lemma {:induction false} LineEmission(d: Buffer, i: nat, live: seq<Tag>, kept: seq<Tag>, added: seq<Tag>)
    requires i < |d| && Newline(d[i]) && !ImageAhead(d, i) && !ListTagged(d[i].tags)
    requires kept == live[Popped(live, d[i].tags)..] && added == Added(kept, TagsInOrder(d[i].tags))
    ensures var line := CloseMarks(live) + [Put('\n')] + OpenMarks(kept);
            ItemEmission(d, i, live)
            == if RunEnds(d, i) then Emission(line + OpenMarks(added), added + kept) else Emission(line, kept)
  {
    var n := Popped(live, d[i].tags);
    ClosesConcat(live[..n], kept);
    assert live[..n] + kept == live;
  }

  // ----- documents -----

  lemma {:induction false} AnyItem(d: Buffer, i: nat, live: seq<Tag>)
    requires Portable(d) && i < |d| && Ready(d, i, live)
    ensures ItemTaken(d, i, live, ItemEmission(d, i, live).events, ItemEmission(d, i, live).live)
  {
    assert LaidAt(d, i);
    match d[i].glyph
    case Bullet(nested) => BulletItem(d, i, live, ListTag(nested));
    case Picture(p) => RawItem(d, i, live, Image(p));
    case Chr(c) =>
      if ImageAhead(d, i) {
        LaidAhead(d, i);
        if c == '\n' { RawNewlineItem(d, i, live); } else { RawItem(d, i, live, Put(c)); }
      } else if c == '\n' {
        if Titled(d[i]) { TitleNewlineItem(d, i, live); } else { NewlineItem(d, i, live); }
      } else {
        CharacterItem(d, i, live, c);
      }
  }

  lemma {:induction false} ReadableFrom(d: Buffer, i: nat, live: seq<Tag>)
    requires Portable(d) && i <= |d| && Ready(d, i, live)
    ensures Readable(At(d, i, live), StreamFrom(d, i, live))
    decreases |d| - i
  {
    if i == |d| {
      AllClosed(d, i, live);
      assert CloseMarks(live) + [] == CloseMarks(live);
      ReadableConcat(At(d, i, live), CloseMarks(live), []);
    } else {
      var e := ItemEmission(d, i, live);
      AnyItem(d, i, live);
      ReadableFrom(d, i + 1, e.live);
      ReadableConcat(At(d, i, live), e.events, StreamFrom(d, i + 1, e.live));
    }
  }

  /** The marks written for a portable document are all recognised. */
  lemma {:induction false} PortableReadable(d: Buffer)
    requires Portable(d)
    ensures Readable(START, Written(d))
  {
    ReadableFrom(d, 0, []);
  }

  /** The codec gives back the pictures of the document. */
  predicate PicturesFaithful(codec: Codec, d: Buffer) {
    forall i :: 0 <= i < |d| && d[i].glyph.Picture? ==> ReadBack.Faithful(codec, d[i].glyph.pixbuf)
  }

  lemma {:induction false} ImagesVisible(es: Stream, p: int)
    requires Image(p) in es
    ensures Image(p) in Unmarked(es)
  {
    if es[0] != Image(p) {
      ImagesVisible(es[1..], p);
    }
  }

  lemma {:induction false} ImagesFrom(d: Buffer, i: nat, p: int) returns (j: nat)
    requires i <= |d| && Image(p) in Visible(d, i)
    ensures j < |d| && d[j].glyph == Picture(p)
    decreases |d| - i
  {
    if Image(p) in VisibleItem(d, i) {
      j := i;
    } else {
      j := ImagesFrom(d, i + 1, p);
    }
  }

  lemma {:induction false} WrittenFaithful(codec: Codec, d: Buffer)
    requires PicturesFaithful(codec, d)
    ensures ReadBack.AllFaithful(codec, Written(d))
  {
    MarksNest(d);
    forall p | Image(p) in Written(d) ensures ReadBack.Faithful(codec, p) {
      ImagesVisible(Written(d), p);
      var j := ImagesFrom(d, 0, p);
    }
  }

  /** Parsing what is written for a portable document gives back the document: its characters,
      bullets and pictures, each with its tags, but for the tags of newlines.  So it comes back exactly
      when the serializer comes to its end on it. */
  lemma {:induction false} RoundTrip(codec: Codec, d: Buffer)
    requires Portable(d) && PicturesFaithful(codec, d)
    ensures Parsed(codec, Plain(Serialized(codec, d))) == Normal(d)
    ensures SerializeLoops.ComesBack(codec, d) <==> SerializeText.NoBareObject(d)
  {
    SerializeLoops.ComesBackExactly(codec, d);
    PortableReadable(d);
    WrittenFaithful(codec, d);
    ReadBack.ParsedReadable(codec, Written(d));
    WrittenMeansDocument(d);
  }
}
