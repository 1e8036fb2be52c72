/** Three families of documents, and when they survive being written and parsed again. */
module Families {
  import opened RichText
  import opened Parser
  import opened Serializer
  import opened Reading
  import opened PortableDocs
  import opened SerializeText
  import opened SerializeLoops
  import ExactRoundTrip
  import SeenItems
  import RoundTrip

  const FACES: set<Tag> := {Italic, Bold, Mono, Underline}

  predicate Word(it: Item) {
    it.glyph.Chr? && PlainChar(it.glyph.c) && it.glyph.c != ':'
  }

  // ----- faces -----

  /** Any characters that are neither colons nor delimiters, each with any set of faces. */
  predicate FacedText(d: Buffer) {
    forall i :: 0 <= i < |d| ==> (Word(d[i]) || LineBreak(d[i].glyph)) && d[i].tags <= FACES
  }

  /** Carriage returns and paragraph separators carry no tag. */
  predicate BareBreaks(d: Buffer) {
    forall i :: 0 <= i < |d| && LineBreak(d[i].glyph) && !Newline(d[i]) ==> d[i].tags == {}
  }

  /** Faced text comes back exactly when its only tagged line breaks are newlines and it holds no bare
      U+FFFC. */
  lemma {:induction false} FacesRoundTrip(codec: Codec, d: Buffer)
    requires FacedText(d)
    ensures ComesBack(codec, d) <==> BareBreaks(d) && NoBareObject(d)
  {
    ComesBackExactly(codec, d);
    if BareBreaks(d) {
      forall i | 0 <= i < |d| ensures PortableAt(d, i) && LaidAt(d, i) {
        FacedPortable(d, i);
      }
      RoundTrip.RoundTrip(codec, d);
    } else {
      assert forall i :: 0 <= i < |d| ==> ExactRoundTrip.StyledItem(d[i]);
      var i :| 0 <= i < |d| && LineBreak(d[i].glyph) && !Newline(d[i]) && d[i].tags != {};
      SeenItems.TaggedBreakLost(codec, d, i);
    }
  }

  lemma {:induction false} FacedPortable(d: Buffer, i: nat)
    requires FacedText(d) && BareBreaks(d) && i < |d|
    ensures PortableAt(d, i) && LaidAt(d, i)
  {
    assert i > 0 ==> d[i-1].tags <= FACES;
  }

  // ----- lists and titles -----

  /** Lines of faced text, list items and titles; a title takes up its line. */
  predicate Lined(d: Buffer) {
    forall i :: 0 <= i < |d| ==> LinedAt(d, i)
  }

  predicate LinedAt(d: Buffer, i: nat)
    requires i < |d|
  {
    if Newline(d[i]) then d[i].tags == {}
    else if d[i].glyph.Bullet? then
      StartOfLine(d, i) && d[i].tags == {ListTag(d[i].glyph.nested)} && (i + 1 < |d| ==> !d[i+1].glyph.Bullet?)
    else
      && Word(d[i])
      && (d[i].tags <= FACES || d[i].tags == {Title1} || d[i].tags == {Title2})
      && (StartOfLine(d, i) || (Titled(d[i]) || Titled(d[i-1]) ==> d[i].tags == d[i-1].tags))
  }

  /** Such lines come back as they were, tags of newlines included, exactly when the serializer comes to
      its end on them. */
  lemma {:induction false} LinesRoundTrip(codec: Codec, d: Buffer)
    requires Lined(d)
    ensures Normal(d) == d && (ComesBack(codec, d) <==> NoBareObject(d))
  {
    forall i | 0 <= i < |d| ensures PortableAt(d, i) && LaidAt(d, i) {
      LinedPortable(d, i);
    }
    LinedNormal(codec, d);
    RoundTrip.RoundTrip(codec, d);
  }

  lemma {:induction false} LinedNormal(codec: Codec, d: Buffer)
    requires Lined(d)
    ensures Normal(d) == d && RoundTrip.PicturesFaithful(codec, d)
  {
    forall i | 0 <= i < |d| ensures Normal(d)[i] == d[i] && !d[i].glyph.Picture? {
      assert LinedAt(d, i);
    }
  }

  lemma {:induction false} LinedPortable(d: Buffer, i: nat)
    requires Lined(d) && i < |d|
    ensures PortableAt(d, i) && LaidAt(d, i)
  {
    assert LinedAt(d, i) && (i > 0 ==> LinedAt(d, i - 1)) && (i + 1 < |d| ==> LinedAt(d, i + 1));
    assert Titled(d[i]) ==> |d[i].tags| == 1;
  }

  // ----- verbatim text -----

  /** Plain text, and verbatim text that holds any characters but quotes. */
  predicate Quoted(d: Buffer) {
    forall i :: 0 <= i < |d| ==> QuotedItem(d[i])
  }

  predicate QuotedItem(it: Item) {
    it.glyph.Chr?
    && if it.tags == {Verbatim} then it.glyph.c != '"'
       else it.tags == {} && (PlainChar(it.glyph.c) || BreakChar(it.glyph.c))
  }

  lemma {:induction false} NoListSeen(d: Buffer, i: nat)
    requires Quoted(d) && i <= |d|
    ensures !SeenAt(d, i).list
  {
    if i > 0 {
      assert QuotedItem(d[i-1]);
      NoListSeen(d, i - 1);
    }
  }

  lemma {:induction false} QuotedPortable(d: Buffer, i: nat)
    requires Quoted(d) && i < |d|
    ensures PortableAt(d, i) && LaidAt(d, i)
  {
    NoListSeen(d, i);
    assert QuotedItem(d[i]);
    assert i > 0 ==> QuotedItem(d[i-1]);
    assert i + 1 < |d| ==> QuotedItem(d[i+1]);
  }

  /** Whatever marks the verbatim text holds, it comes back as it was, if only the serializer comes to
      its end. */
  lemma {:induction false} VerbatimRoundTrip(codec: Codec, d: Buffer)
    requires Quoted(d)
    ensures ComesBack(codec, d) <==> NoBareObject(d)
  {
    forall i | 0 <= i < |d| ensures PortableAt(d, i) && LaidAt(d, i) {
      QuotedPortable(d, i);
    }
    assert forall i :: 0 <= i < |d| ==> QuotedItem(d[i]);
    RoundTrip.RoundTrip(codec, d);
  }
}
