/** Streams that can be read back from their text: at each event the parser must see the mark for
    what it is, whatever has been read before on the line. */
module Reading {
  import opened RichText
  import opened Streams

  /** What the current line holds so far: nothing, spaces only, or more. */
  datatype Ink = Bare | Blank | Inked

  /** `list`: the line is a list item.  `colon`: the last character read is a colon.  `ended`: a
      title has been closed, so the line has to end. */
  datatype Reader = Reader(open: seq<Tag>, list: bool, ink: Ink, colon: bool, ended: bool)

  const START := Reader([], false, Bare, false, false)

  /** Characters that never take part in a token. */
  predicate PlainChar(c: char) {
    c !in {'*', '/', '_', '-', '`', '"', '=', '['} && !LineBreak(Chr(c))
  }

  /** The characters GTK starts a new line after. */
  predicate BreakChar(c: char) {
    LineBreak(Chr(c))
  }

  /** Characters that may stand in a verbatim text. */
  predicate VerbatimChar(c: char) {
    c != '"' && !LineBreak(Chr(c))
  }

  predicate TitleTag(t: Tag) {
    t == Title1 || t == Title2
  }

  predicate ListMark(t: Tag) {
    t == List1 || t == List2
  }

  predicate HasTitle(open: seq<Tag>) {
    Title1 in open || Title2 in open
  }

  predicate InVerbatim(open: seq<Tag>) {
    open != [] && open[0] == Verbatim
  }

  predicate InListMark(open: seq<Tag>) {
    open != [] && ListMark(open[0])
  }

  /** A line break comes with nothing open, or, but for a newline, inside a verbatim text that nothing
      else is around of. */
  predicate AcceptsCharacter(r: Reader, c: char) {
    if c == '\n' then r.open == []
    else if BreakChar(c) then !r.ended && (r.open == [] || (r.open == [Verbatim] && !r.list))
    else !r.ended && !InListMark(r.open) && (if InVerbatim(r.open) then VerbatimChar(c) else PlainChar(c))
  }

  /** An italic mark is not seen after a colon, nor a strike mark at the start of a line; titles
      and list items start a line; nothing is seen inside a verbatim text. */
  predicate AcceptsOpening(r: Reader, t: Tag) {
    && !r.ended && t !in r.open && !InVerbatim(r.open) && !InListMark(r.open)
    && (t == Italic ==> !r.colon)
    && (t == Strike ==> r.open != [] || r.list || r.ink == Inked)
    && (t == Verbatim ==> !HasTitle(r.open))
    && (TitleTag(t) ==> r.open == [] && !r.list && r.ink != Inked)
    && (ListMark(t) ==> r.open == [] && !r.list && r.ink == Bare)
  }

  predicate Accepts(r: Reader, e: Event) {
    match e
    case Put(c) => AcceptsCharacter(r, c)
    case Image(_) => !r.ended && r.open == []
    case Open(t) => AcceptsOpening(r, t)
    case Close(t) => r.open != [] && r.open[0] == t && (t == Italic ==> !r.colon)
  }

  function Feed(r: Reader, e: Event): Reader {
    match e
    case Put(c) =>
      if c == '\n' then START
      else if BreakChar(c) then (if r.open == [] then START else r.(ink := Blank, colon := false))
      else r.(ink := if IsSpace(c) && r.ink != Inked then Blank else Inked, colon := c == ':')
    case Image(_) => r.(ink := Inked, colon := false)
    case Open(t) =>
      if ListMark(t) then Reader([t], true, Inked, false, false) else r.(open := [t] + r.open)
    case Close(t) => r.(open := if r.open == [] then [] else r.open[1..], ended := TitleTag(t))
  }

  /** Every event of the stream is accepted in turn, and nothing is left open. */
  predicate Readable(r: Reader, es: Stream)
    decreases |es|
  {
    if es == [] then r.open == []
    else Accepts(r, es[0]) && (r.ended ==> es[0] == Put('\n')) && Readable(Feed(r, es[0]), es[1..])
  }

  function FeedAll(r: Reader, es: Stream): Reader
    decreases |es|
  {
    if es == [] then r else FeedAll(Feed(r, es[0]), es[1..])
  }

  /** Like Readable, but something may be left open for what follows. */
  predicate ReadableSoFar(r: Reader, es: Stream)
    decreases |es|
  {
    es == [] ||
    (Accepts(r, es[0]) && (r.ended ==> es[0] == Put('\n')) && ReadableSoFar(Feed(r, es[0]), es[1..]))
  }

  lemma {:induction false} ReadableConcat(r: Reader, es: Stream, fs: Stream)
    requires ReadableSoFar(r, es) && Readable(FeedAll(r, es), fs)
    ensures Readable(r, es + fs)
    decreases |es|
  {
    if es == [] {
      assert es + fs == fs;
    } else {
      assert (es + fs)[1..] == es[1..] + fs;
      ReadableConcat(Feed(r, es[0]), es[1..], fs);
    }
  }

  lemma {:induction false} SoFarConcat(r: Reader, es: Stream, fs: Stream)
    requires ReadableSoFar(r, es) && ReadableSoFar(FeedAll(r, es), fs)
    ensures ReadableSoFar(r, es + fs)
    ensures FeedAll(r, es + fs) == FeedAll(FeedAll(r, es), fs)
    decreases |es|
  {
    if es == [] {
      assert es + fs == fs;
    } else {
      assert (es + fs)[1..] == es[1..] + fs;
      SoFarConcat(Feed(r, es[0]), es[1..], fs);
    }
  }
}
