/** The text buffer of the rich-text editor, seen as a value: a sequence of items, each a
    character or an embedded picture, with the set of formatting tags that cover it. */
module RichText {

  datatype Option<+T> = None | Some(value: T)

  /** The editor's tags, in creation order.  GTK returns the tags of a position in that order. */
  datatype Tag =
    | List1 | List2 | Italic | Bold | Mono | Verbatim | Underline | Strike | Title1 | Title2

  /** `Bullet` stands for one of the two shared bullet images, `Picture` for any other image. */
  datatype Glyph = Chr(c: char) | Bullet(nested: bool) | Picture(pixbuf: int)

  datatype Item = Item(glyph: Glyph, tags: set<Tag>)

  type Buffer = seq<Item>

  const PARAGRAPH_SEPARATOR := '\U{2029}'
  const OBJECT_REPLACEMENT := '\U{FFFC}'
  const OTHER := '\U{0001}'
  const NUL := '\0'

  /** What get_char_at_iter reports: NUL at the end of the text, OTHER for an image or for a
      character that needs more than one byte. */
  function CharAt(b: Buffer, i: nat): char {
    if i >= |b| then NUL
    else if b[i].glyph.Chr? && NUL < b[i].glyph.c < '\U{0080}' then b[i].glyph.c
    else OTHER
  }

  predicate Is(b: Buffer, i: nat, c: char) {
    i < |b| && b[i].glyph == Chr(c)
  }

  predicate IsSpace(c: char) {
    || c in {' ', '\t', '\n', '\U{000C}', '\r', '\U{00A0}', '\U{1680}', '\U{2028}', '\U{2029}'}
    || '\U{2000}' <= c <= '\U{200A}'
    || c in {'\U{202F}', '\U{205F}', '\U{3000}'}
  }

  predicate SpaceItem(it: Item) {
    it.glyph.Chr? && IsSpace(it.glyph.c)
  }

  /** The characters GTK takes as line delimiters. */
  predicate LineBreak(g: Glyph) {
    g.Chr? && g.c in {'\n', '\r', PARAGRAPH_SEPARATOR}
  }

  /** A line starts after each delimiter; a carriage return and a newline form one delimiter. */
  predicate StartsLine(b: Buffer, i: nat)
    requires i <= |b|
  {
    || i == 0
    || (LineBreak(b[i-1].glyph) && !(b[i-1].glyph == Chr('\r') && Is(b, i, '\n')))
  }

  predicate EndsLine(b: Buffer, i: nat)
    requires i <= |b|
  {
    || i == |b|
    || (LineBreak(b[i].glyph) && !(Is(b, i, '\n') && i > 0 && Is(b, i - 1, '\r')))
  }

  /** The line number of position `i`. */
  function Line(b: Buffer, i: nat): (n: nat)
    requires i <= |b|
  {
    if i == 0 then 0 else Line(b, i - 1) + (if StartsLine(b, i) then 1 else 0)
  }

  /** The number of spaces before `i` on its line, or -1 when something else is there too. */
  function Indent(b: Buffer, i: nat): (n: int)
    requires i <= |b|
  {
    if StartsLine(b, i) then 0
    else if !SpaceItem(b[i-1]) then -1
    else if Indent(b, i - 1) < 0 then -1
    else Indent(b, i - 1) + 1
  }

  function AddTag(b: Buffer, t: Tag): (r: Buffer)
    ensures |r| == |b|
  {
    seq(|b|, i requires 0 <= i < |b| => b[i].(tags := b[i].tags + {t}))
  }

  function AddTags(b: Buffer, ts: set<Tag>): (r: Buffer)
    ensures |r| == |b|
  {
    seq(|b|, i requires 0 <= i < |b| => b[i].(tags := b[i].tags + ts))
  }

  /** Two buffers that differ at most in their tags. */
  predicate SameGlyphs(a: Buffer, b: Buffer) {
    |a| == |b| && forall i :: 0 <= i < |a| ==> a[i].glyph == b[i].glyph
  }

  /** A text as gtk_text_buffer_set_text puts it in an empty buffer: no tags. */
  function Plain(s: string): (b: Buffer)
    ensures |b| == |s|
  {
    seq(|s|, i requires 0 <= i < |s| => Item(Chr(s[i]), {}))
  }

  lemma {:induction false} PlainConcat(s: string, t: string)
    ensures Plain(s + t) == Plain(s) + Plain(t)
  {
  }

  /** The line structure before `i` depends only on the glyphs before `i` and the one at `i`. */
  lemma {:induction false} IndentFrame(a: Buffer, b: Buffer, i: nat)
    requires i <= |a| && i <= |b|
    requires forall k :: 0 <= k < i ==> a[k].glyph == b[k].glyph
    requires StartsLine(a, i) == StartsLine(b, i)
    ensures Indent(a, i) == Indent(b, i)
  {
    if !StartsLine(a, i) {
      assert a[i-1].glyph == b[i-1].glyph;
      if SpaceItem(a[i-1]) {
        if i >= 2 { assert a[i-2].glyph == b[i-2].glyph; }
        IndentFrame(a, b, i - 1);
      }
    }
  }

  lemma {:induction false} LineFrame(a: Buffer, b: Buffer, i: nat)
    requires i <= |a| && i <= |b|
    requires forall k :: 0 <= k < i ==> a[k].glyph == b[k].glyph
    requires StartsLine(a, i) == StartsLine(b, i)
    ensures Line(a, i) == Line(b, i)
  {
    if i > 0 {
      assert a[i-1].glyph == b[i-1].glyph;
      if i >= 2 { assert a[i-2].glyph == b[i-2].glyph; }
      LineFrame(a, b, i - 1);
    }
  }

  /** The indentation is a run of spaces from the start of the line. */
  lemma {:induction false} IndentMeaning(b: Buffer, i: nat)
    requires i <= |b| && Indent(b, i) >= 0
    ensures Indent(b, i) <= i && StartsLine(b, i - Indent(b, i))
    ensures forall k :: i - Indent(b, i) <= k < i ==> SpaceItem(b[k])
  {
    if !StartsLine(b, i) {
      IndentMeaning(b, i - 1);
    }
  }

  /** Two positions are on one line exactly when no line starts between them. */
  lemma {:induction false} SameLine(b: Buffer, i: nat, j: nat)
    requires i <= j <= |b|
    ensures Line(b, i) <= Line(b, j)
    ensures Line(b, i) == Line(b, j) <==> forall k :: i < k <= j ==> !StartsLine(b, k)
  {
    if i < j {
      SameLine(b, i, j - 1);
    }
  }
}
