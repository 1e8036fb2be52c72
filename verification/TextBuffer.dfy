/** The mutable text buffer: its items and the marks that follow them as they move. */
module TextBuffers {
  import opened RichText

  /** Where a mark at `p` goes when the items `lo..hi` are deleted. */
  function AfterDelete(p: nat, lo: nat, hi: nat): nat
    requires lo <= hi
  {
    if p <= lo then p else if p >= hi then p - (hi - lo) else lo
  }

  /** Where a mark at `p` goes when one item is inserted at `at`: all the marks of the editor
      have left gravity. */
  function AfterInsert(p: nat, at: nat): nat {
    if p <= at then p else p + 1
  }

  function Tagged(b: Buffer, t: Tag, lo: nat, hi: nat): (r: Buffer)
    requires lo <= hi <= |b|
    ensures SameGlyphs(r, b)
  {
    b[..lo] + AddTag(b[lo..hi], t) + b[hi..]
  }

  function Untagged(b: Buffer, t: Tag, lo: nat, hi: nat): (r: Buffer)
    requires lo <= hi <= |b|
    ensures SameGlyphs(r, b)
  {
    seq(|b|, i requires 0 <= i < |b| => if lo <= i < hi then b[i].(tags := b[i].tags - {t}) else b[i])
  }

  /** The start of the line `i` is on. */
  function LineStart(b: Buffer, i: nat): (r: nat)
    requires i <= |b|
    ensures r <= i && StartsLine(b, r)
    ensures forall k :: r < k <= i ==> !StartsLine(b, k)
  {
    if StartsLine(b, i) then i else LineStart(b, i - 1)
  }

  class TextBuffer {
    var items: Buffer
    var marks: map<nat, nat>
    var nextMark: nat

    predicate Valid()
      reads this
    {
      && (forall m :: m in marks ==> m < nextMark)
      && (forall m :: m in marks ==> marks[m] <= |items|)
    }

    constructor (text: Buffer)
      ensures Valid() && items == text && marks == map[]
    {
      items, marks, nextMark := text, map[], 0;
    }

    method CreateMark(at: nat) returns (m: nat)
      requires Valid() && at <= |items|
      modifies this`marks, this`nextMark
      ensures Valid() && m !in old(marks) && marks == old(marks)[m := at]
    {
      m := nextMark;
      marks, nextMark := marks[m := at], nextMark + 1;
    }

    method DeleteMark(m: nat)
      requires Valid() && m in marks
      modifies this`marks
      ensures Valid() && marks == old(marks) - {m}
    {
      marks := marks - {m};
    }

    method ApplyTag(t: Tag, lo: nat, hi: nat)
      requires Valid() && lo <= hi <= |items|
      modifies this`items
      ensures Valid() && items == Tagged(old(items), t, lo, hi)
    {
      items := Tagged(items, t, lo, hi);
    }

    method RemoveTag(t: Tag, lo: nat, hi: nat)
      requires Valid() && lo <= hi <= |items|
      modifies this`items
      ensures Valid() && items == Untagged(old(items), t, lo, hi)
    {
      items := Untagged(items, t, lo, hi);
    }

    method Delete(lo: nat, hi: nat)
      requires Valid() && lo <= hi <= |items|
      modifies this`items, this`marks
      ensures Valid() && items == old(items)[..lo] + old(items)[hi..]
      ensures marks.Keys == old(marks).Keys
      ensures forall m :: m in marks ==> marks[m] == AfterDelete(old(marks)[m], lo, hi)
    {
      items := items[..lo] + items[hi..];
      marks := map m | m in marks :: AfterDelete(marks[m], lo, hi);
    }

    /** gtk_text_buffer_set_text: the old text goes, the new one comes without tags. */
    method SetText(text: string)
      requires Valid()
      modifies this`items, this`marks
      ensures Valid() && items == Plain(text) && marks.Keys == old(marks).Keys
    {
      items := Plain(text);
      marks := map m | m in marks :: 0;
    }

    /** Images take the tags that cover both neighbours. */
    method InsertImage(at: nat, glyph: Glyph)
      requires Valid() && at <= |items|
      modifies this`items, this`marks
      ensures Valid()
      ensures var tags := if 0 < at < |old(items)| then old(items)[at-1].tags * old(items)[at].tags else {};
              items == old(items)[..at] + [Item(glyph, tags)] + old(items)[at..]
      ensures marks.Keys == old(marks).Keys
      ensures forall m :: m in marks ==> marks[m] == AfterInsert(old(marks)[m], at)
    {
      var tags := if 0 < at < |items| then items[at-1].tags * items[at].tags else {};
      items := items[..at] + [Item(glyph, tags)] + items[at..];
      marks := map m | m in marks :: AfterInsert(marks[m], at);
    }
  }
}
