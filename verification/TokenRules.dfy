/** What the tokenizer answers, said on the characters of the text. */
module TokenRules {
  import opened RichText
  import opened Tokens

  // ----- lines and indentation -----

  /** A line starts after a newline, a paragraph separator, or a carriage return that no newline
      follows. */
  predicate BeginsLine(b: Buffer, s: nat)
    requires s <= |b|
  {
    || s == 0
    || b[s-1].glyph == Chr('\n')
    || b[s-1].glyph == Chr('\U{2029}')
    || (b[s-1].glyph == Chr('\r') && !(s < |b| && b[s].glyph == Chr('\n')))
  }

  /** A line ends at the end of the text, and at a newline, a carriage return or a paragraph separator;
      at a carriage return and a newline it ends before both. */
  predicate FinishesLine(b: Buffer, i: nat)
    requires i <= |b|
  {
    || i == |b|
    || b[i].glyph == Chr('\r')
    || b[i].glyph == Chr('\U{2029}')
    || (b[i].glyph == Chr('\n') && !(i > 0 && b[i-1].glyph == Chr('\r')))
  }

  predicate WhiteSpace(g: Glyph) {
    && g.Chr?
    && (g.c in {' ', '\t', '\n', '\r', '\U{000C}', '\U{00A0}', '\U{1680}', '\U{2028}', '\U{2029}', '\U{202F}',
                '\U{205F}', '\U{3000}'}
        || g.c in {'\U{2000}', '\U{2001}', '\U{2002}', '\U{2003}', '\U{2004}', '\U{2005}', '\U{2006}', '\U{2007}',
                   '\U{2008}', '\U{2009}', '\U{200A}'})
  }

  /** From the start `s` of its line up to `i` there is only white space. */
  predicate Indented(b: Buffer, s: nat, i: nat) {
    && s <= i <= |b| && BeginsLine(b, s)
    && (forall k :: s <= k < i ==> WhiteSpace(b[k].glyph))
    && (forall k :: s < k <= i ==> !BeginsLine(b, k))
  }

  lemma {:induction false} LineRules(b: Buffer, i: nat)
    requires i <= |b|
    ensures StartsLine(b, i) <==> BeginsLine(b, i)
    ensures EndsLine(b, i) <==> FinishesLine(b, i)
  {
  }

  lemma {:induction false} BlankExactly(it: Item)
    ensures SpaceItem(it) <==> WhiteSpace(it.glyph)
  {
  }

  /** The answer of spaces_since_start_of_line is the number of white space characters from the start of
      the line, and -1 if and only if anything else is there. */
  lemma {:induction false} IndentExactly(b: Buffer, i: nat)
    requires i <= |b|
    ensures forall s :: Indented(b, s, i) ==> Indent(b, i) == i - s
    ensures Indent(b, i) >= 0 ==> Indent(b, i) <= i && Indented(b, i - Indent(b, i), i)
    ensures -1 <= Indent(b, i)
  {
    LineRules(b, i);
    if !StartsLine(b, i) {
      BlankExactly(b[i-1]);
      IndentExactly(b, i - 1);
      forall s | Indented(b, s, i) ensures Indent(b, i) == i - s {
        assert Indented(b, s, i - 1);
      }
    }
  }

  /** Only white space stands before `i` on its line. */
  ghost predicate AtLineStart(b: Buffer, i: nat) {
    exists s :: Indented(b, s, i)
  }

  lemma {:induction false} AtLineStartExactly(b: Buffer, i: nat)
    requires i <= |b|
    ensures AtLineStart(b, i) <==> Indent(b, i) >= 0
  {
    IndentExactly(b, i);
    if Indent(b, i) >= 0 {
      assert Indented(b, i - Indent(b, i), i);
    }
  }

  // ----- tokens -----

  /** The text holds `s` at `i`. */
  predicate Reads(b: Buffer, i: nat, s: string) {
    i + |s| <= |b| && forall k :: 0 <= k < |s| ==> b[i+k].glyph == Chr(s[k])
  }

  /** The delimiters that may stand anywhere. */
  function DelimiterText(m: Markup): string {
    match m
    case BoldMark => "**"
    case ItalicMark => "//"
    case UnderlineMark => "__"
    case StrikeMark => "--"
    case MonoMark => "``"
    case VerbatimMark => "\"\"\""
    case PictureStart => "[[["
    case _ => ""
  }

  /** Two slashes right after a colon are no delimiter. */
  predicate DelimiterStands(b: Buffer, j: nat, m: Markup) {
    && DelimiterText(m) != "" && Reads(b, j, DelimiterText(m))
    && (m == ItalicMark ==> !(j > 0 && b[j-1].glyph == Chr(':')))
  }

  /** At the start of a line one or two equals signs, or one hyphen, belong to the delimiter that follows
      them. */
  ghost predicate Lead(b: Buffer, i: nat, n: nat) {
    if AtLineStart(b, i) && Reads(b, i, "==") then n == 2
    else if AtLineStart(b, i) && (Reads(b, i, "=") || Reads(b, i, "-")) then n == 1
    else n == 0
  }

  predicate In(top: Option<Opening>, m: Markup) {
    top.Some? && top.value.markup == m
  }

  /** Neither in a picture nor in a verbatim text. */
  predicate Exposed(b: Buffer, top: Option<Opening>, i: nat) {
    i < |b| && !In(top, PictureStart) && !In(top, VerbatimMark) && Verbatim !in b[i].tags
  }

  /** The innermost markup was opened on the line of `i`. */
  predicate SameLineAs(b: Buffer, top: Option<Opening>, i: nat) {
    top.Some? && top.value.s <= i <= |b| && forall k :: top.value.s < k <= i ==> !BeginsLine(b, k)
  }

  lemma {:induction false} SameLineRule(b: Buffer, top: Option<Opening>, i: nat)
    requires i <= |b| && top.Some? && top.value.s <= i
    ensures SameLineAs(b, top, i) <==> Line(b, top.value.s) == Line(b, i)
  {
    forall k | 0 <= k <= |b| ensures StartsLine(b, k) <==> BeginsLine(b, k) {
      LineRules(b, k);
    }
    SameLine(b, top.value.s, i);
  }

  predicate EndsItem(b: Buffer, top: Option<Opening>, i: nat)
    requires i <= |b|
  {
    In(top, ListStart) && FinishesLine(b, i) && SameLineAs(b, top, i)
  }

  lemma {:induction false} ReadsCharacters(b: Buffer, i: nat, s: string)
    requires forall k :: 0 <= k < |s| ==> NUL < s[k] < '\U{0080}' && s[k] != OTHER
    requires 1 <= |s| <= 3
    ensures Reads(b, i, s) <==> forall k :: 0 <= k < |s| ==> CharAt(b, i + k) == s[k]
  {
    if forall k :: 0 <= k < |s| ==> CharAt(b, i + k) == s[k] {
      forall k | 0 <= k < |s| ensures i + k < |b| && b[i+k].glyph == Chr(s[k]) {
        assert CharAt(b, i + k) == s[k];
      }
      var last := |s| - 1;
      assert CharAt(b, i + last) == s[last];
    }
    if Reads(b, i, s) {
      forall k | 0 <= k < |s| ensures CharAt(b, i + k) == s[k] {
        assert b[i+k].glyph == Chr(s[k]);
      }
    }
  }

  lemma {:induction false} ReadsTwo(b: Buffer, i: nat, c: char, d: char)
    requires NUL < c < '\U{0080}' && c != OTHER && NUL < d < '\U{0080}' && d != OTHER
    ensures Reads(b, i, [c]) <==> CharAt(b, i) == c
    ensures Reads(b, i, [c, d]) <==> CharAt(b, i) == c && CharAt(b, i + 1) == d
  {
    ReadsCharacters(b, i, [c]);
    ReadsCharacters(b, i, [c, d]);
    var s := [c, d];
    assert s[0] == c && s[1] == d;
    assert [c][0] == c;
  }

  lemma {:induction false} ReadsThree(b: Buffer, i: nat, c: char, d: char, e: char)
    requires NUL < c < '\U{0080}' && c != OTHER && NUL < d < '\U{0080}' && d != OTHER
    requires NUL < e < '\U{0080}' && e != OTHER
    ensures Reads(b, i, [c, d, e]) <==> CharAt(b, i) == c && CharAt(b, i + 1) == d && CharAt(b, i + 2) == e
  {
    var s := [c, d, e];
    ReadsCharacters(b, i, s);
    assert s[0] == c && s[1] == d && s[2] == e;
  }

  /** Which delimiter is spelled at `j`. */
  lemma {:induction false} DelimiterRule(b: Buffer, j: nat, m: Markup)
    requires m != NoMark
    ensures DelimiterAt(b, j) == m <==> DelimiterStands(b, j, m)
    ensures DelimiterAt(b, j) == m ==> DelimiterLength(m) == |DelimiterText(m)|
  {
    ReadsTwo(b, j, '*', '*');
    ReadsTwo(b, j, '/', '/');
    ReadsTwo(b, j, '_', '_');
    ReadsTwo(b, j, '-', '-');
    ReadsTwo(b, j, '`', '`');
    ReadsThree(b, j, '"', '"', '"');
    ReadsThree(b, j, '[', '[', '[');
    assert "**" == ['*', '*'] && "//" == ['/', '/'] && "__" == ['_', '_'] && "--" == ['-', '-'] && "``" == ['`', '`'];
    assert "\"\"\"" == ['"', '"', '"'] && "[[[" == ['[', '[', '['];
  }

  lemma {:induction false} LeadRule(b: Buffer, i: nat)
    requires i <= |b|
    ensures Lead(b, i, Swallowed(b, i))
    ensures forall n :: Lead(b, i, n) ==> n == Swallowed(b, i)
  {
    AtLineStartExactly(b, i);
    ReadsTwo(b, i, '=', '=');
    ReadsTwo(b, i, '-', '-');
    assert "=" == ['='] && "==" == ['=', '='] && "-" == ['-'];
  }

  /** The marks that stand at the start of a line only, and end with a space. */
  ghost predicate LineMark(b: Buffer, i: nat, t: Token) {
    && AtLineStart(b, i)
    && ((t == Token(Title1Start, i + 2) && Reads(b, i, "= "))
        || (t == Token(Title2Start, i + 3) && Reads(b, i, "== "))
        || (t == Token(ListStart, i + 2) && Reads(b, i, "- ")))
  }

  lemma {:induction false} LineMarkRule(b: Buffer, i: nat, t: Token)
    requires i <= |b| && t.markup != NoMark
    ensures LineTokenAt(b, i) == t <==> LineMark(b, i, t)
  {
    AtLineStartExactly(b, i);
    ReadsTwo(b, i, '=', ' ');
    ReadsThree(b, i, '=', '=', ' ');
    ReadsTwo(b, i, '-', ' ');
    assert "= " == ['=', ' '] && "== " == ['=', '=', ' '] && "- " == ['-', ' '];
  }

  ghost predicate SomeLineMark(b: Buffer, i: nat) {
    AtLineStart(b, i) && (Reads(b, i, "= ") || Reads(b, i, "== ") || Reads(b, i, "- "))
  }

  lemma {:induction false} SomeLineMarkRule(b: Buffer, i: nat)
    requires i <= |b|
    ensures SomeLineMark(b, i) <==> LineTokenAt(b, i).markup != NoMark
    ensures SomeLineMark(b, i) ==> LineMark(b, i, LineTokenAt(b, i))
    ensures SomeLineMark(b, i) ==> forall n :: Lead(b, i, n) ==> DelimiterAt(b, i + n) == NoMark
  {
    var t := LineTokenAt(b, i);
    AtLineStartExactly(b, i);
    LeadRule(b, i);
    ReadsTwo(b, i, '=', ' ');
    ReadsThree(b, i, '=', '=', ' ');
    ReadsTwo(b, i, '-', ' ');
    assert "= " == ['=', ' '] && "== " == ['=', '=', ' '] && "- " == ['-', ' '];
    if t.markup != NoMark {
      LineMarkRule(b, i, t);
    }
  }

  lemma {:induction false} EndsItemRule(b: Buffer, top: Option<Opening>, i: nat)
    requires i <= |b| && (top.Some? ==> top.value.s <= i)
    requires !In(top, PictureStart) && !In(top, VerbatimMark) && (i < |b| ==> Verbatim !in b[i].tags)
    ensures EndsItem(b, top, i) <==> TokenAt(b, top, i).markup == ListEnd
    ensures EndsItem(b, top, i) ==> TokenAt(b, top, i) == Token(ListEnd, i)
  {
    LineRules(b, i);
    if top.Some? {
      SameLineRule(b, top, i);
    }
    if i < |b| && !EndsItem(b, top, i) {
      PlainHasNoItemEnd(b, if top.Some? then top.value.markup else EndOfText, if top.Some? then Line(b, top.value.s) else 0,
                        i);
    }
  }

  lemma {:induction false} PlainHasNoItemEnd(b: Buffer, inside: Markup, line: nat, i: nat)
    requires i < |b|
    ensures PlainTokenAt(b, inside, line, i).markup !in {ListEnd, EndOfText, PictureEnd}
  {
  }

  /** Title and list marks: exactly "= ", "== " and "- " at the start of a line. */
  lemma {:induction false} LineMarksExactly(b: Buffer, top: Option<Opening>, i: nat, t: Token)
    requires Exposed(b, top, i) && (top.Some? ==> top.value.s <= i) && !EndsItem(b, top, i)
    requires t.markup in {Title1Start, Title2Start, ListStart}
    ensures TokenAt(b, top, i) == t <==> LineMark(b, i, t)
  {
    EndsItemRule(b, top, i);
    LineMarkRule(b, i, t);
  }

  /** Delimiters, with what leads up to them at the start of a line. */
  lemma {:induction false} DelimitersExactly(b: Buffer, top: Option<Opening>, i: nat, m: Markup, n: nat)
    requires Exposed(b, top, i) && (top.Some? ==> top.value.s <= i) && !EndsItem(b, top, i)
    requires DelimiterText(m) != "" && Lead(b, i, n)
    ensures TokenAt(b, top, i).markup == m <==> DelimiterStands(b, i + n, m)
    ensures DelimiterStands(b, i + n, m) ==> TokenAt(b, top, i) == Token(m, i + n + |DelimiterText(m)|)
  {
    OpenToken(b, top, i);
    LeadRule(b, i);
    SomeLineMarkRule(b, i);
    DelimiterRule(b, i + n, m);
    PlainDelimiter(b, InsideOf(top), LineOf(b, top), i, m, i + n);
  }

  function InsideOf(top: Option<Opening>): Markup {
    if top.Some? then top.value.markup else EndOfText
  }

  function LineOf(b: Buffer, top: Option<Opening>): nat {
    if top.Some? && top.value.s <= |b| then Line(b, top.value.s) else 0
  }

  lemma {:induction false} OpenToken(b: Buffer, top: Option<Opening>, i: nat)
    requires Exposed(b, top, i) && (top.Some? ==> top.value.s <= i) && !EndsItem(b, top, i)
    ensures TokenAt(b, top, i) == PlainTokenAt(b, InsideOf(top), LineOf(b, top), i)
  {
    EndsItemRule(b, top, i);
  }

  lemma {:induction false} PlainDelimiter(b: Buffer, inside: Markup, line: nat, i: nat, m: Markup, j: nat)
    requires i < |b| && DelimiterText(m) != "" && j == i + Swallowed(b, i)
    requires LineTokenAt(b, i).markup != NoMark ==> DelimiterAt(b, j) == NoMark
    ensures PlainTokenAt(b, inside, line, i).markup == m <==> DelimiterAt(b, j) == m
    ensures DelimiterAt(b, j) == m ==> PlainTokenAt(b, inside, line, i) == Token(m, j + DelimiterLength(m))
  {
  }

  /** The end of a title: exactly " =" or " ==", in a title opened on the same line, where the line ends. */
  predicate TitleEnds(b: Buffer, top: Option<Opening>, i: nat, m: Markup) {
    if m == Title1End then
      In(top, Title1Start) && Reads(b, i, " =") && FinishesLine(b, i + 2) && SameLineAs(b, top, i + 1)
    else
      In(top, Title2Start) && Reads(b, i, " ==") && FinishesLine(b, i + 3) && SameLineAs(b, top, i + 2)
  }

  lemma {:induction false} TitleEndRule(b: Buffer, top: Option<Opening>, i: nat, length: nat)
    requires i < |b| && top.Some? && top.value.s <= i && i + 1 + length <= |b|
    ensures TitleEndAt(b, Line(b, top.value.s), i, length)
            <==> FinishesLine(b, i + 1 + length) && SameLineAs(b, top, i + length)
  {
    LineRules(b, i + 1 + length);
    SameLineRule(b, top, i + length);
  }

  lemma {:induction false} NoDelimiterAtBlank(b: Buffer, i: nat)
    requires i < |b| && CharAt(b, i) == ' '
    ensures LineTokenAt(b, i).markup == NoMark && Swallowed(b, i) == 0 && DelimiterAt(b, i) == NoMark
  {
  }

  lemma {:induction false} TitleEndsExactly(b: Buffer, top: Option<Opening>, i: nat, m: Markup)
    requires Exposed(b, top, i) && (top.Some? ==> top.value.s <= i) && !EndsItem(b, top, i)
    requires m in {Title1End, Title2End}
    ensures TokenAt(b, top, i).markup == m <==> TitleEnds(b, top, i, m)
    ensures TitleEnds(b, top, i, m) ==> TokenAt(b, top, i) == Token(m, i + if m == Title1End then 2 else 3)
  {
    OpenToken(b, top, i);
    ReadsTwo(b, i, ' ', '=');
    ReadsThree(b, i, ' ', '=', '=');
    assert " =" == [' ', '='] && " ==" == [' ', '=', '='];
    if CharAt(b, i) == ' ' {
      NoDelimiterAtBlank(b, i);
    }
    if top.Some? && i + 2 <= |b| {
      TitleEndRule(b, top, i, 1);
    }
    if top.Some? && i + 3 <= |b| {
      TitleEndRule(b, top, i, 2);
    }
    NotTitleEnd(b, InsideOf(top), LineOf(b, top), i, m);
  }

  lemma {:induction false} NotTitleEnd(b: Buffer, inside: Markup, line: nat, i: nat, m: Markup)
    requires i < |b| && m in {Title1End, Title2End}
    ensures PlainTokenAt(b, inside, line, i).markup == m ==> CharAt(b, i) == ' '
  {
  }

  /** Inside a picture only "]]]" is seen, inside a verbatim text only three quotes, and nothing where a
      verbatim tag is. */
  lemma {:induction false} BlocksExactly(b: Buffer, top: Option<Opening>, i: nat)
    requires i < |b|
    ensures In(top, PictureStart) ==>
              TokenAt(b, top, i) == if Reads(b, i, "]]]") then Token(PictureEnd, i + 3) else Token(NoMark, i)
    ensures In(top, VerbatimMark) ==>
              TokenAt(b, top, i) == if Reads(b, i, "\"\"\"") then Token(VerbatimMark, i + 3) else Token(NoMark, i)
    ensures !In(top, PictureStart) && !In(top, VerbatimMark) && Verbatim in b[i].tags ==>
              TokenAt(b, top, i) == Token(NoMark, i)
  {
    ReadsThree(b, i, ']', ']', ']');
    ReadsThree(b, i, '"', '"', '"');
    assert "]]]" == [']', ']', ']'] && "\"\"\"" == ['"', '"', '"'];
  }

  /** The list item that is innermost ends exactly where its line does. */
  lemma {:induction false} ItemEndsExactly(b: Buffer, top: Option<Opening>, i: nat)
    requires i <= |b| && (top.Some? ==> top.value.s <= i)
    requires !In(top, PictureStart) && !In(top, VerbatimMark) && (i < |b| ==> Verbatim !in b[i].tags)
    ensures TokenAt(b, top, i).markup == ListEnd <==> EndsItem(b, top, i)
    ensures i == |b| && !EndsItem(b, top, i) ==> TokenAt(b, top, i) == Token(EndOfText, i)
  {
    EndsItemRule(b, top, i);
  }

  /** Where no token stands get_token answers the whole stretch up to the next one, or to the end. */
  lemma {:induction false} StretchExactly(b: Buffer, top: Option<Opening>, i: nat)
    requires i <= |b|
    ensures var t := NextToken(b, top, i);
            if TokenAt(b, top, i).markup != NoMark || i == |b| then t == TokenAt(b, top, i)
            else
              && t.markup == NoMark && i < t.end <= |b|
              && (forall k :: i <= k < t.end ==> TokenAt(b, top, k).markup == NoMark)
              && (t.end < |b| ==> TokenAt(b, top, t.end).markup != NoMark)
  {
    if i < |b| {
      var n := NextStop(b, top, i + 1);
      assert forall k :: i + 1 <= k < n ==> TokenAt(b, top, k).markup == NoMark;
    }
  }
}
