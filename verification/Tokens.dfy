/** Which markup token stands at a position.  The answer depends on the markup that was opened
    last, on the line, and on what precedes the position on its line. */
module Tokens {
  import opened RichText

  datatype Markup =
    | NoMark
    | BoldMark | MonoMark | VerbatimMark | ItalicMark | StrikeMark | UnderlineMark
    | Title1Start | Title1End | Title2Start | Title2End
    | PictureStart | PictureEnd
    | ListStart | ListEnd
    | EndOfText

  /** `end` is the position just after the token. */
  datatype Token = Token(markup: Markup, end: nat)

  /** A token that waits for its closing counterpart; it covers positions `s..e`. */
  datatype Opening = Opening(markup: Markup, s: nat, e: nat)

  predicate Twice(b: Buffer, i: nat, c: char) {
    CharAt(b, i) == c && CharAt(b, i + 1) == c
  }

  predicate Thrice(b: Buffer, i: nat, c: char) {
    Twice(b, i, c) && CharAt(b, i + 2) == c
  }

  /** The markups that read the same when they open and when they close. */
  predicate Style(m: Markup) {
    m in {BoldMark, MonoMark, VerbatimMark, ItalicMark, StrikeMark, UnderlineMark}
  }

  predicate Starts(m: Markup) {
    Style(m) || m in {Title1Start, Title2Start, PictureStart, ListStart}
  }

  /** The delimiter spelled at `j`, wherever `j` is on its line. */
  function DelimiterAt(b: Buffer, j: nat): Markup {
    if Twice(b, j, '*') then BoldMark
    else if Twice(b, j, '/') then
      if j > 0 && CharAt(b, j - 1) == ':' then NoMark else ItalicMark
    else if Twice(b, j, '_') then UnderlineMark
    else if Twice(b, j, '-') then StrikeMark
    else if Twice(b, j, '`') then MonoMark
    else if Thrice(b, j, '"') then VerbatimMark
    else if Thrice(b, j, '[') then PictureStart
    else NoMark
  }

  function DelimiterLength(m: Markup): nat {
    if m in {VerbatimMark, PictureStart} then 3 else 2
  }

  /** At the start of a line the tests for titles and list items consume these characters even
      when they fail. */
  function Swallowed(b: Buffer, i: nat): nat
    requires i <= |b|
  {
    if Indent(b, i) < 0 then 0
    else if CharAt(b, i) == '=' then (if CharAt(b, i + 1) == '=' then 2 else 1)
    else if CharAt(b, i) == '-' then 1
    else 0
  }

  function LineTokenAt(b: Buffer, i: nat): Token
    requires i <= |b|
  {
    if Indent(b, i) < 0 then Token(NoMark, i)
    else if CharAt(b, i) == '=' && CharAt(b, i + 1) == ' ' then Token(Title1Start, i + 2)
    else if Twice(b, i, '=') && CharAt(b, i + 2) == ' ' then Token(Title2Start, i + 3)
    else if CharAt(b, i) == '-' && CharAt(b, i + 1) == ' ' then Token(ListStart, i + 2)
    else Token(NoMark, i)
  }

  /** The end of a title stands at the end of the line on which the title was opened. */
  predicate TitleEndAt(b: Buffer, line: nat, i: nat, length: nat)
    requires i < |b|
  {
    i + 1 + length <= |b| && EndsLine(b, i + 1 + length) && line == Line(b, i + length)
  }

  /** The token at `i`, outside pictures and verbatim text, when the innermost markup still open
      is `inside`, opened on line `line`. */
  function PlainTokenAt(b: Buffer, inside: Markup, line: nat, i: nat): Token
    requires i < |b|
  {
    if LineTokenAt(b, i).markup != NoMark then LineTokenAt(b, i)
    else
      var j := i + Swallowed(b, i);
      var m := DelimiterAt(b, j);
      if m != NoMark then Token(m, j + DelimiterLength(m))
      else if inside == Title1Start && CharAt(b, i) == ' ' && CharAt(b, i + 1) == '='
              && TitleEndAt(b, line, i, 1) then Token(Title1End, i + 2)
      else if inside == Title2Start && CharAt(b, i) == ' ' && Twice(b, i + 1, '=')
              && TitleEndAt(b, line, i, 2) then Token(Title2End, i + 3)
      else Token(NoMark, i)
  }

  /** What get_markup_token answers at `i` when `top` is the innermost markup still open. */
  function TokenAt(b: Buffer, top: Option<Opening>, i: nat): Token
    requires i <= |b|
  {
    var inside := if top.Some? then top.value.markup else EndOfText;
    var line := if top.Some? && top.value.s <= |b| then Line(b, top.value.s) else 0;
    if inside == PictureStart then
      if Thrice(b, i, ']') then Token(PictureEnd, i + 3)
      else Token(if i == |b| then EndOfText else NoMark, i)
    else if inside == VerbatimMark then
      if Thrice(b, i, '"') then Token(VerbatimMark, i + 3)
      else Token(if i == |b| then EndOfText else NoMark, i)
    else if i < |b| && Verbatim in b[i].tags then Token(NoMark, i)
    else if EndsLine(b, i) && inside == ListStart && line == Line(b, i) then Token(ListEnd, i)
    else if i == |b| then Token(EndOfText, i)
    else PlainTokenAt(b, inside, line, i)
  }

  /** The first position from `j` on where a token stands, or the end of the text. */
  function NextStop(b: Buffer, top: Option<Opening>, j: nat): (r: nat)
    requires j <= |b|
    ensures j <= r <= |b|
    ensures forall k :: j <= k < r ==> TokenAt(b, top, k).markup == NoMark
    ensures r < |b| ==> TokenAt(b, top, r).markup != NoMark
    decreases |b| - j
  {
    if j == |b| || TokenAt(b, top, j).markup != NoMark then j else NextStop(b, top, j + 1)
  }

  /** get_token: the token at `i`, or the stretch of text from `i` up to the next token. */
  function NextToken(b: Buffer, top: Option<Opening>, i: nat): Token
    requires i <= |b|
  {
    var t := TokenAt(b, top, i);
    if t.markup != NoMark || i == |b| then t else Token(NoMark, NextStop(b, top, i + 1))
  }

  function Counterpart(m: Markup): Markup {
    if Style(m) then m
    else match m
      case Title1Start => Title1End
      case Title2Start => Title2End
      case PictureStart => PictureEnd
      case ListStart => ListEnd
      case _ => NoMark
  }

  /** markup_tag_match: whether `m` on line `line` closes `o`, opened on line `openLine`. */
  predicate Matches(o: Markup, openLine: nat, m: Markup, line: nat) {
    Starts(o) && m == Counterpart(o) && (o in {PictureStart, VerbatimMark} || openLine == line)
  }

  /** A token never runs past the end of the text, and apart from the end of a list item it is
      not empty. */
  lemma {:induction false} TokenBounds(b: Buffer, top: Option<Opening>, i: nat)
    requires i <= |b|
    ensures i <= TokenAt(b, top, i).end <= |b|
    ensures TokenAt(b, top, i).markup !in {NoMark, EndOfText, ListEnd} ==> i < TokenAt(b, top, i).end
    ensures TokenAt(b, top, i).markup in {NoMark, EndOfText, ListEnd} ==> TokenAt(b, top, i).end == i
    ensures TokenAt(b, top, i).markup == EndOfText ==> i == |b|
    ensures i == |b| ==> TokenAt(b, top, i).markup in {EndOfText, ListEnd}
  {
  }

  predicate MarkCharacter(c: char) {
    c in {'*', '/', '_', '-', '`', '"', '[', '=', ']'}
  }

  lemma {:induction false} MarkCharacterItem(b: Buffer, k: nat)
    requires MarkCharacter(CharAt(b, k)) || CharAt(b, k) == ' '
    ensures k < |b| && b[k].glyph == Chr(CharAt(b, k)) && !LineBreak(b[k].glyph)
    ensures MarkCharacter(CharAt(b, k)) ==> !SpaceItem(b[k])
  {
  }

  /** Delimiters are two or three equal mark characters. */
  lemma {:induction false} DelimiterShape(b: Buffer, j: nat)
    requires DelimiterAt(b, j) != NoMark
    ensures var n := DelimiterLength(DelimiterAt(b, j));
            MarkCharacter(CharAt(b, j)) && forall k :: j <= k < j + n ==> CharAt(b, k) == CharAt(b, j)
  {
  }

  /** A token that can open a markup is a title or list mark, or a delimiter after the swallowed
      characters, or the three quotes that end a verbatim text. */
  lemma {:induction false} StartingForms(b: Buffer, top: Option<Opening>, i: nat)
    requires i <= |b|
    requires Starts(TokenAt(b, top, i).markup)
    ensures i < |b|
    ensures var t := TokenAt(b, top, i);
            || (t.markup == VerbatimMark && t.end == i + 3 && DelimiterAt(b, i) == VerbatimMark)
            || (t == LineTokenAt(b, i) && t.markup != NoMark)
            || (var j := i + Swallowed(b, i);
                t.markup != NoMark && t.markup == DelimiterAt(b, j) && t.end == j + DelimiterLength(t.markup))
  {
    TokenBounds(b, top, i);
  }

  /** A token that can open a markup starts with a mark character; the characters after it are
      mark characters too, but for the space that ends a title or list mark. */
  lemma {:induction false} OpeningCharacters(b: Buffer, top: Option<Opening>, i: nat)
    requires i <= |b|
    requires Starts(TokenAt(b, top, i).markup)
    ensures var t := TokenAt(b, top, i);
            && i < t.end
            && MarkCharacter(CharAt(b, i))
            && (forall k :: i <= k < t.end ==> MarkCharacter(CharAt(b, k)) || CharAt(b, k) == ' ')
  {
    StartingForms(b, top, i);
    var t := TokenAt(b, top, i);
    var j := i + Swallowed(b, i);
    if t == LineTokenAt(b, i) {
    } else if t.end == i + 3 && DelimiterAt(b, i) == VerbatimMark {
      DelimiterShape(b, i);
    } else {
      DelimiterShape(b, j);
      forall k | i <= k < j ensures MarkCharacter(CharAt(b, k)) {
        assert k == i || k == i + 1;
      }
    }
  }

  /** An opening token lies within the text and on one line. */
  lemma {:induction false} OpeningShape(b: Buffer, top: Option<Opening>, i: nat)
    requires i <= |b|
    requires Starts(TokenAt(b, top, i).markup)
    ensures var t := TokenAt(b, top, i);
            && i < t.end <= |b| && !SpaceItem(b[i])
            && (forall k :: i <= k < t.end ==> !LineBreak(b[k].glyph))
            && (t.markup == ListStart ==> t.end == i + 2 && Indent(b, i) >= 0)
  {
    OpeningCharacters(b, top, i);
    var t := TokenAt(b, top, i);
    forall k | i <= k < t.end ensures k < |b| && !LineBreak(b[k].glyph) {
      MarkCharacterItem(b, k);
    }
    MarkCharacterItem(b, i);
    TokenBounds(b, top, i);
  }

  /** A closing token that is not itself a style mark always closes the innermost markup. */
  lemma {:induction false} EndsMatch(b: Buffer, top: Option<Opening>, i: nat)
    requires i <= |b|
    requires top.Some? ==> top.value.s <= |b|
    requires TokenAt(b, top, i).markup in {Title1End, Title2End, PictureEnd, ListEnd}
    ensures top.Some?
    ensures Matches(top.value.markup, Line(b, top.value.s), TokenAt(b, top, i).markup, Line(b, i))
  {
    var m := TokenAt(b, top, i).markup;
    if m in {Title1End, Title2End} {
      assert !StartsLine(b, i + 1);
      assert Line(b, i + 1) == Line(b, i);
      if m == Title2End {
        assert !StartsLine(b, i + 2);
      }
    }
  }
}
