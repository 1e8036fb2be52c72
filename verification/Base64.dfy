/** Line wrapping of the base64 text that stands for a picture. */
module Base64 {

  const WIDTH := 100

  /** The text without its newlines. */
  function Unwrapped(s: string): (r: string)
    ensures '\n' !in s ==> r == s
  {
    if s == [] then []
    else if s[|s|-1] == '\n' then Unwrapped(s[..|s|-1])
    else Unwrapped(s[..|s|-1]) + [s[|s|-1]]
  }

  /** The lines of a text: newlines separate them. */
  function Lines(s: string): (r: seq<string>)
    ensures |r| >= 1
  {
    if s == [] then [""]
    else
      var r := Lines(s[..|s|-1]);
      if s[|s|-1] == '\n' then r + [""]
      else r[|r|-1 := r[|r|-1] + [s[|s|-1]]]
  }

  /** Every line but the last has the full width, and the last is no wider. */
  predicate Filled(lines: seq<string>)
    requires |lines| >= 1
  {
    && (forall k :: 0 <= k < |lines| - 1 ==> |lines[k]| == 100)
    && |lines[|lines|-1]| <= 100
  }

  /** What add_newlines_to_base64 has written after reading the whole of `s`: a newline goes
      before each character whose index is a positive multiple of the width. */
  function Wrapped(s: string): string {
    if s == [] then []
    else
      var i := |s| - 1;
      Wrapped(s[..i]) + (if i > 0 && i % WIDTH == 0 then "\n" else "") + [s[i]]
  }

  method AddNewlines(base64: string) returns (text: string)
    ensures text == Wrapped(base64)
  {
    text := "";
    var i := 0;
    while i < |base64|
      invariant i <= |base64|
      invariant text == Wrapped(base64[..i])
    {
      if i != 0 && i % WIDTH == 0 {
        text := text + "\n";
      }
      text := text + [base64[i]];
      assert base64[..i+1][..i] == base64[..i];
      i := i + 1;
    }
    assert base64[..i] == base64;
  }

  method RemoveNewlines(base64: string) returns (text: string)
    ensures text == Unwrapped(base64)
  {
    text := "";
    var i := 0;
    while i < |base64|
      invariant i <= |base64|
      invariant text == Unwrapped(base64[..i])
    {
      if base64[i] != '\n' {
        text := text + [base64[i]];
      }
      assert base64[..i+1][..i] == base64[..i];
      i := i + 1;
    }
    assert base64[..i] == base64;
  }

  lemma {:induction false} LinesConcatNewline(s: string)
    ensures Lines(s + "\n") == Lines(s) + [""]
  {
    assert (s + "\n")[..|s|] == s;
  }

  lemma {:induction false} LinesConcatCharacter(s: string, c: char)
    requires c != '\n'
    ensures Lines(s + [c]) == Lines(s)[|Lines(s)|-1 := Lines(s)[|Lines(s)|-1] + [c]]
  {
    assert (s + [c])[..|s|] == s;
  }

  lemma {:induction false} FullLine(i: nat, q: nat, last: nat)
    requires i == WIDTH * q + last && last <= WIDTH
    ensures i % WIDTH == 0 <==> last == 0 || last == WIDTH
  {
  }

  /** Lines that hold `n` characters, all but the last one full, and the last one not empty unless
      there are no characters at all. */
  predicate Holds(ls: seq<string>, n: nat) {
    && ls != [] && Filled(ls)
    && n == 100 * (|ls| - 1) + |ls[|ls|-1]|
    && (n > 0 ==> ls[|ls|-1] != [])
  }

  lemma {:induction false} HoldsNewLine(ls: seq<string>, n: nat, c: char)
    requires Holds(ls, n) && Breaks(n)
    ensures Holds(ls + [[c]], n + 1)
  {
    FullLine(n, |ls| - 1, |ls[|ls|-1]|);
  }

  lemma {:induction false} HoldsSameLine(ls: seq<string>, n: nat, c: char)
    requires Holds(ls, n) && !Breaks(n)
    ensures Holds(ls[|ls|-1 := ls[|ls|-1] + [c]], n + 1)
  {
    FullLine(n, |ls| - 1, |ls[|ls|-1]|);
  }

  /** The wrapped text is made of full lines and a last one that is not longer. */
  lemma {:induction false} WrappedLines(s: string)
    requires '\n' !in s
    ensures Holds(Lines(Wrapped(s)), |s|)
  {
    if s != [] {
      var i := |s| - 1;
      WrappedLines(s[..i]);
      WrappedNext(s, s[..i], Lines(Wrapped(s[..i])), s[i]);
    }
  }

  predicate Breaks(n: nat) {
    n > 0 && n % WIDTH == 0
  }

  lemma {:induction false} WrappedLast(before: string, c: char)
    ensures Wrapped(before + [c]) == Wrapped(before) + (if Breaks(|before|) then ['\n', c] else [c])
  {
    assert (before + [c])[..|before|] == before;
    assert Wrapped(before) + "\n" + [c] == Wrapped(before) + ['\n', c];
  }

  lemma {:induction false} WrappedNext(s: string, before: string, ls: seq<string>, c: char)
    requires s == before + [c] && c != '\n' && ls == Lines(Wrapped(before)) && Holds(ls, |before|)
    ensures Holds(Lines(Wrapped(s)), |s|)
  {
    var w := Wrapped(before);
    WrappedLast(before, c);
    if Breaks(|before|) {
      assert w + ['\n', c] == (w + "\n") + [c];
      LinesConcatNewline(w);
      LinesConcatCharacter(w + "\n", c);
      assert "" + [c] == [c];
      assert (ls + [""])[|ls| := [c]] == ls + [[c]];
      HoldsNewLine(ls, |before|, c);
    } else {
      LinesConcatCharacter(w, c);
      HoldsSameLine(ls, |before|, c);
    }
  }

  lemma {:induction false} UnwrappedConcat(s: string, c: char)
    ensures Unwrapped(s + [c]) == if c == '\n' then Unwrapped(s) else Unwrapped(s) + [c]
  {
    assert (s + [c])[..|s|] == s;
  }

  /** Wrapping loses nothing. */
  lemma {:induction false} UnwrapWrapped(s: string)
    requires '\n' !in s
    ensures Unwrapped(Wrapped(s)) == s
  {
    if s != [] {
      var before, c := s[..|s|-1], s[|s|-1];
      UnwrapWrapped(before);
      assert s == before + [c];
      UnwrapNext(before, c);
    }
  }

  lemma {:induction false} UnwrapNext(before: string, c: char)
    requires Unwrapped(Wrapped(before)) == before && c != '\n'
    ensures Unwrapped(Wrapped(before + [c])) == before + [c]
  {
    var w := Wrapped(before);
    WrappedLast(before, c);
    if Breaks(|before|) {
      assert w + ['\n', c] == (w + "\n") + [c];
      UnwrappedConcat(w, '\n');
      UnwrappedConcat(w + "\n", c);
    } else {
      UnwrappedConcat(w, c);
    }
  }
}
