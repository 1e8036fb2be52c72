/** What the lookup of a widget description answers for any path at all, found or not. */
module WidgetPaths {
  import opened RichText
  import opened WidgetTree

  // ----- numbers -----

  predicate White(c: char) {
    c == ' ' || c == '\t' || c == '\n' || c == '\U{000B}' || c == '\U{000C}' || c == '\r'
  }

  predicate Spaces(s: string) {
    forall k :: 0 <= k < |s| ==> White(s[k])
  }

  predicate Sign(s: string) {
    s == "" || s == "+" || s == "-"
  }

  predicate Numeral(s: string) {
    s != "" && forall k :: 0 <= k < |s| ==> '0' <= s[k] <= '9'
  }

  /** The number that the digits spell. */
  function Value(digits: string): nat
    requires forall k :: 0 <= k < |digits| ==> '0' <= digits[k] <= '9'
  {
    if digits == "" then 0 else 10 * Value(digits[..|digits|-1]) + (digits[|digits|-1] - '0') as nat
  }

  lemma {:induction false} ReadValue(digits: string)
    requires forall k :: 0 <= k < |digits| ==> '0' <= digits[k] <= '9'
    ensures ReadDigits(digits, 0) == (Value(digits), "")
  {
    if digits != "" {
      var before, last := digits[..|digits|-1], digits[|digits|-1..];
      assert digits == before + last && last[1..] == "";
      ReadValue(before);
      ReadDigitsConcat(before, last, 0);
      assert ReadDigits(last, Value(before)) == ReadDigits("", Value(before) * 10 + (last[0] - '0') as nat);
    }
  }

  lemma {:induction false} SpacesSkipped(spaces: string, rest: string)
    requires Spaces(spaces) && (rest == "" || !White(rest[0]))
    ensures SkipSpaces(spaces + rest) == rest
  {
    if spaces == "" {
      assert spaces + rest == rest;
    } else {
      assert (spaces + rest)[1..] == spaces[1..] + rest;
      SpacesSkipped(spaces[1..], rest);
    }
  }

  /** A long takes 64 bits. */
  function Clamped(sign: string, n: nat): int {
    if sign == "-" then (if n > 9223372036854775808 then -9223372036854775808 else -(n as int))
    else (if n > 9223372036854775807 then 9223372036854775807 else n)
  }

  /** What is left of it in the 32 bits of an int. */
  function Truncated(n: int): int {
    var m := n % 4294967296;
    if m >= 2147483648 then m - 4294967296 else m
  }

  /** White space, a sign and digits are read as the number they spell, clamped and then truncated. */
  lemma {:induction false} NumberRead(spaces: string, sign: string, digits: string)
    requires Spaces(spaces) && Sign(sign) && Numeral(digits)
    ensures ParseIndex(spaces + sign + digits) == Truncated(Clamped(sign, Value(digits)))
  {
    var t := sign + digits;
    assert spaces + sign + digits == spaces + t;
    assert t[0] == if sign == "" then digits[0] else sign[0];
    SpacesSkipped(spaces, t);
    ReadValue(digits);
    SignedNumber(spaces + t, t, sign, digits, Value(digits));
  }

  lemma {:induction false} SignedNumber(s: string, t: string, sign: string, digits: string, n: nat)
    requires SkipSpaces(s) == t == sign + digits && Sign(sign) && Numeral(digits) && ReadDigits(digits, 0) == (n, "")
    ensures ParseIndex(s) == Truncated(Clamped(sign, n))
  {
    assert t[0] == if sign == "" then digits[0] else sign[0];
    assert (if sign == "" then t else t[1..]) == digits;
  }

  /** So an index that fits an int is read as it is, and one of 4294967296 as 0. */
  lemma {:induction false} SmallNumber(sign: string, n: nat)
    requires Sign(sign)
    ensures n <= 2147483647 ==> Truncated(Clamped(sign, n)) == if sign == "-" then -(n as int) else n
    ensures n == 4294967296 ==> Truncated(Clamped(sign, n)) == 0
  {
    if n <= 2147483647 {
      assert (-(n as int)) % 4294967296 == if n == 0 then 0 else 4294967296 - n;
    }
  }

  lemma {:induction false} SkippedSpaces(s: string) returns (n: nat)
    ensures n <= |s| && Spaces(s[..n]) && SkipSpaces(s) == s[n..] && (n < |s| ==> !White(s[n]))
  {
    n := 0;
    if s != "" && White(s[0]) {
      n := SkippedSpaces(s[1..]);
      assert s[..n+1] == [s[0]] + s[1..][..n] && s[n+1..] == s[1..][n..];
      n := n + 1;
    }
  }

  lemma {:induction false} AllRead(s: string, sofar: nat)
    requires ReadDigits(s, sofar).1 == ""
    ensures forall k :: 0 <= k < |s| ==> '0' <= s[k] <= '9'
  {
    if s != "" {
      AllRead(s[1..], sofar * 10 + (s[0] - '0') as nat);
      forall k | 0 <= k < |s| ensures '0' <= s[k] <= '9' {
        assert k > 0 ==> s[k] == s[1..][k-1];
      }
    }
  }

  predicate SpellsNumber(s: string, spaces: string, sign: string, digits: string) {
    Spaces(spaces) && Sign(sign) && Numeral(digits) && s == spaces + sign + digits
  }

  lemma {:induction false} NumberSpelled(s: string) returns (spaces: string, sign: string, digits: string)
    requires s != "" && ParseIndex(s) != -1
    ensures SpellsNumber(s, spaces, sign, digits)
  {
    var n := SkippedSpaces(s);
    var t := s[n..];
    var signed := t != "" && (t[0] == '-' || t[0] == '+');
    spaces, sign, digits := s[..n], if signed then t[..1] else "", if signed then t[1..] else t;
    DigitsLeft(s, t, digits);
    PartsSpell(s, spaces, t, signed, digits);
  }

  lemma {:induction false} PartsSpell(s: string, spaces: string, t: string, signed: bool, u: string)
    requires s == spaces + t && Spaces(spaces) && signed == (t != "" && (t[0] == '-' || t[0] == '+'))
    requires u == (if signed then t[1..] else t) && u != "" && ReadDigits(u, 0).1 == ""
    ensures SpellsNumber(s, spaces, if signed then t[..1] else "", u)
  {
    var sign := if signed then t[..1] else "";
    AllRead(u, 0);
    assert t == sign + u;
    assert spaces + sign + u == spaces + (sign + u);
  }

  lemma {:induction false} DigitsLeft(s: string, t: string, u: string)
    requires s != "" && ParseIndex(s) != -1 && t == SkipSpaces(s)
    requires u == if t != "" && (t[0] == '-' || t[0] == '+') then t[1..] else t
    ensures u != "" && Digit(u[0]) && ReadDigits(u, 0).1 == ""
  {
  }

  /** Anything else but the empty segment is no number. */
  lemma {:induction false} NoNumber(s: string)
    requires s != "" && forall spaces, sign, digits :: !SpellsNumber(s, spaces, sign, digits)
    ensures ParseIndex(s) == -1
  {
    if ParseIndex(s) != -1 {
      var spaces, sign, digits := NumberSpelled(s);
    }
  }

  lemma {:induction false} EmptySegment()
    ensures ParseIndex("") == 0
  {
  }

  // ----- children -----

  /** Child `k` is the one the segment stands for: by its place where the first child has no name and the
      segment is a number that is not negative, and otherwise by being the first child of that name. */
  predicate StandsFor(nodes: seq<Node>, k: nat, segment: string) {
    && k < |nodes|
    && (if ParseIndex(segment) >= 0 && nodes[0].name == None then k == ParseIndex(segment)
        else nodes[k].name == Some(segment) && forall j :: 0 <= j < k ==> nodes[j].name != Some(segment))
  }

  lemma {:induction false} ChildExactly(nodes: seq<Node>, segment: string, k: nat)
    ensures ChildAt(nodes, segment) == Some(k) <==> StandsFor(nodes, k, segment)
  {
    var byName := ByName(nodes, segment, 0);
    if byName.Some? && byName.value < k < |nodes| {
      assert nodes[byName.value].name == Some(segment);
    }
  }

  /** Each segment stands for the node of its level. */
  predicate Leads(nodes: seq<Node>, address: seq<nat>, segments: seq<string>)
    decreases |address|
  {
    && |address| == |segments|
    && (address == [] ||
        (StandsFor(nodes, address[0], segments[0]) && Leads(nodes[address[0]].children, address[1..], segments[1..])))
  }

  lemma {:induction false} DescendMeans(nodes: seq<Node>, segments: seq<string>, address: seq<nat>)
    ensures Descend(nodes, segments) == Some(address) <==> Leads(nodes, address, segments)
    decreases |segments|
  {
    if segments != [] {
      var found := ChildAt(nodes, segments[0]);
      if address != [] {
        ChildExactly(nodes, segments[0], address[0]);
      }
      if found.Some? {
        if address != [] {
          DescendMeans(nodes[found.value].children, segments[1..], address[1..]);
          assert address == [address[0]] + address[1..];
        }
        var below := Descend(nodes[found.value].children, segments[1..]);
        assert below.Some? ==> ([found.value] + below.value)[1..] == below.value;
      }
    }
  }

  /** The first node at the top that has the name. */
  predicate FirstNamed(roots: seq<Node>, k: nat, name: string) {
    k < |roots| && roots[k].name == Some(name) && forall j :: 0 <= j < k ==> roots[j].name != Some(name)
  }

  predicate LeadsFromTop(roots: seq<Node>, address: seq<nat>, segments: seq<string>) {
    && |address| == |segments| >= 1 && FirstNamed(roots, address[0], segments[0])
    && Leads(roots[address[0]].children, address[1..], segments[1..])
  }

  /** For any path: the lookup answers an address exactly when the segments after the first slash lead
      there, level by level; so it answers none when they lead nowhere. */
  lemma {:induction false} FindMeans(roots: seq<Node>, path: string, address: seq<nat>)
    ensures Find(roots, path) == Some(address) <==> LeadsFromTop(roots, address, Split(path)[1..])
  {
    var segments := Split(path);
    if |segments| >= 2 {
      assert segments[1..][0] == segments[1] && segments[1..][1..] == segments[2..];
      var found := ByName(roots, segments[1], 0);
      if found.Some? {
        var below := Descend(roots[found.value].children, segments[2..]);
        if address != [] {
          DescendMeans(roots[found.value].children, segments[2..], address[1..]);
          assert address == [address[0]] + address[1..];
        }
        assert below.Some? ==> ([found.value] + below.value)[1..] == below.value;
      }
    }
  }

  // ----- soundness -----

  /** The segment names the node, or is its place among siblings of which the first has no name. */
  predicate Names(nodes: seq<Node>, k: nat, segment: string) {
    && k < |nodes|
    && (nodes[k].name == Some(segment) || (nodes[0].name == None && ParseIndex(segment) == k))
  }

  predicate NamesAll(nodes: seq<Node>, address: seq<nat>, segments: seq<string>)
    decreases |address|
  {
    && |address| == |segments|
    && (address == [] ||
        (Names(nodes, address[0], segments[0]) && NamesAll(nodes[address[0]].children, address[1..], segments[1..])))
  }

  lemma {:induction false} LeadsNames(nodes: seq<Node>, address: seq<nat>, segments: seq<string>)
    requires Leads(nodes, address, segments)
    ensures NamesAll(nodes, address, segments) && ValidAddress(nodes, address)
    decreases |address|
  {
    if address != [] {
      LeadsNames(nodes[address[0]].children, address[1..], segments[1..]);
    }
  }

  /** An address that is answered is valid, has a place for each segment, and each segment names the node
      of its level. */
  lemma {:induction false} FindSound(roots: seq<Node>, path: string)
    requires Find(roots, path).Some?
    ensures var address, segments := Find(roots, path).value, Split(path);
            && ValidAddress(roots, address) && |address| == |segments| - 1 >= 1
            && roots[address[0]].name == Some(segments[1])
            && NamesAll(roots[address[0]].children, address[1..], segments[2..])
  {
    var address, segments := Find(roots, path).value, Split(path);
    FindMeans(roots, path, address);
    assert segments[1..][0] == segments[1] && segments[1..][1..] == segments[2..];
    LeadsNames(roots[address[0]].children, address[1..], segments[2..]);
  }

  // ----- what is not found -----

  lemma {:induction false} JoinTwo(name: string, segment: string)
    requires '/' !in name && '/' !in segment
    ensures Split(Join([name, segment]))[1..] == [name, segment]
  {
    SplitJoin([name, segment]);
  }

  lemma {:induction false} TwoLevels(roots: seq<Node>, r: nat, name: string, segment: string, address: seq<nat>)
    requires FirstNamed(roots, r, name) && LeadsFromTop(roots, address, [name, segment])
    ensures |address| == 2 && address[0] == r && StandsFor(roots[r].children, address[1], segment)
  {
    var segments := [name, segment];
    assert segments[1..] == [segment];
    assert address[0] == r;
    assert address[1..][0] == address[1];
  }

  lemma {:induction false} NotBelow(roots: seq<Node>, r: nat, name: string, segment: string)
    requires FirstNamed(roots, r, name) && '/' !in name && '/' !in segment
    requires forall k :: !StandsFor(roots[r].children, k, segment)
    ensures Find(roots, Join([name, segment])) == None
  {
    var path := Join([name, segment]);
    JoinTwo(name, segment);
    if Find(roots, path).Some? {
      FindMeans(roots, path, Find(roots, path).value);
      TwoLevels(roots, r, name, segment, Find(roots, path).value);
    }
  }

  /** A path to item `j` of a sequence with fewer items leads nowhere. */
  lemma {:induction false} NoSuchItem(roots: seq<Node>, r: nat, name: string, j: nat)
    requires FirstNamed(roots, r, name) && '/' !in name
    requires Unnamed(roots[r].children) && |roots[r].children| <= j <= 0x7FFF_FFFF
    ensures Find(roots, ItemPath(name, j)) == None
  {
    DecimalDigits(j);
    IndexRoundTrip(j);
    NotBelow(roots, r, name, Decimal(j));
  }

  /** Nor does a path whose first segment is the name of no node at the top. */
  lemma {:induction false} NoSuchName(roots: seq<Node>, name: string, rest: seq<string>)
    requires NoSlash([name] + rest) && forall k :: 0 <= k < |roots| ==> roots[k].name != Some(name)
    ensures Find(roots, Join([name] + rest)) == None
  {
    var segments := [name] + rest;
    SplitJoin(segments);
    assert ([""] + segments)[1] == name;
  }

  /** Nor does one whose second segment is the name of no child, and no number where the first child has no
      name. */
  lemma {:induction false} NoSuchChild(roots: seq<Node>, r: nat, name: string, segment: string)
    requires FirstNamed(roots, r, name) && '/' !in name && '/' !in segment
    requires ParseIndex(segment) < 0 || roots[r].children == [] || roots[r].children[0].name.Some?
    requires forall k :: 0 <= k < |roots[r].children| ==> roots[r].children[k].name != Some(segment)
    ensures Find(roots, Join([name, segment])) == None
  {
    NotBelow(roots, r, name, segment);
  }

  // ----- written numbers -----

  lemma {:induction false} ValueConcat(s: string, c: char)
    requires (forall k :: 0 <= k < |s| ==> '0' <= s[k] <= '9') && '0' <= c <= '9'
    ensures forall k :: 0 <= k < |s + [c]| ==> '0' <= (s + [c])[k] <= '9'
    ensures Value(s + [c]) == 10 * Value(s) + (c - '0') as nat
  {
    assert (s + [c])[..|s|] == s;
  }

  /** An index is written in decimal digits, without zeros in front. */
  lemma {:induction false} DecimalExactly(k: nat)
    ensures Numeral(Decimal(k)) && Value(Decimal(k)) == k
    ensures k == 0 ==> Decimal(k) == "0"
    ensures k > 0 ==> Decimal(k)[0] != '0'
  {
    if k >= 10 {
      DecimalExactly(k / 10);
      ValueConcat(Decimal(k / 10), DigitChar(k % 10));
    } else {
      ValueConcat("", DigitChar(k));
      assert "" + [DigitChar(k)] == [DigitChar(k)];
    }
  }
}
