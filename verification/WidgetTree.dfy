/** The tree of widget descriptions of the server operation form, and the lookup of a node by its
    path. */
module WidgetTree {
  import opened RichText

  /** The widget made for an item; `item` is what it edits. */
  datatype Widget = Widget(id: nat, item: int)

  /** A sequence has a name, an item of a sequence has none. */
  datatype Node = Node(name: Option<string>, widget: Widget, children: seq<Node>)

  // ----- numbers in a path -----

  const INT_MODULUS := 0x1_0000_0000
  const INT_MAX := 0x7FFF_FFFF
  const LONG_MAX := 0x7FFF_FFFF_FFFF_FFFF

  predicate Digit(c: char) {
    '0' <= c <= '9'
  }

  predicate CSpace(c: char) {
    c in {' ', '\t', '\n', '\U{000B}', '\U{000C}', '\r'}
  }

  function SkipSpaces(s: string): string {
    if s != "" && CSpace(s[0]) then SkipSpaces(s[1..]) else s
  }

  /** The number read from the leading digits, and what follows them. */
  function ReadDigits(s: string, sofar: nat): (nat, string) {
    if s != "" && Digit(s[0]) then ReadDigits(s[1..], sofar * 10 + (s[0] - '0') as nat) else (sofar, s)
  }

  /** strtol in base 10, where a long takes 64 bits: the value, clamped, and the rest of the
      text, which is the whole text when it holds no number. */
  function Strtol(s: string): (int, string) {
    var t := SkipSpaces(s);
    var negative := t != "" && t[0] == '-';
    var u := if t != "" && (t[0] == '-' || t[0] == '+') then t[1..] else t;
    if u == "" || !Digit(u[0]) then (0, s)
    else
      var (n, rest) := ReadDigits(u, 0);
      var value: int :=
        if negative then (if n > LONG_MAX + 1 then -LONG_MAX - 1 else -(n as int))
        else (if n > LONG_MAX then LONG_MAX else n);
      (value, rest)
  }

  /** What is left of a long in a 32-bit integer. */
  function ToInt(n: int): int {
    var m := n % INT_MODULUS;
    if m > INT_MAX then m - INT_MODULUS else m
  }

  /** The index a path segment stands for, or -1 when it is no number. */
  function ParseIndex(segment: string): int {
    var (n, rest) := Strtol(segment);
    if rest != "" then -1 else ToInt(n)
  }

  function DigitChar(d: nat): (c: char)
    requires d < 10
    ensures Digit(c) && (c - '0') as nat == d
  {
    '0' + d as char
  }

  /** An index as printf writes it. */
  function Decimal(k: nat): (s: string)
    ensures s != ""
  {
    if k < 10 then [DigitChar(k)] else Decimal(k / 10) + [DigitChar(k % 10)]
  }

  predicate AllDigits(s: string) {
    forall i :: 0 <= i < |s| ==> Digit(s[i])
  }

  lemma {:induction false} DecimalDigits(k: nat)
    ensures AllDigits(Decimal(k))
  {
    if k >= 10 {
      DecimalDigits(k / 10);
    }
  }

  lemma {:induction false} ReadDigitsConcat(s: string, t: string, sofar: nat)
    requires AllDigits(s)
    ensures ReadDigits(s + t, sofar) == ReadDigits(t, ReadDigits(s, sofar).0)
  {
    if s == "" {
      assert s + t == t;
    } else {
      assert (s + t)[1..] == s[1..] + t;
      ReadDigitsConcat(s[1..], t, sofar * 10 + (s[0] - '0') as nat);
    }
  }

  lemma {:induction false} ReadDecimal(k: nat)
    ensures ReadDigits(Decimal(k), 0) == (k, "")
  {
    if k >= 10 {
      ReadDecimal(k / 10);
      DecimalDigits(k / 10);
      var last := [DigitChar(k % 10)];
      ReadDigitsConcat(Decimal(k / 10), last, 0);
      assert ReadDigits(last, k / 10) == ReadDigits(last[1..], k / 10 * 10 + k % 10);
    }
  }

  /** Reading an index undoes writing it. */
  lemma {:induction false} IndexRoundTrip(k: nat)
    requires k <= INT_MAX
    ensures ParseIndex(Decimal(k)) == k
  {
    DecimalDigits(k);
    ReadDecimal(k);
    assert Digit(Decimal(k)[0]);
    assert SkipSpaces(Decimal(k)) == Decimal(k);
  }

  // ----- paths -----

  /** g_strsplit on slashes. */
  function Split(path: string): (segments: seq<string>)
    ensures segments != []
  {
    if path == "" then [""]
    else
      var rest := Split(path[1..]);
      if path[0] == '/' then [""] + rest else [[path[0]] + rest[0]] + rest[1..]
  }

  function Join(segments: seq<string>): string {
    if segments == [] then "" else "/" + segments[0] + Join(segments[1..])
  }

  predicate NoSlash(segments: seq<string>) {
    forall i :: 0 <= i < |segments| ==> '/' !in segments[i]
  }

  lemma {:induction false} SplitSegment(s: string, path: string)
    requires '/' !in s && (path == "" || path[0] == '/')
    ensures Split(s + path) == [s] + Split(path)[1..]
  {
    if s == "" {
      assert s + path == path;
      if path != "" {
        assert Split(path)[1..] == Split(path[1..]);
      }
    } else {
      assert (s + path)[1..] == s[1..] + path;
      SplitSegment(s[1..], path);
      assert [s[0]] + s[1..] == s;
    }
  }

  /** Splitting a path gives back its segments, after an empty one. */
  lemma {:induction false} SplitJoin(segments: seq<string>)
    requires NoSlash(segments) && segments != []
    ensures Split(Join(segments)) == [""] + segments
  {
    var path := Join(segments);
    var rest := Join(segments[1..]);
    assert path[1..] == segments[0] + rest;
    SplitSegment(segments[0], rest);
    if segments[1..] == [] {
      assert Split(rest)[1..] == [];
    } else {
      SplitJoin(segments[1..]);
    }
    assert segments == [segments[0]] + segments[1..];
  }

  // ----- the lookup -----

  /** The position of the first node called `name`, from position `from` on. */
  function ByName(nodes: seq<Node>, name: string, from: nat): (k: Option<nat>)
    requires from <= |nodes|
    ensures k.Some? ==> from <= k.value < |nodes| && nodes[k.value].name == Some(name)
    ensures forall j :: from <= j < (if k.Some? then k.value else |nodes|) ==> nodes[j].name != Some(name)
    decreases |nodes| - from
  {
    if from == |nodes| then None
    else if nodes[from].name == Some(name) then Some(from)
    else ByName(nodes, name, from + 1)
  }

  /** The child a path segment stands for. */
  function ChildAt(nodes: seq<Node>, segment: string): (k: Option<nat>)
    ensures k.Some? ==> k.value < |nodes|
  {
    var index := ParseIndex(segment);
    if index >= 0 && nodes != [] && nodes[0].name.None? then
      (if index < |nodes| then Some(index) else None)
    else ByName(nodes, segment, 0)
  }

  /** An address leads to a node: positions among the children, level by level. */
  function Descend(nodes: seq<Node>, segments: seq<string>): Option<seq<nat>>
    decreases |segments|
  {
    if segments == [] then Some([])
    else
      match ChildAt(nodes, segments[0])
      case None => None
      case Some(k) =>
        match Descend(nodes[k].children, segments[1..])
        case None => None
        case Some(rest) => Some([k] + rest)
  }

  /** The address of the node with that path, if there is one. */
  function Find(roots: seq<Node>, path: string): Option<seq<nat>> {
    var segments := Split(path);
    if |segments| < 2 then None
    else
      match ByName(roots, segments[1], 0)
      case None => None
      case Some(k) =>
        match Descend(roots[k].children, segments[2..])
        case None => None
        case Some(rest) => Some([k] + rest)
  }

  predicate ValidAddress(nodes: seq<Node>, address: seq<nat>)
    decreases |address|
  {
    address == [] || (address[0] < |nodes| && ValidAddress(nodes[address[0]].children, address[1..]))
  }

  /** Looking a node up by name among its siblings. */
  method NamedChild(nodes: seq<Node>, name: string) returns (wd: Option<nat>)
    ensures wd == ByName(nodes, name, 0)
  {
    wd := None;
    var list := 0;
    while list < |nodes| && wd.None?
      invariant list <= |nodes|
      invariant ByName(nodes, name, 0) == if wd.Some? then wd else ByName(nodes, name, list)
    {
      if nodes[list].name == Some(name) {
        wd := Some(list);
      }
      list := list + 1;
    }
  }

  /** widget_data_find. */
  method WidgetDataFind(roots: seq<Node>, path: string) returns (wd: Option<seq<nat>>)
    requires path != "" && path[0] == '/'
    ensures wd == Find(roots, path)
  {
    var segments := Split(path);
    if |segments| < 2 {
      return None;
    }
    var first := NamedChild(roots, segments[1]);
    if first.None? {
      return None;
    }
    wd := Some([first.value]);
    var children := roots[first.value].children;
    var i := 2;
    while i < |segments| && wd.Some?
      invariant 2 <= i <= |segments|
      invariant Find(roots, path) ==
        (if wd.None? || Descend(children, segments[i..]).None? then None
         else Some(wd.value + Descend(children, segments[i..]).value))
    {
      var index := ParseIndex(segments[i]);
      var next: Option<nat>;
      if index >= 0 && children != [] && children[0].name.None? {
        next := if index < |children| then Some(index) else None;
      } else {
        next := NamedChild(children, segments[i]);
      }
      assert segments[i..][0] == segments[i] && segments[i..][1..] == segments[i+1..];
      if next.None? {
        wd := None;
      } else {
        assert forall rest: seq<nat> :: wd.value + ([next.value] + rest) == (wd.value + [next.value]) + rest;
        wd := Some(wd.value + [next.value]);
        children := children[next.value].children;
      }
      i := i + 1;
    }
    assert wd.Some? ==> segments[i..] == [] && wd.value + [] == wd.value;
  }

  // ----- looking up a path that was built -----

  function Segment(nodes: seq<Node>, k: nat): string
    requires k < |nodes|
  {
    if nodes[k].name.Some? then nodes[k].name.value else Decimal(k)
  }

  /** The segments of the path of a node. */
  function Segments(nodes: seq<Node>, address: seq<nat>): (s: seq<string>)
    requires ValidAddress(nodes, address)
    ensures |s| == |address|
    decreases |address|
  {
    if address == [] then []
    else [Segment(nodes, address[0])] + Segments(nodes[address[0]].children, address[1..])
  }

  predicate FirstOfName(nodes: seq<Node>, k: nat)
    requires k < |nodes|
  {
    forall j :: 0 <= j < k ==> nodes[j].name != nodes[k].name
  }

  /** A child can be told from its siblings by its segment: an unnamed one comes among unnamed
      ones; a named one is the first of its name, and when its first sibling has no name its own
      name does not read as another position. */
  predicate Told(nodes: seq<Node>, k: nat)
    requires k < |nodes|
  {
    if nodes[k].name.None? then nodes[0].name.None?
    else
      var index := ParseIndex(nodes[k].name.value);
      if index >= 0 && nodes[0].name.None? then index == k else FirstOfName(nodes, k)
  }

  predicate AllTold(nodes: seq<Node>, address: seq<nat>)
    requires ValidAddress(nodes, address)
    decreases |address|
  {
    address == [] || (Told(nodes, address[0]) && AllTold(nodes[address[0]].children, address[1..]))
  }

  lemma {:induction false} ToldExactly(nodes: seq<Node>, k: nat)
    requires k < |nodes| <= INT_MAX
    ensures ChildAt(nodes, Segment(nodes, k)) == Some(k) <==> Told(nodes, k)
  {
    if nodes[k].name.None? {
      IndexRoundTrip(k);
    }
  }

  predicate Narrow(nodes: seq<Node>, address: seq<nat>)
    requires ValidAddress(nodes, address)
    decreases |address|
  {
    address == [] || (|nodes| <= INT_MAX && Narrow(nodes[address[0]].children, address[1..]))
  }

  lemma {:induction false} DescendExactly(nodes: seq<Node>, address: seq<nat>)
    requires ValidAddress(nodes, address) && Narrow(nodes, address)
    ensures Descend(nodes, Segments(nodes, address)) == Some(address) <==> AllTold(nodes, address)
    decreases |address|
  {
    if address != [] {
      var k, rest := address[0], address[1..];
      ToldExactly(nodes, k);
      DescendExactly(nodes[k].children, rest);
      assert Segments(nodes, address)[1..] == Segments(nodes[k].children, rest);
      assert address == [k] + rest;
      var found := ChildAt(nodes, Segment(nodes, k));
      if found.Some? && found.value != k {
        var below := Descend(nodes[found.value].children, Segments(nodes[k].children, rest));
        assert below.Some? ==> ([found.value] + below.value)[0] != address[0];
      }
      if found == Some(k) {
        var below := Descend(nodes[k].children, Segments(nodes[k].children, rest));
        assert below.Some? ==> ([k] + below.value)[1..] == below.value;
      }
    }
  }

  /** The lookup of a node's path finds that node exactly when its root is the first of its name
      and each node on the way can be told from its siblings. */
  lemma {:induction false} FindExactly(roots: seq<Node>, address: seq<nat>)
    requires ValidAddress(roots, address) && address != [] && Narrow(roots, address)
    requires roots[address[0]].name.Some? && NoSlash(Segments(roots, address))
    ensures Find(roots, Join(Segments(roots, address))) == Some(address)
            <==> FirstOfName(roots, address[0]) && AllTold(roots[address[0]].children, address[1..])
  {
    var segments := Segments(roots, address);
    var k, rest := address[0], address[1..];
    var below := Segments(roots[k].children, rest);
    SplitJoin(segments);
    var split := [""] + segments;
    assert split[1] == segments[0] == roots[k].name.value && split[2..] == below;
    DescendExactly(roots[k].children, rest);
    assert address == [k] + rest;
    var found := ByName(roots, segments[0], 0);
    if found.Some? && found.value != k {
      var deeper := Descend(roots[found.value].children, below);
      assert deeper.Some? ==> ([found.value] + deeper.value)[0] != address[0];
    } else if found == Some(k) {
      var deeper := Descend(roots[k].children, below);
      assert deeper.Some? ==> ([k] + deeper.value)[1..] == deeper.value;
    }
  }

  // ----- the items of a sequence -----

  /** The path of item `j` of the sequence `name`. */
  function ItemPath(name: string, j: nat): string {
    Join([name, Decimal(j)])
  }

  predicate Unnamed(children: seq<Node>) {
    forall j :: 0 <= j < |children| ==> children[j].name.None?
  }

  /** The path of a sequence leads to it, and the path of an item to the item at that place. */
  lemma {:induction false} FindItem(roots: seq<Node>, r: nat, name: string, j: nat)
    requires r < |roots| <= INT_MAX && roots[r].name == Some(name) && FirstOfName(roots, r) && '/' !in name
    requires Unnamed(roots[r].children) && |roots[r].children| <= INT_MAX
    ensures Find(roots, Join([name])) == Some([r])
    ensures j < |roots[r].children| ==> Find(roots, ItemPath(name, j)) == Some([r, j])
  {
    assert [r][1..] == [];
    assert Segments(roots, [r]) == [name];
    FindExactly(roots, [r]);
    if j < |roots[r].children| {
      var address := [r, j];
      assert address[1..] == [j] && [j][1..] == [];
      DecimalDigits(j);
      assert Segments(roots, address) == [name, Decimal(j)];
      assert NoSlash([name, Decimal(j)]);
      FindExactly(roots, address);
    }
  }

  /** The tree without item `k` of the sequence at `r`. */
  function Without(roots: seq<Node>, r: nat, k: nat): seq<Node>
    requires r < |roots| && k < |roots[r].children|
  {
    var children := roots[r].children;
    roots[r := roots[r].(children := children[..k] + children[k+1..])]
  }

  /** Once item `k` is gone, the path of item `j` leads to the item that was at `j`, or after `j`
      when `k` came before it. */
  lemma {:induction false} FindAfterRemoval(roots: seq<Node>, r: nat, name: string, k: nat, j: nat)
    requires r < |roots| <= INT_MAX && roots[r].name == Some(name) && FirstOfName(roots, r) && '/' !in name
    requires Unnamed(roots[r].children) && k < |roots[r].children| <= INT_MAX
    requires j < |roots[r].children| - 1
    ensures var after := Without(roots, r, k);
            && Find(after, ItemPath(name, j)) == Some([r, j])
            && after[r].children[j] == roots[r].children[if j < k then j else j + 1]
  {
    var after := Without(roots, r, k);
    assert FirstOfName(after, r);
    FindItem(after, r, name, j);
  }
}
