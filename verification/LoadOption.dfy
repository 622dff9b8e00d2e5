/** EFI_LOAD_OPTION (section 3.1.3 of UEFI 2.10): attributes, description, device path. */
module LoadOption {
  import opened Basics
  import opened LittleEndian

  /** One device path node; its header's length field covers the header too. */
  datatype Node = Node(typ: byte, sub: byte, data: seq<byte>)

  datatype BootOption = BootOption(attributes: nat, nodes: seq<Node>)

  predicate IsEnd(typ: byte, sub: byte) {
    typ == 0x7f && sub == 0xff
  }

  // ---- the parser ----

  /** The end of the description: the first UCS-2 zero at or after i. */
  function DescriptionEnd(opt: seq<byte>, i: nat): Option<nat>
    decreases |opt| - i
  {
    if i + 1 >= |opt| then None
    else if opt[i] == 0 && opt[i + 1] == 0 then Some(i + 2)
    else DescriptionEnd(opt, i + 2)
  }

  function ParseNodes(path: seq<byte>): Option<seq<Node>> {
    if |path| < 4 then None
    else
      var n := FromLE(path[2..4]);
      if n < 4 || n > |path| then None
      else if IsEnd(path[0], path[1]) then Some([])
      else
        match ParseNodes(path[n..])
        case None => None
        case Some(rest) => Some([Node(path[0], path[1], path[4..n])] + rest)
  }

  function Parse(opt: seq<byte>): Option<BootOption> {
    if |opt| < 6 then None
    else
      match DescriptionEnd(opt, 6)
      case None => None
      case Some(start) =>
        var pathLen := FromLE(opt[4..6]);
        if start + pathLen > |opt| then None
        else
          match ParseNodes(opt[start..start + pathLen])
          case None => None
          case Some(nodes) => Some(BootOption(FromLE(opt[0..4]), nodes))
  }

  /** parseLoadOption: terminates without reading out of range on every byte string. */
  method ParseLoadOption(opt: seq<byte>) returns (r: Option<BootOption>)
    ensures r == Parse(opt)
  {
    if |opt| < 6 { return None; }
    var pathLen := FromLE(opt[4..6]);
    var start, i := None, 6;
    while i + 1 < |opt| && start.None?
      invariant i >= 6
      invariant start == None ==> DescriptionEnd(opt, 6) == DescriptionEnd(opt, i)
      invariant start.Some? ==> start == DescriptionEnd(opt, 6)
      decreases |opt| - i, start.None?
    {
      if opt[i] == 0 && opt[i + 1] == 0 {
        start := Some(i + 2);
      } else {
        i := i + 2;
      }
    }
    if start.None? || start.value + pathLen > |opt| { return None; }
    var path := opt[start.value..start.value + pathLen];
    ghost var whole := path;
    var nodes := [];
    assert forall rest: seq<Node> :: nodes + rest == rest;
    while |path| >= 4
      invariant ParseNodes(whole) == match ParseNodes(path) case None => None case Some(rest) => Some(nodes + rest)
    {
      var typ, sub, n := path[0], path[1], FromLE(path[2..4]);
      if n < 4 || n > |path| { return None; }
      if IsEnd(typ, sub) {
        assert nodes + [] == nodes;
        return Some(BootOption(FromLE(opt[0..4]), nodes));
      }
      ghost var rest := ParseNodes(path[n..]);
      if rest.Some? {
        assert nodes + ([Node(typ, sub, path[4..n])] + rest.value) == (nodes + [Node(typ, sub, path[4..n])]) + rest.value;
      }
      nodes := nodes + [Node(typ, sub, path[4..n])];
      path := path[n..];
    }
    return None;
  }

  // ---- the format ----

  predicate WellFormedNode(n: Node) {
    |n.data| + 4 < 0x1_0000 && !IsEnd(n.typ, n.sub)
  }

  function EncodeNode(n: Node): seq<byte> {
    [n.typ, n.sub] + ToLE(4 + |n.data|, 2) + n.data
  }

  function EncodeNodes(nodes: seq<Node>): seq<byte> {
    if nodes == [] then [] else EncodeNode(nodes[0]) + EncodeNodes(nodes[1..])
  }

  const END_NODE: seq<byte> := [0x7f, 0xff, 4, 0]

  /** Two bytes per character, none of them the terminator. */
  predicate Description(d: seq<byte>) {
    |d| % 2 == 0 && forall i :: 0 <= i < |d| / 2 ==> d[2 * i] != 0 || d[2 * i + 1] != 0
  }

  /** `more` holds further device paths after the first, `optional` the loader's own data. */
  function Encode(attributes: nat, description: seq<byte>, nodes: seq<Node>, more: seq<byte>, optional: seq<byte>): seq<byte> {
    var path := EncodeNodes(nodes) + END_NODE + more;
    ToLE(attributes, 4) + ToLE(|path|, 2) + description + [0, 0] + path + optional
  }

  lemma DescriptionIsSkipped(opt: seq<byte>, i: nat, d: seq<byte>)
    requires Description(d) && i + |d| + 2 <= |opt|
    requires opt[i..i + |d|] == d && opt[i + |d|] == 0 && opt[i + |d| + 1] == 0
    ensures DescriptionEnd(opt, i) == Some(i + |d| + 2)
    decreases |d|
  {
    if |d| > 0 {
      assert d[2 * 0] != 0 || d[2 * 0 + 1] != 0;
      assert opt[i] == d[0] && opt[i + 1] == d[1];
      var t := d[2..];
      forall k | 0 <= k < |t| / 2
        ensures t[2 * k] != 0 || t[2 * k + 1] != 0
      {
        assert d[2 * (k + 1)] != 0 || d[2 * (k + 1) + 1] != 0;
      }
      DescriptionIsSkipped(opt, i + 2, t);
    }
  }

  lemma NodeHeader(n: Node, rest: seq<byte>)
    requires WellFormedNode(n)
    ensures var b := EncodeNode(n) + rest;
            && b[0] == n.typ && b[1] == n.sub && FromLE(b[2..4]) == 4 + |n.data| == |EncodeNode(n)|
            && b[4..4 + |n.data|] == n.data && b[4 + |n.data|..] == rest
  {
    var b := EncodeNode(n) + rest;
    assert b[2..4] == ToLE(4 + |n.data|, 2);
    assert Pow256(2) == 0x1_0000;
    FromToLE(4 + |n.data|, 2);
  }

  lemma EndNodeParses(more: seq<byte>)
    ensures ParseNodes(END_NODE + more) == Some([])
  {
    assert (END_NODE + more)[2..4] == ToLE(4, 2) by {
      assert ToLE(4, 2) == [4] + ToLE(0, 1);
    }
    assert Pow256(2) == 0x1_0000;
    FromToLE(4, 2);
  }

  lemma {:induction false} NodesParse(nodes: seq<Node>, more: seq<byte>)
    requires forall n :: n in nodes ==> WellFormedNode(n)
    ensures ParseNodes(EncodeNodes(nodes) + END_NODE + more) == Some(nodes)
  {
    var path := EncodeNodes(nodes) + END_NODE + more;
    if nodes == [] {
      assert path == END_NODE + more;
      EndNodeParses(more);
    } else {
      var rest := EncodeNodes(nodes[1..]) + END_NODE + more;
      Assoc(EncodeNode(nodes[0]), EncodeNodes(nodes[1..]), END_NODE);
      Assoc(EncodeNode(nodes[0]), EncodeNodes(nodes[1..]) + END_NODE, more);
      NodeHeader(nodes[0], rest);
      NodesParse(nodes[1..], more);
      assert Node(path[0], path[1], path[4..4 + |nodes[0].data|]) == nodes[0];
      assert nodes == [nodes[0]] + nodes[1..];
    }
  }

  /** Parsing inverts serialization: any attributes, description, first path, trailing paths and data. */
  lemma ParseInvertsEncode(attributes: nat, description: seq<byte>, nodes: seq<Node>, more: seq<byte>, optional: seq<byte>)
    requires attributes < 0x1_0000_0000 && Description(description)
    requires forall n :: n in nodes ==> WellFormedNode(n)
    requires |EncodeNodes(nodes) + END_NODE + more| < 0x1_0000
    ensures Parse(Encode(attributes, description, nodes, more, optional)) == Some(BootOption(attributes, nodes))
  {
    var path := EncodeNodes(nodes) + END_NODE + more;
    var opt := Encode(attributes, description, nodes, more, optional);
    var start := 6 + |description| + 2;
    assert opt[0..4] == ToLE(attributes, 4);
    assert opt[4..6] == ToLE(|path|, 2);
    assert opt[6..6 + |description|] == description;
    assert opt[start..start + |path|] == path;
    assert Pow256(2) == 0x1_0000;
    assert Pow256(4) == 0x1_0000_0000 by {
      assert Pow256(4) == 256 * (256 * Pow256(2));
    }
    FromToLE(attributes, 4);
    FromToLE(|path|, 2);
    DescriptionIsSkipped(opt, 6, description);
    NodesParse(nodes, more);
  }

  /** `path` starts with the serialized nodes, followed by the header of an end node. */
  predicate Spells(path: seq<byte>, nodes: seq<Node>) {
    && EncodeNodes(nodes) <= path
    && |path| >= |EncodeNodes(nodes)| + 4
    && IsEnd(path[|EncodeNodes(nodes)|], path[|EncodeNodes(nodes)| + 1])
  }

  lemma {:induction false} ParsedNodesSpell(path: seq<byte>)
    requires ParseNodes(path).Some?
    ensures Spells(path, ParseNodes(path).value)
    ensures forall n :: n in ParseNodes(path).value ==> WellFormedNode(n)
    decreases |path|
  {
    var n := FromLE(path[2..4]);
    if !IsEnd(path[0], path[1]) {
      ParsedNodesSpell(path[n..]);
      var first := Node(path[0], path[1], path[4..n]);
      FromLEBound(path[2..4]);
      assert Pow256(2) == 0x1_0000;
      ToFromLE(path[2..4]);
      assert EncodeNode(first) == path[..n];
      var rest := ParseNodes(path[n..]).value;
      assert ParseNodes(path).value == [first] + rest;
      assert EncodeNodes([first] + rest) == EncodeNode(first) + EncodeNodes(rest) by {
        assert ([first] + rest)[1..] == rest;
      }
      assert path == path[..n] + path[n..];
    }
  }

  /** A description fills the bytes from 6 to its terminator before `start`, and the device path list from there spells the nodes. */
  predicate Contains(opt: seq<byte>, start: nat, nodes: seq<Node>) {
    && |opt| >= 6 && 8 <= start
    && start + FromLE(opt[4..6]) <= |opt|
    && Description(opt[6..start - 2]) && opt[start - 2] == 0 && opt[start - 1] == 0
    && Spells(opt[start..start + FromLE(opt[4..6])], nodes)
  }

  /** Conversely, whatever is accepted contains its own nodes, serialized, right behind its description. */
  lemma AcceptedContainsItsNodes(opt: seq<byte>)
    requires Parse(opt).Some?
    ensures Contains(opt, DescriptionEnd(opt, 6).value, Parse(opt).value.nodes)
    ensures Parse(opt).value.attributes == FromLE(opt[0..4])
    ensures forall n :: n in Parse(opt).value.nodes ==> WellFormedNode(n)
  {
    DescriptionBeforeEnd(opt, 6);
    var start := DescriptionEnd(opt, 6).value;
    ParsedNodesSpell(opt[start..start + FromLE(opt[4..6])]);
  }

  lemma {:induction false} DescriptionBeforeEnd(opt: seq<byte>, i: nat)
    requires DescriptionEnd(opt, i).Some?
    ensures var e := DescriptionEnd(opt, i).value;
            i + 2 <= e <= |opt| && opt[e - 2] == 0 && opt[e - 1] == 0 && Description(opt[i..e - 2])
    decreases |opt| - i
  {
    if !(opt[i] == 0 && opt[i + 1] == 0) {
      DescriptionBeforeEnd(opt, i + 2);
      var e := DescriptionEnd(opt, i + 2).value;
      assert opt[i..e - 2] == [opt[i], opt[i + 1]] + opt[i + 2..e - 2];
      DescriptionGrows(opt[i], opt[i + 1], opt[i + 2..e - 2]);
    }
  }

  lemma DescriptionGrows(a: byte, b: byte, d: seq<byte>)
    requires Description(d) && (a != 0 || b != 0)
    ensures Description([a, b] + d)
  {
    var t := [a, b] + d;
    forall k | 0 <= k < |t| / 2
      ensures t[2 * k] != 0 || t[2 * k + 1] != 0
    {
      assert k > 0 ==> t[2 * k] == d[2 * (k - 1)] && t[2 * k + 1] == d[2 * (k - 1) + 1];
    }
  }

  /** A small option in bytes: active, described as "A", with one vendor node of two data bytes. */
  lemma SampleOption()
    ensures Parse([1, 0, 0, 0] + [10, 0] + [0x41, 0] + [0, 0] + ([1, 4, 6, 0, 8, 9] + [0x7f, 0xff, 4, 0] + []) + [5, 5])
         == Some(BootOption(1, [Node(1, 4, [8, 9])]))
  {
    var nodes := [Node(1, 4, [8, 9])];
    LowBytes(1);
    LowBytes(6);
    LowBytes(10);
    assert EncodeNodes(nodes[1..]) == [];
    assert EncodeNodes(nodes) == [1, 4, 6, 0, 8, 9];
    ParseInvertsEncode(1, [0x41, 0], nodes, [], [5, 5]);
  }

  lemma LowBytes(v: nat)
    requires v < 256
    ensures ToLE(v, 2) == [v, 0] && ToLE(v, 4) == [v, 0, 0, 0]
  {
    assert ToLE(0, 1) == [0] + ToLE(0, 0);
    assert ToLE(0, 2) == [0] + ToLE(0, 1);
    assert ToLE(0, 3) == [0] + ToLE(0, 2);
  }
}
