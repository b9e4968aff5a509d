/** The YAML document tree the hook engine edits: the subset of yaml.v3's
    `yaml.Node` that the engine reads or writes. A mapping node keeps its keys
    and values alternately in `content`, so pair k has its key at index 2k and
    its value at index 2k + 1; every lookup scans the pairs in order and stops
    at the first key whose scalar text matches. */
module Tree {
  import opened Wrappers

  /** yaml.v3 node kinds. */
  datatype Kind = DocumentNode | SequenceNode | MappingNode | ScalarNode | AliasNode

  /** The one style the engine writes is double quotes; every other style it
      leaves as it found it. */
  datatype Style = PlainStyle | DoubleQuotedStyle | OtherStyle

  datatype Node = Node(kind: Kind, tag: string, style: Style, value: string, content: seq<Node>)

  /** The tag that makes a scalar an explicit string. */
  const StrTag: string := "!!str"

  /** A fresh plain scalar, as `&yaml.Node{Kind: ScalarNode, Value: v}`. */
  function Scalar(v: string): Node {
    Node(ScalarNode, "", PlainStyle, v, [])
  }

  /** A fresh double-quoted string scalar, as written by the mutators. */
  function QuotedScalar(v: string): Node {
    Node(ScalarNode, StrTag, DoubleQuotedStyle, v, [])
  }

  /** An existing node overwritten in place with a double-quoted string value. */
  function Requote(n: Node, v: string): (r: Node)
    ensures r.value == v && r.tag == StrTag && r.style == DoubleQuotedStyle
    ensures r.kind == n.kind && r.content == n.content
  {
    n.(value := v, tag := StrTag, style := DoubleQuotedStyle)
  }

  /** The text of the key of pair j. */
  function KeyAt(c: seq<Node>, j: nat): string
    requires 2 * j + 1 < |c|
  {
    c[2 * j].value
  }

  /** The key texts of all complete pairs, in order. */
  function Keys(c: seq<Node>): (ks: seq<string>)
    ensures |ks| == |c| / 2
    ensures forall j :: 0 <= j < |ks| ==> ks[j] == KeyAt(c, j)
  {
    seq(|c| / 2, j requires 0 <= j < |c| / 2 => c[2 * j].value)
  }

  function KeyPosFrom(c: seq<Node>, key: string, k: nat): (r: Option<nat>)
    ensures r.Some? ==> k <= r.value && 2 * r.value + 1 < |c| && KeyAt(c, r.value) == key
    ensures r.Some? ==> forall j :: k <= j < r.value ==> KeyAt(c, j) != key
    ensures r.None? ==> forall j :: k <= j && 2 * j + 1 < |c| ==> KeyAt(c, j) != key
    decreases |c| - 2 * k
  {
    if 2 * k + 1 >= |c| then None
    else if c[2 * k].value == key then Some(k)
    else KeyPosFrom(c, key, k + 1)
  }

  /** The index of the first pair whose key is `key`, if any. */
  function KeyPos(c: seq<Node>, key: string): (r: Option<nat>)
    ensures r.Some? ==> 2 * r.value + 1 < |c| && KeyAt(c, r.value) == key
    ensures r.Some? ==> forall j :: 0 <= j < r.value ==> KeyAt(c, j) != key
    ensures r.None? ==> forall j :: 0 <= j && 2 * j + 1 < |c| ==> KeyAt(c, j) != key
    ensures r.None? <==> key !in Keys(c)
  {
    var r := KeyPosFrom(c, key, 0);
    assert r.Some? ==> Keys(c)[r.value] == key;
    r
  }

  /** A pair whose key no earlier pair has is the one KeyPos finds. */
  lemma KeyPosIs(c: seq<Node>, key: string, j: nat)
    requires 2 * j + 1 < |c| && KeyAt(c, j) == key
    requires forall i :: 0 <= i < j ==> KeyAt(c, i) != key
    ensures KeyPos(c, key) == Some(j)
  {
  }

  /** The value node of the first pair whose key is `key`, if any. */
  function Lookup(c: seq<Node>, key: string): Option<Node> {
    match KeyPos(c, key)
    case Some(k) => Some(c[2 * k + 1])
    case None => None
  }

  /** The lookup loop that every Go helper repeats:
      `for i := 0; i < len(n.Content); i += 2 { if n.Content[i].Value == key ... }`. */
  method FindKey(c: seq<Node>, key: string) returns (pos: Option<nat>)
    ensures pos == KeyPos(c, key)
  {
    var k := 0;
    while 2 * k + 1 < |c|
      invariant KeyPosFrom(c, key, k) == KeyPos(c, key)
    {
      if c[2 * k].value == key {
        return Some(k);
      }
      k := k + 1;
    }
    return None;
  }

  /** Lookups see only the keys: two pair lists with the same keys find the
      same pair. */
  lemma {:induction false} KeyPosFromSameKeys(c: seq<Node>, d: seq<Node>, key: string, k: nat)
    requires Keys(c) == Keys(d)
    ensures KeyPosFrom(c, key, k) == KeyPosFrom(d, key, k)
    decreases |c| - 2 * k
  {
    if 2 * k + 1 < |c| {
      assert Keys(c)[k] == Keys(d)[k];
      KeyPosFromSameKeys(c, d, key, k + 1);
    }
  }

  lemma KeyPosSameKeys(c: seq<Node>, d: seq<Node>, key: string)
    requires Keys(c) == Keys(d)
    ensures KeyPos(c, key) == KeyPos(d, key)
  {
    KeyPosFromSameKeys(c, d, key, 0);
  }

  /** Replace the value of pair k, keeping its key and every other pair. */
  function ReplaceValue(n: Node, k: nat, v: Node): (r: Node)
    requires 2 * k + 1 < |n.content|
    ensures r.kind == n.kind && |r.content| == |n.content|
    ensures Keys(r.content) == Keys(n.content)
    ensures r.content[2 * k + 1] == v
    ensures forall i :: 0 <= i < |n.content| && i != 2 * k + 1 ==> r.content[i] == n.content[i]
  {
    var r := n.(content := n.content[2 * k + 1 := v]);
    assert forall j :: 0 <= j < |n.content| / 2 ==> KeyAt(r.content, j) == KeyAt(n.content, j);
    r
  }

  /** After the value of pair k is replaced, a lookup of that pair's key finds the
      new value and a lookup of any key whose first pair is elsewhere is
      unaffected. */
  lemma LookupReplaceValue(n: Node, k: nat, v: Node, key: string)
    requires 2 * k + 1 < |n.content|
    ensures KeyPos(n.content, key) == Some(k) ==> Lookup(ReplaceValue(n, k, v).content, key) == Some(v)
    ensures KeyPos(n.content, key) != Some(k) ==> Lookup(ReplaceValue(n, k, v).content, key) == Lookup(n.content, key)
  {
    KeyPosSameKeys(ReplaceValue(n, k, v).content, n.content, key);
  }

  /** Appending a pair to an even-length pair list adds its key at the end. */
  lemma AppendPairKeys(c: seq<Node>, key: Node, v: Node)
    requires |c| % 2 == 0
    ensures Keys(c + [key, v]) == Keys(c) + [key.value]
  {
    var d := c + [key, v];
    assert forall j :: 0 <= j < |c| / 2 ==> KeyAt(d, j) == KeyAt(c, j);
    assert KeyAt(d, |c| / 2) == key.value;
  }

  /** Lookups in a pair list extended by one pair: an old key still finds its
      old value, the new key (if new) finds the new value. */
  lemma LookupAppendPair(c: seq<Node>, key: Node, v: Node, q: string)
    requires |c| % 2 == 0
    ensures q in Keys(c) ==> Lookup(c + [key, v], q) == Lookup(c, q)
    ensures q !in Keys(c) && q == key.value ==> Lookup(c + [key, v], q) == Some(v)
    ensures q !in Keys(c) && q != key.value ==> Lookup(c + [key, v], q) == None
  {
    var d := c + [key, v];
    AppendPairKeys(c, key, v);
    var p := KeyPos(d, q);
    if p.Some? && p.value < |c| / 2 {
      assert d[2 * p.value + 1] == c[2 * p.value + 1];
      forall i | 0 <= i < p.value
        ensures KeyAt(c, i) != q
      {
        assert KeyAt(d, i) == KeyAt(c, i);
      }
      KeyPosIs(c, q, p.value);
    }
    if q in Keys(c) {
      var pc := KeyPos(c, q).value;
      assert Keys(d)[pc] == q;
    }
  }

  /** A pair list with pair p taken out. */
  function DropPair(c: seq<Node>, p: nat): (d: seq<Node>)
    requires 2 * p + 1 < |c|
    ensures |d| == |c| - 2
    ensures forall j :: 0 <= j < 2 * p ==> d[j] == c[j]
    ensures forall j :: 2 * p <= j < |d| ==> d[j] == c[j + 2]
  {
    c[..2 * p] + c[2 * p + 2..]
  }

  /** Dropping pair p removes the p-th key and shifts the later pairs down. */
  lemma DropPairKeys(c: seq<Node>, p: nat)
    requires 2 * p + 1 < |c|
    ensures Keys(DropPair(c, p)) == Keys(c)[..p] + Keys(c)[p + 1..]
  {
    var d := DropPair(c, p);
    assert forall j :: 0 <= j < p ==> KeyAt(d, j) == KeyAt(c, j);
    assert forall j :: p <= j < |d| / 2 ==> KeyAt(d, j) == KeyAt(c, j + 1);
  }

  /** A lookup of a key other than the dropped pair's finds the same value. */
  lemma DropPairLookup(c: seq<Node>, p: nat, other: string)
    requires 2 * p + 1 < |c| && KeyAt(c, p) != other
    ensures Lookup(DropPair(c, p), other) == Lookup(c, other)
  {
    match KeyPos(c, other)
    case Some(q) =>
      if q < p {
        DropPairBefore(c, p, other, q);
      } else {
        DropPairAfter(c, p, other, q);
      }
    case None =>
      DropPairAbsent(c, p, other);
  }

  /** A key first found before the dropped pair stays where it was. */
  lemma DropPairBefore(c: seq<Node>, p: nat, other: string, q: nat)
    requires 2 * p + 1 < |c| && KeyPos(c, other) == Some(q) && q < p
    ensures KeyPos(DropPair(c, p), other) == Some(q) && DropPair(c, p)[2 * q + 1] == c[2 * q + 1]
  {
    var d := DropPair(c, p);
    forall i | 0 <= i < q
      ensures KeyAt(d, i) != other
    {
      assert KeyAt(d, i) == KeyAt(c, i);
    }
    assert d[2 * q] == c[2 * q] && d[2 * q + 1] == c[2 * q + 1];
    KeyPosIs(d, other, q);
  }

  /** A key first found after the dropped pair moves down by one pair. */
  lemma DropPairAfter(c: seq<Node>, p: nat, other: string, q: nat)
    requires 2 * p + 1 < |c| && KeyAt(c, p) != other && KeyPos(c, other) == Some(q) && q >= p
    ensures q > 0 && KeyPos(DropPair(c, p), other) == Some(q - 1)
    ensures DropPair(c, p)[2 * (q - 1) + 1] == c[2 * q + 1]
  {
    var d := DropPair(c, p);
    forall i | 0 <= i < q - 1
      ensures KeyAt(d, i) != other
    {
      if i >= p {
        assert KeyAt(d, i) == KeyAt(c, i + 1);
      } else {
        assert KeyAt(d, i) == KeyAt(c, i);
      }
    }
    assert d[2 * (q - 1)] == c[2 * q] && d[2 * (q - 1) + 1] == c[2 * q + 1];
    KeyPosIs(d, other, q - 1);
  }

  /** A key that is absent stays absent. */
  lemma DropPairAbsent(c: seq<Node>, p: nat, other: string)
    requires 2 * p + 1 < |c| && KeyPos(c, other).None?
    ensures KeyPos(DropPair(c, p), other).None?
  {
    var d := DropPair(c, p);
    forall i | 0 <= i && 2 * i + 1 < |d|
      ensures KeyAt(d, i) != other
    {
      if i >= p {
        assert KeyAt(d, i) == KeyAt(c, i + 1);
      } else {
        assert KeyAt(d, i) == KeyAt(c, i);
      }
    }
  }

  /** The value under a mapping's first `key` pair; nothing for other nodes. */
  function ValueOf(n: Node, key: string): (r: Option<Node>)
    ensures r.Some? ==> r.value in n.content
  {
    if n.kind != MappingNode then None else Lookup(n.content, key)
  }

  /** The mapping with the value under its first `key` pair replaced by v; a node
      without that pair, or that is not a mapping, is left alone. */
  function PutValue(n: Node, key: string, v: Node): Node {
    if n.kind != MappingNode then n
    else
      match KeyPos(n.content, key)
      case Some(k) => ReplaceValue(n, k, v)
      case None => n
  }

  /** PutValue is read back by ValueOf under its key, changes no other key's
      value and no key, and putting back the value already there changes
      nothing. */
  lemma PutValueOf(n: Node, key: string, v: Node, other: string)
    ensures var r := PutValue(n, key, v);
      r.kind == n.kind && |r.content| == |n.content| && Keys(r.content) == Keys(n.content) &&
      (ValueOf(n, key).Some? ==> ValueOf(r, key) == Some(v)) &&
      (ValueOf(n, key).None? ==> r == n) &&
      (other != key ==> ValueOf(r, other) == ValueOf(n, other)) &&
      (ValueOf(n, key) == Some(v) ==> r == n)
  {
    if n.kind == MappingNode {
      match KeyPos(n.content, key)
      case Some(k) =>
        LookupReplaceValue(n, k, v, key);
        LookupReplaceValue(n, k, v, other);
        if ValueOf(n, key) == Some(v) {
          assert n.content[2 * k + 1 := v] == n.content;
        }
      case None =>
    }
  }

  /** The node the Go code edits: a document's first child, or the node itself. */
  function Root(n: Node): Node {
    if n.kind == DocumentNode && |n.content| > 0 then n.content[0] else n
  }

  /** Put an edited root back into its document. */
  function WithRoot(n: Node, r: Node): (d: Node)
    ensures r == Root(n) ==> d == n
    ensures n.kind == DocumentNode && |n.content| > 0 ==> Root(d) == r
  {
    if n.kind == DocumentNode && |n.content| > 0 then n.(content := n.content[0 := r]) else r
  }
}
