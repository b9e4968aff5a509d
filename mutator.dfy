/** The tree edits of processor.go and splitter.go: upserting and removing an
    annotation, overwriting `metadata.name`, and injecting the hook's
    environment variables into every container. Go edits the nodes in place
    through pointers; here each edit returns the edited node, and the method
    that mirrors the Go loop is proved equal to the function that specifies it.
    Every lookup stops at the first matching key. */
module Mutator {
  import opened Wrappers
  import opened Text
  import opened Tree

  // ---------------------------------------------------------------------------
  // One annotation (setAnnotationValue, removeAnnotationKey)

  /** setAnnotationValue: overwrite the first pair with this key with a
      double-quoted string, or append a new pair; a node that is not a mapping
      is left alone. */
  function Upserted(annotations: Node, key: string, value: string): Node {
    if annotations.kind != MappingNode then annotations
    else
      match KeyPos(annotations.content, key)
      case Some(k) => ReplaceValue(annotations, k, Requote(annotations.content[2 * k + 1], value))
      case None => annotations.(content := annotations.content + [Scalar(key), QuotedScalar(value)])
  }

  /** After an upsert the key reads back as the double-quoted value, every other
      key reads as before, and the key list gains the key at the end exactly
      when it was missing. */
  lemma UpsertedLookup(a: Node, key: string, value: string, other: string)
    requires a.kind == MappingNode && |a.content| % 2 == 0
    ensures var r := Upserted(a, key, value);
      r.kind == MappingNode && |r.content| % 2 == 0 &&
      Lookup(r.content, key).Some? &&
      Lookup(r.content, key).value.value == value &&
      Lookup(r.content, key).value.tag == StrTag &&
      Lookup(r.content, key).value.style == DoubleQuotedStyle &&
      (other != key ==> Lookup(r.content, other) == Lookup(a.content, other)) &&
      Keys(r.content) == if key in Keys(a.content) then Keys(a.content) else Keys(a.content) + [key]
  {
    var r := Upserted(a, key, value);
    match KeyPos(a.content, key)
    case Some(k) =>
      var v := Requote(a.content[2 * k + 1], value);
      assert r == ReplaceValue(a, k, v);
      assert key in Keys(a.content) && Keys(r.content) == Keys(a.content);
      assert Lookup(r.content, key) == Some(v) by {
        LookupReplaceValue(a, k, v, key);
      }
      assert other != key ==> Lookup(r.content, other) == Lookup(a.content, other) by {
        if other != key {
          LookupReplaceValue(a, k, v, other);
        }
      }
    case None =>
      var c := a.content + [Scalar(key), QuotedScalar(value)];
      assert r.content == c;
      assert Keys(c) == Keys(a.content) + [key] by {
        AppendPairKeys(a.content, Scalar(key), QuotedScalar(value));
      }
      assert Lookup(c, key) == Some(QuotedScalar(value)) by {
        LookupAppendPair(a.content, Scalar(key), QuotedScalar(value), key);
      }
      assert other != key ==> Lookup(c, other) == Lookup(a.content, other) by {
        if other != key {
          LookupAppendPair(a.content, Scalar(key), QuotedScalar(value), other);
        }
      }
  }

  /** Upserting the same key twice keeps only the second value; in particular an
      upsert is idempotent. */
  lemma UpsertedTwice(a: Node, key: string, v1: string, v2: string)
    requires |a.content| % 2 == 0
    ensures Upserted(Upserted(a, key, v1), key, v2) == Upserted(a, key, v2)
  {
    if a.kind == MappingNode {
      var b := Upserted(a, key, v1);
      match KeyPos(a.content, key)
      case Some(k) =>
        KeyPosSameKeys(b.content, a.content, key);
        assert b.content[2 * k + 1 := Requote(b.content[2 * k + 1], v2)]
          == a.content[2 * k + 1 := Requote(a.content[2 * k + 1], v2)];
      case None =>
        var n := |a.content| / 2;
        AppendPairKeys(a.content, Scalar(key), QuotedScalar(v1));
        forall i | 0 <= i < n
          ensures KeyAt(b.content, i) != key
        {
          assert KeyAt(b.content, i) == Keys(a.content)[i];
        }
        KeyPosIs(b.content, key, n);
        assert b.content[2 * n + 1 := Requote(b.content[2 * n + 1], v2)]
          == a.content + [Scalar(key), QuotedScalar(v2)];
    }
  }

  /** removeAnnotationKey: drop the first pair with this key, if any. */
  function WithoutKey(annotations: Node, key: string): Node {
    if annotations.kind != MappingNode then annotations
    else
      match KeyPos(annotations.content, key)
      case Some(k) => annotations.(content := DropPair(annotations.content, k))
      case None => annotations
  }

  /** Removal takes out exactly the first pair with the key, keeping every other
      pair in order; a later duplicate of the key survives, and lookups of other
      keys are unaffected. */
  lemma WithoutKeyLookup(a: Node, key: string, other: string)
    requires a.kind == MappingNode && |a.content| % 2 == 0
    ensures var r := WithoutKey(a, key);
      r.kind == MappingNode && |r.content| % 2 == 0 &&
      (key !in Keys(a.content) ==> r == a) &&
      (KeyPos(a.content, key).Some? ==>
        var p := KeyPos(a.content, key).value;
        Keys(r.content) == Keys(a.content)[..p] + Keys(a.content)[p + 1..]) &&
      (other != key ==> Lookup(r.content, other) == Lookup(a.content, other))
  {
    match KeyPos(a.content, key)
    case None =>
    case Some(p) =>
      DropPairKeys(a.content, p);
      if other != key {
        DropPairLookup(a.content, p, other);
      }
  }

  method SetAnnotationValue(annotations: Node, key: string, value: string) returns (r: Node)
    ensures r == Upserted(annotations, key, value)
  {
    if annotations.kind != MappingNode {
      return annotations;
    }
    var c := annotations.content;
    var pos := FindKey(c, key);
    if pos.Some? {
      var k := pos.value;
      return annotations.(content := c[2 * k + 1 := Requote(c[2 * k + 1], value)]);
    }
    return annotations.(content := c + [Scalar(key), QuotedScalar(value)]);
  }

  method RemoveAnnotationKey(annotations: Node, key: string) returns (r: Node)
    ensures r == WithoutKey(annotations, key)
  {
    if annotations.kind != MappingNode {
      return annotations;
    }
    var c := annotations.content;
    var pos := FindKey(c, key);
    if pos.Some? {
      var k := pos.value;
      return annotations.(content := c[..2 * k] + c[2 * k + 2..]);
    }
    return annotations;
  }

  // ---------------------------------------------------------------------------
  // Through `metadata` (setAnnotation, setAnnotationInMetadata, removeAnnotation,
  // removeAnnotationFromMetadata, setMetadataName, setNameInMetadata)

  /** The annotations mapping of a resource's root mapping, if it has one. */
  function AnnotationsOf(root: Node): Option<Node> {
    match ValueOf(root, "metadata")
    case Some(md) => ValueOf(md, "annotations")
    case None => None
  }

  /** The `metadata.name` node of a resource's root mapping, if it has one. */
  function NameOf(root: Node): Option<Node> {
    match ValueOf(root, "metadata")
    case Some(md) => ValueOf(md, "name")
    case None => None
  }

  /** setAnnotationInMetadata: upsert inside an existing `annotations`; a missing
      `annotations` is not created. */
  function AnnotatedMetadata(metadata: Node, key: string, value: string): Node {
    match ValueOf(metadata, "annotations")
    case Some(a) => PutValue(metadata, "annotations", Upserted(a, key, value))
    case None => metadata
  }

  /** setAnnotation: the same, under the root's first `metadata` pair. */
  function Annotated(root: Node, key: string, value: string): Node {
    match ValueOf(root, "metadata")
    case Some(md) => PutValue(root, "metadata", AnnotatedMetadata(md, key, value))
    case None => root
  }

  /** removeAnnotationFromMetadata. */
  function UnannotatedMetadata(metadata: Node, key: string): Node {
    match ValueOf(metadata, "annotations")
    case Some(a) => PutValue(metadata, "annotations", WithoutKey(a, key))
    case None => metadata
  }

  /** removeAnnotation. */
  function Unannotated(root: Node, key: string): Node {
    match ValueOf(root, "metadata")
    case Some(md) => PutValue(root, "metadata", UnannotatedMetadata(md, key))
    case None => root
  }

  /** setNameInMetadata: only the text of an existing `name` is overwritten; its
      tag and style stay, and a missing `name` is not created. */
  function RenamedMetadata(metadata: Node, name: string): Node {
    match ValueOf(metadata, "name")
    case Some(n) => PutValue(metadata, "name", n.(value := name))
    case None => metadata
  }

  /** setMetadataName. */
  function Renamed(root: Node, name: string): Node {
    match ValueOf(root, "metadata")
    case Some(md) => PutValue(root, "metadata", RenamedMetadata(md, name))
    case None => root
  }

  /** setAnnotation edits exactly the annotations mapping (and is a no-op when
      `metadata` or `metadata.annotations` is missing); the name and every
      top-level pair other than `metadata` are untouched. */
  lemma AnnotatedView(root: Node, key: string, value: string, other: string)
    ensures AnnotationsOf(Annotated(root, key, value)) ==
      match AnnotationsOf(root)
      case Some(a) => Some(Upserted(a, key, value))
      case None => None
    ensures AnnotationsOf(root).None? ==> Annotated(root, key, value) == root
    ensures NameOf(Annotated(root, key, value)) == NameOf(root)
    ensures other != "metadata" ==> ValueOf(Annotated(root, key, value), other) == ValueOf(root, other)
    ensures Keys(Annotated(root, key, value).content) == Keys(root.content)
  {
    match ValueOf(root, "metadata")
    case None =>
    case Some(md) =>
      var md' := AnnotatedMetadata(md, key, value);
      PutValueOf(root, "metadata", md', other);
      match ValueOf(md, "annotations")
      case Some(a) =>
        PutValueOf(md, "annotations", Upserted(a, key, value), "name");
      case None =>
        PutValueOf(root, "metadata", md, other);
  }

  /** removeAnnotation likewise edits exactly the annotations mapping. */
  lemma UnannotatedView(root: Node, key: string, other: string)
    ensures AnnotationsOf(Unannotated(root, key)) ==
      match AnnotationsOf(root)
      case Some(a) => Some(WithoutKey(a, key))
      case None => None
    ensures AnnotationsOf(root).None? ==> Unannotated(root, key) == root
    ensures NameOf(Unannotated(root, key)) == NameOf(root)
    ensures other != "metadata" ==> ValueOf(Unannotated(root, key), other) == ValueOf(root, other)
    ensures Keys(Unannotated(root, key).content) == Keys(root.content)
  {
    match ValueOf(root, "metadata")
    case None =>
    case Some(md) =>
      var md' := UnannotatedMetadata(md, key);
      PutValueOf(root, "metadata", md', other);
      match ValueOf(md, "annotations")
      case Some(a) =>
        PutValueOf(md, "annotations", WithoutKey(a, key), "name");
      case None =>
        PutValueOf(root, "metadata", md, other);
  }

  /** setMetadataName overwrites the text of an existing `metadata.name` and
      nothing else: it never creates the key, and the annotations are untouched. */
  lemma RenamedView(root: Node, name: string, other: string)
    ensures NameOf(Renamed(root, name)) ==
      match NameOf(root)
      case Some(n) => Some(n.(value := name))
      case None => None
    ensures NameOf(root).None? ==> Renamed(root, name) == root
    ensures AnnotationsOf(Renamed(root, name)) == AnnotationsOf(root)
    ensures other != "metadata" ==> ValueOf(Renamed(root, name), other) == ValueOf(root, other)
    ensures Keys(Renamed(root, name).content) == Keys(root.content)
  {
    match ValueOf(root, "metadata")
    case None =>
    case Some(md) =>
      var md' := RenamedMetadata(md, name);
      PutValueOf(root, "metadata", md', other);
      match ValueOf(md, "name")
      case Some(n) =>
        PutValueOf(md, "name", n.(value := name), "annotations");
      case None =>
        PutValueOf(root, "metadata", md, other);
  }

  method SetAnnotationInMetadata(metadata: Node, key: string, value: string) returns (r: Node)
    ensures r == AnnotatedMetadata(metadata, key, value)
  {
    if metadata.kind != MappingNode {
      return metadata;
    }
    var c := metadata.content;
    var pos := FindKey(c, "annotations");
    if pos.None? {
      return metadata;
    }
    var k := pos.value;
    var a := SetAnnotationValue(c[2 * k + 1], key, value);
    return metadata.(content := c[2 * k + 1 := a]);
  }

  method SetAnnotation(root: Node, key: string, value: string) returns (r: Node)
    ensures r == Annotated(root, key, value)
  {
    if root.kind != MappingNode {
      return root;
    }
    var c := root.content;
    var pos := FindKey(c, "metadata");
    if pos.None? {
      return root;
    }
    var k := pos.value;
    var md := SetAnnotationInMetadata(c[2 * k + 1], key, value);
    return root.(content := c[2 * k + 1 := md]);
  }

  method RemoveAnnotationFromMetadata(metadata: Node, key: string) returns (r: Node)
    ensures r == UnannotatedMetadata(metadata, key)
  {
    if metadata.kind != MappingNode {
      return metadata;
    }
    var c := metadata.content;
    var pos := FindKey(c, "annotations");
    if pos.None? {
      return metadata;
    }
    var k := pos.value;
    var a := RemoveAnnotationKey(c[2 * k + 1], key);
    return metadata.(content := c[2 * k + 1 := a]);
  }

  method RemoveAnnotation(root: Node, key: string) returns (r: Node)
    ensures r == Unannotated(root, key)
  {
    if root.kind != MappingNode {
      return root;
    }
    var c := root.content;
    var pos := FindKey(c, "metadata");
    if pos.None? {
      return root;
    }
    var k := pos.value;
    var md := RemoveAnnotationFromMetadata(c[2 * k + 1], key);
    return root.(content := c[2 * k + 1 := md]);
  }

  method SetNameInMetadata(metadata: Node, name: string) returns (r: Node)
    ensures r == RenamedMetadata(metadata, name)
  {
    if metadata.kind != MappingNode {
      return metadata;
    }
    var c := metadata.content;
    var pos := FindKey(c, "name");
    if pos.None? {
      return metadata;
    }
    var k := pos.value;
    return metadata.(content := c[2 * k + 1 := c[2 * k + 1].(value := name)]);
  }

  method SetMetadataName(root: Node, name: string) returns (r: Node)
    ensures r == Renamed(root, name)
  {
    if root.kind != MappingNode {
      return root;
    }
    var c := root.content;
    var pos := FindKey(c, "metadata");
    if pos.None? {
      return root;
    }
    var k := pos.value;
    var md := SetNameInMetadata(c[2 * k + 1], name);
    return root.(content := c[2 * k + 1 := md]);
  }
}
