/** What processDocument and Process promise: which documents pass through,
    that every success has valid, distinct events and one output per event,
    that every error names its resource, that the fast path injects the same
    weight parseWeights would give, what an enhanced resource's annotations
    read, and how the pipeline composes over a stream of documents. */
module ProcessorProps {
  import opened Wrappers
  import opened Text
  import opened Tree
  import opened Mutator
  import opened Env
  import opened EnvProps
  import opened Resolver
  import opened ResolverProps
  import opened Validator
  import opened Naming
  import opened Splitter
  import opened Processor

  /** A document is a hook resource when it has `helm.sh/hook` or
      `helm.sh/hook-weights`. */
  predicate IsHookResource(node: Node) {
    var a := ResourceOf(node).annotations;
    HookKey in a || WeightsKey in a
  }

  // ---------------------------------------------------------------------------
  // processDocument

  /** A document that is not a hook resource comes out unchanged. */
  lemma NotHookPassesThrough(node: Node, hash: string -> Digest)
    requires !IsHookResource(node)
    ensures ProcessedDocument(node, hash) == Ok([node])
  {
  }

  /** Every event list that processDocument accepts is non-empty, known to Helm
      and free of repeats, and there is exactly one output per event. */
  lemma ProcessedValid(node: Node, hash: string -> Digest)
    requires IsHookResource(node) && ProcessedDocument(node, hash).Ok?
    ensures Events(ResourceOf(node).annotations).Ok?
    ensures var hooks := Events(ResourceOf(node).annotations).value;
      hooks != [] && (forall e :: e in hooks ==> e in ValidHooks) && Distinct(hooks) &&
      |ProcessedDocument(node, hash).value| == |hooks|
  {
    var res := ResourceOf(node);
    var a := res.annotations;
    var hooks := Events(a).value;
    CheckHooksPassIff(hooks, res.name);
    assert CheckHooks(hooks, res.name) == Pass;
    if !FastPath(a, hooks) && |hooks| != 1 {
      var weights := Weights(a, hooks).value;
      ReplicasInOrder(node, res.name, hooks, weights, EnvEnabled(a), NameSuffixEnabled(a), hash, 0);
    }
  }

  /** Every error processDocument reports names the resource it came from. */
  lemma ErrorsNameResource(node: Node, hash: string -> Digest)
    requires ProcessedDocument(node, hash).Err?
    ensures ProcessedDocument(node, hash).error.resource == ResourceOf(node).name
  {
    var res := ResourceOf(node);
    var a := res.annotations;
    if IsHookResource(node) && Events(a).Ok? {
      var hooks := Events(a).value;
      if CheckHooks(hooks, res.name).Fail? {
        assert CheckHooks(hooks, res.name).error.resource == res.name;
      }
    }
  }

  /** A resource that processDocument accepts also passes ValidateAnnotations. */
  lemma ProcessedImpliesValidated(node: Node, hash: string -> Digest)
    requires ProcessedDocument(node, hash).Ok?
    ensures ValidateAnnotations(ResourceOf(node).annotations, ResourceOf(node).name) == Pass
  {
    var res := ResourceOf(node);
    var a := res.annotations;
    if HookKey !in a {
      return;
    }
    var hooks := Events(a).value;
    assert hooks == HookEvents(a[HookKey]);
    assert CheckHooks(hooks, res.name) == Pass;
    if FastPath(a, hooks) {
      if WeightKey in a {
        SingleWeightOnePart(a[WeightKey]);
      }
    } else {
      assert Weights(a, hooks).Ok?;
    }
  }

  /** ValidateAnnotations does not parse a single `helm.sh/hook-weight`: a
      weight that is not a number passes it, while parseWeights rejects it. */
  lemma ValidationAcceptsBadWeight()
    ensures var a := map[HookKey := "test", WeightKey := "x"];
      ValidateAnnotations(a, "r") == Pass &&
      Weights(a, ["test"]) == Err(InvalidWeight("x"))
  {
    var a := map[HookKey := "test", WeightKey := "x"];
    assert HookKey in a && WeightKey in a && WeightsKey !in a && a[HookKey] == "test" && a[WeightKey] == "x";
    assert HookEvents("test") == ["test"] by {
      HookEventsRoundTrip(["test"]);
      assert Join(["test"], ',') == "test";
    }
    assert Split("x", ',') == ["x"] by {
      SplitJoin(["x"], ',');
      assert Join(["x"], ',') == "x";
    }
    assert CheckHooks(["test"], "r") == Pass by {
      CheckHooksPassIff(["test"], "r");
    }
    NotANumber("x");
    WeightBroadcast(a, ["test"]);
  }

  /** A one-letter text is not an integer for strconv.Atoi. */
  lemma NotANumber(s: string)
    requires |s| == 1 && 'a' <= s[0] <= 'z'
    ensures ParseInt(TrimSpace(s)).None?
  {
    assert IsTrimmed(s) by {
      assert !IsSpace(s[0]);
    }
    assert !AllDigits(s) by {
      assert !IsDigit(s[0]);
    }
  }

  // ---------------------------------------------------------------------------
  // The fast path

  /** The fast path injects the weight parseWeights would give the one hook:
      the integer of `helm.sh/hook-weight`, or 0 without one. */
  lemma FastPathWeight(a: map<string, string>, hooks: seq<string>)
    requires FastPath(a, hooks)
    ensures Weights(a, hooks).Ok?
    ensures WeightOf(Weights(a, hooks).value, hooks[0]) == FastWeight(a)
  {
    assert hooks[0] in hooks;
    if WeightKey in a {
      var v := a[WeightKey];
      SingleWeightOnePart(v);
      TrimSpaceKeeps(v, ',');
      WeightBroadcast(a, hooks);
    } else {
      WeightDefault(a, hooks);
    }
  }

  /** On the fast path the one output keeps the document's name, annotations and
      top-level keys; without env injection it is the document itself, and with
      it the spec carries the event and the weight parseWeights would give. */
  lemma FastPathOutput(node: Node, hash: string -> Digest)
    requires node.kind == DocumentNode && |node.content| > 0
    requires IsHookResource(node)
    requires Events(ResourceOf(node).annotations).Ok?
    requires var res := ResourceOf(node); var hooks := Events(res.annotations).value;
      CheckHooks(hooks, res.name) == Pass && FastPath(res.annotations, hooks)
    ensures ProcessedDocument(node, hash).Ok? && |ProcessedDocument(node, hash).value| == 1
    ensures var a := ResourceOf(node).annotations;
      var hooks := Events(a).value;
      var out := ProcessedDocument(node, hash).value[0];
      AnnotationsOf(Root(out)) == AnnotationsOf(Root(node)) &&
      NameOf(Root(out)) == NameOf(Root(node)) &&
      Keys(Root(out).content) == Keys(Root(node).content) &&
      (!EnvEnabled(a) ==> out == node) &&
      (EnvEnabled(a) ==>
        (Weights(a, hooks).Ok? &&
         Root(out) == EnvInjected(Root(node), hooks[0], WeightOf(Weights(a, hooks).value, hooks[0]))))
  {
    var res := ResourceOf(node);
    var a := res.annotations;
    var hooks := Events(a).value;
    FastPathWeight(a, hooks);
    EnvInjectedScope(Root(node), hooks[0], FastWeight(a), "");
  }

  // ---------------------------------------------------------------------------
  // enhanceResource

  /** enhanceResource keeps the name and the top-level keys. */
  lemma EnhancedNamed(root: Node, event: string, weight: int, envEnabled: bool)
    ensures NameOf(Enhanced(root, event, weight, envEnabled)) == NameOf(root)
    ensures Keys(Enhanced(root, event, weight, envEnabled).content) == Keys(root.content)
  {
    var w := DecimalString(weight);
    var r1 := Annotated(root, WeightKey, w);
    var r2 := Annotated(r1, HookKey, event);
    var r3 := Unannotated(r2, WeightsKey);
    AnnotatedView(root, WeightKey, w, "");
    AnnotatedView(r1, HookKey, event, "");
    UnannotatedView(r2, WeightsKey, "");
    EnvInjectedScope(r3, event, weight, "");
  }

  /** After enhanceResource `helm.sh/hook` is the one event and
      `helm.sh/hook-weight` the decimal text of its weight, both double-quoted
      strings; `helm.sh/hook-weights` is gone when it appeared once; every other
      annotation reads as before. A resource without annotations gets none. */
  lemma EnhancedAnnotated(root: Node, event: string, weight: int, envEnabled: bool, other: string)
    ensures var r := Enhanced(root, event, weight, envEnabled);
      (AnnotationsOf(root).None? ==> AnnotationsOf(r).None?) &&
      (AnnotationsOf(root).Some? && AnnotationsOf(root).value.kind == MappingNode && |AnnotationsOf(root).value.content| % 2 == 0 ==>
        var a := AnnotationsOf(root).value.content;
        AnnotationsOf(r).Some? &&
        var a' := AnnotationsOf(r).value.content;
        Lookup(a', HookKey).Some? && Lookup(a', HookKey).value.value == event &&
        Lookup(a', HookKey).value.style == DoubleQuotedStyle &&
        Lookup(a', WeightKey).Some? && Lookup(a', WeightKey).value.value == DecimalString(weight) &&
        Lookup(a', WeightKey).value.style == DoubleQuotedStyle &&
        (AtMostOnce(Keys(a), WeightsKey) ==> Lookup(a', WeightsKey).None?) &&
        (other != HookKey && other != WeightKey && other != WeightsKey ==> Lookup(a', other) == Lookup(a, other)))
  {
    var w := DecimalString(weight);
    var r1 := Annotated(root, WeightKey, w);
    var r2 := Annotated(r1, HookKey, event);
    var r3 := Unannotated(r2, WeightsKey);
    AnnotatedView(root, WeightKey, w, "");
    AnnotatedView(r1, HookKey, event, "");
    UnannotatedView(r2, WeightsKey, "");
    EnvInjectedScope(r3, event, weight, "");
    if AnnotationsOf(root).Some? && AnnotationsOf(root).value.kind == MappingNode && |AnnotationsOf(root).value.content| % 2 == 0 {
      var a := AnnotationsOf(root).value;
      var b1 := Upserted(a, WeightKey, w);
      var b2 := Upserted(b1, HookKey, event);
      UpsertedLookup(a, WeightKey, w, other);
      UpsertedLookup(b1, HookKey, event, WeightKey);
      UpsertedLookup(b1, HookKey, event, other);
      WithoutKeyLookup(b2, WeightsKey, HookKey);
      WithoutKeyLookup(b2, WeightsKey, WeightKey);
      WithoutKeyLookup(b2, WeightsKey, other);
      if AtMostOnce(Keys(a.content), WeightsKey) {
        AtMostOnceUpserted(a, WeightKey, w);
        AtMostOnceUpserted(b1, HookKey, event);
        RemovedOnce(b2);
      }
    }
  }

  // ---------------------------------------------------------------------------
  // Process

  /** Process over two streams in a row is Process over the first, then the
      second: the first error wins. */
  lemma {:induction false} ProcessedAllAppend(d1: seq<Node>, d2: seq<Node>, hash: string -> Digest)
    ensures ProcessedAll(d1 + d2, hash) ==
      match ProcessedAll(d1, hash)
      case Err(e) => Err(e)
      case Ok(outs) => Prepend(outs, ProcessedAll(d2, hash))
    decreases |d1|
  {
    if d1 == [] {
      assert d1 + d2 == d2;
      PrependNothing(ProcessedAll(d2, hash));
    } else {
      assert (d1 + d2)[0] == d1[0] && (d1 + d2)[1..] == d1[1..] + d2;
      ProcessedAllAppend(d1[1..], d2, hash);
      match ProcessedDocument(d1[0], hash)
      case Err(e) =>
      case Ok(o) =>
        match ProcessedAll(d1[1..], hash)
        case Err(e) =>
        case Ok(more) => PrependTwice(o, more, ProcessedAll(d2, hash));
    }
  }

  /** The result of each document of a stream on its own. */
  function Results(docs: seq<Node>, hash: string -> Digest): (rs: seq<Result<seq<Node>, Error>>)
    ensures |rs| == |docs|
    ensures forall i :: 0 <= i < |docs| ==> rs[i] == ProcessedDocument(docs[i], hash)
  {
    seq(|docs|, i requires 0 <= i < |docs| => ProcessedDocument(docs[i], hash))
  }

  /** Per-document results gathered in order, stopping at the first error. */
  function Gather(rs: seq<Result<seq<Node>, Error>>): Result<seq<Node>, Error> {
    if rs == [] then Ok([])
    else
      match rs[0]
      case Err(e) => Err(e)
      case Ok(outs) => Prepend(outs, Gather(rs[1..]))
  }

  /** Process gathers the results of the documents taken one by one. */
  lemma {:induction false} ProcessedAllGather(docs: seq<Node>, hash: string -> Digest)
    ensures ProcessedAll(docs, hash) == Gather(Results(docs, hash))
    decreases |docs|
  {
    if docs != [] {
      ProcessedAllGather(docs[1..], hash);
      assert Results(docs, hash)[1..] == Results(docs[1..], hash);
    }
  }

  /** Gathering fails exactly when some result is an error, and then with the
      first error. */
  lemma {:induction false} GatherFirstError(rs: seq<Result<seq<Node>, Error>>)
    ensures Gather(rs).Err? <==> exists i :: 0 <= i < |rs| && rs[i].Err?
    ensures Gather(rs).Err? ==>
      exists i :: 0 <= i < |rs| && rs[i] == Err(Gather(rs).error) && forall j :: 0 <= j < i ==> rs[j].Ok?
    decreases |rs|
  {
    if rs != [] {
      var rest := rs[1..];
      GatherFirstError(rest);
      match rs[0]
      case Err(e) =>
        assert rs[0] == Err(Gather(rs).error);
      case Ok(o) =>
        if Gather(rest).Err? {
          assert Gather(rs) == Err(Gather(rest).error);
          var i :| 0 <= i < |rest| && rest[i] == Err(Gather(rest).error) && forall j :: 0 <= j < i ==> rest[j].Ok?;
          assert rs[i + 1] == rest[i];
          forall j | 0 <= j < i + 1
            ensures rs[j].Ok?
          {
            if j > 0 {
              assert rs[j] == rest[j - 1];
            }
          }
        } else {
          assert Gather(rs).Ok?;
          forall i | 0 <= i < |rs|
            ensures rs[i].Ok?
          {
            if i > 0 {
              assert rs[i] == rest[i - 1];
            }
          }
        }
    }
  }

  /** Process fails exactly when some document fails, and then with the error of
      the first document that fails (`Results(docs, hash)[i]` is document i's
      own result). */
  lemma ProcessedAllFirstError(docs: seq<Node>, hash: string -> Digest)
    ensures ProcessedAll(docs, hash).Err? <==> exists i :: 0 <= i < |docs| && Results(docs, hash)[i].Err?
    ensures ProcessedAll(docs, hash).Err? ==>
      exists i :: 0 <= i < |docs| && Results(docs, hash)[i] == Err(ProcessedAll(docs, hash).error) &&
        forall j :: 0 <= j < i ==> Results(docs, hash)[j].Ok?
  {
    ProcessedAllGather(docs, hash);
    GatherFirstError(Results(docs, hash));
  }

  /** A stream without hook resources comes out as it went in. */
  lemma {:induction false} NoHooksPassThrough(docs: seq<Node>, hash: string -> Digest)
    requires forall i :: 0 <= i < |docs| ==> !IsHookResource(docs[i])
    ensures ProcessedAll(docs, hash) == Ok(docs)
    decreases |docs|
  {
    if docs != [] {
      var rest := docs[1..];
      assert forall i :: 0 <= i < |rest| ==> rest[i] == docs[i + 1];
      NoHooksPassThrough(rest, hash);
      assert [docs[0]] + rest == docs;
    }
  }

  // ---------------------------------------------------------------------------
  // combineDocuments

  /** Combining two non-empty lists in a row is combining each and putting one
      separator between them. */
  lemma {:induction false} CombinedAppend(a: seq<string>, b: seq<string>)
    requires a != [] && b != []
    ensures Combined(a + b) == Combined(a) + "---\n" + Combined(b)
    decreases |b|
  {
    var last := b[|b| - 1];
    if |b| == 1 {
      assert (a + b)[..|a + b| - 1] == a;
    } else {
      var init := b[..|b| - 1];
      assert (a + b)[..|a + b| - 1] == a + init;
      CombinedAppend(a, init);
    }
  }

  /** The combined text is every document plus one four-character separator
      between each pair of neighbours. */
  lemma {:induction false} CombinedLength(docs: seq<string>)
    requires docs != []
    ensures |Combined(docs)| == TotalLength(docs) + 4 * (|docs| - 1)
    decreases |docs|
  {
    if |docs| > 1 {
      var init := docs[..|docs| - 1];
      CombinedLength(init);
      TotalLengthLast(docs);
    }
  }

  /** The sum of the documents' lengths. */
  function TotalLength(docs: seq<string>): nat {
    if docs == [] then 0 else |docs[0]| + TotalLength(docs[1..])
  }

  lemma {:induction false} TotalLengthLast(docs: seq<string>)
    requires docs != []
    ensures TotalLength(docs) == TotalLength(docs[..|docs| - 1]) + |docs[|docs| - 1]|
    decreases |docs|
  {
    if |docs| > 1 {
      var rest := docs[1..];
      TotalLengthLast(rest);
      assert rest[..|rest| - 1] == docs[..|docs| - 1][1..];
    }
  }

  /** Each document appears in the combined text at its own offset, preceded by a
      separator unless it is the first. */
  lemma {:induction false} CombinedAt(docs: seq<string>, i: nat)
    requires i < |docs|
    ensures var start := TotalLength(docs[..i]) + 4 * i;
      start + |docs[i]| <= |Combined(docs)| &&
      Combined(docs)[start..start + |docs[i]|] == docs[i] &&
      (i > 0 ==> Combined(docs)[start - 4..start] == "---\n")
    decreases |docs|
  {
    var n := |docs|;
    var init := docs[..n - 1];
    var start := TotalLength(docs[..i]) + 4 * i;
    if n == 1 {
      assert docs[..i] == [];
    } else if i < n - 1 {
      CombinedAt(init, i);
      assert init[..i] == docs[..i];
      var c := Combined(init);
      assert Combined(docs) == c + ("---\n" + docs[n - 1]);
      SliceOfPrefix(c, "---\n" + docs[n - 1], start, start + |docs[i]|);
      if i > 0 {
        SliceOfPrefix(c, "---\n" + docs[n - 1], start - 4, start);
      }
    } else {
      CombinedLength(init);
      assert docs[..i] == init;
      var c := Combined(init);
      assert |c| == start - 4;
      assert Combined(docs) == c + "---\n" + docs[i];
    }
  }

  /** A slice that ends inside the first part of a concatenation. */
  lemma SliceOfPrefix(c: string, t: string, x: nat, y: nat)
    requires x <= y <= |c|
    ensures (c + t)[x..y] == c[x..y]
  {
  }
}
