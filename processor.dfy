/** The per-document decision of processor.go and the whole pipeline over a
    stream of decoded documents: documents without hook annotations pass
    through untouched, a single hook whose weight is already one integer only
    gets its env vars, a single hook in need of work is enhanced in place, and
    several hooks are split into one replica per hook. YAML decoding and
    encoding are outside the model: the pipeline takes the decoded documents,
    and the encoder is a parameter `marshal`. */
module Processor {
  import opened Wrappers
  import opened Text
  import opened Tree
  import opened Mutator
  import opened Env
  import opened EnvProps
  import opened Resolver
  import opened ResolverProps
  import opened Validator
  import opened Naming
  import opened Splitter

  // ---------------------------------------------------------------------------
  // enhanceResource and injectEnvVarsOnly

  /** enhanceResource on the root mapping: the weight's decimal text, then the
      single event, then `helm.sh/hook-weights` dropped, then the env vars when
      enabled. */
  function Enhanced(root: Node, event: string, weight: int, envEnabled: bool): Node {
    var annotated := Unannotated(Annotated(Annotated(root, WeightKey, DecimalString(weight)), HookKey, event), WeightsKey);
    if envEnabled then EnvInjected(annotated, event, weight) else annotated
  }

  method EnhanceResource(node: Node, event: string, weight: int, envEnabled: bool) returns (r: Node)
    ensures r == WithRoot(node, Enhanced(Root(node), event, weight, envEnabled))
  {
    var content := Root(node);
    var weightText := Itoa(weight);
    content := SetAnnotation(content, WeightKey, weightText);
    content := SetAnnotation(content, HookKey, event);
    content := RemoveAnnotation(content, WeightsKey);
    if envEnabled {
      content := InjectEnvVars(content, event, weight);
    }
    return WithRoot(node, content);
  }

  method InjectEnvVarsOnly(node: Node, event: string, weight: int) returns (r: Node)
    ensures r == WithRoot(node, EnvInjected(Root(node), event, weight))
  {
    var content := Root(node);
    content := InjectEnvVars(content, event, weight);
    return WithRoot(node, content);
  }

  // ---------------------------------------------------------------------------
  // processDocument

  /** The hook events of a resource that has `helm.sh/hook` or
      `helm.sh/hook-weights`: taken from the weights mapping when only that is
      present, otherwise from `helm.sh/hook`, which must name at least one. */
  function Events(annotations: map<string, string>): Result<seq<string>, ErrorKind>
    requires HookKey in annotations || WeightsKey in annotations
  {
    if HookKey !in annotations then HooksFromWeights(annotations[WeightsKey])
    else
      var hooks := HookEvents(annotations[HookKey]);
      if hooks == [] then Err(EmptyHookAnnotation) else Ok(hooks)
  }

  /** The fast path: one event, no `helm.sh/hook-weights`, and either no
      `helm.sh/hook-weight` or one that is already a single integer. */
  predicate FastPath(annotations: map<string, string>, hooks: seq<string>) {
    |hooks| == 1 && WeightsKey !in annotations &&
    (WeightKey !in annotations || IsSingleValidWeight(annotations[WeightKey]))
  }

  /** The weight the fast path injects: the integer of `helm.sh/hook-weight`, 0
      without one (and 0 on a parse error, which the fast path never meets). */
  function FastWeight(annotations: map<string, string>): int {
    if WeightKey !in annotations then 0
    else match ParseInt(TrimSpace(annotations[WeightKey]))
      case Some(w) => w
      case None => 0
  }

  /** processDocument: the documents handed to marshalNode, or the first error. */
  function ProcessedDocument(node: Node, hash: string -> Digest): Result<seq<Node>, Error> {
    var res := ResourceOf(node);
    var a := res.annotations;
    if HookKey !in a && WeightsKey !in a then Ok([node])
    else
      match Events(a)
      case Err(e) => Err(Error(res.name, e))
      case Ok(hooks) =>
        match CheckHooks(hooks, res.name)
        case Fail(e) => Err(e)
        case Pass => Outputs(node, res.name, a, hooks, hash)
  }

  /** What processDocument makes of a document whose events passed validation. */
  function Outputs(node: Node, name: string, a: map<string, string>, hooks: seq<string>, hash: string -> Digest): Result<seq<Node>, Error>
    requires hooks != []
  {
    if FastPath(a, hooks) then
      Ok([if EnvEnabled(a) then WithRoot(node, EnvInjected(Root(node), hooks[0], FastWeight(a))) else node])
    else
      match Weights(a, hooks)
      case Err(e) => Err(Error(name, e))
      case Ok(weights) =>
        if |hooks| == 1 then
          Ok([WithRoot(node, Enhanced(Root(node), hooks[0], WeightOf(weights, hooks[0]), EnvEnabled(a)))])
        else
          Ok(Replicas(node, name, hooks, weights, EnvEnabled(a), NameSuffixEnabled(a), hash))
  }

  method ProcessDocument(node: Node, hash: string -> Digest) returns (r: Result<seq<Node>, Error>)
    ensures r == ProcessedDocument(node, hash)
  {
    var res := ParseResource(node);
    var a := res.annotations;
    var hasHook := HookKey in a;
    var hasWeights := WeightsKey in a;
    var hasWeight := WeightKey in a;
    if !hasHook && !hasWeights {
      return Ok([node]);
    }
    var hooks: seq<string>;
    if hasWeights && !hasHook {
      var extracted := ExtractHooksFromWeights(a[WeightsKey]);
      if extracted.Err? {
        return Err(Error(res.name, extracted.error));
      }
      hooks := extracted.value;
    } else {
      hooks := ParseHookEvents(a[HookKey]);
      if |hooks| == 0 {
        return Err(Error(res.name, EmptyHookAnnotation));
      }
    }
    var check := ValidateHooks(hooks, res.name);
    if check.Fail? {
      return Err(check.error);
    }
    assert ProcessedDocument(node, hash) == Outputs(node, res.name, a, hooks, hash);
    r := ProduceOutputs(node, res, hooks, hash);
  }

  /** The rest of processDocument, once the events passed validation. */
  method ProduceOutputs(node: Node, res: Resource, hooks: seq<string>, hash: string -> Digest) returns (r: Result<seq<Node>, Error>)
    requires hooks != []
    ensures r == Outputs(node, res.name, res.annotations, hooks, hash)
  {
    var a := res.annotations;
    var hasWeights := WeightsKey in a;
    var hasWeight := WeightKey in a;
    if |hooks| == 1 && !hasWeights {
      if !hasWeight || IsSingleValidWeight(a[WeightKey]) {
        var envEnabled := EnvEnabled(a);
        var out := node;
        if envEnabled {
          var weight := 0;
          if hasWeight {
            var parsed := ParseInt(TrimSpace(a[WeightKey]));
            weight := if parsed.Some? then parsed.value else 0;
          }
          out := InjectEnvVarsOnly(node, hooks[0], weight);
        }
        return Ok([out]);
      }
    }
    var weights := ParseWeights(a, hooks);
    if weights.Err? {
      return Err(Error(res.name, weights.error));
    }
    var envEnabled := EnvEnabled(a);
    var nameSuffixEnabled := NameSuffixEnabled(a);
    if |hooks| == 1 {
      var out := EnhanceResource(node, hooks[0], WeightOf(weights.value, hooks[0]), envEnabled);
      return Ok([out]);
    }
    var outs := SplitResource(node, res, hooks, weights.value, envEnabled, nameSuffixEnabled, hash);
    return Ok(outs);
  }

  // ---------------------------------------------------------------------------
  // Process and combineDocuments

  /** Process over decoded documents: each document's outputs in turn, stopping
      at the first document that fails. */
  function ProcessedAll(docs: seq<Node>, hash: string -> Digest): Result<seq<Node>, Error> {
    if docs == [] then Ok([])
    else
      match ProcessedDocument(docs[0], hash)
      case Err(e) => Err(e)
      case Ok(outs) => Prepend(outs, ProcessedAll(docs[1..], hash))
  }

  /** outs in front of a successful rest; an error is passed on. */
  function Prepend(outs: seq<Node>, rest: Result<seq<Node>, Error>): Result<seq<Node>, Error> {
    match rest
    case Err(e) => Err(e)
    case Ok(more) => Ok(outs + more)
  }

  lemma PrependNothing(r: Result<seq<Node>, Error>)
    ensures Prepend([], r) == r
  {
    if r.Ok? {
      assert [] + r.value == r.value;
    }
  }

  lemma PrependTwice(outs: seq<Node>, more: seq<Node>, rest: Result<seq<Node>, Error>)
    ensures Prepend(outs, Prepend(more, rest)) == Prepend(outs + more, rest)
  {
    if rest.Ok? {
      assert outs + (more + rest.value) == (outs + more) + rest.value;
    }
  }

  /** One document of ProcessedAll: its own outputs, then the rest's. */
  lemma ProcessedAllStep(docs: seq<Node>, i: nat, hash: string -> Digest)
    requires i < |docs|
    ensures ProcessedAll(docs[i..], hash) ==
      match ProcessedDocument(docs[i], hash)
      case Err(e) => Err(e)
      case Ok(outs) => Prepend(outs, ProcessedAll(docs[i + 1..], hash))
  {
    assert docs[i..][0] == docs[i] && docs[i..][1..] == docs[i + 1..];
  }

  /** combineDocuments: the documents in order with "---\n" before every one but
      the first. Go returns nil for no documents; here that is the empty text. */
  function Combined(docs: seq<string>): string {
    if docs == [] then ""
    else if |docs| == 1 then docs[0]
    else Combined(docs[..|docs| - 1]) + "---\n" + docs[|docs| - 1]
  }

  method CombineDocuments(docs: seq<string>) returns (r: string)
    ensures r == Combined(docs)
  {
    if |docs| == 0 {
      return "";
    }
    r := "";
    var i := 0;
    while i < |docs|
      invariant 0 <= i <= |docs|
      invariant r == Combined(docs[..i])
    {
      if i > 0 {
        r := r + "---\n";
      }
      r := r + docs[i];
      assert docs[..i + 1][..i] == docs[..i];
      i := i + 1;
    }
    assert docs[..i] == docs;
  }

  /** The encoder applied to each output document. */
  function Marshalled(outs: seq<Node>, marshal: Node -> string): (texts: seq<string>)
    ensures |texts| == |outs|
    ensures forall i :: 0 <= i < |outs| ==> texts[i] == marshal(outs[i])
  {
    seq(|outs|, i requires 0 <= i < |outs| => marshal(outs[i]))
  }

  /** Process: every document processed in order, the outputs encoded and joined;
      the first error is returned instead. */
  method Process(docs: seq<Node>, marshal: Node -> string, hash: string -> Digest) returns (r: Result<string, Error>)
    ensures r == match ProcessedAll(docs, hash)
      case Err(e) => Err(e)
      case Ok(outs) => Ok(Combined(Marshalled(outs, marshal)))
  {
    var outputs: seq<Node> := [];
    var i := 0;
    assert docs[0..] == docs;
    PrependNothing(ProcessedAll(docs, hash));
    while i < |docs|
      invariant 0 <= i <= |docs|
      invariant ProcessedAll(docs, hash) == Prepend(outputs, ProcessedAll(docs[i..], hash))
    {
      var processed := ProcessDocument(docs[i], hash);
      ProcessedAllStep(docs, i, hash);
      if processed.Err? {
        assert ProcessedAll(docs[i..], hash) == Err(processed.error);
        return Err(processed.error);
      }
      PrependTwice(outputs, processed.value, ProcessedAll(docs[i + 1..], hash));
      outputs := outputs + processed.value;
      i := i + 1;
    }
    assert ProcessedAll(docs, hash) == Ok(outputs) by {
      assert docs[i..] == [];
      assert outputs + [] == outputs;
    }
    var combined := CombineDocuments(Marshalled(outputs, marshal));
    return Ok(combined);
  }
}
