/** splitter.go: a resource with several hook events becomes one replica per
    event, each a copy of the document with its own name, its own single event
    and weight annotations, no `helm.sh/hook-weights`, and (when enabled) the
    env vars for its event. Copies are values, so editing one replica cannot
    reach the source or a sibling. */
module Splitter {
  import opened Wrappers
  import opened Text
  import opened Tree
  import opened Mutator
  import opened Env
  import opened EnvProps
  import opened Naming
  import opened Resolver

  /** itoa: the digits of |n| are prepended one at a time, least significant
      first, and a '-' is put in front of a negative number. */
  method Itoa(n: int) returns (s: string)
    ensures s == DecimalString(n)
  {
    if n == 0 {
      return "0";
    }
    var negative := n < 0;
    var a: nat := if negative then -n else n;
    var m: nat := a;
    var digits := "";
    while m > 0
      invariant (if m > 0 then NatDigits(m) else "") + digits == NatDigits(a)
    {
      DigitsStep(m, a, digits);
      digits := [DigitChar(m % 10)] + digits;
      m := m / 10;
    }
    DecimalStringSign(n);
    if negative {
      return "-" + digits;
    }
    return digits;
  }

  /** One round of itoa's loop: the last digit of m moves to the front of the
      digits already produced. */
  lemma DigitsStep(m: nat, a: nat, digits: string)
    requires m > 0 && a > 0 && NatDigits(m) + digits == NatDigits(a)
    ensures (if m / 10 > 0 then NatDigits(m / 10) else "") + ([DigitChar(m % 10)] + digits) == NatDigits(a)
  {
    var rest := if m / 10 > 0 then NatDigits(m / 10) else "";
    assert NatDigits(m) == rest + [DigitChar(m % 10)];
    assert rest + ([DigitChar(m % 10)] + digits) == (rest + [DigitChar(m % 10)]) + digits;
  }

  /** Itoa's text is the digits of |n|, with '-' in front when n < 0. */
  lemma DecimalStringSign(n: int)
    requires n != 0
    ensures DecimalString(n) == if n < 0 then "-" + NatDigits(-n) else NatDigits(n)
  {
  }

  /** `weights[hookEvent]` in Go: a hook missing from the map weighs 0. */
  function WeightOf(weights: map<string, int>, event: string): int {
    if event in weights then weights[event] else 0
  }

  /** The replica's name: `GenerateName(name, event)` when suffixing is on,
      otherwise the source's name. */
  function ReplicaName(name: string, event: string, nameSuffixEnabled: bool, hash: string -> Digest): string {
    if nameSuffixEnabled then GenerateName(name, event, hash) else name
  }

  /** updateSplitResource on the root mapping: rename, set the event, set the
      weight's decimal text, drop `helm.sh/hook-weights`, then inject the env
      vars when enabled. */
  function SplitUpdated(root: Node, event: string, weight: int, newName: string, envEnabled: bool): Node {
    var annotated := Unannotated(Annotated(Annotated(Renamed(root, newName), HookKey, event), WeightKey, DecimalString(weight)), WeightsKey);
    if envEnabled then EnvInjected(annotated, event, weight) else annotated
  }

  /** updateSplitResource on a whole document: the edits reach the document's
      first child. */
  function Replica(node: Node, event: string, weight: int, newName: string, envEnabled: bool): Node {
    WithRoot(node, SplitUpdated(Root(node), event, weight, newName, envEnabled))
  }

  method UpdateSplitResource(node: Node, event: string, weight: int, newName: string, envEnabled: bool) returns (r: Node)
    ensures r == Replica(node, event, weight, newName, envEnabled)
  {
    var content := Root(node);
    content := SetMetadataName(content, newName);
    content := SetAnnotation(content, HookKey, event);
    var weightText := Itoa(weight);
    content := SetAnnotation(content, WeightKey, weightText);
    content := RemoveAnnotation(content, WeightsKey);
    if envEnabled {
      content := InjectEnvVars(content, event, weight);
    }
    return WithRoot(node, content);
  }

  /** The output splitResource makes for one event. */
  function ReplicaFor(node: Node, name: string, event: string, weights: map<string, int>,
                      envEnabled: bool, nameSuffixEnabled: bool, hash: string -> Digest): Node {
    Replica(node, event, WeightOf(weights, event), ReplicaName(name, event, nameSuffixEnabled, hash), envEnabled)
  }

  /** f applied to each event in turn, the results appended in order. */
  function Each<T>(f: string -> T, events: seq<string>): seq<T>
    decreases |events|
  {
    if events == [] then [] else Each(f, events[..|events| - 1]) + [f(events[|events| - 1])]
  }

  lemma {:induction false} EachAt<T>(f: string -> T, events: seq<string>)
    ensures |Each(f, events)| == |events|
    ensures forall i :: 0 <= i < |events| ==> Each(f, events)[i] == f(events[i])
    decreases |events|
  {
    if events != [] {
      var init := events[..|events| - 1];
      EachAt(f, init);
      assert forall i :: 0 <= i < |init| ==> init[i] == events[i];
    }
  }

  lemma EachStep<T>(f: string -> T, events: seq<string>, i: nat)
    requires i < |events|
    ensures Each(f, events[..i + 1]) == Each(f, events[..i]) + [f(events[i])]
  {
    assert events[..i + 1][..i] == events[..i];
  }

  /** splitResource's outputs: a replica for each hook, appended in the hooks'
      order. */
  function Replicas(node: Node, name: string, hooks: seq<string>, weights: map<string, int>,
                    envEnabled: bool, nameSuffixEnabled: bool, hash: string -> Digest): seq<Node>
  {
    Each(e => ReplicaFor(node, name, e, weights, envEnabled, nameSuffixEnabled, hash), hooks)
  }

  /** The body of splitResource's loop: the name for the event, then the
      update of a copy of the source. */
  method MakeReplica(node: Node, name: string, event: string, weights: map<string, int>,
                     envEnabled: bool, nameSuffixEnabled: bool, hash: string -> Digest) returns (out: Node)
    ensures out == ReplicaFor(node, name, event, weights, envEnabled, nameSuffixEnabled, hash)
  {
    var cloned := node;
    var newName := name;
    if nameSuffixEnabled {
      newName := GenerateName(name, event, hash);
    }
    out := UpdateSplitResource(cloned, event, WeightOf(weights, event), newName, envEnabled);
  }

  method SplitResource(node: Node, res: Resource, hooks: seq<string>, weights: map<string, int>,
                       envEnabled: bool, nameSuffixEnabled: bool, hash: string -> Digest) returns (results: seq<Node>)
    ensures results == Replicas(node, res.name, hooks, weights, envEnabled, nameSuffixEnabled, hash)
  {
    ghost var f := e => ReplicaFor(node, res.name, e, weights, envEnabled, nameSuffixEnabled, hash);
    results := [];
    var i := 0;
    while i < |hooks|
      invariant 0 <= i <= |hooks|
      invariant results == Each(f, hooks[..i])
    {
      var out := MakeReplica(node, res.name, hooks[i], weights, envEnabled, nameSuffixEnabled, hash);
      EachStep(f, hooks, i);
      assert out == f(hooks[i]);
      results := results + [out];
      i := i + 1;
    }
    assert hooks[..i] == hooks;
  }

  /** splitResource returns exactly one output per hook, in the hooks' order:
      output i is the replica for hooks[i]. */
  lemma ReplicasInOrder(node: Node, name: string, hooks: seq<string>, weights: map<string, int>,
                        envEnabled: bool, nameSuffixEnabled: bool, hash: string -> Digest, i: nat)
    requires i < |hooks|
    ensures |Replicas(node, name, hooks, weights, envEnabled, nameSuffixEnabled, hash)| == |hooks|
    ensures Replicas(node, name, hooks, weights, envEnabled, nameSuffixEnabled, hash)[i]
      == ReplicaFor(node, name, hooks[i], weights, envEnabled, nameSuffixEnabled, hash)
  {
    EachAt(e => ReplicaFor(node, name, e, weights, envEnabled, nameSuffixEnabled, hash), hooks);
  }

  // ---------------------------------------------------------------------------
  // What a replica looks like

  /** Key k occurs at most once in ks. */
  predicate AtMostOnce(ks: seq<string>, k: string) {
    forall i, j :: 0 <= i < j < |ks| && ks[i] == k ==> ks[j] != k
  }

  /** A replica's `metadata.name` is the new name, when the source has a name;
      none is created when it has not. */
  lemma ReplicaNamed(root: Node, event: string, weight: int, newName: string, envEnabled: bool)
    ensures NameOf(SplitUpdated(root, event, weight, newName, envEnabled)) ==
      match NameOf(root)
      case Some(n) => Some(n.(value := newName))
      case None => None
  {
    var r1 := Renamed(root, newName);
    var r2 := Annotated(r1, HookKey, event);
    var r3 := Annotated(r2, WeightKey, DecimalString(weight));
    var r4 := Unannotated(r3, WeightsKey);
    RenamedView(root, newName, "");
    AnnotatedView(r1, HookKey, event, "");
    AnnotatedView(r2, WeightKey, DecimalString(weight), "");
    UnannotatedView(r3, WeightsKey, "");
    EnvInjectedScope(r4, event, weight, "");
  }

  /** The annotations of a replica: `helm.sh/hook` is its own event and
      `helm.sh/hook-weight` the decimal text of its weight, both double-quoted
      strings; `helm.sh/hook-weights` is gone when it appeared once; every other
      annotation reads as in the source. A source without annotations gets
      none. */
  lemma ReplicaAnnotated(root: Node, event: string, weight: int, newName: string, envEnabled: bool, other: string)
    ensures var r := SplitUpdated(root, event, weight, newName, envEnabled);
      (AnnotationsOf(root).None? ==> AnnotationsOf(r).None?) &&
      (AnnotationsOf(root).Some? && AnnotationsOf(root).value.kind == MappingNode && |AnnotationsOf(root).value.content| % 2 == 0 ==>
        var a := AnnotationsOf(root).value.content;
        AnnotationsOf(r).Some? &&
        var a' := AnnotationsOf(r).value.content;
        Lookup(a', HookKey).Some? && Lookup(a', HookKey).value.value == event &&
        Lookup(a', HookKey).value.style == DoubleQuotedStyle &&
        Lookup(a', WeightKey).Some? && Lookup(a', WeightKey).value.value == DecimalString(weight) &&
        Lookup(a', WeightKey).value.style == DoubleQuotedStyle &&
        (AtMostOnce(Keys(a), WeightsKey) ==> Lookup(a', WeightsKey).None?) &&
        (other != HookKey && other != WeightKey && other != WeightsKey ==> Lookup(a', other) == Lookup(a, other)))
  {
    var w := DecimalString(weight);
    var r1 := Renamed(root, newName);
    var r2 := Annotated(r1, HookKey, event);
    var r3 := Annotated(r2, WeightKey, w);
    var r4 := Unannotated(r3, WeightsKey);
    RenamedView(root, newName, "");
    AnnotatedView(r1, HookKey, event, "");
    AnnotatedView(r2, WeightKey, w, "");
    UnannotatedView(r3, WeightsKey, "");
    EnvInjectedScope(r4, event, weight, "");
    if AnnotationsOf(root).Some? && AnnotationsOf(root).value.kind == MappingNode && |AnnotationsOf(root).value.content| % 2 == 0 {
      var a := AnnotationsOf(root).value;
      var b1 := Upserted(a, HookKey, event);
      var b2 := Upserted(b1, WeightKey, w);
      var b3 := WithoutKey(b2, WeightsKey);
      UpsertedLookup(a, HookKey, event, other);
      UpsertedLookup(b1, WeightKey, w, HookKey);
      UpsertedLookup(b1, WeightKey, w, other);
      WithoutKeyLookup(b2, WeightsKey, HookKey);
      WithoutKeyLookup(b2, WeightsKey, WeightKey);
      WithoutKeyLookup(b2, WeightsKey, other);
      if AtMostOnce(Keys(a.content), WeightsKey) {
        AtMostOnceUpserted(a, HookKey, event);
        AtMostOnceUpserted(b1, WeightKey, w);
        RemovedOnce(b2);
      }
    }
  }

  /** An upsert of another key keeps `helm.sh/hook-weights` at most once. */
  lemma AtMostOnceUpserted(a: Node, key: string, value: string)
    requires a.kind == MappingNode && |a.content| % 2 == 0 && key != WeightsKey
    requires AtMostOnce(Keys(a.content), WeightsKey)
    ensures AtMostOnce(Keys(Upserted(a, key, value).content), WeightsKey)
  {
    UpsertedLookup(a, key, value, key);
  }

  /** Removing the only `helm.sh/hook-weights` pair leaves none. */
  lemma RemovedOnce(b: Node)
    requires b.kind == MappingNode && |b.content| % 2 == 0 && AtMostOnce(Keys(b.content), WeightsKey)
    ensures Lookup(WithoutKey(b, WeightsKey).content, WeightsKey).None?
  {
    WithoutKeyLookup(b, WeightsKey, "");
    match KeyPos(b.content, WeightsKey)
    case None =>
    case Some(p) =>
      var ks := Keys(b.content);
      var r := WithoutKey(b, WeightsKey);
      assert ks[p] == WeightsKey;
      forall j | 0 <= j < |ks| && j != p
        ensures ks[j] != WeightsKey
      {
        if j > p {
          assert ks[p] == WeightsKey;
        }
      }
      assert WeightsKey !in Keys(r.content);
  }

  /** Env vars go into a replica exactly when enabled, with the event and the
      weight its annotations carry: the replica with env is the replica without
      env injected for that event and weight, and both have the same name and
      annotations. */
  lemma ReplicaEnv(root: Node, event: string, weight: int, newName: string)
    ensures SplitUpdated(root, event, weight, newName, true) ==
      EnvInjected(SplitUpdated(root, event, weight, newName, false), event, weight)
    ensures NameOf(SplitUpdated(root, event, weight, newName, true)) ==
      NameOf(SplitUpdated(root, event, weight, newName, false))
    ensures AnnotationsOf(SplitUpdated(root, event, weight, newName, true)) ==
      AnnotationsOf(SplitUpdated(root, event, weight, newName, false))
  {
    EnvInjectedScope(SplitUpdated(root, event, weight, newName, false), event, weight, "");
  }

  /** The replica splitResource makes for an event carries that event, that
      hook's weight and the name for that event. */
  lemma ReplicaForEvent(node: Node, name: string, event: string, weights: map<string, int>,
                        envEnabled: bool, nameSuffixEnabled: bool, hash: string -> Digest)
    requires node.kind == DocumentNode && |node.content| > 0
    requires AnnotationsOf(Root(node)).Some? && AnnotationsOf(Root(node)).value.kind == MappingNode
    requires |AnnotationsOf(Root(node)).value.content| % 2 == 0
    ensures AnnotationsOf(Root(ReplicaFor(node, name, event, weights, envEnabled, nameSuffixEnabled, hash))).Some?
    ensures var a' := AnnotationsOf(Root(ReplicaFor(node, name, event, weights, envEnabled, nameSuffixEnabled, hash))).value.content;
      Lookup(a', HookKey).Some? && Lookup(a', HookKey).value.value == event &&
      Lookup(a', WeightKey).Some? && Lookup(a', WeightKey).value.value == DecimalString(WeightOf(weights, event))
    ensures NameOf(Root(ReplicaFor(node, name, event, weights, envEnabled, nameSuffixEnabled, hash))) ==
      match NameOf(Root(node))
      case Some(n) => Some(n.(value := ReplicaName(name, event, nameSuffixEnabled, hash)))
      case None => None
  {
    var nm := ReplicaName(name, event, nameSuffixEnabled, hash);
    ReplicaAnnotated(Root(node), event, WeightOf(weights, event), nm, envEnabled, "");
    ReplicaNamed(Root(node), event, WeightOf(weights, event), nm, envEnabled);
  }

  /** With suffixing on and names short enough to be left whole, replicas for
      different events get different names. */
  lemma ReplicaNamesDistinct(name: string, e1: string, e2: string, hash: string -> Digest)
    requires e1 != e2
    requires |name| + 1 + |e1| <= MaxNameLength && |name| + 1 + |e2| <= MaxNameLength
    ensures ReplicaName(name, e1, true, hash) != ReplicaName(name, e2, true, hash)
  {
    GenerateNameDistinct(name, e1, e2, hash);
  }
}
