/** The annotation resolver of processor.go: the flat view of a resource
    (kind, name, annotations), the hook-event list, the hook names taken from a
    `helm.sh/hook-weights` mapping, and the per-hook weights with their
    precedence. Each Go function that loops is a method whose result is tied to
    a specification function; the lemmas are stated about those functions. */
module Resolver {
  import opened Wrappers
  import opened Text
  import opened Tree

  // ---------------------------------------------------------------------------
  // Annotation keys and errors

  const HookKey: string := "helm.sh/hook"
  const WeightKey: string := "helm.sh/hook-weight"
  const WeightsKey: string := "helm.sh/hook-weights"
  const EnvKey: string := "helm.sh/hook-env"
  const NameSuffixKey: string := "helm.sh/hook-name-suffix"

  /** The weight of a hook that no annotation gives one. */
  const DefaultWeight: int := 0

  /** What went wrong, without Go's message text. */
  datatype ErrorKind =
    | EmptyHookAnnotation
    | InvalidHookEvent(hook: string)
    | DuplicateHookEvent(hook: string)
    | MalformedWeightPair(pair: string)
    | NoHooksInWeights
    | UnknownHookInWeights(hook: string)
    | InvalidWeight(text: string)
    | InvalidWeightForHook(hook: string)
    | WeightCountMismatch(hooks: nat, weights: nat)

  /** Every error the engine reports names the resource it came from. */
  datatype Error = Error(resource: string, kind: ErrorKind)

  // ---------------------------------------------------------------------------
  // The flat resource view (parseResource, parseMetadata)

  datatype Resource = Resource(kind: string, name: string, annotations: map<string, string>)

  const EmptyResource: Resource := Resource("", "", map[])

  /** Annotation pairs from pair k on, each overwriting an earlier equal key. */
  function AnnotationsFrom(m: map<string, string>, c: seq<Node>, k: nat): map<string, string>
    decreases |c| - 2 * k
  {
    if 2 * k + 1 >= |c| then m
    else AnnotationsFrom(m[c[2 * k].value := c[2 * k + 1].value], c, k + 1)
  }

  /** The metadata pairs from pair k on: `name` sets the name, an `annotations`
      mapping adds its pairs. */
  function MetadataFrom(res: Resource, c: seq<Node>, k: nat): Resource
    decreases |c| - 2 * k
  {
    if 2 * k + 1 >= |c| then res
    else
      var key := c[2 * k].value;
      var v := c[2 * k + 1];
      var res' :=
        if key == "name" then res.(name := v.value)
        else if key == "annotations" && v.kind == MappingNode then
          res.(annotations := AnnotationsFrom(res.annotations, v.content, 0))
        else res;
      MetadataFrom(res', c, k + 1)
  }

  function MetadataOf(res: Resource, metadata: Node): Resource {
    if metadata.kind != MappingNode then res else MetadataFrom(res, metadata.content, 0)
  }

  /** The top-level pairs from pair k on: `kind` sets the kind, `metadata` is read. */
  function ResourceFrom(res: Resource, c: seq<Node>, k: nat): Resource
    decreases |c| - 2 * k
  {
    if 2 * k + 1 >= |c| then res
    else
      var key := c[2 * k].value;
      var v := c[2 * k + 1];
      var res' :=
        if key == "kind" then res.(kind := v.value)
        else if key == "metadata" then MetadataOf(res, v)
        else res;
      ResourceFrom(res', c, k + 1)
  }

  /** The flat view of a document; a root that is not a mapping gives the empty view. */
  function ResourceOf(node: Node): Resource {
    var root := Root(node);
    if root.kind != MappingNode then EmptyResource else ResourceFrom(EmptyResource, root.content, 0)
  }

  /** parseMetadata keeps the LAST of several equal annotation keys. */
  lemma {:induction false} AnnotationsLastWins(m: map<string, string>, c: seq<Node>, k: nat, j: nat)
    requires k <= j && 2 * j + 1 < |c|
    requires forall i :: j < i && 2 * i + 1 < |c| ==> KeyAt(c, i) != KeyAt(c, j)
    ensures KeyAt(c, j) in AnnotationsFrom(m, c, k)
    ensures AnnotationsFrom(m, c, k)[KeyAt(c, j)] == c[2 * j + 1].value
    decreases |c| - 2 * k
  {
    if k < j {
      AnnotationsLastWins(m[c[2 * k].value := c[2 * k + 1].value], c, k + 1, j);
    } else {
      AnnotationsKeep(m[c[2 * k].value := c[2 * k + 1].value], c, k + 1, KeyAt(c, j));
    }
  }

  /** A key that no later pair mentions keeps its value. */
  lemma {:induction false} AnnotationsKeep(m: map<string, string>, c: seq<Node>, k: nat, key: string)
    requires forall i :: k <= i && 2 * i + 1 < |c| ==> KeyAt(c, i) != key
    ensures key in AnnotationsFrom(m, c, k) <==> key in m
    ensures key in m ==> AnnotationsFrom(m, c, k)[key] == m[key]
    decreases |c| - 2 * k
  {
    if 2 * k + 1 < |c| {
      assert KeyAt(c, k) != key;
      AnnotationsKeep(m[c[2 * k].value := c[2 * k + 1].value], c, k + 1, key);
    }
  }

  method ParseMetadata(metadata: Node, res: Resource) returns (res': Resource)
    ensures res' == MetadataOf(res, metadata)
  {
    res' := res;
    if metadata.kind != MappingNode {
      return;
    }
    var c := metadata.content;
    var k := 0;
    while 2 * k + 1 < |c|
      invariant MetadataFrom(res', c, k) == MetadataFrom(res, c, 0)
    {
      var key := c[2 * k].value;
      var v := c[2 * k + 1];
      if key == "name" {
        res' := res'.(name := v.value);
      } else if key == "annotations" && v.kind == MappingNode {
        var m := res'.annotations;
        var a := v.content;
        var j := 0;
        while 2 * j + 1 < |a|
          invariant AnnotationsFrom(m, a, j) == AnnotationsFrom(res'.annotations, a, 0)
        {
          m := m[a[2 * j].value := a[2 * j + 1].value];
          j := j + 1;
        }
        res' := res'.(annotations := m);
      }
      k := k + 1;
    }
  }

  method ParseResource(node: Node) returns (res: Resource)
    ensures res == ResourceOf(node)
  {
    var root := Root(node);
    res := EmptyResource;
    if root.kind != MappingNode {
      return;
    }
    var c := root.content;
    var k := 0;
    while 2 * k + 1 < |c|
      invariant ResourceFrom(res, c, k) == ResourceFrom(EmptyResource, c, 0)
    {
      var key := c[2 * k].value;
      if key == "kind" {
        res := res.(kind := c[2 * k + 1].value);
      } else if key == "metadata" {
        res := ParseMetadata(c[2 * k + 1], res);
      }
      k := k + 1;
    }
  }

  // ---------------------------------------------------------------------------
  // Hook events (parseHookEvents)

  /** The trimmed parts that are not empty, in order. */
  function NonEmptyTrimmed(parts: seq<string>): (r: seq<string>)
    ensures forall e :: e in r ==> e != "" && IsTrimmed(e)
  {
    if parts == [] then []
    else
      var t := TrimSpace(parts[0]);
      (if t == "" then [] else [t]) + NonEmptyTrimmed(parts[1..])
  }

  /** Nothing survives exactly when every part trims to empty; no entry gains a
      comma that no part had. */
  lemma NonEmptyTrimmedFacts(parts: seq<string>)
    ensures NonEmptyTrimmed(parts) == [] <==> forall i :: 0 <= i < |parts| ==> TrimSpace(parts[i]) == ""
    ensures (forall p :: p in parts ==> ',' !in p) ==> forall e :: e in NonEmptyTrimmed(parts) ==> ',' !in e
  {
    NonEmptyTrimmedEmpty(parts);
    if forall p :: p in parts ==> ',' !in p {
      NonEmptyTrimmedNoComma(parts);
    }
  }

  lemma NonEmptyTrimmedEmpty(parts: seq<string>)
    ensures NonEmptyTrimmed(parts) == [] <==> forall i :: 0 <= i < |parts| ==> TrimSpace(parts[i]) == ""
  {
    if NonEmptyTrimmed(parts) == [] {
      NonEmptyTrimmedBlank(parts);
    }
    if forall i :: 0 <= i < |parts| ==> TrimSpace(parts[i]) == "" {
      BlankNonEmptyTrimmed(parts);
    }
  }

  /** When nothing survives, every part trims to empty. */
  lemma {:induction false} NonEmptyTrimmedBlank(parts: seq<string>)
    requires NonEmptyTrimmed(parts) == []
    ensures forall i :: 0 <= i < |parts| ==> TrimSpace(parts[i]) == ""
  {
    if parts != [] {
      var t := TrimSpace(parts[0]);
      assert NonEmptyTrimmed(parts) == (if t == "" then [] else [t]) + NonEmptyTrimmed(parts[1..]);
      NonEmptyTrimmedBlank(parts[1..]);
      forall i | 0 <= i < |parts|
        ensures TrimSpace(parts[i]) == ""
      {
        if i > 0 {
          assert parts[i] == parts[1..][i - 1];
        }
      }
    }
  }

  /** When every part trims to empty, nothing survives. */
  lemma {:induction false} BlankNonEmptyTrimmed(parts: seq<string>)
    requires forall i :: 0 <= i < |parts| ==> TrimSpace(parts[i]) == ""
    ensures NonEmptyTrimmed(parts) == []
  {
    if parts != [] {
      assert TrimSpace(parts[0]) == "";
      assert forall i :: 0 <= i < |parts[1..]| ==> parts[1..][i] == parts[i + 1];
      BlankNonEmptyTrimmed(parts[1..]);
    }
  }

  lemma {:induction false} NonEmptyTrimmedNoComma(parts: seq<string>)
    requires forall p :: p in parts ==> ',' !in p
    ensures forall e :: e in NonEmptyTrimmed(parts) ==> ',' !in e
  {
    if parts != [] {
      var t := TrimSpace(parts[0]);
      var r := NonEmptyTrimmed(parts[1..]);
      assert NonEmptyTrimmed(parts) == (if t == "" then [] else [t]) + r;
      assert ',' !in t by {
        TrimSpaceKeeps(parts[0], ',');
      }
      assert forall e :: e in r ==> ',' !in e by {
        assert forall p :: p in parts[1..] ==> p in parts;
        NonEmptyTrimmedNoComma(parts[1..]);
      }
    }
  }

  /** The events of a `helm.sh/hook` value: its comma-separated entries, trimmed,
      empty ones dropped, in order. */
  function HookEvents(value: string): (hooks: seq<string>)
    ensures forall e :: e in hooks ==> e != "" && IsTrimmed(e) && ',' !in e
    ensures hooks == [] <==> forall p :: p in Split(value, ',') ==> TrimSpace(p) == ""
  {
    var parts := Split(value, ',');
    NonEmptyTrimmedFacts(parts);
    NonEmptyTrimmed(parts)
  }

  method ParseHookEvents(value: string) returns (hooks: seq<string>)
    ensures hooks == HookEvents(value)
  {
    var parts := Split(value, ',');
    hooks := [];
    var i := 0;
    assert parts[0..] == parts;
    while i < |parts|
      invariant 0 <= i <= |parts|
      invariant hooks + NonEmptyTrimmed(parts[i..]) == NonEmptyTrimmed(parts)
    {
      var h := TrimSpace(parts[i]);
      NonEmptyTrimmedStep(hooks, parts, i);
      if h != "" {
        hooks := hooks + [h];
      }
      i := i + 1;
    }
    assert parts[i..] == [];
  }

  /** One part of parseHookEvents' loop: a part that trims to something is
      appended, one that trims to nothing is skipped. */
  lemma NonEmptyTrimmedStep(hooks: seq<string>, parts: seq<string>, i: nat)
    requires i < |parts|
    ensures var h := TrimSpace(parts[i]);
      (if h == "" then hooks else hooks + [h]) + NonEmptyTrimmed(parts[i + 1..]) == hooks + NonEmptyTrimmed(parts[i..])
  {
    assert parts[i..][1..] == parts[i + 1..];
    var h := TrimSpace(parts[i]);
    if h != "" {
      assert NonEmptyTrimmed(parts[i..]) == [h] + NonEmptyTrimmed(parts[i + 1..]);
    }
  }

  /** Entries that are already trimmed and non-empty pass through unchanged. */
  lemma {:induction false} NonEmptyTrimmedKeeps(events: seq<string>)
    requires forall i :: 0 <= i < |events| ==> events[i] != "" && IsTrimmed(events[i])
    ensures NonEmptyTrimmed(events) == events
  {
    if events != [] {
      assert NonEmptyTrimmed(events) == [events[0]] + NonEmptyTrimmed(events[1..]) by {
        assert TrimSpace(events[0]) == events[0];
      }
      assert NonEmptyTrimmed(events[1..]) == events[1..] by {
        assert forall i :: 0 <= i < |events[1..]| ==> events[1..][i] == events[i + 1];
        NonEmptyTrimmedKeeps(events[1..]);
      }
      assert [events[0]] + events[1..] == events;
    }
  }

  /** Writing a list of events as a comma-separated value and reading it back
      gives the same list. */
  lemma HookEventsRoundTrip(events: seq<string>)
    requires |events| >= 1
    requires forall e :: e in events ==> e != "" && IsTrimmed(e) && ',' !in e
    ensures HookEvents(Join(events, ',')) == events
  {
    SplitJoin(events, ',');
    assert forall i :: 0 <= i < |events| ==> events[i] in events;
    NonEmptyTrimmedKeeps(events);
  }

  // ---------------------------------------------------------------------------
  // Hook names from a `hook=weight` list (extractHooksFromWeights)

  /** The names of the pairs from parts on, appended to `names`; the first pair
      without '=' is an error. */
  function WeightNames(parts: seq<string>, names: seq<string>): Result<seq<string>, ErrorKind> {
    if parts == [] then Ok(names)
    else
      var pair := TrimSpace(parts[0]);
      if pair == "" then WeightNames(parts[1..], names)
      else
        match Cut(pair, '=')
        case None => Err(MalformedWeightPair(pair))
        case Some((left, _)) =>
          var name := TrimSpace(left);
          WeightNames(parts[1..], if name == "" then names else names + [name])
  }

  /** extractHooksFromWeights: the left-hand names of the `name=weight` pairs, in
      order; an error on a pair without '=', or when there is no name at all. */
  function HooksFromWeights(value: string): Result<seq<string>, ErrorKind> {
    match WeightNames(Split(value, ','), [])
    case Err(e) => Err(e)
    case Ok(names) => if names == [] then Err(NoHooksInWeights) else Ok(names)
  }

  method ExtractHooksFromWeights(value: string) returns (r: Result<seq<string>, ErrorKind>)
    ensures r == HooksFromWeights(value)
  {
    var parts := Split(value, ',');
    var hooks := [];
    var i := 0;
    while i < |parts|
      invariant 0 <= i <= |parts|
      invariant WeightNames(parts[i..], hooks) == WeightNames(parts, [])
    {
      var pair := TrimSpace(parts[i]);
      assert parts[i..][1..] == parts[i + 1..];
      if pair != "" {
        var cut := Cut(pair, '=');
        if cut.None? {
          return Err(MalformedWeightPair(pair));
        }
        var name := TrimSpace(cut.value.0);
        if name != "" {
          hooks := hooks + [name];
        }
      }
      i := i + 1;
    }
    if hooks == [] {
      return Err(NoHooksInWeights);
    }
    return Ok(hooks);
  }

  // ---------------------------------------------------------------------------
  // Weights (isSingleValidWeight, parseWeights, parseExplicitWeights)

  /** The names a `name=weight` list may use: non-empty, no surrounding
      whitespace, and neither ',' nor '='. */
  predicate IsPlainName(h: string) {
    h != "" && IsTrimmed(h) && ',' !in h && '=' !in h
  }

  /** The pairs `hs[i]=ws[i]` as one annotation value. */
  function PairTexts(hs: seq<string>, ws: seq<int>): (ps: seq<string>)
    requires |hs| == |ws|
    ensures |ps| == |hs|
  {
    if hs == [] then [] else [hs[0] + "=" + DecimalString(ws[0])] + PairTexts(hs[1..], ws[1..])
  }

  /** isSingleValidWeight: the trimmed value is one integer without a comma. */
  function IsSingleValidWeight(value: string): bool {
    var t := TrimSpace(value);
    ',' !in t && ParseInt(t).Some?
  }

  /** Every hook mapped to the same weight. */
  function ConstWeights(hooks: seq<string>, w: int): (m: map<string, int>)
    ensures m.Keys == set h | h in hooks
    ensures forall h :: h in m ==> m[h] == w
  {
    map h | h in hooks :: w
  }

  /** The `name=weight` pairs from parts on, applied over `m`: the first empty-free
      pair without '=', with a name outside `hooks`, or with a weight that is not an
      integer is an error. */
  function ExplicitFrom(parts: seq<string>, hooks: seq<string>, m: map<string, int>): (r: Result<map<string, int>, ErrorKind>)
    ensures r.Ok? ==> forall k :: k in m ==> k in r.value
    ensures r.Ok? ==> forall k :: k in r.value ==> k in m || k in hooks
  {
    if parts == [] then Ok(m)
    else
      var pair := TrimSpace(parts[0]);
      if pair == "" then ExplicitFrom(parts[1..], hooks, m)
      else
        match Cut(pair, '=')
        case None => Err(MalformedWeightPair(pair))
        case Some((left, right)) =>
          var name := TrimSpace(left);
          if name !in hooks then Err(UnknownHookInWeights(name))
          else
            match ParseInt(TrimSpace(right))
            case None => Err(InvalidWeightForHook(name))
            case Some(w) => ExplicitFrom(parts[1..], hooks, m[name := w])
  }

  /** parseExplicitWeights: every hook starts at weight 0 and each pair overrides
      its hook's weight. */
  function ExplicitWeights(value: string, hooks: seq<string>): (r: Result<map<string, int>, ErrorKind>)
    ensures r.Ok? ==> r.value.Keys == set h | h in hooks
  {
    ExplicitFrom(Split(value, ','), hooks, ConstWeights(hooks, DefaultWeight))
  }

  /** The positional weights from index i on, applied over `m`. */
  function PositionalFrom(hooks: seq<string>, parts: seq<string>, i: nat, m: map<string, int>): (r: Result<map<string, int>, ErrorKind>)
    requires |parts| == |hooks| && i <= |hooks|
    ensures r.Ok? ==> forall k :: k in m ==> k in r.value
    ensures r.Ok? ==> forall k :: k in r.value ==> k in m || k in hooks
    decreases |hooks| - i
  {
    if i == |hooks| then Ok(m)
    else
      match ParseInt(TrimSpace(parts[i]))
      case None => Err(InvalidWeight(parts[i]))
      case Some(w) => PositionalFrom(hooks, parts, i + 1, m[hooks[i] := w])
  }

  /** parseWeights: `helm.sh/hook-weights` wins; else a `helm.sh/hook-weight` with
      one value is broadcast and a list of several is positional and must match
      the hook count; else every hook weighs 0. */
  function Weights(annotations: map<string, string>, hooks: seq<string>): (r: Result<map<string, int>, ErrorKind>)
    ensures r.Ok? ==> r.value.Keys == set h | h in hooks
  {
    if WeightsKey in annotations then ExplicitWeights(annotations[WeightsKey], hooks)
    else if WeightKey in annotations then
      var text := annotations[WeightKey];
      var parts := Split(text, ',');
      if |parts| == 1 then
        match ParseInt(TrimSpace(parts[0]))
        case None => Err(InvalidWeight(text))
        case Some(w) => Ok(ConstWeights(hooks, w))
      else if |parts| != |hooks| then Err(WeightCountMismatch(|hooks|, |parts|))
      else PositionalFrom(hooks, parts, 0, ConstWeights(hooks, DefaultWeight))
    else Ok(ConstWeights(hooks, DefaultWeight))
  }

  /** The loop that starts every hook at the default weight. */
  method DefaultWeights(hooks: seq<string>) returns (weights: map<string, int>)
    ensures weights == ConstWeights(hooks, DefaultWeight)
  {
    weights := map[];
    var i := 0;
    while i < |hooks|
      invariant 0 <= i <= |hooks|
      invariant weights == ConstWeights(hooks[..i], DefaultWeight)
    {
      assert hooks[..i + 1] == hooks[..i] + [hooks[i]];
      weights := weights[hooks[i] := DefaultWeight];
      i := i + 1;
    }
    assert hooks[..i] == hooks;
  }

  /** The loop that checks whether a weight's name is one of the hooks. */
  method IsKnownHook(hooks: seq<string>, name: string) returns (found: bool)
    ensures found <==> name in hooks
  {
    var j := 0;
    while j < |hooks|
      invariant 0 <= j <= |hooks|
      invariant name !in hooks[..j]
    {
      if hooks[j] == name {
        return true;
      }
      assert hooks[..j + 1] == hooks[..j] + [hooks[j]];
      j := j + 1;
    }
    assert hooks[..j] == hooks;
    return false;
  }

  method ParseExplicitWeights(value: string, hooks: seq<string>) returns (r: Result<map<string, int>, ErrorKind>)
    ensures r == ExplicitWeights(value, hooks)
  {
    var weights := DefaultWeights(hooks);
    var parts := Split(value, ',');
    var i := 0;
    while i < |parts|
      invariant 0 <= i <= |parts|
      invariant ExplicitFrom(parts[i..], hooks, weights) == ExplicitWeights(value, hooks)
    {
      var pair := TrimSpace(parts[i]);
      assert parts[i..][1..] == parts[i + 1..];
      if pair != "" {
        var cut := Cut(pair, '=');
        if cut.None? {
          return Err(MalformedWeightPair(pair));
        }
        var name := TrimSpace(cut.value.0);
        var weightText := TrimSpace(cut.value.1);
        var found := IsKnownHook(hooks, name);
        if !found {
          return Err(UnknownHookInWeights(name));
        }
        var w := ParseInt(weightText);
        if w.None? {
          return Err(InvalidWeightForHook(name));
        }
        weights := weights[name := w.value];
      }
      i := i + 1;
    }
    return Ok(weights);
  }

  /** The loop that gives every hook of a default-weighted map the single weight w. */
  method BroadcastWeight(defaults: map<string, int>, hooks: seq<string>, w: int) returns (weights: map<string, int>)
    requires defaults.Keys == set h | h in hooks
    ensures weights == ConstWeights(hooks, w)
  {
    weights := defaults;
    var i := 0;
    while i < |hooks|
      invariant 0 <= i <= |hooks|
      invariant weights.Keys == set h | h in hooks
      invariant forall h :: h in weights ==> weights[h] == (if h in hooks[..i] then w else defaults[h])
    {
      assert hooks[..i + 1] == hooks[..i] + [hooks[i]];
      weights := weights[hooks[i] := w];
      i := i + 1;
    }
    assert hooks[..i] == hooks;
  }

  /** The loop that gives hook i the weight in part i, stopping at the first part
      that is not an integer. */
  method PositionalWeights(defaults: map<string, int>, hooks: seq<string>, parts: seq<string>) returns (r: Result<map<string, int>, ErrorKind>)
    requires |parts| == |hooks|
    ensures r == PositionalFrom(hooks, parts, 0, defaults)
  {
    var weights := defaults;
    var i := 0;
    while i < |hooks|
      invariant 0 <= i <= |hooks|
      invariant PositionalFrom(hooks, parts, i, weights) == PositionalFrom(hooks, parts, 0, defaults)
    {
      var w := ParseInt(TrimSpace(parts[i]));
      if w.None? {
        return Err(InvalidWeight(parts[i]));
      }
      weights := weights[hooks[i] := w.value];
      i := i + 1;
    }
    return Ok(weights);
  }

  method ParseWeights(annotations: map<string, string>, hooks: seq<string>) returns (r: Result<map<string, int>, ErrorKind>)
    ensures r == Weights(annotations, hooks)
  {
    var weights := DefaultWeights(hooks);
    if WeightsKey in annotations {
      r := ParseExplicitWeights(annotations[WeightsKey], hooks);
      return;
    }
    if WeightKey in annotations {
      var text := annotations[WeightKey];
      var parts := Split(text, ',');
      if |parts| == 1 {
        var w := ParseInt(TrimSpace(parts[0]));
        if w.None? {
          return Err(InvalidWeight(text));
        }
        weights := BroadcastWeight(weights, hooks, w.value);
        return Ok(weights);
      }
      if |parts| != |hooks| {
        return Err(WeightCountMismatch(|hooks|, |parts|));
      }
      r := PositionalWeights(weights, hooks, parts);
      return;
    }
    return Ok(weights);
  }

  // ---------------------------------------------------------------------------
  // Switches

  /** `helm.sh/hook-env`: absent means on; otherwise on only for "true" in any case. */
  function EnvEnabled(annotations: map<string, string>): bool {
    EnvKey !in annotations || ToLower(annotations[EnvKey]) == "true"
  }

  /** `helm.sh/hook-name-suffix`: absent means on; only "false" in any case turns it off. */
  function NameSuffixEnabled(annotations: map<string, string>): bool {
    NameSuffixKey !in annotations || ToLower(annotations[NameSuffixKey]) != "false"
  }
}
