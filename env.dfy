/** Environment injection (injectEnvVars and the functions it calls in
    processor.go): every container of the resource's pod template gets the
    variables HELM_HOOK_EVENT and HELM_HOOK_WEIGHT, updated in place when an
    entry of that name exists and appended otherwise. Where the containers are
    depends on the resource: a pod spec directly under `spec`, a pod template
    under `spec.template`, or a CronJob's `spec.jobTemplate.spec`. */
module Env {
  import opened Wrappers
  import opened Text
  import opened Tree
  import opened Mutator

  const EventVar: string := "HELM_HOOK_EVENT"
  const WeightVar: string := "HELM_HOOK_WEIGHT"

  // ---------------------------------------------------------------------------
  // One variable (addOrUpdateEnvVar)

  /** An env entry for `name`: a mapping with some pair `name: <name>` (not only
      the first `name` key counts). */
  predicate Names(item: Node, name: string) {
    item.kind == MappingNode && NameFrom(item.content, name, 0)
  }

  /** Some pair from pair k on is `name: <name>`. */
  predicate NameFrom(c: seq<Node>, name: string, k: nat)
    decreases |c| - 2 * k
  {
    2 * k + 1 < |c| && ((c[2 * k].value == "name" && c[2 * k + 1].value == name) || NameFrom(c, name, k + 1))
  }

  function NamedFrom(items: seq<Node>, name: string, i: nat): (r: Option<nat>)
    requires i <= |items|
    ensures r.Some? ==> i <= r.value < |items| && Names(items[r.value], name)
    ensures r.Some? ==> forall j :: i <= j < r.value ==> !Names(items[j], name)
    ensures r.None? ==> forall j :: i <= j < |items| ==> !Names(items[j], name)
    decreases |items| - i
  {
    if i == |items| then None
    else if Names(items[i], name) then Some(i)
    else NamedFrom(items, name, i + 1)
  }

  /** The first entry for `name`, if any. */
  function FirstNamed(items: seq<Node>, name: string): (r: Option<nat>)
    ensures r.Some? ==> r.value < |items| && Names(items[r.value], name)
    ensures r.Some? ==> forall j :: 0 <= j < r.value ==> !Names(items[j], name)
    ensures r.None? ==> forall j :: 0 <= j < |items| ==> !Names(items[j], name)
  {
    NamedFrom(items, name, 0)
  }

  /** A new entry `{name: <name>, value: "<value>"}`. */
  function EnvVar(name: string, value: string): Node {
    Node(MappingNode, "", PlainStyle, "", [Scalar("name"), Scalar(name), Scalar("value"), QuotedScalar(value)])
  }

  /** addOrUpdateEnvVar: the first entry for `name` gets its `value` upserted;
      without one a new entry is appended; a node that is not a sequence is left
      alone. */
  function EnvSet(env: Node, name: string, value: string): Node {
    if env.kind != SequenceNode then env
    else
      match FirstNamed(env.content, name)
      case Some(t) => env.(content := env.content[t := Upserted(env.content[t], "value", value)])
      case None => env.(content := env.content + [EnvVar(name, value)])
  }

  /** addOrUpdateEnvVar for each (name, value) in turn. */
  function SetVars(env: Node, vars: seq<(string, string)>): Node
    decreases |vars|
  {
    if vars == [] then env else SetVars(EnvSet(env, vars[0].0, vars[0].1), vars[1..])
  }

  /** Both hook variables, the event first; the weight comes as its decimal
      text (strconv.Itoa of the weight, computed once by EnvInjected). */
  function HookVars(env: Node, event: string, weightText: string): Node {
    SetVars(env, [(EventVar, event), (WeightVar, weightText)])
  }

  lemma HookVarsSteps(env: Node, event: string, weightText: string)
    ensures HookVars(env, event, weightText) == EnvSet(EnvSet(env, EventVar, event), WeightVar, weightText)
  {
    var e1 := EnvSet(env, EventVar, event);
    assert [(EventVar, event), (WeightVar, weightText)][1..] == [(WeightVar, weightText)];
    assert HookVars(env, event, weightText) == SetVars(e1, [(WeightVar, weightText)]);
    assert [(WeightVar, weightText)][1..] == [];
    assert SetVars(e1, [(WeightVar, weightText)]) == SetVars(EnvSet(e1, WeightVar, weightText), []);
  }

  /** The `env` list created for a container that has none. */
  const EmptyEnv: Node := Node(SequenceNode, "", PlainStyle, "", [])

  // ---------------------------------------------------------------------------
  // Containers and the specs that hold them

  /** injectEnvInContainer: the hook variables set in the first `env` list, or in
      a new `env` pair appended to the container. */
  function ContainerInjected(container: Node, event: string, weightText: string): Node {
    match KeyPos(container.content, "env")
    case Some(k) => ReplaceValue(container, k, HookVars(container.content[2 * k + 1], event, weightText))
    case None => container.(content := container.content + [Scalar("env"), HookVars(EmptyEnv, event, weightText)])
  }

  /** Entry i of a container list after injection. */
  function ContainersEntry(c: seq<Node>, i: nat, event: string, weightText: string): Node
    requires i < |c|
  {
    if c[i].kind == MappingNode then ContainerInjected(c[i], event, weightText) else c[i]
  }

  /** injectEnvInContainers: every mapping in a sequence. */
  function ContainersInjected(containers: Node, event: string, weightText: string): Node {
    if containers.kind != SequenceNode then containers
    else
      var c := containers.content;
      containers.(content := seq(|c|, i requires 0 <= i < |c| => ContainersEntry(c, i, event, weightText)))
  }

  predicate IsContainersKey(key: string) {
    key == "containers" || key == "initContainers"
  }

  /** Child i of a pod spec after injection: the value of a `containers` or
      `initContainers` pair is injected. */
  function PodSpecEntry(c: seq<Node>, i: nat, event: string, weightText: string): Node
    requires i < |c|
  {
    if i % 2 == 1 && IsContainersKey(c[i - 1].value) then ContainersInjected(c[i], event, weightText) else c[i]
  }

  /** injectEnvInPodSpec: the value of every `containers` and `initContainers`
      pair. */
  function PodSpecInjected(podSpec: Node, event: string, weightText: string): Node {
    if podSpec.kind != MappingNode then podSpec
    else
      var c := podSpec.content;
      podSpec.(content := seq(|c|, i requires 0 <= i < |c| => PodSpecEntry(c, i, event, weightText)))
  }

  predicate IsTemplateKey(key: string) {
    key == "template" || key == "jobTemplate"
  }

  function TemplateFrom(ks: seq<string>, k: nat): (r: Option<nat>)
    requires k <= |ks|
    ensures r.Some? ==> k <= r.value < |ks| && IsTemplateKey(ks[r.value])
    ensures r.Some? ==> forall j :: k <= j < r.value ==> !IsTemplateKey(ks[j])
    ensures r.None? ==> forall j :: k <= j < |ks| ==> !IsTemplateKey(ks[j])
    decreases |ks| - k
  {
    if k == |ks| then None
    else if IsTemplateKey(ks[k]) then Some(k)
    else TemplateFrom(ks, k + 1)
  }

  /** The first pair of a spec whose key is `template` or `jobTemplate`. */
  function TemplatePos(ks: seq<string>): (r: Option<nat>)
    ensures r.Some? ==> r.value < |ks| && IsTemplateKey(ks[r.value])
    ensures r.Some? ==> forall j :: 0 <= j < r.value ==> !IsTemplateKey(ks[j])
    ensures r.None? ==> forall j :: 0 <= j < |ks| ==> !IsTemplateKey(ks[j])
  {
    TemplateFrom(ks, 0)
  }

  /** injectEnvInSpec: scanning the pairs in order, `containers` and
      `initContainers` are injected directly until the first `template` (a pod
      template) or `jobTemplate` (a CronJob's job template), which is descended
      into; no pair after it is looked at. */
  function SpecInjected(spec: Node, event: string, weightText: string): Node
    decreases spec, 2
  {
    if spec.kind != MappingNode then spec
    else
      var c := spec.content;
      var t := TemplatePos(Keys(c));
      spec.(content := seq(|c|, i requires 0 <= i < |c| => SpecEntry(spec, t, i, event, weightText)))
  }

  /** Child i of a spec after injection, given the position t of its first
      template pair: the template's value is descended into, and the value of a
      `containers` or `initContainers` pair before it is injected. */
  function SpecEntry(spec: Node, t: Option<nat>, i: nat, event: string, weightText: string): Node
    requires i < |spec.content|
    decreases spec, 1
  {
    var c := spec.content;
    if i % 2 == 0 then c[i]
    else if t.Some? && i / 2 == t.value then
      (if c[i - 1].value == "template" then PodTemplateInjected(c[i], event, weightText)
       else JobTemplateInjected(c[i], event, weightText))
    else if (t.None? || i / 2 < t.value) && IsContainersKey(c[i - 1].value) then
      ContainersInjected(c[i], event, weightText)
    else c[i]
  }

  /** injectEnvInPodTemplate: the pod spec under the first `spec`. */
  function PodTemplateInjected(template: Node, event: string, weightText: string): Node {
    match ValueOf(template, "spec")
    case Some(s) => PutValue(template, "spec", PodSpecInjected(s, event, weightText))
    case None => template
  }

  /** injectEnvInJobTemplate: the job spec under the first `spec`, read as a spec
      in its own right. */
  function JobTemplateInjected(jobTemplate: Node, event: string, weightText: string): Node
    decreases jobTemplate, 0
  {
    match ValueOf(jobTemplate, "spec")
    case Some(s) => PutValue(jobTemplate, "spec", SpecInjected(s, event, weightText))
    case None => jobTemplate
  }

  /** injectEnvVars: the spec under the resource's first `spec`. */
  function EnvInjected(root: Node, event: string, weight: int): Node {
    match ValueOf(root, "spec")
    case Some(s) => PutValue(root, "spec", SpecInjected(s, event, DecimalString(weight)))
    case None => root
  }

  // ---------------------------------------------------------------------------
  // The Go loops

  /** The scan of an entry's pairs for `name: <name>`. */
  method HasNameVar(item: Node, name: string) returns (found: bool)
    requires item.kind == MappingNode
    ensures found <==> Names(item, name)
  {
    var c := item.content;
    var i := 0;
    while 2 * i + 1 < |c|
      invariant NameFrom(c, name, i) == NameFrom(c, name, 0)
    {
      if c[2 * i].value == "name" && c[2 * i + 1].value == name {
        return true;
      }
      i := i + 1;
    }
    return false;
  }

  method AddOrUpdateEnvVar(env: Node, name: string, value: string) returns (r: Node)
    ensures r == EnvSet(env, name, value)
  {
    if env.kind != SequenceNode {
      return env;
    }
    var items := env.content;
    var t := 0;
    while t < |items|
      invariant 0 <= t <= |items|
      invariant NamedFrom(items, name, t) == FirstNamed(items, name)
    {
      var item := items[t];
      if item.kind == MappingNode {
        var named := HasNameVar(item, name);
        if named {
          var item' := SetAnnotationValue(item, "value", value);
          return env.(content := items[t := item']);
        }
      }
      t := t + 1;
    }
    return env.(content := items + [EnvVar(name, value)]);
  }

  method InjectEnvInContainer(container: Node, event: string, weightText: string) returns (r: Node)
    ensures r == ContainerInjected(container, event, weightText)
  {
    var c := container.content;
    var pos := FindKey(c, "env");
    var env := if pos.Some? then c[2 * pos.value + 1] else EmptyEnv;
    env := AddOrUpdateEnvVar(env, EventVar, event);
    env := AddOrUpdateEnvVar(env, WeightVar, weightText);
    HookVarsSteps(if pos.Some? then c[2 * pos.value + 1] else EmptyEnv, event, weightText);
    if pos.Some? {
      return container.(content := c[2 * pos.value + 1 := env]);
    }
    return container.(content := c + [Scalar("env"), env]);
  }

  method InjectEnvInContainers(containers: Node, event: string, weightText: string) returns (r: Node)
    ensures r == ContainersInjected(containers, event, weightText)
  {
    if containers.kind != SequenceNode {
      return containers;
    }
    var c := containers.content;
    var out := c;
    var i := 0;
    while i < |c|
      invariant 0 <= i <= |c| && |out| == |c|
      invariant forall j :: 0 <= j < i ==> out[j] == ContainersEntry(c, j, event, weightText)
      invariant forall j :: i <= j < |c| ==> out[j] == c[j]
    {
      if c[i].kind == MappingNode {
        var x := InjectEnvInContainer(c[i], event, weightText);
        out := out[i := x];
      }
      i := i + 1;
    }
    return containers.(content := out);
  }

  method InjectEnvInPodSpec(podSpec: Node, event: string, weightText: string) returns (r: Node)
    ensures r == PodSpecInjected(podSpec, event, weightText)
  {
    if podSpec.kind != MappingNode {
      return podSpec;
    }
    var c := podSpec.content;
    var out := c;
    var k := 0;
    while 2 * k + 1 < |c|
      invariant 0 <= k <= |c| / 2 && |out| == |c|
      invariant forall i :: 0 <= i < 2 * k ==> out[i] == PodSpecEntry(c, i, event, weightText)
      invariant forall i :: 2 * k <= i < |c| ==> out[i] == c[i]
    {
      var x := c[2 * k + 1];
      if IsContainersKey(c[2 * k].value) {
        x := InjectEnvInContainers(c[2 * k + 1], event, weightText);
      }
      PodSpecStep(c, out, k, x, event, weightText);
      out := out[2 * k + 1 := x];
      k := k + 1;
    }
    PodSpecDone(podSpec, out, k, event, weightText);
    return podSpec.(content := out);
  }

  /** One pair of injectEnvInPodSpec's loop. */
  lemma PodSpecStep(c: seq<Node>, out: seq<Node>, k: nat, x: Node, event: string, weightText: string)
    requires 2 * k + 1 < |c| && |out| == |c|
    requires x == PodSpecEntry(c, 2 * k + 1, event, weightText)
    requires forall i :: 0 <= i < 2 * k ==> out[i] == PodSpecEntry(c, i, event, weightText)
    requires forall i :: 2 * k <= i < |c| ==> out[i] == c[i]
    ensures forall i :: 0 <= i < 2 * k + 2 ==> out[2 * k + 1 := x][i] == PodSpecEntry(c, i, event, weightText)
    ensures forall i :: 2 * k + 2 <= i < |c| ==> out[2 * k + 1 := x][i] == c[i]
  {
    assert out[2 * k] == PodSpecEntry(c, 2 * k, event, weightText);
  }

  /** The end of injectEnvInPodSpec's loop: every pair visited, so the whole
      content is injected. */
  lemma PodSpecDone(podSpec: Node, out: seq<Node>, k: nat, event: string, weightText: string)
    requires podSpec.kind == MappingNode
    requires |out| == |podSpec.content| && 2 * k + 1 >= |podSpec.content| && k <= |podSpec.content| / 2
    requires forall i :: 0 <= i < 2 * k ==> out[i] == PodSpecEntry(podSpec.content, i, event, weightText)
    requires forall i :: 2 * k <= i < |out| ==> out[i] == podSpec.content[i]
    ensures out == PodSpecInjected(podSpec, event, weightText).content
  {
    var c := podSpec.content;
    if 2 * k < |c| {
      assert out[2 * k] == PodSpecEntry(c, 2 * k, event, weightText);
    }
  }

  /** One pair of injectEnvInSpec's loop before any template. */
  lemma SpecStep(spec: Node, out: seq<Node>, k: nat, x: Node, event: string, weightText: string)
    requires spec.kind == MappingNode && 2 * k + 1 < |spec.content| && |out| == |spec.content|
    requires forall j :: 0 <= j <= k ==> !IsTemplateKey(Keys(spec.content)[j])
    requires x == if IsContainersKey(spec.content[2 * k].value) then ContainersInjected(spec.content[2 * k + 1], event, weightText) else spec.content[2 * k + 1]
    requires forall i :: 0 <= i < 2 * k ==> out[i] == SpecEntry(spec, TemplatePos(Keys(spec.content)), i, event, weightText)
    requires forall i :: 2 * k <= i < |out| ==> out[i] == spec.content[i]
    ensures forall i :: 0 <= i < 2 * k + 2 ==> out[2 * k + 1 := x][i] == SpecEntry(spec, TemplatePos(Keys(spec.content)), i, event, weightText)
    ensures forall i :: 2 * k + 2 <= i < |out| ==> out[2 * k + 1 := x][i] == spec.content[i]
  {
    var t := TemplatePos(Keys(spec.content));
    assert Keys(spec.content)[k] == spec.content[2 * k].value;
    assert t.None? || t.value > k;
    SpecEntryBefore(spec, t, k, event, weightText);
  }

  /** The two children of a pair before the first template. */
  lemma SpecEntryBefore(spec: Node, t: Option<nat>, k: nat, event: string, weightText: string)
    requires 2 * k + 1 < |spec.content|
    requires t.None? || t.value > k
    ensures SpecEntry(spec, t, 2 * k, event, weightText) == spec.content[2 * k]
    ensures SpecEntry(spec, t, 2 * k + 1, event, weightText)
      == if IsContainersKey(spec.content[2 * k].value) then ContainersInjected(spec.content[2 * k + 1], event, weightText) else spec.content[2 * k + 1]
  {
    assert (2 * k + 1) / 2 == k && (2 * k + 1) - 1 == 2 * k;
  }

  /** injectEnvInSpec returns at its first template pair. */
  lemma SpecAtTemplate(spec: Node, out: seq<Node>, k: nat, x: Node, event: string, weightText: string)
    requires spec.kind == MappingNode && 2 * k + 1 < |spec.content| && |out| == |spec.content|
    requires forall j :: 0 <= j < k ==> !IsTemplateKey(Keys(spec.content)[j])
    requires IsTemplateKey(spec.content[2 * k].value)
    requires x == if spec.content[2 * k].value == "template" then PodTemplateInjected(spec.content[2 * k + 1], event, weightText)
      else JobTemplateInjected(spec.content[2 * k + 1], event, weightText)
    requires forall i :: 0 <= i < 2 * k ==> out[i] == SpecEntry(spec, TemplatePos(Keys(spec.content)), i, event, weightText)
    requires forall i :: 2 * k <= i < |out| ==> out[i] == spec.content[i]
    ensures out[2 * k + 1 := x] == SpecInjected(spec, event, weightText).content
  {
    assert Keys(spec.content)[k] == spec.content[2 * k].value;
    var t := TemplatePos(Keys(spec.content));
    assert t == Some(k);
    var r := out[2 * k + 1 := x];
    forall i | 0 <= i < |r|
      ensures r[i] == SpecEntry(spec, t, i, event, weightText)
    {
      if i == 2 * k + 1 {
        SpecEntryAt(spec, k, event, weightText);
      } else if i >= 2 * k {
        SpecEntryPast(spec, t, i, event, weightText);
      }
    }
  }

  /** The value of the first template pair is descended into. */
  lemma SpecEntryAt(spec: Node, k: nat, event: string, weightText: string)
    requires 2 * k + 1 < |spec.content|
    ensures SpecEntry(spec, Some(k), 2 * k + 1, event, weightText)
      == if spec.content[2 * k].value == "template" then PodTemplateInjected(spec.content[2 * k + 1], event, weightText)
         else JobTemplateInjected(spec.content[2 * k + 1], event, weightText)
  {
    assert (2 * k + 1) / 2 == k && (2 * k + 1) - 1 == 2 * k;
  }

  /** Keys, and every pair after the first template, are left as they are. */
  lemma SpecEntryPast(spec: Node, t: Option<nat>, i: nat, event: string, weightText: string)
    requires i < |spec.content|
    requires i % 2 == 0 || (t.Some? && i / 2 > t.value)
    ensures SpecEntry(spec, t, i, event, weightText) == spec.content[i]
  {
  }

  /** The end of injectEnvInSpec's loop when no template pair was met. */
  lemma SpecDone(spec: Node, out: seq<Node>, k: nat, event: string, weightText: string)
    requires spec.kind == MappingNode && |out| == |spec.content| && 2 * k + 1 >= |spec.content| && k <= |spec.content| / 2
    requires forall j :: 0 <= j < k ==> !IsTemplateKey(Keys(spec.content)[j])
    requires forall i :: 0 <= i < 2 * k ==> out[i] == SpecEntry(spec, TemplatePos(Keys(spec.content)), i, event, weightText)
    requires forall i :: 2 * k <= i < |out| ==> out[i] == spec.content[i]
    ensures out == SpecInjected(spec, event, weightText).content
  {
    var t := TemplatePos(Keys(spec.content));
    assert t == None;
    if 2 * k < |out| {
      assert out[2 * k] == SpecEntry(spec, t, 2 * k, event, weightText);
    }
  }

  method InjectEnvInSpec(spec: Node, event: string, weightText: string) returns (r: Node)
    ensures r == SpecInjected(spec, event, weightText)
    decreases spec, 1
  {
    if spec.kind != MappingNode {
      return spec;
    }
    var c := spec.content;
    var out := c;
    var k := 0;
    while 2 * k + 1 < |c|
      invariant 0 <= k <= |c| / 2 && |out| == |c|
      invariant forall j :: 0 <= j < k ==> !IsTemplateKey(Keys(c)[j])
      invariant forall i :: 0 <= i < 2 * k ==> out[i] == SpecEntry(spec, TemplatePos(Keys(c)), i, event, weightText)
      invariant forall i :: 2 * k <= i < |c| ==> out[i] == c[i]
    {
      var key := c[2 * k].value;
      assert Keys(c)[k] == key;
      if key == "template" {
        var x := InjectEnvInPodTemplate(c[2 * k + 1], event, weightText);
        SpecAtTemplate(spec, out, k, x, event, weightText);
        return spec.(content := out[2 * k + 1 := x]);
      } else if key == "jobTemplate" {
        var x := InjectEnvInJobTemplate(c[2 * k + 1], event, weightText);
        SpecAtTemplate(spec, out, k, x, event, weightText);
        return spec.(content := out[2 * k + 1 := x]);
      }
      var x := c[2 * k + 1];
      if IsContainersKey(key) {
        x := InjectEnvInContainers(c[2 * k + 1], event, weightText);
      }
      SpecStep(spec, out, k, x, event, weightText);
      out := out[2 * k + 1 := x];
      k := k + 1;
    }
    SpecDone(spec, out, k, event, weightText);
    return spec.(content := out);
  }

  method InjectEnvInPodTemplate(template: Node, event: string, weightText: string) returns (r: Node)
    ensures r == PodTemplateInjected(template, event, weightText)
  {
    if template.kind != MappingNode {
      return template;
    }
    var c := template.content;
    var pos := FindKey(c, "spec");
    if pos.None? {
      return template;
    }
    var x := InjectEnvInPodSpec(c[2 * pos.value + 1], event, weightText);
    return template.(content := c[2 * pos.value + 1 := x]);
  }

  method InjectEnvInJobTemplate(jobTemplate: Node, event: string, weightText: string) returns (r: Node)
    ensures r == JobTemplateInjected(jobTemplate, event, weightText)
    decreases jobTemplate, 0
  {
    if jobTemplate.kind != MappingNode {
      return jobTemplate;
    }
    var c := jobTemplate.content;
    var pos := FindKey(c, "spec");
    if pos.None? {
      return jobTemplate;
    }
    var x := InjectEnvInSpec(c[2 * pos.value + 1], event, weightText);
    return jobTemplate.(content := c[2 * pos.value + 1 := x]);
  }

  method InjectEnvVars(root: Node, event: string, weight: int) returns (r: Node)
    ensures r == EnvInjected(root, event, weight)
  {
    if root.kind != MappingNode {
      return root;
    }
    var c := root.content;
    var pos := FindKey(c, "spec");
    if pos.None? {
      return root;
    }
    var x := InjectEnvInSpec(c[2 * pos.value + 1], event, DecimalString(weight));
    return root.(content := c[2 * pos.value + 1 := x]);
  }
}
