/** What environment injection guarantees: after it a container's `env` list
    holds HELM_HOOK_EVENT and HELM_HOOK_WEIGHT with the event and the weight,
    entries already there are updated rather than duplicated, and injecting
    twice gives the same tree as injecting once. Both need every mapping to
    have as many values as keys, as the YAML decoder produces. The first also
    needs that no env entry names both hook variables: the decoder keeps a
    repeated `name` key, and on such an entry Go writes the weight over the
    event. */
module EnvProps {
  import opened Wrappers
  import opened Text
  import opened Tree
  import opened Mutator
  import opened Env

  // ---------------------------------------------------------------------------
  // Entries of an env list

  /** Pair i of c is `name: <name>`. */
  predicate NamePair(c: seq<Node>, i: nat, name: string) {
    2 * i + 1 < |c| && c[2 * i].value == "name" && c[2 * i + 1].value == name
  }

  lemma {:induction false} NameFromPair(c: seq<Node>, name: string, k: nat)
    ensures NameFrom(c, name, k) <==> exists i :: k <= i && NamePair(c, i, name)
    decreases |c| - 2 * k
  {
    if 2 * k + 1 < |c| {
      NameFromPair(c, name, k + 1);
      assert NameFrom(c, name, k) == (NamePair(c, k, name) || NameFrom(c, name, k + 1));
      if !NameFrom(c, name, k) {
        forall i | k <= i
          ensures !NamePair(c, i, name)
        {
          if i > k {
            assert k + 1 <= i;
          }
        }
      }
    } else {
      forall i | k <= i
        ensures !NamePair(c, i, name)
      {
      }
    }
  }

  /** Upserting an entry's `value` leaves the names it carries alone. */
  lemma UpsertedNames(item: Node, v: string, name: string)
    requires item.kind == MappingNode && |item.content| % 2 == 0
    ensures Names(Upserted(item, "value", v), name) == Names(item, name)
  {
    var c := item.content;
    var d := Upserted(item, "value", v).content;
    NameFromPair(c, name, 0);
    NameFromPair(d, name, 0);
    match KeyPos(c, "value")
    case Some(k) =>
      forall i | 0 <= i
        ensures NamePair(d, i, name) == NamePair(c, i, name)
      {
        if i == k {
          assert KeyAt(c, k) == "value";
        }
      }
    case None =>
      forall i | 0 <= i
        ensures NamePair(d, i, name) == NamePair(c, i, name)
      {
        if 2 * i + 1 < |c| {
          assert d[2 * i] == c[2 * i] && d[2 * i + 1] == c[2 * i + 1];
        } else if 2 * i + 1 < |d| {
          assert 2 * i == |c|;
        }
      }
  }

  /** A fresh entry names exactly its own variable. */
  lemma EnvVarNames(name: string, value: string, other: string)
    ensures Names(EnvVar(name, value), other) <==> other == name
  {
    var c := EnvVar(name, value).content;
    NameFromPair(c, other, 0);
    if other == name {
      assert NamePair(c, 0, other);
    } else {
      forall i | 0 <= i
        ensures !NamePair(c, i, other)
      {
        if i == 1 {
          assert c[2] == Scalar("value");
        }
      }
    }
  }

  /** A mapping as the decoder produces it: as many values as keys. */
  predicate EntryEven(item: Node) {
    item.kind == MappingNode ==> |item.content| % 2 == 0
  }

  predicate ItemsEven(env: Node) {
    forall i :: 0 <= i < |env.content| ==> EntryEven(env.content[i])
  }

  /** An entry that is well formed and not an entry for both hook variables. */
  predicate EntryOk(item: Node) {
    EntryEven(item) && !(Names(item, EventVar) && Names(item, WeightVar))
  }

  predicate ItemsOk(env: Node) {
    forall i :: 0 <= i < |env.content| ==> EntryOk(env.content[i])
  }

  /** The value of the first entry for `name`, as Kubernetes reads it. */
  function EnvValue(env: Node, name: string): Option<string> {
    if env.kind != SequenceNode then None
    else
      match FirstNamed(env.content, name)
      case None => None
      case Some(t) =>
        match Lookup(env.content[t].content, "value")
        case None => None
        case Some(v) => Some(v.value)
  }

  /** The first entry for `name` already carries `value`: setting it again
      changes nothing. */
  predicate Settled(env: Node, name: string, value: string) {
    env.kind == SequenceNode && FirstNamed(env.content, name).Some? &&
    var item := env.content[FirstNamed(env.content, name).value];
    Upserted(item, "value", value) == item
  }

  lemma SettledValue(env: Node, name: string, value: string)
    requires Settled(env, name, value) && ItemsOk(env)
    ensures EnvValue(env, name) == Some(value)
  {
    var t := FirstNamed(env.content, name).value;
    assert EntryOk(env.content[t]);
    UpsertedLookup(env.content[t], "value", value, "value");
  }

  lemma SettledFixed(env: Node, name: string, value: string)
    requires Settled(env, name, value)
    ensures EnvSet(env, name, value) == env
  {
    var t := FirstNamed(env.content, name).value;
    assert env.content[t := Upserted(env.content[t], "value", value)] == env.content;
  }

  /** The first entry for a variable is the first one that names it. */
  lemma FirstNamedIs(items: seq<Node>, name: string, t: nat)
    requires t < |items| && Names(items[t], name)
    requires forall j :: 0 <= j < t ==> !Names(items[j], name)
    ensures FirstNamed(items, name) == Some(t)
  {
  }

  /** addOrUpdateEnvVar on a list with an entry for the variable: that entry's
      value is upserted in place, where it stays the first entry for the
      variable, and the other hook variable is found where it was. */
  lemma EnvSetUpdates(env: Node, name: string, value: string, other: string)
    requires env.kind == SequenceNode && ItemsEven(env) && FirstNamed(env.content, name).Some?
    requires (name == EventVar || name == WeightVar) && (other == EventVar || other == WeightVar) && other != name
    ensures var r := EnvSet(env, name, value);
      var t := FirstNamed(env.content, name).value;
      r.kind == SequenceNode && ItemsEven(r) && Settled(r, name, value) &&
      r.content == env.content[t := Upserted(env.content[t], "value", value)] &&
      FirstNamed(r.content, name) == Some(t) &&
      FirstNamed(r.content, other) == FirstNamed(env.content, other)
  {
    var c := env.content;
    var r := EnvSet(env, name, value);
    var t := FirstNamed(c, name).value;
    var item := c[t];
    assert EntryEven(item);
    var item' := Upserted(item, "value", value);
    UpsertedNames(item, value, name);
    UpsertedNames(item, value, other);
    UpsertedLookup(item, "value", value, "value");
    UpsertedTwice(item, "value", value, value);
    assert r.content == c[t := item'];
    assert EntryEven(item');
    FirstNamedIs(r.content, name, t);
    SameNamed(c, r.content, other);
  }

  /** addOrUpdateEnvVar on a list with no entry for the variable: a fresh entry
      is appended, and the other hook variable is found where it was. */
  lemma EnvSetAppends(env: Node, name: string, value: string, other: string)
    requires env.kind == SequenceNode && ItemsEven(env) && FirstNamed(env.content, name).None?
    requires (name == EventVar || name == WeightVar) && (other == EventVar || other == WeightVar) && other != name
    ensures var r := EnvSet(env, name, value);
      r.kind == SequenceNode && ItemsEven(r) && Settled(r, name, value) &&
      r.content == env.content + [EnvVar(name, value)] &&
      FirstNamed(r.content, name) == Some(|env.content|) &&
      FirstNamed(r.content, other) == FirstNamed(env.content, other)
  {
    var c := env.content;
    var r := EnvSet(env, name, value);
    var e := EnvVar(name, value);
    EnvVarNames(name, value, name);
    EnvVarNames(name, value, other);
    assert r.content == c + [e];
    assert EntryEven(e);
    assert r.content[|c|] == e;
    FirstNamedIs(r.content, name, |c|);
    assert Upserted(e, "value", value) == e by {
      KeyPosIs(e.content, "value", 1);
    }
    SameNamed(c, r.content, other);
  }

  /** On a list where no entry names both hook variables, addOrUpdateEnvVar
      keeps it so, and the two variables have different first entries. */
  lemma EnvSetKeepsOk(env: Node, name: string, value: string, other: string)
    requires env.kind == SequenceNode && ItemsOk(env)
    requires (name == EventVar || name == WeightVar) && (other == EventVar || other == WeightVar) && other != name
    ensures ItemsOk(EnvSet(env, name, value))
    ensures FirstNamed(env.content, name).Some? && FirstNamed(env.content, other).Some? ==>
      FirstNamed(env.content, other).value != FirstNamed(env.content, name).value
  {
    var c := env.content;
    var r := EnvSet(env, name, value);
    match FirstNamed(c, name)
    case Some(t) =>
      var item := c[t];
      assert EntryOk(item);
      var item' := Upserted(item, "value", value);
      UpsertedNames(item, value, name);
      UpsertedNames(item, value, other);
      UpsertedLookup(item, "value", value, "value");
      assert EntryOk(item');
      assert r.content == c[t := item'];
    case None =>
      var e := EnvVar(name, value);
      EnvVarNames(name, value, name);
      EnvVarNames(name, value, other);
      assert EntryOk(e);
      assert r.content == c + [e];
  }

  /** Two entry lists that agree on which entries name a variable, the longer
      one having no further entry for it, find the same first entry. */
  lemma SameNamed(a: seq<Node>, b: seq<Node>, name: string)
    requires |a| <= |b|
    requires forall j :: 0 <= j < |a| ==> (Names(a[j], name) <==> Names(b[j], name))
    requires forall j :: |a| <= j < |b| ==> !Names(b[j], name)
    ensures FirstNamed(a, name) == FirstNamed(b, name)
  {
    match FirstNamed(b, name)
    case Some(t) =>
      assert t < |a| && Names(a[t], name);
    case None =>
  }

  /** One addOrUpdateEnvVar call, whichever way it goes. */
  lemma EnvSetStep(env: Node, name: string, value: string, other: string)
    requires env.kind == SequenceNode && ItemsOk(env)
    requires (name == EventVar || name == WeightVar) && (other == EventVar || other == WeightVar) && other != name
    ensures var r := EnvSet(env, name, value);
      r.kind == SequenceNode && ItemsOk(r) && Settled(r, name, value) &&
      FirstNamed(r.content, other) == FirstNamed(env.content, other) &&
      (FirstNamed(env.content, name).Some? ==> FirstNamed(r.content, name) == FirstNamed(env.content, name))
  {
    EnvSetKeepsOk(env, name, value, other);
    if FirstNamed(env.content, name).Some? {
      EnvSetUpdates(env, name, value, other);
    } else {
      EnvSetAppends(env, name, value, other);
    }
  }

  /** injectEnvInContainer's two calls settle both variables, keeping the list
      well formed. */
  lemma HookVarsSettles(env: Node, event: string, weightText: string)
    requires env.kind == SequenceNode && ItemsOk(env)
    ensures var r := HookVars(env, event, weightText);
      r.kind == SequenceNode && ItemsOk(r) && Settled(r, EventVar, event) && Settled(r, WeightVar, weightText)
  {
    HookVarsSteps(env, event, weightText);
    var e1 := EnvSet(env, EventVar, event);
    EnvSetStep(env, EventVar, event, WeightVar);
    EnvSetStep(e1, WeightVar, weightText, EventVar);
    var r := EnvSet(e1, WeightVar, weightText);
    var t := FirstNamed(e1.content, EventVar).value;
    EnvSetKeepsOk(e1, WeightVar, weightText, EventVar);
    if FirstNamed(e1.content, WeightVar).Some? {
      EnvSetUpdates(e1, WeightVar, weightText, EventVar);
    } else {
      EnvSetAppends(e1, WeightVar, weightText, EventVar);
    }
    assert r.content[t] == e1.content[t];
  }

  /** After injectEnvInContainer's two calls the list holds the event and the
      weight, an entry already there for a variable stays where it is, and an
      entry is appended only for a variable that had none. */
  lemma HookVarsSets(env: Node, event: string, weightText: string)
    requires env.kind == SequenceNode && ItemsOk(env)
    ensures var r := HookVars(env, event, weightText);
      EnvValue(r, EventVar) == Some(event) && EnvValue(r, WeightVar) == Some(weightText) &&
      |r.content| == |env.content| + (if FirstNamed(env.content, EventVar).None? then 1 else 0)
        + (if FirstNamed(env.content, WeightVar).None? then 1 else 0) &&
      (FirstNamed(env.content, EventVar).Some? ==> FirstNamed(r.content, EventVar) == FirstNamed(env.content, EventVar)) &&
      (FirstNamed(env.content, WeightVar).Some? ==> FirstNamed(r.content, WeightVar) == FirstNamed(env.content, WeightVar))
  {
    HookVarsSteps(env, event, weightText);
    HookVarsSettles(env, event, weightText);
    var e1 := EnvSet(env, EventVar, event);
    if FirstNamed(env.content, EventVar).Some? {
      EnvSetUpdates(env, EventVar, event, WeightVar);
    } else {
      EnvSetAppends(env, EventVar, event, WeightVar);
    }
    if FirstNamed(e1.content, WeightVar).Some? {
      EnvSetUpdates(e1, WeightVar, weightText, EventVar);
    } else {
      EnvSetAppends(e1, WeightVar, weightText, EventVar);
    }
    var r := HookVars(env, event, weightText);
    SettledValue(r, EventVar, event);
    SettledValue(r, WeightVar, weightText);
  }

  /** Both variables have an entry; the weight's first entry already carries
      the weight, and the event's carries the event unless it is the same
      entry, where the weight was written last. */
  predicate HookSettled(env: Node, event: string, weightText: string) {
    env.kind == SequenceNode &&
    FirstNamed(env.content, EventVar).Some? && FirstNamed(env.content, WeightVar).Some? &&
    var te := FirstNamed(env.content, EventVar).value;
    var tw := FirstNamed(env.content, WeightVar).value;
    Upserted(env.content[tw], "value", weightText) == env.content[tw] &&
    (te != tw ==> Upserted(env.content[te], "value", event) == env.content[te])
  }

  /** injectEnvInContainer's two calls leave both variables settled, even on a
      list with an entry that names both. */
  lemma HookVarsSettled(env: Node, event: string, weightText: string)
    requires env.kind == SequenceNode && ItemsEven(env)
    ensures var r := HookVars(env, event, weightText);
      ItemsEven(r) && HookSettled(r, event, weightText)
  {
    HookVarsSteps(env, event, weightText);
    var e1 := EnvSet(env, EventVar, event);
    if FirstNamed(env.content, EventVar).Some? {
      EnvSetUpdates(env, EventVar, event, WeightVar);
    } else {
      EnvSetAppends(env, EventVar, event, WeightVar);
    }
    var te := FirstNamed(e1.content, EventVar).value;
    var r := EnvSet(e1, WeightVar, weightText);
    if FirstNamed(e1.content, WeightVar).Some? {
      EnvSetUpdates(e1, WeightVar, weightText, EventVar);
      var tw := FirstNamed(e1.content, WeightVar).value;
      if te != tw {
        assert r.content[te] == e1.content[te];
      }
    } else {
      EnvSetAppends(e1, WeightVar, weightText, EventVar);
      assert r.content[te] == e1.content[te];
    }
  }

  /** Upserting the value of one entry leaves every variable's first entry
      where it was. */
  lemma UpsertKeepsFirst(c: seq<Node>, t: nat, value: string, name: string)
    requires t < |c| && EntryEven(c[t])
    ensures FirstNamed(c[t := Upserted(c[t], "value", value)], name) == FirstNamed(c, name)
  {
    if c[t].kind == MappingNode {
      UpsertedNames(c[t], value, name);
    }
    SameNamed(c, c[t := Upserted(c[t], "value", value)], name);
  }

  /** Setting both variables on a settled list changes nothing. */
  lemma HookSettledFixed(env: Node, event: string, weightText: string)
    requires HookSettled(env, event, weightText) && ItemsEven(env)
    ensures HookVars(env, event, weightText) == env
  {
    HookVarsSteps(env, event, weightText);
    var c := env.content;
    var te := FirstNamed(c, EventVar).value;
    var tw := FirstNamed(c, WeightVar).value;
    var c1 := c[te := Upserted(c[te], "value", event)];
    assert EnvSet(env, EventVar, event) == env.(content := c1);
    assert FirstNamed(c1, WeightVar) == Some(tw) by {
      assert EntryEven(c[te]);
      UpsertKeepsFirst(c, te, event, WeightVar);
    }
    var c2 := c1[tw := Upserted(c1[tw], "value", weightText)];
    assert EnvSet(env.(content := c1), WeightVar, weightText) == env.(content := c2);
    assert c2 == c by {
      if te != tw {
        assert c1 == c;
      } else {
        assert EntryEven(c[te]);
        UpsertedTwice(c[te], "value", event, weightText);
      }
    }
  }

  /** Setting both variables a second time changes nothing. */
  lemma HookVarsTwice(env: Node, event: string, weightText: string)
    requires env.kind == SequenceNode ==> ItemsEven(env)
    ensures HookVars(HookVars(env, event, weightText), event, weightText) == HookVars(env, event, weightText)
  {
    HookVarsSteps(env, event, weightText);
    if env.kind == SequenceNode {
      HookVarsSettled(env, event, weightText);
      HookSettledFixed(HookVars(env, event, weightText), event, weightText);
    }
  }

  // ---------------------------------------------------------------------------
  // Containers

  /** injectEnvInContainer: the container ends up with an `env` list, created
      when it had none, that holds the event and the weight. */
  lemma ContainerSets(container: Node, event: string, weightText: string)
    requires container.kind == MappingNode && |container.content| % 2 == 0
    requires ValueOf(container, "env").Some? ==>
      ValueOf(container, "env").value.kind == SequenceNode && ItemsOk(ValueOf(container, "env").value)
    ensures var r := ContainerInjected(container, event, weightText);
      ValueOf(r, "env").Some? &&
      EnvValue(ValueOf(r, "env").value, EventVar) == Some(event) &&
      EnvValue(ValueOf(r, "env").value, WeightVar) == Some(weightText)
  {
    var c := container.content;
    var r := ContainerInjected(container, event, weightText);
    match KeyPos(c, "env")
    case Some(k) =>
      var env := c[2 * k + 1];
      LookupReplaceValue(container, k, HookVars(env, event, weightText), "env");
      assert ValueOf(r, "env") == Some(HookVars(env, event, weightText));
      HookVarsSets(env, event, weightText);
    case None =>
      var env' := HookVars(EmptyEnv, event, weightText);
      LookupAppendPair(c, Scalar("env"), env', "env");
      assert ValueOf(r, "env") == Some(env');
      HookVarsSets(EmptyEnv, event, weightText);
  }

  /** injectEnvInContainer adds the key `env` at the end when it is missing and
      changes no other key's value. */
  lemma ContainerScope(container: Node, event: string, weightText: string, other: string)
    requires container.kind == MappingNode && |container.content| % 2 == 0
    ensures var r := ContainerInjected(container, event, weightText);
      r.kind == MappingNode && |r.content| % 2 == 0 &&
      Keys(r.content) == (if "env" in Keys(container.content) then Keys(container.content) else Keys(container.content) + ["env"]) &&
      (other != "env" ==> ValueOf(r, other) == ValueOf(container, other))
  {
    var c := container.content;
    match KeyPos(c, "env")
    case Some(k) =>
      var env' := HookVars(c[2 * k + 1], event, weightText);
      LookupReplaceValue(container, k, env', other);
    case None =>
      var env' := HookVars(EmptyEnv, event, weightText);
      LookupAppendPair(c, Scalar("env"), env', other);
      AppendPairKeys(c, Scalar("env"), env');
  }

  /** A node as the YAML decoder produces it, all the way down: every mapping
      has as many values as keys. */
  predicate WellFormed(n: Node) {
    EntryEven(n) && forall i :: 0 <= i < |n.content| ==> WellFormed(n.content[i])
  }

  lemma ChildWellFormed(n: Node, v: Node)
    requires WellFormed(n) && v in n.content
    ensures WellFormed(v)
  {
    var i :| 0 <= i < |n.content| && n.content[i] == v;
  }

  /** Injecting a container a second time changes nothing. */
  lemma ContainerTwice(container: Node, event: string, weightText: string)
    requires container.kind == MappingNode && WellFormed(container)
    ensures ContainerInjected(ContainerInjected(container, event, weightText), event, weightText)
      == ContainerInjected(container, event, weightText)
  {
    var c := container.content;
    var r := ContainerInjected(container, event, weightText);
    match KeyPos(c, "env")
    case Some(k) =>
      var env := c[2 * k + 1];
      ChildWellFormed(container, env);
      HookVarsTwice(env, event, weightText);
      KeyPosSameKeys(r.content, c, "env");
      assert r.content[2 * k + 1 := HookVars(r.content[2 * k + 1], event, weightText)] == r.content;
    case None =>
      var env' := HookVars(EmptyEnv, event, weightText);
      HookVarsTwice(EmptyEnv, event, weightText);
      var n := |c| / 2;
      AppendPairKeys(c, Scalar("env"), env');
      forall i | 0 <= i < n
        ensures KeyAt(r.content, i) != "env"
      {
        assert KeyAt(r.content, i) == Keys(c)[i];
      }
      KeyPosIs(r.content, "env", n);
      assert r.content[2 * n + 1 := HookVars(r.content[2 * n + 1], event, weightText)] == r.content;
  }

  /** Injecting a container list a second time changes nothing. */
  lemma ContainersTwice(containers: Node, event: string, weightText: string)
    requires WellFormed(containers)
    ensures ContainersInjected(ContainersInjected(containers, event, weightText), event, weightText)
      == ContainersInjected(containers, event, weightText)
  {
    if containers.kind == SequenceNode {
      var c := containers.content;
      var d := ContainersInjected(containers, event, weightText).content;
      forall i | 0 <= i < |c|
        ensures ContainersEntry(d, i, event, weightText) == d[i]
      {
        if c[i].kind == MappingNode {
          ContainerTwice(c[i], event, weightText);
        }
      }
    }
  }

  // ---------------------------------------------------------------------------
  // Specs and templates

  /** Injecting a pod spec a second time changes nothing. */
  lemma PodSpecTwice(podSpec: Node, event: string, weightText: string)
    requires WellFormed(podSpec)
    ensures PodSpecInjected(PodSpecInjected(podSpec, event, weightText), event, weightText)
      == PodSpecInjected(podSpec, event, weightText)
  {
    if podSpec.kind == MappingNode {
      var p' := PodSpecInjected(podSpec, event, weightText);
      assert PodSpecInjected(p', event, weightText).content == p'.content by {
        forall i | 0 <= i < |p'.content|
          ensures PodSpecEntry(p'.content, i, event, weightText) == p'.content[i]
        {
          PodSpecChildTwice(podSpec, i, event, weightText);
        }
      }
    }
  }

  /** Child i of an injected pod spec is left as it is by a second injection. */
  lemma PodSpecChildTwice(podSpec: Node, i: nat, event: string, weightText: string)
    requires WellFormed(podSpec) && podSpec.kind == MappingNode && i < |podSpec.content|
    ensures var d := PodSpecInjected(podSpec, event, weightText).content;
      PodSpecEntry(d, i, event, weightText) == d[i]
  {
    var k := i / 2;
    assert (i == 2 * k || i == 2 * k + 1) && 2 * k + 1 < |podSpec.content| by {
      assert |podSpec.content| % 2 == 0;
    }
    ChildWellFormed(podSpec, podSpec.content[2 * k + 1]);
    PodSpecPairTwice(podSpec, k, event, weightText);
  }

  /** Pair k of an injected pod spec is left as it is by a second injection. */
  lemma PodSpecPairTwice(podSpec: Node, k: nat, event: string, weightText: string)
    requires podSpec.kind == MappingNode && 2 * k + 1 < |podSpec.content| && WellFormed(podSpec.content[2 * k + 1])
    ensures var d := PodSpecInjected(podSpec, event, weightText).content;
      PodSpecEntry(d, 2 * k, event, weightText) == d[2 * k]
      && PodSpecEntry(d, 2 * k + 1, event, weightText) == d[2 * k + 1]
  {
    var c := podSpec.content;
    var d := PodSpecInjected(podSpec, event, weightText).content;
    var v := c[2 * k + 1];
    assert d[2 * k] == c[2 * k] by {
      assert d[2 * k] == PodSpecEntry(c, 2 * k, event, weightText);
      PodSpecKeyEntry(c, k, event, weightText);
    }
    PodSpecKeyEntry(d, k, event, weightText);
    assert IsContainersKey(c[2 * k].value) ==>
      ContainersInjected(ContainersInjected(v, event, weightText), event, weightText)
        == ContainersInjected(v, event, weightText) by {
      if IsContainersKey(c[2 * k].value) {
        ContainersTwice(v, event, weightText);
      }
    }
    assert d[2 * k + 1] == PodSpecEntry(c, 2 * k + 1, event, weightText);
    PodSpecValueFixed(c, d, k, event, weightText);
  }

  /** A pod spec value that injection has already reached is left as it is. */
  lemma PodSpecValueFixed(c: seq<Node>, d: seq<Node>, k: nat, event: string, weightText: string)
    requires 2 * k + 1 < |c| == |d| && d[2 * k] == c[2 * k]
    requires d[2 * k + 1] == PodSpecEntry(c, 2 * k + 1, event, weightText)
    requires IsContainersKey(c[2 * k].value) ==>
      ContainersInjected(ContainersInjected(c[2 * k + 1], event, weightText), event, weightText)
        == ContainersInjected(c[2 * k + 1], event, weightText)
    ensures PodSpecEntry(d, 2 * k + 1, event, weightText) == d[2 * k + 1]
  {
    PodSpecValueEntry(c, k, event, weightText);
    PodSpecValueEntry(d, k, event, weightText);
  }

  /** Keys of a pod spec are left as they are. */
  lemma PodSpecKeyEntry(c: seq<Node>, k: nat, event: string, weightText: string)
    requires 2 * k < |c|
    ensures PodSpecEntry(c, 2 * k, event, weightText) == c[2 * k]
  {
  }

  /** Only the values of `containers` and `initContainers` pairs change. */
  lemma PodSpecValueEntry(c: seq<Node>, k: nat, event: string, weightText: string)
    requires 2 * k + 1 < |c|
    ensures PodSpecEntry(c, 2 * k + 1, event, weightText)
      == if IsContainersKey(c[2 * k].value) then ContainersInjected(c[2 * k + 1], event, weightText) else c[2 * k + 1]
  {
    assert (2 * k + 1) - 1 == 2 * k;
  }

  /** Injecting a pod template a second time changes nothing. */
  lemma PodTemplateTwice(template: Node, event: string, weightText: string)
    requires WellFormed(template)
    ensures PodTemplateInjected(PodTemplateInjected(template, event, weightText), event, weightText)
      == PodTemplateInjected(template, event, weightText)
  {
    match ValueOf(template, "spec")
    case Some(s) =>
      var s' := PodSpecInjected(s, event, weightText);
      ChildWellFormed(template, s);
      PodSpecTwice(s, event, weightText);
      PutValueOf(template, "spec", s', "spec");
      PutValueOf(PutValue(template, "spec", s'), "spec", s', "spec");
    case None =>
  }

  /** Injection keeps a spec's keys, so it finds the same first template. */
  lemma SpecInjectedKeys(spec: Node, event: string, weightText: string)
    ensures Keys(SpecInjected(spec, event, weightText).content) == Keys(spec.content)
  {
    if spec.kind == MappingNode {
      var c := spec.content;
      var d := SpecInjected(spec, event, weightText).content;
      forall j | 0 <= j < |c| / 2
        ensures KeyAt(d, j) == KeyAt(c, j)
      {
        assert d[2 * j] == SpecEntry(spec, TemplatePos(Keys(c)), 2 * j, event, weightText);
      }
    }
  }

  /** Injecting a spec a second time changes nothing. */
  lemma SpecTwice(spec: Node, event: string, weightText: string)
    requires WellFormed(spec)
    ensures SpecInjected(SpecInjected(spec, event, weightText), event, weightText)
      == SpecInjected(spec, event, weightText)
    decreases spec, 2
  {
    if spec.kind == MappingNode {
      var c := spec.content;
      var s' := SpecInjected(spec, event, weightText);
      var d := s'.content;
      var t := TemplatePos(Keys(c));
      assert |d| == |c|;
      assert TemplatePos(Keys(d)) == t by { SpecInjectedKeys(spec, event, weightText); }
      assert SpecInjected(s', event, weightText).content == d by {
        forall i | 0 <= i < |d|
          ensures SpecEntry(s', t, i, event, weightText) == d[i]
        {
          SpecEntryTwice(spec, i, event, weightText);
        }
      }
    }
  }

  /** Child i of an injected spec is left as it is by a second injection. */
  lemma SpecEntryTwice(spec: Node, i: nat, event: string, weightText: string)
    requires WellFormed(spec) && spec.kind == MappingNode && i < |spec.content|
    ensures SpecEntry(SpecInjected(spec, event, weightText), TemplatePos(Keys(spec.content)), i, event, weightText)
      == SpecInjected(spec, event, weightText).content[i]
    decreases spec, 1
  {
    var k := i / 2;
    if i % 2 == 0 {
      assert i == 2 * k;
    } else {
      assert i == 2 * k + 1;
    }
    SpecPairTwice(spec, k, event, weightText);
  }

  /** Pair k of an injected spec is left as it is by a second injection. */
  lemma SpecPairTwice(spec: Node, k: nat, event: string, weightText: string)
    requires WellFormed(spec) && spec.kind == MappingNode && 2 * k + 1 < |spec.content|
    ensures var s' := SpecInjected(spec, event, weightText);
      var t := TemplatePos(Keys(spec.content));
      SpecEntry(s', t, 2 * k, event, weightText) == s'.content[2 * k]
      && SpecEntry(s', t, 2 * k + 1, event, weightText) == s'.content[2 * k + 1]
    decreases spec, 0
  {
    var c := spec.content;
    var s' := SpecInjected(spec, event, weightText);
    var d := s'.content;
    var t := TemplatePos(Keys(c));
    assert d[2 * k] == SpecEntry(spec, t, 2 * k, event, weightText);
    assert d[2 * k + 1] == SpecEntry(spec, t, 2 * k + 1, event, weightText);
    SpecEntryPast(spec, t, 2 * k, event, weightText);
    SpecEntryPast(s', t, 2 * k, event, weightText);
    ChildWellFormed(spec, c[2 * k + 1]);
    if t.Some? && k == t.value {
      SpecEntryAt(spec, k, event, weightText);
      SpecEntryAt(s', k, event, weightText);
      if c[2 * k].value == "template" {
        PodTemplateTwice(c[2 * k + 1], event, weightText);
      } else {
        JobTemplateTwice(c[2 * k + 1], event, weightText);
      }
    } else if t.None? || k < t.value {
      SpecEntryBefore(spec, t, k, event, weightText);
      SpecEntryBefore(s', t, k, event, weightText);
      if IsContainersKey(c[2 * k].value) {
        ContainersTwice(c[2 * k + 1], event, weightText);
      }
    } else {
      SpecEntryPast(spec, t, 2 * k + 1, event, weightText);
      SpecEntryPast(s', t, 2 * k + 1, event, weightText);
    }
  }

  /** Injecting a job template a second time changes nothing. */
  lemma JobTemplateTwice(jobTemplate: Node, event: string, weightText: string)
    requires WellFormed(jobTemplate)
    ensures JobTemplateInjected(JobTemplateInjected(jobTemplate, event, weightText), event, weightText)
      == JobTemplateInjected(jobTemplate, event, weightText)
    decreases jobTemplate, 3
  {
    match ValueOf(jobTemplate, "spec")
    case Some(s) =>
      var s' := SpecInjected(s, event, weightText);
      ChildWellFormed(jobTemplate, s);
      SpecTwice(s, event, weightText);
      PutValueOf(jobTemplate, "spec", s', "spec");
      PutValueOf(PutValue(jobTemplate, "spec", s'), "spec", s', "spec");
    case None =>
  }

  // ---------------------------------------------------------------------------
  // The resource

  /** injectEnvVars applied twice gives the tree it gives once. */
  lemma EnvInjectedTwice(root: Node, event: string, weight: int)
    requires WellFormed(root)
    ensures EnvInjected(EnvInjected(root, event, weight), event, weight) == EnvInjected(root, event, weight)
  {
    match ValueOf(root, "spec")
    case Some(s) =>
      var w := DecimalString(weight);
      var s' := SpecInjected(s, event, w);
      ChildWellFormed(root, s);
      SpecTwice(s, event, w);
      PutValueOf(root, "spec", s', "spec");
      PutValueOf(PutValue(root, "spec", s'), "spec", s', "spec");
    case None =>
  }

  /** injectEnvVars changes only the value under `spec`: the keys, every other
      key's value, the metadata name and the annotations stay as they were, and
      a resource without `spec` is left alone. */
  lemma EnvInjectedScope(root: Node, event: string, weight: int, other: string)
    ensures var r := EnvInjected(root, event, weight);
      Keys(r.content) == Keys(root.content) &&
      (other != "spec" ==> ValueOf(r, other) == ValueOf(root, other)) &&
      NameOf(r) == NameOf(root) && AnnotationsOf(r) == AnnotationsOf(root) &&
      (ValueOf(root, "spec").None? ==> r == root)
  {
    match ValueOf(root, "spec")
    case Some(s) =>
      var s' := SpecInjected(s, event, DecimalString(weight));
      PutValueOf(root, "spec", s', other);
      PutValueOf(root, "spec", s', "metadata");
    case None =>
  }

  /** A lookup in an injected spec finds the injected value of the same pair. */
  lemma SpecInjectedLookup(spec: Node, key: string, event: string, weightText: string)
    requires spec.kind == MappingNode && KeyPos(spec.content, key).Some?
    ensures var k := KeyPos(spec.content, key).value;
      ValueOf(SpecInjected(spec, event, weightText), key)
        == Some(SpecEntry(spec, TemplatePos(Keys(spec.content)), 2 * k + 1, event, weightText))
  {
    var k := KeyPos(spec.content, key).value;
    var r := SpecInjected(spec, event, weightText);
    SpecInjectedKeys(spec, event, weightText);
    KeyPosSameKeys(r.content, spec.content, key);
  }

  /** Where injectEnvInSpec acts: the containers lists before the first template
      are injected, the first template is descended into, and every pair after
      it is left as it was. */
  lemma SpecInjectedValue(spec: Node, key: string, event: string, weightText: string)
    requires spec.kind == MappingNode && KeyPos(spec.content, key).Some?
    ensures var k := KeyPos(spec.content, key).value;
      var t := TemplatePos(Keys(spec.content));
      var v := spec.content[2 * k + 1];
      var r := SpecInjected(spec, event, weightText);
      (IsContainersKey(key) && (t.None? || k < t.value) ==> ValueOf(r, key) == Some(ContainersInjected(v, event, weightText))) &&
      (key == "template" && t == Some(k) ==> ValueOf(r, key) == Some(PodTemplateInjected(v, event, weightText))) &&
      (key == "jobTemplate" && t == Some(k) ==> ValueOf(r, key) == Some(JobTemplateInjected(v, event, weightText))) &&
      (t.Some? && k > t.value ==> ValueOf(r, key) == ValueOf(spec, key))
  {
    var k := KeyPos(spec.content, key).value;
    SpecInjectedLookup(spec, key, event, weightText);
    assert spec.content[2 * k].value == key;
    assert (2 * k + 1) / 2 == k;
  }
}
