/** validator.go: the fixed hook vocabulary, the per-resource event check, and
    the standalone pre-check over a raw annotation map. */
module Validator {
  import opened Wrappers
  import opened Text
  import opened Resolver

  /** The eleven hook events Helm knows (`test-success` and `test-failure` are
      deprecated but still accepted). */
  const ValidHooks: set<string> := {
    "pre-install", "post-install", "pre-delete", "post-delete",
    "pre-upgrade", "post-upgrade", "pre-rollback", "post-rollback",
    "test", "test-success", "test-failure"
  }

  predicate Distinct(s: seq<string>) {
    forall i, j :: 0 <= i < j < |s| ==> s[i] != s[j]
  }

  /** Element i is outside the vocabulary or repeats an earlier element. */
  predicate Offends(hooks: seq<string>, i: nat)
    requires i < |hooks|
  {
    hooks[i] !in ValidHooks || hooks[i] in hooks[..i]
  }

  /** The error for an offending element: the vocabulary is checked before the
      repeat. */
  function OffenceAt(hooks: seq<string>, i: nat): ErrorKind
    requires i < |hooks|
  {
    if hooks[i] !in ValidHooks then InvalidHookEvent(hooks[i]) else DuplicateHookEvent(hooks[i])
  }

  /** The first offending element at or after i. */
  function FirstOffender(hooks: seq<string>, i: nat): (r: Option<nat>)
    ensures r.Some? ==> i <= r.value < |hooks| && Offends(hooks, r.value)
    ensures r.Some? ==> forall j :: i <= j < r.value ==> !Offends(hooks, j)
    ensures r.None? ==> forall j :: i <= j < |hooks| ==> !Offends(hooks, j)
    decreases |hooks| - i
  {
    if i >= |hooks| then None
    else if Offends(hooks, i) then Some(i)
    else FirstOffender(hooks, i + 1)
  }

  /** validateHooks: the first element, in list order, that is unknown or repeated
      decides the error. */
  function CheckHooks(hooks: seq<string>, resourceName: string): Outcome<Error> {
    match FirstOffender(hooks, 0)
    case None => Pass
    case Some(i) => Fail(Error(resourceName, OffenceAt(hooks, i)))
  }

  /** The check passes exactly when every event is known and none repeats. */
  lemma CheckHooksPassIff(hooks: seq<string>, resourceName: string)
    ensures CheckHooks(hooks, resourceName) == Pass <==>
      (forall e :: e in hooks ==> e in ValidHooks) && Distinct(hooks)
  {
    if CheckHooks(hooks, resourceName) == Pass {
      assert FirstOffender(hooks, 0).None?;
      forall e | e in hooks ensures e in ValidHooks {
        var k :| 0 <= k < |hooks| && hooks[k] == e;
        assert !Offends(hooks, k);
      }
      forall i, j | 0 <= i < j < |hooks| ensures hooks[i] != hooks[j] {
        assert !Offends(hooks, j);
        assert hooks[..j][i] == hooks[i];
        assert hooks[i] in hooks[..j];
      }
    } else {
      var i := FirstOffender(hooks, 0).value;
      if hooks[i] in ValidHooks {
        var k :| 0 <= k < i && hooks[..i][k] == hooks[i];
        assert hooks[k] == hooks[i];
      }
    }
  }

  /** The reported error names the first offender and says why. */
  lemma CheckHooksReportsFirst(hooks: seq<string>, resourceName: string, i: nat)
    requires i < |hooks| && Offends(hooks, i)
    requires forall j :: 0 <= j < i ==> !Offends(hooks, j)
    ensures CheckHooks(hooks, resourceName) == Fail(Error(resourceName, OffenceAt(hooks, i)))
  {
  }

  method ValidateHooks(hooks: seq<string>, resourceName: string) returns (r: Outcome<Error>)
    ensures r == CheckHooks(hooks, resourceName)
  {
    var seen: set<string> := {};
    var i := 0;
    while i < |hooks|
      invariant 0 <= i <= |hooks|
      invariant seen == set h | h in hooks[..i]
      invariant FirstOffender(hooks, i) == FirstOffender(hooks, 0)
    {
      var h := hooks[i];
      if h !in ValidHooks {
        return Fail(Error(resourceName, InvalidHookEvent(h)));
      }
      if h in seen {
        return Fail(Error(resourceName, DuplicateHookEvent(h)));
      }
      assert hooks[..i + 1] == hooks[..i] + [h];
      seen := seen + {h};
      i := i + 1;
    }
    return Pass;
  }

  /** ValidateAnnotations: nothing to check without `helm.sh/hook` (even if
      `helm.sh/hook-weights` is there); otherwise the events must be non-empty
      and pass validateHooks, a `helm.sh/hook-weights` value must pass
      parseExplicitWeights, and failing that a `helm.sh/hook-weight` list of
      several values must have one per event. The weight values themselves are
      not parsed. */
  function ValidateAnnotations(annotations: map<string, string>, resourceName: string): (r: Outcome<Error>)
    ensures HookKey !in annotations ==> r == Pass
    ensures r == Pass && HookKey in annotations ==>
      var hooks := HookEvents(annotations[HookKey]);
      hooks != [] && (forall e :: e in hooks ==> e in ValidHooks) && Distinct(hooks)
    ensures r.Fail? ==> r.error.resource == resourceName
  {
    if HookKey !in annotations then Pass
    else
      var hooks := HookEvents(annotations[HookKey]);
      if hooks == [] then Fail(Error(resourceName, EmptyHookAnnotation))
      else
        CheckHooksPassIff(hooks, resourceName);
        match CheckHooks(hooks, resourceName)
        case Fail(e) => Fail(e)
        case Pass =>
          if WeightsKey in annotations then
            match ExplicitWeights(annotations[WeightsKey], hooks)
            case Err(e) => Fail(Error(resourceName, e))
            case Ok(_) => Pass
          else if WeightKey in annotations then
            var parts := Split(annotations[WeightKey], ',');
            if |parts| > 1 && |parts| != |hooks| then
              Fail(Error(resourceName, WeightCountMismatch(|hooks|, |parts|)))
            else Pass
          else Pass
  }

  /** What ValidateAnnotations checks, branch by branch and in both directions:
      an empty event list and the first bad event are reported as such; then a
      `helm.sh/hook-weights` value passes exactly when parseExplicitWeights
      accepts it, and fails with its error; failing that, a
      `helm.sh/hook-weight` list passes exactly when it has at most one part or
      one part per event, and fails with both counts. */
  lemma ValidateAnnotationsChecks(annotations: map<string, string>, resourceName: string)
    requires HookKey in annotations
    ensures var r := ValidateAnnotations(annotations, resourceName);
      var hooks := HookEvents(annotations[HookKey]);
      (hooks == [] ==> r == Fail(Error(resourceName, EmptyHookAnnotation))) &&
      (hooks != [] && CheckHooks(hooks, resourceName).Fail? ==> r == CheckHooks(hooks, resourceName))
    ensures var r := ValidateAnnotations(annotations, resourceName);
      var hooks := HookEvents(annotations[HookKey]);
      hooks != [] && CheckHooks(hooks, resourceName) == Pass && WeightsKey in annotations ==>
        var w := ExplicitWeights(annotations[WeightsKey], hooks);
        (r == Pass <==> w.Ok?) && (w.Err? ==> r == Fail(Error(resourceName, w.error)))
    ensures var r := ValidateAnnotations(annotations, resourceName);
      var hooks := HookEvents(annotations[HookKey]);
      hooks != [] && CheckHooks(hooks, resourceName) == Pass && WeightsKey !in annotations ==>
        var n := if WeightKey in annotations then |Split(annotations[WeightKey], ',')| else 0;
        (r == Pass <==> n <= 1 || n == |hooks|) &&
        (r.Fail? ==> r == Fail(Error(resourceName, WeightCountMismatch(|hooks|, n))))
  {
  }

  /** ValidateAnnotations passes a hook resource exactly when its events are
      non-empty, known and distinct, a `helm.sh/hook-weights` value parses, and
      otherwise a `helm.sh/hook-weight` list has at most one part or one part
      per event. */
  lemma ValidateAnnotationsPassIff(annotations: map<string, string>, resourceName: string)
    requires HookKey in annotations
    ensures var hooks := HookEvents(annotations[HookKey]);
      ValidateAnnotations(annotations, resourceName) == Pass <==>
        hooks != [] && (forall e :: e in hooks ==> e in ValidHooks) && Distinct(hooks) &&
        (WeightsKey in annotations ==> ExplicitWeights(annotations[WeightsKey], hooks).Ok?) &&
        (WeightsKey !in annotations && WeightKey in annotations ==>
          |Split(annotations[WeightKey], ',')| <= 1 || |Split(annotations[WeightKey], ',')| == |hooks|)
  {
    var hooks := HookEvents(annotations[HookKey]);
    CheckHooksPassIff(hooks, resourceName);
    ValidateAnnotationsChecks(annotations, resourceName);
  }
}
