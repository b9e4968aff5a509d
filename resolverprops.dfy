/** Properties of the weight resolver in processor.go: which annotation wins,
    how `helm.sh/hook-weight` is broadcast or assigned by position, and how a
    `helm.sh/hook-weights` list of `name=weight` pairs is read back, both by
    extractHooksFromWeights and by parseExplicitWeights. */
module ResolverProps {
  import opened Wrappers
  import opened Text
  import opened Resolver
  import opened Validator

  // ---------------------------------------------------------------------------
  // parseWeights: precedence, broadcast, positions, default

  /** With `helm.sh/hook-weights` present, `helm.sh/hook-weight` plays no part. */
  lemma ExplicitWins(a: map<string, string>, hooks: seq<string>)
    requires WeightsKey in a
    ensures Weights(a, hooks) == Weights(a - {WeightKey}, hooks)
  {
    assert WeightsKey in a - {WeightKey};
  }

  /** A value isSingleValidWeight accepts is a single part for strings.Split. */
  lemma SingleWeightOnePart(v: string)
    requires IsSingleValidWeight(v)
    ensures Split(v, ',') == [v]
  {
    TrimSpaceKeeps(v, ',');
    SplitJoin([v], ',');
  }

  /** A comma-free `helm.sh/hook-weight` is one value: every hook gets it when it
      is an integer, and it is an error otherwise. */
  lemma WeightBroadcast(a: map<string, string>, hooks: seq<string>)
    requires WeightsKey !in a && WeightKey in a && ',' !in a[WeightKey]
    ensures Weights(a, hooks).Ok? <==> ParseInt(TrimSpace(a[WeightKey])).Some?
    ensures Weights(a, hooks).Ok? ==>
      forall h :: h in hooks ==> Weights(a, hooks).value[h] == ParseInt(TrimSpace(a[WeightKey])).value
    ensures Weights(a, hooks).Err? ==> Weights(a, hooks).error == InvalidWeight(a[WeightKey])
  {
    SplitJoin([a[WeightKey]], ',');
  }

  /** A `helm.sh/hook-weight` list of several values needs one per hook. */
  lemma WeightCountChecked(a: map<string, string>, hooks: seq<string>)
    requires WeightsKey !in a && WeightKey in a
    requires |Split(a[WeightKey], ',')| > 1 && |Split(a[WeightKey], ',')| != |hooks|
    ensures Weights(a, hooks) == Err(WeightCountMismatch(|hooks|, |Split(a[WeightKey], ',')|))
  {
  }

  /** Positional weights from index i on succeed exactly when every remaining
      part is an integer. */
  lemma {:induction false} PositionalOk(hooks: seq<string>, parts: seq<string>, i: nat, m: map<string, int>)
    requires |parts| == |hooks| && i <= |hooks|
    ensures PositionalFrom(hooks, parts, i, m).Ok? <==>
      forall j :: i <= j < |hooks| ==> ParseInt(TrimSpace(parts[j])).Some?
    decreases |hooks| - i
  {
    if i < |hooks| {
      var p := ParseInt(TrimSpace(parts[i]));
      var r := PositionalFrom(hooks, parts, i, m);
      if p.None? {
        assert r.Err?;
        assert ParseInt(TrimSpace(parts[i])).None?;
      } else {
        var m' := m[hooks[i] := p.value];
        assert r == PositionalFrom(hooks, parts, i + 1, m');
        PositionalOk(hooks, parts, i + 1, m');
        if r.Ok? {
          forall j | i <= j < |hooks|
            ensures ParseInt(TrimSpace(parts[j])).Some?
          {
            if j == i {
              assert ParseInt(TrimSpace(parts[j])) == p;
            }
          }
        } else {
          var j :| i + 1 <= j < |hooks| && ParseInt(TrimSpace(parts[j])).None?;
        }
      }
    }
  }

  /** A positional failure reports a part from index i on that is not an
      integer. */
  lemma {:induction false} PositionalErr(hooks: seq<string>, parts: seq<string>, i: nat, m: map<string, int>)
    requires |parts| == |hooks| && i <= |hooks|
    ensures PositionalFrom(hooks, parts, i, m).Err? ==>
      exists j :: i <= j < |hooks| && ParseInt(TrimSpace(parts[j])).None? &&
        PositionalFrom(hooks, parts, i, m).error == InvalidWeight(parts[j])
    decreases |hooks| - i
  {
    if i < |hooks| {
      var p := ParseInt(TrimSpace(parts[i]));
      if p.None? {
        assert PositionalFrom(hooks, parts, i, m) == Err(InvalidWeight(parts[i]));
      } else {
        var m' := m[hooks[i] := p.value];
        assert PositionalFrom(hooks, parts, i, m) == PositionalFrom(hooks, parts, i + 1, m');
        PositionalErr(hooks, parts, i + 1, m');
      }
    }
  }

  /** The weights ws assigned to hooks by position from index i on, over m. */
  function Assign(hooks: seq<string>, ws: seq<int>, i: nat, m: map<string, int>): map<string, int>
    requires |ws| == |hooks| && i <= |hooks|
    decreases |hooks| - i
  {
    if i == |hooks| then m else Assign(hooks, ws, i + 1, m[hooks[i] := ws[i]])
  }

  /** When every part j from i on is the integer ws[j], the positional weights
      are those integers assigned in order. */
  lemma {:induction false} PositionalAssign(hooks: seq<string>, parts: seq<string>, ws: seq<int>, i: nat, m: map<string, int>)
    requires |parts| == |hooks| == |ws| && i <= |hooks|
    requires forall j :: i <= j < |hooks| ==> ParseInt(TrimSpace(parts[j])) == Some(ws[j])
    ensures PositionalFrom(hooks, parts, i, m) == Ok(Assign(hooks, ws, i, m))
    decreases |hooks| - i
  {
    if i < |hooks| {
      var m' := m[hooks[i] := ws[i]];
      assert PositionalFrom(hooks, parts, i, m) == PositionalFrom(hooks, parts, i + 1, m') by {
        assert ParseInt(TrimSpace(parts[i])) == Some(ws[i]);
      }
      PositionalAssign(hooks, parts, ws, i + 1, m');
      assert Assign(hooks, ws, i, m) == Assign(hooks, ws, i + 1, m');
    }
  }

  /** Over distinct hooks, the assignment gives hooks[j] the weight ws[j] and
      leaves every other key as it was. */
  lemma {:induction false} AssignValues(hooks: seq<string>, ws: seq<int>, i: nat, m: map<string, int>)
    requires |ws| == |hooks| && i <= |hooks| && Distinct(hooks)
    ensures forall j :: i <= j < |hooks| ==> hooks[j] in Assign(hooks, ws, i, m) && Assign(hooks, ws, i, m)[hooks[j]] == ws[j]
    ensures forall k :: k in m && k !in hooks[i..] ==> k in Assign(hooks, ws, i, m) && Assign(hooks, ws, i, m)[k] == m[k]
    decreases |hooks| - i
  {
    if i < |hooks| {
      AssignValues(hooks, ws, i + 1, m[hooks[i] := ws[i]]);
      assert hooks[i] !in hooks[i + 1..];
      assert hooks[i..] == [hooks[i]] + hooks[i + 1..];
    }
  }

  /** A `helm.sh/hook-weight` list with one value per hook succeeds exactly
      when every value is an integer, and otherwise reports the first value
      that is not. */
  lemma WeightPositionalChecked(a: map<string, string>, hooks: seq<string>)
    requires WeightsKey !in a && WeightKey in a
    requires |Split(a[WeightKey], ',')| == |hooks| > 1
    ensures var parts := Split(a[WeightKey], ',');
      Weights(a, hooks).Ok? <==> forall j :: 0 <= j < |hooks| ==> ParseInt(TrimSpace(parts[j])).Some?
    ensures var parts := Split(a[WeightKey], ',');
      Weights(a, hooks).Err? ==>
      exists j :: 0 <= j < |hooks| && ParseInt(TrimSpace(parts[j])).None? && Weights(a, hooks).error == InvalidWeight(parts[j])
  {
    PositionalOk(hooks, Split(a[WeightKey], ','), 0, ConstWeights(hooks, DefaultWeight));
    PositionalErr(hooks, Split(a[WeightKey], ','), 0, ConstWeights(hooks, DefaultWeight));
  }

  /** A `helm.sh/hook-weight` list of integers ws, one per (distinct) hook,
      assigns them by position. */
  lemma WeightPositional(a: map<string, string>, hooks: seq<string>, ws: seq<int>)
    requires WeightsKey !in a && WeightKey in a && Distinct(hooks)
    requires |Split(a[WeightKey], ',')| == |hooks| == |ws| && |hooks| > 1
    requires forall j :: 0 <= j < |hooks| ==> ParseInt(TrimSpace(Split(a[WeightKey], ',')[j])) == Some(ws[j])
    ensures Weights(a, hooks).Ok?
    ensures forall j :: 0 <= j < |hooks| ==> Weights(a, hooks).value[hooks[j]] == ws[j]
  {
    PositionalAssign(hooks, Split(a[WeightKey], ','), ws, 0, ConstWeights(hooks, DefaultWeight));
    AssignValues(hooks, ws, 0, ConstWeights(hooks, DefaultWeight));
  }

  /** With neither weight annotation every hook weighs 0. */
  lemma WeightDefault(a: map<string, string>, hooks: seq<string>)
    requires WeightsKey !in a && WeightKey !in a
    ensures Weights(a, hooks).Ok?
    ensures forall h :: h in hooks ==> Weights(a, hooks).value[h] == 0
  {
  }

  // ---------------------------------------------------------------------------
  // `name=weight` pairs

  /** A pair `h=w` written by a plain name and a decimal weight reads back as h
      and w. */
  lemma PairParses(h: string, w: int)
    requires IsPlainName(h)
    ensures var p := h + "=" + DecimalString(w);
      p != "" && TrimSpace(p) == p && ',' !in p &&
      Cut(p, '=') == Some((h, DecimalString(w))) &&
      TrimSpace(h) == h && TrimSpace(DecimalString(w)) == DecimalString(w) &&
      ParseInt(DecimalString(w)) == Some(w)
  {
    var d := DecimalString(w);
    var p := h + "=" + d;
    DecimalStringParses(w);
    assert p[0] == h[0] && p[|p| - 1] == d[|d| - 1];
    assert IsTrimmed(p);
    assert IsTrimmed(d);
    assert ',' !in d;
    CutFirst(h, '=', d);
  }

  /** The pairs as parts: the first pair, then the rest. */
  lemma PairTextsTail(hs: seq<string>, ws: seq<int>)
    requires |hs| == |ws| && hs != []
    ensures PairTexts(hs, ws) == [hs[0] + "=" + DecimalString(ws[0])] + PairTexts(hs[1..], ws[1..])
  {
  }

  /** Part i of the written list is the pair for hs[i]. */
  lemma {:induction false} PairTextsAt(hs: seq<string>, ws: seq<int>, i: nat)
    requires |hs| == |ws| && i < |hs|
    ensures PairTexts(hs, ws)[i] == hs[i] + "=" + DecimalString(ws[i])
    decreases i
  {
    PairTextsTail(hs, ws);
    if i > 0 {
      PairTextsAt(hs[1..], ws[1..], i - 1);
    }
  }

  /** Part p is a `name=weight` pair whose name is h. */
  predicate NamesHook(p: string, h: string) {
    var pair := TrimSpace(p);
    pair != "" && Cut(pair, '=').Some? && TrimSpace(Cut(pair, '=').value.0) == h && h != ""
  }

  /** extractHooksFromWeights over parts that each name a hook appends those
      names in order (from part k on). */
  lemma {:induction false} WeightNamesNamed(parts: seq<string>, hs: seq<string>, k: nat, names: seq<string>)
    requires |parts| == |hs| && k <= |parts|
    requires forall i :: 0 <= i < |parts| ==> NamesHook(parts[i], hs[i])
    ensures WeightNames(parts[k..], names) == Ok(names + hs[k..])
    decreases |parts| - k
  {
    if k == |parts| {
      assert names + hs[k..] == names;
    } else {
      var names' := names + [hs[k]];
      assert WeightNames(parts[k..], names) == WeightNames(parts[k + 1..], names') by {
        assert parts[k..][0] == parts[k] && parts[k..][1..] == parts[k + 1..];
        WeightNamesStep(parts[k..], names, hs[k]);
      }
      assert WeightNames(parts[k + 1..], names') == Ok(names' + hs[k + 1..]) by {
        WeightNamesNamed(parts, hs, k + 1, names');
      }
      AppendNext(names, hs, k);
    }
  }

  lemma AppendNext(a: seq<string>, s: seq<string>, k: nat)
    requires k < |s|
    ensures (a + [s[k]]) + s[k + 1..] == a + s[k..]
  {
    assert s[k..] == [s[k]] + s[k + 1..];
  }

  /** One part naming h, read by extractHooksFromWeights. */
  lemma WeightNamesStep(parts: seq<string>, names: seq<string>, h: string)
    requires parts != [] && NamesHook(parts[0], h)
    ensures WeightNames(parts, names) == WeightNames(parts[1..], names + [h])
  {
  }

  /** extractHooksFromWeights reads the names of written pairs in order. */
  lemma WeightNamesPairs(hs: seq<string>, ws: seq<int>, names: seq<string>)
    requires |hs| == |ws|
    requires forall i :: 0 <= i < |hs| ==> IsPlainName(hs[i])
    ensures WeightNames(PairTexts(hs, ws), names) == Ok(names + hs)
  {
    var ps := PairTexts(hs, ws);
    forall i | 0 <= i < |ps| ensures NamesHook(ps[i], hs[i]) {
      PairTextsAt(hs, ws, i);
      PairParses(hs[i], ws[i]);
    }
    WeightNamesNamed(ps, hs, 0, names);
    assert ps[0..] == ps && hs[0..] == hs;
  }

  /** One written pair, read by parseExplicitWeights: its hook gets its weight. */
  lemma ExplicitPairStep(h: string, w: int, rest: seq<string>, hooks: seq<string>, m: map<string, int>)
    requires IsPlainName(h) && h in hooks
    ensures ExplicitFrom([h + "=" + DecimalString(w)] + rest, hooks, m) == ExplicitFrom(rest, hooks, m[h := w])
  {
    PairParses(h, w);
    assert ([h + "=" + DecimalString(w)] + rest)[1..] == rest;
  }

  /** parseExplicitWeights over written pairs with distinct known names: each
      named hook gets its weight and every other key keeps its own. */
  lemma {:induction false} ExplicitFromPairs(hs: seq<string>, ws: seq<int>, hooks: seq<string>, m: map<string, int>)
    requires |hs| == |ws| && Distinct(hs)
    requires forall i :: 0 <= i < |hs| ==> IsPlainName(hs[i]) && hs[i] in hooks
    ensures ExplicitFrom(PairTexts(hs, ws), hooks, m).Ok?
    ensures forall i :: 0 <= i < |hs| ==> hs[i] in ExplicitFrom(PairTexts(hs, ws), hooks, m).value
    ensures forall i :: 0 <= i < |hs| ==> ExplicitFrom(PairTexts(hs, ws), hooks, m).value[hs[i]] == ws[i]
    ensures forall k :: k in m && k !in hs ==> ExplicitFrom(PairTexts(hs, ws), hooks, m).value[k] == m[k]
    decreases |hs|
  {
    if hs != [] {
      PairTextsTail(hs, ws);
      var m' := m[hs[0] := ws[0]];
      ExplicitPairStep(hs[0], ws[0], PairTexts(hs[1..], ws[1..]), hooks, m);
      ExplicitFromPairs(hs[1..], ws[1..], hooks, m');
      var r := ExplicitFrom(PairTexts(hs, ws), hooks, m);
      assert r == ExplicitFrom(PairTexts(hs[1..], ws[1..]), hooks, m');
      assert hs[0] !in hs[1..] by {
        forall j | 0 <= j < |hs[1..]| ensures hs[1..][j] != hs[0] {
          assert hs[1..][j] == hs[j + 1];
        }
      }
      forall i | 0 <= i < |hs| ensures hs[i] in r.value && r.value[hs[i]] == ws[i] {
        if i > 0 {
          assert hs[i] == hs[1..][i - 1] && ws[i] == ws[1..][i - 1];
        }
      }
    }
  }

  /** Writing distinct hook names with their weights as a `helm.sh/hook-weights`
      value and reading it back: extractHooksFromWeights gives the names in
      order, and parseExplicitWeights gives each its weight and every hook not
      named weight 0. */
  lemma ExplicitRoundTrip(hs: seq<string>, ws: seq<int>, hooks: seq<string>)
    requires |hs| == |ws| >= 1 && Distinct(hs)
    requires forall i :: 0 <= i < |hs| ==> IsPlainName(hs[i]) && hs[i] in hooks
    ensures HooksFromWeights(Join(PairTexts(hs, ws), ',')) == Ok(hs)
    ensures ExplicitWeights(Join(PairTexts(hs, ws), ','), hooks).Ok?
    ensures forall i :: 0 <= i < |hs| ==> ExplicitWeights(Join(PairTexts(hs, ws), ','), hooks).value[hs[i]] == ws[i]
    ensures forall h :: h in hooks && h !in hs ==> ExplicitWeights(Join(PairTexts(hs, ws), ','), hooks).value[h] == DefaultWeight
  {
    var ps := PairTexts(hs, ws);
    forall p | p in ps ensures ',' !in p {
      var i :| 0 <= i < |ps| && ps[i] == p;
      PairTextsAt(hs, ws, i);
      PairParses(hs[i], ws[i]);
    }
    SplitJoin(ps, ',');
    WeightNamesPairs(hs, ws, []);
    assert [] + hs == hs;
    ExplicitFromPairs(hs, ws, hooks, ConstWeights(hooks, DefaultWeight));
  }

  /** parseExplicitWeights accepts every pair that extractHooksFromWeights does,
      and a hook whose name no pair gives keeps the weight it started with. */
  lemma {:induction false} ExplicitFromKeeps(parts: seq<string>, hooks: seq<string>, m: map<string, int>, names: seq<string>, h: string)
    requires h != "" && h in m
    requires ExplicitFrom(parts, hooks, m).Ok?
    ensures WeightNames(parts, names).Ok?
    ensures h !in WeightNames(parts, names).value ==> ExplicitFrom(parts, hooks, m).value[h] == m[h]
    decreases |parts|
  {
    if parts != [] {
      var pair := TrimSpace(parts[0]);
      if pair == "" {
        ExplicitFromKeeps(parts[1..], hooks, m, names, h);
      } else {
        var cut := Cut(pair, '=');
        var name := TrimSpace(cut.value.0);
        var w := ParseInt(TrimSpace(cut.value.1)).value;
        var names' := if name == "" then names else names + [name];
        ExplicitFromKeeps(parts[1..], hooks, m[name := w], names', h);
        if name == h {
          WeightNamesKeep(parts[1..], names');
        }
      }
    }
  }

  /** The names already read stay in extractHooksFromWeights' result. */
  lemma {:induction false} WeightNamesKeep(parts: seq<string>, names: seq<string>)
    requires WeightNames(parts, names).Ok?
    ensures forall x :: x in names ==> x in WeightNames(parts, names).value
    decreases |parts|
  {
    if parts != [] {
      var pair := TrimSpace(parts[0]);
      if pair == "" {
        WeightNamesKeep(parts[1..], names);
      } else {
        var name := TrimSpace(Cut(pair, '=').value.0);
        WeightNamesKeep(parts[1..], if name == "" then names else names + [name]);
      }
    }
  }

  /** Hooks that no pair of a `helm.sh/hook-weights` value names stay at 0. */
  lemma ExplicitUnnamedZero(value: string, hooks: seq<string>, h: string)
    requires ExplicitWeights(value, hooks).Ok?
    requires h in hooks && h != ""
    requires WeightNames(Split(value, ','), []).Ok? && h !in WeightNames(Split(value, ','), []).value
    ensures ExplicitWeights(value, hooks).value[h] == DefaultWeight
  {
    ExplicitFromKeeps(Split(value, ','), hooks, ConstWeights(hooks, DefaultWeight), [], h);
  }

  /** A lone pair without '=' is rejected by both readers of
      `helm.sh/hook-weights`. */
  lemma MalformedPairRejected(p: string, hooks: seq<string>)
    requires p != "" && IsTrimmed(p) && ',' !in p && '=' !in p
    ensures HooksFromWeights(p) == Err(MalformedWeightPair(p))
    ensures ExplicitWeights(p, hooks) == Err(MalformedWeightPair(p))
  {
    SplitJoin([p], ',');
  }

  /** A pair naming a hook outside the list is rejected by parseExplicitWeights. */
  lemma UnknownHookRejected(h: string, w: int, hooks: seq<string>)
    requires IsPlainName(h) && h !in hooks
    ensures ExplicitWeights(h + "=" + DecimalString(w), hooks) == Err(UnknownHookInWeights(h))
  {
    PairParses(h, w);
    SplitJoin([h + "=" + DecimalString(w)], ',');
  }

  /** A pair for a known hook whose weight is not an integer is rejected. */
  lemma BadWeightRejected(h: string, t: string, hooks: seq<string>)
    requires IsPlainName(h) && h in hooks
    requires IsTrimmed(t) && ',' !in t && ParseInt(t).None?
    ensures ExplicitWeights(h + "=" + t, hooks) == Err(InvalidWeightForHook(h))
  {
    var p := h + "=" + t;
    assert p[0] == h[0] && p[|p| - 1] == (if t == "" then '=' else t[|t| - 1]);
    assert IsTrimmed(p) && ',' !in p;
    CutFirst(h, '=', t);
    SplitJoin([p], ',');
  }

  /** Without any name, extractHooksFromWeights fails. */
  lemma {:induction false} NoNamesNoHooks(parts: seq<string>, names: seq<string>)
    requires forall i :: 0 <= i < |parts| ==> TrimSpace(parts[i]) == ""
    ensures WeightNames(parts, names) == Ok(names)
    decreases |parts|
  {
    if parts != [] {
      NoNamesNoHooks(parts[1..], names);
    }
  }

  /** A `helm.sh/hook-weights` value made only of commas and spaces names no hook. */
  lemma BlankWeightsRejected(value: string)
    requires forall p :: p in Split(value, ',') ==> TrimSpace(p) == ""
    ensures HooksFromWeights(value) == Err(NoHooksInWeights)
  {
    NoNamesNoHooks(Split(value, ','), []);
  }
}
