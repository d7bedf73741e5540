/** Merging typed policy layers: a later layer may tighten a hard requirement, never weaken it. */
module PolicyLayers {
  import opened IntelligenceModels

  datatype Kind = Hard | Soft | Unknown

  /** `>=`, `<=`, `>`, `<`, and every other symbol. The merge compares thresholds for the first two only;
      the contract accepts any symbol and gives the others no meaning. */
  datatype Operator = AtLeast | AtMost | Above | Below | Other(symbol: string)

  datatype Requirement = Requirement(
    id: string, metric: string, kind: Kind, threshold: Option<real>, operator: Option<Operator>)
  {
    /** The contract of a requirement. */
    predicate Valid() { kind != Unknown ==> threshold.Some? && operator.Some? }
  }

  datatype Scope = Organization | Tenant | Application | WorkloadClass | Workload

  datatype Layer = Layer(scope: Scope, id: string, requirements: seq<Requirement>)

  predicate ValidLayers(layers: seq<Layer>) {
    forall l, r :: l in layers && r in l.requirements ==> r.Valid()
  }

  function ScopeIndex(s: Scope): nat {
    match s case Organization => 0 case Tenant => 1 case Application => 2 case WorkloadClass => 3 case Workload => 4
  }

  function OfScope(layers: seq<Layer>, index: nat): seq<Layer> {
    if layers == [] then []
    else OfScope(layers[..|layers|-1], index)
         + (if ScopeIndex(layers[|layers|-1].scope) == index then [layers[|layers|-1]] else [])
  }

  /** sorted(layers) by scope; layers of one scope keep their order. */
  function InScopeOrder(layers: seq<Layer>): seq<Layer> {
    OfScope(layers, 0) + OfScope(layers, 1) + OfScope(layers, 2) + OfScope(layers, 3) + OfScope(layers, 4)
  }

  function Flatten(layers: seq<Layer>): seq<Requirement> {
    if layers == [] then [] else Flatten(layers[..|layers|-1]) + layers[|layers|-1].requirements
  }

  predicate Weakens(existing: Requirement, r: Requirement) {
    && existing.kind == Hard
    && (|| r.kind != Hard
        || (existing.operator == Some(AtLeast) && existing.threshold.Some? && r.threshold.Some?
            && r.threshold.value < existing.threshold.value)
        || (existing.operator == Some(AtMost) && existing.threshold.Some? && r.threshold.Some?
            && r.threshold.value > existing.threshold.value))
  }

  /** The merge of a list of requirements: None when one of them would weaken a hard one. */
  function Merge(rs: seq<Requirement>): Option<map<string, Requirement>> {
    if rs == [] then Some(map[]) else
    var before := Merge(rs[..|rs|-1]);
    var r := rs[|rs|-1];
    if before.None? || (r.metric in before.value && Weakens(before.value[r.metric], r)) then None
    else Some(before.value[r.metric := r])
  }

  lemma {:induction false} MergeFailsOn(rs: seq<Requirement>, i: nat)
    requires i <= |rs| && Merge(rs[..i]).None?
    ensures Merge(rs).None?
    decreases |rs|
  {
    if i < |rs| {
      assert rs[..|rs|-1][..i] == rs[..i];
      MergeFailsOn(rs[..|rs|-1], i);
    } else {
      assert rs[..i] == rs;
    }
  }

  /** The test of the inner loop: a direction is known for two operators only. */
  method CheckWeakens(existing: Requirement, r: Requirement) returns (weakens: bool)
    ensures weakens <==> Weakens(existing, r)
  {
    if existing.kind != Hard {
      return false;
    }
    var direction := if existing.operator == Some(AtLeast) then 1 else if existing.operator == Some(AtMost) then -1 else 0;
    weakens := r.kind != Hard;
    if !weakens && existing.threshold.Some? && r.threshold.Some? {
      var difference := r.threshold.value - existing.threshold.value;
      weakens := (direction == 1 && difference < 0.0) || (direction == -1 && difference > 0.0);
    }
  }

  /** The inner loop: one layer's requirements, on top of what came before. */
  method MergeLayer(ghost before: seq<Requirement>, merged: map<string, Requirement>, rs: seq<Requirement>)
    returns (result: Option<map<string, Requirement>>)
    requires Merge(before) == Some(merged)
    ensures result == Merge(before + rs)
  {
    var m := merged;
    assert before + rs[..0] == before;
    for j := 0 to |rs|
      invariant Merge(before + rs[..j]) == Some(m)
    {
      var r := rs[j];
      ghost var next := before + rs[..j+1];
      assert next[..|next|-1] == before + rs[..j] && next[|next|-1] == r;
      if r.metric in m {
        var weakens := CheckWeakens(m[r.metric], r);
        if weakens {
          assert (before + rs)[..|next|] == next;
          MergeFailsOn(before + rs, |next|);
          return None;
        }
      }
      m := m[r.metric := r];
    }
    assert rs[..|rs|] == rs;
    return Some(m);
  }

  /** The outer loop over the sorted layers. */
  method MergeTypedPolicyLayers(layers: seq<Layer>) returns (result: Option<map<string, Requirement>>)
    requires ValidLayers(layers)
    ensures result == Merge(Flatten(InScopeOrder(layers)))
  {
    var sorted := InScopeOrder(layers);
    var merged := map[];
    for i := 0 to |sorted|
      invariant Merge(Flatten(sorted[..i])) == Some(merged)
    {
      FlattenStep(sorted, i);
      var next := MergeLayer(Flatten(sorted[..i]), merged, sorted[i].requirements);
      if next.None? {
        FlattenFails(sorted, i + 1);
        return None;
      }
      merged := next.value;
    }
    assert sorted[..|sorted|] == sorted;
    return Some(merged);
  }

  lemma FlattenStep(layers: seq<Layer>, i: nat)
    requires i < |layers|
    ensures Flatten(layers[..i+1]) == Flatten(layers[..i]) + layers[i].requirements
  {
    assert layers[..i+1][..i] == layers[..i];
  }

  lemma {:induction false} FlattenFails(layers: seq<Layer>, i: nat)
    requires i <= |layers| && Merge(Flatten(layers[..i])).None?
    ensures Merge(Flatten(layers)).None?
    decreases |layers|
  {
    if i < |layers| {
      var init := layers[..|layers|-1];
      assert init[..i] == layers[..i];
      FlattenFails(init, i);
      var all := Flatten(init) + layers[|layers|-1].requirements;
      assert all[..|Flatten(init)|] == Flatten(init);
      MergeFailsOn(all, |Flatten(init)|);
    } else {
      assert layers[..i] == layers;
    }
  }

  // ----- when merging raises

  /** Position i holds the last requirement on its metric before position j. */
  predicate IsInherited(rs: seq<Requirement>, i: nat, j: nat) {
    i < j < |rs| && rs[i].metric == rs[j].metric && forall k :: i < k < j ==> rs[k].metric != rs[j].metric
  }

  /** A hard requirement gives way to one that is not hard, or to a lower bound below its own, or to an
      upper bound above its own. */
  ghost predicate IsViolated(rs: seq<Requirement>, i: nat, j: nat) {
    && IsInherited(rs, i, j) && rs[i].kind == Hard
    && (|| rs[j].kind != Hard
        || (exists t, u :: rs[i].operator == Some(AtLeast) && rs[i].threshold == Some(t) && rs[j].threshold == Some(u) && u < t)
        || (exists t, u :: rs[i].operator == Some(AtMost) && rs[i].threshold == Some(t) && rs[j].threshold == Some(u) && t < u))
  }

  lemma {:induction false} MergedIsInherited(rs: seq<Requirement>, metric: string)
    requires Merge(rs).Some?
    ensures metric in Merge(rs).value <==> exists i :: 0 <= i < |rs| && rs[i].metric == metric
    ensures metric in Merge(rs).value ==>
              exists i :: 0 <= i < |rs| && rs[i] == Merge(rs).value[metric] && rs[i].metric == metric
                          && forall k :: i < k < |rs| ==> rs[k].metric != metric
  {
    if rs != [] {
      var init := rs[..|rs|-1];
      MergedIsInherited(init, metric);
      assert forall i :: 0 <= i < |init| ==> init[i] == rs[i];
      if i :| 0 <= i < |rs| && rs[i].metric == metric && i < |init| { assert init[i].metric == metric; }
      if rs[|rs|-1].metric == metric {
        assert rs[|rs|-1] == Merge(rs).value[metric];
      }
    }
  }

  /** Merging raises exactly when some requirement violates the one it inherits. */
  lemma {:induction false} MergeRaisesExactly(rs: seq<Requirement>)
    ensures Merge(rs).None? <==> exists i, j :: IsViolated(rs, i, j)
  {
    if rs != [] {
      var init, last := rs[..|rs|-1], rs[|rs|-1];
      MergeRaisesExactly(init);
      forall i: nat, j: nat | j < |init| ensures IsViolated(init, i, j) <==> IsViolated(rs, i, j) {
        assert forall k :: 0 <= k < |init| ==> init[k] == rs[k];
      }
      if Merge(init).Some? {
        LastRaisesExactly(rs);
      }
    }
  }

  lemma LastRaisesExactly(rs: seq<Requirement>)
    requires rs != [] && Merge(rs[..|rs|-1]).Some?
    ensures Merge(rs).None? <==> exists i, j :: j == |rs| - 1 && IsViolated(rs, i, j)
  {
    var last := rs[|rs|-1];
    if last.metric in Merge(rs[..|rs|-1]).value {
      var i := InheritedByLast(rs);
      WeakensIsViolated(rs, i, |rs| - 1);
      forall n: nat, j: nat | j == |rs| - 1 && IsInherited(rs, n, j) ensures n == i {
        OneIsInherited(rs, n, i, j);
      }
    } else {
      forall n: nat, j: nat | j == |rs| - 1 ensures !IsInherited(rs, n, j) {
        NothingIsInherited(rs, n);
      }
    }
  }

  lemma InheritedByLast(rs: seq<Requirement>) returns (i: nat)
    requires rs != [] && Merge(rs[..|rs|-1]).Some? && rs[|rs|-1].metric in Merge(rs[..|rs|-1]).value
    ensures IsInherited(rs, i, |rs| - 1) && rs[i] == Merge(rs[..|rs|-1]).value[rs[|rs|-1].metric]
  {
    var init, metric := rs[..|rs|-1], rs[|rs|-1].metric;
    MergedIsInherited(init, metric);
    i :| 0 <= i < |init| && init[i] == Merge(init).value[metric] && init[i].metric == metric
         && forall k :: i < k < |init| ==> init[k].metric != metric;
    assert rs[i] == init[i];
    forall k | i < k < |rs| - 1 ensures rs[k].metric != metric { assert rs[k] == init[k]; }
  }

  lemma NothingIsInherited(rs: seq<Requirement>, n: nat)
    requires rs != [] && Merge(rs[..|rs|-1]).Some? && rs[|rs|-1].metric !in Merge(rs[..|rs|-1]).value
    ensures !IsInherited(rs, n, |rs| - 1)
  {
    var init, metric := rs[..|rs|-1], rs[|rs|-1].metric;
    MergedIsInherited(init, metric);
    assert n < |init| ==> init[n] == rs[n];
  }

  lemma WeakensIsViolated(rs: seq<Requirement>, i: nat, j: nat)
    requires IsInherited(rs, i, j)
    ensures Weakens(rs[i], rs[j]) <==> IsViolated(rs, i, j)
  {}

  lemma OneIsInherited(rs: seq<Requirement>, m: nat, n: nat, j: nat)
    requires IsInherited(rs, m, j) && IsInherited(rs, n, j)
    ensures m == n
  {}

  // ----- what a merged requirement means

  /** What the symbols outside the four comparisons mean: anything, given threshold and value. */
  type Meaning = (string, real, real) -> bool

  /** A value meets a comparison or another condition with a threshold. */
  predicate Meets(v: real, r: Requirement, meaning: Meaning) {
    match (r.operator, r.threshold)
    case (Some(AtLeast), Some(t)) => v >= t
    case (Some(AtMost), Some(t)) => v <= t
    case (Some(Above), Some(t)) => v > t
    case (Some(Below), Some(t)) => v < t
    case (Some(Other(symbol)), Some(t)) => meaning(symbol, t, v)
    case _ => true
  }

  predicate HardOn(r: Requirement, metric: string) { r.kind == Hard && r.metric == metric }

  predicate AllValid(rs: seq<Requirement>) { forall r :: r in rs ==> r.Valid() }

  /** r is at least as strict as every hard requirement on the metric, whatever the other symbols mean. */
  ghost predicate Entails(r: Requirement, rs: seq<Requirement>, metric: string) {
    forall h :: h in rs && HardOn(h, metric) ==> Stricter(r, h)
  }

  ghost predicate Stricter(r: Requirement, h: Requirement) {
    forall meaning: Meaning, v: real :: Meets(v, r, meaning) ==> Meets(v, h, meaning)
  }

  /** Strictness read off the operators and thresholds: the same direction and a threshold at least as
      tight, strictly tighter where a bound that is included replaces one that is not; other symbols
      only equal themselves. */
  predicate TighterThan(r: Requirement, h: Requirement)
    requires r.Valid() && h.Valid() && r.kind == h.kind == Hard
  {
    var t, u := r.threshold.value, h.threshold.value;
    match (r.operator.value, h.operator.value)
    case (AtLeast, AtLeast) => t >= u
    case (AtLeast, Above) => t > u
    case (Above, AtLeast) => t >= u
    case (Above, Above) => t >= u
    case (AtMost, AtMost) => t <= u
    case (AtMost, Below) => t < u
    case (Below, AtMost) => t <= u
    case (Below, Below) => t <= u
    case (Other(a), Other(b)) => a == b && t == u
    case _ => false
  }

  lemma TighterIsStricter(r: Requirement, h: Requirement)
    requires r.Valid() && h.Valid() && r.kind == h.kind == Hard && TighterThan(r, h)
    ensures Stricter(r, h)
  {}

  /** A value and a meaning that tell two requirements apart. */
  lemma LooserIsNotStricter(r: Requirement, h: Requirement)
    requires r.Valid() && h.Valid() && r.kind == h.kind == Hard && !TighterThan(r, h)
    ensures !Stricter(r, h)
  {
    var t, u := r.threshold.value, h.threshold.value;
    var low, high := (if t < u then t else u) - 1.0, (if t < u then u else t) + 1.0;
    var only: Meaning := (symbol, threshold, value) => r.operator == Some(Other(symbol)) && threshold == t;
    var all: Meaning := (symbol, threshold, value) => true;
    var between := (t + u) / 2.0;
    var meaning := if r.operator.value.Other? && !h.operator.value.Other? then all else only;
    assert exists v :: v in [low, high, t, between] && Meets(v, r, meaning) && !Meets(v, h, meaning) by {
      assert low in [low, high, t, between] && high in [low, high, t, between];
      assert t in [low, high, t, between] && between in [low, high, t, between];
    }
  }

  /** Every hard requirement on the metric has one operator. */
  predicate OneOperator(rs: seq<Requirement>, metric: string) {
    forall a, b :: a in rs && b in rs && HardOn(a, metric) && HardOn(b, metric) ==> a.operator == b.operator
  }

  /** The last requirement on the metric. */
  function LastOn(rs: seq<Requirement>, metric: string): (r: Requirement)
    requires exists h :: h in rs && HardOn(h, metric)
    ensures r in rs && r.metric == metric
  {
    var last := rs[|rs|-1];
    if last.metric == metric then last
    else
      assert rs == rs[..|rs|-1] + [last];
      LastOn(rs[..|rs|-1], metric)
  }

  lemma {:induction false} MergedIsLast(rs: seq<Requirement>, metric: string)
    requires Merge(rs).Some? && exists h :: h in rs && HardOn(h, metric)
    ensures metric in Merge(rs).value && Merge(rs).value[metric] == LastOn(rs, metric)
    ensures HardOn(LastOn(rs, metric), metric)
  {
    var init, last := rs[..|rs|-1], rs[|rs|-1];
    assert rs == init + [last];
    if exists h :: h in init && HardOn(h, metric) {
      MergedIsLast(init, metric);
    }
  }

  /** With one operator that the merge compares, the merged requirement has the tightest threshold. */
  lemma {:induction false} MergedIsTightest(rs: seq<Requirement>, metric: string, h: Requirement)
    requires AllValid(rs) && Merge(rs).Some? && OneOperator(rs, metric)
    requires h in rs && HardOn(h, metric) && (h.operator == Some(AtLeast) || h.operator == Some(AtMost))
    ensures metric in Merge(rs).value && HardOn(Merge(rs).value[metric], metric)
    ensures Merge(rs).value[metric].Valid() && TighterThan(Merge(rs).value[metric], h)
  {
    var init, last := rs[..|rs|-1], rs[|rs|-1];
    assert rs == init + [last];
    MergedIsLast(rs, metric);
    assert last in rs && last.Valid();
    if h in init {
      MergedIsTightest(init, metric, h);
      MergedIsLast(init, metric);
      var m := Merge(init).value[metric];
      assert m in rs && m.operator == h.operator;
      if last.metric == metric { assert HardOn(last, metric) && last.operator == m.operator; }
    }
  }

  /** When a merge succeeds, the requirement it keeps for a metric is the last one on it, and is hard.
      It is at least as strict as all the hard ones exactly when its operator and threshold are at least
      as tight as each of theirs. */
  lemma MergeTightensExactly(rs: seq<Requirement>, metric: string)
    requires AllValid(rs) && Merge(rs).Some? && exists h :: h in rs && HardOn(h, metric)
    ensures metric in Merge(rs).value && Merge(rs).value[metric] == LastOn(rs, metric)
    ensures HardOn(LastOn(rs, metric), metric)
    ensures Entails(Merge(rs).value[metric], rs, metric) <==>
              forall h :: h in rs && HardOn(h, metric) ==> TighterThan(LastOn(rs, metric), h)
  {
    MergedIsLast(rs, metric);
    var m := LastOn(rs, metric);
    forall h | h in rs && HardOn(h, metric) ensures Stricter(m, h) <==> TighterThan(m, h) {
      if TighterThan(m, h) { TighterIsStricter(m, h); } else { LooserIsNotStricter(m, h); }
    }
  }

  /** With one operator on the metric: `>=` and `<=` always tighten; `>` and `<` tighten exactly when the
      last threshold is the tightest; another symbol exactly when no threshold differs from the last. */
  lemma OneOperatorTightensExactly(rs: seq<Requirement>, metric: string)
    requires AllValid(rs) && Merge(rs).Some? && exists h :: h in rs && HardOn(h, metric)
    requires OneOperator(rs, metric)
    ensures metric in Merge(rs).value && HardOn(LastOn(rs, metric), metric)
    ensures var last := LastOn(rs, metric);
            Entails(Merge(rs).value[metric], rs, metric) <==>
              match last.operator.value
              case AtLeast => true
              case AtMost => true
              case Above => forall h :: h in rs && HardOn(h, metric) ==> last.threshold.value >= h.threshold.value
              case Below => forall h :: h in rs && HardOn(h, metric) ==> last.threshold.value <= h.threshold.value
              case Other(_) => forall h :: h in rs && HardOn(h, metric) ==> last.threshold.value == h.threshold.value
  {
    MergeTightensExactly(rs, metric);
    if LastOn(rs, metric).operator.value.AtLeast? || LastOn(rs, metric).operator.value.AtMost? {
      forall h | h in rs && HardOn(h, metric) ensures TighterThan(LastOn(rs, metric), h) {
        MergedIsTightest(rs, metric, h);
      }
    }
  }

  /** When every operator is `>=` or `<=`, one operator is also necessary. */
  lemma ComparedTightensExactly(rs: seq<Requirement>, metric: string)
    requires AllValid(rs) && Merge(rs).Some? && exists h :: h in rs && HardOn(h, metric)
    requires forall h :: h in rs && HardOn(h, metric) ==> h.operator == Some(AtLeast) || h.operator == Some(AtMost)
    ensures metric in Merge(rs).value
    ensures Entails(Merge(rs).value[metric], rs, metric) <==> OneOperator(rs, metric)
  {
    MergeTightensExactly(rs, metric);
    if OneOperator(rs, metric) { OneOperatorTightensExactly(rs, metric); }
  }

  // ----- two merges that weaken

  lemma MergeOfTwo(a: Requirement, b: Requirement)
    requires a.metric == b.metric && !Weakens(a, b)
    ensures Merge([a, b]) == Some(map[a.metric := b])
  {
    assert [a][..0] == [] && [a][|[a]|-1] == a;
    assert Merge([a]) == Some(map[a.metric := a]);
    assert [a, b][..1] == [a] && [a, b][|[a, b]|-1] == b;
    assert map[a.metric := a][a.metric := b] == map[a.metric := b];
  }

  /** At least 5, then at most 7, merges to at most 7, which 0 meets. */
  lemma OppositeDirectionWeakens()
    ensures var low := Requirement("a", "latency", Hard, Some(5.0), Some(AtLeast));
            var high := Requirement("b", "latency", Hard, Some(7.0), Some(AtMost));
            && low.Valid() && high.Valid() && Merge([low, high]) == Some(map["latency" := high])
            && forall meaning: Meaning :: Meets(0.0, high, meaning) && !Meets(0.0, low, meaning)
  {
    MergeOfTwo(Requirement("a", "latency", Hard, Some(5.0), Some(AtLeast)),
               Requirement("b", "latency", Hard, Some(7.0), Some(AtMost)));
  }

  /** Below 100, then below 1000, one direction throughout, merges to below 1000, which 500 meets. */
  lemma StrictBoundWeakens()
    ensures var tight := Requirement("a", "latency", Hard, Some(100.0), Some(Below));
            var loose := Requirement("b", "latency", Hard, Some(1000.0), Some(Below));
            && tight.Valid() && loose.Valid() && OneOperator([tight, loose], "latency")
            && Merge([tight, loose]) == Some(map["latency" := loose])
            && forall meaning: Meaning :: Meets(500.0, loose, meaning) && !Meets(500.0, tight, meaning)
  {
    MergeOfTwo(Requirement("a", "latency", Hard, Some(100.0), Some(Below)),
               Requirement("b", "latency", Hard, Some(1000.0), Some(Below)));
  }

  lemma {:induction false} OfScopeElements(layers: seq<Layer>, index: nat)
    ensures forall l :: l in OfScope(layers, index) <==> l in layers && ScopeIndex(l.scope) == index
  {
    if layers != [] {
      OfScopeElements(layers[..|layers|-1], index);
      assert layers == layers[..|layers|-1] + [layers[|layers|-1]];
    }
  }

  lemma {:induction false} FlattenElements(layers: seq<Layer>)
    ensures forall r :: r in Flatten(layers) <==> exists l :: l in layers && r in l.requirements
  {
    if layers != [] {
      var last := layers[|layers|-1];
      FlattenElements(layers[..|layers|-1]);
      assert layers == layers[..|layers|-1] + [last];
      assert last in layers;
    }
  }

  /** Sorting the layers loses and invents no requirement, so the results above, taken on the sorted
      list, speak of every hard requirement in every layer. */
  lemma SortingKeepsRequirements(layers: seq<Layer>, r: Requirement)
    ensures r in Flatten(InScopeOrder(layers)) <==> exists l :: l in layers && r in l.requirements
  {
    FlattenElements(InScopeOrder(layers));
    forall l ensures l in InScopeOrder(layers) <==> l in layers {
      OfScopeElements(layers, 0);
      OfScopeElements(layers, 1);
      OfScopeElements(layers, 2);
      OfScopeElements(layers, 3);
      OfScopeElements(layers, 4);
    }
  }

  /** a is the more general scope: an organization is above all others, and so on downwards. */
  predicate MoreGeneral(a: Scope, b: Scope) {
    match a
    case Organization => b != Organization
    case Tenant => b == Application || b == WorkloadClass || b == Workload
    case Application => b == WorkloadClass || b == Workload
    case WorkloadClass => b == Workload
    case Workload => false
  }

  lemma GeneralByIndex(a: Scope, b: Scope)
    ensures MoreGeneral(a, b) <==> ScopeIndex(a) < ScopeIndex(b)
  {}

  /** Layers are merged from the most general scope to the least. */
  lemma GeneralComesFirst(layers: seq<Layer>, i: nat, j: nat)
    requires i < j < |InScopeOrder(layers)|
    ensures !MoreGeneral(InScopeOrder(layers)[j].scope, InScopeOrder(layers)[i].scope)
  {
    GeneralByIndex(InScopeOrder(layers)[j].scope, InScopeOrder(layers)[i].scope);
    OfScopeElements(layers, 0);
    OfScopeElements(layers, 1);
    OfScopeElements(layers, 2);
    OfScopeElements(layers, 3);
    OfScopeElements(layers, 4);
    var a, b, c, d, e := OfScope(layers, 0), OfScope(layers, 1), OfScope(layers, 2), OfScope(layers, 3), OfScope(layers, 4);
    ConcatOrdered(a, b, 0);
    ConcatOrdered(a + b, c, 1);
    ConcatOrdered(a + b + c, d, 2);
    ConcatOrdered(a + b + c + d, e, 3);
  }

  ghost predicate ScopesAscend(s: seq<Layer>) { forall i, j :: 0 <= i < j < |s| ==> ScopeIndex(s[i].scope) <= ScopeIndex(s[j].scope) }

  lemma ConcatOrdered(a: seq<Layer>, b: seq<Layer>, index: nat)
    requires ScopesAscend(a) && (forall l :: l in a ==> ScopeIndex(l.scope) <= index)
    requires forall l :: l in b ==> ScopeIndex(l.scope) == index + 1
    ensures ScopesAscend(a + b) && forall l :: l in a + b ==> ScopeIndex(l.scope) <= index + 1
  {
    var s := a + b;
    forall i, j | 0 <= i < j < |s| ensures ScopeIndex(s[i].scope) <= ScopeIndex(s[j].scope) {
      if i < |a| { assert s[i] in a; } else { assert s[i] in b; }
      if j < |a| { assert s[j] in a; } else { assert s[j] in b; }
    }
  }

  /** Layers of one scope keep their order: sorting leaves the layers of each scope as they were. */
  lemma SortingIsStable(layers: seq<Layer>, scope: Scope)
    ensures OfScope(InScopeOrder(layers), ScopeIndex(scope)) == OfScope(layers, ScopeIndex(scope))
  {
    var k := ScopeIndex(scope);
    var a, b, c, d, e := OfScope(layers, 0), OfScope(layers, 1), OfScope(layers, 2), OfScope(layers, 3), OfScope(layers, 4);
    OfScopeOfFive(a, b, c, d, e, k);
    OfScopeAgain(layers, 0, k);
    OfScopeAgain(layers, 1, k);
    OfScopeAgain(layers, 2, k);
    OfScopeAgain(layers, 3, k);
    OfScopeAgain(layers, 4, k);
    OneOfFive(OfScope(a, k), OfScope(b, k), OfScope(c, k), OfScope(d, k), OfScope(e, k));
  }

  lemma OfScopeOfFive(a: seq<Layer>, b: seq<Layer>, c: seq<Layer>, d: seq<Layer>, e: seq<Layer>, k: nat)
    ensures OfScope(a + b + c + d + e, k) ==
              OfScope(a, k) + OfScope(b, k) + OfScope(c, k) + OfScope(d, k) + OfScope(e, k)
  {
    OfScopeConcat(a, b, k);
    OfScopeConcat(a + b, c, k);
    OfScopeConcat(a + b + c, d, k);
    OfScopeConcat(a + b + c + d, e, k);
  }

  lemma OneOfFive(a: seq<Layer>, b: seq<Layer>, c: seq<Layer>, d: seq<Layer>, e: seq<Layer>)
    ensures b == [] && c == [] && d == [] && e == [] ==> a + b + c + d + e == a
    ensures a == [] && c == [] && d == [] && e == [] ==> a + b + c + d + e == b
    ensures a == [] && b == [] && d == [] && e == [] ==> a + b + c + d + e == c
    ensures a == [] && b == [] && c == [] && e == [] ==> a + b + c + d + e == d
    ensures a == [] && b == [] && c == [] && d == [] ==> a + b + c + d + e == e
  {}

  lemma {:induction false} OfScopeConcat(s: seq<Layer>, t: seq<Layer>, index: nat)
    ensures OfScope(s + t, index) == OfScope(s, index) + OfScope(t, index)
  {
    if t == [] {
      assert s + t == s;
    } else {
      var init, last := t[..|t|-1], t[|t|-1];
      OfScopeConcat(s, init, index);
      OfScopeAppend(s + init, last, index);
      OfScopeAppend(init, last, index);
      assert s + t == s + init + [last] && t == init + [last];
    }
  }

  lemma OfScopeAppend(s: seq<Layer>, l: Layer, index: nat)
    ensures OfScope(s + [l], index) == OfScope(s, index) + (if ScopeIndex(l.scope) == index then [l] else [])
  {
    assert (s + [l])[..|s|] == s;
  }

  lemma {:induction false} OfScopeAgain(layers: seq<Layer>, i: nat, k: nat)
    ensures OfScope(OfScope(layers, i), k) == if i == k then OfScope(layers, i) else []
  {
    if layers != [] {
      var init, last := layers[..|layers|-1], layers[|layers|-1];
      OfScopeAgain(init, i, k);
      var picked := if ScopeIndex(last.scope) == i then [last] else [];
      OfScopeConcat(OfScope(init, i), picked, k);
      assert picked != [] ==> picked[..0] == [];
    }
  }
}
