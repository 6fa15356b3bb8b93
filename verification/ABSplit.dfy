/** The weighted hash split of the A/B test operator, with weights as reals (pkg/ml/abtest.go). */
module ABSplit {
  import opened Seqs

  datatype Variant = Variant(name: string, weight: real, enabled: bool)

  datatype Validation = Valid | NoVariants | BadTotal(total: real) | NoModel(name: string)

  /** What a variant adds to the split. */
  function Effective(v: Variant): real {
    if v.enabled then v.weight else 0.0
  }

  /** The total weight of the enabled variants among the first `n`. */
  function Cumulative(vs: seq<Variant>, n: nat): real
    requires n <= |vs|
  {
    if n == 0 then 0.0 else Cumulative(vs, n - 1) + Effective(vs[n - 1])
  }

  function Validated(vs: seq<Variant>): Validation {
    if vs == [] then NoVariants
    else if Cumulative(vs, |vs|) < 99.9 || Cumulative(vs, |vs|) > 100.1 then BadTotal(Cumulative(vs, |vs|))
    else Valid
  }

  /** The variants whose models are loaded when the operator is built: those enabled then. */
  function LoadedNames(vs: seq<Variant>): set<string> {
    set i | 0 <= i < |vs| && vs[i].enabled :: vs[i].name
  }

  lemma {:induction false} NothingEnabled(vs: seq<Variant>, n: nat)
    requires n <= |vs| && forall i :: 0 <= i < |vs| ==> !vs[i].enabled
    ensures Cumulative(vs, n) == 0.0
  {
    if n > 0 {
      NothingEnabled(vs, n - 1);
    }
  }

  /** A validated configuration has an enabled variant. */
  lemma {:induction false} ValidatedHasEnabled(vs: seq<Variant>)
    requires Validated(vs) == Valid
    ensures LoadedNames(vs) != {}
  {
    if i :| 0 <= i < |vs| && vs[i].enabled {
      assert vs[i].name in LoadedNames(vs);
    } else {
      NothingEnabled(vs, |vs|);
    }
  }

  /** The first enabled variant from index `i` on whose cumulative weight reaches the percentage. */
  function Pick(vs: seq<Variant>, percentage: int, i: nat): (r: Option<nat>)
    requires i <= |vs|
    ensures r.Some? ==> i <= r.value < |vs| && vs[r.value].enabled
    decreases |vs| - i
  {
    if i == |vs| then None
    else if vs[i].enabled && percentage as real <= Cumulative(vs, i + 1) then Some(i)
    else Pick(vs, percentage, i + 1)
  }

  function NameOf(vs: seq<Variant>, picked: Option<nat>, fallback: string): string
    requires picked.Some? ==> picked.value < |vs|
  {
    if picked.Some? then vs[picked.value].name else fallback
  }

  function FirstNamed(vs: seq<Variant>, name: string, i: nat): (r: Option<nat>)
    requires i <= |vs|
    ensures r.Some? ==> i <= r.value < |vs| && vs[r.value].name == name
    ensures forall j :: i <= j < (if r.Some? then r.value else |vs|) ==> vs[j].name != name
    decreases |vs| - i
  {
    if i == |vs| then None else if vs[i].name == name then Some(i) else FirstNamed(vs, name, i + 1)
  }

  function Selected(vs: seq<Variant>, splitValue: string, hash: nat, fallback: string): string {
    if splitValue == "" then fallback else NameOf(vs, Pick(vs, hash % 100 + 1, 0), fallback)
  }

  /** A selected variant without a model gives way to the default; None stands for the panic when that has none. */
  function Served(loaded: set<string>, selected: string, fallback: string): Option<string> {
    if selected in loaded then Some(selected) else if fallback in loaded then Some(fallback) else None
  }

  class ABTestOperator {
    var variants: seq<Variant>
    /** The variants with a model; nothing is added later. */
    const loaded: set<string>
    const defaultVariant: string

    /** Without a configured default, any loaded variant becomes it. */
    constructor (variants: seq<Variant>, loaded: set<string>, defaultVariant: string)
      requires Validated(variants) == Valid && loaded == LoadedNames(variants)
      ensures this.variants == variants && this.loaded == loaded
      ensures if defaultVariant == "" then this.defaultVariant in loaded else this.defaultVariant == defaultVariant
    {
      this.variants := variants;
      this.loaded := loaded;
      if defaultVariant == "" {
        ValidatedHasEnabled(variants);
        var name :| name in loaded;
        this.defaultVariant := name;
      } else {
        this.defaultVariant := defaultVariant;
      }
    }

    /** `canLoad` says whether the registry has a variant's model. */
    static method Load(variants: seq<Variant>, canLoad: Variant -> bool) returns (v: Validation, loaded: set<string>)
      ensures v == Valid <==> forall i :: 0 <= i < |variants| && variants[i].enabled ==> canLoad(variants[i])
      ensures v == Valid ==> loaded == LoadedNames(variants)
      ensures v != Valid ==> exists i :: 0 <= i < |variants| && variants[i].enabled && !canLoad(variants[i])
                                         && v == NoModel(variants[i].name)
    {
      loaded := {};
      for i := 0 to |variants|
        invariant loaded == set j | 0 <= j < i && variants[j].enabled :: variants[j].name
        invariant forall j :: 0 <= j < i && variants[j].enabled ==> canLoad(variants[j])
      {
        if variants[i].enabled {
          if !canLoad(variants[i]) {
            return NoModel(variants[i].name), loaded;
          }
          loaded := loaded + {variants[i].name};
        }
      }
      v := Valid;
    }

    /** The check made before an operator is built. */
    static method Validate(variants: seq<Variant>) returns (v: Validation)
      ensures v == Validated(variants)
      ensures v == Valid <==> variants != [] && 99.9 <= Cumulative(variants, |variants|) <= 100.1
      ensures v.BadTotal? ==> v.total == Cumulative(variants, |variants|)
      ensures v == NoVariants <==> variants == []
    {
      if |variants| == 0 {
        return NoVariants;
      }
      var totalWeight := 0.0;
      for i := 0 to |variants|
        invariant totalWeight == Cumulative(variants, i)
      {
        if variants[i].enabled {
          totalWeight := totalWeight + variants[i].weight;
        }
      }
      if totalWeight < 99.9 || totalWeight > 100.1 {
        return BadTotal(totalWeight);
      }
      return Valid;
    }

    /** `hash` is the 32-bit hash of the split value. */
    method SelectHashedVariant(splitValue: string, hash: nat) returns (name: string)
      ensures name == Selected(variants, splitValue, hash, defaultVariant)
    {
      if splitValue == "" {
        return defaultVariant;
      }
      var percentage := (hash % 100) as real + 1.0;
      var cumulative := 0.0;
      for i := 0 to |variants|
        invariant cumulative == Cumulative(variants, i)
        invariant Pick(variants, hash % 100 + 1, 0) == Pick(variants, hash % 100 + 1, i)
      {
        if variants[i].enabled {
          cumulative := cumulative + variants[i].weight;
          if percentage <= cumulative {
            return variants[i].name;
          }
        }
      }
      return defaultVariant;
    }

    /** The variant whose model handles an event of a hash-split test. */
    method Serve(splitValue: string, hash: nat) returns (served: Option<string>)
      ensures served == Served(loaded, Selected(variants, splitValue, hash, defaultVariant), defaultVariant)
    {
      var selectedVariant := SelectHashedVariant(splitValue, hash);
      if selectedVariant !in loaded {
        selectedVariant := defaultVariant;
      }
      if selectedVariant !in loaded {
        return None;
      }
      return Some(selectedVariant);
    }

    /** Changes the first variant with that name; the total is not checked again, and no model is loaded. */
    method UpdateVariant(name: string, enabled: bool, weight: real) returns (found: bool)
      modifies this
      ensures var i := FirstNamed(old(variants), name, 0);
              && found == i.Some?
              && variants == if found then old(variants)[i.value := Variant(name, weight, enabled)] else old(variants)
    {
      for i := 0 to |variants|
        invariant variants == old(variants)
        invariant FirstNamed(variants, name, 0) == FirstNamed(variants, name, i)
      {
        if variants[i].name == name {
          variants := variants[i := variants[i].(enabled := enabled, weight := weight)];
          return true;
        }
      }
      return false;
    }
  }

  // ------------------------------------------------------------------
  // Which residues go where
  // ------------------------------------------------------------------

  /** The largest cumulative weight reached before index `n`, and at least zero. */
  function Peak(vs: seq<Variant>, n: nat): (r: real)
    requires n <= |vs|
    ensures r >= 0.0
  {
    if n == 0 then 0.0
    else if vs[n - 1].enabled && Cumulative(vs, n) > Peak(vs, n - 1) then Cumulative(vs, n)
    else Peak(vs, n - 1)
  }

  /** The percentages up to `x`, of the hundred there are. */
  function Clamp(x: real): int {
    if x.Floor < 0 then 0 else if x.Floor > 100 then 100 else x.Floor
  }

  /** The percentages, one for each of the hundred hash residues, that are routed to `target`. */
  function Share(vs: seq<Variant>, target: Option<nat>): set<int> {
    set p | 1 <= p <= 100 && Pick(vs, p, 0) == target
  }

  function Interval(lo: int, hi: int): (r: set<int>)
    requires lo <= hi
    ensures forall p :: p in r <==> lo < p <= hi
    ensures |r| == hi - lo
    decreases hi - lo
  {
    if lo == hi then {} else Interval(lo, hi - 1) + {hi}
  }

  /** No variant before index `n` takes the percentage exactly when it is above the peak. */
  lemma {:induction false} PassedBy(vs: seq<Variant>, p: int, n: nat)
    requires n <= |vs| && p >= 1
    ensures p as real > Peak(vs, n) ==> Pick(vs, p, 0) == Pick(vs, p, n)
    ensures p as real <= Peak(vs, n) ==> Pick(vs, p, 0).Some? && Pick(vs, p, 0).value < n
  {
    if n > 0 {
      PassedBy(vs, p, n - 1);
    }
  }

  /** Variant `i` takes a percentage exactly when it lies above every earlier cumulative weight and not above its
      own. */
  lemma {:induction false} PickedIff(vs: seq<Variant>, p: int, i: nat)
    requires i < |vs| && p >= 1
    ensures Pick(vs, p, 0) == Some(i) <==> vs[i].enabled && Peak(vs, i) < p as real <= Cumulative(vs, i + 1)
  {
    PassedBy(vs, p, i);
    PassedBy(vs, p, i + 1);
  }

  lemma {:induction false} AtMostFloor(p: int, x: real)
    ensures p as real <= x <==> p <= x.Floor
  {
  }

  /** Any enabled variant's share, for weights of any sign. */
  lemma {:induction false} ShareSize(vs: seq<Variant>, i: nat)
    requires i < |vs| && vs[i].enabled
    ensures |Share(vs, Some(i))|
         == if Clamp(Cumulative(vs, i + 1)) > Clamp(Peak(vs, i))
            then Clamp(Cumulative(vs, i + 1)) - Clamp(Peak(vs, i)) else 0
  {
    var lo, hi := Clamp(Peak(vs, i)), Clamp(Cumulative(vs, i + 1));
    forall p ensures p in Share(vs, Some(i)) <==> lo < p <= hi {
      if 1 <= p <= 100 {
        PickedIff(vs, p, i);
        AtMostFloor(p, Peak(vs, i));
        AtMostFloor(p, Cumulative(vs, i + 1));
      }
    }
    if lo < hi {
      assert Share(vs, Some(i)) == Interval(lo, hi);
    } else {
      assert Share(vs, Some(i)) == {};
    }
  }

  /** What is left to the default variant. */
  lemma {:induction false} DefaultSize(vs: seq<Variant>)
    ensures |Share(vs, None)| == 100 - Clamp(Peak(vs, |vs|))
  {
    var lo := Clamp(Peak(vs, |vs|));
    forall p ensures p in Share(vs, None) <==> lo < p <= 100 {
      if 1 <= p <= 100 {
        PassedBy(vs, p, |vs|);
        AtMostFloor(p, Peak(vs, |vs|));
      }
    }
    assert Share(vs, None) == Interval(lo, 100);
  }

  ghost predicate NonNegative(vs: seq<Variant>) {
    forall i :: 0 <= i < |vs| && vs[i].enabled ==> vs[i].weight >= 0.0
  }

  lemma {:induction false} PeakIsCumulative(vs: seq<Variant>, n: nat)
    requires n <= |vs| && NonNegative(vs)
    ensures Peak(vs, n) == Cumulative(vs, n)
  {
    if n > 0 {
      PeakIsCumulative(vs, n - 1);
    }
  }

  /** With non-negative weights, each variant's share is the step of the clamped, rounded-down cumulative weight. */
  lemma {:induction false} SplitIsProportional(vs: seq<Variant>, i: nat)
    requires i < |vs| && vs[i].enabled && NonNegative(vs)
    ensures |Share(vs, Some(i))| == Clamp(Cumulative(vs, i + 1)) - Clamp(Cumulative(vs, i))
  {
    PeakIsCumulative(vs, i);
    ShareSize(vs, i);
  }

  ghost predicate WholeWeights(vs: seq<Variant>) {
    forall i :: 0 <= i < |vs| && vs[i].enabled ==> vs[i].weight == vs[i].weight.Floor as real
  }

  lemma {:induction false} WholeCumulative(vs: seq<Variant>, n: nat)
    requires n <= |vs| && NonNegative(vs) && WholeWeights(vs)
    ensures Cumulative(vs, n) == Cumulative(vs, n).Floor as real && 0.0 <= Cumulative(vs, n) <= Cumulative(vs, |vs|)
    decreases |vs| - n
  {
    WholeUpTo(vs, n);
    if n < |vs| {
      WholeCumulative(vs, n + 1);
    }
  }

  lemma {:induction false} WholeUpTo(vs: seq<Variant>, n: nat)
    requires n <= |vs| && NonNegative(vs) && WholeWeights(vs)
    ensures Cumulative(vs, n) == Cumulative(vs, n).Floor as real && 0.0 <= Cumulative(vs, n)
  {
    if n > 0 {
      WholeUpTo(vs, n - 1);
      if vs[n - 1].enabled {
        assert Cumulative(vs, n) == (Cumulative(vs, n - 1).Floor + vs[n - 1].weight.Floor) as real;
      }
    }
  }

  /** Whole percentages that sum to 100 are split exactly, with nothing left to the default. */
  lemma {:induction false} WholeWeightsSplitExactly(vs: seq<Variant>, i: nat)
    requires i < |vs| && vs[i].enabled && NonNegative(vs) && WholeWeights(vs) && Cumulative(vs, |vs|) == 100.0
    ensures |Share(vs, Some(i))| as real == vs[i].weight
    ensures Share(vs, None) == {}
  {
    SplitIsProportional(vs, i);
    WholeCumulative(vs, i);
    WholeCumulative(vs, i + 1);
    PeakIsCumulative(vs, |vs|);
    DefaultSize(vs);
  }

  lemma {:induction false} PeakReachesTotal(vs: seq<Variant>, n: nat)
    requires n <= |vs|
    ensures Peak(vs, n) >= Cumulative(vs, n)
  {
    if n > 0 {
      PeakReachesTotal(vs, n - 1);
    }
  }

  /** Weights of any sign that pass validation leave the default at most one of the hundred residues; non-negative ones
      leave it exactly one when their total falls short of 100. */
  lemma {:induction false} ValidationLeavesAtMostOne(vs: seq<Variant>)
    requires Validated(vs) == Valid
    ensures |Share(vs, None)| <= 1
    ensures NonNegative(vs) ==> (|Share(vs, None)| == 1 <==> Cumulative(vs, |vs|) < 100.0)
  {
    DefaultSize(vs);
    PeakReachesTotal(vs, |vs|);
    if NonNegative(vs) {
      PeakIsCumulative(vs, |vs|);
    }
  }

  /** Every enabled variant gets as many of the hundred residues as its weight says, and the default none. */
  ghost predicate SplitsExactly(vs: seq<Variant>) {
    && Share(vs, None) == {}
    && forall i: nat :: i < |vs| && vs[i].enabled ==> |Share(vs, Some(i))| as real == vs[i].weight
  }

  /** Where the cumulative weight first passes 100. */
  lemma {:induction false} FirstOver(vs: seq<Variant>, n: nat) returns (i: nat)
    requires n <= |vs| && Cumulative(vs, n) > 100.0
    ensures i < n && Cumulative(vs, i) <= 100.0 < Cumulative(vs, i + 1)
  {
    i := n - 1;
    if Cumulative(vs, n - 1) > 100.0 {
      i := FirstOver(vs, n - 1);
    }
  }

  /** Whole weights are split exactly if and only if they sum to 100. */
  lemma {:induction false} SplitsExactlyIff(vs: seq<Variant>)
    requires NonNegative(vs) && WholeWeights(vs)
    ensures SplitsExactly(vs) <==> Cumulative(vs, |vs|) == 100.0
  {
    WholeUpTo(vs, |vs|);
    if Cumulative(vs, |vs|) == 100.0 {
      forall i: nat | i < |vs| && vs[i].enabled ensures |Share(vs, Some(i))| as real == vs[i].weight {
        WholeWeightsSplitExactly(vs, i);
      }
      PeakIsCumulative(vs, |vs|);
      DefaultSize(vs);
    } else if Cumulative(vs, |vs|) < 100.0 {
      PeakIsCumulative(vs, |vs|);
      DefaultSize(vs);
    } else {
      var i := FirstOver(vs, |vs|);
      WholeUpTo(vs, i);
      SplitIsProportional(vs, i);
    }
  }

  lemma {:induction false} UpdatedCumulative(vs: seq<Variant>, i: nat, v: Variant, n: nat)
    requires i < |vs| && n <= |vs|
    ensures Cumulative(vs[i := v], n) == Cumulative(vs, n) + if n > i then Effective(v) - Effective(vs[i]) else 0.0
  {
    if n > 0 {
      UpdatedCumulative(vs, i, v, n - 1);
    }
  }

  /** How an update changes what is routed to no variant at all. */
  lemma {:induction false} UpdatedDefault(vs: seq<Variant>, i: nat, v: Variant)
    requires i < |vs| && NonNegative(vs) && Cumulative(vs, |vs|) == 100.0 && Effective(v) >= 0.0
    ensures |Share(vs[i := v], None)| == 100 - Clamp(100.0 + Effective(v) - Effective(vs[i]))
    ensures Share(vs[i := v], None) == {} <==> Effective(v) >= Effective(vs[i])
  {
    UpdatedCumulative(vs, i, v, |vs|);
    PeakIsCumulative(vs[i := v], |vs|);
    DefaultSize(vs[i := v]);
  }

  // ------------------------------------------------------------------
  // What reaches the default: residues without a variant, and those of variants without a model
  // ------------------------------------------------------------------

  /** The percentages that are not served by the variant picked for them. */
  function Fallen(vs: seq<Variant>, loaded: set<string>): set<int> {
    set p | 1 <= p <= 100 && (Pick(vs, p, 0).None? || vs[Pick(vs, p, 0).value].name !in loaded)
  }

  ghost predicate AllLoaded(vs: seq<Variant>, loaded: set<string>) {
    forall i :: 0 <= i < |vs| && vs[i].enabled ==> vs[i].name in loaded
  }

  /** A variant gets some residue: its step of the cumulative weight reaches a whole percentage. */
  predicate GetsSome(vs: seq<Variant>, i: nat)
    requires i < |vs|
  {
    vs[i].enabled && Clamp(Cumulative(vs, i + 1)) > Clamp(Cumulative(vs, i))
  }

  lemma {:induction false} GetsSomeIff(vs: seq<Variant>, i: nat)
    requires i < |vs| && NonNegative(vs)
    ensures GetsSome(vs, i) <==> Share(vs, Some(i)) != {}
  {
    if vs[i].enabled {
      SplitIsProportional(vs, i);
    } else {
      assert Share(vs, Some(i)) == {};
    }
  }

  /** After any number of updates: nothing falls to the default if and only if the weights reach 100 and every variant
      that gets some residue has a model. */
  lemma {:induction false} NothingFallsIff(vs: seq<Variant>, loaded: set<string>)
    requires NonNegative(vs)
    ensures Fallen(vs, loaded) == {}
       <==> Cumulative(vs, |vs|) >= 100.0 && forall i: nat :: i < |vs| && GetsSome(vs, i) ==> vs[i].name in loaded
  {
    PeakIsCumulative(vs, |vs|);
    DefaultSize(vs);
    forall i: nat | i < |vs| ensures GetsSome(vs, i) <==> Share(vs, Some(i)) != {} {
      GetsSomeIff(vs, i);
    }
    forall p | p in Share(vs, None) ensures p in Fallen(vs, loaded) {
    }
    forall i: nat, p | i < |vs| && p in Share(vs, Some(i)) && vs[i].name !in loaded ensures p in Fallen(vs, loaded) {
    }
    if p :| p in Fallen(vs, loaded) {
      assert Pick(vs, p, 0).None? ==> p in Share(vs, None);
      assert Pick(vs, p, 0).Some? ==> p in Share(vs, Some(Pick(vs, p, 0).value));
    }
  }

  /** An update is not validated and loads nothing: of a split that totalled 100 with every enabled variant loaded, the
      default gets what the variant gave up, and all that goes to a variant that was not enabled at the start. */
  lemma {:induction false} UpdateUnbalances(vs: seq<Variant>, loaded: set<string>, i: nat, v: Variant)
    requires i < |vs| && NonNegative(vs) && Cumulative(vs, |vs|) == 100.0 && Effective(v) >= 0.0
    requires AllLoaded(vs, loaded)
    ensures |Fallen(vs[i := v], loaded)|
         == 100 - Clamp(100.0 + Effective(v) - Effective(vs[i]))
            + if v.name in loaded then 0 else |Share(vs[i := v], Some(i))|
  {
    var us := vs[i := v];
    UpdatedDefault(vs, i, v);
    forall p ensures p in Fallen(us, loaded)
                <==> p in Share(us, None) || (v.name !in loaded && p in Share(us, Some(i))) {
    }
    if v.name in loaded {
      assert Fallen(us, loaded) == Share(us, None);
    } else {
      assert Fallen(us, loaded) == Share(us, None) + Share(us, Some(i));
      assert Share(us, None) !! Share(us, Some(i));
    }
  }

  /** So nothing falls to the default after an update exactly if the variant brings at least as much as before, and is
      loaded or still gets no residue. */
  lemma {:induction false} UpdateIsServedIff(vs: seq<Variant>, loaded: set<string>, i: nat, v: Variant)
    requires i < |vs| && NonNegative(vs) && Cumulative(vs, |vs|) == 100.0 && Effective(v) >= 0.0
    requires AllLoaded(vs, loaded)
    ensures Fallen(vs[i := v], loaded) == {}
       <==> Effective(v) >= Effective(vs[i]) && (v.name in loaded || !GetsSome(vs[i := v], i))
  {
    UpdateUnbalances(vs, loaded, i, v);
    UpdatedDefault(vs, i, v);
    GetsSomeIff(vs[i := v], i);
  }

  /** Enabling a variant that was disabled when the operator was built: its weight rises, and all its traffic goes to
      the default. */
  lemma {:induction false} NewlyEnabledFalls(vs: seq<Variant>)
    requires vs == [Variant("x", 0.0, false), Variant("a", 50.0, true), Variant("b", 50.0, true)]
    ensures Validated(vs) == Valid
    ensures var us := vs[0 := Variant("x", 30.0, true)];
            Share(us, None) == {} && |Fallen(us, LoadedNames(vs))| == 30
  {
    var v := Variant("x", 30.0, true);
    var us := vs[0 := v];
    assert Cumulative(vs, 1) == Cumulative(vs, 0) + Effective(vs[0]) == 0.0;
    assert Cumulative(vs, 2) == Cumulative(vs, 1) + Effective(vs[1]) == 50.0;
    assert Cumulative(vs, 3) == Cumulative(vs, 2) + Effective(vs[2]) == 100.0;
    assert "x" !in LoadedNames(vs) by {
      assert "x"[0] != "a"[0] && "x"[0] != "b"[0];
    }
    assert AllLoaded(vs, LoadedNames(vs));
    UpdatedDefault(vs, 0, v);
    UpdateUnbalances(vs, LoadedNames(vs), 0, v);
    assert Cumulative(us, 1) == Cumulative(us, 0) + Effective(us[0]) == 30.0;
    SplitIsProportional(us, 0);
  }

  lemma {:induction false} ClampWhole(k: int)
    requires 0 <= k <= 100
    ensures Clamp(100.0 - k as real) == 100 - k
  {
    assert 100.0 - k as real == (100 - k) as real;
  }

  /** Of whole weights, a variant that is switched off leaves the default all it had. */
  lemma {:induction false} SwitchedOffGoesToDefault(vs: seq<Variant>, i: nat, v: Variant)
    requires i < |vs| && NonNegative(vs) && WholeWeights(vs) && Cumulative(vs, |vs|) == 100.0 && !v.enabled
    ensures |Share(vs[i := v], None)| as real == Effective(vs[i])
  {
    WholeCumulative(vs, i);
    WholeCumulative(vs, i + 1);
    UpdatedDefault(vs, i, v);
    ClampWhole(Effective(vs[i]).Floor);
  }

  /** The split as it is served: exact, and nothing falls to the default. */
  ghost predicate ServesExactly(vs: seq<Variant>, loaded: set<string>) {
    SplitsExactly(vs) && Fallen(vs, loaded) == {}
  }

  /** With whole weights before and after, a split that is served exactly stays so if and only if the update changes
      nothing that counts. */
  lemma {:induction false} UpdateKeepsExactIff(vs: seq<Variant>, loaded: set<string>, i: nat, v: Variant)
    requires i < |vs| && NonNegative(vs) && WholeWeights(vs) && SplitsExactly(vs) && AllLoaded(vs, loaded)
    requires v.name == vs[i].name && (v.enabled ==> v.weight >= 0.0 && v.weight == v.weight.Floor as real)
    ensures ServesExactly(vs[i := v], loaded) <==> Effective(v) == Effective(vs[i])
  {
    SplitsExactlyIff(vs);
    UpdatedCumulative(vs, i, v, |vs|);
    SplitsExactlyIff(vs[i := v]);
    UpdateIsServedIff(vs, loaded, i, v);
    UpdatedCumulative(vs, i, v, i);
    UpdatedCumulative(vs, i, v, i + 1);
  }

  // ------------------------------------------------------------------
  // The hundred hash residues, as they are served
  // ------------------------------------------------------------------

  /** Which variant's model handles an event, hash by hash: the variant that the percentage is routed to, one more than
      the residue of the hash, if it has a model; else the default if that has one. Without a split value it is always
      the default. */
  lemma {:induction false} ServedExactly(
      vs: seq<Variant>, loaded: set<string>, splitValue: string, hash: nat, fallback: string)
    ensures var served := Served(loaded, Selected(vs, splitValue, hash, fallback), fallback);
            if splitValue != "" && exists i: nat :: i < |vs| && hash % 100 + 1 in Share(vs, Some(i))
                                                    && vs[i].name in loaded then
              exists i: nat :: i < |vs| && hash % 100 + 1 in Share(vs, Some(i)) && served == Some(vs[i].name)
            else served == if fallback in loaded then Some(fallback) else None
  {
    var p := hash % 100 + 1;
    var picked := Pick(vs, p, 0);
    if picked.Some? {
      assert p in Share(vs, picked);
    }
  }

  /** Who handles an event whose hash has the residue `p - 1`. */
  function Handler(vs: seq<Variant>, loaded: set<string>, splitValue: string, fallback: string, p: int): Option<string>
    requires p >= 1
  {
    Served(loaded, Selected(vs, splitValue, p - 1, fallback), fallback)
  }

  /** The residues, each counted from one, for which `name` handles the event. */
  function Residues(
      vs: seq<Variant>, loaded: set<string>, splitValue: string, fallback: string, name: string): set<int> {
    set p | 1 <= p <= 100 && Handler(vs, loaded, splitValue, fallback, p) == Some(name)
  }

  /** Enabled variants have different names. */
  ghost predicate DistinctNames(vs: seq<Variant>) {
    forall i, j :: 0 <= i < j < |vs| && vs[i].enabled && vs[j].enabled ==> vs[i].name != vs[j].name
  }

  lemma {:induction false} ResiduesAreShare(
      vs: seq<Variant>, loaded: set<string>, splitValue: string, fallback: string, i: nat)
    requires splitValue != "" && i < |vs| && vs[i].enabled && DistinctNames(vs) && AllLoaded(vs, loaded)
    requires Share(vs, None) == {}
    ensures Residues(vs, loaded, splitValue, fallback, vs[i].name) == Share(vs, Some(i))
  {
    forall p | 1 <= p <= 100
      ensures p in Residues(vs, loaded, splitValue, fallback, vs[i].name) <==> p in Share(vs, Some(i)) {
      var picked := Pick(vs, p, 0);
      assert picked.None? ==> p in Share(vs, None);
      assert (p - 1) % 100 + 1 == p && vs[picked.value].enabled && vs[picked.value].name in loaded;
    }
  }

  /** Of the hundred residues a hash can have, a variant handles as many as its weight says, if whole weights sum to
      100, every enabled variant is loaded and no two have the same name. */
  lemma {:induction false} ServedByWeight(
      vs: seq<Variant>, loaded: set<string>, splitValue: string, fallback: string, i: nat)
    requires NonNegative(vs) && WholeWeights(vs) && Cumulative(vs, |vs|) == 100.0
    requires splitValue != "" && i < |vs| && vs[i].enabled && DistinctNames(vs) && AllLoaded(vs, loaded)
    ensures |Residues(vs, loaded, splitValue, fallback, vs[i].name)| as real == vs[i].weight
  {
    WholeWeightsSplitExactly(vs, i);
    ResiduesAreShare(vs, loaded, splitValue, fallback, i);
  }
}
