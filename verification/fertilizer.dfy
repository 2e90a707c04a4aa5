/**
 The crop fertilizer recommendation engine. For a crop and a set of observed
 soil nutrient levels it reads the crop's required levels from the table and
 recommends, per required nutrient, the deficit floored at zero, or the full
 requirement when that nutrient was not observed. An unknown crop yields an
 empty recommendation.
 */
module Fertilizer {
  import opened NutrientLevels
  import opened CropTable

  /** Observed soil levels, keyed by nutrient name. */
  type Observed = map<string, real>

  /** Python's built-in `max` on two numbers: the first argument unless the second is larger. */
  function Max(a: real, b: real): (m: real)
    ensures m >= a && m >= b
    ensures m == a || m == b
  {
    if b > a then b else a
  }

  /**
   The quantity recommended for one required nutrient: the deficit floored at
   zero when the nutrient was observed, the full requirement when it was not.
   */
  function Quantity(required: real, nutrient: string, observed: Observed): (q: real)
    ensures nutrient !in observed ==> q == required
    ensures nutrient in observed ==>
      && q >= 0.0
      && q >= required - observed[nutrient]
      && (q == 0.0 || q == required - observed[nutrient])
  {
    if nutrient in observed then Max(0.0, required - observed[nutrient]) else required
  }

  /**
   The recommendation for one crop's required levels: the loop over the
   profile, assigning each nutrient's quantity into an initially empty
   dictionary in profile order.
   */
  function Fill(profile: Levels, observed: Observed): (r: Levels)
    ensures Distinct(Keys(r))
    ensures forall n :: n in Keys(r) <==> n in Keys(profile)
    decreases |profile|
  {
    if profile == [] then []
    else
      var init := profile[..|profile| - 1];
      var last := profile[|profile| - 1];
      assert Keys(profile) == Keys(init) + [last.nutrient];
      Assign(Fill(init, observed), last.nutrient, Quantity(last.amount, last.nutrient, observed))
  }

  /** The recommendation for `crop`, or nothing when the table does not list it. */
  function Recommend(table: Table, crop: string, observed: Observed): (r: Levels)
    ensures !Known(table, crop) ==> r == []
    ensures Distinct(Keys(r))
  {
    match Lookup(table, crop)
    case None => []
    case Some(profile) => Fill(profile, observed)
  }

  /**
   The requirement a dictionary built from `profile` would hold for `n`:
   that of the last entry naming `n`.
   */
  function Latest(profile: Levels, n: string): Option<real>
    decreases |profile|
  {
    if profile == [] then None
    else if profile[|profile| - 1].nutrient == n then Some(profile[|profile| - 1].amount)
    else Latest(profile[..|profile| - 1], n)
  }

  /** Observations `o1` and `o2` say the same about every nutrient `profile` names. */
  predicate AgreeOn(profile: Levels, o1: Observed, o2: Observed)
  {
    forall i | 0 <= i < |profile| ::
      && (profile[i].nutrient in o1 <==> profile[i].nutrient in o2)
      && (profile[i].nutrient in o1 ==> o1[profile[i].nutrient] == o2[profile[i].nutrient])
  }

  // ---------------------------------------------------------------------
  // Properties of Fill, by induction over the profile
  // ---------------------------------------------------------------------

  /**
   Looked up by name, the recommendation holds the quantity computed from the
   requirement the profile gives that nutrient, and nothing for nutrients the
   profile does not name. This holds even if a name were repeated.
   */
  lemma {:induction false} FillLookup(profile: Levels, observed: Observed, n: string)
    ensures Get(Fill(profile, observed), n) ==
      (match Latest(profile, n)
       case None => None
       case Some(required) => Some(Quantity(required, n, observed)))
    decreases |profile|
  {
    if profile != [] {
      var init := profile[..|profile| - 1];
      var last := profile[|profile| - 1];
      FillLookup(init, observed, n);
      AssignGet(Fill(init, observed), last.nutrient, Quantity(last.amount, last.nutrient, observed));
    }
  }

  /**
   The recommendation read entry by entry off the profile: each requirement
   replaced by its recommended quantity, in profile order.
   */
  function Expected(profile: Levels, observed: Observed): Levels
  {
    seq(|profile|, i requires 0 <= i < |profile| =>
      Level(profile[i].nutrient, Quantity(profile[i].amount, profile[i].nutrient, observed)))
  }

  /** With distinct nutrient names, the dictionary the loop builds is exactly the entry-by-entry reading. */
  lemma {:induction false} FillExact(profile: Levels, observed: Observed)
    requires Distinct(Keys(profile))
    ensures Fill(profile, observed) == Expected(profile, observed)
    decreases |profile|
  {
    if profile != [] {
      var init := profile[..|profile| - 1];
      var last := profile[|profile| - 1];
      DistinctInit(profile);
      FillExact(init, observed);
      ExpectedKeys(init, observed);
      FillFresh(profile, observed);
      ExpectedSnoc(profile, observed);
    }
  }

  /** A nutrient new to the dictionary is appended as the last entry. */
  lemma FillFresh(profile: Levels, observed: Observed)
    requires profile != []
    requires profile[|profile| - 1].nutrient !in Keys(Fill(profile[..|profile| - 1], observed))
    ensures var last := profile[|profile| - 1];
      Fill(profile, observed) ==
        Fill(profile[..|profile| - 1], observed) + [Level(last.nutrient, Quantity(last.amount, last.nutrient, observed))]
  {
  }

  /** One more profile entry adds one entry at the end of the reference reading. */
  lemma ExpectedSnoc(profile: Levels, observed: Observed)
    requires profile != []
    ensures var last := profile[|profile| - 1];
      Expected(profile, observed) ==
        Expected(profile[..|profile| - 1], observed) + [Level(last.nutrient, Quantity(last.amount, last.nutrient, observed))]
  {
  }

  /** The reference reading names the profile's nutrients, in order. */
  lemma ExpectedKeys(profile: Levels, observed: Observed)
    ensures Keys(Expected(profile, observed)) == Keys(profile)
  {
  }

  /** Non-negative requirements give non-negative quantities, whatever was observed. */
  lemma {:induction false} FillNonNegative(profile: Levels, observed: Observed)
    requires forall i | 0 <= i < |profile| :: profile[i].amount >= 0.0
    ensures forall i | 0 <= i < |Fill(profile, observed)| :: Fill(profile, observed)[i].amount >= 0.0
    decreases |profile|
  {
    if profile != [] {
      FillNonNegative(profile[..|profile| - 1], observed);
    }
  }

  /** Observations at or above every requirement leave nothing to recommend. */
  lemma {:induction false} FillSaturated(profile: Levels, observed: Observed)
    requires forall i | 0 <= i < |profile| ::
      profile[i].nutrient in observed && observed[profile[i].nutrient] >= profile[i].amount
    ensures forall i | 0 <= i < |Fill(profile, observed)| :: Fill(profile, observed)[i].amount == 0.0
    decreases |profile|
  {
    if profile != [] {
      FillSaturated(profile[..|profile| - 1], observed);
    }
  }

  /** Only the observations of the profile's own nutrients matter. */
  lemma {:induction false} FillAgree(profile: Levels, o1: Observed, o2: Observed)
    requires AgreeOn(profile, o1, o2)
    ensures Fill(profile, o1) == Fill(profile, o2)
    decreases |profile|
  {
    if profile != [] {
      var init := profile[..|profile| - 1];
      var last := profile[|profile| - 1];
      assert AgreeOn(init, o1, o2) by {
        forall i | 0 <= i < |init| ensures init[i] == profile[i] { }
      }
      FillAgree(init, o1, o2);
      assert Quantity(last.amount, last.nutrient, o1) == Quantity(last.amount, last.nutrient, o2);
    }
  }

  // ---------------------------------------------------------------------
  // Properties of Recommend
  // ---------------------------------------------------------------------

  /** The recommendation is empty exactly when the crop is unknown or its row requires nothing. */
  lemma RecommendEmpty(table: Table, crop: string, observed: Observed)
    ensures Recommend(table, crop, observed) == [] <==>
      !Known(table, crop) || Lookup(table, crop) == Some([])
  {
  }

  /** When several rows name the crop, the recommendation follows the first of them. */
  lemma RecommendUsesFirstRow(table: Table, crop: string, observed: Observed, i: nat)
    requires i < |table| && table[i].crop == crop
    requires forall j | 0 <= j < i :: table[j].crop != crop
    ensures Recommend(table, crop, observed) == Fill(table[i].requirements, observed)
    ensures Distinct(Keys(table[i].requirements)) ==>
      Recommend(table, crop, observed) == Expected(table[i].requirements, observed)
  {
    LookupFirstMatch(table, crop, i);
    if Distinct(Keys(table[i].requirements)) {
      FillExact(table[i].requirements, observed);
    }
  }

  /** For a listed crop, the recommendation names exactly the profile's nutrients, in profile order. */
  lemma RecommendKeys(table: Table, crop: string, observed: Observed, profile: Levels)
    requires Lookup(table, crop) == Some(profile)
    requires Distinct(Keys(profile))
    ensures Keys(Recommend(table, crop, observed)) == Keys(profile)
  {
    FillExact(profile, observed);
  }

  /** An observed nutrient is recommended its deficit, floored at zero. */
  lemma RecommendObserved(table: Table, crop: string, observed: Observed, profile: Levels, i: nat)
    requires Lookup(table, crop) == Some(profile)
    requires Distinct(Keys(profile))
    requires i < |profile| && profile[i].nutrient in observed
    ensures i < |Recommend(table, crop, observed)|
    ensures var r := Recommend(table, crop, observed)[i];
      && r.nutrient == profile[i].nutrient
      && (profile[i].amount > observed[profile[i].nutrient] ==>
            r.amount == profile[i].amount - observed[profile[i].nutrient])
      && (profile[i].amount <= observed[profile[i].nutrient] ==> r.amount == 0.0)
  {
    FillExact(profile, observed);
  }

  /** A nutrient that was not observed is recommended its full requirement. */
  lemma RecommendUnobserved(table: Table, crop: string, observed: Observed, profile: Levels, i: nat)
    requires Lookup(table, crop) == Some(profile)
    requires Distinct(Keys(profile))
    requires i < |profile| && profile[i].nutrient !in observed
    ensures i < |Recommend(table, crop, observed)|
    ensures Recommend(table, crop, observed)[i] == profile[i]
  {
    FillExact(profile, observed);
  }

  /** Non-negative requirements give a non-negative recommendation, whatever was observed. */
  lemma {:induction false} RecommendNonNegative(table: Table, crop: string, observed: Observed)
    requires Lookup(table, crop).Some? ==>
      forall k | 0 <= k < |Lookup(table, crop).value| :: Lookup(table, crop).value[k].amount >= 0.0
    ensures forall k | 0 <= k < |Recommend(table, crop, observed)| ::
      Recommend(table, crop, observed)[k].amount >= 0.0
  {
    if Lookup(table, crop).Some? {
      FillNonNegative(Lookup(table, crop).value, observed);
    }
  }

  /** Observing a nutrient the crop does not require, or dropping it, changes nothing. */
  lemma {:induction false} RecommendIgnoresUnrelated(table: Table, crop: string, observed: Observed, n: string, v: real)
    requires Lookup(table, crop).Some? ==> n !in Keys(Lookup(table, crop).value)
    ensures Recommend(table, crop, observed[n := v]) == Recommend(table, crop, observed)
    ensures Recommend(table, crop, observed - {n}) == Recommend(table, crop, observed)
  {
    match Lookup(table, crop)
    case None =>
    case Some(profile) =>
      forall i | 0 <= i < |profile| ensures profile[i].nutrient != n {
        assert Keys(profile)[i] == profile[i].nutrient;
      }
      FillAgree(profile, observed[n := v], observed);
      FillAgree(profile, observed - {n}, observed);
  }

  /** With nothing observed, the recommendation is the crop's full requirement. */
  lemma RecommendNothingObserved(table: Table, crop: string, profile: Levels)
    requires Lookup(table, crop) == Some(profile)
    requires Distinct(Keys(profile))
    ensures Recommend(table, crop, map[]) == profile
  {
    FillExact(profile, map[]);
  }

  /** When every required nutrient is observed at or above its requirement, nothing is recommended. */
  lemma {:induction false} RecommendSaturated(table: Table, crop: string, observed: Observed, profile: Levels)
    requires Lookup(table, crop) == Some(profile)
    requires forall i | 0 <= i < |profile| ::
      profile[i].nutrient in observed && observed[profile[i].nutrient] >= profile[i].amount
    ensures forall k | 0 <= k < |Recommend(table, crop, observed)| ::
      Recommend(table, crop, observed)[k].amount == 0.0
  {
    FillSaturated(profile, observed);
  }

  const WheatProfile: Levels := [Level("Nitrogen", 120.0), Level("Phosphorus", 60.0), Level("Potassium", 40.0)]
  const WheatObserved: Observed := map["Nitrogen" := 50.0, "Phosphorus" := 70.0]

  /**
   Wheat requires 120 nitrogen, 60 phosphorus and 40 potassium; with 50
   nitrogen and 70 phosphorus observed, 70, 0 and 40 are recommended.
   */
  lemma WheatScenario()
    ensures Recommend([CropRow("Wheat", WheatProfile)], "Wheat", WheatObserved)
      == [Level("Nitrogen", 70.0), Level("Phosphorus", 0.0), Level("Potassium", 40.0)]
  {
    WheatDistinct();
    FillExact(WheatProfile, WheatObserved);
    WheatExpected();
  }

  /** The wheat profile names each nutrient once. */
  lemma WheatDistinct()
    ensures Distinct(Keys(WheatProfile))
  {
  }

  /** The entry-by-entry reading of the wheat profile against the wheat observations. */
  lemma WheatExpected()
    ensures Expected(WheatProfile, WheatObserved)
      == [Level("Nitrogen", 70.0), Level("Phosphorus", 0.0), Level("Potassium", 40.0)]
  {
  }

  // ---------------------------------------------------------------------
  // The engine as the source writes it: a scan and a loop
  // ---------------------------------------------------------------------

  /** The position of the first row naming `crop`, or `|table|` when none does. */
  method FirstRow(table: Table, crop: string) returns (row: nat)
    ensures row <= |table|
    ensures row < |table| ==> table[row].crop == crop
    ensures forall j | 0 <= j < row :: table[j].crop != crop
  {
    row := 0;
    while row < |table| && table[row].crop != crop
      invariant row <= |table|
      invariant forall j | 0 <= j < row :: table[j].crop != crop
    {
      row := row + 1;
    }
  }

  /** One more requirement extends the recommendation by one dictionary assignment. */
  lemma FillStep(profile: Levels, observed: Observed, i: nat)
    requires i < |profile|
    ensures Fill(profile[..i + 1], observed) ==
      Assign(Fill(profile[..i], observed), profile[i].nutrient, Quantity(profile[i].amount, profile[i].nutrient, observed))
  {
    assert profile[..i + 1][..i] == profile[..i];
  }

  /** Walks the requirements in order, assigning each nutrient's quantity into the result. */
  method FillLoop(profile: Levels, observed: Observed) returns (r: Levels)
    ensures r == Fill(profile, observed)
  {
    r := [];
    var i := 0;
    while i < |profile|
      invariant i <= |profile|
      invariant r == Fill(profile[..i], observed)
    {
      var nutrient := profile[i].nutrient;
      var quantity;
      if nutrient in observed {
        var deficit := profile[i].amount - observed[nutrient];
        quantity := Max(0.0, deficit);
      } else {
        quantity := profile[i].amount;
      }
      assert quantity == Quantity(profile[i].amount, nutrient, observed);
      FillStep(profile, observed, i);
      r := Assign(r, nutrient, quantity);
      i := i + 1;
    }
    assert profile[..i] == profile;
  }

  /** The engine: the recommendation from the first row naming the crop, or nothing. */
  method RecommendFertilizer(table: Table, crop: string, observed: Observed) returns (r: Levels)
    ensures r == Recommend(table, crop, observed)
  {
    var row := FirstRow(table, crop);
    if row < |table| {
      LookupFirstMatch(table, crop, row);
      r := FillLoop(table[row].requirements, observed);
    } else {
      r := [];
    }
  }
}
