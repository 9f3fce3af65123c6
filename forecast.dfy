/**
 * The backend's crop recommendation: given the daily maximum temperatures of a
 * location and a rule table that gives each crop an inclusive temperature band,
 * keep, in table order, every crop whose band contains every temperature, and
 * wrap the result in the response record.
 */
module Forecast {
  import opened Sequences

  /** One entry of the rule table: a crop and its inclusive band [tempMin, tempMax]. */
  datatype Rule = Rule(crop: string, tempMin: real, tempMax: real)

  datatype Location = Location(lat: real, lon: real)

  /** The record the forecast endpoint returns. */
  datatype ForecastResponse = ForecastResponse(
    location: Location,
    forecast: seq<real>,
    recommended: seq<string>)

  /** The crop names of the table, in iteration order. */
  function Keys(rules: seq<Rule>): (keys: seq<string>)
    ensures |keys| == |rules|
    ensures forall i :: 0 <= i < |rules| ==> keys[i] == rules[i].crop
  {
    if rules == [] then [] else Keys(rules[..|rules| - 1]) + [rules[|rules| - 1].crop]
  }

  /** The rule table is a dictionary: no crop is listed twice. */
  predicate DistinctKeys(rules: seq<Rule>) {
    Distinct(Keys(rules))
  }

  /** The chained comparison `temp_min <= t <= temp_max`: both ends included. */
  predicate InBand(t: real, rule: Rule) {
    rule.tempMin <= t <= rule.tempMax
  }

  /** `all(...)` over the series: no temperature leaves the band. */
  predicate Matches(rule: Rule, temps: seq<real>) {
    forall j :: 0 <= j < |temps| ==> InBand(temps[j], rule)
  }

  /** The crops recommended for a series: the table's keys whose rule matches, in table order. */
  function Recommended(rules: seq<Rule>, temps: seq<real>): seq<string> {
    if rules == [] then []
    else
      var last := rules[|rules| - 1];
      Recommended(rules[..|rules| - 1], temps) + (if Matches(last, temps) then [last.crop] else [])
  }

  /** The filter loop: walk the table in order and append every matching crop. */
  method MatchingCrops(rules: seq<Rule>, temps: seq<real>) returns (matching: seq<string>)
    ensures matching == Recommended(rules, temps)
  {
    matching := [];
    var i := 0;
    while i < |rules|
      invariant 0 <= i <= |rules|
      invariant matching == Recommended(rules[..i], temps)
    {
      assert rules[..i + 1][..i] == rules[..i];
      if Matches(rules[i], temps) {
        matching := matching + [rules[i].crop];
      }
      i := i + 1;
    }
    assert rules[..|rules|] == rules;
  }

  /**
   * Builds the response from the coordinates and the fetched series: the location
   * is echoed, the series is returned as it came, and the recommendation is the filter's.
   */
  method GetForecastAndSuggestions(lat: real, lon: real, temps: seq<real>, rules: seq<Rule>)
    returns (response: ForecastResponse)
    ensures response.location.lat == lat && response.location.lon == lon
    ensures response.forecast == temps
    ensures response.recommended == Recommended(rules, temps)
  {
    var matching := MatchingCrops(rules, temps);
    response := ForecastResponse(Location(lat, lon), temps, matching);
  }

  /** A crop is recommended exactly when some entry of the table for it matches the series. */
  lemma {:induction false} RecommendedMembers(rules: seq<Rule>, temps: seq<real>, c: string)
    ensures c in Recommended(rules, temps) <==>
            exists i :: 0 <= i < |rules| && rules[i].crop == c && Matches(rules[i], temps)
  {
    if rules != [] {
      var init := rules[..|rules| - 1];
      RecommendedMembers(init, temps, c);
      if c in Recommended(rules, temps) && c !in Recommended(init, temps) {
        assert rules[|rules| - 1].crop == c && Matches(rules[|rules| - 1], temps);
      }
      if exists i :: 0 <= i < |rules| && rules[i].crop == c && Matches(rules[i], temps) {
        var i :| 0 <= i < |rules| && rules[i].crop == c && Matches(rules[i], temps);
        if i < |rules| - 1 {
          assert init[i] == rules[i];
        }
      }
    }
  }

  /**
   * With distinct keys, entry i's crop is recommended if and only if every temperature
   * lies in its band.
   */
  lemma RecommendedIffMatches(rules: seq<Rule>, temps: seq<real>, i: nat)
    requires DistinctKeys(rules)
    requires i < |rules|
    ensures rules[i].crop in Recommended(rules, temps) <==> Matches(rules[i], temps)
  {
    RecommendedMembers(rules, temps, rules[i].crop);
    if rules[i].crop in Recommended(rules, temps) {
      var j :| 0 <= j < |rules| && rules[j].crop == rules[i].crop && Matches(rules[j], temps);
      assert Keys(rules)[j] == Keys(rules)[i];
    }
  }

  /** Every recommended crop has an entry whose band contains every temperature of the series. */
  lemma RecommendedAreSound(rules: seq<Rule>, temps: seq<real>, c: string)
    requires c in Recommended(rules, temps)
    ensures exists i :: 0 <= i < |rules| && rules[i].crop == c &&
                        forall j :: 0 <= j < |temps| ==> rules[i].tempMin <= temps[j] <= rules[i].tempMax
  {
    RecommendedMembers(rules, temps, c);
  }

  /** A crop of the table that is not recommended has some temperature outside its band. */
  lemma RejectedHaveOutlier(rules: seq<Rule>, temps: seq<real>, i: nat)
    requires DistinctKeys(rules)
    requires i < |rules|
    requires rules[i].crop !in Recommended(rules, temps)
    ensures exists j :: 0 <= j < |temps| && (temps[j] < rules[i].tempMin || rules[i].tempMax < temps[j])
  {
    RecommendedIffMatches(rules, temps, i);
  }

  /** The bounds are inclusive: a series made only of the band's two ends still matches. */
  lemma BoundsAreInclusive(rules: seq<Rule>, temps: seq<real>, i: nat)
    requires i < |rules|
    requires rules[i].tempMin <= rules[i].tempMax
    requires forall j :: 0 <= j < |temps| ==> temps[j] == rules[i].tempMin || temps[j] == rules[i].tempMax
    ensures rules[i].crop in Recommended(rules, temps)
  {
    RecommendedMembers(rules, temps, rules[i].crop);
  }

  /** The recommendation keeps the table's order: it is a subsequence of the keys. */
  lemma {:induction false} RecommendedIsSubsequence(rules: seq<Rule>, temps: seq<real>)
    ensures IsSubsequence(Recommended(rules, temps), Keys(rules))
  {
    if rules != [] {
      var init := rules[..|rules| - 1];
      var last := rules[|rules| - 1];
      RecommendedIsSubsequence(init, temps);
      if Matches(last, temps) {
        ExtendBoth(Recommended(init, temps), Keys(init), last.crop);
      } else {
        ExtendRight(Recommended(init, temps), Keys(init), last.crop);
        assert Recommended(rules, temps) == Recommended(init, temps);
        assert Keys(rules) == Keys(init) + [last.crop];
      }
    }
  }

  /** The recommendation has no more entries than the table. */
  lemma RecommendedLength(rules: seq<Rule>, temps: seq<real>)
    ensures |Recommended(rules, temps)| <= |rules|
  {
    RecommendedIsSubsequence(rules, temps);
    SubsequenceLength(Recommended(rules, temps), Keys(rules));
  }

  /** With distinct keys no crop is recommended twice. */
  lemma RecommendedDistinct(rules: seq<Rule>, temps: seq<real>)
    requires DistinctKeys(rules)
    ensures Distinct(Recommended(rules, temps))
  {
    RecommendedIsSubsequence(rules, temps);
    SubsequenceDistinct(Recommended(rules, temps), Keys(rules));
  }

  /** An empty series recommends every crop of the table, in order. */
  lemma {:induction false} EmptySeriesRecommendsAll(rules: seq<Rule>)
    ensures Recommended(rules, []) == Keys(rules)
  {
    if rules != [] {
      EmptySeriesRecommendsAll(rules[..|rules| - 1]);
    }
  }

  /**
   * More temperatures can only remove crops: if every temperature of `fewer` is also
   * in `more`, the recommendation for `more` is a subsequence of that for `fewer`.
   */
  lemma {:induction false} MoreTemperaturesRecommendFewer(rules: seq<Rule>, fewer: seq<real>, more: seq<real>)
    requires forall j :: 0 <= j < |fewer| ==> fewer[j] in more
    ensures IsSubsequence(Recommended(rules, more), Recommended(rules, fewer))
  {
    if rules != [] {
      var init := rules[..|rules| - 1];
      var last := rules[|rules| - 1];
      MoreTemperaturesRecommendFewer(init, fewer, more);
      if Matches(last, more) {
        assert Matches(last, fewer);
        ExtendBoth(Recommended(init, more), Recommended(init, fewer), last.crop);
      } else if Matches(last, fewer) {
        ExtendRight(Recommended(init, more), Recommended(init, fewer), last.crop);
        assert Recommended(rules, more) == Recommended(init, more);
      } else {
        assert Recommended(rules, more) == Recommended(init, more);
        assert Recommended(rules, fewer) == Recommended(init, fewer);
      }
    }
  }

  /** Appending days to the series never adds a crop to the recommendation. */
  lemma AppendingDaysNeverAddsCrops(rules: seq<Rule>, temps: seq<real>, extra: seq<real>, c: string)
    requires c in Recommended(rules, temps + extra)
    ensures c in Recommended(rules, temps)
  {
    assert forall j :: 0 <= j < |temps| ==> temps[j] == (temps + extra)[j];
    MoreTemperaturesRecommendFewer(rules, temps, temps + extra);
    SubsequenceMembers(Recommended(rules, temps + extra), Recommended(rules, temps), c);
  }
}
