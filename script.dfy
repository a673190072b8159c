/** The script's mutable global state and the two functions of
    purpleair-aqi.js that write to it: `calculateLevel`, which stores the
    level into the shared `levelAttributes` entry it selects, and
    `trendsFromStats`, which assigns the undeclared global `theTrend`. */
module Script {
  import opened JsBuiltins
  import opened Aqi
  import opened Levels
  import opened Trends

  /** The entries are the initial ones up to their `level` properties. */
  ghost predicate KeepsInitialAttributes(entries: seq<LevelAttributes>) {
    && |entries| == |InitialLevelAttributes|
    && forall i :: 0 <= i < |entries| ==> entries[i].(level := None) == InitialLevelAttributes[i]
  }

  /** The lookup reads thresholds only. */
  lemma LookupReadsThresholds(level: int, a: seq<LevelAttributes>, b: seq<LevelAttributes>)
    requires Thresholds(a) == Thresholds(b)
    ensures GetLevelAttributes(level, a) == GetLevelAttributes(level, b)
  {
  }

  /** The lookup is the same on every table `calculateLevel` can leave
      behind: it follows the bands. */
  lemma LookupOfValidEntries(level: int, entries: seq<LevelAttributes>)
    requires KeepsInitialAttributes(entries)
    ensures GetLevelAttributes(level, entries) == Band(level)
  {
    assert Thresholds(entries) == Thresholds(InitialLevelAttributes) by {
      forall i | 0 <= i < |entries|
        ensures entries[i].threshold == InitialLevelAttributes[i].threshold
      {
        assert entries[i].(level := None).threshold == entries[i].threshold;
      }
    }
    LookupReadsThresholds(level, entries, InitialLevelAttributes);
    LookupFollowsBands(level);
  }

  /** The table after `calculateLevel` has written `level` into the entry it
      looked `level` up in. */
  function StoreLevel(entries: seq<LevelAttributes>, level: int): (r: seq<LevelAttributes>)
    ensures |r| == |entries|
    ensures forall i :: 0 <= i < |r| ==> r[i].(level := entries[i].level) == entries[i]
    ensures forall i :: 0 <= i < |r| ==>
      r[i] == if GetLevelAttributes(level, entries) == Some(i) then entries[i].(level := Some(level)) else entries[i]
  {
    match GetLevelAttributes(level, entries)
    case None => entries
    case Some(k) => entries[k := entries[k].(level := Some(level))]
  }

  /** The entry `calculateLevel` returns: the one looked up, with its new
      level; None where the lookup finds nothing. */
  function StoredEntry(entries: seq<LevelAttributes>, level: int): (r: Option<LevelAttributes>)
    ensures r.Some? <==> GetLevelAttributes(level, entries).Some?
    ensures r.Some? ==>
      && r.value.level == Some(level)
      && r.value.(level := None) == entries[GetLevelAttributes(level, entries).value].(level := None)
  {
    match GetLevelAttributes(level, entries)
    case None => None
    case Some(k) => Some(entries[k].(level := Some(level)))
  }

  /** Writing a level keeps every label, colour and threshold, and
      the entry returned is the script's entry for the level's band. */
  lemma StoreLevelOnValid(entries: seq<LevelAttributes>, level: int)
    requires KeepsInitialAttributes(entries)
    ensures KeepsInitialAttributes(StoreLevel(entries, level))
    ensures StoredEntry(entries, level) ==
      if level > -20 then Some(InitialLevelAttributes[Band(level).value].(level := Some(level))) else None
  {
    LookupOfValidEntries(level, entries);
    var r := StoreLevel(entries, level);
    forall i | 0 <= i < |r| ensures r[i].(level := None) == InitialLevelAttributes[i] {
      assert r[i].(level := None) == r[i].(level := entries[i].level).(level := None);
    }
  }

  /** Calling `calculateLevel` again with the same AQI changes nothing more. */
  lemma StoreLevelIdempotent(entries: seq<LevelAttributes>, level: int)
    ensures StoreLevel(StoreLevel(entries, level), level) == StoreLevel(entries, level)
  {
    var r := StoreLevel(entries, level);
    assert Thresholds(r) == Thresholds(entries) by {
      forall i | 0 <= i < |r| ensures r[i].threshold == entries[i].threshold {
        assert r[i].(level := entries[i].level).threshold == r[i].threshold;
      }
    }
    LookupReadsThresholds(level, r, entries);
  }

  class Globals {
    /** `const levelAttributes`: the binding and the array never change, the
        entries' `level` properties do. */
    const levelAttributes: array<LevelAttributes>
    /** The implicit global `theTrend`; None until first assigned. */
    var theTrend: Option<string>

    /** The entries keep the threshold, label and colours they start with;
        only their `level` may differ. */
    ghost predicate Valid()
      reads this, levelAttributes
    {
      KeepsInitialAttributes(levelAttributes[..])
    }

    constructor ()
      ensures Valid() && fresh(levelAttributes)
      ensures levelAttributes[..] == InitialLevelAttributes
      ensures theTrend == None
    {
      levelAttributes := new LevelAttributes[|InitialLevelAttributes|](
        i requires 0 <= i < |InitialLevelAttributes| => InitialLevelAttributes[i]);
      theTrend := None;
    }

    /** `calculateLevel(aqi)`: coerces the AQI to an integer level (0 when it
        does not parse), looks its entry up, writes the level into that
        shared entry and returns it. None stands for the TypeError thrown
        when no entry qualifies (a level of -20 or less). */
    method CalculateLevel(aqi: AqiResult) returns (res: Option<LevelAttributes>)
      requires Valid()
      modifies levelAttributes
      ensures Valid()
      ensures levelAttributes[..] == StoreLevel(old(levelAttributes[..]), LevelNumber(aqi))
      ensures res == StoredEntry(old(levelAttributes[..]), LevelNumber(aqi))
      ensures res.Some? <==> LevelNumber(aqi) > -20
      ensures res.Some? ==>
        res.value == levelAttributes[GetLevelAttributes(LevelNumber(aqi), old(levelAttributes[..])).value]
    {
      var level := LevelNumber(aqi);
      var entries := levelAttributes[..];
      var found := GetLevelAttributes(level, entries);
      StoreLevelOnValid(entries, level);
      if found.Some? {
        var k := found.value;
        levelAttributes[k] := entries[k].(level := Some(level));
        assert levelAttributes[..] == entries[k := entries[k].(level := Some(level))];
        res := Some(levelAttributes[k]);
      } else {
        res := None;
      }
    }

    /** `trendsFromStats(stats)`: parses `v1` and `v2`, assigns the suffix
        to `theTrend` and returns it. */
    method TrendsFromStats(stats: Stats) returns (trend: string)
      modifies this`theTrend
      ensures trend == TrendSuffix(ParseInt(stats.v1), ParseInt(stats.v2))
      ensures theTrend == Some(trend)
    {
      var partLive := ParseInt(stats.v1);
      var partTime := ParseInt(stats.v2);
      trend := TrendSuffix(partLive, partTime);
      theTrend := Some(trend);
    }
  }

  /** `calculateLevel` on any AQI the mapping produces: the level is the AQI
      (0 for "-"), and the lookup is always defined. */
  lemma CalculatedLevelOfReading(pm: Number)
    ensures LevelNumber(AqiFromPM(pm)) == if pm.NaN? || pm.value < 0.0 then 0 else AqiFromPM(pm).index
    ensures GetLevelAttributes(LevelNumber(AqiFromPM(pm)), InitialLevelAttributes).Some?
  {
    LevelLookupDefined(LevelNumber(AqiFromPM(pm)));
  }

  /** A reading with a field that does not parse is shown as "-" with the
      "Good" entry. */
  lemma UnparsableReadingIsGood(data: SensorData)
    ensures (ParseInt(data.adj1).None? || ParseInt(data.adj2).None? || ParseInt(data.hum).None?) ==>
      && AqiFromPM(ComputePM(data)) == Unavailable
      && AqiText(AqiFromPM(ComputePM(data))) == "-"
      && GetLevelAttributes(LevelNumber(AqiFromPM(ComputePM(data))), InitialLevelAttributes) == Some(5)
    ensures InitialLevelAttributes[5].labelText == "Good"
  {
    UnavailableIsGood();
    LookupFollowsBands(0);
  }

  /** Channels 40 and 42 at 50% humidity with stats 8 and 20: 22.78 after
      correction, AQI 73, "Moderate", trend " Improving". */
  lemma ExampleCorrection()
    ensures ComputePM(SensorData("40", "42", "50")) == Num(22.78)
  {
    assert IntToString(40) == "40" by { assert NatToString(4) == "4"; }
    assert IntToString(42) == "42" by { assert NatToString(4) == "4"; }
    assert IntToString(50) == "50" by { assert NatToString(5) == "5"; }
    ComputePMOfIntegers(40, 42, 50, "", "", "");
    assert "40" + "" == "40" && "42" + "" == "42" && "50" + "" == "50";
  }

  lemma ExampleLevel()
    ensures AqiFromPM(Num(22.78)) == Aqi(73)
    ensures GetLevelAttributes(73, InitialLevelAttributes) == Some(4)
    ensures InitialLevelAttributes[4].labelText == "Moderate"
  {
    LookupFollowsBands(73);
  }

  lemma ExampleTrend()
    ensures TrendSuffix(ParseInt("8"), ParseInt("20")) == " Improving"
  {
    assert IntToString(8) == "8";
    assert IntToString(20) == "20" by { assert NatToString(2) == "2"; }
    ParseIntOfIntToString(8, "");
    ParseIntOfIntToString(20, "");
    assert "8" + "" == "8" && "20" + "" == "20";
  }
}
