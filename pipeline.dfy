/**
  The writer and the reader together: the keys the aggregation job writes
  are the keys the REST resources read, so after a station's job the
  station is listed, the station resource shows for every measurement
  variable the statistics that were computed for it (and fails when the raw
  table was excluded, since it reads that table first), and range queries
  on the written summary tables succeed.
*/
module Pipeline {

  import opened Results
  import opened Seqs
  import opened Text
  import opened Frames
  import opened Reducers
  import opened Grouping
  import opened Aggregates
  import opened Buckets
  import Api

  /** The writer's keys for station `/name` are the reader's keys for station `name`. */
  lemma KeysAgree(name: string, s: Stat)
    ensures Aggregates.RawKey("/" + name) == Api.RawKey(name)
    ensures HourKey("/" + name, s) == Api.TableKey(name, "1hour", StatName(s))
    ensures DayKey("/" + name, s) == Api.TableKey(name, "1day", StatName(s))
    ensures StatName(s) in Api.Stats
  {
  }

  lemma ExpectedKeysSuffixes(stationKey: string, excludeRaw: bool)
    ensures |ExpectedKeys(stationKey, excludeRaw)| == |WrittenSuffixes(excludeRaw)|
    ensures forall i :: 0 <= i < |WrittenSuffixes(excludeRaw)| ==>
      ExpectedKeys(stationKey, excludeRaw)[i] == stationKey + WrittenSuffixes(excludeRaw)[i]
  {
    ExpectedKeysByName(stationKey, excludeRaw);
    WrittenSuffixesByName(excludeRaw);
  }

  /** A key of the station is written exactly when its suffix is one of the written suffixes. */
  lemma ExpectedKeyMembers(stationKey: string, excludeRaw: bool, suffix: string)
    ensures stationKey + suffix in ExpectedKeys(stationKey, excludeRaw) <==> suffix in WrittenSuffixes(excludeRaw)
  {
    ExpectedKeysSuffixes(stationKey, excludeRaw);
    var ks, sfx := ExpectedKeys(stationKey, excludeRaw), WrittenSuffixes(excludeRaw);
    if stationKey + suffix in ks {
      var i :| 0 <= i < |ks| && ks[i] == stationKey + suffix;
      PrefixCancel(stationKey, suffix, sfx[i]);
    }
    if suffix in sfx {
      var i :| 0 <= i < |sfx| && sfx[i] == suffix;
      assert ks[i] == stationKey + suffix;
    }
  }

  /** Of the keys a job writes, only the raw key ends in "raw". */
  lemma OnlyRawKeyIsRaw(name: string, excludeRaw: bool)
    ensures Filter(Api.IsRawKey, ExpectedKeys("/" + name, excludeRaw)) ==
      (if excludeRaw then [] else [Api.RawKey(name)])
  {
    var sk := "/" + name;
    var summaries := ExpectedKeys(sk, true);
    SummaryKeysNotRaw(sk);
    FilterNone(Api.IsRawKey, summaries);
    var raws: seq<string> := if excludeRaw then [] else [RawKey(sk)];
    ExpectedKeysRawFirst(sk, excludeRaw);
    FilterAppend(Api.IsRawKey, raws, summaries);
    if !excludeRaw {
      EndsWithAppend(sk, "/res5min/raw", "raw");
      assert Filter(Api.IsRawKey, raws) == [raws[0]] by {
        assert raws[1..] == [];
      }
    }
  }

  /** No summary key of a station ends in "raw". */
  lemma SummaryKeysNotRaw(sk: string)
    ensures forall i :: 0 <= i < |ExpectedKeys(sk, true)| ==> !Api.IsRawKey(ExpectedKeys(sk, true)[i])
  {
    var sfx := WrittenSuffixes(true);
    ExpectedKeysSuffixes(sk, true);
    WrittenSuffixesByName(true);
    assert forall i :: 0 <= i < |sfx| ==> !EndsWith(sfx[i], "raw");
    forall i | 0 <= i < |sfx| ensures !Api.IsRawKey(sk + sfx[i]) {
      EndsWithAppend(sk, sfx[i], "raw");
    }
  }

  /** A station's keys are its raw key, unless excluded, followed by its summary keys. */
  lemma ExpectedKeysRawFirst(sk: string, excludeRaw: bool)
    ensures ExpectedKeys(sk, excludeRaw) == (if excludeRaw then [] else [RawKey(sk)]) + ExpectedKeys(sk, true)
  {
    assert forall t: seq<string> :: [] + t == t;
  }

  /**
    Listing the keys a station's job writes yields that station, and only
    it, unless the raw table was excluded; then no station is listed.
  */
  lemma StationListedForExpectedKeys(name: string, excludeRaw: bool)
    requires '/' !in name
    ensures Api.StationNames(ExpectedKeys("/" + name, excludeRaw)) == Ok(if excludeRaw then [] else [name])
  {
    OnlyRawKeyIsRaw(name, excludeRaw);
    var raws := Filter(Api.IsRawKey, ExpectedKeys("/" + name, excludeRaw));
    if !excludeRaw {
      Api.RawKeyRoundTrip(name);
      assert '/' in Api.RawKey(name) by {
        assert Api.RawKey(name)[0] == '/';
      }
      assert Map(Api.SecondSegment, raws) == [name];
      assert Sort([name]) == Text.Insert(name, Sort([])) by {
        assert [name][1..] == [];
      }
    }
  }

  /**
    Listing the store a station's job leaves behind, its keys in any order,
    yields that station, and only it, unless the raw table was excluded;
    then no station is listed.
  */
  lemma StationListedAfterJob(name: string, raw: Frame, excludeRaw: bool, listing: seq<string>)
    requires '/' !in name
    requires StationJob("/" + name, raw, excludeRaw).failure == None
    requires NoDuplicates(listing) && forall k :: k in listing <==> k in JobStore(map[], name, raw, excludeRaw)
    ensures Api.StationNames(listing) == Ok(if excludeRaw then [] else [name])
  {
    var expected := ExpectedKeys("/" + name, excludeRaw);
    StationJobStoreKeys(map[], "/" + name, raw, excludeRaw);
    ExpectedKeysDistinct("/" + name, excludeRaw);
    SameElements(listing, expected);
    Api.StationNamesOrderIndependent(listing, expected);
    StationListedForExpectedKeys(name, excludeRaw);
  }

  /**
    The store a station's job leaves behind, starting from `store0`: empty for
    a new output file, the file's tables for an existing one (append mode).
  */
  function JobStore(store0: Store, name: string, raw: Frame, excludeRaw: bool): Store
  {
    ApplyPuts(store0, StationJob("/" + name, raw, excludeRaw).puts)
  }

  /**
    A range query on an hourly or daily summary table the job wrote succeeds
    whenever both stamps parse and lie within the `Timestamp` range and the
    variable is one the statistic was computed for. It returns exactly the
    hour buckets (or local-day keys) of the readings that lie in the range.
  */
  lemma QueryAfterJob(store0: Store, name: string, raw: Frame, excludeRaw: bool, variable: string,
                      args: Api.QueryArgs, s: Stat)
    requires StationJob("/" + name, raw, excludeRaw).failure == None
    requires args.timestep == Some("1hour") || args.timestep == Some("1day")
    requires args.stat == Some(StatName(s)) && variable in StatVars(s)
    requires Api.StampArg(args.start).Ok? && Api.StampArg(args.stop).Ok?
    requires Api.InTimestampRange(Api.StampArg(args.start).value) && Api.InTimestampRange(Api.StampArg(args.stop).value)
    ensures DayKeys(raw).Ok?
    ensures Api.Query(JobStore(store0, name, raw, excludeRaw), name, variable, args).Ok?
    ensures forall x :: x in Api.Query(JobStore(store0, name, raw, excludeRaw), name, variable, args).value.dates <==>
      Api.StampArg(args.start).value <= x <= Api.StampArg(args.stop).value &&
      if args.timestep == Some("1hour") then exists i :: 0 <= i < |raw.index| && x == HourBucket(raw.index[i])
      else x in DayKeys(raw).value
  {
    var store := JobStore(store0, name, raw, excludeRaw);
    var ts := args.timestep.value;
    var key := Api.QueryKey(name, ts, args.stat);
    Api.QueryKeyIsTableKey(name, ts, StatName(s));
    KeysAgree(name, s);
    StationJobStoreTables(store0, "/" + name, raw, excludeRaw, s);
    if ts == "1hour" {
      assert key == HourKey("/" + name, s);
    } else {
      assert key == DayKey("/" + name, s);
    }
    assert forall x :: x in store[key].index <==>
      if ts == "1hour" then exists i :: 0 <= i < |raw.index| && x == HourBucket(raw.index[i])
      else x in DayKeys(raw).value;
    QueryOnTable(store, name, variable, args);
  }

  /** A query on a table that exists, ascends and has the variable returns its index entries in range. */
  lemma QueryOnTable(store: Store, name: string, variable: string, args: Api.QueryArgs)
    requires args.timestep.Some? && Api.StampArg(args.start).Ok? && Api.StampArg(args.stop).Ok?
    requires Api.InTimestampRange(Api.StampArg(args.start).value) && Api.InTimestampRange(Api.StampArg(args.stop).value)
    requires Api.QueryKey(name, args.timestep.value, args.stat) in store
    requires Grouping.Increasing(store[Api.QueryKey(name, args.timestep.value, args.stat)].index)
    requires variable in store[Api.QueryKey(name, args.timestep.value, args.stat)].columns
    ensures Api.Query(store, name, variable, args).Ok?
    ensures forall x :: x in Api.Query(store, name, variable, args).value.dates <==>
      x in store[Api.QueryKey(name, args.timestep.value, args.stat)].index &&
      Api.StampArg(args.start).value <= x <= Api.StampArg(args.stop).value
  {
    Api.QuerySucceeds(store, name, variable, args);
    Api.QueryDates(store, name, variable, args);
  }

  /**
    The station resource after a station's job. With the raw table excluded
    it fails, because the handler reads the raw table's columns before it
    lists anything. Otherwise it has an entry for every column of the raw
    table, and each measurement variable lists at every timestep the
    statistics `ExpectedStats` names.
  */
  method StationResourceAfterJob(name: string, raw: Frame, excludeRaw: bool) returns (r: Result<Api.StatLists, Api.ApiError>)
    requires StationJob("/" + name, raw, excludeRaw).failure == None
    ensures excludeRaw ==> r == Err(Api.KeyNotFound(Api.RawKey(name)))
    ensures !excludeRaw ==> r.Ok? && forall v :: v in r.value <==> v in raw.columns
    ensures !excludeRaw ==> forall v :: v in r.value && v in AllMeasureVars ==>
      forall ts :: ts in Api.Timesteps ==> ts in r.value[v] && r.value[v][ts] == ExpectedStats(false, v, ts)
  {
    var store := JobStore(map[], name, raw, excludeRaw);
    RawTableKey(name);
    if excludeRaw {
      UnlistedAfterJob(name, raw, excludeRaw, "", "5min", "raw");
    } else {
      RawAfterJob(map[], name, raw, excludeRaw);
    }
    r := Api.StationStats(store, name);
    if !excludeRaw {
      forall v, ts | v in r.value && v in AllMeasureVars && ts in Api.Timesteps
        ensures ts in r.value[v] && r.value[v][ts] == ExpectedStats(false, v, ts)
      {
        StatsAfterJob(name, raw, excludeRaw, v, ts);
      }
    }
  }

  /** The statistics the station resource lists for a measurement variable after the job. */
  function ExpectedStats(excludeRaw: bool, variable: string, timestep: string): seq<string>
  {
    if timestep == "5min" then (if excludeRaw then [] else ["raw"])
    else (if variable == "PRECIPITATION" then ["sum"] else []) + ["min", "mean", "max"]
  }

  /** A table key of the station, as its suffix after the station key. */
  lemma TableKeySuffix(name: string, timestep: string, stat: string)
    ensures Api.TableKey(name, timestep, stat) == ("/" + name) + ("/res" + timestep + "/" + stat)
  {
  }

  /** A table whose suffix the job does not write is absent afterwards. */
  lemma AbsentAfterJob(name: string, raw: Frame, excludeRaw: bool, timestep: string, stat: string)
    requires StationJob("/" + name, raw, excludeRaw).failure == None
    requires "/res" + timestep + "/" + stat !in WrittenSuffixes(excludeRaw)
    ensures Api.TableKey(name, timestep, stat) !in JobStore(map[], name, raw, excludeRaw)
  {
    TableKeySuffix(name, timestep, stat);
    StationJobStoreKeys(map[], "/" + name, raw, excludeRaw);
    ExpectedKeyMembers("/" + name, excludeRaw, "/res" + timestep + "/" + stat);
  }

  /** The raw table, unless excluded, is stored as read. */
  lemma RawAfterJob(store0: Store, name: string, raw: Frame, excludeRaw: bool)
    requires StationJob("/" + name, raw, excludeRaw).failure == None && !excludeRaw
    ensures Api.TableKey(name, "5min", "raw") in JobStore(store0, name, raw, excludeRaw)
    ensures JobStore(store0, name, raw, excludeRaw)[Api.TableKey(name, "5min", "raw")] == raw
  {
    StationJobStoreKeys(store0, "/" + name, raw, excludeRaw);
    RawTableKey(name);
  }

  /** The reader's raw table key is the one the writer puts. */
  lemma RawTableKey(name: string)
    ensures Api.TableKey(name, "5min", "raw") == Aggregates.RawKey("/" + name)
  {
  }

  /** The statistic a summary table name stands for. */
  function StatNamed(stat: string): (s: Stat)
    requires stat == "sum" || stat == "min" || stat == "mean" || stat == "max"
    ensures StatName(s) == stat
  {
    if stat == "sum" then Sum else if stat == "min" then Min else if stat == "mean" then Mean else Max
  }

  /** The hourly and daily tables of every statistic, with their columns. */
  lemma SummaryAfterJob(store0: Store, name: string, raw: Frame, excludeRaw: bool, timestep: string, s: Stat)
    requires StationJob("/" + name, raw, excludeRaw).failure == None
    requires timestep == "1hour" || timestep == "1day"
    ensures Api.TableKey(name, timestep, StatName(s)) in JobStore(store0, name, raw, excludeRaw)
    ensures JobStore(store0, name, raw, excludeRaw)[Api.TableKey(name, timestep, StatName(s))].columns == StatVars(s)
  {
    KeysAgree(name, s);
    StationJobStoreTables(store0, "/" + name, raw, excludeRaw, s);
  }

  /**
    Each stored hourly or daily summary table is its statistic of every
    variable over the readings grouped by hour bucket or by local day.
  */
  lemma SummaryCellsAfterJob(store0: Store, name: string, raw: Frame, excludeRaw: bool, timestep: string, s: Stat)
    requires StationJob("/" + name, raw, excludeRaw).failure == None
    requires timestep == "1hour" || timestep == "1day"
    ensures DayKeys(raw).Ok? && ColumnPositions(raw.columns, StatVars(s)).Ok?
    ensures Api.TableKey(name, timestep, StatName(s)) in JobStore(store0, name, raw, excludeRaw)
    ensures JobStore(store0, name, raw, excludeRaw)[Api.TableKey(name, timestep, StatName(s))]
         == AggregateTable(SelectRows(raw, if timestep == "1hour" then HourKeys(raw) else DayKeys(raw).value,
                                      ColumnPositions(raw.columns, StatVars(s)).value), s, StatVars(s))
  {
    KeysAgree(name, s);
    StationJobStoreCells(store0, "/" + name, raw, excludeRaw, s);
  }

  /**
    In the stored hourly or daily tables, every bucket's minimum of a
    measurement variable is at most its mean, which is at most its maximum.
  */
  lemma MeanWithinMinMaxAfterJob(store0: Store, name: string, raw: Frame, excludeRaw: bool, timestep: string)
    requires StationJob("/" + name, raw, excludeRaw).failure == None
    requires timestep == "1hour" || timestep == "1day"
    ensures var store := JobStore(store0, name, raw, excludeRaw);
      var lo, mid, hi := Api.TableKey(name, timestep, "min"), Api.TableKey(name, timestep, "mean"),
                         Api.TableKey(name, timestep, "max");
      lo in store && mid in store && hi in store &&
      store[lo].columns == store[mid].columns == store[hi].columns == AllMeasureVars &&
      store[lo].index == store[mid].index == store[hi].index &&
      forall j, c :: 0 <= j < |store[mid].index| && 0 <= c < |AllMeasureVars| ==>
        store[lo].rows[j][c] <= store[mid].rows[j][c] <= store[hi].rows[j][c]
  {
    SummaryCellsAfterJob(store0, name, raw, excludeRaw, timestep, Min);
    SummaryCellsAfterJob(store0, name, raw, excludeRaw, timestep, Mean);
    SummaryCellsAfterJob(store0, name, raw, excludeRaw, timestep, Max);
    var cols := ColumnPositions(raw.columns, AllMeasureVars).value;
    var rows := SelectRows(raw, if timestep == "1hour" then HourKeys(raw) else DayKeys(raw).value, cols);
    forall j, c | 0 <= j < |GroupKeys(KeysOf(rows))| && 0 <= c < |AllMeasureVars| {
      MeanWithinMinMax(rows, AllMeasureVars, j, c);
    }
  }

  /**
    The stored hourly or daily precipitation sums add up to the total
    precipitation of the raw readings: grouping loses no reading and counts
    none twice.
  */
  lemma SumTotalAfterJob(store0: Store, name: string, raw: Frame, excludeRaw: bool, timestep: string)
    requires StationJob("/" + name, raw, excludeRaw).failure == None
    requires timestep == "1hour" || timestep == "1day"
    ensures ColumnIndex(raw.columns, "PRECIPITATION").Some?
    ensures Api.TableKey(name, timestep, "sum") in JobStore(store0, name, raw, excludeRaw)
    ensures JobStore(store0, name, raw, excludeRaw)[Api.TableKey(name, timestep, "sum")].columns == ["PRECIPITATION"]
    ensures Total(ColumnValues(JobStore(store0, name, raw, excludeRaw)[Api.TableKey(name, timestep, "sum")], 0))
         == Total(ColumnValues(raw, ColumnIndex(raw.columns, "PRECIPITATION").value))
  {
    SummaryCellsAfterJob(store0, name, raw, excludeRaw, timestep, Sum);
    var cols := ColumnPositions(raw.columns, SumVars).value;
    var rows := SelectRows(raw, if timestep == "1hour" then HourKeys(raw) else DayKeys(raw).value, cols);
    SumTableTotal(rows, SumVars, 0);
    SelectRowsColumn(raw, if timestep == "1hour" then HourKeys(raw) else DayKeys(raw).value, cols, 0);
  }

  /** Column `c` of the selected rows is the raw frame's column `cols[c]`. */
  lemma SelectRowsColumn(raw: Frame, keys: seq<int>, cols: seq<nat>, c: nat)
    requires |keys| == |raw.index|
    requires forall c :: 0 <= c < |cols| ==> cols[c] < |raw.columns|
    requires c < |cols|
    ensures Map(Cell(c), SelectRows(raw, keys, cols)) == ColumnValues(raw, cols[c])
  {
  }

  /** The tables the job never writes. */
  lemma SuffixesNotWritten(excludeRaw: bool)
    ensures "/res5min/sum" !in WrittenSuffixes(excludeRaw) && "/res5min/min" !in WrittenSuffixes(excludeRaw)
    ensures "/res5min/mean" !in WrittenSuffixes(excludeRaw) && "/res5min/max" !in WrittenSuffixes(excludeRaw)
    ensures "/res1hour/raw" !in WrittenSuffixes(excludeRaw) && "/res1day/raw" !in WrittenSuffixes(excludeRaw)
    ensures excludeRaw ==> "/res5min/raw" !in WrittenSuffixes(excludeRaw)
  {
    WrittenSuffixesByName(excludeRaw);
    var summaries: seq<string> :=
      [ "/res1hour/mean", "/res1day/mean", "/res1hour/min", "/res1day/min",
        "/res1hour/max", "/res1day/max", "/res1hour/sum", "/res1day/sum" ];
    assert forall i :: 0 <= i < |summaries| ==> summaries[i][4] == '1' && summaries[i][|summaries[i]| - 1] != 'w';
    var raws: seq<string> := if excludeRaw then [] else ["/res5min/raw"];
    assert WrittenSuffixes(excludeRaw) == raws + summaries;
  }

  /** The 5-minute tables other than an included raw one, and the raw tables at the other timesteps, are not listed. */
  lemma UnlistedAfterJob(name: string, raw: Frame, excludeRaw: bool, variable: string, timestep: string, stat: string)
    requires StationJob("/" + name, raw, excludeRaw).failure == None
    requires timestep in Api.Timesteps && stat in Api.Stats
    requires timestep == "5min" || stat == "raw"
    requires !(timestep == "5min" && stat == "raw" && !excludeRaw)
    ensures Api.TableKey(name, timestep, stat) !in JobStore(map[], name, raw, excludeRaw)
  {
    UnwrittenSuffix(excludeRaw, timestep, stat);
    AbsentAfterJob(name, raw, excludeRaw, timestep, stat);
  }

  lemma UnwrittenSuffix(excludeRaw: bool, timestep: string, stat: string)
    requires timestep in Api.Timesteps && stat in Api.Stats
    requires timestep == "5min" || stat == "raw"
    requires !(timestep == "5min" && stat == "raw" && !excludeRaw)
    ensures "/res" + timestep + "/" + stat !in WrittenSuffixes(excludeRaw)
  {
    var suffix := "/res" + timestep + "/" + stat;
    SuffixesNotWritten(excludeRaw);
    if timestep == "5min" {
      if stat == "raw" {
        assert suffix == "/res5min/raw";
      } else if stat == "sum" {
        assert suffix == "/res5min/sum";
      } else if stat == "min" {
        assert suffix == "/res5min/min";
      } else if stat == "mean" {
        assert suffix == "/res5min/mean";
      } else {
        assert suffix == "/res5min/max";
      }
    } else if timestep == "1hour" {
      assert suffix == "/res1hour/raw";
    } else {
      assert suffix == "/res1day/raw";
    }
  }

  /** Which (timestep, stat) tables the job writes, and which columns they have. */
  lemma StatPresentAfterJob(name: string, raw: Frame, excludeRaw: bool, variable: string, timestep: string, stat: string)
    requires StationJob("/" + name, raw, excludeRaw).failure == None
    requires variable in AllMeasureVars
    requires timestep in Api.Timesteps && stat in Api.Stats
    ensures Api.StatPresent(JobStore(map[], name, raw, excludeRaw), name, variable, timestep)(stat)
        <==> stat in ExpectedStats(excludeRaw, variable, timestep)
  {
    StatCases(timestep, stat);
    if timestep == "5min" && stat == "raw" && !excludeRaw {
      RawPresentAfterJob(map[], name, raw, excludeRaw, variable);
    } else if timestep == "5min" || stat == "raw" {
      UnlistedAfterJob(name, raw, excludeRaw, variable, timestep, stat);
      UnlistedNotExpected(excludeRaw, variable, timestep, stat);
    } else {
      SummaryPresentAfterJob(map[], name, raw, excludeRaw, variable, timestep, StatNamed(stat));
    }
  }

  /** The (timestep, stat) pairs the reader asks about: a raw or 5-minute pair, or a summary table. */
  lemma StatCases(timestep: string, stat: string)
    requires timestep in Api.Timesteps && stat in Api.Stats
    ensures timestep == "5min" || timestep == "1hour" || timestep == "1day"
    ensures stat == "raw" || stat == "sum" || stat == "min" || stat == "mean" || stat == "max"
  {
  }

  /** The raw table is listed for every measurement variable when it was written. */
  lemma RawPresentAfterJob(store0: Store, name: string, raw: Frame, excludeRaw: bool, variable: string)
    requires StationJob("/" + name, raw, excludeRaw).failure == None && !excludeRaw
    requires variable in AllMeasureVars
    ensures Api.StatPresent(JobStore(store0, name, raw, excludeRaw), name, variable, "5min")("raw")
    ensures "raw" in ExpectedStats(excludeRaw, variable, "5min")
  {
    RawAfterJob(store0, name, raw, excludeRaw);
    StationJobSucceeds("/" + name, raw, excludeRaw);
  }

  lemma UnlistedNotExpected(excludeRaw: bool, variable: string, timestep: string, stat: string)
    requires timestep == "5min" || timestep == "1hour" || timestep == "1day"
    requires timestep == "5min" || stat == "raw"
    requires !(timestep == "5min" && stat == "raw" && !excludeRaw)
    ensures stat !in ExpectedStats(excludeRaw, variable, timestep)
  {
  }

  /** A summary table is listed for a variable exactly when the statistic is computed for it. */
  lemma SummaryPresentAfterJob(store0: Store, name: string, raw: Frame, excludeRaw: bool, variable: string, timestep: string, s: Stat)
    requires StationJob("/" + name, raw, excludeRaw).failure == None
    requires variable in AllMeasureVars
    requires timestep == "1hour" || timestep == "1day"
    ensures Api.StatPresent(JobStore(store0, name, raw, excludeRaw), name, variable, timestep)(StatName(s))
        <==> StatName(s) in ExpectedStats(excludeRaw, variable, timestep)
  {
    SummaryAfterJob(store0, name, raw, excludeRaw, timestep, s);
    SummaryExpected(excludeRaw, variable, timestep, s);
  }

  /** The summary statistics listed for a variable are those whose variables include it. */
  lemma SummaryExpected(excludeRaw: bool, variable: string, timestep: string, s: Stat)
    requires variable in AllMeasureVars
    requires timestep == "1hour" || timestep == "1day"
    ensures variable in StatVars(s) <==> StatName(s) in ExpectedStats(excludeRaw, variable, timestep)
  {
  }

  /** `Filter` over the five statistic names, one name at a time. */
  lemma FilterStats(p: string -> bool)
    ensures Filter(p, Api.Stats) ==
      (if p("raw") then ["raw"] else []) + ((if p("sum") then ["sum"] else []) +
      ((if p("min") then ["min"] else []) + ((if p("mean") then ["mean"] else []) +
      (if p("max") then ["max"] else []))))
  {
    var t4: seq<string> := ["max"];
    var t3: seq<string> := ["mean"] + t4;
    var t2: seq<string> := ["min"] + t3;
    var t1: seq<string> := ["sum"] + t2;
    assert Api.Stats == ["raw"] + t1;
    assert Filter(p, t4) == (if p("max") then ["max"] else []) by {
      FilterCons(p, "max", []);
      assert [] + ["max"] == t4;
    }
    FilterCons(p, "mean", t4);
    FilterCons(p, "min", t3);
    FilterCons(p, "sum", t2);
    FilterCons(p, "raw", t1);
  }

  /**
    After a station's job, the per-variable listing `AvailableStats` holds:
    at the 5-minute timestep only "raw", or no statistic when the raw table
    was excluded; at the hourly and daily timesteps "min", "mean" and "max",
    preceded by "sum" for PRECIPITATION alone. (The station resource as a
    whole fails when the raw table was excluded: `StationResourceAfterJob`.)
  */
  lemma StatsAfterJob(name: string, raw: Frame, excludeRaw: bool, variable: string, timestep: string)
    requires StationJob("/" + name, raw, excludeRaw).failure == None
    requires variable in AllMeasureVars
    requires timestep in Api.Timesteps
    ensures Api.AvailableStats(JobStore(map[], name, raw, excludeRaw), name, variable, timestep)
         == ExpectedStats(excludeRaw, variable, timestep)
  {
    var p := Api.StatPresent(JobStore(map[], name, raw, excludeRaw), name, variable, timestep);
    StatPresentAfterJob(name, raw, excludeRaw, variable, timestep, "raw");
    StatPresentAfterJob(name, raw, excludeRaw, variable, timestep, "sum");
    StatPresentAfterJob(name, raw, excludeRaw, variable, timestep, "min");
    StatPresentAfterJob(name, raw, excludeRaw, variable, timestep, "mean");
    StatPresentAfterJob(name, raw, excludeRaw, variable, timestep, "max");
    FilterExpected(p, excludeRaw, variable, timestep);
  }

  /** A filter that keeps exactly the expected statistics yields them in the fixed order. */
  lemma FilterExpected(p: string -> bool, excludeRaw: bool, variable: string, timestep: string)
    requires p("raw") <==> "raw" in ExpectedStats(excludeRaw, variable, timestep)
    requires p("sum") <==> "sum" in ExpectedStats(excludeRaw, variable, timestep)
    requires p("min") <==> "min" in ExpectedStats(excludeRaw, variable, timestep)
    requires p("mean") <==> "mean" in ExpectedStats(excludeRaw, variable, timestep)
    requires p("max") <==> "max" in ExpectedStats(excludeRaw, variable, timestep)
    ensures Filter(p, Api.Stats) == ExpectedStats(excludeRaw, variable, timestep)
  {
    if timestep == "5min" {
      FilterFiveMinutes(p, !excludeRaw);
    } else {
      FilterSummaries(p, variable == "PRECIPITATION");
    }
  }

  lemma FilterFiveMinutes(p: string -> bool, withRaw: bool)
    requires p("raw") == withRaw && !p("sum") && !p("min") && !p("mean") && !p("max")
    ensures Filter(p, Api.Stats) == (if withRaw then ["raw"] else [])
  {
    FilterStatsOf(p, withRaw, false, false, false, false);
  }

  lemma FilterSummaries(p: string -> bool, withSum: bool)
    requires !p("raw") && p("sum") == withSum && p("min") && p("mean") && p("max")
    ensures Filter(p, Api.Stats) == (if withSum then ["sum"] else []) + ["min", "mean", "max"]
  {
    SummaryStatsList();
    if withSum {
      FilterStatsOf(p, false, true, true, true, true);
    } else {
      FilterStatsOf(p, false, false, true, true, true);
    }
  }

  lemma SummaryStatsList()
    ensures ["min"] + (["mean"] + ["max"]) == ["min", "mean", "max"]
  {
  }

  lemma FilterStatsOf(p: string -> bool, r: bool, su: bool, mi: bool, me: bool, ma: bool)
    requires p("raw") == r && p("sum") == su && p("min") == mi && p("mean") == me && p("max") == ma
    ensures Filter(p, Api.Stats) ==
      (if r then ["raw"] else []) + ((if su then ["sum"] else []) +
      ((if mi then ["min"] else []) + ((if me then ["mean"] else []) + (if ma then ["max"] else []))))
  {
    FilterStats(p);
  }

}
