/**
  The aggregation job: for every station frame of the input store, write the
  raw frame (unless excluded) and, for each configured statistic, an hourly
  and a daily table under hierarchical keys of the output store.
*/
module Aggregates {

  import opened Results
  import opened Calendar
  import opened Buckets
  import opened Reducers
  import opened Frames
  import opened Grouping

  /** The measurement variables every default statistic is computed for. */
  const AllMeasureVars: seq<string> := [
    "AIR_TEMPERATURE",
    "PRECIPITATION",
    "SOLAR_RADIATION",
    "SURFACE_TEMPERATURE",
    "RELATIVE_HUMIDITY",
    "SOIL_MOISTURE_5",
    "SOIL_TEMPERATURE_5",
    "WETNESS",
    "WIND_1_5"
  ]

  /** The default statistics, in the order they are computed. */
  const DefaultSummaryFuncs: seq<Stat> := [Mean, Min, Max]

  /** The variables that are summed in addition to the default statistics. */
  const SumVars: seq<string> := ["PRECIPITATION"]

  /** Every (statistic, variables) pair the job computes, in order: the defaults, then the sum. */
  function Summaries(): (s: seq<(Stat, seq<string>)>)
    ensures |s| == |DefaultSummaryFuncs| + 1
  {
    seq(|DefaultSummaryFuncs|, i requires 0 <= i < |DefaultSummaryFuncs| => (DefaultSummaryFuncs[i], AllMeasureVars))
      + [(Sum, SumVars)]
  }

  /** What stops a station's job (pandas raises, and the whole run ends). */
  datatype JobError =
    | MissingColumn(name: string)   // selecting a column the frame does not have
    | UnparseableLocalDate          // an LST_DATE that is not an eight-digit calendar date

  function RawKey(stationKey: string): string
  {
    stationKey + "/res5min/raw"
  }

  function HourKey(stationKey: string, stat: Stat): string
  {
    stationKey + "/res1hour/" + StatName(stat)
  }

  function DayKey(stationKey: string, stat: Stat): string
  {
    stationKey + "/res1day/" + StatName(stat)
  }

  /** The hour bucket of every reading, from the frame's UTC index. */
  function HourKeys(raw: Frame): (ks: seq<int>)
    ensures |ks| == |raw.index|
  {
    seq(|raw.index|, i requires 0 <= i < |raw.index| => HourBucket(raw.index[i]))
  }

  lemma HourKeysMembers(raw: Frame)
    ensures forall x :: x in HourKeys(raw) <==> exists i :: 0 <= i < |raw.index| && x == HourBucket(raw.index[i])
  {
    var hourKeys := HourKeys(raw);
    forall x ensures x in hourKeys <==> exists i :: 0 <= i < |raw.index| && x == HourBucket(raw.index[i]) {
      if x in hourKeys {
        var i :| 0 <= i < |hourKeys| && hourKeys[i] == x;
        assert x == HourBucket(raw.index[i]);
      }
      if exists i :: 0 <= i < |raw.index| && x == HourBucket(raw.index[i]) {
        var i :| 0 <= i < |raw.index| && x == HourBucket(raw.index[i]);
        assert hourKeys[i] == x;
      }
    }
  }

  /** An `LST_DATE` cell read as a date: an integral value written YYYYMMDD. */
  function LocalDateOf(v: real): (r: Option<Date>)
    ensures r.Some? ==> ValidDate(r.value)
  {
    if v.Floor as real == v then ParseYmd(v.Floor) else None
  }

  /**
    The local-day key of every reading, or the error raised while deriving
    it: `LST_DATE` is looked up and parsed first, `LST_TIME` afterwards.
  */
  function DayKeys(raw: Frame): (r: Result<seq<int>, JobError>)
    ensures r.Ok? ==> |r.value| == |raw.index|
  {
    match ColumnIndex(raw.columns, "LST_DATE")
    case None => Err(MissingColumn("LST_DATE"))
    case Some(dc) =>
      var dates := ColumnValues(raw, dc);
      if exists i :: 0 <= i < |dates| && LocalDateOf(dates[i]).None? then Err(UnparseableLocalDate)
      else match ColumnIndex(raw.columns, "LST_TIME")
        case None => Err(MissingColumn("LST_TIME"))
        case Some(tc) =>
          Ok(seq(|dates|, i requires 0 <= i < |dates| => LocalDayStamp(LocalDateOf(dates[i]).value, raw.rows[i][tc])))
  }

  /**
    Each reading's day key is midnight (in minutes since the epoch) of its
    local day: the day of `LST_DATE`, or the day before for a reading
    stamped at local midnight.
  */
  lemma DayKeysMeaning(raw: Frame)
    requires DayKeys(raw).Ok?
    ensures ColumnIndex(raw.columns, "LST_DATE").Some? && ColumnIndex(raw.columns, "LST_TIME").Some?
    ensures forall i :: 0 <= i < |raw.index| ==>
      LocalDateOf(raw.rows[i][ColumnIndex(raw.columns, "LST_DATE").value]).Some? &&
      DayKeys(raw).value[i] == MinutesPerDay * DayNumber(LocalDay(
        LocalDateOf(raw.rows[i][ColumnIndex(raw.columns, "LST_DATE").value]).value,
        raw.rows[i][ColumnIndex(raw.columns, "LST_TIME").value]))
  {
    var dc := ColumnIndex(raw.columns, "LST_DATE").value;
    var tc := ColumnIndex(raw.columns, "LST_TIME").value;
    var dates := ColumnValues(raw, dc);
    forall i | 0 <= i < |raw.index|
      ensures LocalDateOf(raw.rows[i][dc]).Some? &&
        DayKeys(raw).value[i] == MinutesPerDay * DayNumber(LocalDay(LocalDateOf(raw.rows[i][dc]).value, raw.rows[i][tc]))
    {
      assert dates[i] == raw.rows[i][dc];
    }
  }

  /** The positions of `names` among `columns`, or the first name that is missing. */
  function ColumnPositions(columns: seq<string>, names: seq<string>): (r: Result<seq<nat>, JobError>)
    ensures r.Ok? ==> |r.value| == |names|
    ensures r.Ok? ==> forall c :: 0 <= c < |names| ==> r.value[c] < |columns| && columns[r.value[c]] == names[c]
    ensures r.Ok? <==> forall c :: 0 <= c < |names| ==> names[c] in columns
    ensures r.Err? ==> r.error.MissingColumn? && r.error.name in names && r.error.name !in columns
  {
    if names == [] then Ok([])
    else match ColumnIndex(columns, names[0])
      case None => Err(MissingColumn(names[0]))
      case Some(p) =>
        match ColumnPositions(columns, names[1..])
        case Err(e) => Err(e)
        case Ok(ps) => Ok([p] + ps)
  }

  /** The readings of `raw` with the given keys and the cells of columns `cols`. */
  function SelectRows(raw: Frame, keys: seq<int>, cols: seq<nat>): (rows: seq<Keyed>)
    requires |keys| == |raw.index|
    requires forall c :: 0 <= c < |cols| ==> cols[c] < |raw.columns|
    ensures |rows| == |raw.index| && HasWidth(rows, |cols|)
  {
    seq(|raw.index|, i requires 0 <= i < |raw.index| =>
      Keyed(keys[i], seq(|cols|, c requires 0 <= c < |cols| => raw.rows[i][cols[c]])))
  }

  /**
    The hourly and the daily table of one statistic over `vars`, or the
    error selecting `vars` raises. Both tables have `vars` as columns and as
    index the distinct hour or day keys in ascending order.
  */
  function SummaryTables(raw: Frame, hourKeys: seq<int>, dayKeys: seq<int>, stat: Stat, vars: seq<string>)
    : (r: Result<(Frame, Frame), JobError>)
    requires |hourKeys| == |raw.index| && |dayKeys| == |raw.index|
    ensures r.Ok? <==> forall c :: 0 <= c < |vars| ==> vars[c] in raw.columns
    ensures r.Err? ==> r.error.MissingColumn? && r.error.name in vars && r.error.name !in raw.columns
    ensures r.Ok? ==> r.value.0.columns == vars && Increasing(r.value.0.index) &&
                      forall x :: x in r.value.0.index <==> x in hourKeys
    ensures r.Ok? ==> r.value.1.columns == vars && Increasing(r.value.1.index) &&
                      forall x :: x in r.value.1.index <==> x in dayKeys
  {
    match ColumnPositions(raw.columns, vars)
    case Err(e) => Err(e)
    case Ok(cols) =>
      SelectRowsKeys(raw, hourKeys, cols);
      SelectRowsKeys(raw, dayKeys, cols);
      Ok((AggregateTable(SelectRows(raw, hourKeys, cols), stat, vars),
          AggregateTable(SelectRows(raw, dayKeys, cols), stat, vars)))
  }

  /** The puts a job performs, in order, and what stopped it, if anything. */
  datatype Outcome<F> = Outcome(puts: seq<(string, Frame)>, failure: Option<F>)

  /**
    The puts of the summary steps `specs`, stopping at the first failing
    one: two puts per step that succeeded, and a failure only for a missing
    column.
  */
  function SummaryPuts(stationKey: string, raw: Frame, hourKeys: seq<int>, dayKeys: seq<int>,
                       specs: seq<(Stat, seq<string>)>): (r: Outcome<JobError>)
    requires |hourKeys| == |raw.index| && |dayKeys| == |raw.index|
    ensures |r.puts| % 2 == 0 && |r.puts| <= 2 * |specs|
    ensures r.failure == None ==> |r.puts| == 2 * |specs|
    ensures r.failure.Some? ==> r.failure.value.MissingColumn?
  {
    if specs == [] then Outcome([], None)
    else
      var prev := SummaryPuts(stationKey, raw, hourKeys, dayKeys, specs[..|specs| - 1]);
      if prev.failure.Some? then prev
      else
        var r := SummaryTurn(stationKey, raw, hourKeys, dayKeys, prev.puts, specs[|specs| - 1]);
        assert r.failure == None ==> |r.puts| % 2 == 0 by {
          assert (|prev.puts| + 2) % 2 == 0;
        }
        r
  }

  /** One statistic's turn: its two tables appended, or the column it misses. */
  function SummaryTurn(stationKey: string, raw: Frame, hourKeys: seq<int>, dayKeys: seq<int>,
                       puts: seq<(string, Frame)>, spec: (Stat, seq<string>)): (r: Outcome<JobError>)
    requires |hourKeys| == |raw.index| && |dayKeys| == |raw.index|
    ensures r.failure == None ==> |r.puts| == |puts| + 2
    ensures r.failure.Some? ==> r.puts == puts && r.failure.value.MissingColumn?
  {
    match SummaryTables(raw, hourKeys, dayKeys, spec.0, spec.1)
    case Err(e) => Outcome(puts, Some(e))
    case Ok(tables) =>
      Outcome(puts + [(HourKey(stationKey, spec.0), tables.0), (DayKey(stationKey, spec.0), tables.1)], None)
  }

  function RawPuts(stationKey: string, raw: Frame, excludeRaw: bool): seq<(string, Frame)>
  {
    if excludeRaw then [] else [(RawKey(stationKey), raw)]
  }

  /**
    Everything one station's iteration of the job writes, in order, and what
    stopped it: the raw frame first unless excluded, then at most eight
    summary tables, all eight when nothing failed.
  */
  function StationJob(stationKey: string, raw: Frame, excludeRaw: bool): (r: Outcome<JobError>)
    ensures !excludeRaw ==> |r.puts| > 0 && r.puts[0] == (RawKey(stationKey), raw)
    ensures |r.puts| <= (if excludeRaw then 0 else 1) + 8
    ensures r.failure == None ==> |r.puts| == (if excludeRaw then 0 else 1) + 8
  {
    match DayKeys(raw)
    case Err(e) => Outcome(RawPuts(stationKey, raw, excludeRaw), Some(e))
    case Ok(dayKeys) =>
      var s := SummaryPuts(stationKey, raw, HourKeys(raw), dayKeys, Summaries());
      Outcome(RawPuts(stationKey, raw, excludeRaw) + s.puts, s.failure)
  }

  /** What each listed station's job does, in listing order. */
  function StationJobs(input: Store, stationKeys: seq<string>, excludeRaw: bool): (jobs: seq<(string, Outcome<JobError>)>)
    requires forall k :: k in stationKeys ==> k in input
    ensures |jobs| == |stationKeys|
  {
    if stationKeys == [] then []
    else [(stationKeys[0], StationJob(stationKeys[0], input[stationKeys[0]], excludeRaw))]
         + StationJobs(input, stationKeys[1..], excludeRaw)
  }

  lemma {:induction false} StationJobsAt(input: Store, stationKeys: seq<string>, excludeRaw: bool, i: nat)
    requires forall k :: k in stationKeys ==> k in input
    requires i < |stationKeys|
    ensures StationJobs(input, stationKeys, excludeRaw)[i]
         == (stationKeys[i], StationJob(stationKeys[i], input[stationKeys[i]], excludeRaw))
  {
    if i > 0 {
      StationJobsAt(input, stationKeys[1..], excludeRaw, i - 1);
    }
  }

  /** The first `n` station jobs of a run, in order; the first failing station ends it. */
  function RunJobs(jobs: seq<(string, Outcome<JobError>)>, n: nat): Outcome<(string, JobError)>
    requires n <= |jobs|
  {
    if n == 0 then Outcome([], None)
    else
      var prev := RunJobs(jobs, n - 1);
      var (key, job) := jobs[n - 1];
      if prev.failure.Some? then prev
      else Outcome(prev.puts + job.puts, if job.failure.Some? then Some((key, job.failure.value)) else None)
  }

  /** The store after performing `puts` in order; a later put under the same key replaces an earlier one. */
  function ApplyPuts(store: Store, puts: seq<(string, Frame)>): Store
  {
    if puts == [] then store
    else ApplyPuts(store, puts[..|puts| - 1])[puts[|puts| - 1].0 := puts[|puts| - 1].1]
  }

  lemma {:induction false} ApplyPutsAppend(store: Store, a: seq<(string, Frame)>, b: seq<(string, Frame)>)
    ensures ApplyPuts(store, a + b) == ApplyPuts(ApplyPuts(store, a), b)
    decreases |b|
  {
    if b == [] {
      assert a + b == a;
    } else {
      assert (a + b)[..|a + b| - 1] == a + b[..|b| - 1];
      ApplyPutsAppend(store, a, b[..|b| - 1]);
    }
  }

  /** The output store: an HDF store reduced to its key-to-frame mapping. */
  class OutputStore {
    var tables: Store

    /** Opening the output file in the default append mode keeps the tables it already holds. */
    constructor (existing: Store)
      ensures tables == existing
    {
      tables := existing;
    }

    /** `put(key, frame)` replaces whatever was stored under `key`. */
    method Put(key: string, frame: Frame)
      modifies this
      ensures tables == old(tables)[key := frame]
    {
      tables := tables[key := frame];
    }
  }

  /** Compute one statistic hourly and daily and write both tables. */
  method CalculateAndOutputSummaries(out: OutputStore, stationKey: string, raw: Frame,
                                     hourKeys: seq<int>, dayKeys: seq<int>, stat: Stat, vars: seq<string>)
    returns (failure: Option<JobError>)
    requires |hourKeys| == |raw.index| && |dayKeys| == |raw.index|
    modifies out
    ensures match SummaryTables(raw, hourKeys, dayKeys, stat, vars)
      case Err(e) => failure == Some(e) && out.tables == old(out.tables)
      case Ok(t) => failure == None && out.tables == old(out.tables)[HourKey(stationKey, stat) := t.0][DayKey(stationKey, stat) := t.1]
  {
    var cols := ColumnPositions(raw.columns, vars);
    if cols.Err? {
      return Some(cols.error);
    }
    var hourTable := AggregateTable(SelectRows(raw, hourKeys, cols.value), stat, vars);
    out.Put(HourKey(stationKey, stat), hourTable);
    var dayTable := AggregateTable(SelectRows(raw, dayKeys, cols.value), stat, vars);
    out.Put(DayKey(stationKey, stat), dayTable);
    failure := None;
  }

  /** One summary step, seen from the store: it either fails and writes nothing, or writes its two tables. */
  lemma SummaryStep(store0: Store, rawPuts: seq<(string, Frame)>, stationKey: string, raw: Frame,
                    hourKeys: seq<int>, dayKeys: seq<int>, specs: seq<(Stat, seq<string>)>, i: nat)
    requires |hourKeys| == |raw.index| && |dayKeys| == |raw.index|
    requires i < |specs|
    requires SummaryPuts(stationKey, raw, hourKeys, dayKeys, specs[..i]).failure == None
    ensures match SummaryTables(raw, hourKeys, dayKeys, specs[i].0, specs[i].1)
      case Err(e) =>
        SummaryPuts(stationKey, raw, hourKeys, dayKeys, specs[..i + 1])
          == Outcome(SummaryPuts(stationKey, raw, hourKeys, dayKeys, specs[..i]).puts, Some(e))
      case Ok(t) =>
        SummaryPuts(stationKey, raw, hourKeys, dayKeys, specs[..i + 1]).failure == None &&
        ApplyPuts(store0, rawPuts + SummaryPuts(stationKey, raw, hourKeys, dayKeys, specs[..i + 1]).puts)
          == ApplyPuts(store0, rawPuts + SummaryPuts(stationKey, raw, hourKeys, dayKeys, specs[..i]).puts)
               [HourKey(stationKey, specs[i].0) := t.0][DayKey(stationKey, specs[i].0) := t.1]
  {
    assert specs[..i + 1][..i] == specs[..i];
    var prev := SummaryPuts(stationKey, raw, hourKeys, dayKeys, specs[..i]).puts;
    match SummaryTables(raw, hourKeys, dayKeys, specs[i].0, specs[i].1)
    case Err(e) =>
    case Ok(t) =>
      var two: seq<(string, Frame)> := [(HourKey(stationKey, specs[i].0), t.0), (DayKey(stationKey, specs[i].0), t.1)];
      assert SummaryPuts(stationKey, raw, hourKeys, dayKeys, specs[..i + 1]).puts == prev + two;
      assert rawPuts + (prev + two) == (rawPuts + prev) + two;
      ApplyPutsTwo(store0, rawPuts + prev, two);
  }

  /** Two more puts update the store one after the other. */
  lemma ApplyPutsTwo(store0: Store, before: seq<(string, Frame)>, two: seq<(string, Frame)>)
    requires |two| == 2
    ensures ApplyPuts(store0, before + two) == ApplyPuts(store0, before)[two[0].0 := two[0].1][two[1].0 := two[1].1]
  {
    ApplyPutsAppend(store0, before, two);
    var mid: Store := ApplyPuts(store0, before);
    var none: seq<(string, Frame)> := [];
    assert two[..1] == [two[0]] && two[..1][..0] == none;
    var one: Store := mid[two[0].0 := two[0].1];
    assert ApplyPuts(mid, two[..1]) == one;
  }

  /** One station's iteration: the raw put, the grouping keys, the default statistics, then the sum. */
  method ProcessStation(out: OutputStore, stationKey: string, raw: Frame, excludeRaw: bool)
    returns (failure: Option<JobError>)
    modifies out
    ensures out.tables == ApplyPuts(old(out.tables), StationJob(stationKey, raw, excludeRaw).puts)
    ensures failure == StationJob(stationKey, raw, excludeRaw).failure
  {
    var rawPuts := RawPuts(stationKey, raw, excludeRaw);
    if !excludeRaw {
      out.Put(RawKey(stationKey), raw);
    }
    assert out.tables == ApplyPuts(old(out.tables), rawPuts);
    var dayKeys := DayKeys(raw);
    if dayKeys.Err? {
      return Some(dayKeys.error);
    }
    var hourKeys := HourKeys(raw);
    var specs := Summaries();
    var i := 0;
    while i < |DefaultSummaryFuncs|
      invariant 0 <= i <= |DefaultSummaryFuncs|
      invariant SummaryPuts(stationKey, raw, hourKeys, dayKeys.value, specs[..i]).failure == None
      invariant out.tables == ApplyPuts(old(out.tables), rawPuts + SummaryPuts(stationKey, raw, hourKeys, dayKeys.value, specs[..i]).puts)
    {
      SummaryStep(old(out.tables), rawPuts, stationKey, raw, hourKeys, dayKeys.value, specs, i);
      failure := CalculateAndOutputSummaries(out, stationKey, raw, hourKeys, dayKeys.value, DefaultSummaryFuncs[i], AllMeasureVars);
      if failure.Some? {
        SummaryPutsStopped(stationKey, raw, hourKeys, dayKeys.value, specs, i + 1);
        return;
      }
      i := i + 1;
    }
    SummaryStep(old(out.tables), rawPuts, stationKey, raw, hourKeys, dayKeys.value, specs, i);
    assert specs[..i + 1] == specs;
    failure := CalculateAndOutputSummaries(out, stationKey, raw, hourKeys, dayKeys.value, Sum, SumVars);
  }

  /** Once a summary step has failed, the later ones write nothing. */
  lemma {:induction false} SummaryPutsStopped(stationKey: string, raw: Frame, hourKeys: seq<int>, dayKeys: seq<int>,
                                             specs: seq<(Stat, seq<string>)>, i: nat)
    requires |hourKeys| == |raw.index| && |dayKeys| == |raw.index|
    requires i <= |specs|
    requires SummaryPuts(stationKey, raw, hourKeys, dayKeys, specs[..i]).failure.Some?
    ensures SummaryPuts(stationKey, raw, hourKeys, dayKeys, specs) == SummaryPuts(stationKey, raw, hourKeys, dayKeys, specs[..i])
    decreases |specs| - i
  {
    if i < |specs| {
      assert specs[..i + 1][..i] == specs[..i];
      SummaryPutsStopped(stationKey, raw, hourKeys, dayKeys, specs, i + 1);
    } else {
      assert specs[..i] == specs;
    }
  }

  /**
    A run reports no failure exactly when every station's job succeeded;
    otherwise it reports the key and the error of the first station that
    failed.
  */
  lemma {:induction false} RunJobsFirstFailure(jobs: seq<(string, Outcome<JobError>)>, n: nat)
    requires n <= |jobs|
    ensures RunJobs(jobs, n).failure == None <==> forall i :: 0 <= i < n ==> jobs[i].1.failure == None
    ensures RunJobs(jobs, n).failure.Some? ==>
      exists i :: 0 <= i < n && jobs[i].1.failure.Some? && RunJobs(jobs, n).failure.value == (jobs[i].0, jobs[i].1.failure.value) &&
                  forall h :: 0 <= h < i ==> jobs[h].1.failure == None
  {
    if n > 0 {
      RunJobsFirstFailure(jobs, n - 1);
    }
  }

  /** Once a station has failed, the later stations write nothing. */
  lemma {:induction false} RunJobsStopped(jobs: seq<(string, Outcome<JobError>)>, i: nat)
    requires i <= |jobs|
    requires RunJobs(jobs, i).failure.Some?
    ensures RunJobs(jobs, |jobs|) == RunJobs(jobs, i)
    decreases |jobs| - i
  {
    if i < |jobs| {
      RunJobsStopped(jobs, i + 1);
    }
  }

  /** One more station, seen from the store: its puts follow those of the stations before it. */
  lemma RunJobsNext(store0: Store, jobs: seq<(string, Outcome<JobError>)>, i: nat)
    requires i < |jobs|
    requires RunJobs(jobs, i).failure == None
    ensures RunJobs(jobs, i + 1).failure
         == if jobs[i].1.failure.Some? then Some((jobs[i].0, jobs[i].1.failure.value)) else None
    ensures ApplyPuts(store0, RunJobs(jobs, i + 1).puts) == ApplyPuts(ApplyPuts(store0, RunJobs(jobs, i).puts), jobs[i].1.puts)
  {
    ApplyPutsAppend(store0, RunJobs(jobs, i).puts, jobs[i].1.puts);
  }

  /** One turn of the station loop: the `i`-th listed station's job extends the run by one station. */
  method RunStation(input: Store, stationKeys: seq<string>, excludeRaw: bool, i: nat, out: OutputStore, ghost store0: Store)
    returns (failure: Option<JobError>)
    requires forall k :: k in stationKeys ==> k in input
    requires i < |stationKeys|
    requires RunJobs(StationJobs(input, stationKeys, excludeRaw), i).failure == None
    requires out.tables == ApplyPuts(store0, RunJobs(StationJobs(input, stationKeys, excludeRaw), i).puts)
    modifies out
    ensures out.tables == ApplyPuts(store0, RunJobs(StationJobs(input, stationKeys, excludeRaw), i + 1).puts)
    ensures RunJobs(StationJobs(input, stationKeys, excludeRaw), i + 1).failure
         == if failure.Some? then Some((stationKeys[i], failure.value)) else None
  {
    StationJobsAt(input, stationKeys, excludeRaw, i);
    RunJobsNext(store0, StationJobs(input, stationKeys, excludeRaw), i);
    var key := stationKeys[i];
    failure := ProcessStation(out, key, input[key], excludeRaw);
  }

  /** The whole run: every listed station in turn, until one fails. */
  method CalculateAggregates(input: Store, stationKeys: seq<string>, excludeRaw: bool, out: OutputStore)
    returns (failure: Option<(string, JobError)>)
    requires forall k :: k in stationKeys ==> k in input
    modifies out
    ensures out.tables == ApplyPuts(old(out.tables), RunJobs(StationJobs(input, stationKeys, excludeRaw), |stationKeys|).puts)
    ensures failure == RunJobs(StationJobs(input, stationKeys, excludeRaw), |stationKeys|).failure
  {
    ghost var jobs := StationJobs(input, stationKeys, excludeRaw);
    var i := 0;
    while i < |stationKeys|
      invariant 0 <= i <= |stationKeys|
      invariant RunJobs(jobs, i).failure == None
      invariant out.tables == ApplyPuts(old(out.tables), RunJobs(jobs, i).puts)
    {
      var f := RunStation(input, stationKeys, excludeRaw, i, out, old(out.tables));
      if f.Some? {
        RunJobsStopped(jobs, i + 1);
        return Some((stationKeys[i], f.value));
      }
      i := i + 1;
    }
    failure := None;
  }


  // ---------------------------------------------------------------------
  // What one station's job writes

  /** The keys of a sequence of puts, in order. */
  function PutKeys(puts: seq<(string, Frame)>): (ks: seq<string>)
    ensures |ks| == |puts|
  {
    seq(|puts|, i requires 0 <= i < |puts| => puts[i].0)
  }

  lemma PutKeysAppend(a: seq<(string, Frame)>, b: seq<(string, Frame)>)
    ensures PutKeys(a + b) == PutKeys(a) + PutKeys(b)
  {
  }

  /** The keys a successful job writes for one station, in the order it writes them. */
  function ExpectedKeys(stationKey: string, excludeRaw: bool): seq<string>
  {
    (if excludeRaw then [] else [RawKey(stationKey)]) +
    [ HourKey(stationKey, Mean), DayKey(stationKey, Mean),
      HourKey(stationKey, Min), DayKey(stationKey, Min),
      HourKey(stationKey, Max), DayKey(stationKey, Max),
      HourKey(stationKey, Sum), DayKey(stationKey, Sum) ]
  }

  /**
    Positions `2j` and `2j+1` of `puts` hold, under the step's hourly and
    daily keys, the two tables summary step `spec` computes from `raw`.
  */
  ghost predicate StepWritten(puts: seq<(string, Frame)>, j: nat, stationKey: string, spec: (Stat, seq<string>),
                        raw: Frame, hourKeys: seq<int>, dayKeys: seq<int>)
  {
    2 * j + 1 < |puts| &&
    |hourKeys| == |raw.index| && |dayKeys| == |raw.index| &&
    SummaryTables(raw, hourKeys, dayKeys, spec.0, spec.1) == Ok((puts[2 * j].1, puts[2 * j + 1].1)) &&
    puts[2 * j].0 == HourKey(stationKey, spec.0) &&
    puts[2 * j + 1].0 == DayKey(stationKey, spec.0)
  }

  lemma StepWrittenExtend(puts: seq<(string, Frame)>, more: seq<(string, Frame)>, j: nat, stationKey: string,
                          spec: (Stat, seq<string>), raw: Frame, hourKeys: seq<int>, dayKeys: seq<int>)
    requires StepWritten(puts, j, stationKey, spec, raw, hourKeys, dayKeys)
    ensures StepWritten(puts + more, j, stationKey, spec, raw, hourKeys, dayKeys)
  {
    assert (puts + more)[2 * j] == puts[2 * j] && (puts + more)[2 * j + 1] == puts[2 * j + 1];
  }

  /** The summary steps succeed exactly when every variable they select is a column of the frame. */
  lemma {:induction false} SummaryPutsSucceed(stationKey: string, raw: Frame, hourKeys: seq<int>, dayKeys: seq<int>,
                                             specs: seq<(Stat, seq<string>)>)
    requires |hourKeys| == |raw.index| && |dayKeys| == |raw.index|
    ensures SummaryPuts(stationKey, raw, hourKeys, dayKeys, specs).failure == None
        <==> forall j, c :: 0 <= j < |specs| && 0 <= c < |specs[j].1| ==> specs[j].1[c] in raw.columns
    decreases |specs|
  {
    if specs != [] {
      SummaryPutsSucceed(stationKey, raw, hourKeys, dayKeys, specs[..|specs| - 1]);
      SummaryPutsLast(stationKey, raw, hourKeys, dayKeys, specs);
      ColumnsSplit(specs, specs[..|specs| - 1], raw.columns);
    }
  }

  /** The summary steps succeed when those before the last do and the last finds its columns. */
  lemma SummaryPutsLast(stationKey: string, raw: Frame, hourKeys: seq<int>, dayKeys: seq<int>,
                        specs: seq<(Stat, seq<string>)>)
    requires |hourKeys| == |raw.index| && |dayKeys| == |raw.index|
    requires specs != []
    ensures SummaryPuts(stationKey, raw, hourKeys, dayKeys, specs).failure == None
        <==> SummaryPuts(stationKey, raw, hourKeys, dayKeys, specs[..|specs| - 1]).failure == None &&
             ColumnPositions(raw.columns, specs[|specs| - 1].1).Ok?
  {
  }

  predicate AllIn(names: seq<string>, columns: seq<string>)
  {
    forall c :: 0 <= c < |names| ==> names[c] in columns
  }

  /** Every step's variables are columns exactly when the front steps' and the last step's are. */
  lemma ColumnsSplit(specs: seq<(Stat, seq<string>)>, front: seq<(Stat, seq<string>)>, columns: seq<string>)
    requires specs != [] && front == specs[..|specs| - 1]
    ensures (forall j, c :: 0 <= j < |specs| && 0 <= c < |specs[j].1| ==> specs[j].1[c] in columns)
        <==> (forall j, c :: 0 <= j < |front| && 0 <= c < |front[j].1| ==> front[j].1[c] in columns) &&
             AllIn(specs[|specs| - 1].1, columns)
  {
    assert forall j :: 0 <= j < |front| ==> front[j] == specs[j];
  }

  /**
    Each summary step that succeeds writes its hourly and then its daily
    table; a failing step writes nothing and ends the job.
  */
  lemma {:induction false} SummaryPutsShape(stationKey: string, raw: Frame, hourKeys: seq<int>, dayKeys: seq<int>,
                                           specs: seq<(Stat, seq<string>)>)
    requires |hourKeys| == |raw.index| && |dayKeys| == |raw.index|
    ensures var o := SummaryPuts(stationKey, raw, hourKeys, dayKeys, specs);
      |o.puts| <= 2 * |specs| && (o.failure == None ==> |o.puts| == 2 * |specs|)
    ensures var o := SummaryPuts(stationKey, raw, hourKeys, dayKeys, specs);
      forall j :: 0 <= j < |specs| && 2 * j < |o.puts| ==> StepWritten(o.puts, j, stationKey, specs[j], raw, hourKeys, dayKeys)
    decreases |specs|
  {
    if specs != [] {
      var n := |specs|;
      var front := specs[..n - 1];
      SummaryPutsShape(stationKey, raw, hourKeys, dayKeys, front);
      var prev := SummaryPuts(stationKey, raw, hourKeys, dayKeys, front);
      var (stat, vars) := specs[n - 1];
      if prev.failure == None {
        match SummaryTables(raw, hourKeys, dayKeys, stat, vars)
        case Err(e) =>
          assert SummaryPuts(stationKey, raw, hourKeys, dayKeys, specs) == Outcome(prev.puts, Some(e));
          StepsKept(prev.puts, front, specs, stationKey, raw, hourKeys, dayKeys);
        case Ok(tables) =>
          var two := [(HourKey(stationKey, stat), tables.0), (DayKey(stationKey, stat), tables.1)];
          assert SummaryPuts(stationKey, raw, hourKeys, dayKeys, specs) == Outcome(prev.puts + two, None);
          StepsAdded(prev.puts, two, front, specs, stationKey, raw, hourKeys, dayKeys);
      } else {
        assert SummaryPuts(stationKey, raw, hourKeys, dayKeys, specs) == prev;
        StepsKept(prev.puts, front, specs, stationKey, raw, hourKeys, dayKeys);
      }
    }
  }

  /** Puts that reach no further than the front steps describe all the steps exactly as they describe the front. */
  lemma StepsKept(puts: seq<(string, Frame)>, front: seq<(Stat, seq<string>)>, specs: seq<(Stat, seq<string>)>,
                  stationKey: string, raw: Frame, hourKeys: seq<int>, dayKeys: seq<int>)
    requires |specs| > 0 && front == specs[..|specs| - 1] && |puts| <= 2 * |front|
    requires forall j :: 0 <= j < |front| && 2 * j < |puts| ==> StepWritten(puts, j, stationKey, front[j], raw, hourKeys, dayKeys)
    ensures forall j :: 0 <= j < |specs| && 2 * j < |puts| ==> StepWritten(puts, j, stationKey, specs[j], raw, hourKeys, dayKeys)
  {
    forall j | 0 <= j < |specs| && 2 * j < |puts|
      ensures StepWritten(puts, j, stationKey, specs[j], raw, hourKeys, dayKeys)
    {
      assert front[j] == specs[j];
    }
  }

  /** The last step's two puts, after those of the front steps. */
  lemma StepsAdded(puts: seq<(string, Frame)>, two: seq<(string, Frame)>, front: seq<(Stat, seq<string>)>,
                   specs: seq<(Stat, seq<string>)>, stationKey: string, raw: Frame, hourKeys: seq<int>, dayKeys: seq<int>)
    requires |specs| > 0 && front == specs[..|specs| - 1] && |puts| == 2 * |front|
    requires forall j :: 0 <= j < |front| && 2 * j < |puts| ==> StepWritten(puts, j, stationKey, front[j], raw, hourKeys, dayKeys)
    requires StepWritten(two, 0, stationKey, specs[|specs| - 1], raw, hourKeys, dayKeys)
    ensures forall j :: 0 <= j < |specs| && 2 * j < |puts + two| ==> StepWritten(puts + two, j, stationKey, specs[j], raw, hourKeys, dayKeys)
  {
    StepWrittenAppend(puts, two, |specs| - 1, stationKey, specs[|specs| - 1], raw, hourKeys, dayKeys);
    forall j | 0 <= j < |specs| - 1
      ensures StepWritten(puts + two, j, stationKey, specs[j], raw, hourKeys, dayKeys)
    {
      assert front[j] == specs[j];
      StepWrittenExtend(puts, two, j, stationKey, specs[j], raw, hourKeys, dayKeys);
    }
  }

  lemma StepWrittenAppend(puts: seq<(string, Frame)>, two: seq<(string, Frame)>, j: nat, stationKey: string,
                          spec: (Stat, seq<string>), raw: Frame, hourKeys: seq<int>, dayKeys: seq<int>)
    requires |puts| == 2 * j
    requires StepWritten(two, 0, stationKey, spec, raw, hourKeys, dayKeys)
    ensures StepWritten(puts + two, j, stationKey, spec, raw, hourKeys, dayKeys)
  {
    assert (puts + two)[2 * j] == two[0] && (puts + two)[2 * j + 1] == two[1];
  }

  lemma SelectRowsKeys(raw: Frame, keys: seq<int>, cols: seq<nat>)
    requires |keys| == |raw.index|
    requires forall c :: 0 <= c < |cols| ==> cols[c] < |raw.columns|
    ensures forall x :: x in KeysOf(SelectRows(raw, keys, cols)) <==> x in keys
  {
    var rows := SelectRows(raw, keys, cols);
    forall x ensures x in KeysOf(rows) <==> x in keys {
      if x in keys {
        var i :| 0 <= i < |keys| && keys[i] == x;
        assert KeysOf(rows)[i] == x;
      }
    }
  }

  /** Two keys of one station whose suffixes differ at some position are different keys. */
  lemma SuffixesDiffer(stationKey: string, a: string, b: string, k: nat)
    requires k < |a| && k < |b| && a[k] != b[k]
    ensures stationKey + a != stationKey + b
  {
    assert (stationKey + a)[|stationKey| + k] == a[k];
    assert (stationKey + b)[|stationKey| + k] == b[k];
  }

  /** The first `LST_DATE` column exists and every one of its cells is an eight-digit date. */
  predicate LocalDatesParse(raw: Frame)
  {
    match ColumnIndex(raw.columns, "LST_DATE")
    case None => false
    case Some(dc) => forall i :: 0 <= i < |raw.index| ==> LocalDateOf(raw.rows[i][dc]).Some?
  }

  lemma DayKeysSucceed(raw: Frame)
    ensures DayKeys(raw).Ok? <==> LocalDatesParse(raw) && "LST_TIME" in raw.columns
    ensures "LST_DATE" !in raw.columns ==> DayKeys(raw) == Err(MissingColumn("LST_DATE"))
    ensures LocalDatesParse(raw) && "LST_TIME" !in raw.columns ==> DayKeys(raw) == Err(MissingColumn("LST_TIME"))
  {
    match ColumnIndex(raw.columns, "LST_DATE")
    case None =>
    case Some(dc) =>
      var dates := ColumnValues(raw, dc);
      assert forall i :: 0 <= i < |dates| ==> dates[i] == raw.rows[i][dc];
  }

  /**
    A station's job succeeds exactly when `LST_DATE` and `LST_TIME` exist,
    every `LST_DATE` is a date, and all nine measurement variables exist;
    a missing `LST_DATE` is the first thing reported.
  */
  lemma StationJobSucceeds(stationKey: string, raw: Frame, excludeRaw: bool)
    ensures StationJob(stationKey, raw, excludeRaw).failure == None
        <==> LocalDatesParse(raw) && "LST_TIME" in raw.columns && forall v :: v in AllMeasureVars ==> v in raw.columns
    ensures "LST_DATE" !in raw.columns ==> StationJob(stationKey, raw, excludeRaw).failure == Some(MissingColumn("LST_DATE"))
  {
    DayKeysSucceed(raw);
    match DayKeys(raw)
    case Err(e) =>
    case Ok(dayKeys) =>
      SummaryPutsSucceed(stationKey, raw, HourKeys(raw), dayKeys, Summaries());
      SummariesColumns(raw.columns);
  }

  /** The summary steps need exactly the nine measurement variables. */
  lemma SummariesColumns(columns: seq<string>)
    ensures (forall j, c :: 0 <= j < |Summaries()| && 0 <= c < |Summaries()[j].1| ==> Summaries()[j].1[c] in columns)
        <==> forall v :: v in AllMeasureVars ==> v in columns
  {
    var specs := Summaries();
    assert specs[0].1 == AllMeasureVars && specs[3].1 == SumVars;
    assert SumVars[0] == AllMeasureVars[1];
  }

  /** No summary table is ever written under the station's raw key. */
  lemma SummaryKeysAreNotRaw(stationKey: string, stat: Stat)
    ensures HourKey(stationKey, stat) != stationKey + "/res5min/raw"
    ensures DayKey(stationKey, stat) != stationKey + "/res5min/raw"
  {
    var name := StatName(stat);
    assert ("/res1hour/" + name)[4] == '1' && ("/res1day/" + name)[4] == '1';
    SuffixesDiffer(stationKey, "/res1hour/" + name, "/res5min/raw", 4);
    SuffixesDiffer(stationKey, "/res1day/" + name, "/res5min/raw", 4);
    assert stationKey + "/res1hour/" + name == stationKey + ("/res1hour/" + name);
    assert stationKey + "/res1day/" + name == stationKey + ("/res1day/" + name);
  }

  /** Every key the summary steps write is an hourly or a daily key of the station. */
  lemma SummaryPutsNotRaw(stationKey: string, raw: Frame, hourKeys: seq<int>, dayKeys: seq<int>,
                          specs: seq<(Stat, seq<string>)>)
    requires |hourKeys| == |raw.index| && |dayKeys| == |raw.index|
    ensures forall i :: 0 <= i < |SummaryPuts(stationKey, raw, hourKeys, dayKeys, specs).puts| ==>
      SummaryPuts(stationKey, raw, hourKeys, dayKeys, specs).puts[i].0 != stationKey + "/res5min/raw"
  {
    SummaryPutsShape(stationKey, raw, hourKeys, dayKeys, specs);
    var o := SummaryPuts(stationKey, raw, hourKeys, dayKeys, specs);
    forall i | 0 <= i < |o.puts| ensures o.puts[i].0 != stationKey + "/res5min/raw" {
      var j := i / 2;
      assert i == 2 * j || i == 2 * j + 1;
      assert 2 * j < |o.puts| && j < |specs|;
      assert StepWritten(o.puts, j, stationKey, specs[j], raw, hourKeys, dayKeys);
      SummaryKeysAreNotRaw(stationKey, specs[j].0);
    }
  }

  /**
    Whatever happens afterwards, unless excluded the raw frame is the first
    thing written, under `<station>/res5min/raw` and unchanged; when excluded,
    nothing is ever written under that key.
  */
  lemma StationJobWritesRawFirst(stationKey: string, raw: Frame, excludeRaw: bool)
    ensures var puts := StationJob(stationKey, raw, excludeRaw).puts;
      !excludeRaw ==> |puts| > 0 && puts[0] == (stationKey + "/res5min/raw", raw)
    ensures var puts := StationJob(stationKey, raw, excludeRaw).puts;
      excludeRaw ==> forall i :: 0 <= i < |puts| ==> puts[i].0 != stationKey + "/res5min/raw"
  {
    if excludeRaw {
      match DayKeys(raw)
      case Err(e) =>
        assert StationJob(stationKey, raw, excludeRaw).puts == [];
      case Ok(dayKeys) =>
        var o := SummaryPuts(stationKey, raw, HourKeys(raw), dayKeys, Summaries());
        SummaryPutsNotRaw(stationKey, raw, HourKeys(raw), dayKeys, Summaries());
        assert StationJob(stationKey, raw, excludeRaw).puts == o.puts;
    }
  }

  // ---------------------------------------------------------------------
  // The store after a station's job

  /** The store after a sequence of puts has the keys it had and the keys put. */
  lemma {:induction false} ApplyPutsKeys(store: Store, puts: seq<(string, Frame)>)
    ensures forall k :: k in ApplyPuts(store, puts) <==> k in store || k in PutKeys(puts)
    decreases |puts|
  {
    if puts != [] {
      var front := puts[..|puts| - 1];
      ApplyPutsKeys(store, front);
      assert PutKeys(puts) == PutKeys(front) + [puts[|puts| - 1].0];
    }
  }

  /** A key holds the frame of the last put under it. */
  lemma {:induction false} ApplyPutsLast(store: Store, puts: seq<(string, Frame)>, i: nat)
    requires i < |puts|
    requires forall j :: i < j < |puts| ==> puts[j].0 != puts[i].0
    ensures puts[i].0 in ApplyPuts(store, puts) && ApplyPuts(store, puts)[puts[i].0] == puts[i].1
    decreases |puts|
  {
    if i < |puts| - 1 {
      var front := puts[..|puts| - 1];
      assert front[i] == puts[i];
      ApplyPutsLast(store, front, i);
    }
  }

  lemma PrefixCancel(stationKey: string, a: string, b: string)
    requires stationKey + a == stationKey + b
    ensures a == b
  {
    assert a == (stationKey + a)[|stationKey|..];
    assert b == (stationKey + b)[|stationKey|..];
  }

  /** No key is written twice by a station's job. */
  lemma ExpectedKeysDistinct(stationKey: string, excludeRaw: bool)
    ensures var ks := ExpectedKeys(stationKey, excludeRaw);
      forall a, b :: 0 <= a < b < |ks| ==> ks[a] != ks[b]
  {
    var ks := ExpectedKeys(stationKey, excludeRaw);
    var suffixes := WrittenSuffixes(excludeRaw);
    ExpectedKeysByName(stationKey, excludeRaw);
    WrittenSuffixesByName(excludeRaw);
    WrittenSuffixesDistinct(excludeRaw);
    assert |ks| == |suffixes|;
    assert forall a :: 0 <= a < |ks| ==> ks[a] == stationKey + suffixes[a];
    forall a, b | 0 <= a < b < |ks| ensures ks[a] != ks[b] {
      if ks[a] == ks[b] {
        PrefixCancel(stationKey, suffixes[a], suffixes[b]);
      }
    }
  }

  /** The suffixes of the keys a station's job writes, after the station key. */
  function WrittenSuffixes(excludeRaw: bool): seq<string>
  {
    ExpectedKeys("", excludeRaw)
  }

  /** The written suffixes spelled out. */
  lemma WrittenSuffixesByName(excludeRaw: bool)
    ensures WrittenSuffixes(excludeRaw) ==
      (if excludeRaw then [] else ["/res5min/raw"]) +
      [ "/res1hour/mean", "/res1day/mean", "/res1hour/min", "/res1day/min",
        "/res1hour/max", "/res1day/max", "/res1hour/sum", "/res1day/sum" ]
  {
    ExpectedKeysByName("", excludeRaw);
    assert forall t: string :: "" + t == t;
  }

  lemma WrittenSuffixesDistinct(excludeRaw: bool)
    ensures forall a, b :: 0 <= a < b < |WrittenSuffixes(excludeRaw)| ==> WrittenSuffixes(excludeRaw)[a] != WrittenSuffixes(excludeRaw)[b]
  {
    WrittenSuffixesByName(excludeRaw);
  }

  lemma KeyNames(stationKey: string)
    ensures HourKey(stationKey, Mean) == stationKey + "/res1hour/mean" && DayKey(stationKey, Mean) == stationKey + "/res1day/mean"
    ensures HourKey(stationKey, Min) == stationKey + "/res1hour/min" && DayKey(stationKey, Min) == stationKey + "/res1day/min"
    ensures HourKey(stationKey, Max) == stationKey + "/res1hour/max" && DayKey(stationKey, Max) == stationKey + "/res1day/max"
    ensures HourKey(stationKey, Sum) == stationKey + "/res1hour/sum" && DayKey(stationKey, Sum) == stationKey + "/res1day/sum"
  {
  }

  /** The keys of puts laid out as the four summary steps lay them out. */
  lemma StepKeys(puts: seq<(string, Frame)>, stationKey: string, specs: seq<(Stat, seq<string>)>)
    requires |specs| == 4 && |puts| == 8
    requires specs[0].0 == Mean && specs[1].0 == Min && specs[2].0 == Max && specs[3].0 == Sum
    requires forall j :: 0 <= j < 4 ==>
      puts[2 * j].0 == HourKey(stationKey, specs[j].0) && puts[2 * j + 1].0 == DayKey(stationKey, specs[j].0)
    ensures PutKeys(puts)
         == [ HourKey(stationKey, Mean), DayKey(stationKey, Mean),
              HourKey(stationKey, Min), DayKey(stationKey, Min),
              HourKey(stationKey, Max), DayKey(stationKey, Max),
              HourKey(stationKey, Sum), DayKey(stationKey, Sum) ]
  {
    assert puts[0].0 == HourKey(stationKey, Mean) && puts[1].0 == DayKey(stationKey, Mean);
    assert puts[2].0 == HourKey(stationKey, Min) && puts[3].0 == DayKey(stationKey, Min);
    assert puts[4].0 == HourKey(stationKey, Max) && puts[5].0 == DayKey(stationKey, Max);
    assert puts[6].0 == HourKey(stationKey, Sum) && puts[7].0 == DayKey(stationKey, Sum);
  }

  /** The keys the four summary steps write when they all succeed, in order. */
  lemma SummaryKeys(stationKey: string, raw: Frame, hourKeys: seq<int>, dayKeys: seq<int>)
    requires |hourKeys| == |raw.index| && |dayKeys| == |raw.index|
    requires SummaryPuts(stationKey, raw, hourKeys, dayKeys, Summaries()).failure == None
    ensures PutKeys(SummaryPuts(stationKey, raw, hourKeys, dayKeys, Summaries()).puts)
         == [ HourKey(stationKey, Mean), DayKey(stationKey, Mean),
              HourKey(stationKey, Min), DayKey(stationKey, Min),
              HourKey(stationKey, Max), DayKey(stationKey, Max),
              HourKey(stationKey, Sum), DayKey(stationKey, Sum) ]
  {
    var specs := Summaries();
    SummaryPutsShape(stationKey, raw, hourKeys, dayKeys, specs);
    var o := SummaryPuts(stationKey, raw, hourKeys, dayKeys, specs);
    forall j | 0 <= j < 4
      ensures o.puts[2 * j].0 == HourKey(stationKey, specs[j].0) && o.puts[2 * j + 1].0 == DayKey(stationKey, specs[j].0)
    {
      assert StepWritten(o.puts, j, stationKey, specs[j], raw, hourKeys, dayKeys);
    }
    StepKeys(o.puts, stationKey, specs);
  }

  lemma ExpectedKeysByName(stationKey: string, excludeRaw: bool)
    ensures ExpectedKeys(stationKey, excludeRaw)
         == (if excludeRaw then [] else [stationKey + "/res5min/raw"]) +
            [ stationKey + "/res1hour/mean", stationKey + "/res1day/mean",
              stationKey + "/res1hour/min", stationKey + "/res1day/min",
              stationKey + "/res1hour/max", stationKey + "/res1day/max",
              stationKey + "/res1hour/sum", stationKey + "/res1day/sum" ]
  {
    KeyNames(stationKey);
  }

  /** The raw table's put followed by the eight summary puts writes the expected keys. */
  lemma JobPartsKeys(stationKey: string, raw: Frame, excludeRaw: bool, summaryPuts: seq<(string, Frame)>)
    requires PutKeys(summaryPuts)
          == [ HourKey(stationKey, Mean), DayKey(stationKey, Mean),
               HourKey(stationKey, Min), DayKey(stationKey, Min),
               HourKey(stationKey, Max), DayKey(stationKey, Max),
               HourKey(stationKey, Sum), DayKey(stationKey, Sum) ]
    ensures PutKeys(RawPuts(stationKey, raw, excludeRaw) + summaryPuts) == ExpectedKeys(stationKey, excludeRaw)
  {
    var r := RawPuts(stationKey, raw, excludeRaw);
    PutKeysAppend(r, summaryPuts);
    assert PutKeys(r) == if excludeRaw then [] else [RawKey(stationKey)];
  }

  /** A successful job writes exactly the expected keys, in order. */
  lemma StationJobKeys(stationKey: string, raw: Frame, excludeRaw: bool)
    requires StationJob(stationKey, raw, excludeRaw).failure == None
    ensures PutKeys(StationJob(stationKey, raw, excludeRaw).puts) == ExpectedKeys(stationKey, excludeRaw)
  {
    var dayKeys := DayKeys(raw).value;
    SummaryKeys(stationKey, raw, HourKeys(raw), dayKeys);
    JobPartsKeys(stationKey, raw, excludeRaw, SummaryPuts(stationKey, raw, HourKeys(raw), dayKeys, Summaries()).puts);
  }

  /** When no key is put twice, every key put holds its frame afterwards. */
  lemma ApplyPutsDistinct(store: Store, puts: seq<(string, Frame)>)
    requires forall a, b :: 0 <= a < b < |puts| ==> puts[a].0 != puts[b].0
    ensures forall i :: 0 <= i < |puts| ==> puts[i].0 in ApplyPuts(store, puts) && ApplyPuts(store, puts)[puts[i].0] == puts[i].1
  {
    forall i | 0 <= i < |puts|
      ensures puts[i].0 in ApplyPuts(store, puts) && ApplyPuts(store, puts)[puts[i].0] == puts[i].1
    {
      ApplyPutsLast(store, puts, i);
    }
  }

  /** Where statistic `s` sits among the summary steps. */
  function StatPosition(s: Stat): nat
  {
    match s
    case Mean => 0
    case Min => 1
    case Max => 2
    case Sum => 3
  }

  /** The variables statistic `s` is computed for. */
  function StatVars(s: Stat): seq<string>
  {
    if s == Sum then SumVars else AllMeasureVars
  }

  lemma SummariesAt(s: Stat)
    ensures StatPosition(s) < |Summaries()| && Summaries()[StatPosition(s)] == (s, StatVars(s))
  {
  }

  /** The tables a successful job writes for statistic `s`. */
  lemma SummaryTablesOf(stationKey: string, raw: Frame, hourKeys: seq<int>, dayKeys: seq<int>, s: Stat)
    requires |hourKeys| == |raw.index| && |dayKeys| == |raw.index|
    requires SummaryPuts(stationKey, raw, hourKeys, dayKeys, Summaries()).failure == None
    ensures |SummaryPuts(stationKey, raw, hourKeys, dayKeys, Summaries()).puts| == 8
    ensures StepWritten(SummaryPuts(stationKey, raw, hourKeys, dayKeys, Summaries()).puts,
                        StatPosition(s), stationKey, (s, StatVars(s)), raw, hourKeys, dayKeys)
  {
    SummaryPutsShape(stationKey, raw, hourKeys, dayKeys, Summaries());
    SummariesAt(s);
  }

  /** A successful job never puts the same key twice. */
  lemma StationJobPutsDistinct(stationKey: string, raw: Frame, excludeRaw: bool)
    requires StationJob(stationKey, raw, excludeRaw).failure == None
    ensures var puts := StationJob(stationKey, raw, excludeRaw).puts;
      forall a, b :: 0 <= a < b < |puts| ==> puts[a].0 != puts[b].0
  {
    var puts := StationJob(stationKey, raw, excludeRaw).puts;
    StationJobKeys(stationKey, raw, excludeRaw);
    ExpectedKeysDistinct(stationKey, excludeRaw);
    assert forall a :: 0 <= a < |puts| ==> puts[a].0 == PutKeys(puts)[a];
  }

  /**
    After a successful job for one station the store holds exactly its
    former keys and the expected ones, and the raw frame, unless excluded,
    sits unchanged under the raw key.
  */
  lemma StationJobStoreKeys(store: Store, stationKey: string, raw: Frame, excludeRaw: bool)
    requires StationJob(stationKey, raw, excludeRaw).failure == None
    ensures forall k :: k in ApplyPuts(store, StationJob(stationKey, raw, excludeRaw).puts)
                    <==> k in store || k in ExpectedKeys(stationKey, excludeRaw)
    ensures !excludeRaw ==>
      stationKey + "/res5min/raw" in ApplyPuts(store, StationJob(stationKey, raw, excludeRaw).puts) &&
      ApplyPuts(store, StationJob(stationKey, raw, excludeRaw).puts)[stationKey + "/res5min/raw"] == raw
  {
    var puts := StationJob(stationKey, raw, excludeRaw).puts;
    ApplyPutsKeys(store, puts);
    StationJobKeys(stationKey, raw, excludeRaw);
    if !excludeRaw {
      StationJobWritesRawFirst(stationKey, raw, excludeRaw);
      StationJobPutsDistinct(stationKey, raw, excludeRaw);
      ApplyPutsLast(store, puts, 0);
    }
  }

  /**
    After a successful job for one station, the store holds the two tables
    the summary step of statistic `s` computed, under its hourly and its
    daily key.
  */
  lemma StationJobStoredSummaries(store: Store, stationKey: string, raw: Frame, excludeRaw: bool, s: Stat)
    requires StationJob(stationKey, raw, excludeRaw).failure == None
    ensures DayKeys(raw).Ok? && SummaryTables(raw, HourKeys(raw), DayKeys(raw).value, s, StatVars(s)).Ok?
    ensures var out := ApplyPuts(store, StationJob(stationKey, raw, excludeRaw).puts);
      var tables := SummaryTables(raw, HourKeys(raw), DayKeys(raw).value, s, StatVars(s)).value;
      HourKey(stationKey, s) in out && DayKey(stationKey, s) in out &&
      out[HourKey(stationKey, s)] == tables.0 && out[DayKey(stationKey, s)] == tables.1
  {
    var dayKeys := DayKeys(raw).value;
    var hourKeys := HourKeys(raw);
    var o := SummaryPuts(stationKey, raw, hourKeys, dayKeys, Summaries());
    var r := RawPuts(stationKey, raw, excludeRaw);
    var puts := StationJob(stationKey, raw, excludeRaw).puts;
    assert puts == r + o.puts;
    SummaryTablesOf(stationKey, raw, hourKeys, dayKeys, s);
    StationJobPutsDistinct(stationKey, raw, excludeRaw);
    StepStored(store, r, o.puts, StatPosition(s), stationKey, (s, StatVars(s)), raw, hourKeys, dayKeys);
  }

  /** The two tables of a step written after `front`, in a store where no key was put twice. */
  lemma StepStored(store: Store, front: seq<(string, Frame)>, puts: seq<(string, Frame)>, j: nat, stationKey: string,
                   spec: (Stat, seq<string>), raw: Frame, hourKeys: seq<int>, dayKeys: seq<int>)
    requires StepWritten(puts, j, stationKey, spec, raw, hourKeys, dayKeys)
    requires forall a, b :: 0 <= a < b < |front + puts| ==> (front + puts)[a].0 != (front + puts)[b].0
    ensures var out := ApplyPuts(store, front + puts);
      var tables := SummaryTables(raw, hourKeys, dayKeys, spec.0, spec.1).value;
      HourKey(stationKey, spec.0) in out && out[HourKey(stationKey, spec.0)] == tables.0 &&
      DayKey(stationKey, spec.0) in out && out[DayKey(stationKey, spec.0)] == tables.1
  {
    var i := |front| + 2 * j;
    assert (front + puts)[i] == puts[2 * j] && (front + puts)[i + 1] == puts[2 * j + 1];
    ApplyPutsLast(store, front + puts, i);
    ApplyPutsLast(store, front + puts, i + 1);
  }

  /**
    After a successful job for one station, the hourly and the daily table
    of every statistic are in the store. The mean, min and max tables have
    the nine measurement variables as columns and the sum tables only
    PRECIPITATION. Every hourly table is indexed by the distinct hour buckets
    of the readings and every daily table by their distinct local-day keys,
    in ascending order.
  */
  lemma StationJobStoreTables(store: Store, stationKey: string, raw: Frame, excludeRaw: bool, s: Stat)
    requires StationJob(stationKey, raw, excludeRaw).failure == None
    ensures DayKeys(raw).Ok?
    ensures var out := ApplyPuts(store, StationJob(stationKey, raw, excludeRaw).puts);
      HourKey(stationKey, s) in out && DayKey(stationKey, s) in out &&
      out[HourKey(stationKey, s)].columns == out[DayKey(stationKey, s)].columns ==
        (if s == Sum then ["PRECIPITATION"] else AllMeasureVars) &&
      Increasing(out[HourKey(stationKey, s)].index) && Increasing(out[DayKey(stationKey, s)].index)
    ensures forall x :: x in ApplyPuts(store, StationJob(stationKey, raw, excludeRaw).puts)[HourKey(stationKey, s)].index
                    <==> exists i :: 0 <= i < |raw.index| && x == HourBucket(raw.index[i])
    ensures forall x :: x in ApplyPuts(store, StationJob(stationKey, raw, excludeRaw).puts)[DayKey(stationKey, s)].index
                    <==> x in DayKeys(raw).value
  {
    StationJobStoredSummaries(store, stationKey, raw, excludeRaw, s);
    HourKeysMembers(raw);
  }

  /**
    After a successful job for one station, the hourly table of statistic
    `s` holds that statistic of each selected variable over the readings
    grouped by hour bucket, and the daily table the same over the readings
    grouped by local day.
  */
  lemma StationJobStoreCells(store: Store, stationKey: string, raw: Frame, excludeRaw: bool, s: Stat)
    requires StationJob(stationKey, raw, excludeRaw).failure == None
    ensures DayKeys(raw).Ok? && ColumnPositions(raw.columns, StatVars(s)).Ok?
    ensures var out := ApplyPuts(store, StationJob(stationKey, raw, excludeRaw).puts);
      var cols := ColumnPositions(raw.columns, StatVars(s)).value;
      HourKey(stationKey, s) in out && DayKey(stationKey, s) in out &&
      out[HourKey(stationKey, s)] == AggregateTable(SelectRows(raw, HourKeys(raw), cols), s, StatVars(s)) &&
      out[DayKey(stationKey, s)] == AggregateTable(SelectRows(raw, DayKeys(raw).value, cols), s, StatVars(s))
  {
    StationJobStoredSummaries(store, stationKey, raw, excludeRaw, s);
  }


  /** The keys a whole run writes when every station succeeds: each station's expected keys, station by station. */
  function RunKeys(stationKeys: seq<string>, n: nat, excludeRaw: bool): seq<string>
    requires n <= |stationKeys|
  {
    if n == 0 then []
    else RunKeys(stationKeys, n - 1, excludeRaw) + ExpectedKeys(stationKeys[n - 1], excludeRaw)
  }

  /** The keys of a run whose jobs each wrote their station's expected keys. */
  lemma {:induction false} RunJobsPutKeys(jobs: seq<(string, Outcome<JobError>)>, stationKeys: seq<string>, n: nat,
                                         excludeRaw: bool)
    requires n <= |jobs| == |stationKeys| && RunJobs(jobs, n).failure == None
    requires forall i :: 0 <= i < n ==> PutKeys(jobs[i].1.puts) == ExpectedKeys(stationKeys[i], excludeRaw)
    ensures PutKeys(RunJobs(jobs, n).puts) == RunKeys(stationKeys, n, excludeRaw)
  {
    if n > 0 {
      RunJobsPutKeys(jobs, stationKeys, n - 1, excludeRaw);
      PutKeysAppend(RunJobs(jobs, n - 1).puts, jobs[n - 1].1.puts);
    }
  }

  /** A run that reports no failure ran every station to completion and wrote each one's expected keys, station by station. */
  lemma RunJobsKeys(input: Store, stationKeys: seq<string>, excludeRaw: bool)
    requires forall k :: k in stationKeys ==> k in input
    requires RunJobs(StationJobs(input, stationKeys, excludeRaw), |stationKeys|).failure == None
    ensures forall i :: 0 <= i < |stationKeys| ==> StationJob(stationKeys[i], input[stationKeys[i]], excludeRaw).failure == None
    ensures PutKeys(RunJobs(StationJobs(input, stationKeys, excludeRaw), |stationKeys|).puts)
         == RunKeys(stationKeys, |stationKeys|, excludeRaw)
  {
    var jobs := StationJobs(input, stationKeys, excludeRaw);
    RunJobsFirstFailure(jobs, |jobs|);
    forall i | 0 <= i < |stationKeys|
      ensures StationJob(stationKeys[i], input[stationKeys[i]], excludeRaw).failure == None
      ensures PutKeys(jobs[i].1.puts) == ExpectedKeys(stationKeys[i], excludeRaw)
    {
      StationJobsAt(input, stationKeys, excludeRaw, i);
      StationJobKeys(stationKeys[i], input[stationKeys[i]], excludeRaw);
    }
    RunJobsPutKeys(jobs, stationKeys, |stationKeys|, excludeRaw);
  }

}
