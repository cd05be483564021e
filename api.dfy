/**
  The read side: the REST resources that list stations, list which
  statistics exist for each variable of a station, and return one variable
  of one stored table over a closed time range. The store is the map from
  hierarchical key to frame that the aggregation job writes.
*/
module Api {

  import opened Results
  import opened Seqs
  import opened Text
  import opened Calendar
  import opened Frames

  /** What makes a request fail (the exception the handler raises). */
  datatype ApiError =
    | KeyNotFound(key: string)   // a store key or a column that does not exist
    | MissingSegment             // a raw key with no '/' to split on
    | MissingArgument            // a request argument that was not given
    | BadStamp(text: string)     // a start or stop that is not `%Y%m%d%H%M`
    | UnsortedIndex              // range selection on an index that is not ascending
    | OutOfBoundsDatetime(at: int) // a range bound, in minutes, that no `Timestamp` can hold

  const Timesteps: seq<string> := ["5min", "1hour", "1day"]
  const Stats: seq<string> := ["raw", "sum", "min", "mean", "max"]

  /** `'/{}/res5min/raw'.format(station_name)` */
  function RawKey(name: string): string
  {
    "/" + name + "/res5min/raw"
  }

  /** `'/{}/res{}/{}'.format(station_name, timestep, stat)` */
  function TableKey(name: string, timestep: string, stat: string): string
  {
    "/" + name + "/res" + timestep + "/" + stat
  }

  // ---------------------------------------------------------------------
  // Stations.get

  function IsRawKey(key: string): bool
  {
    EndsWith(key, "raw")
  }

  /** `key.split('/')` has a second element exactly when the key contains a '/'. */
  lemma SplitHasTwo(key: string)
    ensures |Split(key, '/')| >= 2 <==> '/' in key
  {
    if '/' in key {
      JoinSplit(key, '/');
    } else {
      SplitPiece(key, '/');
    }
  }

  /** `key.split('/')[1]`, for a key that has a '/'. */
  function SecondSegment(key: string): (r: string)
    ensures '/' in key ==> |Split(key, '/')| >= 2 && r == Split(key, '/')[1]
  {
    SplitHasTwo(key);
    var parts := Split(key, '/');
    if |parts| >= 2 then parts[1] else ""
  }

  /**
    The station names: the second segment of every key ending in "raw",
    sorted; a raw key without a '/' has no second segment and fails the
    request.
  */
  function StationNames(listing: seq<string>): (r: Result<seq<string>, ApiError>)
    ensures r.Ok? ==> Sorted(r.value) && multiset(r.value) == multiset(Map(SecondSegment, Filter(IsRawKey, listing)))
    ensures r.Ok? ==> |r.value| == |Filter(IsRawKey, listing)|
    ensures r.Err? ==> exists k :: k in listing && IsRawKey(k) && '/' !in k
  {
    var raws := Filter(IsRawKey, listing);
    if exists i :: 0 <= i < |raws| && '/' !in raws[i] then Err(MissingSegment)
    else
      var segments := Map(SecondSegment, raws);
      assert |Sort(segments)| == |multiset(Sort(segments))| == |multiset(segments)|;
      Ok(Sort(segments))
  }

  /** Listing stations fails exactly when some key ending in "raw" has no '/'. */
  lemma StationNamesFails(listing: seq<string>)
    ensures StationNames(listing).Err? <==> exists k :: k in listing && IsRawKey(k) && '/' !in k
  {
    var raws := Filter(IsRawKey, listing);
    if exists k :: k in listing && IsRawKey(k) && '/' !in k {
      var k :| k in listing && IsRawKey(k) && '/' !in k;
      var j :| 0 <= j < |listing| && listing[j] == k;
      var i :| 0 <= i < |raws| && raws[i] == k;
    }
  }

  /**
    Otherwise the names come out sorted, one per key ending in "raw": each
    name as often as it is the second segment of such a key.
  */
  lemma StationNamesListed(listing: seq<string>)
    requires StationNames(listing).Ok?
    ensures Sorted(StationNames(listing).value)
    ensures multiset(StationNames(listing).value) == multiset(Map(SecondSegment, Filter(IsRawKey, listing)))
    ensures |StationNames(listing).value| == |Filter(IsRawKey, listing)|
    ensures forall name :: name in StationNames(listing).value <==>
      exists k :: k in listing && IsRawKey(k) && SecondSegment(k) == name
  {
    SegmentMembers(listing, StationNames(listing).value);
  }

  /** Names with the multiplicities of the keys' second segments are exactly those segments. */
  lemma SegmentMembers(listing: seq<string>, names: seq<string>)
    requires multiset(names) == multiset(Map(SecondSegment, Filter(IsRawKey, listing)))
    ensures forall name :: name in names <==> exists k :: k in listing && IsRawKey(k) && SecondSegment(k) == name
  {
    var raws := Filter(IsRawKey, listing);
    var segs := Map(SecondSegment, raws);
    forall name ensures name in names <==> exists k :: k in listing && IsRawKey(k) && SecondSegment(k) == name {
      if name in names {
        assert name in multiset(segs);
        var i :| 0 <= i < |segs| && segs[i] == name;
        assert raws[i] in listing;
      }
      if exists k :: k in listing && IsRawKey(k) && SecondSegment(k) == name {
        var k :| k in listing && IsRawKey(k) && SecondSegment(k) == name;
        var j :| 0 <= j < |listing| && listing[j] == k;
        var i :| 0 <= i < |raws| && raws[i] == k;
        assert segs[i] == name;
        assert name in multiset(names);
      }
    }
  }

  lemma SameRawKeysWithoutSlash(raws1: seq<string>, raws2: seq<string>)
    requires multiset(raws1) == multiset(raws2)
    ensures (exists i :: 0 <= i < |raws1| && '/' !in raws1[i]) <==> (exists i :: 0 <= i < |raws2| && '/' !in raws2[i])
  {
    if exists i :: 0 <= i < |raws1| && '/' !in raws1[i] {
      var i :| 0 <= i < |raws1| && '/' !in raws1[i];
      assert raws1[i] in multiset(raws2);
      var j :| 0 <= j < |raws2| && raws2[j] == raws1[i];
    }
    if exists i :: 0 <= i < |raws2| && '/' !in raws2[i] {
      var i :| 0 <= i < |raws2| && '/' !in raws2[i];
      assert raws2[i] in multiset(raws1);
      var j :| 0 <= j < |raws1| && raws1[j] == raws2[i];
    }
  }

  /** The station list does not depend on the order in which the store lists its keys. */
  lemma StationNamesOrderIndependent(listing1: seq<string>, listing2: seq<string>)
    requires multiset(listing1) == multiset(listing2)
    ensures StationNames(listing1) == StationNames(listing2)
  {
    var raws1, raws2 := Filter(IsRawKey, listing1), Filter(IsRawKey, listing2);
    FilterPermutation(IsRawKey, listing1, listing2);
    SameRawKeysWithoutSlash(raws1, raws2);
    MapPermutation(SecondSegment, raws1, raws2);
    SortPermutation(Map(SecondSegment, raws1), Map(SecondSegment, raws2));
  }

  /** A raw key gives back the station name it was built from, when the name has no '/'. */
  lemma RawKeyRoundTrip(name: string)
    requires '/' !in name
    ensures IsRawKey(RawKey(name))
    ensures Split(RawKey(name), '/') == ["", name, "res5min", "raw"]
    ensures SecondSegment(RawKey(name)) == name
  {
    var parts := ["", name, "res5min", "raw"];
    JoinFour("", name, "res5min", "raw", '/');
    RawKeyParts(name);
    assert forall i :: 0 <= i < |parts| ==> '/' !in parts[i];
    SplitJoin(parts, '/');
  }

  lemma JoinFour(a: string, b: string, c: string, d: string, sep: char)
    ensures Join([a, b, c, d], sep) == a + [sep] + (b + [sep] + (c + [sep] + d))
  {
    var parts := [a, b, c, d];
    assert parts[1..] == [b, c, d] && parts[1..][1..] == [c, d] && parts[1..][1..][1..] == [d];
    assert Join([c, d], sep) == c + [sep] + d;
    assert Join([b, c, d], sep) == b + [sep] + (c + [sep] + d);
  }

  lemma RawKeyParts(name: string)
    ensures RawKey(name) == "" + ['/'] + (name + ['/'] + ("res5min" + ['/'] + "raw"))
  {
  }

  // ---------------------------------------------------------------------
  // Station.get

  /** Statistic `stat` is listed: its table exists and has `variable` as a column. */
  function StatPresent(store: Store, name: string, variable: string, timestep: string): string -> bool
  {
    stat => TableKey(name, timestep, stat) in store && variable in store[TableKey(name, timestep, stat)].columns
  }

  /** The statistics listed for one variable and timestep: those present, in the order of `Stats`. */
  function AvailableStats(store: Store, name: string, variable: string, timestep: string): (r: seq<string>)
    ensures forall i :: 0 <= i < |r| ==>
      r[i] in Stats && TableKey(name, timestep, r[i]) in store && variable in store[TableKey(name, timestep, r[i])].columns
    ensures forall i :: 0 <= i < |Stats| ==>
      (TableKey(name, timestep, Stats[i]) in store && variable in store[TableKey(name, timestep, Stats[i])].columns
       ==> Stats[i] in r)
  {
    Filter(StatPresent(store, name, variable, timestep), Stats)
  }

  /** For every variable, the timestep-to-statistics lists. */
  type StatLists = map<string, map<string, seq<string>>>

  /** A variable's entry is complete: all three timesteps, each with its available statistics. */
  ghost predicate Complete(store: Store, name: string, variable: string, entry: map<string, seq<string>>)
  {
    Tabulates(entry, Timesteps, StatsFor(store, name, variable))
  }

  /** A timestep's available statistics, as a function of the timestep. */
  ghost function StatsFor(store: Store, name: string, variable: string): string -> seq<string>
  {
    ts => AvailableStats(store, name, variable, ts)
  }

  /** `m` has exactly the keys `keys`, and maps each to its image under `f`. */
  ghost predicate Tabulates<V>(m: map<string, V>, keys: seq<string>, f: string -> V)
  {
    (forall k :: k in m <==> k in keys) && (forall k :: k in m ==> m[k] == f(k))
  }

  /** Recording `keys[j]` extends a map tabulated over `keys[..j]` to `keys[..j + 1]`. */
  lemma TabulatesStep<V>(m: map<string, V>, keys: seq<string>, j: nat, f: string -> V)
    requires j < |keys| && Tabulates(m, keys[..j], f)
    ensures Tabulates(m[keys[j] := f(keys[j])], keys[..j + 1], f)
  {
    PrefixStep(keys, j);
  }

  lemma FilterStep(p: string -> bool, s: seq<string>, k: nat)
    requires k < |s|
    ensures Filter(p, s[..k + 1]) == Filter(p, s[..k]) + (if p(s[k]) then [s[k]] else [])
  {
    assert s[..k + 1] == s[..k] + [s[k]];
    FilterAppend(p, s[..k], [s[k]]);
    assert Filter(p, [s[k]]) == (if p(s[k]) then [s[k]] else []) by {
      assert [s[k]][1..] == [];
    }
  }

  /**
    The statistics available per variable and timestep: fails when the raw
    table is missing; otherwise every column of the raw table gets all three
    timesteps, each listing the statistics whose table exists and has that
    column, in the fixed order raw, sum, min, mean, max. The handler appends
    to the lists through `data[variable][timestep]`; here each list and each
    per-variable map is built in a local and stored when complete, which
    gives the same nested map.
  */
  method StationStats(store: Store, name: string) returns (r: Result<StatLists, ApiError>)
    ensures RawKey(name) !in store ==> r == Err(KeyNotFound(RawKey(name)))
    ensures RawKey(name) in store ==> r.Ok?
    ensures r.Ok? ==> forall v :: v in r.value <==> v in store[RawKey(name)].columns
    ensures r.Ok? ==> forall v :: v in r.value ==> Complete(store, name, v, r.value[v])
  {
    var rawKey := RawKey(name);
    if rawKey !in store {
      return Err(KeyNotFound(rawKey));
    }
    var variables := store[rawKey].columns;
    var data: StatLists := map[];
    var i := 0;
    while i < |variables|
      invariant 0 <= i <= |variables|
      invariant forall v :: v in data <==> v in variables[..i]
      invariant forall v :: v in data ==> Complete(store, name, v, data[v])
    {
      var variable := variables[i];
      var entry := TimestepLists(store, name, variable);
      data := data[variable := entry];
      PrefixStep(variables, i);
      i := i + 1;
    }
    assert variables[..i] == variables;
    return Ok(data);
  }

  /** The inner two loops of the handler for one variable. */
  method TimestepLists(store: Store, name: string, variable: string) returns (entry: map<string, seq<string>>)
    ensures Complete(store, name, variable, entry)
  {
    entry := map[];
    var j := 0;
    while j < |Timesteps|
      invariant 0 <= j <= |Timesteps|
      invariant Tabulates(entry, Timesteps[..j], StatsFor(store, name, variable))
    {
      var timestep := Timesteps[j];
      var list := StatList(store, name, variable, timestep);
      TabulatesStep(entry, Timesteps, j, StatsFor(store, name, variable));
      entry := entry[timestep := list];
      j := j + 1;
    }
    assert Timesteps[..j] == Timesteps;
  }

  /** The innermost loop: a statistic is appended when its table exists and has the column. */
  method StatList(store: Store, name: string, variable: string, timestep: string) returns (list: seq<string>)
    ensures list == AvailableStats(store, name, variable, timestep)
  {
    list := [];
    var k := 0;
    while k < |Stats|
      invariant 0 <= k <= |Stats|
      invariant list == Filter(StatPresent(store, name, variable, timestep), Stats[..k])
    {
      var stat := Stats[k];
      var key := TableKey(name, timestep, stat);
      FilterStep(StatPresent(store, name, variable, timestep), Stats, k);
      // a missing table is skipped, as the handler's `except: continue` does
      if key in store && variable in store[key].columns {
        list := list + [stat];
      }
      k := k + 1;
    }
    assert Stats[..k] == Stats;
  }

  /** What a listed statistic means, and that the fixed order raw, sum, min, mean, max is kept. */
  lemma AvailableStatsSpec(store: Store, name: string, variable: string, timestep: string)
    ensures forall stat :: stat in AvailableStats(store, name, variable, timestep) <==>
      stat in Stats && TableKey(name, timestep, stat) in store && variable in store[TableKey(name, timestep, stat)].columns
    ensures Ranked(AvailableStats(store, name, variable, timestep), |Stats|)
  {
    var p := StatPresent(store, name, variable, timestep);
    var r := AvailableStats(store, name, variable, timestep);
    forall stat | stat in r
      ensures stat in Stats && p(stat)
    {
      var i :| 0 <= i < |r| && r[i] == stat;
    }
    forall stat | stat in Stats && p(stat)
      ensures stat in r
    {
      var i :| 0 <= i < |Stats| && Stats[i] == stat;
    }
    RankedPrefix(p, |Stats|);
    assert Stats[..|Stats|] == Stats;
  }

  /** A statistic's place in the fixed order raw, sum, min, mean, max. */
  function StatRank(stat: string): nat
  {
    if stat == "raw" then 0
    else if stat == "sum" then 1
    else if stat == "min" then 2
    else if stat == "mean" then 3
    else 4
  }

  /** `s` is in strictly increasing rank, every rank below `bound`. */
  predicate Ranked(s: seq<string>, bound: nat)
  {
    (forall a, b :: 0 <= a < b < |s| ==> StatRank(s[a]) < StatRank(s[b])) &&
    (forall a :: 0 <= a < |s| ==> StatRank(s[a]) < bound)
  }

  lemma StatRanks(k: nat)
    requires k < |Stats|
    ensures StatRank(Stats[k]) == k
  {
  }

  lemma RankedAppend(s: seq<string>, bound: nat, x: string)
    requires Ranked(s, bound) && StatRank(x) == bound
    ensures Ranked(s + [x], bound + 1)
  {
    var t := s + [x];
    assert forall a :: 0 <= a < |s| ==> t[a] == s[a];
  }

  lemma {:induction false} RankedPrefix(p: string -> bool, k: nat)
    requires k <= |Stats|
    ensures Ranked(Filter(p, Stats[..k]), k)
  {
    if k > 0 {
      RankedPrefix(p, k - 1);
      FilterStep(p, Stats, k - 1);
      StatRanks(k - 1);
      var s := Filter(p, Stats[..k - 1]);
      if p(Stats[k - 1]) {
        RankedAppend(s, k - 1, Stats[k - 1]);
      }
    }
  }

  // ---------------------------------------------------------------------
  // StationQuery.get

  /** The request arguments; each may be absent. */
  datatype QueryArgs = QueryArgs(start: Option<string>, stop: Option<string>, timestep: Option<string>, stat: Option<string>)

  /** The response fields: the stat is echoed as given (absent stays absent), the timestep with its `res` prefix. */
  datatype QueryResponse = QueryResponse(
    stationName: string, variable: string, stat: Option<string>, timestep: string,
    dates: seq<int>, values: seq<real>)

  /** How `'{}'.format(stat)` renders the stat argument: an absent one becomes `None`. */
  function StatText(stat: Option<string>): string
  {
    match stat
    case None => "None"
    case Some(s) => s
  }

  /**
    `datetime.strptime(arg, '%Y%m%d%H%M')`, as minutes since the epoch: an
    argument is accepted exactly when it writes some valid date and time as
    twelve digits, and then it stands for that minute.
  */
  function StampArg(arg: Option<string>): (r: Result<int, ApiError>)
    ensures r.Ok? <==> arg.Some? && exists t :: ValidDateTime(t) && arg.value == FormatStamp(t)
    ensures forall t :: ValidDateTime(t) && arg == Some(FormatStamp(t)) ==> r == Ok(Minutes(t))
    ensures r.Err? ==> r.error == if arg.None? then MissingArgument else BadStamp(arg.value)
  {
    match arg
    case None => Err(MissingArgument)
    case Some(text) =>
      StampsWritten(text);
      match ParseStamp(text)
      case None => Err(BadStamp(text))
      case Some(t) => Ok(Minutes(t))
  }

  /** The texts the parser accepts are exactly the written valid stamps, each read back as the stamp it writes. */
  lemma StampsWritten(text: string)
    ensures ParseStamp(text).Some? <==> exists t :: ValidDateTime(t) && text == FormatStamp(t)
    ensures forall t :: ValidDateTime(t) && text == FormatStamp(t) ==> ParseStamp(text) == Some(t)
  {
    forall t | ValidDateTime(t) && text == FormatStamp(t)
      ensures ParseStamp(text) == Some(t)
    {
      ParseFormatStamp(t);
    }
    if ParseStamp(text).Some? {
      FormatParseStamp(text);
    }
  }

  /**
    pandas' nanosecond `Timestamp` range at minute resolution: `Timestamp.min`
    is 1677-09-21 00:12:43.145224193 and `Timestamp.max` is 2262-04-11
    23:47:16.854775807, so the whole minutes inside it run from 00:13 on the
    first day to 23:47 on the last.
  */
  const FirstTimestamp: DateTime := DateTime(Date(1677, 9, 21), 0, 13)
  const LastTimestamp: DateTime := DateTime(Date(2262, 4, 11), 23, 47)

  /** Whether `.loc` can turn a range bound, in minutes, into a `Timestamp`. */
  predicate InTimestampRange(m: int)
  {
    Minutes(FirstTimestamp) <= m <= Minutes(LastTimestamp)
  }

  /** A date-time is in range exactly when it lies between the first and the last representable minute. */
  lemma InTimestampRangeMeaning(t: DateTime)
    requires ValidDateTime(t)
    ensures InTimestampRange(Minutes(t)) <==> !BeforeTime(t, FirstTimestamp) && !BeforeTime(LastTimestamp, t)
  {
    MinutesMonotone(t, FirstTimestamp);
    MinutesMonotone(LastTimestamp, t);
  }

  /** The store key the handler reads: `'/{}/{}/{}'.format(station_name, 'res' + timestep, stat)`. */
  function QueryKey(name: string, timestep: string, stat: Option<string>): string
  {
    "/" + name + "/" + ("res" + timestep) + "/" + StatText(stat)
  }

  lemma QueryKeyIsTableKey(name: string, timestep: string, stat: string)
    ensures QueryKey(name, timestep, Some(stat)) == TableKey(name, timestep, stat)
  {
  }

  /** The index never decreases (pandas' `is_monotonic_increasing`). */
  predicate Ascending(index: seq<int>)
  {
    forall i, j :: 0 <= i < j < |index| ==> index[i] <= index[j]
  }

  /** `index.searchsorted(x, side='left')` on an ascending index: the first position whose entry is at least `x`. */
  function LowerBound(index: seq<int>, x: int): (lo: nat)
    ensures lo <= |index|
    ensures forall j :: 0 <= j < lo ==> index[j] < x
    ensures lo < |index| ==> x <= index[lo]
  {
    if index == [] || x <= index[0] then 0 else 1 + LowerBound(index[1..], x)
  }

  /** `index.searchsorted(x, side='right')` on an ascending index: the first position whose entry exceeds `x`. */
  function UpperBound(index: seq<int>, x: int): (hi: nat)
    ensures hi <= |index|
    ensures forall j :: 0 <= j < hi ==> index[j] <= x
    ensures hi < |index| ==> x < index[hi]
  {
    if index == [] || x < index[0] then 0 else 1 + UpperBound(index[1..], x)
  }

  function Max(a: nat, b: nat): nat
  {
    if a < b then b else a
  }

  /**
    `store[key].loc[start:stop][variable]`: the rows of an ascending index from
    the first at or after `start` through the last at or before `stop`
    (none when `stop` comes first), as dates and the variable's values.
  */
  function Query(store: Store, name: string, variable: string, args: QueryArgs): (r: Result<QueryResponse, ApiError>)
    ensures r.Ok? ==> |r.value.dates| == |r.value.values|
    ensures r.Ok? ==> r.value.stationName == name && r.value.variable == variable && r.value.stat == args.stat
  {
    if args.timestep.None? then Err(MissingArgument)
    else
      match StampArg(args.start)
      case Err(e) => Err(e)
      case Ok(start) =>
        match StampArg(args.stop)
        case Err(e) => Err(e)
        case Ok(stop) => QueryWindow(store, name, variable, args.stat, args.timestep.value, start, stop)
  }

  /** The part of `Query` after both stamps have parsed: the table lookup and the slice. */
  function QueryWindow(store: Store, name: string, variable: string, stat: Option<string>, timestep: string,
                       start: int, stop: int): (r: Result<QueryResponse, ApiError>)
    ensures r.Ok? ==> |r.value.dates| == |r.value.values|
    ensures r.Ok? ==> r.value.stationName == name && r.value.variable == variable && r.value.stat == stat
  {
    var key := QueryKey(name, timestep, stat);
    if key !in store then Err(KeyNotFound(key))
    else if !InTimestampRange(start) then Err(OutOfBoundsDatetime(start))
    else if !InTimestampRange(stop) then Err(OutOfBoundsDatetime(stop))
    else
      var t := store[key];
      if !Ascending(t.index) then Err(UnsortedIndex)
      else
        match ColumnIndex(t.columns, variable)
        case None => Err(KeyNotFound(variable))
        case Some(c) =>
          var lo := LowerBound(t.index, start);
          var hi := Max(lo, UpperBound(t.index, stop));
          Ok(QueryResponse(name, variable, stat, "res" + timestep, t.index[lo..hi], ColumnValues(t, c)[lo..hi]))
  }

  /**
    A query succeeds exactly when the timestep, start and stop are given,
    start and stop parse, the table exists, both bounds are within the
    `Timestamp` range, its index is ascending and it has the variable; the
    failures are checked in that order.
  */
  lemma QuerySucceeds(store: Store, name: string, variable: string, args: QueryArgs)
    ensures Query(store, name, variable, args).Ok? <==>
      args.timestep.Some? && StampArg(args.start).Ok? && StampArg(args.stop).Ok? &&
      QueryKey(name, args.timestep.value, args.stat) in store &&
      InTimestampRange(StampArg(args.start).value) && InTimestampRange(StampArg(args.stop).value) &&
      Ascending(store[QueryKey(name, args.timestep.value, args.stat)].index) &&
      variable in store[QueryKey(name, args.timestep.value, args.stat)].columns
    ensures args.timestep.None? ==> Query(store, name, variable, args) == Err(MissingArgument)
    ensures args.timestep.Some? && StampArg(args.start).Err? ==>
      Query(store, name, variable, args) == Err(StampArg(args.start).error)
    ensures args.timestep.Some? && StampArg(args.start).Ok? && StampArg(args.stop).Err? ==>
      Query(store, name, variable, args) == Err(StampArg(args.stop).error)
    ensures (args.timestep.Some? && StampArg(args.start).Ok? && StampArg(args.stop).Ok? &&
             QueryKey(name, args.timestep.value, args.stat) !in store) ==>
      Query(store, name, variable, args) == Err(KeyNotFound(QueryKey(name, args.timestep.value, args.stat)))
    ensures (args.timestep.Some? && StampArg(args.start).Ok? && StampArg(args.stop).Ok? &&
             QueryKey(name, args.timestep.value, args.stat) in store &&
             !(InTimestampRange(StampArg(args.start).value) && InTimestampRange(StampArg(args.stop).value))) ==>
      Query(store, name, variable, args) ==
        Err(OutOfBoundsDatetime(if InTimestampRange(StampArg(args.start).value) then StampArg(args.stop).value
                                else StampArg(args.start).value))
  {
  }

  /**
    A stop that `strptime` accepts but that lies past the last `Timestamp`
    fails the query on an existing table, whatever its rows.
  */
  lemma LateStopOutOfBounds(store: Store, name: string, variable: string, args: QueryArgs, t: DateTime)
    requires ValidDateTime(t) && BeforeTime(LastTimestamp, t)
    requires args.timestep.Some? && args.stop == Some(FormatStamp(t))
    requires StampArg(args.start).Ok? && InTimestampRange(StampArg(args.start).value)
    requires QueryKey(name, args.timestep.value, args.stat) in store
    ensures Query(store, name, variable, args) == Err(OutOfBoundsDatetime(Minutes(t)))
  {
    InTimestampRangeMeaning(t);
    QuerySucceeds(store, name, variable, args);
  }

  /** `999912312359` is such a stop: 9999-12-31 23:59, a valid date-time past the last `Timestamp`. */
  lemma LateStopExample()
    ensures var t := DateTime(Date(9999, 12, 31), 23, 59);
      ValidDateTime(t) && BeforeTime(LastTimestamp, t) && FormatStamp(t) == "9999" + "12" + "31" + "23" + "59"
  {
    assert FormatDigits(9999, 4) == "9999";
    assert FormatDigits(12, 2) == "12";
    assert FormatDigits(31, 2) == "31";
    assert FormatDigits(23, 2) == "23";
    assert FormatDigits(59, 2) == "59";
  }

  /** Dates paired with their values, row by row. */
  function Zip(dates: seq<int>, values: seq<real>): (r: seq<(int, real)>)
    requires |dates| == |values|
    ensures |r| == |dates|
  {
    seq(|dates|, i requires 0 <= i < |dates| => (dates[i], values[i]))
  }

  /** The rows a closed range `start..stop` keeps. */
  function InRange(start: int, stop: int): ((int, real)) -> bool
  {
    (row: (int, real)) => start <= row.0 <= stop
  }

  /**
    On an ascending index, the slice between the two search positions holds
    exactly the rows whose date lies in the closed range, in stored order.
  */
  lemma {:induction false} SliceIsFilter(rows: seq<(int, real)>, index: seq<int>, start: int, stop: int)
    requires |rows| == |index| && Ascending(index)
    requires forall i :: 0 <= i < |rows| ==> rows[i].0 == index[i]
    ensures LowerBound(index, start) <= Max(LowerBound(index, start), UpperBound(index, stop)) <= |rows|
    ensures rows[LowerBound(index, start)..Max(LowerBound(index, start), UpperBound(index, stop))]
         == Filter(InRange(start, stop), rows)
  {
    if rows != [] {
      var tail, itail := rows[1..], index[1..];
      assert Ascending(itail);
      SliceIsFilter(tail, itail, start, stop);
      var p := InRange(start, stop);
      var lo', hi' := LowerBound(itail, start), UpperBound(itail, stop);
      var lo, hi := LowerBound(index, start), UpperBound(index, stop);
      assert Filter(p, rows) == (if p(rows[0]) then [rows[0]] else []) + Filter(p, tail);
      assert p(rows[0]) <==> start <= index[0] <= stop;
      assert itail != [] ==> index[0] <= itail[0];
      assert rows[0].0 == index[0];
      SliceStep(rows, index, start, stop);
    }
  }

  /** How the two search positions in a non-empty index relate to those in its tail. */
  lemma BoundsStep(index: seq<int>, start: int, stop: int)
    requires |index| > 0
    requires |index| > 1 ==> index[0] <= index[1]
    ensures var lo', hi' := LowerBound(index[1..], start), UpperBound(index[1..], stop);
      var lo, hi := LowerBound(index, start), UpperBound(index, stop);
      (index[0] < start ==> lo == 1 + lo' && Max(lo, hi) == 1 + Max(lo', hi')) &&
      (start <= index[0] <= stop ==> lo == 0 && lo' == 0 && hi == 1 + hi') &&
      (start <= index[0] && stop < index[0] ==> lo == 0 && hi == 0 && lo' == 0 && hi' == 0)
  {
    var itail := index[1..];
    if stop < index[0] && itail != [] {
      assert stop < itail[0];
    }
    if start <= index[0] && itail != [] {
      assert start <= itail[0];
    }
  }

  /** How the slice of a non-empty table relates to the slice of its tail. */
  lemma SliceStep(rows: seq<(int, real)>, index: seq<int>, start: int, stop: int)
    requires |rows| == |index| > 0
    requires |index| > 1 ==> index[0] <= index[1]
    ensures var lo', hi' := LowerBound(index[1..], start), UpperBound(index[1..], stop);
      var lo, hi := LowerBound(index, start), UpperBound(index, stop);
      rows[lo..Max(lo, hi)] ==
        (if start <= index[0] <= stop then [rows[0]] else []) + rows[1..][lo'..Max(lo', hi')]
  {
    BoundsStep(index, start, stop);
    var lo', hi' := LowerBound(index[1..], start), UpperBound(index[1..], stop);
    var lo, hi := LowerBound(index, start), UpperBound(index, stop);
    SliceShift(rows, lo, Max(lo, hi), lo', Max(lo', hi'), start <= index[0] <= stop);
  }

  /** A slice of a non-empty sequence as its first element, when kept, followed by a slice of its tail. */
  lemma SliceShift<T>(rows: seq<T>, lo: nat, m: nat, lo': nat, m': nat, keep: bool)
    requires 0 < |rows| && lo <= m <= |rows| && lo' <= m' < |rows|
    requires keep ==> lo == 0 && lo' == 0 && m == 1 + m'
    requires !keep ==> (lo == 1 + lo' && m == 1 + m') || (lo == m && lo' == m')
    ensures rows[lo..m] == (if keep then [rows[0]] else []) + rows[1..][lo'..m']
  {
    if keep {
      assert rows[0..1 + m'] == [rows[0]] + rows[1..][0..m'];
    } else if lo == 1 + lo' && m == 1 + m' {
      TailSlice(rows, lo', m');
    }
  }

  /**
    A successful query returns exactly the rows of the table whose date lies
    between start and stop inclusive, in stored order, each date with the
    variable's value in that row.
  */
  lemma QueryRange(store: Store, name: string, variable: string, args: QueryArgs)
    requires Query(store, name, variable, args).Ok?
    ensures var t := store[QueryKey(name, args.timestep.value, args.stat)];
      variable in t.columns &&
      Zip(Query(store, name, variable, args).value.dates, Query(store, name, variable, args).value.values)
        == Filter(InRange(StampArg(args.start).value, StampArg(args.stop).value),
                  Zip(t.index, ColumnValues(t, ColumnIndex(t.columns, variable).value)))
    ensures Query(store, name, variable, args).value.timestep == "res" + args.timestep.value
  {
    QuerySlice(store, name, variable, args);
    var t := store[QueryKey(name, args.timestep.value, args.stat)];
    SlicedRange(t.index, ColumnValues(t, ColumnIndex(t.columns, variable).value),
                StampArg(args.start).value, StampArg(args.stop).value);
  }

  /** On an ascending index, pairing the sliced dates with the sliced values keeps exactly the rows in range. */
  lemma SlicedRange(index: seq<int>, values: seq<real>, start: int, stop: int)
    requires |index| == |values| && Ascending(index)
    ensures var lo := LowerBound(index, start);
      var hi := Max(lo, UpperBound(index, stop));
      lo <= hi <= |index| &&
      Zip(index[lo..hi], values[lo..hi]) == Filter(InRange(start, stop), Zip(index, values))
  {
    var rows := Zip(index, values);
    SliceIsFilter(rows, index, start, stop);
    var lo := LowerBound(index, start);
    ZipSlice(index, values, lo, Max(lo, UpperBound(index, stop)));
  }

  /** A successful query returns exactly the table's index entries that lie in the closed range. */
  lemma QueryDates(store: Store, name: string, variable: string, args: QueryArgs)
    requires Query(store, name, variable, args).Ok?
    ensures forall x :: x in Query(store, name, variable, args).value.dates <==>
      x in store[QueryKey(name, args.timestep.value, args.stat)].index &&
      StampArg(args.start).value <= x <= StampArg(args.stop).value
  {
    QuerySucceeds(store, name, variable, args);
    QuerySlice(store, name, variable, args);
    SliceMembers(store[QueryKey(name, args.timestep.value, args.stat)].index,
                 StampArg(args.start).value, StampArg(args.stop).value);
  }

  /** On an ascending index, the entries between the two search positions are those in the closed range. */
  lemma SliceMembers(index: seq<int>, start: int, stop: int)
    requires Ascending(index)
    ensures var lo := LowerBound(index, start);
      forall x :: x in index[lo..Max(lo, UpperBound(index, stop))] <==> x in index && start <= x <= stop
  {
    var lo := LowerBound(index, start);
    var hi := Max(lo, UpperBound(index, stop));
    SlicePositions(index, start, stop);
    RangeSlice(index, lo, hi, start, stop);
  }

  /** A slice holding exactly the positions whose entries are in range holds exactly the entries in range. */
  lemma RangeSlice(index: seq<int>, lo: nat, hi: nat, start: int, stop: int)
    requires lo <= hi <= |index|
    requires forall k :: 0 <= k < |index| ==> (lo <= k < hi <==> start <= index[k] <= stop)
    ensures forall x :: x in index[lo..hi] <==> x in index && start <= x <= stop
  {
    forall x ensures x in index[lo..hi] <==> x in index && start <= x <= stop {
      if x in index[lo..hi] {
        var k :| 0 <= k < hi - lo && index[lo..hi][k] == x;
        assert index[lo + k] == x;
      }
      if x in index && start <= x <= stop {
        var k :| 0 <= k < |index| && index[k] == x;
        assert index[lo..hi][k - lo] == x;
      }
    }
  }

  /** On an ascending index, a position lies between the two search positions exactly when its entry is in range. */
  lemma SlicePositions(index: seq<int>, start: int, stop: int)
    requires Ascending(index)
    ensures var lo := LowerBound(index, start);
      var hi := Max(lo, UpperBound(index, stop));
      forall k :: 0 <= k < |index| ==> (lo <= k < hi <==> start <= index[k] <= stop)
  {
    var lo := LowerBound(index, start);
    var ub := UpperBound(index, stop);
    forall j | lo <= j < |index| ensures start <= index[j] {
      assert start <= index[lo] <= index[j];
    }
    forall j | ub <= j < |index| ensures stop < index[j] {
      assert stop < index[ub] <= index[j];
    }
  }

  /** Slicing both columns and then pairing them is slicing the pairs. */
  lemma ZipSlice(dates: seq<int>, values: seq<real>, lo: nat, hi: nat)
    requires |dates| == |values| && lo <= hi <= |dates|
    ensures Zip(dates[lo..hi], values[lo..hi]) == Zip(dates, values)[lo..hi]
  {
  }

  /** A successful query's dates and values: the table's rows between the two search positions. */
  lemma QuerySlice(store: Store, name: string, variable: string, args: QueryArgs)
    requires Query(store, name, variable, args).Ok?
    ensures var t := store[QueryKey(name, args.timestep.value, args.stat)];
      var lo := LowerBound(t.index, StampArg(args.start).value);
      var hi := Max(lo, UpperBound(t.index, StampArg(args.stop).value));
      var r := Query(store, name, variable, args).value;
      Ascending(t.index) && ColumnIndex(t.columns, variable).Some? && hi <= |t.index| &&
      r.dates == t.index[lo..hi] && r.values == ColumnValues(t, ColumnIndex(t.columns, variable).value)[lo..hi] &&
      r.timestep == "res" + args.timestep.value
  {
    QueryIsWindow(store, name, variable, args);
    WindowSlice(store, name, variable, args.stat, args.timestep.value,
                StampArg(args.start).value, StampArg(args.stop).value);
  }

  /** A successful query parsed all three arguments and is the window lookup on the parsed bounds. */
  lemma QueryIsWindow(store: Store, name: string, variable: string, args: QueryArgs)
    requires Query(store, name, variable, args).Ok?
    ensures args.timestep.Some? && StampArg(args.start).Ok? && StampArg(args.stop).Ok?
    ensures Query(store, name, variable, args) ==
      QueryWindow(store, name, variable, args.stat, args.timestep.value, StampArg(args.start).value, StampArg(args.stop).value)
  {
  }

  /** A successful window lookup returns the table's rows between the two search positions. */
  lemma WindowSlice(store: Store, name: string, variable: string, stat: Option<string>, timestep: string,
                    start: int, stop: int)
    requires QueryWindow(store, name, variable, stat, timestep, start, stop).Ok?
    ensures var t := store[QueryKey(name, timestep, stat)];
      var lo := LowerBound(t.index, start);
      var hi := Max(lo, UpperBound(t.index, stop));
      var r := QueryWindow(store, name, variable, stat, timestep, start, stop).value;
      Ascending(t.index) && ColumnIndex(t.columns, variable).Some? && hi <= |t.index| &&
      r.dates == t.index[lo..hi] && r.values == ColumnValues(t, ColumnIndex(t.columns, variable).value)[lo..hi] &&
      r.timestep == "res" + timestep
  {
  }

}
