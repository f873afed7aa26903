/**
 * The zeroed month buckets both statistics handlers create before counting
 * when a year or month filter is given: one `'YYYY-MM'` key per selected
 * (year, month) pair, each named after that month. `datetime(year, month, 1)`
 * is built for every pair, so a year or month it refuses fails the request.
 */
module MonthSeeds {
  import opened Wrappers
  import opened Calendar
  import opened IsoDate
  import opened PyInt
  import opened Payload
  import opened EntryQuery

  /** `datetime(int(text), m, 1)` accepts the year: `int()` reads it and it lies in 1..9999. */
  function YearValue(text: string): (r: Option<int>)
    ensures r.Some? ==> 1 <= r.value <= 9999
  {
    if ParsesAsInt(text) && 1 <= IntValue(text) <= 9999 then Some(IntValue(text)) else None
  }

  /** `datetime(y, int(text), 1)` accepts the month. */
  function MonthValue(text: string): (r: Option<int>)
    ensures r.Some? ==> 1 <= r.value <= 12
  {
    if ParsesAsInt(text) && 1 <= IntValue(text) <= 12 then Some(IntValue(text)) else None
  }

  /** `f"{year}-{month:02d}"`. */
  function MonthKey(year: string, month: int): string
    requires 1 <= month <= 12
  {
    year + "-" + Pad2(month)
  }

  /** The month key of a stored date: the year unpadded as `str()` writes it, the month with two digits. */
  function DateKey(d: Date): string
    requires ValidDate(d) && 1 <= d.year
  {
    MonthKey(Show(d.year), d.month)
  }

  /** A `(month_key, month_name)` pair; the name is the month and year it spells. */
  datatype Seed = Seed(key: string, year: int, month: int)

  /** Distinct (year text, month) pairs have distinct keys. */
  lemma MonthKeyInjective(y1: string, m1: int, y2: string, m2: int)
    requires 1 <= m1 <= 12 && 1 <= m2 <= 12
    requires MonthKey(y1, m1) == MonthKey(y2, m2)
    ensures y1 == y2 && m1 == m2
  {
    var k := MonthKey(y1, m1);
    assert |y1| == |y2|;
    assert y1 == k[..|y1|] == y2;
    assert Pad2(m1) == k[|y1| + 1..] == Pad2(m2);
    Pad2Value(m1);
    Pad2Value(m2);
  }

  /** A date filed under a seeded key belongs to that seed's month. */
  lemma DateKeyMatchesSeed(d: Date)
    requires ValidDate(d) && 1 <= d.year <= 9999
    ensures YearValue(Show(d.year)) == Some(d.year)
    ensures DateKey(d) == MonthKey(Show(d.year), d.month)
  {
    ShowRoundTrip(d.year);
  }

  /** The pairs the nested loops visit have none that `datetime` refuses. */
  predicate AllValid(years: seq<(string, Option<int>)>, months: seq<Option<int>>) {
    && (|months| > 0 ==> forall i :: 0 <= i < |years| ==> years[i].1.Some?)
    && (|years| > 0 ==> forall j :: 0 <= j < |months| ==> months[j].Some?)
  }

  /** The pairs of one year have none that `datetime` refuses. */
  predicate RowValid(year: (string, Option<int>), months: seq<Option<int>>) {
    (|months| > 0 ==> year.1.Some?) && forall j :: 0 <= j < |months| ==> months[j].Some?
  }

  /** `s` is the seed of the pair (year, m), both accepted by `datetime`. */
  predicate PairSeed(year: (string, Option<int>), m: Option<int>, s: Seed) {
    year.1.Some? && m.Some? && 1 <= m.value <= 12
    && s == Seed(MonthKey(year.0, m.value), year.1.value, m.value)
  }

  /** A seed of the pair (years[i], months[j]). */
  predicate SeedOf(years: seq<(string, Option<int>)>, months: seq<Option<int>>, s: Seed) {
    exists i, j :: 0 <= i < |years| && 0 <= j < |months| && PairSeed(years[i], months[j], s)
  }

  predicate MonthsInRange(months: seq<Option<int>>) {
    forall j :: 0 <= j < |months| && months[j].Some? ==> 1 <= months[j].value <= 12
  }

  /** The seeds of one year, in the order of `months`. */
  function RowSeeds(year: (string, Option<int>), months: seq<Option<int>>): (r: seq<Seed>)
    requires MonthsInRange(months) && RowValid(year, months)
    ensures |r| == |months|
    decreases |months|
  {
    if |months| == 0 then []
    else
      var init := months[..|months| - 1];
      var m := months[|months| - 1];
      RowSeeds(year, init) + [Seed(MonthKey(year.0, m.value), year.1.value, m.value)]
  }

  /** The seeds of all pairs, in the order of the nested loops. */
  function AllSeeds(years: seq<(string, Option<int>)>, months: seq<Option<int>>): seq<Seed>
    requires MonthsInRange(months) && AllValid(years, months)
    decreases |years|
  {
    if |years| == 0 then []
    else
      assert AllValid(years[..|years| - 1], months) && RowValid(years[|years| - 1], months);
      AllSeeds(years[..|years| - 1], months) + RowSeeds(years[|years| - 1], months)
  }

  lemma {:induction false} RowSeedsMembers(year: (string, Option<int>), months: seq<Option<int>>, s: Seed)
    requires MonthsInRange(months) && RowValid(year, months)
    ensures s in RowSeeds(year, months) <==> exists j :: 0 <= j < |months| && PairSeed(year, months[j], s)
    decreases |months|
  {
    if |months| > 0 {
      var init := months[..|months| - 1];
      assert RowValid(year, init);
      RowSeedsMembers(year, init, s);
      if s in RowSeeds(year, init) {
        var j :| 0 <= j < |init| && PairSeed(year, init[j], s);
        assert months[j] == init[j];
      }
      if exists j :: 0 <= j < |months| && PairSeed(year, months[j], s) {
        var j :| 0 <= j < |months| && PairSeed(year, months[j], s);
        if j < |init| {
          assert months[j] == init[j];
        }
      }
    }
  }

  /** A pair's seed comes from the earlier years or from the last one. */
  lemma SeedOfSplit(years: seq<(string, Option<int>)>, months: seq<Option<int>>, s: Seed)
    requires |years| > 0
    ensures SeedOf(years, months, s) <==>
              SeedOf(years[..|years| - 1], months, s)
              || exists j :: 0 <= j < |months| && PairSeed(years[|years| - 1], months[j], s)
  {
    var init := years[..|years| - 1];
    if SeedOf(years, months, s) {
      var i, j :| 0 <= i < |years| && 0 <= j < |months| && PairSeed(years[i], months[j], s);
      if i < |init| {
        assert init[i] == years[i];
      }
    }
    if SeedOf(init, months, s) {
      var i, j :| 0 <= i < |init| && 0 <= j < |months| && PairSeed(init[i], months[j], s);
      assert years[i] == init[i];
    }
  }

  /** The seeds listed are exactly the seeds of the pairs. */
  lemma {:induction false} AllSeedsMembers(years: seq<(string, Option<int>)>, months: seq<Option<int>>, s: Seed)
    requires MonthsInRange(months) && AllValid(years, months)
    ensures s in AllSeeds(years, months) <==> SeedOf(years, months, s)
    decreases |years|
  {
    if |years| > 0 {
      var init := years[..|years| - 1];
      var y := years[|years| - 1];
      assert AllValid(init, months) && RowValid(y, months);
      assert AllSeeds(years, months) == AllSeeds(init, months) + RowSeeds(y, months);
      AllSeedsMembers(init, months, s);
      RowSeedsMembers(y, months, s);
      SeedOfSplit(years, months, s);
    }
  }

  /**
   * `for year in years: for month in months: selected_months.add(...)`: the
   * pairs' seeds, or None when `datetime` refuses a pair.
   */
  method SeedPairs(years: seq<(string, Option<int>)>, months: seq<Option<int>>) returns (seeds: Option<seq<Seed>>)
    requires MonthsInRange(months)
    ensures seeds.None? <==> !AllValid(years, months)
    ensures seeds.Some? ==> AllValid(years, months) && seeds.value == AllSeeds(years, months)
  {
    var found: seq<Seed> := [];
    var i := 0;
    while i < |years|
      invariant 0 <= i <= |years|
      invariant AllValid(years[..i], months)
      invariant found == AllSeeds(years[..i], months)
    {
      assert years[..i + 1][..i] == years[..i] && years[..i + 1][i] == years[i];
      var row := SeedRow(years[i], months);
      if row.None? {
        assert years[i] in years;
        return None;
      }
      found := found + row.value;
      i := i + 1;
    }
    assert years[..i] == years;
    seeds := Some(found);
  }

  /** The inner loop, over the months of one year. */
  method SeedRow(year: (string, Option<int>), months: seq<Option<int>>) returns (row: Option<seq<Seed>>)
    requires MonthsInRange(months)
    ensures row.None? <==> !RowValid(year, months)
    ensures row.Some? ==> RowValid(year, months) && row.value == RowSeeds(year, months)
  {
    var found: seq<Seed> := [];
    var j := 0;
    while j < |months|
      invariant 0 <= j <= |months|
      invariant RowValid(year, months[..j])
      invariant found == RowSeeds(year, months[..j])
    {
      if year.1.None? || months[j].None? {
        return None;
      }
      assert months[..j + 1][..j] == months[..j];
      found := found + [Seed(MonthKey(year.0, months[j].value), year.1.value, months[j].value)];
      j := j + 1;
    }
    assert months[..j] == months;
    row := Some(found);
  }

  /** `range(1, 13)`. */
  const EveryMonth: seq<Option<int>> := [Some(1), Some(2), Some(3), Some(4), Some(5), Some(6),
                                         Some(7), Some(8), Some(9), Some(10), Some(11), Some(12)]

  /** A year given without months is seeded with all twelve, under twelve different keys. */
  lemma TwelvePerYear(years: seq<(string, Option<int>)>, i: int)
    requires 0 <= i < |years| && years[i].1.Some?
    ensures forall m :: 1 <= m <= 12 ==>
              SeedOf(years, EveryMonth, Seed(MonthKey(years[i].0, m), years[i].1.value, m))
    ensures forall m, n :: 1 <= m < n <= 12 ==> MonthKey(years[i].0, m) != MonthKey(years[i].0, n)
  {
    forall m | 1 <= m <= 12
      ensures SeedOf(years, EveryMonth, Seed(MonthKey(years[i].0, m), years[i].1.value, m))
    {
      assert PairSeed(years[i], EveryMonth[m - 1], Seed(MonthKey(years[i].0, m), years[i].1.value, m));
    }
    forall m, n | 1 <= m < n <= 12
      ensures MonthKey(years[i].0, m) != MonthKey(years[i].0, n)
    {
      if MonthKey(years[i].0, m) == MonthKey(years[i].0, n) {
        MonthKeyInjective(years[i].0, m, years[i].0, n);
      }
    }
  }

  /** With both lists given, the seeds are one per (year, month) pair, and different pairs have different keys. */
  lemma OnePerPair(years: seq<(string, Option<int>)>, months: seq<Option<int>>, s: Seed, t: Seed)
    requires MonthsInRange(months)
    requires forall i :: 0 <= i < |years| ==> years[i].1 == YearValue(years[i].0)
    requires SeedOf(years, months, s) && SeedOf(years, months, t)
    requires s.key == t.key
    ensures s == t
  {
    var i1, j1 :| 0 <= i1 < |years| && 0 <= j1 < |months| && PairSeed(years[i1], months[j1], s);
    var i2, j2 :| 0 <= i2 < |years| && 0 <= j2 < |months| && PairSeed(years[i2], months[j2], t);
    MonthKeyInjective(years[i1].0, months[j1].value, years[i2].0, months[j2].value);
  }

  /** The given years with the value `int()` reads from each. */
  function YearsGiven(years: seq<string>): (r: seq<(string, Option<int>)>)
    ensures |r| == |years| && forall i :: 0 <= i < |years| ==> r[i] == (years[i], YearValue(years[i]))
  {
    seq(|years|, i requires 0 <= i < |years| => (years[i], YearValue(years[i])))
  }

  function MonthsGiven(months: seq<string>): (r: seq<Option<int>>)
    ensures |r| == |months| && forall j :: 0 <= j < |months| ==> r[j] == MonthValue(months[j])
    ensures MonthsInRange(r)
  {
    seq(|months|, j requires 0 <= j < |months| => MonthValue(months[j]))
  }

  /** The year one entry contributes: its stored date's year, or None where reading the date raises. */
  function EntryYear(entry: Data): (r: Option<(string, Option<int>)>)
    ensures r.None? <==> StoredDate(entry, "1900-01-01").None?
    ensures r.Some? ==> var y := StoredDate(entry, "1900-01-01").value.year; r.value == (Show(y), Some(y))
  {
    match StoredDate(entry, "1900-01-01")
    case None => None
    case Some(d) => Some((Show(d.year), Some(d.year)))
  }

  /** `set(convert_date_string(entry.get('date', '1900-01-01')).year for entry in entries)`, or None where one raises. */
  function DataYears(entries: seq<Data>): (r: Option<seq<(string, Option<int>)>>)
    ensures r.Some? ==> |r.value| == |entries|
    ensures r.Some? ==> forall i :: 0 <= i < |entries| ==> EntryYear(entries[i]) == Some(r.value[i])
    ensures r.None? <==> exists i :: 0 <= i < |entries| && EntryYear(entries[i]).None?
  {
    if forall i :: 0 <= i < |entries| ==> EntryYear(entries[i]).Some? then
      Some(seq(|entries|, i requires 0 <= i < |entries| && EntryYear(entries[i]).Some? => EntryYear(entries[i]).value))
    else None
  }

  /** The years `get_stats` loops over: the given ones, else for months alone the years present in the entries. */
  function LoopYears(years: seq<string>, months: seq<string>, entries: seq<Data>): Option<seq<(string, Option<int>)>> {
    if |years| > 0 then Some(YearsGiven(years))
    else if |months| > 0 then DataYears(entries)
    else Some([])
  }

  /** The months it pairs them with: the given ones, else all twelve. */
  function LoopMonths(years: seq<string>, months: seq<string>): (r: seq<Option<int>>)
    ensures MonthsInRange(r)
  {
    if |months| > 0 then MonthsGiven(months)
    else if |years| > 0 then EveryMonth
    else []
  }

  /** The selection of months to seed in `get_stats`, or None where building one of them raises. */
  method SelectMonths(years: seq<string>, months: seq<string>, entries: seq<Data>) returns (seeds: Option<seq<Seed>>)
    ensures var ly := LoopYears(years, months, entries);
            seeds.None? <==> ly.None? || !AllValid(ly.value, LoopMonths(years, months))
    ensures seeds.Some? ==> forall s :: s in seeds.value <==>
              SeedOf(LoopYears(years, months, entries).value, LoopMonths(years, months), s)
  {
    var ly := LoopYears(years, months, entries);
    if ly.None? {
      return None;
    }
    var lm := LoopMonths(years, months);
    seeds := SeedPairs(ly.value, lm);
    if seeds.Some? {
      forall s
        ensures s in seeds.value <==> SeedOf(ly.value, lm, s)
      {
        AllSeedsMembers(ly.value, lm, s);
      }
    }
  }

  /** With both lists given, seeding fails exactly when a year or a month is refused. */
  lemma BothGivenFailsIff(years: seq<string>, months: seq<string>, entries: seq<Data>)
    requires |years| > 0 && |months| > 0
    ensures !AllValid(LoopYears(years, months, entries).value, LoopMonths(years, months)) <==>
              (exists i :: 0 <= i < |years| && YearValue(years[i]).None?)
              || (exists j :: 0 <= j < |months| && MonthValue(months[j]).None?)
  {
  }

  /** With months alone and no entries, nothing is seeded and nothing fails, whatever the months say. */
  lemma MonthsAloneWithoutEntries(months: seq<string>)
    ensures LoopYears([], months, []) == Some([])
    ensures AllValid([], LoopMonths([], months))
  {
  }
}
