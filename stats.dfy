/**
 * `get_stats`: the chart statistics over the stored entries that pass its
 * filters. Every kept entry adds to the quality, punctuality, PRB and HIIM
 * distributions, to its application's count and to the bucket of its month;
 * buckets of the selected months exist even when empty, and the monthly list
 * comes out sorted by key. A quality, PRB or HIIM status that is not one of
 * the distribution's keys raises `KeyError`, which the handler answers with 500.
 */
module Stats {
  import opened Wrappers
  import opened Text
  import opened Calendar
  import opened IsoDate
  import opened PyInt
  import opened Payload
  import opened EntryQuery
  import opened Tables
  import opened MonthSeeds

  /** The query-string arguments; `years` and `months` are `getlist` results. */
  datatype StatsQuery = StatsQuery(
    startDate: Option<string>, endDate: Option<string>, application: Option<string>,
    qualityStatus: Option<string>, prbOnly: Option<string>, hiimOnly: Option<string>,
    years: seq<string>, months: seq<string>)

  /** The year and month filters: `str(date.year) in years`, `str(date.month) in months`. */
  function PeriodAdmit(row: Data, years: seq<string>, months: seq<string>): Admission {
    if |years| == 0 && |months| == 0 then Keep
    else
      var d := StoredDate(row, "");
      if d.None? then Fail
      else if |years| > 0 && Show(d.value.year) !in years then Skip
      else if |months| > 0 && Show(d.value.month) !in months then Skip
      else Keep
  }

  /** The filter loop of `get_stats`, each test in the handler's order. */
  function StatsAdmit(row: Data, q: StatsQuery): Admission {
    var window := Admit(row, Query(q.startDate, q.endDate, None, None, None, None));
    var period := PeriodAdmit(row, q.years, q.months);
    var others := Admit(row, Query(None, None, q.application, q.qualityStatus, None, None));
    if window != Keep then window
    else if period != Keep then period
    else if others != Keep then others
    else if q.prbOnly == Some("true") && !Truthy(GetOr(row, "prb_id_number", Null)) then Skip
    else if q.hiimOnly == Some("true") && !Truthy(GetOr(row, "hiim_id_number", Null)) then Skip
    else Keep
  }

  /** The stats filter stated without its order. */
  predicate StatsSelected(row: Data, q: StatsQuery) {
    var d := StoredDate(row, "");
    && Selected(row, Query(q.startDate, q.endDate, q.application, q.qualityStatus, None, None))
    && ((|q.years| > 0 || |q.months| > 0) ==> d.Some?)
    && (|q.years| > 0 && d.Some? ==> Show(d.value.year) in q.years)
    && (|q.months| > 0 && d.Some? ==> Show(d.value.month) in q.months)
    && (q.prbOnly == Some("true") ==> Truthy(GetOr(row, "prb_id_number", Null)))
    && (q.hiimOnly == Some("true") ==> Truthy(GetOr(row, "hiim_id_number", Null)))
  }

  /** A row is counted exactly when it meets every given filter. */
  lemma StatsKeepIffSelected(row: Data, q: StatsQuery)
    ensures StatsAdmit(row, q) == Keep <==> StatsSelected(row, q)
  {
    KeepIffSelected(row, Query(q.startDate, q.endDate, None, None, None, None));
    KeepIffSelected(row, Query(None, None, q.application, q.qualityStatus, None, None));
  }

  /** Unlike `get_entries`, `prb_only` must be exactly "true", and only the legacy PRB id counts. */
  lemma PrbOnlyIsLegacyOnly(row: Data, q: StatsQuery)
    requires q.prbOnly == Some("true") && !Truthy(GetOr(row, "prb_id_number", Null))
    ensures StatsAdmit(row, q) != Keep
  {
  }

  /** What the filter loop does with each row. */
  function Verdicts(rows: seq<Data>, q: StatsQuery): (r: seq<Admission>)
    ensures |r| == |rows| && forall i :: 0 <= i < |rows| ==> r[i] == StatsAdmit(rows[i], q)
  {
    seq(|rows|, i requires 0 <= i < |rows| => StatsAdmit(rows[i], q))
  }

  /** The rows whose verdict is Keep, in their stored order. */
  function KeptBy(rows: seq<Data>, verdicts: seq<Admission>): (r: seq<Data>)
    requires |verdicts| == |rows|
    ensures |r| <= |rows|
    decreases |rows|
  {
    if |rows| == 0 then []
    else KeptBy(rows[..|rows| - 1], verdicts[..|rows| - 1]) + (if verdicts[|rows| - 1] == Keep then [rows[|rows| - 1]] else [])
  }

  lemma {:induction false} KeptByMembers(rows: seq<Data>, verdicts: seq<Admission>, x: Data)
    requires |verdicts| == |rows|
    ensures x in KeptBy(rows, verdicts) <==> exists i :: 0 <= i < |rows| && rows[i] == x && verdicts[i] == Keep
    decreases |rows|
  {
    if |rows| > 0 {
      var n := |rows| - 1;
      var init, vinit := rows[..n], verdicts[..n];
      KeptByMembers(init, vinit, x);
      if x in KeptBy(init, vinit) {
        var i :| 0 <= i < n && init[i] == x && vinit[i] == Keep;
        assert rows[i] == x && verdicts[i] == Keep;
      }
      if exists i :: 0 <= i < |rows| && rows[i] == x && verdicts[i] == Keep {
        var i :| 0 <= i < |rows| && rows[i] == x && verdicts[i] == Keep;
        if i < n {
          assert init[i] == x && vinit[i] == Keep;
        }
      }
    }
  }

  /** The rows the filter loop appends. */
  function StatsKept(rows: seq<Data>, q: StatsQuery): seq<Data> {
    KeptBy(rows, Verdicts(rows, q))
  }

  /** Exactly the rows that pass every filter are counted, and nothing that is not stored. */
  lemma StatsKeptMembers(rows: seq<Data>, q: StatsQuery, x: Data)
    ensures x in StatsKept(rows, q) <==> exists i :: 0 <= i < |rows| && rows[i] == x && StatsAdmit(x, q) == Keep
  {
    KeptByMembers(rows, Verdicts(rows, q), x);
  }

  /** The loop over precomputed verdicts: the kept rows, or None at the first Fail. */
  method KeepAdmitted(rows: seq<Data>, verdicts: seq<Admission>) returns (filtered: Option<seq<Data>>)
    requires |verdicts| == |rows|
    ensures filtered.None? <==> exists i :: 0 <= i < |rows| && verdicts[i] == Fail
    ensures filtered.Some? ==> filtered.value == KeptBy(rows, verdicts)
  {
    var kept: seq<Data> := [];
    var i := 0;
    while i < |rows|
      invariant 0 <= i <= |rows|
      invariant kept == KeptBy(rows[..i], verdicts[..i])
      invariant forall j :: 0 <= j < i ==> verdicts[j] != Fail
    {
      assert rows[..i + 1][..i] == rows[..i] && verdicts[..i + 1][..i] == verdicts[..i];
      if verdicts[i] == Fail {
        return None;
      }
      if verdicts[i] == Keep {
        kept := kept + [rows[i]];
      }
      i := i + 1;
    }
    assert rows[..i] == rows && verdicts[..i] == verdicts;
    filtered := Some(kept);
  }

  /** The filter loop of `get_stats`: the kept rows, or None when a row raises. */
  method FilterStats(rows: seq<Data>, q: StatsQuery) returns (filtered: Option<seq<Data>>)
    ensures filtered.None? <==> exists i :: 0 <= i < |rows| && StatsAdmit(rows[i], q) == Fail
    ensures filtered.Some? ==> filtered.value == StatsKept(rows, q)
  {
    var verdicts := Verdicts(rows, q);
    filtered := KeepAdmitted(rows, verdicts);
  }

  datatype Color = Red | Yellow | Green
  datatype IdState = Active | Closed

  /** One counter of the distributions, and of every month bucket. */
  datatype Slot = Quality(c: Color) | Punctuality(p: Color) | Prb(s: IdState) | Hiim(h: IdState)

  /** The distribution key a status names, if it is one. */
  function ColorNamed(v: Value): Option<Color> {
    if v == Str("Red") then Some(Red)
    else if v == Str("Yellow") then Some(Yellow)
    else if v == Str("Green") then Some(Green)
    else None
  }

  function StateNamed(v: Value): Option<IdState> {
    if v == Str("active") then Some(Active)
    else if v == Str("closed") then Some(Closed)
    else None
  }

  /**
   * The colour a truthy `prc_mail_status` counts as: Red, red and late count as
   * Red; Green, green and on-time as Green; every other status as Yellow.
   */
  function PunctualityColor(v: Value): (c: Color)
    ensures c == Red <==> v == Str("Red") || v == Str("red") || v == Str("late")
    ensures c == Green <==> v == Str("Green") || v == Str("green") || v == Str("on-time")
    ensures c == Yellow <==>
              !(v == Str("Red") || v == Str("red") || v == Str("late")
                || v == Str("Green") || v == Str("green") || v == Str("on-time"))
  {
    if v == Str("Red") || v == Str("red") then Red
    else if v == Str("Yellow") || v == Str("yellow") || v == Str("warning") then Yellow
    else if v == Str("Green") || v == Str("green") || v == Str("on-time") then Green
    else if v == Str("late") then Red
    else Yellow
  }

  /** The counters one entry adds to, or None when a status is not a key of its distribution. */
  function EntrySlots(row: Data): (r: Option<set<Slot>>)
    ensures r.Some? ==> r.value <= AllSlots
  {
    var quality := GetOr(row, "quality_status", Null);
    var punctuality := GetOr(row, "prc_mail_status", Null);
    var prb := GetOr(row, "prb_id_status", Null);
    var hiim := GetOr(row, "hiim_id_status", Null);
    if Truthy(quality) && ColorNamed(quality).None? then None
    else if Truthy(prb) && StateNamed(prb).None? then None
    else if Truthy(hiim) && StateNamed(hiim).None? then None
    else
      Some((if Truthy(quality) then {Quality(ColorNamed(quality).value)} else {})
           + (if Truthy(punctuality) then {Punctuality(PunctualityColor(punctuality))} else {})
           + (if Truthy(prb) then {Prb(StateNamed(prb).value)} else {})
           + (if Truthy(hiim) then {Hiim(StateNamed(hiim).value)} else {}))
  }

  /** The counters a report fills: the ten keys of the four distribution dicts. */
  const AllSlots: set<Slot> := {Quality(Red), Quality(Yellow), Quality(Green),
                                Punctuality(Red), Punctuality(Yellow), Punctuality(Green),
                                Prb(Active), Prb(Closed), Hiim(Active), Hiim(Closed)}

  /** The four distributions (or one bucket's four), as one dict over the counters. */
  type Counts = map<Slot, nat>

  const NoCounts: Counts := map s | s in AllSlots :: 0

  function Get<S>(counts: map<S, nat>, s: S): nat {
    if s in counts then counts[s] else 0
  }

  /** Every counter named in `slots` goes up by one, the others stay. */
  function Add<S(!new)>(counts: map<S, nat>, slots: set<S>): (r: map<S, nat>)
    ensures forall s :: Get(r, s) == Get(counts, s) + (if s in slots then 1 else 0)
    ensures r.Keys == counts.Keys + slots
  {
    map s | s in counts.Keys + slots :: Get(counts, s) + (if s in slots then 1 else 0)
  }

  /** Sorting the buckets keeps every sum, every key and every bucket. */
  lemma Rearranged<S>(t: Table<Bucket<S>>, u: Table<Bucket<S>>)
    requires multiset(u) == multiset(t)
    ensures forall s :: SumSlot(u, s) == SumSlot(t, s)
    ensures KeysKept(t, u)
    ensures forall i :: 0 <= i < |u| ==> u[i] in t
  {
    forall s
      ensures SumSlot(u, s) == SumSlot(t, s)
    {
      SumSlotPermute(u, t, s);
    }
    forall k: string | HasKey(t, k)
      ensures HasKey(u, k)
    {
      var j :| 0 <= j < |t| && t[j].0 == k;
      assert t[j] in multiset(u);
      var m :| 0 <= m < |u| && u[m] == t[j];
    }
    forall i | 0 <= i < |u|
      ensures u[i] in t
    {
      assert u[i] in multiset(t);
    }
  }

  /** The month key an entry is counted under, with the month and year of its name; None where its date raises. */
  function EntryMonth(row: Data): (r: Option<(string, int, int)>)
    ensures r.Some? ==> 1 <= r.value.2 <= 12
  {
    var d := StoredDate(row, "1900-01-01");
    if d.None? then None else Some((DateKey(d.value), d.value.year, d.value.month))
  }

  /** `entry.get('application_name', 'Unknown')`. */
  function AppName(row: Data): Value {
    GetOr(row, "application_name", Str("Unknown"))
  }

  /** What the counting loop reads from one entry: its month, its counters and its application name. */
  datatype EntryTally = EntryTally(month: Option<(string, int, int)>, slots: Option<set<Slot>>, app: Value)

  function TallyOf(row: Data): EntryTally {
    EntryTally(EntryMonth(row), EntrySlots(row), AppName(row))
  }

  function TallyAll(rows: seq<Data>): (r: seq<EntryTally>)
    ensures |r| == |rows| && forall i :: 0 <= i < |rows| ==> r[i] == TallyOf(rows[i])
  {
    seq(|rows|, i requires 0 <= i < |rows| => TallyOf(rows[i]))
  }

  lemma TallyAllPrefix(rows: seq<Data>, n: nat)
    requires n <= |rows|
    ensures TallyAll(rows[..n]) == TallyAll(rows)[..n]
  {
  }

  /** The month and counters of every entry, for the month buckets. */
  function Marks(ts: seq<EntryTally>): (r: seq<Mark<Slot>>)
    ensures |r| == |ts|
    ensures forall i :: 0 <= i < |ts| ==> r[i].month == ts[i].month
    ensures forall i :: 0 <= i < |ts| && ts[i].slots.Some? ==> r[i].adds == ts[i].slots.value
  {
    seq(|ts|, i requires 0 <= i < |ts| => Mark(ts[i].month, if ts[i].slots.Some? then ts[i].slots.value else {}))
  }

  /** Counting the entry raises: its date cannot be read, a status is not a key, or its name cannot be a key. */
  predicate Raises(e: EntryTally) {
    e.month.None? || e.slots.None? || e.app.List? || e.app.Object?
  }

  predicate CountBreaks(row: Data) {
    Raises(TallyOf(row))
  }

  /** How many of the entries add to counter `s`. */
  function CountSlot(ts: seq<EntryTally>, s: Slot): nat
    decreases |ts|
  {
    if |ts| == 0 then 0
    else
      var slots := ts[|ts| - 1].slots;
      CountSlot(ts[..|ts| - 1], s) + (if slots.Some? && s in slots.value then 1 else 0)
  }

  /** How many of the entries are counted under application name `a`. */
  function CountApp(ts: seq<EntryTally>, a: Value): nat
    decreases |ts|
  {
    if |ts| == 0 then 0 else CountApp(ts[..|ts| - 1], a) + (if ts[|ts| - 1].app == a then 1 else 0)
  }

  /** How many of the rows have a truthy value under `k`. */
  function CountTruthy(rows: seq<Data>, k: string): nat
    decreases |rows|
  {
    if |rows| == 0 then 0
    else CountTruthy(rows[..|rows| - 1], k) + (if Truthy(GetOr(rows[|rows| - 1], k, Null)) then 1 else 0)
  }

  function Indicator(b: bool): nat {
    if b then 1 else 0
  }

  /** An entry adds to exactly one punctuality counter when its status is truthy, else to none. */
  lemma PunctualityOfRow(row: Data)
    requires EntrySlots(row).Some?
    ensures var slots := EntrySlots(row).value;
            Indicator(Punctuality(Red) in slots) + Indicator(Punctuality(Yellow) in slots)
            + Indicator(Punctuality(Green) in slots) == Indicator(Truthy(GetOr(row, "prc_mail_status", Null)))
  {
  }

  lemma QualityOfRow(row: Data)
    requires EntrySlots(row).Some?
    ensures var slots := EntrySlots(row).value;
            Indicator(Quality(Red) in slots) + Indicator(Quality(Yellow) in slots)
            + Indicator(Quality(Green) in slots) == Indicator(Truthy(GetOr(row, "quality_status", Null)))
  {
  }

  /** The three punctuality totals add up to the number of entries with a truthy PRC mail status. */
  lemma {:induction false} PunctualityTotals(rows: seq<Data>)
    requires forall i :: 0 <= i < |rows| ==> EntrySlots(rows[i]).Some?
    ensures var ts := TallyAll(rows);
            CountSlot(ts, Punctuality(Red)) + CountSlot(ts, Punctuality(Yellow)) + CountSlot(ts, Punctuality(Green))
            == CountTruthy(rows, "prc_mail_status")
    decreases |rows|
  {
    if |rows| > 0 {
      var init := rows[..|rows| - 1];
      assert forall i :: 0 <= i < |init| ==> init[i] == rows[i];
      TallyAllPrefix(rows, |rows| - 1);
      PunctualityTotals(init);
      PunctualityOfRow(rows[|rows| - 1]);
    }
  }

  /** So do the quality totals, for the entries with a truthy quality status. */
  lemma {:induction false} QualityTotals(rows: seq<Data>)
    requires forall i :: 0 <= i < |rows| ==> EntrySlots(rows[i]).Some?
    ensures var ts := TallyAll(rows);
            CountSlot(ts, Quality(Red)) + CountSlot(ts, Quality(Yellow)) + CountSlot(ts, Quality(Green))
            == CountTruthy(rows, "quality_status")
    decreases |rows|
  {
    if |rows| > 0 {
      var init := rows[..|rows| - 1];
      assert forall i :: 0 <= i < |init| ==> init[i] == rows[i];
      TallyAllPrefix(rows, |rows| - 1);
      QualityTotals(init);
      QualityOfRow(rows[|rows| - 1]);
    }
  }

  /** A truthy quality status other than Red, Yellow and Green is a `KeyError`. */
  lemma UnknownQualityRaises(row: Data)
    requires Truthy(GetOr(row, "quality_status", Null))
    requires ColorNamed(GetOr(row, "quality_status", Null)).None?
    ensures CountBreaks(row)
  {
  }

  /** A month bucket: the month and year its name spells, and its counters. */
  datatype Bucket<S> = Bucket(year: int, month: int, counts: map<S, nat>)

  /** The sum of counter `s` over all buckets. */
  function SumSlot<S>(t: Table<Bucket<S>>, s: S): nat
    decreases |t|
  {
    if |t| == 0 then 0 else SumSlot(t[..|t| - 1], s) + Get(t[|t| - 1].1.counts, s)
  }

  lemma {:induction false} SumSlotConcat<S>(t: Table<Bucket<S>>, u: Table<Bucket<S>>, s: S)
    ensures SumSlot(t + u, s) == SumSlot(t, s) + SumSlot(u, s)
    decreases |u|
  {
    if |u| == 0 {
      assert t + u == t;
    } else {
      assert (t + u)[..|t + u| - 1] == t + u[..|u| - 1];
      SumSlotConcat(t, u[..|u| - 1], s);
    }
  }

  lemma SumSlotOne<S>(item: (string, Bucket<S>), s: S)
    ensures SumSlot([item], s) == Get(item.1.counts, s)
  {
    assert [item][..0] == [];
  }

  /** Replacing one bucket changes the sum by the difference. */
  lemma SumSlotUpdate<S>(t: Table<Bucket<S>>, k: nat, item: (string, Bucket<S>), s: S)
    requires k < |t|
    ensures SumSlot(t[k := item], s) + Get(t[k].1.counts, s) == SumSlot(t, s) + Get(item.1.counts, s)
  {
    var before, after := t[..k], t[k + 1..];
    assert t == before + [t[k]] + after;
    assert t[k := item] == before + [item] + after;
    SumSlotConcat(before + [t[k]], after, s);
    SumSlotConcat(before, [t[k]], s);
    SumSlotConcat(before + [item], after, s);
    SumSlotConcat(before, [item], s);
    SumSlotOne(t[k], s);
    SumSlotOne(item, s);
  }

  lemma SumSlotAppend<S>(t: Table<Bucket<S>>, item: (string, Bucket<S>), s: S)
    ensures SumSlot(t + [item], s) == SumSlot(t, s) + Get(item.1.counts, s)
  {
    assert (t + [item])[..|t|] == t;
  }

  /** Taking out one bucket takes out its counter. */
  lemma SumSlotRemove<S>(before: Table<Bucket<S>>, x: (string, Bucket<S>), after: Table<Bucket<S>>, s: S)
    ensures SumSlot(before + [x] + after, s) == SumSlot(before + after, s) + Get(x.1.counts, s)
  {
    SumSlotConcat(before + [x], after, s);
    SumSlotAppend(before, x, s);
    SumSlotConcat(before, after, s);
  }

  lemma MultisetRemove<T>(t: seq<T>, u: seq<T>, j: nat)
    requires multiset(t) == multiset(u) && 0 < |t| && j < |u| && u[j] == t[|t| - 1]
    ensures multiset(t[..|t| - 1]) == multiset(u[..j] + u[j + 1..])
  {
    var init, before, after := t[..|t| - 1], u[..j], u[j + 1..];
    assert t == init + [u[j]];
    assert u == before + [u[j]] + after;
    forall e
      ensures multiset(init)[e] == multiset(before + after)[e]
    {
      assert multiset(t)[e] == multiset(init)[e] + multiset([u[j]])[e];
      assert multiset(u)[e] == multiset(before)[e] + multiset([u[j]])[e] + multiset(after)[e];
    }
  }

  /** Rearranging the buckets keeps every sum. */
  lemma {:induction false} SumSlotPermute<S>(t: Table<Bucket<S>>, u: Table<Bucket<S>>, s: S)
    requires multiset(t) == multiset(u)
    ensures SumSlot(t, s) == SumSlot(u, s)
    decreases |t|
  {
    if |t| > 0 {
      var last := t[|t| - 1];
      assert last in multiset(u);
      var j :| 0 <= j < |u| && u[j] == last;
      MultisetRemove(t, u, j);
      SumSlotPermute(t[..|t| - 1], u[..j] + u[j + 1..], s);
      assert u == u[..j] + [last] + u[j + 1..];
      SumSlotRemove(u[..j], last, u[j + 1..], s);
    } else {
      assert u == [];
    }
  }

  /** What the month buckets see of one entry: its month (key, year, month) and the counters it adds to. */
  datatype Mark<S> = Mark(month: Option<(string, int, int)>, adds: set<S>)

  predicate Under<S>(m: Mark<S>, key: string) {
    m.month.Some? && m.month.value.0 == key
  }

  /** How many of the entries whose month key is `key` add to counter `s`. */
  function CountIn<S>(marks: seq<Mark<S>>, key: string, s: S): nat
    decreases |marks|
  {
    if |marks| == 0 then 0
    else
      var m := marks[|marks| - 1];
      CountIn(marks[..|marks| - 1], key, s) + (if Under(m, key) && s in m.adds then 1 else 0)
  }

  /** No entry of month `key`, nothing counted under it. */
  lemma {:induction false} CountInAbsent<S>(marks: seq<Mark<S>>, key: string, s: S)
    requires forall j :: 0 <= j < |marks| ==> !Under(marks[j], key)
    ensures CountIn(marks, key, s) == 0
    decreases |marks|
  {
    if |marks| > 0 {
      var init := marks[..|marks| - 1];
      assert forall j :: 0 <= j < |init| ==> init[j] == marks[j];
      CountInAbsent(init, key, s);
    }
  }

  /** A bucket is named after a seed, or after the month of one of the first `p` entries, with that month's year and month. */
  predicate FromSeedOrEntry<S>(marks: seq<Mark<S>>, p: int, seeds: seq<Seed>, b: (string, Bucket<S>)) {
    || Seed(b.0, b.1.year, b.1.month) in seeds
    || exists j :: 0 <= j < p && j < |marks| && marks[j].month == Some((b.0, b.1.year, b.1.month))
  }

  /**
   * After `n` entries each bucket holds, counter by counter, the number of those
   * entries of its own month; every bucket comes from a seed or from one of the
   * first `p` entries.
   */
  ghost predicate MonthsCounted<S(!new)>(marks: seq<Mark<S>>, n: int, p: int, seeds: seq<Seed>, t: Table<Bucket<S>>)
    requires 0 <= n <= |marks|
  {
    && (forall i, s :: 0 <= i < |t| ==> Get(t[i].1.counts, s) == CountIn(marks[..n], t[i].0, s))
    && (forall i :: 0 <= i < |t| ==> FromSeedOrEntry(marks, p, seeds, t[i]))
  }

  /** The zeroed seed buckets, before any entry. */
  lemma MonthsStart<S(!new)>(marks: seq<Mark<S>>, seeds: seq<Seed>, t: Table<Bucket<S>>)
    requires forall i, s :: 0 <= i < |t| ==> Get(t[i].1.counts, s) == 0
    requires forall i :: 0 <= i < |t| ==> Seed(t[i].0, t[i].1.year, t[i].1.month) in seeds
    ensures MonthsCounted(marks, 0, 0, seeds, t)
  {
    assert marks[..0] == [];
  }

  /** Entry `n` may name a bucket. */
  lemma MonthsWiden<S(!new)>(marks: seq<Mark<S>>, n: int, seeds: seq<Seed>, t: Table<Bucket<S>>)
    requires 0 <= n < |marks| && MonthsCounted(marks, n, n, seeds, t)
    ensures MonthsCounted(marks, n, n + 1, seeds, t)
  {
    forall i | 0 <= i < |t|
      ensures FromSeedOrEntry(marks, n + 1, seeds, t[i])
    {
      assert FromSeedOrEntry(marks, n, seeds, t[i]);
    }
  }

  /** A zeroed bucket for entry `n`'s month, new to the table, counts nothing yet. */
  lemma MonthsNew<S(!new)>(marks: seq<Mark<S>>, n: int, seeds: seq<Seed>, t: Table<Bucket<S>>, item: (string, Bucket<S>))
    requires 0 <= n < |marks| && MonthsCounted(marks, n, n, seeds, t)
    requires forall j :: 0 <= j < n ==> marks[j].month.Some? && HasKey(t, marks[j].month.value.0)
    requires !HasKey(t, item.0) && marks[n].month == Some((item.0, item.1.year, item.1.month))
    requires forall s :: Get(item.1.counts, s) == 0
    ensures MonthsCounted(marks, n, n + 1, seeds, t + [item])
  {
    MonthsWiden(marks, n, seeds, t);
    var u := t + [item];
    forall s
      ensures CountIn(marks[..n], item.0, s) == 0
    {
      CountInAbsent(marks[..n], item.0, s);
    }
    assert forall i :: 0 <= i < |t| ==> u[i] == t[i];
    assert FromSeedOrEntry(marks, n + 1, seeds, item);
  }

  /** Counting entry `n` into the bucket of its month. */
  lemma MonthsStep<S(!new)>(marks: seq<Mark<S>>, n: int, seeds: seq<Seed>, t: Table<Bucket<S>>, k: nat)
    requires 0 <= n < |marks| && MonthsCounted(marks, n, n + 1, seeds, t) && DistinctKeys(t)
    requires k < |t| && Under(marks[n], t[k].0)
    ensures var b := t[k].1;
            MonthsCounted(marks, n + 1, n + 1, seeds, t[k := (t[k].0, Bucket(b.year, b.month, Add(b.counts, marks[n].adds)))])
  {
    var b := t[k].1;
    var u := t[k := (t[k].0, Bucket(b.year, b.month, Add(b.counts, marks[n].adds)))];
    assert marks[..n + 1][..n] == marks[..n];
    forall i, s | 0 <= i < |u|
      ensures Get(u[i].1.counts, s) == CountIn(marks[..n + 1], u[i].0, s)
    {
      if i != k {
        assert t[i].0 != t[k].0;
      }
    }
    forall i | 0 <= i < |u|
      ensures FromSeedOrEntry(marks, n + 1, seeds, u[i])
    {
      assert FromSeedOrEntry(marks, n + 1, seeds, t[i]);
    }
  }

  /** Rearranged buckets keep what each of them counts, and where it comes from. */
  lemma MonthsRearranged<S(!new)>(marks: seq<Mark<S>>, seeds: seq<Seed>, t: Table<Bucket<S>>, u: Table<Bucket<S>>)
    requires MonthsCounted(marks, |marks|, |marks|, seeds, t)
    requires forall i :: 0 <= i < |u| ==> u[i] in t
    ensures forall i, s :: 0 <= i < |u| ==> Get(u[i].1.counts, s) == CountIn(marks, u[i].0, s)
    ensures forall i :: 0 <= i < |u| ==> FromSeedOrEntry(marks, |marks|, seeds, u[i])
  {
    assert marks[..|marks|] == marks;
    forall i | 0 <= i < |u|
      ensures (forall s :: Get(u[i].1.counts, s) == CountIn(marks, u[i].0, s))
      ensures FromSeedOrEntry(marks, |marks|, seeds, u[i])
    {
      var m :| 0 <= m < |t| && t[m] == u[i];
    }
  }

  /** The keys the buckets must have after `n` entries: every seed's and every counted entry's. */
  ghost predicate KeysPresent(ts: seq<EntryTally>, n: int, seeds: seq<Seed>, t: Table<Bucket<Slot>>)
    requires 0 <= n <= |ts|
  {
    && (forall i :: 0 <= i < |seeds| ==> HasKey(t, seeds[i].key))
    && (forall i :: 0 <= i < n ==> ts[i].month.Some? && HasKey(t, ts[i].month.value.0))
  }

  lemma KeysPresentGrow(ts: seq<EntryTally>, n: int, seeds: seq<Seed>, t: Table<Bucket<Slot>>, u: Table<Bucket<Slot>>)
    requires 0 <= n <= |ts| && KeysPresent(ts, n, seeds, t) && KeysKept(t, u)
    ensures KeysPresent(ts, n, seeds, u)
  {
  }

  /** The counters after `n` entries: overall, and summed over the buckets. */
  ghost predicate SlotsCounted(ts: seq<EntryTally>, n: int, overall: Counts, t: Table<Bucket<Slot>>)
    requires 0 <= n <= |ts|
  {
    && (forall s :: Get(overall, s) == CountSlot(ts[..n], s) && SumSlot(t, s) == Get(overall, s))
    && overall.Keys == AllSlots
  }

  lemma SlotsStep(ts: seq<EntryTally>, n: int, overall: Counts, t: Table<Bucket<Slot>>, slots: set<Slot>, k: nat)
    requires 0 <= n < |ts| && SlotsCounted(ts, n, overall, t)
    requires ts[n].slots == Some(slots) && slots <= AllSlots && k < |t|
    ensures var b := t[k].1;
            SlotsCounted(ts, n + 1, Add(overall, slots), t[k := (t[k].0, Bucket(b.year, b.month, Add(b.counts, slots)))])
  {
    var b := t[k].1;
    var item := (t[k].0, Bucket(b.year, b.month, Add(b.counts, slots)));
    assert ts[..n + 1][..n] == ts[..n];
    forall s
      ensures SumSlot(t[k := item], s) == Get(Add(overall, slots), s)
    {
      SumSlotUpdate(t, k, item, s);
    }
  }

  /** The application counts after `n` entries. */
  ghost predicate AppsCounted(ts: seq<EntryTally>, n: int, apps: map<Value, nat>)
    requires 0 <= n <= |ts|
  {
    && (forall a :: a in apps <==> CountApp(ts[..n], a) > 0)
    && (forall a :: a in apps ==> apps[a] == CountApp(ts[..n], a))
  }

  lemma AppsStep(ts: seq<EntryTally>, n: int, apps: map<Value, nat>)
    requires 0 <= n < |ts| && AppsCounted(ts, n, apps)
    ensures var a := ts[n].app;
            AppsCounted(ts, n + 1, apps[a := (if a in apps then apps[a] else 0) + 1])
  {
    assert ts[..n + 1][..n] == ts[..n];
  }

  /** The zeroed bucket of every seed, by dict assignment. */
  method SeedBuckets<S>(seeds: seq<Seed>, zero: map<S, nat>) returns (t: Table<Bucket<S>>)
    requires forall s :: Get(zero, s) == 0
    ensures DistinctKeys(t)
    ensures forall i :: 0 <= i < |seeds| ==> HasKey(t, seeds[i].key)
    ensures forall i :: 0 <= i < |t| ==> t[i].1.counts == zero
    ensures forall s :: SumSlot(t, s) == 0
    ensures forall i :: 0 <= i < |t| ==> Seed(t[i].0, t[i].1.year, t[i].1.month) in seeds
  {
    t := [];
    var i := 0;
    while i < |seeds|
      invariant 0 <= i <= |seeds|
      invariant DistinctKeys(t)
      invariant forall j :: 0 <= j < i ==> HasKey(t, seeds[j].key)
      invariant forall j :: 0 <= j < |t| ==> t[j].1.counts == zero
      invariant forall s :: SumSlot(t, s) == 0
      invariant forall j :: 0 <= j < |t| ==> Seed(t[j].0, t[j].1.year, t[j].1.month) in seeds[..i]
    {
      var u := SeedOne(t, seeds[i], zero);
      forall j | 0 <= j < |u|
        ensures Seed(u[j].0, u[j].1.year, u[j].1.month) in seeds[..i + 1]
      {
        assert seeds[..i + 1] == seeds[..i] + [seeds[i]];
        if u[j] in t {
          var m :| 0 <= m < |t| && t[m] == u[j];
        }
      }
      t := u;
      i := i + 1;
    }
    assert seeds[..i] == seeds;
  }

  /** `monthly[key] = zeroed`: one seed's bucket, replacing the one under its key or added at the end. */
  method SeedOne<S>(t: Table<Bucket<S>>, seed: Seed, zero: map<S, nat>) returns (u: Table<Bucket<S>>)
    requires forall s :: Get(zero, s) == 0
    requires DistinctKeys(t)
    requires forall j :: 0 <= j < |t| ==> t[j].1.counts == zero
    requires forall s :: SumSlot(t, s) == 0
    ensures DistinctKeys(u) && KeysKept(t, u) && HasKey(u, seed.key)
    ensures forall j :: 0 <= j < |u| ==> u[j].1.counts == zero
    ensures forall s :: SumSlot(u, s) == 0
    ensures forall j :: 0 <= j < |u| ==> u[j] in t || u[j] == (seed.key, Bucket(seed.year, seed.month, zero))
  {
    var item := (seed.key, Bucket(seed.year, seed.month, zero));
    var k := Find(t, seed.key);
    if k.Some? {
      u := t[k.value := item];
      KeysKeptUpdate(t, k.value, item);
      forall s
        ensures SumSlot(u, s) == 0
      {
        SumSlotUpdate(t, k.value, item, s);
      }
      assert u[k.value].0 == seed.key;
    } else {
      u := t + [item];
      KeysKeptAppend(t, item);
      forall s
        ensures SumSlot(u, s) == 0
      {
        SumSlotAppend(t, item, s);
      }
    }
  }

  /** The counting loop's invariant after `n` entries. */
  ghost predicate Counted(ts: seq<EntryTally>, n: int, seeds: seq<Seed>, overall: Counts, apps: map<Value, nat>, t: Table<Bucket<Slot>>)
    requires 0 <= n <= |ts|
  {
    && (forall i :: 0 <= i < n ==> !Raises(ts[i]))
    && DistinctKeys(t)
    && KeysPresent(ts, n, seeds, t)
    && SlotsCounted(ts, n, overall, t)
    && AppsCounted(ts, n, apps)
  }

  lemma CountStart(ts: seq<EntryTally>, seeds: seq<Seed>, t: Table<Bucket<Slot>>)
    requires DistinctKeys(t)
    requires forall i :: 0 <= i < |seeds| ==> HasKey(t, seeds[i].key)
    requires forall s :: SumSlot(t, s) == 0
    ensures Counted(ts, 0, seeds, NoCounts, map[], t)
  {
    assert ts[..0] == [];
  }

  /** A bucket created for an entry's month keeps the invariant. */
  lemma NewBucket(ts: seq<EntryTally>, n: int, seeds: seq<Seed>, overall: Counts, apps: map<Value, nat>,
                  t: Table<Bucket<Slot>>, item: (string, Bucket<Slot>))
    requires 0 <= n <= |ts| && Counted(ts, n, seeds, overall, apps, t)
    requires !HasKey(t, item.0) && item.1.counts == NoCounts
    ensures Counted(ts, n, seeds, overall, apps, t + [item])
  {
    KeysKeptAppend(t, item);
    KeysPresentGrow(ts, n, seeds, t, t + [item]);
    forall s
      ensures SumSlot(t + [item], s) == SumSlot(t, s)
    {
      SumSlotAppend(t, item, s);
    }
  }

  /** Counting entry `n` into bucket `k` keeps the invariant. */
  lemma CountStep(ts: seq<EntryTally>, n: int, seeds: seq<Seed>, overall: Counts, apps: map<Value, nat>,
                  t: Table<Bucket<Slot>>, k: nat)
    requires 0 <= n < |ts| && Counted(ts, n, seeds, overall, apps, t)
    requires !Raises(ts[n]) && ts[n].slots.value <= AllSlots
    requires k < |t| && t[k].0 == ts[n].month.value.0
    requires MonthsCounted(Marks(ts), n, n + 1, seeds, t)
    ensures var b := t[k].1;
            var a := ts[n].app;
            var slots := ts[n].slots.value;
            Counted(ts, n + 1, seeds, Add(overall, slots), apps[a := (if a in apps then apps[a] else 0) + 1],
                    t[k := (t[k].0, Bucket(b.year, b.month, Add(b.counts, slots)))])
    ensures var b := t[k].1;
            MonthsCounted(Marks(ts), n + 1, n + 1, seeds, t[k := (t[k].0, Bucket(b.year, b.month, Add(b.counts, ts[n].slots.value)))])
  {
    MonthsStep(Marks(ts), n, seeds, t, k);
    var b := t[k].1;
    var slots := ts[n].slots.value;
    var item := (t[k].0, Bucket(b.year, b.month, Add(b.counts, slots)));
    SlotsStep(ts, n, overall, t, slots, k);
    AppsStep(ts, n, apps);
    KeysKeptUpdate(t, k, item);
    KeysPresentGrow(ts, n, seeds, t, t[k := item]);
    assert t[k := item][k].0 == ts[n].month.value.0;
  }

  /** A zeroed bucket for entry `n`'s month, missing so far, counts nothing yet. */
  lemma CountMonthNew(ts: seq<EntryTally>, n: int, seeds: seq<Seed>, overall: Counts, apps: map<Value, nat>,
                      t: Table<Bucket<Slot>>, item: (string, Bucket<Slot>))
    requires 0 <= n < |ts| && Counted(ts, n, seeds, overall, apps, t) && MonthsCounted(Marks(ts), n, n, seeds, t)
    requires ts[n].month == Some((item.0, item.1.year, item.1.month))
    requires !HasKey(t, item.0) && item.1.counts == NoCounts
    ensures MonthsCounted(Marks(ts), n, n + 1, seeds, t + [item])
  {
    MonthsNew(Marks(ts), n, seeds, t, item);
  }

  /** `if month_key not in monthly: monthly[month_key] = ...`: the bucket of entry `n`'s month, created zeroed when missing. */
  method MonthBucket(ts: seq<EntryTally>, n: int, seeds: seq<Seed>, overall: Counts, apps: map<Value, nat>, t: Table<Bucket<Slot>>)
    returns (u: Table<Bucket<Slot>>, k: nat)
    requires 0 <= n < |ts| && Counted(ts, n, seeds, overall, apps, t)
    requires !Raises(ts[n]) && MonthsCounted(Marks(ts), n, n, seeds, t)
    ensures Counted(ts, n, seeds, overall, apps, u) && MonthsCounted(Marks(ts), n, n + 1, seeds, u)
    ensures k < |u| && u[k].0 == ts[n].month.value.0
  {
    var (key, year, month) := ts[n].month.value;
    var found := Find(t, key);
    if found.None? {
      var item := (key, Bucket(year, month, NoCounts));
      NewBucket(ts, n, seeds, overall, apps, t, item);
      CountMonthNew(ts, n, seeds, overall, apps, t, item);
      u, k := t + [item], |t|;
    } else {
      MonthsWiden(Marks(ts), n, seeds, t);
      u, k := t, found.value;
    }
  }

  /** One turn of the counting loop: find or create the entry's bucket, then count it. */
  method CountOne(ts: seq<EntryTally>, n: int, seeds: seq<Seed>, overall: Counts, apps: map<Value, nat>, t: Table<Bucket<Slot>>)
    returns (overall': Counts, apps': map<Value, nat>, t': Table<Bucket<Slot>>)
    requires 0 <= n < |ts| && Counted(ts, n, seeds, overall, apps, t)
    requires !Raises(ts[n]) && ts[n].slots.value <= AllSlots
    requires MonthsCounted(Marks(ts), n, n, seeds, t)
    ensures Counted(ts, n + 1, seeds, overall', apps', t')
    ensures MonthsCounted(Marks(ts), n + 1, n + 1, seeds, t')
  {
    var u, k := MonthBucket(ts, n, seeds, overall, apps, t);
    CountStep(ts, n, seeds, overall, apps, u, k);
    var b := u[k].1;
    var slots, a := ts[n].slots.value, ts[n].app;
    t' := u[k := (u[k].0, Bucket(b.year, b.month, Add(b.counts, slots)))];
    overall' := Add(overall, slots);
    apps' := apps[a := (if a in apps then apps[a] else 0) + 1];
  }

  /** The counting loop over the kept entries; None where one raises. */
  method CountEntries(ts: seq<EntryTally>, seeds: seq<Seed>) returns (r: Option<(Counts, map<Value, nat>, Table<Bucket<Slot>>)>)
    requires forall i :: 0 <= i < |ts| && ts[i].slots.Some? ==> ts[i].slots.value <= AllSlots
    ensures r.None? <==> exists i :: 0 <= i < |ts| && Raises(ts[i])
    ensures r.Some? ==> Counted(ts, |ts|, seeds, r.value.0, r.value.1, r.value.2)
    ensures r.Some? ==> MonthsCounted(Marks(ts), |ts|, |ts|, seeds, r.value.2)
  {
    var t := SeedBuckets(seeds, NoCounts);
    CountStart(ts, seeds, t);
    MonthsStart(Marks(ts), seeds, t);
    var overall := NoCounts;
    var apps: map<Value, nat> := map[];
    var n := 0;
    while n < |ts|
      invariant 0 <= n <= |ts|
      invariant Counted(ts, n, seeds, overall, apps, t)
      invariant MonthsCounted(Marks(ts), n, n, seeds, t)
    {
      if Raises(ts[n]) {
        return None;
      }
      overall, apps, t := CountOne(ts, n, seeds, overall, apps, t);
      n := n + 1;
    }
    r := Some((overall, apps, t));
  }

  /** After the loop, the invariant speaks of all the entries. */
  lemma CountedAll(ts: seq<EntryTally>, seeds: seq<Seed>, overall: Counts, apps: map<Value, nat>, t: Table<Bucket<Slot>>)
    requires Counted(ts, |ts|, seeds, overall, apps, t)
    requires MonthsCounted(Marks(ts), |ts|, |ts|, seeds, t)
    ensures forall s :: Get(overall, s) == CountSlot(ts, s) && SumSlot(t, s) == Get(overall, s)
    ensures overall.Keys == AllSlots && DistinctKeys(t)
    ensures forall a :: a in apps <==> CountApp(ts, a) > 0
    ensures forall a :: a in apps ==> apps[a] == CountApp(ts, a)
    ensures forall i :: 0 <= i < |seeds| ==> HasKey(t, seeds[i].key)
    ensures forall i :: 0 <= i < |ts| ==> ts[i].month.Some? && HasKey(t, ts[i].month.value.0)
    ensures forall i, s :: 0 <= i < |t| ==> Get(t[i].1.counts, s) == CountIn(Marks(ts), t[i].0, s)
    ensures forall i :: 0 <= i < |t| ==> FromSeedOrEntry(Marks(ts), |ts|, seeds, t[i])
  {
    assert ts[..|ts|] == ts;
    MonthsRearranged(Marks(ts), seeds, t, t);
  }

  /** A reported bucket is a selected month or the month of a kept entry, under that month's own key, year and month. */
  predicate SelectedOrCounted<S>(kept: seq<Data>, ly: seq<(string, Option<int>)>, lm: seq<Option<int>>, b: (string, Bucket<S>)) {
    || SeedOf(ly, lm, Seed(b.0, b.1.year, b.1.month))
    || exists j :: 0 <= j < |kept| && EntryMonth(kept[j]) == Some((b.0, b.1.year, b.1.month))
  }

  /** The counted buckets, in any order, each count exactly their own month's kept entries. */
  lemma MonthlyExact<S(!new)>(kept: seq<Data>, marks: seq<Mark<S>>, ly: seq<(string, Option<int>)>, lm: seq<Option<int>>,
                              seeds: seq<Seed>, t: Table<Bucket<S>>, monthly: Table<Bucket<S>>)
    requires |marks| == |kept| && forall j :: 0 <= j < |kept| ==> marks[j].month == EntryMonth(kept[j])
    requires forall s :: s in seeds <==> SeedOf(ly, lm, s)
    requires MonthsCounted(marks, |marks|, |marks|, seeds, t)
    requires forall i :: 0 <= i < |monthly| ==> monthly[i] in t
    ensures forall i, s :: 0 <= i < |monthly| ==> Get(monthly[i].1.counts, s) == CountIn(marks, monthly[i].0, s)
    ensures forall i :: 0 <= i < |monthly| ==> SelectedOrCounted(kept, ly, lm, monthly[i])
  {
    MonthsRearranged(marks, seeds, t, monthly);
    forall i | 0 <= i < |monthly|
      ensures SelectedOrCounted(kept, ly, lm, monthly[i])
    {
      var b := monthly[i];
      if Seed(b.0, b.1.year, b.1.month) !in seeds {
        var j :| 0 <= j < |marks| && marks[j].month == Some((b.0, b.1.year, b.1.month));
        assert EntryMonth(kept[j]) == Some((b.0, b.1.year, b.1.month));
      }
    }
  }

  /** The JSON body: totals, the four distributions, the application counts and the sorted monthly list. */
  datatype StatsReport = StatsReport(total: nat, distribution: Counts, applications: map<Value, nat>, monthly: Table<Bucket<Slot>>)

  datatype StatsAnswer = Report(report: StatsReport) | StatsError

  /** The request ends in 500: a row raises in the filter, in the seeding or in the counting. */
  predicate StatsFails(rows: seq<Data>, q: StatsQuery) {
    var kept := StatsKept(rows, q);
    var ly := LoopYears(q.years, q.months, kept);
    || (exists i :: 0 <= i < |rows| && StatsAdmit(rows[i], q) == Fail)
    || ly.None? || !AllValid(ly.value, LoopMonths(q.years, q.months))
    || (exists i :: 0 <= i < |kept| && CountBreaks(kept[i]))
  }

  /** What the report says about the kept entries: its totals and its month buckets. */
  ghost predicate StatsReportOk(kept: seq<Data>, q: StatsQuery, report: StatsReport) {
    StatsTotalsOk(kept, report) && StatsMonthlyOk(kept, q, report.monthly)
  }

  /** The entry total, the four distributions, their sums over the months and the application counts. */
  ghost predicate StatsTotalsOk(kept: seq<Data>, report: StatsReport) {
    var ts := TallyAll(kept);
    && report.total == |kept|
    && report.distribution.Keys == AllSlots
    && (forall s :: Get(report.distribution, s) == CountSlot(ts, s))
    && (forall s :: SumSlot(report.monthly, s) == Get(report.distribution, s))
    && (forall a :: a in report.applications <==> CountApp(ts, a) > 0)
    && (forall a :: a in report.applications ==> report.applications[a] == CountApp(ts, a))
  }

  /**
   * The month buckets, sorted by key: each counts exactly the kept entries of
   * its own month; there is one for every selected and every counted month,
   * and none for anything else.
   */
  ghost predicate StatsMonthlyOk(kept: seq<Data>, q: StatsQuery, monthly: Table<Bucket<Slot>>) {
    var ly, lm := LoopYears(q.years, q.months, kept), LoopMonths(q.years, q.months);
    && Ascending(monthly)
    && (forall i, s :: 0 <= i < |monthly| ==> Get(monthly[i].1.counts, s) == CountIn(Marks(TallyAll(kept)), monthly[i].0, s))
    && (forall i :: 0 <= i < |kept| ==> EntryMonth(kept[i]).Some? && HasKey(monthly, EntryMonth(kept[i]).value.0))
    && (ly.Some? ==> forall s :: SeedOf(ly.value, lm, s) ==> HasKey(monthly, s.key))
    && (ly.Some? ==> forall i :: 0 <= i < |monthly| ==> SelectedOrCounted(kept, ly.value, lm, monthly[i]))
  }

  /** The counted buckets, once sorted, make the report's monthly part. */
  lemma StatsMonthlyFacts(kept: seq<Data>, q: StatsQuery, seeds: seq<Seed>, t: Table<Bucket<Slot>>, monthly: Table<Bucket<Slot>>)
    requires LoopYears(q.years, q.months, kept).Some?
    requires forall s :: s in seeds <==> SeedOf(LoopYears(q.years, q.months, kept).value, LoopMonths(q.years, q.months), s)
    requires forall i :: 0 <= i < |seeds| ==> HasKey(t, seeds[i].key)
    requires forall i :: 0 <= i < |kept| ==> EntryMonth(kept[i]).Some? && HasKey(t, EntryMonth(kept[i]).value.0)
    requires MonthsCounted(Marks(TallyAll(kept)), |kept|, |kept|, seeds, t)
    requires multiset(monthly) == multiset(t) && Ascending(monthly)
    ensures StatsMonthlyOk(kept, q, monthly)
  {
    var ts := TallyAll(kept);
    Rearranged(t, monthly);
    MonthlyExact(kept, Marks(ts), LoopYears(q.years, q.months, kept).value, LoopMonths(q.years, q.months),
                 seeds, t, monthly);
    forall s | SeedOf(LoopYears(q.years, q.months, kept).value, LoopMonths(q.years, q.months), s)
      ensures HasKey(monthly, s.key)
    {
      var i :| 0 <= i < |seeds| && seeds[i] == s;
    }
  }

  /** The counters, the application counts and the sorted buckets make the report. */
  lemma StatsReportFacts(kept: seq<Data>, q: StatsQuery, seeds: seq<Seed>, overall: Counts, apps: map<Value, nat>,
                         t: Table<Bucket<Slot>>, monthly: Table<Bucket<Slot>>)
    requires LoopYears(q.years, q.months, kept).Some?
    requires forall s :: s in seeds <==> SeedOf(LoopYears(q.years, q.months, kept).value, LoopMonths(q.years, q.months), s)
    requires Counted(TallyAll(kept), |kept|, seeds, overall, apps, t)
    requires MonthsCounted(Marks(TallyAll(kept)), |kept|, |kept|, seeds, t)
    requires multiset(monthly) == multiset(t) && Ascending(monthly)
    ensures StatsReportOk(kept, q, StatsReport(|kept|, overall, apps, monthly))
  {
    var ts := TallyAll(kept);
    CountedAll(ts, seeds, overall, apps, t);
    Rearranged(t, monthly);
    forall i | 0 <= i < |kept|
      ensures EntryMonth(kept[i]).Some? && HasKey(t, EntryMonth(kept[i]).value.0)
    {
      assert ts[i] == TallyOf(kept[i]);
    }
    StatsMonthlyFacts(kept, q, seeds, t, monthly);
  }

  /** `get_stats`. */
  method GetStats(rows: seq<Data>, q: StatsQuery) returns (answer: StatsAnswer)
    ensures answer.StatsError? <==> StatsFails(rows, q)
    ensures answer.Report? ==> StatsReportOk(StatsKept(rows, q), q, answer.report)
  {
    var filtered := FilterStats(rows, q);
    if filtered.None? {
      return StatsError;
    }
    var kept := filtered.value;
    var seeds := SelectMonths(q.years, q.months, kept);
    if seeds.None? {
      return StatsError;
    }
    var ts := TallyAll(kept);
    var counted := CountEntries(ts, seeds.value);
    if counted.None? {
      var i :| 0 <= i < |ts| && Raises(ts[i]);
      assert CountBreaks(kept[i]);
      return StatsError;
    }
    var (overall, apps, t) := counted.value;
    var monthly := SortByKey(t);
    StatsReportFacts(kept, q, seeds.value, overall, apps, t, monthly);
    answer := Report(StatsReport(|kept|, overall, apps, monthly));
  }
}
