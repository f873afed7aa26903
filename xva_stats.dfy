/**
 * `get_xva_stats`: the red-card statistics of the XVA entries. An entry is a
 * red card when one of its three punctuality statuses or one of its two
 * quality statuses is "Red". Every red card adds to its month's total and to
 * the counter of each punctuality status that is red, and to the tally of its
 * (root-cause application, root-cause type) pair; the grand total sums that
 * tally. Months are seeded and sorted as in `get_stats`.
 */
module XvaStats {
  import opened Wrappers
  import opened Calendar
  import opened IsoDate
  import opened PyInt
  import opened Payload
  import opened EntryQuery
  import opened Tables
  import opened MonthSeeds
  import opened Stats

  /** The query-string arguments of the XVA statistics. */
  datatype XvaQuery = XvaQuery(startDate: Option<string>, endDate: Option<string>, years: seq<string>, months: seq<string>)

  /** `entry.get('application_name') != 'XVA'` is false. */
  predicate IsXva(row: Data) {
    GetOr(row, "application_name", Null) == Str("XVA")
  }

  /**
   * The filter loop as the handler means it: XVA rows only, the date window
   * of `get_stats`, then the year and month filters.
   */
  function XvaAdmit(row: Data, q: XvaQuery): Admission {
    var window := Admit(row, Query(q.startDate, q.endDate, None, None, None, None));
    if !IsXva(row) then Skip
    else if window != Keep then window
    else PeriodAdmit(row, q.years, q.months)
  }

  /**
   * The filter loop as written. The handler imports `datetime` again further
   * down its own body, which makes the name local to the whole handler, so the
   * `datetime.strptime` of either date filter meets an unbound local and
   * raises on the first XVA row it reaches.
   */
  function XvaAdmitAsWritten(row: Data, q: XvaQuery): Admission {
    if !IsXva(row) then Skip
    else if Given(q.startDate) || Given(q.endDate) then Fail
    else PeriodAdmit(row, q.years, q.months)
  }

  /** An XVA row inside a date window: kept by the intended filter, a 500 as written. */
  lemma DateWindowOnXva(row: Data, d: Date, start: Date, end: Date)
    requires ValidDate(d) && 1 <= d.year <= 9999
    requires ValidDate(start) && 1 <= start.year <= 9999
    requires ValidDate(end) && 1 <= end.year <= 9999
    requires IsXva(row) && "date" in row && row["date"] == Str(Format(d))
    ensures var q := XvaQuery(Some(Format(start)), Some(Format(end)), [], []);
            && (XvaAdmit(row, q) == Keep <==> !Before(d, start) && !Before(end, d))
            && XvaAdmit(row, q) != Fail
            && XvaAdmitAsWritten(row, q) == Fail
  {
    DateWindow(row, d, start, end);
  }

  /** Without date filters the two agree. */
  lemma NoWindowAgrees(row: Data, q: XvaQuery)
    requires !Given(q.startDate) && !Given(q.endDate)
    ensures XvaAdmit(row, q) == XvaAdmitAsWritten(row, q)
  {
    NoFiltersKeepAll(row);
  }

  function XvaVerdicts(rows: seq<Data>, q: XvaQuery): (r: seq<Admission>)
    ensures |r| == |rows| && forall i :: 0 <= i < |rows| ==> r[i] == XvaAdmit(rows[i], q)
  {
    seq(|rows|, i requires 0 <= i < |rows| => XvaAdmit(rows[i], q))
  }

  /** The XVA rows the filter loop appends. */
  function XvaKept(rows: seq<Data>, q: XvaQuery): seq<Data> {
    KeptBy(rows, XvaVerdicts(rows, q))
  }

  /** Only XVA rows are counted, and every XVA row that passes the filters is. */
  lemma XvaKeptMembers(rows: seq<Data>, q: XvaQuery, x: Data)
    ensures x in XvaKept(rows, q) <==> exists i :: 0 <= i < |rows| && rows[i] == x && XvaAdmit(x, q) == Keep
    ensures x in XvaKept(rows, q) ==> IsXva(x)
  {
    KeptByMembers(rows, XvaVerdicts(rows, q), x);
  }

  method FilterXva(rows: seq<Data>, q: XvaQuery) returns (filtered: Option<seq<Data>>)
    ensures filtered.None? <==> exists i :: 0 <= i < |rows| && XvaAdmit(rows[i], q) == Fail
    ensures filtered.Some? ==> filtered.value == XvaKept(rows, q)
  {
    filtered := KeepAdmitted(rows, XvaVerdicts(rows, q));
  }

  /** Seeding raises where `get_stats` would, and also when only months are given and an entry was kept: it reads `entry.date` on a dict. */
  predicate XvaSeedsFail(years: seq<string>, months: seq<string>, entries: seq<Data>) {
    var ly := LoopYears(years, months, entries);
    || (|years| == 0 && |months| > 0 && |entries| > 0)
    || ly.None? || !AllValid(ly.value, LoopMonths(years, months))
  }

  method SelectXvaMonths(years: seq<string>, months: seq<string>, entries: seq<Data>) returns (seeds: Option<seq<Seed>>)
    ensures seeds.None? <==> XvaSeedsFail(years, months, entries)
    ensures seeds.Some? ==> forall s :: s in seeds.value <==>
              SeedOf(LoopYears(years, months, entries).value, LoopMonths(years, months), s)
  {
    if |years| == 0 && |months| > 0 && |entries| > 0 {
      return None;
    }
    seeds := SelectMonths(years, months, entries);
  }

  /** With only months given and nothing kept, no month is seeded. */
  lemma MonthsOnlyNothingKept(months: seq<string>)
    requires |months| > 0
    ensures !XvaSeedsFail([], months, [])
    ensures forall s :: !SeedOf(LoopYears([], months, []).value, LoopMonths([], months), s)
  {
    assert LoopYears([], months, []) == DataYears([]);
    assert DataYears([]) == Some([]);
  }

  predicate IsRed(row: Data, k: string) {
    GetOr(row, k, Null) == Str("Red")
  }

  /** The three punctuality statuses and the two quality statuses of an XVA entry. */
  const RedCardFields := ["valo_status", "sensi_status", "cf_ra_status", "quality_legacy", "quality_target"]

  /**
   * A red card: a red punctuality status (valo, sensi, CF RA) or a red quality
   * status (legacy, target). Only the exact text "Red" counts.
   */
  predicate RedCard(row: Data) {
    || IsRed(row, "valo_status") || IsRed(row, "sensi_status") || IsRed(row, "cf_ra_status")
    || IsRed(row, "quality_legacy") || IsRed(row, "quality_target")
  }

  /**
   * The verdict and the counters an entry adds to depend on its five status
   * fields alone: entries that agree on them are tallied alike, and an entry
   * holding none of them is no red card.
   */
  lemma RedCardReadsStatusesOnly(row: Data, other: Data)
    requires forall k :: k in RedCardFields ==> GetOr(row, k, Null) == GetOr(other, k, Null)
    ensures RedCard(row) == RedCard(other)
    ensures RedTallyOf(row).flags == RedTallyOf(other).flags
    ensures (forall k :: k in RedCardFields ==> k !in row) ==> !RedCard(row)
  {
    assert forall i :: 0 <= i < |RedCardFields| ==> GetOr(row, RedCardFields[i], Null) == GetOr(other, RedCardFields[i], Null);
  }

  /** The four counters of a month bucket. */
  datatype RedFlag = ValoRed | SensiRed | CfRaRed | TotalRed

  const AllFlags: set<RedFlag> := {ValoRed, SensiRed, CfRaRed, TotalRed}

  const NoReds: map<RedFlag, nat> := map f | f in AllFlags :: 0

  /** `entry.get(k) or 'Unknown'`. */
  function Cause(v: Value): Value {
    if Truthy(v) then v else Str("Unknown")
  }

  /** `str(v)` for the values a root cause holds; lists and objects get a fixed stand-in. */
  function PyText(v: Value): string {
    match v
    case Null => "None"
    case Bool(b) => if b then "True" else "False"
    case Int(i) => if i < 0 then "-" + Show(-i) else Show(i)
    case Str(s) => s
    case List(_) => "[...]"
    case Object(_) => "{...}"
  }

  /** `f"{root_cause_app}|{root_cause_type}"`. */
  function CauseKey(app: Value, kind: Value): string {
    PyText(app) + "|" + PyText(kind)
  }

  /** The key joins the two texts with '|', so texts that hold '|' can meet under one key. */
  lemma CauseKeysCanMeet()
    ensures CauseKey(Str("a|b"), Str("c")) == CauseKey(Str("a"), Str("b|c"))
  {
  }

  /** What the counting loop reads from one entry. */
  datatype RedTally = RedTally(month: Option<(string, int, int)>, flags: set<RedFlag>, app: Value, kind: Value, key: string)

  /** Every counter an entry adds to comes with the month total. */
  predicate FlagsClosed(flags: set<RedFlag>) {
    forall f :: f in flags ==> TotalRed in flags
  }

  function RedTallyOf(row: Data): (r: RedTally)
    ensures FlagsClosed(r.flags)
  {
    var flags :=
      if RedCard(row) then
        {TotalRed} + (if IsRed(row, "valo_status") then {ValoRed} else {})
        + (if IsRed(row, "sensi_status") then {SensiRed} else {})
        + (if IsRed(row, "cf_ra_status") then {CfRaRed} else {})
      else {};
    var app := Cause(GetOr(row, "root_cause_application", Null));
    var kind := Cause(GetOr(row, "root_cause_type", Null));
    RedTally(EntryMonth(row), flags, app, kind, CauseKey(app, kind))
  }

  /** An entry adds to its month total exactly when it is a red card, and to a status counter exactly when that status is red. */
  lemma RedCardRule(row: Data)
    ensures TotalRed in RedTallyOf(row).flags <==> RedCard(row)
    ensures ValoRed in RedTallyOf(row).flags <==> IsRed(row, "valo_status")
    ensures SensiRed in RedTallyOf(row).flags <==> IsRed(row, "sensi_status")
    ensures CfRaRed in RedTallyOf(row).flags <==> IsRed(row, "cf_ra_status")
  {
  }

  /** A missing or empty root cause is tallied as "Unknown". */
  lemma MissingCauseIsUnknown(row: Data)
    requires !Truthy(GetOr(row, "root_cause_application", Null))
    ensures RedTallyOf(row).app == Str("Unknown")
  {
  }

  function RedTallies(rows: seq<Data>): (r: seq<RedTally>)
    ensures |r| == |rows| && forall i :: 0 <= i < |rows| ==> r[i] == RedTallyOf(rows[i])
  {
    seq(|rows|, i requires 0 <= i < |rows| => RedTallyOf(rows[i]))
  }

  /** The month and red counters of every entry, for the month buckets. */
  function RedMarks(ts: seq<RedTally>): (r: seq<Mark<RedFlag>>)
    ensures |r| == |ts| && forall i :: 0 <= i < |ts| ==> r[i] == Mark(ts[i].month, ts[i].flags)
  {
    seq(|ts|, i requires 0 <= i < |ts| => Mark(ts[i].month, ts[i].flags))
  }

  /** How many entries add to counter `f`. */
  function CountFlag(ts: seq<RedTally>, f: RedFlag): nat
    decreases |ts|
  {
    if |ts| == 0 then 0 else CountFlag(ts[..|ts| - 1], f) + (if f in ts[|ts| - 1].flags then 1 else 0)
  }

  /** How many red cards are tallied under root-cause key `k`. */
  function CountCause(ts: seq<RedTally>, k: string): nat
    decreases |ts|
  {
    if |ts| == 0 then 0
    else
      var e := ts[|ts| - 1];
      CountCause(ts[..|ts| - 1], k) + (if TotalRed in e.flags && e.key == k then 1 else 0)
  }

  /** The position of the first red card tallied under root-cause key `k`, or -1 when there is none. */
  function FirstRed(ts: seq<RedTally>, k: string): (r: int)
    ensures -1 <= r < |ts|
    ensures 0 <= r ==> TotalRed in ts[r].flags && ts[r].key == k
    ensures forall j :: 0 <= j < |ts| && (r < 0 || j < r) ==> !(TotalRed in ts[j].flags && ts[j].key == k)
    decreases |ts|
  {
    if |ts| == 0 then -1
    else
      var init := ts[..|ts| - 1];
      var r := FirstRed(init, k);
      assert forall j :: 0 <= j < |init| ==> init[j] == ts[j];
      if r >= 0 then r
      else if TotalRed in ts[|ts| - 1].flags && ts[|ts| - 1].key == k then |ts| - 1
      else -1
  }

  /** A key has a first red card exactly when some red card is tallied under it. */
  lemma {:induction false} FirstRedIffCounted(ts: seq<RedTally>, k: string)
    ensures FirstRed(ts, k) >= 0 <==> CountCause(ts, k) > 0
    decreases |ts|
  {
    if |ts| > 0 {
      FirstRedIffCounted(ts[..|ts| - 1], k);
    }
  }

  /** One more entry leaves every first red card where it was, and is the first of its key when none came before. */
  lemma FirstRedAppend(s: seq<RedTally>, e: RedTally, k: string)
    ensures FirstRed(s + [e], k) ==
              if FirstRed(s, k) >= 0 then FirstRed(s, k)
              else if TotalRed in e.flags && e.key == k then |s|
              else -1
  {
    assert (s + [e])[..|s|] == s;
  }

  /**
   * Each root-cause record carries the application and type of the first red
   * card met under its key (later cards under the same key only add to the
   * count), and the records come in the order their keys were first met, as
   * the dict's insertion order gives them.
   */
  predicate FirstSeen(ts: seq<RedTally>, causes: Causes) {
    && (forall i :: 0 <= i < |causes| ==>
          && 0 <= FirstRed(ts, causes[i].0)
          && causes[i].1.0 == ts[FirstRed(ts, causes[i].0)].app
          && causes[i].1.1 == ts[FirstRed(ts, causes[i].0)].kind)
    && (forall i, j :: 0 <= i < j < |causes| ==> FirstRed(ts, causes[i].0) < FirstRed(ts, causes[j].0))
  }

  /** Any further entry keeps the records first seen. */
  lemma FirstSeenExtend(s: seq<RedTally>, e: RedTally, causes: Causes)
    requires FirstSeen(s, causes)
    ensures FirstSeen(s + [e], causes)
  {
    forall i | 0 <= i < |causes|
      ensures FirstRed(s + [e], causes[i].0) == FirstRed(s, causes[i].0)
    {
      FirstRedAppend(s, e, causes[i].0);
    }
    assert forall j :: 0 <= j < |s| ==> (s + [e])[j] == s[j];
  }

  /** Raising a record's count keeps its key, application and type. */
  lemma FirstSeenBump(s: seq<RedTally>, causes: Causes, j: nat, c: nat)
    requires FirstSeen(s, causes) && j < |causes|
    ensures FirstSeen(s, causes[j := (causes[j].0, (causes[j].1.0, causes[j].1.1, c))])
  {
  }

  /** A red card with a key not met before opens the last record, with its own application and type. */
  lemma FirstSeenOpen(s: seq<RedTally>, e: RedTally, causes: Causes)
    requires FirstSeen(s, causes) && TotalRed in e.flags && FirstRed(s, e.key) < 0
    ensures FirstSeen(s + [e], causes + [(e.key, (e.app, e.kind, 1))])
  {
    FirstSeenExtend(s, e, causes);
    FirstRedAppend(s, e, e.key);
    var s', u := s + [e], causes + [(e.key, (e.app, e.kind, 1))];
    assert s'[|s|] == e;
    forall i | 0 <= i < |u|
      ensures 0 <= FirstRed(s', u[i].0) && u[i].1.0 == s'[FirstRed(s', u[i].0)].app
                                       && u[i].1.1 == s'[FirstRed(s', u[i].0)].kind
    {
      if i < |causes| {
        assert u[i] == causes[i];
      }
    }
    forall i, j | 0 <= i < j < |u|
      ensures FirstRed(s', u[i].0) < FirstRed(s', u[j].0)
    {
      assert u[i] == causes[i];
      if j < |causes| {
        assert u[j] == causes[j];
      }
    }
  }

  /** No status counter of a bucket exceeds its total. */
  predicate Bounded(counts: map<RedFlag, nat>) {
    forall f :: Get(counts, f) <= Get(counts, TotalRed)
  }

  /** The root-cause dict: key, then application, type and count. */
  type Causes = Table<(Value, Value, nat)>

  /** `sum(item['count'] for item in root_cause_list)`. */
  function SumCounts(c: Causes): nat
    decreases |c|
  {
    if |c| == 0 then 0 else SumCounts(c[..|c| - 1]) + c[|c| - 1].1.2
  }

  lemma {:induction false} SumCountsConcat(c: Causes, d: Causes)
    ensures SumCounts(c + d) == SumCounts(c) + SumCounts(d)
    decreases |d|
  {
    if |d| == 0 {
      assert c + d == c;
    } else {
      assert (c + d)[..|c + d| - 1] == c + d[..|d| - 1];
      SumCountsConcat(c, d[..|d| - 1]);
    }
  }

  lemma SumCountsUpdate(c: Causes, j: nat, item: (string, (Value, Value, nat)))
    requires j < |c|
    ensures SumCounts(c[j := item]) + c[j].1.2 == SumCounts(c) + item.1.2
  {
    var before, after := c[..j], c[j + 1..];
    assert c == before + [c[j]] + after;
    assert c[j := item] == before + [item] + after;
    SumCountsConcat(before + [c[j]], after);
    SumCountsConcat(before, [c[j]]);
    SumCountsConcat(before + [item], after);
    SumCountsConcat(before, [item]);
    assert [c[j]][..0] == before[..0] && [item][..0] == before[..0];
  }

  lemma SumCountsAppend(c: Causes, item: (string, (Value, Value, nat)))
    ensures SumCounts(c + [item]) == SumCounts(c) + item.1.2
  {
    assert (c + [item])[..|c|] == c;
  }

  /** The root-cause counts over the entries `s`: one record per key met, each counting its red cards. */
  ghost predicate Tallied(s: seq<RedTally>, causes: Causes) {
    && DistinctKeys(causes)
    && (forall i :: 0 <= i < |causes| ==> causes[i].1.2 == CountCause(s, causes[i].0))
    && (forall k :: HasKey(causes, k) <==> CountCause(s, k) > 0)
    && SumCounts(causes) == CountFlag(s, TotalRed)
  }

  /** The root-cause tally after `n` entries. */
  ghost predicate CausesCounted(ts: seq<RedTally>, n: int, causes: Causes)
    requires 0 <= n <= |ts|
  {
    Tallied(ts[..n], causes) && FirstSeen(ts[..n], causes)
  }

  lemma TallyBump(s: seq<RedTally>, e: RedTally, causes: Causes, j: nat)
    requires Tallied(s, causes) && TotalRed in e.flags
    requires j < |causes| && causes[j].0 == e.key
    ensures Tallied(s + [e], causes[j := (causes[j].0, (causes[j].1.0, causes[j].1.1, causes[j].1.2 + 1))])
  {
    var item := (causes[j].0, (causes[j].1.0, causes[j].1.1, causes[j].1.2 + 1));
    var u := causes[j := item];
    assert (s + [e])[..|s|] == s;
    SumCountsUpdate(causes, j, item);
    KeysKeptUpdate(causes, j, item);
    forall k | HasKey(u, k)
      ensures HasKey(causes, k)
    {
      var m :| 0 <= m < |u| && u[m].0 == k;
      assert causes[m].0 == k;
    }
  }

  lemma TallyOpen(s: seq<RedTally>, e: RedTally, causes: Causes)
    requires Tallied(s, causes) && TotalRed in e.flags && !HasKey(causes, e.key)
    ensures Tallied(s + [e], causes + [(e.key, (e.app, e.kind, 1))])
  {
    var item := (e.key, (e.app, e.kind, 1));
    var u := causes + [item];
    assert (s + [e])[..|s|] == s;
    SumCountsAppend(causes, item);
    KeysKeptAppend(causes, item);
    assert forall i :: 0 <= i < |causes| ==> u[i] == causes[i];
    forall k | HasKey(u, k)
      ensures HasKey(causes, k) || k == e.key
    {
      var m :| 0 <= m < |u| && u[m].0 == k;
      if m < |causes| {
        assert causes[m].0 == k;
      }
    }
  }

  /** A red card whose key is already tallied adds one to that count. */
  lemma CauseBump(ts: seq<RedTally>, n: int, causes: Causes, j: nat)
    requires 0 <= n < |ts| && CausesCounted(ts, n, causes) && TotalRed in ts[n].flags
    requires j < |causes| && causes[j].0 == ts[n].key
    ensures CausesCounted(ts, n + 1, causes[j := (causes[j].0, (causes[j].1.0, causes[j].1.1, causes[j].1.2 + 1))])
  {
    assert ts[..n + 1] == ts[..n] + [ts[n]];
    TallyBump(ts[..n], ts[n], causes, j);
    FirstSeenExtend(ts[..n], ts[n], causes);
    FirstSeenBump(ts[..n + 1], causes, j, causes[j].1.2 + 1);
  }

  /** A red card with a new key opens its record with count one. */
  lemma CauseOpen(ts: seq<RedTally>, n: int, causes: Causes)
    requires 0 <= n < |ts| && CausesCounted(ts, n, causes) && TotalRed in ts[n].flags
    requires !HasKey(causes, ts[n].key)
    ensures CausesCounted(ts, n + 1, causes + [(ts[n].key, (ts[n].app, ts[n].kind, 1))])
  {
    assert ts[..n + 1] == ts[..n] + [ts[n]];
    TallyOpen(ts[..n], ts[n], causes);
    FirstRedIffCounted(ts[..n], ts[n].key);
    FirstSeenOpen(ts[..n], ts[n], causes);
  }

  /** An entry that is no red card leaves the tally as it is. */
  lemma CauseSkip(ts: seq<RedTally>, n: int, causes: Causes)
    requires 0 <= n < |ts| && CausesCounted(ts, n, causes) && TotalRed !in ts[n].flags
    ensures CausesCounted(ts, n + 1, causes)
  {
    assert ts[..n + 1][..n] == ts[..n];
    assert ts[..n + 1] == ts[..n] + [ts[n]];
    FirstSeenExtend(ts[..n], ts[n], causes);
  }

  /** The month buckets after `n` entries. */
  ghost predicate BucketsCounted(ts: seq<RedTally>, n: int, seeds: seq<Seed>, t: Table<Bucket<RedFlag>>)
    requires 0 <= n <= |ts|
  {
    && DistinctKeys(t)
    && (forall i :: 0 <= i < |seeds| ==> HasKey(t, seeds[i].key))
    && (forall i :: 0 <= i < n ==> ts[i].month.Some? && HasKey(t, ts[i].month.value.0))
    && (forall f :: SumSlot(t, f) == CountFlag(ts[..n], f))
    && (forall i :: 0 <= i < |t| ==> Bounded(t[i].1.counts))
  }

  /** A bucket created for an entry's month keeps the invariant. */
  lemma NewRedBucket(ts: seq<RedTally>, n: int, seeds: seq<Seed>, t: Table<Bucket<RedFlag>>, item: (string, Bucket<RedFlag>))
    requires 0 <= n <= |ts| && BucketsCounted(ts, n, seeds, t)
    requires !HasKey(t, item.0) && item.1.counts == NoReds
    ensures BucketsCounted(ts, n, seeds, t + [item])
  {
    KeysKeptAppend(t, item);
    forall f
      ensures SumSlot(t + [item], f) == SumSlot(t, f)
    {
      SumSlotAppend(t, item, f);
    }
    assert forall i :: 0 <= i < |t| ==> (t + [item])[i] == t[i];
  }

  /** `Add` keeps a bucket bounded when the added counters bring the total with them. */
  lemma AddKeepsBounded(counts: map<RedFlag, nat>, flags: set<RedFlag>)
    requires Bounded(counts) && FlagsClosed(flags)
    ensures Bounded(Add(counts, flags))
  {
    forall f
      ensures Get(Add(counts, flags), f) <= Get(Add(counts, flags), TotalRed)
    {
      assert f in flags ==> TotalRed in flags;
    }
  }

  lemma RedBucketStep(ts: seq<RedTally>, n: int, seeds: seq<Seed>, t: Table<Bucket<RedFlag>>, k: nat)
    requires 0 <= n < |ts| && BucketsCounted(ts, n, seeds, t)
    requires ts[n].month.Some? && k < |t| && t[k].0 == ts[n].month.value.0 && FlagsClosed(ts[n].flags)
    ensures var b := t[k].1;
            BucketsCounted(ts, n + 1, seeds, t[k := (t[k].0, Bucket(b.year, b.month, Add(b.counts, ts[n].flags)))])
  {
    var b := t[k].1;
    var item := (t[k].0, Bucket(b.year, b.month, Add(b.counts, ts[n].flags)));
    var u := t[k := item];
    assert ts[..n + 1][..n] == ts[..n];
    forall f
      ensures SumSlot(u, f) == CountFlag(ts[..n + 1], f)
    {
      SumSlotUpdate(t, k, item, f);
    }
    KeysKeptUpdate(t, k, item);
    AddKeepsBounded(b.counts, ts[n].flags);
    assert u[k].0 == ts[n].month.value.0;
  }

  /** A zeroed bucket for entry `n`'s month, missing so far, counts nothing yet. */
  lemma RedMonthNew(ts: seq<RedTally>, n: int, seeds: seq<Seed>, t: Table<Bucket<RedFlag>>, item: (string, Bucket<RedFlag>))
    requires 0 <= n < |ts| && BucketsCounted(ts, n, seeds, t) && MonthsCounted(RedMarks(ts), n, n, seeds, t)
    requires ts[n].month == Some((item.0, item.1.year, item.1.month))
    requires !HasKey(t, item.0) && item.1.counts == NoReds
    ensures MonthsCounted(RedMarks(ts), n, n + 1, seeds, t + [item])
  {
    MonthsNew(RedMarks(ts), n, seeds, t, item);
  }

  /** The bucket of entry `n`'s month, created zeroed when missing. */
  method RedMonthBucket(ts: seq<RedTally>, n: int, seeds: seq<Seed>, t: Table<Bucket<RedFlag>>) returns (u: Table<Bucket<RedFlag>>, k: nat)
    requires 0 <= n < |ts| && BucketsCounted(ts, n, seeds, t) && MonthsCounted(RedMarks(ts), n, n, seeds, t)
    requires ts[n].month.Some?
    ensures BucketsCounted(ts, n, seeds, u) && MonthsCounted(RedMarks(ts), n, n + 1, seeds, u)
    ensures k < |u| && u[k].0 == ts[n].month.value.0
  {
    var (key, year, month) := ts[n].month.value;
    var found := Find(t, key);
    if found.None? {
      var item := (key, Bucket(year, month, NoReds));
      NewRedBucket(ts, n, seeds, t, item);
      RedMonthNew(ts, n, seeds, t, item);
      u, k := t + [item], |t|;
    } else {
      MonthsWiden(RedMarks(ts), n, seeds, t);
      u, k := t, found.value;
    }
  }

  /** One turn of the counting loop: the card goes into its month's bucket and, when red, into the root-cause tally. */
  method CountRedOne(ts: seq<RedTally>, n: int, seeds: seq<Seed>, t: Table<Bucket<RedFlag>>, causes: Causes)
    returns (t': Table<Bucket<RedFlag>>, causes': Causes)
    requires 0 <= n < |ts| && BucketsCounted(ts, n, seeds, t) && CausesCounted(ts, n, causes)
    requires MonthsCounted(RedMarks(ts), n, n, seeds, t)
    requires ts[n].month.Some? && FlagsClosed(ts[n].flags)
    ensures BucketsCounted(ts, n + 1, seeds, t') && CausesCounted(ts, n + 1, causes')
    ensures MonthsCounted(RedMarks(ts), n + 1, n + 1, seeds, t')
  {
    var u, k := RedMonthBucket(ts, n, seeds, t);
    RedBucketStep(ts, n, seeds, u, k);
    MonthsStep(RedMarks(ts), n, seeds, u, k);
    var b := u[k].1;
    t' := u[k := (u[k].0, Bucket(b.year, b.month, Add(b.counts, ts[n].flags)))];
    if TotalRed !in ts[n].flags {
      CauseSkip(ts, n, causes);
      causes' := causes;
    } else {
      var j := Find(causes, ts[n].key);
      if j.Some? {
        CauseBump(ts, n, causes, j.value);
        var c := causes[j.value];
        causes' := causes[j.value := (c.0, (c.1.0, c.1.1, c.1.2 + 1))];
      } else {
        CauseOpen(ts, n, causes);
        causes' := causes + [(ts[n].key, (ts[n].app, ts[n].kind, 1))];
      }
    }
  }

  /** The counting loop over the kept XVA entries; None where an entry's date raises. */
  method CountReds(ts: seq<RedTally>, seeds: seq<Seed>) returns (r: Option<(Table<Bucket<RedFlag>>, Causes)>)
    requires forall i :: 0 <= i < |ts| ==> FlagsClosed(ts[i].flags)
    ensures r.None? <==> exists i :: 0 <= i < |ts| && ts[i].month.None?
    ensures r.Some? ==> BucketsCounted(ts, |ts|, seeds, r.value.0) && CausesCounted(ts, |ts|, r.value.1)
    ensures r.Some? ==> MonthsCounted(RedMarks(ts), |ts|, |ts|, seeds, r.value.0)
  {
    var t := SeedBuckets(seeds, NoReds);
    MonthsStart(RedMarks(ts), seeds, t);
    var causes: Causes := [];
    assert ts[..0] == [];
    var n := 0;
    while n < |ts|
      invariant 0 <= n <= |ts|
      invariant BucketsCounted(ts, n, seeds, t) && CausesCounted(ts, n, causes)
      invariant MonthsCounted(RedMarks(ts), n, n, seeds, t)
    {
      if ts[n].month.None? {
        return None;
      }
      t, causes := CountRedOne(ts, n, seeds, t, causes);
      n := n + 1;
    }
    r := Some((t, causes));
  }

  /** The JSON body: the sorted monthly red counts, the root-cause list and its grand total. */
  datatype XvaReport = XvaReport(monthly: Table<Bucket<RedFlag>>, causes: Causes, grandTotal: nat)

  datatype XvaAnswer = XvaOk(report: XvaReport) | XvaError

  /** The request ends in 500: the filter, the seeding or a kept entry's date raises. */
  predicate XvaFails(rows: seq<Data>, q: XvaQuery) {
    var kept := XvaKept(rows, q);
    || (exists i :: 0 <= i < |rows| && XvaAdmit(rows[i], q) == Fail)
    || XvaSeedsFail(q.years, q.months, kept)
    || (exists i :: 0 <= i < |kept| && EntryMonth(kept[i]).None?)
  }

  /** What the report says about the kept entries `kept` under query `q`. */
  ghost predicate XvaReportOk(kept: seq<Data>, q: XvaQuery, report: XvaReport) {
    MonthlyOk(kept, q, report.monthly) && CausesOk(kept, report.causes, report.grandTotal)
  }

  /**
   * The month buckets, sorted by key: each counts exactly the red cards of its
   * own month, counter by counter, within its total; the counters summed over
   * them are the overall ones; there is one for every selected and every
   * counted month, and none for anything else.
   */
  ghost predicate MonthlyOk(kept: seq<Data>, q: XvaQuery, monthly: Table<Bucket<RedFlag>>) {
    var ts := RedTallies(kept);
    var ly, lm := LoopYears(q.years, q.months, kept), LoopMonths(q.years, q.months);
    && (forall i, f :: 0 <= i < |monthly| ==> Get(monthly[i].1.counts, f) == CountIn(RedMarks(ts), monthly[i].0, f))
    && (ly.Some? ==> forall i :: 0 <= i < |monthly| ==> SelectedOrCounted(kept, ly.value, lm, monthly[i]))
    && (forall f :: SumSlot(monthly, f) == CountFlag(ts, f))
    && (forall i :: 0 <= i < |monthly| ==> Bounded(monthly[i].1.counts))
    && Ascending(monthly)
    && (forall i :: 0 <= i < |kept| ==> EntryMonth(kept[i]).Some? && HasKey(monthly, EntryMonth(kept[i]).value.0))
    && (LoopYears(q.years, q.months, kept).Some? ==>
          forall s :: SeedOf(LoopYears(q.years, q.months, kept).value, LoopMonths(q.years, q.months), s) ==>
                      HasKey(monthly, s.key))
  }

  /**
   * The root causes: one record per key, each counting the red cards under
   * it and showing the (defaulted) root-cause application and type of the
   * first of them, listed in the order the keys were first met; the counts
   * add up to the grand total.
   */
  ghost predicate CausesOk(kept: seq<Data>, causes: Causes, grandTotal: nat) {
    var ts := RedTallies(kept);
    && DistinctKeys(causes)
    && (forall i :: 0 <= i < |causes| ==> causes[i].1.2 == CountCause(ts, causes[i].0))
    && (forall k :: HasKey(causes, k) <==> CountCause(ts, k) > 0)
    && grandTotal == SumCounts(causes) == CountFlag(ts, TotalRed)
    && FirstSeen(ts, causes)
  }

  /** The counted buckets, once sorted, make the report's monthly part. */
  lemma MonthlyFacts(kept: seq<Data>, q: XvaQuery, seeds: seq<Seed>, t: Table<Bucket<RedFlag>>,
                     monthly: Table<Bucket<RedFlag>>)
    requires LoopYears(q.years, q.months, kept).Some?
    requires forall s :: s in seeds <==> SeedOf(LoopYears(q.years, q.months, kept).value, LoopMonths(q.years, q.months), s)
    requires BucketsCounted(RedTallies(kept), |kept|, seeds, t)
    requires MonthsCounted(RedMarks(RedTallies(kept)), |kept|, |kept|, seeds, t)
    requires multiset(monthly) == multiset(t) && Ascending(monthly)
    ensures MonthlyOk(kept, q, monthly)
  {
    var ts := RedTallies(kept);
    assert ts[..|ts|] == ts;
    Rearranged(t, monthly);
    MonthlyExact(kept, RedMarks(ts), LoopYears(q.years, q.months, kept).value, LoopMonths(q.years, q.months),
                 seeds, t, monthly);
    forall s | SeedOf(LoopYears(q.years, q.months, kept).value, LoopMonths(q.years, q.months), s)
      ensures HasKey(monthly, s.key)
    {
      var i :| 0 <= i < |seeds| && seeds[i] == s;
    }
    forall i | 0 <= i < |kept|
      ensures EntryMonth(kept[i]).Some? && HasKey(monthly, EntryMonth(kept[i]).value.0)
    {
      assert ts[i] == RedTallyOf(kept[i]);
    }
  }

  /** The root-cause tally over every kept entry makes the report's causes part. */
  lemma CausesFacts(kept: seq<Data>, causes: Causes)
    requires CausesCounted(RedTallies(kept), |kept|, causes)
    ensures CausesOk(kept, causes, SumCounts(causes))
  {
    var ts := RedTallies(kept);
    assert ts[..|ts|] == ts;
  }

  /** The sorted buckets and the root-cause tally make the report. */
  lemma XvaReportFacts(kept: seq<Data>, q: XvaQuery, seeds: seq<Seed>, t: Table<Bucket<RedFlag>>, causes: Causes,
                       monthly: Table<Bucket<RedFlag>>)
    requires LoopYears(q.years, q.months, kept).Some?
    requires forall s :: s in seeds <==> SeedOf(LoopYears(q.years, q.months, kept).value, LoopMonths(q.years, q.months), s)
    requires BucketsCounted(RedTallies(kept), |kept|, seeds, t) && CausesCounted(RedTallies(kept), |kept|, causes)
    requires MonthsCounted(RedMarks(RedTallies(kept)), |kept|, |kept|, seeds, t)
    requires multiset(monthly) == multiset(t) && Ascending(monthly)
    ensures XvaReportOk(kept, q, XvaReport(monthly, causes, SumCounts(causes)))
  {
    MonthlyFacts(kept, q, seeds, t, monthly);
    CausesFacts(kept, causes);
  }

  /** The counting loop and the sort over the kept entries, once the months are seeded. */
  method XvaReportOf(kept: seq<Data>, q: XvaQuery, seeds: seq<Seed>) returns (answer: XvaAnswer)
    requires LoopYears(q.years, q.months, kept).Some?
    requires forall s :: s in seeds <==> SeedOf(LoopYears(q.years, q.months, kept).value, LoopMonths(q.years, q.months), s)
    ensures answer.XvaError? <==> exists i :: 0 <= i < |kept| && EntryMonth(kept[i]).None?
    ensures answer.XvaOk? ==> XvaReportOk(kept, q, answer.report)
  {
    var ts := RedTallies(kept);
    var counted := CountReds(ts, seeds);
    if counted.None? {
      var i :| 0 <= i < |ts| && ts[i].month.None?;
      assert EntryMonth(kept[i]).None?;
      return XvaError;
    }
    var (t, causes) := counted.value;
    var monthly := SortByKey(t);
    XvaReportFacts(kept, q, seeds, t, causes, monthly);
    answer := XvaOk(XvaReport(monthly, causes, SumCounts(causes)));
  }

  /** `get_xva_stats`, with the date window as intended. */
  method GetXvaStats(rows: seq<Data>, q: XvaQuery) returns (answer: XvaAnswer)
    ensures answer.XvaError? <==> XvaFails(rows, q)
    ensures answer.XvaOk? ==> XvaReportOk(XvaKept(rows, q), q, answer.report)
  {
    var filtered := FilterXva(rows, q);
    if filtered.None? {
      return XvaError;
    }
    var kept := filtered.value;
    var seeds := SelectXvaMonths(q.years, q.months, kept);
    if seeds.None? {
      return XvaError;
    }
    answer := XvaReportOf(kept, q, seeds.value);
  }
}
