/**
 * `get_entries`: the stored rows that pass the query-string filters, newest
 * date first and, within a date, newest creation time first. The filters are
 * a date window, a case-insensitive application substring, an exact quality
 * status and the two "has a PRB" / "has a HIIM" switches. A stored date or a
 * filter date that `strptime` refuses makes the whole request fail with 500.
 */
module EntryQuery {
  import opened Wrappers
  import opened Text
  import opened Calendar
  import opened IsoDate
  import opened Payload

  /** The query-string arguments; None for an absent one. */
  datatype Query = Query(
    startDate: Option<string>, endDate: Option<string>, application: Option<string>,
    qualityStatus: Option<string>, prbOnly: Option<string>, hiimOnly: Option<string>)

  const NoFilters := Query(None, None, None, None, None, None)

  /** The argument is present and non-empty (`if start_date:`). */
  predicate Given(arg: Option<string>) {
    arg.Some? && arg.value != ""
  }

  /** `request.args.get(k, 'false').lower() == 'true'`. */
  predicate Switch(arg: Option<string>) {
    arg.Some? && Lower(arg.value) == "true"
  }

  /** `convert_date_string(entry.get('date', default))` where it yields a date. */
  function StoredDate(row: Data, default: string): Option<Date> {
    match GetOr(row, "date", Str(default))
    case Str(s) => ParseDate(s)
    case _ => None
  }

  /** A legacy PRB id or a non-empty `prbs` list. */
  predicate HasPrb(row: Data) {
    Truthy(GetOr(row, "prb_id_number", Null)) || NonEmptyList(row, "prbs")
  }

  predicate HasHiim(row: Data) {
    Truthy(GetOr(row, "hiim_id_number", Null)) || NonEmptyList(row, "hiims")
  }

  /** What the filter loop does with one row: keep it, skip it (`continue`), or raise. */
  datatype Admission = Keep | Skip | Fail

  /** The body of the filter loop, each test in the order the handler makes it. */
  function Admit(row: Data, q: Query): Admission {
    var date := StoredDate(row, "");
    var application := GetOr(row, "application_name", Str(""));
    if Given(q.startDate) && (date.None? || ParseDate(q.startDate.value).None?) then Fail
    else if Given(q.startDate) && Before(date.value, ParseDate(q.startDate.value).value) then Skip
    else if Given(q.endDate) && (date.None? || ParseDate(q.endDate.value).None?) then Fail
    else if Given(q.endDate) && Before(ParseDate(q.endDate.value).value, date.value) then Skip
    else if Given(q.application) && !application.Str? then Fail
    else if Given(q.application) && !Contains(Lower(application.s), Lower(q.application.value)) then Skip
    else if Given(q.qualityStatus) && GetOr(row, "quality_status", Null) != Str(q.qualityStatus.value) then Skip
    else if Switch(q.prbOnly) && !HasPrb(row) then Skip
    else if Switch(q.hiimOnly) && !HasHiim(row) then Skip
    else Keep
  }

  /** The filters as conditions on the row, without their order. */
  predicate Selected(row: Data, q: Query) {
    var date := StoredDate(row, "");
    var application := GetOr(row, "application_name", Str(""));
    && (Given(q.startDate) ==>
          date.Some? && ParseDate(q.startDate.value).Some? && !Before(date.value, ParseDate(q.startDate.value).value))
    && (Given(q.endDate) ==>
          date.Some? && ParseDate(q.endDate.value).Some? && !Before(ParseDate(q.endDate.value).value, date.value))
    && (Given(q.application) ==> application.Str? && Contains(Lower(application.s), Lower(q.application.value)))
    && (Given(q.qualityStatus) ==> GetOr(row, "quality_status", Null) == Str(q.qualityStatus.value))
    && (Switch(q.prbOnly) ==> HasPrb(row))
    && (Switch(q.hiimOnly) ==> HasHiim(row))
  }

  /** A row is kept exactly when it meets every given filter. */
  lemma KeepIffSelected(row: Data, q: Query)
    ensures Admit(row, q) == Keep <==> Selected(row, q)
  {
  }

  /** Raising needs a date filter and an unreadable date, or an application filter and a name that is not text. */
  lemma FailCauses(row: Data, q: Query)
    ensures Admit(row, q) == Fail <==>
              (Given(q.startDate) && (StoredDate(row, "").None? || ParseDate(q.startDate.value).None?))
              || (!(Given(q.startDate) && Before(StoredDate(row, "").value, ParseDate(q.startDate.value).value))
                  && Given(q.endDate) && (StoredDate(row, "").None? || ParseDate(q.endDate.value).None?))
              || (Selected(row, Query(q.startDate, q.endDate, None, None, None, None))
                  && Given(q.application) && !GetOr(row, "application_name", Str("")).Str?)
  {
  }

  /** Without filters every row is kept, whatever its date holds. */
  lemma NoFiltersKeepAll(row: Data)
    ensures Admit(row, NoFilters) == Keep
  {
  }

  /** On dates stored in ISO form, the window keeps exactly the days from start to end inclusive. */
  lemma DateWindow(row: Data, d: Date, start: Date, end: Date)
    requires ValidDate(d) && 1 <= d.year <= 9999
    requires ValidDate(start) && 1 <= start.year <= 9999
    requires ValidDate(end) && 1 <= end.year <= 9999
    requires "date" in row && row["date"] == Str(Format(d))
    ensures var q := Query(Some(Format(start)), Some(Format(end)), None, None, None, None);
            Admit(row, q) == Keep <==> !Before(d, start) && !Before(end, d)
    ensures var q := Query(Some(Format(start)), Some(Format(end)), None, None, None, None);
            Admit(row, q) != Fail
  {
    ParseFormat(d);
    ParseFormat(start);
    ParseFormat(end);
  }

  /** The rows the filter loop appends, in their stored order. */
  function Kept(rows: seq<Data>, q: Query): (r: seq<Data>)
    ensures |r| <= |rows|
    decreases |rows|
  {
    if |rows| == 0 then []
    else Kept(rows[..|rows| - 1], q) + (if Admit(rows[|rows| - 1], q) == Keep then [rows[|rows| - 1]] else [])
  }

  /** Exactly the kept rows are listed, and nothing that is not stored. */
  lemma {:induction false} KeptMembers(rows: seq<Data>, q: Query, x: Data)
    ensures x in Kept(rows, q) <==> x in rows && Admit(x, q) == Keep
    decreases |rows|
  {
    if |rows| > 0 {
      var init, last := rows[..|rows| - 1], rows[|rows| - 1];
      var step := if Admit(last, q) == Keep then [last] else [];
      assert Kept(rows, q) == Kept(init, q) + step;
      assert rows == init + [last];
      KeptMembers(init, q, x);
    }
  }

  /** The sort key `(convert_date_string(date), created_at)` with the handler's defaults. */
  function SortKey(row: Data): Option<(Date, string)> {
    var date := StoredDate(row, "1900-01-01");
    match GetOr(row, "created_at", Str("1900-01-01T00:00:00"))
    case Str(created) => if date.Some? then Some((date.value, created)) else None
    case _ => None
  }

  /** Tuple order on sort keys: by date, then by creation time. */
  predicate KeyLess(a: (Date, string), b: (Date, string)) {
    Before(a.0, b.0) || (a.0 == b.0 && StringLess(a.1, b.1))
  }

  lemma KeyLessTotal(a: (Date, string), b: (Date, string))
    ensures a == b || KeyLess(a, b) || KeyLess(b, a)
  {
    StringLessTotal(a.1, b.1);
  }

  /** "Not smaller than" is transitive. */
  lemma NotLessTransitive(a: (Date, string), b: (Date, string), c: (Date, string))
    requires !KeyLess(a, b) && !KeyLess(b, c)
    ensures !KeyLess(a, c)
  {
    KeyLessTotal(a, b);
    KeyLessTotal(b, c);
    if KeyLess(a, c) {
      if a.0 == b.0 && b.0 == c.0 {
        if a != b && b != c {
          StringLessTransitive(c.1, b.1, a.1);
        }
        if a.1 != c.1 {
          StringLessAsymmetric(a.1, c.1);
        } else {
          StringLessIrreflexive(a.1);
        }
      }
    }
  }

  /** A kept row with the key the sort computed for it. */
  datatype Keyed = Keyed(key: (Date, string), row: Data)

  /** Every row carries the key `SortKey` gives it. */
  predicate Labelled(s: seq<Keyed>) {
    forall i :: 0 <= i < |s| ==> SortKey(s[i].row) == Some(s[i].key)
  }

  /** The result order of `sort(..., reverse=True)`: no key is smaller than a later one. */
  predicate Descending(s: seq<Keyed>) {
    forall i, j :: 0 <= i < j < |s| ==> !KeyLess(s[i].key, s[j].key)
  }

  /** `k` placed after every row whose key is not smaller than its own. */
  function InsertDescending(sorted: seq<Keyed>, k: Keyed): (r: seq<Keyed>)
    ensures multiset(r) == multiset(sorted) + multiset{k}
    decreases |sorted|
  {
    if |sorted| == 0 then [k]
    else if KeyLess(sorted[0].key, k.key) then [k] + sorted
    else
      assert sorted == [sorted[0]] + sorted[1..];
      [sorted[0]] + InsertDescending(sorted[1..], k)
  }

  /** A row whose key is not below any key of a descending sequence can go in front of it. */
  lemma ConsDescending(x: Keyed, rest: seq<Keyed>)
    requires Descending(rest)
    requires forall i :: 0 <= i < |rest| ==> !KeyLess(x.key, rest[i].key)
    ensures Descending([x] + rest)
  {
    var r := [x] + rest;
    forall i, j | 0 <= i < j < |r|
      ensures !KeyLess(r[i].key, r[j].key)
    {
      assert r[j] == rest[j - 1];
      if i > 0 {
        assert r[i] == rest[i - 1];
      }
    }
  }

  lemma {:induction false} InsertKeepsDescending(sorted: seq<Keyed>, k: Keyed)
    requires Descending(sorted)
    ensures Descending(InsertDescending(sorted, k))
    decreases |sorted|
  {
    if |sorted| > 0 && KeyLess(sorted[0].key, k.key) {
      var first := sorted[0].key;
      if first.0 == k.key.0 {
        StringLessAsymmetric(first.1, k.key.1);
      }
      assert !KeyLess(k.key, first);
      forall i | 0 <= i < |sorted|
        ensures !KeyLess(k.key, sorted[i].key)
      {
        if i > 0 {
          NotLessTransitive(k.key, first, sorted[i].key);
        }
      }
      ConsDescending(k, sorted);
    } else if |sorted| > 0 {
      var tail := sorted[1..];
      var rest := InsertDescending(tail, k);
      InsertKeepsDescending(tail, k);
      var first := sorted[0].key;
      forall i | 0 <= i < |rest|
        ensures !KeyLess(first, rest[i].key)
      {
        assert rest[i] in multiset(rest);
        if rest[i] != k {
          assert rest[i] in multiset(tail);
          var j :| 0 <= j < |tail| && tail[j] == rest[i];
          assert sorted[j + 1] == rest[i];
        }
      }
      ConsDescending(sorted[0], rest);
    }
  }

  lemma InsertKeepsLabelled(sorted: seq<Keyed>, k: Keyed)
    requires Labelled(sorted) && SortKey(k.row) == Some(k.key)
    ensures Labelled(InsertDescending(sorted, k))
  {
    var r := InsertDescending(sorted, k);
    forall i | 0 <= i < |r|
      ensures SortKey(r[i].row) == Some(r[i].key)
    {
      assert r[i] in multiset(r);
      assert r[i] in multiset(sorted) || r[i] == k;
      if r[i] != k {
        var j :| 0 <= j < |sorted| && sorted[j] == r[i];
      }
    }
  }

  function RowsOf(s: seq<Keyed>): (r: seq<Data>)
    ensures |r| == |s| && forall i :: 0 <= i < |s| ==> r[i] == s[i].row
  {
    seq(|s|, i requires 0 <= i < |s| => s[i].row)
  }

  lemma RowsOfConcat(a: seq<Keyed>, b: seq<Keyed>)
    ensures RowsOf(a + b) == RowsOf(a) + RowsOf(b)
  {
    forall i | 0 <= i < |a + b|
      ensures RowsOf(a + b)[i] == (RowsOf(a) + RowsOf(b))[i]
    {
      if i < |a| {
        assert (a + b)[i] == a[i];
      } else {
        assert (a + b)[i] == b[i - |a|];
      }
    }
  }

  /** Inserting a keyed row adds its row to the rows, and nothing else. */
  lemma {:induction false} InsertRows(sorted: seq<Keyed>, k: Keyed)
    ensures multiset(RowsOf(InsertDescending(sorted, k))) == multiset(RowsOf(sorted)) + multiset{k.row}
    decreases |sorted|
  {
    if |sorted| == 0 {
      assert RowsOf([k]) == [k.row];
    } else if KeyLess(sorted[0].key, k.key) {
      RowsOfConcat([k], sorted);
      assert RowsOf([k]) == [k.row];
    } else {
      var tail := sorted[1..];
      assert sorted == [sorted[0]] + tail;
      InsertRows(tail, k);
      RowsOfConcat([sorted[0]], InsertDescending(tail, k));
      RowsOfConcat([sorted[0]], tail);
      assert RowsOf([sorted[0]]) == [sorted[0].row];
    }
  }

  /** The rows of a sorted, labelled list carry keys in descending order. */
  predicate KeysDescending(rows: seq<Data>) {
    && (forall i :: 0 <= i < |rows| ==> SortKey(rows[i]).Some?)
    && (forall i, j :: 0 <= i < j < |rows| ==> !KeyLess(SortKey(rows[i]).value, SortKey(rows[j]).value))
  }

  lemma LabelledRows(s: seq<Keyed>)
    requires Labelled(s) && Descending(s)
    ensures KeysDescending(RowsOf(s))
  {
  }

  /** The answer: 200 with the rows, or 500. */
  datatype Answer = Entries(rows: seq<Data>) | ServerError
  /**
   * Date text `convert_date_string` cannot read. `sort` computes every row's key
   * before it compares any two, so one such row fails the listing.
   */
  predicate KeyRaises(row: Data) {
    match GetOr(row, "date", Str("1900-01-01"))
    case Str(s) => ParseDate(s).None?
    case _ => false
  }

  /**
   * A key holding a non-text date or `created_at`. Whether it raises depends on
   * which rows the sort compares it with and what those rows hold.
   */
  predicate KeyUntyped(row: Data) {
    !KeyRaises(row) && SortKey(row).None?
  }

  /** A row that fails the request on its own: it raises in the filter, or it is kept and its key raises. */
  predicate Breaks(row: Data, q: Query) {
    Admit(row, q) == Fail || (Admit(row, q) == Keep && KeyRaises(row))
  }

  /** The filter loop: the kept rows, or None when a row raises. */
  method FilterRows(rows: seq<Data>, q: Query) returns (filtered: Option<seq<Data>>)
    ensures filtered.None? <==> exists i :: 0 <= i < |rows| && Admit(rows[i], q) == Fail
    ensures filtered.Some? ==> filtered.value == Kept(rows, q)
  {
    var kept: seq<Data> := [];
    var i := 0;
    while i < |rows|
      invariant 0 <= i <= |rows|
      invariant kept == Kept(rows[..i], q)
      invariant forall j :: 0 <= j < i ==> Admit(rows[j], q) != Fail
    {
      var raised;
      raised, kept := FilterOne(rows, q, i, kept);
      if raised {
        return None;
      }
      i := i + 1;
    }
    assert rows[..i] == rows;
    filtered := Some(kept);
  }

  /** One turn of the filter loop: the row raises, or is appended when it passes. */
  method FilterOne(rows: seq<Data>, q: Query, i: nat, kept: seq<Data>) returns (raised: bool, kept': seq<Data>)
    requires i < |rows| && kept == Kept(rows[..i], q)
    ensures raised <==> Admit(rows[i], q) == Fail
    ensures !raised ==> kept' == Kept(rows[..i + 1], q)
  {
    assert rows[..i + 1][..i] == rows[..i];
    kept' := kept;
    var admission := Admit(rows[i], q);
    raised := admission == Fail;
    if admission == Keep {
      kept' := kept + [rows[i]];
    }
  }

  /** The sort loop's invariant: the first `n` rows are keyed, in descending order. */
  ghost predicate SortedPrefix(rows: seq<Data>, n: int, keyed: seq<Keyed>)
    requires 0 <= n <= |rows|
  {
    && Labelled(keyed) && Descending(keyed)
    && multiset(RowsOf(keyed)) == multiset(rows[..n])
    && forall j :: 0 <= j < n ==> SortKey(rows[j]).Some?
  }

  lemma SortStep(rows: seq<Data>, n: int, keyed: seq<Keyed>, key: (Date, string))
    requires 0 <= n < |rows| && SortedPrefix(rows, n, keyed)
    requires SortKey(rows[n]) == Some(key)
    ensures SortedPrefix(rows, n + 1, InsertDescending(keyed, Keyed(key, rows[n])))
  {
    var k := Keyed(key, rows[n]);
    assert rows[..n + 1] == rows[..n] + [rows[n]];
    InsertKeepsDescending(keyed, k);
    InsertKeepsLabelled(keyed, k);
    InsertRows(keyed, k);
  }


  /** The descending sort on rows whose keys are all (date, text) pairs. */
  method SortTyped(rows: seq<Data>) returns (sorted: seq<Data>)
    requires forall i :: 0 <= i < |rows| ==> SortKey(rows[i]).Some?
    ensures multiset(sorted) == multiset(rows) && KeysDescending(sorted)
  {
    var keyed: seq<Keyed> := [];
    var n := 0;
    while n < |rows|
      invariant 0 <= n <= |rows|
      invariant SortedPrefix(rows, n, keyed)
    {
      var key := SortKey(rows[n]).value;
      SortStep(rows, n, keyed, key);
      keyed := InsertDescending(keyed, Keyed(key, rows[n]));
      n := n + 1;
    }
    assert rows[..n] == rows;
    assert multiset(RowsOf(keyed)) == multiset(rows);
    LabelledRows(keyed);
    sorted := RowsOf(keyed);
  }

  /** The key pass of `sort`: whether some key raises, and whether some key is not a (date, text) pair. */
  method ScanKeys(rows: seq<Data>) returns (raises: bool, untyped: bool)
    ensures raises <==> exists i :: 0 <= i < |rows| && KeyRaises(rows[i])
    ensures !raises ==> (untyped <==> exists i :: 0 <= i < |rows| && KeyUntyped(rows[i]))
  {
    raises, untyped := false, false;
    var n := 0;
    while n < |rows|
      invariant 0 <= n <= |rows|
      invariant !raises
      invariant forall j :: 0 <= j < n ==> !KeyRaises(rows[j])
      invariant untyped <==> exists j :: 0 <= j < n && KeyUntyped(rows[j])
    {
      if KeyRaises(rows[n]) {
        raises := true;
        return;
      }
      if KeyUntyped(rows[n]) {
        untyped := true;
      }
      n := n + 1;
    }
  }

  /**
   * `sort(key=..., reverse=True)`. Every key is computed first, and unreadable
   * date text raises there. A non-text key raises only in a comparison, and
   * `mixedRaises` says whether one of those comparisons does; a lone row is never
   * compared. Keys of mixed kinds promise no order.
   */
  method SortDescending(rows: seq<Data>, mixedRaises: bool) returns (sorted: Option<seq<Data>>)
    ensures sorted.None? <==>
      || (exists i :: 0 <= i < |rows| && KeyRaises(rows[i]))
      || (mixedRaises && |rows| >= 2 && exists i :: 0 <= i < |rows| && KeyUntyped(rows[i]))
    ensures sorted.Some? ==> multiset(sorted.value) == multiset(rows)
    ensures sorted.Some? && (forall i :: 0 <= i < |rows| ==> SortKey(rows[i]).Some?) ==> KeysDescending(sorted.value)
  {
    var raises, untyped := ScanKeys(rows);
    if raises {
      return None;
    }
    if untyped {
      if mixedRaises && |rows| >= 2 {
        return None;
      }
      return Some(rows);
    }
    var typed := SortTyped(rows);
    sorted := Some(typed);
  }

  /** `get_entries`: the filter loop, then the descending sort. */
  method GetEntries(rows: seq<Data>, q: Query, mixedRaises: bool) returns (answer: Answer)
    ensures answer.ServerError? <==>
      || (exists i :: 0 <= i < |rows| && Breaks(rows[i], q))
      || (&& mixedRaises && |Kept(rows, q)| >= 2
          && exists i :: 0 <= i < |rows| && Admit(rows[i], q) == Keep && KeyUntyped(rows[i]))
    ensures answer.Entries? ==> multiset(answer.rows) == multiset(Kept(rows, q))
    ensures answer.Entries? && (forall i :: 0 <= i < |rows| && Admit(rows[i], q) == Keep ==> SortKey(rows[i]).Some?)
            ==> KeysDescending(answer.rows)
  {
    var filtered := FilterRows(rows, q);
    if filtered.None? {
      return ServerError;
    }
    var kept := filtered.value;
    forall j | 0 <= j < |rows| && Admit(rows[j], q) == Keep
      ensures rows[j] in kept
    {
      KeptMembers(rows, q, rows[j]);
    }
    forall i | 0 <= i < |kept|
      ensures exists j :: 0 <= j < |rows| && rows[j] == kept[i] && Admit(rows[j], q) == Keep
    {
      KeptMembers(rows, q, kept[i]);
    }
    var sorted := SortDescending(kept, mixedRaises);
    if sorted.None? {
      return ServerError;
    }
    answer := Entries(sorted.value);
  }

  /** One kept row is never compared, so it is listed whatever its `created_at` holds. */
  method LoneRowListed(row: Data, q: Query, mixedRaises: bool) returns (answer: Answer)
    requires Admit(row, q) == Keep && !KeyRaises(row)
    ensures answer == Entries([row])
  {
    assert [row][..0] == [];
    assert Kept([row], q) == [row];
    answer := GetEntries([row], q, mixedRaises);
    assert |answer.rows| == |multiset(answer.rows)| == 1;
    assert answer.rows[0] in multiset([row]);
  }
}
