/**
 * The weekly table of the dashboard: entries are grouped under the Monday
 * that starts their week, the weeks are listed newest first, and a month-end
 * week header carries the month's red Quality and Punctuality tallies.
 */
module WeeklyView {
  import opened Wrappers
  import opened Calendar
  import opened Entries

  /** The items whose key is `k`, in their original order. */
  function GroupOf<T, K(==)>(items: seq<T>, keys: seq<K>, k: K): (r: seq<T>)
    requires |items| == |keys|
    ensures |r| <= |items|
    decreases |items|
  {
    if |items| == 0 then []
    else
      var n := |items| - 1;
      GroupOf(items[..n], keys[..n], k) + (if keys[n] == k then [items[n]] else [])
  }

  /** The Monday under which an entry is filed (entries always carry a real date). */
  function WeekKey(e: Entry): Date {
    if ValidDate(e.date) then WeekStart(e.date) else e.date
  }

  /** The week start of every entry, position by position. */
  function WeekKeys(entries: seq<Entry>): (r: seq<Date>)
    ensures |r| == |entries|
    decreases |entries|
  {
    if |entries| == 0 then []
    else
      var n := |entries| - 1;
      WeekKeys(entries[..n]) + [WeekKey(entries[n])]
  }

  lemma {:induction false} WeekKeysAt(entries: seq<Entry>, i: int)
    requires 0 <= i < |entries|
    ensures WeekKeys(entries)[i] == WeekKey(entries[i])
    decreases |entries|
  {
    var n := |entries| - 1;
    if i < n {
      assert entries[..n][i] == entries[i];
      WeekKeysAt(entries[..n], i);
    }
  }

  /** The entries of week `k`, in their original order. */
  function WeekOf(entries: seq<Entry>, k: Date): seq<Entry> {
    GroupOf(entries, WeekKeys(entries), k)
  }

  /** The elements of `s`, each once, in order of first appearance. */
  function FirstOccurrences<T(==)>(s: seq<T>): seq<T>
    decreases |s|
  {
    if |s| == 0 then []
    else
      var front := FirstOccurrences(s[..|s| - 1]);
      if s[|s| - 1] in front then front else front + [s[|s| - 1]]
  }

  /** The week starts of the entries, each once, in order of first appearance (`Object.keys` order). */
  function WeeksInOrder(entries: seq<Entry>): seq<Date> {
    FirstOccurrences(WeekKeys(entries))
  }

  /** After the first `n` items: `weeks` lists their keys once each and `groups` holds each key's items. */
  ghost predicate Grouped<T, K(!new)>(items: seq<T>, keys: seq<K>, n: int, groups: map<K, seq<T>>, weeks: seq<K>)
    requires |items| == |keys| && 0 <= n <= |items|
  {
    && weeks == FirstOccurrences(keys[..n])
    && (forall k :: k in groups <==> k in weeks)
    && (forall k :: k in groups ==> groups[k] == GroupOf(items[..n], keys[..n], k))
    && (forall k :: k !in groups ==> GroupOf(items[..n], keys[..n], k) == [])
  }

  /** `weeklyGroups`: each entry pushed onto the list of its week start. */
  method GroupByWeek(entries: seq<Entry>) returns (groups: map<Date, seq<Entry>>, weeks: seq<Date>)
    requires ValidEntries(entries)
    ensures weeks == WeeksInOrder(entries)
    ensures forall k :: k in groups <==> k in weeks
    ensures forall k :: k in groups ==> groups[k] == WeekOf(entries, k)
  {
    ghost var keys := WeekKeys(entries);
    groups := map[];
    weeks := [];
    var i := 0;
    while i < |entries|
      invariant 0 <= i <= |entries|
      invariant Grouped(entries, keys, i, groups, weeks)
    {
      var e := entries[i];
      var weekStart := WeekKey(e);
      WeekKeysAt(entries, i);
      PushStep(entries, keys, i, groups, weeks);
      if weekStart in groups {
        groups := groups[weekStart := groups[weekStart] + [e]];
      } else {
        groups := groups[weekStart := [e]];
        weeks := weeks + [weekStart];
      }
      i := i + 1;
    }
    assert entries[..i] == entries && keys[..i] == keys;
  }

  /** Pushing item `i` onto the group of its key, for any items and keys. */
  lemma PushStep<T, K(!new)>(items: seq<T>, keys: seq<K>, i: int, groups: map<K, seq<T>>, weeks: seq<K>)
    requires |items| == |keys| && 0 <= i < |items|
    requires Grouped(items, keys, i, groups, weeks)
    ensures keys[i] in groups ==>
              Grouped(items, keys, i + 1, groups[keys[i] := groups[keys[i]] + [items[i]]], weeks)
    ensures keys[i] !in groups ==>
              Grouped(items, keys, i + 1, groups[keys[i] := [items[i]]], weeks + [keys[i]])
  {
    PushKeepsGroups(items, keys, i, groups);
    FirstOccurrencesStep(keys, i);
    FirstOccurrencesMembers(keys[..i], keys[i]);
  }

  lemma FirstOccurrencesStep<K>(keys: seq<K>, i: int)
    requires 0 <= i < |keys|
    ensures FirstOccurrences(keys[..i + 1])
            == if keys[i] in FirstOccurrences(keys[..i]) then FirstOccurrences(keys[..i])
               else FirstOccurrences(keys[..i]) + [keys[i]]
  {
    assert keys[..i + 1][..i] == keys[..i];
  }

  /** Pushing item `i` onto the list of its key keeps every list equal to its key's items. */
  lemma PushKeepsGroups<T, K>(items: seq<T>, keys: seq<K>, i: int, groups: map<K, seq<T>>)
    requires |items| == |keys| && 0 <= i < |items|
    requires forall k :: k in groups ==> groups[k] == GroupOf(items[..i], keys[..i], k)
    requires forall k :: k !in groups ==> GroupOf(items[..i], keys[..i], k) == []
    ensures var g := groups[keys[i] := (if keys[i] in groups then groups[keys[i]] else []) + [items[i]]];
            (forall k :: k in g ==> g[k] == GroupOf(items[..i + 1], keys[..i + 1], k))
            && (forall k :: k !in g ==> GroupOf(items[..i + 1], keys[..i + 1], k) == [])
  {
    assert items[..i + 1][..i] == items[..i];
    assert keys[..i + 1][..i] == keys[..i];
  }

  lemma {:induction false} GroupOfMembers<T, K>(items: seq<T>, keys: seq<K>, k: K, x: T)
    requires |items| == |keys|
    ensures x in GroupOf(items, keys, k) <==> exists i :: 0 <= i < |items| && items[i] == x && keys[i] == k
    decreases |items|
  {
    if |items| > 0 {
      var n := |items| - 1;
      GroupOfMembers(items[..n], keys[..n], k, x);
      if exists i :: 0 <= i < |items| && items[i] == x && keys[i] == k {
        var i :| 0 <= i < |items| && items[i] == x && keys[i] == k;
        if i < n {
          assert items[..n][i] == x && keys[..n][i] == k;
        }
      }
    }
  }

  lemma {:induction false} FirstOccurrencesMembers<T>(s: seq<T>, x: T)
    ensures x in FirstOccurrences(s) <==> x in s
    decreases |s|
  {
    if |s| > 0 {
      FirstOccurrencesMembers(s[..|s| - 1], x);
      assert s == s[..|s| - 1] + [s[|s| - 1]];
    }
  }

  lemma {:induction false} FirstOccurrencesDistinct<T>(s: seq<T>)
    ensures forall i, j :: 0 <= i < j < |FirstOccurrences(s)| ==> FirstOccurrences(s)[i] != FirstOccurrences(s)[j]
    decreases |s|
  {
    if |s| > 0 {
      FirstOccurrencesDistinct(s[..|s| - 1]);
    }
  }

  /**
   * A group holds exactly the entries of its week, every entry of the input
   * lands in the group of its Monday, and every group key is a Monday listed once.
   */
  lemma GroupsPartitionEntries(entries: seq<Entry>, k: Date, e: Entry)
    requires ValidEntries(entries)
    ensures e in WeekOf(entries, k) <==> exists i :: 0 <= i < |entries| && entries[i] == e && WeekStart(e.date) == k
    ensures k in WeeksInOrder(entries) <==> exists i :: 0 <= i < |entries| && WeekStart(entries[i].date) == k
    ensures k in WeeksInOrder(entries) ==> ValidDate(k) && Weekday(k) == Monday
    ensures forall i, j :: 0 <= i < j < |WeeksInOrder(entries)| ==> WeeksInOrder(entries)[i] != WeeksInOrder(entries)[j]
  {
    var keys := WeekKeys(entries);
    GroupOfMembers(entries, keys, k, e);
    FirstOccurrencesMembers(keys, k);
    FirstOccurrencesDistinct(keys);
    forall i | 0 <= i < |entries|
      ensures keys[i] == WeekStart(entries[i].date)
    {
      WeekKeysAt(entries, i);
    }
    if k in keys {
      var i :| 0 <= i < |keys| && keys[i] == k;
      assert WeekStart(entries[i].date) == k;
    }
  }

  /** The comparator's order: no week is followed by a newer one. */
  predicate NewestFirst(weeks: seq<Date>) {
    forall i, j :: 0 <= i < j < |weeks| ==> !Before(weeks[i], weeks[j])
  }

  /** `k` placed into a newest-first list before the first week not newer than it. */
  function InsertNewestFirst(sorted: seq<Date>, k: Date): (r: seq<Date>)
    ensures multiset(r) == multiset(sorted) + multiset{k}
    decreases |sorted|
  {
    if |sorted| == 0 then [k]
    else if !Before(k, sorted[0]) then [k] + sorted
    else
      assert sorted == [sorted[0]] + sorted[1..];
      [sorted[0]] + InsertNewestFirst(sorted[1..], k)
  }

  lemma {:induction false} InsertKeepsNewestFirst(sorted: seq<Date>, k: Date)
    requires NewestFirst(sorted)
    ensures NewestFirst(InsertNewestFirst(sorted, k))
    decreases |sorted|
  {
    if |sorted| > 0 && Before(k, sorted[0]) {
      var rest := InsertNewestFirst(sorted[1..], k);
      InsertKeepsNewestFirst(sorted[1..], k);
      forall x | x in rest
        ensures !Before(sorted[0], x)
      {
        assert x in multiset(rest);
        assert x in multiset(sorted[1..]) || x == k;
      }
      var r := [sorted[0]] + rest;
      forall i, j | 0 <= i < j < |r|
        ensures !Before(r[i], r[j])
      {
        if i == 0 {
          assert r[j] in rest;
        } else {
          assert r[i] == rest[i - 1] && r[j] == rest[j - 1];
        }
      }
    }
  }

  /** `Object.keys(weeklyGroups).sort((a, b) => new Date(b) - new Date(a))`. */
  method SortNewestFirst(weeks: seq<Date>) returns (sorted: seq<Date>)
    ensures NewestFirst(sorted)
    ensures multiset(sorted) == multiset(weeks)
  {
    sorted := [];
    var i := 0;
    while i < |weeks|
      invariant 0 <= i <= |weeks|
      invariant NewestFirst(sorted)
      invariant multiset(sorted) == multiset(weeks[..i])
    {
      assert weeks[..i + 1] == weeks[..i] + [weeks[i]];
      InsertKeepsNewestFirst(sorted, weeks[i]);
      sorted := InsertNewestFirst(sorted, weeks[i]);
      i := i + 1;
    }
    assert weeks[..i] == weeks;
  }

  /** Distinct weeks listed newest first have strictly decreasing day numbers. */
  lemma NewestFirstByTime(sorted: seq<Date>)
    requires forall i :: 0 <= i < |sorted| ==> ValidDate(sorted[i])
    requires NewestFirst(sorted)
    requires forall i, j :: 0 <= i < j < |sorted| ==> sorted[i] != sorted[j]
    ensures forall i, j :: 0 <= i < j < |sorted| ==> DayNumber(sorted[i]) > DayNumber(sorted[j])
  {
    forall i, j | 0 <= i < j < |sorted|
      ensures DayNumber(sorted[i]) > DayNumber(sorted[j])
    {
      BeforeIffEarlierDayNumber(sorted[i], sorted[j]);
      if DayNumber(sorted[i]) == DayNumber(sorted[j]) {
        DayNumberInjective(sorted[i], sorted[j]);
      }
    }
  }

  predicate QualityRed(e: Entry) {
    e.qualityStatus == "Red"
  }

  predicate PunctualityRed(e: Entry) {
    e.prcMailStatus == "Red" || e.cpAlertsStatus == "Red"
  }

  function CountQualityRed(entries: seq<Entry>): nat
    decreases |entries|
  {
    if |entries| == 0 then 0
    else CountQualityRed(entries[..|entries| - 1]) + (if QualityRed(entries[|entries| - 1]) then 1 else 0)
  }

  function CountPunctualityRed(entries: seq<Entry>): nat
    decreases |entries|
  {
    if |entries| == 0 then 0
    else CountPunctualityRed(entries[..|entries| - 1]) + (if PunctualityRed(entries[|entries| - 1]) then 1 else 0)
  }

  /** The month-end header's tally of red Quality and red Punctuality entries. */
  method MonthEndTally(entries: seq<Entry>) returns (quality: nat, punctuality: nat)
    ensures quality == CountQualityRed(entries)
    ensures punctuality == CountPunctualityRed(entries)
  {
    quality, punctuality := 0, 0;
    var i := 0;
    while i < |entries|
      invariant 0 <= i <= |entries|
      invariant quality == CountQualityRed(entries[..i])
      invariant punctuality == CountPunctualityRed(entries[..i])
    {
      assert entries[..i + 1][..i] == entries[..i];
      if entries[i].qualityStatus == "Red" {
        quality := quality + 1;
      }
      if entries[i].prcMailStatus == "Red" || entries[i].cpAlertsStatus == "Red" {
        punctuality := punctuality + 1;
      }
      i := i + 1;
    }
    assert entries[..i] == entries;
  }

  function QualityRedIndices(entries: seq<Entry>): set<int> {
    set i | 0 <= i < |entries| && QualityRed(entries[i])
  }

  function PunctualityRedIndices(entries: seq<Entry>): set<int> {
    set i | 0 <= i < |entries| && PunctualityRed(entries[i])
  }

  /** The Quality tally is the number of entries whose Quality status is red. */
  lemma {:induction false} QualityTallyCountsRedEntries(entries: seq<Entry>)
    ensures CountQualityRed(entries) == |QualityRedIndices(entries)|
    decreases |entries|
  {
    if |entries| > 0 {
      var n := |entries| - 1;
      var front := entries[..n];
      QualityTallyCountsRedEntries(front);
      var q := if QualityRed(entries[n]) then {n} else {};
      assert QualityRedIndices(entries) == QualityRedIndices(front) + q;
      assert n !in QualityRedIndices(front);
    }
  }

  /** The Punctuality tally is the number of entries whose PRC mail or CP alerts status is red. */
  lemma {:induction false} PunctualityTallyCountsRedEntries(entries: seq<Entry>)
    ensures CountPunctualityRed(entries) == |PunctualityRedIndices(entries)|
    decreases |entries|
  {
    if |entries| > 0 {
      var n := |entries| - 1;
      var front := entries[..n];
      PunctualityTallyCountsRedEntries(front);
      var p := if PunctualityRed(entries[n]) then {n} else {};
      assert PunctualityRedIndices(entries) == PunctualityRedIndices(front) + p;
      assert n !in PunctualityRedIndices(front);
    }
  }
}
