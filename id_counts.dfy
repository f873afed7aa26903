/**
 * `calculatePrbCounts` / `calculateHiimCounts`: how many distinct problem or
 * incident identifiers the shown entries carry, and how many of them are
 * active and closed. Identifiers are collected into three sets from the
 * legacy single field and from the normalized list of every entry.
 */
module IdCounts {
  import opened Wrappers
  import opened Entries

  /** Which of the three sets an identifier is collected into. */
  datatype Bucket = AnyStatus | ActiveOnly | ClosedOnly

  predicate InBucket(b: Bucket, status: string) {
    match b
    case AnyStatus => true
    case ActiveOnly => status == "active"
    case ClosedOnly => status == "closed"
  }

  /** The identifiers of a list that go into bucket `b`. */
  function RecordIds(rs: seq<IdRecord>, b: Bucket): set<string>
    decreases |rs|
  {
    if |rs| == 0 then {}
    else
      var r := rs[|rs| - 1];
      RecordIds(rs[..|rs| - 1], b) + (if RecordId(r) != "" && InBucket(b, r.status) then {RecordId(r)} else {})
  }

  /** The legacy identifier of an entry, when it goes into bucket `b`. */
  function LegacyIds(e: Entry, kind: IdKind, b: Bucket): set<string> {
    if LegacyId(e, kind) != "" && InBucket(b, LegacyStatus(e, kind)) then {LegacyId(e, kind)} else {}
  }

  /** Everything one entry contributes to bucket `b`. */
  function EntryIds(e: Entry, kind: IdKind, b: Bucket): set<string> {
    LegacyIds(e, kind, b) + match IdList(e, kind) case None => {} case Some(rs) => RecordIds(rs, b)
  }

  /** The set collected for bucket `b` over a sequence of entries. */
  function CollectedIds(entries: seq<Entry>, kind: IdKind, b: Bucket): set<string>
    decreases |entries|
  {
    if |entries| == 0 then {}
    else CollectedIds(entries[..|entries| - 1], kind, b) + EntryIds(entries[|entries| - 1], kind, b)
  }

  /** The sizes of the three sets. */
  method CountIds(entries: seq<Entry>, kind: IdKind) returns (total: nat, active: nat, closed: nat)
    ensures total == |CollectedIds(entries, kind, AnyStatus)|
    ensures active == |CollectedIds(entries, kind, ActiveOnly)|
    ensures closed == |CollectedIds(entries, kind, ClosedOnly)|
  {
    var ids: set<string> := {};
    var activeIds: set<string> := {};
    var closedIds: set<string> := {};
    var i := 0;
    while i < |entries|
      invariant 0 <= i <= |entries|
      invariant ids == CollectedIds(entries[..i], kind, AnyStatus)
      invariant activeIds == CollectedIds(entries[..i], kind, ActiveOnly)
      invariant closedIds == CollectedIds(entries[..i], kind, ClosedOnly)
    {
      assert entries[..i + 1][..i] == entries[..i];
      ids, activeIds, closedIds := AddEntry(ids, activeIds, closedIds, entries[i], kind);
      i := i + 1;
    }
    assert entries[..i] == entries;
    total, active, closed := |ids|, |activeIds|, |closedIds|;
  }

  /** The body of the per-entry callback: add the entry's legacy identifier and its list's identifiers. */
  method AddEntry(ids: set<string>, activeIds: set<string>, closedIds: set<string>, e: Entry, kind: IdKind)
    returns (ids': set<string>, activeIds': set<string>, closedIds': set<string>)
    ensures ids' == ids + EntryIds(e, kind, AnyStatus)
    ensures activeIds' == activeIds + EntryIds(e, kind, ActiveOnly)
    ensures closedIds' == closedIds + EntryIds(e, kind, ClosedOnly)
  {
    ids', activeIds', closedIds' := AddOne(ids, activeIds, closedIds, LegacyId(e, kind), LegacyStatus(e, kind));
    var list := IdList(e, kind);
    if list.Some? {
      ids', activeIds', closedIds' := AddRecords(ids', activeIds', closedIds', list.value);
    }
  }

  /** The list loop of the callback: every record's identifier in turn. */
  method AddRecords(ids: set<string>, activeIds: set<string>, closedIds: set<string>, rs: seq<IdRecord>)
    returns (ids': set<string>, activeIds': set<string>, closedIds': set<string>)
    ensures ids' == ids + RecordIds(rs, AnyStatus)
    ensures activeIds' == activeIds + RecordIds(rs, ActiveOnly)
    ensures closedIds' == closedIds + RecordIds(rs, ClosedOnly)
  {
    ids', activeIds', closedIds' := ids, activeIds, closedIds;
    var j := 0;
    while j < |rs|
      invariant 0 <= j <= |rs|
      invariant ids' == ids + RecordIds(rs[..j], AnyStatus)
      invariant activeIds' == activeIds + RecordIds(rs[..j], ActiveOnly)
      invariant closedIds' == closedIds + RecordIds(rs[..j], ClosedOnly)
    {
      assert rs[..j + 1][..j] == rs[..j];
      ids', activeIds', closedIds' := AddOne(ids', activeIds', closedIds', RecordId(rs[j]), rs[j].status);
      j := j + 1;
    }
    assert rs[..j] == rs;
  }

  /** One identifier with its status: a non-empty one goes into every bucket its status fits. */
  method AddOne(ids: set<string>, activeIds: set<string>, closedIds: set<string>, id: string, status: string)
    returns (ids': set<string>, activeIds': set<string>, closedIds': set<string>)
    ensures ids' == ids + (if id != "" && InBucket(AnyStatus, status) then {id} else {})
    ensures activeIds' == activeIds + (if id != "" && InBucket(ActiveOnly, status) then {id} else {})
    ensures closedIds' == closedIds + (if id != "" && InBucket(ClosedOnly, status) then {id} else {})
  {
    ids', activeIds', closedIds' := ids, activeIds, closedIds;
    if id != "" {
      ids' := ids' + {id};
      if status == "active" {
        activeIds' := activeIds' + {id};
      } else if status == "closed" {
        closedIds' := closedIds' + {id};
      }
    }
  }

  lemma {:induction false} RecordIdsMembers(rs: seq<IdRecord>, b: Bucket, id: string)
    ensures id in RecordIds(rs, b) <==> exists k :: 0 <= k < |rs| && RecordId(rs[k]) == id && id != "" && InBucket(b, rs[k].status)
    decreases |rs|
  {
    if |rs| > 0 {
      var front := rs[..|rs| - 1];
      RecordIdsMembers(front, b, id);
      if exists k :: 0 <= k < |rs| && RecordId(rs[k]) == id && id != "" && InBucket(b, rs[k].status) {
        var k :| 0 <= k < |rs| && RecordId(rs[k]) == id && id != "" && InBucket(b, rs[k].status);
        if k < |rs| - 1 {
          assert front[k] == rs[k];
        }
      }
      if exists k :: 0 <= k < |front| && RecordId(front[k]) == id && id != "" && InBucket(b, front[k].status) {
        var k :| 0 <= k < |front| && RecordId(front[k]) == id && id != "" && InBucket(b, front[k].status);
        assert rs[k] == front[k];
      }
    }
  }

  lemma {:induction false} CollectedIdsMembers(entries: seq<Entry>, kind: IdKind, b: Bucket, id: string)
    ensures id in CollectedIds(entries, kind, b) <==> exists k :: 0 <= k < |entries| && id in EntryIds(entries[k], kind, b)
    decreases |entries|
  {
    if |entries| > 0 {
      var front := entries[..|entries| - 1];
      CollectedIdsMembers(front, kind, b, id);
      if exists k :: 0 <= k < |entries| && id in EntryIds(entries[k], kind, b) {
        var k :| 0 <= k < |entries| && id in EntryIds(entries[k], kind, b);
        if k < |entries| - 1 {
          assert front[k] == entries[k];
        }
      }
      if exists k :: 0 <= k < |front| && id in EntryIds(front[k], kind, b) {
        var k :| 0 <= k < |front| && id in EntryIds(front[k], kind, b);
        assert entries[k] == front[k];
      }
    }
  }

  /** The entry has `id` in its legacy field or in its list, with a status that fits bucket `b`. */
  predicate CarriedBy(e: Entry, kind: IdKind, b: Bucket, id: string) {
    || (LegacyId(e, kind) == id && InBucket(b, LegacyStatus(e, kind)))
    || (IdList(e, kind).Some? &&
        exists r :: 0 <= r < |IdList(e, kind).value| &&
          RecordId(IdList(e, kind).value[r]) == id && InBucket(b, IdList(e, kind).value[r].status))
  }

  /**
   * An identifier is counted exactly when some entry carries it, in its legacy
   * field or in its list, with a status that fits the bucket.
   */
  lemma CountedIffCarried(entries: seq<Entry>, kind: IdKind, b: Bucket, id: string)
    ensures id in CollectedIds(entries, kind, b) <==>
            id != "" && exists k :: 0 <= k < |entries| && CarriedBy(entries[k], kind, b, id)
  {
    CollectedIdsMembers(entries, kind, b, id);
    forall k | 0 <= k < |entries| && IdList(entries[k], kind).Some?
      ensures id in RecordIds(IdList(entries[k], kind).value, b) <==>
              exists r :: 0 <= r < |IdList(entries[k], kind).value| && RecordId(IdList(entries[k], kind).value[r]) == id
                          && id != "" && InBucket(b, IdList(entries[k], kind).value[r].status)
    {
      RecordIdsMembers(IdList(entries[k], kind).value, b, id);
    }
  }

  /** Active and closed identifiers are among all identifiers, and the empty identifier is never counted. */
  lemma BucketsWithinTotal(entries: seq<Entry>, kind: IdKind)
    ensures CollectedIds(entries, kind, ActiveOnly) <= CollectedIds(entries, kind, AnyStatus)
    ensures CollectedIds(entries, kind, ClosedOnly) <= CollectedIds(entries, kind, AnyStatus)
    ensures |CollectedIds(entries, kind, ActiveOnly)| <= |CollectedIds(entries, kind, AnyStatus)|
    ensures |CollectedIds(entries, kind, ClosedOnly)| <= |CollectedIds(entries, kind, AnyStatus)|
    ensures "" !in CollectedIds(entries, kind, AnyStatus)
  {
    forall id | id in CollectedIds(entries, kind, ActiveOnly)
      ensures id in CollectedIds(entries, kind, AnyStatus)
    {
      CountedIffCarried(entries, kind, ActiveOnly, id);
      CountedIffCarried(entries, kind, AnyStatus, id);
    }
    forall id | id in CollectedIds(entries, kind, ClosedOnly)
      ensures id in CollectedIds(entries, kind, AnyStatus)
    {
      CountedIffCarried(entries, kind, ClosedOnly, id);
      CountedIffCarried(entries, kind, AnyStatus, id);
    }
    CountedIffCarried(entries, kind, AnyStatus, "");
    SubsetSize(CollectedIds(entries, kind, ActiveOnly), CollectedIds(entries, kind, AnyStatus));
    SubsetSize(CollectedIds(entries, kind, ClosedOnly), CollectedIds(entries, kind, AnyStatus));
  }

  lemma SubsetSize<T>(a: set<T>, b: set<T>)
    requires a <= b
    ensures |a| <= |b|
  {
    assert b == a + (b - a);
  }

  /** The counts do not depend on the order of the entries. */
  lemma {:induction false} CollectedIdsAppend(a: seq<Entry>, c: seq<Entry>, kind: IdKind, b: Bucket)
    ensures CollectedIds(a + c, kind, b) == CollectedIds(a, kind, b) + CollectedIds(c, kind, b)
    decreases |c|
  {
    if |c| == 0 {
      assert a + c == a;
    } else {
      var front := c[..|c| - 1];
      assert (a + c)[..|a + c| - 1] == a + front;
      CollectedIdsAppend(a, front, kind, b);
    }
  }

  lemma OrderIndependent(a: seq<Entry>, c: seq<Entry>, kind: IdKind, b: Bucket)
    ensures CollectedIds(a + c, kind, b) == CollectedIds(c + a, kind, b)
  {
    CollectedIdsAppend(a, c, kind, b);
    CollectedIdsAppend(c, a, kind, b);
  }

  /**
   * One identifier can be counted as both active and closed: a legacy field
   * says `active` on one entry and a list element says `closed` on another.
   */
  lemma ActiveAndClosedAtOnce(e1: Entry, e2: Entry)
    requires e1.prbIdNumber == "100" && e1.prbIdStatus == "active" && e1.prbs.None?
    requires e2.prbIdNumber == "" && e2.prbs == Some([IdRecord("100", "", "closed")])
    ensures CollectedIds([e1, e2], Prb, AnyStatus) == {"100"}
    ensures CollectedIds([e1, e2], Prb, ActiveOnly) == {"100"}
    ensures CollectedIds([e1, e2], Prb, ClosedOnly) == {"100"}
  {
    assert [e1, e2][..1] == [e1];
    assert [e1][..0] == [];
    var rs := [IdRecord("100", "", "closed")];
    assert rs[..0] == [];
    assert RecordIds(rs, AnyStatus) == {"100"} && RecordIds(rs, ClosedOnly) == {"100"} && RecordIds(rs, ActiveOnly) == {};
    assert EntryIds(e1, Prb, AnyStatus) == {"100"} && EntryIds(e1, Prb, ActiveOnly) == {"100"} && EntryIds(e1, Prb, ClosedOnly) == {};
    assert EntryIds(e2, Prb, AnyStatus) == {"100"} && EntryIds(e2, Prb, ClosedOnly) == {"100"} && EntryIds(e2, Prb, ActiveOnly) == {};
    assert CollectedIds([e1], Prb, AnyStatus) == {"100"};
    assert CollectedIds([e1], Prb, ActiveOnly) == {"100"};
    assert CollectedIds([e1], Prb, ClosedOnly) == {};
  }
}
