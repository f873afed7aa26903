/**
 * The entries table's columns: which columns an application shows, and the
 * user's column order, which a header drag-and-drop rearranges and which is
 * always completed with every known column before it is saved.
 */
module Columns {
  /** The table's columns, one constructor per `data-column` name. */
  datatype Column =
    | Date | Day | PrcMail | CpAlerts | Quality | IssueDescription | PrbId | HiimId | Remarks
    | Acq | Valo | Sensi | CfRa | QualityLegacy | QualityTarget | RootCauseApplication | RootCauseType
    | XvaRemarks | Actions

  /** The `data-column` name of a column. */
  function Name(c: Column): string {
    match c
    case Date => "date"
    case Day => "day"
    case PrcMail => "prc_mail"
    case CpAlerts => "cp_alerts"
    case Quality => "quality"
    case IssueDescription => "issue_description"
    case PrbId => "prb_id"
    case HiimId => "hiim_id"
    case Remarks => "remarks"
    case Acq => "acq"
    case Valo => "valo"
    case Sensi => "sensi"
    case CfRa => "cf_ra"
    case QualityLegacy => "quality_legacy"
    case QualityTarget => "quality_target"
    case RootCauseApplication => "root_cause_application"
    case RootCauseType => "root_cause_type"
    case XvaRemarks => "xva_remarks"
    case Actions => "actions"
  }

  /** Every column the table knows, in the default order. */
  const AllColumns: seq<Column> := [Date, Day, PrcMail, CpAlerts, Quality, IssueDescription, PrbId, HiimId,
    Remarks, Acq, Valo, Sensi, CfRa, QualityLegacy, QualityTarget, RootCauseApplication, RootCauseType,
    XvaRemarks, Actions]

  const StandardColumns: seq<Column> := [Date, Day, IssueDescription, PrbId, HiimId]
  const OriginalColumns: seq<Column> := [PrcMail, CpAlerts, Quality, Remarks]
  const XvaOnlyColumns: seq<Column> := [Acq, Valo, Sensi, CfRa, QualityLegacy, QualityTarget,
    RootCauseApplication, RootCauseType, XvaRemarks]

  /** `getVisibleColumnsForApplication`: XVA shows its own columns, every other application the original ones. */
  function VisibleColumns(application: string): seq<Column> {
    if application == "XVA" then StandardColumns + XvaOnlyColumns + [Actions]
    else StandardColumns + OriginalColumns + [Actions]
  }

  /** Which group a column belongs to, read off the constructor. */
  lemma Groups(c: Column)
    ensures c in StandardColumns <==> c.Date? || c.Day? || c.IssueDescription? || c.PrbId? || c.HiimId?
    ensures c in OriginalColumns <==> c.PrcMail? || c.CpAlerts? || c.Quality? || c.Remarks?
    ensures c in XvaOnlyColumns <==>
              (c.Acq? || c.Valo? || c.Sensi? || c.CfRa? || c.QualityLegacy?
               || c.QualityTarget? || c.RootCauseApplication? || c.RootCauseType? || c.XvaRemarks?)
  {
  }

  /** XVA sees every column but the original ones. */
  lemma XvaHidesOriginalColumns(c: Column)
    ensures c in VisibleColumns("XVA") <==> c !in OriginalColumns
  {
    var v := VisibleColumns("XVA");
    assert v == StandardColumns + XvaOnlyColumns + [Actions];
  }

  /** Every other application sees every column but the XVA ones. */
  lemma OthersHideXvaColumns(application: string, c: Column)
    requires application != "XVA"
    ensures c in VisibleColumns(application) <==> c !in XvaOnlyColumns
  {
    Groups(c);
  }

  /** The two views share exactly the standard columns and "actions". */
  lemma VisibleColumnsShared(c: Column)
    ensures c in VisibleColumns("XVA") && c in VisibleColumns("CVAR ALL") <==> c in StandardColumns || c == Actions
  {
    Groups(c);
  }

  /** Every view opens with the standard columns, closes with "actions" and names no column twice. */
  lemma VisibleColumnsFrame(application: string)
    ensures var r := VisibleColumns(application);
            |r| == (if application == "XVA" then 15 else 10)
            && r[..5] == StandardColumns && r[|r| - 1] == Actions
            && forall i, j :: 0 <= i < j < |r| ==> r[i] != r[j]
  {
  }

  /** The default order lists every column. */
  lemma AllColumnsListed(c: Column)
    ensures c in AllColumns
  {
    match c
    case Date =>
    case Day =>
    case PrcMail =>
    case CpAlerts =>
    case Quality =>
    case IssueDescription =>
    case PrbId =>
    case HiimId =>
    case Remarks =>
    case Acq =>
    case Valo =>
    case Sensi =>
    case CfRa =>
    case QualityLegacy =>
    case QualityTarget =>
    case RootCauseApplication =>
    case RootCauseType =>
    case XvaRemarks =>
    case Actions =>
  }

  /** `indexOf`: the first position of `x`, or -1. */
  function IndexOf<T(==)>(s: seq<T>, x: T): (r: int)
    ensures -1 <= r < |s|
    ensures r == -1 <==> x !in s
    ensures 0 <= r ==> s[r] == x && x !in s[..r]
    decreases |s|
  {
    if |s| == 0 then -1
    else if s[0] == x then 0
    else
      var r := IndexOf(s[1..], x);
      assert s[1..] == s[1..][..|s| - 1];
      if r == -1 then -1
      else
        assert s[..r + 1] == [s[0]] + s[1..][..r];
        r + 1
  }

  /** `all.filter(col => !order.includes(col))`. */
  function MissingFrom<T(==,!new)>(all: seq<T>, order: seq<T>): (r: seq<T>)
    ensures forall c :: c in r <==> c in all && c !in order
    ensures |r| <= |all|
    decreases |all|
  {
    if |all| == 0 then []
    else (if all[0] in order then [] else [all[0]]) + MissingFrom(all[1..], order)
  }

  /**
   * `ensureAllColumnsInOrder` over any list of known names `all` and any
   * closing name `last`: the missing names go just before `last`, or at the
   * end when the order has no `last`.
   */
  function Complete<T(==,!new)>(all: seq<T>, order: seq<T>, last: T): seq<T> {
    var missing := MissingFrom(all, order);
    if |missing| == 0 then order
    else
      var a := IndexOf(order, last);
      if a > -1 then order[..a] + missing + order[a..] else order + missing
  }

  lemma CompleteIsComplete<T(!new)>(all: seq<T>, order: seq<T>, last: T)
    ensures forall c :: c in all ==> c in Complete(all, order, last)
    ensures multiset(Complete(all, order, last)) == multiset(order) + multiset(MissingFrom(all, order))
    ensures forall c :: c in Complete(all, order, last) <==> c in order || c in all
  {
    CompleteMultiset(all, order, last);
    var r := Complete(all, order, last);
    var missing := MissingFrom(all, order);
    forall c
      ensures c in r <==> c in order || c in all
    {
      assert (c in r) == (c in multiset(r));
      assert (c in order) == (c in multiset(order));
      assert (c in missing) == (c in multiset(missing));
    }
  }

  lemma CompleteMultiset<T(!new)>(all: seq<T>, order: seq<T>, last: T)
    ensures multiset(Complete(all, order, last)) == multiset(order) + multiset(MissingFrom(all, order))
  {
    var missing := MissingFrom(all, order);
    var r := Complete(all, order, last);
    if |missing| > 0 {
      var a := IndexOf(order, last);
      if a > -1 {
        var x, z := order[..a], order[a..];
        assert order == x + z;
        assert r == x + missing + z;
        assert multiset(r) == multiset(x) + multiset(missing) + multiset(z);
        assert multiset(order) == multiset(x) + multiset(z);
      } else {
        assert r == order + missing;
      }
    }
  }

  /** A position holding `x` with no `x` before it is where `indexOf` finds it. */
  lemma IndexOfFirst<T>(s: seq<T>, x: T, k: int)
    requires 0 <= k < |s| && s[k] == x && x !in s[..k]
    ensures IndexOf(s, x) == k
  {
    var r := IndexOf(s, x);
    forall j | 0 <= j < k
      ensures s[j] != x
    {
      assert s[..k][j] == s[j];
    }
    forall j | 0 <= j < r
      ensures s[j] != x
    {
      assert s[..r][j] == s[j];
    }
  }

  lemma SpliceParts<T>(x: seq<T>, y: seq<T>, z: seq<T>)
    ensures (x + y + z)[..|x|] == x
    ensures (x + y + z)[..|x| + |y|] == x + y
    ensures (x + y + z)[|x| + |y|..] == z
  {
  }

  /**
   * `r` is `order` with the names `block` spliced in, in that order, just
   * before the first `last` (which moves back by exactly `|block|`), or
   * appended when there is no `last`.
   */
  predicate SplicedBefore<T(==)>(order: seq<T>, r: seq<T>, last: T, block: seq<T>) {
    var m := |block|;
    |r| == |order| + m
    && (last in order ==>
          var a := IndexOf(order, last);
          && IndexOf(r, last) == a + m
          && r[..a] == order[..a] && r[a..a + m] == block && r[a + m..] == order[a..])
    && (last !in order ==> r[..|order|] == order && r[|order|..] == block)
  }

  lemma CompleteKeepsOrder<T(!new)>(all: seq<T>, order: seq<T>, last: T)
    ensures SplicedBefore(order, Complete(all, order, last), last, MissingFrom(all, order))
  {
    var missing := MissingFrom(all, order);
    var m := |missing|;
    var r := Complete(all, order, last);
    if last in order && m > 0 {
      var a := IndexOf(order, last);
      var x, z := order[..a], order[a..];
      assert r == x + missing + z;
      SpliceParts(x, missing, z);
      assert r[a..a + m] == missing;
      assert last !in x + missing;
      assert r[a + m] == z[0] == last;
      IndexOfFirst(r, last, a + m);
    } else if last !in order && m > 0 {
      assert r == order + missing;
    } else if m == 0 {
      assert missing == [];
    }
  }

  /**
   * The filter works name by name and keeps the list's order: one name is
   * kept exactly when the order lacks it, and filtering a concatenation
   * concatenates the filtered parts.
   */
  lemma {:induction false} MissingFromConcat<T(!new)>(x: seq<T>, y: seq<T>, order: seq<T>)
    ensures forall c :: MissingFrom([c], order) == if c in order then [] else [c]
    ensures MissingFrom(x + y, order) == MissingFrom(x, order) + MissingFrom(y, order)
    decreases |x|
  {
    forall c
      ensures MissingFrom([c], order) == if c in order then [] else [c]
    {
      assert [c][1..] == [];
    }
    if |x| > 0 {
      MissingFromStep(x, y, order);
      MissingFromConcat(x[1..], y, order);
    } else {
      assert x + y == y;
    }
  }

  /** The first name of a non-empty concatenation is the first name of its left part. */
  lemma MissingFromStep<T(!new)>(x: seq<T>, y: seq<T>, order: seq<T>)
    requires |x| > 0
    ensures MissingFrom(x + y, order) == (if x[0] in order then [] else [x[0]]) + MissingFrom(x[1..] + y, order)
  {
    var xy := x + y;
    assert xy[0] == x[0] && xy[1..] == x[1..] + y;
  }

  lemma CompleteIdempotent<T(!new)>(all: seq<T>, order: seq<T>, last: T)
    ensures (forall c :: c in all ==> c in order) ==> Complete(all, order, last) == order
    ensures Complete(all, Complete(all, order, last), last) == Complete(all, order, last)
  {
    CompleteIsComplete(all, order, last);
    var r := Complete(all, order, last);
    assert forall c :: c in all ==> c in r;
    if forall c :: c in all ==> c in order {
      NoneMissing(all, order);
    }
    NoneMissing(all, r);
  }

  lemma {:induction false} NoneMissing<T(!new)>(all: seq<T>, order: seq<T>)
    requires forall c :: c in all ==> c in order
    ensures MissingFrom(all, order) == []
    decreases |all|
  {
    if |all| > 0 {
      NoneMissing(all[1..], order);
    }
  }

  function Missing(order: seq<Column>): seq<Column> {
    MissingFrom(AllColumns, order)
  }

  /**
   * `ensureAllColumnsInOrder` on the table's columns, closing with "actions":
   * the completed order holds every known column, keeps the old columns with
   * their repeats, and adds only missing ones.
   */
  function EnsureAll(order: seq<Column>): (r: seq<Column>)
    ensures forall c :: c in AllColumns ==> c in r
    ensures multiset(r) == multiset(order) + multiset(Missing(order))
    ensures forall c :: c in r <==> c in order || c in AllColumns
  {
    CompleteIsComplete(AllColumns, order, Actions);
    Complete(AllColumns, order, Actions)
  }

  /**
   * The old columns keep their relative order, the missing columns go in
   * just before "actions" in the order the full list gives them, and
   * "actions" moves back by exactly their number.
   */
  lemma EnsureAllKeepsOrder(order: seq<Column>)
    ensures SplicedBefore(order, EnsureAll(order), Actions, Missing(order))
  {
    CompleteKeepsOrder(AllColumns, order, Actions);
  }

  /** An order that already names every column is left as it is, so completing twice is completing once. */
  lemma EnsureAllIdempotent(order: seq<Column>)
    ensures (forall c :: c in AllColumns ==> c in order) ==> EnsureAll(order) == order
    ensures EnsureAll(EnsureAll(order)) == EnsureAll(order)
  {
    CompleteIdempotent(AllColumns, order, Actions);
  }

  /** `s` without its element at `i`. */
  function Without<T>(s: seq<T>, i: int): (r: seq<T>)
    requires 0 <= i < |s|
    ensures |r| == |s| - 1
  {
    s[..i] + s[i + 1..]
  }

  /** Taking out one element loses exactly that element. */
  lemma WithoutMultiset<T>(s: seq<T>, i: int)
    requires 0 <= i < |s|
    ensures multiset(Without(s, i)) + multiset{s[i]} == multiset(s)
  {
    assert s == s[..i] + [s[i]] + s[i + 1..];
  }

  /** Putting `x` in at `i` and taking it out again gives the sequence back. */
  lemma InsertedAt<T>(rest: seq<T>, i: int, x: T)
    requires 0 <= i <= |rest|
    ensures var s := rest[..i] + [x] + rest[i..];
            && |s| == |rest| + 1 && s[i] == x && Without(s, i) == rest
            && multiset(s) == multiset(rest) + multiset{x}
  {
    var s := rest[..i] + [x] + rest[i..];
    assert s[..i] == rest[..i];
    assert s[i + 1..] == rest[i..];
    assert rest[..i] + rest[i..] == rest;
  }

  /**
   * The drop's two splices: the dragged column leaves `from` and is inserted
   * at `target` of what remains. It lands at the drop position, every other
   * column keeps its order, and nothing is lost.
   */
  function Move<T>(order: seq<T>, from: int, target: int): (r: seq<T>)
    requires 0 <= from < |order| && 0 <= target < |order|
    ensures |r| == |order|
    ensures r[target] == order[from]
    ensures Without(r, target) == Without(order, from)
    ensures multiset(r) == multiset(order)
  {
    var rest := Without(order, from);
    WithoutMultiset(order, from);
    InsertedAt(rest, target, order[from]);
    rest[..target] + [order[from]] + rest[target..]
  }

  /** Dragging the column back to where it came from restores the order. */
  lemma MoveUndo<T>(order: seq<T>, from: int, target: int)
    requires 0 <= from < |order| && 0 <= target < |order|
    ensures Move(Move(order, from, target), target, from) == order
  {
    var r := Move(order, from, target);
    var rest := Without(order, from);
    assert Without(r, target) == rest && r[target] == order[from];
    ReinsertWithout(order, from);
  }

  /** Putting an element back where it was taken out restores the sequence. */
  lemma ReinsertWithout<T>(s: seq<T>, i: int)
    requires 0 <= i < |s|
    ensures Without(s, i)[..i] + [s[i]] + Without(s, i)[i..] == s
  {
    var rest := Without(s, i);
    assert rest[..i] == s[..i];
    assert rest[i..] == s[i + 1..];
    assert s == s[..i] + [s[i]] + s[i + 1..];
  }

  /** The table's column order, as the page keeps it between drags. */
  class ColumnLayout {
    var columnOrder: seq<Column>

    constructor()
      ensures columnOrder == AllColumns
    {
      columnOrder := AllColumns;
    }

    /** `ensureAllColumnsInOrder`, splicing the missing columns into the kept order. */
    method EnsureAllColumnsInOrder()
      modifies this
      ensures columnOrder == EnsureAll(old(columnOrder))
      ensures forall c :: c in AllColumns ==> c in columnOrder
    {
      ghost var completed := EnsureAll(columnOrder);
      var missing := Missing(columnOrder);
      if |missing| > 0 {
        var actionsIndex := IndexOf(columnOrder, Actions);
        if actionsIndex > -1 {
          columnOrder := columnOrder[..actionsIndex] + missing + columnOrder[actionsIndex..];
        } else {
          columnOrder := columnOrder + missing;
        }
      }
    }

    /**
     * `handleDrop`: when both columns are in the order, the dragged one is
     * moved to the drop column's position and the order is completed; the
     * result says whether the order changed hands (and was saved).
     */
    method Drop(draggedColumn: Column, dropColumn: Column) returns (moved: bool)
      modifies this
      ensures var f := IndexOf(old(columnOrder), draggedColumn);
              var t := IndexOf(old(columnOrder), dropColumn);
              if f != -1 && t != -1 then moved && columnOrder == EnsureAll(Move(old(columnOrder), f, t))
              else !moved && columnOrder == old(columnOrder)
    {
      var draggedOrderIndex := IndexOf(columnOrder, draggedColumn);
      var dropOrderIndex := IndexOf(columnOrder, dropColumn);
      moved := false;
      if draggedOrderIndex != -1 && dropOrderIndex != -1 {
        ghost var moving := Move(columnOrder, draggedOrderIndex, dropOrderIndex);
        columnOrder := Without(columnOrder, draggedOrderIndex);
        columnOrder := columnOrder[..dropOrderIndex] + [draggedColumn] + columnOrder[dropOrderIndex..];
        assert columnOrder == moving;
        EnsureAllColumnsInOrder();
        moved := true;
      }
    }
  }
}
