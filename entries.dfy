/**
 * A production entry as the dashboard and the server exchange it: one
 * application's day, its timed fields and statuses, and the problem (PRB) and
 * incident (HIIM) identifiers raised that day, both in the legacy single-field
 * form and in the normalized list form. A missing or empty text field is the
 * empty string.
 */
module Entries {
  import opened Wrappers
  import opened Calendar

  /** One element of an entry's `prbs` or `hiims` list. */
  datatype IdRecord = IdRecord(idNumber: string, idAlias: string, status: string)

  datatype Entry = Entry(
    id: int,
    date: Date,
    applicationName: string,
    createdAt: string,
    prcMailText: string, prcMailStatus: string,
    cpAlertsText: string, cpAlertsStatus: string,
    qualityStatus: string,
    prbIdNumber: string, prbIdStatus: string,
    hiimIdNumber: string, hiimIdStatus: string,
    prbs: Option<seq<IdRecord>>,
    hiims: Option<seq<IdRecord>>,
    valoStatus: string, sensiStatus: string, cfRaStatus: string,
    qualityLegacy: string, qualityTarget: string,
    rootCauseApplication: string, rootCauseType: string)

  /** Every entry carries a real calendar date. */
  predicate ValidEntries(entries: seq<Entry>) {
    forall i :: 0 <= i < |entries| ==> ValidDate(entries[i].date)
  }

  datatype IdKind = Prb | Hiim

  /** The legacy single identifier of the given kind. */
  function LegacyId(e: Entry, kind: IdKind): string {
    match kind
    case Prb => e.prbIdNumber
    case Hiim => e.hiimIdNumber
  }

  function LegacyStatus(e: Entry, kind: IdKind): string {
    match kind
    case Prb => e.prbIdStatus
    case Hiim => e.hiimIdStatus
  }

  /** The normalized list of the given kind, when the entry has one. */
  function IdList(e: Entry, kind: IdKind): Option<seq<IdRecord>> {
    match kind
    case Prb => e.prbs
    case Hiim => e.hiims
  }

  /** `record.prb_id_number || record.prb_id || null`: the identifier of a list element, "" when it has none. */
  function RecordId(r: IdRecord): (id: string)
    ensures id == "" <==> r.idNumber == "" && r.idAlias == ""
  {
    if r.idNumber != "" then r.idNumber else r.idAlias
  }
}
