/**
 * The XVA entry form's rule that a timed field needs a status:
 * `validateXVAStatusRequirements` looks at SENSI, then CF RA, then VALO, and
 * reports the first field whose timing is filled in but whose status is blank.
 * ACQ has no such rule.
 */
module XvaForm {
  import opened Wrappers
  import opened Text

  /** The three timed XVA fields; an absent value is the empty string. */
  datatype XvaTimings = XvaTimings(
    sensiText: string, sensiStatus: string,
    cfRaText: string, cfRaStatus: string,
    valoText: string, valoStatus: string)

  const SensiMessage := "SENSI status is required when timing is entered."
  const CfRaMessage := "CF RA status is required when timing is entered."
  const ValoMessage := "VALO status is required when timing is entered."

  /** A field breaks the rule when its timing is not blank and its status is blank. */
  predicate MissingStatus(text: string, status: string) {
    Trim(text) != [] && Trim(status) == []
  }

  /** `validateXVAStatusRequirements`: the first message, or none when every timed field has a status. */
  function StatusRequirementError(e: XvaTimings): Option<string> {
    if e.sensiText != [] && Trim(e.sensiText) != [] && (e.sensiStatus == [] || Trim(e.sensiStatus) == []) then
      Some(SensiMessage)
    else if e.cfRaText != [] && Trim(e.cfRaText) != [] && (e.cfRaStatus == [] || Trim(e.cfRaStatus) == []) then
      Some(CfRaMessage)
    else if e.valoText != [] && Trim(e.valoText) != [] && (e.valoStatus == [] || Trim(e.valoStatus) == []) then
      Some(ValoMessage)
    else None
  }

  /** The form passes exactly when no timed field lacks a status. */
  lemma NoErrorIffAllTimedFieldsHaveStatus(e: XvaTimings)
    ensures StatusRequirementError(e) == None <==>
            !MissingStatus(e.sensiText, e.sensiStatus) && !MissingStatus(e.cfRaText, e.cfRaStatus)
            && !MissingStatus(e.valoText, e.valoStatus)
  {
    assert Trim([]) == [];
  }

  /** The message names the first offending field in the order SENSI, CF RA, VALO. */
  lemma ErrorNamesFirstOffender(e: XvaTimings)
    ensures StatusRequirementError(e) == Some(SensiMessage) <==> MissingStatus(e.sensiText, e.sensiStatus)
    ensures StatusRequirementError(e) == Some(CfRaMessage) <==>
            !MissingStatus(e.sensiText, e.sensiStatus) && MissingStatus(e.cfRaText, e.cfRaStatus)
    ensures StatusRequirementError(e) == Some(ValoMessage) <==>
            !MissingStatus(e.sensiText, e.sensiStatus) && !MissingStatus(e.cfRaText, e.cfRaStatus)
            && MissingStatus(e.valoText, e.valoStatus)
  {
    assert Trim([]) == [];
  }
}
