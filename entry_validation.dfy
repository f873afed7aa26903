/**
 * `validate_entry_data`: the server's check of a create or update body. It
 * requires the fields the application needs, checks every truthy status
 * field against its allowed values, checks the PRB and HIIM lists of CVAR
 * entries, and answers with the first problem it meets.
 */
module EntryValidation {
  import opened Wrappers
  import opened Payload
  import opened PyInt

  /** `(True, None)`, `(False, message)`, or an exception escaping the function. */
  datatype Verdict = Accepted | Rejected(message: string) | Raises

  const Colors: seq<Value> := [Str("Red"), Str("Yellow"), Str("Green")]
  const IdStatuses: seq<Value> := [Str("active"), Str("closed")]

  /** `data.get('application_name', '') == 'XVA'`. */
  predicate IsXva(data: Data) {
    GetOr(data, "application_name", Str("")) == Str("XVA")
  }

  function RequiredFields(data: Data): seq<string> {
    if IsXva(data) then ["date", "application_name"]
    else ["date", "application_name", "prc_mail_text", "prc_mail_status"]
  }

  /** A non-empty `issues`, `prbs` or `hiims` list stands in for the PRC mail fields. */
  predicate HasItemLists(data: Data) {
    NonEmptyList(data, "issues") || NonEmptyList(data, "prbs") || NonEmptyList(data, "hiims")
  }

  /** The required field `f` is absent or falsy and nothing stands in for it. */
  predicate Lacks(data: Data, f: string) {
    !FieldTruthy(data, f) && !((f == "prc_mail_text" || f == "prc_mail_status") && HasItemLists(data))
  }

  /** The loop over the required fields: the first one lacking. */
  function FirstLacking(data: Data, fields: seq<string>): (r: Option<string>)
    ensures r.Some? ==> exists i :: 0 <= i < |fields| && fields[i] == r.value && Lacks(data, r.value)
                                     && forall j :: 0 <= j < i ==> !Lacks(data, fields[j])
    ensures r.None? <==> forall i :: 0 <= i < |fields| ==> !Lacks(data, fields[i])
    decreases |fields|
  {
    if |fields| == 0 then None
    else if Lacks(data, fields[0]) then Some(fields[0])
    else
      var r := FirstLacking(data, fields[1..]);
      assert forall i :: 1 <= i < |fields| ==> fields[i] == fields[1..][i - 1];
      if r.Some? then
        var k :| 0 <= k < |fields| - 1 && fields[1..][k] == r.value && Lacks(data, r.value)
                 && forall j :: 0 <= j < k ==> !Lacks(data, fields[1..][j]);
        assert fields[k + 1] == r.value;
        r
      else r
  }

  /** `data.get(k) and data[k] not in allowed`. */
  predicate BadValue(data: Data, k: string, allowed: seq<Value>) {
    FieldTruthy(data, k) && data[k] !in allowed
  }

  /** The message of the first check whose field holds a truthy value outside `allowed`. */
  function FirstBad(data: Data, checks: seq<(string, string)>, allowed: seq<Value>): (r: Option<string>)
    ensures r.None? <==> forall i :: 0 <= i < |checks| ==> !BadValue(data, checks[i].0, allowed)
    decreases |checks|
  {
    if |checks| == 0 then None
    else if BadValue(data, checks[0].0, allowed) then Some(checks[0].1)
    else FirstBad(data, checks[1..], allowed)
  }

  const XvaChecks: seq<(string, string)> := [
    ("valo_status", "Invalid VALO status"), ("sensi_status", "Invalid SENSI status"),
    ("cf_ra_status", "Invalid CF RA status"), ("quality_legacy", "Invalid quality legacy status"),
    ("quality_target", "Invalid quality target status")]

  const CvarChecks: seq<(string, string)> := [
    ("prc_mail_status", "Invalid PRC mail status"), ("cp_alerts_status", "Invalid CP alerts status"),
    ("quality_status", "Invalid quality status")]

  const LegacyIdChecks: seq<(string, string)> := [
    ("prb_id_status", "Invalid PRB ID status"), ("hiim_id_status", "Invalid HIIM ID status")]

  /** `int(v)` succeeds: integers and booleans always, strings by Python's decimal syntax, lists and dictionaries never. */
  predicate IntConvertible(v: Value) {
    match v
    case Null => false
    case Bool(_) => true
    case Int(_) => true
    case Str(s) => ParsesAsInt(s)
    case List(_) => false
    case Object(_) => false
  }

  /** The keys and messages of one list: PRBs or HIIMs. */
  datatype ListRule = ListRule(idKey: string, statusKey: string, idMessage: string, statusMessage: string)

  const PrbRule := ListRule("prb_id_number", "prb_id_status", "Invalid PRB id number", "Invalid PRB ID status in array")
  const HiimRule := ListRule("hiim_id_number", "hiim_id_status", "Invalid HIIM id number", "Invalid HIIM ID status in array")

  /**
   * One list element. A dictionary is checked for a convertible id and an
   * allowed status; any other element makes the key test or `.get` raise.
   */
  function CheckItem(item: Value, rule: ListRule): Verdict {
    if !item.Object? then Raises
    else
      var f := item.fields;
      if rule.idKey in f && f[rule.idKey] != Null && !IntConvertible(f[rule.idKey]) then Rejected(rule.idMessage)
      else if rule.statusKey in f && Truthy(f[rule.statusKey]) && f[rule.statusKey] !in IdStatuses then
        Rejected(rule.statusMessage)
      else Accepted
  }

  /** The loop over a list: the first element that is not accepted decides. */
  function CheckItems(items: seq<Value>, rule: ListRule): (r: Verdict)
    ensures r == Accepted <==> forall i :: 0 <= i < |items| ==> CheckItem(items[i], rule) == Accepted
    ensures r != Accepted ==> exists i :: 0 <= i < |items| && CheckItem(items[i], rule) == r
    ensures r == Raises <==> ItemsRaise(items, rule)
    decreases |items|
  {
    if |items| == 0 then Accepted
    else if CheckItem(items[0], rule) != Accepted then CheckItem(items[0], rule)
    else
      var r := CheckItems(items[1..], rule);
      assert forall i :: 1 <= i < |items| ==> items[i] == items[1..][i - 1];
      r
  }

  /** Some element is not a dictionary, and every element before it is accepted. */
  predicate ItemsRaise(items: seq<Value>, rule: ListRule) {
    exists i :: 0 <= i < |items| && !items[i].Object?
                && forall j :: 0 <= j < i ==> CheckItem(items[j], rule) == Accepted
  }

  /** `if key in data and isinstance(data[key], list)`: check it, else nothing to check. */
  function CheckList(data: Data, key: string, rule: ListRule): Verdict {
    if key in data && data[key].List? then CheckItems(data[key].items, rule) else Accepted
  }

  /** `validate_entry_data`: `(True, None)` exactly when every check passes. */
  function Validate(data: Data): (r: Verdict)
    ensures r == Accepted <==> Acceptable(data)
    ensures r == Raises <==> ValidationRaises(data)
  {
    var fields := RequiredFields(data);
    assert (forall f :: f in fields ==> !Lacks(data, f)) <==> (forall i :: 0 <= i < |fields| ==> !Lacks(data, fields[i]));
    var lacking := FirstLacking(data, RequiredFields(data));
    if lacking.Some? then Rejected("Missing required field: " + lacking.value)
    else
      var statusError := FirstBad(data, if IsXva(data) then XvaChecks else CvarChecks, Colors);
      if statusError.Some? then Rejected(statusError.value)
      else
        var prbs := if IsXva(data) then Accepted else CheckList(data, "prbs", PrbRule);
        if prbs != Accepted then prbs
        else
          var hiims := if IsXva(data) then Accepted else CheckList(data, "hiims", HiimRule);
          if hiims != Accepted then hiims
          else
            var legacyError := FirstBad(data, LegacyIdChecks, IdStatuses);
            if legacyError.Some? then Rejected(legacyError.value) else Accepted
  }

  /**
   * The function raises only on a CVAR body whose required fields and
   * statuses pass, when the PRB list meets an element that is no dictionary
   * before any rejected one, or the PRB list passes and the HIIM list does.
   */
  predicate ValidationRaises(data: Data) {
    && !IsXva(data)
    && (forall f :: f in RequiredFields(data) ==> !Lacks(data, f))
    && (forall i :: 0 <= i < |CvarChecks| ==> !BadValue(data, CvarChecks[i].0, Colors))
    && (|| ListRaises(data, "prbs", PrbRule)
        || (CheckList(data, "prbs", PrbRule) == Accepted && ListRaises(data, "hiims", HiimRule)))
  }

  /** The list under `key` is checked and raises. */
  predicate ListRaises(data: Data, key: string, rule: ListRule) {
    key in data && data[key].List? && ItemsRaise(data[key].items, rule)
  }

  /** Every check Validate makes, stated without its order. */
  predicate Acceptable(data: Data) {
    && (forall f :: f in RequiredFields(data) ==> !Lacks(data, f))
    && (forall i :: 0 <= i < |XvaChecks| ==> IsXva(data) ==> !BadValue(data, XvaChecks[i].0, Colors))
    && (forall i :: 0 <= i < |CvarChecks| ==> !IsXva(data) ==> !BadValue(data, CvarChecks[i].0, Colors))
    && (!IsXva(data) ==> CheckList(data, "prbs", PrbRule) == Accepted && CheckList(data, "hiims", HiimRule) == Accepted)
    && (forall i :: 0 <= i < |LegacyIdChecks| ==> !BadValue(data, LegacyIdChecks[i].0, IdStatuses))
  }

  /** When a required field lacks, the answer names the first such field and nothing else is checked. */
  lemma MissingFieldReportedFirst(data: Data)
    ensures var fields := RequiredFields(data);
            (exists i :: 0 <= i < |fields| && Lacks(data, fields[i])) <==> FirstLacking(data, fields).Some?
    ensures var first := FirstLacking(data, RequiredFields(data));
            first.Some? ==> Validate(data) == Rejected("Missing required field: " + first.value)
  {
  }

  /** XVA only needs a truthy date: its name is already truthy, and its lists are never checked, so it never raises. */
  lemma XvaRequirements(data: Data)
    requires IsXva(data)
    ensures FirstLacking(data, RequiredFields(data)).None? <==> FieldTruthy(data, "date")
    ensures Validate(data) != Raises
  {
    assert "application_name" in data && data["application_name"] == Str("XVA");
    assert FieldTruthy(data, "application_name");
    var fields := RequiredFields(data);
    assert fields[0] == "date" && fields[1] == "application_name";
  }

  /** Other applications also need the PRC mail text and status unless an item list stands in for them. */
  lemma CvarRequirements(data: Data)
    requires !IsXva(data)
    ensures FirstLacking(data, RequiredFields(data)).None? <==>
              FieldTruthy(data, "date") && FieldTruthy(data, "application_name")
              && (HasItemLists(data) || (FieldTruthy(data, "prc_mail_text") && FieldTruthy(data, "prc_mail_status")))
  {
    var fields := RequiredFields(data);
    assert fields[0] == "date" && fields[1] == "application_name";
    assert fields[2] == "prc_mail_text" && fields[3] == "prc_mail_status";
    assert "date" != "prc_mail_text" && "date" != "prc_mail_status";
    assert "application_name" != "prc_mail_text" && "application_name" != "prc_mail_status";
  }

  /** For a CVAR body that passes the field checks, a first PRB whose id `int()` refuses is reported. */
  lemma UnconvertiblePrbIdRejected(data: Data, s: string)
    requires !IsXva(data)
    requires FirstLacking(data, RequiredFields(data)).None?
    requires FirstBad(data, CvarChecks, Colors).None?
    requires "prbs" in data && data["prbs"].List? && |data["prbs"].items| > 0
    requires data["prbs"].items[0] == Object(map["prb_id_number" := Str(s)])
    requires !ParsesAsInt(s)
    ensures Validate(data) == Rejected("Invalid PRB id number")
  {
  }

  /** On an XVA body the lists are never looked at, whatever they hold. */
  lemma XvaIgnoresLists(data: Data)
    requires IsXva(data) && FieldTruthy(data, "date")
    requires FirstBad(data, XvaChecks, Colors).None? && FirstBad(data, LegacyIdChecks, IdStatuses).None?
    ensures Validate(data) == Accepted
  {
    XvaRequirements(data);
  }
}
