/**
 * The one-entry-per-(date, application) rule of `create_entry` and
 * `update_entry`. Stored rows are dictionaries as the database layer returns
 * them; a create validates the body and then refuses a body whose date and
 * application name are already stored; an update answers 404 for an unknown
 * id, refuses a new (date, application) pair held by another id, and then
 * validates the body merged over the stored row.
 */
module EntryStore {
  import opened Wrappers
  import opened Payload
  import opened EntryValidation
  import opened IsoDate

  /** The HTTP answer: 201 or 200 with the stored row, 400 with a message, 400 for a taken pair, 404, or 500. */
  datatype Outcome =
    | Created(row: Data)
    | Updated(row: Data)
    | BadRequest(message: string)
    | Conflict(application: Value, date: Value)
    | NotFound
    | ServerError

  /** `row.get(k)`, with `None` for a missing key. */
  function Field(row: Data, k: string): Value {
    GetOr(row, k, Null)
  }

  /** The (date, application) pair a row is filed under. */
  function Key(row: Data): (Value, Value) {
    (Field(row, "date"), Field(row, "application_name"))
  }

  /** No two stored rows share a (date, application) pair. */
  predicate Unique(rows: seq<Data>) {
    forall i, j :: 0 <= i < j < |rows| ==> Key(rows[i]) != Key(rows[j])
  }

  /** No two stored rows share an id. */
  predicate UniqueIds(rows: seq<Data>) {
    forall i, j :: 0 <= i < j < |rows| ==> Field(rows[i], "id") != Field(rows[j], "id")
  }

  /** A row other than `exclude` (by id) that already holds the pair. */
  predicate Clashes(row: Data, date: Value, application: Value, exclude: Option<int>) {
    && (exclude.None? || Field(row, "id") != Int(exclude.value))
    && Field(row, "date") == date && Field(row, "application_name") == application
  }

  predicate AnyClash(rows: seq<Data>, date: Value, application: Value, exclude: Option<int>) {
    exists i :: 0 <= i < |rows| && Clashes(rows[i], date, application, exclude)
  }

  /** The guard loops of both handlers: scan every stored row, stop at the first clash. */
  method FindDuplicate(rows: seq<Data>, date: Value, application: Value, exclude: Option<int>) returns (found: bool)
    ensures found <==> AnyClash(rows, date, application, exclude)
  {
    found := false;
    var i := 0;
    while i < |rows|
      invariant 0 <= i <= |rows|
      invariant forall j :: 0 <= j < i ==> !Clashes(rows[j], date, application, exclude)
    {
      var row := rows[i];
      if (exclude.None? || Field(row, "id") != Int(exclude.value))
         && Field(row, "date") == date && Field(row, "application_name") == application {
        found := true;
        return;
      }
      i := i + 1;
    }
  }

  /** `get_entry_by_id`: the position of the row with that id. */
  function FindById(rows: seq<Data>, entryId: int): (r: Option<nat>)
    ensures r.Some? ==> r.value < |rows| && Field(rows[r.value], "id") == Int(entryId)
    ensures r.None? <==> forall i :: 0 <= i < |rows| ==> Field(rows[i], "id") != Int(entryId)
    decreases |rows|
  {
    if |rows| == 0 then None
    else if Field(rows[|rows| - 1], "id") == Int(entryId) then Some(|rows| - 1)
    else FindById(rows[..|rows| - 1], entryId)
  }

  /** `convert_date_string(data['date'])` raises: the date is text that `strptime` refuses. */
  predicate DateUnreadable(data: Data) {
    Field(data, "date").Str? && ParseDate(Field(data, "date").s).None?
  }

  /** `create_entry`: the answer and the stored rows afterwards; `newId` is the id the database assigns. */
  function CreateResult(rows: seq<Data>, data: Data, newId: int): (r: (Outcome, seq<Data>))
    ensures r.0.Created? <==>
              Validate(data) == Accepted && !DateUnreadable(data)
              && forall i :: 0 <= i < |rows| ==> Key(rows[i]) != (Field(data, "date"), Field(data, "application_name"))
    ensures r.0.Created? ==> r.0.row == data["id" := Int(newId)] && r.1 == rows + [r.0.row]
    ensures !r.0.Created? ==> r.1 == rows
  {
    var verdict := Validate(data);
    if verdict.Rejected? then (BadRequest(verdict.message), rows)
    else if verdict.Raises? then (ServerError, rows)
    else if DateUnreadable(data) then (ServerError, rows)
    else if AnyClash(rows, Field(data, "date"), Field(data, "application_name"), None) then
      (Conflict(Field(data, "application_name"), Field(data, "date")), rows)
    else
      var stored := data["id" := Int(newId)];
      (Created(stored), rows + [stored])
  }

  /** The pair an update would file the row under: the body's values, else the stored ones. */
  function NewKey(existing: Data, data: Data): (Value, Value) {
    (GetOr(data, "date", Field(existing, "date")), GetOr(data, "application_name", Field(existing, "application_name")))
  }

  /** `update_entry`: the answer and the stored rows afterwards. */
  function UpdateResult(rows: seq<Data>, entryId: int, data: Data): (r: (Outcome, seq<Data>))
    ensures r.0 == NotFound <==> forall i :: 0 <= i < |rows| ==> Field(rows[i], "id") != Int(entryId)
    ensures r.0.Conflict? ==> "date" in data || "application_name" in data
    ensures r.0.Updated? ==>
              exists k :: && 0 <= k < |rows| && Field(rows[k], "id") == Int(entryId)
                          && r.0.row == (rows[k] + data)["id" := Int(entryId)] && r.1 == rows[k := r.0.row]
    ensures !r.0.Updated? ==> r.1 == rows
  {
    var k := FindById(rows, entryId);
    if k.None? then (NotFound, rows)
    else
      var existing := rows[k.value];
      var key := NewKey(existing, data);
      if ("date" in data || "application_name" in data) && AnyClash(rows, key.0, key.1, Some(entryId)) then
        (Conflict(key.1, key.0), rows)
      else
        var merged := existing + data;
        var verdict := Validate(merged);
        if verdict.Rejected? then (BadRequest(verdict.message), rows)
        else if verdict.Raises? then (ServerError, rows)
        else
          var stored := merged["id" := Int(entryId)];
          (Updated(stored), rows[k.value := stored])
  }

  /** Creating never files a second row under a pair. */
  lemma CreateKeepsUnique(rows: seq<Data>, data: Data, newId: int)
    requires Unique(rows)
    ensures Unique(CreateResult(rows, data, newId).1)
  {
    var (outcome, after) := CreateResult(rows, data, newId);
    if outcome.Created? {
      var stored := data["id" := Int(newId)];
      assert Key(stored) == (Field(data, "date"), Field(data, "application_name"));
      assert after == rows + [stored];
      forall i, j | 0 <= i < j < |after|
        ensures Key(after[i]) != Key(after[j])
      {
        if j == |rows| {
          assert !Clashes(rows[i], Field(data, "date"), Field(data, "application_name"), None);
        }
      }
    }
  }

  /** An unknown id is answered with 404 and changes nothing. */
  lemma UpdateUnknownId(rows: seq<Data>, entryId: int, data: Data)
    requires forall i :: 0 <= i < |rows| ==> Field(rows[i], "id") != Int(entryId)
    ensures UpdateResult(rows, entryId, data) == (NotFound, rows)
  {
  }

  /** Updating never files a second row under a pair, provided ids are unique. */
  lemma UpdateKeepsUnique(rows: seq<Data>, entryId: int, data: Data)
    requires Unique(rows) && UniqueIds(rows)
    ensures Unique(UpdateResult(rows, entryId, data).1)
  {
    var (outcome, after) := UpdateResult(rows, entryId, data);
    if outcome.Updated? {
      var k := FindById(rows, entryId).value;
      var existing := rows[k];
      var stored := (existing + data)["id" := Int(entryId)];
      assert after == rows[k := stored];
      assert Key(stored) == NewKey(existing, data);
      forall i, j | 0 <= i < j < |after|
        ensures Key(after[i]) != Key(after[j])
      {
        if i == k || j == k {
          var other := if i == k then j else i;
          assert after[other] == rows[other];
          assert Field(rows[other], "id") != Int(entryId);
          if "date" in data || "application_name" in data {
            assert !Clashes(rows[other], NewKey(existing, data).0, NewKey(existing, data).1, Some(entryId));
          } else {
            assert Key(stored) == Key(existing);
          }
        }
      }
    }
  }

  /** The store as the handlers see it. */
  class EntryTable {
    var rows: seq<Data>

    constructor(initial: seq<Data>)
      ensures rows == initial
    {
      rows := initial;
    }

    /** `create_entry`. */
    method CreateEntry(data: Data, newId: int) returns (outcome: Outcome)
      modifies this
      ensures (outcome, rows) == CreateResult(old(rows), data, newId)
    {
      var verdict := Validate(data);
      if verdict.Rejected? {
        return BadRequest(verdict.message);
      }
      if verdict.Raises? || DateUnreadable(data) {
        return ServerError;
      }
      var duplicate := FindDuplicate(rows, Field(data, "date"), Field(data, "application_name"), None);
      if duplicate {
        return Conflict(Field(data, "application_name"), Field(data, "date"));
      }
      var stored := data["id" := Int(newId)];
      rows := rows + [stored];
      outcome := Created(stored);
    }

    /** `update_entry`. */
    method UpdateEntry(entryId: int, data: Data) returns (outcome: Outcome)
      modifies this
      ensures (outcome, rows) == UpdateResult(old(rows), entryId, data)
    {
      var k := FindById(rows, entryId);
      if k.None? {
        return NotFound;
      }
      var existing := rows[k.value];
      if "date" in data || "application_name" in data {
        var newDate := GetOr(data, "date", Field(existing, "date"));
        var newApplication := GetOr(data, "application_name", Field(existing, "application_name"));
        var duplicate := FindDuplicate(rows, newDate, newApplication, Some(entryId));
        if duplicate {
          return Conflict(newApplication, newDate);
        }
      }
      var merged := existing + data;
      var verdict := Validate(merged);
      if verdict.Rejected? {
        return BadRequest(verdict.message);
      }
      if verdict.Raises? {
        return ServerError;
      }
      var stored := merged["id" := Int(entryId)];
      rows := rows[k.value := stored];
      outcome := Updated(stored);
    }
  }
}
