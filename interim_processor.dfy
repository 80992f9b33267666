/**
 * `filter_data` (processors/json_interim_processor.py:1-40): keep the records
 * whose required fields all hold a value. A record is a dictionary from
 * field names to values; a field counts as missing when it is absent or
 * `None`, when it is the string `Unknown`, or when it is an empty list.
 */
module InterimProcessor {
  import opened Wrappers
  import opened Tokens
  import JsonProcessor
  import DayProcessor

  /** The values the parsers put in a record: `None`, strings and lists. */
  datatype Value = Null | Str(s: string) | List(items: seq<Value>)

  /** One record, as a dictionary. */
  type Entry = map<string, Value>

  /** The fields checked when the caller names none. */
  const DefaultFields: seq<string> := ["location", "tags", "time_start", "time_end"]

  /** `entry.get(field)`: `None` when the key is absent. */
  function Get(entry: Entry, field: string): Value {
    if field in entry then entry[field] else Null
  }

  /** The three ways a value counts as missing. */
  predicate IsMissing(v: Value) {
    v == Null || v == Str(Unknown) || (v.List? && v.items == [])
  }

  /** Every required field of the record holds a value. */
  predicate Complete(entry: Entry, fields: seq<string>) {
    forall k :: 0 <= k < |fields| ==> !IsMissing(Get(entry, fields[k]))
  }

  /** The required fields: the caller's list, or the defaults when it gives none. */
  function RequiredFields(requiredFields: Option<seq<string>>): seq<string> {
    if requiredFields.None? then DefaultFields else requiredFields.value
  }

  /** The complete records of `data`, in order. */
  function Kept(data: seq<Entry>, fields: seq<string>): (r: seq<Entry>)
    decreases |data|
  {
    if data == [] then []
    else
      var e := data[|data| - 1];
      Kept(data[..|data| - 1], fields) + (if Complete(e, fields) then [e] else [])
  }

  /**
   * `filter_data`: for each record, check the required fields in order and
   * stop at the first missing one; append the record when none is missing.
   */
  method FilterData(interimData: seq<Entry>, requiredFields: Option<seq<string>>) returns (cleanedData: seq<Entry>)
    ensures cleanedData == Kept(interimData, RequiredFields(requiredFields))
  {
    var fields := if requiredFields.None? then DefaultFields else requiredFields.value;
    cleanedData := [];
    var i := 0;
    while i < |interimData|
      invariant 0 <= i <= |interimData|
      invariant cleanedData == Kept(interimData[..i], fields)
    {
      var entry := interimData[i];
      var isComplete := true;
      var j := 0;
      while j < |fields|
        invariant 0 <= j <= |fields|
        invariant isComplete
        invariant forall k :: 0 <= k < j ==> !IsMissing(Get(entry, fields[k]))
      {
        var value := Get(entry, fields[j]);
        if value == Null || value == Str(Unknown) || (value.List? && value.items == []) {
          isComplete := false;
          break;
        }
        j := j + 1;
      }
      assert isComplete <==> Complete(entry, fields);
      assert interimData[..i + 1] == interimData[..i] + [entry];
      if isComplete {
        cleanedData := cleanedData + [entry];
      }
      i := i + 1;
    }
    assert interimData[..i] == interimData;
  }

  /** A record is kept exactly when it is complete: kept records are complete, dropped ones miss a field. */
  lemma {:induction false} KeptMembers(data: seq<Entry>, fields: seq<string>)
    ensures forall e :: e in Kept(data, fields) <==> e in data && Complete(e, fields)
    decreases |data|
  {
    if data != [] {
      var init := data[..|data| - 1];
      KeptMembers(init, fields);
      assert data == init + [data[|data| - 1]];
    }
  }

  /** `a` is `b` with some elements removed, the rest in the same order and unchanged. */
  ghost predicate IsSubsequence(a: seq<Entry>, b: seq<Entry>)
    decreases |b|
  {
    if b == [] then a == []
    else
      || (a != [] && a[|a| - 1] == b[|b| - 1] && IsSubsequence(a[..|a| - 1], b[..|b| - 1]))
      || IsSubsequence(a, b[..|b| - 1])
  }

  /** The output is a subsequence of the input. */
  lemma {:induction false} KeptIsSubsequence(data: seq<Entry>, fields: seq<string>)
    ensures IsSubsequence(Kept(data, fields), data)
    decreases |data|
  {
    if data != [] {
      var init := data[..|data| - 1];
      var e := data[|data| - 1];
      KeptIsSubsequence(init, fields);
      var r := Kept(data, fields);
      if Complete(e, fields) {
        assert r[..|r| - 1] == Kept(init, fields);
      } else {
        assert Kept(init, fields) + [] == Kept(init, fields);
      }
    }
  }

  /** Filtering the parts of a list and joining the results is filtering the list. */
  lemma {:induction false} KeptAppend(a: seq<Entry>, b: seq<Entry>, fields: seq<string>)
    ensures Kept(a + b, fields) == Kept(a, fields) + Kept(b, fields)
    decreases |b|
  {
    if b == [] {
      assert a + b == a;
    } else {
      var b' := b[..|b| - 1];
      var e := b[|b| - 1];
      assert (a + b)[..|a + b| - 1] == a + b';
      KeptAppend(a, b', fields);
      var extra := if Complete(e, fields) then [e] else [];
      assert (Kept(a, fields) + Kept(b', fields)) + extra == Kept(a, fields) + (Kept(b', fields) + extra);
    }
  }

  /** Every record of the output is complete, so a second pass keeps them all. */
  lemma {:induction false} KeptAllComplete(data: seq<Entry>, fields: seq<string>)
    requires forall k :: 0 <= k < |data| ==> Complete(data[k], fields)
    ensures Kept(data, fields) == data
    decreases |data|
  {
    if data != [] {
      KeptAllComplete(data[..|data| - 1], fields);
    }
  }

  /** Filtering twice with the same fields is filtering once. */
  lemma KeptIdempotent(data: seq<Entry>, fields: seq<string>)
    ensures Kept(Kept(data, fields), fields) == Kept(data, fields)
  {
    var r := Kept(data, fields);
    KeptMembers(data, fields);
    assert forall k :: 0 <= k < |r| ==> r[k] in r;
    KeptAllComplete(r, fields);
  }

  /** With no required fields every record is kept. */
  lemma {:induction false} NoFieldsKeepsAll(data: seq<Entry>)
    ensures Kept(data, []) == data
    decreases |data|
  {
    if data != [] {
      NoFieldsKeepsAll(data[..|data| - 1]);
    }
  }

  /** Under the defaults a record without a location, or with `None` there, is dropped. */
  lemma NoLocationDropped(e: Entry)
    requires Get(e, "location") == Null
    ensures !Complete(e, RequiredFields(None))
    ensures Kept([e], RequiredFields(None)) == []
  {
    assert DefaultFields[0] == "location";
  }

  /**
   * Empty strings and years carrying the missing-year note are values, not
   * missing ones, whatever the comment beside the check suggests.
   */
  lemma EmptyAndNotedYearsAreValues(year: string)
    ensures !IsMissing(Str(""))
    ensures !IsMissing(Str(year + Note))
  {
    assert |year + Note| > |Unknown|;
  }

  /** The dictionary `process_data` returns. */
  function OutageEntry(r: JsonProcessor.OutageRecord): Entry {
    map[
      "weekday" := Str(r.weekday),
      "day" := Str(r.day),
      "month" := Str(r.month),
      "year" := Str(r.year),
      "time_start" := if r.timeStart.Some? then Str(r.timeStart.value) else Null,
      "time_end" := Str(r.timeEnd),
      "tags" := List(seq(|r.tags|, k requires 0 <= k < |r.tags| => Str(r.tags[k]))),
      "location" := if r.location.Some? then Str(r.location.value) else Null]
  }

  /**
   * A record of `process_data` passes the default check exactly when it has a
   * location, a start time, an end time and at least one tag, none of them
   * the string `Unknown`.
   */
  lemma OutageEntryComplete(r: JsonProcessor.OutageRecord)
    ensures Complete(OutageEntry(r), DefaultFields) <==>
            && r.location.Some? && r.location.value != Unknown
            && r.tags != []
            && r.timeStart.Some? && r.timeStart.value != Unknown
            && r.timeEnd != Unknown
  {
    var e := OutageEntry(r);
    assert Get(e, DefaultFields[0]) == e["location"];
    assert Get(e, DefaultFields[1]) == e["tags"];
    assert Get(e, DefaultFields[2]) == e["time_start"];
    assert Get(e, DefaultFields[3]) == e["time_end"];
    assert r.tags == [] <==> e["tags"].items == [];
  }

  /** The dictionary `find_weekday` returns. */
  function DayEntry(r: DayProcessor.DayRecord): Entry {
    map[
      "weekday" := Str(r.weekday),
      "date" := Str(r.date),
      "time_start" := Str(r.timeStart),
      "time_end" := Str(r.timeEnd),
      "message" := Str(r.message)]
  }

  /** A record of `find_weekday` has no `location` key, so the default check drops it. */
  lemma DayEntryDropped(r: DayProcessor.DayRecord)
    ensures !Complete(DayEntry(r), DefaultFields)
  {
    assert "location" !in DayEntry(r);
    NoLocationDropped(DayEntry(r));
  }
}
