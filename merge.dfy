/**
 * The two payload loops of `device_inventory` (libs/device.py:95-118): for a
 * device already on file, the columns whose stored value the report changes,
 * together with one change line per non-silent change; for a new device, every
 * mapped non-null report entry. Both loops walk the report in its dict order
 * and look every key up in section `devices` of the configuration, so a key
 * without a column raises NoOptionError half way through the walk.
 */
module Merge {
  import opened Results
  import opened Values
  import opened Dicts
  import opened Settings
  import opened Slots

  /** Report keys whose changes are written without a change line (line 27). */
  const SilentKeys: seq<string> := ["discover_log", "account", "status"]

  const LogHeader: string := "Detected changes from inventory update:\n\n* "
  const LineSeparator: string := "\n* "

  /** What the existing-device loop stages: the payload for `update` and the change lines. */
  datatype Staged = Staged(fields: Dict<Value>, changes: seq<string>)

  /**
   * Whether an entry with value `v` mapped to column `col` is written. With
   * `guard == None` (a new device, line 115) the value must be non-null and the
   * column non-empty; with `guard == Some(stored)` (a known device, lines
   * 100-101) the column must also be on the stored record with a different value.
   */
  predicate Writes(guard: Option<map<string, Value>>, col: string, v: Value)
  {
    && v != Null
    && col != ""
    && (guard.Some? ==> col in guard.value && guard.value[col] != v)
  }

  /** Report entry `e` is written to column `c`. */
  predicate StagesTo(cfg: Config, guard: Option<map<string, Value>>, e: (string, Value), c: string)
  {
    Read(cfg, DevicesSection, e.0) == Ok(c) && Writes(guard, c, e.1)
  }

  /** Every report key has an option in section `devices` (the empty string included). */
  predicate Configured(cfg: Config, data: Dict<Value>)
  {
    forall i :: 0 <= i < |data| ==> Read(cfg, DevicesSection, data[i].0).Ok?
  }

  /** One turn of either loop on the payload built so far. */
  function PayloadStep(cfg: Config, guard: Option<map<string, Value>>, acc: Dict<Value>, e: (string, Value)): Result<Dict<Value>>
  {
    var col :- Read(cfg, DevicesSection, e.0);
    if Writes(guard, col, e.1) then Ok(Set(acc, col, e.1)) else Ok(acc)
  }

  /** The payload after walking `data` in order (lines 98-104 or 113-116). */
  function Payload(cfg: Config, guard: Option<map<string, Value>>, data: Dict<Value>): Result<Dict<Value>>
    decreases |data|
  {
    if data == [] then Ok([])
    else
      var acc :- Payload(cfg, guard, data[..|data| - 1]);
      PayloadStep(cfg, guard, acc, data[|data| - 1])
  }

  /** The change line of line 103. */
  function ChangeLine(col: string, was: Value, now: Value): string
  {
    col + " changed from [" + Show(was) + "] to [" + Show(now) + "]"
  }

  /** The change line entry `e` contributes, if any. */
  function LineOf(cfg: Config, stored: map<string, Value>, e: (string, Value)): seq<string>
  {
    match Read(cfg, DevicesSection, e.0)
    case Raised(_) => []
    case Ok(col) =>
      if Writes(Some(stored), col, e.1) && e.0 !in SilentKeys then [ChangeLine(col, stored[col], e.1)] else []
  }

  /** The change lines of a report, entry by entry from the front (a reference definition for the loop). */
  function ChangeLines(cfg: Config, stored: map<string, Value>, data: Dict<Value>): seq<string>
  {
    if data == [] then [] else LineOf(cfg, stored, data[0]) + ChangeLines(cfg, stored, data[1..])
  }

  /** The outcome of the existing-device loop (lines 97-104). */
  function Diff(cfg: Config, stored: map<string, Value>, data: Dict<Value>): Result<Staged>
  {
    var fields :- Payload(cfg, Some(stored), data);
    Ok(Staged(fields, ChangeLines(cfg, stored, data)))
  }

  /** The outcome of the new-device loop (lines 113-116). */
  function NewFields(cfg: Config, data: Dict<Value>): Result<Dict<Value>>
  {
    Payload(cfg, None, data)
  }

  /** The summed length of `parts`. */
  function TotalLength(parts: seq<string>): nat
  {
    if |parts| == 0 then 0 else |parts[0]| + TotalLength(parts[1..])
  }

  /** Python's `sep.join(parts)`: the parts in order, one separator between each two. */
  function Join(parts: seq<string>, sep: string): (r: string)
    ensures |parts| == 0 ==> r == ""
    ensures |parts| > 0 ==> |r| == TotalLength(parts) + (|parts| - 1) * |sep|
    ensures |parts| > 0 ==> parts[0] <= r
  {
    if |parts| == 0 then ""
    else if |parts| == 1 then parts[0]
    else parts[0] + sep + Join(parts[1..], sep)
  }

  /** The change note text of lines 106-107; empty when there is no change line. */
  function ChangeLog(changes: seq<string>): string
  {
    if |changes| > 0 then LogHeader + Join(changes, LineSeparator) else ""
  }

  /** The existing-device loop, lines 97-104. */
  method StageChanges(cfg: Config, stored: map<string, Value>, data: Dict<Value>) returns (r: Result<Staged>)
    ensures r == Diff(cfg, stored, data)
  {
    var fields: Dict<Value> := [];
    var changes: seq<string> := [];
    var i := 0;
    while i < |data|
      invariant 0 <= i <= |data|
      invariant Payload(cfg, Some(stored), data[..i]) == Ok(fields)
      invariant changes == ChangeLines(cfg, stored, data[..i])
    {
      var (k, v) := data[i];
      DiffStep(cfg, stored, data, i);
      var col := Read(cfg, DevicesSection, k);
      if col.Raised? {
        PayloadRaisedStays(cfg, Some(stored), data, i + 1);
        return Raised(col.error);
      }
      var dbKey := col.value;
      if v != Null && dbKey != "" && dbKey in stored {
        if stored[dbKey] != v {
          if k !in SilentKeys {
            changes := changes + [ChangeLine(dbKey, stored[dbKey], v)];
          }
          fields := Set(fields, dbKey, v);
        }
      }
      i := i + 1;
    }
    assert data[..i] == data;
    r := Ok(Staged(fields, changes));
  }

  /** The new-device loop, lines 113-116. */
  method StageNewDevice(cfg: Config, data: Dict<Value>) returns (r: Result<Dict<Value>>)
    ensures r == NewFields(cfg, data)
  {
    var fields: Dict<Value> := [];
    var i := 0;
    while i < |data|
      invariant 0 <= i <= |data|
      invariant Payload(cfg, None, data[..i]) == Ok(fields)
    {
      var (k, v) := data[i];
      assert data[..i + 1][..i] == data[..i];
      var col := Read(cfg, DevicesSection, k);
      if col.Raised? {
        PayloadRaisedStays(cfg, None, data, i + 1);
        return Raised(col.error);
      }
      var dbKey := col.value;
      if v != Null && dbKey != "" {
        fields := Set(fields, dbKey, v);
      }
      i := i + 1;
    }
    assert data[..i] == data;
    r := Ok(fields);
  }

  /** One more entry of the existing-device walk: one more payload step, and that entry's change line. */
  lemma DiffStep(cfg: Config, stored: map<string, Value>, data: Dict<Value>, i: nat)
    requires i < |data|
    ensures var prev := Payload(cfg, Some(stored), data[..i]);
      Payload(cfg, Some(stored), data[..i + 1])
        == if prev.Raised? then Raised(prev.error) else PayloadStep(cfg, Some(stored), prev.value, data[i])
    ensures ChangeLines(cfg, stored, data[..i + 1]) == ChangeLines(cfg, stored, data[..i]) + LineOf(cfg, stored, data[i])
  {
    assert data[..i + 1][..i] == data[..i];
    ChangeLinesSnoc(cfg, stored, data[..i], data[i]);
    assert data[..i] + [data[i]] == data[..i + 1];
  }

  /** Once a prefix of the walk raised, the whole walk raises the same error. */
  lemma {:induction false} PayloadRaisedStays(cfg: Config, guard: Option<map<string, Value>>, data: Dict<Value>, i: nat)
    requires i <= |data|
    requires Payload(cfg, guard, data[..i]).Raised?
    ensures Payload(cfg, guard, data) == Payload(cfg, guard, data[..i])
    decreases |data| - i
  {
    if i < |data| {
      assert data[..i + 1][..i] == data[..i];
      PayloadRaisedStays(cfg, guard, data, i + 1);
    } else {
      assert data[..i] == data;
    }
  }

  lemma {:induction false} ChangeLinesSnoc(cfg: Config, stored: map<string, Value>, p: Dict<Value>, e: (string, Value))
    ensures ChangeLines(cfg, stored, p + [e]) == ChangeLines(cfg, stored, p) + LineOf(cfg, stored, e)
  {
    if p == [] {
      assert [e][1..] == [];
    } else {
      assert (p + [e])[1..] == p[1..] + [e];
      ChangeLinesSnoc(cfg, stored, p[1..], e);
    }
  }
}

/** What the two loops promise about their payloads and change lines. */
module MergeFacts {
  import opened Results
  import opened Values
  import opened Dicts
  import opened Settings
  import opened Slots
  import opened Merge

  /** The walk succeeds exactly when every key is configured; otherwise it raises the first missing key's error. */
  lemma {:induction false} PayloadOk(cfg: Config, guard: Option<map<string, Value>>, data: Dict<Value>)
    ensures Payload(cfg, guard, data).Ok? <==> Configured(cfg, data)
    ensures Payload(cfg, guard, data).Raised? ==>
      exists i :: 0 <= i < |data| && Read(cfg, DevicesSection, data[i].0).Raised?
        && Payload(cfg, guard, data).error == Read(cfg, DevicesSection, data[i].0).error
        && forall j :: 0 <= j < i ==> Read(cfg, DevicesSection, data[j].0).Ok?
    decreases |data|
  {
    if data != [] {
      var p := data[..|data| - 1];
      PayloadOk(cfg, guard, p);
      assert forall i :: 0 <= i < |p| ==> data[i] == p[i];
      if Payload(cfg, guard, p).Ok? {
        assert Read(cfg, DevicesSection, data[|data| - 1].0).Raised? ==> !Configured(cfg, data);
      } else {
        assert !Configured(cfg, data);
      }
    }
  }

  /** `i` is the last entry of `data` written to column `c`. */
  ghost predicate LastStaged(cfg: Config, guard: Option<map<string, Value>>, data: Dict<Value>, c: string, i: int)
  {
    && 0 <= i < |data|
    && StagesTo(cfg, guard, data[i], c)
    && forall j :: i < j < |data| ==> !StagesTo(cfg, guard, data[j], c)
  }

  /** The payload holds exactly the written columns, each once, each with the value of its last writer. */
  ghost predicate FieldsOf(cfg: Config, guard: Option<map<string, Value>>, data: Dict<Value>, f: Dict<Value>)
  {
    && Distinct(f)
    && (forall c :: c in Keys(f) <==> exists i :: 0 <= i < |data| && StagesTo(cfg, guard, data[i], c))
    && (forall c :: c in Keys(f) ==> exists i :: LastStaged(cfg, guard, data, c, i) && Get(f, c) == data[i].1)
  }

  lemma {:induction false} PayloadFields(cfg: Config, guard: Option<map<string, Value>>, data: Dict<Value>)
    requires Payload(cfg, guard, data).Ok?
    ensures FieldsOf(cfg, guard, data, Payload(cfg, guard, data).value)
    decreases |data|
  {
    if data == [] {
      assert Keys<Value>([]) == [];
    } else {
      var p := data[..|data| - 1];
      var e := data[|data| - 1];
      assert data == p + [e];
      PayloadFields(cfg, guard, p);
      FieldsStep(cfg, guard, p, e, Payload(cfg, guard, p).value);
    }
  }

  lemma FieldsStep(cfg: Config, guard: Option<map<string, Value>>, p: Dict<Value>, e: (string, Value), acc: Dict<Value>)
    requires FieldsOf(cfg, guard, p, acc)
    requires PayloadStep(cfg, guard, acc, e).Ok?
    ensures FieldsOf(cfg, guard, p + [e], PayloadStep(cfg, guard, acc, e).value)
  {
    var col := Read(cfg, DevicesSection, e.0).value;
    if Writes(guard, col, e.1) {
      assert PayloadStep(cfg, guard, acc, e).value == Set(acc, col, e.1);
      WrittenKeys(cfg, guard, p, e, acc, col);
      WrittenLast(cfg, guard, p, e, acc, col);
    } else {
      assert PayloadStep(cfg, guard, acc, e).value == acc;
      SkippedKeys(cfg, guard, p, e, acc);
      SkippedLast(cfg, guard, p, e, acc);
    }
  }

  lemma LastExtends(cfg: Config, guard: Option<map<string, Value>>, p: Dict<Value>, e: (string, Value), c: string, i: int)
    requires LastStaged(cfg, guard, p, c, i) && !StagesTo(cfg, guard, e, c)
    ensures LastStaged(cfg, guard, p + [e], c, i) && (p + [e])[i] == p[i]
  {
    var data := p + [e];
    forall j | i < j < |data|
      ensures !StagesTo(cfg, guard, data[j], c)
    {
      if j < |p| {
        assert data[j] == p[j];
      }
    }
  }

  lemma WrittenKeys(cfg: Config, guard: Option<map<string, Value>>, p: Dict<Value>, e: (string, Value), acc: Dict<Value>, col: string)
    requires Read(cfg, DevicesSection, e.0) == Ok(col) && Writes(guard, col, e.1)
    requires forall c :: c in Keys(acc) <==> exists i :: 0 <= i < |p| && StagesTo(cfg, guard, p[i], c)
    ensures forall c :: c in Keys(Set(acc, col, e.1)) <==>
      exists i :: 0 <= i < |p + [e]| && StagesTo(cfg, guard, (p + [e])[i], c)
  {
    var f := Set(acc, col, e.1);
    var data := p + [e];
    forall c
      ensures c in Keys(f) <==> exists i :: 0 <= i < |data| && StagesTo(cfg, guard, data[i], c)
    {
      if c == col {
        assert data[|p|] == e;
      } else {
        assert !StagesTo(cfg, guard, e, c);
        assert c in Keys(f) <==> c in Keys(acc);
        if c in Keys(acc) {
          var i :| 0 <= i < |p| && StagesTo(cfg, guard, p[i], c);
          assert data[i] == p[i];
        } else {
          forall i | 0 <= i < |data|
            ensures !StagesTo(cfg, guard, data[i], c)
          {
            if i < |p| {
              assert data[i] == p[i];
            }
          }
        }
      }
    }
  }

  lemma SkippedKeys(cfg: Config, guard: Option<map<string, Value>>, p: Dict<Value>, e: (string, Value), acc: Dict<Value>)
    requires Read(cfg, DevicesSection, e.0).Ok? && !Writes(guard, Read(cfg, DevicesSection, e.0).value, e.1)
    requires forall c :: c in Keys(acc) <==> exists i :: 0 <= i < |p| && StagesTo(cfg, guard, p[i], c)
    ensures forall c :: c in Keys(acc) <==> exists i :: 0 <= i < |p + [e]| && StagesTo(cfg, guard, (p + [e])[i], c)
  {
    var data := p + [e];
    forall c
      ensures c in Keys(acc) <==> exists i :: 0 <= i < |data| && StagesTo(cfg, guard, data[i], c)
    {
      assert !StagesTo(cfg, guard, e, c);
      if c in Keys(acc) {
        var i :| 0 <= i < |p| && StagesTo(cfg, guard, p[i], c);
        assert data[i] == p[i];
      } else {
        forall i | 0 <= i < |data|
          ensures !StagesTo(cfg, guard, data[i], c)
        {
          if i < |p| {
            assert data[i] == p[i];
          }
        }
      }
    }
  }

  lemma WrittenLast(cfg: Config, guard: Option<map<string, Value>>, p: Dict<Value>, e: (string, Value), acc: Dict<Value>, col: string)
    requires Read(cfg, DevicesSection, e.0) == Ok(col) && Writes(guard, col, e.1)
    requires forall c :: c in Keys(acc) ==> exists i :: LastStaged(cfg, guard, p, c, i) && Get(acc, c) == p[i].1
    ensures forall c :: c in Keys(Set(acc, col, e.1)) ==>
      exists i :: LastStaged(cfg, guard, p + [e], c, i) && Get(Set(acc, col, e.1), c) == (p + [e])[i].1
  {
    var f := Set(acc, col, e.1);
    var data := p + [e];
    forall c | c in Keys(f)
      ensures exists i :: LastStaged(cfg, guard, data, c, i) && Get(f, c) == data[i].1
    {
      if c == col {
        assert data[|p|] == e;
        assert LastStaged(cfg, guard, data, c, |p|);
      } else {
        assert !StagesTo(cfg, guard, e, c);
        var i :| LastStaged(cfg, guard, p, c, i) && Get(acc, c) == p[i].1;
        LastExtends(cfg, guard, p, e, c, i);
      }
    }
  }

  lemma SkippedLast(cfg: Config, guard: Option<map<string, Value>>, p: Dict<Value>, e: (string, Value), acc: Dict<Value>)
    requires Read(cfg, DevicesSection, e.0).Ok? && !Writes(guard, Read(cfg, DevicesSection, e.0).value, e.1)
    requires forall c :: c in Keys(acc) ==> exists i :: LastStaged(cfg, guard, p, c, i) && Get(acc, c) == p[i].1
    ensures forall c :: c in Keys(acc) ==> exists i :: LastStaged(cfg, guard, p + [e], c, i) && Get(acc, c) == (p + [e])[i].1
  {
    forall c | c in Keys(acc)
      ensures exists i :: LastStaged(cfg, guard, p + [e], c, i) && Get(acc, c) == (p + [e])[i].1
    {
      var i :| LastStaged(cfg, guard, p, c, i) && Get(acc, c) == p[i].1;
      LastExtends(cfg, guard, p, e, c, i);
    }
  }

  /** Every written column carries a value the guard lets through: never None, never under an empty column name, and on a known device never the value already stored. */
  lemma PayloadWritesOnlyChanges(cfg: Config, guard: Option<map<string, Value>>, data: Dict<Value>)
    requires Payload(cfg, guard, data).Ok?
    ensures var f := Payload(cfg, guard, data).value;
      forall c :: c in Keys(f) ==> Writes(guard, c, Get(f, c))
  {
    PayloadFields(cfg, guard, data);
    var f := Payload(cfg, guard, data).value;
    forall c | c in Keys(f)
      ensures Writes(guard, c, Get(f, c))
    {
      var i :| LastStaged(cfg, guard, data, c, i) && Get(f, c) == data[i].1;
    }
  }

  /** Entry `e` yields a change line: it is written and its key is not silent. */
  predicate Loud(cfg: Config, stored: map<string, Value>, e: (string, Value))
  {
    && e.0 !in SilentKeys
    && Read(cfg, DevicesSection, e.0).Ok?
    && StagesTo(cfg, Some(stored), e, Read(cfg, DevicesSection, e.0).value)
  }

  /** No change line at all exactly when every written entry has a silent key. */
  lemma {:induction false} NoChangeLines(cfg: Config, stored: map<string, Value>, data: Dict<Value>)
    ensures ChangeLines(cfg, stored, data) == [] <==> forall i :: 0 <= i < |data| ==> !Loud(cfg, stored, data[i])
    decreases |data|
  {
    if data != [] {
      NoChangeLines(cfg, stored, data[1..]);
      assert forall i :: 1 <= i < |data| ==> data[i] == data[1..][i - 1];
      var e := data[0];
      match Read(cfg, DevicesSection, e.0)
      case Raised(_) =>
        assert !Loud(cfg, stored, e);
      case Ok(col) =>
    }
  }

  /** A change line implies a non-empty update payload, so a change note never comes without an update. */
  lemma ChangesNeedFields(cfg: Config, stored: map<string, Value>, data: Dict<Value>)
    requires Diff(cfg, stored, data).Ok? && Diff(cfg, stored, data).value.changes != []
    ensures |Diff(cfg, stored, data).value.fields| > 0
  {
    NoChangeLines(cfg, stored, data);
    var i :| 0 <= i < |data| && Loud(cfg, stored, data[i]);
    var c := Read(cfg, DevicesSection, data[i].0).value;
    PayloadFields(cfg, Some(stored), data);
    var f := Payload(cfg, Some(stored), data).value;
    assert c in Keys(f);
  }

  /** Every column updated on a known device would also have been written for a new one. */
  lemma DiffWithinNew(cfg: Config, stored: map<string, Value>, data: Dict<Value>)
    requires Diff(cfg, stored, data).Ok?
    ensures NewFields(cfg, data).Ok?
    ensures forall c :: c in Keys(Diff(cfg, stored, data).value.fields) ==> c in Keys(NewFields(cfg, data).value)
  {
    PayloadOk(cfg, Some(stored), data);
    PayloadOk(cfg, None, data);
    PayloadFields(cfg, Some(stored), data);
    PayloadFields(cfg, None, data);
    var f := Diff(cfg, stored, data).value.fields;
    forall c | c in Keys(f)
      ensures c in Keys(NewFields(cfg, data).value)
    {
      var i :| 0 <= i < |data| && StagesTo(cfg, Some(stored), data[i], c);
      assert StagesTo(cfg, None, data[i], c);
    }
  }

  /** The change note is empty exactly when there is no change line. */
  lemma ChangeLogEmpty(changes: seq<string>)
    ensures ChangeLog(changes) == "" <==> changes == []
  {
    if changes != [] {
      assert |ChangeLog(changes)| >= |LogHeader| > 0;
    }
  }

  /** Each further change line adds one more bulleted line to the note. */
  lemma ChangeLogSnoc(changes: seq<string>, line: string)
    requires changes != []
    ensures ChangeLog(changes + [line]) == ChangeLog(changes) + LineSeparator + line
    ensures ChangeLog([line]) == LogHeader + line
  {
    assert ChangeLog(changes + [line]) == LogHeader + Join(changes + [line], LineSeparator);
    JoinSnoc(changes, LineSeparator, line);
    assert ChangeLog(changes) == LogHeader + Join(changes, LineSeparator);
    assert Join([line], LineSeparator) == line;
  }

  lemma {:induction false} JoinSnoc(parts: seq<string>, sep: string, last: string)
    requires parts != []
    ensures Join(parts + [last], sep) == Join(parts, sep) + sep + last
    decreases |parts|
  {
    if |parts| == 1 {
      assert (parts + [last])[1..] == [last];
    } else {
      assert (parts + [last])[1..] == parts[1..] + [last];
      JoinSnoc(parts[1..], sep, last);
    }
  }
}
