/**
 * `device_inventory` (libs/device.py:6-127): validate the report, override
 * its status and account, find the account's device by MAC, reconcile the
 * MAC/IP slots against the stored record, then either update the changed
 * columns of the known device or add a new one, and finally add a note.
 *
 * `Run` states the whole routine as a value: the store calls made, the store
 * contents afterwards and the outcome, which is either the routine's return
 * value or the exception it raises. `DeviceInventory` is the routine itself,
 * step by step over a `Grist.Store`, and is proved to do exactly what `Run` says.
 */
module Inventory {
  import opened Results
  import opened Values
  import opened Dicts
  import opened Settings
  import opened Grist
  import opened Slots
  import opened Merge

  /** The lookups name the table literally (lines 39 and 46); the writes take it from the configuration. */
  const DevicesTable: string := "Devices"
  const NotesSection: string := "notes"
  const TableOption: string := "_table"
  const AccountKey: string := "account"
  const StatusKey: string := "status"
  const NoteDeviceOption: string := "device"
  const NoteTextOption: string := "note"

  const NoMacMessage: string := "No MAC address provided"
  const SavedMessage: string := "Saved device inventory successfully"
  const NewDeviceLog: string := "New device added from inventory update."

  /** What the routine does with its caller: returns a message and status code, or raises. */
  datatype Outcome = Response(message: string, status: int) | Failed(error: Exception)

  /** Store calls made in order, the store contents afterwards, and the outcome. */
  datatype Trace = Trace(calls: seq<Call>, db: Db, outcome: Outcome)

  /** The result of the device lookup (lines 38-51): the queries sent, and the record found or the error raised. */
  datatype Found = Found(calls: seq<Call>, device: Result<Option<Record>>)

  function Saved(): Outcome
  {
    Response(SavedMessage, 200)
  }

  predicate HasMac(report: Dict<Value>)
  {
    MacPrimary in Keys(report) || MacSecondary in Keys(report)
  }

  /** The MAC list of lines 20-24: the present values of `mac_primary`, then `mac_secondary`. */
  function Candidates(report: Dict<Value>): (macs: seq<Value>)
    ensures |macs| == (if MacPrimary in Keys(report) then 1 else 0) + (if MacSecondary in Keys(report) then 1 else 0)
    ensures HasMac(report) <==> |macs| > 0
    ensures forall v :: v in macs <==>
      (MacPrimary in Keys(report) && v == Get(report, MacPrimary)) || (MacSecondary in Keys(report) && v == Get(report, MacSecondary))
    ensures MacPrimary in Keys(report) ==> macs[0] == Get(report, MacPrimary)
    ensures MacSecondary in Keys(report) ==> macs[|macs| - 1] == Get(report, MacSecondary)
  {
    (if MacPrimary in Keys(report) then [Get(report, MacPrimary)] else [])
      + (if MacSecondary in Keys(report) then [Get(report, MacSecondary)] else [])
  }

  /** The report after lines 30-31. */
  function Overridden(report: Dict<Value>, accountId: Value): (data: Dict<Value>)
    ensures StatusKey in Keys(data) && Get(data, StatusKey) == Str("Active")
    ensures AccountKey in Keys(data) && Get(data, AccountKey) == accountId
    ensures forall k :: k in Keys(data) <==> k in Keys(report) || k == StatusKey || k == AccountKey
    ensures forall k :: k in Keys(report) && k != StatusKey && k != AccountKey ==> Get(data, k) == Get(report, k)
    ensures Distinct(report) ==> Distinct(data)
  {
    Set(Set(report, StatusKey, Str("Active")), AccountKey, accountId)
  }

  /** A lookup filter: the account column holds the account id and the MAC column one of the MACs. */
  function Query(accountCol: string, accountId: Value, macCol: string, macs: seq<Value>): Filter
  {
    map[accountCol := [accountId]][macCol := macs]
  }

  /** Lines 38-51: query by the primary-MAC column, and by the secondary-MAC column only if that finds nothing. */
  function Find(cfg: Config, db: Db, accountId: Value, macs: seq<Value>): Found
  {
    match Read(cfg, DevicesSection, AccountKey)
    case Raised(e) => Found([], Raised(e))
    case Ok(accountCol) =>
      match Read(cfg, DevicesSection, MacPrimary)
      case Raised(e) => Found([], Raised(e))
      case Ok(primaryCol) =>
        var first := GetCall(DevicesTable, Query(accountCol, accountId, primaryCol, macs), 1);
        var hit := FirstMatch(Rows(db, DevicesTable), first.filter);
        if hit.Some? then Found([first], Ok(hit))
        else
          match Read(cfg, DevicesSection, MacSecondary)
          case Raised(e) => Found([first], Raised(e))
          case Ok(secondaryCol) =>
            var second := GetCall(DevicesTable, Query(accountCol, accountId, secondaryCol, macs), 1);
            Found([first, second], Ok(FirstMatch(Rows(db, DevicesTable), second.filter)))
  }

  /**
   * The note payload of lines 122-125, a dict display: its keys in the order
   * written, and a key written twice keeps its first place and its last value.
   */
  function NoteFields(deviceCol: string, noteCol: string, id: int, log: string): Dict<Value>
  {
    if deviceCol == noteCol then [(noteCol, Str(log))] else [(deviceCol, Int(id)), (noteCol, Str(log))]
  }

  /** Lines 121-127: a note for device `id` when the log is non-empty, then the success return. */
  function NoteTrace(cfg: Config, db: Db, id: int, log: string): (t: Trace)
    ensures t.outcome == Saved() || t.outcome.Failed?
  {
    if log == "" then Trace([], db, Saved())
    else
      match Read(cfg, NotesSection, NoteDeviceOption)
      case Raised(e) => Trace([], db, Failed(e))
      case Ok(deviceCol) =>
        match Read(cfg, NotesSection, NoteTextOption)
        case Raised(e) => Trace([], db, Failed(e))
        case Ok(noteCol) =>
          match Read(cfg, NotesSection, TableOption)
          case Raised(e) => Trace([], db, Failed(e))
          case Ok(table) =>
            var call := AddCall(table, NoteFields(deviceCol, noteCol, id, log));
            Trace([call], Effect(db, call), Saved())
  }

  /** Lines 95-110 and the note, for the device `device` and the reconciled report `data`. */
  function ExistingTrace(cfg: Config, db: Db, device: Record, data: Dict<Value>): (t: Trace)
    ensures t.outcome == Saved() || t.outcome.Failed?
  {
    match Diff(cfg, device.fields, data)
    case Raised(e) => Trace([], db, Failed(e))
    case Ok(staged) => StagedTrace(cfg, db, device.id, staged)
  }

  /** Lines 105-110 and the note, once the changes for record `id` are staged. */
  function StagedTrace(cfg: Config, db: Db, id: int, staged: Staged): (t: Trace)
    ensures t.outcome == Saved() || t.outcome.Failed?
  {
    var log := ChangeLog(staged.changes);
    if |staged.fields| == 0 then NoteTrace(cfg, db, id, log)
    else
      match Read(cfg, DevicesSection, TableOption)
      case Raised(e) => Trace([], db, Failed(e))
      case Ok(table) =>
        var call := UpdateCall(table, id, staged.fields);
        Prepend([call], NoteTrace(cfg, Effect(db, call), id, log))
  }

  /** Lines 111-118 and the note, for a report that matched no device. */
  function NewTrace(cfg: Config, db: Db, data: Dict<Value>): (t: Trace)
    ensures t.outcome == Saved() || t.outcome.Failed?
  {
    match NewFields(cfg, data)
    case Raised(e) => Trace([], db, Failed(e))
    case Ok(fields) => AddedTrace(cfg, db, fields)
  }

  /** Lines 117-118 and the note, once the new record's payload is staged. */
  function AddedTrace(cfg: Config, db: Db, fields: Dict<Value>): (t: Trace)
    ensures t.outcome == Saved() || t.outcome.Failed?
  {
    match Read(cfg, DevicesSection, TableOption)
    case Raised(e) => Trace([], db, Failed(e))
    case Ok(table) =>
      var call := AddCall(table, fields);
      Prepend([call], NoteTrace(cfg, Effect(db, call), db.nextId, NewDeviceLog))
  }

  function Prepend(calls: seq<Call>, t: Trace): Trace
  {
    Trace(calls + t.calls, t.db, t.outcome)
  }

  /** Lines 53-127 once the lookup has answered `device`. */
  function AfterLookup(cfg: Config, db: Db, device: Option<Record>, data: Dict<Value>): (t: Trace)
    ensures t.outcome == Saved() || t.outcome.Failed?
  {
    match device
    case None => NewTrace(cfg, db, data)
    case Some(d) =>
      match ReconcileAsWritten(cfg, data, d.fields)
      case Raised(e) => Trace([], db, Failed(e))
      case Ok(reconciled) => ExistingTrace(cfg, db, d, reconciled)
  }

  /**
   * The whole routine on store contents `db`, account id `accountId` and
   * report `report`. It answers in exactly two ways: the 400 rejection, which
   * it gives exactly for a report without MAC and before any call, and the
   * success pair; on every other path it raises.
   */
  function Run(cfg: Config, db: Db, accountId: Value, report: Dict<Value>): (t: Trace)
    ensures t.outcome == Response(NoMacMessage, 400) <==> !HasMac(report)
    ensures !HasMac(report) ==> t.calls == [] && t.db == db
    ensures HasMac(report) ==> t.outcome == Saved() || t.outcome.Failed?
  {
    if !HasMac(report) then Trace([], db, Response(NoMacMessage, 400))
    else
      var found := Find(cfg, db, accountId, Candidates(report));
      match found.device
      case Raised(e) => Trace(found.calls, db, Failed(e))
      case Ok(device) => Prepend(found.calls, AfterLookup(cfg, db, device, Overridden(report, accountId)))
  }

  /** Lines 53-93, rewriting the report one assignment at a time. */
  method ReconcileSlots(cfg: Config, report: Dict<Value>, stored: map<string, Value>) returns (r: Result<Dict<Value>>)
    ensures r == ReconcileAsWritten(cfg, report, stored)
  {
    var data := report;
    var ruleA := false;
    if MacPrimary in Keys(data) {
      var col :- Read(cfg, DevicesSection, MacSecondary);
      ruleA := col in stored && Get(data, MacPrimary) == stored[col];
    }
    if ruleA {
      if MacSecondary in Keys(data) {
        var m := Get(data, MacSecondary);
        data := Set(data, MacSecondary, Get(data, MacPrimary));
        data := Set(data, MacPrimary, m);
      } else {
        data := Set(data, MacSecondary, Get(data, MacPrimary));
        data := Del(data, MacPrimary);
      }
      if IpPrimary !in Keys(data) {
        return Raised(KeyError(IpPrimary));
      }
      if IpSecondary in Keys(data) {
        var m := Get(data, IpSecondary);
        data := Set(data, IpSecondary, Get(data, IpPrimary));
        data := Set(data, IpPrimary, m);
      } else {
        data := Set(data, IpSecondary, Get(data, IpPrimary));
        data := Del(data, IpPrimary);
      }
      return Ok(data);
    }
    var ruleB := false;
    if MacSecondary in Keys(data) {
      var col :- Read(cfg, DevicesSection, MacPrimary);
      ruleB := col in stored && Get(data, MacSecondary) == stored[col];
    }
    if ruleB {
      if MacPrimary in Keys(data) {
        var m := Get(data, MacPrimary);
        data := Set(data, MacPrimary, Get(data, MacSecondary));
        data := Set(data, MacPrimary, m);
      } else {
        data := Set(data, MacPrimary, Get(data, MacSecondary));
        data := Del(data, MacSecondary);
      }
      if IpSecondary !in Keys(data) {
        return Raised(KeyError(IpSecondary));
      }
      if IpPrimary in Keys(data) {
        var m := Get(data, IpPrimary);
        data := Set(data, IpPrimary, Get(data, IpSecondary));
        data := Set(data, IpSecondary, m);
      } else {
        data := Set(data, IpPrimary, Get(data, IpSecondary));
        data := Del(data, IpSecondary);
      }
    }
    return Ok(data);
  }

  /** Lines 38-51 over the store. */
  method FindDevice(cfg: Config, store: Store, accountId: Value, macs: seq<Value>) returns (device: Result<Option<Record>>)
    modifies store`calls
    ensures store.State() == old(store.State())
    ensures device == Find(cfg, old(store.State()), accountId, macs).device
    ensures store.calls == old(store.calls) + Find(cfg, old(store.State()), accountId, macs).calls
  {
    var accountCol :- Read(cfg, DevicesSection, AccountKey);
    var primaryCol :- Read(cfg, DevicesSection, MacPrimary);
    var hit := store.GetFirst(DevicesTable, Query(accountCol, accountId, primaryCol, macs));
    if hit.Some? {
      return Ok(hit);
    }
    // line 47 reads the account column again; the configuration is the same, so is the column
    var secondaryCol :- Read(cfg, DevicesSection, MacSecondary);
    hit := store.GetFirst(DevicesTable, Query(accountCol, accountId, secondaryCol, macs));
    return Ok(hit);
  }

  /** Lines 121-127 over the store. */
  method AddNote(cfg: Config, store: Store, id: int, log: string) returns (outcome: Outcome)
    modifies store
    ensures outcome == NoteTrace(cfg, old(store.State()), id, log).outcome
    ensures store.State() == NoteTrace(cfg, old(store.State()), id, log).db
    ensures store.calls == old(store.calls) + NoteTrace(cfg, old(store.State()), id, log).calls
  {
    if log == "" {
      return Saved();
    }
    var deviceCol := Read(cfg, NotesSection, NoteDeviceOption);
    if deviceCol.Raised? {
      return Failed(deviceCol.error);
    }
    var noteCol := Read(cfg, NotesSection, NoteTextOption);
    if noteCol.Raised? {
      return Failed(noteCol.error);
    }
    var table := Read(cfg, NotesSection, TableOption);
    if table.Raised? {
      return Failed(table.error);
    }
    var _ := store.Add(table.value, NoteFields(deviceCol.value, noteCol.value, id, log));
    return Saved();
  }

  /** Lines 95-110, then the note, over the store. */
  method UpdateExisting(cfg: Config, store: Store, device: Record, data: Dict<Value>) returns (outcome: Outcome)
    modifies store
    ensures outcome == ExistingTrace(cfg, old(store.State()), device, data).outcome
    ensures store.State() == ExistingTrace(cfg, old(store.State()), device, data).db
    ensures store.calls == old(store.calls) + ExistingTrace(cfg, old(store.State()), device, data).calls
  {
    var staged := StageChanges(cfg, device.fields, data);
    if staged.Raised? {
      return Failed(staged.error);
    }
    outcome := WriteChanges(cfg, store, device.id, staged.value);
  }

  /** Lines 105-110, then the note, over the store: the update only when something is staged. */
  method WriteChanges(cfg: Config, store: Store, id: int, staged: Staged) returns (outcome: Outcome)
    modifies store
    ensures outcome == StagedTrace(cfg, old(store.State()), id, staged).outcome
    ensures store.State() == StagedTrace(cfg, old(store.State()), id, staged).db
    ensures store.calls == old(store.calls) + StagedTrace(cfg, old(store.State()), id, staged).calls
  {
    var log := ChangeLog(staged.changes);
    if |staged.fields| > 0 {
      var table := Read(cfg, DevicesSection, TableOption);
      if table.Raised? {
        return Failed(table.error);
      }
      store.Update(table.value, id, staged.fields);
    }
    outcome := AddNote(cfg, store, id, log);
  }

  /** Lines 111-118, then the note, over the store. */
  method AddNewDevice(cfg: Config, store: Store, data: Dict<Value>) returns (outcome: Outcome)
    modifies store
    ensures outcome == NewTrace(cfg, old(store.State()), data).outcome
    ensures store.State() == NewTrace(cfg, old(store.State()), data).db
    ensures store.calls == old(store.calls) + NewTrace(cfg, old(store.State()), data).calls
  {
    var fields := StageNewDevice(cfg, data);
    if fields.Raised? {
      return Failed(fields.error);
    }
    outcome := AddRecord(cfg, store, fields.value);
  }

  /** Lines 117-118, then the note, over the store: the add, and the note under the id it answers. */
  method AddRecord(cfg: Config, store: Store, fields: Dict<Value>) returns (outcome: Outcome)
    modifies store
    ensures outcome == AddedTrace(cfg, old(store.State()), fields).outcome
    ensures store.State() == AddedTrace(cfg, old(store.State()), fields).db
    ensures store.calls == old(store.calls) + AddedTrace(cfg, old(store.State()), fields).calls
  {
    var table := Read(cfg, DevicesSection, TableOption);
    if table.Raised? {
      return Failed(table.error);
    }
    var id := store.Add(table.value, fields);
    outcome := AddNote(cfg, store, id, NewDeviceLog);
  }

  /** Lines 20-24. */
  method CollectMacs(report: Dict<Value>) returns (macs: seq<Value>)
    ensures macs == Candidates(report)
  {
    macs := [];
    if MacPrimary in Keys(report) {
      macs := macs + [Get(report, MacPrimary)];
    }
    if MacSecondary in Keys(report) {
      macs := macs + [Get(report, MacSecondary)];
    }
  }

  /** `device_inventory(config, grist, account, data)` with `account['id'] == accountId`. */
  method DeviceInventory(cfg: Config, store: Store, accountId: Value, report: Dict<Value>) returns (outcome: Outcome)
    modifies store
    ensures outcome == Run(cfg, old(store.State()), accountId, report).outcome
    ensures store.State() == Run(cfg, old(store.State()), accountId, report).db
    ensures store.calls == old(store.calls) + Run(cfg, old(store.State()), accountId, report).calls
  {
    ghost var db := store.State();
    ghost var t := Run(cfg, db, accountId, report);
    if MacPrimary !in Keys(report) && MacSecondary !in Keys(report) {
      assert t == Trace([], db, Response(NoMacMessage, 400));
      return Response(NoMacMessage, 400);
    }
    var macs := CollectMacs(report);
    var data := report;
    data := Set(data, StatusKey, Str("Active"));
    data := Set(data, AccountKey, accountId);
    assert data == Overridden(report, accountId);
    ghost var found := Find(cfg, db, accountId, macs);
    var device := FindDevice(cfg, store, accountId, macs);
    if device.Raised? {
      RunLookupRaised(cfg, db, accountId, report);
      assert t == Trace(found.calls, db, Failed(device.error));
      return Failed(device.error);
    }
    ghost var before := store.calls;
    assert before == old(store.calls) + found.calls;
    assert store.State() == db;
    outcome := Resolve(cfg, store, device.value, data);
    ghost var after := AfterLookup(cfg, db, device.value, data);
    assert store.calls == before + after.calls;
    RunAfterLookup(cfg, db, accountId, report);
    assert t == Prepend(found.calls, after);
    CallsAssociate(old(store.calls), found.calls, after.calls);
  }

  lemma CallsAssociate(a: seq<Call>, b: seq<Call>, c: seq<Call>)
    ensures a + b + c == a + (b + c)
  {
  }

  lemma RunLookupRaised(cfg: Config, db: Db, accountId: Value, report: Dict<Value>)
    requires HasMac(report)
    requires Find(cfg, db, accountId, Candidates(report)).device.Raised?
    ensures Run(cfg, db, accountId, report)
      == Trace(Find(cfg, db, accountId, Candidates(report)).calls, db, Failed(Find(cfg, db, accountId, Candidates(report)).device.error))
  {
  }

  /** Past the MAC check and a lookup that did not raise, the routine is the lookup followed by `AfterLookup`. */
  lemma RunAfterLookup(cfg: Config, db: Db, accountId: Value, report: Dict<Value>)
    requires HasMac(report)
    requires Find(cfg, db, accountId, Candidates(report)).device.Ok?
    ensures Run(cfg, db, accountId, report)
      == Prepend(Find(cfg, db, accountId, Candidates(report)).calls,
                 AfterLookup(cfg, db, Find(cfg, db, accountId, Candidates(report)).device.value, Overridden(report, accountId)))
  {
  }

  /** Lines 53-127 over the store, once the lookup has answered `device`. */
  method Resolve(cfg: Config, store: Store, device: Option<Record>, data: Dict<Value>) returns (outcome: Outcome)
    modifies store
    ensures outcome == AfterLookup(cfg, old(store.State()), device, data).outcome
    ensures store.State() == AfterLookup(cfg, old(store.State()), device, data).db
    ensures store.calls == old(store.calls) + AfterLookup(cfg, old(store.State()), device, data).calls
  {
    if device.Some? {
      var reconciled := ReconcileSlots(cfg, data, device.value.fields);
      if reconciled.Raised? {
        return Failed(reconciled.error);
      }
      outcome := UpdateExisting(cfg, store, device.value, reconciled.value);
    } else {
      outcome := AddNewDevice(cfg, store, data);
    }
  }
}

/** What the routine promises about its store calls, payloads and outcome. */
module InventoryFacts {
  import opened Results
  import opened Values
  import opened Dicts
  import opened Settings
  import opened Grist
  import opened Slots
  import opened SlotFacts
  import opened Merge
  import opened MergeFacts
  import opened Inventory

  /** A record passes a lookup filter exactly when it carries one of the MACs in the MAC column and, unless the two columns coincide, the account id in the account column. */
  lemma QueryMeaning(r: Record, accountCol: string, accountId: Value, macCol: string, macs: seq<Value>)
    ensures Matches(r, Query(accountCol, accountId, macCol, macs)) <==>
      && macCol in r.fields && r.fields[macCol] in macs
      && (accountCol != macCol ==> accountCol in r.fields && r.fields[accountCol] == accountId)
  {
    var q := Query(accountCol, accountId, macCol, macs);
    if accountCol != macCol {
      assert accountCol in q && macCol in q;
    } else {
      assert macCol in q;
    }
  }

  /**
   * The lookup sends at most two queries, both to the `Devices` table with
   * limit 1 and the account filter; the first by the primary-MAC column, the
   * second by the secondary-MAC column and only when the first found nothing.
   * A device found is a row of the table that passes the last query sent.
   */
  lemma FindQueries(cfg: Config, db: Db, accountId: Value, macs: seq<Value>)
    ensures var f := Find(cfg, db, accountId, macs);
      && |f.calls| <= 2
      && (forall i :: 0 <= i < |f.calls| ==> f.calls[i].GetCall? && f.calls[i].table == DevicesTable && f.calls[i].limit == 1)
      && (|f.calls| > 0 ==>
            && Read(cfg, DevicesSection, AccountKey).Ok? && Read(cfg, DevicesSection, MacPrimary).Ok?
            && f.calls[0].filter == Query(Read(cfg, DevicesSection, AccountKey).value, accountId, Read(cfg, DevicesSection, MacPrimary).value, macs))
      && (|f.calls| == 2 ==>
            && FirstMatch(Rows(db, DevicesTable), f.calls[0].filter).None?
            && Read(cfg, DevicesSection, MacSecondary).Ok?
            && f.calls[1].filter == Query(Read(cfg, DevicesSection, AccountKey).value, accountId, Read(cfg, DevicesSection, MacSecondary).value, macs))
      && (f.device.Ok? ==> |f.calls| > 0 && f.device.value == FirstMatch(Rows(db, DevicesTable), f.calls[|f.calls| - 1].filter))
      && (f.device.Ok? && f.device.value.Some? ==>
            f.device.value.value in Rows(db, DevicesTable) && Matches(f.device.value.value, f.calls[|f.calls| - 1].filter))
      && (f.device.Raised? ==> |f.calls| < 2)
  {
  }

  /** A device matching the primary-MAC query wins: the secondary-MAC column is then never queried. */
  lemma PrimaryFirst(cfg: Config, db: Db, accountId: Value, macs: seq<Value>, i: nat)
    requires Read(cfg, DevicesSection, AccountKey).Ok? && Read(cfg, DevicesSection, MacPrimary).Ok?
    requires i < |Rows(db, DevicesTable)|
    requires Matches(Rows(db, DevicesTable)[i], Query(Read(cfg, DevicesSection, AccountKey).value, accountId, Read(cfg, DevicesSection, MacPrimary).value, macs))
    ensures |Find(cfg, db, accountId, macs).calls| == 1
    ensures Find(cfg, db, accountId, macs).device.Ok? && Find(cfg, db, accountId, macs).device.value.Some?
  {
  }

  /**
   * The lookup goes as far as the configuration lets it: a failing read of
   * `account` or `mac_primary` raises at once and queries nothing; once both
   * read, the primary-MAC query is sent; a miss there sends the secondary-MAC
   * query when `mac_secondary` reads, and raises its error when it does not.
   */
  lemma FindProceeds(cfg: Config, db: Db, accountId: Value, macs: seq<Value>)
    ensures var f := Find(cfg, db, accountId, macs);
      && (Read(cfg, DevicesSection, AccountKey).Raised? ==>
            f == Found([], Raised(Read(cfg, DevicesSection, AccountKey).error)))
      && (Read(cfg, DevicesSection, AccountKey).Ok? && Read(cfg, DevicesSection, MacPrimary).Raised? ==>
            f == Found([], Raised(Read(cfg, DevicesSection, MacPrimary).error)))
      && (Read(cfg, DevicesSection, AccountKey).Ok? && Read(cfg, DevicesSection, MacPrimary).Ok? ==> |f.calls| >= 1)
      && (|f.calls| >= 1 && FirstMatch(Rows(db, DevicesTable), f.calls[0].filter).Some? ==>
            f.calls == [f.calls[0]] && f.device == Ok(FirstMatch(Rows(db, DevicesTable), f.calls[0].filter)))
      && (|f.calls| >= 1 && FirstMatch(Rows(db, DevicesTable), f.calls[0].filter).None? ==>
            if Read(cfg, DevicesSection, MacSecondary).Ok? then |f.calls| == 2 && f.device.Ok?
            else f.calls == [f.calls[0]] && f.device == Raised(Read(cfg, DevicesSection, MacSecondary).error))
  {
  }

  /**
   * The reconciler the routine runs keeps the report a dict (each key once)
   * and changes no entry other than the four slots.
   */
  lemma ReconcileKeepsOthers(cfg: Config, data: Dict<Value>, stored: map<string, Value>)
    requires Distinct(data) && ReconcileAsWritten(cfg, data, stored).Ok?
    ensures Distinct(ReconcileAsWritten(cfg, data, stored).value)
    ensures OthersKept(data, ReconcileAsWritten(cfg, data, stored).value)
  {
    if !RuleATestRaises(cfg, data) && !RuleAFires(cfg, data, stored) && !RuleBTestRaises(cfg, data)
       && RuleBFires(cfg, data, stored) && MacPrimary in Keys(data) {
      assert ReconcileAsWritten(cfg, data, stored) == SecondaryToPrimaryAsWritten(data);
      var r := AsWrittenRuleBOutcome(data);
    } else if RuleAFires(cfg, data, stored) {
      RuleAOutcome(cfg, data, stored);
    } else {
      AsWrittenAgreesElsewhere(cfg, data, stored);
      if !RuleATestRaises(cfg, data) && !RuleBTestRaises(cfg, data) && RuleBFires(cfg, data, stored) {
        RuleBOutcome(cfg, data, stored);
      }
    }
  }

  /** The report that is diffed has `status` 'Active' and the account's id, whatever the report said. */
  lemma OverridesReachDiff(cfg: Config, report: Dict<Value>, accountId: Value, stored: map<string, Value>)
    requires ReconcileAsWritten(cfg, Overridden(report, accountId), stored).Ok?
    ensures var r := ReconcileAsWritten(cfg, Overridden(report, accountId), stored).value;
      && StatusKey in Keys(r) && Get(r, StatusKey) == Str("Active")
      && AccountKey in Keys(r) && Get(r, AccountKey) == accountId
  {
    assert !IsSlotKey(StatusKey) && !IsSlotKey(AccountKey);
  }

  /** The configuration names every column and table the writes and the note need. */
  predicate WritesConfigured(cfg: Config)
  {
    && Read(cfg, DevicesSection, TableOption).Ok?
    && Read(cfg, NotesSection, NoteDeviceOption).Ok?
    && Read(cfg, NotesSection, NoteTextOption).Ok?
    && Read(cfg, NotesSection, TableOption).Ok?
  }

  /** The note call for device `id` with text `log`. */
  function NoteCall(cfg: Config, id: int, log: string): Call
    requires WritesConfigured(cfg)
  {
    AddCall(Read(cfg, NotesSection, TableOption).value,
      NoteFields(Read(cfg, NotesSection, NoteDeviceOption).value, Read(cfg, NotesSection, NoteTextOption).value, id, log))
  }

  /** With the note options configured, a non-empty log is written as exactly the note call. */
  lemma NoteWritten(cfg: Config, db: Db, id: int, log: string)
    requires WritesConfigured(cfg) && log != ""
    ensures NoteTrace(cfg, db, id, log) == Trace([NoteCall(cfg, id, log)], Effect(db, NoteCall(cfg, id, log)), Saved())
  {
  }

  /** A known device whose report changes nothing is neither updated nor noted. */
  lemma NoChangeNoWrite(cfg: Config, db: Db, device: Record, data: Dict<Value>)
    requires Diff(cfg, device.fields, data).Ok? && |Diff(cfg, device.fields, data).value.fields| == 0
    ensures ExistingTrace(cfg, db, device, data) == Trace([], db, Saved())
  {
    var staged := Diff(cfg, device.fields, data).value;
    if staged.changes != [] {
      ChangesNeedFields(cfg, device.fields, data);
    }
    ChangeLogEmpty(staged.changes);
  }

  /** Changes only to silent keys update the device and add no note. */
  lemma SilentChangesNoNote(cfg: Config, db: Db, device: Record, data: Dict<Value>)
    requires WritesConfigured(cfg)
    requires Diff(cfg, device.fields, data).Ok?
    requires |Diff(cfg, device.fields, data).value.fields| > 0 && Diff(cfg, device.fields, data).value.changes == []
    ensures var call := UpdateCall(Read(cfg, DevicesSection, TableOption).value, device.id, Diff(cfg, device.fields, data).value.fields);
      ExistingTrace(cfg, db, device, data) == Trace([call], Effect(db, call), Saved())
  {
    ChangeLogEmpty([]);
  }

  /** A reported change updates the device with the staged columns and then adds the change note for it. */
  lemma ChangesUpdateThenNote(cfg: Config, db: Db, device: Record, data: Dict<Value>)
    requires WritesConfigured(cfg)
    requires Diff(cfg, device.fields, data).Ok? && Diff(cfg, device.fields, data).value.changes != []
    ensures var staged := Diff(cfg, device.fields, data).value;
      var update := UpdateCall(Read(cfg, DevicesSection, TableOption).value, device.id, staged.fields);
      var note := NoteCall(cfg, device.id, ChangeLog(staged.changes));
      ExistingTrace(cfg, db, device, data) == Trace([update, note], Effect(Effect(db, update), note), Saved())
  {
    var staged := Diff(cfg, device.fields, data).value;
    var update := UpdateCall(Read(cfg, DevicesSection, TableOption).value, device.id, staged.fields);
    var log := ChangeLog(staged.changes);
    ChangesNeedFields(cfg, device.fields, data);
    ChangeLogEmpty(staged.changes);
    assert ExistingTrace(cfg, db, device, data) == Prepend([update], NoteTrace(cfg, Effect(db, update), device.id, log));
    NoteWritten(cfg, Effect(db, update), device.id, log);
    assert [update] + [NoteCall(cfg, device.id, log)] == [update, NoteCall(cfg, device.id, log)];
  }

  /** A new device is added with exactly the mapped non-null entries, then noted under the id the store gives it. */
  lemma NewDeviceAddThenNote(cfg: Config, db: Db, data: Dict<Value>)
    requires WritesConfigured(cfg) && NewFields(cfg, data).Ok?
    ensures var add := AddCall(Read(cfg, DevicesSection, TableOption).value, NewFields(cfg, data).value);
      var note := NoteCall(cfg, db.nextId, NewDeviceLog);
      && NewTrace(cfg, db, data) == Trace([add, note], Effect(Effect(db, add), note), Saved())
      && Rows(Effect(db, add), add.table) == Rows(db, add.table) + [Record(db.nextId, ToMap(add.fields))]
  {
    var add := AddCall(Read(cfg, DevicesSection, TableOption).value, NewFields(cfg, data).value);
    var note := NoteCall(cfg, db.nextId, NewDeviceLog);
    assert NewTrace(cfg, db, data) == Prepend([add], NoteTrace(cfg, Effect(db, add), db.nextId, NewDeviceLog));
    assert NewDeviceLog != "";
    NoteWritten(cfg, Effect(db, add), db.nextId, NewDeviceLog);
    assert [add] + [note] == [add, note];
    AddAppends(db, add.table, add.fields);
  }

  /** An `update` or `add` to the devices table named by the configuration. */
  predicate DeviceWrite(cfg: Config, c: Call)
  {
    (c.UpdateCall? || c.AddCall?) && Read(cfg, DevicesSection, TableOption) == Ok(c.table)
  }

  /** An `update` of record `id` in the devices table named by the configuration. */
  predicate UpdateOf(cfg: Config, id: int, c: Call)
  {
    c.UpdateCall? && c.id == id && Read(cfg, DevicesSection, TableOption) == Ok(c.table)
  }

  /** An `add` to the devices table named by the configuration. */
  predicate AddOf(cfg: Config, c: Call)
  {
    c.AddCall? && Read(cfg, DevicesSection, TableOption) == Ok(c.table)
  }

  /** An `add` to the notes table named by the configuration. */
  predicate NoteWrite(cfg: Config, c: Call)
  {
    c.AddCall? && Read(cfg, NotesSection, TableOption) == Ok(c.table)
  }

  /** The writes after the lookup: none, a device write, or a device write and then a note. */
  predicate WritesShape(cfg: Config, w: seq<Call>)
  {
    && |w| <= 2
    && (|w| > 0 ==> DeviceWrite(cfg, w[0]))
    && (|w| == 2 ==> NoteWrite(cfg, w[1]))
  }

  predicate Finished(o: Outcome)
  {
    o == Saved() || o.Failed?
  }

  lemma NoteShape(cfg: Config, db: Db, id: int, log: string)
    ensures var t := NoteTrace(cfg, db, id, log);
      && Finished(t.outcome) && |t.calls| <= 1 && (|t.calls| == 1 ==> NoteWrite(cfg, t.calls[0]))
      && (log != "" && t.outcome == Saved() ==> |t.calls| == 1)
  {
  }

  /** A known device is only ever updated, under its own id, and then at most noted. */
  lemma ExistingShape(cfg: Config, db: Db, device: Record, data: Dict<Value>)
    ensures Finished(ExistingTrace(cfg, db, device, data).outcome)
    ensures WritesShape(cfg, ExistingTrace(cfg, db, device, data).calls)
    ensures var t := ExistingTrace(cfg, db, device, data);
      |t.calls| > 0 ==> UpdateOf(cfg, device.id, t.calls[0])
  {
    match Diff(cfg, device.fields, data)
    case Raised(_) =>
    case Ok(staged) =>
      if |staged.fields| == 0 {
        NoChangeNoWrite(cfg, db, device, data);
      } else if Read(cfg, DevicesSection, TableOption).Ok? {
        var call := UpdateCall(Read(cfg, DevicesSection, TableOption).value, device.id, staged.fields);
        var note := NoteTrace(cfg, Effect(db, call), device.id, ChangeLog(staged.changes));
        assert ExistingTrace(cfg, db, device, data) == Prepend([call], note);
        NoteShape(cfg, Effect(db, call), device.id, ChangeLog(staged.changes));
        assert UpdateOf(cfg, device.id, call);
      }
  }

  /** A new device is only ever added, and a run that succeeds has added it and then its note. */
  lemma NewShape(cfg: Config, db: Db, data: Dict<Value>)
    ensures Finished(NewTrace(cfg, db, data).outcome)
    ensures WritesShape(cfg, NewTrace(cfg, db, data).calls)
    ensures var t := NewTrace(cfg, db, data);
      && (|t.calls| > 0 ==> AddOf(cfg, t.calls[0]))
      && (t.outcome == Saved() ==> |t.calls| == 2)
  {
    match NewFields(cfg, data)
    case Raised(_) =>
    case Ok(fields) =>
      match Read(cfg, DevicesSection, TableOption)
      case Raised(_) =>
      case Ok(table) =>
        var call := AddCall(table, fields);
        var note := NoteTrace(cfg, Effect(db, call), db.nextId, NewDeviceLog);
        assert NewTrace(cfg, db, data) == Prepend([call], note);
        NoteShape(cfg, Effect(db, call), db.nextId, NewDeviceLog);
        assert NewDeviceLog != "";
        assert AddOf(cfg, call);
  }

  lemma AfterLookupShape(cfg: Config, db: Db, device: Option<Record>, data: Dict<Value>)
    ensures Finished(AfterLookup(cfg, db, device, data).outcome)
    ensures WritesShape(cfg, AfterLookup(cfg, db, device, data).calls)
    ensures var t := AfterLookup(cfg, db, device, data);
      && (device.Some? && |t.calls| > 0 ==> UpdateOf(cfg, device.value.id, t.calls[0]))
      && (device.None? && |t.calls| > 0 ==> AddOf(cfg, t.calls[0]))
      && (device.None? && t.outcome == Saved() ==> |t.calls| == 2)
  {
    match device
    case None => NewShape(cfg, db, data);
    case Some(d) =>
      match ReconcileAsWritten(cfg, data, d.fields)
      case Raised(_) =>
      case Ok(reconciled) => ExistingShape(cfg, db, d, reconciled);
  }

  /**
   * Every run either rejects a report without MAC before touching the store,
   * or sends the lookup queries and then at most one device write followed
   * by at most one note; a note never comes without a device write before it.
   */
  lemma RunShape(cfg: Config, db: Db, accountId: Value, report: Dict<Value>)
    ensures var t := Run(cfg, db, accountId, report);
      && (!HasMac(report) <==> t == Trace([], db, Response(NoMacMessage, 400)))
      && (HasMac(report) ==>
            var queries := Find(cfg, db, accountId, Candidates(report)).calls;
            && Finished(t.outcome)
            && |queries| <= |t.calls|
            && t.calls[..|queries|] == queries
            && WritesShape(cfg, t.calls[|queries|..]))
  {
    if HasMac(report) {
      var f := Find(cfg, db, accountId, Candidates(report));
      var t := Run(cfg, db, accountId, report);
      FindQueries(cfg, db, accountId, Candidates(report));
      if f.device.Raised? {
        RunLookupRaised(cfg, db, accountId, report);
        assert t.calls[|f.calls|..] == [];
      } else {
        RunAfterLookup(cfg, db, accountId, report);
        var after := AfterLookup(cfg, db, f.device.value, Overridden(report, accountId));
        AfterLookupShape(cfg, db, f.device.value, Overridden(report, accountId));
        assert t.calls == f.calls + after.calls;
        assert t.calls[|f.calls|..] == after.calls;
      }
    }
  }

  /** The note payload is what assigning the device id and then the text, one key at a time, builds; it links the device id and carries the text, and if both options name one column, the text wins. */
  lemma NoteFieldsContent(deviceCol: string, noteCol: string, id: int, log: string)
    ensures var f := NoteFields(deviceCol, noteCol, id, log);
      && f == Set(Set([], deviceCol, Int(id)), noteCol, Str(log))
      && Distinct(f)
      && (deviceCol != noteCol ==> Keys(f) == [deviceCol, noteCol] && Get(f, deviceCol) == Int(id) && Get(f, noteCol) == Str(log))
      && (deviceCol == noteCol ==> Keys(f) == [noteCol] && Get(f, noteCol) == Str(log))
  {
    var d := NoteDeviceOnly(deviceCol, id);
    SetInPlace(d, noteCol, Str(log));
    if deviceCol == noteCol {
      assert IndexOf(d, noteCol) == 0;
    }
  }

  lemma NoteDeviceOnly(deviceCol: string, id: int) returns (d: Dict<Value>)
    ensures d == Set([], deviceCol, Int(id)) == [(deviceCol, Int(id))]
    ensures Keys(d) == [deviceCol] && Distinct(d) && Get(d, deviceCol) == Int(id)
  {
    d := Set([], deviceCol, Int(id));
    assert Keys<Value>([]) == [];
    SetInPlace([], deviceCol, Int(id));
  }

  /** On a store that numbers records upwards, the new-device note points at the record just added and at no older one. */
  lemma NewNoteLinksAddedDevice(cfg: Config, db: Db, data: Dict<Value>)
    requires IdsBelow(db) && WritesConfigured(cfg) && NewFields(cfg, data).Ok?
    ensures var t := NewTrace(cfg, db, data);
      var table := Read(cfg, DevicesSection, TableOption).value;
      var rows := Rows(Effect(db, t.calls[0]), table);
      && |t.calls| == 2
      && rows[|rows| - 1] == Record(db.nextId, ToMap(NewFields(cfg, data).value))
      && (forall i :: 0 <= i < |rows| - 1 ==> rows[i].id != db.nextId)
      && t.calls[1] == NoteCall(cfg, db.nextId, NewDeviceLog)
  {
    NewDeviceAddThenNote(cfg, db, data);
    AddedIdFresh(db, Read(cfg, DevicesSection, TableOption).value, NewFields(cfg, data).value);
  }
}

