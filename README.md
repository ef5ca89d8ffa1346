# device_inventory, modelled in Dafny

This project models `device_inventory` from `libs/device.py` of Grist-Scripts.
The routine takes an inventory report that a scanned machine sends for an
account. It finds the matching device record in the Grist `Devices` table,
updates that record's changed columns or adds a new record, and writes a note
of what changed.

The modules follow the routine's stages:

- `Results`, `Values`, `Dicts`, `Settings`: the routine's inputs.
  - `Values` gives the JSON values of a report and their Python `str()` text.
  - `Dicts` is Python's insertion-ordered `dict`, as a sequence of entries.
  - `Settings` is `ConfigParser.get`, which raises `NoSectionError` or
    `NoOptionError`.
  - `Results` holds those exceptions and `KeyError`.
- `Grist`: the record store.
  - `Store` is a class. Every call through it is kept in a ghost log.
    `GetFirst` only reads the tables; `Add` and `Update` change them.
  - `Effect` says what each call does to the store's contents.
- `Slots` / `SlotFacts`: the MAC/IP slot reconciler (lines 53-93).
  `ReconcileAsWritten` is the code as it stands; `Reconcile` is rule B with
  its MAC exchange corrected (see Findings).
  - rule A swaps slots when the report's primary MAC is the stored secondary
    MAC;
  - rule B swaps them when the report's secondary MAC is the stored primary
    MAC.
- `Merge` / `MergeFacts`: the two payload loops, the change lines and the
  change note.
- `Inventory` / `InventoryFacts`: the lookup, the writes, the note and the
  whole routine.
  - `Run` states the routine as a value: the calls made, the final store
    contents and the outcome (the return value or the exception raised).
  - `DeviceInventory` is the routine step by step over a `Store`. It is proved
    to make exactly the calls `Run` lists, to leave the store as `Run` says
    and to return what `Run` says.

Inputs, as the model takes them:

- The configuration is a parameter.
- The account is given by its id.
- The Grist server is the in-memory `Store`.

What the code does, and the model with it:

- The routine answers only two ways:
  - `("Saved device inventory successfully", 200)` on every path that does
    not raise;
  - `("No MAC address provided", 400)` for a report with no MAC.

  It returns no record id and has no separate "created" or "updated"
  message.
- The silent keys are a fixed list, `discover_log`, `account` and `status`.
  They are not configured.
- There are no weak keys.
- A report key with no option in section `devices` raises `NoOptionError`.
  Only an option set to the empty string means "not mapped".
- The lookups use the literal table name `Devices`. The writes use the
  configured `devices._table`.
- A swap whose IP slot it reads from is absent from the report raises
  `KeyError`. The model keeps this as an error outcome. An IP slot that is
  present with value `None` is moved like any other value.
- The routine runs rule B as written: with both MACs present it exchanges
  the IPs but not the MACs. See Findings.

## Model

| member | source | states |
|---|---|---|
| Settings.Read | libs/device.py:40-41 | `config.get` succeeds exactly when section and option exist, returning the option's string; a missing section raises NoSectionError for that section, and a present section without the option raises NoOptionError for that option and section |
| Values.Decimal | libs/device.py:103 | the text Python prints for a non-negative integer: non-empty decimal digits that spell exactly that number, with no leading zero, and "0" for 0 |
| Values.DecimalUnique | libs/device.py:103 | a digit string without leading zero that spells n is exactly `Decimal(n)`, so that text is the only way to print n |
| Values.Show | libs/device.py:103 | the `str()` text of a non-negative integer is `Decimal` of it; of a negative one, a minus sign followed by `Decimal` of its magnitude |
| Dicts.Set | libs/device.py:30-31 | dict assignment keeps the key order and appends an absent key; the key then maps to the new value, every other key keeps its value, and distinct keys stay distinct |
| Dicts.Del | libs/device.py:66 | `del` removes exactly that key, keeps every other key and its value, and keeps keys distinct |
| Dicts.DelKeepsOrder | libs/device.py:66 | after `del`, any two remaining keys are still in the order they had before |
| Dicts.ToMap | libs/device.py:110 | the payload sent as a map has the dict's keys and their values |
| Grist.FirstMatch | libs/grist.py:44-46 | `get(limit=1)` answers None exactly when no row matches, else the first matching row |
| Grist.Store.constructor | libs/grist.py:7-10 | a client over the given store contents, with an empty call log |
| Grist.Store.GetFirst | libs/grist.py:12-48 | answers the first row of the table matching the filter; logs the query; changes no table |
| Grist.Store.Add | libs/grist.py:52-76 | appends a record with the next id, answers that id and logs the call |
| Grist.Store.Update | libs/grist.py:78-102 | patches the record with that id (no change if the table is absent) and logs the call |
| Grist.Effect | libs/grist.py:52-102 | a `get` changes nothing; only an `add` consumes an id, and it may create its table; no call touches a table other than its own |
| Grist.EffectKeepsIdsBelow | libs/grist.py:52-102 | every call keeps every stored id below the next id to be given out, and the next id never decreases |
| Grist.AddedIdFresh | libs/grist.py:73-74 | the added record is the table's last row, carries the answered id, and no older row has that id |
| Grist.UpdatePatchesRecord | libs/grist.py:93-97 | update writes the patch's columns into the record with that id, keeps its other columns, and leaves every other record, table and the id counter unchanged |
| Slots.Exchange | libs/device.py:61-63 | swapping two present entries keeps the keys and exchanges exactly their values |
| Slots.Move | libs/device.py:65-66 | moving an entry to an absent slot puts its value there, removes the old slot, and keeps the rest |
| Slots.ExchangeInPlace | libs/device.py:69-71 | the swap rewrites the two entries where they stand, so the report's key order is unchanged |
| Slots.ReconcileAsWritten | libs/device.py:53-93 | the slot rewrite as the code stands returns the report unchanged when neither rule's test raises or fires, changes no entry other than the four slots, and raises only KeyError for a missing IP slot or the configuration error of a slot option it reads |
| Slots.Reconcile | libs/device.py:53-93 | the corrected slot rewrite also returns the report unchanged when neither rule's test raises or fires |
| Slots.ExchangeInvolutive | libs/device.py:61-63 | swapping twice gives back the report, order included |
| SlotFacts.RuleAOutcome | libs/device.py:56-74 | rule A is the same in the code as written and in the corrected reconciler; after it, both the MAC pair and the IP pair are swapped (absence included), no other entry changes, and the report's secondary MAC is the stored one; without `ip_primary` it raises KeyError |
| SlotFacts.RuleBOutcome | libs/device.py:75-93 | after rule B with line 82 corrected, both pairs are swapped, no other entry changes, and the report's primary MAC is the stored one; without `ip_secondary` it raises KeyError |
| SlotFacts.PrimaryToSecondarySwaps | libs/device.py:60-74 | the rule A swap, with `ip_primary` present, keeps keys distinct, swaps both pairs and keeps every other entry |
| SlotFacts.SecondaryToPrimarySwaps | libs/device.py:79-93 | the corrected rule B swap, with `ip_secondary` present, keeps keys distinct, swaps both pairs and keeps every other entry |
| SlotFacts.RuleBKeepsMacPair | libs/device.py:79-82 | as written, rule B with both MACs swaps the IPs but leaves both MACs where they were, so the primary MAC still differs from the stored one |
| SlotFacts.AsWrittenRuleBOutcome | libs/device.py:79-93 | as written, rule B with both MACs keeps the MAC pair, swaps the IP pair and keeps every other entry |
| SlotFacts.RuleBExample | libs/device.py:75-93 | on a concrete report, as written only the IPs are exchanged; corrected, the MACs are exchanged too |
| SlotFacts.AsWrittenAgreesElsewhere | libs/device.py:53-93 | apart from rule B firing with both MACs present, the code as written and the corrected reconciler give the same result |
| SlotFacts.SwapWithoutIpRaises | libs/device.py:68-93 | a swap that fires on a report that has no IP raises KeyError, in the code as written and in the corrected reconciler |
| SlotFacts.DoubleAssignIsIdentity | libs/device.py:80-82 | the two assignments to `mac_primary` leave the report exactly as it was |
| Merge.Join | libs/device.py:107 | `sep.join(parts)` is empty for no parts, starts with the first part, and is as long as the parts plus one separator between each two |
| Merge.StageChanges | libs/device.py:97-104 | the existing-device loop yields the changed-column payload and the change lines that `Diff` defines, or the configuration error of the first unmapped key |
| Merge.StageNewDevice | libs/device.py:112-116 | the new-device loop yields the payload that `NewFields` defines, or that error |
| Merge.DiffStep | libs/device.py:98-104 | one more report entry takes the existing-device payload one step further, or keeps the error already raised, and adds that entry's change line, if any |
| Merge.ChangeLinesSnoc | libs/device.py:98-103 | the change lines of a report with one more entry are the old lines plus that entry's line, if any |
| MergeFacts.PayloadOk | libs/device.py:99 | a payload loop finishes exactly when every report key has an option in `devices`; otherwise it raises the error of the first key that has none |
| MergeFacts.PayloadFields | libs/device.py:98-104 | the payload holds exactly the written columns (non-null value, non-empty column, and on a known device a stored column with a different value), each once, each with the value of the last entry written to it |
| MergeFacts.PayloadWritesOnlyChanges | libs/device.py:100-101 | no payload value is None, no column is empty, and an update never rewrites a stored value with itself |
| MergeFacts.NoChangeLines | libs/device.py:102-103 | there is no change line exactly when every written entry has a silent key |
| MergeFacts.ChangesNeedFields | libs/device.py:102-104 | a change line implies a non-empty update payload |
| MergeFacts.DiffWithinNew | libs/device.py:100-115 | every column an update writes would also be written for a new device |
| MergeFacts.ChangeLogEmpty | libs/device.py:106-107 | the change note is empty exactly when there is no change line |
| MergeFacts.ChangeLogSnoc | libs/device.py:107 | the note starts with the header, and each further change line adds one bulleted line |
| MergeFacts.JoinSnoc | libs/device.py:107 | `'\n* '.join` of one more part appends the separator and that part |
| Inventory.Candidates | libs/device.py:20-24 | the MAC list has one entry per MAC the report has, the primary MAC first, then the secondary; it is empty exactly when the report has no MAC |
| Inventory.CollectMacs | libs/device.py:20-24 | builds that list |
| Inventory.Overridden | libs/device.py:30-31 | the report gets status 'Active' and the account id, and keeps every other entry |
| Inventory.FindDevice | libs/device.py:38-51 | makes exactly the lookup queries `Find` lists and answers its device; the store's contents are unchanged |
| Inventory.ReconcileSlots | libs/device.py:53-93 | the slot rewrite step by step, lines 80-82 included as written, equals `ReconcileAsWritten` |
| Inventory.UpdateExisting | libs/device.py:95-110 | on a known device: the update (only when the payload is non-empty), then the note, as `ExistingTrace` says |
| Inventory.WriteChanges | libs/device.py:105-110 | once the changes are staged: the update with the staged columns only when there are any, then the note, as `StagedTrace` says |
| Inventory.AddNewDevice | libs/device.py:111-118 | on a new device: the add, then the note under the answered id, as `NewTrace` says |
| Inventory.AddRecord | libs/device.py:117-118 | once the new record's payload is staged: the add to the configured table, then the note under the answered id, as `AddedTrace` says |
| Inventory.AddNote | libs/device.py:121-127 | adds a note only when the log is non-empty, then returns the success pair |
| Inventory.Resolve | libs/device.py:53-127 | after the lookup, the routine (with the reconciler as written) makes `AfterLookup`'s calls, leaves the store as it says and returns its outcome |
| Inventory.Run | libs/device.py:6-127 | the routine answers 400 exactly for a report without MAC, and then before any call and with the store unchanged; with a MAC it returns the success pair or raises |
| Inventory.DeviceInventory | libs/device.py:6-127 | the whole routine makes exactly `Run`'s calls in order, leaves the store as `Run` says and returns `Run`'s outcome |
| InventoryFacts.QueryMeaning | libs/device.py:39-49 | a record passes a lookup filter exactly when its MAC column holds one of the MACs and its account column holds the account id (when both options name one column, the filter keeps only the MAC test) |
| InventoryFacts.FindQueries | libs/device.py:38-51 | at most two queries, both to `Devices` with limit 1 and the account filter; first by the primary-MAC column; the secondary-MAC query only when the first found nothing; a device found is a row matching the last query |
| InventoryFacts.FindProceeds | libs/device.py:38-51 | the lookup goes as far as the configuration lets it: an unreadable account or primary-MAC option raises before any query; otherwise the primary-MAC query is sent; a hit ends the lookup with that row; a miss sends the secondary-MAC query and answers its result when that option reads, and raises its error otherwise |
| InventoryFacts.PrimaryFirst | libs/device.py:43-44 | a device matching the primary-MAC query wins after one query |
| InventoryFacts.ReconcileKeepsOthers | libs/device.py:53-93 | the reconciler as written keeps the report's keys distinct and changes no entry other than the four slots |
| InventoryFacts.OverridesReachDiff | libs/device.py:30-31 | after the slot rewrite as written, the diffed report carries status 'Active' and the account id whatever the report said |
| InventoryFacts.NoteWritten | libs/device.py:121-126 | with the note options configured, a non-empty log is written as exactly one `add` of the note payload to the notes table, and the routine then succeeds |
| InventoryFacts.NoChangeNoWrite | libs/device.py:106-110 | a known device with nothing to change gets no update and no note |
| InventoryFacts.SilentChangesNoNote | libs/device.py:102-110 | changes to silent keys only give an update and no note |
| InventoryFacts.ChangesUpdateThenNote | libs/device.py:106-126 | a reported change gives the update with the staged columns, then the change note for that device |
| InventoryFacts.NewDeviceAddThenNote | libs/device.py:111-126 | a new device is added with its mapped non-null entries and then noted under the id the store gave it |
| InventoryFacts.NoteShape | libs/device.py:121-127 | the note step adds at most one record, to the notes table, and returns the success pair or raises; with a non-empty log, success means the note was added |
| InventoryFacts.ExistingShape | libs/device.py:95-127 | a known device gets at most one write, an update of its own id in the configured devices table, and then at most a note |
| InventoryFacts.NewShape | libs/device.py:111-127 | a new device gets at most one write, an add to the configured devices table, and then at most a note; a run that succeeds made exactly the add and the note |
| InventoryFacts.AfterLookupShape | libs/device.py:53-127 | after the lookup: at most one device write, then at most one note, which never comes without the write; a found device is only updated, a missing one only added, and a new device's success means add then note |
| InventoryFacts.RunShape | libs/device.py:17-127 | a report without MAC is rejected with 400 before touching the store; otherwise the calls are the lookup queries followed by at most one device write and then at most one note |
| InventoryFacts.NoteFieldsContent | libs/device.py:122-125 | the note payload is what assigning the device id and then the text, key by key, builds; it links the device id and carries the text, and if both options name one column, the text wins |
| InventoryFacts.NewNoteLinksAddedDevice | libs/device.py:118-126 | on a store that numbers records upwards, the new-device note points at the record just added and at no older one |

## Left out

- HTTP, JSON encoding and server errors: `raise_for_status`, and responses other than success in `libs/grist.py`, are not modelled. Every store call succeeds.
- `get` with a sort or with a limit other than 1: the routine uses neither.
- The Flask endpoint `app.py` (token header check, account lookup) is not part of this model. The account is given by its id, so a missing `account['id']` is not modelled either.
- ConfigParser details: the DEFAULT section, interpolation and lower-casing of option names are not modelled. Options are looked up exactly as named.
- Python value semantics: `==` and `!=` between values of different types (`1 == True`, `1 == 1.0`) are not modelled, and neither is `str()` of floats, lists and objects. Values compare structurally, and `Other` carries its printed text.
- Aliasing: the routine rewrites the caller's `data` dict in place. The model works on its own copy, so the caller never sees the overrides or the slot rewrite.
- Concurrency: two reports for the same new device can both find nothing and both add a record. The model runs one call at a time.
- Grist.Store.Update: an update on a table that is not in the store leaves the store unchanged. The server may answer differently.
- Grist.Effect: an `add` to a table the store lacks creates that table, where Grist answers an HTTP error. All tables also take their ids from one shared counter, where Grist numbers rows per table. The routine depends on neither: it writes only to configured tables and uses an id only to link the note to the record just added.

## Findings

| source | as written | input that shows it | evidently intended | confidence | as-written member | corrected member |
|---|---|---|---|---|---|---|
| libs/device.py:79-82 | in rule B with both MACs present, `m = data['mac_primary']; data['mac_primary'] = data['mac_secondary']; data['mac_primary'] = m` assigns `mac_primary` twice, so the MACs are not exchanged while the IPs are | a report `mac_primary="B", mac_secondary="A", ip_primary="10.0.0.2", ip_secondary="10.0.0.1"` for a stored device whose primary-MAC column holds "A" and whose secondary-MAC column does not hold "B" (it holds "C", so rule A does not fire): afterwards `mac_primary` is still "B" beside `ip_primary="10.0.0.1"` | `data['mac_secondary'] = m` on line 82, the mirror image of lines 61-63, so that both pairs are exchanged | not executed | SlotFacts.RuleBKeepsMacPair | SlotFacts.RuleBOutcome |
