/**
 * The metadata store: a JSON file holding a list of records (dicts) keyed by
 * their 'filename' field, a directory of timestamped backups of that file,
 * lookup, single merge-update (which creates a missing record) and batch
 * merge-update (which does not).
 *
 * The file system is the two fields of `MetadataManager`; the clock, the
 * backup time stamp and the success of each copy and write are parameters.
 */
module MetadataStore {
  import opened Wrappers
  import opened Json

  /** What the metadata file holds: a JSON list of records, or text `json.load` rejects. */
  datatype Content = Records(entries: seq<Dict>) | Unparsable(text: string)

  /** How `_save_metadata`'s write ends: the whole list is written; `open` fails before the file is
      touched; or the dump fails after `open(..., 'w')` has truncated the file, which then holds
      only the text written so far. A strict prefix of a dumped list lacks its closing bracket, so
      `json.load` rejects it. */
  datatype WriteOutcome = Completed | NotOpened | Truncated(partial: string)

  /** The metadata file after `_save_metadata(list)` ends as `write` says. */
  function AfterWrite(file: Option<Content>, list: seq<Dict>, write: WriteOutcome): Option<Content> {
    match write
    case Completed => Some(Records(list))
    case NotOpened => file
    case Truncated(partial) => Some(Unparsable(partial))
  }

  /** A write that fails after truncating loses the whole store: the next read gives the empty
      list. The backup made at the start of the update still holds the old file. */
  lemma TruncatedWriteLosesStore(file: Option<Content>, backups: map<string, Content>, stamp: string, list: seq<Dict>, partial: string)
    requires file.Some?
    ensures Stored(AfterWrite(file, list, Truncated(partial))) == []
    ensures BackedUp(file, backups, stamp, true)[BackupName(stamp)] == file.value
  {
  }

  /** A failed write either leaves the store as it was or empties it; it never stores the list. */
  lemma FailedWriteKeepsOrEmpties(file: Option<Content>, list: seq<Dict>, write: WriteOutcome)
    requires !write.Completed?
    ensures Stored(AfterWrite(file, list, write)) == Stored(file) || Stored(AfterWrite(file, list, write)) == []
    ensures write.Truncated? ==> AfterWrite(file, list, write).value.Unparsable?
  {
  }

  /** One item of a batch: the filename to look for and the fields to merge in. */
  datatype Update = Update(name: Value, payload: Dict)

  /** What `metadata.items()` raises when the metadata to merge is a JSON value other than a dict. */
  const NoItems := "AttributeError: object has no attribute 'items'"

  /** `read_metadata`: a missing file or an unparsable one reads as the empty list. */
  function Stored(file: Option<Content>): (list: seq<Dict>)
    ensures file.None? ==> list == []
    ensures file.Some? && file.value.Unparsable? ==> list == []
  {
    match file
    case Some(Records(entries)) => entries
    case _ => []
  }

  /** The name `_create_backup` gives the copy made at time `stamp` ("%Y%m%d_%H%M%S"). */
  function BackupName(stamp: string): string {
    "metadata_backup_" + stamp + ".json"
  }

  /** The backup directory after `_create_backup`: a verbatim copy of the file, when there is one and the copy succeeds. */
  function BackedUp(file: Option<Content>, backups: map<string, Content>, stamp: string, copyOk: bool): map<string, Content> {
    if file.Some? && copyOk then backups[BackupName(stamp) := file.value] else backups
  }

  /** `entry.get('filename') == image_filename`. */
  predicate IsFor(entry: Dict, name: Value) {
    GetOr(entry, "filename", Null) == name
  }

  /** The index of the first entry for `name` at or after `from`, if any. */
  function FirstFrom(list: seq<Dict>, name: Value, from: nat): (r: Option<nat>)
    requires from <= |list|
    ensures r.Some? ==> from <= r.value < |list| && IsFor(list[r.value], name)
    ensures r.Some? ==> forall j :: from <= j < r.value ==> !IsFor(list[j], name)
    ensures r.None? ==> forall j :: from <= j < |list| ==> !IsFor(list[j], name)
    decreases |list| - from
  {
    if from == |list| then None
    else if IsFor(list[from], name) then Some(from)
    else FirstFrom(list, name, from + 1)
  }

  /** The index of the first entry for `name`, if any. */
  function FirstFor(list: seq<Dict>, name: Value): (r: Option<nat>)
    ensures r.Some? ==> r.value < |list| && IsFor(list[r.value], name)
    ensures r.Some? ==> forall j :: 0 <= j < r.value ==> !IsFor(list[j], name)
    ensures r.None? ==> forall j :: 0 <= j < |list| ==> !IsFor(list[j], name)
  {
    FirstFrom(list, name, 0)
  }

  /** An existing entry after an update: the payload merged in, then 'last_updated' refreshed. */
  function Touched(entry: Dict, payload: Dict, now: string): Dict {
    Set(Merge(entry, payload), "last_updated", Str(now))
  }

  /** The entry `update_metadata` creates: 'filename', then the payload, then 'created' and 'last_updated'. */
  function Fresh(name: Value, payload: Dict, now: string): Dict {
    Set(Set(Merge([Field("filename", name)], payload), "created", Str(now)), "last_updated", Str(now))
  }

  /** The list `update_metadata` writes, given the list it read. */
  function Upserted(list: seq<Dict>, name: Value, payload: Dict, now: string): seq<Dict> {
    match FirstFor(list, name)
    case Some(i) => list[i := Touched(list[i], payload, now)]
    case None => list + [Fresh(name, payload, now)]
  }

  /** Where a batch has got to: the list so far and the number of items that found an entry. */
  datatype Progress = Progress(entries: seq<Dict>, success: nat)

  /** One item of `update_batch_metadata`, stamped `now`: merge into the first entry for the
      name and count the item when there is one; otherwise change nothing. */
  function Advance(p: Progress, u: Update, now: string): Progress {
    match FirstFor(p.entries, u.name)
    case Some(i) => Progress(p.entries[i := Touched(p.entries[i], u.payload, now)], p.success + 1)
    case None => p
  }

  /** An item whose payload cannot rename the entry it is merged into. */
  predicate KeepsName(u: Update) {
    DistinctKeys(u.payload) && !HasKey(u.payload, "filename")
  }

  /** `Progress` after the first `n` items of a batch; item `k` is stamped `clock(k)`. A batch never
      adds or removes entries, and when no item renames an entry the filenames stay as they were and
      the success count is the number of items whose filename the store held before the batch. */
  function BatchPrefix(list: seq<Dict>, updates: seq<Update>, clock: nat -> string, n: nat): (r: Progress)
    requires n <= |updates|
    ensures |r.entries| == |list| && r.success <= n
    ensures (forall k :: 0 <= k < n ==> KeepsName(updates[k])) ==>
      Names(r.entries) == Names(list) && r.success == Known(Names(list), updates, n)
  {
    if n == 0 then Progress(list, 0)
    else
      var prev := BatchPrefix(list, updates, clock, n - 1);
      AdvanceKeepsNames(prev, updates[n - 1], clock(n - 1));
      Advance(prev, updates[n - 1], clock(n - 1))
  }

  /** The update a batch item `(filename, metadata)` makes: its metadata when that is a dict, and
      nothing otherwise (an item whose metadata is not a dict gets this far only when its name has
      no entry, and then it changes nothing). */
  function AsUpdate(item: (Value, Value)): Update {
    Update(item.0, if item.1.Obj? then item.1.fields else [])
  }

  /** The updates the items of a batch make, one per item. */
  function Updates(items: seq<(Value, Value)>): (us: seq<Update>)
    ensures |us| == |items|
  {
    seq(|items|, k requires 0 <= k < |items| => AsUpdate(items[k]))
  }

  /** One item of `update_batch_metadata` as the route hands it over: `.items()` is called only on
      the metadata of an item whose name has an entry, so metadata that is not a dict raises there
      and is merely counted as a failure otherwise. */
  function Step(p: Progress, item: (Value, Value), now: string): Result<Progress, string> {
    if FirstFor(p.entries, item.0).Some? && !item.1.Obj? then Err(NoItems)
    else Ok(Advance(p, AsUpdate(item), now))
  }

  /** The first `n` items of a batch as handed over: the progress so far, or the exception of the
      first item that raised, which ends the batch. A batch whose every metadata is a dict never
      raises and runs as the batch specification over the items' own dicts. */
  function BatchRun(list: seq<Dict>, items: seq<(Value, Value)>, clock: nat -> string, n: nat): (r: Result<Progress, string>)
    requires n <= |items|
    ensures (forall k :: 0 <= k < n ==> items[k].1.Obj?) ==>
      r == Ok(BatchPrefix(list, Updates(items), clock, n))
  {
    if n == 0 then Ok(Progress(list, 0))
    else
      match BatchRun(list, items, clock, n - 1)
      case Err(e) => Err(e)
      case Ok(prev) =>
        assert Updates(items)[n - 1] == AsUpdate(items[n - 1]);
        Step(prev, items[n - 1], clock(n - 1))
  }

  /** Once a batch has raised, later items change nothing. */
  lemma {:induction false} ErrSticks(list: seq<Dict>, items: seq<(Value, Value)>, clock: nat -> string, m: nat, n: nat)
    requires m <= n <= |items|
    requires BatchRun(list, items, clock, m).Err?
    ensures BatchRun(list, items, clock, n) == BatchRun(list, items, clock, m)
    decreases n
  {
    if n > m {
      ErrSticks(list, items, clock, m, n - 1);
    }
  }

  /** A batch raises only at an item whose metadata is not a dict, and then with `NoItems`. */
  lemma {:induction false} BatchRunRaises(list: seq<Dict>, items: seq<(Value, Value)>, clock: nat -> string, n: nat)
    requires n <= |items|
    requires BatchRun(list, items, clock, n).Err?
    ensures BatchRun(list, items, clock, n).error == NoItems
    ensures exists k :: 0 <= k < n && !items[k].1.Obj?
    decreases n
  {
    if BatchRun(list, items, clock, n - 1).Err? {
      BatchRunRaises(list, items, clock, n - 1);
    } else {
      assert !items[n - 1].1.Obj?;
    }
  }

  /** A batch whose first item names a stored entry but whose metadata is not a dict (`null`, a
      list, a string, a number or a boolean) raises, whatever follows it. */
  lemma FirstItemRaises(list: seq<Dict>, items: seq<(Value, Value)>, clock: nat -> string)
    requires |items| > 0 && FirstFor(list, items[0].0).Some? && !items[0].1.Obj?
    ensures BatchRun(list, items, clock, |items|) == Err(NoItems)
  {
    ErrSticks(list, items, clock, 1, |items|);
  }

  /** `for key, value in payload.items(): entry[key] = value`. */
  method MergeInto(entry: Dict, payload: Dict) returns (e: Dict)
    ensures e == Merge(entry, payload)
  {
    e := entry;
    var i := 0;
    while i < |payload|
      invariant 0 <= i <= |payload|
      invariant Merge(e, payload[i..]) == Merge(entry, payload)
    {
      assert payload[i..][1..] == payload[i + 1..];
      e := Set(e, payload[i].key, payload[i].val);
      i := i + 1;
    }
  }

  /** The scan `for entry in metadata_list: if entry.get('filename') == ...` shared by lookup and both updates. */
  method FindEntry(list: seq<Dict>, name: Value) returns (idx: Option<nat>)
    ensures idx == FirstFor(list, name)
  {
    var i := 0;
    while i < |list|
      invariant 0 <= i <= |list|
      invariant FirstFrom(list, name, i) == FirstFor(list, name)
    {
      if IsFor(list[i], name) {
        return Some(i);
      }
      i := i + 1;
    }
    return None;
  }

  /** One item of a batch: merge into the first entry for the name, if there is one; raise when
      that entry exists and the metadata is not a dict. */
  method ApplyUpdate(p: Progress, item: (Value, Value), now: string) returns (r: Result<Progress, string>, updated: bool)
    ensures r == Step(p, item, now)
    ensures r.Ok? ==> r.value.success == if updated then p.success + 1 else p.success
  {
    var idx := FindEntry(p.entries, item.0);
    if idx.Some? && !item.1.Obj? {
      return Err(NoItems), false;
    }
    var u := AsUpdate(item);
    StepAdvances(p, item, now);
    r, updated := Ok(p), false;
    if idx.Some? {
      var i := idx.value;
      var entry := MergeInto(p.entries[i], u.payload);
      entry := Set(entry, "last_updated", Str(now));
      r, updated := Ok(Progress(p.entries[i := entry], p.success + 1)), true;
    }
  }

  /** An item that does not raise advances the batch like its update. */
  lemma StepAdvances(p: Progress, item: (Value, Value), now: string)
    requires !(FirstFor(p.entries, item.0).Some? && !item.1.Obj?)
    ensures Step(p, item, now) == Ok(Advance(p, AsUpdate(item), now))
    ensures FirstFor(p.entries, item.0).None? ==> Advance(p, AsUpdate(item), now) == p
    ensures FirstFor(p.entries, item.0).Some? ==> var i := FirstFor(p.entries, item.0).value;
      Advance(p, AsUpdate(item), now) == Progress(p.entries[i := Touched(p.entries[i], AsUpdate(item).payload, now)], p.success + 1)
  {
  }

  /** The loop over the items of a batch, counting the items that found an entry and those that
      did not, and ending at the first item that raises. */
  method ApplyBatch(list: seq<Dict>, items: seq<(Value, Value)>, clock: nat -> string)
    returns (r: Result<Progress, string>, failure: nat)
    ensures r == BatchRun(list, items, clock, |items|)
    ensures r.Ok? ==> r.value.success + failure == |items|
  {
    var p := Progress(list, 0);
    failure := 0;
    var n := 0;
    while n < |items|
      invariant 0 <= n <= |items|
      invariant BatchRun(list, items, clock, n) == Ok(p)
      invariant p.success + failure == n
    {
      var step, updated := ApplyUpdate(p, items[n], clock(n));
      if step.Err? {
        ErrSticks(list, items, clock, n + 1, |items|);
        return step, failure;
      }
      p := step.value;
      if !updated {
        failure := failure + 1;
      }
      n := n + 1;
    }
    r := Ok(p);
  }

  class MetadataManager {
    /** The metadata file; `None` when it does not exist. */
    var file: Option<Content>
    /** The backup directory: file name to content. */
    var backups: map<string, Content>

    constructor (file: Option<Content>, backups: map<string, Content>)
      ensures this.file == file && this.backups == backups
    {
      this.file := file;
      this.backups := backups;
    }

    /** `read_metadata`. */
    method ReadMetadata() returns (list: seq<Dict>)
      ensures list == Stored(file)
    {
      match file
      case Some(Records(entries)) => list := entries;
      case _ => list := [];
    }

    /** `get_metadata_for_image`: the first entry for the name, or nothing. */
    method GetMetadataForImage(name: Value) returns (r: Option<Dict>)
      ensures r.None? <==> forall j :: 0 <= j < |Stored(file)| ==> !IsFor(Stored(file)[j], name)
      ensures r.Some? ==> exists i :: 0 <= i < |Stored(file)| && r.value == Stored(file)[i] && IsFor(r.value, name)
                           && forall j :: 0 <= j < i ==> !IsFor(Stored(file)[j], name)
    {
      var list := ReadMetadata();
      var idx := FindEntry(list, name);
      if idx.Some? {
        r := Some(list[idx.value]);
      } else {
        r := None;
      }
    }

    /** `_create_backup`: copies the file verbatim under a time-stamped name; never fails the caller. */
    method CreateBackup(stamp: string, copyOk: bool) returns (made: bool)
      modifies this`backups
      ensures made == (file.Some? && copyOk)
      ensures backups == BackedUp(file, old(backups), stamp, copyOk)
    {
      if file.None? {
        return false;
      }
      if copyOk {
        backups := backups[BackupName(stamp) := file.value];
        return true;
      }
      return false;
    }

    /** `_save_metadata`: succeeds only when the whole list is written; a failure after the file was
        opened for writing leaves it truncated. */
    method SaveMetadata(list: seq<Dict>, write: WriteOutcome) returns (ok: bool)
      modifies this`file
      ensures ok == write.Completed?
      ensures file == AfterWrite(old(file), list, write)
    {
      match write {
        case Completed =>
          file := Some(Records(list));
        case NotOpened =>
        case Truncated(partial) =>
          file := Some(Unparsable(partial));
      }
      ok := write.Completed?;
    }

    /** `update_metadata`: backup, read, merge into the first entry for the name or append a new one,
        write. Metadata that is not a dict raises at `.items()` after the backup, before the write. */
    method UpdateMetadata(name: Value, metadata: Value, now: string, stamp: string, copyOk: bool, write: WriteOutcome)
      returns (r: Result<bool, string>)
      modifies this
      ensures backups == BackedUp(old(file), old(backups), stamp, copyOk)
      ensures r.Err? <==> !metadata.Obj?
      ensures !metadata.Obj? ==> r == Err(NoItems) && file == old(file)
      ensures metadata.Obj? ==> r == Ok(write.Completed?)
      ensures metadata.Obj? ==>
        file == AfterWrite(old(file), Upserted(Stored(old(file)), name, metadata.fields, now), write)
    {
      var _ := CreateBackup(stamp, copyOk);
      var list := ReadMetadata();
      var idx := FindEntry(list, name);
      if !metadata.Obj? {
        return Err(NoItems);
      }
      match idx {
        case Some(i) =>
          var entry := MergeInto(list[i], metadata.fields);
          entry := Set(entry, "last_updated", Str(now));
          list := list[i := entry];
        case None =>
          var entry := MergeInto([Field("filename", name)], metadata.fields);
          var created := Str(now);
          entry := Set(entry, "created", created);
          entry := Set(entry, "last_updated", created);
          list := list + [entry];
      }
      var ok := SaveMetadata(list, write);
      r := Ok(ok);
    }

    /** `update_batch_metadata`: one backup, one read, a merge per item into existing entries only,
        one write; an item that raises ends the batch before the write. */
    method UpdateBatchMetadata(items: seq<(Value, Value)>, stamp: string, clock: nat -> string, copyOk: bool, write: WriteOutcome)
      returns (r: Result<(nat, nat), string>)
      modifies this
      ensures items == [] ==> r == Ok((0, 0)) && file == old(file) && backups == old(backups)
      ensures items != [] ==> backups == BackedUp(old(file), old(backups), stamp, copyOk)
      ensures items != [] && BatchRun(Stored(old(file)), items, clock, |items|).Err? ==>
        r == Err(BatchRun(Stored(old(file)), items, clock, |items|).error) && file == old(file)
      ensures items != [] && BatchRun(Stored(old(file)), items, clock, |items|).Ok? ==>
        var result := BatchRun(Stored(old(file)), items, clock, |items|).value;
        && file == AfterWrite(old(file), result.entries, write)
        && r == if write.Completed? then Ok((result.success, |items| - result.success)) else Ok((0, |items|))
    {
      if items == [] {
        return Ok((0, 0));
      }
      var _ := CreateBackup(stamp, copyOk);
      var list := ReadMetadata();
      var run, failure := ApplyBatch(list, items, clock);
      if run.Err? {
        return Err(run.error);
      }
      var saved := SaveMetadata(run.value.entries, write);
      if saved {
        r := Ok((run.value.success, failure));
      } else {
        r := Ok((0, run.value.success + failure));
      }
    }
  }

  /** The filename of every entry, in order (`None` for an entry without one). */
  function Names(list: seq<Dict>): (names: seq<Value>)
    ensures |names| == |list|
    ensures forall j, name :: 0 <= j < |list| ==> (names[j] == name <==> IsFor(list[j], name))
  {
    seq(|list|, j requires 0 <= j < |list| => GetOr(list[j], "filename", Null))
  }

  /** How many of the first `n` items of a batch name one of `names`. */
  function Known(names: seq<Value>, updates: seq<Update>, n: nat): (count: nat)
    requires n <= |updates|
    ensures count <= n
  {
    if n == 0 then 0
    else Known(names, updates, n - 1) + if updates[n - 1].name in names then 1 else 0
  }

  /** A lookup finds an entry exactly when some entry carries the name. */
  lemma FirstForNames(list: seq<Dict>, name: Value)
    ensures FirstFor(list, name).Some? <==> name in Names(list)
  {
    if name in Names(list) {
      var j :| 0 <= j < |list| && Names(list)[j] == name;
      assert IsFor(list[j], name);
    }
  }

  /** Updating a name that has an entry rewrites that entry only: the payload's fields take the
      payload's values, every other field keeps its value, and 'last_updated' is refreshed. */
  lemma UpdateExisting(list: seq<Dict>, name: Value, payload: Dict, now: string, i: nat)
    requires DistinctKeys(payload)
    requires FirstFor(list, name) == Some(i)
    ensures |Upserted(list, name, payload, now)| == |list|
    ensures forall j :: 0 <= j < |list| && j != i ==> Upserted(list, name, payload, now)[j] == list[j]
    ensures forall k ::
      (Get(Upserted(list, name, payload, now)[i], k) ==
         if k == "last_updated" then Some(Str(now))
         else if HasKey(payload, k) then Get(payload, k)
         else Get(list[i], k))
  {
    forall k
      ensures Get(Upserted(list, name, payload, now)[i], k) ==
        (if k == "last_updated" then Some(Str(now))
         else if HasKey(payload, k) then Get(payload, k)
         else Get(list[i], k))
    {
      GetMerge(list[i], payload, k);
    }
  }

  /** Updating a name without an entry appends one entry: its first key is 'filename', it holds the
      payload's fields, and 'created' and 'last_updated' are both the update time. */
  lemma UpdateAbsent(list: seq<Dict>, name: Value, payload: Dict, now: string)
    requires DistinctKeys(payload)
    requires FirstFor(list, name).None?
    ensures Upserted(list, name, payload, now) == list + [Fresh(name, payload, now)]
    ensures var e := Fresh(name, payload, now);
      && DistinctKeys(e)
      && Keys(e)[0] == "filename"
      && Get(e, "created") == Get(e, "last_updated") == Some(Str(now))
      && forall k :: k != "created" && k != "last_updated" ==>
           Get(e, k) == if HasKey(payload, k) then Get(payload, k) else if k == "filename" then Some(name) else None
  {
    FreshKeys(name, payload, now);
    FreshStamps(name, payload, now);
    FreshFields(name, payload, now);
  }

  lemma FreshKeys(name: Value, payload: Dict, now: string)
    requires DistinctKeys(payload)
    ensures DistinctKeys(Fresh(name, payload, now)) && Keys(Fresh(name, payload, now))[0] == "filename"
  {
    var start := [Field("filename", name)];
    var merged := Merge(start, payload);
    var created := Set(merged, "created", Str(now));
    MergeKeepsDistinct(start, payload);
    KeysMerge(start, payload);
    assert Keys(merged)[0] == "filename";
    SetKeepsDistinct(merged, "created", Str(now));
    assert Keys(created)[0] == "filename";
    SetKeepsDistinct(created, "last_updated", Str(now));
  }

  lemma FreshStamps(name: Value, payload: Dict, now: string)
    ensures Get(Fresh(name, payload, now), "created") == Some(Str(now))
    ensures Get(Fresh(name, payload, now), "last_updated") == Some(Str(now))
  {
    var created := Set(Merge([Field("filename", name)], payload), "created", Str(now));
    assert Get(created, "created") == Some(Str(now));
  }

  lemma FreshFields(name: Value, payload: Dict, now: string)
    requires DistinctKeys(payload)
    ensures forall k :: k != "created" && k != "last_updated" ==>
      Get(Fresh(name, payload, now), k) == if HasKey(payload, k) then Get(payload, k) else if k == "filename" then Some(name) else None
  {
    forall k | k != "created" && k != "last_updated"
      ensures Get(Fresh(name, payload, now), k) ==
        if HasKey(payload, k) then Get(payload, k) else if k == "filename" then Some(name) else None
    {
      GetMerge([Field("filename", name)], payload, k);
    }
  }

  /** After an update that does not rename, a lookup of the name finds an entry holding the payload. */
  lemma UpdateThenLookup(list: seq<Dict>, name: Value, payload: Dict, now: string)
    requires DistinctKeys(payload) && !HasKey(payload, "filename")
    ensures var after := Upserted(list, name, payload, now);
      && FirstFor(after, name).Some?
      && forall k :: HasKey(payload, k) && k != "created" && k != "last_updated" ==>
           Get(after[FirstFor(after, name).value], k) == Get(payload, k)
  {
    match FirstFor(list, name)
    case Some(i) => LookupAfterTouch(list, name, payload, now, i);
    case None => LookupAfterAppend(list, name, payload, now);
  }

  /** The first-match characterisation pins `FirstFor` down. */
  lemma FirstForIs(list: seq<Dict>, name: Value, i: nat)
    requires i < |list| && IsFor(list[i], name)
    requires forall j :: 0 <= j < i ==> !IsFor(list[j], name)
    ensures FirstFor(list, name) == Some(i)
  {
    var r := FirstFor(list, name);
    assert r.Some? && !(r.value < i) && !(i < r.value);
  }

  lemma LookupAfterTouch(list: seq<Dict>, name: Value, payload: Dict, now: string, i: nat)
    requires DistinctKeys(payload) && !HasKey(payload, "filename")
    requires FirstFor(list, name) == Some(i)
    ensures FirstFor(Upserted(list, name, payload, now), name) == Some(i)
    ensures forall k :: HasKey(payload, k) && k != "last_updated" ==>
      Get(Upserted(list, name, payload, now)[i], k) == Get(payload, k)
  {
    UpdateExisting(list, name, payload, now, i);
    TouchedKeepsName(list[i], payload, now);
    var after := list[i := Touched(list[i], payload, now)];
    assert after == Upserted(list, name, payload, now);
    forall j | 0 <= j < i ensures !IsFor(after[j], name) {
      assert after[j] == list[j];
    }
    FirstForIs(after, name, i);
  }

  lemma LookupAfterAppend(list: seq<Dict>, name: Value, payload: Dict, now: string)
    requires DistinctKeys(payload) && !HasKey(payload, "filename")
    requires FirstFor(list, name).None?
    ensures FirstFor(Upserted(list, name, payload, now), name) == Some(|list|)
    ensures forall k :: HasKey(payload, k) && k != "created" && k != "last_updated" ==>
      Get(Upserted(list, name, payload, now)[|list|], k) == Get(payload, k)
  {
    UpdateAbsent(list, name, payload, now);
    var e := Fresh(name, payload, now);
    var after := list + [e];
    assert Get(e, "filename") == Some(name);
    assert IsFor(after[|list|], name);
    forall j | 0 <= j < |list| ensures !IsFor(after[j], name) {
      assert after[j] == list[j];
    }
    FirstForIs(after, name, |list|);
  }

  /** A missing or unparsable file reads as the empty list, so an update writes the new entry alone. */
  lemma UpdateOnEmptyStore(file: Option<Content>, name: Value, payload: Dict, now: string)
    requires file.None? || file.value.Unparsable?
    ensures Upserted(Stored(file), name, payload, now) == [Fresh(name, payload, now)]
  {
  }

  /** A merge whose payload has no 'filename' keeps the entry's filename. */
  lemma TouchedKeepsName(entry: Dict, payload: Dict, now: string)
    requires DistinctKeys(payload) && !HasKey(payload, "filename")
    ensures GetOr(Touched(entry, payload, now), "filename", Null) == GetOr(entry, "filename", Null)
  {
    GetMerge(entry, payload, "filename");
  }

  /** One item whose payload does not rename keeps every filename, and counts exactly when its
      name is among them. */
  lemma AdvanceKeepsNames(p: Progress, u: Update, now: string)
    ensures |Advance(p, u, now).entries| == |p.entries|
    ensures KeepsName(u) ==> Names(Advance(p, u, now).entries) == Names(p.entries)
    ensures KeepsName(u) ==> Advance(p, u, now).success == p.success + if u.name in Names(p.entries) then 1 else 0
  {
    FirstForNames(p.entries, u.name);
    match FirstFor(p.entries, u.name)
    case Some(i) =>
      if KeepsName(u) {
        TouchedKeepsName(p.entries[i], u.payload, now);
        var l' := p.entries[i := Touched(p.entries[i], u.payload, now)];
        assert Names(l') == Names(p.entries);
      }
    case None =>
  }
}
