/**
 * The durable question table: one SQLite row per question filename, holding
 * the denormalised `created`, `last_updated`, `review_completed` and
 * `review_completed_at` columns next to the JSON text of the whole metadata.
 *
 * The table is a map from the `filename` column (UNIQUE) to the rest of the
 * row; the row `id` is left out. Whether the connection opens is a parameter,
 * and so is the time `datetime.now()` would give. JSON text is the value it
 * encodes (`Json.Dumps`/`Json.Loads`).
 */
module Database {
  import opened Wrappers
  import opened Json
  import opened Text

  /** A row of `questions`, without its `id` and its `filename` key. */
  datatype Row = Row(
    created: string,
    lastUpdated: string,
    reviewCompleted: int,
    reviewCompletedAt: Option<string>,
    metadataJson: Blob)

  /** What a Python value becomes once bound as a parameter and stored in a TEXT column.
      `CannotBind` is the `sqlite3.Error` that an unsupported type raises; `TooWide` is the
      `OverflowError` that an integer outside SQLite's 64 bits raises, which is no `sqlite3.Error`. */
  datatype Bound = CannotBind | TooWide | BoundNull | BoundText(text: string)

  /** The range of SQLite's INTEGER. */
  const MinInteger: int := -0x8000_0000_0000_0000
  const MaxInteger: int := 0x7fff_ffff_ffff_ffff

  /** The message of the `OverflowError` that binding a too wide integer raises. */
  const TooLarge := "Python int too large to convert to SQLite INTEGER"

  /** SQLite's binding of a JSON value: `None` is NULL, booleans are the integers 1 and 0, integers
      of 64 bits and strings become text under the column's TEXT affinity, wider integers overflow;
      lists and dicts cannot be bound. */
  function Bind(v: Value): (b: Bound)
    ensures v.Str? ==> b == BoundText(v.s)
    ensures b.BoundNull? <==> v.Null?
    ensures b.TooWide? <==> v.Int? && (v.i < MinInteger || MaxInteger < v.i)
  {
    match v
    case Null => BoundNull
    case Bool(x) => BoundText(if x then "1" else "0")
    case Int(i) => if MinInteger <= i <= MaxInteger then BoundText(Decimal(i)) else TooWide
    case Str(s) => BoundText(s)
    case _ => CannotBind
  }

  /** Binding the value raises. */
  predicate Faulty(b: Bound) {
    b.CannotBind? || b.TooWide?
  }

  /** The content of a nullable column. */
  function Nullable(b: Bound): Option<string>
    requires !Faulty(b)
  {
    if b.BoundText? then Some(b.text) else None
  }

  /** The key a save stores its row under: the bound `metadata['filename']`, when it is text. */
  function Key(metadata: Dict): Option<string> {
    var b := Bind(GetOr(metadata, "filename", Null));
    if b.BoundText? then Some(b.text) else None
  }

  /** `1 if metadata.get('review_completed', False) else 0`. */
  function ReviewFlag(metadata: Dict): int {
    if Truthy(GetOr(metadata, "review_completed", Bool(false))) then 1 else 0
  }

  /** The `created` value of a save: the metadata's own, or the current time. */
  function CreatedOf(metadata: Dict, now: string): Value {
    GetOr(metadata, "created", Str(now))
  }

  /** The `last_updated` value of a save: the metadata's own, or the `created` value. */
  function LastUpdatedOf(metadata: Dict, now: string): Value {
    GetOr(metadata, "last_updated", CreatedOf(metadata, now))
  }

  /** The `review_completed_at` value of a save: the metadata's own when the review is completed
      (None when it has none), and None otherwise. */
  function CompletedAtOf(metadata: Dict): Value {
    if ReviewFlag(metadata) == 1 then GetOr(metadata, "review_completed_at", Null) else Null
  }

  /** The row that the UPDATE (given the stored row) or the INSERT (given none) leaves under the
      key, or `None` when SQLite refuses the statement: a list or dict among its parameters, or
      NULL in one of the NOT NULL columns it writes. */
  function Written(metadata: Dict, now: string, stored: Option<Row>): (r: Option<Row>)
    ensures r.Some? ==> r.value.reviewCompleted == ReviewFlag(metadata) && r.value.metadataJson == Dumps(Obj(metadata))
    ensures r.Some? && stored.Some? ==> r.value.created == stored.value.created
    ensures r.Some? && stored.None? ==> Bind(CreatedOf(metadata, now)) == BoundText(r.value.created)
    ensures r.Some? ==> Bind(LastUpdatedOf(metadata, now)) == BoundText(r.value.lastUpdated)
    ensures r.Some? ==> !Faulty(Bind(CompletedAtOf(metadata)))
    ensures r.Some? ==> r.value.reviewCompletedAt == Nullable(Bind(CompletedAtOf(metadata)))
    ensures r.None? <==>
      !Bind(LastUpdatedOf(metadata, now)).BoundText? || Faulty(Bind(CompletedAtOf(metadata)))
      || (stored.None? && !Bind(CreatedOf(metadata, now)).BoundText?)
  {
    var stamp := Bind(LastUpdatedOf(metadata, now));
    var at := Bind(CompletedAtOf(metadata));
    var created := Bind(CreatedOf(metadata, now));
    if !stamp.BoundText? || Faulty(at) then None
    else if stored.Some? then
      Some(Row(stored.value.created, stamp.text, ReviewFlag(metadata), Nullable(at), Dumps(Obj(metadata))))
    else if !created.BoundText? then None
    else Some(Row(created.text, stamp.text, ReviewFlag(metadata), Nullable(at), Dumps(Obj(metadata))))
  }

  /** `save_question` on a table that accepts the connection: the new table, or `None` when the
      save returns False and the table keeps its rows. */
  function Saved(rows: map<string, Row>, metadata: Dict, now: string): (r: Option<map<string, Row>>)
    ensures metadata == [] || !HasKey(metadata, "filename") ==> r.None?
    ensures r.Some? ==> Key(metadata).Some?
    ensures r.Some? ==> r.value.Keys == rows.Keys + {Key(metadata).value}
    ensures r.Some? ==> forall n :: n in rows && n != Key(metadata).value ==> r.value[n] == rows[n]
  {
    if metadata == [] || !HasKey(metadata, "filename") then None
    else
      match Key(metadata)
      case None => None
      case Some(key) =>
        match Written(metadata, now, if key in rows then Some(rows[key]) else None)
        case None => None
        case Some(row) => Some(rows[key := row])
  }

  /** The parameters of the UPDATE (given that a row is stored) or the INSERT that can fail to
      bind, in binding order: `created` (INSERT only), `last_updated`, `review_completed_at`. The
      other parameters are a filename already bound by the SELECT, an integer flag and JSON text. */
  function StatementParams(metadata: Dict, now: string, update: bool): seq<Bound> {
    var tail := [Bind(LastUpdatedOf(metadata, now)), Bind(CompletedAtOf(metadata))];
    if update then tail else [Bind(CreatedOf(metadata, now))] + tail
  }

  /** The first parameter that fails to bind overflows. */
  predicate OverflowsFirst(params: seq<Bound>) {
    params != [] && (params[0].TooWide? || (!params[0].CannotBind? && OverflowsFirst(params[1..])))
  }

  /** `save_question` raises `OverflowError` on a connected table: the SELECT cannot bind the
      filename, or the UPDATE or INSERT meets a too wide integer before any other faulty parameter. */
  predicate SaveRaises(rows: map<string, Row>, metadata: Dict, now: string) {
    metadata != [] && HasKey(metadata, "filename") &&
    var key := Bind(GetOr(metadata, "filename", Null));
    key.TooWide? ||
    (!key.CannotBind? && OverflowsFirst(StatementParams(metadata, now, key.BoundText? && key.text in rows)))
  }

  /** The rows that belong to a listing: all of them, or those whose `review_completed` column
      equals the flag. */
  function Matching(rows: map<string, Row>, flag: Option<bool>): set<string> {
    set n | n in rows && (flag.None? || rows[n].reviewCompleted == if flag.value then 1 else 0)
  }

  /** `a` sorts strictly before `b` under SQLite's BINARY collation (code point by code point, a
      proper prefix first). */
  predicate Earlier(a: string, b: string) {
    b != [] && (a == [] || a[0] < b[0] || (a[0] == b[0] && Earlier(a[1..], b[1..])))
  }

  /** No row of the listing has a later `last_updated` than a row before it. */
  ghost predicate Descending(rows: map<string, Row>, names: seq<string>)
    requires forall i :: 0 <= i < |names| ==> names[i] in rows
  {
    forall i, j :: 0 <= i < j < |names| ==> !Earlier(rows[names[i]].lastUpdated, rows[names[j]].lastUpdated)
  }

  /** What every save leaves in a row: the flag column is 0 or 1, and a row whose review is not
      completed has no completion time. */
  ghost predicate Valid(rows: map<string, Row>) {
    forall n :: n in rows ==>
      (rows[n].reviewCompleted == 0 || rows[n].reviewCompleted == 1)
      && (rows[n].reviewCompleted == 0 ==> rows[n].reviewCompletedAt.None?)
  }

  class QuestionDatabase {
    /** The `questions` table, keyed by its `filename` column. */
    var rows: map<string, Row>

    constructor (rows: map<string, Row>)
      ensures this.rows == rows
    {
      this.rows := rows;
    }

    /** `save_question`: refuses metadata without a filename, then updates the row stored under
        the filename (keeping its `created`) or inserts one; any refusal by SQLite rolls back. */
    method SaveQuestion(metadata: Dict, now: string, connected: bool) returns (r: Result<bool, string>)
      modifies this
      ensures r.Err? <==> connected && SaveRaises(old(rows), metadata, now)
      ensures r.Err? ==> r.error == TooLarge
      ensures r.Ok? ==> r.value == (connected && Saved(old(rows), metadata, now).Some?)
      ensures rows == if r == Ok(true) then Saved(old(rows), metadata, now).value else old(rows)
    {
      if metadata == [] || !HasKey(metadata, "filename") {
        return Ok(false);
      }
      if !connected {
        return Ok(false);
      }
      var key := Bind(GetOr(metadata, "filename", Null));
      if key.TooWide? {
        return Err(TooLarge);
      }
      if key.CannotBind? {
        return Ok(false);
      }
      var update := key.BoundText? && key.text in rows;
      if OverflowsFirst(StatementParams(metadata, now, update)) {
        RaisingSaveRefused(rows, metadata, now);
        return Err(TooLarge);
      }
      if !key.BoundText? {
        return Ok(false);
      }
      var existing := if update then Some(rows[key.text]) else None;
      var row := Written(metadata, now, existing);
      if row.None? {
        return Ok(false);
      }
      rows := rows[key.text := row.value];
      r := Ok(true);
    }

    /** `get_question`: the decoded metadata stored under the filename, if any. */
    method GetQuestion(filename: string, connected: bool) returns (r: Option<Value>)
      ensures !connected || filename !in rows ==> r.None?
      ensures connected && filename in rows ==> r == Some(Loads(rows[filename].metadataJson))
    {
      if !connected || filename !in rows {
        return None;
      }
      r := Some(Loads(rows[filename].metadataJson));
    }

    /** `get_all_questions`: the decoded metadata of every matching row, newest `last_updated`
        first; rows with equal time stamps come in no particular order. `names` is the filename
        of each row listed. */
    method GetAllQuestions(flag: Option<bool>, connected: bool) returns (docs: seq<Value>, ghost names: seq<string>)
      ensures !connected ==> docs == []
      ensures connected ==> |docs| == |names| && (forall i :: 0 <= i < |names| ==> names[i] in rows)
      ensures connected ==> forall n :: n in names <==> n in Matching(rows, flag)
      ensures connected ==> forall i, j :: 0 <= i < j < |names| ==> names[i] != names[j]
      ensures connected ==> forall i :: 0 <= i < |names| ==> docs[i] == Loads(rows[names[i]].metadataJson)
      ensures connected ==> Descending(rows, names)
    {
      docs, names := [], [];
      if !connected {
        return;
      }
      var pool := Matching(rows, flag);
      var rest := pool;
      while rest != {}
        invariant rest <= pool && pool == Matching(rows, flag)
        invariant forall n :: n in names <==> n in pool && n !in rest
        invariant forall i :: 0 <= i < |names| ==> names[i] in rows
        invariant forall i, j :: 0 <= i < j < |names| ==> names[i] != names[j]
        invariant |docs| == |names|
        invariant forall i :: 0 <= i < |names| ==> docs[i] == Loads(rows[names[i]].metadataJson)
        invariant Descending(rows, names)
        invariant forall i, n :: 0 <= i < |names| && n in rest ==> !Earlier(rows[names[i]].lastUpdated, rows[n].lastUpdated)
        decreases |rest|
      {
        var top := Latest(rest);
        names := names + [top];
        docs := docs + [Loads(rows[top].metadataJson)];
        rest := rest - {top};
      }
    }

    /** A row of `pool` with the latest `last_updated`. */
    method Latest(pool: set<string>) returns (top: string)
      requires pool != {} && forall n :: n in pool ==> n in rows
      ensures top in pool
      ensures forall n :: n in pool ==> !Earlier(rows[top].lastUpdated, rows[n].lastUpdated)
    {
      top :| top in pool;
      NotEarlierThanItself(rows[top].lastUpdated);
      var rest := pool - {top};
      while rest != {}
        invariant top in pool && rest <= pool
        invariant forall n :: n in pool && n !in rest ==> !Earlier(rows[top].lastUpdated, rows[n].lastUpdated)
        decreases |rest|
      {
        var n :| n in rest;
        if Earlier(rows[top].lastUpdated, rows[n].lastUpdated) {
          var seen := set m | m in pool && m !in rest;
          forall m | m in seen
            ensures !Earlier(rows[n].lastUpdated, rows[m].lastUpdated)
          {
            if Earlier(rows[n].lastUpdated, rows[m].lastUpdated) {
              EarlierTransitive(rows[top].lastUpdated, rows[n].lastUpdated, rows[m].lastUpdated);
            }
          }
          NotEarlierThanItself(rows[n].lastUpdated);
          top := n;
        }
        rest := rest - {n};
      }
    }

    /** `delete_question`: True exactly when a row was stored under the filename; afterwards none is. */
    method DeleteQuestion(filename: string, connected: bool) returns (ok: bool)
      modifies this
      ensures ok == (connected && filename in old(rows))
      ensures rows == if connected then old(rows) - {filename} else old(rows)
    {
      if !connected {
        return false;
      }
      ok := filename in rows;
      rows := rows - {filename};
    }
  }

  /** BINARY collation is a strict order: nothing sorts before itself ... */
  lemma {:induction false} NotEarlierThanItself(a: string)
    ensures !Earlier(a, a)
    decreases |a|
  {
    if a != [] {
      NotEarlierThanItself(a[1..]);
    }
  }

  /** ... and sorting before is transitive. */
  lemma {:induction false} EarlierTransitive(a: string, b: string, c: string)
    requires Earlier(a, b) && Earlier(b, c)
    ensures Earlier(a, c)
    decreases |a|
  {
    if a != [] && a[0] == b[0] && b[0] == c[0] {
      EarlierTransitive(a[1..], b[1..], c[1..]);
    }
  }

  /** A save that raises stores nothing: the statement it raises in never runs. */
  lemma RaisingSaveRefused(rows: map<string, Row>, metadata: Dict, now: string)
    requires SaveRaises(rows, metadata, now)
    ensures Saved(rows, metadata, now).None?
  {
    var key := Bind(GetOr(metadata, "filename", Null));
    if key.BoundText? {
      OverflowHasWide(metadata, now, key.text in rows);
    }
  }

  /** When the statement's parameters overflow, one of the time stamps is a too wide integer. */
  lemma OverflowHasWide(metadata: Dict, now: string, update: bool)
    requires OverflowsFirst(StatementParams(metadata, now, update))
    ensures Bind(LastUpdatedOf(metadata, now)).TooWide? || Bind(CompletedAtOf(metadata)).TooWide?
         || (!update && Bind(CreatedOf(metadata, now)).TooWide?)
  {
    var params := StatementParams(metadata, now, update);
    var k := WideParam(params);
    assert params[k] in params;
  }

  /** A parameter list whose first fault is an overflow holds a too wide integer. */
  lemma {:induction false} WideParam(params: seq<Bound>) returns (k: nat)
    requires OverflowsFirst(params)
    ensures k < |params| && params[k].TooWide?
    decreases |params|
  {
    if params[0].TooWide? {
      k := 0;
    } else {
      var j := WideParam(params[1..]);
      k := j + 1;
    }
  }

  /** A filename wider than 64 bits makes `save_question` raise. */
  lemma WideFilenameRaises(rows: map<string, Row>, now: string)
    ensures SaveRaises(rows, [Field("filename", Int(MaxInteger + 1))], now)
  {
    assert Get([Field("filename", Int(MaxInteger + 1))], "filename") == Some(Int(MaxInteger + 1));
  }

  /** A save keeps the `created` column of the row it updates. */
  lemma SaveKeepsCreated(rows: map<string, Row>, metadata: Dict, now: string)
    requires Saved(rows, metadata, now).Some? && Key(metadata).value in rows
    ensures var key := Key(metadata).value;
      Saved(rows, metadata, now).value[key].created == rows[key].created
  {
  }

  /** A save that inserts takes `created` from the metadata or the clock, and `last_updated` from
      the metadata or from `created`. */
  lemma SaveInsertDefaults(rows: map<string, Row>, metadata: Dict, now: string)
    requires Saved(rows, metadata, now).Some? && Key(metadata).value !in rows
    ensures var row := Saved(rows, metadata, now).value[Key(metadata).value];
      && (!HasKey(metadata, "created") ==> row.created == now)
      && (!HasKey(metadata, "created") && !HasKey(metadata, "last_updated") ==> row.lastUpdated == now)
      && (!HasKey(metadata, "last_updated") ==> row.lastUpdated == row.created)
      && BoundText(row.created) == Bind(CreatedOf(metadata, now))
  {
  }

  /** The review columns of a saved row: the flag is 1 exactly when the metadata's
      `review_completed` is truthy, and there is a completion time only for a completed review. */
  lemma SaveReviewColumns(rows: map<string, Row>, metadata: Dict, now: string)
    requires Saved(rows, metadata, now).Some?
    ensures var row := Saved(rows, metadata, now).value[Key(metadata).value];
      && (row.reviewCompleted == 1 <==> Truthy(GetOr(metadata, "review_completed", Bool(false))))
      && (row.reviewCompleted == 0 <==> !Truthy(GetOr(metadata, "review_completed", Bool(false))))
      && (row.reviewCompleted == 0 ==> row.reviewCompletedAt.None?)
      && (row.reviewCompleted == 1 ==> row.reviewCompletedAt == Nullable(Bind(GetOr(metadata, "review_completed_at", Null))))
  {
  }

  /** Every save keeps the table valid. */
  lemma SaveKeepsValid(rows: map<string, Row>, metadata: Dict, now: string)
    requires Valid(rows) && Saved(rows, metadata, now).Some?
    ensures Valid(Saved(rows, metadata, now).value)
  {
    SaveReviewColumns(rows, metadata, now);
  }

  /** Metadata as the metadata store keeps it (text filename and time stamps, a text or missing
      completion time) is always saved, under its filename. */
  lemma SaveAccepts(rows: map<string, Row>, metadata: Dict, now: string, name: string)
    requires Get(metadata, "filename") == Some(Str(name))
    requires Get(metadata, "created").None? || Get(metadata, "created").value.Str?
    requires Get(metadata, "last_updated").None? || Get(metadata, "last_updated").value.Str?
    requires Get(metadata, "review_completed_at").None? || Get(metadata, "review_completed_at").value.Str?
    ensures Key(metadata) == Some(name) && Saved(rows, metadata, now).Some?
    ensures !SaveRaises(rows, metadata, now)
  {
    assert HasKey(metadata, "filename");
    TextStampsBind(metadata, now);
    TextStampsNeverRaise(rows, metadata, now, name);
  }

  lemma TextStampsNeverRaise(rows: map<string, Row>, metadata: Dict, now: string, name: string)
    requires Get(metadata, "filename") == Some(Str(name))
    requires Bind(CreatedOf(metadata, now)).BoundText? && Bind(LastUpdatedOf(metadata, now)).BoundText?
    requires Bind(CompletedAtOf(metadata)).BoundText? || Bind(CompletedAtOf(metadata)).BoundNull?
    ensures !SaveRaises(rows, metadata, now)
  {
    assert GetOr(metadata, "filename", Null) == Str(name);
    ParamsBind(metadata, now, name in rows);
  }

  lemma ParamsBind(metadata: Dict, now: string, update: bool)
    requires Bind(CreatedOf(metadata, now)).BoundText? && Bind(LastUpdatedOf(metadata, now)).BoundText?
    requires Bind(CompletedAtOf(metadata)).BoundText? || Bind(CompletedAtOf(metadata)).BoundNull?
    ensures !OverflowsFirst(StatementParams(metadata, now, update))
  {
    NoOverflowFirst(StatementParams(metadata, now, update));
  }

  /** Text or missing time stamps bind as text, and a text or missing completion time as text or NULL. */
  lemma TextStampsBind(metadata: Dict, now: string)
    requires Get(metadata, "created").None? || Get(metadata, "created").value.Str?
    requires Get(metadata, "last_updated").None? || Get(metadata, "last_updated").value.Str?
    requires Get(metadata, "review_completed_at").None? || Get(metadata, "review_completed_at").value.Str?
    ensures Bind(CreatedOf(metadata, now)).BoundText? && Bind(LastUpdatedOf(metadata, now)).BoundText?
    ensures Bind(CompletedAtOf(metadata)).BoundText? || Bind(CompletedAtOf(metadata)).BoundNull?
  {
  }

  /** A parameter list without a too wide integer does not overflow. */
  lemma {:induction false} NoOverflowFirst(params: seq<Bound>)
    requires forall k :: 0 <= k < |params| ==> !params[k].TooWide?
    ensures !OverflowsFirst(params)
    decreases |params|
  {
    if params != [] {
      NoOverflowFirst(params[1..]);
    }
  }

  /** Reading back a saved question gives the metadata that was saved; other questions read as before. */
  lemma SaveThenGet(rows: map<string, Row>, metadata: Dict, now: string, other: string)
    requires Saved(rows, metadata, now).Some?
    ensures var after := Saved(rows, metadata, now).value;
      && Loads(after[Key(metadata).value].metadataJson) == Obj(metadata)
      && (other != Key(metadata).value && other in rows ==> after[other] == rows[other])
  {
  }

  /** Saving the same metadata again changes nothing when the metadata carries its own
      `created` or `last_updated`, or the clock has not moved ... */
  lemma SaveAgainUnchanged(rows: map<string, Row>, metadata: Dict, now: string, later: string)
    requires Saved(rows, metadata, now).Some?
    requires HasKey(metadata, "created") || HasKey(metadata, "last_updated") || later == now
    ensures Saved(Saved(rows, metadata, now).value, metadata, later) == Saved(rows, metadata, now)
  {
    var key := Key(metadata).value;
    var after := Saved(rows, metadata, now).value;
    assert LastUpdatedOf(metadata, later) == LastUpdatedOf(metadata, now);
    assert after[key := after[key]] == after;
  }

  /** ... and otherwise the second save moves `last_updated` to the later time. */
  lemma SaveAgainRestamps(rows: map<string, Row>, metadata: Dict, now: string, later: string)
    requires Saved(rows, metadata, now).Some?
    requires !HasKey(metadata, "created") && !HasKey(metadata, "last_updated") && later != now
    ensures var again := Saved(Saved(rows, metadata, now).value, metadata, later);
      again.Some? && again.value[Key(metadata).value].lastUpdated == later
  {
  }

  /** The listing without a flag is the completed listing and the pending listing together, and
      no row is in both. */
  lemma MatchingSplits(rows: map<string, Row>)
    requires Valid(rows)
    ensures Matching(rows, None) == Matching(rows, Some(true)) + Matching(rows, Some(false))
    ensures Matching(rows, Some(true)) !! Matching(rows, Some(false))
  {
  }

  /** Deleting a question that a save has just inserted gives back the table as it was. */
  lemma DeleteUndoesInsert(rows: map<string, Row>, metadata: Dict, now: string)
    requires Saved(rows, metadata, now).Some? && Key(metadata).value !in rows
    ensures Saved(rows, metadata, now).value - {Key(metadata).value} == rows
  {
  }
}
