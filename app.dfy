/**
 * The decision rules of the web application's routes: the dashboard's split
 * of the question images into pending and completed, the path guard of the
 * image route, and the request checks that decide whether a route calls the
 * component behind it. The components are parameters: what the metadata
 * store, the database and the LLM processor return is passed in as a
 * function, so that a route that refuses a request visibly does not depend
 * on it. Request bodies are JSON objects.
 */
module App {
  import opened Wrappers
  import opened Json
  import opened Text
  import Ocr
  import Llm
  import MetadataStore

  // ---------------------------------------------------------------- the dashboard

  /** `[x for x in xs if keep(x)]`. */
  function Keep(xs: seq<string>, keep: string -> bool): (r: seq<string>)
    ensures |r| <= |xs|
    ensures forall x :: x in r <==> x in xs && keep(x)
  {
    if xs == [] then []
    else (if keep(xs[0]) then [xs[0]] else []) + Keep(xs[1..], keep)
  }

  /** A comprehension keeps the order of its list: filtering two lists laid end to end lays
      their filtered parts end to end. */
  lemma {:induction false} KeepAppend(a: seq<string>, b: seq<string>, keep: string -> bool)
    ensures Keep(a + b, keep) == Keep(a, keep) + Keep(b, keep)
    decreases |a|
  {
    if a == [] {
      assert a + b == b;
    } else {
      assert (a + b)[0] == a[0];
      assert (a + b)[1..] == a[1..] + b;
      KeepAppend(a[1..], b, keep);
    }
  }

  /** The completed images of the dashboard: the names on the completed-review list that are
      also among the images, in the order of that list. */
  function CompletedImages(reviewList: seq<string>, allImages: seq<string>): seq<string> {
    Keep(reviewList, name => name in allImages)
  }

  /** The pending images: the images that are not completed, in image-list order. */
  function PendingImages(allImages: seq<string>, completed: seq<string>): seq<string> {
    Keep(allImages, name => name !in completed)
  }

  /** Every completed image is an image on the review list, every pending one an image off it;
      each image is exactly one of the two. */
  lemma DashboardPartition(reviewList: seq<string>, allImages: seq<string>)
    ensures var completed := CompletedImages(reviewList, allImages);
      var pending := PendingImages(allImages, completed);
      && (forall n :: n in completed <==> n in reviewList && n in allImages)
      && (forall n :: n in pending <==> n in allImages && n !in reviewList)
      && (forall n :: n in allImages ==> (n in completed <==> n !in pending))
      && (forall n :: n in completed || n in pending ==> n in allImages)
  {
    var completed := CompletedImages(reviewList, allImages);
    assert forall n :: n in completed <==> n in reviewList && n in allImages;
  }

  // ---------------------------------------------------------------- serving an image

  /** What the image route answers: a refusal with its status, or the file at a path. */
  datatype ImageReply = Refused(status: int, message: string) | Sent(path: string)

  /** A name the route refuses before it looks at the file system. */
  predicate Unsafe(filename: string) {
    Contains(filename, "..") || StartsWith(filename, "/")
  }

  /** `serve_image`, given whether a path exists. */
  function ServeImage(folder: string, filename: string, present: string -> bool): ImageReply {
    if Unsafe(filename) then Refused(400, "Invalid filename")
    else
      var path := Ocr.JoinPath(folder, filename);
      if !present(path) then Refused(404, "Image not found") else Sent(path)
  }

  /** A name is refused with 400 exactly when it is unsafe, and then whatever the file system
      holds; a file is sent only from a safe name that exists, at its path in the folder. */
  lemma ServeImageGuard(folder: string, filename: string, present: string -> bool, other: string -> bool)
    ensures ServeImage(folder, filename, present) == Refused(400, "Invalid filename") <==> Unsafe(filename)
    ensures Unsafe(filename) ==> ServeImage(folder, filename, present) == ServeImage(folder, filename, other)
    ensures ServeImage(folder, filename, present).Sent? ==>
      && !Unsafe(filename)
      && ServeImage(folder, filename, present).path == Ocr.JoinPath(folder, filename)
      && present(Ocr.JoinPath(folder, filename))
  {
  }

  /** The path of a sent file is the folder followed by a part without "..". */
  lemma ServedInsideFolder(folder: string, filename: string, present: string -> bool)
    requires ServeImage(folder, filename, present).Sent?
    ensures var path := ServeImage(folder, filename, present).path;
      StartsWith(path, folder) && !Contains(path[|folder|..], "..")
  {
    var path := Ocr.JoinPath(folder, filename);
    if folder == [] || EndsWith(folder, "/") {
      assert path[|folder|..] == filename;
    } else {
      assert path[|folder|..] == "/" + filename;
      SlashKeepsNoDots(filename);
    }
  }

  lemma SlashKeepsNoDots(s: string)
    requires !Contains(s, "..")
    ensures !Contains("/" + s, "..")
  {
    var t := "/" + s;
    ShiftOccurrence(t, "..");
    assert t[1..] == s;
    assert !OccursAt(t, "..", 0) by {
      assert |t| >= 2 ==> t[0..2][0] == '/';
    }
    forall j ensures !OccursAt(t, "..", j) {
      if j >= 1 {
        assert !OccursAt(s, "..", j - 1);
      }
    }
  }

  // ---------------------------------------------------------------- JSON routes

  /** A route's answer: a JSON object with its HTTP status, or the exception that escaped the
      handler (which the framework turns into a 500 page). */
  datatype Reply = Reply(status: int, body: Dict) | Crashed(message: string)

  /** `jsonify({'success': False, 'error': message}), status`. */
  function Refusal(status: int, message: string): Reply {
    Reply(status, [Field("success", Bool(false)), Field("error", Str(message))])
  }

  /** The `success` field of a JSON answer. */
  function SuccessOf(r: Reply): Option<Value> {
    if r.Reply? then Get(r.body, "success") else None
  }

  /** `/metadata/update`: refuses a falsy filename or falsy metadata with 400; otherwise reports
      what `update_metadata` returns (`Err` is an exception it raises, which the route does not
      catch). */
  function UpdateRoute(data: Dict, update: (Value, Value) -> Result<bool, string>): Reply {
    var filename := GetOr(data, "filename", Null);
    var metadata := GetOr(data, "metadata", Obj([]));
    if !Truthy(filename) || !Truthy(metadata) then Refusal(400, "Filename and metadata required")
    else
      match update(filename, metadata)
      case Ok(ok) => Reply(200, [Field("success", Bool(ok)), Field("filename", filename)])
      case Err(e) => Crashed(e)
  }

  /** The update route refuses exactly the requests without a filename or metadata, and then
      without calling the store; otherwise it answers 200 with the store's result, or passes on
      what the store raised. */
  lemma UpdateRouteGuard(data: Dict, update: (Value, Value) -> Result<bool, string>, other: (Value, Value) -> Result<bool, string>)
    ensures var filename := GetOr(data, "filename", Null);
      var metadata := GetOr(data, "metadata", Obj([]));
      var r := UpdateRoute(data, update);
      && (r == Refusal(400, "Filename and metadata required") <==> !Truthy(filename) || !Truthy(metadata))
      && (!Truthy(filename) || !Truthy(metadata) ==> r == UpdateRoute(data, other))
      && (Truthy(filename) && Truthy(metadata) && update(filename, metadata).Ok? ==>
            r.Reply? && r.status == 200 && SuccessOf(r) == Some(Bool(update(filename, metadata).value)))
      && (Truthy(filename) && Truthy(metadata) && update(filename, metadata).Err? ==>
            r == Crashed(update(filename, metadata).error))
  {
    var r := UpdateRoute(data, update);
    if r.Reply? && r.status == 200 {
      GetCons(r.body[0], r.body[1..], "success");
      assert r.body == [r.body[0]] + r.body[1..];
    }
  }

  /** With the store's `update_metadata`, which raises `NoItems` for metadata that is not a dict, a
      request whose metadata is a non-empty list, a non-empty string, a non-zero number or `true`
      gets no JSON answer: the exception escapes the route. */
  lemma UpdateRouteNonDict(data: Dict, update: (Value, Value) -> Result<bool, string>)
    requires forall name: Value, metadata: Value :: !metadata.Obj? ==> update(name, metadata) == Err(MetadataStore.NoItems)
    requires Truthy(GetOr(data, "filename", Null))
    requires Truthy(GetOr(data, "metadata", Obj([]))) && !GetOr(data, "metadata", Obj([])).Obj?
    ensures UpdateRoute(data, update) == Crashed(MetadataStore.NoItems)
  {
  }

  /** Python's `key in container` for a string key: a dict's keys, a list's members, a string's
      substrings; any other container raises TypeError. */
  function PyIn(key: string, container: Value): Result<bool, string> {
    match container
    case Obj(fields) => Ok(HasKey(fields, key))
    case Arr(items) => Ok(Str(key) in items)
    case Str(s) => Ok(Contains(s, key))
    case _ => Err("TypeError: argument is not iterable")
  }

  /** `all('filename' in item and 'metadata' in item for item in updates)`, stopping at the first
      item that fails or raises. */
  function AllWellFormed(updates: seq<Value>): Result<bool, string> {
    if updates == [] then Ok(true)
    else
      match PyIn("filename", updates[0])
      case Err(e) => Err(e)
      case Ok(false) => Ok(false)
      case Ok(true) =>
        match PyIn("metadata", updates[0])
        case Err(e) => Err(e)
        case Ok(false) => Ok(false)
        case Ok(true) => AllWellFormed(updates[1..])
  }

  /** `[(item['filename'], item['metadata']) for item in updates]`; indexing anything but a dict
      by a string raises TypeError. */
  function Pairs(updates: seq<Value>): (r: Result<seq<(Value, Value)>, string>)
    ensures r.Ok? ==> |r.value| == |updates|
  {
    if updates == [] then Ok([])
    else if !updates[0].Obj? then Err("TypeError: indices must be integers")
    else
      var fields := updates[0].fields;
      match Pairs(updates[1..])
      case Err(e) => Err(e)
      case Ok(rest) => Ok([(GetOr(fields, "filename", Null), GetOr(fields, "metadata", Null))] + rest)
  }

  /** `/metadata/batch-update`, given the list under 'updates' and what `update_batch_metadata`
      returns (success and failure counts) for the formatted pairs, or the exception it raises. */
  function BatchRoute(updates: seq<Value>, batch: seq<(Value, Value)> -> Result<(nat, nat), string>): Reply {
    if updates == [] then Refusal(400, "No updates provided")
    else
      match AllWellFormed(updates)
      case Err(e) => Crashed(e)
      case Ok(false) => Refusal(400, "Invalid update format")
      case Ok(true) =>
        match Pairs(updates)
        case Err(e) => Crashed(e)
        case Ok(pairs) =>
          match batch(pairs)
          case Err(e) => Crashed(e)
          case Ok(counts) =>
            Reply(200, [
              Field("success", Bool(counts.1 == 0)),
              Field("success_count", Int(counts.0)),
              Field("failure_count", Int(counts.1))])
  }

  /** Every item is a dict with both keys. */
  predicate WellFormed(updates: seq<Value>) {
    forall i :: 0 <= i < |updates| ==>
      updates[i].Obj? && HasKey(updates[i].fields, "filename") && HasKey(updates[i].fields, "metadata")
  }

  /** For a list of dicts, the check accepts exactly the lists whose every dict has both keys ... */
  lemma {:induction false} AllWellFormedDicts(updates: seq<Value>)
    requires forall i :: 0 <= i < |updates| ==> updates[i].Obj?
    ensures AllWellFormed(updates) == Ok(WellFormed(updates))
    decreases |updates|
  {
    if updates != [] {
      AllWellFormedDicts(updates[1..]);
      assert WellFormed(updates) <==>
        HasKey(updates[0].fields, "filename") && HasKey(updates[0].fields, "metadata") && WellFormed(updates[1..]) by {
        if WellFormed(updates[1..]) && updates[0].Obj? {
          forall i | 1 <= i < |updates|
            ensures HasKey(updates[i].fields, "filename") && HasKey(updates[i].fields, "metadata")
          {
            assert updates[i] == updates[1..][i - 1];
          }
        }
      }
    }
  }

  /** ... which it formats into one pair per item. */
  lemma {:induction false} PairsOfDicts(updates: seq<Value>)
    requires forall i :: 0 <= i < |updates| ==> updates[i].Obj?
    ensures Pairs(updates).Ok?
    ensures forall i :: 0 <= i < |updates| ==>
      Pairs(updates).value[i] == (GetOr(updates[i].fields, "filename", Null), GetOr(updates[i].fields, "metadata", Null))
    decreases |updates|
  {
    if updates != [] {
      PairsOfDicts(updates[1..]);
      var rest := Pairs(updates[1..]).value;
      forall i | 1 <= i < |updates|
        ensures Pairs(updates).value[i] == (GetOr(updates[i].fields, "filename", Null), GetOr(updates[i].fields, "metadata", Null))
      {
        assert Pairs(updates).value[i] == rest[i - 1];
        assert updates[i] == updates[1..][i - 1];
      }
    }
  }

  /** A batch of dicts: refused with 400 when it is empty or an item lacks a key; otherwise it
      reports success exactly when the store counts no failure, or passes on what the store raised. */
  lemma BatchRouteOutcome(updates: seq<Value>, batch: seq<(Value, Value)> -> Result<(nat, nat), string>)
    requires forall i :: 0 <= i < |updates| ==> updates[i].Obj?
    ensures Pairs(updates).Ok?
    ensures BatchRoute(updates, batch).Reply? && BatchRoute(updates, batch).status == 400 <==>
      updates == [] || !WellFormed(updates)
    ensures BatchRoute(updates, batch).Crashed? <==>
      updates != [] && WellFormed(updates) && batch(Pairs(updates).value).Err?
    ensures updates != [] && WellFormed(updates) && batch(Pairs(updates).value).Ok? ==>
      SuccessOf(BatchRoute(updates, batch)) == Some(Bool(batch(Pairs(updates).value).value.1 == 0))
    ensures updates != [] && WellFormed(updates) && batch(Pairs(updates).value).Err? ==>
      BatchRoute(updates, batch) == Crashed(batch(Pairs(updates).value).error)
  {
    AllWellFormedDicts(updates);
    PairsOfDicts(updates);
  }

  /** `/database/save`, given the store's lookup of a filename and what `save_question` returns
      (`Err` is an exception it raises, which the route does not catch): only metadata that exists
      and whose review is completed reaches the database. */
  function SaveRoute(data: Dict, lookup: Value -> Option<Dict>, save: Dict -> Result<bool, string>): Reply {
    var filename := GetOr(data, "filename", Null);
    if !Truthy(filename) then Refusal(400, "Filename is required")
    else
      var metadata := lookup(filename);
      if metadata.None? || metadata.value == [] then Refusal(404, "Metadata not found for this question")
      else if !Truthy(GetOr(metadata.value, "review_completed", Bool(false))) then
        Refusal(400, "Cannot save to database: review is not completed")
      else
        match save(metadata.value)
        case Ok(saved) => Reply(200, [Field("success", Bool(saved)), Field("filename", filename)])
        case Err(e) => Crashed(e)
  }

  /** The metadata the save route hands to the database, if it gets that far. */
  predicate Saves(data: Dict, lookup: Value -> Option<Dict>, metadata: Dict) {
    var filename := GetOr(data, "filename", Null);
    Truthy(filename) && lookup(filename) == Some(metadata) && metadata != []
    && Truthy(GetOr(metadata, "review_completed", Bool(false)))
  }

  /** The save route hands on exactly the existing, review-completed metadata; it then answers 200
      with the database's result, or passes on what the database raised. Any other request is
      refused whatever the database would do, with 404 exactly when the metadata is missing. */
  lemma SaveRouteGuard(
    data: Dict, lookup: Value -> Option<Dict>,
    save: Dict -> Result<bool, string>, other: Dict -> Result<bool, string>)
    ensures var r := SaveRoute(data, lookup, save);
      var metadata := lookup(GetOr(data, "filename", Null));
      var handed := metadata.Some? && Saves(data, lookup, metadata.value);
      && (handed && save(metadata.value).Ok? ==>
            r.Reply? && r.status == 200 && SuccessOf(r) == Some(Bool(save(metadata.value).value)))
      && (handed && save(metadata.value).Err? ==> r == Crashed(save(metadata.value).error))
      && (!handed ==> r.Reply? && r.status != 200 && r == SaveRoute(data, lookup, other))
      && (r.Reply? && r.status == 404 <==> Truthy(GetOr(data, "filename", Null)) && (metadata.None? || metadata.value == []))
  {
    var r := SaveRoute(data, lookup, save);
    if r.Reply? && r.status == 200 {
      GetCons(r.body[0], r.body[1..], "success");
      assert r.body == [r.body[0]] + r.body[1..];
    }
  }

  /** `/llm/analyze`, given the store's lookup, the standard analysis of `(ocr_text, existing
      metadata)` and the analysis of a custom prompt. The answer reports failure exactly when
      the analysis result has an 'error' key. */
  function AnalyzeRoute(
    data: Dict, lookup: Value -> Option<Dict>,
    standard: (Value, Option<Dict>) -> Llm.Outcome, custom: Value -> Llm.Outcome): Reply
  {
    var filename := GetOr(data, "filename", Null);
    var ocrText := GetOr(data, "ocr_text", Str(""));
    var prompt := GetOr(data, "custom_prompt", Null);
    if !Truthy(filename) || !Truthy(ocrText) then Refusal(400, "Filename and OCR text required")
    else
      var outcome := if Truthy(prompt) then custom(prompt) else standard(ocrText, lookup(filename));
      match outcome
      case Raised(e) => Crashed(e)
      case Returned(result) => Judged(result, filename)
  }

  /** The answer for an analysis result: `'error' in result` decides success, and the error is
      `result.get('error', ...)`, which only a dict has. */
  function Judged(result: Value, filename: Value): Reply {
    match PyIn("error", result)
    case Err(e) => Crashed(e)
    case Ok(false) =>
      Reply(200, [Field("success", Bool(true)), Field("error", Null), Field("metadata", result), Field("filename", filename)])
    case Ok(true) =>
      if !result.Obj? then Crashed("AttributeError: object has no attribute 'get'")
      else
        Reply(200, [
          Field("success", Bool(false)), Field("error", GetOr(result.fields, "error", Null)),
          Field("metadata", result), Field("filename", filename)])
  }

  /** The analysis route refuses exactly the requests without a filename or text, and then
      without running an analysis; a dict it gets back is reported as a failure exactly when it
      has an 'error' key, with that key's value as the error. */
  lemma AnalyzeRouteGuard(
    data: Dict, lookup: Value -> Option<Dict>,
    standard: (Value, Option<Dict>) -> Llm.Outcome, custom: Value -> Llm.Outcome,
    otherStandard: (Value, Option<Dict>) -> Llm.Outcome, otherCustom: Value -> Llm.Outcome)
    ensures var r := AnalyzeRoute(data, lookup, standard, custom);
      var refused := !Truthy(GetOr(data, "filename", Null)) || !Truthy(GetOr(data, "ocr_text", Str("")));
      && (refused ==> r == Refusal(400, "Filename and OCR text required"))
      && (refused ==> r == AnalyzeRoute(data, lookup, otherStandard, otherCustom))
  {
  }

  lemma JudgedDict(fields: Dict, filename: Value)
    ensures var r := Judged(Obj(fields), filename);
      && r.Reply? && r.status == 200
      && SuccessOf(r) == Some(Bool(!HasKey(fields, "error")))
      && (HasKey(fields, "error") ==> Get(r.body, "error") == Get(fields, "error"))
  {
    var r := Judged(Obj(fields), filename);
    assert r.body == [r.body[0]] + r.body[1..];
    GetCons(r.body[0], r.body[1..], "success");
    assert r.body[1..] == [r.body[1]] + r.body[2..];
    GetCons(r.body[0], r.body[1..], "error");
    GetCons(r.body[1], r.body[2..], "error");
  }

  // ---------------------------------------------------------------- listing the database

  /** The `review_completed` query parameter of `/database/questions`: absent is no filter,
      "true" in any letter case is True, anything else False. */
  function ReviewFilter(param: Option<string>): (r: Option<bool>)
    ensures param.None? <==> r.None?
    ensures param.Some? ==>
      (r.value <==> |param.value| == 4 && forall i :: 0 <= i < 4 ==> param.value[i] in {"true"[i], "TRUE"[i]})
  {
    if param.None? then None
    else
      var s := param.value;
      assert Lower(s) == "true" <==> |s| == 4 && forall i :: 0 <= i < 4 ==> s[i] in {"true"[i], "TRUE"[i]} by {
        if |s| == 4 {
          assert Lower(s) == "true" <==> forall i :: 0 <= i < 4 ==> Lower(s)[i] == "true"[i];
        }
      }
      Some(Lower(s) == "true")
  }

  lemma ReviewFilterExamples()
    ensures ReviewFilter(None) == None
    ensures ReviewFilter(Some("TRUE")) == Some(true) && ReviewFilter(Some("True")) == Some(true)
    ensures ReviewFilter(Some("false")) == Some(false) && ReviewFilter(Some("yes")) == Some(false)
    ensures ReviewFilter(Some("")) == Some(false)
  {
    assert Lower("TRUE") == "true";
    assert Lower("True") == "true";
    assert Lower("yes") != "true" by { assert |Lower("yes")| == 3; }
    assert Lower("false") != "true" by { assert |Lower("false")| == 5; }
  }

  /** `[q.get('filename') for q in questions]`: calling `get` on anything but a dict raises. */
  function Filenames(questions: seq<Value>): (r: Result<seq<Value>, string>)
    ensures r.Ok? ==> |r.value| == |questions|
    ensures r.Ok? ==> forall i :: 0 <= i < |questions| ==> questions[i].Obj?
  {
    if questions == [] then Ok([])
    else if !questions[0].Obj? then Err("AttributeError: object has no attribute 'get'")
    else
      match Filenames(questions[1..])
      case Err(e) => Err(e)
      case Ok(rest) => Ok([GetOr(questions[0].fields, "filename", Null)] + rest)
  }

  /** `/database/questions`, given what `get_all_questions` returns for a filter. */
  function ListRoute(param: Option<string>, getAll: Option<bool> -> seq<Value>): Reply {
    var questions := getAll(ReviewFilter(param));
    match Filenames(questions)
    case Err(e) => Crashed(e)
    case Ok(names) =>
      Reply(200, [Field("success", Bool(true)), Field("questions", Arr(names)), Field("count", Int(|questions|))])
  }

  /** The listing names every stored document's filename, in the database's order. */
  lemma {:induction false} FilenamesOfDicts(questions: seq<Value>)
    requires forall i :: 0 <= i < |questions| ==> questions[i].Obj?
    ensures Filenames(questions).Ok?
    ensures forall i :: 0 <= i < |questions| ==>
      Filenames(questions).value[i] == GetOr(questions[i].fields, "filename", Null)
    decreases |questions|
  {
    if questions != [] {
      FilenamesOfDicts(questions[1..]);
      forall i | 1 <= i < |questions|
        ensures Filenames(questions).value[i] == GetOr(questions[i].fields, "filename", Null)
      {
        assert Filenames(questions).value[i] == Filenames(questions[1..]).value[i - 1];
        assert questions[i] == questions[1..][i - 1];
      }
    }
  }
}
