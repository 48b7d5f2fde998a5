# question-metadata-enhancer, modelled in Dafny

question-metadata-enhancer is a small Flask application for reviewing exam questions. Each
question is a PNG image (`question_*.png`). The application reads the text with Tesseract,
asks an LLM (OpenAI or Anthropic) for extra metadata, and keeps the metadata in two places:
a JSON file of records, and, once a review is complete, a SQLite table.

This project models the core of that pipeline and proves properties about it:

- `wrappers.dfy` (`Wrappers`): `Option` and `Result`.
- `json.dfy` (`Json`): JSON values, and Python dicts as ordered association lists.
  - Lookup is `d.get(k)`.
  - Assignment is `d[k] = v`: it replaces a key in place or appends it.
  - Merging is `for k, v in p.items(): d[k] = v`.
  - Truthiness follows Python.
- `text.dfy` (`Text`): the `str` methods the source relies on, with CPython's semantics.
  - `strip` uses CPython's set of whitespace characters.
  - Also `split`, `join`, `in`, `startswith` and `endswith`.
  - `lower` and `capitalize` cover ASCII letters only.
- `pyformat.dfy` (`PyFormat`): how CPython parses a format spec and applies it to a `str`
  value, which is what every `{...}` field of an f-string does. The padding and alignment
  functions give general `format()` semantics; the prompt template reaches only the
  empty-spec path and the rejection of its nested spec.
- `metadata_manager.dfy` (`MetadataStore`): the metadata store `MetadataManager`.
  - A class whose fields are the metadata file and the backup directory.
  - It covers read, lookup by filename, single update (merge or append), batch update (merge
    only, with success and failure counts), backup and write.
  - Metadata that is not a dict raises AttributeError where `.items()` is called, after the
    backup and before the write.
  - The loops are methods with invariants, proved against specification functions.
- `llm_processor.dfy` (`Llm`): the string logic of `LLMProcessor`.
  - Choosing the provider in the constructor.
  - `_format_metadata`.
  - The prompt template, both as written and corrected (see Findings).
  - Extracting code fences and handling decode failure in `_parse_response`.
  - The empty-text guard and the error wrapping in `analyze_question`.
- `ocr_processor.dfy` (`Ocr`): the parts of `OCRProcessor` that decide results.
  - `_clean_text`.
  - The question-image filter.
  - The result dict of `process_image`.
  - The loop in `process_batch`.
- `database_manager.dfy` (`Database`): `DatabaseManager` over the `questions` table.
  - The table is a class field: a map from the `filename` column to the rest of the row.
  - It covers the upsert, lookup, the filtered listing ordered by `last_updated` descending,
    and delete.
- `app.dfy` (`App`): the route rules.
  - How the dashboard splits images into pending and completed.
  - The path guard of the image route.
  - The request checks that decide whether a route calls the store, the database or the LLM
    processor.
  - How the success flag of each answer is derived.

External effects are parameters:

| effect | how it is modelled |
|---|---|
| clock | a time-stamp string |
| file existence and copy success | booleans |
| how a write of the metadata file ends | `WriteOutcome`: completed, not opened, or truncated with partial text |
| database connection | a boolean |
| provider HTTP call | `(Provider, string) -> Result<string, string>` |
| OCR engine | `string -> Result<string, string>` |
| JSON decoder | `string -> Result<Value, string>` |
| Python `repr` of floats, lists and dicts | `Value -> string` |
| environment variables | `string -> Option<string>` |

A route's dependencies are function parameters, so a refusal that "does not call" a component
is proved as "the answer is the same whatever the component does".

Saving the same metadata to the database twice leaves the table unchanged when the metadata
carries its own `created` or `last_updated` (`Database.SaveAgainUnchanged`). Without either,
each save stamps `last_updated` with the current time (`Database.SaveAgainRestamps`).

## Model

| member | source | states |
|---|---|---|
| Json.Get | modules/metadata_manager.py:60 | `d.get(k)` gives the value of the first field named `k`, and a value exactly when the dict has the key |
| Json.Set | modules/metadata_manager.py:86 | after `d[k] = v`, `k` maps to `v` and every other key keeps its value; the key order is unchanged when `k` was present, and otherwise `k` is appended |
| Json.GetMerge | modules/metadata_manager.py:85-86 | after merging a payload, a key has the payload's value when the payload has it, and its old value otherwise |
| Json.KeysMerge | modules/metadata_manager.py:96-100 | a merge keeps the old keys in place and appends the payload's new keys in payload order |
| Json.MergeKeepsDistinct | modules/metadata_manager.py:85-86 | merging into a dict with distinct keys keeps them distinct |
| Json.SetKeepsDistinct | modules/metadata_manager.py:86 | one assignment keeps the keys distinct |
| Text.Strip | modules/ocr_processor.py:126 | `strip()` leaves no whitespace character at either end |
| Text.StripSlice | modules/ocr_processor.py:126 | what `strip()` keeps is one contiguous slice of the input, and every character it drops is whitespace |
| Text.StripStripped | modules/ocr_processor.py:130 | stripping a string with no whitespace at either end changes nothing |
| Text.StripKeepsAbsence | modules/llm_processor.py:229 | stripping never creates an occurrence of a substring |
| Text.StripBounds | modules/llm_processor.py:225 | stripping keeps everything between two non-space characters |
| Text.Find | modules/llm_processor.py:228 | the index found is an occurrence with none before it; none is found only when there is no occurrence |
| Text.Split | modules/llm_processor.py:229 | `split(sep)` gives at least one piece and no piece contains the separator |
| Text.JoinSplit | modules/llm_processor.py:229 | joining the pieces of a split with its separator gives back the string |
| Text.SplitSecond | modules/llm_processor.py:229 | when the separator occurs, piece 1 is the text after its first occurrence up to the next |
| Text.JoinAvoids | modules/ocr_processor.py:126 | a join holds a character only if the separator or one of the parts holds it |
| Text.JoinStripped | modules/ocr_processor.py:126 | joining non-empty stripped parts gives a stripped, non-empty text |
| PyFormat.FormatStr | modules/llm_processor.py:103-136 | formatting a string succeeds only when its spec parses, and an empty spec gives the string unchanged |
| PyFormat.FormatEmptySpec | modules/llm_processor.py:107 | a `{name}` field inserts the string as it is |
| PyFormat.QuotedSpecRejected | modules/llm_processor.py:127-130 | a spec of three or more characters that starts with a space and a double quote is rejected with "Invalid format specifier" |
| MetadataStore.Stored | modules/metadata_manager.py:36-45 | a missing file and an unparsable file both read as the empty list |
| MetadataStore.FirstFor | modules/metadata_manager.py:59-63 | the index found holds an entry for the name and no earlier entry does; nothing is found only when no entry has the name |
| MetadataStore.FindEntry | modules/metadata_manager.py:82-83 | the scan over the entries finds exactly the first entry for the name |
| MetadataStore.MergeInto | modules/metadata_manager.py:85-86 | the loop that assigns each payload field gives the merge of the payload into the entry |
| MetadataStore.MetadataManager.ReadMetadata | modules/metadata_manager.py:36-45 | reading returns the stored list, or the empty list for a missing or unparsable file |
| MetadataStore.MetadataManager.GetMetadataForImage | modules/metadata_manager.py:57-63 | returns None exactly when no entry has the filename; otherwise it returns an entry of the list for the filename, with no earlier entry for it |
| MetadataStore.MetadataManager.CreateBackup | modules/metadata_manager.py:166-180 | a backup is made exactly when the file exists and the copy succeeds; it is a verbatim copy under `metadata_backup_<stamp>.json`, and the file is untouched |
| MetadataStore.MetadataManager.SaveMetadata | modules/metadata_manager.py:192-200 | returns True exactly when the whole list is written, and the file then holds the list; when `open` fails the file is unchanged; when the dump fails after `open(..., 'w')` the file holds the partial text written so far |
| MetadataStore.TruncatedWriteLosesStore | modules/metadata_manager.py:193-194 | after a write that fails once the file is truncated, the next read gives the empty list, while the backup taken at the start of the update still holds the old file |
| MetadataStore.FailedWriteKeepsOrEmpties | modules/metadata_manager.py:192-200 | a failed write never stores the new list: the store reads as before or as empty |
| MetadataStore.MetadataManager.UpdateMetadata | modules/metadata_manager.py:65-111 | metadata that is not a dict raises AttributeError at `.items()` after the backup, with the file untouched; otherwise it returns exactly the save result and the file is the updated list as the write leaves it: whole, untouched, or truncated; the backup depends only on the old file and the copy |
| MetadataStore.ApplyUpdate | modules/metadata_manager.py:136-150 | one batch item merges into the first entry for its name and is counted exactly when that entry exists; it raises exactly when that entry exists and the metadata is not a dict |
| MetadataStore.ApplyBatch | modules/metadata_manager.py:133-150 | the batch loop gives the batch run over the items as handed over, ending at the first item that raises; when none raises, success plus failure equals the number of items |
| MetadataStore.BatchRun | modules/metadata_manager.py:133-150 | a batch whose every metadata is a dict never raises, and runs exactly as the batch specification over those dicts |
| MetadataStore.BatchRunRaises | modules/metadata_manager.py:139 | a batch that raises does so with the AttributeError of `.items()`, at an item whose metadata is not a dict |
| MetadataStore.FirstItemRaises | modules/metadata_manager.py:136-139 | a batch whose first item names a stored entry with metadata that is not a dict (`null`, say) raises, whatever follows it |
| MetadataStore.MetadataManager.UpdateBatchMetadata | modules/metadata_manager.py:123-157 | an empty batch returns (0, 0) with no backup and no write; otherwise it backs up; a batch that raises passes the exception on with the file untouched; otherwise it writes the batch result, whole, untouched or truncated, and a completed write returns the batch counts while a failed one returns (0, number of items) |
| MetadataStore.BatchPrefix | modules/metadata_manager.py:133-150 | a batch never creates or removes entries; when no payload renames an entry, the filenames are unchanged and the success count is the number of items whose filename was already stored |
| MetadataStore.AdvanceKeepsNames | modules/metadata_manager.py:136-150 | one item keeps the number of entries, keeps the filenames when its payload has no `filename`, and counts exactly when its name is stored |
| MetadataStore.FirstForNames | modules/metadata_manager.py:59-63 | a lookup finds an entry exactly when some entry carries the name |
| MetadataStore.UpdateExisting | modules/metadata_manager.py:82-91 | updating a stored name changes only its first entry and keeps the list length; payload keys take payload values, other keys keep theirs, and `last_updated` becomes the update time |
| MetadataStore.UpdateAbsent | modules/metadata_manager.py:93-108 | updating an unknown name appends exactly one entry; its first key is `filename`, it holds the payload, and `created` and `last_updated` are both the update time |
| MetadataStore.UpdateThenLookup | modules/metadata_manager.py:79-108 | after an update whose payload has no `filename`, a lookup of the name finds an entry holding every payload field |
| MetadataStore.UpdateOnEmptyStore | modules/metadata_manager.py:79-111 | with a missing or unparsable file, an update writes a list holding only the new entry |
| MetadataStore.TouchedKeepsName | modules/metadata_manager.py:85-89 | merging a payload without `filename` keeps the entry's filename |
| Llm.NewProcessor | modules/llm_processor.py:25-37 | the constructor accepts exactly the API types that lower-case to `openai` or `anthropic`, reads that provider's key, and otherwise fails with "Unsupported API type: ..." |
| Llm.NewProcessorIgnoresCase | modules/llm_processor.py:25 | "OpenAI" and "ANTHROPIC" are accepted and "gemini" is refused |
| Llm.Lines | modules/llm_processor.py:85-88 | there is at most one line per field, no line exactly when no field is shown, and every line holds a ':' |
| Llm.LinesAppend | modules/llm_processor.py:85-88 | lines come in dict order: the lines of two dicts laid end to end are the lines of each |
| Llm.LinesSingle | modules/llm_processor.py:87-88 | a field gives `Key.capitalize() + ": " + str(value)` when it is not hidden and its value is truthy, and nothing otherwise |
| Llm.FormatSentinel | modules/llm_processor.py:90 | `_format_metadata` gives "No existing metadata." exactly when no field is shown |
| Llm.MetadataString | modules/llm_processor.py:54 | no metadata, or an empty dict, gives "No existing metadata."; otherwise the formatted metadata |
| Llm.Render | modules/llm_processor.py:103-136 | in the rendered prompt each fixed part and each inserted text lies where the template puts it, in template order |
| Llm.CorrectedShowsSchema | modules/llm_processor.py:103-136 | the corrected prompt starts with the heading, holds the OCR text right after it, and ends with the JSON schema and the closing line |
| Llm.Headings | modules/llm_processor.py:106-109 | the fixed text placed before the OCR text ends with "QUESTION TEXT:", and the text placed before the metadata ends with "EXISTING METADATA:" |
| Llm.PromptAsWrittenFails | modules/llm_processor.py:122-132 | the template as written raises "Invalid format specifier" for every input |
| Llm.FenceContentHasNoFence | modules/llm_processor.py:225-231 | the text given to the JSON decoder never contains a fence |
| Llm.JsonFenceRoundTrip | modules/llm_processor.py:228-229 | a reply holding one `json`-tagged fenced block with no backtick inside yields the stripped body, whatever surrounds the block |
| Llm.PlainFenceRoundTrip | modules/llm_processor.py:230-231 | a reply with a plain fenced block and no tagged fence yields the stripped body |
| Llm.ParseJsonBlock | modules/llm_processor.py:225-235 | a tagged block whose body decodes yields exactly the decoded value |
| Llm.ParseFailureKeepsReply | modules/llm_processor.py:237-241 | a decode failure does not raise; it gives a dict with the error message and the original, unstripped reply |
| Llm.EmptyTextRefused | modules/llm_processor.py:50-51 | empty text returns exactly the "No OCR text provided for analysis" error dict, whatever the provider would do |
| Llm.AnalyzeAsWrittenRaises | modules/llm_processor.py:54-57 | as written, any non-empty text makes the prompt raise before any provider call |
| Llm.AnalyzeQuestionAsWrittenRaises | modules/llm_processor.py:39-73 | as written, `analyze_question` raises "Invalid format specifier" for every non-empty text |
| Llm.AnalyzeQuestionNeverRaises | modules/llm_processor.py:59-73 | with the corrected prompt, a failed call gives the "LLM analysis failed: ..." error dict and otherwise the parsed reply comes back; nothing escapes |
| Ocr.KeptLines | modules/ocr_processor.py:126 | every kept line is non-empty and stripped, and there are no more kept lines than input lines |
| Ocr.KeptLinesMembers | modules/ocr_processor.py:126 | the kept lines are exactly the non-empty strips of the input lines |
| Ocr.KeptLinesAppend | modules/ocr_processor.py:126 | the comprehension keeps line order: the kept lines of two runs of lines are the kept lines of each, in turn |
| Ocr.KeptLinesAvoid | modules/ocr_processor.py:126 | kept lines hold no character their source lines lack |
| Ocr.JoinedLinesClean | modules/ocr_processor.py:126 | the joined kept lines hold no newline and have no whitespace at either end |
| Ocr.NoLinesInEmpty | modules/ocr_processor.py:122-123 | empty text has no line to keep, so the guard and the join agree on "" |
| Ocr.CleanTextIsJoin | modules/ocr_processor.py:122-130 | the cleaned text is exactly the kept lines joined by single spaces; it holds no newline and has no whitespace at either end |
| Ocr.CleanOneLine | modules/ocr_processor.py:126-130 | a single stripped line without a newline is already clean |
| Ocr.CleanTextIdempotent | modules/ocr_processor.py:126-130 | cleaning twice is cleaning once |
| Ocr.QuestionImages | modules/ocr_processor.py:38-39 | keeps exactly the names that start with "question_" and whose lower-cased form ends with ".png" |
| Ocr.ImageList | modules/ocr_processor.py:33-39 | a missing directory lists nothing; otherwise the result is exactly the question images of the listing |
| Ocr.QuestionImagesAppend | modules/ocr_processor.py:38-39 | the filter keeps listing order |
| Ocr.ProcessImageShape | modules/ocr_processor.py:57-88 | a missing file fails with "Image file not found: <path>"; an engine error fails with "OCR processing failed for <filename>: <error>"; otherwise the result succeeds with the cleaned engine text; each result echoes its filename, succeeds exactly when it has no error, has empty text when it failed, and its text is already clean |
| Ocr.ProcessAll | modules/ocr_processor.py:104-110 | there is one result per name, in the order of the names |
| Ocr.ProcessBatch | modules/ocr_processor.py:101-110 | the loop processes the given names, or every question image when none are given, one after the other |
| Database.Bind | modules/database_manager.py:123-137 | a string binds as itself, NULL comes only from None, and exactly the integers outside 64 bits overflow |
| Database.Written | modules/database_manager.py:117-137 | the written row carries the review flag, the metadata's JSON, the bound `last_updated` (the metadata's own or `created`) and the bound completion time; an update keeps the stored `created` and an insert writes the bound `created`; the statement fails exactly when a NOT NULL time stamp does not bind as text or the completion time cannot bind |
| Database.Saved | modules/database_manager.py:97-137 | empty metadata, or metadata without `filename`, is refused; a save touches only the row under its key and leaves that key present |
| Database.QuestionDatabase.SaveQuestion | modules/database_manager.py:97-147 | raises the `OverflowError` exactly when connected and a too wide integer is the first parameter that fails to bind; otherwise returns True exactly when connected and the save is accepted; the table then becomes the saved table, and otherwise it is unchanged |
| Database.RaisingSaveRefused | modules/database_manager.py:117-137 | a save that raises stores nothing |
| Database.WideFilenameRaises | modules/database_manager.py:117-118 | a filename one past the 64-bit maximum makes the save raise |
| Database.QuestionDatabase.GetQuestion | modules/database_manager.py:162-178 | returns None without a connection or a row, and otherwise the decoded stored metadata |
| Database.QuestionDatabase.GetAllQuestions | modules/database_manager.py:193-213 | lists each matching row exactly once and no other, newest `last_updated` first, as decoded metadata; gives nothing without a connection |
| Database.QuestionDatabase.Latest | modules/database_manager.py:201 | picks a row that no other row of the pool postdates |
| Database.QuestionDatabase.DeleteQuestion | modules/database_manager.py:228-242 | returns True exactly when connected and a row existed; when connected, the row is gone afterwards and no other row changes |
| Database.NotEarlierThanItself | modules/database_manager.py:201 | under the collation, no time stamp sorts before itself |
| Database.EarlierTransitive | modules/database_manager.py:201 | under the collation, sorting before is transitive |
| Database.SaveKeepsCreated | modules/database_manager.py:123-130 | updating a row never changes its `created` column |
| Database.SaveInsertDefaults | modules/database_manager.py:109-110 | an insert takes `created` from the metadata or the clock, and `last_updated` from the metadata or from `created` |
| Database.SaveReviewColumns | modules/database_manager.py:111-112 | `review_completed` is 1 exactly when the metadata's flag is truthy; `review_completed_at` is NULL whenever the column is 0 |
| Database.SaveKeepsValid | modules/database_manager.py:111-112 | every save keeps the flag at 0 or 1, and no completion time on an incomplete row |
| Database.SaveAccepts | modules/database_manager.py:97-137 | metadata with a string filename and string or absent time stamps is always saved under that filename, and never raises |
| Database.SaveThenGet | modules/database_manager.py:115 | reading back a saved question gives the metadata that was saved, and other rows are unchanged |
| Database.SaveAgainUnchanged | modules/database_manager.py:117-137 | a second save of the same metadata changes nothing when the metadata has its own time stamp or the clock has not moved |
| Database.SaveAgainRestamps | modules/database_manager.py:109-110 | without its own time stamps, a second save at a later time moves `last_updated` to that time |
| Database.MatchingSplits | modules/database_manager.py:200-205 | the unfiltered listing is the completed rows and the incomplete rows together, and no row is in both |
| Database.DeleteUndoesInsert | modules/database_manager.py:234 | deleting a question that a save has just inserted restores the table |
| App.Keep | app.py:60 | a list comprehension keeps exactly the members that pass its condition |
| App.KeepAppend | app.py:60-63 | a comprehension keeps the order of its list |
| App.DashboardPartition | app.py:60-63 | completed images are the review-list names that are also images; pending images are the images not on the list; every image is in exactly one of the two |
| App.ServeImageGuard | app.py:107-117 | a name is refused with 400 exactly when it contains ".." or starts with "/", whatever the file system holds; a file is sent only for a safe, existing name, at its joined path |
| App.ServedInsideFolder | app.py:107-111 | a sent path is the folder followed by a part without ".." |
| App.UpdateRouteGuard | app.py:227-242 | refused with 400 exactly without a filename or metadata, and then independently of the store; otherwise it answers 200 with the store's result, or passes on the exception the store raised |
| App.UpdateRouteNonDict | app.py:228-237 | with the store's update, truthy metadata that is not a dict (`[1]`, say) gets no JSON answer: the AttributeError escapes the route |
| App.AllWellFormedDicts | app.py:257 | for a list of dicts, the format check passes exactly when every item has both `filename` and `metadata` |
| App.PairsOfDicts | app.py:264 | each dict becomes its (filename, metadata) pair, in order |
| App.BatchRouteOutcome | app.py:248-273 | a batch of dicts is refused with 400 exactly when it is empty or an item lacks a key; otherwise it passes on the exception the store raised, or reports success exactly when the failure count is 0 |
| App.SaveRouteGuard | app.py:326-356 | existing, review-completed metadata is handed to the database, and then the answer is 200 with the database's result, or the exception the database raised; every other request is refused whatever the database does, with 404 exactly when a filename is given and its metadata is missing or empty |
| App.AnalyzeRouteGuard | app.py:182-190 | without a filename or OCR text the answer is the 400 refusal, whatever the analysis would do |
| App.JudgedDict | app.py:205-221 | a dict result is reported with status 200, success exactly when it has no `error` key, and that key's value as the error |
| App.ReviewFilter | app.py:362-364 | an absent parameter gives no filter; a present one filters for completed reviews exactly when it is the four letters of "true", each in either case |
| App.ReviewFilterExamples | app.py:362-364 | "TRUE" and "True" filter for completed reviews; "false", "yes" and "" filter for incomplete ones |
| App.FilenamesOfDicts | app.py:367-373 | the listing names each stored document's filename, in the database's order |

## Left out

- Network calls (`_call_openai`, `_call_anthropic`) are a function parameter; HTTP, vendor response shapes and timeouts are not modelled.
- The OCR engine (PIL and pytesseract) is a function from image path to text or error.
- The JSON grammar is not modelled. `json.loads` is a decoder parameter; `json.dumps`/`json.loads` of stored metadata is the value itself (a round trip by construction); `indent=4` layout is not modelled.
- SQLite's connection and engine errors are one `connected` flag. Row ids, indices, the schema setup in `_initialize_db` and `close` are not modelled.
- MetadataStore.FirstFor: entries are matched to a filename by structural equality of JSON values. Python's `==` also equates `True`, `1` and `1.0`, and dicts with the same items in another order. So a lookup, update or batch item whose filename differs from the stored one only in that way finds no entry here, where the application finds one. The same holds for `MetadataStore.IsFor` and every member built on it. Float NaN, which equals nothing in Python, is not a value of the model.
- MetadataStore.Content: a metadata file holding valid JSON that is not a list of dicts (`{}`, `[1]`, a number) is not modelled. There the application raises AttributeError or TypeError in lookup and update, since `read_metadata` catches only JSONDecodeError.
- MetadataStore.Stored: reading an existing file never fails here. `read_metadata` catches only JSONDecodeError, so an OSError on open (permission denied, a directory at that path) or a UnicodeDecodeError from bytes the locale's codec rejects escapes lookup, update (after the backup) and batch update, and then the routes; none of that is modelled.
- MetadataStore.WriteOutcome: a write whose failure comes after the whole text reached the disk (an error while closing) is not distinguished; the file is then taken to hold partial text.
- Database.Bind: a float value, which SQLite would store as decimal text under the column's TEXT affinity, is treated as a value that cannot be bound.
- Text.Lower and Text.Capitalize change ASCII letters only; Python's full Unicode case mapping is not modelled.
- Llm.Show: `str()` of floats, lists and dicts is a `repr` parameter.
- `get_completed_review_list` and `mark_review_completed` are called by the application but defined nowhere, so the review list is a parameter and the toggle route is not modelled. The `force_reprocess` keyword that the application passes to `process_batch` and `process_image` is not accepted by either and is not modelled.
- `_clean_text` on `None` is not modelled (the text is always a string here).
- The `/llm/prompt`, `/ocr/process`, `/ocr/result`, page-rendering, `/debug` and `/test-css` routes are not modelled; they only delegate or render.
- App.BatchRoute takes the `updates` value as a JSON list; a body whose `updates` is another JSON type is not modelled. The other routes take the request body as a JSON object.
- Flask's `send_from_directory`, which checks the path again, is not modelled; `serve_image` ends at the joined path.
- Subject syllabus injection, reformatting `choices` for display, request timeouts, truncating raw responses and classifying authentication errors appear in the application's description but not in the code, so they are not modelled.
- Logging, debug prints, concurrency between requests and the browser scripts are not modelled.
- Format specs holding non-ASCII decimal digits (which CPython also accepts as widths) are not modelled; the template holds none.
- Llm.JsonFenceRoundTrip and Llm.PlainFenceRoundTrip cover a block whose body has no backtick and whose closing fence is not followed by another backtick; when a fence overlaps a longer run of backticks the extraction is the literal split, which the model computes but no lemma characterises.

## Findings

| source | as written | input that shows it | evidently intended | confidence | as-written member | corrected member |
|---|---|---|---|---|---|---|
| modules/llm_processor.py:122-132 | the JSON schema inside the `_create_prompt` f-string uses single braces, so CPython reads `{` + `"question_type":` + ... as a replacement field whose format spec holds a nested field; the nested spec `' "string",\n    "subtopics": ["string"]\n  '` is rejected with ValueError "Invalid format specifier" (Python 3.10 and later append the spec and the type to the message), and the call at line 57 is outside the `try`, so `analyze_question` raises | any non-empty `ocr_text`, e.g. "What is 2+2?" | the schema shown literally (braces doubled), with the text and metadata inserted | not executed | Llm.AnalyzeQuestionAsWrittenRaises | Llm.AnalyzeQuestionNeverRaises |
