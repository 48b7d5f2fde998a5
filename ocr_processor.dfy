/**
 * `OCRProcessor`: cleaning the engine's text, choosing the question images of a
 * directory listing, the result of one image and the loop over a batch. The
 * file system and the OCR engine (PIL and Tesseract) are parameters.
 */
module Ocr {
  import opened Wrappers
  import opened Text

  // ---------------------------------------------------------------- cleaning

  /** `[line.strip() for line in lines if line.strip()]`. */
  function KeptLines(lines: seq<string>): (kept: seq<string>)
    ensures |kept| <= |lines|
    ensures forall k :: 0 <= k < |kept| ==> kept[k] != [] && Stripped(kept[k])
  {
    if lines == [] then []
    else
      var line := Strip(lines[0]);
      (if line != [] then [line] else []) + KeptLines(lines[1..])
  }

  /** The kept lines are exactly the non-empty strips of the lines. */
  lemma {:induction false} KeptLinesMembers(lines: seq<string>)
    ensures forall x :: x in KeptLines(lines) <==> x != [] && exists l :: l in lines && Strip(l) == x
    decreases |lines|
  {
    if lines != [] {
      var rest := lines[1..];
      KeptLinesMembers(rest);
      var head := if Strip(lines[0]) != [] then [Strip(lines[0])] else [];
      assert KeptLines(lines) == head + KeptLines(rest);
      forall x ensures x in KeptLines(lines) <==> x != [] && exists l :: l in lines && Strip(l) == x {
        if x != [] && exists l :: l in lines && Strip(l) == x {
          var l :| l in lines && Strip(l) == x;
          if l != lines[0] {
            assert l in rest;
          }
        }
      }
    }
  }

  /** The comprehension keeps line order: the kept lines of two runs of lines laid end to end are
      the kept lines of each, laid end to end. */
  lemma {:induction false} KeptLinesAppend(a: seq<string>, b: seq<string>)
    ensures KeptLines(a + b) == KeptLines(a) + KeptLines(b)
    decreases |a|
  {
    if a == [] {
      assert a + b == b;
    } else {
      KeptLinesAppend(a[1..], b);
      KeptLinesUnfold(a, b);
      Reassociate(KeptLines(a + b), KeptHead(a[0]), KeptLines(a[1..] + b), KeptLines(a), KeptLines(a[1..]), KeptLines(b));
    }
  }

  /** What one line contributes to the kept lines. */
  function KeptHead(line: string): seq<string> {
    if Strip(line) != [] then [Strip(line)] else []
  }

  /** The first line's contribution comes first, alone or in front of more lines. */
  lemma KeptLinesUnfold(a: seq<string>, b: seq<string>)
    requires a != []
    ensures KeptLines(a + b) == KeptHead(a[0]) + KeptLines(a[1..] + b)
    ensures KeptLines(a) == KeptHead(a[0]) + KeptLines(a[1..])
  {
    assert (a + b)[0] == a[0];
    assert (a + b)[1..] == a[1..] + b;
  }

  lemma Reassociate<T>(whole: seq<T>, h: seq<T>, rest: seq<T>, front: seq<T>, x: seq<T>, y: seq<T>)
    requires whole == h + rest && rest == x + y && front == h + x
    ensures whole == front + y
  {
  }

  /** `_clean_text`: the stripped non-empty lines joined by single spaces, stripped again. */
  function CleanText(text: string): string {
    if text == [] then [] else Strip(Join(" ", KeptLines(Split(text, "\n"))))
  }

  /** Kept lines never hold a newline when the lines they come from do not. */
  lemma {:induction false} KeptLinesAvoid(lines: seq<string>, c: char)
    requires forall k :: 0 <= k < |lines| ==> c !in lines[k]
    ensures forall k :: 0 <= k < |KeptLines(lines)| ==> c !in KeptLines(lines)[k]
    decreases |lines|
  {
    if lines != [] {
      var rest := lines[1..];
      StripKeepsCharAbsence(lines[0], c);
      forall k | 0 <= k < |rest| ensures c !in rest[k] {
        assert rest[k] == lines[k + 1];
      }
      KeptLinesAvoid(rest, c);
      var head := if Strip(lines[0]) != [] then [Strip(lines[0])] else [];
      assert KeptLines(lines) == head + KeptLines(rest);
    }
  }

  /** The kept lines joined by single spaces have no newline and no whitespace at either end. */
  lemma JoinedLinesClean(text: string)
    ensures var joined := Join(" ", KeptLines(Split(text, "\n")));
      '\n' !in joined && Stripped(joined)
  {
    JoinStripped(" ", KeptLines(Split(text, "\n")));
    JoinedLinesOneLine(text);
  }

  lemma JoinedLinesOneLine(text: string)
    ensures '\n' !in Join(" ", KeptLines(Split(text, "\n")))
  {
    var lines := Split(text, "\n");
    LinesHaveNoNewline(lines);
    KeptLinesAvoid(lines, '\n');
    JoinAvoids(" ", KeptLines(lines), '\n');
  }

  /** The pieces of a split on newlines hold no newline. */
  lemma LinesHaveNoNewline(lines: seq<string>)
    requires forall k :: 0 <= k < |lines| ==> !Contains(lines[k], "\n")
    ensures forall k :: 0 <= k < |lines| ==> '\n' !in lines[k]
  {
    forall k | 0 <= k < |lines| ensures '\n' !in lines[k] {
      NoOccurrenceNoChar(lines[k], '\n');
    }
  }

  /** Empty text has no line to keep. */
  lemma NoLinesInEmpty()
    ensures Join(" ", KeptLines(Split([], "\n"))) == []
  {
    assert Find([], "\n").None?;
    assert Split([], "\n") == [[]];
    assert Strip([]) == [];
    assert KeptLines([[]]) == [];
  }

  /** The cleaned text is exactly the kept lines joined by single spaces (the final strip and the
      guard for empty text change nothing); it has no newline and no whitespace at either end. */
  lemma CleanTextIsJoin(text: string)
    ensures CleanText(text) == Join(" ", KeptLines(Split(text, "\n")))
    ensures '\n' !in CleanText(text)
    ensures Stripped(CleanText(text))
  {
    JoinedLinesClean(text);
    if text == [] {
      NoLinesInEmpty();
    } else {
      StripStripped(Join(" ", KeptLines(Split(text, "\n"))));
    }
  }

  /** A text of one line with no whitespace at either end is already clean. */
  lemma CleanOneLine(c: string)
    requires c != [] && '\n' !in c && Stripped(c)
    ensures CleanText(c) == c
  {
    NoCharNoOccurrence(c, '\n');
    SplitWithout(c, "\n");
    StripStripped(c);
    assert KeptLines([c]) == [c];
  }

  /** Cleaning is idempotent. */
  lemma CleanTextIdempotent(text: string)
    ensures CleanText(CleanText(text)) == CleanText(text)
  {
    var c := CleanText(text);
    CleanTextIsJoin(text);
    if c != [] {
      CleanOneLine(c);
    }
  }

  // ---------------------------------------------------------------- the image list

  /** A question image: the name starts with "question_" and, lower-cased, ends with ".png". */
  predicate IsQuestionImage(name: string) {
    StartsWith(name, "question_") && EndsWith(Lower(name), ".png")
  }

  /** The question images of a listing, in listing order. */
  function QuestionImages(listing: seq<string>): (names: seq<string>)
    ensures forall n :: n in names <==> n in listing && IsQuestionImage(n)
  {
    if listing == [] then []
    else (if IsQuestionImage(listing[0]) then [listing[0]] else []) + QuestionImages(listing[1..])
  }

  /** `get_image_list`: `None` stands for a missing directory, which lists nothing. */
  function ImageList(listing: Option<seq<string>>): (names: seq<string>)
    ensures listing.None? ==> names == []
    ensures listing.Some? ==> forall n :: n in names <==> n in listing.value && IsQuestionImage(n)
  {
    if listing.None? then [] else QuestionImages(listing.value)
  }

  /** The filter keeps listing order: filtering two listings laid end to end lays their filtered
      parts end to end. */
  lemma {:induction false} QuestionImagesAppend(a: seq<string>, b: seq<string>)
    ensures QuestionImages(a + b) == QuestionImages(a) + QuestionImages(b)
    decreases |a|
  {
    if a == [] {
      assert a + b == b;
    } else {
      assert (a + b)[0] == a[0];
      assert (a + b)[1..] == a[1..] + b;
      QuestionImagesAppend(a[1..], b);
    }
  }

  // ---------------------------------------------------------------- one image, a batch

  /** `os.path.join(directory, name)` on POSIX. */
  function JoinPath(directory: string, name: string): string {
    if StartsWith(name, "/") then name
    else if directory == [] || EndsWith(directory, "/") then directory + name
    else directory + "/" + name
  }

  /** The dict `process_image` returns: 'filename', 'text' and 'success', and 'error' when it failed. */
  datatype OcrResult = OcrResult(filename: string, text: string, success: bool, error: Option<string>)

  /** `process_image`, given whether a path exists and what the engine makes of the image at a
      path (`Err` is the message of the exception it raised). */
  function ProcessImage(
    imagesDir: string, filename: string,
    present: string -> bool, engine: string -> Result<string, string>): OcrResult
  {
    var path := JoinPath(imagesDir, filename);
    if !present(path) then
      OcrResult(filename, "", false, Some("Image file not found: " + path))
    else
      match engine(path)
      case Ok(raw) => OcrResult(filename, CleanText(raw), true, None)
      case Err(e) => OcrResult(filename, "", false, Some("OCR processing failed for " + filename + ": " + e))
  }

  /** Every result echoes its filename, succeeds exactly when it carries no error, holds text only
      when it succeeded, and holds text that is already clean. */
  lemma ProcessImageShape(
    imagesDir: string, filename: string,
    present: string -> bool, engine: string -> Result<string, string>)
    ensures var r := ProcessImage(imagesDir, filename, present, engine);
      && r.filename == filename
      && (r.success <==> r.error.None?)
      && (!r.success ==> r.text == "")
      && CleanText(r.text) == r.text
    ensures var r := ProcessImage(imagesDir, filename, present, engine);
      var path := JoinPath(imagesDir, filename);
      && (!present(path) ==> !r.success && r.error == Some("Image file not found: " + path))
      && (present(path) && engine(path).Ok? ==> r.success && r.text == CleanText(engine(path).value))
      && (present(path) && engine(path).Err? ==>
            !r.success && r.error == Some("OCR processing failed for " + filename + ": " + engine(path).error))
  {
    var path := JoinPath(imagesDir, filename);
    if present(path) && engine(path).Ok? {
      CleanTextIdempotent(engine(path).value);
    }
  }

  /** The names a batch processes: the given ones, or every question image when none is given. */
  function BatchNames(names: Option<seq<string>>, listing: Option<seq<string>>): seq<string> {
    if names.Some? then names.value else ImageList(listing)
  }

  /** The results of processing `names` one after the other: one result per name, in the order
      of the names. */
  function ProcessAll(
    imagesDir: string, names: seq<string>,
    present: string -> bool, engine: string -> Result<string, string>): (results: seq<OcrResult>)
    ensures |results| == |names|
    ensures forall i :: 0 <= i < |names| ==> results[i].filename == names[i]
  {
    if names == [] then []
    else
      var last := ProcessImage(imagesDir, names[|names| - 1], present, engine);
      ProcessAll(imagesDir, names[..|names| - 1], present, engine) + [last]
  }

  /** Processing one more name appends its result. */
  lemma ProcessAllSnoc(
    imagesDir: string, names: seq<string>, name: string,
    present: string -> bool, engine: string -> Result<string, string>)
    ensures ProcessAll(imagesDir, names + [name], present, engine)
         == ProcessAll(imagesDir, names, present, engine) + [ProcessImage(imagesDir, name, present, engine)]
  {
    assert (names + [name])[..|names|] == names;
  }

  /** `process_batch`: the given names, or every question image when none is given, each processed
      in turn. */
  method ProcessBatch(
    imagesDir: string, names: Option<seq<string>>, listing: Option<seq<string>>,
    present: string -> bool, engine: string -> Result<string, string>)
    returns (results: seq<OcrResult>)
    ensures results == ProcessAll(imagesDir, BatchNames(names, listing), present, engine)
  {
    var chosen := if names.None? then ImageList(listing) else names.value;
    results := [];
    var i := 0;
    while i < |chosen|
      invariant 0 <= i <= |chosen|
      invariant results == ProcessAll(imagesDir, chosen[..i], present, engine)
    {
      var result := ProcessImage(imagesDir, chosen[i], present, engine);
      ProcessAllSnoc(imagesDir, chosen[..i], chosen[i], present, engine);
      assert chosen[..i + 1] == chosen[..i] + [chosen[i]];
      results := results + [result];
      i := i + 1;
    }
    assert chosen[..i] == chosen;
  }
}
