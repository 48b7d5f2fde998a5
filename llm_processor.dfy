/**
 * The string logic of `LLMProcessor`: choosing the provider, rendering the
 * existing metadata, building the prompt, pulling the JSON out of the model's
 * reply and wrapping failures as `{'error': ...}` dicts. The HTTP calls, the
 * JSON grammar and the environment are parameters.
 */
module Llm {
  import opened Wrappers
  import opened Json
  import opened Text
  import opened PyFormat

  datatype Provider = OpenAI | Anthropic

  /** An `LLMProcessor` after its constructor: the provider and the key read for it, if any. */
  datatype Processor = Processor(provider: Provider, apiKey: Option<string>)

  /** The constructor: the lower-cased API type must name a provider; the key comes from that
      provider's environment variable, and a missing key is accepted. */
  function NewProcessor(apiType: string, env: string -> Option<string>): (r: Result<Processor, string>)
    ensures r.Ok? <==> Lower(apiType) == "openai" || Lower(apiType) == "anthropic"
    ensures r.Ok? ==> (r.value.provider == OpenAI <==> Lower(apiType) == "openai")
    ensures r.Ok? && r.value.provider == OpenAI ==> r.value.apiKey == env("OPENAI_API_KEY")
    ensures r.Ok? && r.value.provider == Anthropic ==> r.value.apiKey == env("ANTHROPIC_API_KEY")
    ensures r.Err? ==> r.error == "Unsupported API type: " + apiType
  {
    var kind := Lower(apiType);
    if kind == "openai" then Ok(Processor(OpenAI, env("OPENAI_API_KEY")))
    else if kind == "anthropic" then Ok(Processor(Anthropic, env("ANTHROPIC_API_KEY")))
    else Err("Unsupported API type: " + apiType)
  }

  /** The API type is case-insensitive. */
  lemma NewProcessorIgnoresCase(env: string -> Option<string>)
    ensures NewProcessor("OpenAI", env) == Ok(Processor(OpenAI, env("OPENAI_API_KEY")))
    ensures NewProcessor("ANTHROPIC", env) == Ok(Processor(Anthropic, env("ANTHROPIC_API_KEY")))
    ensures NewProcessor("gemini", env) == Err("Unsupported API type: gemini")
  {
    assert Lower("OpenAI") == "openai";
    assert Lower("ANTHROPIC") == "anthropic";
    assert Lower("gemini") == "gemini";
    assert "Unsupported API type: " + "gemini" == "Unsupported API type: gemini";
  }

  // ---------------------------------------------------------------- existing metadata

  const NoMetadata := "No existing metadata."

  /** Keys that never reach the prompt. */
  const Hidden: seq<string> := ["filename", "original_image", "coordinates"]

  /** Python's `str(value)`; floats, lists and dicts are rendered by `repr`. */
  function Show(v: Value, repr: Value -> string): string {
    match v
    case Null => "None"
    case Bool(b) => if b then "True" else "False"
    case Int(i) => Decimal(i)
    case Str(s) => s
    case _ => repr(v)
  }

  /** Whether a field is rendered: not a hidden key, and a truthy value. */
  predicate Shown(f: Field) {
    f.key !in Hidden && Truthy(f.val)
  }

  function Line(f: Field, repr: Value -> string): string {
    Capitalize(f.key) + ": " + Show(f.val, repr)
  }

  /** The rendered lines of the shown fields, in dict order. */
  function Lines(d: Dict, repr: Value -> string): (ls: seq<string>)
    ensures |ls| <= |d|
    ensures ls == [] <==> forall i :: 0 <= i < |d| ==> !Shown(d[i])
    ensures forall k :: 0 <= k < |ls| ==> ':' in ls[k]
  {
    if d == [] then []
    else
      var line := Line(d[0], repr);
      assert line[|Capitalize(d[0].key)|] == ':';
      (if Shown(d[0]) then [line] else []) + Lines(d[1..], repr)
  }

  /** `_format_metadata`: the lines joined by newlines, or the sentinel when none is shown. */
  function FormatMetadata(d: Dict, repr: Value -> string): string {
    var ls := Lines(d, repr);
    if ls == [] then NoMetadata else Join("\n", ls)
  }

  /** Rendering is field by field: the lines of two dicts laid end to end are the lines of each. */
  lemma {:induction false} LinesAppend(d1: Dict, d2: Dict, repr: Value -> string)
    ensures Lines(d1 + d2, repr) == Lines(d1, repr) + Lines(d2, repr)
  {
    if d1 == [] {
      assert d1 + d2 == d2;
    } else {
      assert (d1 + d2)[0] == d1[0];
      assert (d1 + d2)[1..] == d1[1..] + d2;
      LinesAppend(d1[1..], d2, repr);
    }
  }

  /** One field renders as its capitalised key, ': ' and its value, or not at all. */
  lemma LinesSingle(f: Field, repr: Value -> string)
    ensures Lines([f], repr) == if Shown(f) then [Capitalize(f.key) + ": " + Show(f.val, repr)] else []
  {
    assert [f][1..] == [];
  }

  /** The sentinel comes back exactly when no field is shown: a rendered line holds a ':' and the
      sentinel does not. */
  lemma FormatSentinel(d: Dict, repr: Value -> string)
    ensures FormatMetadata(d, repr) == NoMetadata <==> forall i :: 0 <= i < |d| ==> !Shown(d[i])
  {
    var ls := Lines(d, repr);
    if ls != [] {
      JoinStartsWithFirst("\n", ls);
      var colon :| 0 <= colon < |ls[0]| && ls[0][colon] == ':';
      assert Join("\n", ls)[colon] == ':';
      assert ':' !in NoMetadata;
    }
  }

  /** The metadata text of `analyze_question`: the sentinel for no metadata or an empty dict. */
  function MetadataString(existing: Option<Dict>, repr: Value -> string): (r: string)
    ensures existing.None? || existing.value == [] ==> r == NoMetadata
    ensures existing.Some? ==> r == FormatMetadata(existing.value, repr)
  {
    if existing.Some? && existing.value != [] then FormatMetadata(existing.value, repr) else NoMetadata
  }

  // ---------------------------------------------------------------- the prompt

  const Head := "\nYou are an expert in educational assessment. Analyze the following exam question and generate enhanced metadata for it.\n\nQUESTION TEXT:\n"
  const BeforeMetadata := "\n\nEXISTING METADATA:\n"
  const Instructions := "\n\nPlease generate the following additional metadata:\n1. Question type (multiple choice, short answer, calculation, essay, etc.)\n2. Difficulty level (easy, medium, hard)\n3. Keywords or key concepts (comma-separated)\n4. Cognitive skills required (recall, understanding, application, analysis, evaluation, creation)\n5. Detailed topic classification with subtopics\n6. A cleaned and properly formatted version of the question text\n\nReturn your analysis in the following JSON format:\n```json\n"
  const Closing := "\n```\n\nDo not include any other text in your response - only the JSON.\n"

  /* As written, the schema's braces are not doubled, so CPython reads lines 122-132 of the
     template as one replacement field: the expression "question_type" with a format spec that
     holds a nested field, the expression "main_topic" with a spec of its own. */
  const OuterSpecHead := " \"string\",\n  \"difficulty_level\": \"string\",\n  \"keywords\": [\"string\"],\n  \"cognitive_skills\": [\"string\"],\n  \"topic_classification\": "
  const NestedSpec := " \"string\",\n    \"subtopics\": [\"string\"]\n  "
  const OuterSpecTail := ",\n  \"cleaned_text\": \"string\"\n"

  /** The text of `_create_prompt`'s f-string, cut where the two inserted texts go and where
      CPython's reading of the schema's braces matters. */
  datatype PromptSource = PromptSource(
    head: string, beforeMetadata: string, instructions: string,
    outerSpecHead: string, nestedSpec: string, outerSpecTail: string,
    closing: string)

  const Source := PromptSource(Head, BeforeMetadata, Instructions, OuterSpecHead, NestedSpec, OuterSpecTail, Closing)

  /** The JSON schema shown to the model, read literally: braces around `"question_type":` and
      the text CPython takes for its spec, which holds braces around `"main_topic":` and the text
      CPython takes for the nested spec. */
  function Schema(src: PromptSource): string {
    "{\n  \"question_type\":" + src.outerSpecHead + "{\n    \"main_topic\":" + src.nestedSpec + "}" + src.outerSpecTail + "}"
  }

  /** The fixed parts of a prompt: the OCR text goes after `head`, the metadata after
      `beforeMetadata`, and `tail` closes the prompt. */
  datatype Template = Template(head: string, beforeMetadata: string, tail: string)

  /** A template with the two texts inserted: every piece lies where the template puts it. */
  function Render(t: Template, ocrText: string, metadata: string): (r: string)
    ensures |r| == |t.head| + |ocrText| + |t.beforeMetadata| + |metadata| + |t.tail|
    ensures r[..|t.head|] == t.head
    ensures r[|t.head|..|t.head| + |ocrText|] == ocrText
    ensures r[|t.head| + |ocrText|..|t.head| + |ocrText| + |t.beforeMetadata|] == t.beforeMetadata
    ensures r[|t.head| + |ocrText| + |t.beforeMetadata|..|t.head| + |ocrText| + |t.beforeMetadata| + |metadata|] == metadata
    ensures r[|t.head| + |ocrText| + |t.beforeMetadata| + |metadata|..] == t.tail
  {
    var r := t.head + ocrText + t.beforeMetadata + metadata + t.tail;
    assert r == t.head + (ocrText + (t.beforeMetadata + (metadata + t.tail)));
    r
  }

  /** The template as it is meant to read, braces doubled: the schema is literal text. */
  function Corrected(src: PromptSource): Template {
    Template(src.head, src.beforeMetadata, src.instructions + (Schema(src) + src.closing))
  }

  /** The corrected prompt: the OCR text right after the "QUESTION TEXT:" heading, the metadata
      right after the "EXISTING METADATA:" heading, then the instructions, the schema and the
      closing line. */
  function CreatePrompt(ocrText: string, metadata: string): string {
    Render(Corrected(Source), ocrText, metadata)
  }

  /** A text whose part from `k` on is `a + b` ends with `b`. */
  lemma SuffixOfTail(r: string, k: nat, a: string, b: string)
    requires k <= |r| && r[k..] == a + b
    ensures EndsWith(r, b)
  {
    assert r[|r| - |b|..] == r[k..][|a|..];
  }

  /** The corrected prompt begins with the head, holds the OCR text right after it, and ends with
      the schema, braces and all, and the closing line. */
  lemma CorrectedShowsSchema(src: PromptSource, ocrText: string, metadata: string)
    ensures var r := Render(Corrected(src), ocrText, metadata);
      && StartsWith(r, src.head)
      && r[|src.head|..|src.head| + |ocrText|] == ocrText
      && EndsWith(r, Schema(src) + src.closing)
  {
    var t := Corrected(src);
    var r := Render(t, ocrText, metadata);
    SuffixOfTail(r, |t.head| + |ocrText| + |t.beforeMetadata| + |metadata|, src.instructions, Schema(src) + src.closing);
  }

  /** The headings that introduce the two inserted texts. */
  lemma Headings()
    ensures EndsWith(Head, "QUESTION TEXT:\n")
    ensures EndsWith(BeforeMetadata, "EXISTING METADATA:\n")
  {
  }

  /** `_create_prompt` as written: the nested field is formatted first, then the outer one with
      the nested result spliced into its spec; a failed format raises. */
  function PromptAsWritten(src: PromptSource, ocrText: string, metadata: string): Result<string, string> {
    match FormatStr("main_topic", src.nestedSpec)
    case Err(e) => Err(e)
    case Ok(inner) =>
      match FormatStr("question_type", src.outerSpecHead + inner + src.outerSpecTail)
      case Err(e) => Err(e)
      case Ok(field) =>
        Ok(Render(Template(src.head, src.beforeMetadata, src.instructions + (field + src.closing)), ocrText, metadata))
  }

  /** As written, the template raises for every input: the nested spec opens with a space and a
      quote, so CPython rejects it as an invalid format specifier. */
  lemma PromptAsWrittenFails(src: PromptSource, ocrText: string, metadata: string)
    requires src.nestedSpec == NestedSpec
    ensures PromptAsWritten(src, ocrText, metadata) == Err("Invalid format specifier")
  {
    QuotedSpecRejected(NestedSpec, 's', '<');
  }

  // ---------------------------------------------------------------- the reply

  const Fence := "```"
  const JsonFence := "```json"

  predicate NoTick(s: string) {
    forall i :: 0 <= i < |s| ==> s[i] != '`'
  }

  /** The text handed to the JSON decoder: the stripped reply, or the stripped piece after the
      first "```json" up to the next "```", or else the piece between the first two "```". */
  function FenceContent(response: string): string {
    var t := Strip(response);
    if Contains(t, JsonFence) then
      SplitSecond(t, JsonFence, Find(t, JsonFence).value);
      Strip(Split(Split(t, JsonFence)[1], Fence)[0])
    else if Contains(t, Fence) then
      SplitSecond(t, Fence, Find(t, Fence).value);
      Strip(Split(Split(t, Fence)[1], Fence)[0])
    else t
  }

  /** The decoder never sees a fence. */
  lemma FenceContentHasNoFence(response: string)
    ensures !Contains(FenceContent(response), Fence)
  {
    var t := Strip(response);
    if Contains(t, JsonFence) {
      SplitSecond(t, JsonFence, Find(t, JsonFence).value);
      StripKeepsAbsence(Split(Split(t, JsonFence)[1], Fence)[0], Fence);
    } else if Contains(t, Fence) {
      SplitSecond(t, Fence, Find(t, Fence).value);
      StripKeepsAbsence(Split(Split(t, Fence)[1], Fence)[0], Fence);
    }
  }

  /** No occurrence of a fence-led pattern starts among the first `n` characters when none of
      them is a backtick. */
  lemma NoTickNoOccurrence(s: string, sub: string, n: nat)
    requires |sub| > 0 && sub[0] == '`' && n <= |s|
    requires forall i :: 0 <= i < n ==> s[i] != '`'
    ensures forall j :: 0 <= j < n ==> !OccursAt(s, sub, j)
  {
    forall j | 0 <= j < n ensures !OccursAt(s, sub, j) {
      assert j + |sub| <= |s| ==> s[j..j + |sub|][0] == s[j];
    }
  }

  lemma TickNotSpace()
    ensures !IsSpace('`')
  {
  }

  /** Grouping the middle three of five parts. */
  lemma Regroup(p1: string, p2: string, p3: string, p4: string, p5: string)
    ensures p1 + (p2 + p3 + p4) + p5 == p1 + p2 + p3 + p4 + p5
  {
  }

  /** The middle of three parts is where it was put. */
  lemma MiddleOfThree(a: string, b: string, c: string)
    ensures (a + b + c)[|a|..|a| + |b|] == b
    ensures (a + b + c)[|a| + |b|..] == c
    ensures forall i :: 0 <= i < |a| ==> (a + b + c)[i] == a[i]
  {
    assert (a + b + c)[|a|..|a| + |b|] == (a + b + c)[|a|..][..|b|];
  }

  /** A tick-free body followed by a fence reads as the body up to its first fence. */
  lemma BeforeFence(x: string, body: string)
    requires NoTick(body)
    requires x == body || (|body| + 3 <= |x| && x[..|body| + 3] == body + Fence)
    ensures Before(x, Fence) == body
  {
    if x == body {
      NoTickNoOccurrence(x, Fence, |x|);
    } else {
      assert x[..|body|] == body && x[|body|..|body| + 3] == Fence by {
        assert x[..|body|] == x[..|body| + 3][..|body|];
        assert x[|body|..|body| + 3] == x[..|body| + 3][|body|..];
      }
      NoTickNoOccurrence(x, Fence, |body|);
      FindIs(x, Fence, |body|);
    }
  }

  /** After a "```json", a tick-free body, a fence and a character other than a tick, the text up
      to the next "```json" is the body, or the body and then a fence. */
  lemma BeforeJsonFence(body: string, post: string)
    requires NoTick(body)
    requires post == [] || post[0] != '`'
    ensures var x := Before(body + Fence + post, JsonFence);
      x == body || (|body| + 3 <= |x| && x[..|body| + 3] == body + Fence)
  {
    var r := body + Fence + post;
    MiddleOfThree(body, Fence, post);
    NoTickNoOccurrence(r, JsonFence, |body|);
    match Find(r, JsonFence)
    case None =>
      assert r[..|body| + 3] == body + Fence;
    case Some(i) =>
      assert i >= |body|;
      assert i + 7 <= |r| ==> r[i..i + 7][2] == r[i + 2] && r[i..i + 7][1] == r[i + 1];
      assert post != [] ==> r[|body| + 3] == post[0];
      assert i == |body| || i >= |body| + 3;
      if i == |body| {
        assert r[..i] == body;
      } else {
        assert r[..i][..|body| + 3] == body + Fence;
      }
  }

  /** In a text whose first backtick opens a "```json" block holding a tick-free body, closed by
      a fence that no further tick follows, the piece after the first "```json" up to the next
      fence is the body. */
  lemma JsonBlockIn(pre: string, body: string, post: string)
    requires NoTick(pre) && NoTick(body)
    requires post == [] || post[0] != '`'
    ensures var t := pre + JsonFence + body + Fence + post;
      Contains(t, JsonFence) && Split(Split(t, JsonFence)[1], Fence)[0] == body
  {
    var rest := body + Fence + post;
    var t := pre + JsonFence + rest;
    assert t == pre + JsonFence + body + Fence + post;
    MiddleOfThree(pre, JsonFence, rest);
    NoTickNoOccurrence(t, JsonFence, |pre|);
    FindIs(t, JsonFence, |pre|);
    SplitSecond(t, JsonFence, |pre|);
    BeforeJsonFence(body, post);
    var x := Before(rest, JsonFence);
    SplitHead(x, Fence);
    BeforeFence(x, body);
  }

  /** The same for a plain fence: the piece between the first two fences is the body. */
  lemma PlainBlockIn(pre: string, body: string, post: string)
    requires NoTick(pre) && NoTick(body)
    ensures var t := pre + Fence + body + Fence + post;
      Contains(t, Fence) && Split(Split(t, Fence)[1], Fence)[0] == body
  {
    var rest := body + Fence + post;
    var t := pre + Fence + rest;
    assert t == pre + Fence + body + Fence + post;
    MiddleOfThree(pre, Fence, rest);
    NoTickNoOccurrence(t, Fence, |pre|);
    FindIs(t, Fence, |pre|);
    SplitSecond(t, Fence, |pre|);
    MiddleOfThree(body, Fence, post);
    assert rest[..|body| + 3] == body + Fence;
    BeforeFence(rest, body);
    NoTickNoOccurrence(body, Fence, |body|);
    SplitHead(body, Fence);
  }

  /** Stripping a text whose middle part starts and ends with a backtick, after a tick-free
      prefix, keeps the middle whole and trims only the outer parts. */
  lemma StripFramed(pre: string, mid: string, post: string) returns (a: nat, c: nat)
    requires NoTick(pre) && |mid| >= 1 && mid[0] == '`' && mid[|mid| - 1] == '`'
    ensures a <= |pre| && c <= |post|
    ensures Strip(pre + mid + post) == pre[a..] + mid + post[..c]
  {
    var s := pre + mid + post;
    var n := |pre| + |mid|;
    assert s[|pre|] == mid[0] && s[n - 1] == mid[|mid| - 1];
    TickNotSpace();
    var b;
    a, b := StripBounds(s, |pre|, n - 1);
    c := b - n;
    SliceOfThree(pre, mid, post, a, b);
  }

  /** A reply with one "```json" block whose body has no backtick yields the stripped body,
      whatever surrounds the block. */
  lemma JsonFenceRoundTrip(pre: string, body: string, post: string)
    requires NoTick(pre) && NoTick(body)
    requires post == [] || post[0] != '`'
    ensures FenceContent(pre + JsonFence + body + Fence + post) == Strip(body)
  {
    var mid := JsonFence + body + Fence;
    Regroup(pre, JsonFence, body, Fence, post);
    var a, c := StripFramed(pre, mid, post);
    var pre', post' := pre[a..], post[..c];
    Regroup(pre', JsonFence, body, Fence, post');
    assert post' != [] ==> post'[0] == post[0];
    JsonBlockIn(pre', body, post');
  }

  /** A reply with a plain fenced block and no "```json" anywhere yields the stripped body. */
  lemma PlainFenceRoundTrip(pre: string, body: string, post: string)
    requires NoTick(pre) && NoTick(body)
    requires !Contains(pre + Fence + body + Fence + post, JsonFence)
    ensures FenceContent(pre + Fence + body + Fence + post) == Strip(body)
  {
    var s := pre + Fence + body + Fence + post;
    var mid := Fence + body + Fence;
    Regroup(pre, Fence, body, Fence, post);
    var a, c := StripFramed(pre, mid, post);
    var pre', post' := pre[a..], post[..c];
    Regroup(pre', Fence, body, Fence, post');
    StripKeepsAbsence(s, JsonFence);
    PlainBlockIn(pre', body, post');
  }

  /** A dict holding only an error message. */
  function ErrorDict(message: string): Value {
    Obj([Field("error", Str(message))])
  }

  /** `_parse_response`: decode the fenced content; a decode failure becomes an error dict that
      keeps the reply as it came, unstripped. */
  function ParseResponse(response: string, decode: string -> Result<Value, string>): Value {
    match decode(FenceContent(response))
    case Ok(v) => v
    case Err(msg) =>
      Obj([Field("error", Str("Failed to parse LLM response: " + msg)), Field("raw_response", Str(response))])
  }

  /** A failed decode never raises: the result is a dict carrying the error and the raw reply. */
  lemma ParseFailureKeepsReply(response: string, decode: string -> Result<Value, string>)
    requires decode(FenceContent(response)).Err?
    ensures var r := ParseResponse(response, decode);
      r.Obj? && Get(r.fields, "raw_response") == Some(Str(response))
      && Get(r.fields, "error") == Some(Str("Failed to parse LLM response: " + decode(FenceContent(response)).error))
  {
    var r := ParseResponse(response, decode);
    var first, second := r.fields[0], r.fields[1];
    assert r.fields == [first] + [second];
    assert |"error"| != |"raw_response"|;
    GetCons(first, [second], "raw_response");
    GetCons(second, [], "raw_response");
    GetCons(first, [second], "error");
  }

  /** A reply whose one "```json" block decodes yields exactly the decoded body. */
  lemma ParseJsonBlock(pre: string, body: string, post: string, decode: string -> Result<Value, string>)
    requires NoTick(pre) && NoTick(body) && (post == [] || post[0] != '`')
    requires decode(Strip(body)).Ok?
    ensures ParseResponse(pre + JsonFence + body + Fence + post, decode) == decode(Strip(body)).value
  {
    JsonFenceRoundTrip(pre, body, post);
  }

  // ---------------------------------------------------------------- analysis

  const NoText := "No OCR text provided for analysis"

  /** What a call returns, or the message of an exception that escapes it. */
  datatype Outcome = Returned(value: Value) | Raised(message: string)

  /** How the prompt is built: from the f-string as CPython reads it, or with its braces doubled. */
  datatype Builder = AsWritten(src: PromptSource) | Fixed(src: PromptSource)

  function BuildPrompt(b: Builder, ocrText: string, metadata: string): Result<string, string> {
    match b
    case AsWritten(src) => PromptAsWritten(src, ocrText, metadata)
    case Fixed(src) => Ok(Render(Corrected(src), ocrText, metadata))
  }

  /** `analyze_question`, given the prompt builder, the provider call (an `Err` is an exception
      from the HTTP layer), the JSON decoder and the renderer for non-scalar values. Building the
      prompt happens before the `try`, so its failure escapes; a failed call is caught. */
  function Analyze(
    p: Processor, ocrText: string, existing: Option<Dict>, b: Builder,
    call: (Provider, string) -> Result<string, string>,
    decode: string -> Result<Value, string>,
    repr: Value -> string): Outcome
  {
    if ocrText == [] then Returned(ErrorDict(NoText))
    else
      match BuildPrompt(b, ocrText, MetadataString(existing, repr))
      case Err(e) => Raised(e)
      case Ok(text) =>
        match call(p.provider, text)
        case Err(e) => Returned(ErrorDict("LLM analysis failed: " + e))
        case Ok(reply) => Returned(ParseResponse(reply, decode))
  }

  /** `analyze_question` as written, with the f-string of lines 103-136. */
  function AnalyzeQuestionAsWritten(
    p: Processor, ocrText: string, existing: Option<Dict>,
    call: (Provider, string) -> Result<string, string>,
    decode: string -> Result<Value, string>,
    repr: Value -> string): Outcome
  {
    Analyze(p, ocrText, existing, AsWritten(Source), call, decode, repr)
  }

  /** `analyze_question` with the corrected prompt. */
  function AnalyzeQuestion(
    p: Processor, ocrText: string, existing: Option<Dict>,
    call: (Provider, string) -> Result<string, string>,
    decode: string -> Result<Value, string>,
    repr: Value -> string): Outcome
  {
    Analyze(p, ocrText, existing, Fixed(Source), call, decode, repr)
  }

  /** Empty text is refused before anything else, whatever the prompt, the provider and the
      decoder would do. */
  lemma EmptyTextRefused(
    p: Processor, existing: Option<Dict>, b: Builder,
    call: (Provider, string) -> Result<string, string>,
    decode: string -> Result<Value, string>,
    repr: Value -> string)
    ensures Analyze(p, "", existing, b, call, decode, repr) == Returned(Obj([Field("error", Str(NoText))]))
  {
  }

  /** As written, every non-empty text makes `analyze_question` raise, before any provider call. */
  lemma AnalyzeAsWrittenRaises(
    src: PromptSource, p: Processor, ocrText: string, existing: Option<Dict>,
    call: (Provider, string) -> Result<string, string>,
    decode: string -> Result<Value, string>,
    repr: Value -> string)
    requires src.nestedSpec == NestedSpec
    requires ocrText != []
    ensures Analyze(p, ocrText, existing, AsWritten(src), call, decode, repr) == Raised("Invalid format specifier")
  {
    PromptAsWrittenFails(src, ocrText, MetadataString(existing, repr));
  }

  /** With the corrected prompt nothing escapes: a failed provider call comes back as an
      "LLM analysis failed" error dict, and otherwise the parsed reply comes back. */
  lemma AnalyzeQuestionNeverRaises(
    src: PromptSource, p: Processor, ocrText: string, existing: Option<Dict>,
    call: (Provider, string) -> Result<string, string>,
    decode: string -> Result<Value, string>,
    repr: Value -> string)
    requires ocrText != []
    ensures var text := Render(Corrected(src), ocrText, MetadataString(existing, repr));
      Analyze(p, ocrText, existing, Fixed(src), call, decode, repr) ==
        match call(p.provider, text)
        case Err(e) => Returned(Obj([Field("error", Str("LLM analysis failed: " + e))]))
        case Ok(reply) => Returned(ParseResponse(reply, decode))
  {
  }

  /** The source's own `analyze_question` raises for every non-empty text. */
  lemma AnalyzeQuestionAsWrittenRaises(
    p: Processor, ocrText: string, existing: Option<Dict>,
    call: (Provider, string) -> Result<string, string>,
    decode: string -> Result<Value, string>,
    repr: Value -> string)
    requires ocrText != []
    ensures AnalyzeQuestionAsWritten(p, ocrText, existing, call, decode, repr) == Raised("Invalid format specifier")
  {
    AnalyzeAsWrittenRaises(Source, p, ocrText, existing, call, decode, repr);
  }
}
