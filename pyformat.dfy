/**
 * Python's format-specification mini-language as CPython applies it to `str`
 * values: `format(value, spec)`, and every `{expression:spec}` field of an
 * f-string. The spec is parsed left to right (fill and alignment, sign, `z`,
 * `#`, `0`, width, grouping, precision) and at most one character may remain,
 * the presentation type; anything longer is rejected.
 */
module PyFormat {
  import opened Wrappers

  /** A parsed format spec, with the defaults of the formatted type filled in. */
  datatype FormatSpec = FormatSpec(
    fill: char,
    align: char,
    sign: Option<char>,
    noNegZero: bool,
    alternate: bool,
    width: Option<nat>,
    grouping: Option<char>,
    precision: Option<nat>,
    kind: char)

  predicate IsAlign(c: char) {
    c == '<' || c == '>' || c == '=' || c == '^'
  }

  predicate IsSign(c: char) {
    c == '+' || c == '-' || c == ' '
  }

  predicate IsDigit(c: char) {
    '0' <= c <= '9'
  }

  /** The number of digits in `s` from index `p` on. */
  function DigitRun(s: string, p: nat): (n: nat)
    requires p <= |s|
    ensures p + n <= |s|
    ensures forall i :: p <= i < p + n ==> IsDigit(s[i])
    ensures p + n == |s| || !IsDigit(s[p + n])
    decreases |s| - p
  {
    if p < |s| && IsDigit(s[p]) then 1 + DigitRun(s, p + 1) else 0
  }

  /** The value of a run of decimal digits. */
  function DigitsValue(ds: string): nat
    requires forall i :: 0 <= i < |ds| ==> IsDigit(ds[i])
  {
    if ds == [] then 0
    else
      var last := ds[|ds| - 1];
      assert IsDigit(last);
      DigitsValue(ds[..|ds| - 1]) * 10 + (last as int - '0' as int)
  }

  /** Whether a grouping character may be combined with a presentation type. */
  predicate GroupingAllowed(grouping: char, kind: char) {
    kind in "defgEG%F" || (grouping == '_' && kind in "boxX")
  }

  /** What precedes the width: an optional fill with an alignment, a sign, `z`, `#` and `0`,
      each consumed when present, and the index after them. */
  datatype Flags = Flags(
    fill: Option<char>, align: Option<char>, sign: Option<char>,
    noNegZero: bool, alternate: bool, zeroPad: bool, next: nat)

  function ParseFlags(spec: string): (f: Flags)
    ensures f.next <= |spec|
  {
    var n := |spec|;
    var p0 := if n >= 2 && IsAlign(spec[1]) then 2 else if n >= 1 && IsAlign(spec[0]) then 1 else 0;
    var sign := if p0 < n && IsSign(spec[p0]) then Some(spec[p0]) else None;
    var p1 := if sign.Some? then p0 + 1 else p0;
    var noNegZero := p1 < n && spec[p1] == 'z';
    var p2 := if noNegZero then p1 + 1 else p1;
    var alternate := p2 < n && spec[p2] == '#';
    var p3 := if alternate then p2 + 1 else p2;
    var zeroPad := p0 != 2 && p3 < n && spec[p3] == '0';
    Flags(
      if p0 == 2 then Some(spec[0]) else None,
      if p0 == 0 then None else Some(spec[p0 - 1]),
      sign, noNegZero, alternate, zeroPad,
      if zeroPad then p3 + 1 else p3)
  }

  /** The grouping characters after the width: `Err` for a comma and an underscore together,
      otherwise the grouping and the index after it. */
  function ParseGrouping(spec: string, p: nat): (r: Result<(Option<char>, nat), string>)
    requires p <= |spec|
    ensures r.Ok? ==> p <= r.value.1 <= |spec|
  {
    var n := |spec|;
    var comma := p < n && spec[p] == ',';
    var p1 := if comma then p + 1 else p;
    var underscore := p1 < n && spec[p1] == '_';
    var p2 := if underscore then p1 + 1 else p1;
    if (comma && underscore) || (underscore && p2 < n && spec[p2] == ',') then
      Err("Cannot specify both ',' and '_'.")
    else
      Ok((if comma then Some(',') else if underscore then Some('_') else None, p2))
  }

  /** CPython's parse of a format spec for a type whose default presentation type is
      `defaultKind` and whose default alignment is `defaultAlign`. */
  function ParseSpec(spec: string, defaultKind: char, defaultAlign: char): (r: Result<FormatSpec, string>)
  {
    var flags := ParseFlags(spec);
    var p := flags.next;
    var w := DigitRun(spec, p);
    var width := if w == 0 then None else Some(DigitsValue(spec[p..p + w]));
    match ParseGrouping(spec, p + w)
    case Err(e) => Err(e)
    case Ok((grouping, q)) =>
      var dot := q < |spec| && spec[q] == '.';
      var pr := if dot then DigitRun(spec, q + 1) else 0;
      if dot && pr == 0 then
        Err("Format specifier missing precision")
      else
        var end := if dot then q + 1 + pr else q;
        if |spec| - end > 1 then
          Err("Invalid format specifier")
        else
          var kind := if end < |spec| then spec[end] else defaultKind;
          if grouping.Some? && !GroupingAllowed(grouping.value, kind) then
            Err("Cannot specify '" + [grouping.value] + "' with '" + [kind] + "'.")
          else
            Ok(FormatSpec(
              if flags.fill.Some? then flags.fill.value else if flags.zeroPad then '0' else ' ',
              if flags.align.Some? then flags.align.value
              else if flags.zeroPad && defaultAlign == '>' then '=' else defaultAlign,
              flags.sign,
              flags.noNegZero,
              flags.alternate,
              width,
              grouping,
              if dot then Some(DigitsValue(spec[q + 1..end])) else None,
              kind))
  }

  function Repeat(c: char, n: nat): (r: string)
    ensures |r| == n && forall i :: 0 <= i < n ==> r[i] == c
  {
    seq(n, _ => c)
  }

  /** How many fill characters `Pad` puts before a string of length `n`. */
  function PadLeft(n: nat, align: char, width: Option<nat>): nat {
    var total := if width.Some? && width.value > n then width.value - n else 0;
    if align == '<' then 0 else if align == '>' then total else total / 2
  }

  /** `s` padded with `fill` to `width`, placed by `align` ('<' left, '>' right, otherwise centred,
      the extra character going to the right). */
  function Pad(s: string, fill: char, align: char, width: Option<nat>): (r: string)
    ensures |r| == if width.Some? && width.value > |s| then width.value else |s|
    ensures var left := PadLeft(|s|, align, width);
      left + |s| <= |r| && r[left..left + |s|] == s
      && forall i :: 0 <= i < |r| && !(left <= i < left + |s|) ==> r[i] == fill
  {
    var total := if width.Some? && width.value > |s| then width.value - |s| else 0;
    var left := PadLeft(|s|, align, width);
    var r := Repeat(fill, left) + s + Repeat(fill, total - left);
    assert r[left..left + |s|] == s;
    r
  }

  /** `format(value, spec)` for a `str` value. */
  function FormatStr(value: string, spec: string): (r: Result<string, string>)
    ensures r.Ok? ==> ParseSpec(spec, 's', '<').Ok?
    ensures r.Ok? && spec == "" ==> r.value == value
  {
    match ParseSpec(spec, 's', '<')
    case Err(e) => Err(e)
    case Ok(f) =>
      if f.kind != 's' then Err("Unknown format code '" + [f.kind] + "' for object of type 'str'")
      else if f.sign.Some? then Err("Sign not allowed in string format specifier")
      else if f.noNegZero then Err("Negative zero coercion (z) not allowed in format specifier")
      else if f.alternate then Err("Alternate form (#) not allowed in string format specifier")
      else if f.align == '=' then Err("'=' alignment not allowed in string format specifier")
      else
        var shown := if f.precision.Some? && f.precision.value < |value| then value[..f.precision.value] else value;
        Ok(Pad(shown, f.fill, f.align, f.width))
  }

  /** A field without a spec formats a string as itself. */
  lemma FormatEmptySpec(value: string)
    ensures FormatStr(value, "") == Ok(value)
  {
  }

  /** A spec that opens with a space and then a double quote is rejected whenever it is longer
      than two characters: the space is read as the sign, nothing after it is a flag, width,
      grouping or precision, and more than one character is left over for the type. */
  lemma QuotedSpecRejected(spec: string, defaultKind: char, defaultAlign: char)
    requires |spec| >= 3 && spec[0] == ' ' && spec[1] == '"'
    ensures ParseSpec(spec, defaultKind, defaultAlign) == Err("Invalid format specifier")
  {
    assert ParseFlags(spec).next == 1;
    assert DigitRun(spec, 1) == 0;
    assert ParseGrouping(spec, 1) == Ok((None, 1));
  }
}
