/**
  Marker injection into generated source files: above every field line with validation tags the
  corresponding marker comments are written, replacing those of an earlier run. Reading the tags of a
  line is left open; what is written for them, and where, is not.
 */
module Markers {
  import opened Prelude
  import opened References

  const VALIDATION := "// +kubebuilder:validation:"
  const DEFAULT := "// +kubebuilder:default"

  datatype CelRule = CelRule(rule: string, message: string, optionalOldSelf: bool)

  datatype Marker = Marker(name: string, value: string)

  /** How the tags of a line are read, and which texts are numbers. */
  datatype Reader = Reader(
    celRules: string -> seq<CelRule>,
    validations: string -> seq<Marker>,
    defaultValue: string -> Option<string>,
    isNumber: string -> bool)

  // ---------- text ----------

  predicate Space(c: char) {
    c == ' ' || c == '\t' || c == '\r' || c == '\n' || c == '\U{000B}' || c == '\U{000C}'
  }

  function TrimLeft(s: string): string {
    if s != "" && Space(s[0]) then TrimLeft(s[1..]) else s
  }

  function TrimRight(s: string): string {
    if s != "" && Space(s[|s| - 1]) then TrimRight(s[..|s| - 1]) else s
  }

  function TrimSpace(s: string): string {
    TrimRight(TrimLeft(s))
  }

  function LeadingWhitespace(s: string): string {
    if s != "" && (s[0] == ' ' || s[0] == '\t') then [s[0]] + LeadingWhitespace(s[1..]) else ""
  }

  predicate Contains(s: string, part: string) {
    IndexOf(s, part) >= 0
  }

  function Replaced(s: string, from: char, to: char): string {
    seq(|s|, i requires 0 <= i < |s| => if s[i] == from then to else s[i])
  }

  // ---------- markers ----------

  /** A line that a run of the tool may have written. */
  predicate IsMarker(line: string) {
    VALIDATION <= TrimSpace(line) || DEFAULT <= TrimSpace(line)
  }

  function FormatDefault(x: Reader, value: string): string {
    if value == "true" || value == "false" || x.isNumber(value) then DEFAULT + "=" + value
    else if "[" <= value || "{" <= value then DEFAULT + "=" + Replaced(value, '\'', '"')
    else DEFAULT + "=" + "\"" + value + "\""
  }

  function FormatMarker(m: Marker): string {
    if m.name == "Pattern" then VALIDATION + m.name + "=`" + m.value + "`"
    else VALIDATION + m.name + "=" + m.value
  }

  function FormatCel(r: CelRule): string {
    VALIDATION + "XValidation:rule=\"" + r.rule + "\""
      + (if r.message != "" then ",message=\"" + r.message + "\"" else "")
      + (if r.optionalOldSelf then ",optionalOldSelf=true" else "")
  }

  predicate Names(ms: seq<Marker>, name: string) {
    exists i :: 0 <= i < |ms| && ms[i].name == name
  }

  function TypeMarkers(ms: seq<Marker>): seq<Marker> {
    (if (Names(ms, "MaxLength") || Names(ms, "MinLength")) && !Names(ms, "Type")
     then [Marker("Type", "string")] else [])
    + (if (Names(ms, "items:MaxLength") || Names(ms, "items:MinLength")) && !Names(ms, "items:Type")
       then [Marker("items:Type", "string")] else [])
  }

  function Formatted(ms: seq<Marker>): seq<string> {
    seq(|ms|, i requires 0 <= i < |ms| => FormatMarker(ms[i]))
  }

  function FormattedCel(rs: seq<CelRule>): seq<string> {
    seq(|rs|, i requires 0 <= i < |rs| => FormatCel(rs[i]))
  }

  function Indented(indent: string, texts: seq<string>): seq<string> {
    seq(|texts|, i requires 0 <= i < |texts| => indent + texts[i])
  }

  function Texts(x: Reader, line: string): seq<string> {
    var d, ms := x.defaultValue(line), x.validations(line);
    (if d.Some? then [FormatDefault(x, d.value)] else [])
      + Formatted(TypeMarkers(ms)) + Formatted(ms) + FormattedCel(x.celRules(line))
  }

  /** The lines that belong above a tagged line. */
  function Emitted(x: Reader, line: string): seq<string> {
    Indented(LeadingWhitespace(line), Texts(x, line))
  }

  predicate Mentions(line: string) {
    Contains(line, "x-cel-rule-") || Contains(line, "x-kubebuilder-validation-") ||
        Contains(line, "x-kubebuilder-default")
  }

  predicate Tagged(x: Reader, line: string) {
    Mentions(line) && (x.celRules(line) != [] || x.validations(line) != [] || x.defaultValue(line).Some?)
  }

  // ---------- the line transformer ----------

  /** Without the markers at its end. */
  function Strip(out: seq<string>): (r: seq<string>)
    ensures r <= out
    ensures r == [] || !IsMarker(r[|r| - 1])
    ensures forall i :: |r| <= i < |out| ==> IsMarker(out[i])
  {
    if out != [] && IsMarker(out[|out| - 1]) then Strip(out[..|out| - 1]) else out
  }

  function Step(x: Reader, out: seq<string>, line: string): seq<string> {
    if Tagged(x, line) then Strip(out) + Emitted(x, line) + [line] else out + [line]
  }

  function Run(x: Reader, out: seq<string>, lines: seq<string>): seq<string> {
    if lines == [] then out
    else Step(x, Run(x, out, lines[..|lines| - 1]), lines[|lines| - 1])
  }

  function Process(x: Reader, lines: seq<string>): seq<string> {
    Run(x, [], lines)
  }

  function Injected(x: Reader, lines: seq<string>): nat {
    if lines == [] then 0
    else
      var line := lines[|lines| - 1];
      Injected(x, lines[..|lines| - 1]) + if Tagged(x, line) then |Emitted(x, line)| else 0
  }

  method RemovePriorMarkers(lines: seq<string>) returns (out: seq<string>)
    ensures out == Strip(lines)
  {
    out := lines;
    while |out| > 0
      invariant Strip(out) == Strip(lines)
    {
      if !IsMarker(out[|out| - 1]) {
        break;
      }
      out := out[..|out| - 1];
    }
  }

  method ProcessLines(x: Reader, lines: seq<string>) returns (out: seq<string>, injected: nat)
    ensures out == Process(x, lines)
    ensures injected == Injected(x, lines)
    ensures injected == 0 ==> out == lines
  {
    out, injected := [], 0;
    for i := 0 to |lines|
      invariant out == Process(x, lines[..i])
      invariant injected == Injected(x, lines[..i])
      invariant injected == 0 ==> out == lines[..i]
    {
      var line := lines[i];
      assert lines[..i + 1][..i] == lines[..i];
      if TrimSpace(line) == "" && i + 1 < |lines| && IsMarker(lines[i + 1]) {
        BlankHasNoTags(line);
        out := out + [line];
        continue;
      }
      if !Mentions(line) {
        out := out + [line];
        continue;
      }
      if x.celRules(line) == [] && x.validations(line) == [] && x.defaultValue(line).None? {
        out := out + [line];
        continue;
      }
      out := RemovePriorMarkers(out);
      var above := MarkerLines(x, line);
      out := out + above + [line];
      injected := injected + |above|;
    }
    assert lines[..|lines|] == lines;
  }

  /** Type markers: there is a length to check, and the type is not given anyway. */
  method NeededTypes(ms: seq<Marker>) returns (types: seq<Marker>)
    ensures types == TypeMarkers(ms)
  {
    hide Names;
    var needTypeString, needItemsTypeString := false, false;
    NoNames(ms);
    for i := 0 to |ms|
      invariant needTypeString <==> Names(ms[..i], "MaxLength") || Names(ms[..i], "MinLength")
      invariant needItemsTypeString <==> Names(ms[..i], "items:MaxLength") || Names(ms[..i], "items:MinLength")
    {
      NamesGrow(ms, i, "MaxLength");
      NamesGrow(ms, i, "MinLength");
      NamesGrow(ms, i, "items:MaxLength");
      NamesGrow(ms, i, "items:MinLength");
      if ms[i].name == "MaxLength" || ms[i].name == "MinLength" {
        needTypeString := true;
      }
      if ms[i].name == "items:MaxLength" || ms[i].name == "items:MinLength" {
        needItemsTypeString := true;
      }
    }
    assert ms[..|ms|] == ms;
    ghost var lengths, itemLengths := needTypeString, needItemsTypeString;
    for i := 0 to |ms|
      invariant needTypeString <==> lengths && !Names(ms[..i], "Type")
      invariant needItemsTypeString <==> itemLengths && !Names(ms[..i], "items:Type")
    {
      NamesGrow(ms, i, "Type");
      NamesGrow(ms, i, "items:Type");
      if ms[i].name == "Type" {
        needTypeString := false;
      }
      if ms[i].name == "items:Type" {
        needItemsTypeString := false;
      }
    }
    assert ms[..|ms|] == ms;
    types := if needTypeString then [Marker("Type", "string")] else [];
    if needItemsTypeString {
      types := types + [Marker("items:Type", "string")];
    }
  }

  lemma NoNames(ms: seq<Marker>)
    ensures forall name :: !Names(ms[..0], name)
  {
  }

  method AddMarkers(before: seq<string>, indent: string, ms: seq<Marker>) returns (above: seq<string>)
    ensures above == before + Indented(indent, Formatted(ms))
  {
    hide FormatMarker;
    above := before;
    for i := 0 to |ms|
      invariant above == before + Indented(indent, Formatted(ms[..i]))
    {
      above := above + [indent + FormatMarker(ms[i])];
    }
    assert ms[..|ms|] == ms;
  }

  method AddCel(before: seq<string>, indent: string, rs: seq<CelRule>) returns (above: seq<string>)
    ensures above == before + Indented(indent, FormattedCel(rs))
  {
    hide FormatCel;
    above := before;
    for i := 0 to |rs|
      invariant above == before + Indented(indent, FormattedCel(rs[..i]))
    {
      above := above + [indent + FormatCel(rs[i])];
    }
    assert rs[..|rs|] == rs;
  }

  lemma IndentedAppend(indent: string, a: seq<string>, b: seq<string>)
    ensures Indented(indent, a + b) == Indented(indent, a) + Indented(indent, b)
  {
  }

  method MarkerLines(x: Reader, line: string) returns (above: seq<string>)
    ensures above == Emitted(x, line)
    ensures Tagged(x, line) ==> above != []
  {
    hide FormatMarker, FormatDefault, Names, Formatted, FormattedCel, LeadingWhitespace, Mentions;
    var indent := LeadingWhitespace(line);
    var d, ms, rs := x.defaultValue(line), x.validations(line), x.celRules(line);
    var first := if d.Some? then [FormatDefault(x, d.value)] else [];
    above := if d.Some? then [indent + FormatDefault(x, d.value)] else [];
    assert above == Indented(indent, first);
    var types := NeededTypes(ms);
    above := AddMarkers(above, indent, types);
    above := AddMarkers(above, indent, ms);
    above := AddCel(above, indent, rs);
    IndentedAppend(indent, first, Formatted(types));
    IndentedAppend(indent, first + Formatted(types), Formatted(ms));
    IndentedAppend(indent, first + Formatted(types) + Formatted(ms), FormattedCel(rs));
    if Tagged(x, line) {
      TaggedMeansMarkers(x, line);
    }
  }

  lemma TaggedMeansMarkers(x: Reader, line: string)
    requires Tagged(x, line)
    ensures Emitted(x, line) != []
  {
    hide FormatMarker, FormatDefault, FormatCel, TypeMarkers;
    var d, ms := x.defaultValue(line), x.validations(line);
    assert |Texts(x, line)| >= |ms| + |x.celRules(line)| + if d.Some? then 1 else 0;
  }

  /** Something is injected exactly if a line is tagged. */
  lemma {:induction false} InjectedIff(x: Reader, lines: seq<string>)
    ensures Injected(x, lines) > 0 <==> exists line :: line in lines && Tagged(x, line)
  {
    hide Emitted, Tagged;
    if lines != [] {
      var front, last := lines[..|lines| - 1], lines[|lines| - 1];
      assert lines == front + [last];
      InjectedIff(x, front);
      if Tagged(x, last) {
        TaggedMeansMarkers(x, last);
      }
    }
  }

  lemma NamesGrow(ms: seq<Marker>, i: nat, name: string)
    requires i < |ms|
    ensures Names(ms[..i + 1], name) <==> Names(ms[..i], name) || ms[i].name == name
  {
    if Names(ms[..i], name) {
      var j :| 0 <= j < i && ms[..i][j].name == name;
      assert ms[..i + 1][j].name == name;
    }
    assert ms[..i + 1][i] == ms[i];
  }

  // ---------- blank lines ----------

  lemma {:induction false} OnlySpacesLeft(s: string)
    ensures TrimLeft(s) == "" ==> forall i :: 0 <= i < |s| ==> Space(s[i])
  {
    if s != "" && Space(s[0]) {
      OnlySpacesLeft(s[1..]);
      assert forall i :: 0 < i < |s| ==> s[i] == s[1..][i - 1];
    }
  }

  lemma {:induction false} RightTrimKeeps(s: string, prefix: string)
    requires prefix <= s && prefix != "" && !Space(prefix[|prefix| - 1])
    ensures prefix <= TrimRight(s)
  {
    if Space(s[|s| - 1]) {
      assert |prefix| < |s|;
      RightTrimKeeps(s[..|s| - 1], prefix);
    }
  }

  lemma {:induction false} LeftTrimStops(s: string)
    ensures TrimLeft(s) != "" ==> !Space(TrimLeft(s)[0])
  {
    if s != "" && Space(s[0]) {
      LeftTrimStops(s[1..]);
    }
  }

  lemma BlankHasNoTags(line: string)
    requires TrimSpace(line) == ""
    ensures !Mentions(line)
  {
    LeftTrimStops(line);
    if TrimLeft(line) != "" {
      RightTrimKeeps(TrimLeft(line), [TrimLeft(line)[0]]);
    }
    OnlySpacesLeft(line);
    NoTextInSpaces(line, "x-cel-rule-");
    NoTextInSpaces(line, "x-kubebuilder-validation-");
    NoTextInSpaces(line, "x-kubebuilder-default");
  }

  lemma NoTextInSpaces(line: string, part: string)
    requires forall i :: 0 <= i < |line| ==> Space(line[i])
    requires part != "" && part[0] == 'x'
    ensures !Contains(line, part)
  {
    StartsWhereFound(line, part);
  }

  lemma StartsWhereFound(line: string, part: string)
    requires part != ""
    ensures Contains(line, part) ==> part[0] == line[IndexOf(line, part)]
  {
    var i := IndexOf(line, part);
    if i >= 0 {
      assert line[i..i + |part|][0] == line[i];
    }
  }

  // ---------- lines without tags ----------

  /** The text stands somewhere in the line. */
  ghost predicate Has(line: string, part: string) {
    exists i :: 0 <= i <= |line| && part <= line[i..]
  }

  lemma {:induction false} ContainsIff(line: string, part: string)
    ensures Contains(line, part) <==> Has(line, part)
  {
    if part <= line {
      assert line[0..] == line;
    } else if line != "" {
      ContainsIff(line[1..], part);
      if Has(line, part) {
        var i :| 0 <= i <= |line| && part <= line[i..];
        assert i > 0 && line[1..][i - 1..] == line[i..];
      }
      if Has(line[1..], part) {
        var i :| 0 <= i <= |line[1..]| && part <= line[1..][i..];
        assert line[1..][i..] == line[i + 1..];
      }
    }
  }

  /** Tags are found only where their key stands. */
  ghost predicate ReadsKeys(x: Reader) {
    forall line ::
      && (x.celRules(line) != [] ==> Has(line, "x-cel-rule-"))
      && (x.validations(line) != [] ==> Has(line, "x-kubebuilder-validation-"))
      && (x.defaultValue(line).Some? ==> Has(line, "x-kubebuilder-default"))
  }

  /** The first look at a line, for the keys only, passes over no tag. */
  lemma TaggedIffRead(x: Reader, line: string)
    requires ReadsKeys(x)
    ensures Tagged(x, line) <==> x.celRules(line) != [] || x.validations(line) != [] || x.defaultValue(line).Some?
  {
    hide Has;
    ContainsIff(line, "x-cel-rule-");
    ContainsIff(line, "x-kubebuilder-validation-");
    ContainsIff(line, "x-kubebuilder-default");
  }

  // ---------- what is written is recognised ----------

  lemma {:induction false} IndentIsTrimmed(line: string, text: string)
    requires text != "" && text[0] == '/'
    ensures TrimLeft(LeadingWhitespace(line) + text) == text
  {
    var indent := LeadingWhitespace(line);
    if indent == "" {
      assert indent + text == text;
    } else {
      assert indent == [line[0]] + LeadingWhitespace(line[1..]);
      assert (indent + text)[1..] == LeadingWhitespace(line[1..]) + text;
      IndentIsTrimmed(line[1..], text);
    }
  }

  lemma FormatsAreMarkers(x: Reader)
    ensures forall value :: DEFAULT <= FormatDefault(x, value)
    ensures forall m :: VALIDATION <= FormatMarker(m)
    ensures forall r :: VALIDATION <= FormatCel(r)
  {
    hide Replaced;
  }

  lemma TextsAreMarkers(x: Reader, line: string)
    ensures forall i :: 0 <= i < |Texts(x, line)| ==> VALIDATION <= Texts(x, line)[i] || DEFAULT <= Texts(x, line)[i]
  {
    hide FormatDefault, FormatMarker, FormatCel, TypeMarkers;
    FormatsAreMarkers(x);
  }

  lemma EmittedAreMarkers(x: Reader, line: string)
    ensures forall i :: 0 <= i < |Emitted(x, line)| ==> IsMarker(Emitted(x, line)[i])
  {
    TextsAreMarkers(x, line);
    forall i | 0 <= i < |Emitted(x, line)|
      ensures IsMarker(Emitted(x, line)[i])
    {
      var text := Texts(x, line)[i];
      var prefix := if VALIDATION <= text then VALIDATION else DEFAULT;
      IndentIsTrimmed(line, text);
      RightTrimKeeps(text, prefix);
    }
  }

  // ---------- what is written can be read back ----------

  /** The text in front of the first such character. */
  function UpTo(s: string, c: char): (r: string)
    ensures r <= s && c !in r
    ensures |r| < |s| ==> s[|r|] == c
  {
    if s == "" || s[0] == c then "" else [s[0]] + UpTo(s[1..], c)
  }

  lemma {:induction false} UpToFirst(a: string, c: char, rest: string)
    ensures UpTo(a + [c] + rest, c) == a <==> c !in a
    ensures |UpTo(a + [c] + rest, c)| <= |a|
  {
    var s := a + [c] + rest;
    if a != "" {
      assert s[1..] == a[1..] + [c] + rest && a == [a[0]] + a[1..];
      UpToFirst(a[1..], c, rest);
    }
  }

  /** What a validation marker says: name up to the equals sign, value after it, a pattern without its quotes. */
  function MarkerRead(text: string): Option<Marker> {
    var head := "// +kubebuilder:validation:";
    if !(head <= text) then None
    else
      var rest := text[|head|..];
      var name := UpTo(rest, '=');
      if |name| == |rest| then None else ValueRead(name, rest[|name| + 1..])
  }

  function ValueRead(name: string, value: string): Option<Marker> {
    if name != "Pattern" then Some(Marker(name, value))
    else if |value| >= 2 && value[0] == '`' && value[|value| - 1] == '`' then
      Some(Marker(name, value[1..|value| - 1]))
    else None
  }

  function ValueText(m: Marker): string {
    if m.name == "Pattern" then "`" + m.value + "`" else m.value
  }

  lemma ValueReadsBack(m: Marker)
    ensures ValueRead(m.name, ValueText(m)) == Some(m)
    ensures forall name, value :: ValueRead(name, value).Some? ==> ValueRead(name, value).value.name == name
  {
    assert m.name == "Pattern" ==> ValueText(m)[1..|ValueText(m)| - 1] == m.value;
  }

  lemma MarkerText(m: Marker)
    ensures FormatMarker(m) == "// +kubebuilder:validation:" + (m.name + "=" + ValueText(m))
  {
  }

  lemma MarkerReadIs(text: string, rest: string)
    requires text == "// +kubebuilder:validation:" + rest
    ensures var name := UpTo(rest, '=');
            MarkerRead(text) == if |name| == |rest| then None else ValueRead(name, rest[|name| + 1..])
  {
    var head := "// +kubebuilder:validation:";
    assert text[|head|..] == rest;
    hide ValueRead, UpTo;
  }

  /** A marker says what it was written for exactly if its name has no equals sign. */
  lemma MarkerReadsBackIff(m: Marker)
    ensures MarkerRead(FormatMarker(m)) == Some(m) <==> '=' !in m.name
  {
    var value := ValueText(m);
    var rest := m.name + "=" + value;
    MarkerText(m);
    MarkerReadIs(FormatMarker(m), rest);
    UpToFirst(m.name, '=', value);
    ValueReadsBack(m);
    hide MarkerRead, ValueRead, ValueText, FormatMarker, UpTo;
    if '=' !in m.name {
      assert rest[|m.name| + 1..] == value;
    }
  }

  /** What a default marker says: the text after the equals sign, without quotes around it. */
  function DefaultRead(text: string): Option<string> {
    var head := "// +kubebuilder:default=";
    if !(head <= text) then None
    else
      var rest := text[|head|..];
      if |rest| >= 2 && rest[0] == '"' && rest[|rest| - 1] == '"' then Some(rest[1..|rest| - 1]) else Some(rest)
  }

  predicate Literal(x: Reader, value: string) {
    value == "true" || value == "false" || x.isNumber(value)
  }

  predicate Bracketed(value: string) {
    value != "" && (value[0] == '[' || value[0] == '{')
  }

  function AsSaid(x: Reader, value: string, c: char): char {
    if Bracketed(value) && !Literal(x, value) && c == '\'' then '"' else c
  }

  /** The text after the equals sign. */
  function DefaultText(x: Reader, value: string): string {
    if Literal(x, value) then value
    else if Bracketed(value) then Replaced(value, '\'', '"')
    else "\"" + value + "\""
  }

  lemma DefaultTextIs(x: Reader, value: string)
    ensures FormatDefault(x, value) == "// +kubebuilder:default=" + DefaultText(x, value)
  {
    hide Replaced;
  }

  lemma DefaultReadIs(text: string, rest: string)
    requires text == "// +kubebuilder:default=" + rest
    ensures DefaultRead(text) ==
              if |rest| >= 2 && rest[0] == '"' && rest[|rest| - 1] == '"' then Some(rest[1..|rest| - 1])
              else Some(rest)
  {
    var head := "// +kubebuilder:default=";
    assert text[|head|..] == rest;
  }

  /** A default says its value, with double for single quotes in lists and objects; no number starts with a quote. */
  lemma DefaultReadsBack(x: Reader, value: string)
    requires x.isNumber(value) ==> value == "" || value[0] != '"'
    ensures var read := DefaultRead(FormatDefault(x, value));
            && read.Some? && |read.value| == |value|
            && (forall i :: 0 <= i < |value| ==> read.value[i] == AsSaid(x, value, value[i]))
  {
    var rest := DefaultText(x, value);
    DefaultTextIs(x, value);
    DefaultReadIs(FormatDefault(x, value), rest);
    hide FormatDefault, DefaultRead;
    if !Literal(x, value) && !Bracketed(value) {
      assert rest[1..|rest| - 1] == value;
    }
  }

  /** What a rule marker says; a text ends at the next quote. */
  function CelRead(text: string): Option<CelRule> {
    var head := "// +kubebuilder:validation:XValidation:rule=\"";
    if !(head <= text) then None
    else
      var rest := text[|head|..];
      var rule := UpTo(rest, '"');
      if |rule| == |rest| then None else CelTail(rule, rest[|rule| + 1..])
  }

  function CelTail(rule: string, rest: string): Option<CelRule> {
    var head := ",message=\"";
    if head <= rest then
      var message := UpTo(rest[|head|..], '"');
      if |message| == |rest| - |head| then None else CelEnd(rule, message, rest[|head| + |message| + 1..])
    else CelEnd(rule, "", rest)
  }

  function CelEnd(rule: string, message: string, rest: string): Option<CelRule> {
    if rest == "" then Some(CelRule(rule, message, false))
    else if rest == ",optionalOldSelf=true" then Some(CelRule(rule, message, true))
    else None
  }

  function CelTailText(r: CelRule): string {
    var end := if r.optionalOldSelf then ",optionalOldSelf=true" else "";
    if r.message != "" then ",message=\"" + r.message + "\"" + end else end
  }

  lemma CelText(r: CelRule)
    ensures FormatCel(r) == "// +kubebuilder:validation:XValidation:rule=\"" + (r.rule + "\"" + CelTailText(r))
  {
  }

  lemma CelReadIs(text: string, rest: string)
    requires text == "// +kubebuilder:validation:XValidation:rule=\"" + rest
    ensures var rule := UpTo(rest, '"');
            CelRead(text) == if |rule| == |rest| then None else CelTail(rule, rest[|rule| + 1..])
  {
    var head := "// +kubebuilder:validation:XValidation:rule=\"";
    assert text[|head|..] == rest;
    hide CelTail, UpTo;
  }

  /** A rule marker says the rule it was written for exactly if there are no quotes in its texts. */
  lemma CelReadsBackIff(r: CelRule)
    ensures CelRead(FormatCel(r)) == Some(r) <==> '"' !in r.rule && '"' !in r.message
  {
    var tail := CelTailText(r);
    var rest := r.rule + "\"" + tail;
    CelText(r);
    CelReadIs(FormatCel(r), rest);
    UpToFirst(r.rule, '"', tail);
    CelTailReadsBackIff(r);
    CelTailKeepsRule(UpTo(rest, '"'), rest[|UpTo(rest, '"')| + 1..]);
    hide CelRead, CelTail, CelTailText, FormatCel, UpTo;
    if '"' !in r.rule {
      assert rest[|r.rule| + 1..] == tail;
    }
  }

  lemma CelTailKeepsRule(rule: string, rest: string)
    ensures CelTail(rule, rest).Some? ==> CelTail(rule, rest).value.rule == rule
  {
  }

  lemma CelTailReadsBackIff(r: CelRule)
    ensures CelTail(r.rule, CelTailText(r)) == Some(r) <==> '"' !in r.message
  {
    var end := if r.optionalOldSelf then ",optionalOldSelf=true" else "";
    CelEndReadsBack(r);
    if r.message != "" {
      CelMessageReadsBackIff(r, end);
    } else {
      assert r.optionalOldSelf ==> end[1] == 'o';
    }
  }

  lemma CelEndReadsBack(r: CelRule)
    ensures CelEnd(r.rule, r.message, if r.optionalOldSelf then ",optionalOldSelf=true" else "") == Some(r)
    ensures forall message, rest ::
              CelEnd(r.rule, message, rest).Some? ==> CelEnd(r.rule, message, rest).value.message == message
  {
  }

  lemma CelMessageReadsBackIff(r: CelRule, end: string)
    requires CelEnd(r.rule, r.message, end) == Some(r)
    requires forall message, rest ::
               CelEnd(r.rule, message, rest).Some? ==> CelEnd(r.rule, message, rest).value.message == message
    ensures CelTail(r.rule, ",message=\"" + r.message + "\"" + end) == Some(r) <==> '"' !in r.message
  {
    hide CelEnd, UpTo;
    var head := ",message=\"";
    var rest := r.message + "\"" + end;
    assert ",message=\"" + r.message + "\"" + end == head + rest;
    assert (head + rest)[|head|..] == rest;
    UpToFirst(r.message, '"', end);
    if '"' !in r.message {
      assert rest[|r.message| + 1..] == end;
      assert (head + rest)[|head| + |r.message| + 1..] == end;
    }
  }

  /** A type is added exactly if there is a length to check and no type is given, for the value and for its items. */
  lemma TypesAddedIff(ms: seq<Marker>)
    ensures forall m :: m in TypeMarkers(ms) ==> m == Marker("Type", "string") || m == Marker("items:Type", "string")
    ensures forall i, j :: 0 <= i < j < |TypeMarkers(ms)| ==> TypeMarkers(ms)[i] != TypeMarkers(ms)[j]
    ensures Marker("Type", "string") in TypeMarkers(ms) <==>
            && (exists m :: m in ms && (m.name == "MaxLength" || m.name == "MinLength"))
            && (forall m :: m in ms ==> m.name != "Type")
    ensures Marker("items:Type", "string") in TypeMarkers(ms) <==>
            && (exists m :: m in ms && (m.name == "items:MaxLength" || m.name == "items:MinLength"))
            && (forall m :: m in ms ==> m.name != "items:Type")
  {
    hide Names;
    NamesIff(ms, "MaxLength");
    NamesIff(ms, "MinLength");
    NamesIff(ms, "Type");
    NamesIff(ms, "items:MaxLength");
    NamesIff(ms, "items:MinLength");
    NamesIff(ms, "items:Type");
  }

  lemma NamesIff(ms: seq<Marker>, name: string)
    ensures Names(ms, name) <==> exists m :: m in ms && m.name == name
  {
  }

  /** The line can be read, and says this. */
  predicate SaysMarker(line: string, indent: string, m: Marker) {
    indent <= line && MarkerRead(line[|indent|..]) == Some(m)
  }

  predicate SaysRule(line: string, indent: string, r: CelRule) {
    indent <= line && CelRead(line[|indent|..]) == Some(r)
  }

  /** Lists and objects say double quotes for single ones. */
  predicate SaysDefault(line: string, indent: string, x: Reader, value: string) {
    && indent <= line && DefaultRead(line[|indent|..]).Some?
    && var read := DefaultRead(line[|indent|..]).value;
    && |read| == |value|
    && (forall i :: 0 <= i < |value| ==> read[i] == AsSaid(x, value, value[i]))
  }

  /** No name has an equals sign, no rule a quote, and no number begins with one. */
  ghost predicate Readable(x: Reader, line: string) {
    && (forall value :: x.isNumber(value) ==> value == "" || value[0] != '"')
    && (forall m :: m in x.validations(line) ==> '=' !in m.name)
    && (forall r :: r in x.celRules(line) ==> '"' !in r.rule && '"' !in r.message)
  }

  /** Where the lines for default, types, markers and rules stand. */
  lemma EmittedAt(x: Reader, line: string)
    ensures var out, indent := Emitted(x, line), LeadingWhitespace(line);
            var d, ms, rs := x.defaultValue(line), x.validations(line), x.celRules(line);
            var types := TypeMarkers(ms);
            var a := if d.Some? then 1 else 0;
            var b := a + |types|;
            var c := b + |ms|;
            && |out| == c + |rs|
            && (d.Some? ==> out[0] == indent + FormatDefault(x, d.value))
            && (forall i :: 0 <= i < |types| ==> out[a + i] == indent + FormatMarker(types[i]))
            && (forall i :: 0 <= i < |ms| ==> out[b + i] == indent + FormatMarker(ms[i]))
            && (forall i :: 0 <= i < |rs| ==> out[c + i] == indent + FormatCel(rs[i]))
  {
    hide FormatMarker, FormatDefault, FormatCel, TypeMarkers, LeadingWhitespace;
  }

  /** The lines written for a tagged line say, in order, its default, the types added, its markers and its rules. */
  lemma EmittedSaysTags(x: Reader, line: string)
    requires Readable(x, line)
    ensures var out, indent := Emitted(x, line), LeadingWhitespace(line);
            var d, ms, rs := x.defaultValue(line), x.validations(line), x.celRules(line);
            var types := TypeMarkers(ms);
            var a := if d.Some? then 1 else 0;
            var b := a + |types|;
            var c := b + |ms|;
            && |out| == c + |rs|
            && (d.Some? ==> SaysDefault(out[0], indent, x, d.value))
            && (forall i :: 0 <= i < |types| ==> SaysMarker(out[a + i], indent, types[i]))
            && (forall i :: 0 <= i < |ms| ==> SaysMarker(out[b + i], indent, ms[i]))
            && (forall i :: 0 <= i < |rs| ==> SaysRule(out[c + i], indent, rs[i]))
  {
    hide Emitted, FormatMarker, FormatDefault, FormatCel, MarkerRead, CelRead, LeadingWhitespace, SaysMarker, SaysRule,
         SaysDefault;
    var d, ms, rs := x.defaultValue(line), x.validations(line), x.celRules(line);
    var types, indent := TypeMarkers(ms), LeadingWhitespace(line);
    EmittedAt(x, line);
    assert forall m :: m in types ==> '=' !in m.name;
    hide TypeMarkers;
    forall m | m in ms || m in types
      ensures SaysMarker(indent + FormatMarker(m), indent, m)
    {
      MarkerIsSaid(indent, m);
    }
    forall r | r in rs
      ensures SaysRule(indent + FormatCel(r), indent, r)
    {
      RuleIsSaid(indent, r);
    }
    if d.Some? {
      DefaultIsSaid(x, indent, d.value);
    }
  }

  lemma MarkerIsSaid(indent: string, m: Marker)
    requires '=' !in m.name
    ensures SaysMarker(indent + FormatMarker(m), indent, m)
  {
    MarkerReadsBackIff(m);
    BehindIndent(indent, FormatMarker(m));
    hide FormatMarker, MarkerRead;
  }

  lemma RuleIsSaid(indent: string, r: CelRule)
    requires '"' !in r.rule && '"' !in r.message
    ensures SaysRule(indent + FormatCel(r), indent, r)
  {
    CelReadsBackIff(r);
    BehindIndent(indent, FormatCel(r));
    hide FormatCel, CelRead;
  }

  lemma DefaultIsSaid(x: Reader, indent: string, value: string)
    requires x.isNumber(value) ==> value == "" || value[0] != '"'
    ensures SaysDefault(indent + FormatDefault(x, value), indent, x, value)
  {
    DefaultReadsBack(x, value);
    BehindIndent(indent, FormatDefault(x, value));
    hide FormatDefault, DefaultRead;
  }

  lemma BehindIndent(indent: string, text: string)
    ensures indent <= indent + text && (indent + text)[|indent|..] == text
  {
  }

  /** The indent is all the blanks and tabs the line begins with. */
  lemma {:induction false} IndentIsLeading(line: string)
    ensures LeadingWhitespace(line) <= line
    ensures forall c :: c in LeadingWhitespace(line) ==> c == ' ' || c == '\t'
    ensures var n := |LeadingWhitespace(line)|; n < |line| ==> line[n] != ' ' && line[n] != '\t'
  {
    if line != "" && (line[0] == ' ' || line[0] == '\t') {
      IndentIsLeading(line[1..]);
      assert line == [line[0]] + line[1..];
    }
  }

  // ---------- running it again ----------

  lemma {:induction false} RunAppend(x: Reader, out: seq<string>, a: seq<string>, b: seq<string>)
    ensures Run(x, out, a + b) == Run(x, Run(x, out, a), b)
  {
    if b == [] {
      assert a + b == a;
    } else {
      assert (a + b)[..|a + b| - 1] == a + b[..|b| - 1];
      RunAppend(x, out, a, b[..|b| - 1]);
    }
  }

  lemma {:induction false} StripAppend(out: seq<string>, markers: seq<string>)
    requires forall i :: 0 <= i < |markers| ==> IsMarker(markers[i])
    ensures Strip(out + markers) == Strip(out)
  {
    if markers == [] {
      assert out + markers == out;
    } else {
      assert (out + markers)[..|out + markers| - 1] == out + markers[..|markers| - 1];
      StripAppend(out, markers[..|markers| - 1]);
    }
  }

  /** Markers leave nothing behind that the next tagged line does not strip, even if they mention tags themselves. */
  lemma {:induction false} MarkersAreTransient(x: Reader, out: seq<string>, markers: seq<string>)
    requires forall i :: 0 <= i < |markers| ==> IsMarker(markers[i])
    ensures Strip(Run(x, out, markers)) == Strip(out)
  {
    hide IsMarker, Tagged, Emitted;
    if markers != [] {
      var front, last := markers[..|markers| - 1], markers[|markers| - 1];
      MarkersAreTransient(x, out, front);
      var before := Run(x, out, front);
      if Tagged(x, last) {
        EmittedAreMarkers(x, last);
        StripAppend(Strip(before), Emitted(x, last) + [last]);
        assert Strip(before) + Emitted(x, last) + [last] == Strip(before) + (Emitted(x, last) + [last]);
        StripTwice(before);
      } else {
        StripAppend(before, [last]);
      }
    }
  }

  lemma StripTwice(out: seq<string>)
    ensures Strip(Strip(out)) == Strip(out)
  {
  }

  /** Injecting into an already injected file changes nothing, whatever the lines and tags are. */
  lemma {:induction false} InjectionIsIdempotent(x: Reader, lines: seq<string>)
    ensures Process(x, Process(x, lines)) == Process(x, lines)
  {
    if lines != [] {
      var front, line := lines[..|lines| - 1], lines[|lines| - 1];
      var done := Process(x, front);
      InjectionIsIdempotent(x, front);
      if Tagged(x, line) {
        TaggedAgain(x, done, line);
      } else {
        RunAppend(x, [], done, [line]);
      }
    }
  }

  lemma TaggedAgain(x: Reader, done: seq<string>, line: string)
    requires Tagged(x, line) && Process(x, done) == done
    ensures Process(x, Step(x, done, line)) == Step(x, done, line)
  {
    hide IsMarker, Tagged, Emitted;
    var bare, above := Strip(done), Emitted(x, line);
    var rest := done[|bare|..];
    assert done == bare + rest;
    // The kept part is processed to something that strips to itself.
    RunAppend(x, [], bare, rest);
    MarkersAreTransient(x, Process(x, bare), rest);
    // The emitted markers add nothing to that.
    EmittedAreMarkers(x, line);
    MarkersAreTransient(x, Process(x, bare), above);
    RunAppend(x, [], bare, above);
    RunAppend(x, [], bare + above, [line]);
  }

  // ---------- what it does to the file ----------

  function Erased(lines: seq<string>): seq<string> {
    Filter(lines, (line: string) => !IsMarker(line))
  }

  lemma ErasedAppend(a: seq<string>, b: seq<string>)
    ensures Erased(a + b) == Erased(a) + Erased(b)
  {
    FilterAppend(a, b, (line: string) => !IsMarker(line));
  }

  lemma {:induction false} ErasedMarkers(markers: seq<string>)
    requires forall i :: 0 <= i < |markers| ==> IsMarker(markers[i])
    ensures Erased(markers) == []
  {
    if markers != [] {
      ErasedMarkers(markers[1..]);
    }
  }

  /** Apart from marker lines the file stays as it was. */
  lemma {:induction false} OnlyMarkersChange(x: Reader, lines: seq<string>)
    ensures Erased(Process(x, lines)) == Erased(lines)
  {
    if lines != [] {
      var front, line := lines[..|lines| - 1], lines[|lines| - 1];
      assert lines == front + [line];
      OnlyMarkersChange(x, front);
      ErasedAppend(front, [line]);
      StepKeepsText(x, Process(x, front), line);
    }
  }

  lemma StepKeepsText(x: Reader, out: seq<string>, line: string)
    ensures Erased(Step(x, out, line)) == Erased(out) + Erased([line])
  {
    if Tagged(x, line) {
      var bare := Strip(out);
      assert out == bare + out[|bare|..];
      ErasedAppend(bare, out[|bare|..]);
      ErasedMarkers(out[|bare|..]);
      EmittedAreMarkers(x, line);
      ErasedMarkers(Emitted(x, line));
      ErasedAppend(bare, Emitted(x, line));
      ErasedAppend(bare + Emitted(x, line), [line]);
    } else {
      ErasedAppend(out, [line]);
    }
  }

  /** Directly above the line stand its own markers and no others. */
  ghost predicate Annotated(x: Reader, out: seq<string>, i: nat)
    requires i < |out|
  {
    var n := |Emitted(x, out[i])|;
    && n <= i && out[i - n..i] == Emitted(x, out[i])
    && (n == i || !IsMarker(out[i - n - 1]))
  }

  ghost predicate AllAnnotated(x: Reader, out: seq<string>) {
    forall i :: 0 <= i < |out| && Tagged(x, out[i]) && !IsMarker(out[i]) ==> Annotated(x, out, i)
  }

  /** Every tagged line has exactly the markers of its tags, whatever stood above it before. */
  lemma {:induction false} TaggedLinesAreAnnotated(x: Reader, lines: seq<string>)
    ensures AllAnnotated(x, Process(x, lines))
  {
    if lines != [] {
      var front, line := lines[..|lines| - 1], lines[|lines| - 1];
      TaggedLinesAreAnnotated(x, front);
      StepAnnotates(x, Process(x, front), line);
    }
  }

  lemma StepAnnotates(x: Reader, out: seq<string>, line: string)
    requires AllAnnotated(x, out)
    ensures AllAnnotated(x, Step(x, out, line))
  {
    var next := Step(x, out, line);
    EmittedAreMarkers(x, line);
    var kept := if Tagged(x, line) then Strip(out) else out;
    forall i | 0 <= i < |next| && Tagged(x, next[i]) && !IsMarker(next[i])
      ensures Annotated(x, next, i)
    {
      if i < |kept| {
        assert Annotated(x, out, i);
        SameAbove(x, out, next, i);
      } else if Tagged(x, line) {
        assert i == |next| - 1;
        assert next[|kept|..i] == Emitted(x, line);
      }
    }
  }

  lemma SliceOfPrefix(s: seq<string>, k: nat, lo: nat, hi: nat)
    requires lo <= hi <= k <= |s|
    ensures s[..k][lo..hi] == s[lo..hi]
    ensures 0 < lo ==> s[..k][lo - 1] == s[lo - 1]
  {
  }

  lemma SameAbove(x: Reader, out: seq<string>, next: seq<string>, i: nat)
    requires i < |out| && i < |next| && out[..i + 1] == next[..i + 1] && Annotated(x, out, i)
    ensures Annotated(x, next, i)
  {
    hide Emitted, Tagged, IsMarker;
    var n := |Emitted(x, out[i])|;
    assert out[i] == out[..i + 1][i] == next[..i + 1][i] == next[i];
    if n <= i {
      SliceOfPrefix(out, i + 1, i - n, i);
      SliceOfPrefix(next, i + 1, i - n, i);
    }
  }

  // ---------- whole files ----------

  function SplitLines(t: string): (ls: seq<string>)
    ensures ls != []
  {
    if t == "" then [""]
    else
      var rest := SplitLines(t[1..]);
      if t[0] == '\n' then [""] + rest else [[t[0]] + rest[0]] + rest[1..]
  }

  function JoinLines(ls: seq<string>): string
    requires ls != []
  {
    if |ls| == 1 then ls[0] else ls[0] + "\n" + JoinLines(ls[1..])
  }

  ghost predicate IsLine(s: string) {
    forall i :: 0 <= i < |s| ==> s[i] != '\n'
  }

  ghost predicate AreLines(ls: seq<string>) {
    forall i :: 0 <= i < |ls| ==> IsLine(ls[i])
  }

  lemma {:induction false} LinesSplit(t: string)
    ensures AreLines(SplitLines(t))
  {
    if t != "" {
      LinesSplit(t[1..]);
    }
  }

  lemma {:induction false} SplitOneLine(s: string, rest: string)
    requires IsLine(s)
    ensures SplitLines(s) == [s]
    ensures SplitLines(s + ("\n" + rest)) == [s] + SplitLines(rest)
  {
    if s == "" {
      assert s + ("\n" + rest) == "\n" + rest;
      assert ("\n" + rest)[1..] == rest;
    } else {
      SplitOneLine(s[1..], rest);
      assert (s + ("\n" + rest))[1..] == s[1..] + ("\n" + rest);
      assert s == [s[0]] + s[1..];
    }
  }

  lemma {:induction false} SplitUndoesJoin(ls: seq<string>)
    requires ls != [] && AreLines(ls)
    ensures SplitLines(JoinLines(ls)) == ls
  {
    assert IsLine(ls[0]);
    if |ls| == 1 {
      SplitOneLine(ls[0], "");
    } else {
      assert AreLines(ls[1..]);
      SplitUndoesJoin(ls[1..]);
      SplitOneLine(ls[0], JoinLines(ls[1..]));
      assert ls[0] + "\n" + JoinLines(ls[1..]) == ls[0] + ("\n" + JoinLines(ls[1..]));
    }
  }

  lemma {:induction false} JoinUndoesSplit(t: string)
    ensures JoinLines(SplitLines(t)) == t
  {
    if t != "" {
      JoinUndoesSplit(t[1..]);
      var rest := SplitLines(t[1..]);
      assert t == [t[0]] + t[1..];
      if t[0] == '\n' {
        assert ([""] + rest)[1..] == rest;
      } else if |rest| > 1 {
        assert ([[t[0]] + rest[0]] + rest[1..])[1..] == rest[1..];
      }
    }
  }

  /** Values read from a line hold no line break. */
  ghost predicate ReadsLines(x: Reader) {
    forall line :: IsLine(line) ==> AreLines(Emitted(x, line))
  }

  lemma {:induction false} ProcessedAreLines(x: Reader, lines: seq<string>)
    requires ReadsLines(x) && AreLines(lines)
    ensures AreLines(Process(x, lines))
    ensures lines != [] ==> Process(x, lines) != []
  {
    if lines != [] {
      var front, line := lines[..|lines| - 1], lines[|lines| - 1];
      ProcessedAreLines(x, front);
      var out := Process(x, front);
      assert IsLine(line) && AreLines(Strip(out)) && AreLines(Emitted(x, line));
    }
  }

  function FileAfter(x: Reader, data: string): string
    requires Process(x, SplitLines(data)) != []
  {
    JoinLines(Process(x, SplitLines(data)))
  }

  /** The file is written only if a marker was injected; what it then holds is the same either way. */
  method ProcessFile(x: Reader, data: string) returns (after: string, injected: nat, written: bool)
    requires ReadsLines(x)
    ensures Process(x, SplitLines(data)) != [] && after == FileAfter(x, data)
    ensures injected == Injected(x, SplitLines(data))
    ensures written <==> injected > 0
    ensures !written ==> after == data
  {
    var lines := SplitLines(data);
    LinesSplit(data);
    ProcessedAreLines(x, lines);
    JoinUndoesSplit(data);
    var out;
    out, injected := ProcessLines(x, lines);
    if injected == 0 {
      return data, 0, false;
    }
    after, written := JoinLines(out), true;
  }

  /** Running the tool a second time leaves every byte of the file as it is. */
  lemma SecondRunChangesNothing(x: Reader, data: string)
    requires ReadsLines(x) && Process(x, SplitLines(data)) != []
    ensures var after := FileAfter(x, data); Process(x, SplitLines(after)) != [] && FileAfter(x, after) == after
  {
    LinesSplit(data);
    ProcessedAreLines(x, SplitLines(data));
    SplitUndoesJoin(Process(x, SplitLines(data)));
    InjectionIsIdempotent(x, SplitLines(data));
  }
}
