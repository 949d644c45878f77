/**
 Change-request records (scripts/cr_model.py): the Markdown rendering of a version 1 record and its parser. Regular
 expressions anchored with `^` in multi-line mode see exactly the lines between line feeds, so sections are found on those.
 */
module CrModel {
  import opened Common
  import opened Text

  const FORMAT := "ugs-cr/v1"

  const SECTIONS: seq<string> :=
    ["Summary", "Motivation", "Test Evidence", "Risk", "Rollback", "Breaking Change", "Backport Target"]

  const FIELDS: seq<string> :=
    ["Format", "Schema Version", "Base", "Head or Range", "Integration Target", "Integration Strategy", "Review Evidence",
     "Title", "Revision", "Status", "Decision", "Policy Version", "Base OID", "Head OID", "Integrated Result",
     "Coverage OIDs", "Extensions"]

  /** Extension values by key, each value as its JSON text. */
  type Extensions = map<string, string>

  /** The JSON encoding of the extensions. */
  datatype Codec = Codec(encode: Extensions -> string, decode: string -> Option<Extensions>)

  ghost predicate Faithful(codec: Codec) {
    forall e :: codec.decode(codec.encode(e)) == Some(e)
  }

  datatype Model = Model(
    id: string, title: string, revision: nat, status: string, decision: string, policyVersion: string,
    base: string, head: string, baseOID: string, headOID: string, target: string, strategy: string, evidence: string,
    result: Option<(string, string)>, coverage: seq<string>, sections: seq<string>, extensions: Extensions)

  /** The metadata of a record, one string per field. */
  datatype Metadata = Metadata(
    format: string, schemaVersion: string, base: string, head: string, target: string, strategy: string, evidence: string,
    title: string, revision: string, status: string, decision: string, policyVersion: string, baseOID: string,
    headOID: string, result: string, coverage: string, extensions: string)
  {
    /** The values in the order of FIELDS. */
    function Values(): (v: seq<string>)
      ensures |v| == |FIELDS|
    {
      [format, schemaVersion, base, head, target, strategy, evidence, title, revision, status, decision, policyVersion,
       baseOID, headOID, result, coverage, extensions]
    }
  }

  // ----- Rendering -----

  function MetadataOf(codec: Codec, m: Model): Metadata {
    Metadata(FORMAT, "1", m.base, m.head, m.target, m.strategy, m.evidence, m.title, Decimal(m.revision), m.status, m.decision,
             m.policyVersion, m.baseOID, m.headOID,
             if m.result.None? then "pending" else m.result.value.0 + "@" + m.result.value.1,
             if m.coverage == [] then "none" else Join(m.coverage, ' '),
             codec.encode(m.extensions))
  }

  function Header(id: string, title: string): string { "# " + id + ": " + title }

  function FieldLine(i: nat, value: string): string
    requires i < |FIELDS|
  {
    FIELDS[i] + ": " + value
  }

  function FieldLines(values: seq<string>): seq<string>
    requires |values| == |FIELDS|
  {
    seq(|FIELDS|, i requires 0 <= i < |FIELDS| => FieldLine(i, values[i]))
  }

  function HeadingLine(k: nat): string
    requires k < |SECTIONS|
  {
    "## " + SECTIONS[k]
  }

  function SectionsText(bodies: seq<string>, k: nat): string
    requires |bodies| == |SECTIONS| && k <= |SECTIONS|
    decreases |SECTIONS| - k
  {
    if k == |SECTIONS| then ""
    else HeadingLine(k) + "\n\n" + bodies[k] + (if k == |SECTIONS| - 1 then "\n" else "\n\n") + SectionsText(bodies, k + 1)
  }

  function Render(codec: Codec, m: Model): string
    requires |m.sections| == |SECTIONS|
  {
    Header(m.id, m.title) + "\n\n" + Join(FieldLines(MetadataOf(codec, m).Values()), '\n') + "\n\n" + SectionsText(m.sections, 0)
  }

  /** The rendering as it is accumulated, section by section. */
  method RenderText(codec: Codec, m: Model) returns (output: string)
    requires |m.sections| == |SECTIONS|
    ensures output == Render(codec, m)
  {
    hide HeadingLine, FieldLines, SECTIONS;
    output := Header(m.id, m.title) + "\n\n" + Join(FieldLines(MetadataOf(codec, m).Values()), '\n') + "\n\n";
    for k := 0 to |SECTIONS|
      invariant output + SectionsText(m.sections, k) == Render(codec, m)
    {
      ghost var before, rest := output, SectionsText(m.sections, k + 1);
      var piece := HeadingLine(k) + "\n\n" + m.sections[k] + (if k == |SECTIONS| - 1 then "\n" else "\n\n");
      assert before + (piece + rest) == (before + piece) + rest;
      output := output + piece;
    }
    assert output + "" == output;
  }

  // ----- Field values -----

  predicate IsLowerHex(c: char) { '0' <= c <= '9' || 'a' <= c <= 'f' }

  predicate IsOID(s: string) { |s| == 40 && forall c | c in s :: IsLowerHex(c) }

  predicate IsAlphanumeric(c: char) { 'A' <= c <= 'Z' || 'a' <= c <= 'z' || '0' <= c <= '9' }

  predicate IsTarget(s: string) {
    s != "" && IsAlphanumeric(s[0]) && forall c | c in s :: IsAlphanumeric(c) || c == '.' || c == '_' || c == '/' || c == '-'
  }

  predicate HasNumber(s: string, prefix: string) {
    |s| > |prefix| && s[..|prefix|] == prefix && forall c | c in s[|prefix|..] :: IsDigit(c)
  }

  predicate IsPolicyVersion(s: string) {
    s == "v0.2" || s == "v0.3" || HasNumber(s, "v0.3-") || HasNumber(s, "v0.3-draft-") || HasNumber(s, "v0.3-rc-")
  }

  predicate IsCrID(s: string) {
    |s| == 7 && s[..3] == "CR-" && forall c | c in s[3..] :: IsDigit(c)
  }

  /** An unfilled `<...>` of the template. */
  predicate IsPlaceholder(s: string) {
    |s| >= 3 && s[0] == '<' && s[|s| - 1] == '>' && '>' !in s[1..|s| - 1]
  }

  predicate Filled(s: string) { s != "" && !IsPlaceholder(s) }

  predicate StrictlySorted(values: seq<string>) {
    forall i, j | 0 <= i < j < |values| :: values[i] != values[j] && StringLeq(values[i], values[j])
  }

  function ReadCoverage(s: string): Option<seq<string>> {
    if s == "none" then Some([])
    else if s == "" then None
    else
      var values := Words(s);
      if (forall v | v in values :: IsOID(v)) && StrictlySorted(values) then Some(values) else None
  }

  function ReadResult(s: string, target: string): Option<Option<(string, string)>> {
    if s == "pending" then Some(None)
    else if |s| >= 42 && s[|s| - 41] == '@' && IsOID(s[|s| - 40..]) && IsTarget(s[..|s| - 41]) && s[..|s| - 41] == target
    then Some(Some((target, s[|s| - 40..]))) else None
  }

  /** Which decision a status goes with, and whether the result is still pending. */
  predicate Lifecycle(status: string, decision: string, pending: bool) {
    || (status == "pending" && decision == "pending" && pending)
    || (status == "accepted" && decision == "accepted" && pending)
    || (status == "integrated" && decision == "accepted" && !pending)
    || (status == "rejected" && decision == "rejected" && pending)
    || (status == "superseded" && decision == "superseded" && pending)
  }

  predicate IsStrategy(s: string) { s == "rebase-ff" || s == "merge" || s == "squash" }

  predicate IsEvidence(s: string) { s == "none" || s == "trailers" }

  predicate ExtensionKeysOk(e: Extensions) { forall k | k in e :: |k| >= 2 && k[..2] == "x-" }

  /** Builds the model of a record, or refuses it. */
  function Build(codec: Codec, id: string, title: string, f: Metadata, sections: seq<string>): Option<Model> {
    var extensions, coverage, result := codec.decode(f.extensions), ReadCoverage(f.coverage), ReadResult(f.result, f.target);
    if && (forall s | s in [f.base, f.head, f.title, f.revision, f.status, f.decision, f.policyVersion, f.baseOID, f.headOID, f.result]
             :: Filled(s))
       && PositiveNumeral(f.revision) && IsPolicyVersion(f.policyVersion) && IsOID(f.baseOID) && IsOID(f.headOID)
       && f.format == FORMAT && f.schemaVersion == "1" && IsTarget(f.target) && IsStrategy(f.strategy) && IsEvidence(f.evidence)
       && title == f.title && extensions.Some? && ExtensionKeysOk(extensions.value)
       && coverage.Some? && result.Some? && Lifecycle(f.status, f.decision, result.value.None?)
    then Some(Model(id, f.title, Value(f.revision), f.status, f.decision, f.policyVersion, f.base, f.head, f.baseOID, f.headOID,
                    f.target, f.strategy, f.evidence, result.value, coverage.value, sections, extensions.value))
    else None
  }

  // ----- Reading metadata -----

  predicate ColonAt(line: string, i: int) {
    0 <= i < |line| - 1 && line[i] == ':' && line[i + 1] == ' '
  }

  /** Position of the first ": ", or the length. */
  function FirstColon(line: string): (n: nat)
    ensures n <= |line| && (n < |line| ==> ColonAt(line, n)) && forall i | 0 <= i < n :: !ColonAt(line, i)
  {
    if line == "" || ColonAt(line, 0) then 0
    else
      var n := FirstColon(line[1..]);
      assert forall i | 0 < i :: ColonAt(line, i) <==> ColonAt(line[1..], i - 1);
      1 + n
  }

  predicate Known(key: string) { key in FIELDS }

  type Fields = map<string, string>

  /** Takes one more line into account. Only a duplicate is refused outside strict mode. */
  function ReadField(fields: Fields, line: string, strict: bool): Option<Fields> {
    var skipped := if strict then None else Some(fields);
    var n := FirstColon(line);
    if n == |line| then skipped
    else if !Known(line[..n]) then skipped
    else if line[..n] in fields then None
    else Some(fields[line[..n] := line[n + 2..]])
  }

  function ReadFields(lines: seq<string>, strict: bool): Option<Fields> {
    if lines == [] then Some(map[])
    else match ReadFields(lines[..|lines| - 1], strict)
      case None => None
      case Some(fields) => ReadField(fields, lines[|lines| - 1], strict)
  }

  /** The metadata block of a record, line by line. */
  method ParseMetadataBlock(block: string, strict: bool) returns (fields: Option<Fields>)
    ensures fields == ReadFields(SplitLines(block), strict)
  {
    hide SplitLines, Known;
    var lines := SplitLines(block);
    var read: Fields := map[];
    for i := 0 to |lines|
      invariant ReadFields(lines[..i], strict) == Some(read)
    {
      assert lines[..i + 1][..i] == lines[..i];
      var line := lines[i];
      var n := FirstColon(line);
      if n == |line| || !Known(line[..n]) {
        if strict { RefusalSticks(lines, i + 1, strict); return None; }
      } else if line[..n] in read {
        RefusalSticks(lines, i + 1, strict);
        return None;
      } else {
        read := read[line[..n] := line[n + 2..]];
      }
    }
    assert lines[..|lines|] == lines;
    return Some(read);
  }

  lemma {:induction false} RefusalSticks(lines: seq<string>, i: nat, strict: bool)
    requires i <= |lines| && ReadFields(lines[..i], strict).None?
    ensures ReadFields(lines, strict).None?
    decreases |lines| - i
  {
    if i == |lines| {
      assert lines[..i] == lines;
    } else {
      assert lines[..i + 1][..i] == lines[..i];
      RefusalSticks(lines, i + 1, strict);
    }
  }

  /** Reads the metadata off its fields; none may be missing. */
  function MetadataFrom(fields: Fields): Option<Metadata> {
    if forall k | k in FIELDS :: k in fields then
      Some(Metadata(
        fields[FIELDS[0]], fields[FIELDS[1]], fields[FIELDS[2]], fields[FIELDS[3]], fields[FIELDS[4]], fields[FIELDS[5]],
        fields[FIELDS[6]], fields[FIELDS[7]], fields[FIELDS[8]], fields[FIELDS[9]], fields[FIELDS[10]], fields[FIELDS[11]],
        fields[FIELDS[12]], fields[FIELDS[13]], fields[FIELDS[14]], fields[FIELDS[15]], fields[FIELDS[16]]))
    else None
  }

  // ----- Reading sections -----

  predicate LooksLikeHeading(line: string) { |line| > 3 && line[..3] == "## " }

  predicate IsHeading(line: string) { LooksLikeHeading(line) && line[3..] in SECTIONS }

  /** The lines before the first section heading, then one group per section, heading first. A last line without line feed is no heading. */
  function Groups(lines: seq<string>): (groups: seq<seq<string>>)
    ensures |groups| > 0
  {
    if lines == [] then [[]]
    else
      var rest := Groups(lines[1..]);
      var joined := [[lines[0]] + rest[0]] + rest[1..];
      if IsHeading(lines[0]) && |lines| > 1 then [[]] + joined else joined
  }

  /** Some line says more than white space and placeholders. */
  predicate Substantial(body: string) {
    exists line | line in SplitLines(body) :: Strip(line) != "" && !IsPlaceholder(Strip(line))
  }

  /** The body of a section: one blank line after the heading, one blank line (or the end of the record) after the body. */
  function BodyOf(group: seq<string>): Option<string> {
    if |group| >= 4 && group[1] == "" && group[|group| - 1] == "" && Substantial(Join(group[2..|group| - 1], '\n'))
    then Some(Join(group[2..|group| - 1], '\n')) else None
  }

  predicate SectionGroupOk(group: seq<string>, k: nat)
    requires k < |SECTIONS|
  {
    && group != [] && group[0] == HeadingLine(k) && BodyOf(group).Some?
    && forall line | line in group && LooksLikeHeading(line) :: line[3..] in SECTIONS
  }

  function ReadSections(groups: seq<seq<string>>): Option<seq<string>> {
    if |groups| == |SECTIONS| && forall k | 0 <= k < |SECTIONS| :: SectionGroupOk(groups[k], k)
    then Some(seq(|SECTIONS|, k requires 0 <= k < |SECTIONS| => BodyOf(groups[k]).value)) else None
  }

  /** The sections as they are collected, one group after the other. */
  method ParseSections(groups: seq<seq<string>>) returns (sections: Option<seq<string>>)
    ensures sections == ReadSections(groups)
  {
    hide SectionGroupOk, BodyOf, SECTIONS;
    if |groups| != |SECTIONS| { return None; }
    var bodies: seq<string> := [];
    for k := 0 to |SECTIONS|
      invariant |bodies| == k && forall j | 0 <= j < k :: SectionGroupOk(groups[j], j) && BodyOf(groups[j]) == Some(bodies[j])
    {
      if !SectionGroupOk(groups[k], k) { return None; }
      GroupHasBody(groups[k], k);
      bodies := bodies + [BodyOf(groups[k]).value];
    }
    assert bodies == ReadSections(groups).value;
    return Some(bodies);
  }

  lemma GroupHasBody(group: seq<string>, k: nat)
    requires k < |SECTIONS| && SectionGroupOk(group, k)
    ensures BodyOf(group).Some?
  {
    hide BodyOf, SECTIONS;
  }

  // ----- Reading a record -----

  /** Lines with their line feeds. */
  function Terminated(lines: seq<string>): string {
    if lines == [] then "" else lines[0] + "\n" + Terminated(lines[1..])
  }

  predicate IsHeader(line: string) {
    |line| > 11 && line[..2] == "# " && IsCrID(line[2..9]) && line[9..11] == ": " && '\n' !in line[11..]
  }

  /** What lies between the header line and the first section. */
  function Preamble(header: string, before: seq<string>): string {
    var text := Terminated(before);
    if |header| + 1 <= |text| then text[|header| + 1..] else ""
  }

  predicate Paragraph(preamble: string) {
    |preamble| >= 2 && preamble[0] == '\n' && preamble[|preamble| - 2..] == "\n\n"
  }

  /** Parses a version 1 record. A record of another format, and one that is not the canonical rendering, is refused. */
  function Parse(codec: Codec, text: string): Option<Model> {
    var lines, groups := SplitLines(text), Groups(Split(text, '\n'));
    if lines == [] || !IsHeader(lines[0]) || |groups| == 1 then None
    else
      var preamble := Preamble(lines[0], groups[0]);
      var first := ReadFields(SplitLines(preamble), false);
      if first.None? || "Format" !in first.value || first.value["Format"] != FORMAT || "Schema Version" !in first.value then None
      else if '\r' in text || |lines| < 2 || lines[1] != "" || !Paragraph(preamble) then None
      else
        var inner := if |preamble| < 3 then "" else preamble[1..|preamble| - 2];
        var fields, sections := ReadFields(SplitLines(inner), true), ReadSections(groups[1..]);
        if fields.None? || sections.None? || MetadataFrom(fields.value).None? then None
        else match Build(codec, lines[0][2..9], lines[0][11..], MetadataFrom(fields.value).value, sections.value)
          case None => None
          case Some(m) => if |m.sections| == |SECTIONS| && Render(codec, m) == text then Some(m) else None
  }
}
