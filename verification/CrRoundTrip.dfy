/** Rendering and parsing of change-request records undo each other. */
module CrRoundTrip {
  import opened Common
  import opened Text
  import opened CrModel

  // ----- Well-formed models -----

  /** A section body that can be told from the headings around it. */
  predicate BodyOk(body: string) {
    '\r' !in body && Substantial(body) && forall line | line in Split(body, '\n') :: !LooksLikeHeading(line)
  }

  /** A version 1 model whose values fit their fields. */
  predicate FieldsFit(m: Model) {
    && IsCrID(m.id) && Filled(m.title) && Filled(m.base) && Filled(m.head)
    && OneLine(m.title) && OneLine(m.base) && OneLine(m.head)
    && m.revision > 0 && IsPolicyVersion(m.policyVersion) && IsOID(m.baseOID) && IsOID(m.headOID)
    && IsTarget(m.target) && IsStrategy(m.strategy) && IsEvidence(m.evidence)
    && Lifecycle(m.status, m.decision, m.result.None?)
    && (m.result.Some? ==> m.result.value.0 == m.target && IsOID(m.result.value.1))
    && (forall v | v in m.coverage :: IsOID(v)) && StrictlySorted(m.coverage)
    && ExtensionKeysOk(m.extensions)
    && |m.sections| == |SECTIONS| && forall body | body in m.sections :: BodyOk(body)
  }

  /** ... and whose extensions are encoded on a single line. */
  predicate WellFormed(codec: Codec, m: Model) {
    FieldsFit(m) && OneLine(codec.encode(m.extensions))
  }

  /** What holds of every encoded JSON object: it ends in a brace, and control characters below the space are escaped. */
  ghost predicate JsonText(codec: Codec) {
    && (forall e :: codec.encode(e) != "" && codec.encode(e)[|codec.encode(e)| - 1] == '}')
    && (forall e, i | 0 <= i < |codec.encode(e)| :: ' ' <= codec.encode(e)[i])
  }

  // ----- Field values -----

  lemma OIDIsWord(s: string)
    requires IsOID(s)
    ensures OneLine(s) && OneWord(s) && Filled(s)
  {
    assert s[0] in s;
    forall i | 0 <= i < |s| ensures !IsBlank(s[i]) && !IsBreak(s[i]) { assert s[i] in s; }
  }

  lemma TargetIsLine(s: string)
    requires IsTarget(s)
    ensures OneLine(s) && '@' !in s && s[0] != '<'
  {
    assert s[0] in s;
    forall i | 0 <= i < |s| ensures !IsBreak(s[i]) && s[i] != '@' { assert s[i] in s; }
  }

  lemma NumeralIsLine(s: string)
    requires PositiveNumeral(s)
    ensures OneLine(s) && Filled(s)
  {
    assert s[0] in s;
    forall i | 0 <= i < |s| ensures !IsBreak(s[i]) { assert s[i] in s; }
  }

  lemma ConcatIsLine(a: string, b: string)
    requires OneLine(a) && OneLine(b)
    ensures OneLine(a + b)
  {
  }

  lemma PolicyIsLine(s: string)
    requires IsPolicyVersion(s)
    ensures OneLine(s) && Filled(s)
  {
    if s != "v0.2" && s != "v0.3" {
      var prefix := if HasNumber(s, "v0.3-") then "v0.3-" else if HasNumber(s, "v0.3-draft-") then "v0.3-draft-" else "v0.3-rc-";
      assert HasNumber(s, prefix) && prefix[0] == 'v';
      NumberedIsLine(s, prefix);
    }
  }

  lemma NumberedIsLine(s: string, prefix: string)
    requires HasNumber(s, prefix) && prefix != "" && prefix[0] == 'v' && OneLine(prefix)
    ensures OneLine(s) && Filled(s)
  {
    assert s == prefix + s[|prefix|..];
    assert s[0] == s[..|prefix|][0] == 'v';
    forall i | 0 <= i < |s| - |prefix| ensures !IsBreak(s[|prefix|..][i]) { assert s[|prefix|..][i] in s[|prefix|..]; }
    ConcatIsLine(prefix, s[|prefix|..]);
  }

  lemma {:induction false} JoinIsLine(parts: seq<string>)
    requires forall part | part in parts :: IsOID(part)
    ensures OneLine(Join(parts, ' '))
  {
    if parts != [] {
      OIDIsWord(parts[0]);
      JoinIsLine(parts[1..]);
      ConcatIsLine(parts[0] + " ", Join(parts[1..], ' '));
    }
  }

  lemma CoverageRoundTrip(values: seq<string>)
    requires (forall v | v in values :: IsOID(v)) && StrictlySorted(values)
    ensures var s := if values == [] then "none" else Join(values, ' '); ReadCoverage(s) == Some(values) && OneLine(s)
  {
    hide IsOID, StrictlySorted;
    if values != [] {
      forall v | v in values ensures OneWord(v) { OIDIsWord(v); }
      WordsOfJoin(values);
      JoinIsLine(values);
      JoinIsLong(values);
    }
  }

  lemma JoinIsLong(values: seq<string>)
    requires values != [] && IsOID(values[0])
    ensures |Join(values, ' ')| >= 40
  {
  }

  lemma ResultRoundTrip(target: string, oid: string)
    requires IsTarget(target) && IsOID(oid)
    ensures var s := target + "@" + oid; ReadResult(s, target) == Some(Some((target, oid))) && OneLine(s) && Filled(s)
  {
    hide IsOID, IsTarget;
    var s := target + "@" + oid;
    OIDIsWord(oid);
    TargetIsLine(target);
    ConcatIsLine(target + "@", oid);
    OIDLength(oid);
    assert s[|s| - 40..] == oid && s[..|s| - 41] == target && s[|s| - 41] == '@';
    TargetNotEmpty(target);
    assert s[0] == target[0];
  }

  lemma OIDLength(oid: string)
    requires IsOID(oid)
    ensures |oid| == 40
  {
  }

  lemma TargetNotEmpty(target: string)
    requires IsTarget(target)
    ensures target != ""
  {
  }

  /** What building needs to know about the values that rendering writes. */
  lemma RenderedValues(codec: Codec, m: Model)
    requires FieldsFit(m)
    ensures var f := MetadataOf(codec, m);
      && PositiveNumeral(f.revision) && Value(f.revision) == m.revision && OneLine(f.revision) && Filled(f.revision)
      && ReadCoverage(f.coverage) == Some(m.coverage) && OneLine(f.coverage)
      && ReadResult(f.result, m.target) == Some(m.result) && OneLine(f.result) && Filled(f.result)
  {
    hide IsOID, StrictlySorted, IsTarget, IsPolicyVersion, IsStrategy, IsEvidence, BodyOk, IsCrID, ExtensionKeysOk, ReadCoverage;
    hide PositiveNumeral;
    DecimalRoundTrip(m.revision);
    NumeralIsLine(Decimal(m.revision));
    CoverageRoundTrip(m.coverage);
    if m.result.Some? { ResultRoundTrip(m.target, m.result.value.1); }
  }

  lemma BuildRoundTrip(codec: Codec, m: Model)
    requires Faithful(codec) && FieldsFit(m)
    ensures Build(codec, m.id, m.title, MetadataOf(codec, m), m.sections) == Some(m)
  {
    hide IsOID, StrictlySorted, IsTarget, IsPolicyVersion, IsStrategy, IsEvidence, BodyOk, IsCrID, ExtensionKeysOk, ReadCoverage;
    hide PositiveNumeral, ReadResult, Filled;
    RenderedValues(codec, m);
    OIDIsWord(m.baseOID);
    OIDIsWord(m.headOID);
    PolicyIsLine(m.policyVersion);
    assert Filled(m.status) && Filled(m.decision) by { LifecycleFilled(m.status, m.decision, m.result.None?); }
  }

  lemma LifecycleFilled(status: string, decision: string, pending: bool)
    requires Lifecycle(status, decision, pending)
    ensures Filled(status) && Filled(decision) && OneLine(status) && OneLine(decision)
  {
  }

  lemma ValuesAreLines(codec: Codec, m: Model)
    requires FieldsFit(m)
    ensures forall i | 0 <= i < |FIELDS| - 1 :: OneLine(MetadataOf(codec, m).Values()[i])
    ensures MetadataOf(codec, m).Values()[|FIELDS| - 1] == codec.encode(m.extensions)
  {
    hide IsOID, StrictlySorted, IsTarget, IsPolicyVersion, BodyOk, IsCrID, ExtensionKeysOk, ReadCoverage;
    hide PositiveNumeral, ReadResult, Filled, OneLine;
    RenderedValues(codec, m);
    OIDIsWord(m.baseOID);
    OIDIsWord(m.headOID);
    PolicyIsLine(m.policyVersion);
    TargetIsLine(m.target);
    LifecycleFilled(m.status, m.decision, m.result.None?);
    ChoicesAreLines(m.strategy, m.evidence);
  }

  lemma ChoicesAreLines(strategy: string, evidence: string)
    ensures IsStrategy(strategy) ==> OneLine(strategy)
    ensures IsEvidence(evidence) ==> OneLine(evidence)
    ensures OneLine(FORMAT) && OneLine("1")
  {
  }

  // ----- Metadata -----

  /** Field names are single lines without a colon, do not look like headings, and differ from each other. */
  lemma FieldNames(i: nat)
    requires i < |FIELDS|
    ensures FIELDS[i] != "" && FIELDS[i][0] != '#' && OneLine(FIELDS[i]) && ':' !in FIELDS[i]
  {
    hide FIELDS;
    NameCharacters(i);
    assert FIELDS[i][0] in FIELDS[i];
    forall j | 0 <= j < |FIELDS[i]| ensures !IsBreak(FIELDS[i][j]) { assert FIELDS[i][j] in FIELDS[i]; }
  }

  lemma NameCharacters(i: nat)
    requires i < |FIELDS|
    ensures FIELDS[i] != "" && forall c | c in FIELDS[i] :: c == ' ' || 'A' <= c <= 'z'
  {
  }

  lemma FieldNamesDiffer(i: nat, j: nat)
    requires i < j < |FIELDS|
    ensures FIELDS[i] != FIELDS[j]
  {
    assert |FIELDS[i]| != |FIELDS[j]| || FIELDS[i][0] != FIELDS[j][0];
  }

  lemma ReadLine(fields: Fields, i: nat, value: string, strict: bool)
    requires i < |FIELDS| && FIELDS[i] !in fields
    ensures ReadField(fields, FieldLine(i, value), strict) == Some(fields[FIELDS[i] := value])
  {
    hide FIELDS;
    FieldNames(i);
    var key, line := FIELDS[i], FieldLine(i, value);
    assert line[|key|] == ':' && line[|key| + 1] == ' ' && forall j | 0 <= j < |key| :: line[j] == key[j];
    assert ColonAt(line, |key|);
    forall j | 0 <= j < |key| ensures !ColonAt(line, j) { assert key[j] in key; }
    assert FirstColon(line) == |key| && line[..|key|] == key && line[|key| + 2..] == value;
  }

  /** The first `k` fields with their values. */
  function FieldMap(values: seq<string>, k: nat): Fields
    requires |values| == |FIELDS| && k <= |FIELDS|
  {
    if k == 0 then map[] else FieldMap(values, k - 1)[FIELDS[k - 1] := values[k - 1]]
  }

  lemma {:induction false} FieldMapAt(values: seq<string>, k: nat, i: nat)
    requires |values| == |FIELDS| && k <= |FIELDS| && i < |FIELDS|
    ensures FIELDS[i] in FieldMap(values, k) <==> i < k
    ensures i < k ==> FieldMap(values, k)[FIELDS[i]] == values[i]
  {
    hide FIELDS;
    if k > 0 {
      FieldMapAt(values, k - 1, i);
      if i < k - 1 { FieldNamesDiffer(i, k - 1); }
      if k - 1 < i { FieldNamesDiffer(k - 1, i); }
    }
  }

  /** Reading rendered field lines, after any blank lines that are skipped, gives the fields. */
  lemma {:induction false} ReadRendered(before: seq<string>, values: seq<string>, k: nat, strict: bool)
    requires |values| == |FIELDS| && k <= |FIELDS| && ReadFields(before, strict) == Some(map[])
    ensures ReadFields(before + FieldLines(values)[..k], strict) == Some(FieldMap(values, k))
  {
    hide FIELDS;
    hide ReadField, FieldLine;
    var lines := before + FieldLines(values)[..k];
    if k == 0 {
      assert lines == before;
    } else {
      assert lines[..|lines| - 1] == before + FieldLines(values)[..k - 1];
      ReadRendered(before, values, k - 1, strict);
      FieldMapAt(values, k - 1, k - 1);
      ReadLine(FieldMap(values, k - 1), k - 1, values[k - 1], strict);
    }
  }

  lemma BlankIsSkipped(lines: seq<string>)
    requires ReadFields(lines, false).Some?
    ensures ReadFields(lines + [""], false) == ReadFields(lines, false)
  {
    hide FIELDS;
    assert (lines + [""])[..|lines|] == lines;
  }

  lemma ReadBoth(values: seq<string>)
    requires |values| == |FIELDS|
    ensures ReadFields(FieldLines(values), true) == Some(FieldMap(values, |FIELDS|))
    ensures ReadFields([""] + FieldLines(values) + [""], false) == Some(FieldMap(values, |FIELDS|))
  {
    hide FIELDS, FieldLine, ReadField;
    var lines := FieldLines(values);
    assert lines[..|FIELDS|] == lines && [] + lines == lines;
    ReadRendered([], values, |FIELDS|, true);
    BlankIsSkipped([]);
    assert [] + [""] == [""];
    ReadRendered([""], values, |FIELDS|, false);
    BlankIsSkipped([""] + lines);
  }

  lemma MetadataRoundTrip(f: Metadata)
    ensures var fields := FieldMap(f.Values(), |FIELDS|);
      && MetadataFrom(fields) == Some(f)
      && FIELDS[0] in fields && fields[FIELDS[0]] == f.format && FIELDS[1] in fields
  {
    hide FIELDS, FieldMap;
    var v, fields := f.Values(), FieldMap(f.Values(), |FIELDS|);
    assert |FIELDS| == 17;
    forall i | 0 <= i < |FIELDS| ensures FIELDS[i] in fields && fields[FIELDS[i]] == v[i] { FieldMapAt(v, |FIELDS|, i); }
  }

  lemma FieldLineIsLine(i: nat, value: string)
    requires i < |FIELDS|
    ensures !LooksLikeHeading(FieldLine(i, value)) && FieldLine(i, value) != ""
    ensures OneLine(value) ==> OneLine(FieldLine(i, value))
    ensures '\n' !in value && '\r' !in value ==> '\n' !in FieldLine(i, value) && '\r' !in FieldLine(i, value)
  {
    hide FIELDS, OneLine;
    var line := FieldLine(i, value);
    FieldNames(i);
    ColonIsLine();
    ConcatIsLine(FIELDS[i], ": ");
    LineHasNoFeed(FIELDS[i] + ": ");
    if OneLine(value) { ConcatIsLine(FIELDS[i] + ": ", value); }
    assert line[0] == FIELDS[i][0];
    assert |line| > 3 ==> line[..3][0] == line[0];
  }

  lemma ColonIsLine()
    ensures OneLine(": ")
  {
  }

  // ----- Sections -----

  /** The lines of one rendered section. */
  function Chunk(bodies: seq<string>, k: nat): seq<string>
    requires |bodies| == |SECTIONS| && k < |SECTIONS|
  {
    [HeadingLine(k)] + ([""] + Split(bodies[k], '\n') + [""])
  }

  function Chunks(bodies: seq<string>, k: nat): (chunks: seq<seq<string>>)
    requires |bodies| == |SECTIONS| && k <= |SECTIONS|
    ensures |chunks| == |SECTIONS| - k && forall i | 0 <= i < |chunks| :: chunks[i] == Chunk(bodies, k + i)
    decreases |SECTIONS| - k
  {
    if k == |SECTIONS| then [] else [Chunk(bodies, k)] + Chunks(bodies, k + 1)
  }

  function SectionLines(bodies: seq<string>, k: nat): seq<string>
    requires |bodies| == |SECTIONS| && k <= |SECTIONS|
    decreases |SECTIONS| - k
  {
    if k == |SECTIONS| then [] else Chunk(bodies, k) + SectionLines(bodies, k + 1)
  }

  lemma HeadingFacts(k: nat)
    requires k < |SECTIONS|
    ensures IsHeading(HeadingLine(k)) && '\n' !in HeadingLine(k) && '\r' !in HeadingLine(k) && HeadingLine(k)[3..] in SECTIONS
  {
    var line := HeadingLine(k);
    assert line[..3] == "## " && line[3..] == SECTIONS[k];
    assert SECTIONS[k] != "" && '\n' !in SECTIONS[k] && '\r' !in SECTIONS[k];
  }

  lemma SplitEmpty()
    ensures Split("", '\n') == [""]
  {
  }

  lemma OneSectionSplit(heading: string, body: string, tail: string)
    requires '\n' !in heading
    ensures Split(heading + "\n\n" + body + "\n" + tail, '\n') == [heading] + ([""] + (Split(body, '\n') + Split(tail, '\n')))
  {
    hide Split;
    SplitEmpty();
    SplitPlain(heading, '\n');
    var inner := body + ['\n'] + tail;
    SplitConcat(body, '\n', tail);
    SplitConcat("", '\n', inner);
    SplitConcat(heading, '\n', "" + ['\n'] + inner);
    assert heading + "\n\n" + body + "\n" + tail == heading + ['\n'] + ("" + ['\n'] + inner);
  }

  lemma BlankThen(text: string)
    ensures Split("\n" + text, '\n') == [""] + Split(text, '\n')
  {
    assert "\n" + text == "" + ['\n'] + text;
    SplitConcat("", '\n', text);
  }

  lemma {:induction false} SectionsSplit(bodies: seq<string>, k: nat)
    requires |bodies| == |SECTIONS| && k < |SECTIONS|
    ensures Split(SectionsText(bodies, k), '\n') == SectionLines(bodies, k)
    decreases |SECTIONS| - k
  {
    hide SECTIONS, HeadingLine, Split;
    var heading, body, last := HeadingLine(k), bodies[k], k == |SECTIONS| - 1;
    var tail := if last then "" else "\n" + SectionsText(bodies, k + 1);
    var after := SectionLines(bodies, k + 1);
    if last { SplitEmpty(); } else { SectionsSplit(bodies, k + 1); BlankThen(SectionsText(bodies, k + 1)); }
    assert Split(tail, '\n') == [""] + after;
    HeadingFacts(k);
    OneSectionSplit(heading, body, tail);
    assert SectionsText(bodies, k) == heading + "\n\n" + body + "\n" + tail;
    assert [heading] + ([""] + (Split(body, '\n') + ([""] + after))) == Chunk(bodies, k) + after;
  }

  lemma {:induction false} GroupsPlain(plain: seq<string>, rest: seq<string>)
    requires forall line | line in plain :: !LooksLikeHeading(line)
    ensures Groups(plain + rest) == [plain + Groups(rest)[0]] + Groups(rest)[1..]
  {
    hide LooksLikeHeading;
    if plain == [] {
      assert plain + rest == rest && plain + Groups(rest)[0] == Groups(rest)[0];
      assert Groups(rest) == [Groups(rest)[0]] + Groups(rest)[1..];
    } else {
      assert (plain + rest)[1..] == plain[1..] + rest;
      GroupsPlain(plain[1..], rest);
      assert !LooksLikeHeading(plain[0]);
      assert [plain[0]] + (plain[1..] + Groups(rest)[0]) == plain + Groups(rest)[0];
    }
  }

  lemma GroupsHeading(heading: string, rest: seq<string>)
    requires IsHeading(heading) && rest != []
    ensures Groups([heading] + rest) == [[]] + ([[heading] + Groups(rest)[0]] + Groups(rest)[1..])
  {
    hide IsHeading;
    assert ([heading] + rest)[1..] == rest;
  }

  lemma BodyLinesArePlain(body: string)
    requires BodyOk(body)
    ensures forall line | line in [""] + Split(body, '\n') + [""] :: !LooksLikeHeading(line)
  {
    hide Substantial;
  }

  lemma {:induction false} SectionGroups(bodies: seq<string>, k: nat)
    requires |bodies| == |SECTIONS| && k <= |SECTIONS| && forall body | body in bodies :: BodyOk(body)
    ensures Groups(SectionLines(bodies, k)) == [[]] + Chunks(bodies, k)
    decreases |SECTIONS| - k
  {
    hide SECTIONS, HeadingLine, Split, IsHeading, BodyOk;
    if k < |SECTIONS| {
      var plain, rest := [""] + Split(bodies[k], '\n') + [""], SectionLines(bodies, k + 1);
      SectionGroups(bodies, k + 1);
      HeadingFacts(k);
      BodyLinesArePlain(bodies[k]);
      GroupsPlain(plain, rest);
      GroupsHeading(HeadingLine(k), plain + rest);
      assert SectionLines(bodies, k) == [HeadingLine(k)] + (plain + rest);
      assert plain + Groups(rest)[0] == plain && Groups(rest)[1..] == Chunks(bodies, k + 1);
    }
  }

  lemma ChunkIsOk(bodies: seq<string>, k: nat)
    requires |bodies| == |SECTIONS| && k < |SECTIONS| && BodyOk(bodies[k])
    ensures SectionGroupOk(Chunk(bodies, k), k) && BodyOf(Chunk(bodies, k)) == Some(bodies[k])
  {
    hide SECTIONS, HeadingLine, Substantial;
    var chunk, lines := Chunk(bodies, k), Split(bodies[k], '\n');
    HeadingFacts(k);
    assert chunk[2..|chunk| - 1] == lines;
    JoinSplit(bodies[k], '\n');
    assert chunk[0] == HeadingLine(k) && chunk[1] == "" && chunk[|chunk| - 1] == "";
    forall line | line in chunk && LooksLikeHeading(line) ensures line[3..] in SECTIONS {
      assert line == HeadingLine(k) || line == "" || line in lines;
    }
  }

  lemma SectionsRoundTrip(bodies: seq<string>)
    requires |bodies| == |SECTIONS| && forall body | body in bodies :: BodyOk(body)
    ensures ReadSections(Chunks(bodies, 0)) == Some(bodies)
  {
    hide SECTIONS, BodyOk, SectionGroupOk, BodyOf, Chunk;
    forall k | 0 <= k < |SECTIONS|
      ensures SectionGroupOk(Chunks(bodies, 0)[k], k) && BodyOf(Chunks(bodies, 0)[k]) == Some(bodies[k])
    {
      ChunkIsOk(bodies, k);
    }
    assert ReadSections(Chunks(bodies, 0)).value == bodies;
  }

  // ----- The whole record -----

  lemma HeaderFacts(id: string, title: string)
    requires IsCrID(id) && title != "" && OneLine(title)
    ensures var h := Header(id, title);
      && IsHeader(h) && h[2..9] == id && h[11..] == title && OneLine(h) && '\n' !in h && '\r' !in h && !LooksLikeHeading(h)
  {
    var h := Header(id, title);
    assert |id| == 7 && h[..2] == "# " && h[2..9] == id && h[9..11] == ": " && h[11..] == title;
    assert forall i | 0 <= i < 3 :: id[..3][i] == id[i];
    assert forall i | 3 <= i < 7 :: id[i] in id[3..];
    assert OneLine(id);
    ConcatIsLine("# ", id);
    ConcatIsLine("# " + id, ": ");
    ConcatIsLine("# " + id + ": ", title);
    LineHasNoFeed(h);
    assert h[..3][1] == ' ';
  }

  lemma LineHasNoFeed(s: string)
    requires OneLine(s)
    ensures '\n' !in s && '\r' !in s
  {
  }

  lemma {:induction false} TerminatedParagraph(lines: seq<string>)
    requires lines != []
    ensures Terminated(lines + [""]) == Join(lines, '\n') + "\n\n"
  {
    assert (lines + [""])[1..] == lines[1..] + [""];
    if |lines| == 1 {
      assert Terminated([""]) == "\n" by { assert [""][1..] == []; }
      assert lines[1..] + [""] == [""];
    } else {
      TerminatedParagraph(lines[1..]);
      assert lines[0] + "\n" + (Join(lines[1..], '\n') + "\n\n") == Join(lines, '\n') + "\n\n";
    }
  }

  /** The lines of a rendered record before its first section. */
  function Front(header: string, fieldLines: seq<string>): seq<string> { [header] + ([""] + (fieldLines + [""])) }

  lemma FrontPreamble(header: string, fieldLines: seq<string>)
    requires fieldLines != []
    ensures Preamble(header, Front(header, fieldLines)) == "\n" + Join(fieldLines, '\n') + "\n\n"
  {
    var front, body := Front(header, fieldLines), Join(fieldLines, '\n') + "\n\n";
    TerminatedParagraph(fieldLines);
    assert front[1..] == [""] + (fieldLines + [""]) && front[1..][1..] == fieldLines + [""];
    assert Terminated(front) == header + "\n" + ("" + "\n" + body);
    assert Terminated(front)[|header| + 1..] == "\n" + body;
    assert "\n" + body == "\n" + Join(fieldLines, '\n') + "\n\n";
  }

  lemma PreambleLines(fieldLines: seq<string>)
    requires fieldLines != [] && forall line | line in fieldLines :: OneLine(line) && line != ""
    ensures var preamble := "\n" + Join(fieldLines, '\n') + "\n\n";
      && SplitLines(preamble) == [""] + fieldLines + [""] && Paragraph(preamble)
      && |preamble| >= 3 && SplitLines(preamble[1..|preamble| - 2]) == fieldLines
  {
    hide SplitLines, OneLine, Join;
    var inner, preamble := Join(fieldLines, '\n'), "\n" + Join(fieldLines, '\n') + "\n\n";
    EmptyIsLine();
    FirstLine("", inner + "\n\n");
    LinesOfParagraph(fieldLines);
    LinesOfJoin(fieldLines);
    assert "" + "\n" + (inner + "\n\n") == preamble;
    assert preamble[1..|preamble| - 2] == inner && preamble[|preamble| - 2..] == "\n\n";
    assert [""] + (fieldLines + [""]) == [""] + fieldLines + [""];
  }

  lemma EmptyIsLine()
    ensures OneLine("")
  {
  }

  lemma {:induction false} JoinHasNoReturn(lines: seq<string>)
    requires forall line | line in lines :: '\r' !in line
    ensures '\r' !in Join(lines, '\n')
  {
    if lines != [] { JoinHasNoReturn(lines[1..]); }
  }

  lemma {:induction false} SectionsHaveNoReturn(bodies: seq<string>, k: nat)
    requires |bodies| == |SECTIONS| && k <= |SECTIONS| && forall body | body in bodies :: '\r' !in body
    ensures '\r' !in SectionsText(bodies, k)
    decreases |SECTIONS| - k
  {
    hide SECTIONS, HeadingLine;
    if k < |SECTIONS| {
      HeadingFacts(k);
      SectionsHaveNoReturn(bodies, k + 1);
    }
  }

  /** A rendered record, put together from its parts. */
  function Assembled(header: string, fieldLines: seq<string>, bodies: seq<string>): string
    requires |bodies| == |SECTIONS|
  {
    header + "\n\n" + Join(fieldLines, '\n') + "\n\n" + SectionsText(bodies, 0)
  }

  lemma AssembledSplit(header: string, fieldLines: seq<string>, bodies: seq<string>)
    requires '\n' !in header && fieldLines != [] && |bodies| == |SECTIONS| && forall line | line in fieldLines :: '\n' !in line
    ensures Split(Assembled(header, fieldLines, bodies), '\n') == Front(header, fieldLines) + SectionLines(bodies, 0)
  {
    hide Split, SectionsText, Join, HeadingLine, SectionLines;
    var sections, inner, lines := SectionsText(bodies, 0), Join(fieldLines, '\n'), SectionLines(bodies, 0);
    SplitJoin(fieldLines, '\n');
    OneSectionSplit(header, inner, "\n" + sections);
    assert Assembled(header, fieldLines, bodies) == header + "\n\n" + inner + "\n" + ("\n" + sections);
    BlankThen(sections);
    SectionsSplit(bodies, 0);
    assert [header] + ([""] + (fieldLines + ([""] + lines))) == Front(header, fieldLines) + lines;
  }

  lemma AssembledLines(header: string, fieldLines: seq<string>, bodies: seq<string>)
    requires OneLine(header) && |bodies| == |SECTIONS|
    ensures var lines := SplitLines(Assembled(header, fieldLines, bodies)); |lines| >= 2 && lines[0] == header && lines[1] == ""
  {
    hide OneLine, SplitLines, SectionsText, Join;
    var rest := Join(fieldLines, '\n') + "\n\n" + SectionsText(bodies, 0);
    EmptyIsLine();
    FirstLine(header, "\n" + rest);
    FirstLine("", rest);
    assert "" + "\n" + rest == "\n" + rest;
    assert Assembled(header, fieldLines, bodies) == header + "\n" + ("\n" + rest);
  }

  /** A rendered record, taken apart. */
  lemma RenderedShape(header: string, fieldLines: seq<string>, bodies: seq<string>)
    requires OneLine(header) && !LooksLikeHeading(header) && fieldLines != [] && |bodies| == |SECTIONS|
    requires forall line | line in fieldLines :: '\n' !in line && '\r' !in line && !LooksLikeHeading(line)
    requires forall body | body in bodies :: BodyOk(body)
    ensures var text := Assembled(header, fieldLines, bodies);
      && Groups(Split(text, '\n')) == [Front(header, fieldLines)] + Chunks(bodies, 0)
      && |SplitLines(text)| >= 2 && SplitLines(text)[0] == header && SplitLines(text)[1] == "" && '\r' !in text
  {
    hide OneLine, LooksLikeHeading, BodyOk, Split, SplitLines, SectionsText, Groups, Join, HeadingLine, SectionLines, Chunks;
    LineHasNoFeed(header);
    AssembledSplit(header, fieldLines, bodies);
    AssembledLines(header, fieldLines, bodies);
    var front, lines := Front(header, fieldLines), SectionLines(bodies, 0);
    EmptyIsNoHeading();
    GroupsPlain(front, lines);
    SectionGroups(bodies, 0);
    assert front + [] == front;
    JoinHasNoReturn(fieldLines);
    forall body | body in bodies ensures '\r' !in body { BodyHasNoReturn(body); }
    SectionsHaveNoReturn(bodies, 0);
  }

  lemma EmptyIsNoHeading()
    ensures !LooksLikeHeading("")
  {
  }

  lemma BodyHasNoReturn(body: string)
    requires BodyOk(body)
    ensures '\r' !in body
  {
  }

  /** Parsing the rendering of a well-formed model gives the model back. */
  lemma ParseRender(codec: Codec, m: Model)
    requires Faithful(codec) && WellFormed(codec, m)
    ensures Parse(codec, Render(codec, m)) == Some(m)
  {
    hide OneLine, LooksLikeHeading, BodyOk, Split, SplitLines, SectionsText, Groups, Join, HeadingLine, IsHeader, IsCrID, Filled;
    hide MetadataOf, ReadFields, MetadataFrom, ReadSections, Build, Chunks, Front, FieldMap, Faithful, Preamble, Header;
    hide IsPolicyVersion, IsOID, IsTarget, IsStrategy, IsEvidence, Lifecycle, StrictlySorted, ExtensionKeysOk, FieldLine, FIELDS;
    var header, f := Header(m.id, m.title), MetadataOf(codec, m);
    var fieldLines, text := FieldLines(f.Values()), Render(codec, m);
    TitleNotEmpty(m.title);
    HeaderFacts(m.id, m.title);
    ValuesAreLines(codec, m);
    forall line | line in fieldLines
      ensures OneLine(line) && line != "" && '\n' !in line && '\r' !in line && !LooksLikeHeading(line)
    {
      var i :| 0 <= i < |FIELDS| && line == FieldLine(i, f.Values()[i]);
      FieldLineIsLine(i, f.Values()[i]);
      LineHasNoFeed(line);
    }
    FieldLinesNotEmpty(f.Values());
    RenderedShape(header, fieldLines, m.sections);
    FrontPreamble(header, fieldLines);
    PreambleLines(fieldLines);
    ReadBoth(f.Values());
    MetadataRoundTrip(f);
    SectionsRoundTrip(m.sections);
    BuildRoundTrip(codec, m);
    RenderedFormat(codec, m);
    var groups := Groups(Split(text, '\n'));
    assert |groups| > 1 && groups[1..] == Chunks(m.sections, 0);
  }

  lemma TitleNotEmpty(s: string)
    requires Filled(s)
    ensures s != ""
  {
  }

  lemma FieldLinesNotEmpty(values: seq<string>)
    requires |values| == |FIELDS|
    ensures FieldLines(values) != []
  {
  }

  lemma RenderedFormat(codec: Codec, m: Model)
    ensures MetadataOf(codec, m).format == FORMAT && FIELDS[0] == "Format" && FIELDS[1] == "Schema Version"
  {
  }

  /** Every accepted record is the rendering of the model it parses to, so parsing and rendering are inverse on accepted records. */
  lemma RenderParse(codec: Codec, text: string)
    requires Parse(codec, text).Some?
    ensures |Parse(codec, text).value.sections| == |SECTIONS| && Render(codec, Parse(codec, text).value) == text
  {
    hide Split, SplitLines, Groups, ReadFields, MetadataFrom, ReadSections, Build, Preamble, Render, IsHeader;
  }

  /** Two well-formed models with the same rendering are the same model. */
  lemma RenderIsInjective(codec: Codec, m: Model, n: Model)
    requires Faithful(codec) && WellFormed(codec, m) && WellFormed(codec, n) && Render(codec, m) == Render(codec, n)
    ensures m == n
  {
    hide WellFormed, Parse, Render;
    ParseRender(codec, m);
    ParseRender(codec, n);
  }

  // ----- Only well-formed models are accepted -----

  lemma {:induction false} SplitLinesAreLines(s: string)
    ensures forall line | line in SplitLines(s) :: OneLine(line)
  {
    hide OneLine, IsBreak;
    if s != "" {
      var n := FirstBreak(s);
      if n == |s| {
        assert s[..n] == s;
      } else {
        SplitLinesAreLines(s[if s[n..n + 1] == "\r" && n + 1 < |s| && s[n + 1] == '\n' then n + 2 else n + 1..]);
      }
    }
  }

  lemma {:induction false} ReadValuesAreLines(lines: seq<string>, strict: bool)
    requires (forall line | line in lines :: OneLine(line)) && ReadFields(lines, strict).Some?
    ensures forall k | k in ReadFields(lines, strict).value :: OneLine(ReadFields(lines, strict).value[k])
  {
    hide Known, FIELDS;
    if lines != [] {
      ReadValuesAreLines(lines[..|lines| - 1], strict);
      var line := lines[|lines| - 1];
      assert OneLine(line);
      var n := FirstColon(line);
      if n < |line| { TailIsLine(line, n + 2); }
    }
  }

  lemma {:induction false} NumeralIsPositive(s: string)
    requires PositiveNumeral(s)
    ensures Value(s) > 0
  {
    if |s| == 1 {
      assert s[0] in s && s[..0] == "";
    } else {
      assert s[..|s| - 1][0] == s[0];
      NumeralIsPositive(s[..|s| - 1]);
    }
  }

  /** Headings stand only at the head of a group, apart from an unterminated last line. */
  predicate PlainIn(groups: seq<seq<string>>, k: int, i: int) {
    0 <= k < |groups| && (if k == 0 then 0 else 1) <= i < |groups[k]| && !(k == |groups| - 1 && i == |groups[k]| - 1) ==>
      !IsHeading(groups[k][i])
  }

  lemma GroupsShape(lines: seq<string>)
    requires lines != []
    ensures var groups, rest := Groups(lines), Groups(lines[1..]);
      if IsHeading(lines[0]) && |lines| > 1 then
        && |groups| == |rest| + 1 && groups[0] == [] && groups[1] == [lines[0]] + rest[0]
        && forall k | 1 < k < |groups| :: groups[k] == rest[k - 1]
      else
        && |groups| == |rest| && groups[0] == [lines[0]] + rest[0] && forall k | 0 < k < |groups| :: groups[k] == rest[k]
  {
    hide IsHeading;
  }

  lemma {:induction false} GroupsArePlain(lines: seq<string>, k: int, i: int)
    ensures PlainIn(Groups(lines), k, i)
  {
    if lines == [] { NoGroups(); } else { PlainStep(lines, k, i); }
  }

  lemma {:induction false} PlainStep(lines: seq<string>, k: int, i: int)
    requires lines != []
    ensures PlainIn(Groups(lines), k, i)
    decreases |lines|, 0
  {
    hide IsHeading, Groups;
    GroupsShape(lines);
    var rest := lines[1..];
    if rest == [] {
      NoGroups();
    } else if IsHeading(lines[0]) {
      if k == 1 { PlainStep(rest, 0, i - 1); } else { PlainStep(rest, k - 1, i); }
    } else {
      if k == 0 { PlainStep(rest, 0, i - 1); } else { PlainStep(rest, k, i); }
      LastGroup(rest);
    }
  }

  lemma NoGroups()
    ensures Groups([]) == [[]]
  {
  }

  lemma {:induction false} LastGroup(lines: seq<string>)
    ensures |Groups(lines)| == 1 ==> Groups(lines)[0] == lines
  {
    hide IsHeading;
    if lines != [] { LastGroup(lines[1..]); }
  }

  lemma {:induction false} GroupsHoldLines(lines: seq<string>, k: int, line: string)
    requires 0 <= k < |Groups(lines)| && line in Groups(lines)[k]
    ensures line in lines
  {
    hide IsHeading;
    if lines != [] {
      var rest := Groups(lines[1..]);
      var starts := IsHeading(lines[0]) && |lines| > 1;
      var j := if starts then k - 1 else k;
      if j >= 0 && line in rest[j] { GroupsHoldLines(lines[1..], j, line); }
    }
  }

  lemma {:induction false} PiecesOf(text: string, c: char)
    requires c !in text
    ensures forall line | line in Split(text, '\n') :: c !in line
  {
    if text != "" { PiecesOf(text[1..], c); }
  }

  lemma {:induction false} JoinLacks(lines: seq<string>, c: char)
    requires c != '\n' && forall line | line in lines :: c !in line
    ensures c !in Join(lines, '\n')
  {
    if lines != [] { JoinLacks(lines[1..], c); }
  }

  lemma AcceptedBody(text: string, k: nat)
    requires '\r' !in text && k < |SECTIONS| && |Groups(Split(text, '\n'))| == |SECTIONS| + 1
    requires SectionGroupOk(Groups(Split(text, '\n'))[k + 1], k)
    ensures BodyOk(BodyOf(Groups(Split(text, '\n'))[k + 1]).value)
  {
    hide SECTIONS, Groups, Split, Substantial, Join, HeadingLine;
    var groups := Groups(Split(text, '\n'));
    var group := groups[k + 1];
    var lines := group[2..|group| - 1];
    SplitPieces(text, '\n');
    PiecesOf(text, '\r');
    forall line | line in lines ensures '\n' !in line && '\r' !in line && !LooksLikeHeading(line) {
      var i :| 2 <= i < |group| - 1 && group[i] == line;
      assert line in group;
      GroupsHoldLines(Split(text, '\n'), k + 1, line);
      GroupsArePlain(Split(text, '\n'), k + 1, i);
    }
    SplitJoin(lines, '\n');
    JoinLacks(lines, '\r');
  }

  /** What the checks on metadata leave: everything that well-formedness asks of the values. */
  lemma BuiltValues(codec: Codec, id: string, title: string, f: Metadata, sections: seq<string>)
    requires Build(codec, id, title, f, sections).Some? && OneLine(f.base) && OneLine(f.head)
    ensures var m := Build(codec, id, title, f, sections).value;
      && m.id == id && m.title == title && m.sections == sections && Filled(m.title) && Filled(m.base) && Filled(m.head)
      && OneLine(m.base) && OneLine(m.head)
      && m.revision > 0 && IsPolicyVersion(m.policyVersion) && IsOID(m.baseOID) && IsOID(m.headOID)
      && IsTarget(m.target) && IsStrategy(m.strategy) && IsEvidence(m.evidence)
      && Lifecycle(m.status, m.decision, m.result.None?)
      && (m.result.Some? ==> m.result.value.0 == m.target && IsOID(m.result.value.1))
      && (forall v | v in m.coverage :: IsOID(v)) && StrictlySorted(m.coverage)
      && ExtensionKeysOk(m.extensions)
  {
    hide IsOID, IsTarget, IsPolicyVersion, IsStrategy, IsEvidence, Lifecycle, Filled, ExtensionKeysOk, PositiveNumeral, Words;
    NumeralIsPositive(f.revision);
  }

  /** Whatever the encoding of its extensions, an accepted record holds a model whose values fit their fields. */
  lemma AcceptedFits(codec: Codec, text: string)
    requires Parse(codec, text).Some?
    ensures FieldsFit(Parse(codec, text).value)
  {
    hide Groups, Split, SplitLines, ReadFields, Build, BodyOk, OneLine, IsCrID, Render, SectionGroupOk, BodyOf, Preamble, Filled;
    hide IsPolicyVersion, IsOID, IsTarget, IsStrategy, IsEvidence, Lifecycle, StrictlySorted, ExtensionKeysOk, Paragraph, FIELDS;
    var lines, groups := SplitLines(text), Groups(Split(text, '\n'));
    var preamble := Preamble(lines[0], groups[0]);
    var inner := if |preamble| < 3 then "" else preamble[1..|preamble| - 2];
    var fields, sections := ReadFields(SplitLines(inner), true), ReadSections(groups[1..]);
    var f := MetadataFrom(fields.value).value;
    SplitLinesAreLines(text);
    SplitLinesAreLines(inner);
    ReadValuesAreLines(SplitLines(inner), true);
    MetadataIsLines(fields.value);
    BuiltValues(codec, lines[0][2..9], lines[0][11..], f, sections.value);
    TailIsLine(lines[0], 11);
    forall body | body in sections.value ensures BodyOk(body) {
      var k :| 0 <= k < |SECTIONS| && sections.value[k] == body;
      AcceptedBody(text, k);
    }
  }

  lemma MetadataIsLines(fields: Fields)
    requires MetadataFrom(fields).Some? && forall k | k in fields :: OneLine(fields[k])
    ensures OneLine(MetadataFrom(fields).value.base) && OneLine(MetadataFrom(fields).value.head)
  {
    hide OneLine;
    assert FIELDS[2] in FIELDS && FIELDS[3] in FIELDS;
  }

  lemma TailIsLine(s: string, n: nat)
    requires OneLine(s) && n <= |s|
    ensures OneLine(s[n..])
  {
  }

  // ----- Extensions that do not fit on a line -----

  lemma {:induction false} LinesThenMore(parts: seq<string>, last: string)
    requires forall part | part in parts :: OneLine(part)
    ensures SplitLines(Join(parts + [last], '\n')) == parts + SplitLines(last)
  {
    hide SplitLines, OneLine;
    if parts == [] {
      assert parts + [last] == [last] && [] + SplitLines(last) == SplitLines(last);
    } else {
      LinesThenMore(parts[1..], last);
      FirstLine(parts[0], Join(parts[1..] + [last], '\n'));
      assert (parts + [last])[1..] == parts[1..] + [last];
      assert [parts[0]] + (parts[1..] + SplitLines(last)) == parts + SplitLines(last);
    }
  }

  lemma BreakInside(value: string)
    requires !OneLine(value)
    ensures FirstBreak(value) < |value|
  {
    assert value[..|value|] == value;
  }

  lemma FirstPiece(line: string, n: nat)
    requires n < |line| && OneLine(line[..n]) && IsBreak(line[n]) && line[n] != '\r'
    ensures SplitLines(line) == [line[..n]] + SplitLines(line[n + 1..])
  {
    hide OneLine, IsBreak;
    FirstBreakIs(line, n);
    assert line[n..n + 1][0] == line[n];
  }

  lemma SomeLine(s: string)
    requires s != ""
    ensures SplitLines(s) != []
  {
  }

  /** A break inside a value makes more than one line of its field. */
  lemma BrokenLine(prefix: string, value: string)
    requires OneLine(prefix) && value != "" && !OneLine(value) && '\r' !in value && !IsBreak(value[|value| - 1])
    ensures var n := FirstBreak(value);
      && n < |value| && |SplitLines(prefix + value)| >= 2 && SplitLines(prefix + value)[0] == prefix + value[..n]
  {
    hide SplitLines, OneLine, IsBreak;
    var n, line := FirstBreak(value), prefix + value;
    BreakInside(value);
    ConcatIsLine(prefix, value[..n]);
    assert line[..|prefix| + n] == prefix + value[..n] && line[|prefix| + n] == value[n];
    assert value[n] in value && n < |value| - 1;
    FirstPiece(line, |prefix| + n);
    SomeLine(line[|prefix| + n + 1..]);
  }

  /** Once all fields are taken, strict reading refuses any further line. */
  lemma FullRefuses(values: seq<string>, line: string)
    requires |values| == |FIELDS|
    ensures ReadField(FieldMap(values, |FIELDS|), line, true).None?
  {
    hide FIELDS, FieldMap;
    var n := FirstColon(line);
    if n < |line| && Known(line[..n]) {
      var i :| 0 <= i < |FIELDS| && FIELDS[i] == line[..n];
      FieldMapAt(values, |FIELDS|, i);
    }
  }

  lemma BrokenLastFieldIsRefused(values: seq<string>)
    requires |values| == |FIELDS| && forall i | 0 <= i < |FIELDS| - 1 :: OneLine(values[i])
    requires var e := values[|FIELDS| - 1]; e != "" && !OneLine(e) && '\r' !in e && !IsBreak(e[|e| - 1])
    ensures ReadFields(SplitLines(Join(FieldLines(values), '\n')), true).None?
  {
    hide FIELDS, OneLine, SplitLines, ReadFields, IsBreak;
    FieldCount();
    var last, e := |FIELDS| - 1, values[|FIELDS| - 1];
    var parts, n := FieldLines(values)[..last], FirstBreak(e);
    forall part | part in parts ensures OneLine(part) {
      var i :| 0 <= i < last && part == FieldLine(i, values[i]);
      FieldLineIsLine(i, values[i]);
    }
    assert FieldLines(values) == parts + [FieldLine(last, e)];
    LinesThenMore(parts, FieldLine(last, e));
    FieldNames(last);
    ColonIsLine();
    ConcatIsLine(FIELDS[last], ": ");
    BrokenLine(FIELDS[last] + ": ", e);
    var pieces := SplitLines(FieldLine(last, e));
    var cut := values[last := e[..n]];
    var lines := parts + pieces;
    assert lines[..|FIELDS|] == FieldLines(cut)[..|FIELDS|];
    NoFields();
    ReadRendered([], cut, |FIELDS|, true);
    assert [] + FieldLines(cut)[..|FIELDS|] == lines[..|FIELDS|];
    FullRefuses(cut, lines[|FIELDS|]);
    OneMoreRefused(lines, |FIELDS|, cut);
    RefusalSticks(lines, |FIELDS| + 1, true);
  }

  lemma FieldCount()
    ensures |FIELDS| == 17
  {
  }

  lemma NoFields()
    ensures ReadFields([], true) == Some(map[])
  {
  }

  lemma OneMoreRefused(lines: seq<string>, n: nat, values: seq<string>)
    requires |values| == |FIELDS| && n < |lines| && ReadFields(lines[..n], true) == Some(FieldMap(values, |FIELDS|))
    requires ReadField(FieldMap(values, |FIELDS|), lines[n], true).None?
    ensures ReadFields(lines[..n + 1], true).None?
  {
    hide FIELDS, ReadField, FieldMap;
    assert lines[..n + 1][..n] == lines[..n];
  }

  /** A record whose extensions do not fit on a line is rendered, and then refused. */
  lemma BrokenExtensionsAreRefused(codec: Codec, m: Model)
    requires JsonText(codec) && FieldsFit(m) && !OneLine(codec.encode(m.extensions))
    ensures Parse(codec, Render(codec, m)).None?
  {
    hide OneLine, LooksLikeHeading, BodyOk, Split, SplitLines, SectionsText, Groups, Join, HeadingLine, IsHeader, IsCrID, Filled;
    hide MetadataOf, ReadFields, MetadataFrom, ReadSections, Build, Chunks, Front, Preamble, Header, IsBreak, JsonText;
    hide IsPolicyVersion, IsOID, IsTarget, IsStrategy, IsEvidence, Lifecycle, StrictlySorted, ExtensionKeysOk, FieldLine, FIELDS;
    var header, f, e := Header(m.id, m.title), MetadataOf(codec, m), codec.encode(m.extensions);
    var values, fieldLines := f.Values(), FieldLines(f.Values());
    TitleNotEmpty(m.title);
    HeaderFacts(m.id, m.title);
    ValuesAreLines(codec, m);
    EncodedFacts(codec, m.extensions);
    forall line | line in fieldLines ensures '\n' !in line && '\r' !in line && !LooksLikeHeading(line) {
      var i :| 0 <= i < |FIELDS| && line == FieldLine(i, values[i]);
      if i < |FIELDS| - 1 { LineHasNoFeed(values[i]); }
      FieldLineIsLine(i, values[i]);
    }
    FieldLinesNotEmpty(values);
    RenderedShape(header, fieldLines, m.sections);
    FrontPreamble(header, fieldLines);
    BrokenLastFieldIsRefused(values);
    var preamble := "\n" + Join(fieldLines, '\n') + "\n\n";
    assert preamble[1..|preamble| - 2] == Join(fieldLines, '\n');
    assert |preamble| == 3 ==> Join(fieldLines, '\n') == "";
  }

  lemma EncodedFacts(codec: Codec, e: Extensions)
    requires JsonText(codec)
    ensures codec.encode(e) != "" && '\n' !in codec.encode(e) && '\r' !in codec.encode(e)
    ensures !IsBreak(codec.encode(e)[|codec.encode(e)| - 1])
  {
  }

  /** The parser accepts no other models. */
  lemma AcceptedIsWellFormed(codec: Codec, text: string)
    requires JsonText(codec) && Parse(codec, text).Some?
    ensures WellFormed(codec, Parse(codec, text).value)
  {
    hide Parse, Render, FieldsFit, JsonText, OneLine;
    var m := Parse(codec, text).value;
    AcceptedFits(codec, text);
    RenderParse(codec, text);
    if !OneLine(codec.encode(m.extensions)) { BrokenExtensionsAreRefused(codec, m); }
  }

  /** Exactly the well-formed models survive the trip through Markdown. */
  lemma RoundTripIffWellFormed(codec: Codec, m: Model)
    requires Faithful(codec) && JsonText(codec) && |m.sections| == |SECTIONS|
    ensures Parse(codec, Render(codec, m)) == Some(m) <==> WellFormed(codec, m)
  {
    hide Parse, Render, WellFormed, JsonText, Faithful;
    if WellFormed(codec, m) { ParseRender(codec, m); }
    if Parse(codec, Render(codec, m)) == Some(m) { AcceptedIsWellFormed(codec, Render(codec, m)); }
  }

  // ----- Status -----

  function DecisionFor(status: string): string { if status == "integrated" then "accepted" else status }

  const STATUSES := {"pending", "accepted", "integrated", "rejected", "superseded"}

  /** In an accepted record the status is one of five and determines the decision, and a result is there exactly if it is integrated. */
  lemma StatusDetermines(codec: Codec, text: string)
    requires JsonText(codec) && Parse(codec, text).Some?
    ensures var m := Parse(codec, text).value;
      m.status in STATUSES && m.decision == DecisionFor(m.status) && (m.result.Some? <==> m.status == "integrated")
  {
    hide Parse, JsonText, OneLine, IsCrID, IsOID, IsTarget, IsPolicyVersion, StrictlySorted, ExtensionKeysOk, BodyOk, Filled;
    AcceptedIsWellFormed(codec, text);
  }

  /** And every status is read back, from any well-formed model with that status and what belongs to it. */
  lemma EveryStatusIsRead(codec: Codec, m: Model, status: string)
    requires Faithful(codec) && WellFormed(codec, m) && status in STATUSES
    ensures var result := if status == "integrated" then Some((m.target, m.headOID)) else None;
      var n := m.(status := status, decision := DecisionFor(status), result := result);
      Parse(codec, Render(codec, n)) == Some(n)
  {
    hide Parse, Render, Faithful, OneLine, IsCrID, IsOID, IsTarget, IsPolicyVersion, StrictlySorted, ExtensionKeysOk, BodyOk, Filled;
    var result := if status == "integrated" then Some((m.target, m.headOID)) else None;
    ParseRender(codec, m.(status := status, decision := DecisionFor(status), result := result));
  }
}
