/** `src/frequencies.rs`: the line-by-line reader of the SatNOGS DB
    transmitter list, its two field extractors, the five-satellite local
    table, and the name-to-frequency lookup that downloads first and falls
    back to the table.

    The `curl` process is a parameter (what it prints, or that it could
    not be started), and so is `str::parse::<f64>`, whose accepted syntax
    this model does not spell out. */
module Frequencies {
  import opened Wrappers
  import opened Text
  import opened Io

  /** `SatelliteFrequencies`: frequencies in Hz. */
  datatype SatelliteFrequencies = SatelliteFrequencies(
    name: string, noradId: U32, downlinkHz: real, uplinkHz: Option<real>, mode: string)

  /** `str::parse::<f64>`: the value, or `None` where Rust returns an error. */
  type NumberParser = string -> Option<real>

  // ------------------------------------------------------------ extractors

  /** `extract_json_string`: the fourth piece of the line cut at `"`. */
  function ExtractJsonString(line: string): Option<string> {
    var parts := Split(line, '"');
    if |parts| >= 4 then Some(parts[3]) else None
  }

  /** The string extractor finds a value exactly when the line holds at
      least three `"`, and the value holds none. */
  lemma ExtractJsonStringIff(line: string)
    ensures ExtractJsonString(line).Some? <==> multiset(line)['"'] >= 3
    ensures ExtractJsonString(line).Some? ==> '"' !in ExtractJsonString(line).value
  {
    SplitCount(line, '"');
    SplitPiecesFree(line, '"');
  }

  /** `extract_json_number`: the text between the first and the second
      `:` (or the end), trimmed of whitespace and then of every trailing
      comma; `null` and unparsable text give `None`. */
  function ExtractJsonNumber(line: string, parseNumber: NumberParser): Option<real> {
    var parts := Split(line, ':');
    if |parts| >= 2 then
      var numStr := TrimEndMatches(Trim(parts[1]), ',');
      if numStr == "null" then None else parseNumber(numStr)
    else None
  }

  /** On a line `"key"<mid>"value"<tail>` with no `"` in key, mid or value,
      the string extractor gives the value. */
  lemma StringField(key: string, mid: string, value: string, tail: string)
    requires '"' !in key && '"' !in mid && '"' !in value
    ensures ExtractJsonString(['"'] + key + ['"'] + mid + ['"'] + value + ['"'] + tail) == Some(value)
  {
    var line := ['"'] + key + ['"'] + mid + ['"'] + value + ['"'] + tail;
    QuotedPieces(key, mid, value, tail);
    assert Split(line, '"')[3] == value;
  }

  /** How such a line splits at `"`. */
  lemma QuotedPieces(key: string, mid: string, value: string, tail: string)
    requires '"' !in key && '"' !in mid && '"' !in value
    ensures Split(['"'] + key + ['"'] + mid + ['"'] + value + ['"'] + tail, '"')
            == [[], key, mid, value] + Split(tail, '"')
  {
    var q := '"';
    var r1 := value + [q] + tail;
    var r2 := mid + [q] + r1;
    var r3 := key + [q] + r2;
    assert ['"'] + key + ['"'] + mid + ['"'] + value + ['"'] + tail == [] + [q] + r3;
    SplitFirstPiece([], r3, q);
    SplitFirstPiece(key, r2, q);
    SplitFirstPiece(mid, r1, q);
    SplitFirstPiece(value, tail, q);
  }

  /** A line without `:` has no number. */
  lemma NumberNeedsColon(line: string, parseNumber: NumberParser)
    requires ':' !in line
    ensures ExtractJsonNumber(line, parseNumber) == None
  {
    SplitWithoutSeparator(line, ':');
  }

  /** Only the text between the first and the second `:` is read: what
      follows a second `:` is ignored. */
  lemma NumberIgnoresLaterColons(a: string, b: string, c: string, parseNumber: NumberParser)
    requires ':' !in a && ':' !in b
    ensures ExtractJsonNumber(a + [':'] + b + [':'] + c, parseNumber)
            == ExtractJsonNumber(a + [':'] + b, parseNumber)
  {
    SplitConcat(a + [':'] + b, c, ':');
    SplitConcat(a, b, ':');
    SplitWithoutSeparator(a, ':');
    SplitWithoutSeparator(b, ':');
  }

  /** On a line `key:<spaces>value<commas>` the number extractor parses
      the bare value, unless it is `null`. */
  lemma NumberField(key: string, spaces: string, value: string, commas: string, parseNumber: NumberParser)
    requires ':' !in key && ':' !in value
    requires forall i :: 0 <= i < |spaces| ==> IsWhitespace(spaces[i])
    requires forall i :: 0 <= i < |commas| ==> commas[i] == ','
    requires value != [] && !IsWhitespace(value[0]) && !IsWhitespace(value[|value| - 1]) && value[|value| - 1] != ','
    ensures ExtractJsonNumber(key + [':'] + spaces + value + commas, parseNumber)
            == if value == "null" then None else parseNumber(value)
  {
    var rest := spaces + value + commas;
    assert key + [':'] + spaces + value + commas == key + [':'] + rest;
    assert ':' !in spaces by {
      assert forall i :: 0 <= i < |spaces| ==> spaces[i] != ':';
    }
    assert ':' !in commas by {
      assert forall i :: 0 <= i < |commas| ==> commas[i] != ':';
    }
    SecondPiece(key, rest);
    TrimmedNumber(spaces, value, commas);
  }

  /** After one `:`, a colon-free rest is the second piece. */
  lemma SecondPiece(key: string, rest: string)
    requires ':' !in key && ':' !in rest
    ensures |Split(key + [':'] + rest, ':')| >= 2 && Split(key + [':'] + rest, ':')[1] == rest
  {
    SplitFirstPiece(key, rest, ':');
    SplitWithoutSeparator(rest, ':');
  }

  /** Whitespace, then a value, then commas, trim down to the value. */
  lemma TrimmedNumber(spaces: string, value: string, commas: string)
    requires forall i :: 0 <= i < |spaces| ==> IsWhitespace(spaces[i])
    requires forall i :: 0 <= i < |commas| ==> commas[i] == ','
    requires value != [] && !IsWhitespace(value[0]) && !IsWhitespace(value[|value| - 1]) && value[|value| - 1] != ','
    ensures TrimEndMatches(Trim(spaces + value + commas), ',') == value
  {
    var v := value + commas;
    assert v[0] == value[0];
    assert !IsWhitespace(v[|v| - 1]) by {
      if commas != [] {
        assert v[|v| - 1] == commas[|commas| - 1];
      } else {
        assert v == value;
      }
    }
    assert spaces + value + commas == spaces + v + [];
    TrimAround(spaces, v, []);
    TrimEndMatchesOf(value, commas, ',');
  }

  // ---------------------------------------------------------------- parser

  const DescriptionKey: string := "\"description\":"
  const DownlinkKey: string := "\"downlink_low\":"
  const UplinkKey: string := "\"uplink_low\":"
  const ModeKey: string := "\"mode\":"
  const NoDownlinkMessage: string := "No se encontró frecuencia de downlink en SatNOGS"
  const DownloadFailedMessage: string := "Error al descargar frecuencias desde SatNOGS"

  /** What one line of the transmitter list does to the parser's state:
      sets one field, or nothing. */
  datatype FieldUpdate =
    | SetDescription(text: string)
    | SetDownlink(hz: real)
    | SetUplink(hz: real)
    | SetMode(text: string)
    | Unchanged

  /** The parser's four mutable variables. */
  datatype Fields = Fields(description: string, downlinkHz: Option<real>, uplinkHz: Option<real>, mode: string)

  const InitialFields: Fields := Fields("", None, None, "Unknown")

  /** The update of one line: the line is trimmed, the keys are tried in
      the order description, downlink_low, uplink_low, mode, the first key
      found decides which extractor runs, and a failed extraction changes
      nothing. */
  function LineUpdate(rawLine: string, parseNumber: NumberParser): FieldUpdate {
    var line := Trim(rawLine);
    if Contains(line, DescriptionKey) then
      match ExtractJsonString(line)
      case Some(value) => SetDescription(value)
      case None => Unchanged
    else if Contains(line, DownlinkKey) then
      match ExtractJsonNumber(line, parseNumber)
      case Some(value) => SetDownlink(value)
      case None => Unchanged
    else if Contains(line, UplinkKey) then
      match ExtractJsonNumber(line, parseNumber)
      case Some(value) => SetUplink(value)
      case None => Unchanged
    else if Contains(line, ModeKey) then
      match ExtractJsonString(line)
      case Some(value) => SetMode(value)
      case None => Unchanged
    else Unchanged
  }

  function Apply(f: Fields, u: FieldUpdate): Fields {
    match u
    case SetDescription(text) => f.(description := text)
    case SetDownlink(hz) => f.(downlinkHz := Some(hz))
    case SetUplink(hz) => f.(uplinkHz := Some(hz))
    case SetMode(text) => f.(mode := text)
    case Unchanged => f
  }

  /** The update of each line, in order. */
  function Updates(lines: seq<string>, parseNumber: NumberParser): seq<FieldUpdate> {
    seq(|lines|, i requires 0 <= i < |lines| => LineUpdate(lines[i], parseNumber))
  }

  /** The parser's state after the given updates, in order. */
  function Fold(us: seq<FieldUpdate>): Fields {
    if us == [] then InitialFields else Apply(Fold(us[..|us| - 1]), us[|us| - 1])
  }

  /** Folding one more update applies it. */
  lemma FoldStep(us: seq<FieldUpdate>, i: nat)
    requires i < |us|
    ensures Fold(us[..i + 1]) == Apply(Fold(us[..i]), us[i])
  {
    assert us[..i + 1][..i] == us[..i];
  }

  /** The parser's result from its final state: `InvalidData` when no
      line set the downlink, otherwise the four fields and the NORAD ID. */
  function Outcome(f: Fields, noradId: U32): Result<SatelliteFrequencies, IoError> {
    if f.downlinkHz.None? then Err(IoError(InvalidData, NoDownlinkMessage))
    else Ok(SatelliteFrequencies(f.description, noradId, f.downlinkHz.value, f.uplinkHz, f.mode))
  }

  /** `parse_satnogs_json`, as a value. */
  function SatnogsResult(json: string, noradId: U32, parseNumber: NumberParser): Result<SatelliteFrequencies, IoError> {
    Outcome(Fold(Updates(Lines(json), parseNumber)), noradId)
  }

  /** `parse_satnogs_json`: one pass over the lines, updating four
      variables. */
  method ParseSatnogsJson(json: string, noradId: U32, parseNumber: NumberParser)
    returns (result: Result<SatelliteFrequencies, IoError>)
    ensures result == SatnogsResult(json, noradId, parseNumber)
  {
    var description := "";
    var downlinkHz: Option<real> := None;
    var uplinkHz: Option<real> := None;
    var mode := "Unknown";
    var lines := Lines(json);
    ghost var updates := Updates(lines, parseNumber);
    for i := 0 to |lines|
      invariant Fields(description, downlinkHz, uplinkHz, mode) == Fold(updates[..i])
    {
      description, downlinkHz, uplinkHz, mode :=
        ReadLine(lines[i], parseNumber, description, downlinkHz, uplinkHz, mode);
      FoldStep(updates, i);
    }
    assert updates[..|lines|] == updates;
    if downlinkHz.None? {
      return Err(IoError(InvalidData, NoDownlinkMessage));
    }
    return Ok(SatelliteFrequencies(description, noradId, downlinkHz.value, uplinkHz, mode));
  }

  /** The body of the loop of `parse_satnogs_json`: trim the line, find
      the first key it holds, and on a successful extraction overwrite
      that key's variable. */
  method ReadLine(rawLine: string, parseNumber: NumberParser,
                  description: string, downlinkHz: Option<real>, uplinkHz: Option<real>, mode: string)
    returns (description': string, downlinkHz': Option<real>, uplinkHz': Option<real>, mode': string)
    ensures Fields(description', downlinkHz', uplinkHz', mode')
            == Apply(Fields(description, downlinkHz, uplinkHz, mode), LineUpdate(rawLine, parseNumber))
  {
    description', downlinkHz', uplinkHz', mode' := description, downlinkHz, uplinkHz, mode;
    var line := Trim(rawLine);
    if Contains(line, DescriptionKey) {
      var value := ExtractJsonString(line);
      if value.Some? {
        description' := value.value;
      }
    } else if Contains(line, DownlinkKey) {
      var value := ExtractJsonNumber(line, parseNumber);
      if value.Some? {
        downlinkHz' := Some(value.value);
      }
    } else if Contains(line, UplinkKey) {
      var value := ExtractJsonNumber(line, parseNumber);
      if value.Some? {
        uplinkHz' := Some(value.value);
      }
    } else if Contains(line, ModeKey) {
      var value := ExtractJsonString(line);
      if value.Some? {
        mode' := value.value;
      }
    }
  }

  // ------------------------------------------------------ last match wins

  datatype FieldKind = DescriptionField | DownlinkField | UplinkField | ModeField

  predicate Sets(u: FieldUpdate, k: FieldKind) {
    match k
    case DescriptionField => u.SetDescription?
    case DownlinkField => u.SetDownlink?
    case UplinkField => u.SetUplink?
    case ModeField => u.SetMode?
  }

  /** The last update that sets field `k`, if any does. */
  function LastUpdate(us: seq<FieldUpdate>, k: FieldKind): (r: Option<FieldUpdate>)
    ensures r.Some? ==> Sets(r.value, k)
  {
    if us == [] then None
    else if Sets(us[|us| - 1], k) then Some(us[|us| - 1])
    else LastUpdate(us[..|us| - 1], k)
  }

  /** `LastUpdate` finds the last update that sets the field, and is
      `None` exactly when none does. */
  lemma {:induction false} LastUpdateIsLast(us: seq<FieldUpdate>, k: FieldKind)
    ensures LastUpdate(us, k).None? <==> forall i :: 0 <= i < |us| ==> !Sets(us[i], k)
    ensures LastUpdate(us, k).Some? ==>
              exists i :: 0 <= i < |us| && us[i] == LastUpdate(us, k).value
                          && forall j :: i < j < |us| ==> !Sets(us[j], k)
  {
    if us != [] {
      var init := us[..|us| - 1];
      LastUpdateIsLast(init, k);
      assert forall i :: 0 <= i < |init| ==> init[i] == us[i];
      if !Sets(us[|us| - 1], k) && LastUpdate(init, k).Some? {
        var i :| 0 <= i < |init| && init[i] == LastUpdate(init, k).value
                 && forall j :: i < j < |init| ==> !Sets(init[j], k);
        assert us[i] == LastUpdate(us, k).value;
      }
    }
  }

  /** Each field ends up holding what the last update that set it put
      there, and its initial value when none did. */
  lemma {:induction false} LastMatchWins(us: seq<FieldUpdate>)
    ensures var f := Fold(us);
            && f.description == (match LastUpdate(us, DescriptionField)
                                 case Some(u) => u.text case None => "")
            && f.downlinkHz == (match LastUpdate(us, DownlinkField)
                                case Some(u) => Some(u.hz) case None => None)
            && f.uplinkHz == (match LastUpdate(us, UplinkField)
                              case Some(u) => Some(u.hz) case None => None)
            && f.mode == (match LastUpdate(us, ModeField)
                          case Some(u) => u.text case None => "Unknown")
  {
    if us != [] {
      LastMatchWins(us[..|us| - 1]);
    }
  }

  /** The parser fails, with `InvalidData`, exactly when no line yields a
      downlink frequency.  On success the NORAD ID is passed through, the
      name is "" and the mode "Unknown" unless some line set them, the
      uplink is absent unless some line set it, and the downlink is the
      one the last downlink line set. */
  lemma ParsedOutcome(us: seq<FieldUpdate>, noradId: U32)
    ensures Outcome(Fold(us), noradId).Err? <==> forall i :: 0 <= i < |us| ==> !us[i].SetDownlink?
    ensures Outcome(Fold(us), noradId).Err? ==> Outcome(Fold(us), noradId).error.kind == InvalidData
    ensures Outcome(Fold(us), noradId).Ok? ==>
              var info := Outcome(Fold(us), noradId).value;
              && info.noradId == noradId
              && ((forall i :: 0 <= i < |us| ==> !us[i].SetDescription?) ==> info.name == "")
              && ((forall i :: 0 <= i < |us| ==> !us[i].SetMode?) ==> info.mode == "Unknown")
              && ((forall i :: 0 <= i < |us| ==> !us[i].SetUplink?) ==> info.uplinkHz == None)
              && (exists i :: 0 <= i < |us| && us[i] == SetDownlink(info.downlinkHz)
                              && forall j :: i < j < |us| ==> !us[j].SetDownlink?)
  {
    LastMatchWins(us);
    LastUpdateIsLast(us, DescriptionField);
    LastUpdateIsLast(us, ModeField);
    LastUpdateIsLast(us, UplinkField);
    LastUpdateIsLast(us, DownlinkField);
  }

  /** The keys are tried in a fixed order, so a line that holds the
      description key never sets the downlink, uplink or mode, even when it
      holds their keys too. */
  lemma DescriptionKeyFirst(rawLine: string, parseNumber: NumberParser)
    requires Contains(Trim(rawLine), DescriptionKey)
    ensures var u := LineUpdate(rawLine, parseNumber);
            u.SetDescription? || u == Unchanged
  {
  }

  /** Among the other keys the order holds too: a line that holds the
      downlink key never sets the uplink or the mode, and one that holds
      the uplink key never sets the mode. */
  lemma LaterKeysShadowed(rawLine: string, parseNumber: NumberParser)
    ensures var u := LineUpdate(rawLine, parseNumber);
            && (Contains(Trim(rawLine), DownlinkKey) ==> !u.SetUplink? && !u.SetMode?)
            && (Contains(Trim(rawLine), UplinkKey) ==> !u.SetMode?)
  {
    var line := Trim(rawLine);
    if Contains(line, DescriptionKey) {
    } else if Contains(line, DownlinkKey) {
    } else if Contains(line, UplinkKey) {
    } else {
    }
  }

  /** A field is set only from a line that holds its key and none of the
      keys tried before it, and only to the value its own extractor reads
      from the trimmed line: the string extractor for the description and
      the mode, the number extractor for the two frequencies. */
  lemma UpdateFromOwnExtractor(rawLine: string, parseNumber: NumberParser)
    ensures var line, u := Trim(rawLine), LineUpdate(rawLine, parseNumber);
            && (u.SetDescription? ==>
                  Contains(line, DescriptionKey) && ExtractJsonString(line) == Some(u.text))
            && (u.SetDownlink? ==>
                  !Contains(line, DescriptionKey) && Contains(line, DownlinkKey)
                  && ExtractJsonNumber(line, parseNumber) == Some(u.hz))
            && (u.SetUplink? ==>
                  !Contains(line, DescriptionKey) && !Contains(line, DownlinkKey) && Contains(line, UplinkKey)
                  && ExtractJsonNumber(line, parseNumber) == Some(u.hz))
            && (u.SetMode? ==>
                  !Contains(line, DescriptionKey) && !Contains(line, DownlinkKey) && !Contains(line, UplinkKey)
                  && Contains(line, ModeKey) && ExtractJsonString(line) == Some(u.text))
  {
    var line := Trim(rawLine);
    if Contains(line, DescriptionKey) {
    } else if Contains(line, DownlinkKey) {
    } else if Contains(line, UplinkKey) {
    } else {
    }
  }

  /** A line changes nothing when it holds none of the keys, or when the
      extractor of the first key it holds finds no value (a `null`
      frequency, an unparsable number, a string with too few quotes). */
  lemma FailedExtractionUnchanged(rawLine: string, parseNumber: NumberParser)
    ensures var line, u := Trim(rawLine), LineUpdate(rawLine, parseNumber);
            && (Contains(line, DescriptionKey) && ExtractJsonString(line).None? ==> u == Unchanged)
            && ((!Contains(line, DescriptionKey) && Contains(line, DownlinkKey)
                 && ExtractJsonNumber(line, parseNumber).None?) ==> u == Unchanged)
            && ((!Contains(line, DescriptionKey) && !Contains(line, DownlinkKey) && Contains(line, UplinkKey)
                 && ExtractJsonNumber(line, parseNumber).None?) ==> u == Unchanged)
            && ((!Contains(line, DescriptionKey) && !Contains(line, DownlinkKey) && !Contains(line, UplinkKey)
                 && Contains(line, ModeKey) && ExtractJsonString(line).None?) ==> u == Unchanged)
            && ((!Contains(line, DescriptionKey) && !Contains(line, DownlinkKey) && !Contains(line, UplinkKey)
                 && !Contains(line, ModeKey)) ==> u == Unchanged)
  {
    var line := Trim(rawLine);
    if Contains(line, DescriptionKey) {
    } else if Contains(line, DownlinkKey) {
    } else if Contains(line, UplinkKey) {
    } else {
    }
  }

  /** A line that sets the downlink, read from its text: it holds the
      downlink key, not the description key, and the number extractor
      reads a value from it. */
  predicate DownlinkLine(line: string, parseNumber: NumberParser) {
    !Contains(line, DescriptionKey) && Contains(line, DownlinkKey)
    && ExtractJsonNumber(line, parseNumber).Some?
  }

  /** A line sets the downlink exactly when it is a downlink line. */
  lemma SetsDownlinkIff(rawLine: string, parseNumber: NumberParser)
    ensures LineUpdate(rawLine, parseNumber).SetDownlink? <==> DownlinkLine(Trim(rawLine), parseNumber)
  {
  }

  /** `parse_satnogs_json` fails exactly when no trimmed line of the text
      is a downlink line, and then with `InvalidData`. */
  lemma NoDownlinkLineFails(json: string, noradId: U32, parseNumber: NumberParser)
    ensures SatnogsResult(json, noradId, parseNumber).Err? <==>
              forall i :: 0 <= i < |Lines(json)| ==> !DownlinkLine(Trim(Lines(json)[i]), parseNumber)
    ensures SatnogsResult(json, noradId, parseNumber).Err? ==>
              SatnogsResult(json, noradId, parseNumber).error.kind == InvalidData
  {
    var lines := Lines(json);
    var us := Updates(lines, parseNumber);
    ParsedOutcome(us, noradId);
    DownlinkUpdates(lines, parseNumber);
  }

  /** The updates that set the downlink are those of the downlink lines. */
  lemma DownlinkUpdates(lines: seq<string>, parseNumber: NumberParser)
    ensures forall i :: 0 <= i < |lines| ==>
              (Updates(lines, parseNumber)[i].SetDownlink? <==> DownlinkLine(Trim(lines[i]), parseNumber))
  {
    forall i | 0 <= i < |lines|
      ensures Updates(lines, parseNumber)[i].SetDownlink? <==> DownlinkLine(Trim(lines[i]), parseNumber)
    {
      SetsDownlinkIff(lines[i], parseNumber);
    }
  }

  // ----------------------------------------------------------- local table

  /** The fallback table of `get_satellite_info_local`. */
  const LocalTable: seq<SatelliteFrequencies> := [
    SatelliteFrequencies("ISS", 25544, 145800000.0, Some(145200000.0), "FM"),
    SatelliteFrequencies("AO-91", 43017, 145960000.0, Some(435250000.0), "FM"),
    SatelliteFrequencies("FO-29", 24278, 435850000.0, Some(145900000.0), "SSB/CW"),
    SatelliteFrequencies("FUNCUBE-1", 39444, 145935000.0, None, "BPSK"),
    SatelliteFrequencies("LILACSAT-2", 40069, 437200000.0, None, "GMSK")
  ]

  /** An entry answers to its name in any letter case, and to its NORAD ID
      written exactly as `to_string` writes it. */
  predicate MatchesEntry(e: SatelliteFrequencies, name: string) {
    Upper(e.name) == Upper(name) || Decimal(e.noradId) == name
  }

  /** `Iterator::find` with `MatchesEntry`: the first matching entry. */
  function FindEntry(entries: seq<SatelliteFrequencies>, name: string): (r: Option<SatelliteFrequencies>)
    ensures r.None? <==> forall i :: 0 <= i < |entries| ==> !MatchesEntry(entries[i], name)
    ensures r.Some? ==> exists i :: 0 <= i < |entries| && entries[i] == r.value && MatchesEntry(r.value, name)
                                    && forall j :: 0 <= j < i ==> !MatchesEntry(entries[j], name)
  {
    if entries == [] then None
    else if MatchesEntry(entries[0], name) then Some(entries[0])
    else
      var r := FindEntry(entries[1..], name);
      assert forall i :: 0 <= i < |entries[1..]| ==> entries[1..][i] == entries[i + 1];
      r
  }

  /** `get_satellite_info_local`. */
  function LocalInfo(name: string): Option<SatelliteFrequencies> {
    FindEntry(LocalTable, name)
  }

  /** The table's names are already upper case and start with a letter. */
  lemma LocalNames(k: nat)
    requires k < |LocalTable|
    ensures Upper(LocalTable[k].name) == LocalTable[k].name
    ensures 'A' <= LocalTable[k].name[0] <= 'Z'
  {
    if k == 0 {
      EntryName0();
    } else if k == 1 {
      EntryName1();
    } else if k == 2 {
      EntryName2();
    } else if k == 3 {
      EntryName3();
    } else {
      EntryName4();
    }
  }

  // One entry at a time, which keeps each proof small.
  lemma EntryName0()
    ensures Upper(LocalTable[0].name) == LocalTable[0].name && LocalTable[0].name[0] == 'I'
  {
    UpperUnchanged("ISS");
  }

  lemma EntryName1()
    ensures Upper(LocalTable[1].name) == LocalTable[1].name && LocalTable[1].name[0] == 'A'
  {
    UpperUnchanged("AO-91");
  }

  lemma EntryName2()
    ensures Upper(LocalTable[2].name) == LocalTable[2].name && LocalTable[2].name[0] == 'F'
  {
    UpperUnchanged("FO-29");
  }

  lemma EntryName3()
    ensures Upper(LocalTable[3].name) == LocalTable[3].name && LocalTable[3].name[0] == 'F'
  {
    UpperUnchanged("FUNCUBE-1");
  }

  lemma EntryName4()
    ensures Upper(LocalTable[4].name) == LocalTable[4].name && LocalTable[4].name[0] == 'L'
  {
    UpperUnchanged("LILACSAT-2");
  }

  /** No two entries of the table share a name. */
  lemma LocalNameKey(i: nat, j: nat)
    requires i < |LocalTable| && j < |LocalTable|
    requires LocalTable[i].name == LocalTable[j].name
    ensures i == j
  {
  }

  /** No two entries of the table share a NORAD ID. */
  lemma LocalIdKey(i: nat, j: nat)
    requires i < |LocalTable| && j < |LocalTable|
    requires LocalTable[i].noradId == LocalTable[j].noradId
    ensures i == j
  {
  }

  /** A name starting with a digit can only match an entry by its NORAD
      ID, and any other name only by the entry's name. */
  lemma MatchKind(k: nat, name: string)
    requires k < |LocalTable| && MatchesEntry(LocalTable[k], name)
    ensures name != []
    ensures IsDigit(UpperChar(name[0])) ==> Decimal(LocalTable[k].noradId) == name
    ensures !IsDigit(UpperChar(name[0])) ==> Upper(name) == LocalTable[k].name
  {
    LocalNames(k);
    if Decimal(LocalTable[k].noradId) == name {
      assert IsDigit(name[0]);
    } else {
      assert Upper(name)[0] == LocalTable[k].name[0];
    }
  }

  /** The table's names and NORAD IDs are distinct, so a name matches at
      most one entry. */
  lemma LocalMatchUnique(name: string, i: nat, j: nat)
    requires i < |LocalTable| && j < |LocalTable|
    requires MatchesEntry(LocalTable[i], name) && MatchesEntry(LocalTable[j], name)
    ensures i == j
  {
    MatchKind(i, name);
    MatchKind(j, name);
    if IsDigit(UpperChar(name[0])) {
      DecimalInjective(LocalTable[i].noradId, LocalTable[j].noradId);
      LocalIdKey(i, j);
    } else {
      LocalNameKey(i, j);
    }
  }

  /** A name that starts with a letter and is none of the table's names,
      in any letter case, matches no entry. */
  lemma NotMatching(k: nat, name: string)
    requires k < |LocalTable|
    requires name != [] && 'A' <= UpperChar(name[0]) <= 'Z'
    requires Upper(name) != LocalTable[k].name
    ensures !MatchesEntry(LocalTable[k], name)
  {
    LocalNames(k);
    assert !IsDigit(name[0]);
    assert Decimal(LocalTable[k].noradId)[0] != name[0];
  }

  /** A name that is neither in the table nor a NORAD ID of it is not found. */
  lemma NotLocal(name: string)
    requires name != [] && 'A' <= UpperChar(name[0]) <= 'Z'
    requires forall k :: 0 <= k < |LocalTable| ==> Upper(name) != LocalTable[k].name
    ensures LocalInfo(name) == None
  {
    forall k | 0 <= k < |LocalTable|
      ensures !MatchesEntry(LocalTable[k], name)
    {
      NotMatching(k, name);
    }
  }

  /** Lookup by a lower-case name. */
  lemma LocalInfoByName()
    ensures LocalInfo("iss") == Some(LocalTable[0])
  {
    LocalNames(0);
    assert Upper("iss") == "ISS";
    LocalInfoFinds("iss", 0);
  }

  /** Lookup by a lower-case name with a hyphen and a digit. */
  lemma LocalInfoByMixedName()
    ensures LocalInfo("funcube-1") == Some(LocalTable[3])
  {
    LocalNames(3);
    assert Upper("funcube-1") == "FUNCUBE-1";
    LocalInfoFinds("funcube-1", 3);
  }

  /** Lookup by NORAD ID. */
  lemma LocalInfoById()
    ensures LocalInfo("43017") == Some(LocalTable[1])
  {
    assert Decimal(43) == "43";
    assert Decimal(4301) == "4301";
    assert Decimal(43017) == "43017";
    LocalInfoFinds("43017", 1);
  }

  /** A satellite the table does not hold. */
  lemma LocalInfoUnknown()
    ensures LocalInfo("ZARYA") == None
  {
    UpperUnchanged("ZARYA");
    NotLocal("ZARYA");
  }

  /** In a list where a name matches at most one entry, the search finds
      that entry. */
  lemma FindUnique(entries: seq<SatelliteFrequencies>, name: string, k: nat)
    requires k < |entries| && MatchesEntry(entries[k], name)
    requires forall i, j ::
               0 <= i < |entries| && 0 <= j < |entries| && MatchesEntry(entries[i], name) && MatchesEntry(entries[j], name)
               ==> i == j
    ensures FindEntry(entries, name) == Some(entries[k])
  {
    var r := FindEntry(entries, name);
    var i :| 0 <= i < |entries| && entries[i] == r.value && MatchesEntry(r.value, name)
             && forall j :: 0 <= j < i ==> !MatchesEntry(entries[j], name);
  }

  /** A name that matches entry `k` finds entry `k`. */
  lemma LocalInfoFinds(name: string, k: nat)
    requires k < |LocalTable| && MatchesEntry(LocalTable[k], name)
    ensures LocalInfo(name) == Some(LocalTable[k])
  {
    forall i, j | 0 <= i < |LocalTable| && 0 <= j < |LocalTable| && MatchesEntry(LocalTable[i], name)
                  && MatchesEntry(LocalTable[j], name)
      ensures i == j
    {
      LocalMatchUnique(name, i, j);
    }
    FindUnique(LocalTable, name, k);
  }

  // ---------------------------------------------------------------- lookup

  function SatnogsUrl(noradId: U32): string {
    "https://db.satnogs.org/api/transmitters/?satellite__norad_cat_id=" + Decimal(noradId)
      + "&format=json&status=active"
  }

  /** `descargar_frecuencias_satnogs`: a process that cannot be started
      passes its error on, a failed exit is `Other`, and the output of a
      successful one is parsed. */
  function DownloadFrequencies(noradId: U32, curl: Curl, parseNumber: NumberParser): Result<SatelliteFrequencies, IoError> {
    match curl(SatnogsUrl(noradId))
    case SpawnFailed(error) => Err(error)
    case Exited(success, stdout) =>
      if !success then Err(IoError(Other, DownloadFailedMessage))
      else SatnogsResult(stdout, noradId, parseNumber)
  }

  /** The NORAD ID step of `get_satellite_info`: the name itself when it
      parses as a `u32`, otherwise the ID of its local entry. */
  function ResolveNoradId(name: string): Option<U32> {
    match ParseU32(name)
    case Some(id) => Some(id)
    case None =>
      match LocalInfo(name)
      case Some(entry) => Some(entry.noradId)
      case None => None
  }

  /** `get_satellite_info`: download by NORAD ID, and fall back to the
      local table when the download fails. */
  function GetSatelliteInfo(name: string, curl: Curl, parseNumber: NumberParser): Option<SatelliteFrequencies> {
    match ResolveNoradId(name)
    case None => None
    case Some(id) =>
      match DownloadFrequencies(id, curl, parseNumber)
      case Ok(info) => Some(info)
      case Err(_) => LocalInfo(name)
  }

  /** `obtener_frecuencia_por_nombre`. */
  function FrequencyByName(name: string, curl: Curl, parseNumber: NumberParser): Option<real> {
    match GetSatelliteInfo(name, curl, parseNumber)
    case Some(info) => Some(info.downlinkHz)
    case None => None
  }

  /** A NORAD ID written in decimal resolves to itself, and a local name,
      in any letter case, to its entry's ID; conversely, whatever resolves
      is a number that parses to the result or matches a local entry
      holding that ID. */
  lemma ResolveNoradIdIff(name: string, n: U32, i: nat)
    requires i < |LocalTable|
    ensures ResolveNoradId(Decimal(n)) == Some(n)
    ensures Upper(name) == Upper(LocalTable[i].name) ==> ResolveNoradId(name) == Some(LocalTable[i].noradId)
    ensures ResolveNoradId(name).Some? ==>
              || ParseU32(name) == ResolveNoradId(name)
              || exists k :: 0 <= k < |LocalTable| && MatchesEntry(LocalTable[k], name)
                             && LocalTable[k].noradId == ResolveNoradId(name).value
  {
    DecimalParses(n);
    if Upper(name) == Upper(LocalTable[i].name) {
      LocalNames(i);
      assert 'A' <= UpperChar(name[0]) <= 'Z';
      if ParseU32(name).Some? {
        ParsedHead(name);
      }
      assert ParseU32(name).None?;
      LocalInfoFinds(name, i);
    }
  }

  /** A name that is neither a number nor in the table gives `None`
      whatever the download would have said. */
  lemma UnknownNameGivesNone(name: string, curl: Curl, parseNumber: NumberParser)
    requires ParseU32(name).None?
    requires forall i :: 0 <= i < |LocalTable| ==> !MatchesEntry(LocalTable[i], name)
    ensures GetSatelliteInfo(name, curl, parseNumber) == None
    ensures FrequencyByName(name, curl, parseNumber) == None
  {
  }

  /** When `curl` cannot be started at all, the answer is the local
      table's. */
  lemma OfflineUsesLocalTable(name: string, curl: Curl, parseNumber: NumberParser)
    requires forall url :: curl(url).SpawnFailed?
    ensures GetSatelliteInfo(name, curl, parseNumber) == LocalInfo(name)
    ensures FrequencyByName(name, curl, parseNumber)
            == if LocalInfo(name).Some? then Some(LocalInfo(name).value.downlinkHz) else None
  {
  }
}
