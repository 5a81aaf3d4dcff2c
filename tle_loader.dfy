/** `src/tle_loader.rs`: the line handling of the TLE file loader and of
    the CelesTrak download, and the satellite-name alias table.

    Reading the file, starting `curl` and decoding its output are not
    modelled: the loader starts from the file's lines, and the download
    from what `curl` reports (see `Io.CurlOutcome`). */
module TleLoader {
  import opened Wrappers
  import opened Text
  import opened Io
  import Frequencies

  /** `TleData`: the satellite's name line and the two element lines. */
  datatype TleData = TleData(name: string, line1: string, line2: string)

  const CountMessage: string := "TLE inválido: se esperaban 3 líneas, se encontraron "
  const InvalidResponseMessage: string := "Respuesta de CelesTrak no contiene un TLE válido"
  const DownloadFailedMessage: string := "Error al descargar TLE desde CelesTrak"
  const UnknownSatelliteMessage: string := "Satélite desconocido: "

  // ------------------------------------------------------------ blank lines

  /** A line made of whitespace only. */
  predicate IsBlank(line: string) {
    forall i :: 0 <= i < |line| ==> IsWhitespace(line[i])
  }

  /** A blank line is one that `trim` leaves empty, as `retain` tests it. */
  lemma BlankIff(line: string)
    ensures IsBlank(line) <==> Trim(line) == []
  {
    TrimEmptyIff(line);
  }

  /** The lines that are not blank, in their original order. */
  function NonBlank(lines: seq<string>): seq<string> {
    if lines == [] then []
    else
      var last := lines[|lines| - 1];
      NonBlank(lines[..|lines| - 1]) + (if IsBlank(last) then [] else [last])
  }

  /** `NonBlank` keeps exactly the lines that are not blank: it drops
      nothing else, adds nothing, and keeps their order across any cut. */
  lemma {:induction false} NonBlankConcat(a: seq<string>, b: seq<string>)
    ensures NonBlank(a + b) == NonBlank(a) + NonBlank(b)
    decreases |b|
  {
    if b == [] {
      assert a + b == a;
    } else {
      var init := b[..|b| - 1];
      NonBlankConcat(a, init);
      assert (a + b)[..|a + b| - 1] == a + init;
      assert (a + b)[|a + b| - 1] == b[|b| - 1];
    }
  }

  /** Every kept line is a line of the input, and not blank; a line of the
      input that is not blank is kept. */
  lemma {:induction false} NonBlankMembers(lines: seq<string>)
    ensures forall i :: 0 <= i < |NonBlank(lines)| ==> NonBlank(lines)[i] in lines && !IsBlank(NonBlank(lines)[i])
    ensures forall i :: 0 <= i < |lines| && !IsBlank(lines[i]) ==> lines[i] in NonBlank(lines)
    ensures |NonBlank(lines)| <= |lines|
  {
    if lines != [] {
      var init := lines[..|lines| - 1];
      NonBlankMembers(init);
      assert lines == init + [lines[|lines| - 1]];
      assert forall x :: x in init ==> x in lines;
    }
  }

  /** `Vec::retain(|line| !line.trim().is_empty())`: the kept lines are
      moved to the front of the array, in order, and their number
      returned. */
  method Retain(a: array<string>) returns (len: nat)
    modifies a
    ensures len <= a.Length
    ensures a[..len] == NonBlank(old(a[..]))
  {
    ghost var original := a[..];
    len := 0;
    for i := 0 to a.Length
      invariant len <= i
      invariant a[..len] == NonBlank(original[..i])
      invariant a[i..] == original[i..]
    {
      assert original[..i + 1][..i] == original[..i];
      assert a[i] == original[i];
      if !IsBlank(a[i]) {
        a[len] := a[i];
        len := len + 1;
      }
      assert a[i + 1..] == original[i + 1..];
    }
    assert original[..a.Length] == original;
  }

  // ------------------------------------------------------------ file loader

  /** The name and element lines taken from the first three lines, each
      trimmed. */
  function FirstThree(lines: seq<string>): TleData
    requires |lines| >= 3
  {
    TleData(Trim(lines[0]), Trim(lines[1]), Trim(lines[2]))
  }

  /** `cargar_tle_desde_archivo` after the file is read: drop the blank
      lines, demand three, and report how many there were when fewer. */
  function FileTle(fileLines: seq<string>): Result<TleData, IoError> {
    var kept := NonBlank(fileLines);
    if |kept| < 3 then Err(IoError(InvalidData, CountMessage + Decimal(|kept|)))
    else Ok(FirstThree(kept))
  }

  /** `cargar_tle_desde_archivo`, from the file's lines: copy them into a
      vector, filter it in place, and read its first three entries. */
  method LoadTleFromLines(fileLines: seq<string>) returns (result: Result<TleData, IoError>)
    ensures result == FileTle(fileLines)
  {
    var lines := new string[|fileLines|](i requires 0 <= i < |fileLines| => fileLines[i]);
    assert lines[..] == fileLines;
    var count := Retain(lines);
    if count < 3 {
      return Err(IoError(InvalidData, CountMessage + Decimal(count)));
    }
    assert lines[..count][0] == lines[0] && lines[..count][1] == lines[1] && lines[..count][2] == lines[2];
    return Ok(TleData(Trim(lines[0]), Trim(lines[1]), Trim(lines[2])));
  }

  /** The loader fails exactly when fewer than three lines are not blank;
      the error is `InvalidData` and its message ends with that number, in
      decimal; on success none of the three fields is empty. */
  lemma FileTleOutcome(fileLines: seq<string>)
    ensures var kept := NonBlank(fileLines);
            FileTle(fileLines).Err? <==> |kept| < 3
    ensures FileTle(fileLines).Err? ==>
              var e := FileTle(fileLines).error;
              && e.kind == InvalidData
              && |CountMessage| < |e.message|
              && e.message[..|CountMessage|] == CountMessage
              && AllDigits(e.message[|CountMessage|..])
              && DigitsValue(e.message[|CountMessage|..]) == |NonBlank(fileLines)|
    ensures FileTle(fileLines).Ok? ==>
              var t := FileTle(fileLines).value;
              t.name != [] && t.line1 != [] && t.line2 != []
  {
    var kept := NonBlank(fileLines);
    NonBlankMembers(fileLines);
    if |kept| < 3 {
      var message := CountMessage + Decimal(|kept|);
      assert message[|CountMessage|..] == Decimal(|kept|);
      DecimalValue(|kept|);
    } else {
      assert !IsBlank(kept[0]) && !IsBlank(kept[1]) && !IsBlank(kept[2]);
      BlankIff(kept[0]);
      BlankIff(kept[1]);
      BlankIff(kept[2]);
    }
  }

  /** Lines after the third non-blank one do not matter. */
  lemma ExtraLinesIgnored(fileLines: seq<string>, more: seq<string>)
    requires |NonBlank(fileLines)| >= 3
    ensures FileTle(fileLines + more) == FileTle(fileLines)
  {
    NonBlankConcat(fileLines, more);
  }

  /** A blank line anywhere makes no difference. */
  lemma BlankLineIgnored(before: seq<string>, blank: string, after: seq<string>)
    requires IsBlank(blank)
    ensures FileTle(before + [blank] + after) == FileTle(before + after)
  {
    NonBlankSkips(before, blank, after);
  }

  /** The filter drops a blank line wherever it stands. */
  lemma NonBlankSkips(before: seq<string>, blank: string, after: seq<string>)
    requires IsBlank(blank)
    ensures NonBlank(before + [blank] + after) == NonBlank(before + after)
  {
    NonBlankConcat(before + [blank], after);
    NonBlankConcat(before, [blank]);
    NonBlankConcat(before, after);
    assert [blank][..0] == [];
  }

  // --------------------------------------------------------------- download

  const CelestrakPrefix: string := "https://celestrak.org/NORAD/elements/gp.php?CATNR="
  const CelestrakSuffix: string := "&FORMAT=TLE"

  function CelestrakUrl(noradId: U32): string {
    CelestrakPrefix + Decimal(noradId) + CelestrakSuffix
  }

  /** What `descargar_tle_celestrak` does with the downloaded text: split
      it into lines, blank ones included, demand three, and trim the first
      three. */
  function CelestrakTle(content: string): Result<TleData, IoError> {
    var lines := Lines(content);
    if |lines| < 3 then Err(IoError(InvalidData, InvalidResponseMessage))
    else Ok(FirstThree(lines))
  }

  /** The downloaded text is not filtered: for text made of the lines
      `ls`, each ended by "\n" or "\r\n", the result depends on `|ls|`
      alone and reads `ls` itself, even where the file loader would have
      skipped a blank line. */
  lemma CelestrakCountsRawLines(ls: seq<string>, eol: string)
    requires eol == "\n" || eol == "\r\n"
    requires forall i :: 0 <= i < |ls| ==> '\n' !in ls[i]
    requires eol == "\n" ==> forall i :: 0 <= i < |ls| ==> ls[i] == [] || ls[i][|ls[i]| - 1] != '\r'
    ensures CelestrakTle(Terminated(ls, eol))
            == if |ls| < 3 then Err(IoError(InvalidData, InvalidResponseMessage)) else Ok(FirstThree(ls))
  {
    LinesOfTerminated(ls, eol);
  }

  /** A blank first line is taken as the name by the download ... */
  lemma BlankNameKeptByDownload(line1: string, line2: string)
    requires '\n' !in line1 && '\n' !in line2
    requires line1 == [] || line1[|line1| - 1] != '\r'
    requires line2 == [] || line2[|line2| - 1] != '\r'
    ensures CelestrakTle(Terminated([[], line1, line2], "\n")) == Ok(TleData([], Trim(line1), Trim(line2)))
  {
    var ls: seq<string> := [[], line1, line2];
    assert forall i :: 0 <= i < |ls| ==> ls[i] == [] || ls[i] == line1 || ls[i] == line2;
    CelestrakCountsRawLines(ls, "\n");
    assert Trim([]) == [];
  }

  /** ... where the file loader skips it. */
  lemma BlankNameSkippedByFile(line1: string, line2: string)
    ensures FileTle([[], line1, line2]).Err?
  {
    NonBlankSkips([], [], [line1, line2]);
    assert [[], line1, line2] == [] + [[]] + [line1, line2];
    NonBlankMembers([line1, line2]);
  }

  /** `descargar_tle_celestrak`: a process that cannot be started passes
      its error on, a failed exit is `Other`, and the output of a
      successful one is read as above. */
  function DownloadTle(noradId: U32, curl: Curl): Result<TleData, IoError> {
    match curl(CelestrakUrl(noradId))
    case SpawnFailed(error) => Err(error)
    case Exited(success, stdout) =>
      if !success then Err(IoError(Other, DownloadFailedMessage))
      else CelestrakTle(stdout)
  }

  // ------------------------------------------------------------------ aliases

  /** The `match` on the upper-cased name in `obtener_tle_por_nombre`. */
  function AliasId(name: string): (id: Option<U32>)
    ensures id.Some? ==> id.value in {25544, 43017, 24278, 39444, 40069}
  {
    var key := Upper(name);
    if key == "ISS" then Some(25544)
    else if key == "AO-91" || key == "FOX-1B" || key == "RADFXSAT" then Some(43017)
    else if key == "FO-29" || key == "JAS-2" then Some(24278)
    else if key == "FUNCUBE-1" || key == "AO-73" then Some(39444)
    else if key == "LILACSAT-2" || key == "CAS-3H" then Some(40069)
    else None
  }

  /** `obtener_tle_por_nombre`: an unknown name is an `InvalidInput`
      error naming it; a known one is downloaded by its NORAD ID, and the
      download's error, if any, is returned as it is. */
  function TleByName(name: string, curl: Curl): Result<TleData, IoError> {
    match AliasId(name)
    case None => Err(IoError(InvalidInput, UnknownSatelliteMessage + name))
    case Some(id) => DownloadTle(id, curl)
  }

  /** The ten accepted names, upper-cased, each with its satellite's
      NORAD ID, written out as a table. */
  const Aliases: map<string, U32> := map[
    "ISS" := 25544,
    "AO-91" := 43017, "FOX-1B" := 43017, "RADFXSAT" := 43017,
    "FO-29" := 24278, "JAS-2" := 24278,
    "FUNCUBE-1" := 39444, "AO-73" := 39444,
    "LILACSAT-2" := 40069, "CAS-3H" := 40069
  ]

  /** A name is known exactly when its upper-cased form is in the table,
      and then it resolves to the table's ID; every other name gives
      `None`. */
  lemma AliasIdIsTable(name: string)
    ensures AliasId(name) == (if Upper(name) in Aliases then Some(Aliases[Upper(name)]) else None)
  {
  }

  /** The letter case of the name does not matter. */
  lemma AliasCaseInsensitive(name: string, other: string)
    requires Upper(name) == Upper(other)
    ensures AliasId(name) == AliasId(other)
  {
  }

  /** The alias is decided by the upper-cased name. */
  lemma AliasOfUpper(name: string)
    ensures AliasId(Upper(name)) == AliasId(name)
  {
    UpperIdempotent(name);
  }

  /** The names listed for each satellite, in upper case. */
  lemma IssAlias()
    ensures AliasId("ISS") == Some(25544)
    ensures AliasId("iss") == Some(25544)
  {
    UpperUnchanged("ISS");
    assert Upper("iss") == "ISS";
  }

  lemma Ao91Aliases()
    ensures AliasId("AO-91") == Some(43017)
    ensures AliasId("FOX-1B") == Some(43017)
    ensures AliasId("RADFXSAT") == Some(43017)
  {
    UpperUnchanged("AO-91");
    UpperUnchanged("FOX-1B");
    UpperUnchanged("RADFXSAT");
  }

  lemma Fo29Aliases()
    ensures AliasId("FO-29") == Some(24278)
    ensures AliasId("JAS-2") == Some(24278)
  {
    UpperUnchanged("FO-29");
    UpperUnchanged("JAS-2");
  }

  lemma FuncubeAliases()
    ensures AliasId("FUNCUBE-1") == Some(39444)
    ensures AliasId("AO-73") == Some(39444)
  {
    UpperUnchanged("FUNCUBE-1");
    UpperUnchanged("AO-73");
  }

  lemma LilacsatAliases()
    ensures AliasId("LILACSAT-2") == Some(40069)
    ensures AliasId("CAS-3H") == Some(40069)
  {
    UpperUnchanged("LILACSAT-2");
    UpperUnchanged("CAS-3H");
  }

  /** Each satellite of the frequency table resolves, by its table name,
      to the NORAD ID the table gives it. */
  lemma AliasesAgreeWithFrequencyTable(k: nat)
    requires k < |Frequencies.LocalTable|
    ensures AliasId(Frequencies.LocalTable[k].name) == Some(Frequencies.LocalTable[k].noradId)
  {
    if k == 0 {
      IssAlias();
    } else if k == 1 {
      Ao91Aliases();
    } else if k == 2 {
      Fo29Aliases();
    } else if k == 3 {
      FuncubeAliases();
    } else {
      LilacsatAliases();
    }
  }

  /** An unknown name is refused before any download: the result names
      the satellite and is the same whatever `curl` would do. */
  lemma UnknownNameNoDownload(name: string, curl: Curl, otherCurl: Curl)
    requires AliasId(name).None?
    ensures TleByName(name, curl) == Err(IoError(InvalidInput, UnknownSatelliteMessage + name))
    ensures TleByName(name, curl) == TleByName(name, otherCurl)
  {
  }

  /** A known name gives exactly what the download of its ID gives, error
      or not. */
  lemma KnownNameDownloads(name: string, curl: Curl)
    requires AliasId(name).Some?
    ensures TleByName(name, curl) == DownloadTle(AliasId(name).value, curl)
    ensures (forall url :: curl(url).SpawnFailed?) ==>
              TleByName(name, curl) == Err(curl(CelestrakUrl(AliasId(name).value)).error)
  {
  }
}
