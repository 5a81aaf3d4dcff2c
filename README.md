# rustar-tracking, modelled in Dafny

This project models the core of the `tracking` crate, a small Rust ground-station toolkit for low-Earth-orbit satellites:

- **Slant range and Doppler shift** (`src/doppler.rs`).
  - The closed-form WGS-84 geodetic-to-Earth-fixed conversion.
  - The slant range between a propagated satellite position and the station.
  - The finite-difference Doppler estimator, −f·((r2 − r1)/dt)/c.
- **Pass finding and tracking** (`examples/track_doppler.rs`).
  - The AOS/LOS pass finder is a two-state machine. It samples once a minute over a bounded horizon.
  - The pass tracker samples every 5 seconds from AOS to LOS and collects observations.
- **SatNOGS transmitter data** (`src/frequencies.rs`).
  - The line-by-line SatNOGS transmitter parser, with its two extractors.
  - The five-satellite local frequency table.
  - The lookup from a name or NORAD ID to frequencies: it downloads first and falls back to the table.
- **TLE handling** (`src/tle_loader.rs`).
  - The TLE file loader: blank lines are dropped, then three lines are required.
  - The handling of the downloaded CelesTrak text: three raw lines are required.
  - The case-insensitive alias table from satellite names to NORAD IDs.

Files:

- `wrappers.dfy`: `Option` and `Result`.
- `io.dfy`: `std::io::ErrorKind` and `io::Error`, and what a `curl` child process reports.
- `text.dfy`: the `str` operations the crate uses.
  - `trim`, `trim_end_matches`, `split`, `lines` and `contains`.
  - ASCII `to_uppercase`.
  - `u32::to_string` and `str::parse::<u32>`.
- `doppler.dfy`: module `Doppler`.
  - `sin`, `cos` and `sqrt` are parameters (`MathLib`). They are constrained only by `Sound`: Pythagoras, sin 0 = 0, cos 0 = 1, and that `sqrt` is a non-negative square root.
  - The SGP4 propagator is a parameter `Propagator`, from Unix seconds to an optional position in km.
- `pass_tracking.dfy`: module `PassTracking`.
  - The observation of the satellite is a parameter `LookAngles`, from Unix seconds to optional elevation, azimuth and range rate.
  - `FindNextPass` and `TrackPass` are methods with the source's loops. Each is proved equal to a recursive specification function, `Scan` and `Tracked` respectively.
  - The properties are proved about those two functions.
- `frequencies.dfy`: module `Frequencies`.
  - `ParseSatnogsJson` is the source's loop over lines. It updates four variables. It is proved equal to the fold `SatnogsResult` of per-line updates.
  - `str::parse::<f64>` is a parameter `NumberParser`, and so is `curl`.
- `tle_loader.dfy`: module `TleLoader`.
  - `Retain` compacts an array in place, as `Vec::retain` does.
  - `LoadTleFromLines` copies the file's lines into an array, filters it, and reads the first three entries.

Two behaviours of the finder differ from an idealised detector; the model follows the code:

- A pass already in progress at the start time is reported, with AOS equal to the start time. An idealised detector would skip it and wait for a rising edge.
- A propagation failure at any minute ends the search with no pass. An idealised detector would skip that sample and go on sweeping.

The finder counts a sample as visible only when its elevation is strictly above the mask. The tracker drops a sample only when its elevation is strictly below the mask. So a sample exactly at the mask is recorded by the tracker but does not open a pass in the finder.

## Model

| member | source | states |
|---|---|---|
| Doppler.PrimeVerticalRadius | src/doppler.rs:6-14 | n = a/√(1 − e²·sin²lat), with a = 6378137 and e² = 6.69437999014e-3. It satisfies n²·(1 − e²·sin²lat) = a² and is never below a. |
| Doppler.GeodeticToEcef | src/doppler.rs:5-21 | `geodetic_to_ecef`. No ensures of its own. Its properties are `EcefAtOrigin`, `EcefPolarComponent`, `EcefDistanceFromAxis` and `EcefOnEllipsoid`. |
| Doppler.EcefAtOrigin | src/doppler.rs:5-21 | Latitude, longitude and altitude all zero map to (a, 0, 0). |
| Doppler.EcefPolarComponent | src/doppler.rs:18 | z does not depend on the longitude, and is 0 on the equator. |
| Doppler.EcefDistanceFromAxis | src/doppler.rs:16-17 | x² + y² = ((n + alt)·cos lat)² for every longitude. |
| Doppler.EcefOnEllipsoid | src/doppler.rs:5-21 | At altitude 0 the point lies on the WGS-84 ellipsoid, (x² + y²)·(1 − e²) + z² = a²·(1 − e²). |
| Doppler.SlantRange | src/doppler.rs:23-48 | None exactly when the propagator fails. Otherwise the range is ≥ 0. Its square is the squared distance between the satellite's position, converted from km to m, and the station's Earth-fixed position. No sidereal rotation is applied. |
| Doppler.RangeAlgebra | src/doppler.rs:38-47 | Dividing the station by 1000 before the subtraction, then multiplying the distance by 1000, gives the distance in metres. |
| Doppler.RangeZeroIffColocated | src/doppler.rs:29-47 | The range is 0 if and only if the satellite's position in metres is the station's position. |
| Doppler.DopplerShift | src/doppler.rs:67-68 | shift·c = −f·rate, with c = 299792458. |
| Doppler.DopplerShiftSign | src/doppler.rs:65-68 | For f > 0: a receding satellite gives a negative shift, an approaching one a positive shift, and rate 0 gives shift 0. |
| Doppler.DopplerShiftLinear | src/doppler.rs:68 | The shift is linear in the carrier frequency. |
| Doppler.DopplerShiftExample | src/doppler.rs:67-68 | f = 437.5 MHz at −7000 m/s shifts by exactly 437500000·7000/299792458 Hz. |
| Doppler.DopplerShiftBound | src/doppler.rs:68 | Carriers up to 437.5 MHz at rates up to 8 km/s shift by less than 12 kHz. |
| Doppler.FiniteDifferenceDoppler | src/doppler.rs:50-69 | None exactly when either range sample fails. Otherwise shift·c·dt = −f·(r2 − r1), with dt ≠ 0 required because the code does not guard it. |
| Doppler.EstimatorAlgebra | src/doppler.rs:65-68 | The shift for the rate (r2 − r1)/dt, times c·dt, is −f·(r2 − r1). |
| Doppler.FiniteDifferenceSign | src/doppler.rs:58-68 | For f > 0 and dt > 0: a growing range gives a negative shift, a shrinking range a positive one, and an unchanged range zero. |
| PassTracking.Scan | examples/track_doppler.rs:29-54 | The finder's state machine as a recursive function. No ensures of its own. `ScanSound`, `ScanComplete`, `FindsFirstPass`, `NoPassIff`, `PassInProgressAtStart`, `UnclosedPassIsNone` and `FailureEndsSearch` state what it returns. |
| PassTracking.FindNextPass | examples/track_doppler.rs:22-55 | The loop returns exactly `Scan` over [start, start + maxHours·3600) from the not-in-pass state. Its invariant ties `inPass` to the presence of an AOS. |
| PassTracking.ScanSound | examples/track_doppler.rs:29-54 | A returned (aos, los) is a first pass. That means start ≤ aos < los < end, both on the one-minute grid, and no sample before aos is visible. Every sample in [aos, los) is visible (elevation > minimum) and the one at los is not. |
| PassTracking.ScanComplete | examples/track_doppler.rs:29-54 | Whenever a first pass exists, the finder returns exactly it. |
| PassTracking.FindsFirstPass | examples/track_doppler.rs:22-55 | The finder returns (aos, los) if and only if (aos, los) is the first pass in the horizon. |
| PassTracking.NoPassIff | examples/track_doppler.rs:35-54 | The finder returns None if and only if there is no first pass in the horizon. |
| PassTracking.PassInProgressAtStart | examples/track_doppler.rs:42-45 | If the satellite is already visible at the start, a returned pass has AOS = start. |
| PassTracking.UnclosedPassIsNone | examples/track_doppler.rs:35-54 | When every sample from t up to the horizon is visible, the scan gives None, whether a pass is open or not. A pass cut short by the horizon is not returned. |
| PassTracking.FailureEndsSearch | examples/track_doppler.rs:36 | Any pass returned closes before the first failed propagation on the grid. A failure ends the search; the code does not skip that sample. |
| PassTracking.Measure | examples/track_doppler.rs:102-138 | An observation keeps the time, elevation and azimuth, and converts the range rate from km/s to m/s. doppler_hz + f_tx = doppler_downlink(f_tx, rate). |
| PassTracking.Tracked | examples/track_doppler.rs:91-141 | The observations the tracker records, as a recursive function. No ensures of its own. `TrackedTimes`, `TrackedRecords` and `TrackedMeasures` state what it holds. |
| PassTracking.TrackPass | examples/track_doppler.rs:91-142 | The 5-second loop from AOS to LOS inclusive returns exactly `Tracked`. It requires the propagator to succeed on that grid, because the code panics otherwise. |
| PassTracking.TrackedTimes | examples/track_doppler.rs:91-141 | Recorded times lie in [aos, los] on the 5-second grid, in strictly increasing order. |
| PassTracking.TrackedRecords | examples/track_doppler.rs:107-116 | A grid time is recorded if and only if its elevation is ≥ the minimum. An elevation equal to the minimum is recorded. |
| PassTracking.TrackedMeasures | examples/track_doppler.rs:119-139 | Every recorded observation is the measurement of its own time's sample. |
| Frequencies.ExtractJsonString | src/frequencies.rs:93-100 | `extract_json_string`. No ensures of its own. Its properties are `ExtractJsonStringIff` and `StringField`. |
| Frequencies.ExtractJsonNumber | src/frequencies.rs:102-114 | `extract_json_number`. No ensures of its own. Its properties are `NumberNeedsColon`, `NumberIgnoresLaterColons` and `NumberField`. |
| Frequencies.ExtractJsonStringIff | src/frequencies.rs:93-100 | A value is found if and only if the line holds at least three `"` (four pieces). The value holds no `"`. |
| Frequencies.StringField | src/frequencies.rs:93-100 | On `"key"…"value"…`, the value is the fourth piece. |
| Frequencies.NumberNeedsColon | src/frequencies.rs:102-113 | A line without `:` has no number. |
| Frequencies.NumberIgnoresLaterColons | src/frequencies.rs:103-105 | Only the text between the first and second `:` is read. |
| Frequencies.NumberField | src/frequencies.rs:102-110 | On `key: value,,`, the value is trimmed of whitespace and then of all trailing commas. `null` gives None; anything else is parsed. |
| Frequencies.ReadLine | src/frequencies.rs:55-74 | One iteration of the loop applies exactly the line's update `LineUpdate`. What that update is, is stated by `DescriptionKeyFirst`, `LaterKeysShadowed`, `UpdateFromOwnExtractor` and `FailedExtractionUnchanged`. |
| Frequencies.ParseSatnogsJson | src/frequencies.rs:47-91 | The loop's result is the fold of the line updates, followed by the final downlink check. |
| Frequencies.LastUpdateIsLast | src/frequencies.rs:58-73 | The last update that sets a field is found, and none sets it after that. It is None exactly when no update sets the field. |
| Frequencies.LastMatchWins | src/frequencies.rs:58-73 | Each field of the parser's final state is its last successful update, or its initial value ("", None, None, "Unknown"). |
| Frequencies.ParsedOutcome | src/frequencies.rs:47-90 | Err(InvalidData) if and only if no line yields a downlink. On success the NORAD ID is passed through, the defaults are kept where no line set a field, and the downlink is the last one set. |
| Frequencies.DescriptionKeyFirst | src/frequencies.rs:58-62 | A line holding the description key only ever sets the description. |
| Frequencies.LaterKeysShadowed | src/frequencies.rs:62-74 | A line holding the downlink key never sets the uplink or the mode. A line holding the uplink key never sets the mode. |
| Frequencies.UpdateFromOwnExtractor | src/frequencies.rs:56-74 | A field is set only from a trimmed line that holds its key and none of the earlier keys. The value is what that key's extractor reads: the string extractor for description and mode, the number extractor for the two frequencies. |
| Frequencies.FailedExtractionUnchanged | src/frequencies.rs:56-74 | A line changes nothing when it holds none of the four keys, or when the extractor of the first key it holds finds no value. |
| Frequencies.SetsDownlinkIff | src/frequencies.rs:58-65 | A line sets the downlink if and only if its trimmed text holds the downlink key, does not hold the description key, and yields a number. |
| Frequencies.NoDownlinkLineFails | src/frequencies.rs:55-80 | `parse_satnogs_json` fails, with InvalidData, if and only if no trimmed line of the text holds the downlink key without the description key and yields a number. |
| Frequencies.FindEntry | src/frequencies.rs:156-159 | None if and only if no entry matches. Otherwise the result is the first matching entry. |
| Frequencies.LocalInfo | src/frequencies.rs:117-160 | `get_satellite_info_local`: `FindEntry` over the five-entry table. No ensures of its own. Its properties are `FindEntry`'s contract, `LocalMatchUnique`, `LocalInfoFinds`, `NotLocal` and the four examples below. |
| Frequencies.LocalMatchUnique | src/frequencies.rs:118-159 | The table's names and IDs are distinct, so a name matches at most one entry. |
| Frequencies.LocalInfoFinds | src/frequencies.rs:117-160 | A name that matches entry k, by upper-cased name or by the ID's decimal text, finds entry k. |
| Frequencies.NotLocal | src/frequencies.rs:117-160 | A name starting with a letter is not found when its upper case is none of the table's names. The upper case is the model's ASCII one; see `Text.Upper` under "## Left out". |
| Frequencies.LocalInfoByName | src/frequencies.rs:117-159 | "iss" finds the ISS entry. |
| Frequencies.LocalInfoByMixedName | src/frequencies.rs:140-159 | "funcube-1" finds the FUNCUBE-1 entry. |
| Frequencies.LocalInfoById | src/frequencies.rs:126-159 | "43017" finds the AO-91 entry. |
| Frequencies.LocalInfoUnknown | src/frequencies.rs:117-160 | "ZARYA" finds nothing. |
| Frequencies.DownloadFrequencies | src/frequencies.rs:26-44 | `descargar_frecuencias_satnogs`. No ensures of its own. A spawn error passes through, a failed exit is Other, and a successful exit's output goes to `ParseSatnogsJson`'s specification `SatnogsResult`. `OfflineUsesLocalTable` uses the first case. |
| Frequencies.ResolveNoradId | src/frequencies.rs:170-177 | The NORAD ID step of `get_satellite_info`. No ensures of its own. `ResolveNoradIdIff` states it, in both directions. |
| Frequencies.GetSatelliteInfo | src/frequencies.rs:169-191 | `get_satellite_info`. No ensures of its own. `UnknownNameGivesNone` and `OfflineUsesLocalTable` state what it returns. |
| Frequencies.FrequencyByName | src/frequencies.rs:197-199 | `obtener_frecuencia_por_nombre`. No ensures of its own. `UnknownNameGivesNone` and `OfflineUsesLocalTable` state what it returns. |
| Frequencies.ResolveNoradIdIff | src/frequencies.rs:171-177 | A decimal NORAD ID resolves to itself. A table name, in any case, resolves to its entry's ID. Conversely, a name that resolves either parses to the result or matches a table entry holding that ID. |
| Frequencies.UnknownNameGivesNone | src/frequencies.rs:169-199 | A non-numeric name absent from the table gives None for both lookups, whatever the download would return. |
| Frequencies.OfflineUsesLocalTable | src/frequencies.rs:180-199 | When `curl` cannot be started, the lookup is the local table's answer, and the frequency is its downlink. |
| TleLoader.BlankIff | src/tle_loader.rs:19 | A line is blank if and only if `trim` leaves it empty. |
| TleLoader.NonBlankConcat | src/tle_loader.rs:19 | Filtering distributes over concatenation, so order is kept. |
| TleLoader.NonBlankMembers | src/tle_loader.rs:19 | Every kept line is an input line and not blank. Every non-blank input line is kept. |
| TleLoader.Retain | src/tle_loader.rs:19 | The in-place filter leaves exactly the non-blank lines, in order, at the front of the array, and returns their count. |
| TleLoader.FileTle | src/tle_loader.rs:19-35 | The specification of `cargar_tle_desde_archivo` after the file is read. No ensures of its own. `FileTleOutcome`, `ExtraLinesIgnored`, `BlankLineIgnored` and `BlankNameSkippedByFile` state its properties. `LoadTleFromLines` is proved equal to it. |
| TleLoader.LoadTleFromLines | src/tle_loader.rs:13-36 | The loader's result equals `FileTle` of the file's lines. |
| TleLoader.FileTleOutcome | src/tle_loader.rs:21-35 | Err if and only if fewer than 3 lines are non-blank. The error is InvalidData and its message ends with that count, in decimal. On success the three fields are non-empty. |
| TleLoader.ExtraLinesIgnored | src/tle_loader.rs:31-35 | Lines after the third non-blank one are ignored. |
| TleLoader.BlankLineIgnored | src/tle_loader.rs:19-35 | Inserting a blank line anywhere changes nothing. |
| TleLoader.NonBlankSkips | src/tle_loader.rs:19 | The filter drops a blank line wherever it stands. |
| TleLoader.CelestrakTle | src/tle_loader.rs:57-71 | What `descargar_tle_celestrak` does with the downloaded text. No ensures of its own. `CelestrakCountsRawLines` and `BlankNameKeptByDownload` state its properties. |
| TleLoader.DownloadTle | src/tle_loader.rs:42-72 | `descargar_tle_celestrak`. No ensures of its own. A spawn error passes through, a failed exit is Other, and a successful exit's output goes to `CelestrakTle`. `KnownNameDownloads` uses it. |
| TleLoader.CelestrakCountsRawLines | src/tle_loader.rs:57-71 | Downloaded text is not filtered, whether its lines end in "\n" or in "\r\n". Fewer than 3 raw lines gives InvalidData; otherwise the first three raw lines are used, trimmed. |
| TleLoader.BlankNameKeptByDownload | src/tle_loader.rs:58-71 | A blank first line becomes an empty name on the download path. |
| TleLoader.BlankNameSkippedByFile | src/tle_loader.rs:19-29 | The file loader skips that same blank line, and then fails for lack of lines. |
| TleLoader.AliasId | src/tle_loader.rs:83-88 | A resolved ID is one of the five listed NORAD IDs. |
| TleLoader.AliasIdIsTable | src/tle_loader.rs:83-95 | A name resolves if and only if its upper-cased form is one of the ten names of a separately written table, and then to that table's ID. Every other name gives None. |
| TleLoader.AliasCaseInsensitive | src/tle_loader.rs:83 | Names equal up to letter case resolve alike. |
| TleLoader.AliasOfUpper | src/tle_loader.rs:83 | Upper-casing the name first changes nothing. |
| TleLoader.IssAlias | src/tle_loader.rs:84 | ISS, and iss, resolve to 25544. |
| TleLoader.Ao91Aliases | src/tle_loader.rs:85 | AO-91, FOX-1B and RADFXSAT resolve to 43017. |
| TleLoader.Fo29Aliases | src/tle_loader.rs:86 | FO-29 and JAS-2 resolve to 24278. |
| TleLoader.FuncubeAliases | src/tle_loader.rs:87 | FUNCUBE-1 and AO-73 resolve to 39444. |
| TleLoader.LilacsatAliases | src/tle_loader.rs:88 | LILACSAT-2 and CAS-3H resolve to 40069. |
| TleLoader.AliasesAgreeWithFrequencyTable | src/tle_loader.rs:83-88 | Every satellite of the frequency table resolves, by its table name, to the NORAD ID the table gives it. |
| TleLoader.TleByName | src/tle_loader.rs:82-108 | `obtener_tle_por_nombre`. No ensures of its own. `UnknownNameNoDownload` and `KnownNameDownloads` state what it returns. |
| TleLoader.UnknownNameNoDownload | src/tle_loader.rs:89-95 | An unknown name gives InvalidInput "Satélite desconocido: <name>", the same whatever `curl` would do. |
| TleLoader.KnownNameDownloads | src/tle_loader.rs:99-107 | A known name gives exactly its ID's download result. A download error is returned unchanged. |
| Text.TrimEmptyIff | src/tle_loader.rs:19 | `trim` gives "" if and only if every character is whitespace. |
| Text.SplitCount | src/frequencies.rs:103 | `split` gives one more piece than there are separators. |
| Text.SplitJoin | src/frequencies.rs:103 | Joining the pieces with the separator gives the line back. |
| Text.SplitConcat | src/frequencies.rs:103 | A separator cuts the pieces into those before it and those after it. |
| Text.ContainsIff | src/frequencies.rs:58 | `contains` is true if and only if the substring occurs at some position. This is the reference definition that the recursive `Contains` meets. |
| Text.LinesOfTerminated | src/tle_loader.rs:58 | `lines` gives back the lines of text whose lines each end in "\n" or "\r\n". |
| Text.DecimalParses | src/frequencies.rs:171 | Parsing what `to_string` printed gives the number back. |
| Text.UpperIdempotent | src/frequencies.rs:157 | Upper-casing twice is upper-casing once. |

## Left out

- The SGP4 propagator and `predict_rs` are foreign libraries. Their results are parameters: `Propagator` (position in km) and `LookAngles` (elevation and azimuth in degrees, range rate in km/s).
- `src/lib.rs` (`Tracker::track`, `next_pass`, `get_next_pass`) is left out. It is a thin wrapper over `predict_rs`, whose pass search is not visible.
- Floating point is left out. `f64` is modelled as `real`, without rounding, NaN or infinities.
  - `sin`, `cos` and `sqrt` are constrained only by `Sound`.
  - `str::parse::<f64>` is an arbitrary function.
  - The radian-to-degree conversion is folded into `LookAngles`, which already gives degrees.
- Time is whole Unix seconds.
  - Sub-second precision is not modelled.
  - Overflow of `chrono` date arithmetic is not modelled.
- `doppler_downlink` is not part of this model. The tracker takes it as a parameter and relates only doppler_hz = f_rx − f_tx.
- Process and file I/O are left out.
  - The `curl` child process is a parameter. It either cannot be started (its `io::Error`) or exits with a success flag and output.
  - `String::from_utf8_lossy` is not modelled; the output is taken as text.
  - Opening and reading the TLE file is not modelled. The loader starts from the file's lines.
- Console output is left out: all `println!`/`eprintln!` tables and messages. `TrackPass` returns the observations that the code only prints.
- `examples/pruebas_doppler.rs`, the other examples' CSV writing, `src/validaciones/` and the Python scripts are left out. They are reporting code with no stated contract.
- Text.Upper: only ASCII letters are upper-cased. Rust's `to_uppercase` also maps some non-ASCII characters onto ASCII capitals. `ı` (U+0131) becomes `I`, `ſ` (U+017F) becomes `S`, `ß` becomes `SS`, and the ligature `ﬁ` becomes `FI`. So names such as "iſſ", "iß" or "lılacsat-2" resolve in the crate but not in the model. This affects `TleLoader.AliasId` and `TleLoader.TleByName` (src/tle_loader.rs:83), `Frequencies.MatchesEntry`, `Frequencies.LocalInfo` and `Frequencies.NotLocal` (src/frequencies.rs:157), and through them `Frequencies.ResolveNoradId` and `Frequencies.GetSatelliteInfo`. For those names the model answers None or "Satélite desconocido" where the crate finds the satellite. Full Unicode case mapping, which can change a string's length, is not modelled.
- TleLoader.AliasId: case-insensitive only for ASCII letters, and so is `TleLoader.AliasIdIsTable`. A name like "iſſ" gives None here but 25544 in the crate (see `Text.Upper`).
- Frequencies.NotLocal: its "not found" holds under ASCII upper-casing. In the crate a name like "lılacsat-2" is found (see `Text.Upper`).
- Text.Lines: the line splitting is `str::lines` for "\n" and "\r\n". No other Unicode line separators are handled, as in Rust.
- The visibility of `calcular_rango` and `lib.rs`'s module list are not modelled. Each function is modelled on its own.
