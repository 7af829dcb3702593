# Territorial-authority and meshblock loaders, modelled in Dafny

Two batch scripts load New Zealand administrative boundaries into PostGIS.

`download_ta_bdys.py` loads the territorial authorities (TA):

- It asks an ArcGIS REST service for its layer list and picks the latest
  "Territorial Authorities YYYY" layer.
- It compares that year with the year stored as the comment of the output
  table. Then it either stops or truncates or creates the table.
- It fetches the features, either paged through OGR or one request per
  object id into a scratch in-memory layer.
- It finds the `TA<year>...NAME` field.
- It copies every feature as a row (name, geometry). Single polygons become
  multi-polygons, and longitudes are optionally shifted into 0..360.
- It stamps the table comment with the year and optionally builds a grid
  index.

`download_admin_bdys.py` shares the longitude shift. It adds:

- a repair of ESRI polygons, which regroups a flat list of rings into
  polygons with holes by ring orientation;
- a connection class that builds the `PG:` connection string;
- the meshblock loader, which turns every data line of the CSV files in an
  archive into an `INSERT` statement.

The project is split into modules, one per file:

| file | module | what it holds |
|---|---|---|
| `common.dfy` | `Common` | `Option` |
| `text.dfy` | `Text` | The Python string operations the scripts use, over `seq<char>`: `strip`, `lower`, one-character `replace`, `join`, `split(sep)`, `split(sep, maxsplit)`, `str(n)` and `int(s)` |
| `geometry.dfy` | `Geometry` | Geometry values (point, ring, polygon, multi-polygon), the longitude shift on values, and `ForceToMultiPolygon` |
| `shift_in_place.dfy` | `ShiftInPlace` | `shift_geom` as it runs: it overwrites vertices in place in per-leaf `array<Point>` buffers, recursing over rings and parts |
| `esri_rings.dfy` | `EsriRings` | `ring_is_clockwise` as a loop, and `fix_esri_polyon` as a loop proved against a regrouping function |
| `ta_selection.dfy` | `LayerSelection` | The layer-name pattern and the latest-layer loop; the name-field pattern and the name-field loop |
| `pg_connection.dfy` | `PgConnection` | The `PG:` string builder, its read-back, and the `DatabaseConn` class |
| `meshblocks.dfy` | `Meshblocks` | `query`, the handling of each CSV line, and the `insert` loops over files and lines |
| `ta_fetch.dfy` | `FeatureFetch` | The paging decision and the per-object fallback that fills a scratch layer |
| `ta_loader.dfy` | `TaLoader` | A whole TA run: the function `Pipeline`, the class `OutputTable`, and the method `Run`, proved equal to `Pipeline` |
| `ta_properties.dfy` | `TaLoaderProperties` | What a run guarantees: when it stops as up to date, what an update writes, and what a rerun does |

Python behaviour made explicit in the model:

- Regular expressions:
  - `$` also matches just before a final newline.
  - `\s` is one of the six ASCII whitespace characters.
  - `\d` is an ASCII digit.
- `not latest_year` is also true for the year 0.
- `int(s)` ignores surrounding whitespace, accepts an optional sign, and
  also ignores whitespace between the sign and the digits (`int('- 5') == -5`).
- Formatting a byte-string template with text that holds a character outside
  ASCII raises `UnicodeEncodeError`, so such a meshblock row raises. The
  column list is lowered first, so the two letters outside ASCII whose lower
  case is ASCII (U+0130 to `i`, U+212A to `k`) do not make a row raise.
- `split(',', n)` keeps the remaining commas in its last piece.
- The `utf-8-sig` codec drops a byte-order mark at the start of each line.

Coordinates are exact `real`s.

Points worth knowing about the code as written:

- **Version gate.** The comment above the check reads "Only continue if data
  is old" (download_ta_bdys.py:193). The code stops when the stored version is
  *at most* the year found (download_ta_bdys.py:218).
  `TaLoaderProperties.UpToDateExactly` states the gate as written.
  `TaLoaderProperties.UpdateOnlyOverNewerStamp` shows the consequence: without
  `force_update`, a table is reloaded only when its stamp is *newer* than the
  service's year.
- **Name field.** The pattern is compiled with `re.UNICODE` only, so `TA` and
  `NAME` must match in that letter case. When several fields match, the last
  one is used.
- **Shift range.** The comment above `shift_geom` speaks of the "0-360
  longitude space" (download_ta_bdys.py:50). An X of exactly 360 is left
  alone, so the range is [0, 360] (`Geometry.ShiftLandsInRange`).

## Model

| member | source | states |
|---|---|---|
| Text.SplitMax | download_admin_bdys.py:256 | `split(sep, n)` gives between 1 and n+1 pieces |
| Text.SplitMaxJoin | download_admin_bdys.py:256 | joining the pieces of `split(sep, n)` with `sep` gives the text back |
| Text.SplitMaxPieces | download_admin_bdys.py:256 | no piece of `split(sep, n)` but the last holds `sep`, and the last holds none either when fewer than n+1 pieces came out |
| Text.Split | download_admin_bdys.py:253 | `split(sep)` gives at least one piece; joining them gives the text back; no piece holds `sep` |
| Text.SplitJoin | download_admin_bdys.py:253 | Splitting the join of separator-free pieces gives the pieces back |
| Text.NatToString | download_ta_bdys.py:410 | `str(n)` is a non-empty run of digits, denotes n, and has no leading zero |
| Text.ParseIntMinusGap | download_ta_bdys.py:217 | `int()` accepts whitespace between a minus sign and the digits: `int('- 5') == -5` |
| Text.ParseIntPlusGap | download_ta_bdys.py:217 | `int()` accepts whitespace between a plus sign and the digits: `int('+ 2018') == 2018` |
| Text.ParseIntNatToString | download_ta_bdys.py:217 | `int(str(n)) == n`: the comment stamp written is read back as the same year |
| Text.Lower | download_admin_bdys.py:267 | `lower()` keeps the length and lowers each character in place: ASCII capitals, U+0130 to `i`, U+212A to `k` |
| Text.LowerAscii | download_admin_bdys.py:267 | Lowered text is ASCII exactly when every character is ASCII, U+0130 or U+212A |
| Geometry.ShiftX | download_ta_bdys.py:61-64 | X in [-360, 720] lands in [0, 360]; X in [0, 360] is unchanged; X moves by 0 or ±360 only |
| Geometry.ShiftOnlyMovesX | download_ta_bdys.py:51-66 | The shift keeps the geometry's kind and every count; the vertex sequence is the old one with only X moved by the longitude rule, Y and Z equal |
| Geometry.ShiftLandsInRange | download_ta_bdys.py:61-64 | Every vertex X in [-360, 720] ends up in [0, 360] |
| Geometry.ShiftFixesNormalised | download_ta_bdys.py:61-64 | A geometry already within [0, 360] is left unchanged |
| Geometry.ShiftIdempotent | download_ta_bdys.py:61-64 | On [-360, 720], shifting twice equals shifting once |
| Geometry.ForceKeepsVertices | download_ta_bdys.py:394-395 | Forcing to multi-polygon turns a polygon into the one-polygon multi-polygon, leaves other kinds alone, and keeps the vertices |
| Geometry.ShiftCommutesWithForce | download_ta_bdys.py:394-397 | Shifting and forcing to multi-polygon commute |
| ShiftInPlace.ShiftPoints | download_ta_bdys.py:59-65 | The leaf loop leaves the buffer holding the shift of each old vertex |
| ShiftInPlace.ShiftRings | download_ta_bdys.py:54-57 | Recursing over a polygon's rings shifts each ring's buffer |
| ShiftInPlace.ShiftParts | download_ta_bdys.py:54-57 | Recursing over a multi-polygon's parts shifts each polygon |
| ShiftInPlace.ShiftGeometry | download_admin_bdys.py:50-65 | `None` is left alone; otherwise the in-place geometry's new value is the shift of its old value |
| EsriRings.RingIsClockwise | download_admin_bdys.py:68-78 | The loop fails on an empty ring (`GetPoint(0)` raises), and otherwise returns `total >= 0` for the orientation sum of consecutive edges |
| EsriRings.OrientationSumReverse | download_admin_bdys.py:74-76 | Reversing a ring negates its orientation sum |
| EsriRings.ReverseFlipsOrientation | download_admin_bdys.py:78 | For a ring with non-zero sum, reversal flips the clockwise test |
| EsriRings.GroupRingsDefined | download_admin_bdys.py:84-93 | Regrouping succeeds exactly when every ring is readable and the first ring, if any, is clockwise (a leading hole has no `poly` to join); it yields polygons exactly when there are rings |
| EsriRings.GroupRingsStructure | download_admin_bdys.py:86-93 | Concatenating the polygons gives the rings back in order; each polygon is one clockwise ring followed by non-clockwise rings; there is one polygon per clockwise ring |
| EsriRings.GroupRingsUnique | download_admin_bdys.py:86-93 | Any grouping with those two properties is the one built |
| EsriRings.FixedGeometryOutcome | download_admin_bdys.py:94-101 | The repair fails exactly for no rings, an unreadable ring or a leading hole. Otherwise it gives a multi-polygon exactly when more than one ring is clockwise, a polygon when one is, and the same vertices as the rings |
| EsriRings.FixEsriPolygon | download_admin_bdys.py:81-101 | The loop with `poly` and `polygons` returns what the regrouping specifies |
| LayerSelection.LayerYear | download_ta_bdys.py:153 | A name that matches carries a year below 10000 |
| LayerSelection.LayerYearOfName | download_ta_bdys.py:153 | "Territorial Authorities" followed by a four-digit year is read back as that year |
| LayerSelection.LatestLayerIsGreatest | download_ta_bdys.py:150-161 | Nothing is selected exactly when no name matches; otherwise the selected year is the greatest any name carries, and it belongs to a layer with that id |
| LayerSelection.LatestIndexIsGreatest | download_ta_bdys.py:155-157 | The loop over the years chooses nothing exactly when no name matches. Otherwise it ends on a greatest year; for a positive year, on the first layer carrying it; for year 0, which `not latest_year` treats as unset, on the last match |
| LayerSelection.SelectLatestLayer | download_ta_bdys.py:150-157 | The loop over the layer list ends on the selection specified |
| LayerSelection.SelectsNewerOfTwo | download_ta_bdys.py:152-157 | With layers for 2013 and 2018, the 2018 one is chosen |
| LayerSelection.IsNameFieldShape | download_ta_bdys.py:369 | A field matches `^TA<year>.+NAME$` exactly when it is `TA<year>`, one or more non-newline characters, `NAME`, and at most a final newline |
| LayerSelection.LastNameFieldIsLastMatch | download_ta_bdys.py:370-378 | No field is found exactly when none matches; otherwise the field found matches and no later field does |
| LayerSelection.FindNameField | download_ta_bdys.py:370-375 | The field loop ends on the last matching field |
| PgConnection.BuildPgUri | download_admin_bdys.py:113-121 | Building the string by reassignment gives `PG:dbname=` and then host, port, user and password segments, in that order, each present exactly when its option is non-empty |
| PgConnection.PgUriRoundTrip | download_ta_bdys.py:172-180 | For values without spaces, splitting the string at spaces gives back the database name and each option that was given, and nothing for those that were not |
| PgConnection.RoleStatements | download_admin_bdys.py:133-134 | Connecting sends one `SET ROLE <role>` statement exactly when a role name is given |
| PgConnection.DatabaseConn.constructor | download_admin_bdys.py:105-124 | A new connection holds the built string and is not yet connected |
| PgConnection.DatabaseConn.Connect | download_admin_bdys.py:126-134 | A failed open changes nothing; a successful one connects and sends the role statement |
| PgConnection.DatabaseConn.Execute | download_admin_bdys.py:261 | A statement can be sent only once connected, and is appended to what was sent |
| Meshblocks.Query | download_admin_bdys.py:266-269 | The statement can be built exactly when the lowered column list and every value are ASCII (otherwise `format` raises); when built, it holds no double quote |
| Meshblocks.QueryQuotesValues | download_admin_bdys.py:267 | A lowered column list or a value outside ASCII gives no statement; otherwise, with quote-free names and columns, the statement is `INSERT INTO s.t (<lower-cased columns>) VALUES (<values with " turned into '>)` |
| Meshblocks.QueryQuotesColumns | download_admin_bdys.py:267 | For any column names, the statement's column list is the lowered header line with `"` turned into `'`, and each value is rewritten on its own |
| Meshblocks.QuotedHeaderColumn | download_admin_bdys.py:267 | A quoted CSV header `"h"` becomes the column `'h'`, lowered |
| Meshblocks.QueryByLoweredHeaders | download_admin_bdys.py:267 | Headers whose joined, lowered text agrees give the same statement or the same raise |
| Meshblocks.LoweredHeadersFormat | download_admin_bdys.py:267 | A Kelvin-sign header is the column `k` and a dotted-capital-I `D` header the column `id`, and such a row gives a statement |
| Meshblocks.OtherLetterRaises | download_admin_bdys.py:267 | A header letter whose lower case is outside ASCII (U+00C5) makes the statement raise |
| Meshblocks.QuotedFieldBecomesLiteral | download_admin_bdys.py:267 | A CSV field `"s"` becomes the SQL literal `'s'` |
| Meshblocks.UndoubleDouble | download_admin_bdys.py:256 | Doubling single quotes loses nothing: reading `''` as `'` gives the line back |
| Meshblocks.Headers | download_admin_bdys.py:252-254 | The header line splits into at least one comma-free column name, and they join back into the line |
| Meshblocks.Values | download_admin_bdys.py:256 | A data line gives between 1 and `len(headers)` fields; they join back into the quote-doubled line; only the last may hold commas, and it holds none when there are fewer than `len(headers)` fields |
| Meshblocks.ValuesKeepLine | download_admin_bdys.py:251-256 | Joining the fields and undoubling quotes gives the cleaned line back |
| Meshblocks.RowQueries | download_admin_bdys.py:258-259 | A file not in `f2t` sends nothing |
| Meshblocks.RowQueriesRaises | download_admin_bdys.py:255-267 | A file raises exactly when some row that is not skipped raises: the file is not in `f2t`, or a value or the lowered header holds text outside ASCII |
| Meshblocks.RowQueriesCount | download_admin_bdys.py:255-261 | A file that does not raise sends one statement per row with no field exactly `"NULL"` |
| Meshblocks.RowQueriesQuoteFree | download_admin_bdys.py:259-261 | None of a file's statements holds a double quote, including those sent before a raise |
| Meshblocks.KnownFileLoads | download_admin_bdys.py:213 | A file named in `f2t` whose cleaned lines (a leading byte-order mark dropped) are ASCII never raises, and its statements are quote-free |
| Meshblocks.KnownFilesLoad | download_admin_bdys.py:246-261 | An archive of known files whose cleaned lines are ASCII never raises, and every statement sent is quote-free |
| Meshblocks.RowsEncodable | download_admin_bdys.py:251-256 | Every row of a file whose cleaned lines are ASCII can be formatted into a statement |
| Meshblocks.RowRaisedPersists | download_admin_bdys.py:255-261 | After a row raises, later rows of the file change nothing |
| Meshblocks.RaisedPersists | download_admin_bdys.py:247-259 | After a file raises, later files change nothing |
| Meshblocks.SendRow | download_admin_bdys.py:256-267 | A row with a field exactly `"NULL"` is skipped; otherwise it raises exactly when the file is unknown or a value or the lowered header holds text outside ASCII, and else sends exactly its statement |
| Meshblocks.DataLine | download_admin_bdys.py:250-261 | After one more data line, what was sent is the statements specified for the lines so far, and it raises exactly when they do |
| Meshblocks.InsertMember | download_admin_bdys.py:248-261 | The line loop with its `first` flag raises exactly when the file's specification does, and sends exactly the file's statements, those before a raising row included |
| Meshblocks.Insert | download_admin_bdys.py:243-261 | A connection that does not open ends the run with nothing sent. Otherwise `insert` sends the role statement and the statements of every file in archive order, and stops at the first file that raises, keeping what was sent before |
| FeatureFetch.PaginationFlag | download_ta_bdys.py:290 | With GDAL ≥ 2.0 and server ≥ 10.1, paging is used exactly when the flag's text is `true` in any letter case |
| FeatureFetch.OldReleasesFallBack | download_ta_bdys.py:290 | An older GDAL or server always falls back to one request per object |
| FeatureFetch.FetchedFeatures | download_ta_bdys.py:333-361 | The fetch fails exactly when some id gets no feature; otherwise there is one feature per id, in id order |
| FeatureFetch.ScratchLayer.CreateField | download_ta_bdys.py:358 | One field definition is added, and the features are unchanged |
| FeatureFetch.ScratchLayer.CreateFeature | download_ta_bdys.py:361 | One feature is added, and the fields are unchanged |
| FeatureFetch.FetchPerObject | download_ta_bdys.py:329-361 | The fallback loop fails exactly when the fetch does. Otherwise the scratch layer holds the features in id order, and the field definitions come from the first feature only |
| TaLoader.RoleActions | download_ta_bdys.py:189-190 | The role switch is the same `SET ROLE` statement the connection class sends |
| TaLoader.Gate | download_ta_bdys.py:203-251 | Whenever the run goes on, the table exists and is empty |
| TaLoader.CopiedRows | download_ta_bdys.py:390-402 | The copy fails exactly when a feature has no geometry; otherwise there is one row per feature, in order, with the name field's value and the normalised geometry |
| TaLoader.OutputTable.TruncateRows | download_ta_bdys.py:226 | `TRUNCATE` empties the table and changes nothing else |
| TaLoader.OutputTable.Create | download_ta_bdys.py:232-246 | Creating gives an existing, empty, uncommented table |
| TaLoader.OutputTable.Grant | download_ta_bdys.py:248 | `public` may select |
| TaLoader.OutputTable.StartTransaction | download_ta_bdys.py:389 | Nothing is pending |
| TaLoader.OutputTable.AddRow | download_ta_bdys.py:399 | A row is pending and the table is unchanged |
| TaLoader.OutputTable.Commit | download_ta_bdys.py:404-407 | The pending rows join the table |
| TaLoader.OutputTable.SetTableComment | download_ta_bdys.py:410 | The comment becomes the text |
| TaLoader.CopyFeatures | download_ta_bdys.py:386-407 | The cursor loop writes exactly the rows specified and commits them, or leaves the table as it was when a geometry is missing |
| TaLoader.LoadTable | download_ta_bdys.py:288-427 | Fetching, finding the name field, copying, stamping and the grid agree with `Load` |
| TaLoader.CheckTable | download_ta_bdys.py:196-251 | Reading the comment, then stopping, truncating or creating, agrees with `Gated` |
| TaLoader.Run | download_ta_bdys.py:131-430 | The whole run agrees with `Pipeline`: exit, final table and the actions taken |
| TaLoaderProperties.UpToDateExactly | download_ta_bdys.py:203-222 | A run is up to date exactly when it gets as far as the table, the table's comment parses to a version at most the layer's year, and `force_update` is off. Such a run leaves the table alone and only connects and reads the comment |
| TaLoaderProperties.ForceNeverUpToDate | download_ta_bdys.py:218-222 | With `force_update` a run never stops as up to date |
| TaLoaderProperties.TruncateOrCreate | download_ta_bdys.py:203-251 | A table is truncated only if it existed and created only if it did not, so never both |
| TaLoaderProperties.ClearedRunResets | download_ta_bdys.py:225-251 | A run that gets past the comment check truncates an existing table, or creates a missing one and grants `public` select on it; the table then exists |
| TaLoaderProperties.PublicSelectGranted | download_ta_bdys.py:232-248 | After a run `public` may select exactly when it could before, or the run reached a missing table and created it |
| TaLoaderProperties.GridResolutionCheckedFirst | download_ta_bdys.py:138-140 | `create_grid` with a non-positive resolution fails before any action, leaving the table alone |
| TaLoaderProperties.UpdateWritesEveryFeature | download_ta_bdys.py:386-410 | After an update the table exists, holds one row per input feature in order (name and normalised geometry), and its comment is `str(year)` |
| TaLoaderProperties.RerunIsUpToDate | download_ta_bdys.py:214-222 | A second run after an update, without `force_update`, stops as up to date |
| TaLoaderProperties.UpdateOnlyOverNewerStamp | download_ta_bdys.py:217-222 | Without `force_update`, an existing table with a stamp is reloaded only when the stamp is newer than the layer's year |
| TaLoaderProperties.NoFeaturesLeavesTableEmpty | download_ta_bdys.py:363-366 | A run that finds no features leaves the table existing and empty |
| TaLoaderProperties.GridBuiltLast | download_ta_bdys.py:416-427 | After the copy, the grid is built exactly when `create_grid` is set, as the last action, with `grid_res` for both resolutions; it fails only then |
| TaLoaderProperties.NormalisedGeometry | download_ta_bdys.py:393-398 | A copied geometry is never a single polygon; its vertices are the input's, shifted when asked |

## Left out

- Configuration parsing, command-line options and logging setup are not modelled. Settings are fields of `Config`.
- Network and file I/O is not modelled: the HTTP requests, JSON decoding, GeoJSON opening, SFTP, and reading the ZIP archive. What they return is given as input, in `Remote` and `Member`. A capabilities document without `currentVersion` or `advancedQueryCapabilities.supportsPagination` raises `KeyError` and ends the run with exit 1 (download_ta_bdys.py:281-282); the model always receives a version and a flag.
- OGR/PostgreSQL execution is reduced to a table state and a list of actions. The catalog query text for the comment is not modelled.
- The swallowed commit error (download_ta_bdys.py:404-407) is not modelled. The commit always succeeds in the model.
- Exceptions from `ExecuteSQL` in `meshblocks.insert` are logged and ignored (download_admin_bdys.py:260-263). In the model every statement succeeds. Exceptions before that `try` (the `f2t` lookup, the formatting in `query`) end the loop, as modelled.
- The start-up GDAL version check and the `SetConfigOption` calls are not modelled.
- SRS validity and `IsGeographic` are boolean inputs, not spatial-reference logic.
- Missing OGR drivers and a failing `CreateLayer` are not modelled. Creation always succeeds.
- `meshblocks.fetch` (SFTP listing and the configured filename regex) is not part of this model, nor is the `nzfslocalities` class.
- Floating-point rounding is not modelled. Coordinates, `grid_res` and the server version are exact reals, and `%g` formatting of the grid SQL is replaced by the `BuildGrid` action's arguments.
- The paged fetch is modelled as if it worked. As written, line 292 refers to an undefined `srid`, so that path raises `NameError`; the model takes the paged layer from `Remote` instead.
- The fatal message for zero features formats an unbound `e` (download_ta_bdys.py:365). The run exits 1 either way, which is what the model says.
- Other known defects are not modelled: the unbound `localfile` in `meshblocks.fetch` and the shadowed `logger` in `ConfReader`.
- Text.Lower: letters outside ASCII other than U+0130 and U+212A are left as they are instead of being lowered. Their lower case is outside ASCII as well, so a meshblock header holding one raises either way; only the text of a statement that is never sent would differ.
- Archive lines are given as decoded text. Bytes that are not valid UTF-8, where `decode` raises `UnicodeDecodeError`, are not modelled. The pattern tests are ASCII only.
- TaLoaderProperties.NormalisedGeometry: geometry type codes with Z are not told apart from plain polygons. The source forces only `wkbPolygon` (download_ta_bdys.py:394) and leaves a `wkbPolygon25D` single, while the model forces every polygon.
- The 100-character width of the `name` column (download_ta_bdys.py:244-246) is not modelled. Names are unbounded strings.
- ShiftInPlace.ShiftGeometry: the tree of sub-geometries is fixed at depth two (multi-polygon, polygon, ring). Deeper collections are not modelled.
