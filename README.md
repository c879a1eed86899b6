# Beacon landmark geocoder, modelled in Dafny

`GeoData/get_coords.py` reads a text file of California landmarks. Each
line looks like

    Lost Coast Trail (King Range, Humboldt/Mendocino) – (40.28918, -124.35588)

For every landmark it asks the Nominatim search service for coordinates.
It first searches for "name, location, California, USA". When that finds
nothing, it searches for "name, California, USA". It retries network
failures up to three attempts. Finally it counts the successes and
failures and writes a `name,lat,lon` CSV file, with one row per landmark.

The project has six modules, one file each:

- `wrappers.dfy`, module `Wrappers`: the `Option` type.
- `text.dfy`, module `Text`: Python's `str.strip`, `str.split`, the join
  that inverts it, and `str.replace` for single characters. Whitespace is
  the set that Python's `str.isspace` accepts.
- `pattern.dfy`, module `Pattern`: the line pattern
  `^(.+?)\s+\((.+?)\)\s+[–-]\s+\(([+-]?\d+\.?\d*),\s*([+-]?\d+\.?\d*)\)`
  under `re.match`.
  - Only the two lazy groups leave the matcher any choice, because every
    other piece is forced by the literal that follows it.
  - `PatternAt(L, n, m)` is the match with a name of `n` characters and a
    location of `m` characters, if there is one.
  - `MatchLine` picks the shortest name, and for that name the shortest
    location, as backtracking does.
  - `MatchLineShape` proves this choice correct and complete against the
    declarative `Shape` of a match.
- `extractor.dfy`, module `Extractor`: `extract_landmarks_from_file` on the
  file's text.
- `resolver.dfy`, module `Resolver`: `geocode_landmark`.
  - The search service is a parameter of type `Service`: its response to
    the full query or the short query in a given attempt.
    - The possible responses are an empty list, a first hit, a network
      failure, or any other failure.
    - Each attempt sends each query at most once, so this function names
      every request of a lookup.
  - Besides the result, a lookup reports the queries it sent, in order.
  - `Final` is a reference definition of the lookup: the attempt at which
    it ends.
  - `Sent` gives the requests of a run of attempts.
  - `ResolveEnds` and `GeocodeOutcome` tie the lookup to that reference.
- `reporter.dfy`, module `Reporter`: the loops of `main`.
  - The results loop, where landmark `i` is answered by `services(i)`.
  - The success and failure counts.
  - The CSV text.
  - Lemmas that read the CSV back into its lines and fields.

Latitudes and longitudes are not converted to floating point: they stay as
the decimal text they were read or received as.

`main` names `output_file` (line 103) but never writes it, so no JSON
report is modelled. `.get('display_name', '')` (lines 69 and 85) gives
the empty string when a hit has no display name; `Resolver.Located`
models that.

## Model

| member | source | states |
|---|---|---|
| Text.Strip | GeoData/get_coords.py:30 | the stripped line has no leading or trailing whitespace; it is a slice of the input with only whitespace around it |
| Text.StripTrimmed | GeoData/get_coords.py:33 | stripping a string with no surrounding whitespace changes nothing; `Extractor.NameGroupTrimmed` applies it to the name group |
| Text.StripKeepsFirst | GeoData/get_coords.py:30 | a line that starts with a non-space character keeps that character first after stripping |
| Text.StripAvoids | GeoData/get_coords.py:30 | stripping never introduces a character |
| Text.SliceAvoids | GeoData/get_coords.py:33-34 | a slice of a string holds no character the string does not |
| Text.Split | GeoData/get_coords.py:29 | `content.split('\n')`: at least one piece; no piece holds the separator; joining the pieces with it gives the content back |
| Text.SplitJoin | GeoData/get_coords.py:29 | splitting a join of separator-free parts gives the parts back, so split and join are inverse |
| Text.SplitJoinEnd | GeoData/get_coords.py:179-191 | a text that ends in the separator splits into its lines plus one empty last piece |
| Text.JoinSnoc | GeoData/get_coords.py:179-191 | joining one more part adds one separator and that part |
| Text.Replace | GeoData/get_coords.py:181 | `str.replace` on characters: same length; each character is replaced exactly when it equals `from` |
| Text.ReplaceRemoves | GeoData/get_coords.py:181 | replacing `from` by a different character leaves no `from` |
| Pattern.DecimalAlphabet | GeoData/get_coords.py:27 | a `[+-]?\d+\.?\d*` number is non-empty and holds only signs, digits and points |
| Pattern.DecimalDelimiters | GeoData/get_coords.py:27 | a number holds neither the `,` nor the `)` that ends it, and does not start with whitespace |
| Pattern.PatternAt | GeoData/get_coords.py:27 | a match with fixed group lengths has exactly those lengths, the name is a prefix of the line, and both numbers are decimals |
| Pattern.GroupSlices | GeoData/get_coords.py:27-34 | the name and location groups are slices of the line, at the positions the match cuts |
| Pattern.CutsForced | GeoData/get_coords.py:27 | once the name and location lengths are fixed, every other piece of the match has only one place |
| Pattern.PatternAtComplete | GeoData/get_coords.py:27 | every shape of the pattern in a line is found by `PatternAt` |
| Pattern.Least | GeoData/get_coords.py:27 | a lazy `.+?` takes the least length that completes the match, and no shorter length works |
| Pattern.LeastPair | GeoData/get_coords.py:27 | two lazy groups in a row: the least name length for which some location works, then the least location length |
| Pattern.MatchLine | GeoData/get_coords.py:27-31 | `re.match` gives a match of `PatternAt` with its lengths |
| Pattern.MatchLineShape | GeoData/get_coords.py:27-31 | the pattern matches exactly when the line has the pattern's shape; the groups are those of a shape; no shape has a shorter name, or the same name and a shorter location |
| Extractor.ParseLine | GeoData/get_coords.py:30-37 | a line gives a landmark exactly when its stripped text matches; the landmark is the stripped name and location groups and the two numbers of a shape with the shortest name and, for it, the shortest location, as `re.match` chooses; the name and location are trimmed; the coordinates are decimals; the name starts with the line's first character; no line break enters a field |
| Extractor.FromGroups | GeoData/get_coords.py:33-37 | the landmark of a match: its name and location are trimmed, and its coordinates are the two number groups |
| Extractor.NameKeepsFirst | GeoData/get_coords.py:30-33 | the stripped name of a matching, stripped line starts with the line's first character |
| Extractor.LineAvoids | GeoData/get_coords.py:29-34 | a line without a line break gives a name and a location without one |
| Extractor.ShorterName | GeoData/get_coords.py:27 | a name group that ends in whitespace can lose that character and the line still has the pattern's shape |
| Extractor.NameGroupTrimmed | GeoData/get_coords.py:27-33 | on a stripped line, the name group of the match `re.match` picks is already trimmed, so the `strip()` at line 33 changes nothing |
| Extractor.ParseLineSuffix | GeoData/get_coords.py:27-31 | `re.match` is anchored only at the start: any text after a trimmed line that holds a landmark and no line feed leaves the landmark it gives unchanged |
| Pattern.LeftmostSuffix | GeoData/get_coords.py:27 | text after a line with no line feed keeps the line's leftmost shape a shape, and leftmost |
| Pattern.ShapeExtend | GeoData/get_coords.py:27 | a shape of a line is a shape of the line followed by any text, with the same groups |
| Pattern.ShapeRestrict | GeoData/get_coords.py:27 | a shape of a line followed by text that ends inside the line is a shape of the line |
| Pattern.SmallerNameShape | GeoData/get_coords.py:27 | a shorter name followed by whitespace and `(` in the longer text, with the rest of a shape of the line, is a shape of the line |
| Pattern.ShorterLocationShape | GeoData/get_coords.py:27 | a shape of the longer text with the same name and a shorter location ends inside the line and is a shape of it |
| Text.StripSuffix | GeoData/get_coords.py:30 | stripping a trimmed, non-empty string followed by more text keeps the whole string in front |
| Extractor.ParseAll | GeoData/get_coords.py:29-32 | every line is parsed on its own, in order |
| Extractor.Present | GeoData/get_coords.py:32 | the positions of the matching entries: in range, increasing, and complete |
| Extractor.KeepPresent | GeoData/get_coords.py:32-37 | the kept values are exactly the values at the matching positions, in order |
| Extractor.KeepAppend | GeoData/get_coords.py:29-37 | keeping works piece by piece |
| Extractor.MatchedLines | GeoData/get_coords.py:29-32 | the indices of the matching lines: in range, increasing, and containing every matching line |
| Extractor.ExtractAll | GeoData/get_coords.py:29-39 | the landmarks of a file's lines: at most one per line |
| Extractor.ExtractAllOrder | GeoData/get_coords.py:29-37 | the landmarks are exactly the parses of the matching lines, in line order: none dropped, duplicated or reordered |
| Extractor.ExtractAllAppend | GeoData/get_coords.py:29-37 | extracting from two runs of lines is extracting from each, concatenated |
| Extractor.ExtractLandmarks | GeoData/get_coords.py:15-39 | the loop appends one landmark per matching line and returns `ExtractAll` of the file's lines |
| Extractor.ExtractAllNoNewline | GeoData/get_coords.py:29-34 | no landmark read from the lines of a file has a line break in its name or location |
| Resolver.PrimaryQuery | GeoData/get_coords.py:48 | the full query: the name, `, `, the location, then `, California, USA` |
| Resolver.FallbackQuery | GeoData/get_coords.py:73 | the short query: the name, then `, California, USA` |
| Resolver.QueriesDiffer | GeoData/get_coords.py:48-73 | the full query and the short query are never equal |
| Resolver.Located | GeoData/get_coords.py:66-70 | a hit gives its latitude and longitude, and its display name or the empty string |
| Resolver.Attempt | GeoData/get_coords.py:60-98 | one pass of the `try`: the short query is sent exactly when the full one found nothing; the attempt ends on a network failure exactly when the response it acts on is one; it finds a place exactly when that response is a hit |
| Resolver.AttemptEnds | GeoData/get_coords.py:61-98 | an attempt sends the short query exactly when the full one found nothing; it retries exactly when the response it acts on is a network failure; otherwise it finds a place exactly when that response is a hit |
| Resolver.ResolveNone | GeoData/get_coords.py:59 | with no attempts left, the lookup sends nothing and finds nothing |
| Resolver.ResolveLast | GeoData/get_coords.py:92-95 | a network failure in the last attempt ends the lookup with nothing |
| Resolver.ResolveRetry | GeoData/get_coords.py:90-93 | a network failure before the last attempt starts the next attempt with the full query |
| Resolver.ResolveFrom | GeoData/get_coords.py:59-98 | the attempts from `attempt` on: with attempts left the first request is the full query; at most two requests per remaining attempt; a place is found only while attempts remain |
| Resolver.Resolve | GeoData/get_coords.py:42-98 | `geocode_landmark`: with `retries > 0` it begins with the full query, sends at most `2 * retries` requests, and finds nothing when `retries <= 0` |
| Resolver.ResolveDone | GeoData/get_coords.py:65-98 | an attempt that does not fail on the network ends the lookup with its own result |
| Resolver.Geocode | GeoData/get_coords.py:42-98 | the loop over attempts returns the result and the request trace of `Resolve` |
| Resolver.ThenThen | GeoData/get_coords.py:59 | prefixing requests twice is prefixing their concatenation |
| Resolver.Final | GeoData/get_coords.py:59-95 | the attempt the lookup ends at: every earlier attempt failed on the network; unless it is the last attempt, this one did not |
| Resolver.ResolveEnds | GeoData/get_coords.py:59-98 | the lookup sends exactly the requests of attempts up to `Final`; it finds nothing if `Final` failed on the network, else `Final`'s result |
| Resolver.Count | GeoData/get_coords.py:59 | a count of requests is at most their number |
| Resolver.CountAppend | GeoData/get_coords.py:59 | counting requests works piece by piece |
| Resolver.SentCount | GeoData/get_coords.py:59-86 | in a run of attempts the full query is sent exactly once per attempt, and between one and two requests per attempt |
| Resolver.GeocodeOutcome | GeoData/get_coords.py:42-98 | with no attempts nothing is sent. Otherwise, with `e` the attempt the lookup ends at: it sends `e + 1` full queries and between `e + 1` and `2(e + 1)` requests; it finds a place exactly when the decisive response of `e` is a hit, and then that hit; it finds nothing only on a failure, on nothing found by both queries, or on a network failure in the last attempt |
| Reporter.GeocodeAll | GeoData/get_coords.py:109-158 | one result per landmark, in order, each with its landmark and the outcome of its lookup |
| Reporter.Successful | GeoData/get_coords.py:165 | `successful` is at most the number of results; it equals that number exactly when every landmark was found, and is zero exactly when none was |
| Reporter.Failed | GeoData/get_coords.py:166 | `failed` lies between 0 and the number of results; it is 0 exactly when every landmark was found, and the number of results exactly when none was |
| Reporter.FailedCounts | GeoData/get_coords.py:165-166 | `failed` counts exactly the results without new coordinates; successes and failures add up to all results |
| Reporter.CsvName | GeoData/get_coords.py:181 | the CSV name has the same length as the name and no comma; each comma becomes a semicolon and every other character is kept |
| Reporter.Coordinates | GeoData/get_coords.py:183-189 | a row carries the new coordinates when geocoding found the landmark, else the ones read from the input |
| Reporter.Row | GeoData/get_coords.py:191 | a row is the CSV name, a comma, the latitude, a comma and the longitude, each piece at its own place in the row |
| Reporter.CsvText | GeoData/get_coords.py:178-191 | the CSV text starts with the header line and ends with a line break |
| Reporter.WriteCsv | GeoData/get_coords.py:178-191 | the loop writes the header, then one row per result with its line break: `CsvText` |
| Reporter.Rows | GeoData/get_coords.py:180-191 | one row per result, in order |
| Reporter.CsvJoin | GeoData/get_coords.py:178-191 | the CSV text is the header and the rows joined by line breaks, with a final line break |
| Reporter.Lines | GeoData/get_coords.py:179-191 | the CSV's lines: the header, then one row per result |
| Reporter.LinesPlain | GeoData/get_coords.py:179-191 | with no line break in any row, no line of the CSV holds one |
| Reporter.CsvLines | GeoData/get_coords.py:179-191 | reading the CSV back: split on line breaks it is the header, the rows in order, and an empty last piece |
| Reporter.RowFields | GeoData/get_coords.py:181-191 | with plain coordinates and no line break in the name, a row has no line break and splits on commas into exactly the sanitized name, the latitude and the longitude |
| Reporter.DecimalPlain | GeoData/get_coords.py:27 | a coordinate read from the input has no comma and no line break |
| Reporter.ResolvePlain | GeoData/get_coords.py:65-86 | when every hit the service gives has plain coordinates (no comma, no line break), so does the place a lookup finds; the proof rests on `Resolver.GeocodeOutcome` |
| Reporter.Report | GeoData/get_coords.py:101-191 | `main`: one result per landmark extracted from the file, with the result of its lookup; `successful` and `failed` count the found and not-found results and add up to all of them; the CSV text is `CsvText` of the results |
| Reporter.ReportCsv | GeoData/get_coords.py:106-191 | when the service's hits carry plain coordinates, the CSV reads back as the header and one row per landmark, and each row reads back as the sanitized name and the chosen coordinates |

## Left out

- HTTP, URL encoding and JSON decoding (lines 51-63 and 74-79) are left out. The service is a parameter that answers each request with `Empty`, `Hit`, `Transient` or `Failure`.
- A `KeyError` or `ValueError` while reading a hit (lines 67-68 and 83-84) is not modelled separately. The `Exception` handler at lines 96-98 turns it into `None`, which is what a `Failure` response gives.
- The pauses `time.sleep(2)` (line 93) and `time.sleep(1.1)` (line 162) are left out, because they do not change any value.
- Reading `in.txt` is left out: the extractor takes the text `f.read()` returns (line 23). That text has been through text-mode newline translation, so `\r\n` and a lone `\r` in the file are already `\n`; the model does not perform that translation, and a lone `\r` in the file is a line break for the program. Writing the CSV file is left out too: the model builds the text written to it (lines 178-191).
- All console output (`print`) is left out.
- The JSON report is left out, because the code defines `output_file` (line 103) but never writes it.
- The `abs` coordinate differences (lines 121-122, stored at 136-139) and the `'error'` marker (line 154) are left out. They go only into the `results` entries, which nothing writes out, and the differences also into the console line at line 143, which is left out with all console output. An `Outcome` keeps the landmark (with its location) and the found place (with its display name).
- `float()` conversion (lines 35-36, 67-68, 83-84) and `repr` formatting of floats in the CSV (line 191) are left out. Coordinates are kept as decimal text, so a row shows the text as read rather than Python's float formatting.
- Reporter.ReportCsv: requires that every hit's coordinates have no comma and no line break. A Python float's `repr` never has them, but the model keeps coordinates as text, so this is assumed of the service.
- Pattern.IsDigit: `\d` is restricted to the ASCII digits. Python's `\d` on `str` also accepts other Unicode decimal digits.
- Resolver.Located: a hit whose `display_name` is JSON `null` is modelled as one without a display name, so the model gives `''` where `.get('display_name', '')` (lines 69 and 85) returns `None`. The display name goes only into the `results` entries, which nothing writes out.
- Resolver.Geocode: the trace of sent queries is an observation added by the model. `geocode_landmark` returns only the result.
- Resolver.Resolve: a `retries` of zero or less sends nothing and returns `None`, as `range(retries)` does. `main` always uses the default of 3 (`Reporter.Retries`).
