/**
 * The loops of `main`: geocode every landmark read from the input, count
 * the successes and failures, and write the CSV text with one row per
 * landmark.  The service answering landmark `i` is `services(i)`.
 */
module Reporter {
  import opened Wrappers
  import opened Text
  import opened Pattern
  import opened Extractor
  import opened Resolver

  /** `geocode_landmark`'s default number of attempts, which `main` uses. */
  const Retries: int := 3

  /** One entry of `results`: the landmark and what geocoding found for it (`new_coords` and `display_name`), if anything. */
  datatype Outcome = Outcome(landmark: Landmark, found: Option<GeoPoint>)

  /** The results loop of `main`: one entry per landmark, in order, whether or not geocoding found it. */
  method GeocodeAll(landmarks: seq<Landmark>, services: nat -> Service) returns (results: seq<Outcome>)
    ensures |results| == |landmarks|
    ensures forall i :: 0 <= i < |results| ==> results[i].landmark == landmarks[i]
    ensures forall i :: 0 <= i < |results| ==>
      results[i].found == Resolve(landmarks[i].name, landmarks[i].location, Retries, services(i)).result
  {
    results := [];
    for i := 0 to |landmarks|
      invariant |results| == i
      invariant forall j :: 0 <= j < i ==> results[j].landmark == landmarks[j]
      invariant forall j :: 0 <= j < i ==>
        results[j].found == Resolve(landmarks[j].name, landmarks[j].location, Retries, services(j)).result
    {
      var landmark := landmarks[i];
      var found, sent := Geocode(landmark.name, landmark.location, Retries, services(i));
      results := results + [Outcome(landmark, found)];
    }
  }

  /** `successful`: the number of results with new coordinates. */
  function Successful(results: seq<Outcome>): (n: nat)
    ensures n <= |results|
    ensures n == |results| <==> forall i :: 0 <= i < |results| ==> results[i].found.Some?
    ensures n == 0 <==> forall i :: 0 <= i < |results| ==> results[i].found.None?
  {
    if results == [] then 0
    else
      assert forall i :: 1 <= i < |results| ==> results[i] == results[1..][i - 1];
      (if results[0].found.Some? then 1 else 0) + Successful(results[1..])
  }

  /** `failed`: the results that are not successful. */
  function Failed(results: seq<Outcome>): (f: nat)
    ensures f <= |results|
    ensures f == 0 <==> forall i :: 0 <= i < |results| ==> results[i].found.Some?
    ensures f == |results| <==> forall i :: 0 <= i < |results| ==> results[i].found.None?
  {
    |results| - Successful(results)
  }

  /** The results geocoding did not find. */
  function Failures(results: seq<Outcome>): nat
  {
    if results == [] then 0 else (if results[0].found.None? then 1 else 0) + Failures(results[1..])
  }

  /** Every result is counted once, as a success or as a failure, so `failed` counts the results without new coordinates. */
  lemma {:induction false} FailedCounts(results: seq<Outcome>)
    ensures Failed(results) == Failures(results)
    ensures Successful(results) + Failed(results) == |results|
  {
    if results != [] {
      FailedCounts(results[1..]);
    }
  }

  /** The CSV header line, without its line break. */
  const Header: string := "name,lat,lon"

  /** The name as the CSV writes it: every comma replaced by a semicolon. */
  function CsvName(name: string): (r: string)
    ensures |r| == |name| && ',' !in r
    ensures forall i :: 0 <= i < |name| && name[i] == ',' ==> r[i] == ';'
    ensures forall i :: 0 <= i < |name| && name[i] != ',' ==> r[i] == name[i]
  {
    ReplaceRemoves(name, ',', ';');
    Replace(name, ',', ';')
  }

  /** The coordinates a row carries: the new ones when geocoding found the landmark, else the ones read from the input. */
  function Coordinates(r: Outcome): (c: (string, string))
    ensures r.found.Some? ==> c == (r.found.value.lat, r.found.value.lon)
    ensures r.found.None? ==> c == (r.landmark.lat, r.landmark.lon)
  {
    match r.found
    case Some(p) => (p.lat, p.lon)
    case None => (r.landmark.lat, r.landmark.lon)
  }

  /** One CSV row, without its line break. */
  function Row(r: Outcome): (row: string)
    ensures |row| == |r.landmark.name| + 1 + |Coordinates(r).0| + 1 + |Coordinates(r).1|
    ensures row[..|r.landmark.name|] == CsvName(r.landmark.name) && row[|r.landmark.name|] == ','
    ensures var latEnd := |r.landmark.name| + 1 + |Coordinates(r).0|;
      row[|r.landmark.name| + 1..latEnd] == Coordinates(r).0 && row[latEnd] == ',' && row[latEnd + 1..] == Coordinates(r).1
  {
    CsvName(r.landmark.name) + "," + Coordinates(r).0 + "," + Coordinates(r).1
  }

  /** The text `main` writes to the CSV file, row by row. */
  function CsvText(results: seq<Outcome>): (text: string)
    ensures |text| > |Header| && text[..|Header| + 1] == Header + "\n"
    ensures text[|text| - 1] == '\n'
    decreases |results|
  {
    if results == [] then Header + "\n"
    else CsvText(results[..|results| - 1]) + Row(results[|results| - 1]) + "\n"
  }

  /** The CSV loop of `main`: the header, then one row per result. */
  method WriteCsv(results: seq<Outcome>) returns (text: string)
    ensures text == CsvText(results)
  {
    text := Header + "\n";
    for i := 0 to |results|
      invariant text == CsvText(results[..i])
    {
      var r := results[i];
      var name := Replace(r.landmark.name, ',', ';');
      var lat, lon;
      if r.found.Some? {
        lat, lon := r.found.value.lat, r.found.value.lon;
      } else {
        lat, lon := r.landmark.lat, r.landmark.lon;
      }
      var row := name + "," + lat + "," + lon;
      assert row == Row(r);
      text := text + row + "\n";
      assert results[..i + 1][..i] == results[..i];
    }
    assert results[..|results|] == results;
  }

  /** The rows of the results, in order. */
  function Rows(results: seq<Outcome>): (rows: seq<string>)
    ensures |rows| == |results|
    ensures forall i :: 0 <= i < |results| ==> rows[i] == Row(results[i])
  {
    seq(|results|, i requires 0 <= i < |results| => Row(results[i]))
  }

  /** The lines of a longer list of results end with the row of its last result. */
  lemma RowsSnoc(results: seq<Outcome>)
    requires results != []
    ensures [Header] + Rows(results) == ([Header] + Rows(results[..|results| - 1])) + [Row(results[|results| - 1])]
  {
    var init := results[..|results| - 1];
    assert Rows(results) == Rows(init) + [Row(results[|results| - 1])];
  }

  /** The CSV text is its lines joined by line breaks, with a final line break. */
  lemma {:induction false} CsvJoin(results: seq<Outcome>)
    ensures CsvText(results) == Join([Header] + Rows(results), '\n') + "\n"
    decreases |results|
  {
    if results == [] {
      assert [Header] + Rows(results) == [Header];
    } else {
      var init := results[..|results| - 1];
      var r := results[|results| - 1];
      CsvJoin(init);
      RowsSnoc(results);
      JoinSnoc([Header] + Rows(init), Row(r), '\n');
    }
  }

  /** A text with neither a comma nor a line break. */
  predicate Plain(s: string)
  {
    ',' !in s && '\n' !in s
  }

  /** The lines of the CSV: the header, then one row per result. */
  function Lines(results: seq<Outcome>): (lines: seq<string>)
    ensures |lines| == |results| + 1 && lines[0] == Header
    ensures forall i :: 0 <= i < |results| ==> lines[i + 1] == Row(results[i])
  {
    [Header] + Rows(results)
  }

  /** With no line break in any row, no line of the CSV holds one. */
  lemma LinesPlain(results: seq<Outcome>)
    requires forall i :: 0 <= i < |results| ==> '\n' !in Row(results[i])
    ensures forall i :: 0 <= i < |Lines(results)| ==> '\n' !in Lines(results)[i]
  {
    var lines := Lines(results);
    assert forall k :: 0 <= k < |Header| ==> Header[k] != '\n';
    forall i | 0 <= i < |lines| ensures '\n' !in lines[i] {
      if i > 0 {
        assert lines[(i - 1) + 1] == Row(results[i - 1]);
      }
    }
  }

  /**
   * Reading the CSV back: split on line breaks, it is the header, one row
   * per result in order, and the empty text after the last line break.
   */
  lemma CsvLines(results: seq<Outcome>)
    requires forall i :: 0 <= i < |results| ==> '\n' !in Row(results[i])
    ensures Split(CsvText(results), '\n') == [Header] + Rows(results) + [""]
  {
    CsvJoin(results);
    LinesPlain(results);
    SplitJoinEnd(Lines(results), '\n');
  }

  /**
   * Reading a row back: with plain coordinates and no line break in the
   * name, a row holds no line break and splits on commas into exactly the
   * name with its commas replaced, the latitude and the longitude.
   */
  lemma RowFields(r: Outcome)
    requires Plain(Coordinates(r).0) && Plain(Coordinates(r).1) && '\n' !in r.landmark.name
    ensures '\n' !in Row(r)
    ensures Split(Row(r), ',') == [CsvName(r.landmark.name), Coordinates(r).0, Coordinates(r).1]
  {
    var name := CsvName(r.landmark.name);
    var lat, lon := Coordinates(r).0, Coordinates(r).1;
    var fields := [name, lat, lon];
    assert fields[1..][1..] == [lon];
    assert Join(fields[1..], ',') == lat + [','] + lon;
    assert Join(fields, ',') == name + [','] + (lat + [','] + lon);
    assert Row(r) == name + [','] + (lat + [','] + lon);
    forall i | 0 <= i < |name| ensures name[i] != '\n' {
      assert r.landmark.name[i] == name[i] || r.landmark.name[i] == ',';
    }
    SplitJoin(fields, ',');
  }

  /** A decimal number read from the input has no comma and no line break. */
  lemma DecimalPlain(t: string)
    requires IsDecimal(t)
    ensures Plain(t)
  {
    DecimalAlphabet(t);
    assert forall i :: 0 <= i < |t| ==> t[i] != ',' && t[i] != '\n';
  }

  /** Every hit of the service carries plain coordinates. */
  ghost predicate PlainHits(service: Service)
  {
    forall a: nat, q: Query :: service(a, q).Hit? ==> Plain(service(a, q).first.lat) && Plain(service(a, q).first.lon)
  }

  /** A place found by a lookup is one of the service's hits, so its coordinates are plain when the service's are. */
  lemma ResolvePlain(name: string, location: string, retries: int, service: Service)
    requires PlainHits(service)
    ensures var r := Resolve(name, location, retries, service);
      r.result.Some? ==> Plain(r.result.value.lat) && Plain(r.result.value.lon)
  {
    GeocodeOutcome(name, location, retries, service);
    if retries > 0 {
      var e := Final(service, retries, 0);
      assert Decisive(service, e) == service(e, Full) || Decisive(service, e) == service(e, Short);
    }
  }

  /**
   * `main` without its console output: read the landmarks, geocode each,
   * count the successes and failures, and build the CSV text.
   */
  method Report(content: string, services: nat -> Service) returns (results: seq<Outcome>, successful: nat, failed: nat, csv: string)
    ensures var landmarks := ExtractAll(Split(content, '\n'));
      |results| == |landmarks| &&
      (forall i :: 0 <= i < |results| ==> results[i].landmark == landmarks[i]) &&
      (forall i :: 0 <= i < |results| ==>
        results[i].found == Resolve(landmarks[i].name, landmarks[i].location, Retries, services(i)).result)
    ensures successful == Successful(results) && failed == Failures(results) && successful + failed == |results|
    ensures csv == CsvText(results)
  {
    var landmarks := ExtractLandmarks(content);
    results := GeocodeAll(landmarks, services);
    successful := Successful(results);
    failed := |results| - successful;
    FailedCounts(results);
    csv := WriteCsv(results);
  }

  /**
   * When the service's hits carry plain coordinates, the CSV of a report
   * is the header and one row per landmark, and each row is the name with
   * its commas replaced and the coordinates `main` chose for it.
   */
  lemma ReportCsv(content: string, services: nat -> Service, results: seq<Outcome>)
    requires forall i: nat :: PlainHits(services(i))
    requires var landmarks := ExtractAll(Split(content, '\n'));
      |results| == |landmarks| &&
      (forall i :: 0 <= i < |results| ==> results[i].landmark == landmarks[i]) &&
      (forall i :: 0 <= i < |results| ==>
        results[i].found == Resolve(landmarks[i].name, landmarks[i].location, Retries, services(i)).result)
    ensures Split(CsvText(results), '\n') == [Header] + Rows(results) + [""]
    ensures forall i :: 0 <= i < |results| ==>
      Split(Rows(results)[i], ',') == [CsvName(results[i].landmark.name), Coordinates(results[i]).0, Coordinates(results[i]).1]
  {
    var lines := Split(content, '\n');
    var landmarks := ExtractAll(lines);
    ExtractAllNoNewline(lines);
    ExtractAllOrder(lines);
    forall i | 0 <= i < |results|
      ensures '\n' !in Row(results[i])
      ensures Split(Row(results[i]), ',') == [CsvName(results[i].landmark.name), Coordinates(results[i]).0, Coordinates(results[i]).1]
    {
      var l := landmarks[i];
      var parsed := ParseLine(lines[MatchedLines(lines)[i]]);
      assert parsed.Some? && l == parsed.value;
      DecimalPlain(l.lat);
      DecimalPlain(l.lon);
      ResolvePlain(l.name, l.location, Retries, services(i));
      RowFields(results[i]);
    }
    CsvLines(results);
  }
}
