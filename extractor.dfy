/**
 * `extract_landmarks_from_file`: the input is split into lines at `\n`,
 * each line is stripped and matched against the line pattern, and every
 * matching line gives one landmark, in input order, with its name and
 * location groups stripped once more.  The coordinates stay as the
 * decimal text the line holds.
 */
module Extractor {
  import opened Wrappers
  import opened Text
  import opened Pattern

  /** A landmark of the input: name, location and the coordinates written beside them. */
  datatype Landmark = Landmark(name: string, location: string, lat: string, lon: string)

  /** The landmark the groups of a match give: the name and location stripped once more. */
  function FromGroups(g: Groups): (l: Landmark)
    ensures Trimmed(l.name) && Trimmed(l.location)
    ensures l.lat == g.lat && l.lon == g.lon
  {
    Landmark(Strip(g.name), Strip(g.location), g.lat, g.lon)
  }

  /** One line: stripped, matched, and its name and location stripped; `None` when the line does not match. */
  function ParseLine(line: string): (r: Option<Landmark>)
    ensures r.Some? <==> exists n, m, k :: Shape(Strip(line), n, m, k)
    ensures r.Some? ==> Trimmed(r.value.name) && Trimmed(r.value.location)
    ensures r.Some? ==> IsDecimal(r.value.lat) && IsDecimal(r.value.lon)
    ensures r.Some? ==> r.value.name != [] && r.value.name[0] == Strip(line)[0]
    ensures r.Some? && '\n' !in line ==> '\n' !in r.value.name && '\n' !in r.value.location
    ensures r.Some? ==> exists n, m, k ::
      Shape(Strip(line), n, m, k) && Leftmost(Strip(line), n, m) && r.value == FromGroups(GroupsAt(Strip(line), n, m, k))
  {
    var L := Strip(line);
    MatchLineShape(L);
    match MatchLine(L)
    case None => None
    case Some(found) =>
      var g := found.groups;
      NameKeepsFirst(L, found.n, found.m, g);
      LineAvoids(line, L, found.n, found.m, g);
      var k := CutsOf(L, found.n, found.m);
      assert Shape(L, found.n, found.m, k) && g == GroupsAt(L, found.n, found.m, k);
      assert Leftmost(L, found.n, found.m);
      Some(FromGroups(g))
  }

  /** Dropping a trailing whitespace character of the name leaves a shape. */
  lemma ShorterName(L: string, n: nat, m: nat, k: Cuts)
    requires Shape(L, n, m, k) && n >= 2 && IsSpace(L[n - 1])
    ensures Shape(L, n - 1, m, k)
  {
    AvoidsNotIn(L, 0, n, '\n');
    assert L[0..n - 1] == L[0..n][..n - 1];
    AvoidsNotIn(L, 0, n - 1, '\n');
  }

  /**
   * On a stripped line, the name group of the match `re.match` picks ends
   * in a character that is not whitespace: otherwise a shorter name would
   * match as well.  So stripping that group changes nothing.
   */
  lemma NameGroupTrimmed(L: string, n: nat, m: nat, k: Cuts)
    requires Trimmed(L) && Shape(L, n, m, k) && Leftmost(L, n, m)
    ensures Trimmed(GroupsAt(L, n, m, k).name)
    ensures Strip(GroupsAt(L, n, m, k).name) == GroupsAt(L, n, m, k).name
  {
    var name := GroupsAt(L, n, m, k).name;
    assert name[0] == L[0] && name[n - 1] == L[n - 1];
    if IsSpace(L[n - 1]) {
      ShorterName(L, n, m, k);
      assert false;
    }
    StripTrimmed(name);
  }

  /**
   * `re.match` is anchored at the start only: whatever text follows a
   * trimmed line that holds a landmark and no line feed, the longer line
   * gives the same landmark, since stripping keeps the line whole and no
   * shorter name or location can reach into the added text.
   */
  lemma ParseLineSuffix(L: string, t: string)
    requires Trimmed(L) && '\n' !in L && ParseLine(L).Some?
    ensures ParseLine(L + t) == ParseLine(L)
  {
    StripTrimmed(L);
    var n, m, k :| Shape(L, n, m, k) && Leftmost(L, n, m) && ParseLine(L).value == FromGroups(GroupsAt(L, n, m, k));
    var u := StripSuffix(L, t);
    var x := L + u;
    LeftmostSuffix(L, u, n, m, k);
    ShapeExtend(L, u, n, m, k);
    assert ParseLine(L + t).Some?;
    var n2, m2, k2 :| Shape(x, n2, m2, k2) && Leftmost(x, n2, m2) && ParseLine(L + t).value == FromGroups(GroupsAt(x, n2, m2, k2));
    assert n2 == n && m2 == m;
    CutsForced(x, n, m, k);
    CutsForced(x, n, m, k2);
  }

  /** The name group of a stripped line starts with the line's first character, which is not whitespace. */
  lemma NameKeepsFirst(L: string, n: nat, m: nat, g: Groups)
    requires Trimmed(L) && PatternAt(L, n, m) == Some(g)
    ensures Strip(g.name) != [] && Strip(g.name)[0] == L[0]
  {
    assert g.name[0] == L[0];
    StripKeepsFirst(g.name);
  }

  /** The groups are cut out of the line, so they hold no character the line does not. */
  lemma LineAvoids(line: string, L: string, n: nat, m: nat, g: Groups)
    requires L == Strip(line) && PatternAt(L, n, m) == Some(g)
    ensures '\n' !in line ==> '\n' !in Strip(g.name) && '\n' !in Strip(g.location)
  {
    if '\n' !in line {
      StripAvoids(line, '\n');
      GroupSlices(L, n, m, g);
      var locOpen := CutsOf(L, n, m).locOpen;
      SliceAvoids(L, 0, n, '\n');
      SliceAvoids(L, locOpen + 1, locOpen + 1 + m, '\n');
      StripAvoids(g.name, '\n');
      StripAvoids(g.location, '\n');
    }
  }

  /** Every line, parsed on its own. */
  function ParseAll(lines: seq<string>): (r: seq<Option<Landmark>>)
    ensures |r| == |lines|
    ensures forall i :: 0 <= i < |lines| ==> r[i] == ParseLine(lines[i])
  {
    seq(|lines|, i requires 0 <= i < |lines| => ParseLine(lines[i]))
  }

  /** The values of the present entries, in order. */
  function Keep<T>(parsed: seq<Option<T>>): (r: seq<T>)
    ensures |r| <= |parsed|
  {
    if parsed == [] then []
    else
      var last := parsed[|parsed| - 1];
      Keep(parsed[..|parsed| - 1]) + (match last case Some(v) => [v] case None => [])
  }

  /** The positions of the present entries, in increasing order. */
  function Present<T>(parsed: seq<Option<T>>): (idx: seq<nat>)
    ensures forall j :: 0 <= j < |idx| ==> idx[j] < |parsed| && parsed[idx[j]].Some?
    ensures forall j, j' :: 0 <= j < j' < |idx| ==> idx[j] < idx[j']
    ensures forall i :: 0 <= i < |parsed| && parsed[i].Some? ==> i in idx
  {
    if parsed == [] then []
    else
      var i := |parsed| - 1;
      Present(parsed[..i]) + (if parsed[i].Some? then [i] else [])
  }

  /** `Keep` collects the present entries exactly, in order. */
  lemma {:induction false} KeepPresent<T>(parsed: seq<Option<T>>)
    ensures |Keep(parsed)| == |Present(parsed)|
    ensures forall j :: 0 <= j < |Keep(parsed)| ==> Keep(parsed)[j] == parsed[Present(parsed)[j]].value
  {
    if parsed != [] {
      var i := |parsed| - 1;
      var init := parsed[..i];
      KeepPresent(init);
      var k, p := Keep(init), Present(init);
      forall j | 0 <= j < |k| ensures parsed[p[j]] == init[p[j]] {
      }
      if parsed[i].Some? {
        assert Keep(parsed) == k + [parsed[i].value] && Present(parsed) == p + [i];
      } else {
        assert Keep(parsed) == k && Present(parsed) == p;
      }
    }
  }

  /** Keeping one more entry. */
  lemma KeepSnoc<T>(parsed: seq<Option<T>>, i: nat)
    requires i < |parsed|
    ensures Keep(parsed[..i + 1]) == Keep(parsed[..i]) + (if parsed[i].Some? then [parsed[i].value] else [])
  {
    assert parsed[..i + 1][..i] == parsed[..i];
  }

  /** `Keep` works piece by piece. */
  lemma {:induction false} KeepAppend<T>(a: seq<Option<T>>, b: seq<Option<T>>)
    ensures Keep(a + b) == Keep(a) + Keep(b)
    decreases |b|
  {
    if b != [] {
      var i := |b| - 1;
      assert (a + b)[..|a + b| - 1] == a + b[..i];
      KeepAppend(a, b[..i]);
    } else {
      assert a + b == a;
    }
  }

  /** The landmarks of a sequence of lines: one per matching line. */
  function ExtractAll(lines: seq<string>): (r: seq<Landmark>)
    ensures |r| <= |lines|
  {
    Keep(ParseAll(lines))
  }

  /** The positions of the matching lines. */
  function MatchedLines(lines: seq<string>): (idx: seq<nat>)
    ensures forall j :: 0 <= j < |idx| ==> idx[j] < |lines| && ParseLine(lines[idx[j]]).Some?
    ensures forall j, j' :: 0 <= j < j' < |idx| ==> idx[j] < idx[j']
    ensures forall i :: 0 <= i < |lines| && ParseLine(lines[i]).Some? ==> i in idx
  {
    Present(ParseAll(lines))
  }

  /**
   * The landmarks are exactly the parses of the matching lines, in the
   * order of the lines: nothing is dropped, duplicated or reordered.
   */
  lemma ExtractAllOrder(lines: seq<string>)
    ensures |ExtractAll(lines)| == |MatchedLines(lines)|
    ensures forall j :: 0 <= j < |ExtractAll(lines)| ==>
      ExtractAll(lines)[j] == ParseLine(lines[MatchedLines(lines)[j]]).value
  {
    KeepPresent(ParseAll(lines));
  }

  /** Lines are parsed independently: extracting from two runs of lines is extracting from each. */
  lemma ExtractAllAppend(a: seq<string>, b: seq<string>)
    ensures ExtractAll(a + b) == ExtractAll(a) + ExtractAll(b)
  {
    var p, pa, pb := ParseAll(a + b), ParseAll(a), ParseAll(b);
    forall i | 0 <= i < |p| ensures p[i] == (pa + pb)[i] {
      if i < |a| {
        assert (a + b)[i] == a[i];
      } else {
        assert (a + b)[i] == b[i - |a|];
      }
    }
    assert p == pa + pb;
    KeepAppend(ParseAll(a), ParseAll(b));
  }

  /** `extract_landmarks_from_file` on the text of the file: one landmark per matching line. */
  method ExtractLandmarks(content: string) returns (landmarks: seq<Landmark>)
    ensures landmarks == ExtractAll(Split(content, '\n'))
  {
    var lines := Split(content, '\n');
    ghost var parsed := ParseAll(lines);
    landmarks := [];
    for i := 0 to |lines|
      invariant landmarks == Keep(parsed[..i])
    {
      var line := lines[i];
      var found := ParseLine(line);
      assert parsed[i] == ParseLine(lines[i]);
      KeepSnoc(parsed, i);
      if found.Some? {
        landmarks := landmarks + [found.value];
      }
    }
    assert parsed[..|lines|] == parsed;
  }

  /** Every landmark read from the lines of a file holds no line break in its name or location. */
  lemma ExtractAllNoNewline(lines: seq<string>)
    requires forall i :: 0 <= i < |lines| ==> '\n' !in lines[i]
    ensures forall j :: 0 <= j < |ExtractAll(lines)| ==>
      '\n' !in ExtractAll(lines)[j].name && '\n' !in ExtractAll(lines)[j].location
  {
    ExtractAllOrder(lines);
  }
}
