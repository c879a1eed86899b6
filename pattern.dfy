/**
 * The line pattern of the landmark extractor,
 *
 *     ^(.+?)\s+\((.+?)\)\s+[–-]\s+\(([+-]?\d+\.?\d*),\s*([+-]?\d+\.?\d*)\)
 *
 * under Python's backtracking `re.match`.  Only the two lazy groups give the
 * matcher a choice: every whitespace run stops at the literal that follows it,
 * and each number stops at the first `,` or `)`, since neither can occur in a
 * number.  So a match is fixed by the length `n` of the name and the length `m`
 * of the location (`PatternAt`), and `re.match` picks the shortest name for
 * which some location works, then the shortest location for that name
 * (`MatchLine`).
 */
module Pattern {
  import opened Wrappers
  import opened Text

  /** `\d`, restricted to the ASCII digits. */
  predicate IsDigit(c: char)
  {
    '0' <= c <= '9'
  }

  /** `[–-]`: an en dash (U+2013) or a hyphen-minus. */
  predicate IsDash(c: char)
  {
    c == '\U{2013}' || c == '-'
  }

  /** What `.` may match from `i` up to `j`: anything but a line feed. */
  predicate NoNewline(L: string, i: nat, j: nat)
  {
    Avoids(L, i, j, '\n')
  }

  predicate IsSign(c: char)
  {
    c == '+' || c == '-'
  }

  /** `\d*`: a run of digits, possibly empty. */
  predicate Digits(s: string)
  {
    s == [] || (IsDigit(s[0]) && Digits(s[1..]))
  }

  /** `\d*\.?\d*` after the first digit: more digits, or a point and then digits. */
  predicate IntegerTail(s: string)
  {
    s == [] || (IsDigit(s[0]) && IntegerTail(s[1..])) || (s[0] == '.' && Digits(s[1..]))
  }

  /** `\d+\.?\d*`: one or more digits, then optionally a point and more digits. */
  predicate IsUnsigned(u: string)
  {
    |u| >= 1 && IsDigit(u[0]) && IntegerTail(u[1..])
  }

  /** `[+-]?\d+\.?\d*`: an optional sign, then an unsigned number. */
  predicate IsDecimal(t: string)
  {
    IsUnsigned(t) || (|t| > 0 && IsSign(t[0]) && IsUnsigned(t[1..]))
  }

  lemma {:induction false} DigitsAlphabet(s: string)
    requires Digits(s)
    ensures forall i :: 0 <= i < |s| ==> IsDigit(s[i])
  {
    if s != [] {
      DigitsAlphabet(s[1..]);
      assert forall i :: 1 <= i < |s| ==> s[i] == s[1..][i - 1];
    }
  }

  lemma {:induction false} IntegerTailAlphabet(s: string)
    requires IntegerTail(s)
    ensures forall i :: 0 <= i < |s| ==> IsDigit(s[i]) || s[i] == '.'
  {
    if s != [] {
      if IsDigit(s[0]) && IntegerTail(s[1..]) {
        IntegerTailAlphabet(s[1..]);
      } else {
        DigitsAlphabet(s[1..]);
      }
      assert forall i :: 1 <= i < |s| ==> s[i] == s[1..][i - 1];
    }
  }

  /** A number is made of signs, digits and points only, and cannot be empty. */
  lemma DecimalAlphabet(t: string)
    requires IsDecimal(t)
    ensures |t| >= 1 && (IsSign(t[0]) || IsDigit(t[0]))
    ensures forall i :: 0 <= i < |t| ==> IsSign(t[i]) || IsDigit(t[i]) || t[i] == '.'
  {
    var u := if IsUnsigned(t) then t else t[1..];
    var o := |t| - |u|;
    IntegerTailAlphabet(u[1..]);
    forall i | o + 1 <= i < |t| ensures IsDigit(t[i]) || t[i] == '.' {
      assert t[i] == u[1..][i - o - 1];
    }
  }

  /** The literal characters of the pattern, and the characters of numbers, are not whitespace. */
  lemma NotSpace(c: char)
    requires c in "(),-\U{2013}" || IsSign(c) || IsDigit(c)
    ensures !IsSpace(c)
  {
  }

  /** A number never contains the `,` or `)` that ends it, and does not start with whitespace. */
  lemma DecimalDelimiters(L: string, i: nat, j: nat)
    requires i <= j <= |L| && IsDecimal(L[i..j])
    ensures i < j && Avoids(L, i, j, ',') && Avoids(L, i, j, ')') && !IsSpace(L[i])
  {
    DecimalAlphabet(L[i..j]);
    AvoidsNotIn(L, i, j, ',');
    AvoidsNotIn(L, i, j, ')');
    assert L[i] == L[i..j][0];
    NotSpace(L[i]);
  }

  /** The four capture groups, before the extractor strips them. */
  datatype Groups = Groups(name: string, location: string, lat: string, lon: string)

  /**
   * Where the pieces of a match begin: the `(` before the location
   * (`locOpen`), the dash (`dash`), the `(` of the coordinates
   * (`pairOpen`), the `,` between them (`comma`), the longitude
   * (`lonStart`) and the final `)` (`pairClose`).  The `)` after the
   * location is at `locOpen + 1 + m`, fixed by the location's length.
   */
  datatype Cuts = Cuts(locOpen: nat, dash: nat, pairOpen: nat, comma: nat, lonStart: nat, pairClose: nat)

  /** The ordering of the pieces of a shape, which is all of it that does not look at the text. */
  predicate InOrder(n: nat, m: nat, k: Cuts)
  {
    1 <= n < k.locOpen && 1 <= m && k.locOpen + 1 + m + 1 < k.dash && k.dash + 1 < k.pairOpen < k.comma < k.lonStart <= k.pairClose
  }

  /**
   * The pattern, read as a language: `L` starts with a name of `n`
   * characters, whitespace, `(`, a location of `m` characters, `)`,
   * whitespace, a dash, whitespace, `(`, a number, `,`, optional whitespace,
   * a number and `)`, cut at the positions `k`.
   */
  predicate Shape(L: string, n: nat, m: nat, k: Cuts)
  {
    var locClose := k.locOpen + 1 + m;
    InOrder(n, m, k) && k.pairClose < |L| &&
    NoNewline(L, 0, n) && Spaces(L, n, k.locOpen) && L[k.locOpen] == '(' && NoNewline(L, k.locOpen + 1, locClose) && L[locClose] == ')' &&
    Spaces(L, locClose + 1, k.dash) && IsDash(L[k.dash]) && Spaces(L, k.dash + 1, k.pairOpen) &&
    L[k.pairOpen] == '(' && IsDecimal(L[k.pairOpen + 1..k.comma]) && L[k.comma] == ',' && Spaces(L, k.comma + 1, k.lonStart) &&
    IsDecimal(L[k.lonStart..k.pairClose]) && L[k.pairClose] == ')'
  }

  /** The groups a shape cuts out of `L`. */
  function GroupsAt(L: string, n: nat, m: nat, k: Cuts): (r: Groups)
    requires Shape(L, n, m, k)
    ensures |r.name| == n && |r.location| == m && IsDecimal(r.lat) && IsDecimal(r.lon)
  {
    Groups(L[..n], L[k.locOpen + 1..k.locOpen + 1 + m], L[k.pairOpen + 1..k.comma], L[k.lonStart..k.pairClose])
  }

  function Clamp(L: string, i: nat): (j: nat)
    ensures j <= |L|
  {
    if i <= |L| then i else |L|
  }

  /**
   * Where the matcher puts the cuts once the name has `n` characters and the
   * location `m`: each whitespace run extends as far as it goes, and each
   * number ends at the first `,` or `)` after it.
   */
  function CutsOf(L: string, n: nat, m: nat): Cuts
  {
    var locOpen := SpaceRun(L, Clamp(L, n));
    var dash := SpaceRun(L, Clamp(L, locOpen + 2 + m));
    var pairOpen := SpaceRun(L, Clamp(L, dash + 1));
    PairCuts(L, locOpen, dash, pairOpen)
  }

  /** The cuts of the coordinate pair that opens at `pairOpen`. */
  function PairCuts(L: string, locOpen: nat, dash: nat, pairOpen: nat): Cuts
  {
    var comma := Find(L, Clamp(L, pairOpen + 1), ',');
    var lonStart := SpaceRun(L, Clamp(L, comma + 1));
    var pairClose := Find(L, lonStart, ')');
    Cuts(locOpen, dash, pairOpen, comma, lonStart, pairClose)
  }

  /**
   * The match whose name is `L[..n]` and whose location is `m` characters
   * long, if the rest of the pattern then matches.
   */
  function PatternAt(L: string, n: nat, m: nat): (r: Option<Groups>)
    ensures r.Some? ==> |r.value.name| == n && |r.value.location| == m && n + m < |L|
    ensures r.Some? ==> r.value.name == L[..n] && IsDecimal(r.value.lat) && IsDecimal(r.value.lon)
  {
    var k := CutsOf(L, n, m);
    if Shape(L, n, m, k) then Some(GroupsAt(L, n, m, k)) else None
  }

  /** The name and location groups of a match are slices of the line. */
  lemma GroupSlices(L: string, n: nat, m: nat, g: Groups)
    requires PatternAt(L, n, m) == Some(g)
    ensures var locOpen := CutsOf(L, n, m).locOpen;
      n <= |L| && locOpen + 1 + m <= |L| && g.name == L[0..n] && g.location == L[locOpen + 1..locOpen + 1 + m]
  {
    assert g.name == L[..n];
  }

  /** The whitespace runs before the location and around the dash can only end where `CutsOf` ends them. */
  lemma HeadForced(L: string, n: nat, m: nat, k: Cuts)
    requires Shape(L, n, m, k)
    ensures SpaceRun(L, Clamp(L, n)) == k.locOpen
    ensures SpaceRun(L, Clamp(L, k.locOpen + 2 + m)) == k.dash
    ensures SpaceRun(L, Clamp(L, k.dash + 1)) == k.pairOpen
  {
    var locClose := k.locOpen + 1 + m;
    NotSpace(L[k.locOpen]);
    SpaceRunAt(L, n, k.locOpen);
    NotSpace(L[k.dash]);
    SpaceRunAt(L, locClose + 1, k.dash);
    NotSpace(L[k.pairOpen]);
    SpaceRunAt(L, k.dash + 1, k.pairOpen);
  }

  /** A number holds neither `,` nor `)` and starts with no space, so the coordinates can only be cut one way. */
  lemma PairForced(L: string, n: nat, m: nat, k: Cuts)
    requires Shape(L, n, m, k)
    ensures Find(L, Clamp(L, k.pairOpen + 1), ',') == k.comma
    ensures SpaceRun(L, Clamp(L, k.comma + 1)) == k.lonStart
    ensures Find(L, k.lonStart, ')') == k.pairClose
  {
    DecimalDelimiters(L, k.pairOpen + 1, k.comma);
    FindAt(L, k.pairOpen + 1, k.comma, ',');
    DecimalDelimiters(L, k.lonStart, k.pairClose);
    SpaceRunAt(L, k.comma + 1, k.lonStart);
    FindAt(L, k.lonStart, k.pairClose, ')');
  }

  /** `CutsOf`, one cut at a time. */
  lemma CutsOfAt(L: string, n: nat, m: nat, k: Cuts)
    requires SpaceRun(L, Clamp(L, n)) == k.locOpen
    requires SpaceRun(L, Clamp(L, k.locOpen + 2 + m)) == k.dash
    requires SpaceRun(L, Clamp(L, k.dash + 1)) == k.pairOpen
    requires PairCuts(L, k.locOpen, k.dash, k.pairOpen) == k
    ensures CutsOf(L, n, m) == k
  {
  }

  /** `PairCuts`, one cut at a time. */
  lemma PairCutsAt(L: string, k: Cuts)
    requires Find(L, Clamp(L, k.pairOpen + 1), ',') == k.comma
    requires SpaceRun(L, Clamp(L, k.comma + 1)) == k.lonStart
    requires k.lonStart <= |L| && Find(L, k.lonStart, ')') == k.pairClose
    ensures PairCuts(L, k.locOpen, k.dash, k.pairOpen) == k
  {
  }

  /** A shape's cuts are the ones `CutsOf` computes: once `n` and `m` are fixed, nothing is left to choose. */
  lemma CutsForced(L: string, n: nat, m: nat, k: Cuts)
    requires Shape(L, n, m, k)
    ensures CutsOf(L, n, m) == k
  {
    HeadForced(L, n, m, k);
    PairForced(L, n, m, k);
    PairCutsAt(L, k);
    CutsOfAt(L, n, m, k);
  }

  /** Every shape is found by `PatternAt`. */
  lemma PatternAtComplete(L: string, n: nat, m: nat, k: Cuts)
    requires Shape(L, n, m, k)
    ensures PatternAt(L, n, m) == Some(GroupsAt(L, n, m, k))
  {
    CutsForced(L, n, m, k);
  }

  /** No shape of `L` has a shorter name than `n`, nor the same name and a shorter location than `m`. */
  ghost predicate Leftmost(L: string, n: nat, m: nat)
  {
    forall n', m', k' :: Shape(L, n', m', k') ==> n < n' || (n == n' && m <= m')
  }

  /** Where `re.match` succeeds: the name and location lengths and the groups. */
  datatype Match = Match(n: nat, m: nat, groups: Groups)

  /** The least `j` with `m <= j < bound` at which `fits(i, j)` holds: how a lazy `.+?` tries its lengths. */
  function Least(fits: (nat, nat) -> bool, i: nat, m: nat, bound: nat): (r: Option<nat>)
    ensures r.Some? ==> m <= r.value < bound && fits(i, r.value)
    ensures r.Some? ==> forall j: nat :: m <= j < r.value ==> !fits(i, j)
    ensures r.None? ==> forall j: nat :: m <= j < bound ==> !fits(i, j)
    decreases bound - m
  {
    if m >= bound then None
    else if fits(i, m) then Some(m)
    else Least(fits, i, m + 1, bound)
  }

  /**
   * The least pair `(i, j)` with `n <= i < bound` and `j < bound` at which
   * `fits` holds, ordered by `i` first: two lazy groups in a row, the
   * second tried in full for each length of the first.
   */
  function LeastPair(fits: (nat, nat) -> bool, n: nat, bound: nat): (r: Option<(nat, nat)>)
    ensures r.Some? ==> n <= r.value.0 < bound && r.value.1 < bound && fits(r.value.0, r.value.1)
    ensures r.Some? ==> forall i: nat, j: nat :: n <= i < r.value.0 && j < bound ==> !fits(i, j)
    ensures r.Some? ==> forall j: nat :: j < r.value.1 ==> !fits(r.value.0, j)
    ensures r.None? ==> forall i: nat, j: nat :: n <= i < bound && j < bound ==> !fits(i, j)
    decreases bound - n
  {
    if n >= bound then None
    else
      match Least(fits, n, 0, bound)
      case Some(m) => Some((n, m))
      case None => LeastPair(fits, n + 1, bound)
  }

  /** Whether the name `L[..n]` and a location of length `m` complete a match. */
  function Fits(L: string): (nat, nat) -> bool
  {
    (n: nat, m: nat) => PatternAt(L, n, m).Some?
  }

  /**
   * Python's `re.match(pattern, L)`: the match with the shortest name, and
   * for that name the shortest location; `None` when no split of `L` fits.
   */
  function MatchLine(L: string): (r: Option<Match>)
    ensures r.Some? ==> PatternAt(L, r.value.n, r.value.m) == Some(r.value.groups)
  {
    match LeastPair(Fits(L), 0, |L|)
    case None => None
    case Some((n, m)) =>
      assert Fits(L)(n, m);
      Some(Match(n, m, PatternAt(L, n, m).value))
  }

  /**
   * The pattern matches `L` exactly when `L` has the pattern's shape for
   * some name and location length; the match's groups are those of a shape,
   * and no shape has a shorter name, nor the same name and a shorter location.
   */
  lemma MatchLineShape(L: string)
    ensures MatchLine(L).None? <==> forall n, m, k :: !Shape(L, n, m, k)
    ensures MatchLine(L).Some? ==> exists k :: (Shape(L, MatchLine(L).value.n, MatchLine(L).value.m, k) &&
      MatchLine(L).value.groups == GroupsAt(L, MatchLine(L).value.n, MatchLine(L).value.m, k))
    ensures MatchLine(L).Some? ==> forall n, m, k :: Shape(L, n, m, k) ==>
      MatchLine(L).value.n < n || (MatchLine(L).value.n == n && MatchLine(L).value.m <= m)
  {
    var r := MatchLine(L);
    var p := LeastPair(Fits(L), 0, |L|);
    assert r.Some? <==> p.Some?;
    forall n: nat, m: nat, k: Cuts | Shape(L, n, m, k) ensures Fits(L)(n, m) && n < |L| && m < |L| {
      PatternAtComplete(L, n, m, k);
    }
    if r.Some? {
      assert (r.value.n, r.value.m) == p.value;
      assert Shape(L, r.value.n, r.value.m, CutsOf(L, r.value.n, r.value.m));
    }
  }

  /** Text appended after position `j` leaves the slice ending at `j` as it is. */
  lemma SlicePrefix(L: string, u: string, i: nat, j: nat)
    requires i <= j <= |L|
    ensures (L + u)[i..j] == L[i..j]
  {
  }

  /** The spans of whitespace and of no line feed that a shape lays out, in `L + u` as in `L`. */
  lemma SpansPrefix(L: string, u: string, n: nat, m: nat, k: Cuts)
    requires InOrder(n, m, k) && k.pairClose < |L|
    ensures NoNewline(L + u, 0, n) == NoNewline(L, 0, n)
    ensures Spaces(L + u, n, k.locOpen) == Spaces(L, n, k.locOpen)
    ensures NoNewline(L + u, k.locOpen + 1, k.locOpen + 1 + m) == NoNewline(L, k.locOpen + 1, k.locOpen + 1 + m)
    ensures Spaces(L + u, k.locOpen + 1 + m + 1, k.dash) == Spaces(L, k.locOpen + 1 + m + 1, k.dash)
    ensures Spaces(L + u, k.dash + 1, k.pairOpen) == Spaces(L, k.dash + 1, k.pairOpen)
    ensures Spaces(L + u, k.comma + 1, k.lonStart) == Spaces(L, k.comma + 1, k.lonStart)
  {
    AvoidsPrefix(L, u, 0, n, '\n');
    SpacesPrefix(L, u, n, k.locOpen);
    AvoidsPrefix(L, u, k.locOpen + 1, k.locOpen + 1 + m, '\n');
    SpacesPrefix(L, u, k.locOpen + 1 + m + 1, k.dash);
    SpacesPrefix(L, u, k.dash + 1, k.pairOpen);
    SpacesPrefix(L, u, k.comma + 1, k.lonStart);
  }

  /** A shape of `L` is a shape of `L` followed by any text, with the same groups. */
  lemma ShapeExtend(L: string, u: string, n: nat, m: nat, k: Cuts)
    requires Shape(L, n, m, k)
    ensures Shape(L + u, n, m, k) && GroupsAt(L + u, n, m, k) == GroupsAt(L, n, m, k)
  {
    SpansPrefix(L, u, n, m, k);
    SlicePrefix(L, u, 0, n);
    SlicePrefix(L, u, k.locOpen + 1, k.locOpen + 1 + m);
    SlicePrefix(L, u, k.pairOpen + 1, k.comma);
    SlicePrefix(L, u, k.lonStart, k.pairClose);
  }

  /** A shape of `L` followed by some text that ends inside `L` is a shape of `L`. */
  lemma ShapeRestrict(L: string, u: string, n: nat, m: nat, k: Cuts)
    requires Shape(L + u, n, m, k) && k.pairClose < |L|
    ensures Shape(L, n, m, k)
  {
    SpansPrefix(L, u, n, m, k);
    SlicePrefix(L, u, k.pairOpen + 1, k.comma);
    SlicePrefix(L, u, k.lonStart, k.pairClose);
  }

  /** No span of a text without line feeds holds one. */
  lemma NoNewlineIn(L: string, i: nat, j: nat)
    requires '\n' !in L && i <= j <= |L|
    ensures NoNewline(L, i, j)
  {
    AvoidsNotIn(L, i, j, '\n');
    SliceAvoids(L, i, j, '\n');
  }

  /**
   * A name shorter than that of a shape of `L`, followed by whitespace and
   * a `(` in `L + u`, opens a location no later; that name and `(`, followed
   * by the rest of the shape of `L` from the location on, form a shape of
   * `L` with the shorter name.
   */
  lemma SmallerNameShape(L: string, u: string, n: nat, m: nat, k: Cuts, n': nat, locOpen': nat)
    requires '\n' !in L && Shape(L, n, m, k)
    requires 1 <= n' < n && n' < locOpen' < |L + u| && Spaces(L + u, n', locOpen') && (L + u)[locOpen'] == '('
    ensures locOpen' <= k.locOpen
    ensures Shape(L, n', k.locOpen + m - locOpen', Cuts(locOpen', k.dash, k.pairOpen, k.comma, k.lonStart, k.pairClose))
  {
    NotSpace('(');
    SpacesBefore(L + u, n', locOpen', k.locOpen);
    SpacesPrefix(L, u, n', locOpen');
    NoNewlineIn(L, 0, n');
    NoNewlineIn(L, locOpen' + 1, k.locOpen + 1 + m);
  }

  /**
   * The coordinates of a shape whose `(` comes before the `,` at `comma` and
   * the `)` at `pairClose` stop at or before them: a number holds neither,
   * and a whitespace run stops at `)`.
   */
  lemma PairEnds(x: string, k': Cuts, comma: nat, pairClose: nat)
    requires k'.pairOpen < comma < pairClose < |x| && x[comma] == ',' && x[pairClose] == ')'
    requires k'.pairOpen < k'.comma < k'.lonStart <= k'.pairClose
    requires Avoids(x, k'.pairOpen + 1, k'.comma, ',') && Spaces(x, k'.comma + 1, k'.lonStart) && Avoids(x, k'.lonStart, k'.pairClose, ')')
    ensures k'.comma <= comma && k'.pairClose <= pairClose
  {
    NotSpace(')');
    AvoidsBefore(x, k'.pairOpen + 1, k'.comma, ',', comma);
    SpacesBefore(x, k'.comma + 1, k'.lonStart, pairClose);
    AvoidsBefore(x, k'.lonStart, k'.pairClose, ')', pairClose);
  }

  /**
   * A shape of `L + u` whose name is followed by the whitespace and `(` at
   * `locOpen` in `L`, and whose location closes before the `)` at
   * `locClose`, stops at or before each later delimiter of `L`: its dash
   * and `(` come before `locClose`, its comma at or before the `,` at
   * `comma`, and its final `)` at or before the `)` at `pairClose`.
   */
  lemma ShorterLocationEnds(L: string, u: string, n: nat, locOpen: nat, locClose: nat, comma: nat, pairClose: nat, m': nat, k': Cuts)
    requires Shape(L + u, n, m', k')
    requires n < locOpen && locOpen + 1 + m' < locClose < comma < pairClose < |L|
    requires Spaces(L, n, locOpen) && L[locOpen] == '('
    requires L[locClose] == ')' && L[comma] == ',' && L[pairClose] == ')'
    ensures k'.locOpen == locOpen && k'.pairClose <= pairClose
  {
    var x := L + u;
    NotSpace('(');
    NotSpace(')');
    SpacesBefore(x, n, k'.locOpen, locOpen);
    SpacesBefore(L, n, locOpen, k'.locOpen);
    SpacesBefore(x, k'.locOpen + 1 + m' + 1, k'.dash, locClose);
    SpacesBefore(x, k'.dash + 1, k'.pairOpen, locClose);
    DecimalDelimiters(x, k'.pairOpen + 1, k'.comma);
    DecimalDelimiters(x, k'.lonStart, k'.pairClose);
    PairEnds(x, k', comma, pairClose);
  }

  /** A shape of `L + u` with the name of a shape of `L` and a shorter location is a shape of `L`. */
  lemma ShorterLocationShape(L: string, u: string, n: nat, m: nat, k: Cuts, m': nat, k': Cuts)
    requires Shape(L, n, m, k) && Shape(L + u, n, m', k') && m' < m
    ensures k'.pairClose <= k.pairClose && Shape(L, n, m', k')
  {
    ShorterLocationEnds(L, u, n, k.locOpen, k.locOpen + 1 + m, k.comma, k.pairClose, m', k');
    ShapeRestrict(L, u, n, m', k');
  }

  /**
   * `re.match` is anchored only at the start: text after a line with no line
   * feed leaves its leftmost shape leftmost.
   */
  lemma LeftmostSuffix(L: string, u: string, n: nat, m: nat, k: Cuts)
    requires '\n' !in L && Shape(L, n, m, k) && Leftmost(L, n, m)
    ensures Shape(L + u, n, m, k) && Leftmost(L + u, n, m)
  {
    ShapeExtend(L, u, n, m, k);
    forall n': nat, m': nat, k': Cuts | Shape(L + u, n', m', k') ensures n < n' || (n == n' && m <= m') {
      if n' < n {
        SmallerNameShape(L, u, n, m, k, n', k'.locOpen);
        assert false;
      } else if n' == n && m' < m {
        ShorterLocationShape(L, u, n, m, k, m', k');
        assert false;
      }
    }
  }
}
