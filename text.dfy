/**
 * The string operations of Python that the landmark script relies on:
 * `str.isspace`, `str.strip`, `str.split(sep)` and `str.replace(from, to)`
 * for single-character arguments.  Strings are sequences of code points.
 */
module Text {

  /** The characters for which Python's `str.isspace` holds; `\s` in a `str` pattern matches the same. */
  const Whitespace: set<char> := {
    '\t', '\n', '\U{0B}', '\U{0C}', '\r', '\U{1C}', '\U{1D}', '\U{1E}', '\U{1F}', ' ',
    '\U{85}', '\U{A0}', '\U{1680}',
    '\U{2000}', '\U{2001}', '\U{2002}', '\U{2003}', '\U{2004}', '\U{2005}',
    '\U{2006}', '\U{2007}', '\U{2008}', '\U{2009}', '\U{200A}',
    '\U{2028}', '\U{2029}', '\U{202F}', '\U{205F}', '\U{3000}'
  }

  predicate IsSpace(c: char)
  {
    c in Whitespace
  }

  /** Every character of `s` from position `i` up to (not including) `j` is whitespace. */
  predicate Spaces(s: string, i: nat, j: nat)
    decreases j - i
  {
    i >= j || (i < |s| && IsSpace(s[i]) && Spaces(s, i + 1, j))
  }

  /** A whitespace span grows by one whitespace character at its end. */
  lemma {:induction false} SpacesExtend(s: string, i: nat, j: nat)
    requires i <= j < |s| && Spaces(s, i, j) && IsSpace(s[j])
    ensures Spaces(s, i, j + 1)
    decreases j - i
  {
    if i < j {
      SpacesExtend(s, i + 1, j);
    }
  }

  /** Neither the first nor the last character is whitespace. */
  predicate Trimmed(s: string)
  {
    s == [] || (!IsSpace(s[0]) && !IsSpace(s[|s| - 1]))
  }

  /** No character of `s` from position `i` up to (not including) `j` is `c`. */
  predicate Avoids(s: string, i: nat, j: nat, c: char)
    decreases j - i
  {
    i >= j || (i < |s| && s[i] != c && Avoids(s, i + 1, j, c))
  }

  /** `Avoids` is `!in` on the slice. */
  lemma {:induction false} AvoidsNotIn(s: string, i: nat, j: nat, c: char)
    requires i <= j <= |s|
    ensures Avoids(s, i, j, c) <==> c !in s[i..j]
    decreases j - i
  {
    if i < j {
      assert s[i..j] == [s[i]] + s[i + 1..j];
      AvoidsNotIn(s, i + 1, j, c);
    }
  }

  /** The position of the first `c` at or after `i`, or `|s|` when there is none. */
  function Find(s: string, i: nat, c: char): (j: nat)
    requires i <= |s|
    ensures i <= j <= |s|
    ensures j < |s| ==> s[j] == c
    ensures Avoids(s, i, j, c)
    decreases |s| - i
  {
    if i == |s| || s[i] == c then i else Find(s, i + 1, c)
  }

  /** `Find` is determined by its contract: a `c` with no `c` before it is the one found. */
  lemma FindAt(s: string, i: nat, j: nat, c: char)
    requires i <= j <= |s|
    requires j < |s| ==> s[j] == c
    requires Avoids(s, i, j, c)
    ensures Find(s, i, c) == j
    decreases j - i
  {
    if i < j {
      FindAt(s, i + 1, j, c);
    }
  }

  /** The end of the longest run of whitespace that starts at `i`. */
  function SpaceRun(s: string, i: nat): (j: nat)
    requires i <= |s|
    ensures i <= j <= |s|
    ensures Spaces(s, i, j)
    ensures j < |s| ==> !IsSpace(s[j])
    decreases |s| - i
  {
    if i == |s| || !IsSpace(s[i]) then i else SpaceRun(s, i + 1)
  }

  /** A whitespace run followed by a non-space character is the longest one. */
  lemma SpaceRunAt(s: string, i: nat, j: nat)
    requires i <= j <= |s|
    requires Spaces(s, i, j)
    requires j < |s| ==> !IsSpace(s[j])
    ensures SpaceRun(s, i) == j
    decreases j - i
  {
    if i < j {
      SpaceRunAt(s, i + 1, j);
    }
  }

  /** The start of the whitespace run that ends `s[lo..hi]`. */
  function TrailingStart(s: string, lo: nat, hi: nat): (j: nat)
    requires lo <= hi <= |s|
    ensures lo <= j <= hi
    ensures Spaces(s, j, hi)
    ensures lo < j ==> !IsSpace(s[j - 1])
    decreases hi
  {
    if hi == lo || !IsSpace(s[hi - 1]) then hi
    else
      var j := TrailingStart(s, lo, hi - 1);
      SpacesExtend(s, j, hi - 1);
      j
  }

  /** A slice holds no character its string does not. */
  lemma SliceAvoids(s: string, i: nat, j: nat, c: char)
    requires i <= j <= |s| && c !in s
    ensures c !in s[i..j]
  {
    forall k | 0 <= k < j - i ensures s[i..j][k] != c {
      assert s[i..j][k] == s[i + k];
    }
  }

  /** Python's `s.strip()`: `s` without its leading and trailing whitespace. */
  function Strip(s: string): (r: string)
    ensures |r| <= |s|
    ensures Trimmed(r)
    ensures exists i :: 0 <= i <= |s| - |r| && s[i..i + |r|] == r && Spaces(s, 0, i) && Spaces(s, i + |r|, |s|)
  {
    var i := SpaceRun(s, 0);
    var j := TrailingStart(s, i, |s|);
    assert i < j ==> s[i..j][0] == s[i] && s[i..j][j - i - 1] == s[j - 1];
    assert s[i..i + |s[i..j]|] == s[i..j];
    s[i..j]
  }

  /** Stripping a string that has no surrounding whitespace leaves it as it is. */
  lemma StripTrimmed(s: string)
    requires Trimmed(s)
    ensures Strip(s) == s
  {
    var i := SpaceRun(s, 0);
    if s != [] {
      assert i == 0;
      assert TrailingStart(s, 0, |s|) == |s|;
    }
  }

  /** A string that starts with a non-space character keeps that character first when stripped. */
  lemma StripKeepsFirst(s: string)
    requires s != [] && !IsSpace(s[0])
    ensures Strip(s) != [] && Strip(s)[0] == s[0]
  {
    assert SpaceRun(s, 0) == 0;
    assert TrailingStart(s, 0, |s|) > 0;
  }

  /** Stripping only removes characters. */
  lemma StripAvoids(s: string, c: char)
    requires c !in s
    ensures c !in Strip(s)
  {
    var i := SpaceRun(s, 0);
    var j := TrailingStart(s, i, |s|);
    assert Strip(s) == s[i..j];
    forall k | 0 <= k < j - i ensures s[i..j][k] != c {
      assert s[i..j][k] == s[i + k];
    }
  }

  /** Each position of a whitespace span holds whitespace. */
  lemma {:induction false} SpacesAt(s: string, i: nat, j: nat, p: nat)
    requires Spaces(s, i, j) && i <= p < j
    ensures p < |s| && IsSpace(s[p])
    decreases j - i
  {
    if i < p {
      SpacesAt(s, i + 1, j, p);
    }
  }

  /** Each position of a span that avoids `c` holds something else. */
  lemma {:induction false} AvoidsAt(s: string, i: nat, j: nat, c: char, p: nat)
    requires Avoids(s, i, j, c) && i <= p < j
    ensures p < |s| && s[p] != c
    decreases j - i
  {
    if i < p {
      AvoidsAt(s, i + 1, j, c, p);
    }
  }

  /** A whitespace span from `i` ends at or before any non-space character at or after `i`. */
  lemma SpacesBefore(s: string, i: nat, j: nat, p: nat)
    requires Spaces(s, i, j) && i <= p < |s| && !IsSpace(s[p])
    ensures j <= p
  {
    if p < j {
      SpacesAt(s, i, j, p);
    }
  }

  /** A span from `i` that avoids `c` ends at or before any `c` at or after `i`. */
  lemma AvoidsBefore(s: string, i: nat, j: nat, c: char, p: nat)
    requires Avoids(s, i, j, c) && i <= p < |s| && s[p] == c
    ensures j <= p
  {
    if p < j {
      AvoidsAt(s, i, j, c, p);
    }
  }

  /** Text appended after position `j` leaves a whitespace span before `j` as it is. */
  lemma {:induction false} SpacesPrefix(s: string, t: string, i: nat, j: nat)
    requires j <= |s|
    ensures Spaces(s + t, i, j) == Spaces(s, i, j)
    decreases j - i
  {
    if i < j {
      SpacesPrefix(s, t, i + 1, j);
    }
  }

  /** Text appended after position `j` leaves a span avoiding `c` before `j` as it is. */
  lemma {:induction false} AvoidsPrefix(s: string, t: string, i: nat, j: nat, c: char)
    requires j <= |s|
    ensures Avoids(s + t, i, j, c) == Avoids(s, i, j, c)
    decreases j - i
  {
    if i < j {
      AvoidsPrefix(s, t, i + 1, j, c);
    }
  }

  /** Stripping a trimmed, non-empty string followed by more text keeps all of the string. */
  lemma StripSuffix(s: string, t: string) returns (u: string)
    requires Trimmed(s) && s != []
    ensures Strip(s + t) == s + u && u == t[..|u|]
  {
    var x := s + t;
    assert SpaceRun(x, 0) == 0;
    var j := TrailingStart(x, 0, |x|);
    if j < |s| {
      SpacesAt(x, j, |x|, |s| - 1);
      assert false;
    }
    u := t[..j - |s|];
    assert x[0..j] == s + u;
  }

  /** Python's `sep.join(parts)` with a one-character separator. */
  function Join(parts: seq<string>, sep: char): string
  {
    if |parts| == 0 then ""
    else if |parts| == 1 then parts[0]
    else parts[0] + [sep] + Join(parts[1..], sep)
  }

  /** Joining one more part adds a separator and that part. */
  lemma {:induction false} JoinSnoc(parts: seq<string>, x: string, sep: char)
    requires |parts| >= 1
    ensures Join(parts + [x], sep) == Join(parts, sep) + [sep] + x
    decreases |parts|
  {
    if |parts| > 1 {
      assert (parts + [x])[1..] == parts[1..] + [x];
      JoinSnoc(parts[1..], x, sep);
    }
  }

  /** Python's `s.split(sep)` with a one-character separator: the pieces between separators. */
  function Split(s: string, sep: char): (parts: seq<string>)
    ensures |parts| >= 1
    ensures forall i :: 0 <= i < |parts| ==> sep !in parts[i]
    ensures Join(parts, sep) == s
    decreases |s|
  {
    var k := Find(s, 0, sep);
    AvoidsNotIn(s, 0, k, sep);
    assert s[0..k] == s[..k];
    if k == |s| then
      [s]
    else
      var tail := Split(s[k + 1..], sep);
      assert s == s[..k] + [sep] + s[k + 1..];
      [s[..k]] + tail
  }

  /** Splitting undoes joining when no part contains the separator. */
  lemma {:induction false} SplitJoin(parts: seq<string>, sep: char)
    requires |parts| >= 1
    requires forall i :: 0 <= i < |parts| ==> sep !in parts[i]
    ensures Split(Join(parts, sep), sep) == parts
    decreases |parts|
  {
    var s := Join(parts, sep);
    var p := parts[0];
    if |parts| == 1 {
      AvoidsNotIn(s, 0, |s|, sep);
      assert s[0..|s|] == s;
      FindAt(s, 0, |s|, sep);
    } else {
      var rest := Join(parts[1..], sep);
      assert s == p + [sep] + rest;
      assert s[|p|] == sep;
      assert forall k :: 0 <= k < |p| ==> s[k] == p[k];
      assert s[0..|p|] == p;
      AvoidsNotIn(s, 0, |p|, sep);
      FindAt(s, 0, |p|, sep);
      assert s[..|p|] == p;
      assert s[|p| + 1..] == rest;
      SplitJoin(parts[1..], sep);
      assert parts == [p] + parts[1..];
    }
  }

  /** A text ending in the separator splits into its lines and one empty piece after the last separator. */
  lemma SplitJoinEnd(parts: seq<string>, sep: char)
    requires |parts| >= 1
    requires forall i :: 0 <= i < |parts| ==> sep !in parts[i]
    ensures Split(Join(parts, sep) + [sep], sep) == parts + [""]
  {
    var all := parts + [""];
    JoinSnoc(parts, "", sep);
    assert Join(parts, sep) + [sep] == Join(parts, sep) + [sep] + "";
    forall i | 0 <= i < |all| ensures sep !in all[i] {
      if i < |parts| {
        assert all[i] == parts[i];
      } else {
        assert all == parts + [""] && i == |parts|;
      }
    }
    SplitJoin(all, sep);
  }

  /** Python's `s.replace(from, to)` for single characters. */
  function Replace(s: string, from: char, to: char): (r: string)
    ensures |r| == |s|
    ensures forall i :: 0 <= i < |s| ==> r[i] == (if s[i] == from then to else s[i])
  {
    if s == [] then [] else [if s[0] == from then to else s[0]] + Replace(s[1..], from, to)
  }

  /** After replacing every `from` by a different character, no `from` is left. */
  lemma ReplaceRemoves(s: string, from: char, to: char)
    requires from != to
    ensures from !in Replace(s, from, to)
  {
    var r := Replace(s, from, to);
    forall i | 0 <= i < |r| ensures r[i] != from {
    }
  }
}
