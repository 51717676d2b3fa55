/**
 * The record format read by `load_default_graph` (TransitGraph.py) and by the
 * scratch loader in testing.py: one line per record,
 *
 *     <line name>: <station>, <station>, ...
 *
 * parsed as `line.strip().split(':', 1)`, the name stripped, and the
 * remainder split on every ',' with each piece stripped.
 */
module LineRecords {
  import opened Outcomes
  import opened Sequences

  /** The characters Python's `str.isspace` accepts, i.e. what `str.strip()` removes. */
  predicate IsSpace(c: char) {
    c == ' ' || '\t' <= c <= '\r' || '\U{1C}' <= c <= '\U{1F}' || c == '\U{85}' || c == '\U{A0}'
    || c == '\U{1680}' || '\U{2000}' <= c <= '\U{200A}' || c == '\U{2028}' || c == '\U{2029}'
    || c == '\U{202F}' || c == '\U{205F}' || c == '\U{3000}'
  }

  /** Neither end of `s` is whitespace. */
  predicate IsStripped(s: string) {
    s == [] || (!IsSpace(s[0]) && !IsSpace(s[|s| - 1]))
  }

  /** `s[i..j]` is `s` with whitespace, and only whitespace, cut from both ends. */
  ghost predicate Trimmed(s: string, i: nat, j: nat) {
    && i <= j <= |s|
    && (forall k :: 0 <= k < i ==> IsSpace(s[k]))
    && (forall k :: j <= k < |s| ==> IsSpace(s[k]))
    && (i < j ==> !IsSpace(s[i]) && !IsSpace(s[j - 1]))
  }

  /**
   * `s.strip()`: whitespace is cut from either end until neither end is
   * whitespace. What is left is a contiguous middle of `s`, and everything
   * cut off on either side is whitespace.
   */
  function Strip(s: string): (r: string)
    ensures IsStripped(r)
    ensures |r| <= |s|
    ensures exists i: nat, j: nat :: Trimmed(s, i, j) && r == s[i..j]
    ensures IsStripped(s) ==> r == s
    decreases |s|
  {
    if |s| > 0 && IsSpace(s[0]) then
      var r := Strip(s[1..]);
      TrimmedFront(s, r);
      r
    else if |s| > 0 && IsSpace(s[|s| - 1]) then
      var r := Strip(s[..|s| - 1]);
      TrimmedBack(s, s[..|s| - 1], r);
      r
    else
      assert Trimmed(s, 0, |s|) && s == s[0..|s|];
      s
  }

  /** Cutting a leading whitespace character first leaves a trimmed middle of the whole string. */
  lemma TrimmedFront(s: string, r: string)
    requires |s| > 0 && IsSpace(s[0])
    requires exists i: nat, j: nat :: Trimmed(s[1..], i, j) && r == s[1..][i..j]
    ensures exists i: nat, j: nat :: Trimmed(s, i, j) && r == s[i..j]
  {
    var i: nat, j: nat :| Trimmed(s[1..], i, j) && r == s[1..][i..j];
    forall k | 0 < k < i + 1 ensures IsSpace(s[k]) {
      assert s[k] == s[1..][k - 1];
    }
    forall k | j + 1 <= k < |s| ensures IsSpace(s[k]) {
      assert s[k] == s[1..][k - 1];
    }
    if i < j {
      assert s[i + 1] == s[1..][i] && s[j] == s[1..][j - 1];
    }
    assert s[1..][i..j] == s[i + 1..j + 1];
    assert Trimmed(s, i + 1, j + 1);
  }

  /** Cutting a trailing whitespace character first leaves a trimmed middle of the whole string. */
  lemma TrimmedBack(s: string, t: string, r: string)
    requires |s| > 0 && IsSpace(s[|s| - 1]) && t == s[..|s| - 1]
    requires exists i: nat, j: nat :: Trimmed(t, i, j) && r == t[i..j]
    ensures exists i: nat, j: nat :: Trimmed(s, i, j) && r == s[i..j]
  {
    var i: nat, j: nat :| Trimmed(t, i, j) && r == t[i..j];
    forall k | 0 <= k < i ensures IsSpace(s[k]) {
      assert s[k] == t[k];
    }
    forall k | j <= k < |s| ensures IsSpace(s[k]) {
      if k < |t| { assert s[k] == t[k]; }
    }
    if i < j {
      assert s[i] == t[i] && s[j - 1] == t[j - 1];
    }
    assert t[i..j] == s[i..j];
    assert Trimmed(s, i, j);
  }

  /** Every character of `w` is whitespace. */
  predicate AllSpace(w: string) {
    forall k :: 0 <= k < |w| ==> IsSpace(w[k])
  }

  /** A non-empty trimmed middle starts at the first non-space and ends after the last one. */
  lemma TrimmedBounds(s: string, i: nat, j: nat, i': nat, j': nat)
    requires Trimmed(s, i, j) && Trimmed(s, i', j') && i < j
    ensures i' == i && j' == j
  {
    if i' == j' {
      assert false;
    } else {
      assert !(i' < i) && !(i < i');
      assert !(j' < j) && !(j < j');
    }
  }

  /** There is only one way to trim a string: both cuts give the same middle. */
  lemma TrimmedUnique(s: string, i: nat, j: nat, i': nat, j': nat)
    requires Trimmed(s, i, j) && Trimmed(s, i', j')
    ensures s[i..j] == s[i'..j']
  {
    if i < j {
      TrimmedBounds(s, i, j, i', j');
    } else if i' < j' {
      TrimmedBounds(s, i', j', i, j);
    }
  }

  /**
   * `strip()` is determined by where the text starts and ends: it removes
   * exactly the whitespace around a middle that begins and ends with a
   * non-space.
   */
  lemma StripUnique(s: string, i: nat, j: nat)
    requires Trimmed(s, i, j)
    ensures Strip(s) == s[i..j]
  {
    var r := Strip(s);
    var i': nat, j': nat :| Trimmed(s, i', j') && r == s[i'..j'];
    TrimmedUnique(s, i, j, i', j');
  }

  /** Padding a trimmed string with whitespace on both sides keeps the same middle trimmed. */
  lemma TrimmedPadded(a: string, s: string, b: string, t: string, i: nat, j: nat)
    requires AllSpace(a) && AllSpace(b) && t == a + s + b
    requires Trimmed(s, i, j)
    ensures Trimmed(t, |a| + i, |a| + j)
    ensures t[|a| + i..|a| + j] == s[i..j]
  {
    forall k | 0 <= k < |a| + i ensures IsSpace(t[k]) {
      if k >= |a| { assert t[k] == s[k - |a|]; }
    }
    forall k | |a| + j <= k < |t| ensures IsSpace(t[k]) {
      if k < |a| + |s| { assert t[k] == s[k - |a|]; }
      else { assert t[k] == b[k - |a| - |s|]; }
    }
    if i < j {
      assert t[|a| + i] == s[i] && t[|a| + j - 1] == s[j - 1];
    }
  }

  /** Whitespace added around a string does not change what `strip()` gives. */
  lemma StripIgnoresPadding(a: string, s: string, b: string, t: string)
    requires AllSpace(a) && AllSpace(b) && t == a + s + b
    ensures Strip(t) == Strip(s)
  {
    var m := Strip(s);
    var i: nat, j: nat :| Trimmed(s, i, j) && m == s[i..j];
    TrimmedPadded(a, s, b, t, i, j);
    StripAt(t, s, |a|, i, j);
  }

  /** A string trimmed to a copy of `s[i..j]`, at offset `off`, strips to `s[i..j]`. */
  lemma StripAt(t: string, s: string, off: nat, i: nat, j: nat)
    requires i <= j <= |s| && Trimmed(t, off + i, off + j)
    requires t[off + i..off + j] == s[i..j]
    ensures Strip(t) == s[i..j]
  {
    StripUnique(t, off + i, off + j);
  }

  /** The first occurrence determines IndexOf. */
  lemma {:induction false} IndexOfFirst(s: string, c: char, j: nat)
    requires j < |s| && s[j] == c && c !in s[..j]
    ensures IndexOf(s, c) == j
    decreases j
  {
    if j > 0 {
      assert s[0] in s[..j];
      assert s[1..][j - 1] == c && s[1..][..j - 1] == s[..j][1..];
      IndexOfFirst(s[1..], c, j - 1);
    }
  }

  /** The index of the first `c` in `s` (what `split(c, 1)` cuts at). */
  function IndexOf(s: string, c: char): (i: nat)
    requires c in s
    ensures i < |s| && s[i] == c && c !in s[..i]
  {
    if s[0] == c then 0 else 1 + IndexOf(s[1..], c)
  }

  /** `sep.join(parts)` for a one-character separator. */
  function Join(parts: seq<string>, sep: char): string
    requires |parts| >= 1
  {
    if |parts| == 1 then parts[0] else parts[0] + [sep] + Join(parts[1..], sep)
  }

  /** `s.split(sep)`: at least one piece, no piece holds `sep`, and joining the pieces gives `s` back. */
  function Split(s: string, sep: char): (r: seq<string>)
    ensures |r| >= 1
    ensures forall i :: 0 <= i < |r| ==> sep !in r[i]
    ensures Join(r, sep) == s
    decreases |s|
  {
    if sep !in s then [s]
    else
      var i := IndexOf(s, sep);
      assert s == s[..i] + [sep] + s[i + 1..];
      [s[..i]] + Split(s[i + 1..], sep)
  }

  /** Splitting `a + [sep] + b`, with no `sep` in `a`, cuts after `a`. */
  lemma SplitCons(a: string, sep: char, b: string)
    requires sep !in a
    ensures Split(a + [sep] + b, sep) == [a] + Split(b, sep)
  {
    var s := a + [sep] + b;
    var i := |a|;
    assert s[i] == sep && s[..i] == a && s[i + 1..] == b;
    IndexOfFirst(s, sep, i);
  }

  /** Splitting a join of separator-free pieces gives the pieces back. */
  lemma {:induction false} SplitJoin(parts: seq<string>, sep: char)
    requires |parts| >= 1
    requires forall i :: 0 <= i < |parts| ==> sep !in parts[i]
    ensures Split(Join(parts, sep), sep) == parts
    decreases |parts|
  {
    if |parts| > 1 {
      SplitCons(parts[0], sep, Join(parts[1..], sep));
      SplitJoin(parts[1..], sep);
      assert [parts[0]] + parts[1..] == parts;
    }
  }

  /** One parsed record: the line name and its stations in order. */
  datatype Record = Record(lineName: string, stations: seq<string>)

  /** `[station.strip() for station in pieces]`. */
  function StripAll(pieces: seq<string>): (r: seq<string>)
    ensures |r| == |pieces|
    ensures forall i :: 0 <= i < |r| ==> r[i] == Strip(pieces[i]) && IsStripped(r[i])
  {
    seq(|pieces|, i requires 0 <= i < |pieces| => Strip(pieces[i]))
  }

  /** Stripping separator-free pieces gives stripped, separator-free pieces. */
  lemma StripAllClean(pieces: seq<string>, sep: char)
    requires !IsSpace(sep)
    requires forall i :: 0 <= i < |pieces| ==> sep !in pieces[i]
    ensures forall i :: 0 <= i < |pieces| ==> sep !in StripAll(pieces)[i] && IsStripped(StripAll(pieces)[i])
  {
    forall i | 0 <= i < |pieces|
      ensures sep !in StripAll(pieces)[i] && IsStripped(StripAll(pieces)[i])
    {
      assert StripAll(pieces)[i] == Strip(pieces[i]);
    }
  }

  /**
   * Parse one record. Without a ':' the two-name unpacking of
   * `split(':', 1)` raises ValueError.
   */
  function ParseRecord(line: string): (r: Result<Record>)
    ensures r.Err? <==> ':' !in line
    ensures r.Err? ==> r.error == ValueError
    ensures r.Ok? ==> ':' !in r.value.lineName && IsStripped(r.value.lineName)
    ensures r.Ok? ==> |r.value.stations| >= 1
    ensures r.Ok? ==> forall i :: 0 <= i < |r.value.stations| ==>
                        ',' !in r.value.stations[i] && IsStripped(r.value.stations[i])
  {
    var t := Strip(line);
    assert !IsSpace(':') && !IsSpace(',');
    if ':' !in t then Err(ValueError)
    else
      var i := IndexOf(t, ':');
      var pieces := Split(t[i + 1..], ',');
      StripAllClean(pieces, ',');
      Ok(Record(Strip(t[..i]), StripAll(pieces)))
  }

  /** Write a record back without spaces: `name:s1,s2,...`. */
  function FormatRecord(rec: Record): string
    requires |rec.stations| >= 1
  {
    rec.lineName + [':'] + Join(rec.stations, ',')
  }

  /** The last character of a join is the last character of its last non-empty tail. */
  lemma {:induction false} JoinEndsWell(parts: seq<string>, sep: char)
    requires |parts| >= 1
    requires !IsSpace(sep)
    requires forall i :: 0 <= i < |parts| ==> IsStripped(parts[i])
    ensures Join(parts, sep) != [] ==> !IsSpace(Join(parts, sep)[|Join(parts, sep)| - 1])
    decreases |parts|
  {
    if |parts| > 1 {
      JoinEndsWell(parts[1..], sep);
      var rest := Join(parts[1..], sep);
      assert Join(parts, sep) == parts[0] + [sep] + rest;
    }
  }

  /** Neither end of a formatted record is whitespace. */
  lemma FormattedIsStripped(rec: Record)
    requires |rec.stations| >= 1
    requires IsStripped(rec.lineName)
    requires forall i :: 0 <= i < |rec.stations| ==> IsStripped(rec.stations[i])
    ensures IsStripped(FormatRecord(rec))
  {
    var name := rec.lineName;
    var body := Join(rec.stations, ',');
    var line := FormatRecord(rec);
    JoinEndsWell(rec.stations, ',');
    assert line[|name|] == ':';
    if name != [] { assert line[0] == name[0]; }
    if body != [] { assert line[|line| - 1] == body[|body| - 1]; }
  }

  /** Stripping already stripped pieces changes nothing. */
  lemma StripAllStripped(pieces: seq<string>)
    requires forall i :: 0 <= i < |pieces| ==> IsStripped(pieces[i])
    ensures StripAll(pieces) == pieces
  {
  }

  /** How ParseRecord takes apart a line that is already stripped and whose first ':' is at `i`. */
  lemma ParseStripped(line: string, i: nat)
    requires IsStripped(line)
    requires i < |line| && line[i] == ':' && ':' !in line[..i]
    ensures ParseRecord(line) == Ok(Record(Strip(line[..i]), StripAll(Split(line[i + 1..], ','))))
  {
    IndexOfFirst(line, ':', i);
  }

  /**
   * A well-formed record survives formatting and parsing: the name and every
   * station are stripped and hold neither ':' (the name) nor ',' (a station).
   */
  lemma ParseFormatRoundTrip(rec: Record)
    requires |rec.stations| >= 1
    requires ':' !in rec.lineName && IsStripped(rec.lineName)
    requires forall i :: 0 <= i < |rec.stations| ==> ',' !in rec.stations[i] && IsStripped(rec.stations[i])
    ensures ParseRecord(FormatRecord(rec)) == Ok(rec)
  {
    var name := rec.lineName;
    var body := Join(rec.stations, ',');
    var line := FormatRecord(rec);
    FormattedIsStripped(rec);
    var i := |name|;
    assert line[i] == ':' && line[..i] == name && line[i + 1..] == body;
    ParseStripped(line, i);
    SplitJoin(rec.stations, ',');
    StripAllStripped(rec.stations);
  }

  // ---------------------------------------------------------------------
  // Records as they are written in the line files, with whitespace around
  // the name and the stations.

  /** A character that is not whitespace does not occur in whitespace. */
  lemma NotInSpace(w: string, c: char)
    requires AllSpace(w) && !IsSpace(c)
    ensures c !in w
  {
    forall k | 0 <= k < |w| ensures w[k] != c {
      assert IsSpace(w[k]);
    }
  }

  /** Text after the last separator belongs to the last piece of `split`. */
  lemma {:induction false} SplitTrailing(x: string, w: string, sep: char)
    requires sep !in w
    ensures |Split(x + w, sep)| == |Split(x, sep)|
    ensures Split(x + w, sep)[..|Split(x, sep)| - 1] == Split(x, sep)[..|Split(x, sep)| - 1]
    ensures Split(x + w, sep)[|Split(x, sep)| - 1] == Split(x, sep)[|Split(x, sep)| - 1] + w
    decreases |x|
  {
    if sep !in x {
      NotInConcat(sep, x, w, []);
    } else {
      var i := IndexOf(x, sep);
      var a, b := x[..i], x[i + 1..];
      CutAround(x, w, i);
      SplitCons(a, sep, b);
      SplitCons(a, sep, b + w);
      SplitTrailing(b, w, sep);
      ConsFront(a, Split(b, sep));
      ConsFront(a, Split(b + w, sep));
    }
  }

  /** Whitespace at the end of the station list changes none of the stripped stations. */
  lemma StripAllTrailing(x: string, w: string)
    requires AllSpace(w)
    ensures StripAll(Split(x + w, ',')) == StripAll(Split(x, ','))
  {
    NotInSpace(w, ',');
    SplitTrailing(x, w, ',');
    StripAllLastPadded(Split(x, ','), Split(x + w, ','), w);
  }

  /** Padding the last piece with whitespace changes none of the stripped pieces. */
  lemma StripAllLastPadded(q: seq<string>, p: seq<string>, w: string)
    requires |q| >= 1 && |p| == |q| && AllSpace(w)
    requires p[..|q| - 1] == q[..|q| - 1] && p[|q| - 1] == q[|q| - 1] + w
    ensures StripAll(p) == StripAll(q)
  {
    var n := |q| - 1;
    StripAllPrefix(q, p, n);
    EmptyPlus(q[n], w);
    StripIgnoresPadding([], q[n], w, p[n]);
    SeqSnoc(StripAll(p));
    SeqSnoc(StripAll(q));
  }

  /** Pieces that agree up to `n` strip to lists that agree up to `n`. */
  lemma StripAllPrefix(q: seq<string>, p: seq<string>, n: nat)
    requires n <= |q| && n <= |p| && p[..n] == q[..n]
    ensures StripAll(p)[..n] == StripAll(q)[..n]
  {
    forall k | 0 <= k < n ensures StripAll(p)[k] == StripAll(q)[k] {
      assert p[k] == p[..n][k] && q[k] == q[..n][k];
    }
  }

  /** Where the whole-line strip cuts a line `pre + ':' + post`: only into whitespace on either side. */
  lemma StripLineAt(pre: string, post: string, i: nat, j: nat)
    requires Trimmed(pre + [':'] + post, i, j)
    ensures i <= |pre| < j
    ensures (pre + [':'] + post)[i..j] == pre[i..] + [':'] + post[..j - |pre| - 1]
    ensures AllSpace(pre[..i]) && AllSpace(post[j - |pre| - 1..])
  {
    var line := pre + [':'] + post;
    var p := |pre|;
    assert line[p] == ':' && !IsSpace(':');
    var m := j - p - 1;
    forall k | 0 <= k < i ensures IsSpace(pre[..i][k]) {
      assert pre[..i][k] == line[k];
    }
    forall k | 0 <= k < |post| - m ensures IsSpace(post[m..][k]) {
      assert post[m..][k] == line[j + k];
    }
  }

  /**
   * How a record line parses: the name is the text before the first ':'
   * stripped, and the stations are the comma-separated pieces after it,
   * each stripped, whatever whitespace surrounds the line.
   */
  lemma ParseRecordAt(pre: string, post: string)
    requires ':' !in pre
    ensures ParseRecord(pre + [':'] + post) == Ok(Record(Strip(pre), StripAll(Split(post, ','))))
  {
    var line := pre + [':'] + post;
    var t := Strip(line);
    var i: nat, j: nat :| Trimmed(line, i, j) && t == line[i..j];
    StripLineAt(pre, post, i, j);
    var m := j - |pre| - 1;
    CutAt(pre[i..], ':', post[..m], t);
    SplitAtThenEmpty(pre, i);
    StripIgnoresPadding(pre[..i], pre[i..], [], pre);
    SplitAt(post, m);
    StripAllTrailing(post[..m], post[m..]);
  }

  /** Where `x + [c] + z` is cut at its first `c`, when `x` holds no `c`. */
  lemma CutAt(x: string, c: char, z: string, t: string)
    requires c !in x && t == x + [c] + z
    ensures c in t && IndexOf(t, c) == |x|
    ensures t[..|x|] == x && t[|x| + 1..] == z
  {
    assert t[|x|] == c && t[..|x|] == x && t[|x| + 1..] == z;
    IndexOfFirst(t, c, |x|);
  }

  /** Each string with whitespace added before and after it. */
  function Padded(xs: seq<string>, pads: seq<(string, string)>): (r: seq<string>)
    requires |pads| == |xs|
    ensures |r| == |xs|
    ensures forall i :: 0 <= i < |xs| ==> r[i] == pads[i].0 + xs[i] + pads[i].1
  {
    seq(|xs|, i requires 0 <= i < |xs| => pads[i].0 + xs[i] + pads[i].1)
  }

  /** A record written the way the line files write it, e.g. `U1: A, B`, with any whitespace padding. */
  function FormatPadded(rec: Record, namePad: (string, string), pads: seq<(string, string)>): string
    requires |rec.stations| >= 1 && |pads| == |rec.stations|
  {
    namePad.0 + rec.lineName + namePad.1 + [':'] + Join(Padded(rec.stations, pads), ',')
  }

  /**
   * A well-formed record written with whitespace around its name and each
   * station parses back to the record without that whitespace.
   */
  lemma ParsePaddedRoundTrip(rec: Record, namePad: (string, string), pads: seq<(string, string)>)
    requires |rec.stations| >= 1 && |pads| == |rec.stations|
    requires ':' !in rec.lineName && IsStripped(rec.lineName)
    requires forall i :: 0 <= i < |rec.stations| ==> ',' !in rec.stations[i] && IsStripped(rec.stations[i])
    requires AllSpace(namePad.0) && AllSpace(namePad.1)
    requires forall i :: 0 <= i < |pads| ==> AllSpace(pads[i].0) && AllSpace(pads[i].1)
    ensures ParseRecord(FormatPadded(rec, namePad, pads)) == Ok(rec)
  {
    var pre := namePad.0 + rec.lineName + namePad.1;
    var body := Join(Padded(rec.stations, pads), ',');
    PaddedName(rec.lineName, namePad, pre);
    PaddedStations(rec.stations, pads, body);
    ParseRecordAt(pre, body);
  }

  /** A name padded with whitespace still holds no ':' and strips back to the name. */
  lemma PaddedName(name: string, namePad: (string, string), pre: string)
    requires ':' !in name && IsStripped(name)
    requires AllSpace(namePad.0) && AllSpace(namePad.1)
    requires pre == namePad.0 + name + namePad.1
    ensures ':' !in pre && Strip(pre) == name
  {
    NotInSpace(namePad.0, ':');
    NotInSpace(namePad.1, ':');
    NotInConcat(':', namePad.0, name, namePad.1);
    StripIgnoresPadding(namePad.0, name, namePad.1, pre);
  }

  /** Stations padded with whitespace and joined with ',' split and strip back to the stations. */
  lemma PaddedStations(xs: seq<string>, pads: seq<(string, string)>, body: string)
    requires |xs| >= 1 && |pads| == |xs|
    requires forall i :: 0 <= i < |xs| ==> ',' !in xs[i] && IsStripped(xs[i])
    requires forall i :: 0 <= i < |pads| ==> AllSpace(pads[i].0) && AllSpace(pads[i].1)
    requires body == Join(Padded(xs, pads), ',')
    ensures StripAll(Split(body, ',')) == xs
  {
    assert !IsSpace(',');
    PaddedPieces(xs, pads, ',');
    SplitJoin(Padded(xs, pads), ',');
    StripAllUnpads(xs, pads);
  }

  /** Padding separator-free pieces with whitespace keeps them separator-free. */
  lemma PaddedPieces(xs: seq<string>, pads: seq<(string, string)>, sep: char)
    requires |pads| == |xs| && !IsSpace(sep)
    requires forall i :: 0 <= i < |xs| ==> sep !in xs[i]
    requires forall i :: 0 <= i < |pads| ==> AllSpace(pads[i].0) && AllSpace(pads[i].1)
    ensures forall i :: 0 <= i < |xs| ==> sep !in Padded(xs, pads)[i]
  {
    forall i | 0 <= i < |xs| ensures sep !in Padded(xs, pads)[i] {
      NotInSpace(pads[i].0, sep);
      NotInSpace(pads[i].1, sep);
    }
  }

  /** Stripping stripped strings padded with whitespace gives the strings back. */
  lemma StripAllUnpads(xs: seq<string>, pads: seq<(string, string)>)
    requires |pads| == |xs|
    requires forall i :: 0 <= i < |xs| ==> IsStripped(xs[i])
    requires forall i :: 0 <= i < |pads| ==> AllSpace(pads[i].0) && AllSpace(pads[i].1)
    ensures StripAll(Padded(xs, pads)) == xs
  {
    var r := StripAll(Padded(xs, pads));
    forall i | 0 <= i < |xs| ensures r[i] == xs[i] {
      StripIgnoresPadding(pads[i].0, xs[i], pads[i].1, Padded(xs, pads)[i]);
    }
    SeqExt(r, xs);
  }

  /** The record `U1: A, B` parses to line U1 with stations A and B. */
  lemma ParseExample()
    ensures ParseRecord("U1: A, B") == Ok(Record("U1", ["A", "B"]))
  {
    var rec := Record("U1", ["A", "B"]);
    var pads := [(" ", ""), (" ", "")];
    ExampleFormat(rec, pads);
    assert AllSpace(" ") && AllSpace("");
    assert IsStripped("U1") && IsStripped("A") && IsStripped("B");
    ParsePaddedRoundTrip(rec, ("", ""), pads);
  }

  /** `U1: A, B` is the record U1 with stations A and B, each written after one blank. */
  lemma ExampleFormat(rec: Record, pads: seq<(string, string)>)
    requires rec == Record("U1", ["A", "B"]) && pads == [(" ", ""), (" ", "")]
    ensures FormatPadded(rec, ("", ""), pads) == "U1: A, B"
  {
    var padded := Padded(rec.stations, pads);
    assert padded[0] == " A" && padded[1] == " B";
    SeqExt(padded, [" A", " B"]);
    assert Join([" A", " B"], ',') == " A, B" by {
      assert [" A", " B"][1..] == [" B"];
    }
  }
}
