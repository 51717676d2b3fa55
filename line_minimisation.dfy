/**
 * `minimize_changes` of testing.py: reduce the per-segment sets of lines that
 * serve a path to a short itinerary of line names.
 *
 * The inner pass `strip_extra_lines` scans forward keeping a candidate set: a
 * segment whose set differs from the candidate appends the candidate narrowed
 * to that set, or the set in full when nothing carries over. The pass runs
 * forward, then over the reversed result; every remaining set must then be a
 * single line, and runs of the same line collapse into one entry.
 *
 * Python lists and sets are values here. The source only ever removes lines
 * from fresh deep copies, so the caller's sets are never changed, which is
 * exactly what value semantics gives.
 */
module LineMinimisation {
  import opened Outcomes

  /** The lines that serve one segment, or a candidate choice of lines. */
  type LineSet = set<string>

  function Last<T>(s: seq<T>): T
    requires |s| > 0
  {
    s[|s| - 1]
  }

  function Reverse<T>(s: seq<T>): (r: seq<T>)
    ensures |r| == |s|
    ensures forall i :: 0 <= i < |s| ==> r[i] == s[|s| - 1 - i]
  {
    seq(|s|, i requires 0 <= i < |s| => s[|s| - 1 - i])
  }

  lemma ReverseReverse<T>(s: seq<T>)
    ensures Reverse(Reverse(s)) == s
  {
  }

  /**
   * What one scan step appends for a segment whose set differs from the
   * candidate: the candidate restricted to the segment's lines, or, if
   * that is empty, the segment's lines in full.
   */
  function Narrow(cand: LineSet, next: LineSet): (r: LineSet)
    ensures r <= next
    ensures next != {} ==> r != {}
    ensures r == next || r <= cand
  {
    if cand * next == {} then next else cand * next
  }

  /** The scan of `strip_extra_lines`, with the list built so far in `acc`. */
  function ScanFrom(acc: seq<LineSet>, rest: seq<LineSet>): (r: seq<LineSet>)
    requires |acc| > 0
    ensures |acc| <= |r| <= |acc| + |rest|
    ensures r[..|acc|] == acc
    decreases |rest|
  {
    if rest == [] then acc
    else if Last(acc) != rest[0] then ScanFrom(acc + [Narrow(Last(acc), rest[0])], rest[1..])
    else ScanFrom(acc, rest[1..])
  }

  /** `strip_extra_lines(p)` for a non-empty `p`. */
  function Stripped(p: seq<LineSet>): (r: seq<LineSet>)
    requires |p| > 0
    ensures 1 <= |r| <= |p|
    ensures r[0] == p[0]
  {
    ScanFrom([p[0]], p[1..])
  }

  /**
   * Element `k` of `r` was appended for some segment `p[j]`, `lo <= j`, that
   * differed from the element before it.
   */
  ghost predicate AppendedFor(r: seq<LineSet>, k: nat, p: seq<LineSet>, lo: nat)
    requires 0 < k < |r|
  {
    exists j :: lo <= j < |p| && r[k - 1] != p[j] && r[k] == Narrow(r[k - 1], p[j])
  }

  /**
   * The scan keeps what was built, appends at most one element per segment,
   * and every appended element is the narrowing of its predecessor by a
   * segment that differed from it.
   */
  lemma {:induction false} ScanFromShape(acc: seq<LineSet>, rest: seq<LineSet>)
    requires |acc| > 0
    ensures |acc| <= |ScanFrom(acc, rest)| <= |acc| + |rest|
    ensures ScanFrom(acc, rest)[..|acc|] == acc
    ensures forall k :: |acc| <= k < |ScanFrom(acc, rest)| ==> AppendedFor(ScanFrom(acc, rest), k, rest, 0)
    decreases |rest|
  {
    if rest != [] {
      var acc' := if Last(acc) != rest[0] then acc + [Narrow(Last(acc), rest[0])] else acc;
      ScanFromShape(acc', rest[1..]);
      var r := ScanFrom(acc, rest);
      assert r == ScanFrom(acc', rest[1..]);
      assert r[..|acc|] == r[..|acc'|][..|acc|];
      forall k | |acc| <= k < |r| ensures AppendedFor(r, k, rest, 0) {
        if k < |acc'| {
          assert r[k] == acc'[k] && r[k - 1] == acc'[k - 1];
          assert r[k - 1] != rest[0] && r[k] == Narrow(r[k - 1], rest[0]);
        } else {
          assert AppendedFor(r, k, rest[1..], 0);
          var j :| 0 <= j < |rest[1..]| && r[k - 1] != rest[1..][j] && r[k] == Narrow(r[k - 1], rest[1..][j]);
          assert rest[1..][j] == rest[j + 1];
        }
      }
    }
  }

  /**
   * The pass starts with the first segment's set, is never longer than its
   * input, and appends only narrowings of a segment that differed from the
   * element before it.
   */
  lemma StrippedShape(p: seq<LineSet>)
    requires |p| > 0
    ensures 1 <= |Stripped(p)| <= |p|
    ensures Stripped(p)[0] == p[0]
    ensures forall k :: 0 < k < |Stripped(p)| ==> AppendedFor(Stripped(p), k, p, 1)
  {
    ScanFromShape([p[0]], p[1..]);
    var r := Stripped(p);
    assert r[..1] == [p[0]];
    forall k | 0 < k < |r| ensures AppendedFor(r, k, p, 1) {
      assert AppendedFor(r, k, p[1..], 0);
      var j :| 0 <= j < |p[1..]| && r[k - 1] != p[1..][j] && r[k] == Narrow(r[k - 1], p[1..][j]);
      assert p[1..][j] == p[j + 1];
      assert 0 < j + 1 < |p| && r[k - 1] != p[j + 1] && r[k] == Narrow(r[k - 1], p[j + 1]);
    }
  }

  /** `x` is contained in some set of `p`. */
  ghost predicate Covered(x: LineSet, p: seq<LineSet>) {
    exists j :: 0 <= j < |p| && x <= p[j]
  }

  /** Every set in `r` is contained in some set of `p`. */
  ghost predicate CoveredBy(r: seq<LineSet>, p: seq<LineSet>) {
    forall k :: 0 <= k < |r| ==> Covered(r[k], p)
  }

  /** Every set of `s` is non-empty. */
  ghost predicate AllNonEmpty(s: seq<LineSet>) {
    forall k :: 0 <= k < |s| ==> s[k] != {}
  }

  /** The pass only ever keeps lines that serve some segment, and keeps sets non-empty. */
  lemma StrippedCoveredNonEmpty(p: seq<LineSet>)
    requires |p| > 0
    ensures CoveredBy(Stripped(p), p)
    ensures AllNonEmpty(p) ==> AllNonEmpty(Stripped(p))
  {
    StrippedShape(p);
    var r := Stripped(p);
    forall k | 0 <= k < |r| ensures Covered(r[k], p) && (AllNonEmpty(p) ==> r[k] != {}) {
      if k > 0 {
        assert AppendedFor(r, k, p, 1);
        var j :| 1 <= j < |p| && r[k - 1] != p[j] && r[k] == Narrow(r[k - 1], p[j]);
        assert r[k] <= p[j];
        assert AllNonEmpty(p) ==> p[j] != {};
      } else {
        assert r[0] <= p[0];
      }
    }
  }

  /** Reversing the covered list does not change coverage. */
  lemma ReverseCovered(r: seq<LineSet>, p: seq<LineSet>)
    requires CoveredBy(r, p)
    ensures CoveredBy(Reverse(r), p)
  {
    forall k | 0 <= k < |r| ensures Covered(Reverse(r)[k], p) {
      assert Reverse(r)[k] == r[|r| - 1 - k];
    }
  }

  /** Reversing the covering list does not change coverage. */
  lemma CoveredByReverse(r: seq<LineSet>, p: seq<LineSet>)
    requires CoveredBy(r, Reverse(p))
    ensures CoveredBy(r, p)
  {
    forall k | 0 <= k < |r| ensures Covered(r[k], p) {
      var j :| 0 <= j < |Reverse(p)| && r[k] <= Reverse(p)[j];
      assert r[k] <= p[|p| - 1 - j];
    }
  }

  lemma CoveredTransitive(a: seq<LineSet>, b: seq<LineSet>, c: seq<LineSet>)
    requires CoveredBy(a, b) && CoveredBy(b, c)
    ensures CoveredBy(a, c)
  {
    forall k | 0 <= k < |a| ensures Covered(a[k], c) {
      var i :| 0 <= i < |b| && a[k] <= b[i];
      assert Covered(b[i], c);
      var j :| 0 <= j < |c| && b[i] <= c[j];
      assert a[k] <= c[j];
    }
  }

  /** The two passes of `minimize_changes`: forward, then over the reversed result. */
  function BothPasses(p: seq<LineSet>): (r: seq<LineSet>)
    requires |p| > 0
    ensures 1 <= |r| <= |p|
    ensures r[|r| - 1] == Stripped(p)[|Stripped(p)| - 1]
  {
    var first := Stripped(p);
    ScanFromShape([p[0]], p[1..]);
    Reverse(Stripped(Reverse(first)))
  }

  /** After both passes every set is covered by an input set and is non-empty for non-empty inputs. */
  lemma BothPassesCovered(p: seq<LineSet>)
    requires |p| > 0
    ensures |BothPasses(p)| >= 1
    ensures CoveredBy(BothPasses(p), p)
    ensures AllNonEmpty(p) ==> AllNonEmpty(BothPasses(p))
  {
    var first := Stripped(p);
    StrippedShape(p);
    StrippedCoveredNonEmpty(p);
    var rev := Reverse(first);
    StrippedShape(rev);
    StrippedCoveredNonEmpty(rev);
    ReverseCovered(first, p);
    CoveredTransitive(Stripped(rev), rev, p);
    ReverseCovered(Stripped(rev), p);
    if AllNonEmpty(p) {
      assert AllNonEmpty(first);
      forall k | 0 <= k < |rev| ensures rev[k] != {} {
        assert rev[k] == first[|first| - 1 - k];
      }
      assert AllNonEmpty(Stripped(rev));
      forall k | 0 <= k < |BothPasses(p)| ensures BothPasses(p)[k] != {} {
        assert BothPasses(p)[k] == Stripped(rev)[|Stripped(rev)| - 1 - k];
      }
    }
  }

  /** The one line of a singleton set (`next(iter(line))`). */
  ghost function TheLine(s: LineSet): string
    requires |s| == 1
  {
    var x :| x in s; x
  }

  lemma SingletonMember(s: LineSet, x: string)
    requires |s| == 1 && x in s
    ensures s == {x} && TheLine(s) == x
  {
    assert |s - {x}| == 0;
  }

  /** No two neighbouring entries are equal. */
  ghost predicate NoAdjacentDuplicates(names: seq<string>) {
    forall k :: 0 < k < |names| ==> names[k - 1] != names[k]
  }

  /**
   * The condense loop with the list built so far in `acc`: every set must
   * be a singleton (AssertionError otherwise); its line is appended unless
   * it repeats the last entry.
   */
  ghost function Condense(sets: seq<LineSet>, acc: seq<string>): (r: Result<seq<string>>)
    ensures r.Err? ==> r.error == AssertionError
    ensures r.Ok? ==> |acc| <= |r.value| <= |acc| + |sets|
    decreases |sets|
  {
    if sets == [] then Ok(acc)
    else if |sets[0]| != 1 then Err(AssertionError)
    else
      var x := TheLine(sets[0]);
      Condense(sets[1..], if acc == [] || Last(acc) != x then acc + [x] else acc)
  }

  /** `x` is a line of some set of `sets`. */
  ghost predicate LineOf(x: string, sets: seq<LineSet>) {
    exists j :: 0 <= j < |sets| && x in sets[j]
  }

  /** Condensing fails, with AssertionError, exactly when some set is not a singleton. */
  lemma {:induction false} CondenseFails(sets: seq<LineSet>, acc: seq<string>)
    ensures Condense(sets, acc).Err? <==> exists k :: 0 <= k < |sets| && |sets[k]| != 1
    ensures Condense(sets, acc).Err? ==> Condense(sets, acc).error == AssertionError
    decreases |sets|
  {
    if sets != [] && |sets[0]| == 1 {
      var x := TheLine(sets[0]);
      var acc' := if acc == [] || Last(acc) != x then acc + [x] else acc;
      CondenseFails(sets[1..], acc');
      assert forall k :: 0 <= k < |sets[1..]| ==> sets[1..][k] == sets[k + 1];
    } else if sets != [] {
      assert |sets[0]| != 1;
    }
  }

  /**
   * A successful condense extends `acc`, keeps neighbours distinct, and adds
   * only lines of the sets.
   */
  lemma {:induction false} CondenseShape(sets: seq<LineSet>, acc: seq<string>)
    requires NoAdjacentDuplicates(acc)
    ensures Condense(sets, acc).Ok? ==>
      var r := Condense(sets, acc).value;
      && |r| >= |acc| && r[..|acc|] == acc
      && (|sets| > 0 ==> |r| > 0)
      && NoAdjacentDuplicates(r)
      && forall k :: |acc| <= k < |r| ==> LineOf(r[k], sets)
    decreases |sets|
  {
    if sets != [] && |sets[0]| == 1 {
      var x := TheLine(sets[0]);
      var acc' := if acc == [] || Last(acc) != x then acc + [x] else acc;
      CondenseShape(sets[1..], acc');
      if Condense(sets, acc).Ok? {
        var r := Condense(sets, acc).value;
        assert r[..|acc|] == r[..|acc'|][..|acc|];
        forall k | |acc| <= k < |r| ensures LineOf(r[k], sets) {
          if k < |acc'| {
            assert r[k] == x && x in sets[0];
          } else {
            var j :| 0 <= j < |sets[1..]| && r[k] in sets[1..][j];
            assert sets[1..][j] == sets[j + 1];
          }
        }
      }
    }
  }

  /**
   * `minimize_changes(p)`: IndexError on an empty list (from
   * `possible_lines_inner[0]`), otherwise both passes and the condense loop.
   */
  ghost function Minimize(p: seq<LineSet>): (r: Result<seq<string>>)
    ensures r == Err(IndexError) <==> p == []
    ensures r.Err? ==> r.error == IndexError || r.error == AssertionError
  {
    if p == [] then Err(IndexError) else Condense(BothPasses(p), [])
  }

  /**
   * What `minimize_changes` promises: on a non-empty input it fails with
   * AssertionError exactly when some set left after both passes is not a
   * single line; otherwise the itinerary is non-empty, has no two equal
   * neighbours, and uses only lines that serve some segment.
   */
  lemma MinimizeSound(p: seq<LineSet>)
    requires p != []
    ensures Minimize(p).Err? <==> exists k :: 0 <= k < |BothPasses(p)| && |BothPasses(p)[k]| != 1
    ensures Minimize(p).Err? ==> Minimize(p).error == AssertionError
    ensures Minimize(p).Ok? ==>
      && |Minimize(p).value| >= 1
      && NoAdjacentDuplicates(Minimize(p).value)
      && forall k :: 0 <= k < |Minimize(p).value| ==> exists j :: 0 <= j < |p| && Minimize(p).value[k] in p[j]
  {
    BothPassesCovered(p);
    var b := BothPasses(p);
    CondenseFails(b, []);
    CondenseShape(b, []);
    if Minimize(p).Ok? {
      var r := Minimize(p).value;
      forall k | 0 <= k < |r| ensures exists j :: 0 <= j < |p| && r[k] in p[j] {
        assert LineOf(r[k], b);
        var i :| 0 <= i < |b| && r[k] in b[i];
        var j :| 0 <= j < |p| && b[i] <= p[j];
      }
    }
  }

  /** One singleton set per name. */
  function Singletons(names: seq<string>): (r: seq<LineSet>)
    ensures |r| == |names|
    ensures forall k :: 0 <= k < |names| ==> r[k] == {names[k]}
  {
    seq(|names|, k requires 0 <= k < |names| => {names[k]})
  }

  /** A pass over distinct neighbouring singletons changes nothing: each set differs and shares no line. */
  lemma {:induction false} ScanSingletons(names: seq<string>, i: nat)
    requires 0 < i <= |names|
    requires NoAdjacentDuplicates(names)
    ensures ScanFrom(Singletons(names)[..i], Singletons(names)[i..]) == Singletons(names)
    decreases |names| - i
  {
    var s := Singletons(names);
    if i < |names| {
      assert s[i..][0] == {names[i]} && Last(s[..i]) == {names[i - 1]};
      assert {names[i - 1]} * {names[i]} == {} by {
        assert names[i - 1] != names[i];
      }
      assert s[..i] + [{names[i]}] == s[..i + 1];
      assert s[i..][1..] == s[i + 1..];
      ScanSingletons(names, i + 1);
    } else {
      assert s[..i] == s;
    }
  }

  lemma ReverseNoAdjacent(names: seq<string>)
    requires NoAdjacentDuplicates(names)
    ensures NoAdjacentDuplicates(Reverse(names))
    ensures Reverse(Singletons(names)) == Singletons(Reverse(names))
  {
    var r := Reverse(names);
    forall k | 0 < k < |r| ensures r[k - 1] != r[k] {
      assert r[k - 1] == names[|names| - k] && r[k] == names[|names| - 1 - k];
    }
  }

  lemma {:induction false} CondenseSingletons(names: seq<string>, i: nat)
    requires i <= |names|
    requires NoAdjacentDuplicates(names)
    ensures Condense(Singletons(names)[i..], names[..i]) == Ok(names)
    decreases |names| - i
  {
    var s := Singletons(names);
    if i < |names| {
      SingletonMember(s[i..][0], names[i]);
      assert names[..i] + [names[i]] == names[..i + 1];
      assert s[i..][1..] == s[i + 1..];
      CondenseSingletons(names, i + 1);
    } else {
      assert names[..i] == names;
    }
  }

  /**
   * An itinerary without equal neighbours, given back as singleton sets, is
   * left as it is: minimising is idempotent on its own output.
   */
  lemma MinimizeFixesItinerary(names: seq<string>)
    requires |names| > 0
    requires NoAdjacentDuplicates(names)
    ensures Minimize(Singletons(names)) == Ok(names)
  {
    var s := Singletons(names);
    ScanSingletons(names, 1);
    assert s[..1] == [s[0]];
    assert Stripped(s) == s;
    ReverseNoAdjacent(names);
    var rn := Reverse(names);
    ScanSingletons(rn, 1);
    assert Singletons(rn)[..1] == [Singletons(rn)[0]];
    assert Stripped(Reverse(s)) == Reverse(s);
    ReverseReverse(s);
    assert BothPasses(s) == s;
    CondenseSingletons(names, 0);
    assert s[0..] == s && names[..0] == [];
  }

  /** Minimising the singletons of a result gives the same result. */
  lemma MinimizeIdempotent(p: seq<LineSet>)
    requires p != [] && Minimize(p).Ok?
    ensures Minimize(Singletons(Minimize(p).value)) == Minimize(p)
  {
    MinimizeSound(p);
    MinimizeFixesItinerary(Minimize(p).value);
  }

  /**
   * Both passes keep two lines on a last segment reached by a transfer, so
   * the condense loop's assertion fails: U4 followed by a segment served by
   * U6 and S50 raises AssertionError.
   */
  lemma MinimizeSharedLastSegment()
    ensures Minimize([{"U4"}, {"U6", "S50"}]) == Err(AssertionError)
  {
    var a, b := {"U4"}, {"U6", "S50"};
    assert "U4" != "U6" && "U4" != "S50";
    assert a * b == {} && a != b;
    assert Stripped([a, b]) == [a, b];
    assert Reverse([a, b]) == [b, a];
    assert Stripped([b, a]) == [b, a];
    assert Reverse([b, a]) == [a, b];
    assert BothPasses([a, b]) == [a, b];
    assert |a| == 1 && |b| == 2;
    SingletonMember(a, "U4");
    assert Condense([a, b], []) == Condense([b], ["U4"]);
  }

  // ---------------------------------------------------------------------
  // The loops themselves.

  /** `strip_extra_lines`: the forward scan, with the element-by-element narrowing loop. */
  method StripExtraLines(p: seq<LineSet>) returns (r: Result<seq<LineSet>>)
    ensures p == [] ==> r == Err(IndexError)
    ensures p != [] ==> r == Ok(Stripped(p))
  {
    if |p| == 0 {
      return Err(IndexError);
    }
    var total := [p[0]];
    var i := 1;
    while i < |p|
      invariant 1 <= i <= |p|
      invariant |total| > 0
      invariant ScanFrom(total, p[i..]) == Stripped(p)
    {
      var next := p[i];
      var cand := total[|total| - 1];
      if cand != next {
        // the appended deep copy, and the copy that is iterated over
        var kept := cand;
        var considered := cand;
        while considered != {}
          invariant considered <= cand
          invariant kept == (cand - considered) * next + considered
          decreases considered
        {
          var line :| line in considered;
          if line !in next {
            kept := kept - {line};
          }
          considered := considered - {line};
        }
        assert kept == cand * next;
        if kept == {} {
          kept := next;
        }
        total := total + [kept];
      }
      assert p[i..][1..] == p[i + 1..];
      i := i + 1;
    }
    return Ok(total);
  }

  /** `minimize_changes`: two passes, then the condense loop with its singleton assertion. */
  method MinimizeChanges(p: seq<LineSet>) returns (r: Result<seq<string>>)
    ensures r == Minimize(p)
  {
    var first := StripExtraLines(p);
    if first.Err? {
      return Err(first.error);
    }
    var path := Reverse(first.value);   // input_path.reverse()
    var second := StripExtraLines(path);
    path := Reverse(second.value);      // input_path.reverse()
    var condensed: seq<string> := [];
    var i := 0;
    while i < |path|
      invariant 0 <= i <= |path|
      invariant Condense(path[i..], condensed) == Condense(path, [])
    {
      var line := path[i];
      if |line| != 1 {
        return Err(AssertionError);
      }
      var next :| next in line;
      SingletonMember(line, next);
      if |condensed| == 0 {
        condensed := condensed + [next];
      } else if condensed[|condensed| - 1] != next {
        condensed := condensed + [next];
      }
      assert path[i..][1..] == path[i + 1..];
      i := i + 1;
    }
    assert path[i..] == [];
    return Ok(condensed);
  }
}
