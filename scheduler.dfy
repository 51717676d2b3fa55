/**
 * The greedy selection of `schedule_disruptions` (Scheduler.py): every
 * combination of `max_at_once` disruptions has a score; repeatedly the
 * lowest-scoring combination still live is chosen, its disruptions are
 * taken off the list of remaining disruptions, and every live combination
 * sharing a disruption with it is struck out.
 *
 * The scores come from a simulation loop that is not part of this model;
 * they are an input, one per combination.
 */
module Scheduling {
  import opened Outcomes
  import opened Sequences

  /** `sys.maxsize` on a 64-bit interpreter: the starting minimum of `min_index_with_none`. */
  const MaxSize: int := 0x7FFF_FFFF_FFFF_FFFF

  /**
   * `min_index_with_none(input_list)`: -1 when no entry is a number below
   * `sys.maxsize`; otherwise the index of the first smallest number (the
   * comparison is strict, so later equal values do not win).
   */
  method MinIndexWithNone(xs: seq<Option<int>>) returns (r: int)
    ensures -1 <= r < |xs|
    ensures r == -1 <==> forall i :: 0 <= i < |xs| && xs[i].Some? ==> xs[i].value >= MaxSize
    ensures r != -1 ==> xs[r].Some? && xs[r].value < MaxSize
    ensures r != -1 ==> forall i :: 0 <= i < |xs| && xs[i].Some? ==>
      xs[r].value <= xs[i].value && (xs[i].value == xs[r].value ==> r <= i)
  {
    var minValue := MaxSize;
    r := -1;
    var i := 0;
    while i < |xs|
      invariant 0 <= i <= |xs|
      invariant -1 <= r < i
      invariant r == -1 <==> forall k :: 0 <= k < i && xs[k].Some? ==> xs[k].value >= MaxSize
      invariant r == -1 ==> minValue == MaxSize
      invariant r != -1 ==> xs[r].Some? && xs[r].value == minValue < MaxSize
      invariant r != -1 ==> forall k :: 0 <= k < i && xs[k].Some? ==>
        minValue <= xs[k].value && (xs[k].value == minValue ==> r <= k)
    {
      if xs[i].Some? && xs[i].value < minValue {
        minValue := xs[i].value;
        r := i;
      }
      i := i + 1;
    }
  }

  /** `[x] + c` for every combination `c`. */
  function PrependAll<D>(x: D, cs: seq<seq<D>>): (r: seq<seq<D>>)
    ensures |r| == |cs|
    ensures forall i :: 0 <= i < |cs| ==> r[i] == [x] + cs[i]
  {
    seq(|cs|, i requires 0 <= i < |cs| => [x] + cs[i])
  }

  /**
   * `list(itertools.combinations(xs, k))`: the choices of `k` positions of
   * `xs`, in lexicographic order of positions.
   */
  function Combinations<D>(xs: seq<D>, k: nat): (r: seq<seq<D>>)
    ensures k == 0 ==> r == [[]]
    ensures |xs| < k ==> r == []
    ensures forall i :: 0 <= i < |r| ==> |r[i]| == k
    decreases |xs|
  {
    if k == 0 then [[]]
    else if |xs| < k then []
    else PrependAll(xs[0], Combinations(xs[1..], k - 1)) + Combinations(xs[1..], k)
  }

  /**
   * Every combination has `k` members, drawn from `xs` without reusing a
   * position: as multisets, a combination is contained in `xs`.
   */
  lemma CombinationsShape<D>(xs: seq<D>, k: nat)
    ensures forall i :: 0 <= i < |Combinations(xs, k)| ==>
      |Combinations(xs, k)[i]| == k && multiset(Combinations(xs, k)[i]) <= multiset(xs)
  {
    forall i | 0 <= i < |Combinations(xs, k)|
      ensures multiset(Combinations(xs, k)[i]) <= multiset(xs)
    {
      CombinationWithin(xs, k, i);
    }
  }

  /** Combination `i` takes each member from a different position of `xs`. */
  lemma {:induction false} CombinationWithin<D>(xs: seq<D>, k: nat, i: nat)
    requires i < |Combinations(xs, k)|
    ensures multiset(Combinations(xs, k)[i]) <= multiset(xs)
    decreases |xs|
  {
    if k > 0 {
      var n := CombinationsSplit(xs, k, i);
      if i < n {
        CombinationWithin(xs[1..], k - 1, i);
        ConsWithin(xs, Combinations(xs[1..], k - 1)[i]);
      } else {
        CombinationWithin(xs[1..], k, i - n);
        TailWithin(xs, Combinations(xs[1..], k)[i - n]);
      }
    }
  }

  /**
   * Combination `i` of `xs` either puts the head before combination `i` of
   * the tail (the first `n` of them) or is combination `i - n` of the tail.
   */
  lemma CombinationsSplit<D>(xs: seq<D>, k: nat, i: nat) returns (n: nat)
    requires k > 0 && i < |Combinations(xs, k)|
    ensures |xs| > 0 && n == |Combinations(xs[1..], k - 1)|
    ensures i < n ==> Combinations(xs, k)[i] == [xs[0]] + Combinations(xs[1..], k - 1)[i]
    ensures n <= i ==> i - n < |Combinations(xs[1..], k)| && Combinations(xs, k)[i] == Combinations(xs[1..], k)[i - n]
  {
    n := |Combinations(xs[1..], k - 1)|;
  }

  /** A sub-multiset of the tail of `xs` is within `xs`. */
  lemma TailWithin<D>(xs: seq<D>, c: seq<D>)
    requires |xs| > 0 && multiset(c) <= multiset(xs[1..])
    ensures multiset(c) <= multiset(xs)
  {
    MultisetCons(xs);
  }

  /** Putting the head of `xs` in front of a sub-multiset of its tail stays within `xs`. */
  lemma ConsWithin<D>(xs: seq<D>, c: seq<D>)
    requires |xs| > 0 && multiset(c) <= multiset(xs[1..])
    ensures multiset([xs[0]] + c) <= multiset(xs)
  {
    MultisetCons(xs);
    MultisetCons([xs[0]] + c);
    assert ([xs[0]] + c)[1..] == c;
  }

  /** `idx` lists positions of `xs`, strictly increasing. */
  ghost predicate Positions<D>(xs: seq<D>, idx: seq<nat>) {
    && (forall a :: 0 <= a < |idx| ==> idx[a] < |xs|)
    && (forall a, b :: 0 <= a < b < |idx| ==> idx[a] < idx[b])
  }

  /** The members of `xs` at the positions `idx`, in that order. */
  ghost function Pick<D>(xs: seq<D>, idx: seq<nat>): (r: seq<D>)
    requires Positions(xs, idx)
    ensures |r| == |idx| && forall a :: 0 <= a < |idx| ==> r[a] == xs[idx[a]]
  {
    seq(|idx|, a requires 0 <= a < |idx| => xs[idx[a]])
  }

  /**
   * Every choice of `k` positions of `xs` appears among the combinations:
   * `itertools.combinations` leaves none out.
   */
  lemma {:induction false} CombinationsComplete<D>(xs: seq<D>, idx: seq<nat>)
    requires Positions(xs, idx)
    ensures Pick(xs, idx) in Combinations(xs, |idx|)
    decreases |xs|
  {
    var k := |idx|;
    if k == 0 {
      assert Pick(xs, idx) == [];
    } else if idx[0] == 0 {
      // the head is taken: the rest of the choice is a choice from the tail
      var idx' := seq(k - 1, a requires 0 <= a < k - 1 => idx[a + 1] - 1);
      TakeHead(xs, idx, idx');
      CombinationsComplete(xs[1..], idx');
      InFront(xs, k, Pick(xs[1..], idx'));
    } else {
      // the head is skipped: the whole choice is a choice from the tail
      var idx' := seq(k, a requires 0 <= a < k => idx[a] - 1);
      SkipHead(xs, idx, idx');
      CombinationsComplete(xs[1..], idx');
      InBack(xs, k, Pick(xs[1..], idx'));
    }
  }

  /** With at most `|xs|` members asked for, there is at least one combination: the first `k` positions. */
  lemma CombinationsNonEmpty<D>(xs: seq<D>, k: nat)
    requires k <= |xs|
    ensures |Combinations(xs, k)| > 0
  {
    var first := seq(k, a requires 0 <= a < k => a);
    CombinationsComplete(xs, first);
  }

  lemma TakeHead<D>(xs: seq<D>, idx: seq<nat>, idx': seq<nat>)
    requires Positions(xs, idx) && |idx| > 0 && idx[0] == 0
    requires |idx'| == |idx| - 1 && forall a :: 0 <= a < |idx'| ==> idx'[a] == idx[a + 1] - 1
    ensures |xs| > 0 && Positions(xs[1..], idx')
    ensures [xs[0]] + Pick(xs[1..], idx') == Pick(xs, idx)
  {
    assert idx[0] < |xs|;
    SeqExt([xs[0]] + Pick(xs[1..], idx'), Pick(xs, idx));
  }

  lemma SkipHead<D>(xs: seq<D>, idx: seq<nat>, idx': seq<nat>)
    requires Positions(xs, idx) && |idx| > 0 && idx[0] > 0
    requires |idx'| == |idx| && forall a :: 0 <= a < |idx'| ==> idx'[a] == idx[a] - 1
    ensures |xs| > 0 && Positions(xs[1..], idx')
    ensures Pick(xs[1..], idx') == Pick(xs, idx)
  {
    assert idx[0] < |xs|;
    assert forall a :: 0 <= a < |idx| ==> idx[0] <= idx[a];
    SeqExt(Pick(xs[1..], idx'), Pick(xs, idx));
  }

  /** A combination of the tail with the head put in front is a combination of the whole list. */
  lemma InFront<D>(xs: seq<D>, k: nat, c: seq<D>)
    requires |xs| > 0 && k > 0 && c in Combinations(xs[1..], k - 1)
    ensures [xs[0]] + c in Combinations(xs, k)
  {
    var shorter := Combinations(xs[1..], k - 1);
    var m :| 0 <= m < |shorter| && shorter[m] == c;
    var left := PrependAll(xs[0], shorter);
    assert Combinations(xs, k)[m] == left[m];
  }

  /** A combination of the tail is a combination of the whole list. */
  lemma InBack<D>(xs: seq<D>, k: nat, c: seq<D>)
    requires |xs| > 0 && k > 0 && c in Combinations(xs[1..], k)
    ensures c in Combinations(xs, k)
  {
    var longer := Combinations(xs[1..], k);
    var m :| 0 <= m < |longer| && longer[m] == c;
    var left := PrependAll(xs[0], Combinations(xs[1..], k - 1));
    assert Combinations(xs, k)[|left| + m] == longer[m];
  }

  /** No member of `chosen` occurs in `combo` (Python's `best_disrupt in disruption` is false for all). */
  predicate Disjoint<D(==)>(chosen: seq<D>, combo: seq<D>) {
    forall x :: x in chosen ==> x !in combo
  }

  /**
   * The inner `for ... break` of the strike-out loop: true as soon as a
   * member of `chosen` is found in `combo`.
   */
  method SharesAny<D(==)>(chosen: seq<D>, combo: seq<D>) returns (b: bool)
    ensures b <==> !Disjoint(chosen, combo)
  {
    var k := 0;
    while k < |chosen|
      invariant 0 <= k <= |chosen|
      invariant forall m :: 0 <= m < k ==> chosen[m] !in combo
    {
      if chosen[k] in combo {
        return true;
      }
      k := k + 1;
    }
    return false;
  }

  /** `xs.remove(x)`: drop the first occurrence; ValueError when there is none. */
  function RemoveFirst<D(==)>(xs: seq<D>, x: D): (r: Result<seq<D>>)
    ensures r.Ok? <==> x in xs
    ensures r.Err? ==> r.error == ValueError
    ensures r.Ok? ==> multiset(r.value) == multiset(xs) - multiset{x} && |r.value| == |xs| - 1
  {
    if xs == [] then Err(ValueError)
    else
      assert xs == [xs[0]] + xs[1..];
      if xs[0] == x then Ok(xs[1..])
      else
        match RemoveFirst(xs[1..], x)
        case Err(e) => Err(e)
        case Ok(rest) => Ok([xs[0]] + rest)
  }

  /**
   * `remove` takes out the first occurrence of `x` and keeps every other
   * member in its order.
   */
  lemma {:induction false} RemoveFirstAt<D>(xs: seq<D>, x: D) returns (i: nat)
    requires x in xs
    ensures i < |xs| && xs[i] == x && x !in xs[..i]
    ensures RemoveFirst(xs, x) == Ok(xs[..i] + xs[i + 1..])
    decreases |xs|
  {
    if xs[0] == x {
      i := 0;
      assert xs[..i] + xs[i + 1..] == xs[1..];
    } else {
      var tail := xs[1..];
      assert x in tail;
      var j := RemoveFirstAt(tail, x);
      i := j + 1;
      RemoveFirstSkips(xs, x);
      ConsSplice(xs, j);
    }
  }

  /** When the head is not `x`, `remove` keeps the head and removes from the tail. */
  lemma RemoveFirstSkips<D>(xs: seq<D>, x: D)
    requires |xs| > 0 && xs[0] != x && x in xs[1..]
    ensures RemoveFirst(xs, x) == Ok([xs[0]] + RemoveFirst(xs[1..], x).value)
  {
  }

  /** Cutting position `j + 1` out of `xs` is cutting position `j` out of its tail, behind the head. */
  lemma ConsSplice<D>(xs: seq<D>, j: nat)
    requires j + 1 < |xs|
    ensures xs[..j + 1] + xs[j + 2..] == [xs[0]] + (xs[1..][..j] + xs[1..][j + 1..])
  {
    assert xs[..j + 1] == [xs[0]] + xs[1..][..j];
    assert xs[j + 2..] == xs[1..][j + 1..];
  }

  /** The loop `for best_disrupt in combo: xs.remove(best_disrupt)`, one `remove` after another. */
  function RemoveAll<D(==)>(xs: seq<D>, combo: seq<D>): (r: Result<seq<D>>)
    ensures r.Err? ==> r.error == ValueError
    ensures r.Ok? ==> |r.value| == |xs| - |combo|
    decreases |combo|
  {
    if combo == [] then Ok(xs)
    else
      match RemoveFirst(xs, combo[0])
      case Err(e) => Err(e)
      case Ok(rest) => RemoveAll(rest, combo[1..])
  }

  /** A successful `remove` of `combo[j]` extends the removed prefix by one. */
  lemma RemovePrefixStep<D>(left: seq<D>, combo: seq<D>, j: nat, rest: seq<D>)
    requires j < |combo|
    requires multiset(combo[..j]) <= multiset(left)
    requires multiset(rest) == multiset(left) - multiset(combo[..j])
    requires combo[j] in rest
    ensures multiset(combo[..j + 1]) <= multiset(left)
    ensures multiset(rest) - multiset{combo[j]} == multiset(left) - multiset(combo[..j + 1])
  {
    assert combo[..j + 1] == combo[..j] + [combo[j]];
    assert multiset(combo[..j + 1]) == multiset(combo[..j]) + multiset{combo[j]};
    assert multiset(rest)[combo[j]] > 0;
  }

  /** A failed `remove` of `combo[j]` shows the combination is not contained in the list. */
  lemma RemovePrefixFails<D>(left: seq<D>, combo: seq<D>, j: nat, rest: seq<D>)
    requires j < |combo|
    requires multiset(rest) == multiset(left) - multiset(combo[..j])
    requires combo[j] !in rest
    ensures !(multiset(combo) <= multiset(left))
  {
    var x := combo[j];
    assert multiset(rest)[x] == 0;
    assert combo == combo[..j] + [x] + combo[j + 1..];
    assert multiset(combo) == multiset(combo[..j]) + multiset{x} + multiset(combo[j + 1..]);
    assert multiset(combo)[x] > multiset(left)[x];
  }

  /**
   * The loop `for best_disrupt in comb[...]: disruptions_left.remove(...)`:
   * it gets through exactly when the combination is contained in the list
   * as a multiset, and then removes one occurrence of each member.
   */
  method RemoveEach<D(==)>(left: seq<D>, combo: seq<D>) returns (r: Result<seq<D>>)
    ensures r.Ok? <==> multiset(combo) <= multiset(left)
    ensures r.Err? ==> r.error == ValueError
    ensures r.Ok? ==> multiset(r.value) == multiset(left) - multiset(combo)
    ensures r == RemoveAll(left, combo)
  {
    var rest := left;
    var j := 0;
    while j < |combo|
      invariant 0 <= j <= |combo|
      invariant multiset(combo[..j]) <= multiset(left)
      invariant multiset(rest) == multiset(left) - multiset(combo[..j])
      invariant RemoveAll(rest, combo[j..]) == RemoveAll(left, combo)
    {
      var step := RemoveFirst(rest, combo[j]);
      assert combo[j..][0] == combo[j] && combo[j..][1..] == combo[j + 1..];
      if step.Err? {
        RemovePrefixFails(left, combo, j, rest);
        return Err(ValueError);
      }
      RemovePrefixStep(left, combo, j, rest);
      rest := step.value;
      j := j + 1;
    }
    assert combo[..j] == combo;
    return Ok(rest);
  }

  /**
   * The first loop of the strike-out step: the indices, in order, of the
   * live combinations that share a member with `chosen`.
   */
  method SharingIndices<D(==)>(combosLeft: seq<Option<seq<D>>>, chosen: seq<D>) returns (removal: seq<nat>)
    ensures forall k :: 0 <= k < |removal| ==> removal[k] < |combosLeft|
    ensures forall i :: 0 <= i < |combosLeft| ==>
      (i in removal <==> combosLeft[i].Some? && !Disjoint(chosen, combosLeft[i].value))
  {
    removal := [];
    var index := 0;
    while index < |combosLeft|
      invariant 0 <= index <= |combosLeft|
      invariant forall k :: 0 <= k < |removal| ==> removal[k] < index
      invariant forall i :: 0 <= i < index ==>
        (i in removal <==> combosLeft[i].Some? && !Disjoint(chosen, combosLeft[i].value))
    {
      if combosLeft[index].Some? {
        var shares := SharesAny(chosen, combosLeft[index].value);
        if shares {
          removal := removal + [index];
        }
      }
      index := index + 1;
    }
  }

  /** The second loop of the strike-out step: `None` at every listed index, in both lists. */
  method ClearAt<D>(combosLeft: seq<Option<seq<D>>>, scoresLeft: seq<Option<int>>, removal: seq<nat>)
    returns (cs: seq<Option<seq<D>>>, ss: seq<Option<int>>)
    requires |combosLeft| == |scoresLeft|
    requires forall k :: 0 <= k < |removal| ==> removal[k] < |combosLeft|
    ensures |cs| == |combosLeft| && |ss| == |scoresLeft|
    ensures forall i :: 0 <= i < |cs| ==>
      cs[i] == (if i in removal then None else combosLeft[i]) &&
      ss[i] == (if i in removal then None else scoresLeft[i])
  {
    cs, ss := combosLeft, scoresLeft;
    var k := 0;
    while k < |removal|
      invariant 0 <= k <= |removal|
      invariant |cs| == |combosLeft| && |ss| == |scoresLeft|
      invariant forall i :: 0 <= i < |cs| ==>
        cs[i] == (if i in removal[..k] then None else combosLeft[i]) &&
        ss[i] == (if i in removal[..k] then None else scoresLeft[i])
    {
      assert removal[..k + 1] == removal[..k] + [removal[k]];
      cs := cs[removal[k] := None];
      ss := ss[removal[k] := None];
      k := k + 1;
    }
    assert removal[..k] == removal;
  }

  /** `sum([0 if x is None else 1 for x in disrupt_combos_left])`. */
  function LiveCount<D>(cs: seq<Option<seq<D>>>): (n: nat)
    ensures n <= |cs|
  {
    if cs == [] then 0 else (if cs[0].None? then 0 else 1) + LiveCount(cs[1..])
  }

  /** The count is positive exactly when some entry is not `None`. */
  lemma {:induction false} LiveCountPositive<D>(cs: seq<Option<seq<D>>>)
    ensures LiveCount(cs) > 0 <==> exists i :: 0 <= i < |cs| && cs[i].Some?
    decreases |cs|
  {
    if cs != [] {
      LiveCountPositive(cs[1..]);
      if cs[0].None? && exists i :: 0 <= i < |cs| && cs[i].Some? {
        var i :| 0 <= i < |cs| && cs[i].Some?;
        assert cs[1..][i - 1].Some?;
      }
      if exists i :: 0 <= i < |cs[1..]| && cs[1..][i].Some? {
        var i :| 0 <= i < |cs[1..]| && cs[1..][i].Some?;
        assert cs[i + 1].Some?;
      }
    }
  }

  /** Striking out entries, at least the one at `b`, lowers the count. */
  lemma {:induction false} LiveCountDrops<D>(a: seq<Option<seq<D>>>, c: seq<Option<seq<D>>>, b: nat)
    requires |a| == |c| && b < |a|
    requires forall i :: 0 <= i < |c| && c[i].Some? ==> a[i].Some?
    requires a[b].Some? && c[b].None?
    ensures LiveCount(c) < LiveCount(a)
    decreases |a|
  {
    if b == 0 {
      LiveCountLe(a[1..], c[1..]);
    } else {
      LiveCountDrops(a[1..], c[1..], b - 1);
    }
  }

  lemma {:induction false} LiveCountLe<D>(a: seq<Option<seq<D>>>, c: seq<Option<seq<D>>>)
    requires |a| == |c|
    requires forall i :: 0 <= i < |c| && c[i].Some? ==> a[i].Some?
    ensures LiveCount(c) <= LiveCount(a)
    decreases |a|
  {
    if a != [] {
      LiveCountLe(a[1..], c[1..]);
    }
  }

  // ---------------------------------------------------------------------
  // The state of the selection loop after the picks `best`, as a function
  // of the combinations and scores.

  /** Combination `i` shares no member with any combination picked so far. */
  ghost predicate Live<D>(comb: seq<seq<D>>, best: seq<nat>, i: nat)
    requires i < |comb|
  {
    forall q :: 0 <= q < |best| ==> best[q] < |comb| && Disjoint(comb[best[q]], comb[i])
  }

  /** `disrupt_combos_left` after the picks `best`. */
  ghost function CombosLeft<D>(comb: seq<seq<D>>, best: seq<nat>): (r: seq<Option<seq<D>>>)
    ensures |r| == |comb|
    ensures forall i :: 0 <= i < |comb| ==> (r[i].Some? <==> Live(comb, best, i))
    ensures forall i :: 0 <= i < |comb| && r[i].Some? ==> r[i].value == comb[i]
  {
    seq(|comb|, i requires 0 <= i < |comb| => if Live(comb, best, i) then Some(comb[i]) else None)
  }

  /** `scores_left` after the picks `best`. */
  ghost function ScoresLeft<D>(comb: seq<seq<D>>, scores: seq<int>, best: seq<nat>): (r: seq<Option<int>>)
    requires |scores| == |comb|
    ensures |r| == |comb|
    ensures forall i :: 0 <= i < |comb| ==> (r[i].Some? <==> Live(comb, best, i))
    ensures forall i :: 0 <= i < |comb| && r[i].Some? ==> r[i].value == scores[i]
  {
    seq(|comb|, i requires 0 <= i < |comb| => if Live(comb, best, i) then Some(scores[i]) else None)
  }

  /** The disruptions the picks take off the list, one occurrence per member of each pick. */
  ghost function Removed<D>(comb: seq<seq<D>>, best: seq<nat>): (r: multiset<D>)
    requires forall q :: 0 <= q < |best| ==> best[q] < |comb|
    ensures best == [] ==> r == multiset{}
    ensures forall q :: 0 <= q < |best| ==> multiset(comb[best[q]]) <= r
  {
    if best == [] then multiset{}
    else
      var front := best[..|best| - 1];
      assert forall q :: 0 <= q < |front| ==> front[q] == best[q];
      Removed(comb, front) + multiset(comb[best[|best| - 1]])
  }

  /**
   * `pick` is the choice of `min_index_with_none` after the picks `prefix`:
   * live, of minimal score among the live combinations, and the first such.
   */
  ghost predicate GreedyPick<D>(comb: seq<seq<D>>, scores: seq<int>, prefix: seq<nat>, pick: nat)
    requires |scores| == |comb|
  {
    && pick < |comb| && Live(comb, prefix, pick)
    && forall i :: 0 <= i < |comb| && Live(comb, prefix, i) ==>
         scores[pick] <= scores[i] && (scores[i] == scores[pick] ==> pick <= i)
  }

  /** Every pick is the greedy one given the picks before it. */
  ghost predicate Greedy<D>(comb: seq<seq<D>>, scores: seq<int>, best: seq<nat>)
    requires |scores| == |comb|
  {
    forall r :: 0 <= r < |best| ==> GreedyPick(comb, scores, best[..r], best[r])
  }

  /** Greedy picks are pairwise disjoint, hence also pairwise different. */
  lemma GreedyPicksDisjoint<D>(comb: seq<seq<D>>, scores: seq<int>, best: seq<nat>)
    requires |scores| == |comb|
    requires Greedy(comb, scores, best)
    ensures forall p, q :: 0 <= p < q < |best| ==>
      Disjoint(comb[best[p]], comb[best[q]]) && Disjoint(comb[best[q]], comb[best[p]])
  {
    forall p, q | 0 <= p < q < |best|
      ensures Disjoint(comb[best[p]], comb[best[q]]) && Disjoint(comb[best[q]], comb[best[p]])
    {
      assert GreedyPick(comb, scores, best[..q], best[q]);
      assert best[..q][p] == best[p];
    }
  }

  /** A combination sharing no member with any pick has no member among those removed. */
  lemma {:induction false} RemovedAvoidsLive<D>(comb: seq<seq<D>>, best: seq<nat>, i: nat)
    requires forall q :: 0 <= q < |best| ==> best[q] < |comb|
    requires i < |comb| && Live(comb, best, i)
    ensures forall x :: x in comb[i] ==> x !in Removed(comb, best)
    decreases |best|
  {
    if best != [] {
      var init := best[..|best| - 1];
      assert forall q :: 0 <= q < |init| ==> init[q] == best[q];
      RemovedAvoidsLive(comb, init, i);
      assert Disjoint(comb[best[|best| - 1]], comb[i]);
    }
  }

  /** One greedy round, from the state after `best` to the state after `best + [b]`. */
  lemma Step<D>(comb: seq<seq<D>>, scores: seq<int>, best: seq<nat>, b: nat, removal: seq<nat>,
                cs0: seq<Option<seq<D>>>, ss0: seq<Option<int>>, cs: seq<Option<seq<D>>>, ss: seq<Option<int>>)
    requires |scores| == |comb| && b < |comb| && |comb[b]| > 0
    requires forall q :: 0 <= q < |best| ==> best[q] < |comb|
    requires cs0 == CombosLeft(comb, best) && ss0 == ScoresLeft(comb, scores, best)
    requires ss0[b].Some?
    requires forall i :: 0 <= i < |cs0| ==> (i in removal <==> cs0[i].Some? && !Disjoint(comb[b], cs0[i].value))
    requires |cs| == |cs0| && |ss| == |ss0|
    requires forall i :: 0 <= i < |cs| ==>
      cs[i] == (if i in removal then None else cs0[i]) && ss[i] == (if i in removal then None else ss0[i])
    ensures cs == CombosLeft(comb, best + [b]) && ss == ScoresLeft(comb, scores, best + [b])
    ensures LiveCount(cs) < LiveCount(cs0)
  {
    var nb := best + [b];
    forall i | 0 <= i < |comb|
      ensures Live(comb, nb, i) <==> Live(comb, best, i) && Disjoint(comb[b], comb[i])
    {
      assert forall q :: 0 <= q < |best| ==> nb[q] == best[q];
      assert nb[|best|] == b;
    }
    assert comb[b][0] in comb[b];
    assert cs0[b] == Some(comb[b]);
    LiveCountDrops(cs0, cs, b);
  }

  /** Before any pick, every combination and every score is present. */
  lemma NothingPicked<D>(comb: seq<seq<D>>, scores: seq<int>)
    requires |scores| == |comb|
    ensures CombosLeft(comb, []) == seq(|comb|, i requires 0 <= i < |comb| => Some(comb[i]))
    ensures ScoresLeft(comb, scores, []) == seq(|scores|, i requires 0 <= i < |scores| => Some(scores[i]))
    ensures Removed(comb, []) == multiset{}
  {
  }

  /** While some combination is live, `scores_left` holds a score below `sys.maxsize`. */
  lemma PickExists<D>(comb: seq<seq<D>>, scores: seq<int>, best: seq<nat>)
    requires |scores| == |comb|
    requires forall i :: 0 <= i < |scores| ==> scores[i] < MaxSize
    requires LiveCount(CombosLeft(comb, best)) > 0
    ensures exists i :: 0 <= i < |comb| && ScoresLeft(comb, scores, best)[i].Some?
                        && ScoresLeft(comb, scores, best)[i].value < MaxSize
  {
    LiveCountPositive(CombosLeft(comb, best));
    var i :| 0 <= i < |comb| && CombosLeft(comb, best)[i].Some?;
    assert ScoresLeft(comb, scores, best)[i].Some?;
  }

  /** When the count of live combinations reaches zero, none is live. */
  lemma NoneLive<D>(comb: seq<seq<D>>, best: seq<nat>)
    requires LiveCount(CombosLeft(comb, best)) == 0
    ensures forall i :: 0 <= i < |comb| ==> !Live(comb, best, i)
  {
    LiveCountPositive(CombosLeft(comb, best));
    forall i | 0 <= i < |comb| ensures !Live(comb, best, i) {
      assert CombosLeft(comb, best)[i].None?;
    }
  }

  lemma RemovedSnoc<D>(comb: seq<seq<D>>, best: seq<nat>, b: nat)
    requires forall q :: 0 <= q < |best| ==> best[q] < |comb|
    requires b < |comb|
    ensures Removed(comb, best + [b]) == Removed(comb, best) + multiset(comb[b])
  {
    assert (best + [b])[..|best|] == best;
  }

  /** Removing a live pick's members from the remaining list keeps the list equal to the original less all picks. */
  lemma RemoveStep<D>(comb: seq<seq<D>>, best: seq<nat>, b: nat, dis: seq<D>, left: seq<D>)
    requires forall q :: 0 <= q < |best| ==> best[q] < |comb|
    requires b < |comb| && Live(comb, best, b) && multiset(comb[b]) <= multiset(dis)
    requires Removed(comb, best) <= multiset(dis)
    requires multiset(left) == multiset(dis) - Removed(comb, best)
    ensures multiset(comb[b]) <= multiset(left)
    ensures Removed(comb, best + [b]) <= multiset(dis)
    ensures multiset(left) - multiset(comb[b]) == multiset(dis) - Removed(comb, best + [b])
  {
    RemovedAvoidsLive(comb, best, b);
    RemovedSnoc(comb, best, b);
    forall x | x in comb[b] ensures Removed(comb, best)[x] == 0 {
      assert x !in Removed(comb, best);
    }
  }

  /** The index `min_index_with_none` returns on `scores_left` is the greedy pick, and extends a greedy run. */
  lemma GreedyExtend<D>(comb: seq<seq<D>>, scores: seq<int>, best: seq<nat>, b: nat)
    requires |scores| == |comb| && b < |comb|
    requires forall q :: 0 <= q < |best| ==> best[q] < |comb|
    requires Greedy(comb, scores, best)
    requires ScoresLeft(comb, scores, best)[b].Some?
    requires forall i :: 0 <= i < |comb| && ScoresLeft(comb, scores, best)[i].Some? ==>
      ScoresLeft(comb, scores, best)[b].value <= ScoresLeft(comb, scores, best)[i].value &&
      (ScoresLeft(comb, scores, best)[i].value == ScoresLeft(comb, scores, best)[b].value ==> b <= i)
    ensures Greedy(comb, scores, best + [b])
  {
    var nb := best + [b];
    assert nb[..|best|] == best;
    var ss := ScoresLeft(comb, scores, best);
    assert forall i :: 0 <= i < |comb| ==> (ss[i].Some? <==> Live(comb, best, i)) && (ss[i].Some? ==> ss[i].value == scores[i]);
    assert GreedyPick(comb, scores, best, b);
    forall r | 0 <= r < |nb| ensures GreedyPick(comb, scores, nb[..r], nb[r]) {
      if r < |best| {
        assert nb[..r] == best[..r] && nb[r] == best[r];
      }
    }
  }

  /** The properties the selection loop establishes for the picks `best` and the remaining list `left`. */
  ghost predicate Scheduled<D>(disruptions: seq<D>, comb: seq<seq<D>>, scores: seq<int>, best: seq<nat>, left: seq<D>)
    requires |scores| == |comb|
  {
    && (forall q :: 0 <= q < |best| ==> best[q] < |comb|)
    && Greedy(comb, scores, best)
    && (forall i :: 0 <= i < |comb| ==> !Live(comb, best, i))
    && Removed(comb, best) <= multiset(disruptions)
    && multiset(left) == multiset(disruptions) - Removed(comb, best)
  }

  /** The working state of the loop after the picks `best`. */
  ghost predicate LoopState<D>(disruptions: seq<D>, comb: seq<seq<D>>, scores: seq<int>, best: seq<nat>,
                               left: seq<D>, combosLeft: seq<Option<seq<D>>>, scoresLeft: seq<Option<int>>)
    requires |scores| == |comb|
  {
    && (forall q :: 0 <= q < |best| ==> best[q] < |comb|)
    && combosLeft == CombosLeft(comb, best)
    && scoresLeft == ScoresLeft(comb, scores, best)
    && Greedy(comb, scores, best)
    && Removed(comb, best) <= multiset(disruptions)
    && multiset(left) == multiset(disruptions) - Removed(comb, best)
  }

  /**
   * One round of the `while` loop: pick the best live combination, take its
   * members off the remaining list, strike out every live combination
   * sharing a member with it.
   */
  method PickNext<D(==)>(disruptions: seq<D>, comb: seq<seq<D>>, scores: seq<int>, ghost best: seq<nat>,
                         left: seq<D>, combosLeft: seq<Option<seq<D>>>, scoresLeft: seq<Option<int>>)
    returns (b: nat, left': seq<D>, combosLeft': seq<Option<seq<D>>>, scoresLeft': seq<Option<int>>)
    requires |scores| == |comb|
    requires forall i :: 0 <= i < |scores| ==> scores[i] < MaxSize
    requires forall i :: 0 <= i < |comb| ==> |comb[i]| > 0 && multiset(comb[i]) <= multiset(disruptions)
    requires LoopState(disruptions, comb, scores, best, left, combosLeft, scoresLeft)
    requires LiveCount(combosLeft) > 0
    ensures LoopState(disruptions, comb, scores, best + [b], left', combosLeft', scoresLeft')
    ensures LiveCount(combosLeft') < LiveCount(combosLeft)
  {
    PickExists(comb, scores, best);
    var index := MinIndexWithNone(scoresLeft);
    b := index;
    GreedyExtend(comb, scores, best, b);

    // take the picked combination's members off the remaining list
    RemoveStep(comb, best, b, disruptions, left);
    var next := RemoveEach(left, comb[b]);
    left' := next.value;

    // strike out every live combination sharing a member with the pick
    var removal := SharingIndices(combosLeft, comb[b]);
    combosLeft', scoresLeft' := ClearAt(combosLeft, scoresLeft, removal);
    Step(comb, scores, best, b, removal, combosLeft, scoresLeft, combosLeft', scoresLeft');
  }

  /**
   * The `while` loop of `schedule_disruptions` (with `comb` the combinations
   * and `scores` their scores): picks greedily until no combination is live.
   */
  method SelectGreedily<D(==)>(disruptions: seq<D>, comb: seq<seq<D>>, scores: seq<int>)
    returns (best: seq<nat>, left: seq<D>)
    requires |scores| == |comb|
    requires forall i :: 0 <= i < |scores| ==> scores[i] < MaxSize
    requires forall i :: 0 <= i < |comb| ==> |comb[i]| > 0 && multiset(comb[i]) <= multiset(disruptions)
    ensures Scheduled(disruptions, comb, scores, best, left)
  {
    left := disruptions;
    var combosLeft := seq(|comb|, i requires 0 <= i < |comb| => Some(comb[i]));
    var scoresLeft := seq(|scores|, i requires 0 <= i < |scores| => Some(scores[i]));
    best := [];
    NothingPicked(comb, scores);
    while LiveCount(combosLeft) > 0
      invariant LoopState(disruptions, comb, scores, best, left, combosLeft, scoresLeft)
      decreases LiveCount(combosLeft)
    {
      var b;
      b, left, combosLeft, scoresLeft := PickNext(disruptions, comb, scores, best, left, combosLeft, scoresLeft);
      best := best + [b];
    }
    NoneLive(comb, best);
  }

  /**
   * `schedule_disruptions(disruptions, max_at_once)` once the scores are
   * known, with `scores[i]` the score of the `i`-th combination. Returns the
   * picked combination indices (`best_indices`) and `disruptions_left`.
   *
   * The picks are greedy, and leave no live combination (so, by
   * GreedyPicksDisjoint, they are pairwise disjoint); every `remove`
   * succeeds, so the remaining disruptions are exactly the original ones
   * less one occurrence of each member of each pick.
   */
  method ScheduleDisruptions<D(==)>(disruptions: seq<D>, maxAtOnce: int, scores: seq<int>)
    returns (r: Result<(seq<nat>, seq<D>)>)
    requires 1 < maxAtOnce < |disruptions| ==> |scores| == |Combinations(disruptions, maxAtOnce)|
    requires forall i :: 0 <= i < |scores| ==> scores[i] < MaxSize
    ensures r.Err? <==> !(1 < maxAtOnce < |disruptions|)
    ensures r.Err? ==> r.error == AssertionError
    ensures r.Ok? ==> Scheduled(disruptions, Combinations(disruptions, maxAtOnce), scores, r.value.0, r.value.1)
  {
    if !(1 < maxAtOnce < |disruptions|) {
      return Err(AssertionError);
    }
    var comb := Combinations(disruptions, maxAtOnce);
    CombinationsShape(disruptions, maxAtOnce);
    var best, left := SelectGreedily(disruptions, comb, scores);
    return Ok((best, left));
  }
}
