/**
 The greedy shard selection of the web UI font build: pick, again and again, the
 shard that adds most uncovered codepoints (then the smaller file, then the
 smaller path) until every required codepoint is covered.
 */
module FontShards {
  import opened TextOrder

  datatype FontShard = FontShard(path: string, sizeBytes: int, coverage: set<int>)

  /** The list of selected shards, or the codepoints no shard covers. */
  datatype Selection = Selected(shards: seq<FontShard>) | Uncoverable(missing: set<int>)

  function Gain(shard: FontShard, uncovered: set<int>): set<int> {
    shard.coverage * uncovered
  }

  predicate IsBetterShard(candidate: FontShard, candidateGain: set<int>,
                          incumbent: FontShard, incumbentGain: set<int>)
  {
    if |candidateGain| != |incumbentGain| then |candidateGain| > |incumbentGain|
    else if candidate.sizeBytes != incumbent.sizeBytes then candidate.sizeBytes < incumbent.sizeBytes
    else Less(candidate.path, incumbent.path)
  }

  function Union(shards: seq<FontShard>): set<int> {
    set s, c | s in shards && c in s.coverage :: c
  }

  function RemoveFirst(shards: seq<FontShard>, shard: FontShard): seq<FontShard> {
    if shards == [] then []
    else if shards[0] == shard then shards[1..]
    else [shards[0]] + RemoveFirst(shards[1..], shard)
  }

  // ---------- specification ----------

  /** No shard of the whole input list beats `best` on the codepoints still uncovered. */
  ghost predicate IsBestShard(best: FontShard, shards: seq<FontShard>, uncovered: set<int>) {
    && best in shards
    && Gain(best, uncovered) != {}
    && forall s | s in shards && Gain(s, uncovered) != {} ::
         !IsBetterShard(s, Gain(s, uncovered), best, Gain(best, uncovered))
  }

  /** `picks` are best shards one after the other, leading from `uncovered` to `left`. */
  ghost predicate IsGreedyTrace(shards: seq<FontShard>, uncovered: set<int>, picks: seq<FontShard>, left: set<int>) {
    if picks == [] then left == uncovered
    else
      && IsBestShard(picks[0], shards, uncovered)
      && IsGreedyTrace(shards, uncovered - picks[0].coverage, picks[1..], left)
  }

  /** A finished greedy run, or the non-empty set of required codepoints that no shard covers. */
  ghost predicate IsSelection(required: set<int>, shards: seq<FontShard>, result: Selection) {
    match result
    case Selected(picks) => IsGreedyTrace(shards, required, picks, {})
    case Uncoverable(missing) => missing == required - Union(shards) != {}
  }

  /** The codepoints each pick newly covers. */
  ghost function Gains(uncovered: set<int>, picks: seq<FontShard>): (gains: seq<set<int>>)
    ensures |gains| == |picks|
  {
    if picks == [] then []
    else [Gain(picks[0], uncovered)] + Gains(uncovered - picks[0].coverage, picks[1..])
  }

  /** If the incumbent did not lose to s and the candidate beats the incumbent, s does not beat the candidate. */
  lemma BetterIsOrder(s: FontShard, sGain: set<int>, i: FontShard, iGain: set<int>, c: FontShard, cGain: set<int>)
    requires !IsBetterShard(s, sGain, i, iGain)
    requires IsBetterShard(c, cGain, i, iGain)
    ensures !IsBetterShard(s, sGain, c, cGain)
  {
    TotalOrder(s.path, i.path);
    TotalOrder(s.path, c.path);
    if Less(s.path, c.path) && Less(c.path, i.path) {
      Transitive(s.path, c.path, i.path);
    }
  }

  // ---------- the loop ----------

  lemma {:induction false} TraceSnoc(shards: seq<FontShard>, uncovered: set<int>, picks: seq<FontShard>, left: set<int>,
                                     next: FontShard)
    requires IsGreedyTrace(shards, uncovered, picks, left)
    requires IsBestShard(next, shards, left)
    ensures IsGreedyTrace(shards, uncovered, picks + [next], left - next.coverage)
  {
    var all := picks + [next];
    if picks == [] {
      assert all[1..] == [];
    } else {
      assert all[1..] == picks[1..] + [next];
      TraceSnoc(shards, uncovered - picks[0].coverage, picks[1..], left, next);
    }
  }

  lemma {:induction false} RemoveFirstKeepsOthers(shards: seq<FontShard>, shard: FontShard)
    ensures forall s | s in shards :: s == shard || s in RemoveFirst(shards, shard)
    ensures forall s | s in RemoveFirst(shards, shard) :: s in shards
  {
    if shards != [] && shards[0] != shard {
      RemoveFirstKeepsOthers(shards[1..], shard);
    }
  }

  lemma {:induction false} TraceStaysCovered(shards: seq<FontShard>, uncovered: set<int>, picks: seq<FontShard>,
                                             left: set<int>)
    requires IsGreedyTrace(shards, uncovered, picks, left)
    ensures left <= uncovered
    ensures uncovered - left <= Union(shards)
  {
    if picks != [] {
      TraceStaysCovered(shards, uncovered - picks[0].coverage, picks[1..], left);
      forall c | c in uncovered && c !in left ensures c in Union(shards) {
        assert c in picks[0].coverage || c in uncovered - picks[0].coverage;
      }
    }
  }

  lemma NoGainMeansUncovered(shards: seq<FontShard>, uncovered: set<int>)
    requires forall s | s in shards :: Gain(s, uncovered) == {}
    ensures uncovered !! Union(shards)
  {
    forall s, c | s in shards && c in s.coverage ensures c !in uncovered {
      assert c in uncovered ==> c in Gain(s, uncovered);
    }
  }

  /** Selects shards until everything is covered, or reports exactly what no shard covers. */
  method SelectFontShards(required: set<int>, shards: seq<FontShard>) returns (result: Selection)
    ensures IsSelection(required, shards, result)
    ensures result.Selected? <==> required <= Union(shards)
  {
    var uncovered := required;
    var remaining := shards;
    var selected: seq<FontShard> := [];
    while uncovered != {}
      invariant IsGreedyTrace(shards, required, selected, uncovered)
      invariant forall s | s in remaining :: s in shards
      invariant forall s | s in shards :: s in remaining || Gain(s, uncovered) == {}
      decreases uncovered
    {
      var found := false;
      var best := FontShard("", 0, {});
      var bestGain: set<int> := {};
      var i := 0;
      while i < |remaining|
        invariant 0 <= i <= |remaining|
        invariant !found ==> forall s | s in remaining[..i] :: Gain(s, uncovered) == {}
        invariant found ==> best in remaining && bestGain == Gain(best, uncovered) != {}
        invariant found ==> forall s | s in remaining[..i] && Gain(s, uncovered) != {} ::
                      !IsBetterShard(s, Gain(s, uncovered), best, bestGain)
      {
        var shard := remaining[i];
        assert remaining[..i + 1] == remaining[..i] + [shard];
        var gain := Gain(shard, uncovered);
        i := i + 1;
        if gain == {} {
          continue;
        }
        if !found || IsBetterShard(shard, gain, best, bestGain) {
          TotalOrder(shard.path, shard.path);
          if found {
            forall s | s in remaining[..i - 1] && Gain(s, uncovered) != {}
              ensures !IsBetterShard(s, Gain(s, uncovered), shard, gain)
            {
              BetterIsOrder(s, Gain(s, uncovered), best, bestGain, shard, gain);
            }
          }
          found, best, bestGain := true, shard, gain;
        }
      }
      assert remaining[..i] == remaining;
      if !found {
        TraceStaysCovered(shards, required, selected, uncovered);
        NoGainMeansUncovered(shards, uncovered);
        return Uncoverable(uncovered);
      }
      assert IsBestShard(best, shards, uncovered);
      TraceSnoc(shards, required, selected, uncovered, best);
      RemoveFirstKeepsOthers(remaining, best);
      selected := selected + [best];
      assert uncovered - bestGain == uncovered - best.coverage;
      uncovered := uncovered - bestGain;
      remaining := RemoveFirst(remaining, best);
    }
    TraceStaysCovered(shards, required, selected, uncovered);
    return Selected(selected);
  }

  // ---------- the gains partition the required codepoints ----------

  ghost function TotalSize(gains: seq<set<int>>): nat {
    if gains == [] then 0 else |gains[0]| + TotalSize(gains[1..])
  }

  lemma SubsetSize(a: set<int>, b: set<int>)
    requires a <= b
    ensures |a| <= |b|
    ensures |b - a| == |b| - |a|
  {
    assert b == a + (b - a);
  }

  ghost function Flatten(gains: seq<set<int>>): set<int> {
    if gains == [] then {} else gains[0] + Flatten(gains[1..])
  }

  lemma {:induction false} GainsSum(shards: seq<FontShard>, uncovered: set<int>, picks: seq<FontShard>, left: set<int>)
    requires IsGreedyTrace(shards, uncovered, picks, left)
    ensures Flatten(Gains(uncovered, picks)) + left == uncovered
    ensures TotalSize(Gains(uncovered, picks)) + |left| == |uncovered|
  {
    if picks != [] {
      hide IsBestShard;
      var rest := uncovered - picks[0].coverage;
      GainsSum(shards, rest, picks[1..], left);
      assert Gains(uncovered, picks)[1..] == Gains(rest, picks[1..]);
      assert uncovered - Gain(picks[0], uncovered) == rest;
      SubsetSize(Gain(picks[0], uncovered), uncovered);
    }
  }

  lemma {:induction false} GainsInOrder(shards: seq<FontShard>, uncovered: set<int>, picks: seq<FontShard>,
                                        left: set<int>, i: nat, j: nat)
    requires IsGreedyTrace(shards, uncovered, picks, left)
    requires i < j < |picks|
    ensures Gains(uncovered, picks)[i] != {}
    ensures Gains(uncovered, picks)[j] != {}
    ensures Gains(uncovered, picks)[i] !! Gains(uncovered, picks)[j]
    ensures |Gains(uncovered, picks)[i]| >= |Gains(uncovered, picks)[j]|
  {
    var rest := uncovered - picks[0].coverage;
    if i > 0 {
      GainsInOrder(shards, rest, picks[1..], left, i - 1, j - 1);
    } else {
      GainAt(shards, rest, picks[1..], left, j - 1);
      var later := Gains(rest, picks[1..])[j - 1];
      assert later == Gains(uncovered, picks)[j];
      SubsetSize(later, Gain(picks[j], uncovered));
    }
  }

  /**
   The gains of a finished run are non-empty, pairwise disjoint, have exactly the
   required codepoints as their elements and as their total count, and never grow.
   */
  lemma GainsPartition(shards: seq<FontShard>, required: set<int>, picks: seq<FontShard>)
    requires IsGreedyTrace(shards, required, picks, {})
    ensures forall i | 0 <= i < |picks| :: Gains(required, picks)[i] != {}
    ensures forall i, j | 0 <= i < j < |picks| ::
              && Gains(required, picks)[i] !! Gains(required, picks)[j]
              && |Gains(required, picks)[i]| >= |Gains(required, picks)[j]|
    ensures Flatten(Gains(required, picks)) == required
    ensures TotalSize(Gains(required, picks)) == |required|
  {
    forall i | 0 <= i < |picks| ensures Gains(required, picks)[i] != {} {
      GainAt(shards, required, picks, {}, i);
    }
    forall i, j | 0 <= i < j < |picks|
      ensures Gains(required, picks)[i] !! Gains(required, picks)[j]
      ensures |Gains(required, picks)[i]| >= |Gains(required, picks)[j]|
    {
      GainsInOrder(shards, required, picks, {}, i, j);
    }
    GainsSum(shards, required, picks, {});
  }

  lemma {:induction false} GainAt(shards: seq<FontShard>, uncovered: set<int>, picks: seq<FontShard>,
                                  left: set<int>, j: nat)
    requires IsGreedyTrace(shards, uncovered, picks, left) && j < |picks|
    ensures picks[j] in shards
    ensures {} != Gains(uncovered, picks)[j] <= Gain(picks[j], uncovered)
  {
    if j > 0 {
      GainAt(shards, uncovered - picks[0].coverage, picks[1..], left, j - 1);
    }
  }

  // ---------- which shard is picked ----------

  /** The codepoints still uncovered after some picks. */
  ghost function StillUncovered(required: set<int>, picks: seq<FontShard>): set<int> {
    required - Union(picks)
  }

  /** s covers no more of what is open, not as much in fewer bytes, and not as much in as many at an earlier path. */
  ghost predicate NotBeatenBy(pick: FontShard, s: FontShard, open: set<int>) {
    && |s.coverage * open| <= |pick.coverage * open|
    && (|s.coverage * open| == |pick.coverage * open| ==> pick.sizeBytes <= s.sizeBytes)
    && (|s.coverage * open| == |pick.coverage * open| && s.sizeBytes == pick.sizeBytes ==> !Less(s.path, pick.path))
  }

  lemma BestIsNotBeaten(shards: seq<FontShard>, open: set<int>, pick: FontShard, s: FontShard)
    requires IsBestShard(pick, shards, open) && s in shards
    ensures NotBeatenBy(pick, s, open) && pick in shards && pick.coverage * open != {}
  {
    assert |s.coverage * open| == 0 <==> Gain(s, open) == {};
  }

  /** Every pick is an input shard that covers something still uncovered, and no input shard is a better one. */
  lemma {:induction false} EveryPickIsBest(shards: seq<FontShard>, required: set<int>, picks: seq<FontShard>,
                                           left: set<int>, k: nat, s: FontShard)
    requires IsGreedyTrace(shards, required, picks, left) && k < |picks| && s in shards
    ensures
      var open, pick := StillUncovered(required, picks[..k]), picks[k];
      pick in shards && pick.coverage * open != {} && NotBeatenBy(pick, s, open)
  {
    hide NotBeatenBy, IsBestShard;
    if k == 0 {
      assert StillUncovered(required, picks[..0]) == required;
      BestIsNotBeaten(shards, required, picks[0], s);
    } else {
      var rest := required - picks[0].coverage;
      hide StillUncovered;
      EveryPickIsBest(shards, rest, picks[1..], left, k - 1, s);
      UncoveredCons(required, picks[..k]);
      assert picks[..k][1..] == picks[1..][..k - 1];
    }
  }

  lemma UncoveredCons(required: set<int>, picks: seq<FontShard>)
    requires picks != []
    ensures StillUncovered(required, picks) == StillUncovered(required - picks[0].coverage, picks[1..])
  {
    assert picks == [picks[0]] + picks[1..];
    UnionCons(picks[0], picks[1..]);
  }

  lemma UnionCons(first: FontShard, rest: seq<FontShard>)
    ensures Union([first] + rest) == first.coverage + Union(rest)
  {
    forall c ensures c in Union([first] + rest) <==> c in first.coverage + Union(rest) {
      if c in first.coverage {
        assert first in [first] + rest;
      }
      if s :| s in rest && c in s.coverage {
        assert s in [first] + rest;
      }
    }
  }

  /** Of two files that cover the one required codepoint, the smaller one is selected. */
  lemma SmallerFileIsSelected(a: FontShard, b: FontShard, c: int, result: Selection)
    requires a.coverage == b.coverage == {c} && a.sizeBytes > b.sizeBytes
    requires IsSelection({c}, [a, b], result)
    ensures result == Selected([b])
  {
    assert c in Union([a, b]) by {
      assert a in [a, b] && c in a.coverage;
    }
    var picks := result.shards;
    EveryPickIsBest([a, b], {c}, picks, {}, 0, b);
    assert b.coverage * StillUncovered({c}, picks[..0]) == a.coverage * StillUncovered({c}, picks[..0]);
    assert picks[0] == b && {c} - b.coverage == {};
    NothingLeftToPick([a, b], picks[1..], {});
  }

  lemma NothingLeftToPick(shards: seq<FontShard>, picks: seq<FontShard>, left: set<int>)
    requires IsGreedyTrace(shards, {}, picks, left)
    ensures picks == []
  {
  }

  // ---------- the order of the input list does not matter ----------

  ghost predicate DistinctPaths(shards: seq<FontShard>) {
    forall s, t | s in shards && t in shards && s.path == t.path :: s == t
  }

  lemma {:induction false} TraceIsUnique(shards: seq<FontShard>, shuffled: seq<FontShard>, uncovered: set<int>,
                                         picks: seq<FontShard>, others: seq<FontShard>)
    requires forall s :: s in shards <==> s in shuffled
    requires DistinctPaths(shards)
    requires IsGreedyTrace(shards, uncovered, picks, {})
    requires IsGreedyTrace(shuffled, uncovered, others, {})
    ensures picks == others
  {
    if picks == [] || others == [] {
      if picks != [] {
        TraceStaysCovered(shards, uncovered, picks, {});
      }
    } else {
      TotalOrder(picks[0].path, others[0].path);
      assert picks[0] == others[0];
      TraceIsUnique(shards, shuffled, uncovered - picks[0].coverage, picks[1..], others[1..]);
      assert picks == [picks[0]] + picks[1..] && others == [others[0]] + others[1..];
    }
  }

  /** Whatever the order (or repetition) of the input, distinct paths leave only one possible result. */
  lemma SelectionIgnoresInputOrder(required: set<int>, shards: seq<FontShard>, shuffled: seq<FontShard>,
                                   result: Selection, other: Selection)
    requires forall s :: s in shards <==> s in shuffled
    requires DistinctPaths(shards)
    requires IsSelection(required, shards, result)
    requires IsSelection(required, shuffled, other)
    ensures result == other
  {
    assert Union(shards) == Union(shuffled);
    if result.Selected? {
      TraceStaysCovered(shards, required, result.shards, {});
    }
    if other.Selected? {
      TraceStaysCovered(shuffled, required, other.shards, {});
    }
    if result.Selected? && other.Selected? {
      TraceIsUnique(shards, shuffled, required, result.shards, other.shards);
    }
  }

  // ---------- the harmonic approximation bound ----------

  ghost function Harmonic(n: nat): real {
    if n == 0 then 0.0 else Harmonic(n - 1) + 1.0 / (n as real)
  }

  /** What a rival cover still has to pay: the harmonic number of each member's uncovered share. */
  ghost function Potential(cover: seq<FontShard>, uncovered: set<int>): real {
    if cover == [] then 0.0
    else Harmonic(|Gain(cover[0], uncovered)|) + Potential(cover[1..], uncovered)
  }

  /** The share of `gain` each cover member accounts for, counted with repetition. */
  ghost function Shares(cover: seq<FontShard>, gain: set<int>): nat {
    if cover == [] then 0 else |Gain(cover[0], gain)| + Shares(cover[1..], gain)
  }

  lemma {:induction false} SharesCover(cover: seq<FontShard>, gain: set<int>)
    requires gain <= Union(cover)
    ensures Shares(cover, gain) >= |gain|
  {
    if cover == [] {
      assert gain == {};
    } else {
      var mine := Gain(cover[0], gain);
      var rest := gain - cover[0].coverage;
      forall c | c in rest ensures c in Union(cover[1..]) {
        var s :| s in cover && c in s.coverage;
        assert s in cover[1..];
      }
      SharesCover(cover[1..], rest);
      SharesMonotone(cover[1..], rest, gain);
      assert gain - mine == rest;
      SubsetSize(mine, gain);
    }
  }

  lemma {:induction false} SharesMonotone(cover: seq<FontShard>, small: set<int>, large: set<int>)
    requires small <= large
    ensures Shares(cover, small) <= Shares(cover, large)
  {
    if cover != [] {
      SubsetSize(Gain(cover[0], small), Gain(cover[0], large));
      SharesMonotone(cover[1..], small, large);
    }
  }

  lemma UnitFractions(n: nat, g: nat)
    requires 0 < n <= g
    ensures 1.0 / n as real >= 1.0 / g as real
  {
    var x, y := n as real, g as real;
    assert 1.0 / x - 1.0 / y == (y - x) / (x * y);
  }

  /** Dropping from n to m uncovered codepoints pays at least (n - m)/g, for any g >= n. */
  lemma {:induction false} HarmonicDrop(m: nat, n: nat, g: nat)
    requires m <= n <= g && g > 0
    ensures Harmonic(n) - Harmonic(m) >= (n - m) as real / g as real
  {
    if m < n {
      HarmonicDrop(m, n - 1, g);
      UnitFractions(n, g);
      assert (n - m) as real / g as real == (n - 1 - m) as real / g as real + 1.0 / (g as real);
    }
  }

  lemma {:induction false} PotentialDrop(cover: seq<FontShard>, uncovered: set<int>, gain: set<int>)
    requires gain <= uncovered && gain != {}
    requires forall s | s in cover :: |Gain(s, uncovered)| <= |gain|
    ensures Potential(cover, uncovered) - Potential(cover, uncovered - gain) >=
            Shares(cover, gain) as real / |gain| as real
  {
    if cover != [] {
      var s := cover[0];
      PotentialDrop(cover[1..], uncovered, gain);
      assert Gain(s, uncovered) - Gain(s, gain) == Gain(s, uncovered - gain);
      SubsetSize(Gain(s, gain), Gain(s, uncovered));
      HarmonicDrop(|Gain(s, uncovered - gain)|, |Gain(s, uncovered)|, |gain|);
      AddFractions(|Gain(s, gain)|, Shares(cover[1..], gain), |gain|);
    }
  }

  lemma AddFractions(a: nat, b: nat, g: nat)
    requires g > 0
    ensures (a + b) as real / g as real == a as real / g as real + b as real / g as real
  {
  }

  lemma {:induction false} PotentialNonNegative(cover: seq<FontShard>, uncovered: set<int>)
    ensures Potential(cover, uncovered) >= 0.0
  {
    if cover != [] {
      HarmonicMonotone(0, |Gain(cover[0], uncovered)|);
      PotentialNonNegative(cover[1..], uncovered);
    }
  }

  lemma {:induction false} HarmonicMonotone(m: nat, n: nat)
    requires m <= n
    ensures Harmonic(m) <= Harmonic(n)
  {
    if m < n {
      HarmonicMonotone(m, n - 1);
      assert 1.0 / (n as real) >= 0.0;
    }
  }

  /** Every pick pays for itself out of the potential of any rival cover. */
  lemma {:induction false} GreedyPaysFromPotential(shards: seq<FontShard>, uncovered: set<int>, picks: seq<FontShard>,
                                                   cover: seq<FontShard>)
    requires IsGreedyTrace(shards, uncovered, picks, {})
    requires forall s | s in cover :: s in shards
    requires uncovered <= Union(cover)
    ensures |picks| as real <= Potential(cover, uncovered)
  {
    if picks == [] {
      PotentialNonNegative(cover, uncovered);
    } else {
      var gain := Gain(picks[0], uncovered);
      var rest := uncovered - picks[0].coverage;
      assert rest == uncovered - gain;
      GreedyPaysFromPotential(shards, rest, picks[1..], cover);
      forall s | s in cover ensures |Gain(s, uncovered)| <= |gain| {
        assert s in shards;
      }
      PotentialDrop(cover, uncovered, gain);
      SharesCover(cover, gain);
      AtLeastOne(Shares(cover, gain), |gain|);
    }
  }

  lemma AtLeastOne(a: nat, g: nat)
    requires a >= g > 0
    ensures a as real / g as real >= 1.0
  {
  }

  lemma {:induction false} PotentialBound(cover: seq<FontShard>, uncovered: set<int>, d: nat)
    requires forall s | s in cover :: |Gain(s, uncovered)| <= d
    ensures Potential(cover, uncovered) <= Harmonic(d) * |cover| as real
  {
    if cover != [] {
      HarmonicMonotone(|Gain(cover[0], uncovered)|, d);
      PotentialBound(cover[1..], uncovered, d);
      OneMore(Harmonic(d), |cover| - 1);
    }
  }

  lemma OneMore(x: real, n: nat)
    ensures x * (n + 1) as real == x + x * n as real
  {
  }

  /** A rival: input shards that together hold every required codepoint. */
  ghost predicate IsCover(cover: seq<FontShard>, shards: seq<FontShard>, required: set<int>) {
    (forall s | s in cover :: s in shards) && required <= Union(cover)
  }

  /**
   The classical guarantee. Against every cover the input offers, the selection is at
   most H(d) times as long, where d bounds the members' shares of the required codepoints.
   */
  lemma GreedyWithinHarmonic(shards: seq<FontShard>, required: set<int>, picks: seq<FontShard>,
                             cover: seq<FontShard>, d: nat)
    requires IsGreedyTrace(shards, required, picks, {})
    requires IsCover(cover, shards, required)
    requires forall s | s in cover :: |Gain(s, required)| <= d
    ensures |picks| as real <= Harmonic(d) * |cover| as real
  {
    hide Harmonic, Potential, Gain;
    GreedyPaysFromPotential(shards, required, picks, cover);
    PotentialBound(cover, required, d);
  }

  lemma SharesBounded(cover: seq<FontShard>, required: set<int>)
    ensures forall s | s in cover :: |Gain(s, required)| <= |required|
  {
    forall s | s in cover ensures |Gain(s, required)| <= |required| {
      SubsetSize(Gain(s, required), required);
    }
  }

  /** In particular at most H(|required|) times as long. */
  lemma GreedyApproximation(shards: seq<FontShard>, required: set<int>, picks: seq<FontShard>, cover: seq<FontShard>)
    requires IsGreedyTrace(shards, required, picks, {})
    requires IsCover(cover, shards, required)
    ensures |picks| as real <= Harmonic(|required|) * |cover| as real
  {
    hide Harmonic, IsGreedyTrace, IsCover, Gain;
    SharesBounded(cover, required);
    GreedyWithinHarmonic(shards, required, picks, cover, |required|);
  }
}
