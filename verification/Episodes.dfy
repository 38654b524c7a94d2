// Alarm episodes: flagged windows merged while no gap exceeds the cooldown, counted over merged
// stream positions or over the stream with the attack rows excised.
module Episodes {
  import opened Sequences

  /** np.flatnonzero */
  function FlatNonzero(flags: seq<bool>): seq<int> {
    if flags == [] then []
    else FlatNonzero(flags[..|flags| - 1]) + if flags[|flags| - 1] then [|flags| - 1] else []
  }

  /** np.sum(np.diff(idx) > cooldown) */
  function Gaps(idx: seq<int>, cooldown: int): nat {
    if |idx| <= 1 then 0
    else Gaps(idx[..|idx| - 1], cooldown) + if idx[|idx| - 1] - idx[|idx| - 2] > cooldown then 1 else 0
  }

  function CountEpisodes(idx: seq<int>, cooldown: int): nat {
    if idx == [] then 0 else 1 + Gaps(idx, cooldown)
  }

  /** episodes(): over a flag vector. */
  function Episodes(flags: seq<bool>, cooldown: int): nat {
    CountEpisodes(FlatNonzero(flags), cooldown)
  }

  function PositionKey(p: int): real {
    p as real
  }

  /** episodes_at(): over stream positions, in any order. */
  function EpisodesAt(positions: seq<int>, cooldown: int): nat {
    CountEpisodes(Sort(positions, PositionKey), cooldown)
  }

  function StartsAfterFirst(idx: seq<int>, cooldown: int): seq<int> {
    if |idx| <= 1 then []
    else
      StartsAfterFirst(idx[..|idx| - 1], cooldown)
      + if idx[|idx| - 1] - idx[|idx| - 2] > cooldown then [idx[|idx| - 1]] else []
  }

  /** episode_starts() */
  function EpisodeStarts(positions: seq<int>, cooldown: int): seq<int> {
    var idx := Sort(positions, PositionKey);
    if idx == [] then [] else [idx[0]] + StartsAfterFirst(idx, cooldown)
  }

  predicate Increasing(idx: seq<int>) {
    forall i, j :: 0 <= i < j < |idx| ==> idx[i] < idx[j]
  }

  lemma {:induction false} StartsMatchGaps(idx: seq<int>, cooldown: int)
    ensures |StartsAfterFirst(idx, cooldown)| == Gaps(idx, cooldown)
  {
    if |idx| > 1 {
      StartsMatchGaps(idx[..|idx| - 1], cooldown);
    }
  }

  /** One start per episode. */
  lemma StartsAreEpisodes(positions: seq<int>, cooldown: int)
    ensures |EpisodeStarts(positions, cooldown)| == EpisodesAt(positions, cooldown)
  {
    StartsMatchGaps(Sort(positions, PositionKey), cooldown);
  }

  /** The positions that open an episode: nothing flagged in the cooldown before them. */
  ghost function Openers(positions: seq<int>, cooldown: int): set<int> {
    set p | p in positions && OpensAt(positions, cooldown, p)
  }

  predicate OpensAt(positions: seq<int>, cooldown: int, p: int) {
    forall q :: q in positions && q < p ==> p - q > cooldown
  }

  predicate Ascending(idx: seq<int>) {
    forall i, j :: 0 <= i < j < |idx| ==> idx[i] <= idx[j]
  }

  /** One more position at the end of a sorted list. */
  lemma OpenersStep(idx: seq<int>, x: int, cooldown: int)
    requires idx != [] && Ascending(idx) && idx[|idx| - 1] <= x && 0 <= cooldown
    ensures var before := Openers(idx, cooldown);
      if x - idx[|idx| - 1] > cooldown
      then x !in before && Openers(idx + [x], cooldown) == before + {x}
      else Openers(idx + [x], cooldown) == before
  {
    var last := idx[|idx| - 1];
    assert last in idx;
    forall q | q in idx ensures q <= last {
    }
    forall p | p in idx ensures OpensAt(idx + [x], cooldown, p) <==> OpensAt(idx, cooldown, p) {
      if OpensAt(idx, cooldown, p) {
        assert forall q :: q in idx + [x] && q < p ==> q in idx;
      } else {
        var q :| q in idx && q < p && p - q <= cooldown;
        assert q in idx + [x];
      }
    }
    if x - last > cooldown {
      assert OpensAt(idx + [x], cooldown, x);
    } else if last < x {
      assert last in idx + [x];
      assert !OpensAt(idx + [x], cooldown, x);
    }
  }

  lemma GapsStep(idx: seq<int>, x: int, cooldown: int)
    requires idx != []
    ensures CountEpisodes(idx + [x], cooldown)
         == CountEpisodes(idx, cooldown) + if x - idx[|idx| - 1] > cooldown then 1 else 0
  {
    assert (idx + [x])[..|idx|] == idx;
  }

  lemma AscendingStep(idx: seq<int>, x: int)
    requires idx != [] && Ascending(idx + [x])
    ensures Ascending(idx) && idx[|idx| - 1] <= x
  {
    var all, last := idx + [x], |idx| - 1;
    assert all[last] <= all[last + 1];
    forall i, j | 0 <= i < j < |idx| ensures idx[i] <= idx[j] {
      assert all[i] <= all[j];
    }
  }

  lemma {:induction false} SortedOpeners(idx: seq<int>, cooldown: int)
    requires Ascending(idx) && 0 <= cooldown
    ensures |Openers(idx, cooldown)| == CountEpisodes(idx, cooldown)
  {
    if |idx| <= 1 {
      FewOpeners(idx, cooldown);
    } else {
      hide Openers, CountEpisodes, Ascending;
      var n := |idx| - 1;
      assert idx == idx[..n] + [idx[n]];
      AscendingStep(idx[..n], idx[n]);
      OpenersStep(idx[..n], idx[n], cooldown);
      GapsStep(idx[..n], idx[n], cooldown);
      SortedOpeners(idx[..n], cooldown);
    }
  }

  lemma FewOpeners(idx: seq<int>, cooldown: int)
    requires |idx| <= 1
    ensures |Openers(idx, cooldown)| == |idx|
  {
    if idx == [] {
      assert Openers(idx, cooldown) == {};
    } else {
      assert Openers(idx, cooldown) == {idx[0]};
    }
  }

  lemma {:induction false} AllApart(idx: seq<int>, cooldown: int)
    requires Ascending(idx) && cooldown < 0
    ensures CountEpisodes(idx, cooldown) == |idx|
  {
    if idx != [] {
      AllApart(idx[..|idx| - 1], cooldown);
    }
  }

  /** What the gap count means: episodes are the flagged positions with no flagged position in the
      cooldown before them, however often and in whatever order positions are listed. A negative
      cooldown merges nothing, not even repeats. */
  lemma EpisodesAreOpeners(positions: seq<int>, cooldown: int)
    ensures 0 <= cooldown ==> EpisodesAt(positions, cooldown) == |Openers(positions, cooldown)|
    ensures cooldown < 0 ==> EpisodesAt(positions, cooldown) == |positions|
  {
    var idx := SortedPositions(positions, cooldown);
    if 0 <= cooldown {
      SortedOpeners(idx, cooldown);
    } else {
      AllApart(idx, cooldown);
    }
  }

  lemma SortedPositions(positions: seq<int>, cooldown: int) returns (idx: seq<int>)
    ensures idx == Sort(positions, PositionKey)
    ensures Ascending(idx) && |idx| == |positions| && Openers(idx, cooldown) == Openers(positions, cooldown)
  {
    idx := Sort(positions, PositionKey);
    SortFacts(positions, PositionKey);
    assert |multiset(idx)| == |idx| && |multiset(positions)| == |positions|;
    forall i, j | 0 <= i < j < |idx| ensures idx[i] <= idx[j] {
      assert PositionKey(idx[i]) <= PositionKey(idx[j]);
    }
    forall p ensures p in idx <==> p in positions {
      assert p in multiset(idx) <==> p in multiset(positions);
    }
    assert forall p :: OpensAt(idx, cooldown, p) <==> OpensAt(positions, cooldown, p);
  }

  lemma {:induction false} StartsOpen(idx: seq<int>, cooldown: int)
    requires Ascending(idx) && 0 <= cooldown && idx != []
    ensures Opened(idx, cooldown) == Openers(idx, cooldown)
  {
    var n := |idx| - 1;
    assert idx == idx[..n] + [idx[n]];
    if n == 0 {
      OneOpener(idx, cooldown);
    } else {
      OpenedStep(idx[..n], idx[n], cooldown);
      hide Openers, Ascending, Opened;
      AscendingStep(idx[..n], idx[n]);
      OpenersStep(idx[..n], idx[n], cooldown);
      StartsOpen(idx[..n], cooldown);
    }
  }

  /** The starts of a sorted list, as a set. */
  ghost function Opened(idx: seq<int>, cooldown: int): set<int>
    requires idx != []
  {
    set p | p in [idx[0]] + StartsAfterFirst(idx, cooldown)
  }

  lemma OneOpener(idx: seq<int>, cooldown: int)
    requires |idx| == 1
    ensures Opened(idx, cooldown) == {idx[0]} == Openers(idx, cooldown)
  {
  }

  lemma OpenedStep(idx: seq<int>, x: int, cooldown: int)
    requires idx != []
    ensures Opened(idx + [x], cooldown)
         == Opened(idx, cooldown) + if x - idx[|idx| - 1] > cooldown then {x} else {}
  {
    assert (idx + [x])[..|idx|] == idx;
  }

  lemma {:induction false} StartsIncrease(idx: seq<int>, cooldown: int)
    requires Ascending(idx) && 0 <= cooldown && idx != []
    ensures var starts := [idx[0]] + StartsAfterFirst(idx, cooldown);
      Increasing(starts) && starts[|starts| - 1] <= idx[|idx| - 1]
  {
    var n := |idx| - 1;
    if n > 0 {
      StartsIncrease(idx[..n], cooldown);
      var before := [idx[0]] + StartsAfterFirst(idx[..n], cooldown);
      assert idx[n - 1] <= idx[n];
      if idx[n] - idx[n - 1] > cooldown {
        assert [idx[0]] + StartsAfterFirst(idx, cooldown) == before + [idx[n]];
        hide StartsAfterFirst;
      } else {
        assert [idx[0]] + StartsAfterFirst(idx, cooldown) == before;
      }
    }
  }

  /** The starts are the openers, in increasing order. */
  lemma StartsAreOpeners(positions: seq<int>, cooldown: int)
    requires 0 <= cooldown
    ensures Increasing(EpisodeStarts(positions, cooldown))
    ensures forall p :: p in EpisodeStarts(positions, cooldown) <==> p in Openers(positions, cooldown)
  {
    var idx := SortedPositions(positions, cooldown);
    hide StartsAfterFirst, Openers, Ascending, Sort;
    if idx != [] {
      StartsOpen(idx, cooldown);
      StartsIncrease(idx, cooldown);
      assert forall p :: p in EpisodeStarts(positions, cooldown) <==> p in Opened(idx, cooldown);
    } else {
      NoOpeners(cooldown);
    }
  }

  lemma NoOpeners(cooldown: int)
    ensures Openers([], cooldown) == {}
  {
  }

  lemma {:induction false} FlatNonzeroFacts(flags: seq<bool>)
    ensures Increasing(FlatNonzero(flags))
    ensures forall i :: 0 <= i < |FlatNonzero(flags)| ==>
      0 <= FlatNonzero(flags)[i] < |flags| && flags[FlatNonzero(flags)[i]]
    ensures forall k :: 0 <= k < |flags| && flags[k] ==> k in FlatNonzero(flags)
  {
    if flags != [] {
      var n := |flags| - 1;
      FlatNonzeroFacts(flags[..n]);
      assert FlatNonzero(flags) == FlatNonzero(flags[..n]) + if flags[n] then [n] else [];
      hide FlatNonzero;
    }
  }

  /** The two counters agree on the flagged positions of one vector. */
  lemma FlagsAndPositions(flags: seq<bool>, cooldown: int)
    ensures EpisodesAt(FlatNonzero(flags), cooldown) == Episodes(flags, cooldown)
  {
    FlatNonzeroFacts(flags);
    SortKeepsSorted(FlatNonzero(flags), PositionKey);
  }

  lemma {:induction false} GapsSpread(idx: seq<int>, cooldown: int)
    requires Increasing(idx) && idx != []
    ensures idx[|idx| - 1] - idx[0] >= Gaps(idx, cooldown) * (cooldown + 1)
  {
    if |idx| > 1 {
      GapsSpread(idx[..|idx| - 1], cooldown);
    }
  }

  /** Episodes need room: e of them in n windows satisfy (e - 1)(cooldown + 1) + 1 <= n. */
  lemma EpisodesFit(flags: seq<bool>, cooldown: int)
    requires Episodes(flags, cooldown) > 0
    ensures (Episodes(flags, cooldown) - 1) * (cooldown + 1) + 1 <= |flags|
  {
    FlatNonzeroFacts(flags);
    GapsSpread(FlatNonzero(flags), cooldown);
  }

  /** A longer cooldown merges episodes and never splits one. */
  lemma {:induction false} CooldownAntitone(idx: seq<int>, c: int, d: int)
    requires c <= d
    ensures CountEpisodes(idx, d) <= CountEpisodes(idx, c)
  {
    if |idx| > 1 {
      CooldownAntitone(idx[..|idx| - 1], c, d);
    }
  }

  // ----- the stream and the stream with attack rows excised -----

  /** The merged-stream positions of the benign windows. */
  function BenignPositions(attack: seq<bool>): seq<int> {
    FlatNonzero(Map(attack, (b: bool) => !b))
  }

  /** xs[y == 0] */
  function KeepBenign<T>(xs: seq<T>, attack: seq<bool>): seq<T>
    requires |xs| == |attack|
  {
    if xs == [] then []
    else
      KeepBenign(xs[..|xs| - 1], attack[..|xs| - 1]) + if attack[|xs| - 1] then [] else [xs[|xs| - 1]]
  }

  /** positions[flags]: the positions whose flag is set. */
  function Pick(positions: seq<int>, flags: seq<bool>): seq<int>
    requires |positions| == |flags|
  {
    if flags == [] then []
    else
      Pick(positions[..|flags| - 1], flags[..|flags| - 1])
      + if flags[|flags| - 1] then [positions[|flags| - 1]] else []
  }

  function Exceed(scores: seq<real>, threshold: real): seq<bool> {
    Map(scores, (s: real) => s > threshold)
  }

  lemma {:induction false} KeepBenignSize<T>(xs: seq<T>, attack: seq<bool>)
    requires |xs| == |attack|
    ensures |KeepBenign(xs, attack)| == |BenignPositions(attack)|
  {
    if xs != [] {
      var n := |xs| - 1;
      KeepBenignSize(xs[..n], attack[..n]);
      assert Map(attack, (b: bool) => !b)[..n] == Map(attack[..n], (b: bool) => !b);
    }
  }

  lemma PositionsSpread(positions: seq<int>, i: nat, j: nat)
    requires Increasing(positions) && i <= j < |positions|
    ensures positions[j] - positions[i] >= j - i
    decreases j - i
  {
    if i < j {
      PositionsSpread(positions, i, j - 1);
    }
  }

  /** Flagged positions sit at the flagged ranks. */
  lemma {:induction false} PickAtRanks(positions: seq<int>, flags: seq<bool>)
    requires |positions| == |flags|
    ensures |Pick(positions, flags)| == |FlatNonzero(flags)|
    ensures forall i :: 0 <= i < |FlatNonzero(flags)| ==>
      0 <= FlatNonzero(flags)[i] < |flags| && Pick(positions, flags)[i] == positions[FlatNonzero(flags)[i]]
  {
    if flags != [] {
      PickAtRanks(positions[..|flags| - 1], flags[..|flags| - 1]);
    }
  }

  /** Spreading positions apart cannot lose a gap. */
  lemma {:induction false} WiderGaps(a: seq<int>, b: seq<int>, cooldown: int)
    requires |a| == |b|
    requires forall i :: 0 < i < |a| ==> a[i] - a[i - 1] <= b[i] - b[i - 1]
    ensures Gaps(a, cooldown) <= Gaps(b, cooldown)
  {
    if |a| > 1 {
      var n := |a| - 1;
      WiderGaps(a[..n], b[..n], cooldown);
      assert a[n] - a[n - 1] <= b[n] - b[n - 1];
    }
  }

  lemma PickIncreasing(positions: seq<int>, flags: seq<bool>)
    requires |positions| == |flags| && Increasing(positions)
    ensures Increasing(Pick(positions, flags))
  {
    PickAtRanks(positions, flags);
    FlatNonzeroFacts(flags);
  }

  /** Counting over the compacted benign-only index never gives more episodes than counting the same
      windows at the positions they held in the merged stream. */
  lemma CompactionShrinks(attack: seq<bool>, flags: seq<bool>, cooldown: int)
    requires |flags| == |BenignPositions(attack)|
    ensures Episodes(flags, cooldown) <= EpisodesAt(Pick(BenignPositions(attack), flags), cooldown)
  {
    hide Pick, FlatNonzero, Gaps, Sort;
    var positions := BenignPositions(attack);
    var ranks, picked := FlatNonzero(flags), Pick(positions, flags);
    FlatNonzeroFacts(Map(attack, (b: bool) => !b));
    FlatNonzeroFacts(flags);
    PickAtRanks(positions, flags);
    PickIncreasing(positions, flags);
    SortKeepsSorted(picked, PositionKey);
    forall i | 0 < i < |ranks| ensures ranks[i] - ranks[i - 1] <= picked[i] - picked[i - 1] {
      PositionsSpread(positions, ranks[i - 1], ranks[i]);
    }
    WiderGaps(ranks, picked, cooldown);
  }

  /** The flagged benign windows of the merged stream: threshold from the calibration part, then the
      positions of the benign test windows above it. */
  function StreamPositions<Row>(score: seq<Row> -> seq<real>, percentile: seq<real> -> real,
      cal: seq<Row>, rows: seq<Row>, attack: seq<bool>): seq<int>
    requires |attack| == |rows| && |score(cal + rows)| == |cal| + |rows|
  {
    var s := score(cal + rows);
    var benign := KeepBenign(s[|cal|..], attack);
    KeepBenignSize(s[|cal|..], attack);
    Pick(BenignPositions(attack), Exceed(benign, percentile(s[..|cal|])))
  }

  /** The same with the attack rows excised before scoring, mapped back to merged-stream positions. */
  function FreePositions<Row>(score: seq<Row> -> seq<real>, percentile: seq<real> -> real,
      cal: seq<Row>, rows: seq<Row>, attack: seq<bool>): seq<int>
    requires |attack| == |rows|
    requires |score(cal + KeepBenign(rows, attack))| == |cal| + |KeepBenign(rows, attack)|
  {
    var s := score(cal + KeepBenign(rows, attack));
    KeepBenignSize(rows, attack);
    Pick(BenignPositions(attack), Exceed(s[|cal|..], percentile(s[..|cal|])))
  }

  // ----- which windows those are -----

  /** How many benign windows come before position p. */
  function BenignBefore(attack: seq<bool>, p: nat): nat
    requires p <= |attack|
  {
    |BenignPositions(attack[..p])|
  }

  lemma BenignStep(attack: seq<bool>, b: bool)
    ensures BenignPositions(attack + [b]) == if b then BenignPositions(attack) else BenignPositions(attack) + [|attack|]
    ensures forall q: nat :: q <= |attack| ==> BenignBefore(attack + [b], q) == BenignBefore(attack, q)
    ensures BenignBefore(attack, |attack|) == |BenignPositions(attack)|
  {
    var f := (x: bool) => !x;
    assert Map(attack + [b], f)[..|attack|] == Map(attack, f);
    forall q: nat | q <= |attack| ensures BenignBefore(attack + [b], q) == BenignBefore(attack, q) {
      assert (attack + [b])[..q] == attack[..q];
    }
    assert attack[..|attack|] == attack;
  }

  lemma PickStep(positions: seq<int>, flags: seq<bool>, p: int, flag: bool)
    requires |positions| == |flags|
    ensures Pick(positions + [p], flags + [flag]) == Pick(positions, flags) + if flag then [p] else []
  {
    assert (positions + [p])[..|positions|] == positions && (flags + [flag])[..|flags|] == flags;
  }

  lemma {:induction false} RankBelow(attack: seq<bool>, p: nat)
    requires p < |attack| && !attack[p]
    ensures BenignBefore(attack, p) < |BenignPositions(attack)|
  {
    var n := |attack| - 1;
    assert attack == attack[..n] + [attack[n]];
    BenignStep(attack[..n], attack[n]);
    hide BenignPositions, BenignBefore;
    if p < n {
      RankBelow(attack[..n], p);
    }
  }

  /** A benign window's flag is found at its rank among the benign windows. */
  predicate Picked(attack: seq<bool>, flags: seq<bool>, p: int)
    requires |flags| == |BenignPositions(attack)|
  {
    && 0 <= p < |attack| && !attack[p]
    && (RankBelow(attack, p); flags[BenignBefore(attack, p)])
  }

  lemma PickedStep(attack: seq<bool>, flags: seq<bool>, flag: bool, p: int)
    requires |flags| == |BenignPositions(attack)|
    ensures |BenignPositions(attack + [true])| == |flags|
    ensures |BenignPositions(attack + [false])| == |flags + [flag]|
    ensures Picked(attack + [true], flags, p) <==> Picked(attack, flags, p)
    ensures Picked(attack + [false], flags + [flag], p) <==> Picked(attack, flags, p) || (p == |attack| && flag)
  {
    BenignStep(attack, true);
    BenignStep(attack, false);
    hide BenignPositions, BenignBefore;
    if 0 <= p < |attack| && !attack[p] {
      RankBelow(attack, p);
    }
  }

  lemma {:induction false} PickedAt(attack: seq<bool>, flags: seq<bool>, p: int)
    requires |flags| == |BenignPositions(attack)|
    ensures p in Pick(BenignPositions(attack), flags) <==> Picked(attack, flags, p)
  {
    if attack == [] {
      assert BenignPositions(attack) == [] && flags == [];
    } else {
      var n := |attack| - 1;
      var before, m := attack[..n], |flags| - 1;
      assert attack == before + [attack[n]];
      BenignStep(before, attack[n]);
      if attack[n] {
        hide BenignPositions, Pick, Picked;
        PickedStep(before, flags, true, p);
        PickedAt(before, flags, p);
      } else {
        assert flags == flags[..m] + [flags[m]];
        hide BenignPositions, Pick, Picked;
        PickedStep(before, flags[..m], flags[m], p);
        PickedAt(before, flags[..m], p);
        PickStep(BenignPositions(before), flags[..m], n, flags[m]);
      }
    }
  }

  lemma {:induction false} KeptAt<T>(xs: seq<T>, attack: seq<bool>, p: nat)
    requires |xs| == |attack| && p < |xs| && !attack[p]
    ensures |KeepBenign(xs, attack)| == |BenignPositions(attack)|
    ensures BenignBefore(attack, p) < |KeepBenign(xs, attack)|
    ensures KeepBenign(xs, attack)[BenignBefore(attack, p)] == xs[p]
  {
    var n := |xs| - 1;
    KeepBenignSize(xs, attack);
    KeepBenignSize(xs[..n], attack[..n]);
    assert attack == attack[..n] + [attack[n]];
    BenignStep(attack[..n], attack[n]);
    hide BenignPositions, BenignBefore;
    if p < n {
      KeptAt(xs[..n], attack[..n], p);
    }
  }

  /** Merged, the flagged windows are the benign ones whose score is above the percentile of the
      calibration scores; excised, a benign window's score is found at its rank among the benign ones. */
  lemma FlaggedPositions<Row>(score: seq<Row> -> seq<real>, percentile: seq<real> -> real, cal: seq<Row>,
      rows: seq<Row>, attack: seq<bool>, p: int)
    requires |attack| == |rows| && |score(cal + rows)| == |cal| + |rows|
    requires |score(cal + KeepBenign(rows, attack))| == |cal| + |KeepBenign(rows, attack)|
    ensures 0 <= p < |rows| && !attack[p] ==> BenignBefore(attack, p) < |KeepBenign(rows, attack)|
    ensures var s := score(cal + rows);
      p in StreamPositions(score, percentile, cal, rows, attack) <==>
        0 <= p < |rows| && !attack[p] && s[|cal| + p] > percentile(s[..|cal|])
    ensures var s := score(cal + KeepBenign(rows, attack));
      p in FreePositions(score, percentile, cal, rows, attack) <==>
        0 <= p < |rows| && !attack[p] && s[|cal| + BenignBefore(attack, p)] > percentile(s[..|cal|])
  {
    hide Pick, KeepBenign, BenignPositions, BenignBefore;
    var s, free := score(cal + rows), score(cal + KeepBenign(rows, attack));
    var test := s[|cal|..];
    KeepBenignSize(test, attack);
    KeepBenignSize(rows, attack);
    PickedAt(attack, Exceed(KeepBenign(test, attack), percentile(s[..|cal|])), p);
    PickedAt(attack, Exceed(free[|cal|..], percentile(free[..|cal|])), p);
    if 0 <= p < |rows| && !attack[p] {
      RankBelow(attack, p);
      KeptAt(test, attack, p);
    }
  }

  lemma {:induction false} MapKeepBenign<T, U>(xs: seq<T>, attack: seq<bool>, f: T -> U)
    requires |xs| == |attack|
    ensures KeepBenign(Map(xs, f), attack) == Map(KeepBenign(xs, attack), f)
  {
    if xs != [] {
      var n := |xs| - 1;
      MapKeepBenign(xs[..n], attack[..n], f);
      assert Map(xs, f)[..n] == Map(xs[..n], f);
    }
  }

  /** A memoryless arm, whose score of a row depends on that row alone, flags the same windows with
      and without excision, so every count and rate of its benign alarms is identical. */
  lemma MemorylessUnchanged<Row>(score: seq<Row> -> seq<real>, f: Row -> real, percentile: seq<real> -> real,
      cal: seq<Row>, rows: seq<Row>, attack: seq<bool>, cooldown: int)
    requires |attack| == |rows|
    requires score(cal + rows) == Map(cal + rows, f)
    requires score(cal + KeepBenign(rows, attack)) == Map(cal + KeepBenign(rows, attack), f)
    ensures StreamPositions(score, percentile, cal, rows, attack)
         == FreePositions(score, percentile, cal, rows, attack)
    ensures EpisodesAt(StreamPositions(score, percentile, cal, rows, attack), cooldown)
         == EpisodesAt(FreePositions(score, percentile, cal, rows, attack), cooldown)
  {
    hide Pick, KeepBenign, EpisodesAt, BenignPositions;
    var benign := KeepBenign(rows, attack);
    MapKeepBenign(rows, attack, f);
    MapSplit(cal, rows, f);
    MapSplit(cal, benign, f);
  }

  lemma MapSplit<T, U>(a: seq<T>, b: seq<T>, f: T -> U)
    ensures Map(a + b, f)[..|a|] == Map(a, f)
    ensures Map(a + b, f)[|a|..] == Map(b, f)
  {
  }
}
