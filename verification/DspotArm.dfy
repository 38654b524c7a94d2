// DSPOT under excision: when every attack row alarms in every column, the frozen drift windows make the
// attack invisible to the benign rows.
module DspotArm {
  import opened RealMath
  import opened Sequences
  import opened StreamScores
  import Episodes

  type Fitted = cols: seq<Column> | Scaled(cols) witness []

  /** dspot_scores with its fit, as a function of the stream; rows are as wide as the fit. */
  function Arm(cols: Fitted, depth: nat): seq<seq<real>> -> seq<real> {
    (rows: seq<seq<real>>) => if Wide(rows, |cols|) then Combined(cols, depth, rows, |cols|) else []
  }

  /** The calibration rows and the benign rows of a stream. */
  function Benign(nc: nat, attack: seq<bool>): seq<bool> {
    seq(nc, _ => true) + seq(|attack|, i requires 0 <= i < |attack| => !attack[i])
  }

  lemma {:induction false} KeepAll<T>(xs: seq<T>)
    ensures Keep(xs, seq(|xs|, _ => true)) == xs
  {
    if xs != [] {
      var n := |xs| - 1;
      KeepAll(xs[..n]);
      assert seq(|xs|, _ => true)[..n] == seq(n, _ => true);
    }
  }

  /** Keeping the benign part is excising the attack rows. */
  lemma {:induction false} KeepIsExcision<T>(head: seq<T>, xs: seq<T>, attack: seq<bool>)
    requires |xs| == |attack|
    ensures |head + xs| == |Benign(|head|, attack)|
    ensures Keep(head + xs, Benign(|head|, attack)) == head + Episodes.KeepBenign(xs, attack)
  {
    if xs == [] {
      assert head + xs == head;
      assert Benign(|head|, attack) == seq(|head|, _ => true);
      KeepAll(head);
    } else {
      var n := |xs| - 1;
      KeepIsExcision(head, xs[..n], attack[..n]);
      assert (head + xs)[..|head| + n] == head + xs[..n];
      assert Benign(|head|, attack)[..|head| + n] == Benign(|head|, attack[..n]);
      assert Benign(|head|, attack)[|head| + n] == !attack[n];
    }
  }

  /** Every attack row of the merged stream alarms in every column. */
  predicate AttackAlarms(cols: Fitted, depth: nat, cal: seq<seq<real>>, rows: seq<seq<real>>, attack: seq<bool>)
    requires |attack| == |rows| && Wide(cal + rows, |cols|)
  {
    forall i, j :: 0 <= i < |rows| && 0 <= j < |cols| && attack[i] ==>
      0.0 < ColumnScores(cols, depth, cal + rows, j)[|cal| + i]
  }

  /** The scores of the excised stream are those of the merged stream with the attack rows' scores
      excised. */
  lemma ScoresExcised(cols: Fitted, depth: nat, cal: seq<seq<real>>, rows: seq<seq<real>>, attack: seq<bool>)
    requires |attack| == |rows| && Wide(cal + rows, |cols|) && AttackAlarms(cols, depth, cal, rows, attack)
    ensures var s, excised := Arm(cols, depth)(cal + rows), Arm(cols, depth)(cal + Episodes.KeepBenign(rows, attack));
      && |s| == |cal| + |rows|
      && excised == s[..|cal|] + Episodes.KeepBenign(s[|cal|..], attack)
  {
    hide Combined, ColumnScores, Keep, Episodes.KeepBenign;
    var all, mask := cal + rows, Benign(|cal|, attack);
    KeepIsExcision(cal, rows, attack);
    forall i, j | 0 <= i < |all| && 0 <= j < |cols| && !mask[i]
      ensures 0.0 < ColumnScores(cols, depth, all, j)[i]
    {
      assert attack[i - |cal|];
      assert 0.0 < ColumnScores(cols, depth, all, j)[|cal| + (i - |cal|)];
    }
    DeleteAlarmingRows(cols, depth, all, mask, |cols|);
    var s := Combined(cols, depth, all, |cols|);
    KeepIsExcision(s[..|cal|], s[|cal|..], attack);
    assert s == s[..|cal|] + s[|cal|..];
  }

  /** So the arm flags the same benign positions, and counts the same episodes, with the attack rows in
      place and with them excised: for this arm the attack inherits nothing to the benign windows. */
  lemma ExcisionUnseen(cols: Fitted, depth: nat, percentile: seq<real> -> real, cal: seq<seq<real>>,
      rows: seq<seq<real>>, attack: seq<bool>, cooldown: int)
    requires |attack| == |rows| && Wide(cal + rows, |cols|) && AttackAlarms(cols, depth, cal, rows, attack)
    ensures |Arm(cols, depth)(cal + rows)| == |cal| + |rows|
    ensures |Arm(cols, depth)(cal + Episodes.KeepBenign(rows, attack))| == |cal| + |Episodes.KeepBenign(rows, attack)|
    ensures var arm := Arm(cols, depth);
      var merged := Episodes.StreamPositions(arm, percentile, cal, rows, attack);
      var excised := Episodes.FreePositions(arm, percentile, cal, rows, attack);
      merged == excised && Episodes.EpisodesAt(merged, cooldown) == Episodes.EpisodesAt(excised, cooldown)
  {
    hide Combined, ColumnScores, Episodes.KeepBenign, Episodes.Pick, Episodes.EpisodesAt, Episodes.BenignPositions;
    ScoresExcised(cols, depth, cal, rows, attack);
    var s := Arm(cols, depth)(cal + rows);
    Episodes.KeepBenignSize(s[|cal|..], attack);
    Episodes.KeepBenignSize(rows, attack);
    var benign := Episodes.KeepBenign(s[|cal|..], attack);
    assert (s[..|cal|] + benign)[..|cal|] == s[..|cal|];
    assert (s[..|cal|] + benign)[|cal|..] == benign;
  }
}
