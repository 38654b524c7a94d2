// pot_scores, the static peaks-over-threshold arm: each row's score depends on that row alone, so
// excising attack rows changes none of its benign alarms.
module PotArm {
  import opened RealMath
  import opened Sequences
  import opened StreamScores
  import Episodes

  /** A matrix cell; an absent feature reads 0. */
  function Cell(row: seq<real>, j: nat): real {
    if j < |row| then row[j] else 0.0
  }

  /** The excess of a value over its feature's threshold, in units of its scale. */
  function Excess(fit: Fit, x: real): real
    requires 0.0 < fit.scale
  {
    if x > fit.threshold then (x - fit.threshold) / fit.scale else 0.0
  }

  /** One fit per feature, each with a positive scale. */
  type Fits = fits: seq<Fit> | forall j :: 0 <= j < |fits| ==> 0.0 < fits[j].scale witness []

  /** The score of one row: the largest excess over the first d features, and at least 0. */
  function RowScore(fits: Fits, row: seq<real>, d: nat): real
    requires d <= |fits|
  {
    if d == 0 then 0.0 else Max(RowScore(fits, row, d - 1), Excess(fits[d - 1], Cell(row, d - 1)))
  }

  function RowScores(fits: Fits, rows: seq<seq<real>>, d: nat): (s: seq<real>)
    requires d <= |fits|
    ensures |s| == |rows|
  {
    seq(|rows|, i requires 0 <= i < |rows| => RowScore(fits, rows[i], d))
  }

  function FitTrain(sqrt: real -> real, train: seq<seq<real>>, q: real): (fits: Fits)
    requires 0.0 <= q <= 1.0 && forall j :: 0 <= j < |train| ==> train[j] != []
    ensures |fits| == |train|
  {
    seq(|train|, j requires 0 <= j < |train| => FitValues(sqrt, train[j], q))
  }

  /** How far each of the first d cells exceeds its feature's threshold, in units of its scale; negative
      below it. */
  function CellAmounts(fits: Fits, row: seq<real>, d: nat): (amounts: seq<real>)
    requires d <= |fits|
    ensures |amounts| == d
  {
    seq(d, j requires 0 <= j < d => (Cell(row, j) - fits[j].threshold) / fits[j].scale)
  }

  /** A row's score is the largest of its amounts, or 0. */
  lemma {:induction false} RowScoreIs(fits: Fits, row: seq<real>, d: nat)
    requires d <= |fits|
    ensures MaxWithZero(RowScore(fits, row, d), CellAmounts(fits, row, d))
  {
    if d > 0 {
      RowScoreIs(fits, row, d - 1);
      hide MaxWithZero, Max;
      var fit, x := fits[d - 1], Cell(row, d - 1);
      var a := (x - fit.threshold) / fit.scale;
      assert CellAmounts(fits, row, d) == CellAmounts(fits, row, d - 1) + [a];
      ExcessIs(fit, x);
      MaxOfMore(RowScore(fits, row, d - 1), CellAmounts(fits, row, d - 1), a, RowScore(fits, row, d));
    }
  }

  lemma ExcessIs(fit: Fit, x: real)
    requires 0.0 < fit.scale
    ensures Excess(fit, x) == Max(0.0, (x - fit.threshold) / fit.scale)
  {
    QuotientSigns(x - fit.threshold, fit.scale);
  }

  /** pot_scores, feature by feature over all rows: train is given column by column, test row by row. */
  method PotScores(sqrt: real -> real, train: seq<seq<real>>, test: seq<seq<real>>, q: real) returns (S: seq<real>)
    requires 0.0 <= q <= 1.0 && forall j :: 0 <= j < |train| ==> train[j] != []
    ensures S == RowScores(FitTrain(sqrt, train, q), test, |train|)
    ensures forall i :: 0 <= i < |test| ==>
      MaxWithZero(S[i], CellAmounts(FitTrain(sqrt, train, q), test[i], |train|))
  {
    hide FitValues, MaxWithZero, CellAmounts;
    ghost var fits := FitTrain(sqrt, train, q);
    forall i | 0 <= i < |test|
      ensures MaxWithZero(RowScore(fits, test[i], |train|), CellAmounts(fits, test[i], |train|))
    {
      RowScoreIs(fits, test[i], |train|);
    }
    S := seq(|test|, _ => 0.0);
    for j := 0 to |train|
      invariant S == RowScores(fits, test, j)
    {
      var fit := FitValues(sqrt, train[j], q);
      S := MaxEach(S, seq(|test|, i requires 0 <= i < |test| => Excess(fit, Cell(test[i], j))));
    }
  }

  /** The arm scores nobody below 0, and above 0 exactly the rows with some feature above its
      threshold. */
  lemma {:induction false} PositiveIffExceeds(fits: Fits, row: seq<real>, d: nat)
    requires d <= |fits|
    ensures 0.0 <= RowScore(fits, row, d)
    ensures 0.0 < RowScore(fits, row, d) <==> exists j :: 0 <= j < d && Cell(row, j) > fits[j].threshold
  {
    if d > 0 {
      PositiveIffExceeds(fits, row, d - 1);
      if Cell(row, d - 1) > fits[d - 1].threshold {
        PositiveQuotient(Cell(row, d - 1) - fits[d - 1].threshold, fits[d - 1].scale);
      }
    }
  }

  function ScoreRow(fits: Fits, row: seq<real>): real {
    RowScore(fits, row, |fits|)
  }

  /** pot_scores with its fit, as a function of the stream alone. */
  function Arm(fits: Fits): seq<seq<real>> -> seq<real> {
    (rows: seq<seq<real>>) => RowScores(fits, rows, |fits|)
  }

  lemma ArmByRow(fits: Fits, rows: seq<seq<real>>)
    ensures Arm(fits)(rows) == Map(rows, (row: seq<real>) => ScoreRow(fits, row))
  {
  }

  /** For every fit, percentile, stream and labelling the arm flags the same benign windows, and counts
      the same episodes, with the attack rows in place and with them excised. */
  lemma ExcisionUnseen(fits: Fits, percentile: seq<real> -> real, cal: seq<seq<real>>, rows: seq<seq<real>>,
      attack: seq<bool>, cooldown: int)
    requires |attack| == |rows|
    ensures var arm := Arm(fits);
      var merged := Episodes.StreamPositions(arm, percentile, cal, rows, attack);
      var excised := Episodes.FreePositions(arm, percentile, cal, rows, attack);
      merged == excised && Episodes.EpisodesAt(merged, cooldown) == Episodes.EpisodesAt(excised, cooldown)
  {
    ArmByRow(fits, cal + rows);
    ArmByRow(fits, cal + Episodes.KeepBenign(rows, attack));
    Episodes.MemorylessUnchanged(Arm(fits), (row: seq<real>) => ScoreRow(fits, row), percentile, cal, rows, attack,
      cooldown);
  }
}
