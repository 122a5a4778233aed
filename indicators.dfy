/**
 * The indicators of the charts stage (streamlit_app.py lines 68-74) and the
 * two warnings (lines 88-91), over a table whose derived columns are present.
 * The percentage and the mean are exact rationals here; the source computes
 * them in floating point.
 */
module Indicators {
  import opened Wrappers
  import opened Table

  const Limit: int := 180

  /** The "Dias desde atendimento" value of an enriched row (None is NaN). */
  function Dias(r: Row): Option<int>
    requires r.derived.Some?
  {
    r.derived.value.dias
  }

  /** `sem_atendimento_6m`: rows whose day count is present and above 180 (NaN > 180 is false). */
  function Overdue(rows: seq<Row>): (n: nat)
    requires Enriched(rows)
    ensures n <= |rows|
  {
    if rows == [] then 0
    else
      (if Dias(rows[0]).Some? && Dias(rows[0]).value > Limit then 1 else 0) + Overdue(rows[1..])
  }

  /** Number of rows whose day count is present (the values pandas' mean averages over). */
  function Present(rows: seq<Row>): (n: nat)
    requires Enriched(rows)
    ensures n <= |rows|
  {
    if rows == [] then 0
    else (if Dias(rows[0]).Some? then 1 else 0) + Present(rows[1..])
  }

  /** Sum of the present day counts. */
  function DaySum(rows: seq<Row>): (sum: int)
    requires Enriched(rows)
    ensures Present(rows) == 0 ==> sum == 0
  {
    if rows == [] then 0
    else (if Dias(rows[0]).Some? then Dias(rows[0]).value else 0) + DaySum(rows[1..])
  }

  /** A row without a day count is never overdue: overdue rows are among the present ones. */
  lemma {:induction false} OverdueOnlyPresent(rows: seq<Row>)
    requires Enriched(rows)
    ensures Overdue(rows) <= Present(rows)
    ensures Present(rows) == 0 ==> Overdue(rows) == 0
  {
    if rows != [] {
      OverdueOnlyPresent(rows[1..]);
    }
  }

  /** `percentual_sem_6m`: the overdue share in percent, 0 for an empty table. */
  function Percent(rows: seq<Row>): (p: real)
    requires Enriched(rows)
    ensures 0.0 <= p <= 100.0
    ensures |rows| == 0 ==> p == 0.0
  {
    if |rows| > 0 then (Overdue(rows) as real / |rows| as real) * 100.0 else 0.0
  }

  /** `media_dias`: 0 for an empty table, NaN when no date parsed, else the mean of the present values. */
  datatype Mean = Value(v: real) | NaN

  function MeanDays(rows: seq<Row>): (m: Mean)
    requires Enriched(rows)
    ensures |rows| == 0 ==> m == Value(0.0)
  {
    if |rows| == 0 then Value(0.0)
    else if Present(rows) == 0 then NaN
    else Value(DaySum(rows) as real / Present(rows) as real)
  }

  /** `if percentual_sem_6m > 50`. */
  predicate PercentWarning(rows: seq<Row>)
    requires Enriched(rows)
  {
    Percent(rows) > 50.0
  }

  /** `if media_dias > 180` (a comparison with NaN is false). */
  predicate MeanWarning(rows: seq<Row>)
    requires Enriched(rows)
  {
    match MeanDays(rows)
    case Value(v) => v > Limit as real
    case NaN => false
  }

  /** Multiplying by a positive factor keeps a strict order. */
  lemma ScaleStrict(x: real, y: real, c: real)
    requires c > 0.0 && x > y
    ensures x * c > y * c
  {
    assert x * c - y * c == (x - y) * c;
  }

  /** A quotient exceeds `k` exactly when the dividend exceeds `k` times the divisor. */
  lemma RatioAbove(a: real, n: real, k: real)
    requires n > 0.0
    ensures a / n > k <==> a > k * n
  {
    var q := a / n;
    assert q * n == a;
    if q > k {
      ScaleStrict(q, k, n);
    } else if q < k {
      ScaleStrict(k, q, n);
    }
  }

  /** The ">50%" warning in integers: the table is non-empty and 2 * overdue > total. */
  lemma PercentWarningIff(rows: seq<Row>)
    requires Enriched(rows)
    ensures PercentWarning(rows) <==> |rows| > 0 && 2 * Overdue(rows) > |rows|
  {
    if |rows| > 0 {
      var a, n := Overdue(rows) as real, |rows| as real;
      var q := a / n;
      assert Percent(rows) == q * 100.0;
      assert q * 100.0 > 50.0 <==> q > 0.5;
      RatioAbove(a, n, 0.5);
      assert a > 0.5 * n <==> 2 * Overdue(rows) > |rows|;
    }
  }

  /**
   * The mean warning in integers: some day count is present and their sum
   * exceeds 180 per present value. An empty table or one without a parsed
   * date never warns.
   */
  lemma MeanWarningIff(rows: seq<Row>)
    requires Enriched(rows)
    ensures MeanWarning(rows) <==> Present(rows) > 0 && DaySum(rows) > Limit * Present(rows)
  {
    if |rows| > 0 && Present(rows) > 0 {
      RatioAbove(DaySum(rows) as real, Present(rows) as real, Limit as real);
    }
  }

  /** The figures shown on the charts stage. */
  datatype Snapshot = Snapshot(
    totalHipertensos: nat,
    totalDiabeticos: nat,
    totalPacientes: nat,
    semAtendimento6m: nat,
    percentual: real,
    media: Mean,
    alertaPercentual: bool,
    alertaMedia: bool)

  function SnapshotOf(rows: seq<Row>): (s: Snapshot)
    requires Enriched(rows)
    ensures s.totalHipertensos + s.totalDiabeticos == s.totalPacientes == |rows|
    ensures s.semAtendimento6m <= s.totalPacientes
    ensures s.totalPacientes == 0 ==> !s.alertaPercentual && !s.alertaMedia
  {
    KindsPartition(rows);
    Snapshot(
      CountKind(rows, Hipertenso),
      CountKind(rows, Diabetico),
      |rows|,
      Overdue(rows),
      Percent(rows),
      MeanDays(rows),
      PercentWarning(rows),
      MeanWarning(rows))
  }
}
