/**
 * The type filter and the per-neighbourhood chart of the charts stage
 * (streamlit_app.py lines 101-118).
 */
module Dashboard {
  import opened Table
  import ValueCounts

  /** `df_total[df_total["Tipo"].isin(tipos_selecionados)]`: the selected rows, in order. */
  function Filter(rows: seq<Row>, sel: set<Kind>): (r: seq<Row>)
    ensures |r| <= |rows|
    ensures forall x :: x in r <==> x in rows && x.tipo in sel
  {
    if rows == [] then []
    else if rows[0].tipo in sel then [rows[0]] + Filter(rows[1..], sel)
    else Filter(rows[1..], sel)
  }

  /** `isin` keeps every selected row as often as the table holds it, and no other row. */
  lemma {:induction false} FilterMultiset(rows: seq<Row>, sel: set<Kind>)
    ensures forall x :: multiset(Filter(rows, sel))[x] == if x.tipo in sel then multiset(rows)[x] else 0
  {
    if rows != [] {
      FilterMultiset(rows[1..], sel);
      assert rows == [rows[0]] + rows[1..];
    }
  }

  /**
   * Filtering works row by row and keeps the order: filtering a concatenation
   * concatenates the filtered parts.
   */
  lemma {:induction false} FilterAppend(a: seq<Row>, b: seq<Row>, sel: set<Kind>)
    ensures Filter(a + b, sel) == Filter(a, sel) + Filter(b, sel)
  {
    if a != [] {
      assert (a + b)[1..] == a[1..] + b;
      FilterAppend(a[1..], b, sel);
    } else {
      assert a + b == b;
    }
  }

  /** Selecting every type keeps the whole table. */
  lemma {:induction false} FilterAll(rows: seq<Row>)
    ensures Filter(rows, {Hipertenso, Diabetico}) == rows
  {
    if rows != [] {
      FilterAll(rows[1..]);
      assert rows[0].tipo == Hipertenso || rows[0].tipo == Diabetico;
      assert rows == [rows[0]] + rows[1..];
    }
  }

  /** Selecting one type keeps as many rows as that type's count. */
  lemma {:induction false} FilterOne(rows: seq<Row>, k: Kind)
    ensures |Filter(rows, {k})| == CountKind(rows, k)
  {
    if rows != [] {
      FilterOne(rows[1..], k);
    }
  }

  /** Filtering keeps the derived columns present. */
  lemma FilterEnriched(rows: seq<Row>, sel: set<Kind>)
    requires Enriched(rows)
    ensures Enriched(Filter(rows, sel))
  {
    var f := Filter(rows, sel);
    forall i | 0 <= i < |f| ensures f[i].derived.Some? {
      assert f[i] in f;
    }
  }

  /** The "Bairro" column of an enriched table. */
  function Bairros(rows: seq<Row>): (bs: seq<string>)
    requires Enriched(rows)
    ensures |bs| == |rows|
    ensures forall i :: 0 <= i < |rows| ==> bs[i] == rows[i].derived.value.bairro
  {
    seq(|rows|, i requires 0 <= i < |rows| => rows[i].derived.value.bairro)
  }

  /** What the dashboard shows for one selection. */
  datatype Panel =
    | SelectAtLeastOne                     // "Selecione pelo menos um tipo ..."
    | NoData                               // "Nenhum dado disponível ..."
    | Chart(counts: seq<(string, nat)>, shown: seq<Row>)  // the bar chart and the filtered table

  function ShowPanel(rows: seq<Row>, sel: set<Kind>): (p: Panel)
    requires Enriched(rows)
  {
    if sel == {} then SelectAtLeastOne
    else
      var f := Filter(rows, sel);
      if f == [] then NoData
      else
        FilterEnriched(rows, sel);
        Chart(ValueCounts.Counts(Bairros(f)), f)
  }

  /**
   * An empty selection asks for a type; a selection no row has reports no
   * data; otherwise the chart lists each neighbourhood of the selected rows
   * once, with its number of selected rows (at least 1), the counts summing to
   * the number of selected rows, largest first.
   */
  lemma PanelCorrect(rows: seq<Row>, sel: set<Kind>)
    requires Enriched(rows)
    ensures ShowPanel(rows, sel).SelectAtLeastOne? <==> sel == {}
    ensures ShowPanel(rows, sel).NoData? <==> sel != {} && forall x :: x in rows ==> x.tipo !in sel
    ensures ShowPanel(rows, sel).Chart? ==>
              var c := ShowPanel(rows, sel).counts;
              var f := ShowPanel(rows, sel).shown;
              && f == Filter(rows, sel) && f != [] && Enriched(f)
              && ValueCounts.DistinctKeys(c)
              && (forall i :: 0 <= i < |c| ==> c[i].1 == multiset(Bairros(f))[c[i].0] && c[i].1 >= 1)
              && (forall b :: b in Bairros(f) <==> b in ValueCounts.KeysOf(c))
              && ValueCounts.Total(c) == |f|
              && ValueCounts.NonIncreasing(c)
  {
    var f := Filter(rows, sel);
    if f != [] {
      assert f[0] in f;
    }
    if sel != {} && f != [] {
      FilterEnriched(rows, sel);
      ValueCounts.CountsCorrect(Bairros(f));
    }
  }
}
