/**
 * `st.session_state` of streamlit_app.py: the stage `etapa` and, once the user
 * has confirmed the upload, the merged table `df_total`. One script run in the
 * upload stage is `Confirm`; one run in the charts stage is `Charts`.
 */
module App {
  import opened Wrappers
  import opened Address
  import opened Table
  import opened Indicators
  import opened Dashboard

  /** The values `etapa` takes: "inicio" and "graficos". */
  datatype Stage = Inicio | Graficos

  class SessionState {
    var etapa: Stage
    var dfTotal: Option<seq<Row>>   // None while the key "df_total" is absent

    /** The table is stored exactly when the charts stage has been reached. */
    predicate Valid()
      reads this
    {
      etapa == Graficos <==> dfTotal.Some?
    }

    /** Lines 9-10: a new session starts in "inicio", with no table. */
    constructor ()
      ensures Valid() && etapa == Inicio && dfTotal == None
    {
      etapa := Inicio;
      dfTotal := None;
    }

    /**
     * Lines 32-51. In "inicio", with both sheets uploaded (`hip`, `dia` are the
     * rows `read_excel` returned), the answer "Sim" and the button pressed,
     * the tagged sheets are concatenated, stored, and the stage switches to
     * "graficos". In every other case nothing changes; in particular the
     * source never returns to "inicio".
     */
    method Confirm(hip: Option<seq<Patient>>, dia: Option<seq<Patient>>, confirmed: bool, pressed: bool)
      requires Valid()
      modifies this
      ensures Valid()
      ensures if old(etapa) == Inicio && hip.Some? && dia.Some? && confirmed && pressed
              then etapa == Graficos && dfTotal == Some(Merge(hip.value, dia.value))
              else etapa == old(etapa) && dfTotal == old(dfTotal)
    {
      if etapa == Inicio {
        if hip.Some? && dia.Some? {
          if confirmed && pressed {
            dfTotal := Some(Merge(hip.value, dia.value));
            etapa := Graficos;
          }
        }
      }
    }

    /**
     * Lines 53-118. The stored table gets, row by row, its neighbourhood
     * (from the address column) and its day count (`dias[i]`: the date
     * column parsed and subtracted from today, None when the date did not
     * parse); then the indicators and the panel for the selection `sel` are
     * computed from it.
     */
    method Charts(dias: seq<Option<int>>, sel: set<Kind>) returns (snap: Snapshot, panel: Panel)
      requires Valid() && etapa == Graficos
      requires |dias| == |dfTotal.value|
      modifies this
      ensures Valid() && etapa == Graficos
      ensures dfTotal == Some(Enrich(old(dfTotal.value), dias))
      ensures snap == SnapshotOf(dfTotal.value) && panel == ShowPanel(dfTotal.value, sel)
    {
      ghost var before := dfTotal.value;
      var i := 0;
      while i < |dfTotal.value|
        invariant Valid() && etapa == Graficos
        invariant |dfTotal.value| == |before| && 0 <= i <= |before|
        invariant forall k :: 0 <= k < i ==> dfTotal.value[k] == Enrich(before, dias)[k]
        invariant forall k :: i <= k < |before| ==> dfTotal.value[k] == before[k]
      {
        var row := dfTotal.value[i];
        var derived := Derived(ExtractBairro(row.patient.endereco), dias[i]);
        dfTotal := Some(dfTotal.value[i := Row(row.tipo, row.patient, Some(derived))]);
        i := i + 1;
      }
      assert dfTotal.value == Enrich(before, dias);
      snap := SnapshotOf(dfTotal.value);
      panel := ShowPanel(dfTotal.value, sel);
    }
  }

  /**
   * End to end: after the two sheets are merged and enriched, the indicators
   * count each type as its sheet's length and the total as their sum, and an
   * empty upload never warns.
   */
  lemma SnapshotOfUpload(hip: seq<Patient>, dia: seq<Patient>, dias: seq<Option<int>>)
    requires |dias| == |hip| + |dia|
    ensures |Merge(hip, dia)| == |dias|
    ensures var s := SnapshotOf(Enrich(Merge(hip, dia), dias));
            && s.totalHipertensos == |hip|
            && s.totalDiabeticos == |dia|
            && s.totalPacientes == |hip| + |dia|
            && (hip == [] && dia == [] ==> !s.alertaPercentual && !s.alertaMedia)
  {
    MergeCounts(hip, dia);
    EnrichKeepsCounts(Merge(hip, dia), dias, Hipertenso);
    EnrichKeepsCounts(Merge(hip, dia), dias, Diabetico);
  }
}
