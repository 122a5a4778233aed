/**
 * The merged patient table `df_total` of streamlit_app.py: each sheet's rows
 * tagged with their type ("Tipo"), concatenated, and later enriched with the
 * derived columns "Bairro" and "Dias desde atendimento".
 */
module Table {
  import opened Wrappers
  import opened Address

  /** The "Tipo" column: the sheet a row came from. */
  datatype Kind = Hipertenso | Diabetico

  /** The text the source stores in the "Tipo" column. */
  function Label(k: Kind): (t: string)
    ensures t == "Hipertenso" <==> k == Hipertenso
    ensures t == "Diabético" <==> k == Diabetico
  {
    match k
    case Hipertenso => "Hipertenso"
    case Diabetico => "Diabético"
  }

  /**
   * The two texts differ, so comparing "Tipo" texts (`== "Hipertenso"`,
   * `isin(tipos_selecionados)`) is comparing types: the model works on `Kind`.
   */
  lemma LabelInjective(a: Kind, b: Kind)
    ensures Label(a) == Label(b) <==> a == b
  {
    if a != b {
      assert Label(a)[0] != Label(b)[0];
    }
  }

  /**
   * One spreadsheet row, by position: column 0 (an identifier), column 1
   * (read as the address) and column 2 (read as the last-visit date).
   */
  datatype Patient = Patient(id: Cell, endereco: Cell, data: Cell)

  /** The columns added on the charts stage: "Bairro" and "Dias desde atendimento". */
  datatype Derived = Derived(bairro: string, dias: Option<int>)

  /** A row of `df_total`; `derived` is None until the charts stage adds the columns. */
  datatype Row = Row(tipo: Kind, patient: Patient, derived: Option<Derived>)

  /** `df["Tipo"] = label`: every row of one sheet tagged with its type, in order. */
  function Tag(ps: seq<Patient>, k: Kind): (r: seq<Row>)
    ensures |r| == |ps|
    ensures forall i :: 0 <= i < |r| ==> r[i] == Row(k, ps[i], None)
  {
    seq(|ps|, i requires 0 <= i < |ps| => Row(k, ps[i], None))
  }

  /** `pd.concat([df_hipertensos, df_diabeticos], ignore_index=True)` after tagging. */
  function Merge(hip: seq<Patient>, dia: seq<Patient>): (r: seq<Row>)
    ensures |r| == |hip| + |dia|
    ensures forall i :: 0 <= i < |hip| ==> r[i] == Row(Hipertenso, hip[i], None)
    ensures forall i :: 0 <= i < |dia| ==> r[|hip| + i] == Row(Diabetico, dia[i], None)
  {
    Tag(hip, Hipertenso) + Tag(dia, Diabetico)
  }

  /** `len(df_total[df_total["Tipo"] == k])`. */
  function CountKind(rows: seq<Row>, k: Kind): (n: nat)
    ensures n <= |rows|
  {
    if rows == [] then 0
    else (if rows[0].tipo == k then 1 else 0) + CountKind(rows[1..], k)
  }

  lemma {:induction false} CountKindAppend(a: seq<Row>, b: seq<Row>, k: Kind)
    ensures CountKind(a + b, k) == CountKind(a, k) + CountKind(b, k)
  {
    if a == [] {
      assert a + b == b;
    } else {
      assert (a + b)[1..] == a[1..] + b;
      CountKindAppend(a[1..], b, k);
    }
  }

  /** A tagged sheet holds only rows of its own type. */
  lemma {:induction false} CountKindTag(ps: seq<Patient>, k: Kind, q: Kind)
    ensures CountKind(Tag(ps, k), q) == if q == k then |ps| else 0
  {
    if ps != [] {
      assert Tag(ps, k)[1..] == Tag(ps[1..], k);
      CountKindTag(ps[1..], k, q);
    }
  }

  /** Every row is of exactly one type: the two type counts add up to the total. */
  lemma {:induction false} KindsPartition(rows: seq<Row>)
    ensures CountKind(rows, Hipertenso) + CountKind(rows, Diabetico) == |rows|
  {
    if rows != [] {
      KindsPartition(rows[1..]);
    }
  }

  /**
   * The merged table is the hypertensive sheet's rows, in order, then the
   * diabetic sheet's; each type count is the length of its sheet.
   */
  lemma MergeCounts(hip: seq<Patient>, dia: seq<Patient>)
    ensures CountKind(Merge(hip, dia), Hipertenso) == |hip|
    ensures CountKind(Merge(hip, dia), Diabetico) == |dia|
  {
    CountKindAppend(Tag(hip, Hipertenso), Tag(dia, Diabetico), Hipertenso);
    CountKindAppend(Tag(hip, Hipertenso), Tag(dia, Diabetico), Diabetico);
    CountKindTag(hip, Hipertenso, Hipertenso);
    CountKindTag(hip, Hipertenso, Diabetico);
    CountKindTag(dia, Diabetico, Hipertenso);
    CountKindTag(dia, Diabetico, Diabetico);
  }

  /** The charts stage has added the derived columns to every row. */
  predicate Enriched(rows: seq<Row>) {
    forall i :: 0 <= i < |rows| ==> rows[i].derived.Some?
  }

  /**
   * Lines 59-66: each row gets its neighbourhood from the address column and
   * its day count (supplied per row: date parsing and the clock are outside the
   * model); type and sheet columns stay as they are.
   */
  function Enrich(rows: seq<Row>, dias: seq<Option<int>>): (r: seq<Row>)
    requires |dias| == |rows|
    ensures |r| == |rows| && Enriched(r)
    ensures forall i :: 0 <= i < |r| ==> r[i].tipo == rows[i].tipo && r[i].patient == rows[i].patient
    ensures forall i :: 0 <= i < |r| ==>
              r[i].derived == Some(Derived(ExtractBairro(rows[i].patient.endereco), dias[i]))
  {
    seq(|rows|, i requires 0 <= i < |rows| =>
      Row(rows[i].tipo, rows[i].patient, Some(Derived(ExtractBairro(rows[i].patient.endereco), dias[i]))))
  }

  /** Enriching keeps the type counts of the merged table. */
  lemma {:induction false} EnrichKeepsCounts(rows: seq<Row>, dias: seq<Option<int>>, k: Kind)
    requires |dias| == |rows|
    ensures CountKind(Enrich(rows, dias), k) == CountKind(rows, k)
  {
    if rows != [] {
      assert Enrich(rows, dias)[1..] == Enrich(rows[1..], dias[1..]);
      EnrichKeepsCounts(rows[1..], dias[1..], k);
    }
  }
}
