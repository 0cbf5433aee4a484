/**
 * The administrators' report table: a search box that filters the reports,
 * column headers that cycle a sort direction, a comparator applied to a copy
 * of the list, and the "Ver más" button that opens long notes in a modal.
 */
module AdminTable {
  import opened Wrappers
  import opened JsNumbers
  import opened JsStrings
  import opened JsArrays

  /** One row of the joined report listing, as the page receives it. */
  datatype Reporte = Reporte(
    proyecto: string,
    cod: string,
    institucion: string,
    medida: string,
    eje: string,
    cumplimiento: real,
    poa: bool,
    pei: bool,
    pom: bool,
    meta: real,
    porcentajeAccionesRealizadas: string,
    finiquitoPath: Option<string>,
    aclaraciones: Option<string>,
    justificacion: Option<string>)

  datatype SortKey = PorcentajeAccionesRealizadas | Cod | Proyecto | Institucion
  datatype SortOrder = Asc | Desc
  datatype SortConfig = SortConfig(key: SortKey, direction: SortOrder)

  /** A click on a sortable header: a new column sorts ascending, and the same column toggles. */
  function HandleSort(current: Option<SortConfig>, key: SortKey): (next: SortConfig)
    ensures next.key == key
    ensures next.direction == Desc <==> current == Some(SortConfig(key, Asc))
  {
    var direction := if current.Some? && current.value.key == key && current.value.direction == Asc then Desc else Asc;
    SortConfig(key, direction)
  }

  /** The sort state after clicking the header of `key` a number of times. */
  function ClickTimes(current: Option<SortConfig>, key: SortKey, clicks: nat): Option<SortConfig>
  {
    if clicks == 0 then current else Some(HandleSort(ClickTimes(current, key, clicks - 1), key))
  }

  /**
   * Clicking one column repeatedly alternates asc, desc, asc, ...; the first
   * click gives desc only when that column was already ascending.
   */
  lemma {:induction false} SortToggleCycle(current: Option<SortConfig>, key: SortKey, clicks: nat)
    requires clicks > 0
    ensures ClickTimes(current, key, clicks).Some?
    ensures ClickTimes(current, key, clicks).value.key == key
    ensures var start := if current == Some(SortConfig(key, Asc)) then 1 else 0;
            ClickTimes(current, key, clicks).value.direction == if (clicks + start) % 2 == 1 then Asc else Desc
  {
    if clicks > 1 {
      SortToggleCycle(current, key, clicks - 1);
    }
  }

  /** The search: the lower-cased term occurs in the lower-cased project, code or institution. */
  predicate MatchesSearch(r: Reporte, term: string)
  {
    var t := ToLowerCase(term);
    Includes(ToLowerCase(r.proyecto), t) || Includes(ToLowerCase(r.cod), t) || Includes(ToLowerCase(r.institucion), t)
  }

  /** The record kept by the search, exactly as the three `includes` calls decide. */
  lemma MatchesSearchIff(r: Reporte, term: string)
    ensures MatchesSearch(r, term) <==>
              (exists i :: OccursAt(ToLowerCase(r.proyecto), ToLowerCase(term), i))
              || (exists i :: OccursAt(ToLowerCase(r.cod), ToLowerCase(term), i))
              || (exists i :: OccursAt(ToLowerCase(r.institucion), ToLowerCase(term), i))
  {
    IncludesIff(ToLowerCase(r.proyecto), ToLowerCase(term));
    IncludesIff(ToLowerCase(r.cod), ToLowerCase(term));
    IncludesIff(ToLowerCase(r.institucion), ToLowerCase(term));
  }

  /** The value a record is sorted by: the percentage is parsed as a number, the others compare as strings. */
  datatype SortValue = Text(text: string) | Numeric(number: Number)

  function SortValueOf(r: Reporte, key: SortKey): SortValue
  {
    match key
    case PorcentajeAccionesRealizadas => Numeric(ParseFloat(r.porcentajeAccionesRealizadas))
    case Cod => Text(r.cod)
    case Proyecto => Text(r.proyecto)
    case Institucion => Text(r.institucion)
  }

  /** JavaScript's `a < b` on the sort values. */
  predicate ValueLess(a: SortValue, b: SortValue)
  {
    match (a, b)
    case (Text(x), Text(y)) => CodeUnitLess(x, y)
    case (Numeric(x), Numeric(y)) => NumberLess(x, y)
    case _ => false
  }

  /** The comparator handed to `sort`. */
  function Compare(cfg: Option<SortConfig>, a: Reporte, b: Reporte): (c: int)
    ensures c in {-1, 0, 1}
    ensures cfg.None? ==> c == 0
  {
    if cfg.None? then 0
    else
      var av := SortValueOf(a, cfg.value.key);
      var bv := SortValueOf(b, cfg.value.key);
      if ValueLess(av, bv) then (if cfg.value.direction == Asc then -1 else 1)
      else if ValueLess(bv, av) then (if cfg.value.direction == Asc then 1 else -1)
      else 0
  }

  /** The reports the table shows: `[...reportes].filter(search).sort(comparator)`. */
  function SortedAndFiltered(reportes: seq<Reporte>, term: string, cfg: Option<SortConfig>): seq<Reporte>
  {
    Sort(Filter(reportes, r => MatchesSearch(r, term)), (a, b) => Compare(cfg, a, b))
  }

  lemma {:induction false} ValueLessAsymmetric(a: SortValue, b: SortValue)
    ensures !(ValueLess(a, b) && ValueLess(b, a))
  {
    if a.Text? && b.Text? {
      CodeUnitLessAsymmetric(a.text, b.text);
    }
  }

  /** The descending comparator is the ascending one negated. */
  lemma DescNegatesAsc(key: SortKey, a: Reporte, b: Reporte)
    ensures Compare(Some(SortConfig(key, Desc)), a, b) == -Compare(Some(SortConfig(key, Asc)), a, b)
  {
    ValueLessAsymmetric(SortValueOf(a, key), SortValueOf(b, key));
  }

  /** The percentage column compares parsed numbers: the report with the smaller integer percentage comes first. */
  lemma PercentageSortsNumerically(a: Reporte, b: Reporte, m: int, n: int)
    requires a.porcentajeAccionesRealizadas == IntToString(m) && b.porcentajeAccionesRealizadas == IntToString(n)
    requires m < n
    ensures Compare(Some(SortConfig(PorcentajeAccionesRealizadas, Asc)), a, b) == -1
  {
    ParseFloatRoundTrip(m);
    ParseFloatRoundTrip(n);
  }

  /** As strings "10" would sort before "9", which is why the numeric comparison matters. */
  lemma TextOrderDiffersFromNumeric()
    ensures CodeUnitLess(IntToString(10), IntToString(9))
  {
    assert IntToString(10) == "10" && IntToString(9) == "9";
  }

  /** An empty search keeps every report. */
  lemma {:induction false} EmptySearchKeepsAll(reportes: seq<Reporte>)
    ensures Filter(reportes, r => MatchesSearch(r, "")) == reportes
  {
    forall i | 0 <= i < |reportes| ensures MatchesSearch(reportes[i], "") {
      assert ToLowerCase("") == "";
      assert "" <= ToLowerCase(reportes[i].proyecto);
    }
    FilterKeepsAll(reportes, r => MatchesSearch(r, ""));
  }

  /** With no column chosen, the comparator is always 0 and the filtered order is kept. */
  lemma UnsortedKeepsFilterOrder(reportes: seq<Reporte>, term: string)
    ensures SortedAndFiltered(reportes, term, None) == Filter(reportes, r => MatchesSearch(r, term))
  {
    SortKeepsOrderWhenAllEqual(Filter(reportes, r => MatchesSearch(r, term)), (a, b) => Compare(None, a, b));
  }

  /** So an empty search with no sort shows the reports exactly as fetched. */
  lemma InitialViewIsFetchOrder(reportes: seq<Reporte>)
    ensures SortedAndFiltered(reportes, "", None) == reportes
  {
    UnsortedKeepsFilterOrder(reportes, "");
    EmptySearchKeepsAll(reportes);
  }

  /** The table shows a rearrangement of the matching reports: none lost, none added, none duplicated. */
  lemma ShownIsPermutationOfMatches(reportes: seq<Reporte>, term: string, cfg: Option<SortConfig>)
    ensures multiset(SortedAndFiltered(reportes, term, cfg)) == multiset(Filter(reportes, r => MatchesSearch(r, term)))
    ensures forall r :: r in SortedAndFiltered(reportes, term, cfg) <==> r in reportes && MatchesSearch(r, term)
  {
    var f := Filter(reportes, r => MatchesSearch(r, term));
    FilterCounts(reportes, r => MatchesSearch(r, term));
    forall r ensures r in SortedAndFiltered(reportes, term, cfg) <==> r in reportes && MatchesSearch(r, term) {
      assert r in SortedAndFiltered(reportes, term, cfg) <==> r in multiset(f);
      assert r in reportes <==> r in multiset(reportes);
    }
  }

  /** Every report's sort value for the key is an ordinary value: a string, or a percentage that parses. */
  predicate Comparable(r: Reporte, key: SortKey)
  {
    key == PorcentajeAccionesRealizadas ==> !ParseFloat(r.porcentajeAccionesRealizadas).NaN?
  }

  lemma ValueLessTransitive(a: SortValue, b: SortValue, c: SortValue)
    requires ValueLess(a, b) && ValueLess(b, c)
    ensures ValueLess(a, c)
  {
    if a.Text? {
      CodeUnitLessTransitive(a.text, b.text, c.text);
    }
  }

  /** Two comparable values that are not ordered either way are equal as far as `<` can tell. */
  lemma ValueLessTotal(key: SortKey, a: Reporte, b: Reporte, c: Reporte)
    requires Comparable(a, key) && Comparable(b, key) && Comparable(c, key)
    requires !ValueLess(SortValueOf(a, key), SortValueOf(b, key)) && !ValueLess(SortValueOf(b, key), SortValueOf(a, key))
    ensures ValueLess(SortValueOf(a, key), SortValueOf(c, key)) <==> ValueLess(SortValueOf(b, key), SortValueOf(c, key))
    ensures ValueLess(SortValueOf(c, key), SortValueOf(a, key)) <==> ValueLess(SortValueOf(c, key), SortValueOf(b, key))
  {
    SortValueTies(SortValueOf(a, key), SortValueOf(b, key), SortValueOf(c, key));
  }

  /** A string, or a number other than NaN: the values `<` orders totally. */
  predicate OrdinaryValue(v: SortValue)
  {
    v.Numeric? ==> !v.number.NaN?
  }

  lemma SortValueTies(x: SortValue, y: SortValue, z: SortValue)
    requires OrdinaryValue(x) && OrdinaryValue(y) && OrdinaryValue(z)
    requires x.Text? == y.Text? && y.Text? == z.Text?
    requires !ValueLess(x, y) && !ValueLess(y, x)
    ensures ValueLess(x, z) <==> ValueLess(y, z)
    ensures ValueLess(z, x) <==> ValueLess(z, y)
  {
    if x.Text? && x.text != y.text {
      CodeUnitLessTotal(x.text, y.text);
    }
  }

  /** On comparable reports the comparator is consistent, in either direction. */
  lemma ComparatorConsistent(xs: seq<Reporte>, cfg: Option<SortConfig>)
    requires cfg.Some? ==> forall r :: r in xs ==> Comparable(r, cfg.value.key)
    ensures ConsistentOn(xs, (a, b) => Compare(cfg, a, b))
  {
    var cmp := (a, b) => Compare(cfg, a, b);
    if cfg.Some? {
      var key := cfg.value.key;
      forall a, b | a in xs && b in xs && cmp(a, b) > 0 ensures cmp(b, a) < 0 {
        ValueLessAsymmetric(SortValueOf(a, key), SortValueOf(b, key));
      }
      forall a, b, c | a in xs && b in xs && c in xs && cmp(a, b) <= 0 && cmp(b, c) <= 0
        ensures cmp(a, c) <= 0
      {
        var va, vb, vc := SortValueOf(a, key), SortValueOf(b, key), SortValueOf(c, key);
        ValueLessAsymmetric(va, vb);
        ValueLessAsymmetric(vb, vc);
        ValueLessAsymmetric(va, vc);
        if ValueLess(va, vb) && ValueLess(vb, vc) {
          ValueLessTransitive(va, vb, vc);
        } else if ValueLess(vb, va) && ValueLess(vc, vb) {
          ValueLessTransitive(vc, vb, va);
        } else if !ValueLess(va, vb) && !ValueLess(vb, va) {
          ValueLessTotal(key, a, b, c);
        } else if !ValueLess(vb, vc) && !ValueLess(vc, vb) {
          ValueLessTotal(key, b, c, a);
        }
      }
    }
  }

  /** When every shown report is comparable under the chosen column, the table really is in that order. */
  lemma ShownIsSorted(reportes: seq<Reporte>, term: string, cfg: Option<SortConfig>)
    requires cfg.Some? ==> forall r :: r in reportes ==> Comparable(r, cfg.value.key)
    ensures SortedBy(SortedAndFiltered(reportes, term, cfg), (a, b) => Compare(cfg, a, b))
  {
    var f := Filter(reportes, r => MatchesSearch(r, term));
    FilterCounts(reportes, r => MatchesSearch(r, term));
    forall r | r in f ensures r in reportes {
      assert r in multiset(f);
    }
    ComparatorConsistent(f, cfg);
    SortSorted(f, (a, b) => Compare(cfg, a, b));
  }

  /** The note cell: long text (over 30 characters, null read as "") becomes a "Ver más" button. */
  datatype NoteCell = Inline(text: Option<string>) | VerMas

  function OrEmpty(s: Option<string>): (t: string)
    ensures s.Some? ==> t == s.value
    ensures s.None? ==> t == ""
  {
    if s.Some? then s.value else ""
  }

  function NoteCellFor(s: Option<string>): (cell: NoteCell)
    ensures cell.VerMas? <==> |OrEmpty(s)| > 30
    ensures cell.Inline? ==> cell.text == s
  {
    if |OrEmpty(s)| > 30 then VerMas else Inline(s)
  }

  /** The note modal's state. */
  datatype Modal = Modal(isOpen: bool, content: string, title: string)

  /** `handleOpenModal`: null content shows as the empty text; the modal opens. */
  function OpenModal(m: Modal, content: Option<string>, title: string): (r: Modal)
    ensures r.isOpen && r.title == title
    ensures r.content == OrEmpty(content)
  {
    Modal(true, if content.Some? then content.value else "", title)
  }

  /** The modal's close button. */
  function CloseModal(m: Modal): (r: Modal)
    ensures !r.isOpen && r.content == m.content && r.title == m.title
  {
    m.(isOpen := false)
  }

  /** A note too long for its cell is shown whole, untruncated, in the modal its button opens. */
  lemma VerMasShowsWholeNote(m: Modal, note: Option<string>, title: string)
    requires NoteCellFor(note).VerMas?
    ensures note.Some? && OpenModal(m, note, title).content == note.value
    ensures |OpenModal(m, note, title).content| > 30
  {
  }
}
