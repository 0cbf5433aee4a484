// The annual compliance matrix (the `tableFinal` page): the years shown, the
// grouping of one institution's reports into projects and years, the
// institution selector, the detail modal and the name of the PDF it saves.

module AnnualReport {
  import opened Wrappers
  import opened JsNumbers
  import opened JsStrings
  import opened JsArrays

  /** One row of `GET /api/reportes/all`, as the page reads it. */
  datatype ApiRecord = ApiRecord(
    institucion: string,
    cod: string,
    anio: int,
    proyecto: string,
    eje: string,
    medida: string,
    meta: real,
    cumplimiento: real,
    porcentajeAccionesRealizadas: real,
    aclaraciones: Option<string>,
    justificacion: Option<string>)

  /** A project row of the matrix: its records keyed by `String(anio)`. */
  datatype ProjectEntry = ProjectEntry(cod: string, proyecto: string, dataByYear: map<string, ApiRecord>)

  /**
   * An institution while the records are grouped: `projects` is the object
   * keyed by `cod`, `projectKeys` the order in which its keys were created.
   */
  datatype InstitutionEntry = InstitutionEntry(
    name: string,
    projects: map<string, ProjectEntry>,
    projectKeys: seq<string>,
    rowspan: nat)

  /** An institution as the matrix renders it: projects as an array. */
  datatype FinalInstitution = FinalInstitution(name: string, projects: seq<ProjectEntry>, rowspan: nat)

  const FirstYear: int := 2015
  const LastYear: int := 2025

  // ---------------------------------------------------------------------------
  // The matrix columns
  // ---------------------------------------------------------------------------

  /** `YEARS`: one column per year from 2015 to 2025, in ascending order. */
  function Years(): (ys: seq<int>)
    ensures |ys| == 11
    ensures forall i :: 0 <= i < |ys| ==> ys[i] == 2015 + i
    ensures forall i, j :: 0 <= i < j < |ys| ==> ys[i] < ys[j]
  {
    seq(LastYear - FirstYear + 1, i => FirstYear + i)
  }

  /** The columns are exactly the years 2015 to 2025. */
  lemma YearsAreTheRange()
    ensures forall y :: y in Years() <==> 2015 <= y <= 2025
  {
    forall y | 2015 <= y <= 2025 ensures y in Years() {
      assert Years()[y - 2015] == y;
    }
  }

  // ---------------------------------------------------------------------------
  // Grouping the records (`useReportData`)
  // ---------------------------------------------------------------------------

  /** The records of the selected institution; none while nothing is selected. */
  function FilteredRecords(rawData: seq<ApiRecord>, selected: string): (f: seq<ApiRecord>)
    ensures selected == "" ==> f == []
    ensures forall i :: 0 <= i < |f| ==> f[i].institucion == selected
  {
    if selected == "" then [] else Filter(rawData, (r: ApiRecord) => r.institucion == selected)
  }

  /** Once an institution is selected, its records are kept, each as often as it occurs, and no others. */
  lemma FilteredRecordsContents(rawData: seq<ApiRecord>, selected: string)
    requires selected != ""
    ensures forall r :: multiset(FilteredRecords(rawData, selected))[r] ==
                          if r.institucion == selected then multiset(rawData)[r] else 0
  {
    FilterCounts(rawData, (r: ApiRecord) => r.institucion == selected);
  }

  /** Record `r` is of project `c`. */
  predicate OfProject(r: ApiRecord, c: string)
  {
    r.cod == c
  }

  /** Record `r` belongs in the cell of project `c` and year key `key`. */
  predicate InCell(r: ApiRecord, c: string, key: string)
  {
    r.cod == c && IntToString(r.anio) == key
  }

  /** The project codes of the first `n` records, each once, in the order they first appear. */
  function FirstCodes(f: seq<ApiRecord>, n: nat): seq<string>
    requires n <= |f|
  {
    if n == 0 then []
    else
      var codes := FirstCodes(f, n - 1);
      if f[n - 1].cod in codes then codes else codes + [f[n - 1].cod]
  }

  /** The first codes are exactly the codes of the first `n` records. */
  lemma {:induction false} FirstCodesMembers(f: seq<ApiRecord>, n: nat)
    requires n <= |f|
    ensures forall c :: c in FirstCodes(f, n) <==> exists j :: 0 <= j < n && OfProject(f[j], c)
  {
    if n > 0 {
      FirstCodesMembers(f, n - 1);
      forall c ensures c in FirstCodes(f, n) <==> exists j :: 0 <= j < n && OfProject(f[j], c) {
        if OfProject(f[n - 1], c) {
          assert c in FirstCodes(f, n);
        }
      }
    }
  }

  /** No code is listed twice. */
  lemma {:induction false} FirstCodesDistinct(f: seq<ApiRecord>, n: nat)
    requires n <= |f|
    ensures Distinct(FirstCodes(f, n))
  {
    if n > 0 {
      FirstCodesDistinct(f, n - 1);
      var codes := FirstCodes(f, n - 1);
      if f[n - 1].cod !in codes {
        AppendNewKeepsDistinct(codes, f[n - 1].cod);
      }
    }
  }

  /** Record `j` is the last of the first `n` records for project `c` and year key `key`. */
  predicate IsLatest(f: seq<ApiRecord>, n: nat, j: nat, c: string, key: string)
    requires j < n <= |f|
  {
    && InCell(f[j], c, key)
    && forall k {:trigger InCell(f[k], c, key)} :: j < k < n ==> !InCell(f[k], c, key)
  }

  /** Record `j` is the first of project `c`. */
  predicate IsFirst(f: seq<ApiRecord>, j: nat, c: string)
    requires j < |f|
  {
    && OfProject(f[j], c)
    && forall k {:trigger OfProject(f[k], c)} :: 0 <= k < j ==> !OfProject(f[k], c)
  }

  /** `name` is the project name of the first of the first `n` records with code `c`. */
  ghost predicate NamedByFirst(name: string, f: seq<ApiRecord>, n: nat, c: string)
    requires n <= |f|
  {
    exists j {:trigger IsFirst(f, j, c)} :: 0 <= j < n && IsFirst(f, j, c) && f[j].proyecto == name
  }

  /** The keys of `data` are the years of the first `n` records with code `c`. */
  ghost predicate KeyedByYears(data: map<string, ApiRecord>, f: seq<ApiRecord>, n: nat, c: string)
    requires n <= |f|
  {
    forall key :: key in data <==> exists j {:trigger InCell(f[j], c, key)} :: 0 <= j < n && InCell(f[j], c, key)
  }

  /** Under each year `data` holds the last of the first `n` records with code `c` and that year. */
  ghost predicate HoldsLatest(data: map<string, ApiRecord>, f: seq<ApiRecord>, n: nat, c: string)
    requires n <= |f|
  {
    forall key :: key in data ==>
      exists j {:trigger IsLatest(f, n, j, c, key)} :: 0 <= j < n && data[key] == f[j] && IsLatest(f, n, j, c, key)
  }

  /**
   * What the first `n` records say about project `c`: its name is that of the
   * first record with code `c`, its year keys are the years of its records,
   * and each year holds the last record of that project and year.
   */
  ghost predicate ProjectSummary(p: ProjectEntry, f: seq<ApiRecord>, n: nat, c: string)
    requires n <= |f|
  {
    && p.cod == c
    && NamedByFirst(p.proyecto, f, n, c)
    && KeyedByYears(p.dataByYear, f, n, c)
    && HoldsLatest(p.dataByYear, f, n, c)
  }

  /**
   * The grouping state after the first `n` records: one project per distinct
   * code, created in first-appearance order, and one row of rowspan each.
   */
  ghost predicate InstitutionSummary(e: InstitutionEntry, f: seq<ApiRecord>, n: nat)
    requires n <= |f|
  {
    && e.projectKeys == FirstCodes(f, n)
    && (forall c :: c in e.projects <==> c in e.projectKeys)
    && e.rowspan == |e.projectKeys|
    && ProjectsSummary(e.projects, f, n)
  }

  /** Every project stored under code `c` summarises the records with code `c`. */
  ghost predicate ProjectsSummary(projects: map<string, ProjectEntry>, f: seq<ApiRecord>, n: nat)
    requires n <= |f|
  {
    forall c :: c in projects ==> ProjectSummary(projects[c], f, n, c)
  }

  lemma NamedByFirstExtends(name: string, f: seq<ApiRecord>, n: nat, c: string)
    requires n < |f| && NamedByFirst(name, f, n, c)
    ensures NamedByFirst(name, f, n + 1, c)
  {
    var j :| 0 <= j < n && IsFirst(f, j, c) && f[j].proyecto == name;
    assert 0 <= j < n + 1;
  }

  lemma NamedByFirstCreated(f: seq<ApiRecord>, n: nat)
    requires n < |f|
    requires forall k :: 0 <= k < n ==> !OfProject(f[k], f[n].cod)
    ensures NamedByFirst(f[n].proyecto, f, n + 1, f[n].cod)
  {
    assert IsFirst(f, n, f[n].cod);
  }

  /** A record of another project changes nothing for project `c`. */
  lemma YearsUnaffected(data: map<string, ApiRecord>, f: seq<ApiRecord>, n: nat, c: string)
    requires n < |f| && f[n].cod != c
    requires KeyedByYears(data, f, n, c) && HoldsLatest(data, f, n, c)
    ensures KeyedByYears(data, f, n + 1, c) && HoldsLatest(data, f, n + 1, c)
  {
    forall key | key in data
      ensures exists j :: 0 <= j < n + 1 && data[key] == f[j] && IsLatest(f, n + 1, j, c, key)
    {
      var j :| 0 <= j < n && data[key] == f[j] && IsLatest(f, n, j, c, key);
      LatestExtends(f, n, j, c, key);
    }
    forall key ensures key in data <==> exists j {:trigger InCell(f[j], c, key)} :: 0 <= j < n + 1 && InCell(f[j], c, key) {
      CellUnchanged(f, n, c, key);
    }
  }

  /** A record outside a cell does not add to the records of that cell. */
  lemma CellUnchanged(f: seq<ApiRecord>, n: nat, c: string, key: string)
    requires n < |f| && !InCell(f[n], c, key)
    ensures (exists j {:trigger InCell(f[j], c, key)} :: 0 <= j < n + 1 && InCell(f[j], c, key)) ==
            (exists j {:trigger InCell(f[j], c, key)} :: 0 <= j < n && InCell(f[j], c, key))
  {
  }

  /** Storing record `n` under its year keeps the keys exactly the years seen. */
  lemma YearKeysRecordAdded(data: map<string, ApiRecord>, f: seq<ApiRecord>, n: nat)
    requires n < |f| && KeyedByYears(data, f, n, f[n].cod)
    ensures KeyedByYears(data[IntToString(f[n].anio) := f[n]], f, n + 1, f[n].cod)
  {
    var c, k0 := f[n].cod, IntToString(f[n].anio);
    var data' := data[k0 := f[n]];
    forall key ensures key in data' <==>
        exists j {:trigger InCell(f[j], c, key)} :: 0 <= j < n + 1 && InCell(f[j], c, key)
    {
      if key == k0 {
        assert InCell(f[n], c, key);
      } else {
        assert !InCell(f[n], c, key);
      }
    }
  }

  /** Storing record `n` under its year keeps each year's record the latest. */
  lemma LatestRecordAdded(data: map<string, ApiRecord>, f: seq<ApiRecord>, n: nat)
    requires n < |f| && HoldsLatest(data, f, n, f[n].cod)
    ensures HoldsLatest(data[IntToString(f[n].anio) := f[n]], f, n + 1, f[n].cod)
  {
    var c, k0 := f[n].cod, IntToString(f[n].anio);
    var data' := data[k0 := f[n]];
    forall key | key in data'
      ensures exists j :: 0 <= j < n + 1 && data'[key] == f[j] && IsLatest(f, n + 1, j, c, key)
    {
      if key == k0 {
        assert IsLatest(f, n + 1, n, c, key);
      } else {
        var j :| 0 <= j < n && data[key] == f[j] && IsLatest(f, n, j, c, key);
        LatestExtends(f, n, j, c, key);
      }
    }
  }

  /** A record outside the cell leaves the cell's latest record the latest. */
  lemma LatestExtends(f: seq<ApiRecord>, n: nat, j: nat, c: string, key: string)
    requires j < n < |f| && IsLatest(f, n, j, c, key) && !InCell(f[n], c, key)
    ensures IsLatest(f, n + 1, j, c, key)
  {
  }

  /** A project not seen before starts with no years, which is what the records say. */
  lemma NoYearsYet(f: seq<ApiRecord>, n: nat, c: string)
    requires n <= |f|
    requires forall k :: 0 <= k < n ==> !OfProject(f[k], c)
    ensures KeyedByYears(map[], f, n, c) && HoldsLatest(map[], f, n, c)
  {
    forall key, j | 0 <= j < n ensures !InCell(f[j], c, key) {
      assert !OfProject(f[j], c);
    }
  }

  /** The code of record `n` is new exactly when no earlier record has it. */
  lemma CodKeysStep(keys: seq<string>, f: seq<ApiRecord>, n: nat)
    requires n < |f| && keys == FirstCodes(f, n)
    ensures FirstCodes(f, n + 1) == if f[n].cod in keys then keys else keys + [f[n].cod]
    ensures f[n].cod !in keys ==> forall k :: 0 <= k < n ==> !OfProject(f[k], f[n].cod)
  {
    FirstCodesMembers(f, n);
  }

  /** Storing record `n` in its project keeps every project's summary true. */
  lemma ProjectsStep(projects: map<string, ProjectEntry>, f: seq<ApiRecord>, n: nat, p: ProjectEntry)
    requires n < |f| && ProjectsSummary(projects, f, n)
    requires f[n].cod in projects ==> p == projects[f[n].cod]
    requires f[n].cod !in projects ==>
      p == ProjectEntry(f[n].cod, f[n].proyecto, map[]) && forall k :: 0 <= k < n ==> !OfProject(f[k], f[n].cod)
    ensures ProjectsSummary(projects[f[n].cod := p.(dataByYear := p.dataByYear[IntToString(f[n].anio) := f[n]])], f, n + 1)
  {
    var c := f[n].cod;
    var projects' := projects[c := p.(dataByYear := p.dataByYear[IntToString(f[n].anio) := f[n]])];
    if c in projects {
      NamedByFirstExtends(p.proyecto, f, n, c);
    } else {
      NamedByFirstCreated(f, n);
      NoYearsYet(f, n, c);
    }
    YearKeysRecordAdded(p.dataByYear, f, n);
    LatestRecordAdded(p.dataByYear, f, n);
    assert ProjectSummary(projects'[c], f, n + 1, c);
    forall c' | c' in projects' && c' != c ensures ProjectSummary(projects'[c'], f, n + 1, c') {
      var q := projects[c'];
      NamedByFirstExtends(q.proyecto, f, n, c');
      YearsUnaffected(q.dataByYear, f, n, c');
    }
  }

  /**
   * One pass of the grouping loop keeps the summary true: `mid` is the entry
   * after step b (the project created when its code is new), `e2` the entry
   * after step c (the record stored under its year).
   */
  lemma AddRecordKeepsSummary(e: InstitutionEntry, f: seq<ApiRecord>, n: nat, mid: InstitutionEntry, e2: InstitutionEntry)
    requires n < |f|
    requires InstitutionSummary(e, f, n)
    requires f[n].cod in e.projects ==> mid == e
    requires f[n].cod !in e.projects ==>
      mid == e.(projects := e.projects[f[n].cod := ProjectEntry(f[n].cod, f[n].proyecto, map[])],
                projectKeys := e.projectKeys + [f[n].cod],
                rowspan := e.rowspan + 1)
    requires f[n].cod in mid.projects
    requires e2 == mid.(projects := mid.projects[f[n].cod :=
                          mid.projects[f[n].cod].(dataByYear := mid.projects[f[n].cod].dataByYear[IntToString(f[n].anio) := f[n]])])
    ensures InstitutionSummary(e2, f, n + 1)
  {
    var c := f[n].cod;
    CodKeysStep(e.projectKeys, f, n);
    var p := mid.projects[c];
    assert e2.projects == e.projects[c := p.(dataByYear := p.dataByYear[IntToString(f[n].anio) := f[n]])];
    ProjectsStep(e.projects, f, n, p);
  }

  /**
   * The order of `Object.values` on an object keyed by project code: keys
   * that are array indices first, in ascending numeric order, then the other
   * keys in the order they were created.
   */
  predicate IsArrayIndex(key: string)
  {
    && key != [] && AllDigits(key)
    && (key[0] == '0' ==> |key| == 1)
    && DigitsValue(key) < 0xFFFF_FFFF
  }

  predicate IsOtherKey(key: string)
  {
    !IsArrayIndex(key)
  }

  function IndexCompare(a: string, b: string): int
  {
    if AllDigits(a) && AllDigits(b) then
      var x, y := DigitsValue(a), DigitsValue(b);
      if x < y then -1 else if y < x then 1 else 0
    else 0
  }

  function ObjectKeyOrder(keys: seq<string>): (order: seq<string>)
    ensures multiset(order) == multiset(keys)
  {
    var indices := Filter(keys, IsArrayIndex);
    var others := Filter(keys, IsOtherKey);
    FilterCounts(keys, IsArrayIndex);
    FilterCounts(keys, IsOtherKey);
    var order := Sort(indices, IndexCompare) + others;
    assert forall k :: multiset(order)[k] == multiset(keys)[k];
    order
  }

  /** The projects of the grouped institution, in the order the matrix lists them. */
  function ProjectOrder(f: seq<ApiRecord>): seq<string>
  {
    ObjectKeyOrder(FirstCodes(f, |f|))
  }

  /** Every created key has its project. */
  predicate KeysStored(e: InstitutionEntry)
  {
    forall c :: c in e.projectKeys ==> c in e.projects
  }

  /** `Object.values(institutionsMap).map(...)` over the institutions in creation order. */
  function FinishAll(order: seq<string>, institutions: map<string, InstitutionEntry>): (all: seq<FinalInstitution>)
    requires forall name :: name in order ==> name in institutions && KeysStored(institutions[name])
    ensures |all| == |order|
  {
    seq(|order|, k requires 0 <= k < |order| => Finish(institutions[order[k]]))
  }

  /** The final conversion of an institution: its projects as an array. */
  function Finish(e: InstitutionEntry): (inst: FinalInstitution)
    requires KeysStored(e)
    ensures inst.name == e.name && inst.rowspan == e.rowspan
    ensures |inst.projects| == |ObjectKeyOrder(e.projectKeys)|
    ensures forall k :: 0 <= k < |inst.projects| ==>
      ObjectKeyOrder(e.projectKeys)[k] in e.projects && inst.projects[k] == e.projects[ObjectKeyOrder(e.projectKeys)[k]]
  {
    var order := ObjectKeyOrder(e.projectKeys);
    KeyOrderStored(e, order);
    FinalInstitution(e.name, ProjectsInOrder(order, e.projects), e.rowspan)
  }

  /** `order.map(cod => projects[cod])`. */
  function ProjectsInOrder(order: seq<string>, projects: map<string, ProjectEntry>): (rows: seq<ProjectEntry>)
    requires forall k :: 0 <= k < |order| ==> order[k] in projects
    ensures |rows| == |order|
    ensures forall k :: 0 <= k < |order| ==> rows[k] == projects[order[k]]
  {
    if order == [] then [] else [projects[order[0]]] + ProjectsInOrder(order[1..], projects)
  }

  /** Reordering the created keys keeps their number and finds each one's project. */
  lemma KeyOrderStored(e: InstitutionEntry, order: seq<string>)
    requires KeysStored(e) && multiset(order) == multiset(e.projectKeys)
    ensures |order| == |e.projectKeys|
    ensures forall k :: 0 <= k < |order| ==> order[k] in e.projects
  {
    assert |multiset(order)| == |multiset(e.projectKeys)|;
    forall k | 0 <= k < |order| ensures order[k] in e.projects {
      assert order[k] in multiset(e.projectKeys);
    }
  }

  /**
   * What the matrix of the selected institution shows for the records `f`:
   * one row per distinct project code, in `ProjectOrder`, each summarising
   * that project's records, and a rowspan equal to the number of rows.
   */
  ghost predicate Describes(inst: FinalInstitution, f: seq<ApiRecord>)
  {
    && |inst.projects| == |ProjectOrder(f)|
    && inst.rowspan == |inst.projects|
    && forall k :: 0 <= k < |inst.projects| ==> RowDescribes(inst.projects[k], f, ProjectOrder(f)[k])
  }

  /** Row `p` is the project with code `c` and summarises its records in `f`. */
  ghost predicate RowDescribes(p: ProjectEntry, f: seq<ApiRecord>, c: string)
  {
    p.cod == c && ProjectSummary(p, f, |f|, c)
  }

  /**
   * The grouping state after the first `i` records of `f`, all of institution
   * `selected`: no institution before the first record, afterwards exactly
   * `selected`, whose entry summarises the records seen. The loop's contracts
   * compare it with `true`, so that it is checked as one fact rather than
   * unfolded conjunct by conjunct at every call.
   */
  ghost predicate Grouped(institutionsMap: map<string, InstitutionEntry>, institutionOrder: seq<string>,
                          selected: string, f: seq<ApiRecord>, i: nat)
    requires i <= |f|
  {
    if i == 0 then institutionsMap == map[] && institutionOrder == []
    else OnlySelected(institutionsMap, institutionOrder, selected) && InstitutionSummary(institutionsMap[selected], f, i)
  }

  /** The only institution created is `selected`. */
  ghost predicate OnlySelected(institutionsMap: map<string, InstitutionEntry>, institutionOrder: seq<string>, selected: string)
  {
    && institutionOrder == [selected]
    && (forall name :: name in institutionsMap <==> name == selected)
    && institutionsMap[selected].name == selected
  }

  /** The `forEach` callback on record `i`: steps a, b and c of the grouping. */
  method GroupRecord(institutionsMap: map<string, InstitutionEntry>, institutionOrder: seq<string>, record: ApiRecord,
                     ghost selected: string, ghost f: seq<ApiRecord>, ghost i: nat)
    returns (institutionsMap': map<string, InstitutionEntry>, institutionOrder': seq<string>)
    requires i < |f| && record == f[i] && record.institucion == selected
    requires Grouped(institutionsMap, institutionOrder, selected, f, i) == true
    ensures Grouped(institutionsMap', institutionOrder', selected, f, i + 1) == true
  {
    institutionsMap', institutionOrder' := institutionsMap, institutionOrder;
    if record.institucion !in institutionsMap' {
      institutionsMap' := institutionsMap'[record.institucion := InstitutionEntry(record.institucion, map[], [], 0)];
      institutionOrder' := institutionOrder' + [record.institucion];
      assert f[..0] == [];
    }
    var entry := institutionsMap'[record.institucion];
    ghost var before := entry;
    if record.cod !in entry.projects {
      entry := entry.(projects := entry.projects[record.cod := ProjectEntry(record.cod, record.proyecto, map[])],
                      projectKeys := entry.projectKeys + [record.cod],
                      rowspan := entry.rowspan + 1);
    }
    ghost var mid := entry;
    var project := entry.projects[record.cod];
    entry := entry.(projects := entry.projects[record.cod := project.(dataByYear := project.dataByYear[IntToString(record.anio) := record])]);
    institutionsMap' := institutionsMap'[record.institucion := entry];
    AddRecordKeepsSummary(before, f, i, mid, entry);
    assert Grouped(institutionsMap', institutionOrder', selected, f, i + 1);
  }

  /** `useReportData`: groups the selected institution's records by project and year. */
  method UseReportData(rawData: seq<ApiRecord>, selectedInstitution: string) returns (normalized: seq<FinalInstitution>)
    ensures |normalized| <= 1
    ensures normalized == [] <==> FilteredRecords(rawData, selectedInstitution) == []
    ensures normalized != [] ==>
      normalized[0].name == selectedInstitution && Describes(normalized[0], FilteredRecords(rawData, selectedInstitution))
  {
    var filteredData := FilteredRecords(rawData, selectedInstitution);
    var institutionsMap, institutionOrder := GroupRecords(filteredData, selectedInstitution);
    GroupedFinishes(institutionsMap, institutionOrder, selectedInstitution, filteredData);
    normalized := FinishAll(institutionOrder, institutionsMap);
  }

  /** `filteredData.forEach(...)` over records that all belong to `selected`. */
  method GroupRecords(filteredData: seq<ApiRecord>, ghost selected: string)
    returns (institutionsMap: map<string, InstitutionEntry>, institutionOrder: seq<string>)
    requires forall i :: 0 <= i < |filteredData| ==> filteredData[i].institucion == selected
    ensures Grouped(institutionsMap, institutionOrder, selected, filteredData, |filteredData|) == true
  {
    institutionsMap, institutionOrder := map[], [];
    var i := 0;
    while i < |filteredData|
      invariant 0 <= i <= |filteredData|
      invariant Grouped(institutionsMap, institutionOrder, selected, filteredData, i) == true
    {
      institutionsMap, institutionOrder :=
        GroupRecord(institutionsMap, institutionOrder, filteredData[i], selected, filteredData, i);
      i := i + 1;
    }
  }

  /** Once every record is grouped, the final conversion describes them. */
  lemma GroupedFinishes(institutionsMap: map<string, InstitutionEntry>, institutionOrder: seq<string>,
                        selected: string, f: seq<ApiRecord>)
    requires Grouped(institutionsMap, institutionOrder, selected, f, |f|)
    ensures forall name :: name in institutionOrder ==> name in institutionsMap && KeysStored(institutionsMap[name])
    ensures |FinishAll(institutionOrder, institutionsMap)| <= 1
    ensures FinishAll(institutionOrder, institutionsMap) == [] <==> f == []
    ensures FinishAll(institutionOrder, institutionsMap) != [] ==>
      FinishAll(institutionOrder, institutionsMap)[0].name == selected &&
      Describes(FinishAll(institutionOrder, institutionsMap)[0], f)
  {
    if f != [] {
      var e := institutionsMap[selected];
      FinishDescribes(e, f);
      var all := FinishAll(institutionOrder, institutionsMap);
      assert |all| == 1 && all[0] == Finish(e);
    }
  }

  lemma FinishDescribes(e: InstitutionEntry, f: seq<ApiRecord>)
    requires InstitutionSummary(e, f, |f|)
    ensures KeysStored(e) && Describes(Finish(e), f)
  {
    var order := ObjectKeyOrder(e.projectKeys);
    var inst := Finish(e);
    assert |order| == |multiset(order)| == |multiset(e.projectKeys)| == |e.projectKeys|;
    forall k | 0 <= k < |inst.projects| ensures RowDescribes(inst.projects[k], f, order[k]) {
      StoredRowDescribes(e, f, order[k]);
    }
  }

  lemma StoredRowDescribes(e: InstitutionEntry, f: seq<ApiRecord>, c: string)
    requires InstitutionSummary(e, f, |f|) && c in e.projects
    ensures RowDescribes(e.projects[c], f, c)
  {
  }

  // ---------------------------------------------------------------------------
  // Properties of the grouping
  // ---------------------------------------------------------------------------

  /** The project rows: each distinct code of the records exactly once. */
  lemma ProjectOrderIsDistinctCodes(f: seq<ApiRecord>)
    ensures Distinct(ProjectOrder(f))
    ensures forall c :: c in ProjectOrder(f) <==> exists j :: 0 <= j < |f| && OfProject(f[j], c)
    ensures |ProjectOrder(f)| == |set j | 0 <= j < |f| :: f[j].cod|
  {
    var codes, order := FirstCodes(f, |f|), ProjectOrder(f);
    FirstCodesDistinct(f, |f|);
    PermutationKeepsDistinct(codes, order);
    FirstCodesMembers(f, |f|);
    forall c ensures c in order <==> exists j :: 0 <= j < |f| && OfProject(f[j], c) {
      assert c in order <==> c in multiset(codes);
      assert c in multiset(codes) <==> c in codes;
    }
    DistinctCardinality(order);
    CodeSet(order, f);
  }

  lemma CodeSet(order: seq<string>, f: seq<ApiRecord>)
    requires forall c :: c in order <==> exists j :: 0 <= j < |f| && OfProject(f[j], c)
    ensures (set x | x in order) == (set j | 0 <= j < |f| :: f[j].cod)
  {
    forall x | x in (set j | 0 <= j < |f| :: f[j].cod) ensures x in order {
      var j :| 0 <= j < |f| && f[j].cod == x;
      assert OfProject(f[j], x);
    }
  }

  /** Without codes that look like array indices, rows follow first appearance. */
  lemma ProjectOrderIsFirstAppearance(f: seq<ApiRecord>)
    requires forall j :: 0 <= j < |f| ==> !IsArrayIndex(f[j].cod)
    ensures ProjectOrder(f) == FirstCodes(f, |f|)
  {
    var codes := FirstCodes(f, |f|);
    FirstCodesMembers(f, |f|);
    forall i | 0 <= i < |codes| ensures !IsArrayIndex(codes[i]) {
      assert codes[i] in codes;
      var j :| 0 <= j < |f| && OfProject(f[j], codes[i]);
    }
    OtherKeysKeepOrder(codes);
  }

  /** Keys none of which is an array index keep their creation order. */
  lemma OtherKeysKeepOrder(keys: seq<string>)
    requires forall i :: 0 <= i < |keys| ==> !IsArrayIndex(keys[i])
    ensures ObjectKeyOrder(keys) == keys
  {
    FilterKeepsNone(keys, IsArrayIndex);
    FilterKeepsAll(keys, IsOtherKey);
  }

  /** The numeral of a number below 2^32 - 1 is an array index, worth that number. */
  lemma NumeralIsArrayIndex(m: nat)
    requires m < 0xFFFF_FFFF
    ensures IsArrayIndex(NatToString(m)) && DigitsValue(NatToString(m)) == m
  {
    NatToStringDigits(m);
    NatToStringValue(m);
  }

  /** Index-like codes are listed by numeric value whatever their creation order: "9" before "10". */
  lemma IndexCodesSortNumerically(m: nat, n: nat)
    requires m < n < 0xFFFF_FFFF
    ensures ObjectKeyOrder([NatToString(n), NatToString(m)]) == [NatToString(m), NatToString(n)]
  {
    var a, b := NatToString(n), NatToString(m);
    NumeralIsArrayIndex(m);
    NumeralIsArrayIndex(n);
    IndicesSortByValue([a, b]);
    assert IndexCompare(a, b) == 1;
    SortSwapsPair(a, b, IndexCompare);
  }

  /** Keys that are all array indices are ordered by value alone. */
  lemma IndicesSortByValue(keys: seq<string>)
    requires forall i :: 0 <= i < |keys| ==> IsArrayIndex(keys[i])
    ensures ObjectKeyOrder(keys) == Sort(keys, IndexCompare)
  {
    FilterKeepsAll(keys, IsArrayIndex);
    FilterKeepsNone(keys, IsOtherKey);
  }

  /** Numeric comparison is a consistent comparator on numeral keys. */
  lemma IndexCompareConsistent(xs: seq<string>)
    requires forall k :: k in xs ==> AllDigits(k)
    ensures ConsistentOn(xs, IndexCompare)
  {
  }

  /**
   * The order of `Object.values` for any keys: first the array-index keys,
   * each as often as it was created, in ascending numeric value; then every
   * other key in creation order.
   */
  lemma ObjectKeyOrderShape(keys: seq<string>)
    ensures var n := |Filter(keys, IsArrayIndex)|;
            var order := ObjectKeyOrder(keys);
            && n <= |order|
            && multiset(order[..n]) == multiset(Filter(keys, IsArrayIndex))
            && (forall i :: 0 <= i < n ==> IsArrayIndex(order[i]))
            && (forall i, j :: 0 <= i < j < n ==> DigitsValue(order[i]) <= DigitsValue(order[j]))
            && order[n..] == Filter(keys, IsOtherKey)
  {
    var indices := Filter(keys, IsArrayIndex);
    var sorted := Sort(indices, IndexCompare);
    SortedIndices(indices, sorted);
    var order := ObjectKeyOrder(keys);
    assert order == sorted + Filter(keys, IsOtherKey);
    assert order[..|indices|] == sorted;
  }

  /** Sorting array-index keys numerically keeps them and puts them in ascending value. */
  lemma SortedIndices(indices: seq<string>, sorted: seq<string>)
    requires forall i :: 0 <= i < |indices| ==> IsArrayIndex(indices[i])
    requires sorted == Sort(indices, IndexCompare)
    ensures |sorted| == |indices| && multiset(sorted) == multiset(indices)
    ensures forall i :: 0 <= i < |sorted| ==> IsArrayIndex(sorted[i])
    ensures forall i, j :: 0 <= i < j < |sorted| ==>
              IsArrayIndex(sorted[i]) && IsArrayIndex(sorted[j]) && DigitsValue(sorted[i]) <= DigitsValue(sorted[j])
  {
    assert |multiset(sorted)| == |multiset(indices)|;
    forall i | 0 <= i < |sorted| ensures IsArrayIndex(sorted[i]) {
      assert sorted[i] in multiset(indices);
    }
    IndexCompareConsistent(indices);
    SortSorted(indices, IndexCompare);
    SortedByValue(sorted);
  }

  /** Array-index keys in `IndexCompare` order ascend in numeric value. */
  lemma SortedByValue(sorted: seq<string>)
    requires forall i :: 0 <= i < |sorted| ==> IsArrayIndex(sorted[i])
    requires SortedBy(sorted, IndexCompare)
    ensures forall i, j :: 0 <= i < j < |sorted| ==>
              IsArrayIndex(sorted[i]) && IsArrayIndex(sorted[j]) && DigitsValue(sorted[i]) <= DigitsValue(sorted[j])
  {
    forall i, j | 0 <= i < j < |sorted|
      ensures DigitsValue(sorted[i]) <= DigitsValue(sorted[j])
    {
      assert IndexCompare(sorted[i], sorted[j]) <= 0;
    }
  }

  /** A cell of the matrix: the record stored under `String(year)`, if any. */
  function CellRecord(p: ProjectEntry, year: int): Option<ApiRecord>
  {
    var key := IntToString(year);
    if key in p.dataByYear then Some(p.dataByYear[key]) else None
  }

  /**
   * A cell is filled exactly when the project has a record for that year,
   * and then it shows the last such record.
   */
  lemma CellShowsLatestRecord(p: ProjectEntry, f: seq<ApiRecord>, c: string, year: int)
    requires ProjectSummary(p, f, |f|, c)
    ensures CellRecord(p, year).Some? <==> exists j :: 0 <= j < |f| && f[j].cod == c && f[j].anio == year
    ensures CellRecord(p, year).Some? ==>
      exists j :: 0 <= j < |f| && CellRecord(p, year).value == f[j] && f[j].cod == c && f[j].anio == year
                  && forall k :: j < k < |f| ==> !(f[k].cod == c && f[k].anio == year)
  {
    var key := IntToString(year);
    if exists j :: 0 <= j < |f| && f[j].cod == c && f[j].anio == year {
      var j :| 0 <= j < |f| && f[j].cod == c && f[j].anio == year;
      assert InCell(f[j], c, key);
    }
    if exists j {:trigger InCell(f[j], c, key)} :: 0 <= j < |f| && InCell(f[j], c, key) {
      var j :| 0 <= j < |f| && InCell(f[j], c, key);
      IntToStringInjective(f[j].anio, year);
    }
    if key in p.dataByYear {
      var j :| 0 <= j < |f| && p.dataByYear[key] == f[j] && IsLatest(f, |f|, j, c, key);
      IntToStringInjective(f[j].anio, year);
      forall k | j < k < |f| ensures !(f[k].cod == c && f[k].anio == year) {
        assert !InCell(f[k], c, key);
      }
    }
  }

  // ---------------------------------------------------------------------------
  // The institution selector
  // ---------------------------------------------------------------------------

  /** The default comparator of `Array.prototype.sort` on strings. */
  function DefaultCompare(a: string, b: string): int
  {
    if CodeUnitLess(a, b) then -1 else if CodeUnitLess(b, a) then 1 else 0
  }

  lemma DefaultCompareConsistent(xs: seq<string>)
    ensures ConsistentOn(xs, DefaultCompare)
  {
    forall a, b | a in xs && b in xs && DefaultCompare(a, b) > 0 ensures DefaultCompare(b, a) < 0 {
      CodeUnitLessAsymmetric(a, b);
    }
    forall a, b, c | a in xs && b in xs && c in xs && DefaultCompare(a, b) <= 0 && DefaultCompare(b, c) <= 0
      ensures DefaultCompare(a, c) <= 0
    {
      CodeUnitLessAsymmetric(a, b);
      CodeUnitLessAsymmetric(b, c);
      NotGreaterTransitive(a, b, c);
    }
  }

  lemma NotGreaterTransitive(a: string, b: string, c: string)
    requires !CodeUnitLess(b, a) && !CodeUnitLess(c, b)
    ensures !CodeUnitLess(c, a)
  {
    if a != b {
      CodeUnitLessTotal(a, b);
      if CodeUnitLess(c, a) {
        CodeUnitLessTransitive(c, a, b);
      }
    }
  }

  /** The institution of each record, in record order. */
  function InstitutionNames(reportes: seq<ApiRecord>): (names: seq<string>)
    ensures |names| == |reportes|
  {
    seq(|reportes|, k requires 0 <= k < |reportes| => reportes[k].institucion)
  }

  lemma InstitutionNamesMembers(reportes: seq<ApiRecord>)
    ensures forall n :: n in InstitutionNames(reportes) <==> exists k :: 0 <= k < |reportes| && reportes[k].institucion == n
  {
    var all := InstitutionNames(reportes);
    assert forall k :: 0 <= k < |reportes| ==> all[k] == reportes[k].institucion;
  }

  /** The default sort of duplicate-free strings is strictly increasing and keeps the elements. */
  lemma SortDistinctStrings(d: seq<string>, s: seq<string>)
    requires Distinct(d) && s == Sort(d, DefaultCompare)
    ensures forall i, j :: 0 <= i < j < |s| ==> CodeUnitLess(s[i], s[j])
    ensures forall x :: x in s <==> x in d
  {
    DefaultCompareConsistent(d);
    SortSorted(d, DefaultCompare);
    PermutationKeepsDistinct(d, s);
    assert forall x :: x in s <==> x in multiset(d);
    forall i, j | 0 <= i < j < |s| ensures CodeUnitLess(s[i], s[j]) {
      assert DefaultCompare(s[i], s[j]) <= 0 && s[i] != s[j];
      CodeUnitLessTotal(s[i], s[j]);
    }
  }

  /** `[...new Set(reportes.map(r => r.institucion))].sort()`. */
  function UniqueInstitutions(reportes: seq<ApiRecord>): (names: seq<string>)
    ensures forall i, j :: 0 <= i < j < |names| ==> CodeUnitLess(names[i], names[j])
    ensures forall n :: n in names <==> exists k :: 0 <= k < |reportes| && reportes[k].institucion == n
  {
    var all := InstitutionNames(reportes);
    var names := Sort(Dedup(all), DefaultCompare);
    DedupDistinct(all);
    SortDistinctStrings(Dedup(all), names);
    InstitutionNamesMembers(reportes);
    names
  }

  /** The institution selected after loading is one of the options, and its matrix is not empty. */
  lemma FirstInstitutionIsOffered(data: seq<ApiRecord>)
    requires data != [] && data[0].institucion != ""
    ensures data[0].institucion in UniqueInstitutions(data)
    ensures FilteredRecords(data, data[0].institucion) != []
  {
    FilteredRecordsContents(data, data[0].institucion);
    assert multiset(FilteredRecords(data, data[0].institucion))[data[0]] == multiset(data)[data[0]];
  }

  // ---------------------------------------------------------------------------
  // The detail modal and the PDF
  // ---------------------------------------------------------------------------

  const NoAclaraciones: string := "No se proporcionaron aclaraciones."
  const NoJustificacion: string := "No aplica."

  /** `text || fallback` on a text column that may be null. */
  function OrFallback(text: Option<string>, fallback: string): (shown: string)
    requires fallback != ""
    ensures shown != ""
    ensures text.Some? && text.value != "" ==> shown == text.value
    ensures (text.None? || text.value == "") ==> shown == fallback
  {
    if text.Some? && text.value != "" then text.value else fallback
  }

  /** The clarifications paragraph of the PDF. */
  function AclaracionesText(r: ApiRecord): (shown: string)
    ensures shown != ""
    ensures r.aclaraciones.Some? && r.aclaraciones.value != "" ==> shown == r.aclaraciones.value
    ensures (r.aclaraciones.None? || r.aclaraciones.value == "") ==> shown == NoAclaraciones
  {
    OrFallback(r.aclaraciones, NoAclaraciones)
  }

  /** The justification paragraph of the PDF. */
  function JustificacionText(r: ApiRecord): (shown: string)
    ensures shown != ""
    ensures r.justificacion.Some? && r.justificacion.value != "" ==> shown == r.justificacion.value
    ensures (r.justificacion.None? || r.justificacion.value == "") ==> shown == NoJustificacion
  {
    OrFallback(r.justificacion, NoJustificacion)
  }

  const PdfPrefix: string := "Reporte_Cumplimiento_"
  const PdfSuffix: string := ".pdf"

  /** The name under which the report of one project and year is saved. */
  function PdfFileName(r: ApiRecord): (name: string)
    ensures PdfPrefix <= name
    ensures |name| >= |PdfSuffix| && name[|name| - |PdfSuffix|..] == PdfSuffix
  {
    var name := PdfPrefix + r.cod + "_" + IntToString(r.anio) + PdfSuffix;
    assert name[|name| - |PdfSuffix|..] == PdfSuffix;
    assert name[..|PdfPrefix|] == PdfPrefix;
    name
  }

  /** Position of the last `c` in `s`, or -1. */
  function LastIndexOf(s: string, c: char): (i: int)
    ensures -1 <= i < |s|
    ensures i >= 0 ==> s[i] == c
    ensures forall k :: i < k < |s| ==> s[k] != c
  {
    if s == [] then -1
    else if s[|s| - 1] == c then |s| - 1
    else LastIndexOf(s[..|s| - 1], c)
  }

  /** The last `c` of `a + [c] + b` is the one after `a` when `b` holds none. */
  lemma {:induction false} LastIndexOfAfter(a: string, c: char, b: string)
    requires forall k :: 0 <= k < |b| ==> b[k] != c
    ensures LastIndexOf(a + [c] + b, c) == |a|
  {
    var s := a + [c] + b;
    if b != [] {
      assert s[..|s| - 1] == a + [c] + b[..|b| - 1];
      LastIndexOfAfter(a, c, b[..|b| - 1]);
    }
  }

  /** Reads the project code and year back from a PDF file name. */
  function ParsePdfFileName(name: string): (parsed: Option<(string, int)>)
  {
    if !(PdfPrefix <= name) || |name| < |PdfPrefix| + |PdfSuffix| || name[|name| - |PdfSuffix|..] != PdfSuffix then None
    else ParseCodeAndYear(name[|PdfPrefix|..|name| - |PdfSuffix|])
  }

  /** Splits `cod_year` at its last underscore; the year must be a canonical integer numeral. */
  function ParseCodeAndYear(middle: string): Option<(string, int)>
  {
    var u := LastIndexOf(middle, '_');
    if u < 0 then None
    else
      var yearText := middle[u + 1..];
      match ParseInt(yearText)
      case Finite(v) =>
        if IntToString(v.Floor) == yearText then Some((middle[..u], v.Floor)) else None
      case _ => None
  }

  /** The file name determines the project code and the year it was saved for. */
  lemma PdfFileNameRoundTrip(r: ApiRecord)
    ensures ParsePdfFileName(PdfFileName(r)) == Some((r.cod, r.anio))
  {
    var middle := r.cod + "_" + IntToString(r.anio);
    PdfFileNameFrames(PdfFileName(r), middle);
    CodeAndYearRoundTrip(r.cod, r.anio);
  }

  lemma PdfFileNameFrames(name: string, middle: string)
    requires name == PdfPrefix + middle + PdfSuffix
    ensures ParsePdfFileName(name) == ParseCodeAndYear(middle)
  {
    assert name[..|PdfPrefix|] == PdfPrefix;
    assert name[|name| - |PdfSuffix|..] == PdfSuffix;
    assert name[|PdfPrefix|..|name| - |PdfSuffix|] == middle;
  }

  lemma CodeAndYearRoundTrip(cod: string, year: int)
    ensures ParseCodeAndYear(cod + "_" + IntToString(year)) == Some((cod, year))
  {
    var yearText := IntToString(year);
    var middle := cod + "_" + yearText;
    IntToStringShape(year);
    assert forall k :: 0 <= k < |yearText| ==> yearText[k] != '_';
    LastIndexOfAfter(cod, '_', yearText);
    assert middle[|cod| + 1..] == yearText;
    assert middle[..|cod|] == cod;
    ParseIntRoundTrip(year);
  }

  /** Two records share a PDF file name only if they share project code and year. */
  lemma PdfFileNameInjective(a: ApiRecord, b: ApiRecord)
    requires PdfFileName(a) == PdfFileName(b)
    ensures a.cod == b.cod && a.anio == b.anio
  {
    PdfFileNameRoundTrip(a);
    PdfFileNameRoundTrip(b);
  }

  // ---------------------------------------------------------------------------
  // The page state
  // ---------------------------------------------------------------------------

  /** How loading `/api/reportes/all` can fail. */
  datatype FetchFailure =
    | NotOk(status: int)        // the answer's `ok` is false
    | Raised(message: string)   // `fetch` or `res.json()` threw an Error
    | RaisedNonError            // something that is not an Error was thrown

  const NotOkPrefix := "Failed to fetch reports. Status: "
  const UnknownFetchError := "An unknown error occurred during fetch."

  /** The text the page shows for a failed load. */
  function FetchErrorText(failure: FetchFailure): (m: string)
    ensures failure.NotOk? ==> |NotOkPrefix| < |m| && m[..|NotOkPrefix|] == NotOkPrefix
    ensures failure.Raised? ==> m == failure.message
    ensures failure.RaisedNonError? ==> m == UnknownFetchError
  {
    match failure
    case NotOk(status) =>
      NatToStringDigits(if status < 0 then -status else status);
      NotOkPrefix + IntToString(status)
    case Raised(message) => message
    case RaisedNonError => UnknownFetchError
  }

  /** The status of a non-ok answer can be read back from the message after its prefix. */
  lemma NotOkStatusReadBack(status: int)
    ensures ParseInt(FetchErrorText(NotOk(status))[|NotOkPrefix|..]) == Finite(status as real)
  {
    var m := FetchErrorText(NotOk(status));
    assert m[|NotOkPrefix|..] == IntToString(status);
    ParseIntRoundTrip(status);
  }

  class AnnualReportPage {
    var isLoading: bool
    var error: Option<string>
    var reportes: seq<ApiRecord>
    var selectedInstitution: string
    var selectedRecord: Option<ApiRecord>

    constructor()
      ensures isLoading && error == None && reportes == []
      ensures selectedInstitution == "" && selectedRecord == None
    {
      isLoading := true;
      error := None;
      reportes := [];
      selectedInstitution := "";
      selectedRecord := None;
    }

    /** The fetch succeeded: store the records and select the first one's institution. */
    method ReportsLoaded(data: seq<ApiRecord>)
      modifies this
      ensures reportes == data && !isLoading
      ensures selectedInstitution == if data != [] then data[0].institucion else old(selectedInstitution)
      ensures error == old(error) && selectedRecord == old(selectedRecord)
    {
      reportes := data;
      if |data| > 0 {
        selectedInstitution := data[0].institucion;
      }
      isLoading := false;
    }

    /** The fetch failed: show the failure's text and stop loading. */
    method ReportsFailed(failure: FetchFailure)
      modifies this
      ensures error == Some(FetchErrorText(failure)) && !isLoading
      ensures reportes == old(reportes) && selectedInstitution == old(selectedInstitution)
      ensures selectedRecord == old(selectedRecord)
    {
      error := Some(FetchErrorText(failure));
      isLoading := false;
    }

    /** The selector's `onChange`. */
    method SelectInstitution(name: string)
      modifies this
      ensures selectedInstitution == name
      ensures isLoading == old(isLoading) && error == old(error) && reportes == old(reportes)
      ensures selectedRecord == old(selectedRecord)
    {
      selectedInstitution := name;
    }

    /** `handleCellClick`: an empty cell leaves the modal as it was. */
    method HandleCellClick(record: Option<ApiRecord>)
      modifies this
      ensures selectedRecord == if record.Some? then record else old(selectedRecord)
      ensures isLoading == old(isLoading) && error == old(error) && reportes == old(reportes)
      ensures selectedInstitution == old(selectedInstitution)
    {
      if record.Some? {
        selectedRecord := record;
      }
    }

    /** The modal's `onClose`. */
    method CloseDetails()
      modifies this
      ensures selectedRecord == None
      ensures isLoading == old(isLoading) && error == old(error) && reportes == old(reportes)
      ensures selectedInstitution == old(selectedInstitution)
    {
      selectedRecord := None;
    }
  }
}
