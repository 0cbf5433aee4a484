// The report form (the home page): choosing an institution and one of its
// projects, filling in the compliance fields, and the checks the page makes
// before it uploads the PDF and posts the report to POST /api/reportes.

module ReportForm {
  import opened Wrappers
  import opened JsNumbers
  import opened ReportRoute

  /** One entry of `GET /api/instituciones`. */
  datatype Institucion = Institucion(id: int, nombre: string)

  /** One entry of `GET /api/proyectos?institucionId=...`; `reporteId` is `reporte_id`, which may be null. */
  datatype Proyecto = Proyecto(
    id: int,
    nombre: string,
    cod: string,
    medida: string,
    eje: string,
    meta: real,
    reporteId: Option<int>)

  /** A file chosen in the PDF input. */
  datatype FileRef = FileRef(name: string)

  /**
   * The form's fields. `cumplimiento` is `String(formData.cumplimiento)`: the
   * number 0 the field starts with and is reset to is written "0", and an edit
   * stores the input's text as it is.
   */
  datatype FormData = FormData(
    poa: bool,
    pei: bool,
    pom: bool,
    cumplimiento: string,
    finiquito: Option<FileRef>,
    aclaraciones: string,
    justificacion: string)

  const InitialForm := FormData(false, false, false, "0", None, "", "")

  /** The three checkboxes. */
  datatype Flag = Poa | Pei | Pom

  /** The `change` events the form's controls fire, by the `name` of the control. */
  datatype FieldChange =
    | FlagChange(flag: Flag, checked: bool)
    | CumplimientoChange(text: string)
    | AclaracionesChange(text: string)
    | JustificacionChange(text: string)

  /** The answer to a `fetch`: a status and the decoded payload, or an exception with its message. */
  datatype Response<T> = Response(status: int, payload: T) | NetworkError(reason: string)

  /** `res.ok`. */
  predicate Ok<T>(r: Response<T>)
  {
    r.Response? && 200 <= r.status <= 299
  }

  /** The result of one step of the submission: a value, or the message of the error it throws. */
  datatype Step<T> = Done(value: T) | Failed(reason: string)

  const ReportWarning := "⚠️ Este proyecto ya tiene un reporte registrado."
  const SelectProjectMessage := "Por favor, selecciona un proyecto."
  const AlreadyReportedMessage := "No se puede crear un nuevo reporte. Este proyecto ya tiene un registro."
  const JustificationRequiredMessage := "La justificación es obligatoria si el cumplimiento es 0."
  const SuccessMessage := "Reporte generado con éxito!"
  const UploadFailedReason := "Failed to upload PDF"
  const SaveFailedReason := "Failed to save report"

  /** The message the `catch` block shows. */
  function ErrorMessage(reason: string): (m: string)
    ensures |m| == 7 + |reason| && m[..7] == "Error: " && m[7..] == reason
  {
    "Error: " + reason
  }

  /** `proyecto.reporte_id` is truthy: present and not 0. */
  predicate HasReport(p: Proyecto)
  {
    p.reporteId.Some? && p.reporteId.value != 0
  }

  /** `cumplimientoValue === 0`. */
  predicate IsZero(x: Number)
  {
    x == Finite(0.0)
  }

  /** The justification textarea is rendered exactly when the compliance value is 0. */
  predicate JustificationVisible(cumplimientoValue: Number)
  {
    IsZero(cumplimientoValue)
  }

  /** The submit button is disabled while a submission runs or when the project already has a report. */
  predicate SubmitDisabled(loading: bool, selected: Proyecto)
  {
    loading || HasReport(selected)
  }

  /**
   * The three checks `handleSubmit` makes before any request, in their order;
   * the message of the first that fails, or None when all pass.
   */
  function SubmitRejection(selected: Option<Proyecto>, cumplimientoValue: Number, justificacion: string)
    : (rejection: Option<string>)
    ensures selected.None? ==> rejection == Some(SelectProjectMessage)
    ensures selected.Some? && HasReport(selected.value) ==> rejection == Some(AlreadyReportedMessage)
    ensures selected.Some? && !HasReport(selected.value) ==>
              (rejection == Some(JustificationRequiredMessage) <==> IsZero(cumplimientoValue) && justificacion == "")
    ensures rejection.None? <==>
              selected.Some? && !HasReport(selected.value) && !(IsZero(cumplimientoValue) && justificacion == "")
  {
    if selected.None? then Some(SelectProjectMessage)
    else if HasReport(selected.value) then Some(AlreadyReportedMessage)
    else if IsZero(cumplimientoValue) && justificacion == "" then Some(JustificationRequiredMessage)
    else None
  }

  /** A project that already has a report cannot be submitted: the button is disabled, and the check refuses it anyway. */
  lemma ReportedProjectBlocked(p: Proyecto, loading: bool, cumplimientoValue: Number, justificacion: string)
    requires HasReport(p)
    ensures SubmitDisabled(loading, p)
    ensures SubmitRejection(Some(p), cumplimientoValue, justificacion) == Some(AlreadyReportedMessage)
  {
  }

  /** The check asks for a justification exactly when its textarea is shown and left empty. */
  lemma JustificationAskedOnlyWhenShown(p: Proyecto, cumplimientoValue: Number, justificacion: string)
    requires !HasReport(p)
    ensures SubmitRejection(Some(p), cumplimientoValue, justificacion) == Some(JustificationRequiredMessage)
            <==> JustificationVisible(cumplimientoValue) && justificacion == ""
  {
  }

  /** `proyectos.find(p => p.id === x)`: the first project whose id equals `x`. */
  function FindProject(proyectos: seq<Proyecto>, x: Number): (found: Option<Proyecto>)
    ensures found.None? <==> forall i :: 0 <= i < |proyectos| ==> x != Finite(proyectos[i].id as real)
    ensures found.Some? ==>
              exists i :: 0 <= i < |proyectos| && proyectos[i] == found.value && x == Finite(proyectos[i].id as real)
                          && forall k :: 0 <= k < i ==> x != Finite(proyectos[k].id as real)
  {
    if proyectos == [] then None
    else if x == Finite(proyectos[0].id as real) then Some(proyectos[0])
    else
      var rest := FindProject(proyectos[1..], x);
      assert forall k :: 1 <= k < |proyectos| ==> proyectos[k] == proyectos[1..][k - 1];
      rest
  }

  /** The state update `setFormData(prev => ({ ...prev, [name]: checked or value }))`. */
  function UpdateForm(prev: FormData, change: FieldChange): (next: FormData)
    ensures next.finiquito == prev.finiquito
    ensures change.FlagChange? ==>
              next.cumplimiento == prev.cumplimiento && next.aclaraciones == prev.aclaraciones
              && next.justificacion == prev.justificacion
    ensures !change.FlagChange? ==> next.poa == prev.poa && next.pei == prev.pei && next.pom == prev.pom
    ensures next.cumplimiento == if change.CumplimientoChange? then change.text else prev.cumplimiento
    ensures next.aclaraciones == if change.AclaracionesChange? then change.text else prev.aclaraciones
    ensures next.justificacion == if change.JustificacionChange? then change.text else prev.justificacion
  {
    match change
    case FlagChange(Poa, checked) => prev.(poa := checked)
    case FlagChange(Pei, checked) => prev.(pei := checked)
    case FlagChange(Pom, checked) => prev.(pom := checked)
    case CumplimientoChange(text) => prev.(cumplimiento := text)
    case AclaracionesChange(text) => prev.(aclaraciones := text)
    case JustificacionChange(text) => prev.(justificacion := text)
  }

  /** `e.target.files?.[0] || null`. */
  function ChosenFile(files: Option<seq<FileRef>>): (file: Option<FileRef>)
    ensures file.Some? <==> files.Some? && files.value != []
    ensures file.Some? ==> file.value == files.value[0]
  {
    if files.Some? && files.value != [] then Some(files.value[0]) else None
  }

  /** The upload step: without a file the path stays null; otherwise the upload must answer ok. */
  function UploadStep(finiquito: Option<FileRef>, upload: Response<JsValue>): (step: Step<JsValue>)
    ensures finiquito.None? ==> step == Done(Null)
    ensures finiquito.Some? && Ok(upload) ==> step == Done(upload.payload)
    ensures finiquito.Some? && upload.NetworkError? ==> step == Failed(upload.reason)
    ensures finiquito.Some? && upload.Response? && !Ok(upload) ==> step == Failed(UploadFailedReason)
  {
    if finiquito.None? then Done(Null)
    else if upload.NetworkError? then Failed(upload.reason)
    else if !Ok(upload) then Failed(UploadFailedReason)
    else Done(upload.payload)
  }

  /** The report POST: it must answer ok. */
  function SaveStep(report: Response<Reply>): (step: Step<()>)
    ensures step.Done? <==> Ok(report)
    ensures report.NetworkError? ==> step == Failed(report.reason)
    ensures report.Response? && !Ok(report) ==> step == Failed(SaveFailedReason)
  {
    if report.NetworkError? then Failed(report.reason)
    else if !Ok(report) then Failed(SaveFailedReason)
    else Done(())
  }

  /** The JSON body `handleSubmit` posts, as the route's destructuring sees it. */
  function BuildBody(p: Proyecto, form: FormData, finiquitoPath: JsValue): (b: Body)
    ensures b.proyectoId == Num(p.id as real)
    ensures b.finiquitoPath == finiquitoPath
  {
    Body(
      Num(p.id as real),
      NumberToJson(ParseFloat(form.cumplimiento)),
      Bool(form.poa),
      Bool(form.pei),
      Bool(form.pom),
      finiquitoPath,
      Str(form.aclaraciones),
      Str(form.justificacion))
  }

  /** How a submission ends before the reset: stopped before the POST, or posted, with the error it raised if any. */
  datatype Submission = Stopped(message: string) | Posted(body: Body, failure: Option<string>)

  /**
   * `handleSubmit` up to the reset: the three checks, then the upload of the
   * chosen file, then the POST of the report.
   */
  function Submit(selected: Option<Proyecto>, cumplimientoValue: Number, form: FormData,
                  upload: Response<JsValue>, report: Response<Reply>): (s: Submission)
    ensures SubmitRejection(selected, cumplimientoValue, form.justificacion).Some? ==>
              s == Stopped(SubmitRejection(selected, cumplimientoValue, form.justificacion).value)
    ensures SubmitRejection(selected, cumplimientoValue, form.justificacion).None? ==>
              match UploadStep(form.finiquito, upload)
              case Failed(reason) => s == Stopped(ErrorMessage(reason))
              case Done(path) => s.Posted? && s.body == BuildBody(selected.value, form, path)
    ensures s.Posted? ==> (s.failure.None? <==> Ok(report))
    ensures s.Posted? && !Ok(report) ==> s.failure == Some(ErrorMessage(SaveStep(report).reason))
  {
    match SubmitRejection(selected, cumplimientoValue, form.justificacion)
    case Some(rejection) => Stopped(rejection)
    case None =>
      match UploadStep(form.finiquito, upload)
      case Failed(reason) => Stopped(ErrorMessage(reason))
      case Done(path) =>
        var failure := match SaveStep(report) case Failed(reason) => Some(ErrorMessage(reason)) case Done(_) => None;
        Posted(BuildBody(selected.value, form, path), failure)
  }

  /** The state the form starts in is consistent: its field "0" parses to the value 0. */
  lemma InitialComplianceIsZero()
    ensures ParseFloat(InitialForm.cumplimiento) == Finite(0.0)
  {
    ParseFloatRoundTrip(0);
    assert IntToString(0) == "0";
  }

  /**
   * The client's checks agree with the server's when the compliance value is
   * the parse of the field: a body that passes them is refused by the server's
   * body checks only for project id 0, and never for a missing justification.
   */
  lemma ClientGateMatchesServer(p: Proyecto, form: FormData, cumplimientoValue: Number, finiquitoPath: JsValue)
    requires cumplimientoValue == ParseFloat(form.cumplimiento)
    requires SubmitRejection(Some(p), cumplimientoValue, form.justificacion).None?
    ensures !JustificationMissing(BuildBody(p, form, finiquitoPath))
    ensures ReachesDatabase(Some(BuildBody(p, form, finiquitoPath))) <==> p.id != 0
  {
    var b := BuildBody(p, form, finiquitoPath);
    assert b.cumplimiento == Num(0.0) <==> IsZero(cumplimientoValue);
    assert !Truthy(b.justificacion) <==> form.justificacion == "";
  }

  /** The reverse direction: a body the server refuses for a missing justification was refused by the client too. */
  lemma ServerRefusalCaughtByClient(p: Proyecto, form: FormData, cumplimientoValue: Number, finiquitoPath: JsValue)
    requires cumplimientoValue == ParseFloat(form.cumplimiento)
    requires !HasReport(p)
    requires JustificationMissing(BuildBody(p, form, finiquitoPath))
    ensures SubmitRejection(Some(p), cumplimientoValue, form.justificacion) == Some(JustificationRequiredMessage)
    ensures JustificationVisible(cumplimientoValue)
  {
    var b := BuildBody(p, form, finiquitoPath);
    assert b.cumplimiento == Num(0.0);
    assert form.justificacion == "";
  }

  /** The checkboxes reach the stored row as 1 exactly when they were ticked. */
  lemma SubmittedFlagsStored(p: Proyecto, form: FormData, finiquitoPath: JsValue, meta: real)
    ensures RowFor(BuildBody(p, form, finiquitoPath), meta).poa == (if form.poa then 1 else 0)
    ensures RowFor(BuildBody(p, form, finiquitoPath), meta).pei == (if form.pei then 1 else 0)
    ensures RowFor(BuildBody(p, form, finiquitoPath), meta).pom == (if form.pom then 1 else 0)
  {
    var b := BuildBody(p, form, finiquitoPath);
    assert b.poa == Bool(form.poa) && b.pei == Bool(form.pei) && b.pom == Bool(form.pom);
  }

  /**
   * The texts reach the stored row as typed, and the compliance as the
   * `parseFloat` of the field, with NaN and the infinities sent as null.
   */
  lemma SubmittedTextsStored(p: Proyecto, form: FormData, finiquitoPath: JsValue, meta: real)
    ensures RowFor(BuildBody(p, form, finiquitoPath), meta).aclaraciones == Str(form.aclaraciones)
    ensures RowFor(BuildBody(p, form, finiquitoPath), meta).justificacion == Str(form.justificacion)
    ensures RowFor(BuildBody(p, form, finiquitoPath), meta).cumplimiento == NumberToJson(ParseFloat(form.cumplimiento))
    ensures RowFor(BuildBody(p, form, finiquitoPath), meta).finiquitoPath == finiquitoPath
  {
  }

  /**
   * An empty compliance field parses to NaN and is sent as null. The client
   * asks for no justification, and the server counts null as 0 percent.
   */
  lemma EmptyComplianceSentAsNull(p: Proyecto, form: FormData, finiquitoPath: JsValue, meta: real)
    requires form.cumplimiento == "" && meta != 0.0
    ensures !JustificationVisible(ParseFloat(form.cumplimiento))
    ensures BuildBody(p, form, finiquitoPath).cumplimiento == Null
    ensures RowFor(BuildBody(p, form, finiquitoPath), meta).porcentajeAccionesRealizadas == Finite(0.0)
  {
    assert ParseFloat("") == NaN;
  }

  /** A decimal such as "2.5" typed into the compliance field reaches the server as its value. */
  lemma FractionalComplianceSent(p: Proyecto, form: FormData, finiquitoPath: JsValue)
    requires form.cumplimiento == "2.5"
    ensures BuildBody(p, form, finiquitoPath).cumplimiento == Num(2.5)
  {
    var s := "2.5";
    assert TrimStart(s) == s && Unsigned(s) == s;
    assert !("Infinity" <= s);
    assert DigitRun(s[1..]) == 0;
    assert DigitRun(s) == 1;
    assert s[2..] == "5" && DigitRun(s[2..]) == 1;
    assert s[..1] == "2" && DigitsValue("2") == 2;
    assert s[2..][..1] == "5" && DigitsValue("5") == 5;
    assert s[3..] == [] && ScanExponent(s[3..]) == Scan(1.0, 0);
    assert Pow10(1) == 10.0;
    assert ScanUnsignedDecimal(s) == Some(Scan(2.5, DecimalSpan(s)));
  }

  /** A whole number typed into the compliance field reaches the server unchanged. */
  lemma WholeComplianceSentExactly(p: Proyecto, form: FormData, finiquitoPath: JsValue, n: int)
    requires form.cumplimiento == IntToString(n)
    ensures BuildBody(p, form, finiquitoPath).cumplimiento == Num(n as real)
  {
    ParseFloatRoundTrip(n);
  }

  /** Choosing a project's option (whose value is `String(id)`) selects the first project with that id. */
  lemma {:induction false} OptionSelectsItsProject(proyectos: seq<Proyecto>, k: int)
    requires 0 <= k < |proyectos|
    requires forall i :: 0 <= i < k ==> proyectos[i].id != proyectos[k].id
    ensures FindProject(proyectos, ParseInt(IntToString(proyectos[k].id))) == Some(proyectos[k])
  {
    ParseIntRoundTrip(proyectos[k].id);
    FirstMatchFound(proyectos, k, Finite(proyectos[k].id as real));
  }

  lemma {:induction false} FirstMatchFound(proyectos: seq<Proyecto>, k: int, x: Number)
    requires 0 <= k < |proyectos| && x == Finite(proyectos[k].id as real)
    requires forall i :: 0 <= i < k ==> x != Finite(proyectos[i].id as real)
    ensures FindProject(proyectos, x) == Some(proyectos[k])
    decreases k
  {
    if k > 0 {
      assert x != Finite(proyectos[0].id as real);
      var rest := proyectos[1..];
      forall i | 0 <= i < k - 1 ensures x != Finite(rest[i].id as real) {
        assert rest[i] == proyectos[i + 1];
      }
      FirstMatchFound(rest, k - 1, x);
    }
  }

  /** The placeholder option has value "", which is no number, so it clears the selection. */
  lemma PlaceholderSelectsNothing(proyectos: seq<Proyecto>)
    ensures FindProject(proyectos, ParseInt("")) == None
  {
    assert ParseInt("").NaN?;
  }

  /** The page's state. Each handler is one method; a `fetch` it awaits is a parameter. */
  class ReportFormPage {
    var instituciones: seq<Institucion>
    var selectedInstitucionId: string
    var proyectos: seq<Proyecto>
    var selectedProyectoId: string
    var selectedProyecto: Option<Proyecto>
    var formData: FormData
    var loading: bool
    var message: string
    var cumplimientoValue: Number

    /** The compliance value the checks use is the parse of the field the body sends. */
    predicate Consistent()
      reads this
    {
      cumplimientoValue == ParseFloat(formData.cumplimiento)
    }

    constructor()
      ensures instituciones == [] && selectedInstitucionId == "" && proyectos == []
      ensures selectedProyectoId == "" && selectedProyecto == None
      ensures formData == InitialForm && !loading && message == "" && cumplimientoValue == Finite(0.0)
      ensures Consistent()
    {
      instituciones := [];
      selectedInstitucionId := "";
      proyectos := [];
      selectedProyectoId := "";
      selectedProyecto := None;
      formData := InitialForm;
      loading := false;
      message := "";
      cumplimientoValue := Finite(0.0);
      InitialComplianceIsZero();
    }

    /** The mount effect: the list is replaced only by an ok answer. */
    method InstitucionesFetched(res: Response<seq<Institucion>>)
      modifies this
      ensures instituciones == if Ok(res) then res.payload else old(instituciones)
      ensures selectedInstitucionId == old(selectedInstitucionId) && proyectos == old(proyectos)
      ensures selectedProyectoId == old(selectedProyectoId) && selectedProyecto == old(selectedProyecto)
      ensures formData == old(formData) && loading == old(loading) && message == old(message)
      ensures cumplimientoValue == old(cumplimientoValue)
    {
      if Ok(res) {
        instituciones := res.payload;
      }
    }

    /**
     * `handleInstitucionChange` up to its `await`: clears the project choice,
     * the list and the message. It starts a projects fetch exactly when an
     * institution is chosen; that answer arrives later, as `ProyectosFetched`.
     */
    method HandleInstitucionChange(id: string) returns (fetches: bool)
      modifies this
      ensures fetches <==> id != ""
      ensures selectedInstitucionId == id
      ensures selectedProyectoId == "" && selectedProyecto == None && message == "" && proyectos == []
      ensures instituciones == old(instituciones) && formData == old(formData) && loading == old(loading)
      ensures cumplimientoValue == old(cumplimientoValue)
    {
      selectedInstitucionId := id;
      selectedProyectoId := "";
      selectedProyecto := None;
      proyectos := [];
      message := "";
      fetches := id != "";
    }

    /**
     * A projects answer arriving for some earlier `handleInstitucionChange`.
     * An ok answer replaces the list whichever institution is selected now;
     * a failed one is only logged.
     */
    method ProyectosFetched(res: Response<seq<Proyecto>>)
      modifies this
      ensures proyectos == if Ok(res) then res.payload else old(proyectos)
      ensures instituciones == old(instituciones) && selectedInstitucionId == old(selectedInstitucionId)
      ensures selectedProyectoId == old(selectedProyectoId) && selectedProyecto == old(selectedProyecto)
      ensures formData == old(formData) && loading == old(loading) && message == old(message)
      ensures cumplimientoValue == old(cumplimientoValue)
    {
      if Ok(res) {
        proyectos := res.payload;
      }
    }

    /** `handleProyectoChange`: selects the project whose id the option names, warning when it has a report. */
    method HandleProyectoChange(id: string)
      modifies this
      ensures selectedProyectoId == id
      ensures selectedProyecto == FindProject(proyectos, ParseInt(id))
      ensures message == if selectedProyecto.Some? && HasReport(selectedProyecto.value) then ReportWarning else ""
      ensures instituciones == old(instituciones) && selectedInstitucionId == old(selectedInstitucionId)
      ensures proyectos == old(proyectos) && formData == old(formData) && loading == old(loading)
      ensures cumplimientoValue == old(cumplimientoValue)
    {
      selectedProyectoId := id;
      var proyecto := FindProject(proyectos, ParseInt(id));
      if proyecto.Some? {
        selectedProyecto := proyecto;
        message := if HasReport(proyecto.value) then ReportWarning else "";
      } else {
        selectedProyecto := None;
        message := "";
      }
    }

    /** `handleFormChange`: an edit of the compliance field also parses it into the value the checks use. */
    method HandleFormChange(change: FieldChange)
      modifies this
      ensures formData == UpdateForm(old(formData), change)
      ensures cumplimientoValue ==
                if change.CumplimientoChange? then ParseFloat(change.text) else old(cumplimientoValue)
      ensures old(Consistent()) ==> Consistent()
      ensures instituciones == old(instituciones) && selectedInstitucionId == old(selectedInstitucionId)
      ensures proyectos == old(proyectos) && selectedProyectoId == old(selectedProyectoId)
      ensures selectedProyecto == old(selectedProyecto) && loading == old(loading) && message == old(message)
    {
      formData := UpdateForm(formData, change);
      if change.CumplimientoChange? {
        cumplimientoValue := ParseFloat(change.text);
      }
    }

    /** `handleFileChange`. */
    method HandleFileChange(files: Option<seq<FileRef>>)
      modifies this
      ensures formData == old(formData).(finiquito := ChosenFile(files))
      ensures old(Consistent()) ==> Consistent()
      ensures instituciones == old(instituciones) && selectedInstitucionId == old(selectedInstitucionId)
      ensures proyectos == old(proyectos) && selectedProyectoId == old(selectedProyectoId)
      ensures selectedProyecto == old(selectedProyecto) && loading == old(loading) && message == old(message)
      ensures cumplimientoValue == old(cumplimientoValue)
    {
      formData := formData.(finiquito := ChosenFile(files));
    }

    /**
     * `handleSubmit` as the page has it. `upload`, `report` and `refetch` are
     * the answers of the three requests it may make; `sent` is the body it
     * posts and `saved` whether the report was accepted. After a save the
     * form is reset, but the compliance value the checks use is not.
     */
    method HandleSubmitAsWritten(upload: Response<JsValue>, report: Response<Reply>,
                                 refetch: Response<seq<Proyecto>>)
      returns (sent: Option<Body>, saved: bool)
      modifies this
      ensures !loading
      ensures instituciones == old(instituciones) && selectedInstitucionId == old(selectedInstitucionId)
      ensures cumplimientoValue == old(cumplimientoValue)
      ensures var s := Submit(old(selectedProyecto), old(cumplimientoValue), old(formData), upload, report);
              && sent == (if s.Posted? then Some(s.body) else None)
              && saved == (s.Posted? && s.failure.None?)
              && (!saved ==> message == if s.Stopped? then s.message else s.failure.value)
      // a failed submission changes only the message
      ensures !saved ==>
                && proyectos == old(proyectos) && selectedProyectoId == old(selectedProyectoId)
                && selectedProyecto == old(selectedProyecto) && formData == old(formData)
      // after a save: the form and the project choice are reset and the projects reloaded
      ensures saved ==>
                && formData == InitialForm && selectedProyecto == None && selectedProyectoId == ""
                && proyectos == (if old(selectedInstitucionId) != "" && refetch.Response? then refetch.payload
                                 else old(proyectos))
                && message == (if old(selectedInstitucionId) != "" && refetch.NetworkError?
                               then ErrorMessage(refetch.reason) else SuccessMessage)
    {
      loading := true;
      message := "";
      var submission := Submit(selectedProyecto, cumplimientoValue, formData, upload, report);
      sent, saved := Conclude(submission, refetch);
    }

    /** The end of `handleSubmit` once the requests are answered: the message, the reset after a save, `finally`. */
    method Conclude(submission: Submission, refetch: Response<seq<Proyecto>>) returns (sent: Option<Body>, saved: bool)
      modifies this
      ensures !loading
      ensures instituciones == old(instituciones) && selectedInstitucionId == old(selectedInstitucionId)
      ensures cumplimientoValue == old(cumplimientoValue)
      ensures sent == (if submission.Posted? then Some(submission.body) else None)
      ensures saved == (submission.Posted? && submission.failure.None?)
      ensures !saved ==> message == if submission.Stopped? then submission.message else submission.failure.value
      ensures !saved ==>
                && proyectos == old(proyectos) && selectedProyectoId == old(selectedProyectoId)
                && selectedProyecto == old(selectedProyecto) && formData == old(formData)
      ensures saved ==>
                && formData == InitialForm && selectedProyecto == None && selectedProyectoId == ""
                && proyectos == (if old(selectedInstitucionId) != "" && refetch.Response? then refetch.payload
                                 else old(proyectos))
                && message == (if old(selectedInstitucionId) != "" && refetch.NetworkError?
                               then ErrorMessage(refetch.reason) else SuccessMessage)
    {
      sent, saved := None, false;
      match submission {
        case Stopped(m) =>
          message := m;
        case Posted(body, failure) =>
          sent := Some(body);
          if failure.Some? {
            message := failure.value;
          } else {
            saved := true;
            message := SuccessMessage;
            formData := InitialForm;
            selectedProyecto := None;
            selectedProyectoId := "";
            if selectedInstitucionId != "" {
              if refetch.NetworkError? {
                message := ErrorMessage(refetch.reason);
              } else {
                proyectos := refetch.payload;
              }
            }
          }
      }
      // finally
      loading := false;
    }

    /**
     * `handleSubmit` with the reset completed: after a save the compliance
     * value returns to 0 together with the field, so the page stays consistent.
     */
    method HandleSubmit(upload: Response<JsValue>, report: Response<Reply>, refetch: Response<seq<Proyecto>>)
      returns (sent: Option<Body>, saved: bool)
      modifies this
      ensures !loading
      ensures instituciones == old(instituciones) && selectedInstitucionId == old(selectedInstitucionId)
      ensures cumplimientoValue == if saved then Finite(0.0) else old(cumplimientoValue)
      ensures old(Consistent()) ==> Consistent()
      ensures var s := Submit(old(selectedProyecto), old(cumplimientoValue), old(formData), upload, report);
              && sent == (if s.Posted? then Some(s.body) else None)
              && saved == (s.Posted? && s.failure.None?)
              && (!saved ==> message == if s.Stopped? then s.message else s.failure.value)
      ensures !saved ==>
                && proyectos == old(proyectos) && selectedProyectoId == old(selectedProyectoId)
                && selectedProyecto == old(selectedProyecto) && formData == old(formData)
      ensures saved ==>
                && formData == InitialForm && selectedProyecto == None && selectedProyectoId == ""
                && proyectos == (if old(selectedInstitucionId) != "" && refetch.Response? then refetch.payload
                                 else old(proyectos))
                && message == (if old(selectedInstitucionId) != "" && refetch.NetworkError?
                               then ErrorMessage(refetch.reason) else SuccessMessage)
    {
      loading := true;
      message := "";
      var submission := Submit(selectedProyecto, cumplimientoValue, formData, upload, report);
      sent, saved := Conclude(submission, refetch);
      if saved {
        cumplimientoValue := Finite(0.0);
        InitialComplianceIsZero();
      }
    }
  }

  /**
   * Choosing institution `a` and then `b`, with `a`'s projects answering last,
   * leaves `b` selected over `a`'s project list: nothing ties an answer to the
   * choice that asked for it.
   */
  method LateAnswerListsEarlierChoice(a: string, b: string,
                                      forA: Response<seq<Proyecto>>, forB: Response<seq<Proyecto>>)
      returns (page: ReportFormPage)
    requires a != "" && b != "" && Ok(forA)
    ensures page.selectedInstitucionId == b
    ensures page.proyectos == forA.payload
  {
    page := new ReportFormPage();
    var fetchesA := page.HandleInstitucionChange(a);
    var fetchesB := page.HandleInstitucionChange(b);
    page.ProyectosFetched(forB);
    page.ProyectosFetched(forA);
  }

  /**
   * What the incomplete reset leads to: after a save with a nonzero compliance
   * value the field shows 0 but the value the checks use is unchanged. The
   * justification field then stays hidden, the client lets an empty
   * justification through, and the server refuses the body it sends.
   */
  lemma StaleComplianceRefusedByServer(p: Proyecto, stale: Number, finiquitoPath: JsValue,
                                       metas: map<JsValue, Option<real>>, faults: Faults)
    requires !IsZero(stale) && !HasReport(p) && p.id != 0
    ensures stale != ParseFloat(InitialForm.cumplimiento)
    ensures !JustificationVisible(stale)
    ensures SubmitRejection(Some(p), stale, InitialForm.justificacion).None?
    ensures Respond(Some(BuildBody(p, InitialForm, finiquitoPath)), metas, faults) == JustificationReply
  {
    InitialComplianceIsZero();
    assert BuildBody(p, InitialForm, finiquitoPath).cumplimiento == Num(0.0);
  }
}
