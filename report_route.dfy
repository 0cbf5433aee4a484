/**
 * The report submission endpoint (POST /api/reportes). It checks the JSON
 * body in a fixed order, looks up the project's target (`meta`), computes the
 * percentage of actions carried out (`cumplimiento / meta * 100`) and inserts
 * one row into the Reportes table, closing its database connection on every
 * path. The database is an abstract store (`ReportStore`): the Proyectos
 * table reduced to each project's `meta`, and the list of inserted rows.
 * Which database calls fail is an input (`Faults`).
 */
module ReportRoute {
  import opened Wrappers
  import opened JsNumbers

  /** The properties the handler destructures from the body; one the body lacks is `Undefined`. */
  datatype Body = Body(
    proyectoId: JsValue,
    cumplimiento: JsValue,
    poa: JsValue,
    pei: JsValue,
    pom: JsValue,
    finiquitoPath: JsValue,
    aclaraciones: JsValue,
    justificacion: JsValue)

  /** One row of the Reportes table, its columns in the order the INSERT names them. */
  datatype Row = Row(
    proyectoId: JsValue,
    cumplimiento: JsValue,
    poa: int,
    pei: int,
    pom: int,
    porcentajeAccionesRealizadas: Number,
    finiquitoPath: JsValue,
    aclaraciones: JsValue,
    justificacion: JsValue)

  /** Which of the database calls throw while this request is handled. */
  datatype Faults = Faults(connect: bool, select: bool, insert: bool)

  /** The JSON response: an HTTP status and its message. */
  datatype Reply = Reply(status: int, message: string)

  const MissingFieldsReply := Reply(400, "Missing required fields: proyectoId, cumplimiento, or aclaraciones")
  const JustificationReply := Reply(400, "Justification is required when compliance is 0")
  const MetaNotFoundReply := Reply(404, "Meta for the project not found")
  const CreatedReply := Reply(201, "Report created successfully")
  const InternalErrorReply := Reply(500, "Internal server error")

  /** The presence check: a falsy project id, or no `cumplimiento`, or no `aclaraciones`. */
  predicate MissingRequired(b: Body)
  {
    !Truthy(b.proyectoId) || b.cumplimiento.Undefined? || b.aclaraciones.Undefined?
  }

  /** The justification check: compliance strictly equal to 0 with a falsy justification. */
  predicate JustificationMissing(b: Body)
  {
    b.cumplimiento == Num(0.0) && !Truthy(b.justificacion)
  }

  /** Both body checks pass, so the handler goes on to open a database connection. */
  predicate ReachesDatabase(request: Option<Body>)
  {
    request.Some? && !MissingRequired(request.value) && !JustificationMissing(request.value)
  }

  /** `proyectoRows[0]?.meta`: None when the project is missing or its meta is NULL. */
  function MetaOf(metas: map<JsValue, Option<real>>, id: JsValue): Option<real>
  {
    if id in metas then metas[id] else None
  }

  /** The stored percentage, `(cumplimiento / meta) * 100`, with no rounding and no guard on meta. */
  function Percentage(cumplimiento: JsValue, meta: real): (p: Number)
    ensures cumplimiento.Num? && meta != 0.0 ==> p == Finite(cumplimiento.n / meta * 100.0)
    ensures meta == 0.0 ==> !p.Finite?
  {
    var quotient := Divide(ToNumber(cumplimiento), Finite(meta));
    assert meta == 0.0 ==> !quotient.Finite?;
    assert cumplimiento.Num? && meta != 0.0 ==> quotient == Finite(cumplimiento.n / meta);
    Multiply(quotient, Finite(100.0))
  }

  /** `flag ? 1 : 0`. */
  function FlagColumn(flag: JsValue): (c: int)
    ensures c == 1 <==> Truthy(flag)
    ensures c == 0 <==> !Truthy(flag)
  {
    if Truthy(flag) then 1 else 0
  }

  /** The row the handler inserts for a body that passed its checks. */
  function RowFor(b: Body, meta: real): (row: Row)
    ensures row.proyectoId == b.proyectoId && row.cumplimiento == b.cumplimiento
    ensures row.finiquitoPath == b.finiquitoPath && row.aclaraciones == b.aclaraciones
    ensures row.justificacion == b.justificacion
    ensures row.poa == FlagColumn(b.poa) && row.pei == FlagColumn(b.pei) && row.pom == FlagColumn(b.pom)
    ensures row.porcentajeAccionesRealizadas == Percentage(b.cumplimiento, meta)
  {
    Row(b.proyectoId, b.cumplimiento, FlagColumn(b.poa), FlagColumn(b.pei), FlagColumn(b.pom),
        Percentage(b.cumplimiento, meta), b.finiquitoPath, b.aclaraciones, b.justificacion)
  }

  /** The request is stored: both checks pass, the meta is found and no database call fails. */
  predicate Accepted(request: Option<Body>, metas: map<JsValue, Option<real>>, faults: Faults)
  {
    && ReachesDatabase(request)
    && !faults.connect && !faults.select && !faults.insert
    && MetaOf(metas, request.value.proyectoId).Some?
  }

  /**
   * The reply to one request. `request` is None when the body is not JSON
   * that can be destructured, which makes `req.json()` throw.
   */
  function Respond(request: Option<Body>, metas: map<JsValue, Option<real>>, faults: Faults): (r: Reply)
    ensures r.status in {201, 400, 404, 500}
    ensures r.status == 201 <==> Accepted(request, metas, faults)
    ensures r.status == 400 <==> request.Some? && (MissingRequired(request.value) || JustificationMissing(request.value))
    ensures r.status == 404 <==>
              ReachesDatabase(request) && !faults.connect && !faults.select
              && MetaOf(metas, request.value.proyectoId).None?
    ensures r.status == 500 <==>
              request.None? || (ReachesDatabase(request) && (faults.connect || faults.select ||
                (faults.insert && MetaOf(metas, request.value.proyectoId).Some?)))
  {
    if request.None? then InternalErrorReply
    else if MissingRequired(request.value) then MissingFieldsReply
    else if JustificationMissing(request.value) then JustificationReply
    else if faults.connect || faults.select then InternalErrorReply
    else if MetaOf(metas, request.value.proyectoId).None? then MetaNotFoundReply
    else if faults.insert then InternalErrorReply
    else CreatedReply
  }

  /** A database whose Proyectos table gives each project's meta, and the rows inserted into Reportes. */
  class ReportStore {
    var metas: map<JsValue, Option<real>>
    var rows: seq<Row>
    /** Connections opened and not yet ended. */
    var openConnections: nat
    /** How many times a connection was requested. */
    var connectCalls: nat

    constructor(projects: map<JsValue, Option<real>>, existing: seq<Row>)
      ensures metas == projects && rows == existing
      ensures openConnections == 0 && connectCalls == 0
    {
      metas := projects;
      rows := existing;
      openConnections := 0;
      connectCalls := 0;
    }

    /** `connectDB()`: opens a connection unless it throws. */
    method Connect(fails: bool) returns (connected: bool)
      modifies this
      ensures connected == !fails
      ensures connectCalls == old(connectCalls) + 1
      ensures openConnections == old(openConnections) + (if connected then 1 else 0)
      ensures metas == old(metas) && rows == old(rows)
    {
      connectCalls := connectCalls + 1;
      connected := !fails;
      if connected {
        openConnections := openConnections + 1;
      }
    }

    /** `connection.end()`. */
    method End()
      requires openConnections > 0
      modifies this
      ensures openConnections == old(openConnections) - 1
      ensures metas == old(metas) && rows == old(rows) && connectCalls == old(connectCalls)
    {
      openConnections := openConnections - 1;
    }

    /** `SELECT meta FROM Proyectos WHERE id = ?`; None when the query throws. */
    method SelectMeta(id: JsValue, fails: bool) returns (result: Option<Option<real>>)
      ensures result == if fails then None else Some(MetaOf(metas, id))
    {
      result := if fails then None else Some(MetaOf(metas, id));
    }

    /** `INSERT INTO Reportes ...`; a failed insert stores nothing. */
    method InsertRow(row: Row, fails: bool) returns (inserted: bool)
      modifies this
      ensures inserted == !fails
      ensures rows == old(rows) + (if inserted then [row] else [])
      ensures metas == old(metas) && openConnections == old(openConnections)
      ensures connectCalls == old(connectCalls)
    {
      inserted := !fails;
      if inserted {
        rows := rows + [row];
      }
    }

    /** The POST handler. */
    method Post(request: Option<Body>, faults: Faults) returns (reply: Reply)
      modifies this
      ensures reply == Respond(request, old(metas), faults)
      ensures rows == old(rows) + if reply.status == 201
                                   then [RowFor(request.value, MetaOf(old(metas), request.value.proyectoId).value)]
                                   else []
      ensures metas == old(metas)
      // every connection the handler opened is closed again
      ensures openConnections == old(openConnections)
      // a connection is requested only after both body checks have passed
      ensures connectCalls == old(connectCalls) + (if ReachesDatabase(request) then 1 else 0)
    {
      var connection := false;
      if request.None? {
        reply := InternalErrorReply;
      } else {
        var body := request.value;
        if MissingRequired(body) {
          reply := MissingFieldsReply;
        } else if JustificationMissing(body) {
          reply := JustificationReply;
        } else {
          connection := Connect(faults.connect);
          if !connection {
            reply := InternalErrorReply;
          } else {
            var found := SelectMeta(body.proyectoId, faults.select);
            if found.None? {
              reply := InternalErrorReply;
            } else if found.value.None? {
              reply := MetaNotFoundReply;
            } else {
              var meta := found.value.value;
              var porcentaje := Percentage(body.cumplimiento, meta);
              var row := Row(body.proyectoId, body.cumplimiento, FlagColumn(body.poa), FlagColumn(body.pei),
                             FlagColumn(body.pom), porcentaje, body.finiquitoPath, body.aclaraciones,
                             body.justificacion);
              var inserted := InsertRow(row, faults.insert);
              reply := if inserted then CreatedReply else InternalErrorReply;
            }
          }
        }
      }
      // finally
      if connection {
        End();
      }
    }
  }

  /** The body checks do not look at the database: a 400 is the same whatever the store holds or which calls fail. */
  lemma BodyChecksIgnoreStore(request: Option<Body>, metas1: map<JsValue, Option<real>>, faults1: Faults,
                              metas2: map<JsValue, Option<real>>, faults2: Faults)
    requires Respond(request, metas1, faults1).status == 400
    ensures Respond(request, metas2, faults2) == Respond(request, metas1, faults1)
  {
  }

  /** The first failing check decides: a missing field wins over a missing justification. */
  lemma PresenceCheckFirst(b: Body, metas: map<JsValue, Option<real>>, faults: Faults)
    requires MissingRequired(b)
    ensures Respond(Some(b), metas, faults) == MissingFieldsReply
  {
  }

  /** A project id of 0 is falsy, so it is refused before the database is consulted. */
  lemma ZeroProjectIdRefused(b: Body, metas: map<JsValue, Option<real>>, faults: Faults)
    requires b.proyectoId == Num(0.0)
    ensures Respond(Some(b), metas, faults) == MissingFieldsReply
    ensures !ReachesDatabase(Some(b))
  {
  }

  /** Compliance 0 is accepted once a justification is given (and the rest succeeds). */
  lemma JustifiedZeroAccepted(b: Body, metas: map<JsValue, Option<real>>)
    requires !MissingRequired(b) && b.cumplimiento == Num(0.0) && Truthy(b.justificacion)
    requires MetaOf(metas, b.proyectoId).Some?
    ensures Respond(Some(b), metas, Faults(false, false, false)) == CreatedReply
  {
  }

  /** A project with meta 50 and compliance 25 stores exactly 50 percent. */
  lemma HalfOfFifty()
    ensures Percentage(Num(25.0), 50.0) == Finite(50.0)
  {
  }

  /** An array compliance is coerced through its text: `[]` counts as 0 and `[n]` as n. */
  lemma ArrayCompliancePercentage(n: real, meta: real)
    requires meta != 0.0
    ensures Percentage(Arr([]), meta) == Finite(0.0)
    ensures Percentage(Arr([Num(n)]), meta) == Finite(n / meta * 100.0)
    ensures Percentage(Arr([Null]), meta) == Finite(0.0)
  {
  }

  /** The body `{"cumplimiento": [40]}` against a meta of 50 stores 80. */
  lemma FortyInAnArrayOfFifty()
    ensures Percentage(Arr([Num(40.0)]), 50.0) == Finite(80.0)
  {
  }
}
