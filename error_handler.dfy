/**
 * The global error middleware: the HTTP status, the response `code` and the
 * offending `field` it derives from a thrown error.  Prisma errors (a code
 * beginning with `P`) go to their own table first; then the error names of
 * validation and of the JWT library; then the error's own status and code.
 * Message texts, `details` and the stack are not modelled.
 */
module ErrorHandler {

  import opened Common
  import opened Text
  import opened Store

  /** The fields of a thrown error the middleware reads; `target` is `err.meta.target`. */
  datatype JsError = JsError(
    name: string,
    code: Option<string>,
    statusCode: Option<int>,
    field: Option<string>,
    target: Option<seq<string>>)

  datatype Response = Response(status: int, code: string, field: Option<string>)

  /** `err.code && err.code.startsWith('P')` */
  predicate IsPrismaCode(code: Option<string>) {
    TruthyStr(code) && StartsWith(code.value, "P")
  }

  /** `err.meta?.target?.[0] || 'campo'` */
  function DuplicateField(target: Option<seq<string>>): (f: string)
    ensures f != ""
    ensures target.Some? && |target.value| > 0 && target.value[0] != "" ==> f == target.value[0]
  {
    if target.Some? && |target.value| > 0 && target.value[0] != "" then target.value[0] else "campo"
  }

  /** `handlePrismaError(err)`: the P-code table, with DATABASE_ERROR for any other code. */
  function HandlePrismaError(code: string, target: Option<seq<string>>): (r: Response)
    ensures code == "P2002" <==> r.status == 409
    ensures r.status == 409 ==> r == Response(409, "DUPLICATE_ENTRY", Some(DuplicateField(target)))
    ensures r.status == 404 <==> code == "P2025"
    ensures r.status == 400 <==> code == "P2003" || code == "P2014"
    ensures r.status == 500 <==> code !in {"P2002", "P2025", "P2003", "P2014"}
    ensures r.status != 409 ==> r.field.None?
  {
    match code
    case "P2002" => Response(409, "DUPLICATE_ENTRY", Some(DuplicateField(target)))
    case "P2025" => Response(404, "NOT_FOUND", None)
    case "P2003" => Response(400, "INVALID_REFERENCE", None)
    case "P2014" => Response(400, "RELATION_VIOLATION", None)
    case _ => Response(500, "DATABASE_ERROR", None)
  }

  /** `errorHandler(err, ...)`: the response sent. */
  function HandleError(err: JsError): (r: Response)
    ensures IsPrismaCode(err.code) ==> r == HandlePrismaError(err.code.value, err.target)
    ensures !IsPrismaCode(err.code) && err.name == "ValidationError" ==> r == Response(400, "VALIDATION_ERROR", None)
    ensures !IsPrismaCode(err.code) && err.name == "JsonWebTokenError" ==> r == Response(401, "INVALID_TOKEN", None)
    ensures !IsPrismaCode(err.code) && err.name == "TokenExpiredError" ==> r == Response(401, "TOKEN_EXPIRED", None)
    ensures !IsPrismaCode(err.code) && err.name !in {"ValidationError", "JsonWebTokenError", "TokenExpiredError"} ==>
              r.status == (if TruthyInt(err.statusCode) then err.statusCode.value else 500)
              && r.code == (if TruthyStr(err.code) then err.code.value else "INTERNAL_ERROR")
              && r.field == OptOrNull(err.field)
  {
    if IsPrismaCode(err.code) then HandlePrismaError(err.code.value, err.target)
    else if err.name == "ValidationError" then Response(400, "VALIDATION_ERROR", None)
    else if err.name == "JsonWebTokenError" then Response(401, "INVALID_TOKEN", None)
    else if err.name == "TokenExpiredError" then Response(401, "TOKEN_EXPIRED", None)
    else
      Response(if TruthyInt(err.statusCode) then err.statusCode.value else 500,
               if TruthyStr(err.code) then err.code.value else "INTERNAL_ERROR",
               OptOrNull(err.field))
  }

  /** A Prisma code decides the response alone: the error's name, status and field are not consulted. */
  lemma PrismaCodeDecides(a: JsError, b: JsError)
    requires IsPrismaCode(a.code) && a.code == b.code && a.target == b.target
    ensures HandleError(a) == HandleError(b)
  {
  }

  /** Without its own status every error is answered with one of the statuses of the tables. */
  lemma StatusesWithoutOwnStatus(err: JsError)
    requires !TruthyInt(err.statusCode)
    ensures HandleError(err).status in {400, 401, 404, 409, 500}
  {
  }

  /** The error the database layer throws for a `DbError`, with the column list of a unique violation. */
  function PrismaError(e: DbError): (err: JsError)
    ensures IsPrismaCode(err.code) && err.code == Some(e.Code())
  {
    JsError("PrismaClientKnownRequestError", Some(e.Code()), None, None,
            if e.UniqueViolation? then Some(e.target) else None)
  }

  /** Each database error of the model reaches the client as its status: 409 on the first column, 404 or 400. */
  lemma DbErrorResponses(e: DbError)
    ensures e.UniqueViolation? ==> HandleError(PrismaError(e)) == Response(409, "DUPLICATE_ENTRY", Some(DuplicateField(Some(e.target))))
    ensures e.RecordNotFound? ==> HandleError(PrismaError(e)) == Response(404, "NOT_FOUND", None)
    ensures e.ForeignKeyViolation? ==> HandleError(PrismaError(e)) == Response(400, "INVALID_REFERENCE", None)
  {
  }

  /** How the promise of an async route handler settled. */
  datatype Settled = Resolved | Rejected(reason: JsError)

  /** `asyncHandler(fn)`: the error passed to `next`, if any. */
  function AsyncHandler(s: Settled): (forwarded: Option<JsError>)
    ensures forwarded.Some? <==> s.Rejected?
    ensures s.Rejected? ==> forwarded == Some(s.reason)
  {
    if s.Rejected? then Some(s.reason) else None
  }
}
