/** The response-shaping rules of server.js: the upload URL rewrite and the
    bodies of the checkout, order-fetch and wishlist-insert handlers. The rows a
    handler receives from the database are inputs; routing and the database
    itself are outside the model. */
module Server {
  import opened Wrappers
  import opened Text
  import opened Json
  import Db

  // ---------------------------------------------------------------------------
  // Upload URL rewrite (server.js lines 50-53)

  const UploadSegment: string := "/upload/"
  const OptimizedSegment: string := "/upload/q_auto,f_auto/"

  /** The URL after `imageUrl.replace('/upload/', '/upload/q_auto,f_auto/')`
      when it contains `/upload/`, and the URL itself otherwise. */
  function OptimizedUrl(path: string): string
  {
    if Contains(path, UploadSegment) then ReplaceFirst(path, UploadSegment, OptimizedSegment) else path
  }

  /** The handler's local `imageUrl`, reassigned only when `/upload/` occurs. */
  method OptimizeImageUrl(path: string) returns (imageUrl: string)
    ensures imageUrl == OptimizedUrl(path)
    ensures Contains(path, UploadSegment) ==> |imageUrl| == |path| + 14
    ensures !Contains(path, UploadSegment) ==> imageUrl == path
  {
    imageUrl := path;
    if Contains(imageUrl, UploadSegment) {
      imageUrl := ReplaceFirst(imageUrl, UploadSegment, OptimizedSegment);
    }
  }

  /** The URL changes exactly when it contains `/upload/`, and then it grows by
      the 14 characters of `q_auto,f_auto/`. */
  lemma OptimizedUrlChangesIff(path: string)
    ensures OptimizedUrl(path) != path <==> Contains(path, UploadSegment)
    ensures Contains(path, UploadSegment) ==> |OptimizedUrl(path)| == |path| + 14
  {
  }

  /** Only the first occurrence is rewritten: when `/upload/` first occurs right
      after `a`, the result keeps `a` and everything after that occurrence. */
  lemma OptimizedUrlAtFirstOccurrence(a: string, b: string)
    requires forall j :: 0 <= j < |a| ==> !StartsWith((a + UploadSegment + b)[j..], UploadSegment)
    ensures OptimizedUrl(a + UploadSegment + b) == a + OptimizedSegment + b
  {
    var s := a + UploadSegment + b;
    assert s[|a|..][..|UploadSegment|] == UploadSegment;
    ContainsAt(s, UploadSegment, |a|);
    var i := IndexOf(s, UploadSegment).value;
    assert s[i..][..|UploadSegment|] == s[i..i + |UploadSegment|];
    assert i == |a|;
    assert s[..i] == a;
    assert s[i + |UploadSegment|..] == b;
  }

  /** The rewritten URL still contains `/upload/`, so the step is not
      idempotent: a second pass would insert `q_auto,f_auto/` again. */
  lemma OptimizedUrlNotIdempotent(path: string)
    requires Contains(path, UploadSegment)
    ensures Contains(OptimizedUrl(path), UploadSegment)
    ensures |OptimizedUrl(OptimizedUrl(path))| == |path| + 28
  {
    var i := IndexOf(path, UploadSegment).value;
    var r := OptimizedUrl(path);
    assert r == path[..i] + OptimizedSegment + path[i + |UploadSegment|..];
    assert r[i..][..|UploadSegment|] == UploadSegment;
    ContainsAt(r, UploadSegment, i);
  }

  // ---------------------------------------------------------------------------
  // Response bodies

  /** A JSON response: the status code and the body `res.json` sends
      (200 unless the handler sets another). */
  datatype Response = Response(status: nat, body: Value)

  /** POST /api/checkout (server.js lines 61-64): a stub that reports success. */
  function Checkout(request: Value): (resp: Response)
    ensures resp.status == 200
    ensures resp.body.JObject? && resp.body.fields.Keys == {"success", "message"}
    ensures resp.body.fields["success"] == JBool(true)
    ensures resp.body.fields["message"] == JString("Payment processed successfully")
  {
    Response(200, JObject(map["success" := JBool(true), "message" := JString("Payment processed successfully")]))
  }

  /** No field of the request body influences the checkout response. */
  lemma CheckoutIgnoresRequest(a: Value, b: Value)
    ensures Checkout(a) == Checkout(b)
  {
  }

  const OrderNotFound: Response := Response(404, JObject(map["error" := JString("Order not found")]))

  /** GET /api/orders/:id (server.js lines 77-78) given the rows of the lookup. */
  function OrderById(rows: seq<Row>): (resp: Response)
    ensures resp.status == 404 <==> rows == []
    ensures rows == [] ==> resp == OrderNotFound
    ensures rows != [] ==> resp.status == 200 && resp.body == JObject(rows[0])
  {
    if |rows| == 0 then OrderNotFound else Response(200, JObject(rows[0]))
  }

  /** The order handler picks the same row `getOne` does, and answers 404
      where `getOne` would give null. */
  lemma OrderByIdAgreesWithGetOne(rows: seq<Row>)
    ensures OrderById(rows) ==
      match Db.GetOne(rows)
      case None => OrderNotFound
      case Some(row) => Response(200, JObject(row))
  {
  }

  /** POST /api/wishlist (server.js lines 103-105) given the rows of the
      insert-or-ignore. `data: rows[0]` is undefined for an empty result, and
      JSON serialisation drops an undefined property. */
  function WishlistAdd(rows: seq<Row>): (resp: Response)
    ensures resp.status == 201 && resp.body.JObject?
    ensures "message" in resp.body.fields && resp.body.fields["message"] == JString("success")
    ensures "data" in resp.body.fields <==> rows != []
    ensures rows != [] ==> resp.body.fields["data"] == JObject(rows[0])
    ensures resp.body.fields.Keys <= {"message", "data"}
  {
    var data: map<string, Value> := if rows == [] then map[] else map["data" := JObject(rows[0])];
    Response(201, JObject(map["message" := JString("success")] + data))
  }

  /** A duplicate (session, product) pair returns no row, and the response is
      then the bare success marker; otherwise it carries the row `getOne`
      would give. */
  lemma WishlistAddOnConflict(rows: seq<Row>)
    ensures rows == [] ==> WishlistAdd(rows) == Response(201, JObject(map["message" := JString("success")]))
    ensures Db.GetOne(rows).Some? ==> WishlistAdd(rows).body.fields["data"] == JObject(Db.GetOne(rows).value)
  {
  }

  // ---------------------------------------------------------------------------
  // What the handlers destructure (server.js lines 76-79 and 104-107)

  /** What `await pool.query(...)` resolves to. server.js imports db.js's
      export object as `pool`, so `pool.query` there is the helper of db.js,
      which resolves to the row array itself. A pg `Pool.query` would resolve
      to a result object with a `rows` property. */
  datatype QueryValue =
    | RowArray(elements: seq<Row>)
    | DriverResult(rows: seq<Row>, rowCount: Option<nat>)

  /** `const { rows } = value`: an array has no `rows` property, so the binding
      is undefined for it. */
  function RowsProperty(v: QueryValue): (r: Option<seq<Row>>)
    ensures r.Some? <==> v.DriverResult?
    ensures v.DriverResult? ==> r == Some(v.rows)
  {
    match v
    case RowArray(_) => None
    case DriverResult(rows, _) => Some(rows)
  }

  /** The handlers' catch branch: status 500 with the error's message. */
  function InternalError(message: string): (resp: Response)
    ensures resp.status == 500
    ensures resp.body == JObject(map["error" := JString(message)])
  {
    Response(500, JObject(map["error" := JString(message)]))
  }

  /** GET /api/orders/:id as written: reading `rows.length` on an undefined
      binding throws a TypeError, which the catch turns into a 500. */
  function OrderFetchAsWritten(v: QueryValue): (resp: Response)
    ensures RowsProperty(v).None? ==> resp.status == 500
    ensures RowsProperty(v).Some? ==> resp == OrderById(RowsProperty(v).value)
  {
    match RowsProperty(v)
    case None => InternalError("Cannot read properties of undefined (reading 'length')")
    case Some(rows) => OrderById(rows)
  }

  /** POST /api/wishlist as written: reading `rows[0]` on an undefined binding
      throws a TypeError, which the catch turns into a 500. */
  function WishlistAddAsWritten(v: QueryValue): (resp: Response)
    ensures RowsProperty(v).None? ==> resp.status == 500
    ensures RowsProperty(v).Some? ==> resp == WishlistAdd(RowsProperty(v).value)
  {
    match RowsProperty(v)
    case None => InternalError("Cannot read properties of undefined (reading '0')")
    case Some(rows) => WishlistAdd(rows)
  }

  /** Whatever rows the database has, the order fetch as written answers 500,
      never the 404 or the row that OrderById gives. */
  lemma OrderFetchAsWrittenFails(dbRows: seq<Row>)
    ensures OrderFetchAsWritten(RowArray(dbRows)).status == 500
    ensures OrderFetchAsWritten(RowArray(dbRows)) != OrderById(dbRows)
  {
  }

  /** Whatever the insert returns, the wishlist insert as written answers 500,
      never the 201 that WishlistAdd gives. */
  lemma WishlistAddAsWrittenFails(dbRows: seq<Row>)
    ensures WishlistAddAsWritten(RowArray(dbRows)).status == 500
    ensures WishlistAddAsWritten(RowArray(dbRows)) != WishlistAdd(dbRows)
  {
  }

  /** Bound to a value with a `rows` property, as with a pg `Pool`, the two
      handlers answer what OrderById and WishlistAdd say about those rows. */
  lemma HandlersWithDriverResult(rows: seq<Row>, rowCount: Option<nat>)
    ensures OrderFetchAsWritten(DriverResult(rows, rowCount)) == OrderById(rows)
    ensures WishlistAddAsWritten(DriverResult(rows, rowCount)) == WishlistAdd(rows)
  {
  }
}
