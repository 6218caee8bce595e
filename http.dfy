/**
 * What an endpoint answers: a status code, a body and the headers it set. Bodies
 * are the serialized data, or one of the small JSON objects the endpoints and the
 * framework's not-found handling produce.
 */
module Http {
  const OK: nat := 200
  const CREATED: nat := 201
  const BAD_REQUEST: nat := 400
  const NOT_FOUND: nat := 404
  const SERVER_ERROR: nat := 500

  datatype Body<+T> =
    | Data(value: T)           // the serialized result
    | Detail(detail: string)   // {"detail": ...}, as a not-found lookup answers
    | ErrorText(error: string) // {"error": ...}
    | StatusText(text: string) // {"status": ...}
    | ErrorPage                // the framework's own HTML error page
    | NoBody

  datatype Response<+T> = Response(status: nat, body: Body<T>, headers: map<string, string>)

  /** The media type of the JSON renderer, which has no charset parameter. */
  const JSON_MEDIA_TYPE := "application/json"

  /**
   * The response as the client receives it once the JSON renderer has run: the
   * renderer's media type is set as `Content-Type`, and removed again when the
   * rendered content is empty, which it is exactly when there is no data. Every
   * other header is sent as the endpoint set it.
   */
  function Rendered<T>(r: Response<T>): (out: Response<T>)
    ensures out.status == r.status && out.body == r.body
    ensures r.body.NoBody? ==> forall k :: k in out.headers <==> k in r.headers && k != "Content-Type"
    ensures !r.body.NoBody? ==> forall k :: k in out.headers <==> k in r.headers || k == "Content-Type"
    ensures !r.body.NoBody? ==> out.headers["Content-Type"] == JSON_MEDIA_TYPE
    ensures forall k :: k in out.headers && k != "Content-Type" ==> out.headers[k] == r.headers[k]
  {
    if r.body.NoBody? then r.(headers := r.headers - {"Content-Type"})
    else r.(headers := r.headers["Content-Type" := JSON_MEDIA_TYPE])
  }

  /** The answer of `get_object_or_404` for a model whose lookup matched nothing. */
  function NotFound<T>(model: string): (r: Response<T>)
    ensures r.status == NOT_FOUND && r.body.Detail?
    ensures r.body.detail == "No " + model + " matches the given query."
  {
    Response(NOT_FOUND, Detail("No " + model + " matches the given query."), map[])
  }
}
