/** The JSON values a JSON-path query returns, and the "exactly one match"
    check applied to the query's result. */
module JsonModel {
  import opened Wrappers

  datatype Json =
    | JNull
    | JBool(b: bool)
    | JNumber(literal: string)
    | JString(text: string)
    | JArray(items: seq<Json>)
    | JObject(members: seq<(string, Json)>)

  /** A compiled JSON-path expression, kept as the text it was compiled from. */
  datatype JsonPath = JsonPath(source: string)

  /** A response body after content-type-directed parsing. */
  datatype ParsedBody = ParsedBody(contentType: string, content: string)

  /** Why a query did not produce exactly one node. */
  datatype ExactlyOneError = Empty | MoreThanOne(count: nat)

  /** The single node of a query result, or why there was not exactly one. */
  function ExactlyOne(nodes: seq<Json>): (r: Result<Json, ExactlyOneError>)
    ensures r.Success? <==> |nodes| == 1
    ensures r.Success? ==> r.value == nodes[0]
    ensures |nodes| == 0 ==> r == Failure(Empty)
    ensures |nodes| > 1 ==> r == Failure(MoreThanOne(|nodes|))
  {
    if |nodes| == 1 then Success(nodes[0])
    else if |nodes| == 0 then Failure(Empty)
    else Failure(MoreThanOne(|nodes|))
  }
}
