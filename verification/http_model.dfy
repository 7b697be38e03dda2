/** The records the HTTP layer hands to the template engine and to the
    request orchestrator: a fully buffered response and one stored attempt.
    Times are integers (milliseconds since an arbitrary epoch). */
module Http {

  /** Recipe identity: the key of in-flight state and the source of a chain. */
  type RecipeId = string

  /** A received response with its body fully read as text. */
  datatype Response = Response(status: nat, headers: map<string, string>, body: string)

  /** One completed attempt: which recipe it was sent for, what came back
      and when it started and ended. */
  datatype Record = Record(recipeId: RecipeId, response: Response, startTime: int, endTime: int) {

    /** Elapsed time of the attempt. */
    function Duration(): int {
      endTime - startTime
    }
  }
}
