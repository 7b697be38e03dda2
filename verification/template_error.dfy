/** The error taxonomy of template rendering. The engine has a borrowed form
    (payloads are views into the template and its context) and an owned form
    (payloads are copies). Both carry the same text, so in this model a
    payload is a `string` in either form; what differs is the set of
    variants the owned form uses, fixed by `IntoOwned`. */
module TemplateErrors {
  import opened Wrappers
  import opened JsonModel

  /** Why reading an environment variable failed. */
  datatype VarError = NotPresent | NotUnicode

  datatype TemplateError =
    | InvalidKey(key: string)
    | FieldUnknown(field: string)
    | ChainUnknown(chainId: string)
    | ChainNoResponse(chainId: string)
    | ChainJsonPath(chainId: string, path: string, parseError: string)
    | ChainParseResponse(chainId: string, cause: string)
    | ChainIncorrectContentType(chainId: string, cause: string)
    | ChainInvalidResult(chainId: string, queryError: ExactlyOneError)
    | EnvironmentVariable(variable: string, varError: VarError)
    | Repository(repositoryError: string)

  /** The identifier an error points at: the raw key, field name, chain id or
      variable name. Only a repository failure has none. */
  function Subject(e: TemplateError): Option<string> {
    match e
    case InvalidKey(k) => Some(k)
    case FieldUnknown(f) => Some(f)
    case ChainUnknown(c) => Some(c)
    case ChainNoResponse(c) => Some(c)
    case ChainJsonPath(c, _, _) => Some(c)
    case ChainParseResponse(c, _) => Some(c)
    case ChainIncorrectContentType(c, _) => Some(c)
    case ChainInvalidResult(c, _) => Some(c)
    case EnvironmentVariable(v, _) => Some(v)
    case Repository(_) => None
  }

  /** Variants the owned form never takes. */
  predicate IsOwned(e: TemplateError) {
    !e.ChainIncorrectContentType?
  }

  /** Convert a borrowed error to an owned one by copying every payload.
      An incorrect-content-type failure is converted to a parse-response
      failure with the same chain id and cause; every other variant keeps
      its shape. */
  function IntoOwned(e: TemplateError): (r: TemplateError)
    ensures e.ChainIncorrectContentType? ==> r == ChainParseResponse(e.chainId, e.cause)
    ensures !e.ChainIncorrectContentType? ==> r == e
    ensures IsOwned(r)
    ensures Subject(r) == Subject(e)
  {
    match e
    case InvalidKey(key) => InvalidKey(key)
    case FieldUnknown(field) => FieldUnknown(field)
    case ChainUnknown(chainId) => ChainUnknown(chainId)
    case ChainNoResponse(chainId) => ChainNoResponse(chainId)
    case ChainJsonPath(chainId, path, err) => ChainJsonPath(chainId, path, err)
    case ChainParseResponse(chainId, err) => ChainParseResponse(chainId, err)
    case ChainIncorrectContentType(chainId, err) => ChainParseResponse(chainId, err)
    case ChainInvalidResult(chainId, err) => ChainInvalidResult(chainId, err)
    case EnvironmentVariable(variable, err) => EnvironmentVariable(variable, err)
    case Repository(err) => Repository(err)
  }

  /** Converting an error that is already owned changes nothing, so the
      conversion is idempotent. */
  lemma IntoOwnedIdempotent(e: TemplateError)
    ensures IsOwned(e) ==> IntoOwned(e) == e
    ensures IntoOwned(IntoOwned(e)) == IntoOwned(e)
  {
  }

  /** The conversion loses exactly one distinction: two borrowed errors map to
      the same owned error only when they are equal or differ solely in being
      a parse-response versus an incorrect-content-type failure. */
  lemma IntoOwnedCollisions(e1: TemplateError, e2: TemplateError)
    requires IntoOwned(e1) == IntoOwned(e2)
    ensures e1 == e2
         || (e1.ChainIncorrectContentType? && e2 == ChainParseResponse(e1.chainId, e1.cause))
         || (e2.ChainIncorrectContentType? && e1 == ChainParseResponse(e2.chainId, e2.cause))
  {
  }
}
