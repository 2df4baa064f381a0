/** JSON values, JSON-RPC requests and responses, and which errors may be retried elsewhere. */
module JsonRpc {
  import opened Text

  datatype Option<+T> = None | Some(value: T)

  datatype Json =
    | Null
    | Bool(b: bool)
    | Number(n: real)
    | Str(s: string)
    | Arr(items: seq<Json>)
    | Obj(fields: map<string, Json>)

  datatype Error = Error(code: int, message: string)

  datatype Request = Request(id: Json, rpcMethod: string, params: Option<Json>)

  datatype Response = Response(id: Json, result: Option<Json>, error: Option<Error>)
  {
    predicate HasError() { error.Some? }
    predicate IsSuccess() { error.None? }
  }

  const PARSE_ERROR := -32700
  const INVALID_REQUEST := -32600
  const METHOD_NOT_FOUND := -32601
  const INVALID_PARAMS := -32602
  const INTERNAL_ERROR := -32603

  /** The answer the proxy makes up when no upstream gave a usable one. */
  function AllFailed(id: Json): Response {
    Response(id, None, Some(Error(INTERNAL_ERROR, "all upstreams failed")))
  }

  const CLIENT_ERRORS: set<int> := {PARSE_ERROR, INVALID_REQUEST, METHOD_NOT_FOUND, INVALID_PARAMS}

  const LOGICAL_ERRORS: seq<string> := [
    "execution reverted", "insufficient funds", "nonce too low", "nonce too high", "already known",
    "replacement transaction underpriced"
  ]

  /** An error that says nothing against the request itself. */
  predicate Retryable(r: Response) {
    && r.HasError()
    && r.error.value.code !in CLIENT_ERRORS
    && forall p :: p in LOGICAL_ERRORS ==> !ContainsFold(r.error.value.message, p)
  }

  method IsRetryableError(r: Response) returns (retry: bool)
    ensures retry <==> Retryable(r)
  {
    if r.error.None? {
      return false;
    }
    var e := r.error.value;
    if e.code == PARSE_ERROR || e.code == INVALID_REQUEST || e.code == METHOD_NOT_FOUND || e.code == INVALID_PARAMS {
      return false;
    }
    for i := 0 to |LOGICAL_ERRORS|
      invariant forall j :: 0 <= j < i ==> !ContainsFold(e.message, LOGICAL_ERRORS[j])
    {
      var found := Contains(e.message, LOGICAL_ERRORS[i]);
      if found {
        return false;
      }
    }
    return true;
  }

  /** In plain terms: four codes and six phrases, in any capitalisation, say that the request itself is at fault. */
  lemma RetryableMeans(r: Response)
    ensures Retryable(r) <==>
      && r.error.Some?
      && r.error.value.code !in {-32700, -32600, -32601, -32602}
      && var m := r.error.value.message;
         && !ContainsFold(m, "execution reverted") && !ContainsFold(m, "insufficient funds")
         && !ContainsFold(m, "nonce too low") && !ContainsFold(m, "nonce too high")
         && !ContainsFold(m, "already known") && !ContainsFold(m, "replacement transaction underpriced")
  {
    PhrasesAre();
  }

  lemma PhrasesAre()
    ensures forall p :: p in LOGICAL_ERRORS <==>
      || p == "execution reverted" || p == "insufficient funds" || p == "nonce too low" || p == "nonce too high"
      || p == "already known" || p == "replacement transaction underpriced"
  {
    assert LOGICAL_ERRORS[0] == "execution reverted" && LOGICAL_ERRORS[1] == "insufficient funds"
      && LOGICAL_ERRORS[2] == "nonce too low" && LOGICAL_ERRORS[3] == "nonce too high"
      && LOGICAL_ERRORS[4] == "already known" && LOGICAL_ERRORS[5] == "replacement transaction underpriced";
  }

  /** What the caller is told when nothing worked: an error under the caller's own ID. */
  lemma AllFailedMeans(id: Json)
    ensures var r := AllFailed(id);
      && r.id == id && r.HasError() && r.result.None?
      && r.error.value.code == -32603 && r.error.value.message == "all upstreams failed"
  {
  }

  /** The verdict does not depend on how the upstream capitalises its message. */
  lemma RetryableIgnoresCase(r: Response, e: Error)
    requires r.HasError() && r.error.value.code == e.code && EqualFold(r.error.value.message, e.message)
    ensures Retryable(r) <==> Retryable(r.(error := Some(e)))
  {
    forall p | p in LOGICAL_ERRORS
      ensures ContainsFold(r.error.value.message, p) <==> ContainsFold(e.message, p)
    {
      ContainsFoldIgnoresCase(r.error.value.message, e.message, p);
    }
  }
}
