/** Executor outcomes and the HTTP status each one is answered with (internal/webhook/result.go). */
module Results {
  datatype ResultKind =
    | Noop
    | Ready
    | TransientFailure
    | BadRequest
    | Unprocessable
    | InternalError
    | Timeout

  /** `HTTPStatus`. */
  function HTTPStatus(k: ResultKind): (code: int)
    ensures code == 200 <==> k == Noop || k == Ready
  {
    match k
    case Noop | Ready => 200
    case BadRequest => 400
    case Unprocessable => 422
    case TransientFailure => 503
    case Timeout => 504
    case InternalError => 500
  }

  /** The documented status of every kind; every status but 200 tells the kind. */
  lemma StatusTellsKind(j: ResultKind, k: ResultKind)
    ensures HTTPStatus(j) == HTTPStatus(k) <==> j == k || {j, k} == {Noop, Ready}
    ensures HTTPStatus(k) == 200 <==> k in {Noop, Ready}
    ensures HTTPStatus(k) == 400 <==> k == BadRequest
    ensures HTTPStatus(k) == 422 <==> k == Unprocessable
    ensures HTTPStatus(k) == 500 <==> k == InternalError
    ensures HTTPStatus(k) == 503 <==> k == TransientFailure
    ensures HTTPStatus(k) == 504 <==> k == Timeout
  {
    if j != k && HTTPStatus(j) == HTTPStatus(k) {
      assert j in {Noop, Ready} && k in {Noop, Ready};
    }
  }

  datatype ExecResult = ExecResult(kind: ResultKind, crName: string, namespace: string, observedGeneration: int)
}
