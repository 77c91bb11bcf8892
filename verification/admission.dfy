/**
 * The decision skeleton of the shared-quota admission webhook: which
 * requests it waves through without looking, and how decoding and quota
 * evaluation failures map onto the admission response.
 */
module Admission {
  import opened Results
  import opened QuotaApi

  /** The parts of an admission request the decision reads. */
  datatype AdmissionRequest = AdmissionRequest(requestSubResource: string, namespace: string, operation: Operation)

  /** A quota evaluation failure: a quota forbids the request, or something else went wrong. */
  datatype EvaluationError = Forbidden(message: string) | Failure(message: string)

  /** The admission response. */
  datatype Response = Allowed | Denied(reason: string) | Errored(code: int, message: string)

  const StatusBadRequest := 400
  const StatusInternalServerError := 500

  /**
   * The webhook only evaluates namespaced requests on a main resource:
   * sub-resource actions and cluster-scoped objects are left alone.
   */
  predicate Skipped(req: AdmissionRequest) {
    |req.requestSubResource| != 0 || |req.namespace| == 0
  }

  /**
   * The webhook's decision. `decode` stands for the conversion of the request
   * into admission attributes and `evaluate` for the quota evaluator, which
   * reports nothing when the request fits every quota.
   */
  function Handle<A>(req: AdmissionRequest, decode: AdmissionRequest -> Result<A, string>,
                     evaluate: A -> Option<EvaluationError>): (r: Response)
    ensures Skipped(req) ==> r == Allowed
    ensures !Skipped(req) && decode(req).Err? ==> r == Errored(StatusBadRequest, decode(req).error)
    ensures !Skipped(req) && decode(req).Ok? ==>
              match evaluate(decode(req).value)
              case None => r == Allowed
              case Some(Forbidden(m)) => r == Denied(m)
              case Some(Failure(m)) => r == Errored(StatusInternalServerError, m)
  {
    if |req.requestSubResource| != 0 then Allowed
    else if |req.namespace| == 0 then Allowed
    else
      match decode(req)
      case Err(e) => Errored(StatusBadRequest, e)
      case Ok(attributes) =>
        match evaluate(attributes)
        case None => Allowed
        case Some(Forbidden(m)) => Denied(m)
        case Some(Failure(m)) => Errored(StatusInternalServerError, m)
  }

  /**
   * The webhook fails closed: a request it evaluates is allowed only when it
   * decoded and the evaluator reported nothing, and it is denied only on a
   * quota's refusal.
   */
  lemma HandleFailsClosed<A>(req: AdmissionRequest, decode: AdmissionRequest -> Result<A, string>,
                             evaluate: A -> Option<EvaluationError>)
    requires !Skipped(req)
    ensures Handle(req, decode, evaluate) == Allowed <==> decode(req).Ok? && evaluate(decode(req).value).None?
    ensures Handle(req, decode, evaluate).Denied? <==> decode(req).Ok? && evaluate(decode(req).value).Some? && evaluate(decode(req).value).value.Forbidden?
    ensures Handle(req, decode, evaluate).Errored? ==>
              Handle(req, decode, evaluate).code == StatusBadRequest || Handle(req, decode, evaluate).code == StatusInternalServerError
  {
  }

  /** A skipped request gets the same answer whatever the decoder and evaluator would say. */
  lemma SkippedIgnoresEvaluator<A>(req: AdmissionRequest,
                                   decode1: AdmissionRequest -> Result<A, string>, evaluate1: A -> Option<EvaluationError>,
                                   decode2: AdmissionRequest -> Result<A, string>, evaluate2: A -> Option<EvaluationError>)
    requires Skipped(req)
    ensures Handle(req, decode1, evaluate1) == Handle(req, decode2, evaluate2) == Allowed
  {
  }
}
