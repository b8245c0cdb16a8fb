/**
 * The metric-name prefixes and the error-category codes shared by the
 * utilities (utils/constants.js).
 */
module Constants {

  const SqlReqDuration := "sql_req_duration"
  const IterationsStage := "y_iterations_stage_"
  const DurationStage := "y_duration_stage_"
  const ReqDurationStage := "y_http_req_duration_stage_"
  const FailedRequestStage := "y_failed_request_stage_"
  const MetricFailedRequest := "failed_request"

  /** The keys of `TYPE_ERROR_CODES`. */
  datatype ErrorCategory = Text | General | Dns | Tcp | Tls | Http4xx | Http5xx | Http2

  /** The value `TYPE_ERROR_CODES` holds for each category, used as a metric-name suffix. */
  function TypeErrorCode(c: ErrorCategory): string {
    match c
    case Text => "TEXT"
    case General => "GENERAL"
    case Dns => "DNS"
    case Tcp => "TCP"
    case Tls => "TLS"
    case Http4xx => "HTTP4xx"
    case Http5xx => "HTTP5xx"
    case Http2 => "HTTP2"
  }

  /** Distinct categories give distinct suffixes. */
  lemma TypeErrorCodeInjective(c: ErrorCategory, d: ErrorCategory)
    ensures TypeErrorCode(c) == TypeErrorCode(d) <==> c == d
  {
    if TypeErrorCode(c) == TypeErrorCode(d) {
      var s, t := TypeErrorCode(c), TypeErrorCode(d);
      assert |s| == |t| && s[0] == t[0] && s[1] == t[1];
      if |s| == 7 {
        assert s[4] == t[4];
      }
    }
  }
}
