/** `VALID_STATUS_CODES`: the fixed allow-list of HTTP status codes whose responses
    are reported. */
module Status {

  const Success2xx: seq<int> := [200, 201, 202, 203, 204, 205, 206, 207, 208, 226]
  const Redirection3xx: seq<int> := [300, 301, 302, 303, 304, 305, 307, 308]
  const ClientError4xx: seq<int> :=
    [400, 401, 402, 403, 405, 406, 407, 408, 409, 410, 411, 412, 413, 414, 415, 416, 417, 418]
  const ClientErrorHigh4xx: seq<int> := [421, 422, 423, 424, 425, 426, 428, 429, 431, 451]
  const ServerError5xx: seq<int> := [500, 501, 502, 503, 504, 505, 506, 507, 508, 510, 511]

  /** The list in the order the source gives it, kept in five short pieces. */
  const ValidStatusCodes: seq<int> :=
    Success2xx + Redirection3xx + ClientError4xx + ClientErrorHigh4xx + ServerError5xx

  /** `VALID_STATUS_CODES.contains(&status)`. */
  predicate IsReported(status: int)
    ensures IsReported(status) ==> 200 <= status <= 511 && status != 404
  {
    status in ValidStatusCodes
  }

  /** The allow-list as ranges: 200-208 and 226; 300-305, 307 and 308;
      400-403, 405-418, 421-426, 428, 429, 431 and 451; 500-508, 510 and 511. */
  lemma ReportedRanges(status: int)
    ensures IsReported(status) <==>
      || 200 <= status <= 208 || status == 226
      || 300 <= status <= 305 || status == 307 || status == 308
      || 400 <= status <= 403 || 405 <= status <= 418 || 421 <= status <= 426
      || status == 428 || status == 429 || status == 431 || status == 451
      || 500 <= status <= 508 || status == 510 || status == 511
  {
  }

  /** "Not found" and 509 are never reported; 200, 403 and 503 always are. */
  lemma NotableCodes()
    ensures !IsReported(404) && !IsReported(509)
    ensures IsReported(200) && IsReported(403) && IsReported(503)
  {
    ReportedRanges(404);
    ReportedRanges(509);
    ReportedRanges(200);
    ReportedRanges(403);
    ReportedRanges(503);
  }
}
