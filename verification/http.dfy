/** The HTTP status guard that both API scripts copy. */
module Http {

  /** `300 >= status < 200`, Python's chained comparison, which means
      `300 >= status and status < 200`: a status is rejected exactly when it
      is below 200, so redirects, client errors and server errors all pass. */
  function RejectsStatus(status: int): (r: bool)
    ensures r <==> status < 200
    ensures 300 <= status < 600 ==> !r
  {
    300 >= status && status < 200
  }
}
