/** What both rate limiters are given and answer. */
module Limits {

  datatype Limit = Limit(windowMs: int, maxRequests: int)

  datatype Answer = Answer(count: int, over: bool, retryAfter: int)

  function Cap(limit: Limit): nat {
    if limit.maxRequests < 0 then 0 else limit.maxRequests
  }
}
