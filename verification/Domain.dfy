// Types shared by every part of the gateway model.

module Domain {

  datatype Option<+T> = None | Some(value: T)

  datatype Result<+T, +E> = Ok(value: T) | Err(error: E)

  type Model = string
  type RouteId = string
  type AccountId = string

  /** One configured upstream route, as the repositories hand it to the planner. */
  datatype RouteCandidate = RouteCandidate(
    routeId: RouteId,
    logicalModel: Model,
    accountId: AccountId,
    provider: string,
    credentialRef: string,
    baseUrl: string,
    upstreamModel: string,
    priority: nat
  )

  datatype ErrorCategory =
    | QuotaExhausted
    | CreditExhausted
    | SpendLimitExceeded
    | RateLimited
    | ConcurrencyLimited
    | AuthenticationFailed
    | ModelUnavailable
    | ProviderUnavailable
    | Unknown
  {
    predicate BlocksAccount() {
      QuotaExhausted? || CreditExhausted? || SpendLimitExceeded? || AuthenticationFailed?
    }

    predicate OpensRoute() {
      RateLimited? || ConcurrencyLimited? || ModelUnavailable? || ProviderUnavailable? || Unknown?
    }
  }

  /** Every failure concerns either the whole account or just the route. */
  lemma FailureScopes(c: ErrorCategory)
    ensures c.BlocksAccount() <==> c in {QuotaExhausted, CreditExhausted, SpendLimitExceeded, AuthenticationFailed}
    ensures c.OpensRoute() <==> !c.BlocksAccount()
  {
  }

  datatype ProviderFailure = ProviderFailure(
    category: ErrorCategory,
    message: string,
    status: Option<nat>,
    retryAt: Option<int>
  )

  /** The category as stored with an attempt. */
  function CategoryName(c: ErrorCategory): string {
    match c
    case QuotaExhausted => "QuotaExhausted"
    case CreditExhausted => "CreditExhausted"
    case SpendLimitExceeded => "SpendLimitExceeded"
    case RateLimited => "RateLimited"
    case ConcurrencyLimited => "ConcurrencyLimited"
    case AuthenticationFailed => "AuthenticationFailed"
    case ModelUnavailable => "ModelUnavailable"
    case ProviderUnavailable => "ProviderUnavailable"
    case Unknown => "Unknown"
  }

  /** How a database answers one write or transaction: normally, with an error after it took effect, or with an
      error and no effect. */
  datatype Reply = Answered | FailedAfterWrite | Unreachable

  /** Every category has its own name, so the stored text determines it. */
  lemma CategoryNamesDiffer(c: ErrorCategory, d: ErrorCategory)
    ensures CategoryName(c) == CategoryName(d) ==> c == d
    ensures CategoryName(RateLimited) == "RateLimited" && CategoryName(ProviderUnavailable) == "ProviderUnavailable"
    ensures CategoryName(QuotaExhausted) == "QuotaExhausted" && CategoryName(CreditExhausted) == "CreditExhausted"
    ensures CategoryName(ModelUnavailable) == "ModelUnavailable" && CategoryName(Unknown) == "Unknown"
    ensures CategoryName(SpendLimitExceeded) == "SpendLimitExceeded"
    ensures CategoryName(ConcurrencyLimited) == "ConcurrencyLimited"
    ensures CategoryName(AuthenticationFailed) == "AuthenticationFailed"
  {
    assert CategoryName(c) == CategoryName(d) ==> |CategoryName(c)| == |CategoryName(d)|;
    assert "SpendLimitExceeded"[0] != "ConcurrencyLimited"[0];
  }
}
