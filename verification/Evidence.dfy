// Provider evidence that comes with a response: what is checked, and what is offered to the accounting repository.

module Evidence {
  import opened Domain
  import opened Unicode
  import opened RowOrder
  import opened AttemptStore
  import opened Billing

  datatype QuotaSnapshot = QuotaSnapshot(
    snapshotId: string,
    accountId: AccountId,
    constraintId: string,
    reported: ProviderUnit,
    allowance: Option<FixedDecimal>,
    consumed: Option<FixedDecimal>,
    remaining: Option<FixedDecimal>,
    resetAt: Option<int>,
    observedAt: int,
    freshUntil: int,
    source: Source
  )

  datatype BillingEvidence = BillingEvidence(
    providerRequestId: Option<string>, billedUnits: seq<Quantity>, charge: Option<Quantity>, source: Source)

  datatype Evidence = Evidence(quota: seq<QuotaSnapshot>, billing: Option<BillingEvidence>)

  datatype Rejection = Unsound(error: EvidenceError) | MismatchedProviderAccount

  /** One call on the accounting repository; its answer is ignored. */
  datatype Offer = OfferQuota(snapshot: QuotaSnapshot) | OfferBilling(record: BillingRecord)

  // ---------- Validation ----------

  function ValidateQuota(q: QuotaSnapshot): Result<(), EvidenceError> {
    if Blank(q.snapshotId) || Blank(q.accountId) || Blank(q.constraintId) then Err(MissingIdentifier)
    else if !ValidUnit(q.reported) then Err(InvalidUnit)
    else if Blank(q.source.sourceId) then Err(MissingSource)
    else if q.allowance.None? && q.consumed.None? && q.remaining.None? then Err(MissingReportedValue)
    else if q.freshUntil < q.observedAt then Err(InvalidFreshness)
    else Ok(())
  }

  /** Each snapshot in turn: sound, and about this account. */
  function ValidateQuotas(quota: seq<QuotaSnapshot>, account: AccountId): Result<(), Rejection> {
    if quota == [] then Ok(())
    else
      var first := ValidateQuota(quota[0]);
      if first.Err? then Err(Unsound(first.error))
      else if quota[0].accountId != account then Err(MismatchedProviderAccount)
      else ValidateQuotas(quota[1..], account)
  }

  function ValidateForAccount(e: Evidence, account: AccountId): Result<(), Rejection> {
    var quotas := ValidateQuotas(e.quota, account);
    if quotas.Err? || e.billing.None? then quotas
    else
      var facts := ValidateFacts(e.billing.value.source, e.billing.value.billedUnits, e.billing.value.charge);
      if facts.Err? then Err(Unsound(facts.error)) else Ok(())
  }

  // ---------- What is offered ----------

  /** The billing record of an attempt: its id is the attempt's, and it is fresh only when observed. */
  function BillingFrom(b: BillingEvidence, account: AccountId, id: AttemptId, at: int): BillingRecord {
    BillingRecord(id, id, account, b.providerRequestId, b.billedUnits, b.charge, at, at, b.source)
  }

  function QuotaOffers(quota: seq<QuotaSnapshot>): seq<Offer> {
    seq(|quota|, k requires 0 <= k < |quota| => OfferQuota(quota[k]))
  }

  predicate Usable(e: Evidence, account: AccountId) {
    (e.quota != [] || e.billing.Some?) && ValidateForAccount(e, account).Ok?
  }

  /** All of the evidence, or none of it. `at` is the second in which it is observed, if a repository is configured. */
  function Offers(e: Evidence, account: AccountId, id: AttemptId, at: Option<int>): seq<Offer> {
    if at.None? || !Usable(e, account) then []
    else
      QuotaOffers(e.quota)
      + if e.billing.None? then [] else [OfferBilling(BillingFrom(e.billing.value, account, id, at.value))]
  }

  method PersistAuthoritativeEvidence(e: Evidence, account: AccountId, id: AttemptId, at: Option<int>)
    returns (offers: seq<Offer>)
    ensures offers == Offers(e, account, id, at)
  {
    if at.None? {
      return [];
    }
    var valid := ValidateForAccount(e, account);
    if (e.quota == [] && e.billing.None?) || valid.Err? {
      return [];
    }
    offers := [];
    for k := 0 to |e.quota|
      invariant offers == QuotaOffers(e.quota[..k])
    {
      offers := offers + [OfferQuota(e.quota[k])];
    }
    assert e.quota[..|e.quota|] == e.quota;
    if e.billing.Some? {
      offers := offers + [OfferBilling(BillingFrom(e.billing.value, account, id, at.value))];
    }
  }

  // ---------- Properties ----------

  lemma {:induction false} QuotasAreOwn(quota: seq<QuotaSnapshot>, account: AccountId)
    ensures ValidateQuotas(quota, account).Ok? <==>
              forall q :: q in quota ==> ValidateQuota(q).Ok? && q.accountId == account
  {
    if quota != [] {
      assert quota == [quota[0]] + quota[1..];
      QuotasAreOwn(quota[1..], account);
    }
  }

  /** Evidence about another account is never offered, and one such snapshot keeps back everything else too. */
  lemma OnlyOwnEvidence(e: Evidence, account: AccountId, id: AttemptId, at: Option<int>)
    ensures forall o :: o in Offers(e, account, id, at) && o.OfferQuota? ==>
              o.snapshot in e.quota && ValidateQuota(o.snapshot).Ok? && o.snapshot.accountId == account
    ensures (exists q :: q in e.quota && q.accountId != account) ==> Offers(e, account, id, at) == []
  {
    QuotasAreOwn(e.quota, account);
    if at.Some? && Usable(e, account) {
      forall o | o in Offers(e, account, id, at) && o.OfferQuota?
        ensures o.snapshot in e.quota
      {
        assert o in QuotaOffers(e.quota);
      }
    }
  }

  /** Usable evidence is offered whole and in order, and nothing is offered of any other: with a repository, every
      snapshot sound and about the account, and sound billing facts. */
  lemma OffersAreExact(e: Evidence, account: AccountId, id: AttemptId, at: Option<int>)
    ensures at.None? || !Complies(e, account) ==> Offers(e, account, id, at) == []
    ensures at.Some? && Complies(e, account) ==>
              |Offers(e, account, id, at)| == |e.quota| + (if e.billing.Some? then 1 else 0)
    ensures at.Some? && Complies(e, account) ==>
              forall k :: 0 <= k < |e.quota| ==> Offers(e, account, id, at)[k] == OfferQuota(e.quota[k])
    ensures at.Some? && Complies(e, account) && e.billing.Some? ==>
              Offers(e, account, id, at)[|e.quota|] ==
                OfferBilling(BillingRecord(
                  id, id, account, e.billing.value.providerRequestId, e.billing.value.billedUnits,
                  e.billing.value.charge, at.value, at.value, e.billing.value.source))
  {
    QuotasAreOwn(e.quota, account);
  }

  ghost predicate Complies(e: Evidence, account: AccountId) {
    && (forall q :: q in e.quota ==> SoundQuota(q) && q.accountId == account)
    && (e.billing.Some? ==> SoundFacts(e.billing.value.source, e.billing.value.billedUnits, e.billing.value.charge))
  }

  /** Named, in a valid unit, sourced, with at least one value, and not stale before it was seen. */
  predicate SoundQuota(q: QuotaSnapshot) {
    && !Blank(q.snapshotId) && !Blank(q.accountId) && !Blank(q.constraintId) && !Blank(q.source.sourceId)
    && ValidUnit(q.reported)
    && (q.allowance.Some? || q.consumed.Some? || q.remaining.Some?)
    && q.observedAt <= q.freshUntil
  }

  /** An offered billing record belongs to the attempt and the account, and the stores accept it exactly if neither
      identifier is blank. */
  lemma OfferedBillingIsStorable(e: Evidence, account: AccountId, id: AttemptId, at: Option<int>, record: BillingRecord)
    requires OfferBilling(record) in Offers(e, account, id, at)
    ensures record.recordId == record.attemptId == id && record.accountId == account
    ensures Validate(record).Ok? <==> !Blank(id) && !Blank(account)
  {
    assert OfferBilling(record) !in QuotaOffers(e.quota);
  }

  /** What the billing stores need of the callers holds: with the attempt's id as record id, and one record for an
      attempt, any number of records in any order, with redeliveries, loads back as exactly the attempt's record. */
  lemma OfferedBillingLoads(rs: seq<BillingRecord>, r: BillingRecord)
    requires AllValid(rs) && r in rs && forall b :: b in rs ==> b.recordId == b.attemptId
    requires forall a, b :: a in rs && b in rs && a.attemptId == b.attemptId ==> a == b
    ensures var tables := Stored([], [], rs);
            LoadRecords(tables.1, OrderBy(RowsFor(tables.0, r.attemptId))) == Ok([r])
  {
    StoreThenLoad(rs, r.attemptId);
    var tables := Stored([], [], rs);
    OnlyOne(LoadRecords(tables.1, OrderBy(RowsFor(tables.0, r.attemptId))).value, r);
  }

  lemma OnlyOne(loaded: seq<BillingRecord>, r: BillingRecord)
    requires InOrder(loaded) && forall b :: b in loaded <==> b == r
    ensures loaded == [r]
  {
    assert r in loaded && loaded != [];
    if |loaded| > 1 {
      assert loaded[0] in loaded && loaded[1] in loaded;
      TextBeforeTotal(r.recordId, r.recordId);
    }
  }
}
