// Billing evidence: rows in two tables, `ON CONFLICT DO NOTHING`, and what loading an attempt gives back.

module Billing {
  import opened Domain
  import opened Unicode
  import opened RowOrder
  import opened AttemptStore

  type U8 = x: int | 0 <= x < 256

  datatype FixedDecimal = FixedDecimal(unscaled: int, scale: U8)

  datatype UnitKind =
    | Requests
    | InputTokens
    | CachedInputTokens
    | OutputTokens
    | ReasoningTokens
    | TotalTokens
    | ConcurrentRequests
    | Currency
    | Custom

  datatype ProviderUnit = ProviderUnit(kind: UnitKind, currencyCode: Option<string>, customName: Option<string>)

  datatype Quantity = Quantity(reported: ProviderUnit, value: FixedDecimal)

  datatype Source = Source(sourceId: string, evidenceVersion: Option<string>)

  datatype BillingRecord = BillingRecord(
    recordId: string,
    attemptId: AttemptId,
    accountId: AccountId,
    providerRequestId: Option<string>,
    billedUnits: seq<Quantity>,
    charge: Option<Quantity>,
    observedAt: int,
    freshUntil: int,
    source: Source
  )

  datatype EvidenceError =
    | MissingIdentifier
    | MissingSource
    | InvalidUnit
    | MissingReportedValue
    | InvalidFreshness
    | ChargeMustUseCurrency

  datatype BillingError =
    | Invalid(error: EvidenceError)
    | TooManyUnits
    | StoreFailed
    | UnknownUnit
    | InvalidScale
    | InvalidDecimal
    | MissingCharge

  // ---------- Validation ----------

  predicate ValidUnit(u: ProviderUnit) {
    match u.kind
    case Currency => u.currencyCode.Some? && CurrencyCode(u.currencyCode.value) && u.customName.None?
    case Custom => u.customName.Some? && !Blank(u.customName.value) && u.currencyCode.None?
    case _ => u.currencyCode.None? && u.customName.None?
  }

  predicate CurrencyCode(code: string) {
    |code| == 3 && forall k :: 0 <= k < 3 ==> 'A' <= code[k] <= 'Z'
  }

  /** The reported facts alone: source, units and charge. */
  function ValidateFacts(source: Source, billed: seq<Quantity>, charge: Option<Quantity>): Result<(), EvidenceError> {
    if Blank(source.sourceId) then Err(MissingSource)
    else if billed == [] && charge.None? then Err(MissingReportedValue)
    else if exists k :: 0 <= k < |billed| && !ValidUnit(billed[k].reported) then Err(InvalidUnit)
    else if charge.Some? && !ValidUnit(charge.value.reported) then Err(InvalidUnit)
    else if charge.Some? && charge.value.reported.kind != Currency then Err(ChargeMustUseCurrency)
    else Ok(())
  }

  function Validate(r: BillingRecord): Result<(), EvidenceError> {
    if Blank(r.recordId) || Blank(r.accountId) then Err(MissingIdentifier)
    else
      var facts := ValidateFacts(r.source, r.billedUnits, r.charge);
      if facts.Err? then facts
      else if r.freshUntil < r.observedAt then Err(InvalidFreshness)
      else Ok(())
  }

  /** Sourced, with at least one value, every unit valid, and a charge only in a currency. */
  predicate SoundFacts(source: Source, billed: seq<Quantity>, charge: Option<Quantity>) {
    && !Blank(source.sourceId)
    && (billed != [] || charge.Some?)
    && (forall k :: 0 <= k < |billed| ==> SoundUnit(billed[k].reported))
    && (charge.Some? ==> SoundUnit(charge.value.reported) && charge.value.reported.kind == Currency)
  }

  /** Only a currency has a code, three capital letters; only a custom unit has a name, which is not blank. */
  predicate SoundUnit(u: ProviderUnit) {
    && (u.currencyCode.Some? <==> u.kind == Currency)
    && (u.customName.Some? <==> u.kind == Custom)
    && (u.currencyCode.Some? ==>
          var code := u.currencyCode.value;
          |code| == 3 && 'A' <= code[0] <= 'Z' && 'A' <= code[1] <= 'Z' && 'A' <= code[2] <= 'Z')
    && (u.customName.Some? ==> exists k :: 0 <= k < |u.customName.value| && !White(u.customName.value[k] as int))
  }

  lemma ValidUnitIff(u: ProviderUnit)
    ensures ValidUnit(u) <==> SoundUnit(u)
  {
  }

  /** A record is accepted exactly if it is named, its facts are sound, and it is not stale before it was seen; and the
      first of these that fails gives the error. */
  lemma ValidateIff(r: BillingRecord)
    ensures Validate(r).Ok? <==>
              && !Blank(r.recordId) && !Blank(r.accountId)
              && SoundFacts(r.source, r.billedUnits, r.charge) && r.observedAt <= r.freshUntil
    ensures Validate(r) == Err(MissingIdentifier) <==> Blank(r.recordId) || Blank(r.accountId)
    ensures Validate(r) == Err(InvalidFreshness) ==> SoundFacts(r.source, r.billedUnits, r.charge)
  {
    forall u: ProviderUnit
      ensures ValidUnit(u) <==> SoundUnit(u)
    {
      ValidUnitIff(u);
    }
  }

  // ---------- Columns ----------

  datatype ChargeColumns = ChargeColumns(
    kind: Option<string>, currencyCode: Option<string>, customName: Option<string>,
    unscaled: Option<int>, scale: Option<int>)

  datatype RecordColumns = RecordColumns(
    attemptId: AttemptId,
    accountId: AccountId,
    providerRequestId: Option<string>,
    charge: ChargeColumns,
    freshUntil: int,
    source: Source
  )

  datatype UnitColumns = UnitColumns(
    kind: string, currencyCode: Option<string>, customName: Option<string>, unscaled: int, scale: int)

  type RecordRow = Row<RecordColumns>

  /** `at` is the unit index, `id` the billing record; the two together are the primary key. */
  type UnitRow = Row<UnitColumns>

  function KindName(kind: UnitKind): string {
    match kind
    case Requests => "requests"
    case InputTokens => "input_tokens"
    case CachedInputTokens => "cached_input_tokens"
    case OutputTokens => "output_tokens"
    case ReasoningTokens => "reasoning_tokens"
    case TotalTokens => "total_tokens"
    case ConcurrentRequests => "concurrent_requests"
    case Currency => "currency"
    case Custom => "custom"
  }

  function KindNamed(name: string): Option<UnitKind> {
    if name == "requests" then Some(Requests)
    else if name == "input_tokens" then Some(InputTokens)
    else if name == "cached_input_tokens" then Some(CachedInputTokens)
    else if name == "output_tokens" then Some(OutputTokens)
    else if name == "reasoning_tokens" then Some(ReasoningTokens)
    else if name == "total_tokens" then Some(TotalTokens)
    else if name == "concurrent_requests" then Some(ConcurrentRequests)
    else if name == "currency" then Some(Currency)
    else if name == "custom" then Some(Custom)
    else None
  }

  function ChargeOf(charge: Option<Quantity>): ChargeColumns {
    match charge
    case None => ChargeColumns(None, None, None, None, None)
    case Some(q) =>
      ChargeColumns(Some(KindName(q.reported.kind)), q.reported.currencyCode, q.reported.customName,
        Some(q.value.unscaled), Some(q.value.scale))
  }

  function RecordRowOf(r: BillingRecord): RecordRow {
    Row(r.observedAt, r.recordId,
        RecordColumns(r.attemptId, r.accountId, r.providerRequestId, ChargeOf(r.charge), r.freshUntil, r.source))
  }

  function UnitRowOf(id: string, index: nat, q: Quantity): UnitRow {
    var u := q.reported;
    Row(index, id, UnitColumns(KindName(u.kind), u.currencyCode, u.customName, q.value.unscaled, q.value.scale))
  }

  function LoadUnit(kind: string, currencyCode: Option<string>, customName: Option<string>)
    : Result<ProviderUnit, BillingError>
  {
    var known := KindNamed(kind);
    if known.None? then Err(UnknownUnit)
    else
      var u := ProviderUnit(known.value, currencyCode, customName);
      if ValidUnit(u) then Ok(u) else Err(Invalid(InvalidUnit))
  }

  function LoadDecimal(unscaled: Option<int>, scale: Option<int>): Result<Option<FixedDecimal>, BillingError> {
    if unscaled.None? && scale.None? then Ok(None)
    else if unscaled.Some? && scale.Some? then
      if 0 <= scale.value < 256 then Ok(Some(FixedDecimal(unscaled.value, scale.value))) else Err(InvalidScale)
    else Err(InvalidDecimal)
  }

  function LoadQuantity(
      kind: string, currencyCode: Option<string>, customName: Option<string>, unscaled: Option<int>, scale: Option<int>)
    : Result<Quantity, BillingError>
  {
    var u := LoadUnit(kind, currencyCode, customName);
    if u.Err? then Err(u.error)
    else
      var value := LoadDecimal(unscaled, scale);
      if value.Err? then Err(value.error)
      else if value.value.None? then Err(MissingCharge)
      else Ok(Quantity(u.value, value.value.value))
  }

  function LoadCharge(c: ChargeColumns): Result<Option<Quantity>, BillingError> {
    if c.kind.None? then Ok(None)
    else
      var q := LoadQuantity(c.kind.value, c.currencyCode, c.customName, c.unscaled, c.scale);
      if q.Err? then Err(q.error) else Ok(Some(q.value))
  }

  // ---------- Reading the tables ----------

  /** `WHERE billing_record_id = id`, in insertion order. */
  function UnitsOf(units: seq<UnitRow>, id: string): seq<UnitRow> {
    if units == [] then []
    else
      var last := units[|units| - 1];
      UnitsOf(units[..|units| - 1], id) + if last.id == id then [last] else []
  }

  function LoadUnits(rows: seq<UnitRow>): Result<seq<Quantity>, BillingError> {
    if rows == [] then Ok([])
    else
      var c := rows[0].payload;
      var q := LoadQuantity(c.kind, c.currencyCode, c.customName, Some(c.unscaled), Some(c.scale));
      if q.Err? then Err(q.error)
      else
        var rest := LoadUnits(rows[1..]);
        if rest.Err? then rest else Ok([q.value] + rest.value)
  }

  function LoadRecord(units: seq<UnitRow>, row: RecordRow): Result<BillingRecord, BillingError>
  {
    var billed := LoadUnits(OrderBy(UnitsOf(units, row.id)));
    if billed.Err? then Err(billed.error)
    else
      var c := row.payload;
      var charge := LoadCharge(c.charge);
      if charge.Err? then Err(charge.error)
      else
        var r := BillingRecord(row.id, c.attemptId, c.accountId, c.providerRequestId, billed.value, charge.value,
            row.at, c.freshUntil, c.source);
        var ok := Validate(r);
        if ok.Err? then Err(Invalid(ok.error)) else Ok(r)
  }

  /** Every record, or the error of the first that does not load. */
  function LoadRecords(units: seq<UnitRow>, rows: seq<RecordRow>): Result<seq<BillingRecord>, BillingError>
    decreases |rows|
  {
    if rows == [] then Ok([])
    else
      var head := LoadRecord(units, rows[0]);
      if head.Err? then Err(head.error)
      else
        var rest := LoadRecords(units, rows[1..]);
        if rest.Err? then rest else Ok([head.value] + rest.value)
  }

  /** `WHERE attempt_id = attempt`, in insertion order. */
  function RowsFor(rows: seq<RecordRow>, attempt: AttemptId): seq<RecordRow> {
    if rows == [] then []
    else (if rows[0].payload.attemptId == attempt then [rows[0]] else []) + RowsFor(rows[1..], attempt)
  }

  // ---------- Writing the tables ----------

  predicate HasUnit(units: seq<UnitRow>, id: string, index: int) {
    exists u :: u in units && u.id == id && u.at == index
  }

  function InsertUnit(units: seq<UnitRow>, row: UnitRow): seq<UnitRow> {
    if HasUnit(units, row.id, row.at) then units else units + [row]
  }

  function InsertUnits(units: seq<UnitRow>, id: string, billed: seq<Quantity>, start: nat): seq<UnitRow>
    decreases |billed|
  {
    if billed == [] then units
    else InsertUnits(InsertUnit(units, UnitRowOf(id, start, billed[0])), id, billed[1..], start + 1)
  }

  // ---------- What the tables mean ----------

  /** The records kept, one per id, in the order they first arrived. */
  type Book = seq<BillingRecord>

  /** A second record under a kept id leaves its header alone, and adds only units beyond those already there. */
  function Merge(kept: BillingRecord, again: BillingRecord): BillingRecord {
    kept.(billedUnits := Longer(kept.billedUnits, again.billedUnits))
  }

  function Longer(kept: seq<Quantity>, again: seq<Quantity>): seq<Quantity> {
    if |again| <= |kept| then kept else kept + again[|kept|..]
  }

  function Absorb(book: Book, r: BillingRecord): Book {
    if book == [] then [r]
    else if book[0].recordId == r.recordId then [Merge(book[0], r)] + book[1..]
    else [book[0]] + Absorb(book[1..], r)
  }

  function AbsorbAll(book: Book, rs: seq<BillingRecord>): Book
    decreases |rs|
  {
    if rs == [] then book else AbsorbAll(Absorb(book, rs[0]), rs[1..])
  }

  function Find(book: Book, id: string): Option<BillingRecord> {
    if book == [] then None else if book[0].recordId == id then Some(book[0]) else Find(book[1..], id)
  }

  function KeptUnits(book: Book, id: string): seq<Quantity> {
    var kept := Find(book, id);
    if kept.None? then [] else kept.value.billedUnits
  }

  function RecordRows(book: Book): seq<RecordRow> {
    seq(|book|, k requires 0 <= k < |book| => RecordRowOf(book[k]))
  }

  function UnitRows(id: string, billed: seq<Quantity>): seq<UnitRow> {
    seq(|billed|, k requires 0 <= k < |billed| => UnitRowOf(id, k, billed[k]))
  }

  ghost predicate AllValid(rs: seq<BillingRecord>) {
    forall k :: 0 <= k < |rs| ==> Validate(rs[k]).Ok?
  }

  ghost predicate DistinctIds(rs: seq<BillingRecord>) {
    forall i, j :: 0 <= i < j < |rs| ==> rs[i].recordId != rs[j].recordId
  }

  /** The two tables hold exactly the book. */
  ghost predicate Holds(records: seq<RecordRow>, units: seq<UnitRow>, book: Book) {
    && records == RecordRows(book)
    && forall id :: UnitsOf(units, id) == UnitRows(id, KeptUnits(book, id))
  }

  // ---------- The store ----------

  /** The two stores differ in the width of the unit index column. */
  datatype Engine = Sqlite | Postgres
  {
    function UnitLimit(): nat {
      if Sqlite? then 0x8000_0000_0000_0000 else 0x8000_0000
    }
  }

  class BillingStore {
    var records: seq<RecordRow>
    var units: seq<UnitRow>
    const engine: Engine

    constructor (engine: Engine)
      ensures records == [] && units == [] && this.engine == engine
    {
      records, units := [], [];
      this.engine := engine;
    }

    method RecordBillingRecord(record: BillingRecord, reply: Reply) returns (r: Result<(), BillingError>)
      modifies this
      ensures r.Ok? ==> |record.billedUnits| <= if engine == Sqlite then 0x8000_0000_0000_0000 else 0x8000_0000
      ensures r.Ok? <==> Validate(record).Ok? && |record.billedUnits| <= engine.UnitLimit() && reply == Answered
      ensures Validate(record).Ok? && |record.billedUnits| <= engine.UnitLimit() && reply != Unreachable ==>
                && records == InsertNew(old(records), RecordRowOf(record))
                && units == InsertUnits(old(units), record.recordId, record.billedUnits, 0)
      ensures Validate(record).Err? || |record.billedUnits| > engine.UnitLimit() || reply == Unreachable ==>
                records == old(records) && units == old(units)
    {
      var valid := Validate(record);
      if valid.Err? {
        return Err(Invalid(valid.error));
      }
      if reply == Unreachable {
        return Err(StoreFailed);
      }
      var newRecords, newUnits := InsertNew(records, RecordRowOf(record)), units;
      var billed := record.billedUnits;
      for index := 0 to |billed|
        invariant index <= engine.UnitLimit()
        invariant records == old(records) && units == old(units)
        invariant InsertUnits(newUnits, record.recordId, billed[index..], index)
            == InsertUnits(units, record.recordId, billed, 0)
      {
        if index >= engine.UnitLimit() {
          return Err(TooManyUnits);
        }
        assert billed[index..][1..] == billed[index + 1..];
        newUnits := InsertUnit(newUnits, UnitRowOf(record.recordId, index, billed[index]));
      }
      assert billed[|billed|..] == [];
      records, units := newRecords, newUnits;
      r := if reply == Answered then Ok(()) else Err(StoreFailed);
    }

    method BillingRecords(attempt: AttemptId) returns (r: Result<seq<BillingRecord>, BillingError>)
      ensures r == LoadRecords(units, OrderBy(RowsFor(records, attempt)))
    {
      var rows := OrderBy(RowsFor(records, attempt));
      var loaded: seq<BillingRecord> := [];
      assert rows[0..] == rows;
      for k := 0 to |rows|
        invariant LoadRecords(units, rows) == After(loaded, LoadRecords(units, rows[k..]))
      {
        assert rows[k..][1..] == rows[k + 1..];
        var one := LoadRecord(units, rows[k]);
        if one.Err? {
          return Err(one.error);
        }
        AfterOne(loaded, one.value, LoadRecords(units, rows[k + 1..]));
        loaded := loaded + [one.value];
      }
      assert rows[|rows|..] == [] && loaded + [] == loaded;
      r := Ok(loaded);
    }
  }

  /** `loaded`, followed by a later result. */
  function After(loaded: seq<BillingRecord>, rest: Result<seq<BillingRecord>, BillingError>)
    : Result<seq<BillingRecord>, BillingError>
  {
    if rest.Err? || loaded == [] then rest else Ok(loaded + rest.value)
  }

  lemma AfterOne(loaded: seq<BillingRecord>, r: BillingRecord, rest: Result<seq<BillingRecord>, BillingError>)
    ensures After(loaded + [r], rest) == After(loaded, After([r], rest))
  {
    assert loaded == [] ==> loaded + [r] == [r];
    if rest.Ok? {
      assert (loaded + [r]) + rest.value == loaded + ([r] + rest.value);
    }
  }

  // ---------- Storing keeps the book ----------

  lemma {:induction false} FindAbsorb(book: Book, r: BillingRecord, id: string)
    ensures Find(Absorb(book, r), id) ==
            if id != r.recordId then Find(book, id)
            else match Find(book, id) case None => Some(r) case Some(kept) => Some(Merge(kept, r))
  {
    if book != [] && book[0].recordId != r.recordId {
      FindAbsorb(book[1..], r, id);
    }
  }

  lemma {:induction false} AbsorbIsInsertNew(book: Book, r: BillingRecord)
    ensures RecordRows(Absorb(book, r)) == InsertNew(RecordRows(book), RecordRowOf(r))
  {
    var rows := RecordRows(book);
    if book != [] {
      assert rows == [RecordRowOf(book[0])] + RecordRows(book[1..]);
      if book[0].recordId == r.recordId {
        assert rows[0] in rows && rows[0].id == r.recordId;
        assert RecordRows(Absorb(book, r)) == rows;
      } else {
        AbsorbIsInsertNew(book[1..], r);
        var rest := Absorb(book[1..], r);
        assert RecordRows([book[0]] + rest) == [RecordRowOf(book[0])] + RecordRows(rest);
        assert HasId(rows, r.recordId) <==> HasId(RecordRows(book[1..]), r.recordId);
      }
    }
  }

  lemma {:induction false} UnitsOfMembers(units: seq<UnitRow>, id: string, u: UnitRow)
    ensures u in UnitsOf(units, id) <==> u in units && u.id == id
  {
    if units != [] {
      var front, last := units[..|units| - 1], units[|units| - 1];
      UnitsOfMembers(front, id, u);
      assert units == front + [last];
    }
  }

  lemma InsertUnitStep(units: seq<UnitRow>, id: string, cur: seq<Quantity>, index: nat, q: Quantity)
    requires UnitsOf(units, id) == UnitRows(id, cur) && index <= |cur|
    ensures var after := InsertUnit(units, UnitRowOf(id, index, q));
            && UnitsOf(after, id) == UnitRows(id, if index < |cur| then cur else cur + [q])
            && forall other :: other != id ==> UnitsOf(after, other) == UnitsOf(units, other)
  {
    var row := UnitRowOf(id, index, q);
    if index < |cur| {
      var u := UnitRows(id, cur)[index];
      UnitsOfMembers(units, id, u);
    } else {
      forall u | u in units && u.id == id
        ensures u.at != index
      {
        UnitsOfMembers(units, id, u);
      }
      assert (units + [row])[..|units|] == units;
      assert UnitRows(id, cur + [q]) == UnitRows(id, cur) + [row];
    }
  }

  /** `cur`, and whatever `billed` has beyond it when it is written from index `start`. */
  function Extend(cur: seq<Quantity>, billed: seq<Quantity>, start: nat): seq<Quantity>
    requires start <= |cur|
  {
    if |billed| <= |cur| - start then cur else cur + billed[|cur| - start..]
  }

  lemma ExtendStep(cur: seq<Quantity>, billed: seq<Quantity>, start: nat)
    requires start <= |cur| && billed != []
    ensures Extend(if start < |cur| then cur else cur + [billed[0]], billed[1..], start + 1)
        == Extend(cur, billed, start)
  {
    if start == |cur| {
      assert (cur + [billed[0]]) + billed[1..] == cur + billed;
    }
  }

  lemma {:induction false} InsertUnitsFrom(
      units: seq<UnitRow>, id: string, cur: seq<Quantity>, billed: seq<Quantity>, start: nat)
    requires UnitsOf(units, id) == UnitRows(id, cur) && start <= |cur|
    ensures UnitsOf(InsertUnits(units, id, billed, start), id) == UnitRows(id, Extend(cur, billed, start))
    ensures forall other :: other != id ==>
        UnitsOf(InsertUnits(units, id, billed, start), other) == UnitsOf(units, other)
    decreases |billed|
  {
    if billed != [] {
      InsertUnitStep(units, id, cur, start, billed[0]);
      ExtendStep(cur, billed, start);
      var next := if start < |cur| then cur else cur + [billed[0]];
      InsertUnitsFrom(InsertUnit(units, UnitRowOf(id, start, billed[0])), id, next, billed[1..], start + 1);
    }
  }

  /** Storing one record turns tables that hold a book into tables that hold the book with the record absorbed. */
  lemma StoringAbsorbs(records: seq<RecordRow>, units: seq<UnitRow>, book: Book, r: BillingRecord)
    requires Holds(records, units, book)
    ensures Holds(InsertNew(records, RecordRowOf(r)), InsertUnits(units, r.recordId, r.billedUnits, 0), Absorb(book, r))
  {
    AbsorbIsInsertNew(book, r);
    var cur := KeptUnits(book, r.recordId);
    InsertUnitsFrom(units, r.recordId, cur, r.billedUnits, 0);
    forall id
      ensures UnitsOf(InsertUnits(units, r.recordId, r.billedUnits, 0), id)
          == UnitRows(id, KeptUnits(Absorb(book, r), id))
    {
      FindAbsorb(book, r, id);
    }
  }

  lemma {:induction false} FindIn(book: Book, id: string)
    ensures Find(book, id).Some? ==> Find(book, id).value in book && Find(book, id).value.recordId == id
    ensures Find(book, id).None? ==> forall r :: r in book ==> r.recordId != id
  {
    if book != [] && book[0].recordId != id {
      FindIn(book[1..], id);
    }
  }

  lemma {:induction false} FindMember(book: Book, r: BillingRecord)
    requires DistinctIds(book) && r in book
    ensures Find(book, r.recordId) == Some(r)
  {
    if book[0] != r {
      assert r in book[1..];
      FindMember(book[1..], r);
    }
  }

  lemma {:induction false} MergeIsValid(kept: BillingRecord, again: BillingRecord)
    requires Validate(kept).Ok? && Validate(again).Ok?
    ensures Validate(Merge(kept, again)).Ok?
  {
    var merged := Merge(kept, again).billedUnits;
    forall k | 0 <= k < |merged|
      ensures ValidUnit(merged[k].reported)
    {
      if k < |kept.billedUnits| {
        assert merged[k] == kept.billedUnits[k];
      } else {
        assert merged[k] == again.billedUnits[k];
      }
    }
  }

  lemma {:induction false} AbsorbKeepsIds(book: Book, r: BillingRecord)
    requires DistinctIds(book)
    ensures DistinctIds(Absorb(book, r))
    ensures forall b :: b in Absorb(book, r) ==> b.recordId == r.recordId || b in book
  {
    if book != [] {
      assert book == [book[0]] + book[1..];
      if book[0].recordId != r.recordId {
        AbsorbKeepsIds(book[1..], r);
      }
    }
  }

  lemma {:induction false} AbsorbKeepsValid(book: Book, r: BillingRecord)
    requires AllValid(book) && Validate(r).Ok?
    ensures AllValid(Absorb(book, r))
    decreases |book|
  {
    if book != [] {
      if book[0].recordId == r.recordId {
        MergeIsValid(book[0], r);
        PrependValid(Merge(book[0], r), book[1..]);
      } else {
        AbsorbKeepsValid(book[1..], r);
        PrependValid(book[0], Absorb(book[1..], r));
      }
    }
  }

  lemma PrependValid(r: BillingRecord, rest: seq<BillingRecord>)
    requires Validate(r) == Ok(()) && AllValid(rest)
    ensures AllValid([r] + rest)
  {
    forall k | 0 <= k < |rest| + 1
      ensures Validate(([r] + rest)[k]) == Ok(())
    {
      assert k > 0 ==> ([r] + rest)[k] == rest[k - 1];
    }
  }

  /** Redelivery is harmless exactly when it brings no unit beyond those already kept. */
  lemma {:induction false} AbsorbChangesNothingIff(book: Book, r: BillingRecord)
    ensures Absorb(book, r) == book
        <==> Find(book, r.recordId).Some? && |r.billedUnits| <= |KeptUnits(book, r.recordId)|
  {
    if book != [] {
      if book[0].recordId == r.recordId {
        var kept := book[0].billedUnits;
        assert |Longer(kept, r.billedUnits)| == if |r.billedUnits| <= |kept| then |kept| else |r.billedUnits|;
        assert Absorb(book, r)[0] == Merge(book[0], r);
        if |r.billedUnits| <= |kept| {
          assert [book[0]] + book[1..] == book;
        }
      } else {
        AbsorbChangesNothingIff(book[1..], r);
        assert Absorb(book, r)[1..] == Absorb(book[1..], r);
        assert [book[0]] + book[1..] == book;
      }
    }
  }

  // ---------- Loading gives the book back ----------

  /** The names that the tables hold, and that their checks spell out. */
  lemma KindNames()
    ensures KindName(Requests) == "requests" && KindName(InputTokens) == "input_tokens"
    ensures KindName(CachedInputTokens) == "cached_input_tokens" && KindName(OutputTokens) == "output_tokens"
    ensures KindName(ReasoningTokens) == "reasoning_tokens" && KindName(TotalTokens) == "total_tokens"
    ensures KindName(ConcurrentRequests) == "concurrent_requests"
    ensures KindName(Currency) == "currency" && KindName(Custom) == "custom"
  {
  }

  lemma KindRoundTrip(kind: UnitKind)
    ensures KindNamed(KindName(kind)) == Some(kind)
  {
    assert "custom"[0] != "output_tokens"[0];
  }

  lemma {:induction false} QuantityRoundTrip(q: Quantity)
    requires ValidUnit(q.reported)
    ensures LoadQuantity(KindName(q.reported.kind), q.reported.currencyCode, q.reported.customName,
        Some(q.value.unscaled), Some(q.value.scale))
            == Ok(q)
  {
    KindRoundTrip(q.reported.kind);
  }

  lemma {:induction false} OrderByKeepsOrdered<T>(rows: seq<Row<T>>)
    requires Ordered(rows)
    ensures OrderBy(rows) == rows
  {
    if rows != [] {
      OrderByKeepsOrdered(rows[1..]);
      if |rows| > 1 {
        assert NotAfter(rows[0], rows[1]);
      }
      assert [rows[0]] + rows[1..] == rows;
    }
  }

  lemma {:induction false} UnitsRoundTrip(id: string, billed: seq<Quantity>, rows: seq<UnitRow>, start: nat)
    requires |rows| == |billed| && forall k :: 0 <= k < |billed| ==> rows[k] == UnitRowOf(id, start + k, billed[k])
    requires forall k :: 0 <= k < |billed| ==> ValidUnit(billed[k].reported)
    ensures LoadUnits(rows) == Ok(billed)
    decreases |billed|
  {
    if billed != [] {
      QuantityRoundTrip(billed[0]);
      UnitsRoundTrip(id, billed[1..], rows[1..], start + 1);
      assert [billed[0]] + billed[1..] == billed;
    }
  }

  /** A record row, with the units stored for it, loads as exactly the record it came from. */
  lemma RecordRoundTrip(units: seq<UnitRow>, r: BillingRecord)
    requires Validate(r).Ok? && UnitsOf(units, r.recordId) == UnitRows(r.recordId, r.billedUnits)
    ensures LoadRecord(units, RecordRowOf(r)) == Ok(r)
  {
    OrderByKeepsOrdered(UnitRows(r.recordId, r.billedUnits));
    UnitsRoundTrip(r.recordId, r.billedUnits, UnitRows(r.recordId, r.billedUnits), 0);
    if r.charge.Some? {
      QuantityRoundTrip(r.charge.value);
    }
  }

  /** A quantity loads exactly if its kind is known, its unit is sound, and both halves of its decimal are there with a
      scale of one byte. */
  lemma LoadQuantityIff(
      kind: string, currencyCode: Option<string>, customName: Option<string>, unscaled: Option<int>, scale: Option<int>)
    ensures LoadQuantity(kind, currencyCode, customName, unscaled, scale).Ok? <==>
              exists q: Quantity ::
                && KindName(q.reported.kind) == kind && q.reported.currencyCode == currencyCode
                && q.reported.customName == customName && SoundUnit(q.reported)
                && unscaled == Some(q.value.unscaled) && scale == Some(q.value.scale)
  {
    var loaded := LoadQuantity(kind, currencyCode, customName, unscaled, scale);
    if loaded.Ok? {
      NamedKind(kind);
      ValidUnitIff(loaded.value.reported);
    }
    if q: Quantity :|
      && KindName(q.reported.kind) == kind && q.reported.currencyCode == currencyCode
      && q.reported.customName == customName && SoundUnit(q.reported)
      && unscaled == Some(q.value.unscaled) && scale == Some(q.value.scale)
    {
      ValidUnitIff(q.reported);
      QuantityRoundTrip(q);
    }
  }

  lemma NamedKind(kind: string)
    ensures KindNamed(kind).Some? ==> KindName(KindNamed(kind).value) == kind
  {
  }

  /** Whatever is in the tables, a record that loads has its row's columns, and is valid. */
  lemma LoadedIsValid(units: seq<UnitRow>, row: RecordRow)
    ensures var r := LoadRecord(units, row);
            r.Ok? ==>
              && Validate(r.value).Ok? && r.value.recordId == row.id && r.value.observedAt == row.at
              && r.value.attemptId == row.payload.attemptId && r.value.accountId == row.payload.accountId
              && r.value.freshUntil == row.payload.freshUntil && r.value.source == row.payload.source
              && r.value.providerRequestId == row.payload.providerRequestId
  {
  }

  /** So every load from any tables returns valid records only. */
  lemma {:induction false} EveryLoadIsValid(units: seq<UnitRow>, rows: seq<RecordRow>)
    ensures LoadRecords(units, rows).Ok? ==> AllValid(LoadRecords(units, rows).value)
    decreases |rows|
  {
    if rows != [] {
      LoadedIsValid(units, rows[0]);
      EveryLoadIsValid(units, rows[1..]);
    }
  }

  lemma {:induction false} LoadRecordsPointwise(units: seq<UnitRow>, rows: seq<RecordRow>)
    requires forall k :: 0 <= k < |rows| ==> LoadRecord(units, rows[k]).Ok?
    ensures LoadRecords(units, rows).Ok? && |LoadRecords(units, rows).value| == |rows|
    ensures forall k :: 0 <= k < |rows| ==> LoadRecord(units, rows[k]) == Ok(LoadRecords(units, rows).value[k])
    decreases |rows|
  {
    if rows != [] {
      LoadRecordsPointwise(units, rows[1..]);
    }
  }

  lemma {:induction false} RowsForMembers(rows: seq<RecordRow>, attempt: AttemptId)
    ensures forall row :: row in RowsFor(rows, attempt) <==> row in rows && row.payload.attemptId == attempt
    ensures UniqueIds(rows) ==> UniqueIds(RowsFor(rows, attempt))
  {
    if rows != [] {
      RowsForMembers(rows[1..], attempt);
      forall row | row in rows[1..] && UniqueIds(rows)
        ensures row.id != rows[0].id
      {
      }
    }
  }

  ghost predicate InOrder(rs: seq<BillingRecord>) {
    forall i, j :: 0 <= i < j < |rs| ==>
      || rs[i].observedAt < rs[j].observedAt
      || (rs[i].observedAt == rs[j].observedAt && TextBefore(rs[i].recordId, rs[j].recordId))
  }

  /** What loading an attempt returns: its records out of `all`, each once, sorted, every one of them valid. */
  ghost predicate LoadsExactly(
      r: Result<seq<BillingRecord>, BillingError>, all: seq<BillingRecord>, attempt: AttemptId)
  {
    && r.Ok? && InOrder(r.value) && AllValid(r.value)
    && forall b :: b in r.value <==> b in all && b.attemptId == attempt
  }

  /** A row that the query for `attempt` returned loads as one of the book's records. */
  lemma RowIsKept(records: seq<RecordRow>, units: seq<UnitRow>, book: Book, attempt: AttemptId, row: RecordRow)
    requires Holds(records, units, book) && AllValid(book) && DistinctIds(book)
    requires row in OrderBy(RowsFor(records, attempt))
    ensures LoadRecord(units, row).Ok? && RowLoads(row, book, attempt, LoadRecord(units, row).value)
  {
    var chosen := RowsFor(records, attempt);
    OrderBySorts(chosen);
    RowsForMembers(records, attempt);
    assert row in multiset(OrderBy(chosen));
    var k :| 0 <= k < |records| && records[k] == row;
    var b := book[k];
    FindMember(book, b);
    assert UnitsOf(units, b.recordId) == UnitRows(b.recordId, KeptUnits(book, b.recordId));
    RecordRoundTrip(units, b);
  }

  predicate RowLoads(row: RecordRow, book: Book, attempt: AttemptId, b: BillingRecord) {
    b in book && b.attemptId == attempt && row == RecordRowOf(b)
  }

  ghost predicate LoadsRows(rows: seq<RecordRow>, book: Book, attempt: AttemptId, loaded: seq<BillingRecord>) {
    |loaded| == |rows| && forall k :: 0 <= k < |rows| ==> RowLoads(rows[k], book, attempt, loaded[k])
  }

  lemma RowsLoad(records: seq<RecordRow>, units: seq<UnitRow>, book: Book, attempt: AttemptId)
    requires Holds(records, units, book) && AllValid(book) && DistinctIds(book)
    ensures var rows := OrderBy(RowsFor(records, attempt));
            LoadRecords(units, rows).Ok? && LoadsRows(rows, book, attempt, LoadRecords(units, rows).value)
  {
    var rows := OrderBy(RowsFor(records, attempt));
    forall k | 0 <= k < |rows|
      ensures LoadRecord(units, rows[k]).Ok? && RowLoads(rows[k], book, attempt, LoadRecord(units, rows[k]).value)
    {
      RowIsKept(records, units, book, attempt, rows[k]);
    }
    LoadRecordsPointwise(units, rows);
  }

  /** Tables that hold a book give back exactly the attempt's part of it. */
  lemma {:induction false} LoadingReturnsTheBook(
      records: seq<RecordRow>, units: seq<UnitRow>, book: Book, attempt: AttemptId)
    requires Holds(records, units, book) && AllValid(book) && DistinctIds(book)
    ensures LoadsExactly(LoadRecords(units, OrderBy(RowsFor(records, attempt))), book, attempt)
  {
    var rows := OrderBy(RowsFor(records, attempt));
    RowsLoad(records, units, book, attempt);
    var loaded := LoadRecords(units, rows).value;
    BookRowsDistinct(book);
    RowsForMembers(records, attempt);
    LoadedInOrder(RowsFor(records, attempt), book, attempt, loaded);
    LoadedValid(rows, book, attempt, loaded);
    forall b | b in book && b.attemptId == attempt
      ensures b in loaded
    {
      LoadedHasRecord(records, book, attempt, loaded, b);
    }
  }

  lemma LoadedValid(rows: seq<RecordRow>, book: Book, attempt: AttemptId, loaded: seq<BillingRecord>)
    requires LoadsRows(rows, book, attempt, loaded) && AllValid(book)
    ensures AllValid(loaded) && forall b :: b in loaded ==> b in book && b.attemptId == attempt
  {
    forall k | 0 <= k < |loaded|
      ensures Validate(loaded[k]).Ok? && loaded[k] in book && loaded[k].attemptId == attempt
    {
      assert RowLoads(rows[k], book, attempt, loaded[k]);
    }
  }

  lemma BookRowsDistinct(book: Book)
    requires DistinctIds(book)
    ensures UniqueIds(RecordRows(book))
  {
  }

  lemma LoadedInOrder(chosen: seq<RecordRow>, book: Book, attempt: AttemptId, loaded: seq<BillingRecord>)
    requires UniqueIds(chosen) && LoadsRows(OrderBy(chosen), book, attempt, loaded)
    ensures InOrder(loaded)
  {
    var rows := OrderBy(chosen);
    OrderBySorts(chosen);
    OrderByUnique(chosen);
    forall i, j | 0 <= i < j < |loaded|
      ensures loaded[i].observedAt < loaded[j].observedAt
              || (loaded[i].observedAt == loaded[j].observedAt && TextBefore(loaded[i].recordId, loaded[j].recordId))
    {
      assert NotAfter(rows[i], rows[j]) && rows[i].id != rows[j].id;
      assert RowLoads(rows[i], book, attempt, loaded[i]) && RowLoads(rows[j], book, attempt, loaded[j]);
    }
  }

  lemma LoadedHasRecord(
      records: seq<RecordRow>, book: Book, attempt: AttemptId, loaded: seq<BillingRecord>, b: BillingRecord)
    requires records == RecordRows(book) && DistinctIds(book) && b in book && b.attemptId == attempt
    requires LoadsRows(OrderBy(RowsFor(records, attempt)), book, attempt, loaded)
    ensures b in loaded
  {
    var chosen := RowsFor(records, attempt);
    var j :| 0 <= j < |book| && book[j] == b;
    assert records[j] == RecordRowOf(b);
    RowsForMembers(records, attempt);
    OrderBySorts(chosen);
    assert RecordRowOf(b) in multiset(OrderBy(chosen));
    var k :| 0 <= k < |loaded| && OrderBy(chosen)[k] == RecordRowOf(b);
    assert RowLoads(OrderBy(chosen)[k], book, attempt, loaded[k]);
    FindMember(book, b);
    FindMember(book, loaded[k]);
  }

  // ---------- Whole histories ----------

  /** The tables after storing every record of a history in an empty store. */
  function Stored(records: seq<RecordRow>, units: seq<UnitRow>, rs: seq<BillingRecord>): (seq<RecordRow>, seq<UnitRow>)
    decreases |rs|
  {
    if rs == [] then (records, units)
    else
      var r := rs[0];
      Stored(InsertNew(records, RecordRowOf(r)), InsertUnits(units, r.recordId, r.billedUnits, 0), rs[1..])
  }

  lemma {:induction false} StoredHoldsBook(
      records: seq<RecordRow>, units: seq<UnitRow>, book: Book, rs: seq<BillingRecord>)
    requires Holds(records, units, book) && AllValid(book) && DistinctIds(book) && AllValid(rs)
    ensures var tables := Stored(records, units, rs);
            && Holds(tables.0, tables.1, AbsorbAll(book, rs))
            && AllValid(AbsorbAll(book, rs)) && DistinctIds(AbsorbAll(book, rs))
    decreases |rs|
  {
    if rs != [] {
      StoringAbsorbs(records, units, book, rs[0]);
      AbsorbKeepsIds(book, rs[0]);
      AbsorbKeepsValid(book, rs[0]);
      StoredHoldsBook(
        InsertNew(records, RecordRowOf(rs[0])), InsertUnits(units, rs[0].recordId, rs[0].billedUnits, 0),
        Absorb(book, rs[0]), rs[1..]);
    }
  }

  /** Whatever valid records are stored, in whatever order, every load succeeds and returns the merged book. */
  lemma {:induction false} EveryHistoryLoads(rs: seq<BillingRecord>, attempt: AttemptId)
    requires AllValid(rs)
    ensures var tables := Stored([], [], rs);
            LoadsExactly(LoadRecords(tables.1, OrderBy(RowsFor(tables.0, attempt))), AbsorbAll([], rs), attempt)
  {
    StoredHoldsBook([], [], [], rs);
    var tables := Stored([], [], rs);
    LoadingReturnsTheBook(tables.0, tables.1, AbsorbAll([], rs), attempt);
  }

  /** The same id always carries the same record: distinct ids, plus any number of redeliveries. */
  ghost predicate Consistent(rs: seq<BillingRecord>) {
    forall a, b :: a in rs && b in rs && a.recordId == b.recordId ==> a == b
  }

  lemma {:induction false} AbsorbConsistent(book: Book, r: BillingRecord)
    requires forall b :: b in book && b.recordId == r.recordId ==> b == r
    ensures forall b :: b in Absorb(book, r) <==> b in book || b == r
  {
    if book != [] {
      assert book == [book[0]] + book[1..];
      if book[0].recordId != r.recordId {
        AbsorbConsistent(book[1..], r);
      }
    }
  }

  lemma {:induction false} BookOfConsistent(book: Book, rs: seq<BillingRecord>)
    requires Consistent(book + rs)
    ensures forall b :: b in AbsorbAll(book, rs) <==> b in book || b in rs
    decreases |rs|
  {
    if rs != [] {
      assert rs[0] in book + rs;
      assert forall b :: b in book ==> b in book + rs;
      AbsorbConsistent(book, rs[0]);
      var next := Absorb(book, rs[0]);
      forall b | b in next + rs[1..]
        ensures b in book + rs
      {
      }
      assert rs == [rs[0]] + rs[1..];
      BookOfConsistent(next, rs[1..]);
    }
  }

  /** Records with distinct ids, stored in any order with any redeliveries: loading an attempt returns exactly its
      records, each once and unchanged, sorted by observation time and then id. */
  lemma {:induction false} StoreThenLoad(rs: seq<BillingRecord>, attempt: AttemptId)
    requires AllValid(rs) && Consistent(rs)
    ensures var tables := Stored([], [], rs);
            LoadsExactly(LoadRecords(tables.1, OrderBy(RowsFor(tables.0, attempt))), rs, attempt)
  {
    EveryHistoryLoads(rs, attempt);
    assert [] + rs == rs;
    BookOfConsistent([], rs);
  }

  /** Recording an id again, one second later and with one more unit: what is stored and loaded afterwards is neither
      of the two records. */
  lemma ReRecordingMixes(kept: BillingRecord, extra: Quantity)
    requires Validate(kept).Ok? && ValidUnit(extra.reported)
    ensures var again := kept.(observedAt := kept.observedAt + 1, freshUntil := kept.freshUntil + 1,
                               billedUnits := kept.billedUnits + [extra]);
            var mixed := kept.(billedUnits := kept.billedUnits + [extra]);
            var tables := Stored([], [], [kept, again]);
            && AllValid([kept, again]) && mixed != kept && mixed != again
            && LoadsExactly(LoadRecords(tables.1, OrderBy(RowsFor(tables.0, kept.attemptId))), [mixed], kept.attemptId)
  {
    var again := kept.(observedAt := kept.observedAt + 1, freshUntil := kept.freshUntil + 1,
                       billedUnits := kept.billedUnits + [extra]);
    var mixed := kept.(billedUnits := kept.billedUnits + [extra]);
    var units := again.billedUnits;
    forall k | 0 <= k < |units|
      ensures ValidUnit(units[k].reported)
    {
      assert k < |kept.billedUnits| ==> units[k] == kept.billedUnits[k];
    }
    assert |mixed.billedUnits| != |kept.billedUnits|;
    assert mixed.observedAt != again.observedAt;
    EveryHistoryLoads([kept, again], kept.attemptId);
    assert Merge(kept, again) == mixed;
    assert [kept, again][1..] == [again] && [again][1..] == [] && [kept][1..] == [];
    assert Absorb([], kept) == [kept] && Absorb([kept], again) == [mixed] + [];
    assert AbsorbAll([], [kept, again]) == AbsorbAll([kept], [again]) == AbsorbAll([mixed], []) == [mixed];
  }
}
