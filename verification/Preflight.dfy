/** The checks made on every send attempt (src/xauusd/execution/order_manager.py, `preflight`):
    repricing a plan at the live quote, rounding to the grid, and the reward floor. */
module Preflight {
  import opened Domain

  datatype Plan = Plan(direction: Direction, entry: real, stop: real, target: real) {
    function RiskDistance(): real {
      Abs(entry - stop)
    }
  }

  // A plan whose stop is not strictly on the losing side cannot be constructed.
  predicate Constructible(p: Plan) {
    if p.direction == Long then p.stop < p.entry else p.stop > p.entry
  }

  // None is the constructor's ValueError.
  function WithEntry(p: Plan, entry: real): Option<Plan> {
    var q := p.(entry := entry);
    if Constructible(q) then Some(q) else None
  }

  datatype Settings = Settings(
    maxQuoteAge: int, maxSpreadPoints: real, maxEntryDriftR: real, maxSendRetries: nat)

  datatype Verdict = Pass(plan: Plan) | Reject | Raise

  datatype Request = Request(direction: Direction, volume: real, price: real, stop: real, target: real)

  function SpreadPoints(spec: SymbolSpec, q: Quote): real
    requires ValidSpec(spec)
  {
    (q.ask - q.bid) / spec.point
  }

  /** `floor` is the reward-to-risk floor of the trade's tier; lots are in volume steps. */
  function Check(cfg: Settings, floor: real, plan: Plan, lots: real, spec: SymbolSpec, q: Quote, now: int): Verdict
    requires ValidSpec(spec)
  {
    var entryNow := q.PriceFor(plan.direction);
    if now - q.ts > cfg.maxQuoteAge then Reject
    else if SpreadPoints(spec, q) > cfg.maxSpreadPoints then Reject
    else if DriftR(plan, entryNow) > cfg.maxEntryDriftR then Reject
    else
      match WithEntry(plan, entryNow)
      case None => Raise
      case Some(repriced) =>
        var stop := NormalizePrice(repriced.stop, spec.unit);
        var target := NormalizePrice(repriced.target, spec.unit);
        var entry := NormalizePrice(entryNow, spec.unit);
        var dist := Abs(entry - stop);
        var rr := if dist > 0.0 then Abs(target - entry) / dist else 0.0;
        if dist <= spec.stopsLevel || Abs(target - entry) <= spec.stopsLevel || rr < floor
           || lots < spec.volumeMin as real then Reject
        else Pass(repriced)
  }

  function DriftR(plan: Plan, entryNow: real): real {
    if plan.RiskDistance() != 0.0 then Abs(entryNow - plan.entry) / plan.RiskDistance() else 1.0
  }

  // The request built from a plan that passed, at the same quote.
  function RequestFor(plan: Plan, lots: real, spec: SymbolSpec, q: Quote): Request
    requires ValidSpec(spec)
  {
    Request(plan.direction, lots, NormalizePrice(q.PriceFor(plan.direction), spec.unit),
            NormalizePrice(plan.stop, spec.unit), NormalizePrice(plan.target, spec.unit))
  }

  /** A request with prices on the grid, both distances strictly beyond the stops level, and a
      target at least `floor` stop distances away. */
  ghost predicate HonoursFloor(spec: SymbolSpec, floor: real, r: Request)
    requires ValidSpec(spec)
  {
    && OnGrid(r.price, spec.unit) && OnGrid(r.stop, spec.unit) && OnGrid(r.target, spec.unit)
    && Abs(r.price - r.stop) > spec.stopsLevel && Abs(r.target - r.price) > spec.stopsLevel
    && Abs(r.target - r.price) >= floor * Abs(r.price - r.stop)
  }

  /** Every request built after a pass honours the floor after rounding, and its stop is still
      strictly on the losing side. */
  lemma PassHonoursFloor(cfg: Settings, floor: real, plan: Plan, lots: real, spec: SymbolSpec, q: Quote, now: int)
    requires ValidSpec(spec) && Check(cfg, floor, plan, lots, spec, q, now).Pass?
    ensures var r := RequestFor(Check(cfg, floor, plan, lots, spec, q, now).plan, lots, spec, q);
            && HonoursFloor(spec, floor, r)
            && (spec.stopsLevel >= 0.0 ==> if r.direction == Long then r.stop < r.price else r.stop > r.price)
  {
    hide NormalizePrice, OnGrid, DriftR, SpreadPoints;
    var repriced := Check(cfg, floor, plan, lots, spec, q, now).plan;
    var r := RequestFor(repriced, lots, spec, q);
    NormalizeFixesGrid(q.PriceFor(plan.direction), spec.unit);
    NormalizeFixesGrid(plan.stop, spec.unit);
    NormalizeFixesGrid(plan.target, spec.unit);
    if plan.direction == Long {
      NormalizeMonotone(plan.stop, repriced.entry, spec.unit);
    } else {
      NormalizeMonotone(repriced.entry, plan.stop, spec.unit);
    }
    FloorFromRatio(Abs(r.target - r.price), Abs(r.price - r.stop), floor);
  }

  lemma FloorFromRatio(reward: real, dist: real, floor: real)
    requires reward >= 0.0 && dist >= 0.0 && (if dist > 0.0 then reward / dist else 0.0) >= floor
    ensures reward >= floor * dist
  {
    if dist > 0.0 {
      assert reward / dist * dist == reward;
      MulMonotone(floor, reward / dist, dist);
    }
  }

  // ---------------------------------------------------------------- exactly which quotes pass

  // Fresh, with a spread inside the limit, and priced near enough the signal to be worth taking.
  predicate Timely(cfg: Settings, plan: Plan, spec: SymbolSpec, q: Quote, now: int) {
    var entry := if plan.direction == Long then q.ask else q.bid;
    && now - q.ts <= cfg.maxQuoteAge
    && q.ask - q.bid <= cfg.maxSpreadPoints * spec.point
    && (if plan.entry != plan.stop
        then Abs(entry - plan.entry) <= cfg.maxEntryDriftR * Abs(plan.entry - plan.stop)
        else 1.0 <= cfg.maxEntryDriftR)
  }

  // The stop is strictly on the losing side of the price the order would be filled at.
  predicate KeepsSide(plan: Plan, q: Quote) {
    if plan.direction == Long then plan.stop < q.ask else plan.stop > q.bid
  }

  // Once rounded, both distances clear the stops level and the target is worth the floor.
  ghost predicate Worthwhile(floor: real, plan: Plan, spec: SymbolSpec, q: Quote)
    requires ValidSpec(spec)
  {
    var entry := NormalizePrice(if plan.direction == Long then q.ask else q.bid, spec.unit);
    var dist := Abs(entry - NormalizePrice(plan.stop, spec.unit));
    var reward := Abs(NormalizePrice(plan.target, spec.unit) - entry);
    && dist > spec.stopsLevel && reward > spec.stopsLevel
    && (if dist > 0.0 then reward >= floor * dist else floor <= 0.0)
  }

  /** Exactly which quotes pass: the timely ones that keep the stop on its side and the trade worth
      taking, for at least the smallest volume.  The plan that passes is the one given, at the
      price it would be filled at; and repricing raises exactly for a timely quote beyond the stop. */
  lemma PassesExactlyWhen(cfg: Settings, floor: real, plan: Plan, lots: real, spec: SymbolSpec, q: Quote, now: int)
    requires ValidSpec(spec)
    ensures var verdict := Check(cfg, floor, plan, lots, spec, q, now);
            && (verdict.Pass? <==>
                  && Timely(cfg, plan, spec, q, now) && KeepsSide(plan, q) && Worthwhile(floor, plan, spec, q)
                  && lots >= spec.volumeMin as real)
            && (verdict.Pass? ==>
                  verdict.plan == plan.(entry := if plan.direction == Long then q.ask else q.bid))
            && (verdict.Raise? <==> Timely(cfg, plan, spec, q, now) && !KeepsSide(plan, q))
  {
    hide NormalizePrice, Timely, Worthwhile, SpreadPoints, DriftR, Abs;
    TimelyInPoints(cfg, plan, spec, q, now);
    WorthwhileAsRatio(floor, plan, spec, q);
  }

  lemma TimelyInPoints(cfg: Settings, plan: Plan, spec: SymbolSpec, q: Quote, now: int)
    requires ValidSpec(spec)
    ensures Timely(cfg, plan, spec, q, now) <==>
            && now - q.ts <= cfg.maxQuoteAge && SpreadPoints(spec, q) <= cfg.maxSpreadPoints
            && DriftR(plan, q.PriceFor(plan.direction)) <= cfg.maxEntryDriftR
  {
    var entry := q.PriceFor(plan.direction);
    AtMostTimes(q.ask - q.bid, cfg.maxSpreadPoints, spec.point);
    if plan.entry != plan.stop {
      AtMostTimes(Abs(entry - plan.entry), cfg.maxEntryDriftR, Abs(plan.entry - plan.stop));
    }
  }

  lemma WorthwhileAsRatio(floor: real, plan: Plan, spec: SymbolSpec, q: Quote)
    requires ValidSpec(spec)
    ensures var entry := NormalizePrice(q.PriceFor(plan.direction), spec.unit);
            var dist := Abs(entry - NormalizePrice(plan.stop, spec.unit));
            var reward := Abs(NormalizePrice(plan.target, spec.unit) - entry);
            var rr := if dist > 0.0 then reward / dist else 0.0;
            Worthwhile(floor, plan, spec, q) <==> dist > spec.stopsLevel && reward > spec.stopsLevel && rr >= floor
  {
    hide NormalizePrice, Abs;
    var entry := NormalizePrice(q.PriceFor(plan.direction), spec.unit);
    var dist := Abs(entry - NormalizePrice(plan.stop, spec.unit));
    if dist > 0.0 {
      AtMostTimes(Abs(NormalizePrice(plan.target, spec.unit) - entry), floor, dist);
    }
  }

  lemma RatioBelowOne(move: real, risk: real)
    requires risk > 0.0 && move / risk < 1.0
    ensures move < risk
  {
    var ratio := move / risk;
    assert ratio * risk == move;
    MulBelow(ratio, risk);
  }

  lemma MulBelow(ratio: real, risk: real)
    requires risk > 0.0 && ratio < 1.0
    ensures ratio * risk < risk
  {
    assert (1.0 - ratio) * risk > 0.0;
  }

  lemma DriftBelowOneKeepsSide(plan: Plan, entryNow: real)
    requires Constructible(plan) && DriftR(plan, entryNow) < 1.0
    ensures WithEntry(plan, entryNow).Some?
  {
    RatioBelowOne(Abs(entryNow - plan.entry), plan.RiskDistance());
  }

  lemma FullDrift(plan: Plan)
    requires Constructible(plan)
    ensures DriftR(plan, plan.stop) == 1.0
  {
    var risk := plan.RiskDistance();
    assert Abs(plan.stop - plan.entry) == risk > 0.0;
    SelfRatio(risk);
  }

  /** Repricing can raise, for some quote, exactly when the drift limit is one R or more. */
  lemma RaisesExactlyFromOneR(cfg: Settings, floor: real, plan: Plan, lots: real, spec: SymbolSpec, now: int)
    requires ValidSpec(spec) && Constructible(plan) && cfg.maxQuoteAge >= 0 && cfg.maxSpreadPoints >= 0.0
    ensures (exists q :: Check(cfg, floor, plan, lots, spec, q, now) == Raise) <==> cfg.maxEntryDriftR >= 1.0
  {
    hide NormalizePrice;
    if cfg.maxEntryDriftR >= 1.0 {
      var q := Quote(now, plan.stop, plan.stop);
      assert SpreadPoints(spec, q) == 0.0;
      FullDrift(plan);
      assert Check(cfg, floor, plan, lots, spec, q, now) == Raise;
    } else {
      forall q
        ensures Check(cfg, floor, plan, lots, spec, q, now) != Raise
      {
        var e := q.PriceFor(plan.direction);
        if DriftR(plan, e) <= cfg.maxEntryDriftR {
          DriftBelowOneKeepsSide(plan, e);
        }
      }
    }
  }
}
