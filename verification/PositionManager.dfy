/** Position management after entry (src/xauusd/execution/position_manager.py): the stop ratchet.
    The broker's answers are inputs, so every statement holds for every broker. */
module PositionManager {
  import opened Domain

  datatype Config = Config(
    breakEvenAtR: real, breakEvenOffsetR: real, partialEnabled: bool, partialFraction: real,
    trailEnabled: bool, trailActivateR: real, timeStopMinR: real,
    invalidationExit: bool, flatBeforeWeekend: bool)
  {
    predicate Valid() {
      ValidThresholds(breakEvenAtR, breakEvenOffsetR, trailActivateR)
    }
  }

  datatype Managed = Managed(
    entry: real, initialStop: real, currentStop: real, remaining: int, direction: Direction,
    primaryRr: real, barsHeld: int, partialTaken: bool, movedToBe: bool, maeR: real, mfeR: real)
  {
    function Risk(): real {
      Abs(entry - initialStop)
    }

    function RAt(price: real): real {
      if Risk() > 0.0 then (price - entry) * direction.Sign() / Risk() else 0.0
    }

    predicate ImprovedBy(stop: real) {
      Improves(direction, stop, currentStop)
    }

    // Distance from entry to the current stop, negative once past break-even.
    function CurrentRisk(): real {
      (entry - currentStop) * direction.Sign()
    }
  }

  datatype Swing = Swing(price: real, isHigh: bool)

  /** Everything one management cycle reads from outside for one position.  A missing quote is a
      broker error; the booleans say whether the broker would accept each request; `swings` is
      the structure snapshot of the setup timeframe, if there is one. */
  datatype Cycle = Cycle(
    quote: Quote, barClosed: bool, swings: Option<seq<Swing>>, timeLimit: int,
    invalidated: bool, nearWeekend: bool,
    beQuote: Option<Quote>, beAccepted: bool, trailQuote: Option<Quote>, trailAccepted: bool,
    partialAccepted: bool, attachAccepted: bool, closeAccepted: bool)

  const TOLERANCE := 0.000000001

  // Kept: still managed.  Closed: forgotten after a close.  Refused: StopWideningRefused escapes.
  datatype Result = Kept(mp: Managed, applied: bool) | Closed | Refused

  function ModifyStop(mp: Managed, stop: real, accepted: bool): Result {
    var oldRisk, newRisk := mp.CurrentRisk(), (mp.entry - stop) * mp.direction.Sign();
    if newRisk > oldRisk + TOLERANCE then Refused
    else if Abs(stop - mp.currentStop) < TOLERANCE then Kept(mp, false)
    else if accepted then Kept(mp.(currentStop := stop), true)
    else Kept(mp, false)
  }

  function SafeModify(spec: SymbolSpec, mp: Managed, stop: real, quote: Option<Quote>, accepted: bool): Result
    requires ValidSpec(spec)
  {
    var price := if quote.Some? then quote.value.ExitPriceFor(mp.direction) else mp.entry;
    if Abs(price - stop) < spec.stopsLevel then Kept(mp, false)
    else if spec.freezeLevel != 0.0 && Abs(price - mp.currentStop) < spec.freezeLevel then Kept(mp, false)
    else ModifyStop(mp, NormalizePrice(stop, spec.unit), accepted)
  }

  // Largest low below the price, or smallest high above it.
  function NearestSwing(d: Direction, swings: seq<Swing>, price: real): Option<real> {
    if swings == [] then None
    else
      var rest, s := NearestSwing(d, swings[..|swings| - 1], price), swings[|swings| - 1];
      if d == Long && !s.isHigh && s.price < price then
        Some(if rest.Some? then Max(rest.value, s.price) else s.price)
      else if d == Short && s.isHigh && s.price > price then
        Some(if rest.Some? then Min(rest.value, s.price) else s.price)
      else rest
  }

  function StructuralTrail(mp: Managed, swings: Option<seq<Swing>>, price: real): Option<real> {
    if swings == None then None
    else
      match NearestSwing(mp.direction, swings.value, price)
      case None => None
      case Some(level) => Some(level - 0.1 * mp.Risk() * mp.direction.Sign())
  }

  function BreakEvenLevel(cfg: Config, mp: Managed): real {
    mp.entry + cfg.breakEvenOffsetR * mp.Risk() * mp.direction.Sign()
  }

  // A position that lost its server-side stop gets its initial one back, or is closed.
  function EnsureStop(mp: Managed, cycle: Cycle): Result {
    if cycle.attachAccepted then Kept(mp.(currentStop := mp.initialStop), true)
    else if cycle.closeAccepted then Closed
    else Kept(mp, false)
  }

  function BreakEvenStep(cfg: Config, spec: SymbolSpec, mp: Managed, cycle: Cycle, r: real): Result
    requires ValidSpec(spec)
  {
    var be := BreakEvenLevel(cfg, mp);
    if mp.movedToBe || r < cfg.breakEvenAtR || !mp.ImprovedBy(be) then Kept(mp, false)
    else
      match SafeModify(spec, mp, be, cycle.beQuote, cycle.beAccepted)
      case Kept(m, applied) => Kept(if applied then m.(movedToBe := true) else m, applied)
      case other => other
  }

  // The part of the volume a partial close would take, in whole steps.
  function Portion(cfg: Config, remaining: int): int {
    NormalizeVolume(Share(cfg, remaining))
  }

  function Share(cfg: Config, remaining: int): real {
    remaining as real * cfg.partialFraction
  }

  function PartialStep(cfg: Config, spec: SymbolSpec, mp: Managed, cycle: Cycle, r: real): Managed {
    var vol := Portion(cfg, mp.remaining);
    if cfg.partialEnabled && !mp.partialTaken && r >= mp.primaryRr
       && vol >= spec.volumeMin && mp.remaining - vol >= spec.volumeMin && cycle.partialAccepted
    then mp.(remaining := mp.remaining - vol, partialTaken := true) else mp
  }

  function TrailStep(cfg: Config, spec: SymbolSpec, mp: Managed, cycle: Cycle, price: real, r: real): Result
    requires ValidSpec(spec)
  {
    var stop := StructuralTrail(mp, cycle.swings, price);
    if !cfg.trailEnabled || r < cfg.trailActivateR || stop == None || !mp.ImprovedBy(stop.value) then Kept(mp, false)
    else SafeModify(spec, mp, stop.value, cycle.trailQuote, cycle.trailAccepted)
  }

  predicate WantsExit(cfg: Config, mp: Managed, cycle: Cycle, r: real) {
    || (cycle.timeLimit != 0 && mp.barsHeld >= cycle.timeLimit && r < cfg.timeStopMinR)
    || (cfg.invalidationExit && cycle.swings.Some? && cycle.barClosed && cycle.invalidated)
    || (cfg.flatBeforeWeekend && cycle.nearWeekend)
  }

  function Observe(mp: Managed, cycle: Cycle, r: real): Managed {
    mp.(mfeR := Max(mp.mfeR, r), maeR := Max(mp.maeR, -r),
        barsHeld := if cycle.barClosed then mp.barsHeld + 1 else mp.barsHeld)
  }

  /** One management cycle of one position, in the source's order. */
  function ManageOne(cfg: Config, spec: SymbolSpec, mp: Managed, cycle: Cycle): Result
    requires ValidSpec(spec)
  {
    var price := cycle.quote.ExitPriceFor(mp.direction);
    var r := mp.RAt(price);
    var mp := Observe(mp, cycle, r);
    if mp.currentStop == 0.0 then EnsureStop(mp, cycle)
    else
      match BreakEvenStep(cfg, spec, mp, cycle, r)
      case Closed => Closed
      case Refused => Refused
      case Kept(m, _) =>
        match TrailStep(cfg, spec, PartialStep(cfg, spec, m, cycle, r), cycle, price, r)
        case Closed => Closed
        case Refused => Refused
        case Kept(m, _) =>
          if WantsExit(cfg, m, cycle, r) && cycle.closeAccepted then Closed else Kept(m, false)
  }

  // What a refused cycle leaves behind: everything it had done before the refusal.
  function LeftBehind(cfg: Config, spec: SymbolSpec, mp: Managed, cycle: Cycle): Managed
    requires ValidSpec(spec)
  {
    var r := mp.RAt(cycle.quote.ExitPriceFor(mp.direction));
    var mp := Observe(mp, cycle, r);
    match BreakEvenStep(cfg, spec, mp, cycle, r)
    case Kept(m, _) => PartialStep(cfg, spec, m, cycle, r)
    case _ => mp
  }

  // ---------------------------------------------------------------- one cycle, in prices

  // How far the price the position would close at has moved its way.
  function Moved(mp: Managed, q: Quote): real {
    if mp.direction == Long then q.bid - mp.entry else mp.entry - q.ask
  }

  // The position is up by so many times its initial risk; without a risk it stands at zero.
  predicate Up(mp: Managed, q: Quote, r: real) {
    var risk := Abs(mp.entry - mp.initialStop);
    if risk > 0.0 then Moved(mp, q) >= r * risk else 0.0 >= r
  }

  lemma UpMeans(mp: Managed, q: Quote, r: real)
    ensures mp.RAt(q.ExitPriceFor(mp.direction)) >= r <==> Up(mp, q, r)
    ensures mp.RAt(q.ExitPriceFor(mp.direction)) * Abs(mp.entry - mp.initialStop)
            == if mp.entry != mp.initialStop then Moved(mp, q) else 0.0
  {
    var risk := mp.Risk();
    assert (q.ExitPriceFor(mp.direction) - mp.entry) * mp.direction.Sign() == Moved(mp, q);
    if risk > 0.0 {
      QuotientTimes(Moved(mp, q), risk);
      AtMostTimes(Moved(mp, q), r, risk);
    }
  }

  function BarsAfter(mp: Managed, cycle: Cycle): int {
    mp.barsHeld + if cycle.barClosed then 1 else 0
  }

  // It has been held for its limit, counting a bar that just closed, without being up enough.
  predicate TimeIsUp(cfg: Config, mp: Managed, cycle: Cycle) {
    cycle.timeLimit != 0 && BarsAfter(mp, cycle) >= cycle.timeLimit && !Up(mp, cycle.quote, cfg.timeStopMinR)
  }

  /** When a cycle closes a position.  One whose stop is set is closed exactly when the broker
      accepts and its time is up, or its premise broke at a bar close while that exit is on, or the
      weekend is near and positions are flattened for it.  One without a stop is closed exactly
      when the initial stop cannot be put back, and accepted. */
  lemma ClosedExactlyWhen(cfg: Config, spec: SymbolSpec, mp: Managed, cycle: Cycle)
    requires ValidSpec(spec) && ManageOne(cfg, spec, mp, cycle) != Refused
    ensures ManageOne(cfg, spec, mp, cycle) == Closed <==>
            && cycle.closeAccepted
            && (if mp.currentStop == 0.0 then !cycle.attachAccepted
                else
                  || TimeIsUp(cfg, mp, cycle)
                  || (cfg.invalidationExit && cycle.invalidated && cycle.barClosed && cycle.swings.Some?)
                  || (cfg.flatBeforeWeekend && cycle.nearWeekend))
  {
    hide BreakEvenStep, TrailStep, Managed.RAt, Portion, Up;
    UpMeans(mp, cycle.quote, cfg.timeStopMinR);
    if mp.currentStop != 0.0 {
      StepsKeepRecords(cfg, spec, mp, cycle, mp.RAt(cycle.quote.ExitPriceFor(mp.direction)));
    }
  }

  // Half of what is left, say, when the position is up by its first target's reward.
  predicate TakesPartial(cfg: Config, spec: SymbolSpec, mp: Managed, cycle: Cycle) {
    var part := Portion(cfg, mp.remaining);
    && cfg.partialEnabled && !mp.partialTaken && Up(mp, cycle.quote, mp.primaryRr)
    && part >= spec.volumeMin && mp.remaining - part >= spec.volumeMin && cycle.partialAccepted
  }

  /** What a cycle records of a position it keeps: one more bar if one closed, the best and worst
      profit so far in R, and the part closed exactly when a partial is due and accepted. */
  lemma KeptRecords(cfg: Config, spec: SymbolSpec, mp: Managed, cycle: Cycle)
    requires ValidSpec(spec) && ManageOne(cfg, spec, mp, cycle).Kept?
    ensures var now, r := ManageOne(cfg, spec, mp, cycle).mp, mp.RAt(cycle.quote.ExitPriceFor(mp.direction));
            var partial := mp.currentStop != 0.0 && TakesPartial(cfg, spec, mp, cycle);
            && now.entry == mp.entry && now.direction == mp.direction && now.initialStop == mp.initialStop
            && now.barsHeld == BarsAfter(mp, cycle)
            && now.mfeR == (if r > mp.mfeR then r else mp.mfeR) && now.maeR == (if -r > mp.maeR then -r else mp.maeR)
            && now.partialTaken == (mp.partialTaken || partial)
            && now.remaining == mp.remaining
                                - if partial then Portion(cfg, mp.remaining) else 0
  {
    hide BreakEvenStep, TrailStep, Managed.RAt, Portion, Up;
    UpMeans(mp, cycle.quote, mp.primaryRr);
    if mp.currentStop != 0.0 {
      var r := mp.RAt(cycle.quote.ExitPriceFor(mp.direction));
      StepsKeepRecords(cfg, spec, mp, cycle, r);
    }
  }

  // The part is the configured fraction, floored to whole steps up to the eighth decimal.
  lemma PortionFloors(cfg: Config, remaining: int)
    ensures FlooredFrom(Share(cfg, remaining), Portion(cfg, remaining))
    ensures Share(cfg, remaining) == remaining as real * cfg.partialFraction
  {
    hide NormalizeVolume, FlooredFrom;
    VolumeFloors(Share(cfg, remaining));
  }

  predicate FlooredFrom(wanted: real, steps: int) {
    if wanted <= 0.0 then steps == 0
    else steps as real - 0.000000005 <= wanted < steps as real + 1.000000005
  }

  lemma VolumeFloors(wanted: real)
    ensures FlooredFrom(wanted, NormalizeVolume(wanted))
  {
    if wanted > 0.0 {
      hide NormalizeVolume;
      NormalizeVolumeFloors(wanted);
    }
  }

  /** What a refused cycle leaves behind: the bar and the profit it observed; and if the break-even
      move was not what was refused, that move and the partial as in any other cycle. */
  lemma RefusedLeaves(cfg: Config, spec: SymbolSpec, mp: Managed, cycle: Cycle)
    requires ValidSpec(spec) && ManageOne(cfg, spec, mp, cycle) == Refused
    ensures var left, r := LeftBehind(cfg, spec, mp, cycle), mp.RAt(cycle.quote.ExitPriceFor(mp.direction));
            && left.entry == mp.entry && left.direction == mp.direction && left.initialStop == mp.initialStop
            && left.barsHeld == BarsAfter(mp, cycle)
            && left.mfeR == (if r > mp.mfeR then r else mp.mfeR) && left.maeR == (if -r > mp.maeR then -r else mp.maeR)
            && (|| (left.currentStop == mp.currentStop && left.movedToBe == mp.movedToBe
                    && left.remaining == mp.remaining && left.partialTaken == mp.partialTaken)
                || (left.currentStop == StopAfterBreakEven(cfg, spec, mp, cycle)
                    && left.partialTaken == (mp.partialTaken || TakesPartial(cfg, spec, mp, cycle))
                    && left.remaining
                       == mp.remaining - if TakesPartial(cfg, spec, mp, cycle) then Portion(cfg, mp.remaining) else 0))
  {
    hide BreakEvenStep, TrailStep, Managed.RAt, Portion, Up, MovedStop;
    var r := mp.RAt(cycle.quote.ExitPriceFor(mp.direction));
    UpMeans(mp, cycle.quote, mp.primaryRr);
    StepsKeepRecords(cfg, spec, mp, cycle, r);
    BreakEvenMoves(cfg, spec, mp, cycle);
  }

  lemma StepsKeepRecords(cfg: Config, spec: SymbolSpec, mp: Managed, cycle: Cycle, r: real)
    requires ValidSpec(spec)
    ensures var o := Observe(mp, cycle, r);
            var be := BreakEvenStep(cfg, spec, o, cycle, r);
            && be != Closed
            && (be.Kept? ==> be.mp == o.(currentStop := be.mp.currentStop, movedToBe := be.mp.movedToBe))
            && (be.Kept? ==>
                  var p := PartialStep(cfg, spec, be.mp, cycle, r);
                  var t := TrailStep(cfg, spec, p, cycle, cycle.quote.ExitPriceFor(mp.direction), r);
                  t != Closed && (t.Kept? ==> t.mp == p.(currentStop := t.mp.currentStop)))
  {
    hide BreakEvenStep, TrailStep, PartialStep;
    var o := Observe(mp, cycle, r);
    BreakEvenKeepsRecords(cfg, spec, o, cycle, r);
    var be := BreakEvenStep(cfg, spec, o, cycle, r);
    if be.Kept? {
      TrailKeepsRecords(cfg, spec, PartialStep(cfg, spec, be.mp, cycle, r), cycle,
                        cycle.quote.ExitPriceFor(mp.direction), r);
    }
  }

  lemma BreakEvenKeepsRecords(cfg: Config, spec: SymbolSpec, o: Managed, cycle: Cycle, r: real)
    requires ValidSpec(spec)
    ensures var be := BreakEvenStep(cfg, spec, o, cycle, r);
            be != Closed && (be.Kept? ==> be.mp == o.(currentStop := be.mp.currentStop, movedToBe := be.mp.movedToBe))
  {
    hide NormalizePrice, BreakEvenLevel, Managed.ImprovedBy;
  }

  lemma TrailKeepsRecords(cfg: Config, spec: SymbolSpec, p: Managed, cycle: Cycle, price: real, r: real)
    requires ValidSpec(spec)
    ensures var t := TrailStep(cfg, spec, p, cycle, price, r);
            t != Closed && (t.Kept? ==> t.mp == p.(currentStop := t.mp.currentStop))
  {
    hide NormalizePrice, StructuralTrail, Managed.ImprovedBy;
  }

  // The stop after a level is proposed: its rounding, if the level is better, clear of what the
  // broker demands of the price, worth a move, and accepted; and otherwise where it was.
  function MovedStop(spec: SymbolSpec, mp: Managed, from: real, level: real, quote: Option<Quote>, accepted: bool): real
    requires ValidSpec(spec)
  {
    var price := if quote == None then mp.entry else if mp.direction == Long then quote.value.bid else quote.value.ask;
    var rounded := NormalizePrice(level, spec.unit);
    if && (if mp.direction == Long then level > from else level < from)
       && Abs(price - level) >= spec.stopsLevel && (spec.freezeLevel == 0.0 || Abs(price - from) >= spec.freezeLevel)
       && Abs(rounded - from) >= TOLERANCE && accepted
    then rounded else from
  }

  // The swing to trail behind: of the losing side, past the price, and none of them nearer.
  ghost predicate NearestPast(d: Direction, swings: seq<Swing>, price: real, level: real) {
    && (exists i :: 0 <= i < |swings| && SwingPast(d, swings[i], price) && swings[i].price == level)
    && (forall i :: 0 <= i < |swings| && SwingPast(d, swings[i], price) ==>
            if d == Long then swings[i].price <= level else swings[i].price >= level)
  }

  predicate SwingPast(d: Direction, s: Swing, price: real) {
    if d == Long then !s.isHigh && s.price < price else s.isHigh && s.price > price
  }

  lemma {:induction false} NearestSwingMeans(d: Direction, swings: seq<Swing>, price: real)
    ensures match NearestSwing(d, swings, price)
            case None => forall i :: 0 <= i < |swings| ==> !SwingPast(d, swings[i], price)
            case Some(level) => NearestPast(d, swings, price, level)
  {
    if swings != [] {
      var front, last := swings[..|swings| - 1], swings[|swings| - 1];
      NearestSwingMeans(d, front, price);
      assert forall i :: 0 <= i < |front| ==> swings[i] == front[i];
      assert swings[|front|] == last;
    }
  }

  // The entry, and the configured part of the initial risk into profit.
  function LockedLevel(cfg: Config, mp: Managed): real {
    var lock := cfg.breakEvenOffsetR * Abs(mp.entry - mp.initialStop);
    if mp.direction == Long then mp.entry + lock else mp.entry - lock
  }

  // The stop after the break-even move: it is due once, from its profit on.
  function StopAfterBreakEven(cfg: Config, spec: SymbolSpec, mp: Managed, cycle: Cycle): real
    requires ValidSpec(spec)
  {
    if mp.movedToBe || !Up(mp, cycle.quote, cfg.breakEvenAtR) then mp.currentStop
    else MovedStop(spec, mp, mp.currentStop, LockedLevel(cfg, mp), cycle.beQuote, cycle.beAccepted)
  }

  /** Where a cycle that keeps a position leaves its stop: first the break-even move, then the
      trail, a tenth of the initial risk behind the nearest swing past the price. */
  lemma StopMoves(cfg: Config, spec: SymbolSpec, mp: Managed, cycle: Cycle)
    requires ValidSpec(spec) && mp.currentStop != 0.0 && ManageOne(cfg, spec, mp, cycle).Kept?
    ensures var now, be := ManageOne(cfg, spec, mp, cycle).mp, StopAfterBreakEven(cfg, spec, mp, cycle);
            var price := if mp.direction == Long then cycle.quote.bid else cycle.quote.ask;
            var back := 0.1 * Abs(mp.entry - mp.initialStop);
            && (now.movedToBe <==> mp.movedToBe || be != mp.currentStop)
            && (if cfg.trailEnabled && Up(mp, cycle.quote, cfg.trailActivateR) && cycle.swings.Some?
                   && exists i :: 0 <= i < |cycle.swings.value| && SwingPast(mp.direction, cycle.swings.value[i], price)
                then exists level :: NearestPast(mp.direction, cycle.swings.value, price, level)
                       && now.currentStop
                          == MovedStop(spec, mp, be, if mp.direction == Long then level - back else level + back,
                                       cycle.trailQuote, cycle.trailAccepted)
                else now.currentStop == be)
  {
    hide BreakEvenStep, TrailStep, Managed.RAt, Portion, Up, MovedStop, NearestPast, SwingPast;
    var price := cycle.quote.ExitPriceFor(mp.direction);
    var r := mp.RAt(price);
    StepsKeepRecords(cfg, spec, mp, cycle, r);
    var be := BreakEvenStep(cfg, spec, Observe(mp, cycle, r), cycle, r);
    BreakEvenMoves(cfg, spec, mp, cycle);
    var m := PartialStep(cfg, spec, be.mp, cycle, r);
    TrailMoves(cfg, spec, mp, m, cycle);
  }

  lemma BreakEvenMoves(cfg: Config, spec: SymbolSpec, mp: Managed, cycle: Cycle)
    requires ValidSpec(spec)
    ensures var r := mp.RAt(cycle.quote.ExitPriceFor(mp.direction));
            var be := BreakEvenStep(cfg, spec, Observe(mp, cycle, r), cycle, r);
            be.Kept? ==>
              && be.mp.currentStop == StopAfterBreakEven(cfg, spec, mp, cycle)
              && (be.mp.movedToBe <==> mp.movedToBe || be.mp.currentStop != mp.currentStop)
  {
    hide SafeModify, Managed.RAt, Up, MovedStop, BreakEvenLevel, LockedLevel;
    var o := Observe(mp, cycle, mp.RAt(cycle.quote.ExitPriceFor(mp.direction)));
    UpMeans(mp, cycle.quote, cfg.breakEvenAtR);
    ProposalMoves(spec, mp, o, BreakEvenLevel(cfg, o), cycle.beQuote, cycle.beAccepted);
    SameLevels(cfg, mp, o, cycle, cycle.quote.ask);
    LockedIsBreakEven(cfg, mp);
  }

  lemma LockedIsBreakEven(cfg: Config, mp: Managed)
    ensures BreakEvenLevel(cfg, mp) == LockedLevel(cfg, mp)
  {
  }

  lemma TrailMoves(cfg: Config, spec: SymbolSpec, mp: Managed, m: Managed, cycle: Cycle)
    requires ValidSpec(spec) && m.entry == mp.entry && m.direction == mp.direction && m.initialStop == mp.initialStop
    ensures var price := if mp.direction == Long then cycle.quote.bid else cycle.quote.ask;
            var back := 0.1 * Abs(mp.entry - mp.initialStop);
            var t := TrailStep(cfg, spec, m, cycle, price, mp.RAt(price));
            t.Kept? ==>
              if cfg.trailEnabled && Up(mp, cycle.quote, cfg.trailActivateR) && cycle.swings.Some?
                 && exists i :: 0 <= i < |cycle.swings.value| && SwingPast(mp.direction, cycle.swings.value[i], price)
              then exists level :: NearestPast(mp.direction, cycle.swings.value, price, level)
                     && t.mp.currentStop
                        == MovedStop(spec, mp, m.currentStop,
                                     if mp.direction == Long then level - back else level + back,
                                     cycle.trailQuote, cycle.trailAccepted)
              else t.mp.currentStop == m.currentStop
  {
    hide SafeModify, Managed.RAt, Up, MovedStop, NearestPast, NearestSwing, SwingPast;
    var price := cycle.quote.ExitPriceFor(mp.direction);
    UpMeans(mp, cycle.quote, cfg.trailActivateR);
    if cycle.swings.Some? {
      NearestSwingMeans(mp.direction, cycle.swings.value, price);
      var nearest := NearestSwing(mp.direction, cycle.swings.value, price);
      if nearest.Some? {
        NearestIsPast(mp.direction, cycle.swings.value, price, nearest.value);
        var level := StructuralTrail(m, cycle.swings, price).value;
        ProposalMoves(spec, mp, m, level, cycle.trailQuote, cycle.trailAccepted);
      }
    }
  }

  lemma NearestIsPast(d: Direction, swings: seq<Swing>, price: real, level: real)
    requires NearestPast(d, swings, price, level)
    ensures exists i :: 0 <= i < |swings| && SwingPast(d, swings[i], price)
  {
    hide SwingPast;
  }

  lemma ProposalMoves(spec: SymbolSpec, mp: Managed, m: Managed, level: real, quote: Option<Quote>, accepted: bool)
    requires ValidSpec(spec) && m.entry == mp.entry && m.direction == mp.direction && m.initialStop == mp.initialStop
    ensures var r := SafeModify(spec, m, level, quote, accepted);
            var stop := MovedStop(spec, mp, m.currentStop, level, quote, accepted);
            && (m.ImprovedBy(level) && r.Kept? ==> r == Kept(m.(currentStop := stop), stop != m.currentStop))
            && (!m.ImprovedBy(level) ==> stop == m.currentStop)
            && r != Closed
  {
    hide NormalizePrice;
  }

  // ---------------------------------------------------------------- the mutable object

  class Manager {
    const cfg: Config
    var positions: map<int, Managed>

    constructor (cfg: Config)
      ensures this.cfg == cfg && positions == map[]
    {
      this.cfg, positions := cfg, map[];
    }

    // The broker's stop is taken over; without one the plan's is assumed.
    method Adopt(ticket: int, brokerStop: real, planStop: real, entry: real, volume: int, d: Direction, primaryRr: real)
      modifies this`positions
      ensures ticket in positions && positions[ticket].currentStop == positions[ticket].initialStop
      ensures positions[ticket].currentStop == if brokerStop != 0.0 then brokerStop else planStop
      ensures positions == old(positions)[ticket := positions[ticket]]
      ensures positions[ticket].entry == entry && positions[ticket].direction == d
      ensures positions[ticket].remaining == volume
    {
      var stop := if brokerStop != 0.0 then brokerStop else planStop;
      positions := positions[ticket := Managed(entry, stop, stop, volume, d, primaryRr, 0, false, false, 0.0, 0.0)];
    }

    /** One cycle over the positions in the given order: each takes exactly one management step.
        The first refusal aborts it, as the exception does: the positions before have taken their
        step, the refused one keeps what it had done, and the ones after are untouched. */
    method Manage(spec: SymbolSpec, order: seq<int>, cycles: map<int, Cycle>) returns (refusedAt: Option<nat>)
      requires ValidSpec(spec)
      requires forall i :: 0 <= i < |order| ==> order[i] in positions && order[i] in cycles
      requires forall i, j :: 0 <= i < j < |order| ==> order[i] != order[j]
      modifies this`positions
      ensures var done := if refusedAt.Some? then refusedAt.value else |order|;
              && done <= |order| && (refusedAt.Some? ==> done < |order|)
              && (forall i :: 0 <= i < done ==>
                      ManageOne(cfg, spec, old(positions)[order[i]], cycles[order[i]]) != Refused)
              && (forall t :: t in old(positions) && (refusedAt.Some? ==> t != order[done]) ==>
                                StepTaken(t, old(positions), positions, order[..done], spec, cycles))
      ensures refusedAt.Some? ==>
                var t := order[refusedAt.value];
                && ManageOne(cfg, spec, old(positions)[t], cycles[t]) == Refused
                && t in positions && positions[t] == LeftBehind(cfg, spec, old(positions)[t], cycles[t])
      ensures positions.Keys <= old(positions.Keys)
    {
      hide ManageOne, LeftBehind;
      ghost var start := positions;
      for i := 0 to |order|
        invariant forall j :: 0 <= j < i ==> ManageOne(cfg, spec, start[order[j]], cycles[order[j]]) != Refused
        invariant forall t :: t in start ==> StepTaken(t, start, positions, order[..i], spec, cycles)
        invariant positions.Keys <= start.Keys
      {
        var ticket := order[i];
        assert ticket !in order[..i];
        assert StepTaken(ticket, start, positions, order[..i], spec, cycles);
        assert order[..i + 1] == order[..i] + [ticket];
        match ManageOne(cfg, spec, positions[ticket], cycles[ticket])
        case Refused =>
          positions := positions[ticket := LeftBehind(cfg, spec, positions[ticket], cycles[ticket])];
          return Some(i);
        case Closed =>
          positions := positions - {ticket};
        case Kept(mp, _) =>
          positions := positions[ticket := mp];
      }
      assert order[..|order|] == order;
      refusedAt := None;
    }

    // A listed ticket took its step; any other is as it was.
    ghost predicate StepTaken(t: int, before: map<int, Managed>, after: map<int, Managed>, order: seq<int>,
                            spec: SymbolSpec, cycles: map<int, Cycle>)
      requires ValidSpec(spec) && t in before
    {
      if t in order && t in cycles then
        match ManageOne(cfg, spec, before[t], cycles[t])
        case Kept(mp, _) => t in after && after[t] == mp
        case _ => t !in after
      else t in after && after[t] == before[t]
    }
  }

  // ---------------------------------------------------------------- the ratchet

  lemma TighterIsLessRisk(mp: Managed, stop: real)
    ensures Tighter(mp.direction, stop, mp.currentStop)
            <==> (mp.entry - stop) * mp.direction.Sign() <= mp.CurrentRisk()
  {
  }

  // A better level rounds to no worse than a stop already on the grid.
  lemma RoundingKeepsImprovement(mp: Managed, stop: real, unit: real)
    requires unit > 0.0 && OnGrid(mp.currentStop, unit) && mp.ImprovedBy(stop)
    ensures Tighter(mp.direction, NormalizePrice(stop, unit), mp.currentStop)
  {
    NormalizeFixesGrid(mp.currentStop, unit);
    if mp.direction == Long {
      NormalizeMonotone(mp.currentStop, stop, unit);
    } else {
      NormalizeMonotone(stop, mp.currentStop, unit);
    }
  }

  // The same position with, at most, a tighter stop that is on the grid.
  ghost predicate Ratcheted(mp: Managed, m: Managed, unit: real)
    requires unit > 0.0
  {
    && m.entry == mp.entry && m.direction == mp.direction && m.initialStop == mp.initialStop
    && OnGrid(m.currentStop, unit) && Tighter(mp.direction, m.currentStop, mp.currentStop)
    && (mp.movedToBe ==> m.movedToBe)
  }

  lemma SafeModifyRatchets(spec: SymbolSpec, mp: Managed, stop: real, quote: Option<Quote>, accepted: bool)
    requires ValidSpec(spec) && OnGrid(mp.currentStop, spec.unit) && mp.ImprovedBy(stop)
    ensures var r := SafeModify(spec, mp, stop, quote, accepted);
            r.Kept? && Ratcheted(mp, r.mp, spec.unit) && r.mp == mp.(currentStop := r.mp.currentStop)
            && (r.mp.currentStop == mp.currentStop || r.mp.currentStop == NormalizePrice(stop, spec.unit))
  {
    hide NormalizePrice, OnGrid, Abs;
    RoundingKeepsImprovement(mp, stop, spec.unit);
    NormalizeFixesGrid(stop, spec.unit);
    TighterIsLessRisk(mp, NormalizePrice(stop, spec.unit));
  }

  // The stop proposals that a cycle's profit calls for, as levels before rounding.
  ghost predicate Proposes(cfg: Config, mp: Managed, cycle: Cycle, stop: real) {
    var price := cycle.quote.ExitPriceFor(mp.direction);
    || (!mp.movedToBe && mp.RAt(price) >= cfg.breakEvenAtR && stop == BreakEvenLevel(cfg, mp))
    || (cfg.trailEnabled && mp.RAt(price) >= cfg.trailActivateR
        && StructuralTrail(mp, cycle.swings, price) == Some(stop))
  }

  // From a stop on the grid, with the restore step not in play, one cycle only tightens.
  lemma ManageRatchets(cfg: Config, spec: SymbolSpec, mp: Managed, cycle: Cycle)
    requires ValidSpec(spec) && OnGrid(mp.currentStop, spec.unit) && mp.currentStop != 0.0
    ensures var r := ManageOne(cfg, spec, mp, cycle);
            && r != Refused
            && (r.Kept? ==> Ratcheted(mp, r.mp, spec.unit))
            && (r.Kept? && r.mp.currentStop != mp.currentStop ==>
                  exists stop :: Proposes(cfg, mp, cycle, stop) && r.mp.currentStop == NormalizePrice(stop, spec.unit))
  {
    hide BreakEvenStep, TrailStep, NormalizePrice, OnGrid, StructuralTrail, BreakEvenLevel, Managed.RAt;
    var price := cycle.quote.ExitPriceFor(mp.direction);
    var r := mp.RAt(price);
    var o := Observe(mp, cycle, r);
    BreakEvenRatchets(cfg, spec, mp, o, cycle, r);
    var be := BreakEvenStep(cfg, spec, o, cycle, r);
    var p := PartialStep(cfg, spec, be.mp, cycle, r);
    TrailRatchets(cfg, spec, mp, p, cycle, price, r);
  }

  // Both stages start from a position with the same levels and end no looser than it.
  ghost predicate StageKept(cfg: Config, spec: SymbolSpec, mp: Managed, cycle: Cycle, r: Result)
    requires ValidSpec(spec)
  {
    && r.Kept? && Ratcheted(mp, r.mp, spec.unit)
    && (r.mp.currentStop != mp.currentStop ==>
          exists stop :: Proposes(cfg, mp, cycle, stop) && r.mp.currentStop == NormalizePrice(stop, spec.unit))
  }

  lemma BreakEvenRatchets(cfg: Config, spec: SymbolSpec, mp: Managed, o: Managed, cycle: Cycle, r: real)
    requires ValidSpec(spec) && OnGrid(mp.currentStop, spec.unit) && o == Observe(mp, cycle, r)
    requires r == mp.RAt(cycle.quote.ExitPriceFor(mp.direction))
    ensures StageKept(cfg, spec, mp, cycle, BreakEvenStep(cfg, spec, o, cycle, r))
  {
    hide SafeModify, NormalizePrice, OnGrid, StructuralTrail, BreakEvenLevel;
    SameLevels(cfg, mp, o, cycle, cycle.quote.ExitPriceFor(mp.direction));
    if !o.movedToBe && r >= cfg.breakEvenAtR && o.ImprovedBy(BreakEvenLevel(cfg, o)) {
      SafeModifyRatchets(spec, o, BreakEvenLevel(cfg, o), cycle.beQuote, cycle.beAccepted);
      assert Proposes(cfg, mp, cycle, BreakEvenLevel(cfg, o));
    }
  }

  lemma TrailRatchets(cfg: Config, spec: SymbolSpec, mp: Managed, p: Managed, cycle: Cycle, price: real, r: real)
    requires ValidSpec(spec) && StageKept(cfg, spec, mp, cycle, Kept(p, false))
    requires price == cycle.quote.ExitPriceFor(mp.direction) && r == mp.RAt(price)
    ensures StageKept(cfg, spec, mp, cycle, TrailStep(cfg, spec, p, cycle, price, r))
  {
    hide SafeModify, NormalizePrice, OnGrid, StructuralTrail, BreakEvenLevel;
    SameLevels(cfg, mp, p, cycle, price);
    var trail := StructuralTrail(p, cycle.swings, price);
    if cfg.trailEnabled && r >= cfg.trailActivateR && trail.Some? && p.ImprovedBy(trail.value) {
      SafeModifyRatchets(spec, p, trail.value, cycle.trailQuote, cycle.trailAccepted);
      assert Proposes(cfg, mp, cycle, trail.value);
    }
  }

  // The proposed levels depend only on what a cycle never changes.
  lemma SameLevels(cfg: Config, mp: Managed, m: Managed, cycle: Cycle, price: real)
    requires m.entry == mp.entry && m.direction == mp.direction && m.initialStop == mp.initialStop
    ensures m.Risk() == mp.Risk() && BreakEvenLevel(cfg, m) == BreakEvenLevel(cfg, mp)
    ensures StructuralTrail(m, cycle.swings, price) == StructuralTrail(mp, cycle.swings, price)
  {
  }

  /** From any stop on the grid, zero included, no cycle raises the refusal, and the only cycle
      that loosens the stop is one that restores the initial stop because the current one is zero. */
  lemma RestoreIsTheOnlyWidening(cfg: Config, spec: SymbolSpec, mp: Managed, cycle: Cycle)
    requires ValidSpec(spec) && OnGrid(mp.currentStop, spec.unit)
    ensures ManageOne(cfg, spec, mp, cycle) != Refused
    ensures (var r := ManageOne(cfg, spec, mp, cycle);
            r.Kept? && !Tighter(mp.direction, r.mp.currentStop, mp.currentStop))
            <==> mp.currentStop == 0.0 && cycle.attachAccepted && !Tighter(mp.direction, mp.initialStop, 0.0)
  {
    if mp.currentStop != 0.0 {
      hide ManageOne, OnGrid;
      ManageRatchets(cfg, spec, mp, cycle);
    }
  }

  // ---------------------------------------------------------------- whole runs

  function Run(cfg: Config, spec: SymbolSpec, mp: Managed, cycles: seq<Cycle>): Result
    requires ValidSpec(spec)
  {
    if cycles == [] then Kept(mp, false)
    else
      match Run(cfg, spec, mp, cycles[..|cycles| - 1])
      case Kept(m, _) => ManageOne(cfg, spec, m, cycles[|cycles| - 1])
      case other => other
  }

  // Every price the cycle sees lies above `floor`.
  ghost predicate PricesAbove(cycle: Cycle, floor: real) {
    && QuoteAbove(Some(cycle.quote), floor) && QuoteAbove(cycle.beQuote, floor) && QuoteAbove(cycle.trailQuote, floor)
    && (cycle.swings.Some? ==> forall s :: s in cycle.swings.value ==> s.price > floor)
  }

  predicate QuoteAbove(quote: Option<Quote>, floor: real) {
    quote.Some? ==> quote.value.bid > floor && quote.value.ask > floor
  }

  ghost predicate AllAbove(cycles: seq<Cycle>, floor: real) {
    forall i :: 0 <= i < |cycles| ==> PricesAbove(cycles[i], floor)
  }

  /** Whether prices above `floor` can make management move a short's stop to zero: its break-even
      move is still due, comes into profit above the floor and rounds to zero; or the trail does,
      and the tenth of the risk it keeps above a swing leaves room below half a quote unit. */
  predicate ZeroInReach(cfg: Config, spec: SymbolSpec, mp: Managed, floor: real) {
    && mp.direction == Short && mp.Risk() > 0.0
    && (|| (!mp.movedToBe && mp.entry - cfg.breakEvenAtR * mp.Risk() > floor
            && Abs(BreakEvenLevel(cfg, mp)) <= 0.5 * spec.unit)
        || (cfg.trailEnabled && mp.entry - cfg.trailActivateR * mp.Risk() > floor
            && floor + 0.1 * mp.Risk() < 0.5 * spec.unit))
  }

  // A stop management has: on the grid, and positive unless a negative break-even level was taken.
  ghost predicate StopSet(cfg: Config, spec: SymbolSpec, mp: Managed)
    requires ValidSpec(spec)
  {
    && OnGrid(mp.currentStop, spec.unit) && mp.currentStop != 0.0
    && (mp.currentStop > 0.0 || (mp.direction == Short && BreakEvenLevel(cfg, mp) < 0.0))
  }

  lemma {:induction false} NearestSwingBeyond(d: Direction, swings: seq<Swing>, price: real)
    ensures NearestSwing(d, swings, price).Some? ==>
              var level := NearestSwing(d, swings, price).value; if d == Long then level < price else level > price
  {
    if swings != [] {
      NearestSwingBeyond(d, swings[..|swings| - 1], price);
    }
  }

  lemma RoundsToZero(x: real, unit: real)
    requires unit > 0.0
    ensures NormalizePrice(x, unit) == 0.0 <==> Abs(x) <= 0.5 * unit
    ensures NormalizePrice(x, unit) < 0.0 ==> x < 0.0
    ensures x > 0.5 * unit ==> NormalizePrice(x, unit) > 0.0
  {
    var q := x / unit;
    QuotientTimes(x, unit);
    HalfUnits(x, q, unit);
    var k := RoundEven(q);
    assert k >= 1 ==> k as real * unit > 0.0;
    assert k <= -1 ==> k as real * unit < 0.0;
  }

  lemma HalfUnits(x: real, q: real, unit: real)
    requires unit > 0.0 && q * unit == x
    ensures q > 0.5 <==> x > 0.5 * unit
    ensures q < -0.5 <==> x < -0.5 * unit
  {
    assert (q - 0.5) * unit == x - 0.5 * unit && (q + 0.5) * unit == x + 0.5 * unit;
  }

  // A profit of so many R, read as a price of the short.
  lemma ShortInProfit(mp: Managed, price: real, r: real)
    requires mp.direction == Short && r > 0.0
    ensures mp.RAt(price) >= r <==> mp.Risk() > 0.0 && mp.entry - r * mp.Risk() >= price
  {
    var risk := mp.Risk();
    if risk > 0.0 {
      var q := (mp.entry - price) / risk;
      QuotientTimes(mp.entry - price, risk);
      assert (price - mp.entry) * mp.direction.Sign() == mp.entry - price;
      AtMostTimes(mp.entry - price, r, risk);
    }
  }

  // While zero is out of reach a cycle keeps the stop set.
  lemma StepKeepsStopSet(cfg: Config, spec: SymbolSpec, mp: Managed, cycle: Cycle, floor: real)
    requires ValidSpec(spec) && cfg.Valid() && StopSet(cfg, spec, mp)
    requires PricesAbove(cycle, floor) && !ZeroInReach(cfg, spec, mp, floor)
    ensures var r := ManageOne(cfg, spec, mp, cycle);
            && r != Refused
            && (r.Kept? ==> Ratcheted(mp, r.mp, spec.unit) && StopSet(cfg, spec, r.mp)
                            && !ZeroInReach(cfg, spec, r.mp, floor))
  {
    hide ManageOne, OnGrid, NormalizePrice, BreakEvenLevel, Managed.RAt, Managed.Risk;
    ManageRatchets(cfg, spec, mp, cycle);
    var r := ManageOne(cfg, spec, mp, cycle);
    if r.Kept? {
      SameLevels(cfg, mp, r.mp, cycle, cycle.quote.ask);
      if mp.direction == Short && r.mp.currentStop != mp.currentStop {
        var stop :| Proposes(cfg, mp, cycle, stop) && r.mp.currentStop == NormalizePrice(stop, spec.unit);
        ProposalOutOfReach(cfg, spec, mp, cycle, floor, stop);
      }
    }
  }

  lemma ProposalOutOfReach(cfg: Config, spec: SymbolSpec, mp: Managed, cycle: Cycle, floor: real, stop: real)
    requires ValidSpec(spec) && cfg.Valid() && mp.direction == Short && Proposes(cfg, mp, cycle, stop)
    requires PricesAbove(cycle, floor) && !ZeroInReach(cfg, spec, mp, floor)
    ensures var n := NormalizePrice(stop, spec.unit); n > 0.0 || (n < 0.0 && BreakEvenLevel(cfg, mp) < 0.0)
  {
    hide NormalizePrice, BreakEvenLevel, Managed.RAt, Managed.Risk;
    var price := cycle.quote.ask;
    RoundsToZero(stop, spec.unit);
    ShortInProfit(mp, price, cfg.breakEvenAtR);
    ShortInProfit(mp, price, cfg.trailActivateR);
    if cfg.trailEnabled && mp.RAt(price) >= cfg.trailActivateR
       && StructuralTrail(mp, cycle.swings, price) == Some(stop) {
      NearestSwingBeyond(Short, cycle.swings.value, price);
    }
  }

  /** The stop ratchet over whole runs.  From any state whose stop is positive and on the grid,
      no sequence of cycles and broker answers raises the refusal or increases the risk to the
      current stop, as long as zero is out of reach of its prices; and the stop stays set, on the
      grid and, unless the break-even level is negative, positive. */
  lemma {:induction false} RatchetOverRuns(cfg: Config, spec: SymbolSpec, mp: Managed, cycles: seq<Cycle>, floor: real)
    requires ValidSpec(spec) && cfg.Valid() && StopSet(cfg, spec, mp)
    requires AllAbove(cycles, floor) && !ZeroInReach(cfg, spec, mp, floor)
    ensures var r := Run(cfg, spec, mp, cycles);
            && r != Refused
            && (r.Kept? ==> Ratcheted(mp, r.mp, spec.unit) && StopSet(cfg, spec, r.mp)
                            && !ZeroInReach(cfg, spec, r.mp, floor)
                            && r.mp.CurrentRisk() <= mp.CurrentRisk())
  {
    hide ManageOne, BreakEvenLevel, ZeroInReach, OnGrid;
    if cycles != [] {
      var front, last := cycles[..|cycles| - 1], cycles[|cycles| - 1];
      assert forall i :: 0 <= i < |front| ==> front[i] == cycles[i];
      RatchetOverRuns(cfg, spec, mp, front, floor);
      var r := Run(cfg, spec, mp, front);
      if r.Kept? {
        StepKeepsStopSet(cfg, spec, r.mp, last, floor);
        var s := ManageOne(cfg, spec, r.mp, last);
        if s.Kept? {
          TighterIsLessRisk(r.mp, s.mp.currentStop);
        }
      }
    }
  }

  // ---------------------------------------------------------------- exactly when the ratchet breaks

  // A level within half a unit of zero improves a short's stop and, once accepted, is stored as zero.
  lemma MovesToZero(spec: SymbolSpec, mp: Managed, level: real, quote: Quote)
    requires ValidSpec(spec) && mp.direction == Short && OnGrid(mp.currentStop, spec.unit)
    requires mp.currentStop >= TOLERANCE && Abs(level) <= 0.5 * spec.unit
    requires Abs(quote.ask - level) >= spec.stopsLevel && Abs(quote.ask - mp.currentStop) >= spec.freezeLevel
    ensures mp.ImprovedBy(level)
    ensures SafeModify(spec, mp, level, Some(quote), true) == Kept(mp.(currentStop := 0.0), true)
  {
    hide NormalizePrice, OnGrid;
    RoundsToZero(level, spec.unit);
    RefusedMeans(mp, 0.0, true);
    NormalizeFixesGrid(mp.currentStop, spec.unit);
    if level >= mp.currentStop {
      NormalizeMonotone(mp.currentStop, level, spec.unit);
    }
  }

  // A quote above the floor and clear of both broker levels.
  lemma ClearQuote(spec: SymbolSpec, stop: real, level: real, floor: real) returns (quote: Quote)
    ensures QuoteAbove(Some(quote), floor)
    ensures Abs(quote.ask - level) >= spec.stopsLevel && Abs(quote.ask - stop) >= spec.freezeLevel
  {
    var price := Abs(floor) + Abs(level) + Abs(stop) + Abs(spec.stopsLevel) + Abs(spec.freezeLevel) + 1.0;
    quote := Quote(0, price, price);
  }

  lemma BreakEvenToZero(cfg: Config, spec: SymbolSpec, mp: Managed, floor: real) returns (cycle: Cycle)
    requires ValidSpec(spec) && cfg.Valid() && OnGrid(mp.currentStop, spec.unit) && mp.currentStop >= TOLERANCE
    requires mp.direction == Short && mp.Risk() > 0.0 && !mp.movedToBe
    requires mp.entry - cfg.breakEvenAtR * mp.Risk() > floor && Abs(BreakEvenLevel(cfg, mp)) <= 0.5 * spec.unit
    ensures PricesAbove(cycle, floor) && cycle.attachAccepted
    ensures var r := ManageOne(cfg, spec, mp, cycle);
            r.Kept? && r.mp.currentStop == 0.0 && r.mp.initialStop == mp.initialStop && r.mp.direction == Short
  {
    hide BreakEvenLevel, SafeModify, OnGrid, Abs, Managed.RAt, Managed.Risk;
    var level := BreakEvenLevel(cfg, mp);
    var price := mp.entry - cfg.breakEvenAtR * mp.Risk();
    var quote := ClearQuote(spec, mp.currentStop, level, floor);
    cycle := Cycle(Quote(0, price, price), false, None, 0, false, false, Some(quote), true, None, false, false, true,
                   false);
    ShortInProfit(mp, price, cfg.breakEvenAtR);
    var o := Observe(mp, cycle, mp.RAt(price));
    SameLevels(cfg, mp, o, cycle, price);
    MovesToZero(spec, o, level, quote);
  }

  lemma TrailToZero(cfg: Config, spec: SymbolSpec, mp: Managed, floor: real) returns (cycle: Cycle)
    requires ValidSpec(spec) && cfg.Valid() && OnGrid(mp.currentStop, spec.unit) && mp.currentStop >= TOLERANCE
    requires mp.direction == Short && mp.Risk() > 0.0 && cfg.trailEnabled
    requires mp.entry - cfg.trailActivateR * mp.Risk() > floor && floor + 0.1 * mp.Risk() < 0.5 * spec.unit
    ensures PricesAbove(cycle, floor) && cycle.attachAccepted
    ensures var r := ManageOne(cfg, spec, mp, cycle);
            r.Kept? && r.mp.currentStop == 0.0 && r.mp.initialStop == mp.initialStop && r.mp.direction == Short
  {
    hide BreakEvenLevel, SafeModify, OnGrid, Abs, Managed.RAt, Managed.Risk;
    var level := 0.5 * spec.unit;
    var swing := Swing(level - 0.1 * mp.Risk(), true);
    var price := (floor + Min(swing.price, mp.entry - cfg.trailActivateR * mp.Risk())) / 2.0;
    var quote := ClearQuote(spec, mp.currentStop, level, floor);
    cycle := Cycle(Quote(0, price, price), false, Some([swing]), 0, false, false, None, false, Some(quote), true,
                   false, true, false);
    ShortInProfit(mp, price, cfg.trailActivateR);
    var r := mp.RAt(price);
    var o := Observe(mp, cycle, r);
    BreakEvenUnanswered(cfg, spec, mp, cycle, r);
    SameLevels(cfg, mp, o, cycle, price);
    assert [swing][..0] == [];
    assert NearestSwing(Short, [swing], price) == Some(swing.price);
    assert StructuralTrail(o, cycle.swings, price) == Some(level);
    MovesToZero(spec, o, level, quote);
  }

  // A break-even move the broker does not accept leaves the position as observed.
  lemma BreakEvenUnanswered(cfg: Config, spec: SymbolSpec, mp: Managed, cycle: Cycle, r: real)
    requires ValidSpec(spec) && OnGrid(mp.currentStop, spec.unit) && !cycle.beAccepted
    requires r == mp.RAt(cycle.quote.ExitPriceFor(mp.direction))
    ensures BreakEvenStep(cfg, spec, Observe(mp, cycle, r), cycle, r) == Kept(Observe(mp, cycle, r), false)
  {
    hide OnGrid, NormalizePrice, BreakEvenLevel;
    BreakEvenRatchets(cfg, spec, mp, Observe(mp, cycle, r), cycle, r);
  }

  // The last step of the run is refused, or loosens the stop.
  ghost predicate Breaks(cfg: Config, spec: SymbolSpec, mp: Managed, cycles: seq<Cycle>)
    requires ValidSpec(spec)
  {
    && cycles != []
    && match Run(cfg, spec, mp, cycles[..|cycles| - 1])
       case Kept(m, _) =>
         var r := ManageOne(cfg, spec, m, cycles[|cycles| - 1]);
         r == Refused || (r.Kept? && !Tighter(mp.direction, r.mp.currentStop, m.currentStop))
       case _ => false
  }

  ghost predicate Zeroes(cfg: Config, spec: SymbolSpec, mp: Managed, cycles: seq<Cycle>)
    requires ValidSpec(spec)
  {
    var r := Run(cfg, spec, mp, cycles); r.Kept? && r.mp.currentStop == 0.0
  }

  /** Exactly when the ratchet breaks: over the runs whose prices stay above any given floor, some
      cycle is refused or loosens the stop if and only if zero is in reach, and that is exactly
      when some run stores a stop of zero.  For positive prices the floor is zero. */
  lemma RatchetBreaksExactlyWhen(cfg: Config, spec: SymbolSpec, mp: Managed, floor: real)
    requires ValidSpec(spec) && cfg.Valid() && OnGrid(mp.currentStop, spec.unit)
    requires mp.currentStop >= TOLERANCE && mp.initialStop > 0.0
    ensures (exists cycles :: AllAbove(cycles, floor) && Breaks(cfg, spec, mp, cycles))
            <==> ZeroInReach(cfg, spec, mp, floor)
    ensures (exists cycles :: AllAbove(cycles, floor) && Zeroes(cfg, spec, mp, cycles))
            <==> ZeroInReach(cfg, spec, mp, floor)
  {
    hide Run, OnGrid, Breaks, Zeroes, AllAbove, PricesAbove, Managed.Risk, BreakEvenLevel;
    if ZeroInReach(cfg, spec, mp, floor) {
      var cycle := ZeroCycle(cfg, spec, mp, floor);
      ZeroThenRestored(cfg, spec, mp, cycle, floor);
    } else {
      forall cycles | AllAbove(cycles, floor)
        ensures !Breaks(cfg, spec, mp, cycles) && !Zeroes(cfg, spec, mp, cycles)
      {
        NeverBreaks(cfg, spec, mp, cycles, floor);
      }
    }
  }

  lemma ZeroCycle(cfg: Config, spec: SymbolSpec, mp: Managed, floor: real) returns (cycle: Cycle)
    requires ValidSpec(spec) && cfg.Valid() && OnGrid(mp.currentStop, spec.unit) && mp.currentStop >= TOLERANCE
    requires ZeroInReach(cfg, spec, mp, floor)
    ensures PricesAbove(cycle, floor) && cycle.attachAccepted
    ensures var r := ManageOne(cfg, spec, mp, cycle);
            r.Kept? && r.mp.currentStop == 0.0 && r.mp.initialStop == mp.initialStop && r.mp.direction == Short
  {
    hide OnGrid, ManageOne, PricesAbove, Managed.Risk, BreakEvenLevel, Abs;
    if cfg.trailEnabled && mp.entry - cfg.trailActivateR * mp.Risk() > floor
       && floor + 0.1 * mp.Risk() < 0.5 * spec.unit {
      cycle := TrailToZero(cfg, spec, mp, floor);
    } else {
      cycle := BreakEvenToZero(cfg, spec, mp, floor);
    }
  }

  // The cycle that moves the stop to zero, run twice, puts the initial stop back.
  lemma ZeroThenRestored(cfg: Config, spec: SymbolSpec, mp: Managed, cycle: Cycle, floor: real)
    requires ValidSpec(spec) && mp.initialStop > 0.0 && mp.direction == Short
    requires PricesAbove(cycle, floor) && cycle.attachAccepted
    requires var r := ManageOne(cfg, spec, mp, cycle);
             r.Kept? && r.mp.currentStop == 0.0 && r.mp.initialStop == mp.initialStop && r.mp.direction == Short
    ensures AllAbove([cycle], floor) && Zeroes(cfg, spec, mp, [cycle])
    ensures AllAbove([cycle, cycle], floor) && Breaks(cfg, spec, mp, [cycle, cycle])
  {
    hide PricesAbove, BreakEvenStep, TrailStep, WantsExit;
    var one, two := [cycle], [cycle, cycle];
    assert one[..0] == [] && two[..1] == one;
    assert Run(cfg, spec, mp, one[..0]) == Kept(mp, false);
    assert Run(cfg, spec, mp, one) == ManageOne(cfg, spec, mp, cycle);
    var moved := ManageOne(cfg, spec, mp, cycle).mp;
    assert ManageOne(cfg, spec, moved, cycle).mp.currentStop == mp.initialStop;
  }

  lemma NeverBreaks(cfg: Config, spec: SymbolSpec, mp: Managed, cycles: seq<Cycle>, floor: real)
    requires ValidSpec(spec) && cfg.Valid() && OnGrid(mp.currentStop, spec.unit) && mp.currentStop > 0.0
    requires AllAbove(cycles, floor) && !ZeroInReach(cfg, spec, mp, floor)
    ensures !Breaks(cfg, spec, mp, cycles) && !Zeroes(cfg, spec, mp, cycles)
  {
    hide ManageOne, Run, PricesAbove, ZeroInReach, OnGrid, BreakEvenLevel;
    RatchetOverRuns(cfg, spec, mp, cycles, floor);
    if cycles != [] {
      var front, last := cycles[..|cycles| - 1], cycles[|cycles| - 1];
      assert forall i :: 0 <= i < |front| ==> front[i] == cycles[i];
      RatchetOverRuns(cfg, spec, mp, front, floor);
      var r := Run(cfg, spec, mp, front);
      if r.Kept? {
        StepKeepsStopSet(cfg, spec, r.mp, last, floor);
      }
    }
  }

  // A short from 10 with its stop at 15, and a break-even offset of two R.
  const UNIT_SPEC := SymbolSpec(1.0, 1.0, 0.0, 0.0, 1, 100, 1.0, 1.0)
  const WIDE_OFFSET := Config(1.0, 2.0, false, 0.5, false, 1.5, 0.3, false, false)
  const SHORT_FROM_TEN := Managed(10.0, 15.0, 15.0, 1, Short, 2.0, 0, false, false, 0.0, 0.0)
  const ONE_R_QUOTE := Quote(0, 5.0, 5.0)
  const ALL_ACCEPTED := Cycle(ONE_R_QUOTE, false, None, 0, false, false, Some(ONE_R_QUOTE), true, None, true, true,
      true, true)

  lemma StopMovesToZero()
    ensures ManageOne(WIDE_OFFSET, UNIT_SPEC, SHORT_FROM_TEN, ALL_ACCEPTED)
            == Kept(SHORT_FROM_TEN.(currentStop := 0.0, movedToBe := true, mfeR := 1.0), false)
  {
    var mp := Observe(SHORT_FROM_TEN, ALL_ACCEPTED, 1.0);
    assert SHORT_FROM_TEN.RAt(5.0) == 1.0;
    assert BreakEvenLevel(WIDE_OFFSET, mp) == 0.0;
    assert NormalizePrice(0.0, 1.0) == 0.0 by {
      assert 0.0 / 1.0 == 0.0;
      RoundEvenFixesIntegers(0);
    }
    assert SafeModify(UNIT_SPEC, mp, 0.0, Some(ONE_R_QUOTE), true) == Kept(mp.(currentStop := 0.0), true);
  }

  /** A concrete break: a short whose break-even level rounds to zero has
      its stop moved to zero, and the next cycle puts the wider initial stop back. */
  lemma ZeroStopWitness()
    ensures var one := Run(WIDE_OFFSET, UNIT_SPEC, SHORT_FROM_TEN, [ALL_ACCEPTED]);
            var two := Run(WIDE_OFFSET, UNIT_SPEC, SHORT_FROM_TEN, [ALL_ACCEPTED, ALL_ACCEPTED]);
            && one.Kept? && one.mp.currentStop == 0.0
            && two.Kept? && two.mp.currentStop == 15.0 && two.mp.CurrentRisk() > one.mp.CurrentRisk()
  {
    hide BreakEvenStep, TrailStep;
    var one, two := [ALL_ACCEPTED], [ALL_ACCEPTED, ALL_ACCEPTED];
    assert one[..0] == [] && two[..1] == one;
    StopMovesToZero();
    assert Run(WIDE_OFFSET, UNIT_SPEC, SHORT_FROM_TEN, one[..0]) == Kept(SHORT_FROM_TEN, false);
    var moved := Run(WIDE_OFFSET, UNIT_SPEC, SHORT_FROM_TEN, one);
    assert ManageOne(WIDE_OFFSET, UNIT_SPEC, moved.mp, ALL_ACCEPTED).Kept?;
  }

  // ---------------------------------------------------------------- when the refusal is reachable

  /** The refusal is reachable from a management cycle, under some valid configuration and some
      answers, exactly when the position has an initial risk and its stop is set and lies strictly
      inside the half unit next to the looser grid point, beyond the tolerance: there a level
      that improves the stop can round back past it. */
  lemma RefusalReachableIff(spec: SymbolSpec, mp: Managed)
    requires ValidSpec(spec)
    ensures (exists cfg: Config, cycle :: cfg.Valid() && ManageOne(cfg, spec, mp, cycle) == Refused)
            <==> (mp.Risk() > 0.0 && mp.currentStop != 0.0
                  && RoundsBack(mp.direction, mp.currentStop, spec.unit, TOLERANCE))
  {
    hide ManageOne, RoundsBack;
    if mp.Risk() > 0.0 && mp.currentStop != 0.0 && RoundsBack(mp.direction, mp.currentStop, spec.unit, TOLERANCE) {
      var cfg := Config(1.0, 0.0, false, 0.5, true, 1.5, 0.3, false, false);
      var cycle := RefusedCycle(cfg, spec, mp);
      assert cfg.Valid() && ManageOne(cfg, spec, mp, cycle) == Refused;
    }
    if cfg: Config, cycle :| cfg.Valid() && ManageOne(cfg, spec, mp, cycle) == Refused {
      RefusedOnlyWhen(cfg, spec, mp, cycle);
    }
  }

  /** With trailing on, that is so under every valid configuration. */
  lemma TrailingReachesRefusalIff(cfg: Config, spec: SymbolSpec, mp: Managed)
    requires ValidSpec(spec) && cfg.Valid() && cfg.trailEnabled
    ensures (exists cycle :: ManageOne(cfg, spec, mp, cycle) == Refused)
            <==> (mp.Risk() > 0.0 && mp.currentStop != 0.0
                  && RoundsBack(mp.direction, mp.currentStop, spec.unit, TOLERANCE))
  {
    hide ManageOne, RoundsBack;
    if mp.Risk() > 0.0 && mp.currentStop != 0.0 && RoundsBack(mp.direction, mp.currentStop, spec.unit, TOLERANCE) {
      var cycle := RefusedCycle(cfg, spec, mp);
    }
    if cycle :| ManageOne(cfg, spec, mp, cycle) == Refused {
      RefusedOnlyWhen(cfg, spec, mp, cycle);
    }
  }

  // A cycle that trails to a level rounding back past the stop.
  lemma RefusedCycle(cfg: Config, spec: SymbolSpec, mp: Managed) returns (cycle: Cycle)
    requires ValidSpec(spec) && cfg.trailEnabled && mp.Risk() > 0.0
    requires mp.currentStop != 0.0 && RoundsBack(mp.direction, mp.currentStop, spec.unit, TOLERANCE)
    ensures ManageOne(cfg, spec, mp, cycle) == Refused
  {
    hide RoundsBack, NormalizePrice, BreakEvenLevel;
    var d, c := mp.direction, mp.currentStop;
    var level := BackLevel(d, c, spec.unit, TOLERANCE);
    var swing := Swing(level + 0.1 * mp.Risk() * d.Sign(), d == Short);
    var price := FarPrice(cfg, spec, mp, swing.price, level);
    var quote := Quote(0, price, price);
    cycle := Cycle(quote, false, Some([swing]), 0, false, false, None, false, Some(quote), true, false, false, false);
    var o := Observe(mp, cycle, mp.RAt(price));
    assert [swing][..0] == [];
    assert NearestSwing(d, [swing], price) == Some(swing.price);
    RefusedMeans(o, NormalizePrice(BreakEvenLevel(cfg, o), spec.unit), false);
    var be := BreakEvenStep(cfg, spec, o, cycle, mp.RAt(price));
    if be.Kept? {
      var p := PartialStep(cfg, spec, be.mp, cycle, mp.RAt(price));
      assert StructuralTrail(p, cycle.swings, price) == Some(level);
      RefusedMeans(p, NormalizePrice(level, spec.unit), true);
    }
  }

  // A price in profit by the trailing threshold, beyond the swing, and clear of both broker levels.
  lemma FarPrice(cfg: Config, spec: SymbolSpec, mp: Managed, swing: real, level: real) returns (price: real)
    requires mp.Risk() > 0.0
    ensures mp.RAt(price) >= cfg.trailActivateR
    ensures if mp.direction == Long then swing < price else swing > price
    ensures Abs(price - level) >= spec.stopsLevel && Abs(price - mp.currentStop) >= spec.freezeLevel
  {
    hide Managed.Risk, Abs;
    var gain := GainFor(cfg.trailActivateR, mp.Risk());
    var reach := gain + Abs(mp.entry - swing) + Abs(mp.entry - level) + Abs(spec.stopsLevel)
                 + Abs(mp.entry - mp.currentStop) + Abs(spec.freezeLevel) + 1.0;
    price := if mp.direction == Long then mp.entry + reach else mp.entry - reach;
    ClearOf(mp.entry, mp.direction, reach, swing, 1.0);
    ClearOf(mp.entry, mp.direction, reach, level, Abs(spec.stopsLevel));
    ClearOf(mp.entry, mp.direction, reach, mp.currentStop, Abs(spec.freezeLevel));
    AbsIsAbove(spec.stopsLevel);
    AbsIsAbove(spec.freezeLevel);
    DivMonotone(gain, reach, mp.Risk());
    assert mp.RAt(price) == reach / mp.Risk();
  }

  lemma GainFor(r: real, risk: real) returns (gain: real)
    requires risk > 0.0
    ensures gain >= 0.0 && gain / risk >= r
  {
    gain := Max(0.0, r) * risk;
    assert gain / risk == Max(0.0, r);
  }

  // A price a given distance into profit is clear of a point nearer the entry than that.
  lemma ClearOf(entry: real, d: Direction, reach: real, point: real, margin: real)
    requires reach >= Abs(entry - point) + margin && margin >= 0.0
    ensures var price := if d == Long then entry + reach else entry - reach;
            Abs(price - point) >= margin && if d == Long then point + margin <= price else point - margin >= price
  {
  }

  lemma AbsIsAbove(x: real)
    ensures Abs(x) >= x
  {
  }

  // A refused cycle found the stop in that half unit: a stop it moved before is on the grid.
  lemma RefusedOnlyWhen(cfg: Config, spec: SymbolSpec, mp: Managed, cycle: Cycle)
    requires ValidSpec(spec) && ManageOne(cfg, spec, mp, cycle) == Refused
    ensures cfg.Valid() ==> mp.Risk() > 0.0
    ensures mp.currentStop != 0.0 && RoundsBack(mp.direction, mp.currentStop, spec.unit, TOLERANCE)
  {
    hide RoundsBack, NormalizePrice, BreakEvenLevel, StructuralTrail, OnGrid;
    var price := cycle.quote.ExitPriceFor(mp.direction);
    var r := mp.RAt(price);
    var o := Observe(mp, cycle, r);
    var be := BreakEvenStep(cfg, spec, o, cycle, r);
    var level := BreakEvenLevel(cfg, o);
    if be == Refused {
      RefusedMeans(o, NormalizePrice(level, spec.unit), cycle.beAccepted);
      RoundedBack(mp.direction, mp.currentStop, level, spec.unit, TOLERANCE);
    } else {
      var p := PartialStep(cfg, spec, be.mp, cycle, r);
      var trail := StructuralTrail(p, cycle.swings, price).value;
      RefusedMeans(p, NormalizePrice(trail, spec.unit), cycle.trailAccepted);
      RoundedBack(mp.direction, p.currentStop, trail, spec.unit, TOLERANCE);
      NormalizeFixesGrid(level, spec.unit);
      assert p.currentStop == mp.currentStop || p.currentStop == NormalizePrice(level, spec.unit);
      GridNeverRoundsBack(mp.direction, p.currentStop, spec.unit, TOLERANCE);
    }
  }

  lemma RefusedMeans(mp: Managed, stop: real, accepted: bool)
    ensures ModifyStop(mp, stop, accepted) == Refused
            <==> if mp.direction == Long then stop < mp.currentStop - TOLERANCE else stop > mp.currentStop + TOLERANCE
  {
    if mp.direction == Long {
      assert mp.direction.Sign() == 1.0;
      assert mp.CurrentRisk() == mp.entry - mp.currentStop;
      assert (mp.entry - stop) * mp.direction.Sign() == mp.entry - stop;
    } else {
      assert mp.direction.Sign() == -1.0;
      assert mp.CurrentRisk() == mp.currentStop - mp.entry;
      assert (mp.entry - stop) * mp.direction.Sign() == stop - mp.entry;
    }
  }
}
