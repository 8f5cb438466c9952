/** The simulated broker (src/xauusd/execution/sim_broker.py): a ledger of open positions and
    closed trades, and the intrabar resolution of stops and targets. */
module SimBroker {
  import opened Domain

  datatype ExitReason = StopLoss | TakeProfit | BreakEven | Trail | Manual | EndOfTest | TimeStop

  datatype Position = Position(
    ticket: int, direction: Direction, volume: int, entry: real, stopLoss: real, takeProfit: real,
    openedAt: int, initialSl: real, commissionPaid: real, swap: real, mae: real, mfe: real, barsHeld: int)

  datatype Trade = Trade(
    ticket: int, openedAt: int, closedAt: int, direction: Direction, entry: real, initialSl: real,
    exitPrice: real, volume: int, gross: real, commission: real, swap: real, riskMoney: real,
    reason: ExitReason, maeR: real, mfeR: real, barsHeld: int)

  // `fee` is the commission of one volume step on one side.
  datatype Env = Env(spec: SymbolSpec, fee: real, defaultSpread: real, spreadMultiplier: real)

  // Open positions are kept in insertion order, as the source's dict iterates them.
  datatype Sim = Sim(
    balance: real, positions: seq<Position>, nextTicket: int, closed: seq<Trade>,
    now: int, bar: Option<Bar>, spreadPoints: real)

  datatype Request = Request(
    direction: Direction, volume: real, stopLoss: real, takeProfit: Option<real>, maxSlippagePoints: real)

  datatype Reply = Accepted(ticket: int, price: real, volume: int) | Rejected(code: int)

  const INVALID_VOLUME := 10014
  const INVALID_STOPS := 10016
  const REQUOTE := 10004
  const NO_MONEY := 10019
  const NOT_FOUND := 10036
  const TOLERANCE := 0.000000001

  // ---------------------------------------------------------------- reading the market

  function Start(env: Env, balance: real): Sim {
    Sim(balance, [], 1, [], 0, None, env.defaultSpread)
  }

  function Money(env: Env, delta: real, volume: int): real {
    delta * env.spec.moneyPerStep * volume as real
  }

  // One side's commission on a volume.
  function Fee(env: Env, volume: int): real {
    env.fee * volume as real
  }

  function Spread(env: Env, bar: Bar): real {
    (if bar.spread != 0.0 then bar.spread else env.defaultSpread) * env.spreadMultiplier
  }

  function Mid(s: Sim): real {
    if s.bar.Some? then s.bar.value.close else 0.0
  }

  function QuoteOf(env: Env, s: Sim): Quote {
    var half := s.spreadPoints * env.spec.point / 2.0;
    Quote(s.now, Mid(s) - half, Mid(s) + half)
  }

  function Unrealised(env: Env, positions: seq<Position>, price: real): real {
    if positions == [] then 0.0
    else
      var p := positions[|positions| - 1];
      Unrealised(env, positions[..|positions| - 1], price)
      + Money(env, (price - p.entry) * p.direction.Sign(), p.volume)
  }

  function MarginFor(env: Env, volume: int, price: real): real {
    volume as real * env.spec.contractPerStep * price / 100.0
  }

  function UsedMargin(env: Env, positions: seq<Position>): real {
    if positions == [] then 0.0
    else
      var p := positions[|positions| - 1];
      UsedMargin(env, positions[..|positions| - 1]) + MarginFor(env, p.volume, p.entry)
  }

  function FreeMargin(env: Env, s: Sim): real {
    s.balance + Unrealised(env, s.positions, Mid(s)) - UsedMargin(env, s.positions)
  }

  function IndexOf(positions: seq<Position>, ticket: int): (i: nat)
    ensures i <= |positions|
    ensures i < |positions| ==> positions[i].ticket == ticket
    ensures forall j :: 0 <= j < i ==> positions[j].ticket != ticket
  {
    if positions == [] then 0
    else if positions[0].ticket == ticket then 0
    else 1 + IndexOf(positions[1..], ticket)
  }

  // ---------------------------------------------------------------- closing

  function VolumeToClose(p: Position, volume: Option<int>): int {
    if volume.Some? && volume.value != 0 then (if volume.value <= p.volume then volume.value else p.volume)
    else p.volume
  }

  function TradeOf(env: Env, p: Position, price: real, reason: ExitReason, ts: int, vol: int): Trade {
    var gross := Money(env, (price - p.entry) * p.direction.Sign(), vol);
    var portion := if p.volume != 0 then vol as real / p.volume as real else 1.0;
    var risk := Abs(p.entry - p.initialSl);
    Trade(p.ticket, p.openedAt, ts, p.direction, p.entry, p.initialSl, price, vol, gross,
          p.commissionPaid * portion + Fee(env, vol), p.swap, Money(env, risk, vol), reason,
          if risk > 0.0 then p.mae / risk else 0.0, if risk > 0.0 then p.mfe / risk else 0.0, p.barsHeld)
  }

  // What is left of the position: nothing when the whole volume was closed.
  function Remainder(p: Position, vol: int): seq<Position> {
    if vol >= p.volume then [] else [p.(volume := p.volume - vol)]
  }

  // Close position i at a price; the rest of the book is untouched.
  function CloseAt(env: Env, s: Sim, i: nat, price: real, reason: ExitReason, ts: int, volume: Option<int>): Sim
    requires i < |s.positions|
  {
    var p := s.positions[i];
    var vol := VolumeToClose(p, volume);
    var trade := TradeOf(env, p, price, reason, ts, vol);
    s.(balance := s.balance + trade.gross - Fee(env, vol),
       closed := s.closed + [trade],
       positions := s.positions[..i] + Remainder(p, vol) + s.positions[i + 1..])
  }

  // ---------------------------------------------------------------- the broker interface

  function SetTime(env: Env, s: Sim, now: int, bar: Bar, spread: Option<real>): Sim {
    s.(now := now, bar := Some(bar),
       spreadPoints := if spread.Some? then spread.value * env.spreadMultiplier else Spread(env, bar))
  }

  // Slippage moves the fill against us, onto the quote grid.
  function FillPrice(spec: SymbolSpec, raw: real, d: Direction, slip: real): real
    requires ValidSpec(spec)
  {
    NormalizePrice(raw + Slippage(spec, d, slip), spec.unit)
  }

  function Slippage(spec: SymbolSpec, d: Direction, slip: real): real {
    slip * spec.point * d.Sign()
  }

  function NewPosition(env: Env, s: Sim, req: Request, vol: int, fill: real): Position {
    Position(s.nextTicket, req.direction, vol, fill, req.stopLoss,
             if req.takeProfit.Some? then req.takeProfit.value else 0.0,
             s.now, req.stopLoss, Fee(env, vol), 0.0, 0.0, 0.0, 0)
  }

  // The checks on a fill, in their order; the volume is checked before there is one.
  function Refusal(env: Env, s: Sim, req: Request, vol: int, raw: real, fill: real): Option<int>
    requires ValidSpec(env.spec)
  {
    if Abs(fill - raw) / env.spec.point > req.maxSlippagePoints then Some(REQUOTE)
    else if req.stopLoss != 0.0
            && Abs(fill - req.stopLoss) < env.spec.stopsLevel - TOLERANCE then Some(INVALID_STOPS)
    else if req.takeProfit.Some? && req.takeProfit.value != 0.0
            && Abs(fill - req.takeProfit.value) < env.spec.stopsLevel - TOLERANCE then Some(INVALID_STOPS)
    else if MarginFor(env, vol, fill) > FreeMargin(env, s) then Some(NO_MONEY)
    else None
  }

  // `slip` is the slippage drawn for this order, in points.
  function Send(env: Env, s: Sim, req: Request, slip: real): (Sim, Reply)
    requires ValidSpec(env.spec)
  {
    var vol := NormalizeVolume(req.volume);
    if vol < env.spec.volumeMin || vol > env.spec.volumeMax then (s, Rejected(INVALID_VOLUME))
    else
      var raw := QuoteOf(env, s).PriceFor(req.direction);
      var fill := FillPrice(env.spec, raw, req.direction, slip);
      match Refusal(env, s, req, vol, raw, fill)
      case Some(code) => (s, Rejected(code))
      case None =>
        var p := NewPosition(env, s, req, vol, fill);
        (s.(nextTicket := s.nextTicket + 1, positions := s.positions + [p], balance := s.balance - p.commissionPaid),
         Accepted(s.nextTicket, fill, vol))
  }

  function Modify(env: Env, s: Sim, ticket: int, sl: Option<real>, tp: Option<real>): (Sim, Reply)
    requires ValidSpec(env.spec)
  {
    var i := IndexOf(s.positions, ticket);
    if i == |s.positions| then (s, Rejected(NOT_FOUND))
    else if sl.Some? && Abs(Mid(s) - sl.value) < env.spec.stopsLevel - TOLERANCE then (s, Rejected(INVALID_STOPS))
    else
      var p := s.positions[i];
      var p := if sl.Some? then p.(stopLoss := NormalizePrice(sl.value, env.spec.unit)) else p;
      var p := if tp.Some? then p.(takeProfit := NormalizePrice(tp.value, env.spec.unit)) else p;
      (s.(positions := s.positions[i := p]), Accepted(ticket, 0.0, 0))
  }

  function ClosePosition(env: Env, s: Sim, ticket: int, volume: Option<int>): (Sim, Reply) {
    var i := IndexOf(s.positions, ticket);
    if i == |s.positions| then (s, Rejected(NOT_FOUND))
    else
      var price := QuoteOf(env, s).ExitPriceFor(s.positions[i].direction);
      (CloseAt(env, s, i, price, Manual, s.now, volume), Accepted(ticket, price, 0))
  }

  // ---------------------------------------------------------------- intrabar resolution

  predicate Touches(level: real, bar: Bar) {
    level != 0.0 && bar.low <= level <= bar.high
  }

  // Which level the finer bars reached first; the stop when they cannot tell.
  function TargetFirst(stop: real, target: real, m1: seq<Bar>): bool {
    if m1 == [] then false
    else if Touches(stop, m1[0]) then false
    else if Touches(target, m1[0]) then true
    else TargetFirst(stop, target, m1[1..])
  }

  function Excursions(p: Position, bar: Bar): Position {
    var adverse := if p.direction == Long then bar.low else bar.high;
    var favour := if p.direction == Long then bar.high else bar.low;
    p.(barsHeld := p.barsHeld + 1,
       mae := Max(p.mae, (p.entry - adverse) * p.direction.Sign()),
       mfe := Max(p.mfe, (favour - p.entry) * p.direction.Sign()))
  }

  function StopReason(p: Position): ExitReason {
    var risk := Abs(p.entry - p.initialSl);
    if Abs(p.stopLoss - p.initialSl) <= TOLERANCE || risk <= 0.0 then StopLoss
    else
      var beyond := (p.stopLoss - p.entry) * p.direction.Sign() / risk;
      if beyond > 0.10 then Trail else if beyond >= -0.10 then BreakEven else StopLoss
  }

  datatype Outcome = Stay | Exit(price: real, reason: ExitReason)

  // Resolve one position inside one bar; `slip` is the stop slippage drawn, in points.
  function Resolve(env: Env, p: Position, bar: Bar, m1: seq<Bar>, slip: real): Outcome {
    var hitSl, hitTp := Touches(p.stopLoss, bar), Touches(p.takeProfit, bar);
    if !hitSl && !hitTp then Stay
    else if hitSl && !(hitTp && TargetFirst(p.stopLoss, p.takeProfit, m1)) then
      var price := p.stopLoss - slip * env.spec.point * p.direction.Sign();
      Exit(if p.direction == Long then Min(price, bar.high) else Max(price, bar.low), StopReason(p))
    else Exit(p.takeProfit, TakeProfit)
  }

  // Walk the open positions in order; `from` is the next one to look at.
  function StepFrom(env: Env, s: Sim, from: nat, bar: Bar, m1: seq<Bar>, slip: int -> real): Sim
    requires from <= |s.positions|
    decreases |s.positions| - from
  {
    if from == |s.positions| then s
    else
      var p := Excursions(s.positions[from], bar);
      var s := s.(positions := s.positions[from := p]);
      match Resolve(env, p, bar, m1, slip(p.ticket))
      case Stay => StepFrom(env, s, from + 1, bar, m1, slip)
      case Exit(price, reason) => StepFrom(env, CloseAt(env, s, from, price, reason, bar.ts, None), from, bar, m1, slip)
  }

  function StepBar(env: Env, s: Sim, bar: Bar, m1: seq<Bar>, slip: int -> real): Sim {
    StepFrom(env, s.(bar := Some(bar), spreadPoints := Spread(env, bar)), 0, bar, m1, slip)
  }

  function CloseAll(env: Env, s: Sim, reason: ExitReason): Sim
    decreases |s.positions|
  {
    if s.positions == [] then s
    else
      var price := QuoteOf(env, s).ExitPriceFor(s.positions[0].direction);
      CloseAll(env, CloseAt(env, s, 0, price, reason, s.now, None), reason)
  }

  // ---------------------------------------------------------------- whole runs

  datatype Op =
    | OpTime(now: int, bar: Bar, spread: Option<real>)
    | OpSend(req: Request, slip: real)
    | OpModify(ticket: int, sl: Option<real>, tp: Option<real>)
    | OpClose(ticket: int, volume: Option<int>)
    | OpStep(stepBar: Bar, m1: seq<Bar>, slips: int -> real)
    | OpCloseAll(reason: ExitReason)

  function Apply(env: Env, s: Sim, op: Op): Sim
    requires ValidSpec(env.spec)
  {
    match op
    case OpTime(now, bar, spread) => SetTime(env, s, now, bar, spread)
    case OpSend(req, slip) => Send(env, s, req, slip).0
    case OpModify(ticket, sl, tp) => Modify(env, s, ticket, sl, tp).0
    case OpClose(ticket, volume) => ClosePosition(env, s, ticket, volume).0
    case OpStep(bar, m1, slips) => StepBar(env, s, bar, m1, slips)
    case OpCloseAll(reason) => CloseAll(env, s, reason)
  }

  function Run(env: Env, start: real, ops: seq<Op>): Sim
    requires ValidSpec(env.spec)
  {
    if ops == [] then Start(env, start) else Apply(env, Run(env, start, ops[..|ops| - 1]), ops[|ops| - 1])
  }

  // ---------------------------------------------------------------- the mutable object

  class Broker {
    const env: Env
    var balance: real
    var positions: seq<Position>
    var nextTicket: int
    var closedTrades: seq<Trade>
    var now: int
    var bar: Option<Bar>
    var spreadPoints: real

    function State(): Sim
      reads this
    {
      Sim(balance, positions, nextTicket, closedTrades, now, bar, spreadPoints)
    }

    constructor (env: Env, startingBalance: real)
      ensures this.env == env && State() == Start(env, startingBalance)
    {
      this.env := env;
      balance, positions, nextTicket, closedTrades := startingBalance, [], 1, [];
      now, bar, spreadPoints := 0, None, env.defaultSpread;
    }

    method AdvanceClock(now: int, bar: Bar, spread: Option<real>)
      modifies this
      ensures State() == SetTime(env, old(State()), now, bar, spread)
    {
      this.now, this.bar := now, Some(bar);
      spreadPoints := if spread.Some? then spread.value * env.spreadMultiplier else Spread(env, bar);
    }

    method SendMarket(req: Request, slip: real) returns (reply: Reply)
      requires ValidSpec(env.spec)
      modifies this
      ensures (State(), reply) == Send(env, old(State()), req, slip)
    {
      hide NormalizeVolume, FillPrice, QuoteOf, Refusal;
      var vol := NormalizeVolume(req.volume);
      if vol < env.spec.volumeMin || vol > env.spec.volumeMax {
        return Rejected(INVALID_VOLUME);
      }
      var raw := QuoteOf(env, State()).PriceFor(req.direction);
      var fill := FillPrice(env.spec, raw, req.direction, slip);
      var refusal := Refusal(env, State(), req, vol, raw, fill);
      if refusal.Some? {
        return Rejected(refusal.value);
      }
      var p := NewPosition(env, State(), req, vol, fill);
      nextTicket := nextTicket + 1;
      positions := positions + [p];
      balance := balance - p.commissionPaid;
      reply := Accepted(p.ticket, fill, vol);
    }

    method ModifyPosition(ticket: int, sl: Option<real>, tp: Option<real>) returns (reply: Reply)
      requires ValidSpec(env.spec)
      modifies this`positions
      ensures (State(), reply) == Modify(env, old(State()), ticket, sl, tp)
    {
      var i := IndexOf(positions, ticket);
      if i == |positions| {
        return Rejected(NOT_FOUND);
      }
      if sl.Some? {
        if Abs(Mid(State()) - sl.value) < env.spec.stopsLevel - TOLERANCE {
          return Rejected(INVALID_STOPS);
        }
        positions := positions[i := positions[i].(stopLoss := NormalizePrice(sl.value, env.spec.unit))];
      }
      if tp.Some? {
        positions := positions[i := positions[i].(takeProfit := NormalizePrice(tp.value, env.spec.unit))];
      }
      assert State().positions == Modify(env, old(State()), ticket, sl, tp).0.positions;
      reply := Accepted(ticket, 0.0, 0);
    }

    // Book the realised profit and both shares of the commission, then shrink or drop the position.
    method CloseInternal(i: nat, price: real, reason: ExitReason, ts: int, volume: Option<int>)
      requires i < |positions|
      modifies this`balance, this`closedTrades, this`positions
      ensures State() == CloseAt(env, old(State()), i, price, reason, ts, volume)
    {
      var p := positions[i];
      var vol := VolumeToClose(p, volume);
      var trade := TradeOf(env, p, price, reason, ts, vol);
      balance := balance + trade.gross - Fee(env, vol);
      closedTrades := closedTrades + [trade];
      if vol >= p.volume {
        positions := positions[..i] + positions[i + 1..];
        assert positions == old(positions)[..i] + [] + old(positions)[i + 1..];
      } else {
        positions := positions[i := p.(volume := p.volume - vol)];
      }
    }

    method CloseTicket(ticket: int, volume: Option<int>) returns (reply: Reply)
      modifies this
      ensures (State(), reply) == ClosePosition(env, old(State()), ticket, volume)
    {
      var i := IndexOf(positions, ticket);
      if i == |positions| {
        return Rejected(NOT_FOUND);
      }
      var price := QuoteOf(env, State()).ExitPriceFor(positions[i].direction);
      CloseInternal(i, price, Manual, now, volume);
      reply := Accepted(ticket, price, 0);
    }

    // Advance one bar and resolve any stop or target hit inside it.
    method Step(bar: Bar, m1: seq<Bar>, slip: int -> real)
      modifies this
      ensures State() == StepBar(env, old(State()), bar, m1, slip)
    {
      this.bar, spreadPoints := Some(bar), Spread(env, bar);
      var i := 0;
      while i < |positions|
        invariant i <= |positions|
        invariant StepFrom(env, State(), i, bar, m1, slip) == StepBar(env, old(State()), bar, m1, slip)
        decreases |positions| - i
      {
        var p := Excursions(positions[i], bar);
        positions := positions[i := p];
        var outcome := Resolve(env, p, bar, m1, slip(p.ticket));
        if outcome.Exit? {
          CloseInternal(i, outcome.price, outcome.reason, bar.ts, None);
        } else {
          i := i + 1;
        }
      }
    }

    method CloseEverything(reason: ExitReason)
      modifies this
      ensures State() == CloseAll(env, old(State()), reason)
    {
      while positions != []
        invariant CloseAll(env, State(), reason) == CloseAll(env, old(State()), reason)
        decreases |positions|
      {
        var price := QuoteOf(env, State()).ExitPriceFor(positions[0].direction);
        CloseInternal(0, price, reason, now, None);
      }
    }
  }
}
