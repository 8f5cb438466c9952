/** What the simulated broker's fills, exits and account figures come to, in prices and money
    (src/xauusd/execution/sim_broker.py). */
module SimFills {
  import opened Domain
  import opened SimBroker
  import opened SimLedger

  // ---------------------------------------------------------------- the market

  lemma {:induction false} StepKeepsMarket(env: Env, s: Sim, from: nat, bar: Bar, m1: seq<Bar>, slip: int -> real)
    requires from <= |s.positions|
    ensures var r := StepFrom(env, s, from, bar, m1, slip);
            r.bar == s.bar && r.spreadPoints == s.spreadPoints && r.now == s.now && r.nextTicket == s.nextTicket
    decreases |s.positions| - from
  {
    hide Resolve, TradeOf, Fee, Remainder;
    if from < |s.positions| {
      var p := Excursions(s.positions[from], bar);
      var t := s.(positions := s.positions[from := p]);
      match Resolve(env, p, bar, m1, slip(p.ticket))
      case Stay => StepKeepsMarket(env, t, from + 1, bar, m1, slip);
      case Exit(price, reason) =>
        CloseShape(env, t, from, price, reason, bar.ts);
        StepKeepsMarket(env, CloseAt(env, t, from, price, reason, bar.ts, None), from, bar, m1, slip);
    }
  }

  // Bid and ask lie around the bar's close, this many points apart.
  predicate QuotedAround(env: Env, s: Sim, bar: Bar, points: real) {
    var q := QuoteOf(env, s);
    q.ask - q.bid == points * env.spec.point && q.ask + q.bid == bar.close + bar.close && q.ts == s.now
  }

  /** The market after a step, or after the clock is set: bid and ask around the bar's close, apart by
      the spread given, or the bar's own, or the default one, times the multiplier of the run. */
  lemma MarketAround(env: Env, s: Sim, bar: Bar, m1: seq<Bar>, slip: int -> real, now: int, spread: Option<real>)
    ensures QuotedAround(env, StepBar(env, s, bar, m1, slip), bar,
                         (if bar.spread == 0.0 then env.defaultSpread else bar.spread) * env.spreadMultiplier)
    ensures var points := if spread.Some? then spread.value else if bar.spread == 0.0 then env.defaultSpread
                          else bar.spread;
            QuotedAround(env, SetTime(env, s, now, bar, spread), bar, points * env.spreadMultiplier)
    ensures SetTime(env, s, now, bar, spread).now == now && StepBar(env, s, bar, m1, slip).now == s.now
  {
    hide StepFrom;
    StepKeepsMarket(env, s.(bar := Some(bar), spreadPoints := Spread(env, bar)), 0, bar, m1, slip);
  }

  // ---------------------------------------------------------------- fills

  // The side of the market an order is filled at, before slippage.
  function Asked(env: Env, s: Sim, d: Direction): real {
    var half := s.spreadPoints * env.spec.point / 2.0;
    if d == Long then Mid(s) + half else Mid(s) - half
  }

  /** Slippage moves a fill against the trade: it is the grid point at most half a unit from the
      side asked for, moved up for a long and down for a short by the slippage drawn. */
  lemma SlippageHurts(spec: SymbolSpec, raw: real, d: Direction, slip: real)
    requires ValidSpec(spec)
    ensures var fill := FillPrice(spec, raw, d, slip);
            var worse := if d == Long then raw + slip * spec.point else raw - slip * spec.point;
            OnGrid(fill, spec.unit) && Abs(fill - worse) <= 0.5 * spec.unit
  {
    hide NormalizePrice, OnGrid, Slippage;
    SlippageSide(spec, d, slip);
    NormalizeError(raw + Slippage(spec, d, slip), spec.unit);
    NormalizeFixesGrid(raw + Slippage(spec, d, slip), spec.unit);
  }

  lemma SlippageSide(spec: SymbolSpec, d: Direction, slip: real)
    ensures Slippage(spec, d, slip) == if d == Long then slip * spec.point else -(slip * spec.point)
  {
  }

  // The stop or target of a request is set and nearer the fill than the stops level allows.
  predicate TooNear(env: Env, level: real, fill: real) {
    level != 0.0 && Abs(fill - level) < env.spec.stopsLevel - TOLERANCE
  }

  predicate Slipped(env: Env, req: Request, raw: real, fill: real) {
    Abs(fill - raw) > req.maxSlippagePoints * env.spec.point
  }

  predicate Cramped(env: Env, req: Request, fill: real) {
    TooNear(env, req.stopLoss, fill) || (req.takeProfit.Some? && TooNear(env, req.takeProfit.value, fill))
  }

  predicate Affordable(env: Env, s: Sim, volume: int, fill: real) {
    volume as real * env.spec.contractPerStep * fill / 100.0 <= FreeMargin(env, s)
  }

  /** Which orders are filled, and what refuses the others, in that order: a volume outside the
      bounds, a fill slipped beyond the request's limit, a level inside the stops level, and a
      margin above what is free.  A fill opens a position with exactly the requested levels. */
  lemma FilledExactlyWhen(env: Env, s: Sim, req: Request, slip: real)
    requires ValidSpec(env.spec)
    ensures var (t, reply) := Send(env, s, req, slip);
            var vol, raw := NormalizeVolume(req.volume), Asked(env, s, req.direction);
            var fill := FillPrice(env.spec, raw, req.direction, slip);
            if vol < env.spec.volumeMin || vol > env.spec.volumeMax then reply == Rejected(10014)
            else if Slipped(env, req, raw, fill) then reply == Rejected(10004)
            else if Cramped(env, req, fill) then reply == Rejected(10016)
            else if !Affordable(env, s, vol, fill) then reply == Rejected(10019)
            else
              && reply == Accepted(s.nextTicket, fill, vol) && |t.positions| == |s.positions| + 1
              && var p := t.positions[|s.positions|];
                 && p.ticket == s.nextTicket && p.direction == req.direction && p.volume == vol && p.entry == fill
                 && p.stopLoss == p.initialSl == req.stopLoss && p.openedAt == s.now
                 && p.takeProfit == (if req.takeProfit.Some? then req.takeProfit.value else 0.0)
                 && p.mae == 0.0 && p.mfe == 0.0 && p.swap == 0.0 && p.barsHeld == 0
  {
    hide NormalizeVolume, FillPrice, Refusal, Asked, QuoteOf, Slipped, Cramped, Affordable, Fee;
    var raw := Asked(env, s, req.direction);
    AsksFor(env, s, req.direction);
    RefusedBy(env, s, req, NormalizeVolume(req.volume), raw, FillPrice(env.spec, raw, req.direction, slip));
  }

  lemma AsksFor(env: Env, s: Sim, d: Direction)
    ensures QuoteOf(env, s).PriceFor(d) == Asked(env, s, d)
    ensures QuoteOf(env, s).ExitPriceFor(d) == Asked(env, s, d.Opposite())
  {
  }

  lemma RefusedBy(env: Env, s: Sim, req: Request, vol: int, raw: real, fill: real)
    requires ValidSpec(env.spec)
    ensures Refusal(env, s, req, vol, raw, fill)
            == if Slipped(env, req, raw, fill) then Some(10004)
               else if Cramped(env, req, fill) then Some(10016)
               else if !Affordable(env, s, vol, fill) then Some(10019) else None
  {
    hide FreeMargin, MarginFor, Abs;
    MarginMeans(env, vol, fill);
    AtMostTimes(Abs(fill - raw), req.maxSlippagePoints, env.spec.point);
  }

  lemma MarginMeans(env: Env, vol: int, fill: real)
    ensures MarginFor(env, vol, fill) == vol as real * env.spec.contractPerStep * fill / 100.0
  {
  }

  // ---------------------------------------------------------------- exits

  /** Where a position leaves a bar.  A target is paid exactly; a stop is paid at its price moved
      against the trade by the slippage, but never beyond the bar's far end. */
  lemma ExitPrices(env: Env, p: Position, bar: Bar, m1: seq<Bar>, slip: real)
    requires Resolve(env, p, bar, m1, slip).Exit?
    ensures var Exit(price, reason) := Resolve(env, p, bar, m1, slip);
            if reason == TakeProfit then price == p.takeProfit && bar.low <= price <= bar.high
            else
              && bar.low <= p.stopLoss <= bar.high
              && var worse := slip * env.spec.point;
                 if p.direction == Long then
                   price == if p.stopLoss - worse <= bar.high then p.stopLoss - worse else bar.high
                 else price == if p.stopLoss + worse >= bar.low then p.stopLoss + worse else bar.low
  {
    hide TargetFirst;
  }

  /** What a stop exit is called: by where the stop stood against the entry, in tenths of the
      initial risk, and a plain stop loss if it was never moved. */
  lemma StopReasonMeans(p: Position)
    ensures var risk, beyond := Abs(p.entry - p.initialSl),
                                if p.direction == Long then p.stopLoss - p.entry else p.entry - p.stopLoss;
            var moved := Abs(p.stopLoss - p.initialSl) > TOLERANCE && risk > 0.0;
            && (StopReason(p) == Trail <==> moved && beyond > 0.10 * risk)
            && (StopReason(p) == BreakEven <==> moved && -0.10 * risk <= beyond <= 0.10 * risk)
            && StopReason(p) in {StopLoss, BreakEven, Trail}
  {
    var risk := Abs(p.entry - p.initialSl);
    var beyond := if p.direction == Long then p.stopLoss - p.entry else p.entry - p.stopLoss;
    assert (p.stopLoss - p.entry) * p.direction.Sign() == beyond;
    if risk > 0.0 {
      AtMostTimes(beyond, 0.10, risk);
      AtMostTimes(beyond, -0.10, risk);
    }
  }

  /** What a modification does: refused for a ticket that is not open, or a stop nearer the price
      than the stops level; otherwise exactly the given levels are set, rounded to the grid. */
  lemma ModifiedExactlyWhen(env: Env, s: Sim, ticket: int, sl: Option<real>, tp: Option<real>)
    requires ValidSpec(env.spec)
    ensures var (t, reply) := Modify(env, s, ticket, sl, tp);
            var i := IndexOf(s.positions, ticket);
            if i == |s.positions| then reply == Rejected(10036) && t == s
            else if sl.Some? && Abs(Mid(s) - sl.value) < env.spec.stopsLevel - TOLERANCE
            then reply == Rejected(10016) && t == s
            else
              && reply.Accepted? && |t.positions| == |s.positions| && t == s.(positions := t.positions)
              && (forall j :: 0 <= j < |s.positions| && j != i ==> t.positions[j] == s.positions[j])
              && t.positions[i] == s.positions[i].(stopLoss := t.positions[i].stopLoss,
                                                   takeProfit := t.positions[i].takeProfit)
              && t.positions[i].stopLoss
                 == (if sl.Some? then NormalizePrice(sl.value, env.spec.unit) else s.positions[i].stopLoss)
              && t.positions[i].takeProfit
                 == (if tp.Some? then NormalizePrice(tp.value, env.spec.unit) else s.positions[i].takeProfit)
  {
    hide NormalizePrice, Mid;
  }

  /** What a close books: at the side of the market the position leaves by, for the volume asked or
      all of it, the directed move from the entry times the money per step. */
  lemma ClosedAtTheQuote(env: Env, s: Sim, ticket: int, volume: Option<int>)
    ensures var (t, reply) := ClosePosition(env, s, ticket, volume);
            var i := IndexOf(s.positions, ticket);
            if i == |s.positions| then reply == Rejected(10036) && t == s
            else
              var p := s.positions[i];
              var price := Asked(env, s, p.direction.Opposite());
              var vol := if volume.Some? && 0 != volume.value < p.volume then volume.value else p.volume;
              var moved := if p.direction == Long then price - p.entry else p.entry - price;
              && reply.Accepted? && |t.closed| == |s.closed| + 1 && t.closed[..|s.closed|] == s.closed
              && var trade := t.closed[|s.closed|];
                 && trade.ticket == ticket && trade.exitPrice == price && trade.volume == vol
                 && trade.gross == moved * env.spec.moneyPerStep * vol as real
                 && trade.closedAt == s.now && trade.openedAt == p.openedAt && trade.reason == Manual
                 && trade.riskMoney == Abs(p.entry - p.initialSl) * env.spec.moneyPerStep * vol as real
  {
    hide Fee, TradeOf, Asked;
    var i := IndexOf(s.positions, ticket);
    if i < |s.positions| {
      var p := s.positions[i];
      var vol := VolumeToClose(p, volume);
      AsksFor(env, s, p.direction);
      TradeMeans(env, p, Asked(env, s, p.direction.Opposite()), Manual, s.now, vol);
    }
  }

  lemma TradeMeans(env: Env, p: Position, price: real, reason: ExitReason, ts: int, vol: int)
    ensures var trade := TradeOf(env, p, price, reason, ts, vol);
            var moved := if p.direction == Long then price - p.entry else p.entry - price;
            && trade.ticket == p.ticket && trade.exitPrice == price && trade.volume == vol
            && trade.gross == moved * env.spec.moneyPerStep * vol as real
            && trade.closedAt == ts && trade.openedAt == p.openedAt && trade.reason == reason
            && trade.riskMoney == Abs(p.entry - p.initialSl) * env.spec.moneyPerStep * vol as real
  {
    hide Fee;
    assert (price - p.entry) * p.direction.Sign() == if p.direction == Long then price - p.entry else p.entry - price;
  }

  // ---------------------------------------------------------------- the account

  // What a position would book if it closed at this price, before fees.
  function Gain(env: Env, p: Position, price: real): real {
    (if p.direction == Long then price - p.entry else p.entry - price) * env.spec.moneyPerStep * p.volume as real
  }

  lemma GainIsMoney(env: Env, p: Position, price: real)
    ensures Gain(env, p, price) == Money(env, (price - p.entry) * p.direction.Sign(), p.volume)
  {
    assert (price - p.entry) * p.direction.Sign() == if p.direction == Long then price - p.entry else p.entry - price;
  }

  lemma {:induction false} UnrealisedAppend(env: Env, a: seq<Position>, b: seq<Position>, price: real)
    ensures Unrealised(env, a + b, price) == Unrealised(env, a, price) + Unrealised(env, b, price)
    ensures UsedMargin(env, a + b) == UsedMargin(env, a) + UsedMargin(env, b)
  {
    if b == [] {
      assert a + b == a;
    } else {
      assert (a + b)[..|a + b| - 1] == a + b[..|b| - 1];
      UnrealisedAppend(env, a, b[..|b| - 1], price);
    }
  }

  lemma UnrealisedOne(env: Env, p: Position, price: real)
    ensures Unrealised(env, [p], price) == Gain(env, p, price)
    ensures UsedMargin(env, [p]) == p.volume as real * env.spec.contractPerStep * p.entry / 100.0
  {
    hide Gain, Money;
    GainIsMoney(env, p, price);
    assert [p][..0] == [];
  }

  /** The equity the free margin starts from is what closing the whole book would leave: without a
      spread, closing everything changes the balance by the unrealised profit less the exit fees. */
  lemma {:induction false} EquityIsWhatClosingLeaves(env: Env, s: Sim, reason: ExitReason)
    requires s.spreadPoints == 0.0
    ensures CloseAll(env, s, reason).balance
            == s.balance + Unrealised(env, s.positions, Mid(s)) - Fee(env, OpenVolume(s.positions))
    decreases |s.positions|
  {
    hide Fee, Unrealised, OpenVolume, Gain, CloseAt, QuoteOf, Mid;
    if s.positions != [] {
      var price := QuoteOf(env, s).ExitPriceFor(s.positions[0].direction);
      MidIsBothSides(env, s);
      CloseHead(env, s, price, reason);
      HeadOfBook(env, s.positions, price);
      var t := CloseAt(env, s, 0, price, reason, s.now, None);
      SameMid(s, t);
      EquityIsWhatClosingLeaves(env, t, reason);
    } else {
      NothingOpen(env, s);
    }
  }

  lemma MidIsBothSides(env: Env, s: Sim)
    requires s.spreadPoints == 0.0
    ensures forall d :: QuoteOf(env, s).ExitPriceFor(d) == Mid(s)
  {
  }

  lemma SameMid(s: Sim, t: Sim)
    requires t.bar == s.bar
    ensures Mid(t) == Mid(s)
  {
  }

  lemma HeadOfBook(env: Env, positions: seq<Position>, price: real)
    requires positions != []
    ensures var p, rest := positions[0], positions[1..];
            && Unrealised(env, positions, price)
               == Gain(env, p, price) + Unrealised(env, rest, price)
            && Fee(env, OpenVolume(positions)) == Fee(env, p.volume) + Fee(env, OpenVolume(rest))
  {
    hide Fee, Unrealised, OpenVolume, Gain;
    var p, rest := positions[0], positions[1..];
    assert positions == [p] + rest;
    UnrealisedAppend(env, [p], rest, price);
    UnrealisedOne(env, p, price);
    OpenVolumeAppend([p], rest);
    OpenVolumeOne(p);
    FeeSplit(env, p.volume, OpenVolume(rest));
  }

  lemma CloseHead(env: Env, s: Sim, price: real, reason: ExitReason)
    requires s.positions != []
    ensures var p, t := s.positions[0], CloseAt(env, s, 0, price, reason, s.now, None);
            && t.positions == s.positions[1..] && t.bar == s.bar && t.spreadPoints == s.spreadPoints
            && t.balance == s.balance + Gain(env, p, price)
                            - Fee(env, p.volume)
  {
    hide Money, Fee, Gain;
    GainIsMoney(env, s.positions[0], price);
    assert s.positions[..0] + [] + s.positions[1..] == s.positions[1..];
  }

  lemma NothingOpen(env: Env, s: Sim)
    ensures Unrealised(env, [], Mid(s)) == 0.0 && OpenVolume([]) == 0 && Fee(env, 0) == 0.0
  {
  }

  /** What is free is that equity less a hundredth of the value of every open position at its entry,
      so opening one takes off its fee, its margin and what it stands at. */
  lemma OpeningTakesMargin(env: Env, s: Sim, p: Position)
    ensures FreeMargin(env, s.(positions := s.positions + [p], balance := s.balance - p.commissionPaid))
            == FreeMargin(env, s) - p.commissionPaid - p.volume as real * env.spec.contractPerStep * p.entry / 100.0
               + Gain(env, p, Mid(s))
    ensures FreeMargin(env, s.(positions := [])) == s.balance
  {
    hide Gain;
    UnrealisedAppend(env, s.positions, [p], Mid(s));
    UnrealisedOne(env, p, Mid(s));
  }
}
