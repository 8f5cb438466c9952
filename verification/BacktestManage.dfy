/** The backtester's own management path (src/xauusd/backtesting/engine.py, `_manage`), driving
    the simulated broker: how far a stop can ever be loosened by rounding. */
module BacktestManage {
  import opened Domain
  import opened SimBroker
  import SimLedger

  // `timeLimit` is the position's time stop in bars, zero when it has none.
  datatype Config = Config(
    breakEvenAtR: real, breakEvenOffsetR: real, trailEnabled: bool, trailActivateR: real,
    timeStopMinR: real, timeLimit: int)
  {
    predicate Valid() {
      ValidThresholds(breakEvenAtR, breakEvenOffsetR, trailActivateR)
    }
  }

  function Risk(p: Position): real {
    Abs(p.entry - p.stopLoss)
  }

  function RNow(p: Position, close: real): real {
    if Risk(p) > 0.0 then (close - p.entry) * p.direction.Sign() / Risk(p) else 0.0
  }

  function Better(d: Direction, x: real, y: real): real {
    if d == Long then Max(x, y) else Min(x, y)
  }

  // The stop one cycle would like: break-even, then a trail of the current risk.
  function WantedStop(cfg: Config, p: Position, close: real): real {
    var r := RNow(p, close);
    var be := if r >= cfg.breakEvenAtR then Better(p.direction, p.stopLoss, BreakEvenAt(cfg, p)) else p.stopLoss;
    if cfg.trailEnabled && r >= cfg.trailActivateR then Better(p.direction, be, TrailAt(p, close)) else be
  }

  function BreakEvenAt(cfg: Config, p: Position): real {
    p.entry + cfg.breakEvenOffsetR * Risk(p) * p.direction.Sign()
  }

  function TrailAt(p: Position, close: real): real {
    close - Risk(p) * p.direction.Sign()
  }

  predicate TimedOut(cfg: Config, p: Position, close: real) {
    cfg.timeLimit != 0 && p.barsHeld >= cfg.timeLimit && RNow(p, close) < cfg.timeStopMinR
  }

  // Manage the position with this ticket, as it was when the cycle listed the book.
  function ManageTicket(env: Env, cfg: Config, s: Sim, p: Position, close: real): Sim
    requires ValidSpec(env.spec)
  {
    if p.stopLoss == 0.0 || Risk(p) <= 0.0 then s
    else if TimedOut(cfg, p, close) then ClosePosition(env, s, p.ticket, None).0
    else if !cfg.trailEnabled && RNow(p, close) < cfg.breakEvenAtR then s
    else
      var stop := WantedStop(cfg, p, close);
      if Improves(p.direction, stop, p.stopLoss) then Modify(env, s, p.ticket, Some(stop), None).0 else s
  }

  function ManageListed(env: Env, cfgs: int -> Config, s: Sim, listed: seq<Position>, close: real): Sim
    requires ValidSpec(env.spec)
  {
    if listed == [] then s
    else
      var n := |listed| - 1;
      ManageTicket(env, cfgs(listed[n].ticket), ManageListed(env, cfgs, s, listed[..n], close), listed[n], close)
  }

  // One cycle over the open book; `cfgs` gives each ticket its strategy's settings.
  function ManageAll(env: Env, cfgs: int -> Config, s: Sim, close: real): Sim
    requires ValidSpec(env.spec)
  {
    ManageListed(env, cfgs, s, s.positions, close)
  }

  // The loop itself, over a listing taken before the first change.
  method Manage(broker: Broker, cfgs: int -> Config, close: real)
    requires ValidSpec(broker.env.spec)
    modifies broker
    ensures broker.State() == ManageAll(broker.env, cfgs, old(broker.State()), close)
  {
    hide ManageTicket;
    ghost var start := broker.State();
    var listed := broker.positions;
    for i := 0 to |listed|
      invariant broker.State() == ManageListed(broker.env, cfgs, start, listed[..i], close)
    {
      assert listed[..i + 1][..i] == listed[..i];
      ManageOne(broker, cfgs(listed[i].ticket), listed[i], close);
    }
    assert listed[..|listed|] == listed;
  }

  method ManageOne(broker: Broker, cfg: Config, p: Position, close: real)
    requires ValidSpec(broker.env.spec)
    modifies broker
    ensures broker.State() == ManageTicket(broker.env, cfg, old(broker.State()), p, close)
  {
    hide Modify, ClosePosition;
    var risk := Abs(p.entry - p.stopLoss);
    if p.stopLoss == 0.0 || risk <= 0.0 {
      return;
    }
    var r := RNow(p, close);
    if cfg.timeLimit != 0 && p.barsHeld >= cfg.timeLimit {
      if r < cfg.timeStopMinR {
        var reply := broker.CloseTicket(p.ticket, None);
        return;
      }
    }
    if !cfg.trailEnabled && r < cfg.breakEvenAtR {
      return;
    }
    var stop := WantedStop(cfg, p, close);
    if Improves(p.direction, stop, p.stopLoss) {
      var reply := broker.ModifyPosition(p.ticket, Some(stop), None);
    }
  }

  // ---------------------------------------------------------------- one cycle, in prices

  // The close is up on the entry by so many times the risk, the distance to the current stop.
  predicate UpBy(p: Position, close: real, r: real) {
    (if p.direction == Long then close - p.entry else p.entry - close) >= r * Risk(p)
  }

  // The levels a cycle may choose from: the stop as it is, break-even, and a trail of the risk.
  predicate Offered(cfg: Config, p: Position, close: real, level: real) {
    || level == p.stopLoss
    || (UpBy(p, close, cfg.breakEvenAtR) && level == Locked(cfg, p))
    || (cfg.trailEnabled && UpBy(p, close, cfg.trailActivateR) && level == Behind(p, close))
  }

  // The entry, and the configured part of the risk into profit.
  function Locked(cfg: Config, p: Position): real {
    var lock := cfg.breakEvenOffsetR * Abs(p.entry - p.stopLoss);
    if p.direction == Long then p.entry + lock else p.entry - lock
  }

  // The current risk behind the close.
  function Behind(p: Position, close: real): real {
    if p.direction == Long then close - Abs(p.entry - p.stopLoss) else close + Abs(p.entry - p.stopLoss)
  }

  // The best of them.
  ghost predicate BestOffered(cfg: Config, p: Position, close: real, level: real) {
    && Offered(cfg, p, close, level)
    && forall other :: Offered(cfg, p, close, other) ==> if p.direction == Long then level >= other else level <= other
  }

  lemma UpByMeans(p: Position, close: real, r: real)
    requires p.entry != p.stopLoss
    ensures RNow(p, close) >= r <==> UpBy(p, close, r)
  {
    var profit := (close - p.entry) * p.direction.Sign();
    AtMostTimes(profit, r, Risk(p));
    assert profit == if p.direction == Long then close - p.entry else p.entry - close;
  }

  lemma LevelsMean(cfg: Config, p: Position, close: real)
    ensures BreakEvenAt(cfg, p) == Locked(cfg, p) && TrailAt(p, close) == Behind(p, close)
  {
  }

  lemma WantedIsBest(cfg: Config, p: Position, close: real)
    requires p.entry != p.stopLoss
    ensures BestOffered(cfg, p, close, WantedStop(cfg, p, close))
  {
    hide RNow, UpBy, Locked, Behind, BreakEvenAt, TrailAt;
    UpByMeans(p, close, cfg.breakEvenAtR);
    UpByMeans(p, close, cfg.trailActivateR);
    LevelsMean(cfg, p, close);
  }

  /** What a cycle does to one position it listed: nothing without a stop away from the entry; close
      it when it has been held for its limit without being up enough; and otherwise ask the broker
      for the best level on offer, if that is strictly better than the stop. */
  lemma ManagedAs(env: Env, cfg: Config, s: Sim, p: Position, close: real)
    requires ValidSpec(env.spec)
    ensures var r := ManageTicket(env, cfg, s, p, close);
            && Risk(p) == (if p.entry > p.stopLoss then p.entry - p.stopLoss else p.stopLoss - p.entry)
            && if p.stopLoss == 0.0 || p.entry == p.stopLoss then r == s
            else if cfg.timeLimit != 0 && p.barsHeld >= cfg.timeLimit && !UpBy(p, close, cfg.timeStopMinR)
            then r == ClosePosition(env, s, p.ticket, None).0
            else
              exists level :: BestOffered(cfg, p, close, level)
                && r == if (if p.direction == Long then level > p.stopLoss else level < p.stopLoss)
                        then Modify(env, s, p.ticket, Some(level), None).0 else s
  {
    hide RNow, UpBy, Modify, ClosePosition, BestOffered, WantedStop;
    if p.entry != p.stopLoss {
      UpByMeans(p, close, cfg.timeStopMinR);
      WantedIsBest(cfg, p, close);
      NothingWanted(cfg, p, close);
    }
  }

  lemma NothingWanted(cfg: Config, p: Position, close: real)
    ensures !cfg.trailEnabled && RNow(p, close) < cfg.breakEvenAtR ==> WantedStop(cfg, p, close) == p.stopLoss
  {
    hide RNow;
  }

  // ---------------------------------------------------------------- what rounding can cost

  /** A stop is either still the one the order was sent with, or on the grid and no looser than
      that one's own rounding. */
  ghost predicate StopInv(env: Env, p: Position)
    requires ValidSpec(env.spec)
  {
    var unit := env.spec.unit;
    || p.stopLoss == p.initialSl
    || (OnGrid(p.stopLoss, unit) && Tighter(p.direction, p.stopLoss, NormalizePrice(p.initialSl, unit)))
  }

  ghost predicate BookInv(env: Env, s: Sim)
    requires ValidSpec(env.spec)
  {
    && (forall i :: 0 <= i < |s.positions| ==> StopInv(env, s.positions[i]))
    && (forall i, j :: 0 <= i < j < |s.positions| ==> s.positions[i].ticket != s.positions[j].ticket)
    && (forall i :: 0 <= i < |s.positions| ==> s.positions[i].ticket < s.nextTicket)
  }

  // An improving level, once rounded, keeps the invariant, and loosens the stop only where it can round back.
  lemma ImprovementRounds(env: Env, p: Position, stop: real)
    requires ValidSpec(env.spec) && StopInv(env, p) && Improves(p.direction, stop, p.stopLoss)
    ensures var n := NormalizePrice(stop, env.spec.unit);
            && StopInv(env, p.(stopLoss := n))
            && (!RoundsBack(p.direction, p.stopLoss, env.spec.unit, 0.0) ==> Tighter(p.direction, n, p.stopLoss))
  {
    hide NormalizePrice, OnGrid, RoundsBack;
    var unit := env.spec.unit;
    NormalizeFixesGrid(stop, unit);
    NormalizeFixesGrid(p.stopLoss, unit);
    var n, was := NormalizePrice(stop, unit), NormalizePrice(p.stopLoss, unit);
    if p.direction == Long {
      NormalizeMonotone(p.stopLoss, stop, unit);
      assert n >= was;
    } else {
      NormalizeMonotone(stop, p.stopLoss, unit);
      assert n <= was;
    }
    assert Tighter(p.direction, n, NormalizePrice(p.initialSl, unit));
    if !Tighter(p.direction, n, p.stopLoss) {
      RoundedBack(p.direction, p.stopLoss, stop, unit, 0.0);
    }
  }

  /** Where a cycle can loosen a stop: it is set, away from the entry and inside the half unit next
      to its looser grid point; and a level in reach is far enough from the price: a trail keeps
      the risk as its distance, a break-even level needs the entry itself to round past the stop. */
  ghost predicate Loosable(env: Env, p: Position)
    requires ValidSpec(env.spec)
  {
    && p.stopLoss != 0.0 && Risk(p) > 0.0 && RoundsBack(p.direction, p.stopLoss, env.spec.unit, 0.0)
    && (Risk(p) >= env.spec.stopsLevel - TOLERANCE
        || !Tighter(p.direction, NormalizePrice(p.entry, env.spec.unit), p.stopLoss))
  }

  // The stop a cycle wants, when it improves, is the break-even level or the trail.
  lemma WantedIsEither(cfg: Config, p: Position, close: real)
    requires cfg.Valid() && Risk(p) >= 0.0 && Improves(p.direction, WantedStop(cfg, p, close), p.stopLoss)
    ensures var stop := WantedStop(cfg, p, close);
            || Abs(close - stop) == Risk(p)
            || Tighter(p.direction, stop, p.entry)
  {
    hide RNow;
    assert cfg.breakEvenOffsetR * Risk(p) >= 0.0;
  }

  // A wanted stop the broker takes and stores looser than it was.
  lemma WantedLoosens(env: Env, cfg: Config, p: Position, close: real)
    requires ValidSpec(env.spec) && cfg.Valid() && p.stopLoss != 0.0 && Risk(p) > 0.0
    requires var stop := WantedStop(cfg, p, close);
             && Improves(p.direction, stop, p.stopLoss)
             && Abs(close - stop) >= env.spec.stopsLevel - TOLERANCE
             && !Tighter(p.direction, NormalizePrice(stop, env.spec.unit), p.stopLoss)
    ensures Loosable(env, p)
  {
    hide NormalizePrice, RoundsBack, WantedStop, Abs;
    var stop := WantedStop(cfg, p, close);
    RoundedBack(p.direction, p.stopLoss, stop, env.spec.unit, 0.0);
    WantedIsEither(cfg, p, close);
    if Tighter(p.direction, stop, p.entry) {
      if p.direction == Long {
        NormalizeMonotone(p.entry, stop, env.spec.unit);
      } else {
        NormalizeMonotone(stop, p.entry, env.spec.unit);
      }
    }
  }

  // The positions of the book that the cycle listed are still the listed ones, or already changed.
  ghost predicate Faithful(s: Sim, listed: seq<Position>) {
    forall i, j :: 0 <= i < |s.positions| && 0 <= j < |listed| && s.positions[i].ticket == listed[j].ticket ==>
      s.positions[i] == listed[j]
  }

  // The settings are valid and the price is the one the broker shows.
  ghost predicate Checked(cfgs: int -> Config, s: Sim, close: real) {
    close == Mid(s) && forall t :: cfgs(t).Valid()
  }

  // q is p, up to a stop that management moved, and loosened only where it can be.
  ghost predicate Descends(env: Env, checked: bool, p: Position, q: Position)
    requires ValidSpec(env.spec)
  {
    && q == p.(stopLoss := q.stopLoss)
    && (!Tighter(p.direction, q.stopLoss, p.stopLoss) ==>
          if checked then Loosable(env, p) else RoundsBack(p.direction, p.stopLoss, env.spec.unit, 0.0))
  }

  // Every position left is one of the given ones, moved at most.
  ghost predicate AllDescend(env: Env, checked: bool, ancestors: seq<Position>, s: Sim)
    requires ValidSpec(env.spec)
  {
    forall i :: 0 <= i < |s.positions| ==> HasAncestor(env, checked, ancestors, s.positions[i])
  }

  ghost predicate HasAncestor(env: Env, checked: bool, ancestors: seq<Position>, q: Position)
    requires ValidSpec(env.spec)
  {
    exists i :: 0 <= i < |ancestors| && Descends(env, checked, ancestors[i], q)
  }

  // Whatever one ticket's step did, every other position is as it was and that one only moved.
  ghost predicate OneMoved(env: Env, checked: bool, s: Sim, r: Sim, p: Position)
    requires ValidSpec(env.spec)
  {
    && (forall i :: 0 <= i < |r.positions| && r.positions[i].ticket != p.ticket ==> r.positions[i] in s.positions)
    && (forall i :: 0 <= i < |r.positions| && r.positions[i].ticket == p.ticket ==>
          Descends(env, checked, p, r.positions[i]))
  }

  lemma MidOfBar(s: Sim, r: Sim)
    ensures r.bar == s.bar ==> Mid(r) == Mid(s)
  {
  }

  lemma CloseMoves(env: Env, s: Sim, p: Position)
    requires ValidSpec(env.spec) && BookInv(env, s)
    ensures var r := ClosePosition(env, s, p.ticket, None).0;
            && BookInv(env, r) && Mid(r) == Mid(s)
            && (forall i :: 0 <= i < |r.positions| ==>
                    r.positions[i] in s.positions && r.positions[i].ticket != p.ticket)
  {
    hide StopInv, QuoteOf, TradeOf, Fee;
  }

  lemma ModifyMoves(env: Env, cfg: Config, checked: bool, s: Sim, p: Position, close: real)
    requires ValidSpec(env.spec) && BookInv(env, s) && p.stopLoss != 0.0 && Risk(p) > 0.0
    requires Improves(p.direction, WantedStop(cfg, p, close), p.stopLoss)
    requires checked ==> cfg.Valid() && close == Mid(s)
    requires forall i :: 0 <= i < |s.positions| && s.positions[i].ticket == p.ticket ==> s.positions[i] == p
    ensures var r := Modify(env, s, p.ticket, Some(WantedStop(cfg, p, close)), None).0;
            BookInv(env, r) && OneMoved(env, checked, s, r, p) && Mid(r) == Mid(s)
  {
    hide NormalizePrice, OnGrid, StopInv, Mid, Abs, WantedStop, Risk, RoundsBack, Loosable;
    var stop := WantedStop(cfg, p, close);
    var i := IndexOf(s.positions, p.ticket);
    MidOfBar(s, Modify(env, s, p.ticket, Some(stop), None).0);
    if i < |s.positions| {
      assert StopInv(env, s.positions[i]);
      ImprovementRounds(env, p, stop);
      if checked && Abs(Mid(s) - stop) >= env.spec.stopsLevel - TOLERANCE
         && !Tighter(p.direction, NormalizePrice(stop, env.spec.unit), p.stopLoss) {
        WantedLoosens(env, cfg, p, close);
      }
    }
    SelfDescends(env, checked, p);
  }

  lemma SelfDescends(env: Env, checked: bool, p: Position)
    requires ValidSpec(env.spec)
    ensures Descends(env, checked, p, p)
  {
  }

  lemma ManageTicketMoves(env: Env, cfg: Config, checked: bool, s: Sim, p: Position, close: real)
    requires ValidSpec(env.spec) && BookInv(env, s) && (checked ==> cfg.Valid() && close == Mid(s))
    requires forall i :: 0 <= i < |s.positions| && s.positions[i].ticket == p.ticket ==> s.positions[i] == p
    ensures var r := ManageTicket(env, cfg, s, p, close);
            BookInv(env, r) && OneMoved(env, checked, s, r, p) && Mid(r) == Mid(s)
  {
    hide BookInv, WantedStop, RNow, Risk, Modify, ClosePosition, Descends, Mid;
    SelfDescends(env, checked, p);
    CloseMoves(env, s, p);
    if p.stopLoss != 0.0 && Risk(p) > 0.0 && Improves(p.direction, WantedStop(cfg, p, close), p.stopLoss) {
      ModifyMoves(env, cfg, checked, s, p, close);
    }
  }

  ghost predicate DistinctTickets(positions: seq<Position>) {
    forall i, j :: 0 <= i < j < |positions| ==> positions[i].ticket != positions[j].ticket
  }

  lemma {:induction false} ManageListedMoves(env: Env, cfgs: int -> Config, checked: bool, s: Sim,
      listed: seq<Position>, rest: seq<Position>, close: real)
    requires ValidSpec(env.spec) && BookInv(env, s) && listed + rest == s.positions
    requires checked ==> Checked(cfgs, s, close)
    ensures var r := ManageListed(env, cfgs, s, listed, close);
            BookInv(env, r) && Faithful(r, rest) && AllDescend(env, checked, s.positions, r) && Mid(r) == Mid(s)
  {
    hide ManageTicket, BookInv, Faithful, AllDescend, OneMoved, Mid;
    if listed == [] {
      assert rest == s.positions;
      NothingMoved(env, checked, s);
    } else {
      var n := |listed| - 1;
      var p := listed[n];
      assert listed[..n] + ([p] + rest) == s.positions;
      ManageListedMoves(env, cfgs, checked, s, listed[..n], [p] + rest, close);
      var t := ManageListed(env, cfgs, s, listed[..n], close);
      ListedHead(env, s, t, p, n, rest);
      ManageTicketMoves(env, cfgs(p.ticket), checked, t, p, close);
      ListedStep(env, checked, s.positions, t, ManageTicket(env, cfgs(p.ticket), t, p, close), p, n, rest);
    }
  }

  lemma NothingMoved(env: Env, checked: bool, s: Sim)
    requires ValidSpec(env.spec) && BookInv(env, s)
    ensures Faithful(s, s.positions) && AllDescend(env, checked, s.positions, s)
  {
    hide StopInv, Descends, Loosable, RoundsBack;
    forall i | 0 <= i < |s.positions|
      ensures HasAncestor(env, checked, s.positions, s.positions[i])
    {
      SelfDescends(env, checked, s.positions[i]);
    }
  }

  lemma ListedHead(env: Env, s: Sim, t: Sim, p: Position, n: nat, rest: seq<Position>)
    requires ValidSpec(env.spec) && BookInv(env, s) && Faithful(t, [p] + rest)
    requires n < |s.positions| && s.positions[n] == p && s.positions[n + 1..] == rest
    ensures DistinctTickets(s.positions)
    ensures forall i :: 0 <= i < |t.positions| && t.positions[i].ticket == p.ticket ==> t.positions[i] == p
  {
    assert ([p] + rest)[0] == p;
  }

  lemma ListedStep(env: Env, checked: bool, all: seq<Position>, t: Sim, r: Sim, p: Position, n: nat,
      rest: seq<Position>)
    requires ValidSpec(env.spec) && n < |all| && all[n] == p && all[n + 1..] == rest && DistinctTickets(all)
    requires Faithful(t, [p] + rest) && AllDescend(env, checked, all, t) && OneMoved(env, checked, t, r, p)
    ensures Faithful(r, rest) && AllDescend(env, checked, all, r)
  {
    hide Descends;
    forall i, j | 0 <= i < |r.positions| && 0 <= j < |rest| && r.positions[i].ticket == rest[j].ticket
      ensures r.positions[i] == rest[j]
    {
      assert rest[j] == all[n + 1 + j] && ([p] + rest)[j + 1] == rest[j];
      assert r.positions[i] in t.positions;
    }
    forall i | 0 <= i < |r.positions|
      ensures HasAncestor(env, checked, all, r.positions[i])
    {
      if r.positions[i].ticket == p.ticket {
        assert Descends(env, checked, all[n], r.positions[i]);
      } else {
        var k :| 0 <= k < |t.positions| && t.positions[k] == r.positions[i];
        assert HasAncestor(env, checked, all, t.positions[k]);
      }
    }
  }

  /** One management cycle of the backtester over any book: every position left is one that was
      open, with at most its stop moved; a stop is loosened only from inside the half unit next to
      its looser grid point, so never from the grid, and under valid settings and the broker's own
      price only where it is loosable, stops level included. */
  lemma CycleRatchets(env: Env, cfgs: int -> Config, s: Sim, close: real)
    requires ValidSpec(env.spec) && BookInv(env, s)
    ensures var r := ManageAll(env, cfgs, s, close);
            BookInv(env, r) && AllDescend(env, Checked(cfgs, s, close), s.positions, r)
  {
    hide BookInv, AllDescend, Checked;
    assert s.positions + [] == s.positions;
    ManageListedMoves(env, cfgs, Checked(cfgs, s, close), s, s.positions, [], close);
  }

  // ---------------------------------------------------------------- exactly when a cycle loosens

  // A cycle over a book of this position alone, at the bar the broker shows, loosens its stop.
  ghost predicate Loosens(env: Env, cfg: Config, s: Sim, p: Position)
    requires ValidSpec(env.spec)
  {
    && cfg.Valid() && s.positions == [p]
    && var r := ManageAll(env, _ => cfg, s, Mid(s)).positions;
       r != [] && !Tighter(p.direction, r[0].stopLoss, p.stopLoss)
  }

  lemma AloneStep(env: Env, cfg: Config, s: Sim, p: Position)
    requires ValidSpec(env.spec) && s.positions == [p]
    ensures ManageAll(env, _ => cfg, s, Mid(s)) == ManageTicket(env, cfg, s, p, Mid(s))
  {
    var cfgs: int -> Config := _ => cfg;
    assert [p][..0] == [];
    assert ManageListed(env, cfgs, s, [], Mid(s)) == s;
  }

  lemma ModifyAlone(env: Env, s: Sim, p: Position, stop: real)
    requires ValidSpec(env.spec) && s.positions == [p]
    ensures Modify(env, s, p.ticket, Some(stop), None).0.positions
            == if Abs(Mid(s) - stop) < env.spec.stopsLevel - TOLERANCE then [p]
               else [p.(stopLoss := NormalizePrice(stop, env.spec.unit))]
  {
    hide Abs, NormalizePrice;
    assert IndexOf([p], p.ticket) == 0;
  }

  lemma CloseAlone(env: Env, s: Sim, p: Position)
    requires s.positions == [p]
    ensures ClosePosition(env, s, p.ticket, None).0.positions == []
  {
    hide QuoteOf, TradeOf, Fee;
    assert IndexOf([p], p.ticket) == 0;
  }

  lemma LoosensOnlyThen(env: Env, cfg: Config, s: Sim, p: Position)
    requires ValidSpec(env.spec) && Loosens(env, cfg, s, p)
    ensures Loosable(env, p)
  {
    hide NormalizePrice, RoundsBack, WantedStop, Modify, ClosePosition, RNow, ManageAll, Abs;
    AloneStep(env, cfg, s, p);
    CloseAlone(env, s, p);
    var stop := WantedStop(cfg, p, Mid(s));
    ModifyAlone(env, s, p, stop);
    WantedLoosens(env, cfg, p, Mid(s));
  }

  // A book of one position, seen at a price.
  function AloneAt(p: Position, close: real): Sim {
    Sim(0.0, [p], p.ticket + 1, [], 0, Some(Bar(0, close, close, close, close, 0, 0.0)), 0.0)
  }

  // A wanted stop that improves, clears the stops level and rounds past the stop is a loosening.
  lemma LoosensBy(env: Env, cfg: Config, p: Position, close: real, stop: real)
    requires ValidSpec(env.spec) && cfg.Valid() && p.stopLoss != 0.0 && Risk(p) > 0.0 && cfg.timeLimit == 0
    requires (cfg.trailEnabled || RNow(p, close) >= cfg.breakEvenAtR) && WantedStop(cfg, p, close) == stop
    requires Improves(p.direction, stop, p.stopLoss) && Abs(close - stop) >= env.spec.stopsLevel - TOLERANCE
    requires !Tighter(p.direction, NormalizePrice(stop, env.spec.unit), p.stopLoss)
    ensures Loosens(env, cfg, AloneAt(p, close), p)
  {
    hide NormalizePrice, WantedStop, Modify, RNow, ManageAll, Abs;
    var s := AloneAt(p, close);
    AloneStep(env, cfg, s, p);
    ModifyAlone(env, s, p, stop);
  }

  lemma TrailLoosens(env: Env, p: Position) returns (cfg: Config, close: real)
    requires ValidSpec(env.spec) && p.stopLoss != 0.0 && Risk(p) > 0.0
    requires RoundsBack(p.direction, p.stopLoss, env.spec.unit, 0.0) && Risk(p) >= env.spec.stopsLevel - TOLERANCE
    ensures Loosens(env, cfg, AloneAt(p, close), p)
  {
    hide NormalizePrice, RoundsBack;
    var level := BackLevel(p.direction, p.stopLoss, env.spec.unit, 0.0);
    close := if p.direction == Long then level + Risk(p) else level - Risk(p);
    var r := RNow(p, close);
    ProfitIsPositive((close - p.entry) * p.direction.Sign(), Risk(p));
    cfg := Config(r + 1.0, 0.0, true, r, 0.0, 0);
    LoosensBy(env, cfg, p, close, level);
  }

  lemma ProfitIsPositive(gain: real, risk: real)
    requires gain > 0.0 && risk > 0.0
    ensures gain / risk > 0.0
  {
  }

  lemma BreakEvenLoosens(env: Env, p: Position) returns (cfg: Config, close: real)
    requires ValidSpec(env.spec) && p.stopLoss != 0.0 && Risk(p) > 0.0
    requires RoundsBack(p.direction, p.stopLoss, env.spec.unit, 0.0)
    requires !Tighter(p.direction, NormalizePrice(p.entry, env.spec.unit), p.stopLoss)
    ensures Loosens(env, cfg, AloneAt(p, close), p)
  {
    hide NormalizePrice, RoundsBack, Abs, WantedStop;
    var d, level := p.direction, p.entry;
    if !Improves(d, p.entry, p.stopLoss) {
      level := BackLevel(d, p.stopLoss, env.spec.unit, 0.0);
    }
    EntryBeside(p, level);
    var offset := (level - p.entry) * d.Sign() / Risk(p);
    close := FarClose(p, level, env.spec.stopsLevel);
    cfg := Config(1.0, offset, false, 1.0, 0.0, 0);
    BreakEvenWanted(cfg, p, close, level);
    LoosensBy(env, cfg, p, close, level);
  }

  // A level that improves is no looser than the entry, or the entry improves too.
  lemma EntryBeside(p: Position, level: real)
    requires Risk(p) > 0.0 && Improves(p.direction, level, p.stopLoss)
    requires Improves(p.direction, p.entry, p.stopLoss) ==> level == p.entry
    ensures (level - p.entry) * p.direction.Sign() >= 0.0
    ensures (level - p.entry) * p.direction.Sign() / Risk(p) >= 0.0
  {
  }

  lemma FarClose(p: Position, level: real, margin: real) returns (close: real)
    requires Risk(p) > 0.0
    ensures RNow(p, close) >= 1.0 && Abs(close - level) >= margin
  {
    var risk := Risk(p);
    var reach := risk + Abs(p.entry - level) + Abs(margin);
    close := if p.direction == Long then p.entry + reach else p.entry - reach;
    assert (close - p.entry) * p.direction.Sign() == reach;
    assert RNow(p, close) == reach / risk;
    SelfRatio(risk);
    DivMonotone(risk, reach, risk);
  }

  lemma BreakEvenWanted(cfg: Config, p: Position, close: real, level: real)
    requires Risk(p) > 0.0 && !cfg.trailEnabled && RNow(p, close) >= cfg.breakEvenAtR
    requires cfg.breakEvenOffsetR == (level - p.entry) * p.direction.Sign() / Risk(p)
    requires Improves(p.direction, level, p.stopLoss)
    ensures WantedStop(cfg, p, close) == level
  {
    hide RNow;
    QuotientTimes((level - p.entry) * p.direction.Sign(), Risk(p));
    assert cfg.breakEvenOffsetR * Risk(p) == (level - p.entry) * p.direction.Sign();
  }

  /** A management cycle can loosen a stop, against the promise never to widen, exactly under that
      condition: some valid configuration and some book in which it happens exist if and only if
      the position is loosable.  Without a stops level that is just the half unit. */
  lemma LoosenedExactlyWhen(env: Env, p: Position)
    requires ValidSpec(env.spec)
    ensures (exists cfg, s :: Loosens(env, cfg, s, p)) <==> Loosable(env, p)
    ensures env.spec.stopsLevel == 0.0 ==>
              (Loosable(env, p) <==> p.stopLoss != 0.0 && Risk(p) > 0.0
                                     && RoundsBack(p.direction, p.stopLoss, env.spec.unit, 0.0))
  {
    hide Loosens, RoundsBack, NormalizePrice;
    if Loosable(env, p) {
      var cfg, close;
      if Risk(p) >= env.spec.stopsLevel - TOLERANCE {
        cfg, close := TrailLoosens(env, p);
      } else {
        cfg, close := BreakEvenLoosens(env, p);
      }
      assert Loosens(env, cfg, AloneAt(p, close), p);
    }
    if cfg, s :| Loosens(env, cfg, s, p) {
      LoosensOnlyThen(env, cfg, s, p);
    }
  }

  // A long from 20 with its stop at 10.4 on a grid of whole units: a trail to 10.45 stores 10.
  lemma LoosenedWitness(env: Env, p: Position)
    requires ValidSpec(env.spec) && env.spec.unit == 1.0 && env.spec.stopsLevel == 0.0
    requires p.direction == Long && p.entry == 20.0 && p.stopLoss == p.initialSl == 10.4
    ensures var cfg := Config(1.0, 0.0, true, 0.005, 0.0, 0);
            && cfg.Valid()
            && ManageAll(env, _ => cfg, AloneAt(p, 20.05), 20.05).positions == [p.(stopLoss := 10.0)]
  {
    var cfg := Config(1.0, 0.0, true, 0.005, 0.0, 0);
    var s := AloneAt(p, 20.05);
    AloneStep(env, cfg, s, p);
    assert Risk(p) == 9.6;
    assert 0.005 <= 0.05 / 9.6 < 1.0;
    assert WantedStop(cfg, p, 20.05) == 10.45;
    ModifyAlone(env, s, p, 10.45);
    assert 10.45 / 1.0 == 10.45;
    assert RoundEven(10.45) == 10;
  }

  // ---------------------------------------------------------------- whole backtests

  datatype Event = BrokerOp(op: Op) | ManageOp(cfgs: int -> Config, close: real)

  function Backtest(env: Env, start: real, events: seq<Event>): Sim
    requires ValidSpec(env.spec)
  {
    if events == [] then Start(env, start)
    else
      var s := Backtest(env, start, events[..|events| - 1]);
      match events[|events| - 1]
      case BrokerOp(op) => Apply(env, s, op)
      case ManageOp(cfgs, close) => ManageAll(env, cfgs, s, close)
  }

  // The backtester modifies stops in `_manage` only.
  ghost predicate OnlyManageModifies(events: seq<Event>) {
    forall i :: 0 <= i < |events| && events[i].BrokerOp? ==> !events[i].op.OpModify?
  }

  lemma CloseKeepsStops(env: Env, s: Sim, i: nat, price: real, reason: ExitReason, ts: int, volume: Option<int>)
    requires ValidSpec(env.spec) && BookInv(env, s) && i < |s.positions|
    ensures BookInv(env, CloseAt(env, s, i, price, reason, ts, volume))
    ensures volume == None ==> |CloseAt(env, s, i, price, reason, ts, volume).positions| == |s.positions| - 1
  {
    hide NormalizePrice, OnGrid, TradeOf, Fee;
    var vol := VolumeToClose(s.positions[i], volume);
    var rest := Remainder(s.positions[i], vol);
    assert StopInv(env, s.positions[i]);
    forall q | q in rest
      ensures StopInv(env, q) && q.ticket == s.positions[i].ticket
    {
    }
    var r := s.positions[..i] + rest + s.positions[i + 1..];
    var n := |rest|;
    forall j | 0 <= j < |r|
      ensures StopInv(env, r[j]) && r[j].ticket == s.positions[if j < i + n then j else j + 1 - n].ticket
    {
      if i <= j < i + n {
        assert r[j] in rest;
      } else {
        assert r[j] == s.positions[if j < i then j else j + 1 - n];
      }
    }
  }

  lemma AgeKeepsStops(env: Env, s: Sim, i: nat, bar: Bar)
    requires ValidSpec(env.spec) && BookInv(env, s) && i < |s.positions|
    ensures BookInv(env, s.(positions := s.positions[i := Excursions(s.positions[i], bar)]))
  {
    hide NormalizePrice, OnGrid, Max;
    assert StopInv(env, s.positions[i]);
    assert StopInv(env, Excursions(s.positions[i], bar));
  }

  lemma {:induction false} StepKeepsStops(env: Env, s: Sim, from: nat, bar: Bar, m1: seq<Bar>, slip: int -> real)
    requires ValidSpec(env.spec) && BookInv(env, s) && from <= |s.positions|
    ensures BookInv(env, StepFrom(env, s, from, bar, m1, slip))
    decreases |s.positions| - from
  {
    hide BookInv, Resolve, CloseAt;
    if from < |s.positions| {
      AgeKeepsStops(env, s, from, bar);
      var p := Excursions(s.positions[from], bar);
      var t := s.(positions := s.positions[from := p]);
      match Resolve(env, p, bar, m1, slip(p.ticket))
      case Stay => StepKeepsStops(env, t, from + 1, bar, m1, slip);
      case Exit(price, reason) =>
        CloseKeepsStops(env, t, from, price, reason, bar.ts, None);
        StepKeepsStops(env, CloseAt(env, t, from, price, reason, bar.ts, None), from, bar, m1, slip);
    }
  }

  lemma {:induction false} CloseAllKeepsStops(env: Env, s: Sim, reason: ExitReason)
    requires ValidSpec(env.spec) && BookInv(env, s)
    ensures BookInv(env, CloseAll(env, s, reason))
    decreases |s.positions|
  {
    hide BookInv, CloseAt;
    if s.positions != [] {
      var price := QuoteOf(env, s).ExitPriceFor(s.positions[0].direction);
      CloseKeepsStops(env, s, 0, price, reason, s.now, None);
      CloseAllKeepsStops(env, CloseAt(env, s, 0, price, reason, s.now, None), reason);
    }
  }

  lemma SendKeepsStops(env: Env, s: Sim, req: Request, slip: real)
    requires ValidSpec(env.spec) && BookInv(env, s)
    ensures BookInv(env, Send(env, s, req, slip).0)
  {
    hide FillPrice, NormalizeVolume, FreeMargin, QuoteOf, MarginFor, NormalizePrice, OnGrid, Fee;
  }

  lemma ApplyKeepsStops(env: Env, s: Sim, op: Op)
    requires ValidSpec(env.spec) && BookInv(env, s) && !op.OpModify?
    ensures BookInv(env, Apply(env, s, op))
  {
    hide StopInv, CloseAt, Modify, Send;
    match op
    case OpTime(now, bar, spread) =>
    case OpSend(req, slip) => SendKeepsStops(env, s, req, slip);
    case OpClose(ticket, volume) =>
      var i := IndexOf(s.positions, ticket);
      if i < |s.positions| {
        CloseKeepsStops(env, s, i, QuoteOf(env, s).ExitPriceFor(s.positions[i].direction), Manual, s.now, volume);
      }
    case OpStep(bar, m1, slips) =>
      StepKeepsStops(env, s.(bar := Some(bar), spreadPoints := Spread(env, bar)), 0, bar, m1, slips);
    case OpCloseAll(reason) => CloseAllKeepsStops(env, s, reason);
  }

  lemma {:induction false} BacktestKeepsStops(env: Env, start: real, events: seq<Event>)
    requires ValidSpec(env.spec) && OnlyManageModifies(events)
    ensures BookInv(env, Backtest(env, start, events))
  {
    hide Apply, ManageAll, StopInv;
    if events != [] {
      var s := Backtest(env, start, events[..|events| - 1]);
      BacktestKeepsStops(env, start, events[..|events| - 1]);
      match events[|events| - 1]
      case BrokerOp(op) => ApplyKeepsStops(env, s, op);
      case ManageOp(cfgs, close) => CycleRatchets(env, cfgs, s, close);
    }
  }

  /** Over any backtest, an open position's stop is never looser than its initial one by more
      than half a quote unit in total, and never looser at all when the initial one is on the grid. */
  lemma LoosenedAtMostHalfAUnit(env: Env, start: real, events: seq<Event>, p: Position)
    requires ValidSpec(env.spec) && OnlyManageModifies(events)
    requires p in Backtest(env, start, events).positions
    ensures Tighter(p.direction, p.stopLoss, p.initialSl - 0.5 * env.spec.unit * p.direction.Sign())
    ensures OnGrid(p.initialSl, env.spec.unit) ==> Tighter(p.direction, p.stopLoss, p.initialSl)
  {
    hide Backtest, NormalizePrice, OnGrid;
    BacktestKeepsStops(env, start, events);
    assert StopInv(env, p);
    NormalizeError(p.initialSl, env.spec.unit);
    NormalizeFixesGrid(p.initialSl, env.spec.unit);
  }

  // ---------------------------------------------------------------- what a backtest reports

  // The backtester closes positions whole: on time-outs here, on stops and targets, and at the end.
  ghost predicate ClosesWhole(events: seq<Event>) {
    forall i :: 0 <= i < |events| && events[i].BrokerOp? && events[i].op.OpClose? ==> events[i].op.volume == None
  }

  lemma PushOp(env: Env, start: real, ops: seq<Op>, op: Op)
    requires ValidSpec(env.spec) && SimLedger.FullCloses(ops) && (op.OpClose? ==> op.volume == None)
    ensures Run(env, start, ops + [op]) == Apply(env, Run(env, start, ops), op)
    ensures SimLedger.FullCloses(ops + [op])
  {
    hide Run, Apply;
    SimLedger.RunPush(env, start, ops, op);
  }

  // A management cycle is a run of broker operations.
  lemma {:induction false} ListedIsRun(env: Env, start: real, ops: seq<Op>, cfgs: int -> Config,
      listed: seq<Position>, close: real) returns (all: seq<Op>)
    requires ValidSpec(env.spec) && SimLedger.FullCloses(ops)
    ensures Run(env, start, all) == ManageListed(env, cfgs, Run(env, start, ops), listed, close)
    ensures SimLedger.FullCloses(all)
  {
    hide Run, Modify, ClosePosition, TimedOut, RNow, WantedStop, SimLedger.FullCloses;
    all := ops;
    if listed != [] {
      var n := |listed| - 1;
      var p, cfg := listed[n], cfgs(listed[n].ticket);
      all := ListedIsRun(env, start, ops, cfgs, listed[..n], close);
      var exit, move := OpClose(p.ticket, None), OpModify(p.ticket, Some(WantedStop(cfg, p, close)), None);
      PushOp(env, start, all, exit);
      PushOp(env, start, all, move);
      var s := Run(env, start, all);
      all := if ManageTicket(env, cfg, s, p, close) == s then all
             else if ManageTicket(env, cfg, s, p, close) == Apply(env, s, move) then all + [move] else all + [exit];
    }
  }

  lemma {:induction false} BacktestIsRun(env: Env, start: real, events: seq<Event>) returns (ops: seq<Op>)
    requires ValidSpec(env.spec) && ClosesWhole(events)
    ensures Run(env, start, ops) == Backtest(env, start, events) && SimLedger.FullCloses(ops)
  {
    hide Apply, ManageListed, SimLedger.FullCloses, Start;
    ops := [];
    NothingRun(env, start);
    if events != [] {
      ops := BacktestIsRun(env, start, events[..|events| - 1]);
      match events[|events| - 1]
      case BrokerOp(op) =>
        PushOp(env, start, ops, op);
        ops := ops + [op];
      case ManageOp(cfgs, close) =>
        ops := ListedIsRun(env, start, ops, cfgs, Run(env, start, ops).positions, close);
    }
  }

  lemma NothingRun(env: Env, start: real)
    requires ValidSpec(env.spec)
    ensures Run(env, start, []) == Start(env, start) && SimLedger.FullCloses([])
  {
  }

  /** Over any backtest that ends flat, the net profits it reports add up to the change in balance. */
  lemma BacktestBalances(env: Env, start: real, events: seq<Event>)
    requires ValidSpec(env.spec) && env.fee >= 0.0 && ClosesWhole(events)
    requires Backtest(env, start, events).positions == []
    ensures var s := Backtest(env, start, events); SimLedger.SumNet(s.closed) == s.balance - start
  {
    hide Run, Backtest;
    var ops := BacktestIsRun(env, start, events);
    SimLedger.FullClosesBalance(env, start, ops);
  }
}
