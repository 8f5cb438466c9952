/** Money in the simulated broker over whole runs: conservation of the balance, and when the
    reported net profits add up to it. */
module SimLedger {
  import opened Domain
  import opened SimBroker

  function SumGross(closed: seq<Trade>): real {
    if closed == [] then 0.0 else SumGross(closed[..|closed| - 1]) + closed[|closed| - 1].gross
  }

  function ClosedVolume(closed: seq<Trade>): int {
    if closed == [] then 0 else ClosedVolume(closed[..|closed| - 1]) + closed[|closed| - 1].volume
  }

  function OpenVolume(positions: seq<Position>): int {
    if positions == [] then 0 else OpenVolume(positions[..|positions| - 1]) + positions[|positions| - 1].volume
  }

  lemma {:induction false} OpenVolumeAppend(a: seq<Position>, b: seq<Position>)
    ensures OpenVolume(a + b) == OpenVolume(a) + OpenVolume(b)
  {
    if b == [] {
      assert a + b == a;
    } else {
      assert (a + b)[..|a + b| - 1] == a + b[..|b| - 1];
      OpenVolumeAppend(a, b[..|b| - 1]);
    }
  }

  lemma OpenVolumeOne(p: Position)
    ensures OpenVolume([p]) == p.volume
  {
    assert [p][..0] == [];
  }

  lemma OpenVolumeSplit(positions: seq<Position>, i: nat, rest: seq<Position>)
    requires i < |positions|
    ensures OpenVolume(positions[..i] + rest + positions[i + 1..])
            == OpenVolume(positions) - positions[i].volume + OpenVolume(rest)
  {
    OpenVolumeAppend(positions[..i] + rest, positions[i + 1..]);
    OpenVolumeAppend(positions[..i], rest);
    assert positions == positions[..i] + [positions[i]] + positions[i + 1..];
    OpenVolumeAppend(positions[..i] + [positions[i]], positions[i + 1..]);
    OpenVolumeAppend(positions[..i], [positions[i]]);
    OpenVolumeOne(positions[i]);
  }

  // ---------------------------------------------------------------- conservation of money

  // Every step of volume pays the fee once when opened and once when closed.
  ghost predicate Conserved(env: Env, start: real, s: Sim) {
    s.balance == start + SumGross(s.closed) - Fee(env, OpenVolume(s.positions) + 2 * ClosedVolume(s.closed))
  }

  function Opened(s: Sim): int {
    OpenVolume(s.positions) + ClosedVolume(s.closed)
  }

  lemma CloseConserves(env: Env, start: real, s: Sim, i: nat, price: real, reason: ExitReason, ts: int,
      volume: Option<int>)
    requires i < |s.positions| && Conserved(env, start, s)
    ensures Conserved(env, start, CloseAt(env, s, i, price, reason, ts, volume))
    ensures Opened(CloseAt(env, s, i, price, reason, ts, volume)) == Opened(s)
  {
    hide TradeOf, Fee, SumGross, ClosedVolume, OpenVolume;
    var p := s.positions[i];
    var vol := VolumeToClose(p, volume);
    var trade, rest := TradeOf(env, p, price, reason, ts, vol), Remainder(p, vol);
    TradeVolume(env, p, price, reason, ts, vol);
    OpenVolumeSplit(s.positions, i, rest);
    if vol < p.volume {
      OpenVolumeOne(p.(volume := p.volume - vol));
    } else {
      NoVolume();
    }
    PushTrade(s.closed, trade);
    FeeSplit(env, OpenVolume(s.positions) + 2 * ClosedVolume(s.closed), vol);
  }

  lemma PushTrade(closed: seq<Trade>, t: Trade)
    ensures SumGross(closed + [t]) == SumGross(closed) + t.gross
    ensures ClosedVolume(closed + [t]) == ClosedVolume(closed) + t.volume
  {
    assert (closed + [t])[..|closed|] == closed;
  }

  lemma NoVolume()
    ensures OpenVolume([]) == 0
  {
  }

  lemma TradeVolume(env: Env, p: Position, price: real, reason: ExitReason, ts: int, vol: int)
    ensures TradeOf(env, p, price, reason, ts, vol).volume == vol
  {
  }

  lemma FeeSplit(env: Env, a: int, b: int)
    ensures Fee(env, a + b) == Fee(env, a) + Fee(env, b)
  {
  }

  // Rewriting stops, targets or excursions of one position.
  ghost predicate SameStake(p: Position, q: Position) {
    q.ticket == p.ticket && q.volume == p.volume && q.commissionPaid == p.commissionPaid && q.swap == p.swap
  }

  lemma TouchConserves(env: Env, start: real, s: Sim, i: nat, q: Position)
    requires i < |s.positions| && SameStake(s.positions[i], q) && Conserved(env, start, s)
    ensures Conserved(env, start, s.(positions := s.positions[i := q]))
    ensures Opened(s.(positions := s.positions[i := q])) == Opened(s)
  {
    OpenVolumeSplit(s.positions, i, [q]);
    OpenVolumeOne(q);
    assert s.positions[i := q] == s.positions[..i] + [q] + s.positions[i + 1..];
  }

  lemma {:induction false} StepConserves(
    env: Env, start: real, s: Sim, from: nat, bar: Bar, m1: seq<Bar>, slip: int -> real)
    requires from <= |s.positions| && Conserved(env, start, s)
    ensures Conserved(env, start, StepFrom(env, s, from, bar, m1, slip))
    ensures Opened(StepFrom(env, s, from, bar, m1, slip)) == Opened(s)
    decreases |s.positions| - from
  {
    hide Conserved, Opened, Resolve, CloseAt;
    if from < |s.positions| {
      var p := Excursions(s.positions[from], bar);
      TouchConserves(env, start, s, from, p);
      var t := s.(positions := s.positions[from := p]);
      match Resolve(env, p, bar, m1, slip(p.ticket))
      case Stay => StepConserves(env, start, t, from + 1, bar, m1, slip);
      case Exit(price, reason) =>
        CloseConserves(env, start, t, from, price, reason, bar.ts, None);
        CloseShape(env, t, from, price, reason, bar.ts);
        StepConserves(env, start, CloseAt(env, t, from, price, reason, bar.ts, None), from, bar, m1, slip);
    }
  }

  // A close without a volume removes the position.
  lemma CloseShape(env: Env, s: Sim, i: nat, price: real, reason: ExitReason, ts: int)
    requires i < |s.positions|
    ensures |CloseAt(env, s, i, price, reason, ts, None).positions| == |s.positions| - 1
  {
  }

  lemma {:induction false} CloseAllConserves(env: Env, start: real, s: Sim, reason: ExitReason)
    requires Conserved(env, start, s)
    ensures Conserved(env, start, CloseAll(env, s, reason)) && Opened(CloseAll(env, s, reason)) == Opened(s)
    ensures CloseAll(env, s, reason).positions == []
    decreases |s.positions|
  {
    hide Conserved, Opened, CloseAt;
    if s.positions != [] {
      var price := QuoteOf(env, s).ExitPriceFor(s.positions[0].direction);
      CloseConserves(env, start, s, 0, price, reason, s.now, None);
      CloseShape(env, s, 0, price, reason, s.now);
      CloseAllConserves(env, start, CloseAt(env, s, 0, price, reason, s.now, None), reason);
    }
  }

  // Volume filled by one operation.
  function Filled(env: Env, s: Sim, op: Op): int
    requires ValidSpec(env.spec)
  {
    match op
    case OpSend(req, slip) =>
      (match Send(env, s, req, slip).1
       case Accepted(_, _, volume) => volume
       case Rejected(_) => 0)
    case _ => 0
  }

  // A modification rewrites levels of one position, or nothing.
  lemma ModifyTouches(env: Env, s: Sim, ticket: int, sl: Option<real>, tp: Option<real>)
    requires ValidSpec(env.spec)
    ensures var t, i := Modify(env, s, ticket, sl, tp).0, IndexOf(s.positions, ticket);
            t == s || (i < |s.positions| && |t.positions| == |s.positions| && SameStake(s.positions[i], t.positions[i])
                       && t == s.(positions := s.positions[i := t.positions[i]]))
  {
    hide NormalizePrice;
  }

  lemma ApplyConserves(env: Env, start: real, s: Sim, op: Op)
    requires ValidSpec(env.spec) && Conserved(env, start, s)
    ensures Conserved(env, start, Apply(env, s, op))
    ensures Opened(Apply(env, s, op)) == Opened(s) + Filled(env, s, op)
  {
    hide Opened, Conserved, Fee, CloseAt, Modify, Send;
    match op
    case OpTime(now, bar, spread) => LedgerOnly(env, start, s, Apply(env, s, op));
    case OpSend(req, slip) =>
      var (t, reply) := Send(env, s, req, slip);
      SendShape(env, s, req, slip);
      if reply.Accepted? {
        FillConserves(env, start, s, t, t.positions[|s.positions|]);
      }
    case OpModify(ticket, sl, tp) =>
      var i := IndexOf(s.positions, ticket);
      var t := Modify(env, s, ticket, sl, tp).0;
      ModifyTouches(env, s, ticket, sl, tp);
      if t != s {
        TouchConserves(env, start, s, i, t.positions[i]);
      }
    case OpClose(ticket, volume) =>
      var i := IndexOf(s.positions, ticket);
      if i < |s.positions| {
        var price := QuoteOf(env, s).ExitPriceFor(s.positions[i].direction);
        CloseConserves(env, start, s, i, price, Manual, s.now, volume);
      }
    case OpStep(bar, m1, slips) =>
      var t := s.(bar := Some(bar), spreadPoints := Spread(env, bar));
      LedgerOnly(env, start, s, t);
      StepConserves(env, start, t, 0, bar, m1, slips);
    case OpCloseAll(reason) => CloseAllConserves(env, start, s, reason);
  }

  // The laws read only the balance and the two books.
  lemma LedgerOnly(env: Env, start: real, s: Sim, t: Sim)
    requires t.balance == s.balance && t.positions == s.positions && t.closed == s.closed
    ensures Conserved(env, start, t) == Conserved(env, start, s) && Opened(t) == Opened(s)
  {
  }

  // A fill adds one position and pays its entry fee; a refusal changes nothing.
  lemma SendShape(env: Env, s: Sim, req: Request, slip: real)
    requires ValidSpec(env.spec)
    ensures var (t, reply) := Send(env, s, req, slip);
            if reply.Accepted? then
              && |t.positions| == |s.positions| + 1 && t.positions[..|s.positions|] == s.positions
              && var p := t.positions[|s.positions|];
                 && p.volume == reply.volume && p.commissionPaid == Fee(env, reply.volume)
                 && t.positions == s.positions + [p]
                 && t == s.(nextTicket := s.nextTicket + 1, positions := t.positions,
                            balance := s.balance - p.commissionPaid)
            else t == s
  {
    hide FillPrice, NormalizeVolume, FreeMargin, QuoteOf, MarginFor, Fee;
  }

  lemma FillConserves(env: Env, start: real, s: Sim, t: Sim, p: Position)
    requires Conserved(env, start, s) && t.positions == s.positions + [p] && t.closed == s.closed
    requires t.balance == s.balance - Fee(env, p.volume)
    ensures Conserved(env, start, t) && Opened(t) == Opened(s) + p.volume
  {
    hide Fee, SumGross, ClosedVolume, OpenVolume;
    OpenVolumeAppend(s.positions, [p]);
    OpenVolumeOne(p);
    FeeSplit(env, OpenVolume(s.positions) + 2 * ClosedVolume(s.closed), p.volume);
  }

  function FilledVolume(env: Env, start: real, ops: seq<Op>): int
    requires ValidSpec(env.spec)
  {
    if ops == [] then 0
    else
      var before := ops[..|ops| - 1];
      FilledVolume(env, start, before) + Filled(env, Run(env, start, before), ops[|ops| - 1])
  }

  lemma {:induction false} RunConserves(env: Env, start: real, ops: seq<Op>)
    requires ValidSpec(env.spec)
    ensures Conserved(env, start, Run(env, start, ops))
    ensures Opened(Run(env, start, ops)) == FilledVolume(env, start, ops)
  {
    hide Apply, Filled;
    if ops != [] {
      RunConserves(env, start, ops[..|ops| - 1]);
      ApplyConserves(env, start, Run(env, start, ops[..|ops| - 1]), ops[|ops| - 1]);
    }
  }

  /** Money conservation.  After any sequence of operations the balance is the starting balance
      plus the gross of all closed trades minus the fee on all volume filled and all volume
      closed; and the volume filled is what is still open plus what was closed. */
  lemma MoneyConservation(env: Env, start: real, ops: seq<Op>)
    requires ValidSpec(env.spec)
    ensures var s := Run(env, start, ops);
            && s.balance == start + SumGross(s.closed)
                            - Fee(env, FilledVolume(env, start, ops) + ClosedVolume(s.closed))
            && FilledVolume(env, start, ops) == OpenVolume(s.positions) + ClosedVolume(s.closed)
  {
    hide Fee, Run, FilledVolume;
    RunConserves(env, start, ops);
  }

  // ---------------------------------------------------------------- reported net profit

  // ClosedTrade.net_pnl.
  function NetPnl(t: Trade): real {
    t.gross - Abs(t.commission) + t.swap
  }

  function SumNet(closed: seq<Trade>): real {
    if closed == [] then 0.0 else SumNet(closed[..|closed| - 1]) + NetPnl(closed[|closed| - 1])
  }

  ghost predicate Untraded(closed: seq<Trade>, ticket: int) {
    forall i :: 0 <= i < |closed| ==> closed[i].ticket != ticket
  }

  ghost predicate NoTicketTwice(closed: seq<Trade>) {
    forall i, j :: 0 <= i < j < |closed| ==> closed[i].ticket != closed[j].ticket
  }

  // A trade carries exactly the two fees of its volume when it is its position's first close;
  // a later close of the same position is charged more.
  ghost predicate FairlyCharged(env: Env, before: seq<Trade>, t: Trade) {
    && t.swap == 0.0 && t.commission >= Fee(env, t.volume) + Fee(env, t.volume) >= 0.0
    && (t.commission == Fee(env, t.volume) + Fee(env, t.volume) <==> env.fee == 0.0 || Untraded(before, t.ticket))
  }

  ghost predicate TradesInv(env: Env, closed: seq<Trade>, next: int) {
    && (forall i :: 0 <= i < |closed| ==> closed[i].ticket < next)
    && (forall i :: 0 <= i < |closed| ==> FairlyCharged(env, closed[..i], closed[i]))
  }

  // An open position still carries the fee it paid on entry, for all the volume it had then.
  ghost predicate StakeInv(env: Env, closed: seq<Trade>, p: Position) {
    && p.volume > 0 && p.swap == 0.0 && p.commissionPaid >= Fee(env, p.volume) >= 0.0
    && (p.commissionPaid == Fee(env, p.volume) <==> env.fee == 0.0 || Untraded(closed, p.ticket))
  }

  ghost predicate NetInv(env: Env, s: Sim) {
    && TradesInv(env, s.closed, s.nextTicket)
    && (forall i :: 0 <= i < |s.positions| ==>
            s.positions[i].ticket < s.nextTicket && StakeInv(env, s.closed, s.positions[i]))
    && (forall i, j :: 0 <= i < j < |s.positions| ==> s.positions[i].ticket != s.positions[j].ticket)
  }

  lemma FeeFacts(env: Env, a: int, b: int)
    requires env.fee >= 0.0 && 0 < a <= b
    ensures Fee(env, b) >= Fee(env, a) >= 0.0
    ensures Fee(env, a) == 0.0 <==> env.fee == 0.0
    ensures Fee(env, a) == Fee(env, b) <==> env.fee == 0.0 || a == b
  {
    FeeSplit(env, a, b - a);
    assert a < b ==> (Fee(env, b - a) == 0.0 <==> env.fee == 0.0);
  }

  // The entry fee a close takes over is in proportion to the volume it closes.
  lemma SharedFee(env: Env, paid: real, vol: int, whole: int)
    requires env.fee >= 0.0 && 0 < vol <= whole && paid >= Fee(env, whole)
    ensures var share := paid * (vol as real / whole as real);
            share >= Fee(env, vol) && (share == Fee(env, vol) <==> paid == Fee(env, whole))
  {
    var portion := vol as real / whole as real;
    assert portion > 0.0 && portion * whole as real == vol as real;
    assert Fee(env, whole) * portion == Fee(env, vol) by {
      assert Fee(env, whole) * portion == env.fee * (portion * whole as real);
    }
    assert paid * portion == Fee(env, whole) * portion + (paid - Fee(env, whole)) * portion;
    assert paid > Fee(env, whole) ==> (paid - Fee(env, whole)) * portion > 0.0;
  }

  lemma CloseCharges(env: Env, closed: seq<Trade>, p: Position, price: real, reason: ExitReason, ts: int, vol: int)
    requires env.fee >= 0.0 && StakeInv(env, closed, p) && 0 < vol <= p.volume
    ensures var t := TradeOf(env, p, price, reason, ts, vol);
            && t.ticket == p.ticket && t.volume == vol && FairlyCharged(env, closed, t)
            && (vol < p.volume ==> StakeInv(env, closed + [t], p.(volume := p.volume - vol)))
  {
    hide Money, Untraded, Abs;
    var t := TradeOf(env, p, price, reason, ts, vol);
    SharedFee(env, p.commissionPaid, vol, p.volume);
    FeeFacts(env, vol, p.volume);
    if vol < p.volume {
      FeeFacts(env, p.volume - vol, p.volume);
      TradedNow(closed, t);
    }
  }

  lemma TradedNow(closed: seq<Trade>, t: Trade)
    ensures !Untraded(closed + [t], t.ticket)
  {
    assert (closed + [t])[|closed|] == t;
  }

  lemma OthersUntraded(env: Env, closed: seq<Trade>, t: Trade, p: Position)
    requires StakeInv(env, closed, p) && p.ticket != t.ticket
    ensures StakeInv(env, closed + [t], p)
  {
    hide Fee;
    assert forall i :: 0 <= i < |closed| ==> (closed + [t])[i] == closed[i];
  }

  lemma TradesInvPush(env: Env, closed: seq<Trade>, next: int, t: Trade)
    requires TradesInv(env, closed, next) && t.ticket < next && FairlyCharged(env, closed, t)
    ensures TradesInv(env, closed + [t], next)
  {
    hide FairlyCharged;
    var all := closed + [t];
    forall i | 0 <= i < |all|
      ensures FairlyCharged(env, all[..i], all[i])
    {
      assert i < |closed| ==> all[..i] == closed[..i];
      assert i == |closed| ==> all[..i] == closed;
    }
  }

  lemma CloseKeepsNet(env: Env, s: Sim, i: nat, price: real, reason: ExitReason, ts: int, volume: Option<int>)
    requires i < |s.positions| && env.fee >= 0.0 && NetInv(env, s) && (volume.Some? ==> volume.value >= 0)
    ensures NetInv(env, CloseAt(env, s, i, price, reason, ts, volume))
  {
    hide TradeOf, TradesInv, StakeInv, FairlyCharged;
    var p := s.positions[i];
    var vol := VolumeToClose(p, volume);
    var t, r := TradeOf(env, p, price, reason, ts, vol), CloseAt(env, s, i, price, reason, ts, volume);
    StakeVolume(env, s.closed, p);
    CloseCharges(env, s.closed, p, price, reason, ts, vol);
    TradesInvPush(env, s.closed, s.nextTicket, t);
    forall j | 0 <= j < |s.positions| && j != i
      ensures StakeInv(env, s.closed + [t], s.positions[j])
    {
      OthersUntraded(env, s.closed, t, s.positions[j]);
    }
    var n := |Remainder(p, vol)|;
    assert forall j :: 0 <= j < i ==> r.positions[j] == s.positions[j];
    assert forall j :: i + n <= j < |r.positions| ==> r.positions[j] == s.positions[j + 1 - n];
  }

  lemma StakeVolume(env: Env, closed: seq<Trade>, p: Position)
    requires StakeInv(env, closed, p)
    ensures p.volume > 0
  {
  }

  lemma TouchKeepsNet(env: Env, s: Sim, i: nat, q: Position)
    requires i < |s.positions| && SameStake(s.positions[i], q) && NetInv(env, s)
    ensures NetInv(env, s.(positions := s.positions[i := q]))
  {
    hide TradesInv, Untraded, Fee;
    assert StakeInv(env, s.closed, s.positions[i]);
  }

  lemma {:induction false} StepKeepsNet(
    env: Env, s: Sim, from: nat, bar: Bar, m1: seq<Bar>, slip: int -> real)
    requires from <= |s.positions| && env.fee >= 0.0 && NetInv(env, s)
    ensures NetInv(env, StepFrom(env, s, from, bar, m1, slip))
    decreases |s.positions| - from
  {
    hide NetInv, Resolve, CloseAt;
    if from < |s.positions| {
      var p := Excursions(s.positions[from], bar);
      TouchKeepsNet(env, s, from, p);
      var t := s.(positions := s.positions[from := p]);
      match Resolve(env, p, bar, m1, slip(p.ticket))
      case Stay => StepKeepsNet(env, t, from + 1, bar, m1, slip);
      case Exit(price, reason) =>
        CloseKeepsNet(env, t, from, price, reason, bar.ts, None);
        CloseShape(env, t, from, price, reason, bar.ts);
        StepKeepsNet(env, CloseAt(env, t, from, price, reason, bar.ts, None), from, bar, m1, slip);
    }
  }

  lemma {:induction false} CloseAllKeepsNet(env: Env, s: Sim, reason: ExitReason)
    requires env.fee >= 0.0 && NetInv(env, s)
    ensures NetInv(env, CloseAll(env, s, reason))
    decreases |s.positions|
  {
    hide NetInv, CloseAt;
    if s.positions != [] {
      var price := QuoteOf(env, s).ExitPriceFor(s.positions[0].direction);
      CloseKeepsNet(env, s, 0, price, reason, s.now, None);
      CloseShape(env, s, 0, price, reason, s.now);
      CloseAllKeepsNet(env, CloseAt(env, s, 0, price, reason, s.now, None), reason);
    }
  }

  lemma SendKeepsNet(env: Env, s: Sim, req: Request, slip: real)
    requires ValidSpec(env.spec) && env.fee >= 0.0 && NetInv(env, s)
    ensures NetInv(env, Send(env, s, req, slip).0)
  {
    hide FillPrice, NormalizeVolume, FreeMargin, QuoteOf, MarginFor, TradesInv, StakeInv;
    var (t, reply) := Send(env, s, req, slip);
    if reply.Accepted? {
      var p := t.positions[|s.positions|];
      assert t.positions == s.positions + [p];
      FeeFacts(env, reply.volume, reply.volume);
      NewStake(env, s, p);
      TradesInvGrow(env, s.closed, s.nextTicket);
    }
  }

  lemma NewStake(env: Env, s: Sim, p: Position)
    requires TradesInv(env, s.closed, s.nextTicket) && p.ticket == s.nextTicket
    requires p.volume > 0 && p.swap == 0.0 && p.commissionPaid == Fee(env, p.volume) >= 0.0
    ensures StakeInv(env, s.closed, p)
  {
    hide FairlyCharged, Fee;
  }

  lemma TradesInvGrow(env: Env, closed: seq<Trade>, next: int)
    requires TradesInv(env, closed, next)
    ensures TradesInv(env, closed, next + 1)
  {
    hide FairlyCharged;
  }

  ghost predicate ClosesPositiveVolumes(ops: seq<Op>) {
    forall i :: 0 <= i < |ops| && ops[i].OpClose? && ops[i].volume.Some? ==> ops[i].volume.value >= 0
  }

  lemma ApplyKeepsNet(env: Env, s: Sim, op: Op)
    requires ValidSpec(env.spec) && env.fee >= 0.0 && NetInv(env, s)
    requires op.OpClose? && op.volume.Some? ==> op.volume.value >= 0
    ensures NetInv(env, Apply(env, s, op))
  {
    hide TradesInv, StakeInv, CloseAt, Modify;
    match op
    case OpTime(now, bar, spread) =>
    case OpSend(req, slip) => SendKeepsNet(env, s, req, slip);
    case OpModify(ticket, sl, tp) =>
      var i := IndexOf(s.positions, ticket);
      var t := Modify(env, s, ticket, sl, tp).0;
      ModifyTouches(env, s, ticket, sl, tp);
      if t != s {
        TouchKeepsNet(env, s, i, t.positions[i]);
      }
    case OpClose(ticket, volume) =>
      var i := IndexOf(s.positions, ticket);
      if i < |s.positions| {
        CloseKeepsNet(env, s, i, QuoteOf(env, s).ExitPriceFor(s.positions[i].direction), Manual, s.now, volume);
      }
    case OpStep(bar, m1, slips) =>
      StepKeepsNet(env, s.(bar := Some(bar), spreadPoints := Spread(env, bar)), 0, bar, m1, slips);
    case OpCloseAll(reason) => CloseAllKeepsNet(env, s, reason);
  }

  lemma {:induction false} RunKeepsNet(env: Env, start: real, ops: seq<Op>)
    requires ValidSpec(env.spec) && env.fee >= 0.0 && ClosesPositiveVolumes(ops)
    ensures NetInv(env, Run(env, start, ops))
  {
    if ops != [] {
      hide Apply;
      RunKeepsNet(env, start, ops[..|ops| - 1]);
      ApplyKeepsNet(env, Run(env, start, ops[..|ops| - 1]), ops[|ops| - 1]);
    }
  }

  lemma NoTicketTwicePush(before: seq<Trade>, t: Trade)
    ensures NoTicketTwice(before + [t]) <==> NoTicketTwice(before) && Untraded(before, t.ticket)
  {
    var all := before + [t];
    assert all[|before|] == t;
    assert forall i :: 0 <= i < |before| ==> all[i] == before[i];
  }

  lemma ShortfallPush(env: Env, before: seq<Trade>, t: Trade)
    requires FairlyCharged(env, before, t)
    ensures var all := before + [t];
            SumNet(all) - (SumGross(all) - Fee(env, 2 * ClosedVolume(all)))
            == SumNet(before) - (SumGross(before) - Fee(env, 2 * ClosedVolume(before)))
               - (t.commission - Fee(env, t.volume) - Fee(env, t.volume))
  {
    hide Fee, SumGross, ClosedVolume;
    PushTrade(before, t);
    assert (before + [t])[..|before|] == before;
    FeeSplit(env, 2 * ClosedVolume(before), 2 * t.volume);
    FeeSplit(env, t.volume, t.volume);
  }

  // The excess charged over two fees per volume is what the net profits fall short of the money.
  lemma {:induction false} NetShortfall(env: Env, closed: seq<Trade>, next: int)
    requires TradesInv(env, closed, next)
    ensures SumNet(closed) <= SumGross(closed) - Fee(env, 2 * ClosedVolume(closed))
    ensures SumNet(closed) == SumGross(closed) - Fee(env, 2 * ClosedVolume(closed))
            <==> env.fee == 0.0 || NoTicketTwice(closed)
  {
    if closed != [] {
      hide Fee, NoTicketTwice, Untraded, SumNet, SumGross, ClosedVolume;
      var n := |closed| - 1;
      var before, t := closed[..n], closed[n];
      assert closed == before + [t];
      TradesInvFront(env, closed, next);
      NetShortfall(env, before, next);
      ShortfallPush(env, before, t);
      NoTicketTwicePush(before, t);
    }
  }

  lemma TradesInvFront(env: Env, closed: seq<Trade>, next: int)
    requires TradesInv(env, closed, next) && closed != []
    ensures TradesInv(env, closed[..|closed| - 1], next)
    ensures FairlyCharged(env, closed[..|closed| - 1], closed[|closed| - 1])
  {
    hide FairlyCharged;
    var before := closed[..|closed| - 1];
    assert forall i :: 0 <= i < |before| ==> before[..i] == closed[..i];
  }

  // ---------------------------------------------------------------- closes that leave a remainder

  // A close request for less than the whole of the position it meets.
  predicate LeavesRemainder(s: Sim, op: Op) {
    op.OpClose? && op.volume.Some?
    && var i := IndexOf(s.positions, op.ticket);
       i < |s.positions| && 0 < op.volume.value < s.positions[i].volume
  }

  ghost predicate ClosedWhole(env: Env, start: real, ops: seq<Op>)
    requires ValidSpec(env.spec)
  {
    forall i :: 0 <= i < |ops| ==> !LeavesRemainder(Run(env, start, ops[..i]), ops[i])
  }

  // No ticket was closed twice so far, nor can be: none of the closed ones is still open.
  ghost predicate Whole(s: Sim) {
    NoTicketTwice(s.closed) && forall i :: 0 <= i < |s.positions| ==> Untraded(s.closed, s.positions[i].ticket)
  }

  lemma UntradedPush(closed: seq<Trade>, t: Trade, ticket: int)
    ensures Untraded(closed + [t], ticket) <==> Untraded(closed, ticket) && t.ticket != ticket
  {
    var all := closed + [t];
    assert all[|closed|] == t;
    assert forall i :: 0 <= i < |closed| ==> all[i] == closed[i];
  }

  lemma TradeTicket(env: Env, p: Position, price: real, reason: ExitReason, ts: int, vol: int)
    ensures TradeOf(env, p, price, reason, ts, vol).ticket == p.ticket
  {
  }

  // A close keeps the ledger whole exactly when it takes all of the position.
  lemma CloseWhole(env: Env, s: Sim, i: nat, price: real, reason: ExitReason, ts: int, volume: Option<int>)
    requires i < |s.positions| && NetInv(env, s)
    ensures var vol := VolumeToClose(s.positions[i], volume);
            Whole(CloseAt(env, s, i, price, reason, ts, volume)) <==> Whole(s) && vol >= s.positions[i].volume
  {
    hide TradeOf, TradesInv, StakeInv, NoTicketTwice, Untraded, VolumeToClose;
    var p := s.positions[i];
    var vol := VolumeToClose(p, volume);
    var t, r := TradeOf(env, p, price, reason, ts, vol), CloseAt(env, s, i, price, reason, ts, volume);
    TradeTicket(env, p, price, reason, ts, vol);
    NoTicketTwicePush(s.closed, t);
    var n := |Remainder(p, vol)|;
    assert forall j :: 0 <= j < i ==> r.positions[j] == s.positions[j];
    assert forall j :: i + n <= j < |r.positions| ==> r.positions[j] == s.positions[j + 1 - n];
    assert forall j :: i < j < |s.positions| ==> r.positions[j - 1 + n] == s.positions[j];
    forall ticket
      ensures Untraded(r.closed, ticket) <==> Untraded(s.closed, ticket) && p.ticket != ticket
    {
      UntradedPush(s.closed, t, ticket);
    }
    if vol < p.volume {
      assert r.positions[i].ticket == p.ticket;
    }
  }

  lemma TouchWhole(s: Sim, i: nat, q: Position)
    requires i < |s.positions| && SameStake(s.positions[i], q)
    ensures Whole(s.(positions := s.positions[i := q])) <==> Whole(s)
  {
    hide NoTicketTwice, Untraded;
    var r := s.positions[i := q];
    assert forall j :: 0 <= j < |r| ==> r[j].ticket == s.positions[j].ticket;
  }

  lemma {:induction false} StepWhole(env: Env, s: Sim, from: nat, bar: Bar, m1: seq<Bar>, slip: int -> real)
    requires from <= |s.positions| && env.fee >= 0.0 && NetInv(env, s)
    ensures Whole(StepFrom(env, s, from, bar, m1, slip)) <==> Whole(s)
    decreases |s.positions| - from
  {
    hide NetInv, Whole, Resolve, CloseAt;
    if from < |s.positions| {
      var p := Excursions(s.positions[from], bar);
      TouchKeepsNet(env, s, from, p);
      TouchWhole(s, from, p);
      var t := s.(positions := s.positions[from := p]);
      match Resolve(env, p, bar, m1, slip(p.ticket))
      case Stay => StepWhole(env, t, from + 1, bar, m1, slip);
      case Exit(price, reason) =>
        CloseKeepsNet(env, t, from, price, reason, bar.ts, None);
        CloseShape(env, t, from, price, reason, bar.ts);
        CloseWhole(env, t, from, price, reason, bar.ts, None);
        StepWhole(env, CloseAt(env, t, from, price, reason, bar.ts, None), from, bar, m1, slip);
    }
  }

  lemma {:induction false} CloseAllWhole(env: Env, s: Sim, reason: ExitReason)
    requires env.fee >= 0.0 && NetInv(env, s)
    ensures Whole(CloseAll(env, s, reason)) <==> Whole(s)
    decreases |s.positions|
  {
    hide NetInv, Whole, CloseAt;
    if s.positions != [] {
      var price := QuoteOf(env, s).ExitPriceFor(s.positions[0].direction);
      CloseKeepsNet(env, s, 0, price, reason, s.now, None);
      CloseShape(env, s, 0, price, reason, s.now);
      CloseWhole(env, s, 0, price, reason, s.now, None);
      CloseAllWhole(env, CloseAt(env, s, 0, price, reason, s.now, None), reason);
    }
  }

  lemma SendWhole(env: Env, s: Sim, req: Request, slip: real)
    requires ValidSpec(env.spec) && NetInv(env, s)
    ensures Whole(Send(env, s, req, slip).0) <==> Whole(s)
  {
    hide Send, NoTicketTwice, StakeInv, FairlyCharged;
    var (t, reply) := Send(env, s, req, slip);
    SendShape(env, s, req, slip);
    if reply.Accepted? {
      var p := t.positions[|s.positions|];
      assert p.ticket == s.nextTicket by {
        SentTicket(env, s, req, slip);
      }
      assert Untraded(s.closed, p.ticket);
      assert forall i :: 0 <= i < |s.positions| ==> t.positions[i] == s.positions[i];
    }
  }

  lemma SentTicket(env: Env, s: Sim, req: Request, slip: real)
    requires ValidSpec(env.spec) && Send(env, s, req, slip).1.Accepted?
    ensures var t := Send(env, s, req, slip).0;
            |t.positions| == |s.positions| + 1 && t.positions[|s.positions|].ticket == s.nextTicket
  {
    hide FillPrice, NormalizeVolume, FreeMargin, QuoteOf, MarginFor, Fee;
  }

  // Each operation keeps the ledger whole exactly unless it is a close that leaves a remainder.
  lemma ApplyWhole(env: Env, s: Sim, op: Op)
    requires ValidSpec(env.spec) && env.fee >= 0.0 && NetInv(env, s)
    requires op.OpClose? && op.volume.Some? ==> op.volume.value >= 0
    ensures Whole(Apply(env, s, op)) <==> Whole(s) && !LeavesRemainder(s, op)
  {
    hide NetInv, CloseAt, Modify, NoTicketTwice, Untraded;
    match op
    case OpTime(now, bar, spread) =>
    case OpSend(req, slip) => SendWhole(env, s, req, slip);
    case OpModify(ticket, sl, tp) =>
      var i := IndexOf(s.positions, ticket);
      var t := Modify(env, s, ticket, sl, tp).0;
      ModifyTouches(env, s, ticket, sl, tp);
      if t != s {
        TouchWhole(s, i, t.positions[i]);
      }
    case OpClose(ticket, volume) =>
      var i := IndexOf(s.positions, ticket);
      if i < |s.positions| {
        CloseWhole(env, s, i, QuoteOf(env, s).ExitPriceFor(s.positions[i].direction), Manual, s.now, volume);
        HasVolume(env, s, i);
      }
    case OpStep(bar, m1, slips) =>
      var t := s.(bar := Some(bar), spreadPoints := Spread(env, bar));
      NetInvOfBook(env, s, t);
      StepWhole(env, t, 0, bar, m1, slips);
    case OpCloseAll(reason) => CloseAllWhole(env, s, reason);
  }

  lemma HasVolume(env: Env, s: Sim, i: nat)
    requires NetInv(env, s) && i < |s.positions|
    ensures s.positions[i].volume > 0
  {
    assert StakeInv(env, s.closed, s.positions[i]);
  }

  lemma NetInvOfBook(env: Env, s: Sim, t: Sim)
    requires NetInv(env, s) && t.closed == s.closed && t.positions == s.positions && t.nextTicket == s.nextTicket
    ensures NetInv(env, t)
  {
    hide StakeInv, TradesInv;
  }

  lemma ClosedWholeFront(env: Env, start: real, ops: seq<Op>)
    requires ValidSpec(env.spec) && ops != []
    ensures var front := ops[..|ops| - 1];
            ClosedWhole(env, start, ops)
            <==> ClosedWhole(env, start, front) && !LeavesRemainder(Run(env, start, front), ops[|ops| - 1])
  {
    hide Run, LeavesRemainder;
    var front := ops[..|ops| - 1];
    assert forall i :: 0 <= i < |front| ==> front[..i] == ops[..i] && front[i] == ops[i];
    if ClosedWhole(env, start, front) && !LeavesRemainder(Run(env, start, front), ops[|front|]) {
      forall i | 0 <= i < |ops|
        ensures !LeavesRemainder(Run(env, start, ops[..i]), ops[i])
      {
        assert i < |front| ==> !LeavesRemainder(Run(env, start, front[..i]), front[i]);
      }
    }
  }

  lemma {:induction false} RunWhole(env: Env, start: real, ops: seq<Op>)
    requires ValidSpec(env.spec) && env.fee >= 0.0 && ClosesPositiveVolumes(ops)
    ensures Whole(Run(env, start, ops)) <==> ClosedWhole(env, start, ops)
  {
    if ops != [] {
      hide Apply, NetInv, Whole, LeavesRemainder, ClosedWhole;
      var front, last := ops[..|ops| - 1], ops[|ops| - 1];
      RunWhole(env, start, front);
      RunKeepsNet(env, start, front);
      ApplyWhole(env, Run(env, start, front), last);
      ClosedWholeFront(env, start, ops);
    }
  }

  /** When the book is flat, the summed net profit of the closed trades never exceeds the balance
      change, and equals it exactly when commission is free or no operation asked to close less
      than the whole of the position it met; the trades then hold no ticket twice. */
  lemma NetPnlMatchesBalance(env: Env, start: real, ops: seq<Op>)
    requires ValidSpec(env.spec) && env.fee >= 0.0 && ClosesPositiveVolumes(ops)
    requires Run(env, start, ops).positions == []
    ensures var s := Run(env, start, ops);
            && SumNet(s.closed) <= s.balance - start
            && (SumNet(s.closed) == s.balance - start <==> env.fee == 0.0 || ClosedWhole(env, start, ops))
            && (NoTicketTwice(s.closed) <==> ClosedWhole(env, start, ops))
  {
    hide Run, Fee, NoTicketTwice, SumNet, SumGross, ClosedVolume, TradesInv, ClosedWhole;
    var s := Run(env, start, ops);
    RunConserves(env, start, ops);
    RunKeepsNet(env, start, ops);
    RunWhole(env, start, ops);
    NoVolume();
    NetShortfall(env, s.closed, s.nextTicket);
  }

  // Positions are only ever closed whole, as the backtester closes them.
  predicate FullCloses(ops: seq<Op>) {
    forall i :: 0 <= i < |ops| && ops[i].OpClose? ==> ops[i].volume == None
  }

  /** With full closes only, the net profits of a flat book add up to the change in its balance. */
  lemma FullClosesBalance(env: Env, start: real, ops: seq<Op>)
    requires ValidSpec(env.spec) && env.fee >= 0.0 && FullCloses(ops)
    requires Run(env, start, ops).positions == []
    ensures SumNet(Run(env, start, ops).closed) == Run(env, start, ops).balance - start
  {
    hide Run, SumNet;
    NetPnlMatchesBalance(env, start, ops);
  }

  // ---------------------------------------------------------------- a position closed in pieces

  // Whole-unit prices and money, a fee of one per lot, no spread.
  const PLAIN := Env(SymbolSpec(1.0, 1.0, 0.0, 0.0, 1, 100, 1.0, 1.0), 1.0, 0.0, 1.0)
  const AT_TEN := OpTime(0, Bar(0, 10.0, 10.0, 10.0, 10.0, 0, 0.0), Some(0.0))
  const BUY_TWO := OpSend(Request(Long, 2.0, 0.0, None, 0.0), 0.0)
  const TWO_LOTS := Position(1, Long, 2, 10.0, 0.0, 0.0, 0, 0.0, 2.0, 0.0, 0.0, 0.0, 0)

  lemma FillsAtTen()
    ensures NormalizeVolume(2.0) == 2 && FillPrice(PLAIN.spec, 10.0, Long, 0.0) == 10.0
  {
    hide NormalizeVolume;
    VolumeIsUpOrBelow(2.0, 2);
    RoundEvenFixesIntegers(10);
    assert 10.0 / 1.0 == 10.0;
  }

  // An order nothing refuses, once its volume and its fill are known.
  lemma Opens(env: Env, s: Sim, req: Request, slip: real, vol: int, raw: real, fill: real)
    requires ValidSpec(env.spec) && NormalizeVolume(req.volume) == vol
    requires env.spec.volumeMin <= vol <= env.spec.volumeMax
    requires raw == QuoteOf(env, s).PriceFor(req.direction) && fill == FillPrice(env.spec, raw, req.direction, slip)
    requires Refusal(env, s, req, vol, raw, fill) == None
    ensures var p := NewPosition(env, s, req, vol, fill);
            Apply(env, s, OpSend(req, slip)) ==
            s.(nextTicket := s.nextTicket + 1, positions := s.positions + [p],
               balance := s.balance - p.commissionPaid)
  {
    hide NormalizeVolume, FillPrice, QuoteOf, Refusal, NewPosition;
  }

  lemma TwoNotRefused(s: Sim)
    requires s == Start(PLAIN, 100.0).(bar := Some(AT_TEN.bar))
    ensures Refusal(PLAIN, s, BUY_TWO.req, 2, 10.0, 10.0) == None
    ensures NewPosition(PLAIN, s, BUY_TWO.req, 2, 10.0) == TWO_LOTS
  {
    hide MarginFor, FreeMargin, Fee;
    PlainMargin(s);
    PlainFee();
    assert Abs(10.0 - 10.0) / 1.0 == 0.0;
  }

  lemma TimeAtTen()
    ensures Apply(PLAIN, Start(PLAIN, 100.0), AT_TEN) == Start(PLAIN, 100.0).(bar := Some(AT_TEN.bar))
  {
  }

  lemma AtTen(s: Sim)
    requires s == Start(PLAIN, 100.0).(bar := Some(AT_TEN.bar))
    ensures QuoteOf(PLAIN, s).PriceFor(Long) == 10.0
  {
  }

  lemma PlainMargin(s: Sim)
    requires s == Start(PLAIN, 100.0).(bar := Some(AT_TEN.bar))
    ensures MarginFor(PLAIN, 2, 10.0) <= FreeMargin(PLAIN, s)
  {
    hide MarginFor, QuoteOf;
    assert MarginFor(PLAIN, 2, 10.0) == 0.2 by {
      TwoLotsMargin();
    }
    assert UsedMargin(PLAIN, []) == 0.0 && Unrealised(PLAIN, [], 10.0) == 0.0;
  }

  lemma TwoLotsMargin()
    ensures MarginFor(PLAIN, 2, 10.0) == 0.2
  {
  }

  lemma PlainFee()
    ensures Fee(PLAIN, 2) == 2.0
  {
  }

  // Closing one lot of a long from ten, at ten.
  lemma ClosesOne(s: Sim, p: Position, volume: Option<int>)
    requires s.positions == [p] && p == TWO_LOTS.(volume := p.volume)
    requires s.bar == Some(AT_TEN.bar) && s.spreadPoints == 0.0
    requires p.volume in {1, 2} && volume == if p.volume == 2 then Some(1) else None
    ensures var r := Apply(PLAIN, s, OpClose(1, volume));
            && r.positions == (if p.volume == 2 then [p.(volume := 1)] else [])
            && r.balance == s.balance - 1.0 && r.bar == s.bar && r.spreadPoints == 0.0
            && |r.closed| == |s.closed| + 1 && r.closed[..|s.closed|] == s.closed
            && r.closed[|s.closed|].ticket == 1 && r.closed[|s.closed|].volume == 1
            && NetPnl(r.closed[|s.closed|]) == if p.volume == 2 then -2.0 else -3.0
  {
    assert IndexOf([p], 1) == 0;
    assert QuoteOf(PLAIN, s).ExitPriceFor(Long) == 10.0;
    assert 1 as real / 2 as real == 0.5 && 1 as real / 1 as real == 1.0;
  }

  /** The overcharge happens: two lots bought and closed one at a time leave a flat book whose
      reported net profits are one fee short of the change in the balance. */
  lemma ClosedInPiecesWitness()
    ensures var ops := [AT_TEN, BUY_TWO, OpClose(1, Some(1)), OpClose(1, None)];
            var s := Run(PLAIN, 100.0, ops);
            && ClosesPositiveVolumes(ops) && s.positions == [] && !NoTicketTwice(s.closed)
            && s.balance - 100.0 == -4.0 && SumNet(s.closed) == -5.0
  {
    hide Apply, NetPnl, Run, NormalizeVolume, FillPrice, QuoteOf, Refusal, NewPosition;
    var a, b, c, d := AT_TEN, BUY_TWO, OpClose(1, Some(1)), OpClose(1, None);
    var s0 := Start(PLAIN, 100.0).(bar := Some(AT_TEN.bar));
    TimeAtTen();
    AtTen(s0);
    FillsAtTen();
    TwoNotRefused(s0);
    Opens(PLAIN, s0, BUY_TWO.req, BUY_TWO.slip, 2, 10.0, 10.0);
    RunFromStart(PLAIN, 100.0);
    RunPush(PLAIN, 100.0, [], a);
    RunPush(PLAIN, 100.0, [a], b);
    RunPush(PLAIN, 100.0, [a, b], c);
    RunPush(PLAIN, 100.0, [a, b, c], d);
    assert [] + [a] == [a] && [a] + [b] == [a, b] && [a, b] + [c] == [a, b, c] && [a, b, c] + [d] == [a, b, c, d];
    var bought := Run(PLAIN, 100.0, [a, b]);
    ClosesOne(bought, TWO_LOTS, Some(1));
    var half := Run(PLAIN, 100.0, [a, b, c]);
    ClosesOne(half, TWO_LOTS.(volume := 1), None);
    var s := Run(PLAIN, 100.0, [a, b, c, d]);
    assert half.closed == [half.closed[0]] && s.closed == [half.closed[0], s.closed[1]];
    SumNetOfTwo(half.closed[0], s.closed[1]);
  }

  lemma RunFromStart(env: Env, start: real)
    requires ValidSpec(env.spec)
    ensures Run(env, start, []) == Start(env, start)
  {
  }

  lemma RunPush(env: Env, start: real, ops: seq<Op>, op: Op)
    requires ValidSpec(env.spec)
    ensures Run(env, start, ops + [op]) == Apply(env, Run(env, start, ops), op)
  {
    assert (ops + [op])[..|ops|] == ops;
  }

  lemma SumNetOfTwo(t: Trade, u: Trade)
    ensures SumNet([t, u]) == NetPnl(t) + NetPnl(u)
  {
    hide NetPnl;
    assert [t, u][..1] == [t] && [t][..0] == [];
    assert SumNet([t]) == NetPnl(t);
  }
}
