/** The two implementations of intrabar resolution agree: a position stepped bar by bar through
    the simulated broker closes on exactly the bar and side the labeller reports. */
module LabelAgreement {
  import opened Domain
  import opened Sequences
  import opened Timeframes
  import opened SimBroker
  import opened Labeling

  // ---------------------------------------------------------------- labels are final

  lemma HitAtStable(c: Setup, d: Setup, i: nat)
    requires d == c.(series := d.series, m1 := d.m1) && i < |c.series| <= |d.series| && c.series[i] == d.series[i]
    requires M1For(c.m1, c.series[i].ts, c.tf) == M1For(d.m1, c.series[i].ts, c.tf)
    ensures HitAt(c, i) == HitAt(d, i)
  {
    hide M1For, ResolveM1;
  }

  lemma {:induction false} ExcursionsStable(c: Setup, d: Setup, lo: nat, hi: nat)
    requires d == c.(series := d.series, m1 := d.m1) && c.series <= d.series && lo <= hi <= |c.series| && c.Risk() > 0.0
    ensures MaeR(c, lo, hi) == MaeR(d, lo, hi) && MfeR(c, lo, hi) == MfeR(d, lo, hi)
  {
    hide Adverse, Favour;
    assert c.Risk() == d.Risk();
    hide Setup.Risk;
    if lo < hi {
      ExcursionsStable(c, d, lo, hi - 1);
      assert c.series[hi - 1] == d.series[hi - 1];
    }
  }

  // Finer bars that open after the last bar has closed.
  ghost predicate OpensLater(c: Setup, more: seq<Bar>) {
    forall i, b :: 0 <= i < |c.series| && b in more ==> b.ts >= c.series[i].ts + c.tf.Seconds()
  }

  lemma M1Stable(c: Setup, moreM1: seq<Bar>, i: nat)
    requires i < |c.series| && OpensLater(c, moreM1)
    ensures M1For(c.m1 + moreM1, c.series[i].ts, c.tf) == M1For(c.m1, c.series[i].ts, c.tf)
  {
    var ts := c.series[i].ts;
    var inside := (b: Bar) => ts <= b.ts < ts + c.tf.Seconds();
    FilterAppend(c.m1, moreM1, inside);
    FilterNone(moreM1, inside);
  }

  lemma {:induction false} FirstHitStable(c: Setup, d: Setup, lo: nat, hi: nat, hi': nat)
    requires lo <= hi <= |c.series| && hi <= hi' <= |d.series|
    requires forall i :: lo <= i < hi ==> i < |d.series| && HitAt(c, i) == HitAt(d, i)
    ensures FirstHit(c, lo, hi) < hi ==> FirstHit(d, lo, hi') == FirstHit(c, lo, hi)
    ensures FirstHit(c, lo, hi) == hi ==> FirstHit(d, lo, hi) == hi
    decreases hi - lo
  {
    hide HitAt;
    if lo < hi {
      FirstHitStable(c, d, lo + 1, hi, hi');
    }
  }

  /** A label, once returned, never changes when later bars are appended. */
  lemma LabelIsFinal(c: Setup, more: seq<Bar>, moreM1: seq<Bar>, entryIndex: nat, maxBars: int)
    requires LabelOf(c, entryIndex, maxBars).Some? && OpensLater(c, moreM1)
    ensures LabelOf(c.(series := c.series + more, m1 := c.m1 + moreM1), entryIndex, maxBars)
            == LabelOf(c, entryIndex, maxBars)
  {
    hide HitAt, MaeR, MfeR, OpensLater, Setup.Target;
    var d := c.(series := c.series + more, m1 := c.m1 + moreM1);
    var first, end, end' := entryIndex + 1, HorizonEnd(c, entryIndex, maxBars), HorizonEnd(d, entryIndex, maxBars);
    forall i | first <= i < end
      ensures HitAt(c, i) == HitAt(d, i)
    {
      M1Stable(c, moreM1, i);
      HitAtStable(c, d, i);
    }
    FirstHitStable(c, d, first, end, end');
    var h := FirstHit(c, first, end);
    if h < end {
      ExcursionsStable(c, d, first, h + 1);
    } else {
      ExcursionsStable(c, d, first, end);
    }
  }

  // ---------------------------------------------------------------- one position in a book

  ghost predicate UniqueTickets(positions: seq<Position>) {
    forall i, j :: 0 <= i < j < |positions| ==> positions[i].ticket != positions[j].ticket
  }

  function TradesOf(closed: seq<Trade>, ticket: int): seq<Trade> {
    Filter(closed, (t: Trade) => t.ticket == ticket)
  }

  ghost predicate Absent(positions: seq<Position>, ticket: int) {
    forall j :: 0 <= j < |positions| ==> positions[j].ticket != ticket
  }

  lemma PushTrades(closed: seq<Trade>, t: Trade, ticket: int)
    ensures TradesOf(closed + [t], ticket) == TradesOf(closed, ticket) + (if t.ticket == ticket then [t] else [])
  {
    FilterAppend(closed, [t], (x: Trade) => x.ticket == ticket);
    assert [t][..0] == [];
    assert Filter([t][..0], (x: Trade) => x.ticket == ticket) == [];
  }

  // Closing position i in full removes it and records its trade.
  lemma FullClose(env: Env, s: Sim, i: nat, price: real, reason: ExitReason, ts: int)
    requires i < |s.positions|
    ensures var r, t := CloseAt(env, s, i, price, reason, ts, None),
            TradeOf(env, s.positions[i], price, reason, ts, s.positions[i].volume);
            && r.positions == s.positions[..i] + s.positions[i + 1..]
            && r.closed == s.closed + [t] && t.ticket == s.positions[i].ticket
  {
    hide Money, Fee;
    assert s.positions[..i] + [] + s.positions[i + 1..] == s.positions[..i] + s.positions[i + 1..];
  }

  // Resolving the positions from `lo` on leaves the ones before it, and every other ticket's trades.
  lemma {:induction false} StepFromOthers(
    env: Env, s: Sim, lo: nat, bar: Bar, m1: seq<Bar>, slip: int -> real, ticket: int)
    requires lo <= |s.positions| && UniqueTickets(s.positions) && Absent(s.positions[lo..], ticket)
    ensures var r := StepFrom(env, s, lo, bar, m1, slip);
            && UniqueTickets(r.positions) && lo <= |r.positions| && r.positions[..lo] == s.positions[..lo]
            && Absent(r.positions[lo..], ticket)
            && TradesOf(r.closed, ticket) == TradesOf(s.closed, ticket)
    decreases |s.positions| - lo
  {
    hide Resolve, TradesOf, CloseAt;
    if lo < |s.positions| {
      var p := Excursions(s.positions[lo], bar);
      assert s.positions[lo].ticket == s.positions[lo..][0].ticket != ticket;
      var t := s.(positions := s.positions[lo := p]);
      match Resolve(env, p, bar, m1, slip(p.ticket))
      case Stay =>
        TailOf(s.positions, lo, p);
        StepFromOthers(env, t, lo + 1, bar, m1, slip, ticket);
        PrefixKept(StepFrom(env, t, lo + 1, bar, m1, slip).positions, t.positions, s.positions, lo, ticket);
      case Exit(price, reason) =>
        FullClose(env, t, lo, price, reason, bar.ts);
        var u := CloseAt(env, t, lo, price, reason, bar.ts, None);
        PushTrades(t.closed, u.closed[|t.closed|], ticket);
        TailOf(s.positions, lo, p);
        StepFromOthers(env, u, lo, bar, m1, slip, ticket);
    }
  }

  lemma TailOf(positions: seq<Position>, lo: nat, p: Position)
    requires lo < |positions|
    ensures positions[lo := p][lo + 1..] == positions[lo..][1..]
    ensures var cut := positions[lo := p][..lo] + positions[lo := p][lo + 1..];
            cut[lo..] == positions[lo..][1..] && cut[..lo] == positions[..lo]
  {
  }

  lemma PrefixKept(r: seq<Position>, t: seq<Position>, s: seq<Position>, lo: nat, ticket: int)
    requires lo < |t| == |s| && t[..lo] == s[..lo] && t[lo].ticket != ticket
    requires lo < |r| && r[..lo + 1] == t[..lo + 1] && Absent(r[lo + 1..], ticket)
    ensures r[..lo] == s[..lo] && Absent(r[lo..], ticket)
  {
    assert r[..lo] == r[..lo + 1][..lo] == t[..lo + 1][..lo];
    assert r[lo] == r[..lo + 1][lo] == t[lo];
    assert r[lo..] == [r[lo]] + r[lo + 1..];
  }

  /** What one bar does to the position with this ticket, whatever else is in the book. */
  ghost predicate SteppedAs(env: Env, s: Sim, r: Sim, p: Position, bar: Bar, m1: seq<Bar>, slip: int -> real) {
    var q := Excursions(p, bar);
    match Resolve(env, q, bar, m1, slip(p.ticket))
    case Stay => q in r.positions && TradesOf(r.closed, p.ticket) == TradesOf(s.closed, p.ticket)
    case Exit(price, reason) =>
      && Absent(r.positions, p.ticket)
      && TradesOf(r.closed, p.ticket)
          == TradesOf(s.closed, p.ticket) + [TradeOf(env, q, price, reason, bar.ts, q.volume)]
  }

  lemma AbsentParts(positions: seq<Position>, i: nat, ticket: int)
    requires i <= |positions| && Absent(positions[..i], ticket) && Absent(positions[i..], ticket)
    ensures Absent(positions, ticket)
  {
    forall j | 0 <= j < |positions|
      ensures positions[j].ticket != ticket
    {
      if j < i {
        assert positions[j] == positions[..i][j];
      } else {
        assert positions[j] == positions[i..][j - i];
      }
    }
  }

  lemma TicketsApart(positions: seq<Position>, lo: nat, i: nat)
    requires UniqueTickets(positions) && lo <= i < |positions|
    ensures lo < i ==> positions[lo].ticket != positions[i].ticket
    ensures Absent(positions[i + 1..], positions[i].ticket) && Absent(positions[..i], positions[i].ticket)
  {
  }

  lemma StaysUnique(positions: seq<Position>, lo: nat, p: Position)
    requires UniqueTickets(positions) && lo < |positions| && p.ticket == positions[lo].ticket
    ensures UniqueTickets(positions[lo := p])
    ensures UniqueTickets(positions[lo := p][..lo] + positions[lo := p][lo + 1..])
  {
  }

  lemma {:induction false} StepFromOwn(
    env: Env, s: Sim, lo: nat, bar: Bar, m1: seq<Bar>, slip: int -> real, i: nat)
    requires lo <= i < |s.positions| && UniqueTickets(s.positions)
    ensures var r := StepFrom(env, s, lo, bar, m1, slip);
            UniqueTickets(r.positions) && SteppedAs(env, s, r, s.positions[i], bar, m1, slip)
    decreases |s.positions| - lo
  {
    hide Resolve, TradesOf, CloseAt, TradeOf, UniqueTickets;
    var own, ticket := s.positions[i], s.positions[i].ticket;
    var p := Excursions(s.positions[lo], bar);
    var t := s.(positions := s.positions[lo := p]);
    StaysUnique(s.positions, lo, p);
    TicketsApart(s.positions, lo, i);
    match Resolve(env, p, bar, m1, slip(p.ticket))
    case Stay =>
      if lo == i {
        StepFromOthers(env, t, lo + 1, bar, m1, slip, ticket);
        var r := StepFrom(env, t, lo + 1, bar, m1, slip);
        assert r.positions[lo] == r.positions[..lo + 1][lo] == p;
      } else {
        StepFromOwn(env, t, lo + 1, bar, m1, slip, i);
      }
    case Exit(price, reason) =>
      FullClose(env, t, lo, price, reason, bar.ts);
      var u := CloseAt(env, t, lo, price, reason, bar.ts, None);
      PushTrades(t.closed, u.closed[|t.closed|], ticket);
      if lo == i {
        StepFromOthers(env, u, lo, bar, m1, slip, ticket);
        var r := StepFrom(env, u, lo, bar, m1, slip);
        assert Absent(r.positions[..lo], ticket);
        AbsentParts(r.positions, lo, ticket);
      } else {
        assert u.positions[i - 1] == own;
        StepFromOwn(env, u, lo, bar, m1, slip, i - 1);
      }
  }

  // ---------------------------------------------------------------- the agreement

  // The position the candidate opens: untouched so far, its levels the labeller's and nonzero.
  ghost predicate Fresh(c: Setup, p: Position) {
    && p.entry == c.entry && p.direction == c.direction
    && p.stopLoss == p.initialSl == c.stop != 0.0 && p.takeProfit == c.Target() != 0.0
    && p.mae == 0.0 && p.mfe == 0.0 && p.barsHeld == 0
  }

  // Step the whole book over bars [lo, hi); each stop exit draws its own slippage.
  function Stepped(env: Env, c: Setup, s: Sim, lo: nat, hi: nat, slips: int -> (int -> real)): Sim
    requires lo <= hi <= |c.series|
  {
    if lo == hi then s
    else
      var b := c.series[hi - 1];
      StepBar(env, Stepped(env, c, s, lo, hi - 1, slips), b, M1For(c.m1, b.ts, c.tf), slips(hi - 1))
  }

  // The position after it survived bars [lo, hi).
  function Aged(c: Setup, p: Position, lo: nat, hi: nat): Position
    requires lo <= hi <= |c.series|
  {
    if lo == hi then p else Excursions(Aged(c, p, lo, hi - 1), c.series[hi - 1])
  }

  lemma MaxOverRisk(x: real, y: real, risk: real)
    requires risk > 0.0
    ensures Max(x, y) / risk == Max(x / risk, y / risk)
  {
    if x <= y {
      DivMonotone(x, y, risk);
    } else {
      DivMonotone(y, x, risk);
    }
  }

  lemma ExcursionsMeasure(p: Position, b: Bar)
    ensures Excursions(p, b) == p.(barsHeld := p.barsHeld + 1,
              mae := Max(p.mae, Adverse(p.entry, p.direction, b)), mfe := Max(p.mfe, Favour(p.entry, p.direction, b)))
  {
  }

  // Ageing changes the excursions and the age only, and measures them as the labeller does.
  lemma {:induction false} AgedMeasures(c: Setup, p: Position, lo: nat, hi: nat)
    requires lo <= hi <= |c.series| && Fresh(c, p) && c.Risk() > 0.0
    ensures var q := Aged(c, p, lo, hi);
            && q == p.(mae := q.mae, mfe := q.mfe, barsHeld := hi - lo)
            && q.mae / c.Risk() == MaeR(c, lo, hi) && q.mfe / c.Risk() == MfeR(c, lo, hi)
  {
    hide Setup.Risk, Setup.Target, Max, Excursions, Adverse, Favour;
    if lo < hi {
      AgedMeasures(c, p, lo, hi - 1);
      ExcursionsMeasure(Aged(c, p, lo, hi - 1), c.series[hi - 1]);
      var before, b := Aged(c, p, lo, hi - 1), c.series[hi - 1];
      MaxOverRisk(before.mae, Adverse(c.entry, c.direction, b), c.Risk());
      MaxOverRisk(before.mfe, Favour(c.entry, c.direction, b), c.Risk());
    }
  }

  lemma {:induction false} SameScan(stop: real, target: real, m1: seq<Bar>)
    requires stop != 0.0 && target != 0.0
    ensures TargetFirst(stop, target, m1) <==> ResolveM1(stop, target, m1) == TargetHit
    ensures ResolveM1(stop, target, m1) in {TargetHit, StopHit}
  {
    if m1 != [] {
      SameScan(stop, target, m1[1..]);
    }
  }

  // One bar resolves to the same side in both implementations.
  lemma SameResolution(env: Env, c: Setup, q: Position, i: nat, slip: real)
    requires i < |c.series|
    requires q.stopLoss == q.initialSl == c.stop != 0.0 && q.takeProfit == c.Target() != 0.0
    ensures var b := c.series[i];
            match Resolve(env, q, b, M1For(c.m1, b.ts, c.tf), slip)
            case Stay => HitAt(c, i) == None
            case Exit(_, reason) =>
              || (HitAt(c, i) == Some(TargetHit) && reason == TakeProfit)
              || (HitAt(c, i) == Some(StopHit) && reason == StopLoss)
  {
    hide Setup.Target, M1For, TargetFirst, ResolveM1;
    SameScan(c.stop, c.Target(), M1For(c.m1, c.series[i].ts, c.tf));
  }

  lemma SteppedOnce(env: Env, s: Sim, p: Position, bar: Bar, m1: seq<Bar>, slip: int -> real)
    requires UniqueTickets(s.positions) && p in s.positions
    ensures var r := StepBar(env, s, bar, m1, slip);
            UniqueTickets(r.positions) && SteppedAs(env, s, r, p, bar, m1, slip)
  {
    hide Resolve, TradesOf, StepFrom, TradeOf;
    var i :| 0 <= i < |s.positions| && s.positions[i] == p;
    StepFromOwn(env, s.(bar := Some(bar), spreadPoints := Spread(env, bar)), 0, bar, m1, slip, i);
  }

  // While no barrier is touched the position stays open and only ages.
  lemma {:induction false} OpenWhileUntouched(
    env: Env, c: Setup, s: Sim, p: Position, lo: nat, hi: nat, slips: int -> (int -> real))
    requires lo <= hi <= |c.series| && UniqueTickets(s.positions) && p in s.positions
    requires Fresh(c, p) && c.Risk() > 0.0
    requires forall i :: lo <= i < hi ==> HitAt(c, i) == None
    ensures var r := Stepped(env, c, s, lo, hi, slips);
            && UniqueTickets(r.positions) && Aged(c, p, lo, hi) in r.positions
            && TradesOf(r.closed, p.ticket) == TradesOf(s.closed, p.ticket)
  {
    hide Setup.Risk, Setup.Target, TradesOf, HitAt, Resolve, StepBar, UniqueTickets, M1For;
    if lo < hi {
      OpenWhileUntouched(env, c, s, p, lo, hi - 1, slips);
      var q, b := Aged(c, p, lo, hi - 1), c.series[hi - 1];
      var m1 := M1For(c.m1, b.ts, c.tf);
      AgedMeasures(c, p, lo, hi - 1);
      AgedMeasures(c, p, lo, hi);
      SteppedOnce(env, Stepped(env, c, s, lo, hi - 1, slips), q, b, m1, slips(hi - 1));
      SameResolution(env, c, Excursions(q, b), hi - 1, slips(hi - 1)(p.ticket));
    }
  }

  ghost predicate OpenAfter(c: Setup, r: Sim, p: Position, lo: nat, hi: nat)
    requires lo <= hi <= |c.series| && c.Risk() > 0.0
  {
    exists q :: q in r.positions && q.ticket == p.ticket && q.barsHeld == hi - lo
      && q.mae / c.Risk() == MaeR(c, lo, hi) && q.mfe / c.Risk() == MfeR(c, lo, hi)
  }

  ghost predicate ClosedAs(r: Sim, p: Position, l: Label) {
    var trades := TradesOf(r.closed, p.ticket);
    && Absent(r.positions, p.ticket) && |trades| == 1
    && var t := trades[0];
    && t.reason == (if l.hit == TargetHit then TakeProfit else StopLoss)
    && l.outcome == (if t.reason == TakeProfit then 1 else 0)
    && t.closedAt == l.resolvedAt && t.barsHeld == l.bars && t.maeR == l.maeR && t.mfeR == l.mfeR
  }

  // No exit slips, and the stop is on the losing side of the entry.
  ghost predicate Frictionless(c: Setup, slips: int -> (int -> real)) {
    (c.entry - c.stop) * c.direction.Sign() > 0.0 && forall i, ticket :: slips(i)(ticket) == 0.0
  }

  // The one trade of this ticket earned the label's R multiple of its risk.
  ghost predicate EarnedAs(r: Sim, p: Position, l: Label) {
    var trades := TradesOf(r.closed, p.ticket);
    |trades| == 1 && trades[0].gross == l.r * trades[0].riskMoney
  }

  /** Two implementations agree.  Within the labeller's horizon: before the bar of the first
      touch, and on every bar when the label is a time-out or the data runs out, the position is
      still open with the labeller's age and excursions; on the bar of a touch it closes, once,
      on the labelled side, a win exactly at its target, with the same bars held and the same
      excursions in R; and without slippage its gross is the label's R multiple of its risk. */
  lemma LabellerAgreesWithBroker(
    env: Env, c: Setup, s: Sim, p: Position, entryIndex: nat, maxBars: int, slips: int -> (int -> real))
    requires UniqueTickets(s.positions) && p in s.positions && TradesOf(s.closed, p.ticket) == []
    requires Fresh(c, p) && c.Risk() > 0.0
    requires entryIndex + 1 < HorizonEnd(c, entryIndex, maxBars)
    ensures var first, end, l := entryIndex + 1, HorizonEnd(c, entryIndex, maxBars), LabelOf(c, entryIndex, maxBars);
            if l.Some? && l.value.hit != TimedOut then
              var h := entryIndex + l.value.bars;
              && first <= h < end
              && (forall k :: first <= k <= h ==> OpenAfter(c, Stepped(env, c, s, first, k, slips), p, first, k))
              && ClosedAs(Stepped(env, c, s, first, h + 1, slips), p, l.value)
              && (Frictionless(c, slips) ==> EarnedAs(Stepped(env, c, s, first, h + 1, slips), p, l.value))
            else
              && (forall k :: first <= k <= end ==> OpenAfter(c, Stepped(env, c, s, first, k, slips), p, first, k))
              && (l.Some? ==>
                    && l.value.bars == end - first
                    && l.value.maeR == MaeR(c, first, end) && l.value.mfeR == MfeR(c, first, end))
  {
    hide Setup.Risk, Setup.Target, TradesOf, HitAt, StepBar, UniqueTickets, MaeR, MfeR, Fresh, Stepped, ClosedAs,
        EarnedAs, Frictionless;
    var first, end := entryIndex + 1, HorizonEnd(c, entryIndex, maxBars);
    var h := FirstHit(c, first, end);
    forall k | first <= k <= h
      ensures OpenAfter(c, Stepped(env, c, s, first, k, slips), p, first, k)
    {
      StillOpen(env, c, s, p, first, k, slips);
    }
    if h < end {
      ClosesAtTouch(env, c, s, p, entryIndex, maxBars, slips);
    }
  }

  lemma StillOpen(env: Env, c: Setup, s: Sim, p: Position, lo: nat, hi: nat, slips: int -> (int -> real))
    requires lo <= hi <= |c.series| && UniqueTickets(s.positions) && p in s.positions
    requires Fresh(c, p) && c.Risk() > 0.0
    requires forall i :: lo <= i < hi ==> HitAt(c, i) == None
    ensures OpenAfter(c, Stepped(env, c, s, lo, hi, slips), p, lo, hi)
  {
    hide Setup.Risk, Setup.Target, TradesOf, HitAt, UniqueTickets, Stepped;
    OpenWhileUntouched(env, c, s, p, lo, hi, slips);
    AgedMeasures(c, p, lo, hi);
  }

  lemma ClosesAtTouch(
    env: Env, c: Setup, s: Sim, p: Position, entryIndex: nat, maxBars: int, slips: int -> (int -> real))
    requires UniqueTickets(s.positions) && p in s.positions && TradesOf(s.closed, p.ticket) == []
    requires Fresh(c, p) && c.Risk() > 0.0
    requires entryIndex + 1 < HorizonEnd(c, entryIndex, maxBars)
    requires FirstHit(c, entryIndex + 1, HorizonEnd(c, entryIndex, maxBars)) < HorizonEnd(c, entryIndex, maxBars)
    ensures var first, end := entryIndex + 1, HorizonEnd(c, entryIndex, maxBars);
            var h, l := FirstHit(c, first, end), LabelOf(c, entryIndex, maxBars).value;
            && ClosedAs(Stepped(env, c, s, first, h + 1, slips), p, l)
            && (Frictionless(c, slips) ==> EarnedAs(Stepped(env, c, s, first, h + 1, slips), p, l))
  {
    hide Setup.Target, TradesOf, HitAt, StepBar, UniqueTickets, Resolve, M1For, MaeR, MfeR, Setup.Risk, TradeOf,
        Frictionless;
    var first, end := entryIndex + 1, HorizonEnd(c, entryIndex, maxBars);
    var h := FirstHit(c, first, end);
    OpenWhileUntouched(env, c, s, p, first, h, slips);
    AgedMeasures(c, p, first, h);
    AgedMeasures(c, p, first, h + 1);
    var before, q, b := Stepped(env, c, s, first, h, slips), Aged(c, p, first, h), c.series[h];
    var m1, slip := M1For(c.m1, b.ts, c.tf), slips(h);
    var aged := Excursions(q, b);
    SteppedOnce(env, before, q, b, m1, slip);
    SameResolution(env, c, aged, h, slip(p.ticket));
    match Resolve(env, aged, b, m1, slip(p.ticket))
    case Exit(price, reason) =>
      TradeMeasures(env, c, aged, price, reason, b.ts);
      NoSlip(c, slips, h, p.ticket);
      if Frictionless(c, slips) {
        GrossIsLabelledR(env, c, aged, b, m1);
      }
      assert ClosedAs(Stepped(env, c, s, first, h + 1, slips), p, LabelOf(c, entryIndex, maxBars).value);
  }

  lemma NoSlip(c: Setup, slips: int -> (int -> real), i: int, ticket: int)
    ensures Frictionless(c, slips) ==> slips(i)(ticket) == 0.0 && (c.entry - c.stop) * c.direction.Sign() > 0.0
  {
  }

  lemma TradeMeasures(env: Env, c: Setup, q: Position, price: real, reason: ExitReason, ts: int)
    requires c.Risk() > 0.0 && q.entry == c.entry && q.initialSl == c.stop
    ensures var t := TradeOf(env, q, price, reason, ts, q.volume);
            && t.maeR == q.mae / c.Risk() && t.mfeR == q.mfe / c.Risk()
            && t.reason == reason && t.closedAt == ts && t.barsHeld == q.barsHeld
            && t.riskMoney == Money(env, c.Risk(), q.volume)
  {
    hide Money, Fee;
  }

  /** Without stop slippage, and with the stop on the losing side of the entry, the trade's gross
      is exactly the label's R multiple of its risk. */
  lemma GrossIsLabelledR(env: Env, c: Setup, q: Position, b: Bar, m1: seq<Bar>)
    requires q.entry == c.entry && q.direction == c.direction && c.Risk() > 0.0
    requires q.stopLoss == q.initialSl == c.stop != 0.0 && q.takeProfit == c.Target() != 0.0
    requires (c.entry - c.stop) * c.direction.Sign() > 0.0
    requires Resolve(env, q, b, m1, 0.0).Exit?
    ensures var Exit(price, reason) := Resolve(env, q, b, m1, 0.0);
            var t := TradeOf(env, q, price, reason, b.ts, q.volume);
            t.gross == (if reason == TakeProfit then c.targetR else -1.0) * t.riskMoney
  {
    var Exit(price, reason) := Resolve(env, q, b, m1, 0.0);
    var sign := c.direction.Sign();
    if reason == TakeProfit {
      assert (price - q.entry) * sign == c.targetR * c.Risk();
      ScaledMoney(env, c.targetR, c.Risk(), q.volume);
    } else {
      assert price == c.stop;
      assert (price - q.entry) * sign == -1.0 * c.Risk();
      ScaledMoney(env, -1.0, c.Risk(), q.volume);
    }
    TradeMeasures(env, c, q, price, reason, b.ts);
  }

  lemma ScaledMoney(env: Env, k: real, x: real, volume: int)
    ensures Money(env, k * x, volume) == k * Money(env, x, volume)
  {
  }
}
