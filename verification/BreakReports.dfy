/** Which bars report a break of structure (src/xauusd/core/structure.py), stated from the bars and
    the swings alone, without the stacks the walk keeps. */
module BreakReports {
  import opened Domain
  import opened Sequences
  import opened Swings
  import opened StructureEvents

  // ---------------------------------------------------------------- what is left to break

  /** Swing i can still be broken in direction d after these events: it is of the side d breaks,
      and none of them swept it. */
  ghost predicate Live(o: seq<RawSwing>, events: seq<Event>, d: Direction, i: int)
    decreases |events|, 0
  {
    && 0 <= i < |o| && o[i].kind == (if d == Long then High else Low)
    && (events != [] ==>
          && Live(o, events[..|events| - 1], d, i)
          && !Swept(o, events[..|events| - 1], events[|events| - 1], d, i))
  }

  /** The event swept swing i: its close reached it, and every later swing of its side that was
      confirmed and still live then. */
  ghost predicate Swept(o: seq<RawSwing>, before: seq<Event>, e: Event, d: Direction, i: int)
    requires 0 <= i < |o|
    decreases |before|, 1
  {
    && e.direction == d && o[i].confirmed <= e.bar
    && forall j :: i <= j < |o| && o[j].confirmed <= e.bar && Live(o, before, d, j) ==>
         if d == Long then o[j].price <= e.breakPrice else o[j].price >= e.breakPrice
  }

  // The latest swing confirmed by bar k that is live for direction d.
  ghost predicate LatestLive(o: seq<RawSwing>, past: seq<Event>, d: Direction, k: int, i: int) {
    && Live(o, past, d, i) && o[i].confirmed <= k
    && forall j :: i < j < |o| && o[j].confirmed <= k ==> !Live(o, past, d, j)
  }

  // The bar's body is a large enough part of its range.
  predicate Decisive(cfg: Config, b: Bar) {
    if b.high > b.low then Abs(b.close - b.open) >= cfg.minBodyRatio * (b.high - b.low) else cfg.minBodyRatio <= 0.0
  }

  // How far the close lies beyond a level, in direction d.
  function Excess(price: real, d: Direction, b: Bar): real {
    if d == Long then b.close - price else price - b.close
  }

  // The close, or the wick where that is enough, lies beyond the level, and the close by enough.
  predicate Breaches(cfg: Config, atr: real, price: real, d: Direction, b: Bar) {
    && Excess(price, d, b) >= cfg.bosAtr * atr
    && (if cfg.bodyClose then Excess(price, d, b) > 0.0
        else if d == Long then b.high > price else b.low < price)
  }

  // Bar k breaks the latest live swing in direction d.
  ghost predicate BreaksAt(o: seq<RawSwing>, cfg: Config, atr: real, past: seq<Event>, b: Bar, k: int, d: Direction,
      i: int)
  {
    LatestLive(o, past, d, k, i) && Breaches(cfg, atr, o[i].price, d, b)
  }

  ghost predicate Breaks(o: seq<RawSwing>, cfg: Config, atr: real, past: seq<Event>, b: Bar, k: int, d: Direction) {
    exists i :: BreaksAt(o, cfg, atr, past, b, k, d, i)
  }

  // The kind of a break, by the event before it and by its size.
  function KindOf(cfg: Config, atr: real, past: seq<Event>, d: Direction, excess: real): EventKind {
    if past == [] || past[|past| - 1].kind != Bos || past[|past| - 1].direction == d then Bos
    else if excess >= cfg.mssAtr * atr then Mss
    else Choch
  }

  // The event that reports bar k's break of the latest live swing in direction d.
  ghost predicate Reports(o: seq<RawSwing>, cfg: Config, atr: real, past: seq<Event>, b: Bar, k: int, d: Direction,
      e: Event)
  {
    && e.bar == k && e.direction == d && BreaksAt(o, cfg, atr, past, b, k, d, e.ref)
    && var excess := Excess(o[e.ref].price, d, b);
       && e.price == o[e.ref].price && e.breakPrice == b.close && e.displacementAtr * atr == excess
       && (if b.high > b.low then e.bodyRatio * (b.high - b.low) == Abs(b.close - b.open) else e.bodyRatio == 0.0)
       && e.kind == KindOf(cfg, atr, past, d, excess)
  }

  // ---------------------------------------------------------------- the stacks hold what is live

  ghost predicate Stacked(o: seq<RawSwing>, w: Walk, d: Direction) {
    forall i: nat :: i < w.ptr <= |o| && o[i].kind == KindFor(d) ==> (i in w.Stack(d) <==> Live(o, w.events, d, i))
  }

  lemma {:induction false} LiveUntilConfirmed(o: seq<RawSwing>, events: seq<Event>, d: Direction, i: nat)
    requires i < |o| && o[i].kind == KindFor(d)
    requires forall e :: 0 <= e < |events| ==> events[e].bar < o[i].confirmed
    ensures Live(o, events, d, i)
    decreases |events|
  {
    if events != [] {
      LiveUntilConfirmed(o, events[..|events| - 1], d, i);
    }
  }

  lemma PushOneStacks(o: seq<RawSwing>, w: Walk, d: Direction)
    requires Stacked(o, w, d) && Waiting(o, w.events, w.ptr) && w.ptr < |o|
    requires forall i :: 0 <= i < |w.Stack(d)| ==> w.Stack(d)[i] < w.ptr
    ensures Stacked(o, PushOne(o, w), d)
  {
    hide Live;
    var next := PushOne(o, w);
    if o[w.ptr].kind == KindFor(d) {
      LiveUntilConfirmed(o, w.events, d, w.ptr);
      assert next.Stack(d) == w.Stack(d) + [w.ptr];
    } else {
      assert next.Stack(d) == w.Stack(d);
    }
  }

  lemma {:induction false} PushStacks(o: seq<RawSwing>, w: Walk, k: nat, d: Direction)
    requires Stacked(o, w, d) && Core(o, w, k) && Waiting(o, w.events, w.ptr)
    ensures Stacked(o, PushConfirmed(o, w, k), d)
    decreases |o| - w.ptr
  {
    hide Stacked;
    if w.ptr < |o| && o[w.ptr].confirmed <= k {
      PushOneStacks(o, w, d);
      PushOneKeeps(o, w, k);
      PushStacks(o, PushOne(o, w), k, d);
    }
  }

  // What a break takes off its stack is what it sweeps.
  lemma EmitStacks(o: seq<RawSwing>, cfg: Config, atr: real, w: Walk, d: Direction, b: Bar, k: nat, side: Direction)
    requires Core(o, w, k) && Boundary(o, w, k) && Inside(o, w) && Stacked(o, w, side)
    requires w.Stack(d) != [] && atr > 0.0
    ensures Stacked(o, Emit(o, cfg, atr, w, d, b, k), side)
  {
    hide EventInv, NoCascade, Live, Swept, PopTaken, Shielded;
    var r := Emit(o, cfg, atr, w, d, b, k);
    var e := r.events[|w.events|];
    assert r.events[..|w.events|] == w.events && r.events == w.events + [e];
    forall i: nat | i < w.ptr && o[i].kind == KindFor(side)
      ensures i in r.Stack(side) <==> Live(o, r.events, side, i)
    {
      LivePush(o, w.events, e, side, i);
      if side == d {
        if i in w.Stack(d) {
          PoppedIsSwept(o, w, e, i);
        } else {
          assert r.Stack(d) <= w.Stack(d);
        }
      } else {
        OtherSideNotSwept(o, w.events, e, side, i);
      }
    }
  }

  lemma LivePush(o: seq<RawSwing>, events: seq<Event>, e: Event, d: Direction, i: nat)
    requires i < |o|
    ensures Live(o, events + [e], d, i) <==> Live(o, events, d, i) && !Swept(o, events, e, d, i)
  {
    hide Swept;
    assert (events + [e])[..|events|] == events;
  }

  lemma OtherSideNotSwept(o: seq<RawSwing>, events: seq<Event>, e: Event, d: Direction, i: nat)
    requires i < |o| && e.direction != d
    ensures !Swept(o, events, e, d, i)
  {
  }

  lemma PoppedIsSwept(o: seq<RawSwing>, w: Walk, e: Event, i: nat)
    requires Inside(o, w) && SideInv(o, w.Stack(e.direction), w.events, w.ptr, e.direction) && Boundary(o, w, e.bar)
    requires Stacked(o, w, e.direction) && i in w.Stack(e.direction)
    ensures i in PopTaken(o, w.Stack(e.direction), e.direction, e.breakPrice)
            <==> !Swept(o, w.events, e, e.direction, i)
  {
    hide Live, PopTaken, Shielded;
    var d, c, stack := e.direction, e.breakPrice, w.Stack(e.direction);
    var left := PopTaken(o, stack, d, c);
    PopMeaning(o, stack, d, c);
    var p :| 0 <= p < |stack| && stack[p] == i;
    if p < |left| {
      assert left[p] == i;
      var top := stack[|left| - 1];
      assert left[|left| - 1] == top && top >= i && Live(o, w.events, d, top) && o[top].confirmed <= e.bar;
    } else {
      forall j | i <= j < |o| && o[j].confirmed <= e.bar && Live(o, w.events, d, j)
        ensures if d == Long then o[j].price <= c else o[j].price >= c
      {
        LiveSide(o, w.events, d, j);
        assert j < w.ptr && j in stack;
        var q :| 0 <= q < |stack| && stack[q] == j;
        assert q >= p;
      }
      assert forall q :: 0 <= q < |left| ==> left[q] == stack[q] < i;
    }
  }

  lemma LiveSide(o: seq<RawSwing>, events: seq<Event>, d: Direction, i: int)
    requires Live(o, events, d, i)
    ensures 0 <= i < |o| && o[i].kind == KindFor(d)
  {
  }

  lemma {:induction false} RunStacks(series: seq<Bar>, o: seq<RawSwing>, cfg: Config, atr: real, k: nat, d: Direction)
    requires k <= |series| && atr > 0.0 && cfg.bosAtr >= 0.0 && ConfirmedOrder(o)
    ensures Stacked(o, Run(series, o, cfg, atr, k), d)
  {
    hide Stacked, Step, Core, Boundary, ConfirmedOrder;
    if k == 0 {
      NothingStacked(o, d);
    } else {
      RunStacks(series, o, cfg, atr, k - 1, d);
      StepStacks(series, o, cfg, atr, k - 1, d);
    }
  }

  lemma NothingStacked(o: seq<RawSwing>, d: Direction)
    ensures Stacked(o, START, d)
  {
  }

  lemma StepStacks(series: seq<Bar>, o: seq<RawSwing>, cfg: Config, atr: real, k: nat, d: Direction)
    requires k < |series| && atr > 0.0 && cfg.bosAtr >= 0.0 && ConfirmedOrder(o)
    requires Stacked(o, Run(series, o, cfg, atr, k), d)
    ensures Stacked(o, Run(series, o, cfg, atr, k + 1), d)
  {
    hide Stacked, Core, Boundary, ConfirmedOrder, Fires, Emit, PushConfirmed;
    var w, b := Run(series, o, cfg, atr, k), series[k];
    var p := Pushed(series, o, cfg, atr, k);
    PushedKeeps(series, o, cfg, atr, k);
    RunKeeps(series, o, cfg, atr, k);
    CoreWaits(o, w, k);
    PushStacks(o, w, k, d);
    if Fires(o, cfg, atr, p, Long, b) {
      FiredStack(o, cfg, atr, p, Long, b);
      EmitStacks(o, cfg, atr, p, Long, b, k, d);
    }
    if Fires(o, cfg, atr, p, Short, b) {
      FiredStack(o, cfg, atr, p, Short, b);
      EmitStacks(o, cfg, atr, p, Short, b, k, d);
    }
  }

  lemma FiredStack(o: seq<RawSwing>, cfg: Config, atr: real, w: Walk, d: Direction, b: Bar)
    requires Inside(o, w) && Fires(o, cfg, atr, w, d, b)
    ensures w.Stack(d) != []
  {
  }

  // The walk at bar k, once the swings confirmed by it are pushed.
  ghost function Pushed(series: seq<Bar>, o: seq<RawSwing>, cfg: Config, atr: real, k: nat): Walk
    requires k < |series| && atr > 0.0
  {
    PushConfirmed(o, Run(series, o, cfg, atr, k), k)
  }

  lemma PushedKeeps(series: seq<Bar>, o: seq<RawSwing>, cfg: Config, atr: real, k: nat)
    requires k < |series| && atr > 0.0 && cfg.bosAtr >= 0.0 && ConfirmedOrder(o)
    ensures var p := Pushed(series, o, cfg, atr, k);
            Core(o, p, k) && Boundary(o, p, k) && Inside(o, p) && p.events == Run(series, o, cfg, atr, k).events
            && p.bias == Run(series, o, cfg, atr, k).bias
  {
    hide Core, ConfirmedOrder, PushConfirmed;
    var w := Run(series, o, cfg, atr, k);
    RunKeeps(series, o, cfg, atr, k);
    CoreWaits(o, w, k);
    BoundaryBefore(o, w, k);
    PushKeeps(o, w, k);
  }

  // ---------------------------------------------------------------- one bar

  // The top of a stack is the latest live swing confirmed by then.
  lemma TopIsLatest(o: seq<RawSwing>, w: Walk, k: nat, d: Direction, i: int)
    requires Core(o, w, k) && Boundary(o, w, k) && Inside(o, w) && Stacked(o, w, d)
    ensures LatestLive(o, w.events, d, k, i) <==> w.Stack(d) != [] && i == w.Stack(d)[|w.Stack(d)| - 1]
  {
    hide EventInv, NoCascade, Shielded, Live;
    var stack := w.Stack(d);
    forall j: int | 0 <= j < |o| && Live(o, w.events, d, j) && o[j].confirmed <= k
      ensures j < w.ptr && j in stack
    {
      LiveSide(o, w.events, d, j);
    }
    if stack != [] {
      var top := stack[|stack| - 1];
      assert Live(o, w.events, d, top) && o[top].confirmed <= k;
      assert forall q :: 0 <= q < |stack| ==> stack[q] <= top;
      if LatestLive(o, w.events, d, k, i) {
        LiveSide(o, w.events, d, i);
        assert !(top < i) && !(i < top);
      }
    }
    if LatestLive(o, w.events, d, k, i) {
      LiveSide(o, w.events, d, i);
      assert i in stack;
    }
  }

  lemma FiresMeans(o: seq<RawSwing>, cfg: Config, atr: real, w: Walk, b: Bar, k: nat, d: Direction)
    requires Core(o, w, k) && Boundary(o, w, k) && Inside(o, w) && Stacked(o, w, d)
    ensures Fires(o, cfg, atr, w, d, b) <==> Breaks(o, cfg, atr, w.events, b, k, d)
    ensures Fires(o, cfg, atr, w, d, b) ==>
              w.Stack(d) != [] && BreaksAt(o, cfg, atr, w.events, b, k, d, w.Stack(d)[|w.Stack(d)| - 1])
  {
    hide Core, Boundary, Stacked, LatestLive;
    forall i
      ensures LatestLive(o, w.events, d, k, i) <==> w.Stack(d) != [] && i == w.Stack(d)[|w.Stack(d)| - 1]
    {
      TopIsLatest(o, w, k, d, i);
    }
    if w.Stack(d) != [] {
      var top := w.Stack(d)[|w.Stack(d)| - 1];
      assert Inside(o, w) && top < |o|;
      assert Fires(o, cfg, atr, w, d, b) <==> Breaches(cfg, atr, o[top].price, d, b);
      assert Breaches(cfg, atr, o[top].price, d, b) ==> BreaksAt(o, cfg, atr, w.events, b, k, d, top);
    }
  }

  lemma DecisiveMeans(cfg: Config, b: Bar)
    ensures BodyRatio(b) >= cfg.minBodyRatio <==> Decisive(cfg, b)
    ensures if b.high > b.low then BodyRatio(b) * (b.high - b.low) == Abs(b.close - b.open) else BodyRatio(b) == 0.0
  {
    hide Abs;
    var range := b.high - b.low;
    if range > 0.0 {
      QuotientTimes(Abs(b.close - b.open), range);
      assert (BodyRatio(b) - cfg.minBodyRatio) * range == Abs(b.close - b.open) - cfg.minBodyRatio * range;
    }
  }

  lemma EmitReports(o: seq<RawSwing>, cfg: Config, atr: real, w: Walk, d: Direction, b: Bar, k: nat)
    requires Inside(o, w) && w.Stack(d) != [] && atr > 0.0 && BiasLaw(w.events, w.bias)
    requires BreaksAt(o, cfg, atr, w.events, b, k, d, w.Stack(d)[|w.Stack(d)| - 1])
    ensures var r := Emit(o, cfg, atr, w, d, b, k);
            r.events == w.events + [r.events[|w.events|]]
            && Reports(o, cfg, atr, w.events, b, k, d, r.events[|w.events|])
  {
    hide BreaksAt, BodyRatio, BosAllowed;
    DecisiveMeans(cfg, b);
    var ref := o[w.Stack(d)[|w.Stack(d)| - 1]];
    QuotientTimes(Excess(ref.price, d, b), atr);
    assert w.bias == BiasFor(d.Opposite()) <==>
           w.events != [] && w.events[|w.events| - 1].kind == Bos && w.events[|w.events| - 1].direction != d;
  }

  // What one bar adds to the events.
  ghost predicate Added(o: seq<RawSwing>, cfg: Config, atr: real, past: seq<Event>, b: Bar, k: int, added: seq<Event>) {
    var up, down := Breaks(o, cfg, atr, past, b, k, Long), Breaks(o, cfg, atr, past, b, k, Short);
    if Decisive(cfg, b) && (up || down) then
      |added| == 1 && Reports(o, cfg, atr, past, b, k, if up then Long else Short, added[0])
    else added == []
  }

  lemma BarReports(series: seq<Bar>, o: seq<RawSwing>, cfg: Config, atr: real, k: nat) returns (added: seq<Event>)
    requires k < |series| && atr > 0.0 && cfg.bosAtr >= 0.0 && ConfirmedOrder(o)
    ensures Run(series, o, cfg, atr, k + 1).events == Run(series, o, cfg, atr, k).events + added
    ensures Added(o, cfg, atr, Run(series, o, cfg, atr, k).events, series[k], k, added)
  {
    hide Core, Boundary, ConfirmedOrder, Fires, Emit, PushConfirmed, Stacked, Breaks, Reports, BiasLaw, BreaksAt,
        BodyRatio, Decisive;
    var w, b, p := Run(series, o, cfg, atr, k), series[k], Pushed(series, o, cfg, atr, k);
    PushedKeeps(series, o, cfg, atr, k);
    PushedStacks(series, o, cfg, atr, k, Long);
    PushedStacks(series, o, cfg, atr, k, Short);
    FiresMeans(o, cfg, atr, p, b, k, Long);
    FiresMeans(o, cfg, atr, p, b, k, Short);
    DecisiveMeans(cfg, b);
    BiasNeverFlips(series, o, cfg, atr, k);
    var r := Run(series, o, cfg, atr, k + 1);
    if Decisive(cfg, b) && Fires(o, cfg, atr, p, Long, b) {
      EmitReports(o, cfg, atr, p, Long, b, k);
      added := [r.events[|w.events|]];
    } else if Decisive(cfg, b) && Fires(o, cfg, atr, p, Short, b) {
      EmitReports(o, cfg, atr, p, Short, b, k);
      added := [r.events[|w.events|]];
    } else {
      added := [];
    }
  }

  lemma PushedStacks(series: seq<Bar>, o: seq<RawSwing>, cfg: Config, atr: real, k: nat, d: Direction)
    requires k < |series| && atr > 0.0 && cfg.bosAtr >= 0.0 && ConfirmedOrder(o)
    ensures Stacked(o, Pushed(series, o, cfg, atr, k), d)
  {
    hide Core, ConfirmedOrder, PushConfirmed, Stacked;
    var w := Run(series, o, cfg, atr, k);
    RunKeeps(series, o, cfg, atr, k);
    RunStacks(series, o, cfg, atr, k, d);
    CoreWaits(o, w, k);
    PushStacks(o, w, k, d);
  }

  // ---------------------------------------------------------------- the whole run

  /** Completeness.  Of any series and swings, bar k is reported exactly when its body is large
      enough and it breaks the latest structural high still live or, failing that, the latest such
      low; the one event it gets is for that swing and side, with the close and the displacement
      of the bar, and is a break with the trend unless the event before it was one to the other
      side: then it is an MSS from the larger displacement on and a CHOCH below it. */
  lemma ReportsExactlyTheBreaks(series: seq<Bar>, swings: seq<RawSwing>, cfg: Config, atr: real, k: nat)
    requires k < |series| && atr > 0.0 && cfg.bosAtr >= 0.0
    ensures var ev := Events(series, swings, cfg, atr);
            Added(Ordered(swings), cfg, atr, Filter(ev, (e: Event) => e.bar < k), series[k], k,
                  Filter(ev, (e: Event) => e.bar == k))
  {
    hide Run, Core, Boundary, ConfirmedOrder, Added, Filter;
    var o := Ordered(swings);
    OrderedIsConfirmedOrder(swings);
    var added := BarReports(series, o, cfg, atr, k);
    var past := Run(series, o, cfg, atr, k);
    RunKeeps(series, o, cfg, atr, k);
    EventsBefore(o, past, k);
    var later := RunAppends(series, o, cfg, atr, k + 1, |series|);
    AddedAt(o, cfg, atr, past.events, series[k], k, added);
    CutAround(past.events, added, later, k);
  }

  lemma CutAround(past: seq<Event>, added: seq<Event>, later: seq<Event>, k: int)
    requires forall e :: e in past ==> e.bar < k
    requires forall e :: e in added ==> e.bar == k
    requires forall e :: e in later ==> e.bar > k
    ensures Filter(past + added + later, (e: Event) => e.bar < k) == past
    ensures Filter(past + added + later, (e: Event) => e.bar == k) == added
  {
    hide Filter;
    var before, at := (e: Event) => e.bar < k, (e: Event) => e.bar == k;
    FilterAppend(past + added, later, before);
    FilterAppend(past, added, before);
    FilterAll(past, before);
    FilterNone(added, before);
    FilterNone(later, before);
    FilterAppend(past + added, later, at);
    FilterAppend(past, added, at);
    FilterNone(past, at);
    FilterAll(added, at);
    FilterNone(later, at);
  }

  lemma AddedAt(o: seq<RawSwing>, cfg: Config, atr: real, past: seq<Event>, b: Bar, k: int, added: seq<Event>)
    requires Added(o, cfg, atr, past, b, k, added)
    ensures forall e :: e in added ==> e.bar == k
  {
    hide BreaksAt, Breaks;
  }
}
