/** The forward walk that turns confirmed swings into BOS / CHOCH / MSS events
    (src/xauusd/core/structure.py, `StructureEngine.detect_events`). */
module StructureEvents {
  import opened Domain
  import opened Sequences
  import opened Swings

  datatype Bias = Bullish | Bearish | Neutral
  datatype EventKind = Bos | Choch | Mss

  datatype Config = Config(bosAtr: real, mssAtr: real, minBodyRatio: real, bodyClose: bool)

  // `ref` is the broken swing's position in confirmation order; `bar` dates the event.
  datatype Event = Event(
    bar: nat, kind: EventKind, direction: Direction, ref: nat, price: real,
    breakPrice: real, displacementAtr: real, bodyRatio: real)

  // The two stacks hold positions in the confirmation-ordered swing list.
  datatype Walk = Walk(ptr: nat, highs: seq<nat>, lows: seq<nat>, bias: Bias, events: seq<Event>) {
    function Stack(d: Direction): seq<nat> {
      if d == Long then highs else lows
    }

    function WithStack(d: Direction, s: seq<nat>): Walk {
      if d == Long then this.(highs := s) else this.(lows := s)
    }
  }

  const START := Walk(0, [], [], Neutral, [])

  predicate ByConfirmed(a: RawSwing, b: RawSwing) {
    a.confirmed <= b.confirmed
  }

  function Ordered(swings: seq<RawSwing>): seq<RawSwing> {
    Sort(Filter(swings, (s: RawSwing) => s.structural), ByConfirmed)
  }

  // The anti-lookahead filter.
  function VisibleSwings(swings: seq<RawSwing>, at: int): seq<RawSwing> {
    Filter(swings, (s: RawSwing) => s.confirmed <= at)
  }

  function KindFor(d: Direction): Kind {
    if d == Long then High else Low
  }

  function BiasFor(d: Direction): Bias {
    if d == Long then Bullish else Bearish
  }

  function BodyRatio(b: Bar): real {
    var range := b.high - b.low;
    if range > 0.0 then Abs(b.close - b.open) / range else 0.0
  }

  // ---------------------------------------------------------------- one bar of the walk

  predicate Inside(ordered: seq<RawSwing>, w: Walk) {
    && w.ptr <= |ordered|
    && (forall i :: 0 <= i < |w.highs| ==> w.highs[i] < w.ptr)
    && (forall i :: 0 <= i < |w.lows| ==> w.lows[i] < w.ptr)
  }

  // Push every swing confirmed by bar k onto the stack of its kind.
  function PushConfirmed(ordered: seq<RawSwing>, w: Walk, k: int): (r: Walk)
    requires Inside(ordered, w)
    ensures Inside(ordered, r) && r.bias == w.bias && r.events == w.events
    decreases |ordered| - w.ptr
  {
    if w.ptr < |ordered| && ordered[w.ptr].confirmed <= k then
      var w' := if ordered[w.ptr].kind == High then w.(highs := w.highs + [w.ptr], ptr := w.ptr + 1)
                else w.(lows := w.lows + [w.ptr], ptr := w.ptr + 1);
      PushConfirmed(ordered, w', k)
    else w
  }

  // A break in direction d closing at c has taken every level it reaches.
  predicate Taken(price: real, d: Direction, c: real) {
    if d == Long then price <= c else price >= c
  }

  function PopTaken(ordered: seq<RawSwing>, stack: seq<nat>, d: Direction, c: real): (r: seq<nat>)
    requires forall i :: 0 <= i < |stack| ==> stack[i] < |ordered|
    ensures r <= stack
  {
    if stack != [] && Taken(ordered[stack[|stack| - 1]].price, d, c)
    then PopTaken(ordered, stack[..|stack| - 1], d, c)
    else stack
  }

  function Displacement(ref: RawSwing, d: Direction, c: real): real {
    if d == Long then c - ref.price else ref.price - c
  }

  predicate Broke(ref: RawSwing, d: Direction, b: Bar, bodyClose: bool) {
    if d == Long then (if bodyClose then b.close > ref.price else b.high > ref.price)
    else (if bodyClose then b.close < ref.price else b.low < ref.price)
  }

  predicate Fires(ordered: seq<RawSwing>, cfg: Config, atr: real, w: Walk, d: Direction, b: Bar)
    requires Inside(ordered, w)
  {
    var stack := w.Stack(d);
    stack != []
    && var ref := ordered[stack[|stack| - 1]];
       Broke(ref, d, b, cfg.bodyClose) && Displacement(ref, d, b.close) >= cfg.bosAtr * atr
  }

  function Emit(ordered: seq<RawSwing>, cfg: Config, atr: real, w: Walk, d: Direction, b: Bar, k: nat): (r: Walk)
    requires Inside(ordered, w) && w.Stack(d) != [] && atr > 0.0
    ensures Inside(ordered, r) && r.ptr == w.ptr
  {
    var stack := w.Stack(d);
    var ref := ordered[stack[|stack| - 1]];
    var disp := Displacement(ref, d, b.close);
    var against := w.bias == BiasFor(d.Opposite());
    var kind := if against then (if disp >= cfg.mssAtr * atr then Mss else Choch) else Bos;
    var event := Event(k, kind, d, stack[|stack| - 1], ref.price, b.close, disp / atr, BodyRatio(b));
    w.WithStack(d, PopTaken(ordered, stack, d, b.close))
     .(events := w.events + [event], bias := if kind == Bos then BiasFor(d) else Neutral)
  }

  function Step(ordered: seq<RawSwing>, cfg: Config, atr: real, w: Walk, b: Bar, k: nat): (r: Walk)
    requires Inside(ordered, w) && atr > 0.0
    ensures Inside(ordered, r)
  {
    var w := PushConfirmed(ordered, w, k);
    if w.highs == [] && w.lows == [] then w
    else if BodyRatio(b) < cfg.minBodyRatio then w
    else if Fires(ordered, cfg, atr, w, Long, b) then Emit(ordered, cfg, atr, w, Long, b, k)
    else if Fires(ordered, cfg, atr, w, Short, b) then Emit(ordered, cfg, atr, w, Short, b, k)
    else w
  }

  // The state after the first k bars.
  function Run(series: seq<Bar>, ordered: seq<RawSwing>, cfg: Config, atr: real, k: nat): (r: Walk)
    requires k <= |series| && atr > 0.0
    ensures Inside(ordered, r)
  {
    if k == 0 then START
    else Step(ordered, cfg, atr, Run(series, ordered, cfg, atr, k - 1), series[k - 1], k - 1)
  }

  function Events(series: seq<Bar>, swings: seq<RawSwing>, cfg: Config, atr: real): seq<Event> {
    if atr <= 0.0 then [] else Run(series, Ordered(swings), cfg, atr, |series|).events
  }

  // ---------------------------------------------------------------- the loop itself

  method PopLoop(ordered: seq<RawSwing>, stack: seq<nat>, d: Direction, c: real) returns (s: seq<nat>)
    requires forall i :: 0 <= i < |stack| ==> stack[i] < |ordered|
    ensures s == PopTaken(ordered, stack, d, c)
  {
    s := stack;
    while s != [] && Taken(ordered[s[|s| - 1]].price, d, c)
      invariant s <= stack && PopTaken(ordered, s, d, c) == PopTaken(ordered, stack, d, c)
      decreases |s|
    {
      s := s[..|s| - 1];
    }
  }

  method PushLoop(ordered: seq<RawSwing>, w: Walk, k: int) returns (ptr: nat, highs: seq<nat>, lows: seq<nat>)
    requires Inside(ordered, w)
    ensures w.(ptr := ptr, highs := highs, lows := lows) == PushConfirmed(ordered, w, k)
  {
    ptr, highs, lows := w.ptr, w.highs, w.lows;
    while ptr < |ordered| && ordered[ptr].confirmed <= k
      invariant Inside(ordered, w.(ptr := ptr, highs := highs, lows := lows))
      invariant PushConfirmed(ordered, w.(ptr := ptr, highs := highs, lows := lows), k) == PushConfirmed(ordered, w, k)
      decreases |ordered| - ptr
    {
      if ordered[ptr].kind == High {
        highs := highs + [ptr];
      } else {
        lows := lows + [ptr];
      }
      ptr := ptr + 1;
    }
  }

  // One direction of the break test: fire, pop the taken swings, record, move the bias.
  method TryBreak(ordered: seq<RawSwing>, cfg: Config, atr: real, w: Walk, d: Direction, b: Bar, k: nat)
    returns (fired: bool, r: Walk)
    requires Inside(ordered, w) && atr > 0.0
    ensures fired == Fires(ordered, cfg, atr, w, d, b)
    ensures r == if fired then Emit(ordered, cfg, atr, w, d, b, k) else w
  {
    var stack := w.Stack(d);
    if stack == [] {
      return false, w;
    }
    var ref := stack[|stack| - 1];
    var disp := Displacement(ordered[ref], d, b.close);
    var broke := Broke(ordered[ref], d, b, cfg.bodyClose);
    if !broke || disp < cfg.bosAtr * atr {
      return false, w;
    }
    stack := PopLoop(ordered, stack, d, b.close);
    var against := w.bias == BiasFor(d.Opposite());
    var kind := if against then Choch else Bos;
    if against && disp >= cfg.mssAtr * atr {
      kind := Mss;
    }
    var event := Event(k, kind, d, ref, ordered[ref].price, b.close, disp / atr, BodyRatio(b));
    fired := true;
    r := w.WithStack(d, stack).(events := w.events + [event], bias := if kind == Bos then BiasFor(d) else Neutral);
  }

  // The body of the bar loop: push what became visible, then try the bullish break and,
  // only if it did not fire, the bearish one.
  method StepLoop(ordered: seq<RawSwing>, cfg: Config, atr: real, w: Walk, b: Bar, k: nat) returns (r: Walk)
    requires Inside(ordered, w) && atr > 0.0
    ensures r == Step(ordered, cfg, atr, w, b, k)
  {
    var ptr, highs, lows := PushLoop(ordered, w, k);
    r := w.(ptr := ptr, highs := highs, lows := lows);
    if (highs == [] && lows == []) || BodyRatio(b) < cfg.minBodyRatio {
      return;
    }
    var fired: bool;
    fired, r := TryBreak(ordered, cfg, atr, r, Long, b, k);
    if !fired {
      fired, r := TryBreak(ordered, cfg, atr, r, Short, b, k);
    }
  }

  method DetectEvents(series: seq<Bar>, swings: seq<RawSwing>, cfg: Config, atr: real) returns (events: seq<Event>)
    ensures events == Events(series, swings, cfg, atr)
  {
    if atr <= 0.0 {
      return [];
    }
    var ordered := Ordered(swings);
    var walk := START;
    for k := 0 to |series|
      invariant walk == Run(series, ordered, cfg, atr, k)
    {
      walk := StepLoop(ordered, cfg, atr, walk, series[k], k);
    }
    events := walk.events;
  }

  // ---------------------------------------------------------------- what every run keeps

  ghost predicate ConfirmedOrder(ordered: seq<RawSwing>) {
    forall i, j :: 0 <= i < j < |ordered| ==> ordered[i].confirmed <= ordered[j].confirmed
  }

  ghost predicate EventInv(ordered: seq<RawSwing>, events: seq<Event>, ptr: nat, k: nat) {
    && ptr <= |ordered|
    && (forall e :: 0 <= e < |events| ==> GoodEvent(ordered, events[e], ptr, k))
    && (forall e, f :: 0 <= e < f < |events| ==> events[e].bar < events[f].bar && events[e].ref != events[f].ref)
  }

  ghost predicate GoodEvent(ordered: seq<RawSwing>, e: Event, ptr: nat, k: nat)
    requires ptr <= |ordered|
  {
    && e.bar < k && e.ref < ptr
    && ordered[e.ref].confirmed <= e.bar && ordered[e.ref].kind == KindFor(e.direction)
    && e.price == ordered[e.ref].price
  }

  // Entry p was confirmed by `bar` and nothing above it was.
  ghost predicate Exposed(ordered: seq<RawSwing>, stack: seq<nat>, bar: int, p: int)
    requires forall i :: 0 <= i < |stack| ==> stack[i] < |ordered|
  {
    && 0 <= p < |stack| && ordered[stack[p]].confirmed <= bar
    && (p + 1 < |stack| ==> ordered[stack[p + 1]].confirmed > bar)
  }

  // After a break in direction d closing at c on that bar, the entry exposed among those
  // confirmed by then lies strictly beyond c.
  ghost predicate Shielded(ordered: seq<RawSwing>, stack: seq<nat>, d: Direction, c: real, bar: int)
    requires forall i :: 0 <= i < |stack| ==> stack[i] < |ordered|
  {
    forall p :: Exposed(ordered, stack, bar, p) ==> !Taken(ordered[stack[p]].price, d, c)
  }

  // One stack: bar-ordered, of one kind, free of already broken swings, and shielded against
  // every past break on its side.
  ghost predicate SideInv(ordered: seq<RawSwing>, stack: seq<nat>, events: seq<Event>, ptr: nat, d: Direction) {
    && ptr <= |ordered|
    && (forall i :: 0 <= i < |stack| ==> stack[i] < ptr && ordered[stack[i]].kind == KindFor(d))
    && (forall i, j :: 0 <= i < j < |stack| ==> stack[i] < stack[j])
    && (forall e, i :: 0 <= e < |events| && 0 <= i < |stack| ==> events[e].ref != stack[i])
    && (forall e :: 0 <= e < |events| && events[e].direction == d ==>
          Shielded(ordered, stack, d, events[e].breakPrice, events[e].bar))
  }

  ghost predicate NoCascade(ordered: seq<RawSwing>, events: seq<Event>) {
    forall e, f :: 0 <= e < f < |events| && events[e].direction == events[f].direction
                   && events[f].ref < |ordered| && ordered[events[f].ref].confirmed <= events[e].bar ==>
                   !Taken(events[f].price, events[e].direction, events[e].breakPrice)
  }

  ghost predicate Core(ordered: seq<RawSwing>, w: Walk, k: nat) {
    && SideInv(ordered, w.highs, w.events, w.ptr, Long)
    && SideInv(ordered, w.lows, w.events, w.ptr, Short)
    && EventInv(ordered, w.events, w.ptr, k)
    && NoCascade(ordered, w.events)
  }

  ghost predicate Boundary(ordered: seq<RawSwing>, w: Walk, k: int) {
    && w.ptr <= |ordered|
    && (forall i :: 0 <= i < w.ptr ==> ordered[i].confirmed <= k)
    && (forall i :: w.ptr <= i < |ordered| ==> ordered[i].confirmed > k)
  }

  function PushOne(ordered: seq<RawSwing>, w: Walk): Walk
    requires w.ptr < |ordered|
  {
    if ordered[w.ptr].kind == High then w.(highs := w.highs + [w.ptr], ptr := w.ptr + 1)
    else w.(lows := w.lows + [w.ptr], ptr := w.ptr + 1)
  }

  // Nothing still waiting was confirmed by the bar of an event already emitted.
  ghost predicate Waiting(ordered: seq<RawSwing>, events: seq<Event>, ptr: nat) {
    forall i, e :: ptr <= i < |ordered| && 0 <= e < |events| ==> events[e].bar < ordered[i].confirmed
  }

  lemma PushShields(ordered: seq<RawSwing>, stack: seq<nat>, next: nat, d: Direction, c: real, bar: int)
    requires forall i :: 0 <= i < |stack| ==> stack[i] < |ordered|
    requires next < |ordered| && ordered[next].confirmed > bar
    requires Shielded(ordered, stack, d, c, bar)
    ensures Shielded(ordered, stack + [next], d, c, bar)
  {
    forall p | Exposed(ordered, stack + [next], bar, p)
      ensures !Taken(ordered[(stack + [next])[p]].price, d, c)
    {
      assert p < |stack| && Exposed(ordered, stack, bar, p);
    }
  }

  lemma EventsWeaken(ordered: seq<RawSwing>, events: seq<Event>, ptr: nat, ptr': nat, k: nat, k': nat)
    requires EventInv(ordered, events, ptr, k) && ptr <= ptr' <= |ordered| && k <= k'
    ensures EventInv(ordered, events, ptr', k')
  {
    forall e | 0 <= e < |events|
      ensures GoodEvent(ordered, events[e], ptr', k')
    {
      assert GoodEvent(ordered, events[e], ptr, k);
    }
  }

  lemma PushSide(ordered: seq<RawSwing>, stack: seq<nat>, events: seq<Event>, ptr: nat, k: nat, d: Direction)
    requires SideInv(ordered, stack, events, ptr, d) && EventInv(ordered, events, ptr, k)
    requires ptr < |ordered| && ordered[ptr].kind == KindFor(d) && Waiting(ordered, events, ptr)
    ensures SideInv(ordered, stack + [ptr], events, ptr + 1, d)
  {
    forall e | 0 <= e < |events|
      ensures events[e].ref != ptr
      ensures events[e].direction == d ==> Shielded(ordered, stack + [ptr], d, events[e].breakPrice, events[e].bar)
    {
      assert GoodEvent(ordered, events[e], ptr, k);
      if events[e].direction == d {
        PushShields(ordered, stack, ptr, d, events[e].breakPrice, events[e].bar);
      }
    }
  }

  lemma PushOneKeeps(ordered: seq<RawSwing>, w: Walk, k: nat)
    requires Core(ordered, w, k) && Waiting(ordered, w.events, w.ptr) && w.ptr < |ordered|
    ensures Core(ordered, PushOne(ordered, w), k) && Waiting(ordered, w.events, w.ptr + 1)
  {
    EventsWeaken(ordered, w.events, w.ptr, w.ptr + 1, k, k);
    if ordered[w.ptr].kind == High {
      PushSide(ordered, w.highs, w.events, w.ptr, k, Long);
    } else {
      PushSide(ordered, w.lows, w.events, w.ptr, k, Short);
    }
  }

  lemma {:induction false} PushKeeps(ordered: seq<RawSwing>, w: Walk, k: nat)
    requires ConfirmedOrder(ordered) && Core(ordered, w, k) && Waiting(ordered, w.events, w.ptr)
    requires forall i :: 0 <= i < w.ptr ==> ordered[i].confirmed <= k
    ensures Core(ordered, PushConfirmed(ordered, w, k), k)
    ensures Boundary(ordered, PushConfirmed(ordered, w, k), k)
    decreases |ordered| - w.ptr
  {
    hide Core;
    if w.ptr < |ordered| && ordered[w.ptr].confirmed <= k {
      PushOneKeeps(ordered, w, k);
      PushKeeps(ordered, PushOne(ordered, w), k);
    }
  }

  // Popping removes exactly the taken suffix.
  lemma {:induction false} PopMeaning(ordered: seq<RawSwing>, stack: seq<nat>, d: Direction, c: real)
    requires forall i :: 0 <= i < |stack| ==> stack[i] < |ordered|
    ensures var r := PopTaken(ordered, stack, d, c);
            && (r != [] ==> !Taken(ordered[r[|r| - 1]].price, d, c))
            && (forall i :: |r| <= i < |stack| ==> Taken(ordered[stack[i]].price, d, c))
  {
    if stack != [] && Taken(ordered[stack[|stack| - 1]].price, d, c) {
      PopMeaning(ordered, stack[..|stack| - 1], d, c);
    }
  }

  // The topmost entry from p on that was confirmed by `bar`.
  lemma {:induction false} Topmost(ordered: seq<RawSwing>, stack: seq<nat>, bar: int, p: nat) returns (q: nat)
    requires forall i :: 0 <= i < |stack| ==> stack[i] < |ordered|
    requires p < |stack| && ordered[stack[p]].confirmed <= bar
    ensures p <= q && Exposed(ordered, stack, bar, q)
    decreases |stack| - p
  {
    q := p;
    if p + 1 < |stack| && ordered[stack[p + 1]].confirmed <= bar {
      q := Topmost(ordered, stack, bar, p + 1);
    }
  }

  // A later break cannot expose a level an earlier one had already taken.
  lemma ShieldSurvivesPop(ordered: seq<RawSwing>, stack: seq<nat>, d: Direction, later: real, c: real, bar: int)
    requires forall i :: 0 <= i < |stack| ==> stack[i] < |ordered|
    requires Shielded(ordered, stack, d, c, bar)
    ensures Shielded(ordered, PopTaken(ordered, stack, d, later), d, c, bar)
  {
    var r := PopTaken(ordered, stack, d, later);
    PopMeaning(ordered, stack, d, later);
    forall p | Exposed(ordered, r, bar, p)
      ensures !Taken(ordered[r[p]].price, d, c)
    {
      assert r[p] == stack[p] && (p + 1 < |r| ==> r[p + 1] == stack[p + 1]);
      var q := Topmost(ordered, stack, bar, p);
      assert !Taken(ordered[stack[q]].price, d, c);
    }
  }

  // The side that fired: its top is gone, and it is shielded against the new break too.
  lemma FiredSide(ordered: seq<RawSwing>, stack: seq<nat>, events: seq<Event>, ptr: nat, e: Event)
    requires SideInv(ordered, stack, events, ptr, e.direction) && stack != []
    requires e.ref == stack[|stack| - 1] && Taken(ordered[e.ref].price, e.direction, e.breakPrice)
    requires forall i :: 0 <= i < ptr ==> ordered[i].confirmed <= e.bar
    ensures SideInv(ordered, PopTaken(ordered, stack, e.direction, e.breakPrice), events + [e], ptr, e.direction)
  {
    var d, after := e.direction, events + [e];
    var left := PopTaken(ordered, stack, d, e.breakPrice);
    PopMeaning(ordered, stack, d, e.breakPrice);
    assert |left| < |stack| && forall i :: 0 <= i < |left| ==> left[i] == stack[i];
    forall i | 0 <= i < |after|
      ensures forall j :: 0 <= j < |left| ==> after[i].ref != left[j]
      ensures after[i].direction == d ==> Shielded(ordered, left, d, after[i].breakPrice, after[i].bar)
    {
      if i < |events| && events[i].direction == d {
        ShieldSurvivesPop(ordered, stack, d, e.breakPrice, events[i].breakPrice, events[i].bar);
      }
    }
  }

  lemma NewEventKeeps(ordered: seq<RawSwing>, stack: seq<nat>, events: seq<Event>, ptr: nat, e: Event)
    requires SideInv(ordered, stack, events, ptr, e.direction) && stack != []
    requires EventInv(ordered, events, ptr, e.bar) && NoCascade(ordered, events)
    requires e.ref == stack[|stack| - 1] && e.price == ordered[e.ref].price
    requires forall i :: 0 <= i < ptr ==> ordered[i].confirmed <= e.bar
    ensures EventInv(ordered, events + [e], ptr, e.bar + 1) && NoCascade(ordered, events + [e])
  {
    forall i | 0 <= i < |events|
      ensures GoodEvent(ordered, events[i], ptr, e.bar + 1)
      ensures events[i].bar < e.bar && events[i].ref != e.ref
      ensures events[i].direction == e.direction && ordered[e.ref].confirmed <= events[i].bar ==>
                !Taken(e.price, e.direction, events[i].breakPrice)
    {
      assert GoodEvent(ordered, events[i], ptr, e.bar);
      if events[i].direction == e.direction && ordered[e.ref].confirmed <= events[i].bar {
        assert Exposed(ordered, stack, events[i].bar, |stack| - 1);
      }
    }
  }

  // The side that did not fire is untouched, and the new event is not about it.
  lemma OtherSide(ordered: seq<RawSwing>, stack: seq<nat>, events: seq<Event>, ptr: nat, e: Event)
    requires SideInv(ordered, stack, events, ptr, e.direction.Opposite())
    requires e.ref < |ordered| && ordered[e.ref].kind == KindFor(e.direction)
    ensures SideInv(ordered, stack, events + [e], ptr, e.direction.Opposite())
  {
    hide Shielded;
    assert forall i :: 0 <= i < |stack| ==> ordered[stack[i]].kind != ordered[e.ref].kind;
  }

  lemma EmitKeeps(ordered: seq<RawSwing>, cfg: Config, atr: real, w: Walk, d: Direction, b: Bar, k: nat)
    requires Core(ordered, w, k) && Boundary(ordered, w, k) && Inside(ordered, w)
    requires atr > 0.0 && cfg.bosAtr >= 0.0 && Fires(ordered, cfg, atr, w, d, b)
    ensures Core(ordered, Emit(ordered, cfg, atr, w, d, b, k), k + 1)
  {
    hide EventInv, NoCascade, Shielded;
    var r := Emit(ordered, cfg, atr, w, d, b, k);
    var stack, e := w.Stack(d), r.events[|w.events|];
    MulMonotone(0.0, cfg.bosAtr, atr);
    FiredSide(ordered, stack, w.events, w.ptr, e);
    NewEventKeeps(ordered, stack, w.events, w.ptr, e);
    OtherSide(ordered, w.Stack(d.Opposite()), w.events, w.ptr, e);
    assert r.events == w.events + [e];
  }

  lemma CoreWaits(ordered: seq<RawSwing>, w: Walk, k: nat)
    requires Core(ordered, w, k) && (k > 0 ==> Boundary(ordered, w, k - 1)) && (k == 0 ==> w == START)
    ensures Waiting(ordered, w.events, w.ptr)
  {
    assert forall e :: 0 <= e < |w.events| ==> GoodEvent(ordered, w.events[e], w.ptr, k);
  }

  lemma BoundaryBefore(ordered: seq<RawSwing>, w: Walk, k: nat)
    requires (k > 0 ==> Boundary(ordered, w, k - 1)) && (k == 0 ==> w == START)
    ensures forall i :: 0 <= i < w.ptr <= |ordered| ==> ordered[i].confirmed <= k
  {
  }

  lemma StepKeeps(ordered: seq<RawSwing>, cfg: Config, atr: real, w: Walk, b: Bar, k: nat)
    requires ConfirmedOrder(ordered) && Core(ordered, w, k) && Inside(ordered, w)
    requires (k > 0 ==> Boundary(ordered, w, k - 1)) && (k == 0 ==> w == START)
    requires atr > 0.0 && cfg.bosAtr >= 0.0
    ensures Core(ordered, Step(ordered, cfg, atr, w, b, k), k + 1)
    ensures Boundary(ordered, Step(ordered, cfg, atr, w, b, k), k)
  {
    hide SideInv, EventInv, NoCascade, Emit, ConfirmedOrder, Fires, Waiting;
    CoreWaits(ordered, w, k);
    BoundaryBefore(ordered, w, k);
    PushKeeps(ordered, w, k);
    var p := PushConfirmed(ordered, w, k);
    EventsWeaken(ordered, p.events, p.ptr, p.ptr, k, k + 1);
    if Fires(ordered, cfg, atr, p, Long, b) {
      EmitKeeps(ordered, cfg, atr, p, Long, b, k);
    } else if Fires(ordered, cfg, atr, p, Short, b) {
      EmitKeeps(ordered, cfg, atr, p, Short, b, k);
    }
  }

  lemma {:induction false} RunKeeps(series: seq<Bar>, ordered: seq<RawSwing>, cfg: Config, atr: real, k: nat)
    requires k <= |series| && atr > 0.0 && cfg.bosAtr >= 0.0 && ConfirmedOrder(ordered)
    ensures Core(ordered, Run(series, ordered, cfg, atr, k), k)
    ensures k > 0 ==> Boundary(ordered, Run(series, ordered, cfg, atr, k), k - 1)
  {
    hide Core, Boundary, Step, ConfirmedOrder;
    if k > 0 {
      RunKeeps(series, ordered, cfg, atr, k - 1);
      StepKeeps(ordered, cfg, atr, Run(series, ordered, cfg, atr, k - 1), series[k - 1], k - 1);
    } else {
      StartCore(ordered);
    }
  }

  lemma StartCore(ordered: seq<RawSwing>)
    ensures Core(ordered, START, 0)
  {
  }

  // ---------------------------------------------------------------- the whole-run facts

  lemma OrderedIsConfirmedOrder(swings: seq<RawSwing>)
    ensures ConfirmedOrder(Ordered(swings))
  {
    var o := Ordered(swings);
    SortSorted(Filter(swings, (s: RawSwing) => s.structural), ByConfirmed);
    assert forall i, j :: 0 <= i < j < |o| ==> ByConfirmed(o[i], o[j]);
  }

  /** No break cascade.  After a break closing at c on bar k, every later break in the same
      direction whose reference swing was already confirmed by bar k has a reference price
      strictly beyond c, although the stacks are not sorted by price. */
  lemma NoBreakCascade(series: seq<Bar>, swings: seq<RawSwing>, cfg: Config, atr: real, e: nat, f: nat)
    requires cfg.bosAtr >= 0.0
    requires var ev := Events(series, swings, cfg, atr);
             e < f < |ev| && ev[e].direction == ev[f].direction
             && ev[f].ref < |Ordered(swings)| && Ordered(swings)[ev[f].ref].confirmed <= ev[e].bar
    ensures var ev := Events(series, swings, cfg, atr);
            if ev[e].direction == Long then ev[f].price > ev[e].breakPrice else ev[f].price < ev[e].breakPrice
  {
    OrderedIsConfirmedOrder(swings);
    RunKeeps(series, Ordered(swings), cfg, atr, |series|);
  }

  /** Every event breaks a structural swing of its own side that was confirmed by its bar; no
      swing is broken twice, so events never outnumber structural swings; events are dated
      in strictly increasing bar order. */
  lemma SwingsBreakOnce(series: seq<Bar>, swings: seq<RawSwing>, cfg: Config, atr: real)
    requires cfg.bosAtr >= 0.0
    ensures var ev, o := Events(series, swings, cfg, atr), Ordered(swings);
            && (forall e :: 0 <= e < |ev| ==>
                  ev[e].bar < |series| && ev[e].ref < |o| && o[ev[e].ref].structural && o[ev[e].ref] in swings
                  && o[ev[e].ref].confirmed <= ev[e].bar && o[ev[e].ref].kind == KindFor(ev[e].direction)
                  && ev[e].price == o[ev[e].ref].price)
            && (forall e, f :: 0 <= e < f < |ev| ==> ev[e].bar < ev[f].bar && ev[e].ref != ev[f].ref)
            && |ev| <= |o| <= |swings|
  {
    hide SideInv, NoCascade, Step, Boundary, ConfirmedOrder;
    var ev, o := Events(series, swings, cfg, atr), Ordered(swings);
    var structural := Filter(swings, (s: RawSwing) => s.structural);
    FilterShorter(swings);
    assert |o| == |multiset(o)| == |multiset(structural)| == |structural|;
    if atr > 0.0 {
      OrderedIsConfirmedOrder(swings);
      RunKeeps(series, o, cfg, atr, |series|);
      var w := Run(series, o, cfg, atr, |series|);
      forall e | 0 <= e < |ev|
        ensures ev[e].bar < |series| && ev[e].ref < |o| && o[ev[e].ref].structural && o[ev[e].ref] in swings
        ensures o[ev[e].ref].confirmed <= ev[e].bar && o[ev[e].ref].kind == KindFor(ev[e].direction)
        ensures ev[e].price == o[ev[e].ref].price
      {
        assert GoodEvent(o, ev[e], w.ptr, |series|);
        InBoth(o, structural, o[ev[e].ref]);
      }
      DistinctBelow(seq(|ev|, i requires 0 <= i < |ev| => ev[i].ref), |o|);
    }
  }

  lemma {:induction false} FilterShorter(swings: seq<RawSwing>)
    ensures |Filter(swings, (s: RawSwing) => s.structural)| <= |swings|
  {
    if swings != [] {
      FilterShorter(swings[..|swings| - 1]);
    }
  }

  lemma PrefixIsVisible(o: seq<RawSwing>, ptr: nat, k: int)
    requires ptr <= |o|
    requires forall i :: 0 <= i < ptr ==> o[i].confirmed <= k
    requires forall i :: ptr <= i < |o| ==> o[i].confirmed > k
    ensures o[..ptr] == VisibleSwings(o, k)
  {
    var visible := (s: RawSwing) => s.confirmed <= k;
    var front, back := o[..ptr], o[ptr..];
    assert o == front + back;
    assert forall x :: x in front ==> x.confirmed <= k;
    assert forall x :: x in back ==> x.confirmed > k;
    FilterAppend(front, back, visible);
    FilterAll(front, visible);
    FilterNone(back, visible);
  }

  /** The pointer walk refines re-filtering: after bar k the swings pushed so far are exactly
      the structural swings visible at bar k. */
  lemma PointerRefinesFilter(series: seq<Bar>, swings: seq<RawSwing>, cfg: Config, atr: real, k: nat)
    requires k < |series| && atr > 0.0 && cfg.bosAtr >= 0.0
    ensures var o, structural := Ordered(swings), Filter(swings, (s: RawSwing) => s.structural);
            var pushed := o[..Run(series, o, cfg, atr, k + 1).ptr];
            && pushed == VisibleSwings(o, k)
            && multiset(pushed) == multiset(VisibleSwings(structural, k))
  {
    hide Core, Step;
    var o, structural := Ordered(swings), Filter(swings, (s: RawSwing) => s.structural);
    OrderedIsConfirmedOrder(swings);
    RunKeeps(series, o, cfg, atr, k + 1);
    PrefixIsVisible(o, Run(series, o, cfg, atr, k + 1).ptr, k);
    FilterMultiset(o, structural, (s: RawSwing) => s.confirmed <= k);
  }

  // Detected swings are already in confirmation order, so sorting them changes nothing.
  lemma OrderedFixesConfirmationOrder(swings: seq<RawSwing>)
    requires ConfirmedOrder(Filter(swings, (s: RawSwing) => s.structural))
    ensures Ordered(swings) == Filter(swings, (s: RawSwing) => s.structural)
  {
    SortFixesSorted(Filter(swings, (s: RawSwing) => s.structural), ByConfirmed);
  }

  // The walk reads only the bars it has reached.
  lemma {:induction false} RunReadsPrefix(series: seq<Bar>, ordered: seq<RawSwing>, cfg: Config, atr: real, m: nat,
      k: nat)
    requires k <= m <= |series| && atr > 0.0
    ensures Run(series[..m], ordered, cfg, atr, k) == Run(series, ordered, cfg, atr, k)
  {
    hide Step, Inside;
    if k > 0 {
      RunReadsPrefix(series, ordered, cfg, atr, m, k - 1);
    }
  }

  lemma StepAppends(ordered: seq<RawSwing>, cfg: Config, atr: real, w: Walk, b: Bar, k: nat) returns (added: seq<Event>)
    requires Inside(ordered, w) && atr > 0.0
    ensures Step(ordered, cfg, atr, w, b, k).events == w.events + added
    ensures forall e :: e in added ==> e.bar == k
  {
    var r := Step(ordered, cfg, atr, w, b, k);
    added := r.events[|w.events|..];
  }

  // Between bar m and bar k the walk only appends events dated from m on.
  lemma {:induction false} RunAppends(series: seq<Bar>, ordered: seq<RawSwing>, cfg: Config, atr: real, m: nat, k: nat)
    returns (later: seq<Event>)
    requires m <= k <= |series| && atr > 0.0
    ensures Run(series, ordered, cfg, atr, k).events == Run(series, ordered, cfg, atr, m).events + later
    ensures forall e :: e in later ==> e.bar >= m
  {
    hide Step;
    if k == m {
      later := [];
    } else {
      later := RunAppends(series, ordered, cfg, atr, m, k - 1);
      var added := StepAppends(ordered, cfg, atr, Run(series, ordered, cfg, atr, k - 1), series[k - 1], k - 1);
      later := later + added;
    }
  }

  /** The walk is causal: for fixed swings and ATR, the events on the series cut after bar k
      are exactly the full run's events dated at or before bar k. */
  lemma EventsAreCausal(series: seq<Bar>, swings: seq<RawSwing>, cfg: Config, atr: real, k: nat)
    requires k < |series| && cfg.bosAtr >= 0.0
    ensures Events(series[..k + 1], swings, cfg, atr)
            == Filter(Events(series, swings, cfg, atr), (e: Event) => e.bar <= k)
  {
    if atr > 0.0 {
      hide Step, Core, Boundary, Inside;
      var o, upto := Ordered(swings), (e: Event) => e.bar <= k;
      RunReadsPrefix(series, o, cfg, atr, k + 1, k + 1);
      var later := RunAppends(series, o, cfg, atr, k + 1, |series|);
      var early := Run(series, o, cfg, atr, k + 1).events;
      OrderedIsConfirmedOrder(swings);
      RunKeeps(series, o, cfg, atr, k + 1);
      EventsBefore(o, Run(series, o, cfg, atr, k + 1), k + 1);
      FilterAppend(early, later, upto);
      FilterAll(early, upto);
      FilterNone(later, upto);
    }
  }

  lemma EventsBefore(ordered: seq<RawSwing>, w: Walk, k: nat)
    requires Core(ordered, w, k)
    ensures forall e :: e in w.events ==> e.bar < k
  {
    assert forall i :: 0 <= i < |w.events| ==> GoodEvent(ordered, w.events[i], w.ptr, k);
  }

  ghost predicate BiasLaw(events: seq<Event>, bias: Bias) {
    && bias == (if events == [] || events[|events| - 1].kind != Bos then Neutral
                else BiasFor(events[|events| - 1].direction))
    && (forall i :: 0 <= i < |events| ==> BosAllowed(events, i))
  }

  // Event i is a BOS exactly when the event before it is not a BOS to the other side.
  ghost predicate BosAllowed(events: seq<Event>, i: int)
    requires 0 <= i < |events|
  {
    events[i].kind == Bos <==>
      i == 0 || events[i - 1].kind != Bos || events[i - 1].direction == events[i].direction
  }

  lemma BiasStep(ordered: seq<RawSwing>, cfg: Config, atr: real, w: Walk, b: Bar, k: nat)
    requires Inside(ordered, w) && atr > 0.0 && BiasLaw(w.events, w.bias)
    ensures var r := Step(ordered, cfg, atr, w, b, k); BiasLaw(r.events, r.bias)
  {
    hide BiasLaw, Emit;
    var p := PushConfirmed(ordered, w, k);
    if Fires(ordered, cfg, atr, p, Long, b) {
      BiasEmit(ordered, cfg, atr, p, Long, b, k);
    }
    if Fires(ordered, cfg, atr, p, Short, b) {
      BiasEmit(ordered, cfg, atr, p, Short, b, k);
    }
  }

  lemma BiasEmit(ordered: seq<RawSwing>, cfg: Config, atr: real, w: Walk, d: Direction, b: Bar, k: nat)
    requires Inside(ordered, w) && w.Stack(d) != [] && atr > 0.0 && BiasLaw(w.events, w.bias)
    ensures var r := Emit(ordered, cfg, atr, w, d, b, k); BiasLaw(r.events, r.bias)
  {
    var r := Emit(ordered, cfg, atr, w, d, b, k);
    forall i | 0 <= i < |r.events|
      ensures BosAllowed(r.events, i)
    {
      assert i < |w.events| ==> BosAllowed(w.events, i);
    }
  }

  /** The bias never flips straight to the opposite side: an event is a BOS exactly when the
      previous event is not an opposite BOS, and the walk's bias is the one read off its last event. */
  lemma {:induction false} BiasNeverFlips(series: seq<Bar>, ordered: seq<RawSwing>, cfg: Config, atr: real, k: nat)
    requires k <= |series| && atr > 0.0
    ensures BiasLaw(Run(series, ordered, cfg, atr, k).events, Run(series, ordered, cfg, atr, k).bias)
  {
    hide Step, BiasLaw;
    if k > 0 {
      BiasNeverFlips(series, ordered, cfg, atr, k - 1);
      BiasStep(ordered, cfg, atr, Run(series, ordered, cfg, atr, k - 1), series[k - 1], k - 1);
    } else {
      BiasStart();
    }
  }

  lemma BiasStart()
    ensures BiasLaw(START.events, START.bias)
  {
  }
}
