/** Fair value gaps (src/xauusd/core/fair_value_gap.py): three-bar imbalances, and how much of each
    has been filled since.  A gap's value only decays, so its lifecycle should only advance. */
module FairValueGap {
  import opened Domain

  datatype Settings = Settings(minSizeAtr: real, minDisplacementAtr: real, mitigation: real,
                               invalidateOnFullFill: bool, maxAgeBars: nat)

  datatype State = Unmitigated | Partial | Mitigated | Invalidated | Inverted {
    function Rank(): nat {
      match this
      case Unmitigated => 0
      case Partial => 1
      case Mitigated => 2
      case Invalidated => 3
      case Inverted => 4
    }
  }

  datatype Life = Life(state: State, fill: real, touch: Option<int>)

  datatype Shape = Shape(direction: Direction, top: real, bottom: real) {
    function Size(): real { top - bottom }
  }

  // ---------------------------------------------------------------- one bar against one gap

  predicate Overlaps(gap: Shape, b: Bar) {
    b.high >= gap.bottom && b.low <= gap.top
  }

  // The close is through the gap, on its far side.
  predicate ClosesThrough(gap: Shape, b: Bar) {
    if gap.direction == Long then b.close < gap.bottom else b.close > gap.top
  }

  // A bullish gap fills downward from its top, a bearish one upward from its bottom.
  function Penetration(gap: Shape, b: Bar): real {
    if gap.direction == Long then gap.top - Max(b.low, gap.bottom) else Min(b.high, gap.top) - gap.bottom
  }

  lemma PenetrationBounds(gap: Shape, b: Bar)
    requires gap.Size() > 0.0 && Overlaps(gap, b)
    ensures 0.0 <= Penetration(gap, b) / gap.Size() <= 1.0
  {
    RatioBounds(Penetration(gap, b), gap.Size());
  }

  // ---------------------------------------------------------------- the walk

  datatype Walk = Walk(touch: Option<int>, fill: real, inverted: bool)

  function StepWalk(gap: Shape, w: Walk, b: Bar): Walk
    requires gap.Size() > 0.0
  {
    if w.inverted || !Overlaps(gap, b) then w
    else
      var touch := if w.touch == None then Some(b.ts) else w.touch;
      if ClosesThrough(gap, b) then Walk(touch, w.fill, true)
      else Walk(touch, Max(w.fill, Penetration(gap, b) / gap.Size()), false)
  }

  function WalkOver(gap: Shape, bars: seq<Bar>): Walk
    requires gap.Size() > 0.0
  {
    if bars == [] then Walk(None, 0.0, false)
    else StepWalk(gap, WalkOver(gap, bars[..|bars| - 1]), bars[|bars| - 1])
  }

  function Verdict(cfg: Settings, w: Walk): Life {
    if w.inverted then Life(Inverted, 1.0, w.touch)
    else if w.fill >= 0.999 && cfg.invalidateOnFullFill then Life(Invalidated, 1.0, w.touch)
    else if w.fill >= cfg.mitigation then Life(Mitigated, w.fill, w.touch)
    else if w.fill > 0.0 then Life(Partial, w.fill, w.touch)
    else Life(Unmitigated, 0.0, w.touch)
  }

  // The life of a gap over the bars since it completed.
  function LifeOf(cfg: Settings, gap: Shape, since: seq<Bar>): Life {
    if since == [] then Life(Unmitigated, 0.0, None)
    else if gap.Size() <= 0.0 then Life(Invalidated, 1.0, None)
    else Verdict(cfg, WalkOver(gap, since))
  }

  /** The loop, which stops at the first close through the gap. */
  method Lifecycle(cfg: Settings, bars: seq<Bar>, start: nat, gap: Shape) returns (life: Life)
    ensures life == LifeOf(cfg, gap, if start <= |bars| then bars[start..] else [])
  {
    if start >= |bars| {
      return Life(Unmitigated, 0.0, None);
    }
    var size := gap.Size();
    if size <= 0.0 {
      return Life(Invalidated, 1.0, None);
    }
    ghost var since := bars[start..];
    var touch: Option<int>, fill := None, 0.0;
    for j := start to |bars|
      invariant WalkOver(gap, since[..j - start]) == Walk(touch, fill, false)
    {
      assert since[..j + 1 - start][..j - start] == since[..j - start];
      var b := bars[j];
      if b.high < gap.bottom || b.low > gap.top {
        continue;
      }
      if touch == None {
        touch := Some(b.ts);
      }
      if ClosesThrough(gap, b) {
        InvertedStays(gap, since[..j + 1 - start], since[j + 1 - start..]);
        assert since[..j + 1 - start] + since[j + 1 - start..] == since;
        return Life(Inverted, 1.0, touch);
      }
      fill := Max(fill, Penetration(gap, b) / size);
    }
    assert since[..|bars| - start] == since;
    if fill >= 0.999 && cfg.invalidateOnFullFill {
      return Life(Invalidated, 1.0, touch);
    }
    if fill >= cfg.mitigation {
      return Life(Mitigated, fill, touch);
    }
    if fill > 0.0 {
      return Life(Partial, fill, touch);
    }
    life := Life(Unmitigated, 0.0, touch);
  }

  lemma {:induction false} InvertedStays(gap: Shape, bars: seq<Bar>, more: seq<Bar>)
    requires gap.Size() > 0.0 && WalkOver(gap, bars).inverted
    ensures WalkOver(gap, bars + more) == WalkOver(gap, bars)
  {
    if more == [] {
      assert bars + more == bars;
    } else {
      assert (bars + more)[..|bars + more| - 1] == bars + more[..|more| - 1];
      InvertedStays(gap, bars, more[..|more| - 1]);
    }
  }

  // ---------------------------------------------------------------- the lifecycle only advances

  predicate Advances(a: Life, b: Life) {
    && a.state.Rank() <= b.state.Rank()
    && a.fill <= b.fill
    && (a.touch.Some? ==> b.touch == a.touch)
    && (a.state == Inverted ==> b == a)
  }

  predicate WalksOn(v: Walk, w: Walk) {
    && 0.0 <= v.fill <= w.fill <= 1.0 && (v.touch.Some? ==> w.touch == v.touch) && (v.inverted ==> w == v)
  }

  lemma {:induction false} WalkBounds(gap: Shape, bars: seq<Bar>)
    requires gap.Size() > 0.0
    ensures 0.0 <= WalkOver(gap, bars).fill <= 1.0
    ensures WalkOver(gap, bars).fill > 0.0 ==> WalkOver(gap, bars).touch.Some?
  {
    if bars != [] {
      WalkBounds(gap, bars[..|bars| - 1]);
      if Overlaps(gap, bars[|bars| - 1]) {
        PenetrationBounds(gap, bars[|bars| - 1]);
      }
    }
  }

  lemma {:induction false} WalkGoesOn(gap: Shape, bars: seq<Bar>, more: seq<Bar>)
    requires gap.Size() > 0.0
    ensures WalksOn(WalkOver(gap, bars), WalkOver(gap, bars + more))
  {
    WalkBounds(gap, bars);
    if more == [] {
      assert bars + more == bars;
    } else {
      assert (bars + more)[..|bars + more| - 1] == bars + more[..|more| - 1];
      WalkGoesOn(gap, bars, more[..|more| - 1]);
      WalkBounds(gap, bars + more);
    }
  }

  /** As bars arrive a gap's state never moves back, its fill stays in [0, 1] and never falls, its
      first touch never changes once set, and an inverted gap stays as it is. */
  lemma LifecycleOnlyAdvances(cfg: Settings, gap: Shape, since: seq<Bar>, more: seq<Bar>)
    requires 0.0 < cfg.mitigation <= 1.0
    ensures Advances(LifeOf(cfg, gap, since), LifeOf(cfg, gap, since + more))
    ensures 0.0 <= LifeOf(cfg, gap, since).fill <= 1.0
  {
    if gap.Size() > 0.0 {
      WalkBounds(gap, since);
      WalkBounds(gap, since + more);
      if since != [] {
        WalkGoesOn(gap, since, more);
      }
    } else if since == [] {
      assert since + more == more;
    }
  }

  /** What the end states mean: inverted exactly when some bar reached the gap and closed through
      it, and otherwise the fill is the deepest penetration of the bars that reached it. */
  lemma {:induction false} WalkMeaning(gap: Shape, bars: seq<Bar>)
    requires gap.Size() > 0.0
    ensures var w := WalkOver(gap, bars);
            && (w.inverted <==> exists i :: 0 <= i < |bars| && Inverts(gap, bars[i]))
            && (w.touch.Some? <==> exists i :: 0 <= i < |bars| && Overlaps(gap, bars[i]))
            && (!w.inverted ==> forall i :: 0 <= i < |bars| && Overlaps(gap, bars[i]) ==>
                    FillOf(gap, bars[i]) <= w.fill)
            && (!w.inverted && w.fill > 0.0 ==>
                    exists i :: 0 <= i < |bars| && Overlaps(gap, bars[i]) && FillOf(gap, bars[i]) == w.fill)
  {
    hide Overlaps, ClosesThrough, Penetration;
    if bars != [] {
      var front, last := bars[..|bars| - 1], bars[|bars| - 1];
      WalkMeaning(gap, front);
      assert forall i :: 0 <= i < |front| ==> front[i] == bars[i];
      assert bars[|front|] == last;
    }
  }

  predicate Inverts(gap: Shape, b: Bar) {
    Overlaps(gap, b) && ClosesThrough(gap, b)
  }

  function FillOf(gap: Shape, b: Bar): real
    requires gap.Size() > 0.0
  {
    Penetration(gap, b) / gap.Size()
  }

  // The bar lies wholly on the gap's far side.
  predicate GapsPast(gap: Shape, b: Bar) {
    if gap.direction == Long then b.high < gap.bottom else b.low > gap.top
  }

  lemma {:induction false} UnreachedWalk(gap: Shape, bars: seq<Bar>)
    requires gap.Size() > 0.0 && forall i :: 0 <= i < |bars| ==> !Overlaps(gap, bars[i])
    ensures WalkOver(gap, bars) == Walk(None, 0.0, false)
  {
    if bars != [] {
      UnreachedWalk(gap, bars[..|bars| - 1]);
    }
  }

  /** Closing through a gap is noticed only by bars that reach it: after any number of bars wholly
      past the zone, each closing through it, the gap still counts as untouched. */
  lemma GappingPastIsIgnored(cfg: Settings, gap: Shape, bars: seq<Bar>)
    requires gap.Size() > 0.0 && 0.0 < cfg.mitigation
    requires forall i :: 0 <= i < |bars| ==> bars[i].low <= bars[i].close <= bars[i].high && GapsPast(gap, bars[i])
    ensures forall i :: 0 <= i < |bars| ==> ClosesThrough(gap, bars[i])
    ensures LifeOf(cfg, gap, bars) == Life(Unmitigated, 0.0, None)
  {
    hide WalkOver;
    UnreachedWalk(gap, bars);
  }

  // ---------------------------------------------------------------- detection

  datatype Gap = Gap(at: nat, formedTs: int, shape: Shape, sizeAtr: real, displacementAtr: real, life: Life)

  // The gap around bar i, from its two neighbours; a bullish one is looked for first.
  function ShapeAt(cfg: Settings, bars: seq<Bar>, i: nat, atr: real): Option<Shape>
    requires 1 <= i < |bars| - 1 && atr > 0.0
  {
    var displaced := Abs(bars[i].close - bars[i].open) / atr >= cfg.minDisplacementAtr;
    var up, down := Shape(Long, bars[i + 1].low, bars[i - 1].high), Shape(Short, bars[i - 1].low, bars[i + 1].high);
    if up.Size() > 0.0 && up.Size() / atr >= cfg.minSizeAtr && displaced then Some(up)
    else if down.Size() > 0.0 && down.Size() / atr >= cfg.minSizeAtr && displaced then Some(down)
    else None
  }

  function GapAt(cfg: Settings, bars: seq<Bar>, i: nat, atr: real): Option<Gap>
    requires 1 <= i < |bars| - 1 && atr > 0.0
  {
    match ShapeAt(cfg, bars, i, atr)
    case None => None
    case Some(shape) =>
      Some(Gap(i, bars[i].ts, shape, shape.Size() / atr, Abs(bars[i].close - bars[i].open) / atr,
               LifeOf(cfg, shape, bars[i + 2..])))
  }

  function Found(cfg: Settings, bars: seq<Bar>, atr: real, first: nat, end: nat): seq<Gap>
    requires 1 <= first && end <= |bars| - 1 && atr > 0.0
  {
    if end <= first then []
    else
      var g := GapAt(cfg, bars, end - 1, atr);
      Found(cfg, bars, atr, first, end - 1) + if g.Some? then [g.value] else []
  }

  function Oldest(cfg: Settings, n: nat): nat {
    if n > cfg.maxAgeBars + 1 then n - cfg.maxAgeBars else 1
  }

  method Detect(cfg: Settings, bars: seq<Bar>, atr: real) returns (gaps: seq<Gap>)
    ensures gaps == if |bars| < 4 || atr <= 0.0 then [] else Found(cfg, bars, atr, Oldest(cfg, |bars|), |bars| - 1)
  {
    if |bars| < 4 || atr <= 0.0 {
      return [];
    }
    gaps := [];
    var i := Oldest(cfg, |bars|);
    ghost var first := i;
    while i < |bars| - 1
      invariant first <= i && (i <= |bars| - 1 || i == first)
      invariant gaps == Found(cfg, bars, atr, first, if i <= |bars| - 1 then i else |bars| - 1)
    {
      var shape := ShapeAt(cfg, bars, i, atr);
      if shape.Some? {
        var life := Lifecycle(cfg, bars, i + 2, shape.value);
        gaps := gaps + [Gap(i, bars[i].ts, shape.value, shape.value.Size() / atr,
                            Abs(bars[i].close - bars[i].open) / atr, life)];
      }
      i := i + 1;
    }
  }

  lemma {:induction false} FoundMeaning(cfg: Settings, bars: seq<Bar>, atr: real, first: nat, end: nat, g: Gap)
    requires 1 <= first && end <= |bars| - 1 && atr > 0.0
    ensures g in Found(cfg, bars, atr, first, end)
            <==> first <= g.at < end && GapAt(cfg, bars, g.at, atr) == Some(g)
    decreases end
  {
    if end > first {
      FoundMeaning(cfg, bars, atr, first, end - 1, g);
    }
  }

  /** What is listed: of the bars whose later neighbour exists and that are not older than the limit,
      every one that leaves a gap. */
  lemma ListedExactlyWhen(cfg: Settings, bars: seq<Bar>, atr: real, g: Gap)
    requires |bars| >= 4 && atr > 0.0
    ensures g in Found(cfg, bars, atr, Oldest(cfg, |bars|), |bars| - 1) <==>
            1 <= g.at < |bars| - 1 && g.at + cfg.maxAgeBars >= |bars| && GapAt(cfg, bars, g.at, atr) == Some(g)
  {
    hide Found, GapAt;
    FoundMeaning(cfg, bars, atr, Oldest(cfg, |bars|), |bars| - 1, g);
  }

  // The zone between bar i's neighbours, and which way the gap points.
  predicate Leaves(bars: seq<Bar>, i: nat, gap: Shape)
    requires 1 <= i < |bars| - 1
  {
    if gap.direction == Long then gap.bottom == bars[i - 1].high && gap.top == bars[i + 1].low
    else gap.bottom == bars[i + 1].high && gap.top == bars[i - 1].low
  }

  // Wide enough, and left by a bar that moved enough.
  predicate Counts(cfg: Settings, atr: real, b: Bar, gap: Shape) {
    && gap.top > gap.bottom && gap.top - gap.bottom >= cfg.minSizeAtr * atr
    && Abs(b.close - b.open) >= cfg.minDisplacementAtr * atr
  }

  /** Which bars leave a gap: those whose neighbours do not overlap, by enough, around a large
      enough body.  It is bullish if the later neighbour lies above the earlier and that counts,
      and bearish if it lies below. */
  lemma GapMeans(cfg: Settings, bars: seq<Bar>, i: nat, atr: real, gap: Shape)
    requires 1 <= i < |bars| - 1 && atr > 0.0
    requires bars[i - 1].low <= bars[i - 1].high && bars[i + 1].low <= bars[i + 1].high
    ensures ShapeAt(cfg, bars, i, atr) == Some(gap) <==> Leaves(bars, i, gap) && Counts(cfg, atr, bars[i], gap)
    ensures GapAt(cfg, bars, i, atr).Some? ==>
              var g := GapAt(cfg, bars, i, atr).value;
              && ShapeAt(cfg, bars, i, atr) == Some(g.shape) && g.at == i && g.formedTs == bars[i].ts
              && g.sizeAtr * atr == g.shape.top - g.shape.bottom
              && g.displacementAtr * atr == Abs(bars[i].close - bars[i].open)
              && g.life == LifeOf(cfg, g.shape, bars[i + 2..])
    ensures GapAt(cfg, bars, i, atr).Some? <==> ShapeAt(cfg, bars, i, atr).Some?
  {
    hide LifeOf, Abs;
    var body := Abs(bars[i].close - bars[i].open);
    var up, down := bars[i + 1].low - bars[i - 1].high, bars[i - 1].low - bars[i + 1].high;
    AtMostTimes(body, cfg.minDisplacementAtr, atr);
    AtMostTimes(up, cfg.minSizeAtr, atr);
    AtMostTimes(down, cfg.minSizeAtr, atr);
    QuotientTimes(body, atr);
    QuotientTimes(up, atr);
    QuotientTimes(down, atr);
  }

  // How deep a bar reaches into the gap, from the side it fills from.
  function Reach(gap: Shape, b: Bar): real {
    if gap.direction == Long then gap.top - (if b.low < gap.bottom then gap.bottom else b.low)
    else (if b.high > gap.top then gap.top else b.high) - gap.bottom
  }

  predicate Enters(gap: Shape, b: Bar) {
    b.low <= gap.top && gap.bottom <= b.high
  }

  // It reaches the gap and closes on its far side.
  predicate Crosses(gap: Shape, b: Bar) {
    Enters(gap, b) && if gap.direction == Long then b.close < gap.bottom else b.close > gap.top
  }

  // The deepest any bar reached, as a fraction of the gap.
  ghost predicate FilledTo(gap: Shape, bars: seq<Bar>, fill: real) {
    && fill >= 0.0
    && (forall i :: 0 <= i < |bars| && Enters(gap, bars[i]) ==> Reach(gap, bars[i]) <= fill * (gap.top - gap.bottom))
    && (fill > 0.0 ==> exists i :: 0 <= i < |bars| && Enters(gap, bars[i])
                                   && Reach(gap, bars[i]) == fill * (gap.top - gap.bottom))
  }

  /** The life of a gap in prices: inverted as soon as a bar enters it and closes on the far side;
      otherwise judged by the deepest any bar entered it: fully filled, mitigated from its
      threshold on, partly filled, or untouched.  The touch is the first bar that entered. */
  lemma LifeMeans(cfg: Settings, gap: Shape, since: seq<Bar>)
    requires gap.top > gap.bottom
    ensures var life := LifeOf(cfg, gap, since);
            && (life.state == Inverted <==> exists i :: 0 <= i < |since| && Crosses(gap, since[i]))
            && (if life.state == Inverted || life.state == Invalidated then life.fill == 1.0
                else FilledTo(gap, since, life.fill))
            && (life.state == Invalidated ==>
                  cfg.invalidateOnFullFill && exists fill :: fill >= 0.999 && FilledTo(gap, since, fill))
            && (life.state == Mitigated ==>
                  life.fill >= cfg.mitigation && !(cfg.invalidateOnFullFill && life.fill >= 0.999))
            && (life.state == Partial ==>
                  0.0 < life.fill < cfg.mitigation && !(cfg.invalidateOnFullFill && life.fill >= 0.999))
            && (life.state == Unmitigated ==> life.fill == 0.0 && (since == [] || cfg.mitigation > 0.0))
            && (life.touch.Some? <==> exists i :: 0 <= i < |since| && Enters(gap, since[i]))
            && (life.touch.Some? ==> TouchedFirst(gap, since, life.touch))
  {
    if since != [] {
      hide WalkOver, FilledTo, Crosses, Enters, Reach, TouchedFirst;
      WalkInPrices(gap, since);
      WalkBounds(gap, since);
    } else {
      assert FilledTo(gap, since, 0.0);
    }
  }

  lemma WalkInPrices(gap: Shape, bars: seq<Bar>)
    requires gap.Size() > 0.0
    ensures var w := WalkOver(gap, bars);
            && (w.inverted <==> exists i :: 0 <= i < |bars| && Crosses(gap, bars[i]))
            && (!w.inverted ==> FilledTo(gap, bars, w.fill))
            && (w.touch.Some? <==> exists i :: 0 <= i < |bars| && Enters(gap, bars[i]))
            && (w.touch.Some? ==> TouchedFirst(gap, bars, w.touch))
  {
    hide WalkOver, FilledTo, Crosses, Enters, TouchedFirst;
    CrossesInPrices(gap, bars);
    FillsInPrices(gap, bars);
    TouchesInPrices(gap, bars);
  }

  // The touch is the time of the first bar that entered.
  ghost predicate TouchedFirst(gap: Shape, bars: seq<Bar>, touch: Option<int>) {
    exists i :: 0 <= i < |bars| && Enters(gap, bars[i]) && touch == Some(bars[i].ts)
                && forall j :: 0 <= j < i ==> !Enters(gap, bars[j])
  }

  lemma {:induction false} CrossesInPrices(gap: Shape, bars: seq<Bar>)
    requires gap.Size() > 0.0
    ensures WalkOver(gap, bars).inverted <==> exists i :: 0 <= i < |bars| && Crosses(gap, bars[i])
  {
    if bars != [] {
      hide Crosses, Overlaps, ClosesThrough, Penetration;
      var front, last := bars[..|bars| - 1], bars[|bars| - 1];
      CrossesInPrices(gap, front);
      assert forall i :: 0 <= i < |front| ==> front[i] == bars[i];
      assert bars[|front|] == last;
      ReachMeans(gap, last);
    }
  }

  lemma {:induction false} FillsInPrices(gap: Shape, bars: seq<Bar>)
    requires gap.Size() > 0.0
    ensures !WalkOver(gap, bars).inverted ==> FilledTo(gap, bars, WalkOver(gap, bars).fill)
  {
    if bars != [] {
      hide FilledTo, Overlaps, ClosesThrough, Penetration, Enters, Reach;
      var front, last := bars[..|bars| - 1], bars[|bars| - 1];
      assert bars == front + [last];
      FillsInPrices(gap, front);
      ReachMeans(gap, last);
      if !WalkOver(gap, front).inverted {
        FilledPush(gap, front, last, WalkOver(gap, front).fill);
      }
    }
  }

  lemma {:induction false} TouchesInPrices(gap: Shape, bars: seq<Bar>)
    requires gap.Size() > 0.0
    ensures var touch := WalkOver(gap, bars).touch;
            && (touch.Some? <==> exists i :: 0 <= i < |bars| && Enters(gap, bars[i]))
            && (touch.Some? ==> TouchedFirst(gap, bars, touch))
  {
    if bars != [] {
      hide Enters, Overlaps, ClosesThrough, Penetration;
      var front, last := bars[..|bars| - 1], bars[|bars| - 1];
      TouchesInPrices(gap, front);
      assert forall i :: 0 <= i < |front| ==> front[i] == bars[i];
      assert bars[|front|] == last;
      ReachMeans(gap, last);
      InvertedWasTouched(gap, front);
    }
  }

  // An inverted gap was entered.
  lemma {:induction false} InvertedWasTouched(gap: Shape, bars: seq<Bar>)
    requires gap.Size() > 0.0
    ensures WalkOver(gap, bars).inverted ==> WalkOver(gap, bars).touch.Some?
  {
    if bars != [] {
      InvertedWasTouched(gap, bars[..|bars| - 1]);
    }
  }

  lemma ReachMeans(gap: Shape, b: Bar)
    requires gap.Size() > 0.0
    ensures Overlaps(gap, b) <==> Enters(gap, b)
    ensures Inverts(gap, b) <==> Crosses(gap, b)
    ensures Penetration(gap, b) == Reach(gap, b)
  {
  }

  lemma FilledPush(gap: Shape, front: seq<Bar>, last: Bar, fill: real)
    requires gap.Size() > 0.0 && FilledTo(gap, front, fill)
    ensures FilledTo(gap, front + [last],
                     if Enters(gap, last) then Max(fill, Reach(gap, last) / gap.Size()) else fill)
  {
    hide Reach, Enters;
    var bars, size := front + [last], gap.top - gap.bottom;
    assert bars[|front|] == last && forall i :: 0 <= i < |front| ==> bars[i] == front[i];
    var deep := Reach(gap, last) / size;
    QuotientTimes(Reach(gap, last), size);
    OrderTimes(fill, deep, size);
    OrderTimes(deep, fill, size);
  }

  lemma SameShape(cfg: Settings, bars: seq<Bar>, more: seq<Bar>, i: nat, atr: real)
    requires atr > 0.0
    ensures 1 <= i < |bars| - 1 ==>
              (bars + more)[i] == bars[i] && ShapeAt(cfg, bars + more, i, atr) == ShapeAt(cfg, bars, i, atr)
  {
  }

  /** Detection does not revise: with the same range estimate, every gap reported while bars arrive
      is reported again unless it aged out, with the same zone and a life that has only advanced. */
  lemma DetectionOnlyAdvances(cfg: Settings, bars: seq<Bar>, more: seq<Bar>, atr: real, g: Gap)
    requires 0.0 < cfg.mitigation <= 1.0 && atr > 0.0 && |bars| >= 4
    requires g in Found(cfg, bars, atr, Oldest(cfg, |bars|), |bars| - 1)
    requires g.at >= Oldest(cfg, |bars + more|)
    ensures exists now :: now in Found(cfg, bars + more, atr, Oldest(cfg, |bars + more|), |bars + more| - 1)
                          && now.(life := g.life) == g && Advances(g.life, now.life)
  {
    hide LifeOf, Found, ShapeAt;
    var all := bars + more;
    SameShape(cfg, bars, more, g.at, atr);
    FoundMeaning(cfg, bars, atr, Oldest(cfg, |bars|), |bars| - 1, g);
    var i := g.at;
    assert all[i + 2..] == bars[i + 2..] + more;
    LifecycleOnlyAdvances(cfg, g.shape, bars[i + 2..], more);
    var now := GapAt(cfg, all, i, atr).value;
    FoundMeaning(cfg, all, atr, Oldest(cfg, |all|), |all| - 1, now);
  }
}
