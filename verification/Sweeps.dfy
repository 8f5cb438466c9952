/** Sweeps of resting liquidity (src/xauusd/core/liquidity.py): a bar trades beyond a pool and the
    price comes back.  The question asked of a detector that runs on every new bar is whether what
    it once reported can change. */
module Sweeps {
  import opened Domain
  import opened Sequences

  datatype Settings = Settings(minPenetration: real, maxPenetration: real, minRejection: real,
                               maxBarsToReject: nat, requireCloseInside: bool, lookbackBars: nat)

  // The configuration's own bounds, and at least one admissible penetration.
  predicate ValidSettings(cfg: Settings) {
    && 0.0 <= cfg.minPenetration <= cfg.maxPenetration && cfg.maxPenetration > 0.0
    && 0.0 < cfg.minRejection <= 1.0 && cfg.maxBarsToReject >= 1 && cfg.lookbackBars >= 10
  }

  // A pool; `formed` is the position of the bar it formed at, -1 before the first.
  datatype Pool = Pool(buySide: bool, price: real, formed: int)

  datatype Sweep = Sweep(at: nat, ts: int, pool: Pool, penetrationAtr: real, rejection: real,
                         closedInside: bool, displacement: real, barsToReject: nat)

  predicate Inside(pool: Pool, close: real) {
    if pool.buySide then close < pool.price else close > pool.price
  }

  // The bar's extreme on the pool's side is strictly beyond it.
  predicate Takes(pool: Pool, b: Bar) {
    if pool.buySide then b.high > pool.price else b.low < pool.price
  }

  function Penetration(pool: Pool, b: Bar): real {
    if pool.buySide then b.high - pool.price else pool.price - b.low
  }

  // The part of the bar's range left beyond its body.
  function Rejection(pool: Pool, b: Bar): real
    requires b.high > b.low
  {
    (if pool.buySide then b.high - Max(b.close, b.open) else Min(b.close, b.open) - b.low) / (b.high - b.low)
  }

  // The first position in [j, to) whose close is inside.
  function FirstInside(bars: seq<Bar>, pool: Pool, j: nat, end: nat): (r: Option<nat>)
    requires end <= |bars|
    ensures r.Some? ==> j <= r.value < end && Inside(pool, bars[r.value].close)
    ensures forall k :: j <= k < (if r.Some? then r.value else end) ==> !Inside(pool, bars[k].close)
    decreases end - j
  {
    if j >= end then None
    else if Inside(pool, bars[j].close) then Some(j)
    else FirstInside(bars, pool, j + 1, end)
  }

  function RejectionEnd(cfg: Settings, n: nat, i: nat): nat {
    if i + 1 + cfg.maxBarsToReject < n then i + 1 + cfg.maxBarsToReject else n
  }

  // How far a later bar moved away from the sweep's close, in the reversal direction.
  function MoveAway(pool: Pool, sweep: Bar, later: Bar): real {
    if pool.buySide then sweep.close - later.low else later.high - sweep.close
  }

  // The furthest such move from i + 1 up to, not including, `end`.
  function FurthestMove(bars: seq<Bar>, pool: Pool, i: nat, end: nat): real
    requires i + 1 < end <= |bars|
  {
    var last := MoveAway(pool, bars[i], bars[end - 1]);
    if end == i + 2 then last else Max(FurthestMove(bars, pool, i, end - 1), last)
  }

  function DisplacementEnd(n: nat, i: nat): nat {
    if i + 6 < n then i + 6 else n
  }

  // The reversal's reach within five bars, in ATR; zero until one has come.
  function Displacement(bars: seq<Bar>, pool: Pool, atr: real, i: nat): real
    requires i < |bars| && atr > 0.0
  {
    var end := DisplacementEnd(|bars|, i);
    if end <= i + 1 then 0.0 else Max(0.0, FurthestMove(bars, pool, i, end) / atr)
  }

  // What one bar says about one pool.
  function Probe(cfg: Settings, bars: seq<Bar>, pool: Pool, atr: real, i: nat): (r: Option<Sweep>)
    requires i < |bars| && atr > 0.0
    ensures r.Some? ==> r.value.at == i
  {
    var b := bars[i];
    if b.high - b.low <= 0.0 || !Takes(pool, b) then None
    else
      var penetration := Penetration(pool, b) / atr;
      if penetration < cfg.minPenetration || penetration > cfg.maxPenetration then None
      else
        var back := FirstInside(bars, pool, i + 1, RejectionEnd(cfg, |bars|, i));
        var rejection, displacement := Rejection(pool, b), Displacement(bars, pool, atr, i);
        if Inside(pool, b.close) then
          if rejection < cfg.minRejection then None
          else Some(Sweep(i, b.ts, pool, penetration, Max(0.0, rejection), true, displacement, 1))
        else if back.Some? then
          Some(Sweep(i, b.ts, pool, penetration, Max(0.0, rejection), true, displacement, back.value - i + 1))
        else if cfg.requireCloseInside || rejection < cfg.minRejection then None
        else Some(Sweep(i, b.ts, pool, penetration, Max(0.0, rejection), false, displacement, 1))
  }

  // The first sweep of a pool at or after a position: the first take is the meaningful one.
  function Scan(cfg: Settings, bars: seq<Bar>, pool: Pool, atr: real, start: nat): (r: Option<Sweep>)
    requires atr > 0.0
    ensures r.Some? ==> start <= r.value.at < |bars| && Probe(cfg, bars, pool, atr, r.value.at) == r
    decreases |bars| - start
  {
    if start >= |bars| then None
    else
      var s := Probe(cfg, bars, pool, atr, start);
      if s.Some? then s else Scan(cfg, bars, pool, atr, start + 1)
  }

  /** A scan finds the first bar from its start on that sweeps the pool. */
  lemma {:induction false} ScanFindsFirst(cfg: Settings, bars: seq<Bar>, pool: Pool, atr: real, start: nat)
    requires atr > 0.0
    ensures match Scan(cfg, bars, pool, atr, start)
            case Some(s) => forall k :: start <= k < s.at ==> Probe(cfg, bars, pool, atr, k) == None
            case None => forall k :: start <= k < |bars| ==> Probe(cfg, bars, pool, atr, k) == None
    decreases |bars| - start
  {
    hide Probe;
    if start < |bars| && Probe(cfg, bars, pool, atr, start) == None {
      ScanFindsFirst(cfg, bars, pool, atr, start + 1);
    }
  }

  /** The bars scanned: never the first, only after the pool formed, and only the last ones. */
  lemma ScannedExactlyWhen(cfg: Settings, n: nat, pool: Pool, i: nat)
    ensures i >= ScanStart(cfg, n, pool) <==> i >= 1 && i > pool.formed && i + cfg.lookbackBars >= n
  {
  }

  function ScanStart(cfg: Settings, n: nat, pool: Pool): nat {
    var window := if n > cfg.lookbackBars then n - cfg.lookbackBars else 0;
    var start := if window > pool.formed + 1 then window else pool.formed + 1;
    if start > 1 then start else 1
  }

  // ---------------------------------------------------------------- one bar, in prices

  // How far the bar trades beyond the pool, and how much of its range it gives back past its body.
  function Beyond(pool: Pool, b: Bar): real {
    if pool.buySide then b.high - pool.price else pool.price - b.low
  }

  function GivenBack(pool: Pool, b: Bar): real {
    if pool.buySide then b.high - (if b.close > b.open then b.close else b.open)
    else (if b.close < b.open then b.close else b.open) - b.low
  }

  predicate ClosesBack(pool: Pool, b: Bar) {
    if pool.buySide then b.close < pool.price else b.close > pool.price
  }

  // The first of the next bars allowed to close back inside does so at position j.
  ghost predicate ReturnsAt(cfg: Settings, bars: seq<Bar>, pool: Pool, i: nat, j: nat) {
    && i < j < |bars| && j <= i + cfg.maxBarsToReject && ClosesBack(pool, bars[j])
    && forall k :: i < k < j ==> !ClosesBack(pool, bars[k])
  }

  ghost predicate Returns(cfg: Settings, bars: seq<Bar>, pool: Pool, i: nat) {
    exists j :: ReturnsAt(cfg, bars, pool, i, j)
  }

  // Deep enough into the liquidity, and not too deep.
  predicate Penetrates(cfg: Settings, atr: real, pool: Pool, b: Bar) {
    && b.high > b.low && Beyond(pool, b) > 0.0
    && cfg.minPenetration * atr <= Beyond(pool, b) <= cfg.maxPenetration * atr
  }

  // A large enough rejection.
  predicate Rejects(cfg: Settings, pool: Pool, b: Bar) {
    GivenBack(pool, b) >= cfg.minRejection * (b.high - b.low)
  }

  /** Which bars sweep a pool: those that penetrate it by an admissible amount and reject it, by
      closing back inside with a large enough wick, by one of the next bars allowed closing back
      inside, or, where no close inside is required, by the wick alone. */
  lemma SweepsExactlyWhen(cfg: Settings, bars: seq<Bar>, pool: Pool, atr: real, i: nat)
    requires i < |bars| && atr > 0.0
    ensures var b, found := bars[i], Probe(cfg, bars, pool, atr, i);
            && (found.Some? <==>
                  && Penetrates(cfg, atr, pool, b)
                  && (if ClosesBack(pool, b) then Rejects(cfg, pool, b)
                      else Returns(cfg, bars, pool, i) || (!cfg.requireCloseInside && Rejects(cfg, pool, b))))
            && (found.Some? ==>
                  var s := found.value;
                  && s.at == i && s.ts == b.ts && s.pool == pool && s.penetrationAtr * atr == Beyond(pool, b)
                  && s.rejection * (b.high - b.low) == (if GivenBack(pool, b) > 0.0 then GivenBack(pool, b) else 0.0)
                  && s.displacement == Displacement(bars, pool, atr, i)
                  && (s.closedInside <==> ClosesBack(pool, b) || Returns(cfg, bars, pool, i))
                  && s.barsToReject >= 1
                  && (if !ClosesBack(pool, b) && Returns(cfg, bars, pool, i)
                      then ReturnsAt(cfg, bars, pool, i, i + s.barsToReject - 1) else s.barsToReject == 1))
  {
    hide Displacement, FirstInside, RejectionEnd, Rejection, Returns, ReturnsAt, Penetrates, Rejects, Beyond, GivenBack,
        ClosesBack, Takes, Penetration, Inside;
    var b := bars[i];
    PenetrationMeans(cfg, atr, pool, b);
    if b.high > b.low {
      RejectionMeans(cfg, pool, b);
    }
    FirstInsideMeans(cfg, bars, pool, i);
  }

  lemma PenetrationMeans(cfg: Settings, atr: real, pool: Pool, b: Bar)
    requires atr > 0.0
    ensures Penetrates(cfg, atr, pool, b) <==>
            && b.high - b.low > 0.0 && Takes(pool, b)
            && cfg.minPenetration <= Penetration(pool, b) / atr <= cfg.maxPenetration
    ensures Penetration(pool, b) / atr * atr == Beyond(pool, b)
    ensures Inside(pool, b.close) <==> ClosesBack(pool, b)
  {
    AtMostTimes(Beyond(pool, b), cfg.minPenetration, atr);
    AtMostTimes(Beyond(pool, b), cfg.maxPenetration, atr);
    QuotientTimes(Beyond(pool, b), atr);
  }

  lemma RejectionMeans(cfg: Settings, pool: Pool, b: Bar)
    requires b.high > b.low
    ensures Rejection(pool, b) >= cfg.minRejection <==> Rejects(cfg, pool, b)
    ensures Max(0.0, Rejection(pool, b)) * (b.high - b.low)
            == if GivenBack(pool, b) > 0.0 then GivenBack(pool, b) else 0.0
  {
    AtMostTimes(GivenBack(pool, b), cfg.minRejection, b.high - b.low);
    AtMostTimes(GivenBack(pool, b), 0.0, b.high - b.low);
    QuotientTimes(GivenBack(pool, b), b.high - b.low);
  }

  lemma FirstInsideMeans(cfg: Settings, bars: seq<Bar>, pool: Pool, i: nat)
    requires i < |bars|
    ensures var back := FirstInside(bars, pool, i + 1, RejectionEnd(cfg, |bars|, i));
            && (back.Some? <==> Returns(cfg, bars, pool, i))
            && (back.Some? ==> ReturnsAt(cfg, bars, pool, i, back.value))
  {
    hide FirstInside;
    var back := FirstInside(bars, pool, i + 1, RejectionEnd(cfg, |bars|, i));
    if back.Some? {
      assert ReturnsAt(cfg, bars, pool, i, back.value);
    }
  }

  // How far a later bar moved in the reversal's direction from the sweep's close.
  function Reversal(pool: Pool, sweep: Bar, later: Bar): real {
    if pool.buySide then sweep.close - later.low else later.high - sweep.close
  }

  /** The displacement is the furthest reversal of the next five bars, in ATR, and zero without one. */
  lemma DisplacementMeans(bars: seq<Bar>, pool: Pool, atr: real, i: nat)
    requires i < |bars| && atr > 0.0
    ensures var d := Displacement(bars, pool, atr, i) * atr;
            && d >= 0.0
            && (forall j :: i < j < |bars| && j <= i + 5 ==> Reversal(pool, bars[i], bars[j]) <= d)
            && (d > 0.0 ==> exists j :: i < j < |bars| && j <= i + 5 && Reversal(pool, bars[i], bars[j]) == d)
  {
    hide FurthestMove;
    var end := DisplacementEnd(|bars|, i);
    if i + 1 < end {
      FurthestMeans(bars, pool, i, end);
      var far := FurthestMove(bars, pool, i, end);
      QuotientTimes(far, atr);
      AtMostTimes(far, 0.0, atr);
    }
  }

  lemma {:induction false} FurthestMeans(bars: seq<Bar>, pool: Pool, i: nat, end: nat)
    requires i + 1 < end <= |bars|
    ensures forall j :: i < j < end ==> Reversal(pool, bars[i], bars[j]) <= FurthestMove(bars, pool, i, end)
    ensures exists j :: i < j < end && Reversal(pool, bars[i], bars[j]) == FurthestMove(bars, pool, i, end)
    decreases end
  {
    if end == i + 2 {
      assert Reversal(pool, bars[i], bars[i + 1]) == FurthestMove(bars, pool, i, end);
    } else {
      FurthestMeans(bars, pool, i, end - 1);
      assert Reversal(pool, bars[i], bars[end - 1]) == MoveAway(pool, bars[i], bars[end - 1]);
    }
  }

  // ---------------------------------------------------------------- the loops

  method ScanPool(cfg: Settings, bars: seq<Bar>, pool: Pool, atr: real, start: nat) returns (r: Option<Sweep>)
    requires atr > 0.0
    ensures r == Scan(cfg, bars, pool, atr, start)
  {
    hide FirstInside, RejectionEnd, Rejection, Penetration, Takes, Inside, Displacement;
    var i := start;
    while i < |bars|
      invariant Scan(cfg, bars, pool, atr, start) == Scan(cfg, bars, pool, atr, i)
    {
      var b := bars[i];
      var range := b.high - b.low;
      if range <= 0.0 || !Takes(pool, b) {
        i := i + 1;
        continue;
      }
      var penetration := Penetration(pool, b) / atr;
      if penetration < cfg.minPenetration || penetration > cfg.maxPenetration {
        i := i + 1;
        continue;
      }
      var rejection := Rejection(pool, b);
      var closedInside, barsToReject := Inside(pool, b.close), 1;
      if !closedInside {
        var back := LaterClose(cfg, bars, pool, i);
        if back.Some? {
          barsToReject, closedInside := back.value - i + 1, true;
        } else if cfg.requireCloseInside {
          i := i + 1;
          continue;
        }
      }
      if rejection < cfg.minRejection && barsToReject == 1 {
        i := i + 1;
        continue;
      }
      return Some(Sweep(i, b.ts, pool, penetration, Max(0.0, rejection), closedInside,
                        Displacement(bars, pool, atr, i), barsToReject));
    }
    r := None;
  }

  // Allow the rejection to complete over the next few bars.
  method LaterClose(cfg: Settings, bars: seq<Bar>, pool: Pool, i: nat) returns (back: Option<nat>)
    requires i < |bars|
    ensures back == FirstInside(bars, pool, i + 1, RejectionEnd(cfg, |bars|, i))
  {
    var j, end := i + 1, RejectionEnd(cfg, |bars|, i);
    while j < end
      invariant FirstInside(bars, pool, i + 1, end) == FirstInside(bars, pool, j, end)
    {
      if Inside(pool, bars[j].close) {
        return Some(j);
      }
      j := j + 1;
    }
    back := None;
  }

  function Collect(cfg: Settings, bars: seq<Bar>, pools: seq<Pool>, atr: real): seq<Sweep>
    requires atr > 0.0
  {
    if pools == [] then []
    else
      var s := Scan(cfg, bars, pools[|pools| - 1], atr, ScanStart(cfg, |bars|, pools[|pools| - 1]));
      Collect(cfg, bars, pools[..|pools| - 1], atr) + if s.Some? then [s.value] else []
  }

  predicate EarlierFirst(a: Sweep, b: Sweep) {
    a.ts <= b.ts
  }

  method DetectSweeps(cfg: Settings, bars: seq<Bar>, pools: seq<Pool>, atr: real) returns (sweeps: seq<Sweep>)
    ensures sweeps == if |bars| < 5 || atr <= 0.0 then [] else Sort(Collect(cfg, bars, pools, atr), EarlierFirst)
  {
    if |bars| < 5 || atr <= 0.0 {
      return [];
    }
    sweeps := [];
    for k := 0 to |pools|
      invariant sweeps == Collect(cfg, bars, pools[..k], atr)
    {
      assert pools[..k + 1][..k] == pools[..k];
      var s := ScanPool(cfg, bars, pools[k], atr, ScanStart(cfg, |bars|, pools[k]));
      if s.Some? {
        sweeps := sweeps + [s.value];
      }
    }
    assert pools[..|pools|] == pools;
    sweeps := Sort(sweeps, EarlierFirst);
  }

  // The position a pool's level is first traded through after it formed.
  function FirstTaken(bars: seq<Bar>, pool: Pool, i: nat): (r: Option<nat>)
    ensures r.Some? ==> i <= r.value < |bars| && Takes(pool, bars[r.value])
    ensures forall k :: i <= k < (if r.Some? then r.value else |bars|) ==> !Takes(pool, bars[k])
    decreases |bars| - i
  {
    if i >= |bars| then None else if Takes(pool, bars[i]) then Some(i) else FirstTaken(bars, pool, i + 1)
  }

  // ---------------------------------------------------------------- what later bars can change

  lemma SameFirstInside(bars: seq<Bar>, more: seq<Bar>, pool: Pool, j: nat, end: nat)
    requires bars <= more && end <= |bars|
    ensures FirstInside(bars, pool, j, end) == FirstInside(more, pool, j, end)
    decreases end - j
  {
    if j < end {
      SameFirstInside(bars, more, pool, j + 1, end);
    }
  }

  lemma {:induction false} FurtherWithMore(bars: seq<Bar>, more: seq<Bar>, pool: Pool, i: nat, end: nat, later: nat)
    requires bars <= more && i + 1 < end <= |bars| && end <= later <= |more|
    ensures FurthestMove(bars, pool, i, end) <= FurthestMove(more, pool, i, later)
    ensures end == later ==> FurthestMove(bars, pool, i, end) == FurthestMove(more, pool, i, later)
    decreases later
  {
    if end < later {
      FurtherWithMore(bars, more, pool, i, end, later - 1);
    } else if end > i + 2 {
      FurtherWithMore(bars, more, pool, i, end - 1, end - 1);
    }
  }

  // The displacement never falls as bars arrive, and is final once five have come.
  lemma DisplacementGrows(bars: seq<Bar>, more: seq<Bar>, pool: Pool, atr: real, i: nat)
    requires bars <= more && i < |bars| && atr > 0.0
    ensures 0.0 <= Displacement(bars, pool, atr, i) <= Displacement(more, pool, atr, i)
    ensures i + 5 < |bars| ==> Displacement(bars, pool, atr, i) == Displacement(more, pool, atr, i)
  {
    hide FurthestMove;
    var end, later := DisplacementEnd(|bars|, i), DisplacementEnd(|more|, i);
    if i + 1 < end {
      FurtherWithMore(bars, more, pool, i, end, later);
      DivMonotone(FurthestMove(bars, pool, i, end), FurthestMove(more, pool, i, later), atr);
    }
  }

  /** The same sweep reported again over `n` bars and then over more: nothing differs but the
      displacement, which can only have grown, and not any more once five later bars are in. */
  predicate SameSweep(s: Sweep, now: Sweep, n: nat) {
    && now == s.(displacement := now.displacement) && s.displacement <= now.displacement
    && (s.at + 5 < n ==> now == s)
  }

  // A bar that qualified by a close inside qualifies in the same way later.
  lemma ProbeStays(cfg: Settings, bars: seq<Bar>, more: seq<Bar>, pool: Pool, atr: real, i: nat)
    requires bars <= more && i < |bars| && atr > 0.0
    requires Probe(cfg, bars, pool, atr, i).Some? && Probe(cfg, bars, pool, atr, i).value.closedInside
    ensures Probe(cfg, more, pool, atr, i).Some?
    ensures SameSweep(Probe(cfg, bars, pool, atr, i).value, Probe(cfg, more, pool, atr, i).value, |bars|)
  {
    hide Rejection, Penetration, Displacement;
    DisplacementGrows(bars, more, pool, atr, i);
  }

  // The close that proved a sweep at i.
  function BackInside(s: Sweep): int {
    s.at + s.barsToReject - 1
  }

  lemma ProofBar(cfg: Settings, bars: seq<Bar>, pool: Pool, atr: real, i: nat)
    requires i < |bars| && atr > 0.0
    requires Probe(cfg, bars, pool, atr, i).Some? && Probe(cfg, bars, pool, atr, i).value.closedInside
    ensures var j := BackInside(Probe(cfg, bars, pool, atr, i).value); i <= j < |bars| && Inside(pool, bars[j].close)
  {
    hide Displacement;
  }

  // A bar that did not qualify while a later close was already inside never will.
  lemma ProbeStaysNone(cfg: Settings, bars: seq<Bar>, more: seq<Bar>, pool: Pool, atr: real, i: nat, j: nat)
    requires bars <= more && i < j < |bars| && atr > 0.0 && Inside(pool, bars[j].close)
    requires Probe(cfg, bars, pool, atr, i) == None
    ensures Probe(cfg, more, pool, atr, i) == None
  {
    hide Rejection, Penetration, Displacement;
  }

  // From one start, a sweep found stays the first one found.
  lemma {:induction false} ScanStays(cfg: Settings, bars: seq<Bar>, more: seq<Bar>, pool: Pool, atr: real, start: nat)
    requires bars <= more && atr > 0.0 && cfg.requireCloseInside
    requires Scan(cfg, bars, pool, atr, start).Some?
    ensures Scan(cfg, more, pool, atr, start).Some?
    ensures SameSweep(Scan(cfg, bars, pool, atr, start).value, Scan(cfg, more, pool, atr, start).value, |bars|)
    decreases |bars| - start
  {
    hide SameSweep;
    var s := Scan(cfg, bars, pool, atr, start).value;
    ProofBar(cfg, bars, pool, atr, s.at);
    if Probe(cfg, bars, pool, atr, start).Some? {
      ProbeStays(cfg, bars, more, pool, atr, start);
    } else {
      ProbeStaysNone(cfg, bars, more, pool, atr, start, BackInside(s));
      ScanStays(cfg, bars, more, pool, atr, start + 1);
    }
  }

  // A scan that starts later, but no later than the sweep, finds the same one.
  lemma {:induction false} ScanFromLater(cfg: Settings, bars: seq<Bar>, pool: Pool, atr: real, start: nat, later: nat)
    requires atr > 0.0 && start <= later && Scan(cfg, bars, pool, atr, start).Some?
    requires later <= Scan(cfg, bars, pool, atr, start).value.at
    ensures Scan(cfg, bars, pool, atr, later) == Scan(cfg, bars, pool, atr, start)
    decreases later - start
  {
    hide Probe;
    if start < later {
      ScanFromLater(cfg, bars, pool, atr, start + 1, later);
    }
  }

  // What the detector reports for one pool over these bars.
  function Reported(cfg: Settings, bars: seq<Bar>, pool: Pool, atr: real): Option<Sweep>
    requires atr > 0.0
  {
    Scan(cfg, bars, pool, atr, ScanStart(cfg, |bars|, pool))
  }

  // The detector's list holds exactly what it reports for its pools.
  lemma {:induction false} CollectMeaning(cfg: Settings, bars: seq<Bar>, pools: seq<Pool>, atr: real, s: Sweep)
    requires atr > 0.0
    ensures s in Collect(cfg, bars, pools, atr)
            <==> exists k :: 0 <= k < |pools| && Reported(cfg, bars, pools[k], atr) == Some(s)
  {
    hide Scan, ScanStart;
    if pools != [] {
      var n := |pools| - 1;
      CollectMeaning(cfg, bars, pools[..n], atr, s);
      assert forall k :: 0 <= k < n ==> pools[..n][k] == pools[k];
    }
  }

  // A reported sweep is reported again over more bars exactly as long as the look-back reaches it.
  ghost predicate KeptWhileInWindow(cfg: Settings, bars: seq<Bar>, more: seq<Bar>, pool: Pool, atr: real)
    requires atr > 0.0
  {
    |bars| >= 5 && bars <= more && Reported(cfg, bars, pool, atr).Some? ==>
      var s, now := Reported(cfg, bars, pool, atr).value, Reported(cfg, more, pool, atr);
      (now.Some? && SameSweep(s, now.value, |bars|)) <==> s.at >= ScanStart(cfg, |more|, pool)
  }

  // Nothing reported is revised before it leaves the look-back window, whatever the data.
  ghost predicate NeverRevised(cfg: Settings, atr: real)
    requires atr > 0.0
  {
    forall bars, more, pool :: KeptWhileInWindow(cfg, bars, more, pool, atr)
  }

  lemma WindowOnlyAdvances(cfg: Settings, n: nat, m: nat, pool: Pool)
    requires n <= m
    ensures ScanStart(cfg, n, pool) <= ScanStart(cfg, m, pool)
  {
  }

  lemma ReportStays(cfg: Settings, bars: seq<Bar>, more: seq<Bar>, pool: Pool, atr: real)
    requires atr > 0.0 && cfg.requireCloseInside
    ensures KeptWhileInWindow(cfg, bars, more, pool, atr)
  {
    hide Scan, ScanStart;
    if bars <= more && Reported(cfg, bars, pool, atr).Some? {
      var start, later := ScanStart(cfg, |bars|, pool), ScanStart(cfg, |more|, pool);
      var s := Reported(cfg, bars, pool, atr).value;
      WindowOnlyAdvances(cfg, |bars|, |more|, pool);
      if s.at >= later {
        ScanStays(cfg, bars, more, pool, atr, start);
        ScanFromLater(cfg, more, pool, atr, start, later);
      }
    }
  }

  /** What the detector reports for a pool, up to a displacement that only grows, is final exactly
      when a close back inside is required: with that setting a sweep is reported again, over any
      later bars, precisely until the look-back window has moved past it; without it a sweep is
      reported before its rejection is settled, and the record changes when it is. */
  lemma SweepsAreFinalExactlyWhenCloseRequired(cfg: Settings, atr: real)
    requires ValidSettings(cfg) && atr > 0.0
    ensures NeverRevised(cfg, atr) <==> cfg.requireCloseInside
  {
    if cfg.requireCloseInside {
      forall bars, more, pool
        ensures KeptWhileInWindow(cfg, bars, more, pool, atr)
      {
        ReportStays(cfg, bars, more, pool, atr);
      }
    } else {
      RevisedWitness(cfg, atr);
    }
  }

  // A bar without a range, in which no pool is taken.
  function Flat(ts: int): Bar {
    Bar(ts, 0.0, 0.0, 0.0, 0.0, 0, 0.0)
  }

  lemma {:induction false} ScanPastFlat(cfg: Settings, bars: seq<Bar>, pool: Pool, atr: real, start: nat, end: nat)
    requires atr > 0.0 && start <= end <= |bars|
    requires forall i :: start <= i < end ==> bars[i].high == bars[i].low
    ensures Scan(cfg, bars, pool, atr, start) == Scan(cfg, bars, pool, atr, end)
    decreases end - start
  {
    hide Rejection, Penetration, Displacement, FirstInside;
    if start < end {
      ScanPastFlat(cfg, bars, pool, atr, start + 1, end);
    }
  }

  // Four flat bars, a take that closes on the level, and then a close inside.
  function Unsettled(cfg: Settings, atr: real): seq<Bar> {
    [Flat(0), Flat(1), Flat(2), Flat(3), Bar(4, 0.0, cfg.maxPenetration * atr, 0.0, 0.0, 0, 0.0)]
  }

  lemma RevisedWitness(cfg: Settings, atr: real)
    requires ValidSettings(cfg) && atr > 0.0 && !cfg.requireCloseInside
    ensures !NeverRevised(cfg, atr)
  {
    hide Displacement, Penetration, Rejection;
    var reach := cfg.maxPenetration * atr;
    var bars, pool := Unsettled(cfg, atr), Pool(true, 0.0, -1);
    var more := bars + [Bar(5, 0.0, 0.0, -1.0, -1.0, 0, 0.0)];
    TakeNumbers(cfg, atr);
    TakeShape(pool, bars[4], reach);
    assert more[4] == bars[4];
    ScanPastFlat(cfg, bars, pool, atr, 1, 4);
    ScanPastFlat(cfg, more, pool, atr, 1, 4);
    assert FirstInside(bars, pool, 5, RejectionEnd(cfg, 5, 4)) == None;
    assert Probe(cfg, bars, pool, atr, 4).Some? && !Probe(cfg, bars, pool, atr, 4).value.closedInside;
    assert FirstInside(more, pool, 5, RejectionEnd(cfg, 6, 4)) == Some(5);
    assert Probe(cfg, more, pool, atr, 4).Some? && Probe(cfg, more, pool, atr, 4).value.closedInside;
    assert ScanStart(cfg, 5, pool) == ScanStart(cfg, 6, pool) == 1;
    assert !KeptWhileInWindow(cfg, bars, more, pool, atr);
  }

  lemma TakeShape(pool: Pool, b: Bar, reach: real)
    requires pool == Pool(true, 0.0, -1) && reach > 0.0 && b == Bar(4, 0.0, reach, 0.0, 0.0, 0, 0.0)
    ensures Penetration(pool, b) == reach && Rejection(pool, b) == 1.0
  {
    SelfRatio(reach);
  }

  lemma TakeNumbers(cfg: Settings, atr: real)
    requires cfg.maxPenetration > 0.0 && atr > 0.0
    ensures var reach := cfg.maxPenetration * atr;
            reach > 0.0 && reach / atr == cfg.maxPenetration && reach / reach == 1.0
  {
    ScaleBack(cfg.maxPenetration, atr);
    SelfRatio(cfg.maxPenetration * atr);
  }

  /** A sweep that left the look-back window can be replaced by a later one of the same pool, but
      never by an earlier one. */
  lemma ReplacedOnlyByLater(cfg: Settings, bars: seq<Bar>, more: seq<Bar>, pool: Pool, atr: real)
    requires atr > 0.0 && bars <= more && Reported(cfg, bars, pool, atr).Some? && Reported(cfg, more, pool, atr).Some?
    requires cfg.requireCloseInside && |bars| >= 5
    requires !SameSweep(Reported(cfg, bars, pool, atr).value, Reported(cfg, more, pool, atr).value, |bars|)
    ensures Reported(cfg, bars, pool, atr).value.at < Reported(cfg, more, pool, atr).value.at
  {
    hide Probe, ScanStart;
    ReportStays(cfg, bars, more, pool, atr);
  }

  /** A sweep is dated no earlier than the bar that marks its pool as taken, and that bar, too,
      stays the same when bars arrive. */
  lemma {:induction false} SweptBeforeSweep(cfg: Settings, bars: seq<Bar>, more: seq<Bar>, pool: Pool, atr: real,
                                            from: nat, start: nat)
    requires atr > 0.0 && from <= start && bars <= more && Scan(cfg, bars, pool, atr, start).Some?
    ensures var taken := FirstTaken(bars, pool, from);
            && taken.Some? && taken.value <= Scan(cfg, bars, pool, atr, start).value.at
            && FirstTaken(more, pool, from) == taken
  {
    hide Displacement;
    var s := Scan(cfg, bars, pool, atr, start).value;
    assert Takes(pool, bars[s.at]);
    var taken, later := FirstTaken(bars, pool, from), FirstTaken(more, pool, from);
    assert forall k :: 0 <= k < |bars| ==> more[k] == bars[k];
  }
}
