/** Fractal swing detection: windowed masks, the ordering of the two kinds, and the collapse
    of same-kind runs (src/xauusd/core/structure.py, first half). */
module Swings {
  import opened Domain
  import opened Sequences

  datatype Kind = High | Low

  datatype RawSwing = RawSwing(index: int, confirmed: int, price: real, kind: Kind, structural: bool)

  // ---------------------------------------------------------------- the fractal masks

  function Highs(series: seq<Bar>): (r: seq<real>)
    ensures |r| == |series| && forall i :: 0 <= i < |r| ==> r[i] == series[i].high
  {
    seq(|series|, i requires 0 <= i < |series| => series[i].high)
  }

  function Lows(series: seq<Bar>): (r: seq<real>)
    ensures |r| == |series| && forall i :: 0 <= i < |r| ==> r[i] == series[i].low
  {
    seq(|series|, i requires 0 <= i < |series| => series[i].low)
  }

  function MaxOf(s: seq<real>): (m: real)
    requires s != []
    ensures m in s && forall i :: 0 <= i < |s| ==> s[i] <= m
  {
    if |s| == 1 then s[0] else Max(MaxOf(s[..|s| - 1]), s[|s| - 1])
  }

  function MinOf(s: seq<real>): (m: real)
    requires s != []
    ensures m in s && forall i :: 0 <= i < |s| ==> m <= s[i]
  {
    if |s| == 1 then s[0] else Min(MinOf(s[..|s| - 1]), s[|s| - 1])
  }

  // A window of `lookback` bars on each side of the centre.
  predicate InWindow(n: nat, lookback: nat, i: int) {
    1 <= lookback <= i && i + lookback < n
  }

  predicate HighMask(series: seq<Bar>, lookback: nat, i: int)
    requires InWindow(|series|, lookback, i)
  {
    var h := Highs(series);
    h[i] > MaxOf(h[i - lookback..i]) && h[i] >= MaxOf(h[i + 1..i + lookback + 1])
  }

  predicate LowMask(series: seq<Bar>, lookback: nat, i: int)
    requires InWindow(|series|, lookback, i)
  {
    var l := Lows(series);
    && l[i] < MinOf(l[i - lookback..i]) && l[i] <= MinOf(l[i + 1..i + lookback + 1])
    && !HighMask(series, lookback, i)
  }

  /** The high mask selects exactly the bars strictly above their left neighbours and at
      least as high as their right ones. */
  lemma HighMaskMeaning(series: seq<Bar>, lookback: nat, i: int)
    requires InWindow(|series|, lookback, i)
    ensures HighMask(series, lookback, i) <==>
            && (forall j :: i - lookback <= j < i ==> series[j].high < series[i].high)
            && (forall j :: i < j <= i + lookback ==> series[j].high <= series[i].high)
  {
    var h := Highs(series);
    var left, right := h[i - lookback..i], h[i + 1..i + lookback + 1];
    assert forall j :: i - lookback <= j < i ==> series[j].high == left[j - (i - lookback)];
    assert forall j :: i < j <= i + lookback ==> series[j].high == right[j - (i + 1)];
  }

  /** The low mask is the mirror image, with highs taking precedence on the same bar. */
  lemma LowMaskMeaning(series: seq<Bar>, lookback: nat, i: int)
    requires InWindow(|series|, lookback, i)
    ensures LowMask(series, lookback, i) <==>
            && (forall j :: i - lookback <= j < i ==> series[j].low > series[i].low)
            && (forall j :: i < j <= i + lookback ==> series[j].low >= series[i].low)
            && !HighMask(series, lookback, i)
  {
    hide HighMask;
    var l := Lows(series);
    var left, right := l[i - lookback..i], l[i + 1..i + lookback + 1];
    assert forall j :: i - lookback <= j < i ==> series[j].low == left[j - (i - lookback)];
    assert forall j :: i < j <= i + lookback ==> series[j].low == right[j - (i + 1)];
  }

  // The mask of one kind over the whole series; bars without a full window are never selected.
  function Mask(series: seq<Bar>, lookback: nat, kind: Kind): (m: seq<bool>)
    ensures |m| == |series|
  {
    seq(|series|, i requires 0 <= i < |series| =>
      InWindow(|series|, lookback, i)
      && (if kind == High then HighMask(series, lookback, i) else LowMask(series, lookback, i)))
  }

  function SwingAt(prices: seq<real>, lookback: nat, i: int, kind: Kind): RawSwing
    requires 0 <= i < |prices|
  {
    RawSwing(i, i + lookback, prices[i], kind, true)
  }

  // The swings of one mask before `upto`, in bar order.
  function Masked(mask: seq<bool>, prices: seq<real>, lookback: nat, kind: Kind, upto: nat): seq<RawSwing>
    requires upto <= |mask| == |prices|
  {
    if upto == 0 then []
    else
      Masked(mask, prices, lookback, kind, upto - 1)
      + (if mask[upto - 1] then [SwingAt(prices, lookback, upto - 1, kind)] else [])
  }

  predicate ByIndex(a: RawSwing, b: RawSwing) {
    a.index <= b.index
  }

  // The two masked lists concatenated, then sorted by bar index.
  function Candidates(series: seq<Bar>, lookback: nat): seq<RawSwing> {
    Sort(Masked(Mask(series, lookback, High), Highs(series), lookback, High, |series|)
         + Masked(Mask(series, lookback, Low), Lows(series), lookback, Low, |series|), ByIndex)
  }

  // ---------------------------------------------------------------- run collapsing

  predicate Better(a: RawSwing, b: RawSwing) {
    if a.kind == High then a.price > b.price else a.price < b.price
  }

  function AlternateStep(out: seq<RawSwing>, s: RawSwing): seq<RawSwing> {
    if out == [] || out[|out| - 1].kind != s.kind then out + [s]
    else if Better(s, out[|out| - 1]) then out[|out| - 1 := s]
    else out
  }

  function Alternate(swings: seq<RawSwing>): seq<RawSwing> {
    if swings == [] then []
    else AlternateStep(Alternate(swings[..|swings| - 1]), swings[|swings| - 1])
  }

  // The loop the source runs, rewriting the last entry in place.
  method AlternateLoop(swings: seq<RawSwing>) returns (out: seq<RawSwing>)
    ensures out == Alternate(swings)
  {
    out := [];
    for i := 0 to |swings|
      invariant out == Alternate(swings[..i])
    {
      assert swings[..i + 1][..i] == swings[..i];
      var s := swings[i];
      if out == [] || out[|out| - 1].kind != s.kind {
        out := out + [s];
        continue;
      }
      var prev := out[|out| - 1];
      var better := if s.kind == High then s.price > prev.price else s.price < prev.price;
      if better {
        out := out[|out| - 1 := s];
      }
    }
    assert swings[..|swings|] == swings;
  }

  // ---- the reference: maximal same-kind runs and their first most extreme element

  predicate JoinsLast(runs: seq<seq<RawSwing>>, s: RawSwing) {
    runs != [] && runs[|runs| - 1] != [] && runs[|runs| - 1][0].kind == s.kind
  }

  function PushRun(runs: seq<seq<RawSwing>>, s: RawSwing): seq<seq<RawSwing>> {
    if JoinsLast(runs, s) then runs[..|runs| - 1] + [runs[|runs| - 1] + [s]] else runs + [[s]]
  }

  function Runs(swings: seq<RawSwing>): seq<seq<RawSwing>> {
    if swings == [] then [] else PushRun(Runs(swings[..|swings| - 1]), swings[|swings| - 1])
  }

  function Flatten(runs: seq<seq<RawSwing>>): seq<RawSwing> {
    if runs == [] then [] else Flatten(runs[..|runs| - 1]) + runs[|runs| - 1]
  }

  ghost predicate SameKind(run: seq<RawSwing>) {
    run != [] && forall j :: 0 <= j < |run| ==> run[j].kind == run[0].kind
  }

  ghost predicate MaximalRuns(runs: seq<seq<RawSwing>>) {
    && (forall i :: 0 <= i < |runs| ==> SameKind(runs[i]))
    && (forall i :: 0 < i < |runs| ==> runs[i - 1][0].kind != runs[i][0].kind)
  }

  lemma PushRunFlatten(runs: seq<seq<RawSwing>>, s: RawSwing)
    ensures Flatten(PushRun(runs, s)) == Flatten(runs) + [s]
  {
    var pushed := PushRun(runs, s);
    var n := |pushed| - 1;
    if JoinsLast(runs, s) {
      assert pushed[..n] == runs[..n];
    } else {
      assert pushed[..n] == runs;
    }
  }

  lemma PushRunMaximal(runs: seq<seq<RawSwing>>, s: RawSwing)
    requires MaximalRuns(runs)
    ensures MaximalRuns(PushRun(runs, s))
  {
    var pushed := PushRun(runs, s);
    var n := |pushed| - 1;
    assert SameKind(pushed[n]);
    assert forall i :: 0 <= i < n ==> pushed[i] == runs[i];
    assert n > 0 ==> SameKind(runs[n - 1]);
  }

  // `Runs` splits its input into maximal same-kind runs.
  lemma {:induction false} RunsSplit(swings: seq<RawSwing>)
    ensures Flatten(Runs(swings)) == swings && MaximalRuns(Runs(swings))
  {
    if swings != [] {
      var front, s := swings[..|swings| - 1], swings[|swings| - 1];
      RunsSplit(front);
      PushRunFlatten(Runs(front), s);
      PushRunMaximal(Runs(front), s);
      assert swings == front + [s];
    }
  }

  ghost predicate FirstExtremeAt(run: seq<RawSwing>, j: int) {
    && 0 <= j < |run|
    && (forall k :: 0 <= k < j ==> Better(run[j], run[k]))
    && (forall k :: j < k < |run| ==> !Better(run[k], run[j]))
  }

  ghost predicate FirstExtreme(run: seq<RawSwing>, x: RawSwing) {
    exists j :: FirstExtremeAt(run, j) && run[j] == x
  }

  lemma ExtendFirstExtreme(run: seq<RawSwing>, x: RawSwing, s: RawSwing)
    requires FirstExtreme(run, x) && s.kind == x.kind
    requires forall k :: 0 <= k < |run| ==> run[k].kind == x.kind
    ensures FirstExtreme(run + [s], if Better(s, x) then s else x)
  {
    var j :| FirstExtremeAt(run, j) && run[j] == x;
    var r := run + [s];
    if Better(s, x) {
      forall k | 0 <= k < |run|
        ensures Better(s, r[k])
      {
        assert r[k] == run[k] && !Better(run[k], x);
      }
      assert FirstExtremeAt(r, |run|);
    } else {
      assert r[j] == x && forall k :: 0 <= k < |run| ==> r[k] == run[k];
      assert FirstExtremeAt(r, j);
    }
  }

  ghost predicate CollapsesTo(runs: seq<seq<RawSwing>>, out: seq<RawSwing>) {
    |out| == |runs| && forall i :: 0 <= i < |runs| ==> FirstExtreme(runs[i], out[i])
  }

  lemma PushCollapses(runs: seq<seq<RawSwing>>, out: seq<RawSwing>, s: RawSwing)
    requires MaximalRuns(runs) && CollapsesTo(runs, out)
    ensures CollapsesTo(PushRun(runs, s), AlternateStep(out, s))
  {
    var pushed, next := PushRun(runs, s), AlternateStep(out, s);
    if runs != [] {
      var i := |runs| - 1;
      assert SameKind(runs[i]) && FirstExtreme(runs[i], out[i]);
      assert out[i].kind == runs[i][0].kind;
      if JoinsLast(runs, s) {
        ExtendFirstExtreme(runs[i], out[i], s);
        assert pushed[i] == runs[i] + [s] && next[i] == if Better(s, out[i]) then s else out[i];
      }
    }
    assert FirstExtremeAt([s], 0);
    assert !JoinsLast(runs, s) ==> FirstExtreme(pushed[|runs|], next[|runs|]);
    assert forall i :: 0 <= i < |runs| - 1 ==> pushed[i] == runs[i] && next[i] == out[i];
    assert !JoinsLast(runs, s) && runs != [] ==>
            pushed[|runs| - 1] == runs[|runs| - 1] && next[|runs| - 1] == out[|runs| - 1];
  }

  /** Collapsing keeps, for the i-th maximal same-kind run, its first most extreme element. */
  lemma {:induction false} AlternateNormalForm(swings: seq<RawSwing>)
    ensures CollapsesTo(Runs(swings), Alternate(swings))
  {
    if swings != [] {
      var front, s := swings[..|swings| - 1], swings[|swings| - 1];
      AlternateNormalForm(front);
      RunsSplit(front);
      PushCollapses(Runs(front), Alternate(front), s);
    }
  }

  ghost predicate InOrder(s: seq<RawSwing>) {
    forall i, j :: 0 <= i < j < |s| ==> s[i].index < s[j].index
  }

  ghost predicate Alternating(s: seq<RawSwing>) {
    forall i :: 0 < i < |s| ==> s[i - 1].kind != s[i].kind
  }

  /** The collapsed list strictly alternates, and keeps the bar order of its input. */
  lemma {:induction false} AlternateOrder(swings: seq<RawSwing>)
    requires InOrder(swings)
    ensures Alternating(Alternate(swings)) && InOrder(Alternate(swings))
    ensures forall x :: x in Alternate(swings) ==> x in swings
  {
    if swings != [] {
      var front, s := swings[..|swings| - 1], swings[|swings| - 1];
      AlternateOrder(front);
      assert swings == front + [s];
      var out := Alternate(front);
      forall i | 0 <= i < |out|
        ensures out[i].index < s.index
      {
        assert out[i] in front;
      }
    }
  }

  /** Later swings can rewrite only the last collapsed entry: every other entry is final. */
  lemma {:induction false} AlternateRepaintsOnlyLast(swings: seq<RawSwing>, more: seq<RawSwing>)
    ensures var before, after := Alternate(swings), Alternate(swings + more);
            |before| <= |after| && forall i :: 0 <= i < |before| - 1 ==> after[i] == before[i]
  {
    if more == [] {
      assert swings + more == swings;
    } else {
      assert (swings + more)[..|swings + more| - 1] == swings + more[..|more| - 1];
      AlternateRepaintsOnlyLast(swings, more[..|more| - 1]);
    }
  }

  // ---------------------------------------------------------------- the whole detector

  function LegAtLeast(swings: seq<RawSwing>, i: nat, threshold: real): bool
    requires i < |swings|
  {
    i == 0 || Abs(swings[i].price - swings[i - 1].price) >= threshold
  }

  function DetectSwings(series: seq<Bar>, lookback: nat, minLegAtr: real, atr: real): seq<RawSwing> {
    if |series| < 2 * lookback + 1 then []
    else
      var out := Alternate(Candidates(series, lookback));
      if minLegAtr > 0.0 && atr > 0.0 then
        seq(|out|, i requires 0 <= i < |out| => out[i].(structural := LegAtLeast(out, i, minLegAtr * atr)))
      else out
  }

  /** Which swings are structural: all of them without a threshold, and otherwise the first and those
      at least the threshold away from the swing before. */
  lemma StructuralExactlyWhen(series: seq<Bar>, lookback: nat, minLegAtr: real, atr: real, i: nat)
    requires i < |DetectSwings(series, lookback, minLegAtr, atr)|
    ensures var out := DetectSwings(series, lookback, minLegAtr, atr);
            out[i].structural <==>
              || minLegAtr <= 0.0 || atr <= 0.0 || i == 0
              || out[i].price - out[i - 1].price >= minLegAtr * atr
              || out[i - 1].price - out[i].price >= minLegAtr * atr
  {
    hide Candidates, Alternate;
    var plain, threshold := Alternate(Candidates(series, lookback)), minLegAtr * atr;
    var out := DetectSwings(series, lookback, minLegAtr, atr);
    if minLegAtr > 0.0 && atr > 0.0 {
      assert out[i] == plain[i].(structural := LegAtLeast(plain, i, threshold));
      assert i > 0 ==> out[i - 1].price == plain[i - 1].price;
    } else {
      AllStructural(series, lookback, i);
    }
  }

  lemma AllStructural(series: seq<Bar>, lookback: nat, i: nat)
    requires i < |Alternate(Candidates(series, lookback))|
    ensures Alternate(Candidates(series, lookback))[i].structural
  {
    hide Candidates, Alternate;
    var c := Candidates(series, lookback);
    CandidatesShape(series, lookback);
    AlternateOrder(c);
    assert Alternate(c)[i] in c;
  }

  // One pass over the bars, taking a high before a low.
  function Ascending(hm: seq<bool>, lm: seq<bool>, hs: seq<real>, ls: seq<real>, lookback: nat,
      upto: nat): seq<RawSwing>
    requires upto <= |hm| == |lm| == |hs| == |ls|
  {
    if upto == 0 then []
    else
      Ascending(hm, lm, hs, ls, lookback, upto - 1)
      + (if hm[upto - 1] then [SwingAt(hs, lookback, upto - 1, High)]
         else if lm[upto - 1] then [SwingAt(ls, lookback, upto - 1, Low)] else [])
  }

  lemma {:induction false} AscendingMerges(
    hm: seq<bool>, lm: seq<bool>, hs: seq<real>, ls: seq<real>, lookback: nat, upto: nat)
    requires upto <= |hm| == |lm| == |hs| == |ls|
    requires forall i :: 0 <= i < |hm| ==> !(hm[i] && lm[i])
    ensures multiset(Ascending(hm, lm, hs, ls, lookback, upto))
            == multiset(Masked(hm, hs, lookback, High, upto)) + multiset(Masked(lm, ls, lookback, Low, upto))
  {
    if upto > 0 {
      AscendingMerges(hm, lm, hs, ls, lookback, upto - 1);
    }
  }

  // The bar and kind a swing came from, and that the masks selected it.
  predicate FromMask(s: RawSwing, hm: seq<bool>, lm: seq<bool>, hs: seq<real>, ls: seq<real>, lookback: nat, upto: nat)
    requires upto <= |hm| == |lm| == |hs| == |ls|
  {
    && 0 <= s.index < upto
    && (if s.kind == High then hm[s.index] else lm[s.index])
    && s == SwingAt(if s.kind == High then hs else ls, lookback, s.index, s.kind)
  }

  lemma {:induction false} AscendingMeaning(
    hm: seq<bool>, lm: seq<bool>, hs: seq<real>, ls: seq<real>, lookback: nat, upto: nat)
    requires upto <= |hm| == |lm| == |hs| == |ls|
    requires forall i :: 0 <= i < |hm| ==> !(hm[i] && lm[i])
    ensures InOrder(Ascending(hm, lm, hs, ls, lookback, upto))
    ensures forall s :: s in Ascending(hm, lm, hs, ls, lookback, upto) <==> FromMask(s, hm, lm, hs, ls, lookback, upto)
  {
    if upto > 0 {
      var i := upto - 1;
      AscendingMeaning(hm, lm, hs, ls, lookback, i);
      var before, after := Ascending(hm, lm, hs, ls, lookback, i), Ascending(hm, lm, hs, ls, lookback, upto);
      assert forall k :: 0 <= k < |before| ==> before[k] in before;
      forall s
        ensures s in after <==> FromMask(s, hm, lm, hs, ls, lookback, upto)
      {
        assert s in before <==> FromMask(s, hm, lm, hs, ls, lookback, i);
        assert s in after <==> s in before || (hm[i] && s == SwingAt(hs, lookback, i, High))
                               || (!hm[i] && lm[i] && s == SwingAt(ls, lookback, i, Low));
      }
    }
  }

  // Sorting the two masked lists is one pass over the bars.
  lemma CandidatesAscend(series: seq<Bar>, lookback: nat)
    ensures Candidates(series, lookback)
            == Ascending(Mask(series, lookback, High), Mask(series, lookback, Low), Highs(series), Lows(series),
                lookback, |series|)
  {
    var hm, lm := Mask(series, lookback, High), Mask(series, lookback, Low);
    var hs, ls := Highs(series), Lows(series);
    var both := Masked(hm, hs, lookback, High, |series|) + Masked(lm, ls, lookback, Low, |series|);
    AscendingMerges(hm, lm, hs, ls, lookback, |series|);
    AscendingMeaning(hm, lm, hs, ls, lookback, |series|);
    SortSorted(both, ByIndex);
    var c := Candidates(series, lookback);
    assert forall i, j :: 0 <= i < j < |c| ==> ByIndex(c[i], c[j]);
    SortedIsUnique(c, Ascending(hm, lm, hs, ls, lookback, |series|), (s: RawSwing) => s.index);
  }

  /** Sorting the two masked lists yields every masked bar exactly once, in bar order. */
  lemma CandidatesMeaning(series: seq<Bar>, lookback: nat)
    ensures var c := Candidates(series, lookback);
            && InOrder(c)
            && (forall s :: s in c <==>
                  FromMask(s, Mask(series, lookback, High), Mask(series, lookback, Low),
                           Highs(series), Lows(series), lookback, |series|))
  {
    CandidatesAscend(series, lookback);
    AscendingMeaning(Mask(series, lookback, High), Mask(series, lookback, Low), Highs(series), Lows(series),
                     lookback, |series|);
  }

  // The swings with the significance flag put back to its initial value.
  function Unflagged(swings: seq<RawSwing>): (r: seq<RawSwing>)
    ensures |r| == |swings| && forall i :: 0 <= i < |r| ==> r[i] == swings[i].(structural := true)
  {
    seq(|swings|, i requires 0 <= i < |swings| => swings[i].(structural := true))
  }

  ghost predicate NormalForm(c: seq<RawSwing>, out: seq<RawSwing>) {
    && Flatten(Runs(c)) == c && MaximalRuns(Runs(c))
    && CollapsesTo(Runs(c), Unflagged(out))
    && Alternating(out) && InOrder(out)
  }

  lemma UnflaggedOrder(out: seq<RawSwing>)
    requires Alternating(Unflagged(out)) && InOrder(Unflagged(out))
    ensures Alternating(out) && InOrder(out)
  {
    var u := Unflagged(out);
    assert forall i :: 0 <= i < |u| ==> u[i].kind == out[i].kind && u[i].index == out[i].index;
  }

  /** Swing normal form: the detector keeps, for each maximal same-kind run of the masked bars
      in bar order, the first most extreme one; it alternates, its indices increase, and every
      swing is confirmed `lookback` bars later, inside the data. */
  lemma SwingNormalForm(series: seq<Bar>, lookback: nat, minLegAtr: real, atr: real)
    requires |series| >= 2 * lookback + 1
    ensures NormalForm(Candidates(series, lookback), DetectSwings(series, lookback, minLegAtr, atr))
    ensures forall s :: s in DetectSwings(series, lookback, minLegAtr, atr) ==>
              s.confirmed == s.index + lookback < |series|
  {
    var c := Candidates(series, lookback);
    CandidatesShape(series, lookback);
    DetectKeepsAlternate(series, lookback, minLegAtr, atr);
    RunsSplit(c);
    AlternateNormalForm(c);
    AlternateOrder(c);
    var out := DetectSwings(series, lookback, minLegAtr, atr);
    UnflaggedOrder(out);
    forall i | 0 <= i < |out|
      ensures out[i].confirmed == out[i].index + lookback < |series|
    {
      assert Unflagged(out)[i] in Alternate(c);
    }
  }

  lemma CandidatesShape(series: seq<Bar>, lookback: nat)
    ensures InOrder(Candidates(series, lookback))
    ensures forall s :: s in Candidates(series, lookback) ==>
              s.structural && s.confirmed == s.index + lookback < |series|
  {
    CandidatesMeaning(series, lookback);
  }

  // The significance filter touches only the `structural` flag.
  lemma DetectKeepsAlternate(series: seq<Bar>, lookback: nat, minLegAtr: real, atr: real)
    requires |series| >= 2 * lookback + 1
    ensures Unflagged(DetectSwings(series, lookback, minLegAtr, atr)) == Alternate(Candidates(series, lookback))
  {
    var c := Candidates(series, lookback);
    CandidatesShape(series, lookback);
    AlternateOrder(c);
    var plain, out := Alternate(c), DetectSwings(series, lookback, minLegAtr, atr);
    assert |out| == |plain|;
    forall i | 0 <= i < |plain|
      ensures Unflagged(out)[i] == plain[i]
    {
      assert plain[i] in c;
    }
  }

  lemma WindowOfPrefix(all: seq<real>, cut: seq<real>, lookback: nat, i: int)
    requires cut <= all && InWindow(|cut|, lookback, i)
    ensures cut[i] == all[i]
    ensures cut[i - lookback..i] == all[i - lookback..i]
    ensures cut[i + 1..i + lookback + 1] == all[i + 1..i + lookback + 1]
  {
    assert cut == all[..|cut|];
  }

  // A bar's masks read no bar beyond its confirmation.
  lemma MaskReadsOnlyItsWindow(series: seq<Bar>, lookback: nat, m: nat, i: int, kind: Kind)
    requires m <= |series| && 0 <= i < m
    ensures Mask(series[..m], lookback, kind)[i] <==> Mask(series, lookback, kind)[i] && i + lookback < m
  {
    if InWindow(m, lookback, i) {
      WindowOfPrefix(Highs(series), Highs(series[..m]), lookback, i);
      WindowOfPrefix(Lows(series), Lows(series[..m]), lookback, i);
    }
  }

  /** No look-ahead: cutting the data after bar m - 1 keeps exactly the candidates that were
      confirmed by then. */
  lemma CandidatesAreCausal(series: seq<Bar>, lookback: nat, m: nat)
    requires m <= |series|
    ensures forall s :: s in Candidates(series[..m], lookback) <==> s in Candidates(series, lookback) && s.confirmed < m
  {
    hide Candidates, Mask;
    var cut := series[..m];
    CandidatesMeaning(cut, lookback);
    CandidatesMeaning(series, lookback);
    CandidatesShape(cut, lookback);
    CandidatesShape(series, lookback);
    forall s
      ensures s in Candidates(cut, lookback) <==> s in Candidates(series, lookback) && s.confirmed < m
    {
      if 0 <= s.index < m {
        MaskReadsOnlyItsWindow(series, lookback, m, s.index, High);
        MaskReadsOnlyItsWindow(series, lookback, m, s.index, Low);
      }
    }
  }
}
