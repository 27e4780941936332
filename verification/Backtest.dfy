/** The backtest simulator and its walk-forward wrapper
    (app/services/backtest_service.py). The indicator is an arbitrary function of
    the closes seen so far. */
module Backtest {
  import opened Money

  datatype Signal = HOLD | BUY | SELL

  /** Capital, RSI thresholds and warm-up of a request that passed validation. */
  datatype Request = Request(capital: real, buyAt: real, sellAt: real, warmup: nat) {
    predicate Valid() {
      capital > 0.0 && 1.0 <= buyAt < sellAt <= 99.0 && 1 <= warmup <= 200
    }

    /** First bar the simulator may act on. */
    function FirstBar(): nat {
      if warmup >= 15 then warmup else 15
    }
  }

  type Indicator = seq<real> -> Option<real>

  function RuleSignal(rsi: Option<real>, req: Request): Signal {
    match rsi
    case None => HOLD
    case Some(v) => if v <= req.buyAt then BUY else if v >= req.sellAt then SELL else HOLD
  }

  datatype Trade = Trade(entry: real, exit: real, quantity: real, pnl: real, exitIndex: int)

  function CloseTrade(entry: real, exit: real, quantity: real, index: int): Trade {
    Trade(entry, exit, quantity, Scale(quantity, exit - entry), index)
  }

  /** The simulator's variables after some bars; `entries` records the bars it bought on. */
  datatype Sim = Sim(cash: real, shares: real, entry: real, curve: seq<real>, trades: seq<Trade>, entries: seq<nat>)

  function Start(req: Request): Sim {
    Sim(req.capital, 0.0, 0.0, [], [], [])
  }

  /** What the signal on bar i does to the position. */
  function Act(req: Request, rsi: Indicator, close: seq<real>, i: nat, s: Sim): Sim
    requires i < |close|
  {
    var price := close[i];
    if i >= req.FirstBar() && price > 0.0 then
      var signal := RuleSignal(rsi(close[..i + 1]), req);
      if signal == BUY && s.shares == 0.0 then
        s.(shares := s.cash / price, entry := price, cash := 0.0, entries := s.entries + [i])
      else if signal == SELL && s.shares > 0.0 then
        s.(trades := s.trades + [CloseTrade(s.entry, price, s.shares, i)],
           cash := Scale(s.shares, price), shares := 0.0, entry := 0.0)
      else s
    else s
  }

  function Equity(s: Sim, price: real): real {
    s.cash + Scale(s.shares, price)
  }

  function Mark(s: Sim, price: real): Sim {
    s.(curve := s.curve + [Equity(s, price)])
  }

  /** The simulator after its first k bars. */
  function After(req: Request, rsi: Indicator, close: seq<real>, k: nat): Sim
    requires k <= |close|
  {
    if k == 0 then Start(req)
    else Mark(Act(req, rsi, close, k - 1, After(req, rsi, close, k - 1)), close[k - 1])
  }

  /** Trades reported: a position still open is marked to the last close. */
  function ReportedTrades(s: Sim, close: seq<real>): seq<Trade> {
    if s.shares > 0.0 && |close| > 0
    then s.trades + [CloseTrade(s.entry, close[|close| - 1], s.shares, |close| - 1)]
    else s.trades
  }

  datatype Report = Report(curve: seq<real>, trades: seq<Trade>)

  function ReportOf(req: Request, rsi: Indicator, close: seq<real>): Report {
    var s := After(req, rsi, close, |close|);
    Report(s.curve, ReportedTrades(s, close))
  }

  method Simulate(req: Request, rsi: Indicator, close: seq<real>) returns (report: Report)
    ensures report == ReportOf(req, rsi, close)
  {
    var warmup := if req.warmup >= 15 then req.warmup else 15;
    var cash, shares, entry := req.capital, 0.0, 0.0;
    var curve: seq<real> := [];
    var trades: seq<Trade> := [];
    ghost var entries: seq<nat> := [];
    for i := 0 to |close|
      invariant Sim(cash, shares, entry, curve, trades, entries) == After(req, rsi, close, i)
    {
      var price := close[i];
      if i >= warmup && price > 0.0 {
        var signal := RuleSignal(rsi(close[..i + 1]), req);
        if signal == BUY && shares == 0.0 {
          shares := cash / price;
          entry := price;
          cash := 0.0;
          entries := entries + [i];
        } else if signal == SELL && shares > 0.0 {
          trades := trades + [CloseTrade(entry, price, shares, i)];
          cash := Scale(shares, price);
          shares := 0.0;
          entry := 0.0;
        }
      }
      curve := curve + [cash + Scale(shares, price)];
    }
    if shares > 0.0 && |close| > 0 {
      var last := close[|close| - 1];
      trades := trades + [CloseTrade(entry, last, shares, |close| - 1)];
    }
    report := Report(curve, trades);
  }

  // ---- Causality -------------------------------------------------------------------

  /** Series that agree on their first k closes drive the simulator to the same state:
      no bar looks ahead. */
  lemma {:induction false} NoLookAhead(req: Request, rsi: Indicator, a: seq<real>, b: seq<real>, k: nat)
    requires k <= |a| && k <= |b| && a[..k] == b[..k]
    ensures After(req, rsi, a, k) == After(req, rsi, b, k)
  {
    hide RuleSignal, Equity;
    if k == 0 {
    } else {
      assert a[..k - 1] == a[..k][..k - 1] == b[..k - 1];
      assert a[k - 1] == a[..k][k - 1] == b[k - 1];
      NoLookAhead(req, rsi, a, b, k - 1);
    }
  }

  lemma {:induction false} CurveGrows(req: Request, rsi: Indicator, close: seq<real>, k: nat, n: nat)
    requires k <= n <= |close|
    ensures |After(req, rsi, close, n).curve| == n
    ensures After(req, rsi, close, n).curve[..k] == After(req, rsi, close, k).curve
  {
    hide RuleSignal, Equity;
    if k < n {
      CurveGrows(req, rsi, close, k, n - 1);
    } else if n > 0 {
      CurveGrows(req, rsi, close, n - 1, n - 1);
    }
  }

  /** The curve on the first k closes is the first k points of the curve on all of them. */
  lemma CurveIsCausal(req: Request, rsi: Indicator, close: seq<real>, k: nat)
    requires k <= |close|
    ensures |ReportOf(req, rsi, close).curve| == |close|
    ensures ReportOf(req, rsi, close[..k]).curve == ReportOf(req, rsi, close).curve[..k]
  {
    hide Act, Mark;
    CurveGrows(req, rsi, close, k, |close|);
    NoLookAhead(req, rsi, close, close[..k], k);
  }

  // ---- The position and its profit ---------------------------------------------------

  /** Exactly one of cash and shares is held, and the trades so far explain the difference
      between the position at cost and the capital. */
  ghost predicate Sound(req: Request, s: Sim) {
    && ((s.cash > 0.0 && s.shares == 0.0) || (s.cash == 0.0 && s.shares > 0.0 && s.entry > 0.0))
    && s.cash + Scale(s.shares, s.entry) == req.capital + Total(s.trades, (t: Trade) => t.pnl)
  }

  lemma Bought(cash: real, price: real)
    requires cash > 0.0 && price > 0.0
    ensures cash / price > 0.0 && Scale(cash / price, price) == cash
  {
    RatioBound(cash, price, 0.0);
  }

  lemma SoldAt(shares: real, entry: real, price: real)
    requires shares > 0.0 && price > 0.0
    ensures Scale(shares, price) > 0.0
    ensures Scale(shares, price) - Scale(shares, entry) == Scale(shares, price - entry)
  {
    ScaleGrows(0.0, shares, price);
  }

  lemma ActIsSound(req: Request, rsi: Indicator, close: seq<real>, i: nat, s: Sim)
    requires i < |close| && Sound(req, s)
    ensures Sound(req, Act(req, rsi, close, i, s))
  {
    hide Scale, RuleSignal;
    var price := close[i];
    ScaleZero(s.entry);
    ScaleZero(price);
    ScaleZero(0.0);
    if price > 0.0 {
      if s.shares == 0.0 {
        Bought(s.cash, price);
      } else {
        SoldAt(s.shares, s.entry, price);
        var t := CloseTrade(s.entry, price, s.shares, i);
        TotalOne(t, (t: Trade) => t.pnl);
        TotalConcat(s.trades, [t], (t: Trade) => t.pnl);
      }
    }
  }

  lemma ScaleZero(x: real)
    ensures Scale(0.0, x) == 0.0
  {
  }

  lemma {:induction false} RunIsSound(req: Request, rsi: Indicator, close: seq<real>, k: nat)
    requires req.Valid() && k <= |close|
    ensures Sound(req, After(req, rsi, close, k))
  {
    hide Act, Scale, Equity;
    if k == 0 {
      ScaleZero(0.0);
    } else {
      RunIsSound(req, rsi, close, k - 1);
      ActIsSound(req, rsi, close, k - 1, After(req, rsi, close, k - 1));
    }
  }

  /** Trade profits, the final mark-to-market included, add up to final equity less capital. */
  lemma ProfitsTelescope(req: Request, rsi: Indicator, close: seq<real>)
    requires req.Valid() && |close| > 0
    ensures var report := ReportOf(req, rsi, close);
      && |report.curve| == |close|
      && Total(report.trades, (t: Trade) => t.pnl) == report.curve[|close| - 1] - req.capital
  {
    hide Act, Scale;
    var n := |close|;
    var s := After(req, rsi, close, n);
    var last := close[n - 1];
    RunIsSound(req, rsi, close, n);
    CurveGrows(req, rsi, close, n, n);
    assert s.curve[n - 1] == Equity(s, last);
    if s.shares > 0.0 {
      MarkedAt(s.shares, s.entry, last);
      var t := CloseTrade(s.entry, last, s.shares, n - 1);
      TotalOne(t, (t: Trade) => t.pnl);
      TotalConcat(s.trades, [t], (t: Trade) => t.pnl);
    } else {
      ScaleZero(s.entry);
      ScaleZero(last);
    }
  }

  lemma MarkedAt(shares: real, entry: real, price: real)
    ensures Scale(shares, price) - Scale(shares, entry) == Scale(shares, price - entry)
  {
  }

  // ---- Entries and exits alternate ------------------------------------------------------

  ghost predicate Alternates(req: Request, s: Sim, bars: nat) {
    && |s.entries| == |s.trades| + (if s.shares == 0.0 then 0 else 1)
    && (forall j :: 0 <= j < |s.entries| ==> req.FirstBar() <= s.entries[j] < bars)
    && (forall j :: 0 <= j < |s.trades| ==> s.entries[j] < s.trades[j].exitIndex < bars)
    && (forall j :: 0 <= j < |s.trades| && j + 1 < |s.entries| ==> s.trades[j].exitIndex < s.entries[j + 1])
  }

  lemma ActAlternates(req: Request, rsi: Indicator, close: seq<real>, i: nat, s: Sim)
    requires i < |close| && Sound(req, s) && Alternates(req, s, i)
    ensures Alternates(req, Act(req, rsi, close, i, s), i + 1)
  {
    hide Scale, RuleSignal, Sound;
    if close[i] > 0.0 && s.shares == 0.0 {
      CashIsPositive(req, s);
      Bought(s.cash, close[i]);
    }
  }

  lemma CashIsPositive(req: Request, s: Sim)
    requires Sound(req, s) && s.shares == 0.0
    ensures s.cash > 0.0
  {
  }

  /** Buys and sells strictly alternate, and none happens before the warm-up ends. */
  lemma {:induction false} TradesAlternate(req: Request, rsi: Indicator, close: seq<real>, k: nat)
    requires req.Valid() && k <= |close|
    ensures Alternates(req, After(req, rsi, close, k), k)
  {
    hide Act, Scale, Sound;
    if k == 0 {
    } else {
      TradesAlternate(req, rsi, close, k - 1);
      RunIsSound(req, rsi, close, k - 1);
      ActAlternates(req, rsi, close, k - 1, After(req, rsi, close, k - 1));
    }
  }

  // ---- The rule the trades follow --------------------------------------------------------

  /** Bar i may be acted on. */
  predicate Live(req: Request, close: seq<real>, i: nat) {
    i < |close| && i >= req.warmup && i >= 15 && close[i] > 0.0
  }

  predicate Low(req: Request, rsi: Indicator, close: seq<real>, i: nat)
    requires i < |close|
  {
    var v := rsi(close[..i + 1]);
    v.Some? && v.value <= req.buyAt
  }

  predicate High(req: Request, rsi: Indicator, close: seq<real>, i: nat)
    requires i < |close|
  {
    var v := rsi(close[..i + 1]);
    v.Some? && v.value >= req.sellAt
  }

  /** A position is open at the end of bar i. */
  ghost predicate HeldAt(entries: seq<nat>, trades: seq<Trade>, i: nat) {
    exists j :: 0 <= j < |entries| && entries[j] <= i && (j < |trades| ==> i < trades[j].exitIndex)
  }

  /** Every entry is a live bar with a low indicator and every exit one with a high one, at their closes. */
  ghost predicate TradesAreCalled(req: Request, rsi: Indicator, close: seq<real>, s: Sim, bars: nat)
    requires bars <= |close| && Alternates(req, s, bars)
  {
    && (forall j :: 0 <= j < |s.entries| ==>
          Live(req, close, s.entries[j]) && Low(req, rsi, close, s.entries[j]))
    && (forall j :: 0 <= j < |s.trades| ==>
          var t := s.trades[j];
          && Live(req, close, t.exitIndex) && High(req, rsi, close, t.exitIndex)
          && t.entry == close[s.entries[j]] && t.exit == close[t.exitIndex]
          && t.pnl == Scale(t.quantity, t.exit - t.entry))
    && (s.shares != 0.0 ==> s.entry == close[s.entries[|s.trades|]])
  }

  /** Every live bar with a low indicator ends with a position, every one with a high indicator without. */
  ghost predicate CallsAreHeeded(req: Request, rsi: Indicator, close: seq<real>, s: Sim, bars: nat)
    requires bars <= |close|
  {
    && (forall i: nat :: i < bars && Live(req, close, i) && Low(req, rsi, close, i) ==> HeldAt(s.entries, s.trades, i))
    && (forall i: nat :: i < bars && Live(req, close, i) && High(req, rsi, close, i) ==>
          !HeldAt(s.entries, s.trades, i))
  }

  lemma SignalsAreCalls(req: Request, rsi: Indicator, close: seq<real>, i: nat)
    requires i < |close| && i >= req.FirstBar() && close[i] > 0.0
    ensures Live(req, close, i)
    ensures RuleSignal(rsi(close[..i + 1]), req) == BUY ==> Low(req, rsi, close, i)
    ensures RuleSignal(rsi(close[..i + 1]), req) == SELL ==> High(req, rsi, close, i)
  {
  }

  lemma EntryIsCalled(req: Request, rsi: Indicator, close: seq<real>, i: nat, s: Sim, t: Sim)
    requires i < |close| && s.shares == 0.0 && t.shares != 0.0 && t.entry == close[i]
    requires t.entries == s.entries + [i] && t.trades == s.trades
    requires Alternates(req, s, i) && TradesAreCalled(req, rsi, close, s, i) && Alternates(req, t, i + 1)
    requires Live(req, close, i) && Low(req, rsi, close, i)
    ensures TradesAreCalled(req, rsi, close, t, i + 1)
  {
    hide Live, Low, High, Scale;
  }

  lemma ExitIsCalled(req: Request, rsi: Indicator, close: seq<real>, i: nat, s: Sim, t: Sim)
    requires i < |close| && s.shares != 0.0 && t.shares == 0.0
    requires t.entries == s.entries && t.trades == s.trades + [CloseTrade(s.entry, close[i], s.shares, i)]
    requires Alternates(req, s, i) && TradesAreCalled(req, rsi, close, s, i) && Alternates(req, t, i + 1)
    requires Live(req, close, i) && High(req, rsi, close, i)
    ensures TradesAreCalled(req, rsi, close, t, i + 1)
  {
    hide Live, Low, High, Scale;
  }

  lemma ActIsCalled(req: Request, rsi: Indicator, close: seq<real>, i: nat, s: Sim)
    requires i < |close| && Sound(req, s) && Alternates(req, s, i) && TradesAreCalled(req, rsi, close, s, i)
    ensures Alternates(req, Act(req, rsi, close, i, s), i + 1)
    ensures TradesAreCalled(req, rsi, close, Act(req, rsi, close, i, s), i + 1)
  {
    var t := Act(req, rsi, close, i, s);
    ActAlternates(req, rsi, close, i, s);
    if i >= req.FirstBar() && close[i] > 0.0 {
      SignalsAreCalls(req, rsi, close, i);
      if s.shares == 0.0 {
        CashIsPositive(req, s);
        Bought(s.cash, close[i]);
      }
    }
    hide Scale, Sound, RuleSignal, Live, Low, High, TradesAreCalled, Alternates;
    if t.entries != s.entries {
      EntryIsCalled(req, rsi, close, i, s, t);
    } else if t.trades != s.trades {
      ExitIsCalled(req, rsi, close, i, s, t);
    } else {
      QuietBarIsCalled(req, rsi, close, i, s);
    }
  }

  lemma QuietBarIsCalled(req: Request, rsi: Indicator, close: seq<real>, i: nat, s: Sim)
    requires i < |close| && Alternates(req, s, i) && TradesAreCalled(req, rsi, close, s, i)
    ensures Alternates(req, s, i + 1) && TradesAreCalled(req, rsi, close, s, i + 1)
  {
    hide Live, Low, High, Scale;
  }

  /** Later bars do not change where a position was open; on the last bar it is open if shares are held. */
  lemma HeldOrNot(req: Request, rsi: Indicator, close: seq<real>, k: nat, s: Sim, i: nat)
    requires k < |close| && Sound(req, s) && Alternates(req, s, k) && i <= k
    ensures var t := Act(req, rsi, close, k, s);
      && (i < k ==> (HeldAt(t.entries, t.trades, i) <==> HeldAt(s.entries, s.trades, i)))
      && (i == k ==> (HeldAt(t.entries, t.trades, i) <==> t.shares != 0.0))
  {
    ActAlternates(req, rsi, close, k, s);
    hide Scale, Sound, RuleSignal;
    var t := Act(req, rsi, close, k, s);
    if HeldAt(s.entries, s.trades, i) {
      var j :| 0 <= j < |s.entries| && s.entries[j] <= i && (j < |s.trades| ==> i < s.trades[j].exitIndex);
      assert t.entries[j] == s.entries[j];
    }
    if t.shares != 0.0 {
      assert t.entries[|t.trades|] <= k;
    }
  }

  lemma ActIsHeeded(req: Request, rsi: Indicator, close: seq<real>, k: nat, s: Sim)
    requires req.Valid() && k < |close| && Sound(req, s) && Alternates(req, s, k)
    requires CallsAreHeeded(req, rsi, close, s, k)
    ensures CallsAreHeeded(req, rsi, close, Act(req, rsi, close, k, s), k + 1)
  {
    var t := Act(req, rsi, close, k, s);
    LastCallIsHeeded(req, rsi, close, k, s);
    forall i: nat | i <= k
      ensures i < k ==> (HeldAt(t.entries, t.trades, i) <==> HeldAt(s.entries, s.trades, i))
      ensures i == k ==> (HeldAt(t.entries, t.trades, i) <==> t.shares != 0.0)
    {
      HeldOrNot(req, rsi, close, k, s, i);
    }
    hide Act, Sound, Alternates, HeldAt;
  }

  lemma LastCallIsHeeded(req: Request, rsi: Indicator, close: seq<real>, k: nat, s: Sim)
    requires req.Valid() && k < |close| && Sound(req, s)
    ensures var t := Act(req, rsi, close, k, s);
      && (Live(req, close, k) && Low(req, rsi, close, k) ==> t.shares != 0.0)
      && (Live(req, close, k) && High(req, rsi, close, k) ==> t.shares == 0.0)
  {
    hide Scale;
    if s.shares == 0.0 && close[k] > 0.0 {
      Bought(s.cash, close[k]);
    }
  }

  /** The thresholds decide, over every series and at every bar. */
  lemma {:induction false} TradesFollowTheRule(req: Request, rsi: Indicator, close: seq<real>, k: nat)
    requires req.Valid() && k <= |close|
    ensures Alternates(req, After(req, rsi, close, k), k)
    ensures TradesAreCalled(req, rsi, close, After(req, rsi, close, k), k)
    ensures CallsAreHeeded(req, rsi, close, After(req, rsi, close, k), k)
  {
    hide Scale, Sound, Act, Mark, Alternates, TradesAreCalled, CallsAreHeeded, Start;
    if k == 0 {
      NoTradesYet(req, rsi, close);
    } else {
      TradesFollowTheRule(req, rsi, close, k - 1);
      RunIsSound(req, rsi, close, k - 1);
      var s := After(req, rsi, close, k - 1);
      ActIsCalled(req, rsi, close, k - 1, s);
      ActIsHeeded(req, rsi, close, k - 1, s);
      MarkingChangesNothing(req, rsi, close, Act(req, rsi, close, k - 1, s), close[k - 1], k);
    }
  }

  lemma NoTradesYet(req: Request, rsi: Indicator, close: seq<real>)
    ensures Alternates(req, Start(req), 0)
    ensures TradesAreCalled(req, rsi, close, Start(req), 0) && CallsAreHeeded(req, rsi, close, Start(req), 0)
  {
  }

  lemma MarkingChangesNothing(req: Request, rsi: Indicator, close: seq<real>, s: Sim, price: real, k: nat)
    requires k <= |close| && Alternates(req, s, k)
    requires TradesAreCalled(req, rsi, close, s, k) && CallsAreHeeded(req, rsi, close, s, k)
    ensures Alternates(req, Mark(s, price), k)
    ensures TradesAreCalled(req, rsi, close, Mark(s, price), k)
    ensures CallsAreHeeded(req, rsi, close, Mark(s, price), k)
  {
    hide Equity, Live, Low, High, Scale, HeldAt;
  }

  // ---- Walk-forward ------------------------------------------------------------------------

  /** One fold: trained on [0, trainEnd), tested on [trainEnd, testEnd) from a slice that
      starts at testStart. */
  datatype Fold = Fold(trainEnd: nat, testStart: nat, testEnd: nat, train: Report, test: Report)

  datatype Refusal = NotEnoughData

  function InitialTrain(bars: nat, folds: nat, testBars: nat): int {
    bars - folds * testBars
  }

  /** Where the k-th test window starts; the edge after the last one is the end of the data. */
  function Edge(first: int, testBars: nat, k: nat): int {
    first + k * testBars
  }

  ghost predicate IsFold(f: Fold, req: Request, rsi: Indicator, close: seq<real>, trainEnd: int, testBars: nat) {
    && f.trainEnd == trainEnd
    && f.testEnd == trainEnd + testBars <= |close|
    && f.testStart == f.trainEnd - req.warmup
    && f.train == ReportOf(req, rsi, close[..f.trainEnd])
    && f.test == ReportOf(req, rsi, close[f.testStart..f.testEnd])
  }

  method WalkForward(req: Request, rsi: Indicator, close: seq<real>, folds: nat, testBars: nat)
    returns (r: Result<seq<Fold>, Refusal>)
    requires req.Valid() && 1 <= folds <= 12 && 10 <= testBars <= 1000
    ensures var first := InitialTrain(|close|, folds, testBars);
      && (r.Err? <==> first < 20 || first < req.warmup + 10)
      && (r.Ok? ==> |r.value| == folds)
      && (r.Ok? ==>
            forall k :: 0 <= k < folds ==> IsFold(r.value[k], req, rsi, close, Edge(first, testBars, k), testBars))
  {
    var initialTrain := |close| - folds * testBars;
    if initialTrain < (if req.warmup + 10 >= 20 then req.warmup + 10 else 20) {
      return Err(NotEnoughData);
    }
    var out: seq<Fold> := [];
    for index := 0 to folds
      invariant |out| == index
      invariant forall k :: 0 <= k < index ==>
        IsFold(out[k], req, rsi, close, Edge(initialTrain, testBars, k), testBars)
    {
      FoldFits(initialTrain, index, folds, testBars, |close|);
      var trainEnd := Edge(initialTrain, testBars, index);
      var testEnd := trainEnd + testBars;
      var train := Simulate(req, rsi, close[..trainEnd]);
      var testStart := if trainEnd - req.warmup >= 0 then trainEnd - req.warmup else 0;
      var test := Simulate(req, rsi, close[testStart..testEnd]);
      out := out + [Fold(trainEnd, testStart, testEnd, train, test)];
    }
    r := Ok(out);
  }

  lemma FoldFits(first: int, index: nat, folds: nat, testBars: nat, bars: nat)
    requires index < folds && first == InitialTrain(bars, folds, testBars)
    ensures first <= Edge(first, testBars, index)
    ensures Edge(first, testBars, index + 1) == Edge(first, testBars, index) + testBars <= bars
    ensures Edge(first, testBars, 0) == first && Edge(first, testBars, folds) == bars
  {
    Multiples(index + 1, folds, testBars);
  }

  lemma Multiples(a: nat, b: nat, size: nat)
    requires a <= b
    ensures a * size <= b * size
  {
  }

  lemma EdgesAscend(first: int, testBars: nat, j: nat, k: nat)
    requires j <= k
    ensures Edge(first, testBars, j) <= Edge(first, testBars, k)
  {
    Multiples(j, k, testBars);
  }

  /** Which window a bar falls into. */
  lemma {:induction false} WindowOf(first: int, testBars: nat, folds: nat, bar: int) returns (k: nat)
    requires folds > 0 && first <= bar < Edge(first, testBars, folds)
    ensures k < folds && Edge(first, testBars, k) <= bar < Edge(first, testBars, k + 1)
  {
    if bar < Edge(first, testBars, folds - 1) {
      k := WindowOf(first, testBars, folds - 1, bar);
    } else {
      k := folds - 1;
    }
  }

  /** Every bar of the last folds * testBars lies in a test window, windows do not overlap and
      leave no gap, they end at the last bar, and each begins where its training slice ends. */
  lemma WindowsTile(req: Request, rsi: Indicator, close: seq<real>, folds: nat, testBars: nat, out: seq<Fold>, bar: nat)
    requires req.Valid() && folds >= 1 && testBars >= 10
    requires |out| == folds
    requires forall k :: 0 <= k < folds ==>
               IsFold(out[k], req, rsi, close, Edge(InitialTrain(|close|, folds, testBars), testBars, k), testBars)
    requires InitialTrain(|close|, folds, testBars) <= bar < |close|
    ensures out[0].trainEnd == InitialTrain(|close|, folds, testBars) && out[folds - 1].testEnd == |close|
    ensures forall k :: 0 <= k < folds - 1 ==> out[k].testEnd == out[k + 1].trainEnd
    ensures exists k :: 0 <= k < folds && out[k].trainEnd <= bar < out[k].testEnd
    ensures forall j, k :: 0 <= j < k < folds ==> out[j].testEnd <= out[k].trainEnd
  {
    hide Edge, InitialTrain;
    var first := InitialTrain(|close|, folds, testBars);
    forall k | 0 <= k < folds
      ensures out[k].trainEnd == Edge(first, testBars, k) && out[k].testEnd == Edge(first, testBars, k + 1)
    {
      assert IsFold(out[k], req, rsi, close, Edge(first, testBars, k), testBars);
      FoldFits(first, k, folds, testBars, |close|);
    }
    FoldFits(first, 0, folds, testBars, |close|);
    forall j, k | 0 <= j < k < folds ensures out[j].testEnd <= out[k].trainEnd {
      EdgesAscend(first, testBars, j + 1, k);
    }
    var k := WindowOf(first, testBars, folds, bar);
    assert out[k].trainEnd <= bar < out[k].testEnd;
  }

  /** No trade of a test simulation enters before its window, warm-up bars or not. */
  lemma TestEntersInsideItsWindow(req: Request, rsi: Indicator, close: seq<real>, f: Fold, trainEnd: int, testBars: nat)
    requires req.Valid() && IsFold(f, req, rsi, close, trainEnd, testBars)
    ensures var s := After(req, rsi, close[f.testStart..f.testEnd], f.testEnd - f.testStart);
      forall j :: 0 <= j < |s.entries| ==> f.trainEnd <= f.testStart + s.entries[j] < f.testEnd
  {
    TradesAlternate(req, rsi, close[f.testStart..f.testEnd], f.testEnd - f.testStart);
  }

  /** A slice no longer than the simulator's own minimum warm-up cannot trade. */
  lemma {:induction false} ShortSliceIsIdle(req: Request, rsi: Indicator, close: seq<real>, k: nat)
    requires k <= |close| && k <= req.FirstBar()
    ensures After(req, rsi, close, k).trades == [] && After(req, rsi, close, k).shares == 0.0
  {
    hide RuleSignal, Equity;
    if k == 0 {
    } else {
      ShortSliceIsIdle(req, rsi, close, k - 1);
    }
  }

  /** A longer slice of positive prices does trade under an indicator that always says buy. */
  lemma {:induction false} LongSliceCanTrade(req: Request, close: seq<real>, k: nat)
    requires req.Valid() && req.FirstBar() < k <= |close|
    requires forall i :: 0 <= i < |close| ==> close[i] > 0.0
    ensures After(req, _ => Some(0.0), close, k).shares > 0.0
  {
    hide Scale, Equity;
    var rsi: Indicator := _ => Some(0.0);
    RunIsSound(req, rsi, close, k - 1);
    if k - 1 == req.FirstBar() {
      ShortSliceIsIdle(req, rsi, close, k - 1);
    } else {
      LongSliceCanTrade(req, close, k - 1);
    }
    AlwaysBuys(req, close, k - 1);
  }

  lemma AlwaysBuys(req: Request, close: seq<real>, i: nat)
    requires req.Valid() && req.FirstBar() <= i < |close| && close[i] > 0.0
    requires Sound(req, After(req, _ => Some(0.0), close, i))
    ensures After(req, _ => Some(0.0), close, i + 1).shares > 0.0
  {
    hide Scale, Equity;
    var s := After(req, _ => Some(0.0), close, i);
    if s.shares == 0.0 {
      Bought(s.cash, close[i]);
    }
  }

  /** The test report of a fold ending its training at trainEnd shows a trade. */
  ghost predicate FoldTrades(req: Request, rsi: Indicator, close: seq<real>, trainEnd: nat, testBars: nat)
    requires req.warmup <= trainEnd && trainEnd + testBars <= |close|
  {
    ReportOf(req, rsi, close[trainEnd - req.warmup..trainEnd + testBars]).trades != []
  }

  lemma RoomyFoldTrades(req: Request, close: seq<real>, trainEnd: nat, testBars: nat)
    requires req.Valid() && testBars >= 10 && req.warmup <= trainEnd && trainEnd + testBars <= |close|
    requires forall i :: 0 <= i < |close| ==> close[i] > 0.0
    requires req.warmup + testBars > 15
    ensures FoldTrades(req, _ => Some(0.0), close, trainEnd, testBars)
  {
    hide After;
    var slice := close[trainEnd - req.warmup..trainEnd + testBars];
    LongSliceCanTrade(req, slice, |slice|);
  }

  lemma CrampedFoldIsIdle(req: Request, rsi: Indicator, close: seq<real>, trainEnd: nat, testBars: nat)
    requires req.warmup <= trainEnd && trainEnd + testBars <= |close|
    requires req.warmup + testBars <= 15
    ensures !FoldTrades(req, rsi, close, trainEnd, testBars)
  {
    hide After;
    var slice := close[trainEnd - req.warmup..trainEnd + testBars];
    ShortSliceIsIdle(req, rsi, slice, |slice|);
  }

  /** A test fold is able to trade exactly when its warm-up and test bars together exceed 15:
      the simulator's own minimum eats the window of short-warm-up folds. */
  lemma FoldCanTradeExactlyWhen(req: Request, close: seq<real>, trainEnd: nat, testBars: nat)
    requires req.Valid() && testBars >= 10 && req.warmup <= trainEnd && trainEnd + testBars <= |close|
    requires forall i :: 0 <= i < |close| ==> close[i] > 0.0
    ensures req.warmup + testBars > 15 <==>
            exists rsi: Indicator :: FoldTrades(req, rsi, close, trainEnd, testBars)
  {
    hide FoldTrades;
    if req.warmup + testBars > 15 {
      RoomyFoldTrades(req, close, trainEnd, testBars);
    } else {
      forall rsi: Indicator ensures !FoldTrades(req, rsi, close, trainEnd, testBars) {
        CrampedFoldIsIdle(req, rsi, close, trainEnd, testBars);
      }
    }
  }
}
