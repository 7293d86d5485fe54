/**
 * The threshold-alert engine of `check_thresholds` (app.py:166-213): per
 * item three one-shot latches, evaluated in a fixed order, and one pass over
 * the portfolio list in list order.
 */
module Alerts {
  import opened Wrappers
  import opened Positions

  /** `fetch_recent_close`: the latest close of a ticker, `None` when the quote is unavailable. */
  type PriceFeed = string -> Option<real>

  /** The quote of one ticker; methods and functions both look prices up through it. */
  function Quote(prices: PriceFeed, ticker: string): Option<real> {
    prices(ticker)
  }

  /** One notification of a threshold alert: which item (its list index) and which kind. */
  datatype Alert = Alert(index: nat, kind: Flag)

  /** An item after its checks, with the kinds that fired, in the order they were sent. */
  datatype Evaluation = Evaluation(pos: Position, fired: seq<Flag>)

  /** One check: when `hit` holds and the flag is still down, send the alert and latch the flag. */
  function Latch(e: Evaluation, k: Flag, hit: bool): Evaluation {
    if hit && !Flagged(e.pos, k) then Evaluation(e.pos.(flags := e.pos.flags[k := true]), e.fired + [k])
    else e
  }

  /** The checks of app.py:177-208 on one item whose current price is known. */
  function Evaluate(p: Position, current: real): Evaluation {
    var l := LevelsOf(p.buyPrice);
    var afterAvgDown := Latch(Evaluation(p, []), AvgDown, current <= l.avgDown);
    var afterTarget := Latch(afterAvgDown, Target, current >= l.target);
    Latch(afterTarget, TakeProfit, current >= l.takeProfit && !Flagged(afterTarget.pos, Target))
  }

  /** Position of each kind in the order the checks run. */
  function Rank(k: Flag): nat {
    match k
    case AvgDown => 0
    case Target => 1
    case TakeProfit => 2
  }

  predicate InRankOrder(ks: seq<Flag>) {
    forall i, j :: 0 <= i < j < |ks| ==> Rank(ks[i]) < Rank(ks[j])
  }

  /** The item keeps its name, ticker and price, and no flag key disappears. */
  predicate SameItem(p: Position, q: Position) {
    && q.name == p.name && q.ticker == p.ticker && q.buyPrice == p.buyPrice
    && (forall k :: k in p.flags ==> k in q.flags)
  }

  /** The alert fires iff its condition holds and its flag is down; nothing else changes. */
  lemma LatchRules(e: Evaluation, k: Flag, hit: bool)
    ensures var e' := Latch(e, k, hit);
      && e'.fired == e.fired + (if hit && !Flagged(e.pos, k) then [k] else [])
      && (forall k' :: Flagged(e'.pos, k') <==> Flagged(e.pos, k') || (k' == k && hit))
      && SameItem(e.pos, e'.pos)
  {
  }

  /** The kinds one evaluation fires, written out condition by condition. */
  lemma EvaluateFired(p: Position, c: real)
    ensures var e := Evaluate(p, c); var l := LevelsOf(p.buyPrice);
      var fireAvgDown := c <= l.avgDown && !Flagged(p, AvgDown);
      var fireTarget := c >= l.target && !Flagged(p, Target);
      var fireTakeProfit := c >= l.takeProfit && !Flagged(p, TakeProfit) && !Flagged(p, Target) && !fireTarget;
      && e.fired == (if fireAvgDown then [AvgDown] else []) + (if fireTarget then [Target] else [])
                    + (if fireTakeProfit then [TakeProfit] else [])
      && (forall k :: Flagged(e.pos, k) <==>
            (Flagged(p, k) || (k == AvgDown && fireAvgDown) || (k == Target && fireTarget)
             || (k == TakeProfit && fireTakeProfit)))
      && SameItem(p, e.pos)
  {
    var l := LevelsOf(p.buyPrice);
    var e0 := Evaluation(p, []);
    var e1 := Latch(e0, AvgDown, c <= l.avgDown);
    var e2 := Latch(e1, Target, c >= l.target);
    LatchRules(e0, AvgDown, c <= l.avgDown);
    LatchRules(e1, Target, c >= l.target);
    LatchRules(e2, TakeProfit, c >= l.takeProfit && !Flagged(e2.pos, Target));
  }

  /**
   * The rules of one evaluation, each kind by itself: average-down fires iff
   * the price is at or below -12 % and its flag is down; target iff at or
   * above +25 % and its flag is down; take-profit iff at or above +10 % but
   * below +25 % and neither its own flag nor the target flag is up. Alerts
   * come out in check order, and afterwards a flag is up iff it was up before
   * or its alert fired.
   */
  lemma EvaluateRules(p: Position, c: real)
    ensures var e := Evaluate(p, c); var l := LevelsOf(p.buyPrice);
      && (AvgDown in e.fired <==> c <= l.avgDown && !Flagged(p, AvgDown))
      && (Target in e.fired <==> c >= l.target && !Flagged(p, Target))
      && (TakeProfit in e.fired <==>
            c >= l.takeProfit && c < l.target && !Flagged(p, TakeProfit) && !Flagged(p, Target))
      && InRankOrder(e.fired)
      && (forall k :: Flagged(e.pos, k) <==> Flagged(p, k) || k in e.fired)
      && SameItem(p, e.pos)
  {
    EvaluateFired(p, c);
  }

  /** Target takes priority: it never fires together with take-profit, and once latched it blocks take-profit for good. */
  lemma TargetPreemptsTakeProfit(p: Position, c: real)
    ensures Target in Evaluate(p, c).fired ==> TakeProfit !in Evaluate(p, c).fired
    ensures Flagged(p, Target) ==> TakeProfit !in Evaluate(p, c).fired
  {
    EvaluateRules(p, c);
  }

  /** With a positive purchase price the average-down alert never fires together with a selling alert. */
  lemma BuyAndSellExclusive(p: Position, c: real)
    requires p.buyPrice > 0.0
    ensures AvgDown in Evaluate(p, c).fired ==> Target !in Evaluate(p, c).fired && TakeProfit !in Evaluate(p, c).fired
  {
    EvaluateRules(p, c);
  }

  /** One item in the loop of app.py:170-208: migrate its flags, then check it if its price is known. */
  function EvaluateItem(p: Position, price: Option<real>): Evaluation {
    var q := Migrated(p);
    match price
    case None => Evaluation(q, [])
    case Some(c) => Evaluate(q, c)
  }

  /**
   * EvaluateRules for an item as the loop sees it: the item is migrated
   * first, so it comes out with all three flags; an item without a price is
   * left as it reads.
   */
  lemma EvaluateItemRules(p: Position, price: Option<real>)
    ensures var e := EvaluateItem(p, price);
      && InRankOrder(e.fired)
      && (forall k :: Flagged(e.pos, k) <==> Flagged(p, k) || k in e.fired)
      && (forall k :: k in e.fired ==> !Flagged(p, k))
      && SameItem(p, e.pos)
      && HasAllFlags(e.pos)
      && (price.None? ==> e.fired == [])
  {
    MigratedIdempotent(p);
    if price.Some? {
      EvaluateRules(Migrated(p), price.value);
    }
  }

  function Tag(index: nat, kinds: seq<Flag>): seq<Alert>
  {
    seq(|kinds|, j requires 0 <= j < |kinds| => Alert(index, kinds[j]))
  }

  datatype PassResult = PassResult(items: seq<Position>, alerts: seq<Alert>)

  /** The loop of `check_thresholds` over the portfolio, in list order (app.py:170-208). */
  function Pass(s: seq<Position>, prices: PriceFeed): (r: PassResult)
    ensures |r.items| == |s|
    ensures forall a :: a in r.alerts ==> a.index < |s|
  {
    if s == [] then PassResult([], [])
    else
      var n := |s| - 1;
      var r := Pass(s[..n], prices);
      var e := EvaluateItem(s[n], Quote(prices, s[n].ticker));
      PassResult(r.items + [e.pos], r.alerts + Tag(n, e.fired))
  }

  /** Item `i` after a pass is item `i` after its own evaluation. */
  lemma {:induction false} PassItems(s: seq<Position>, prices: PriceFeed)
    ensures forall i :: 0 <= i < |s| ==> Pass(s, prices).items[i] == EvaluateItem(s[i], Quote(prices, s[i].ticker)).pos
  {
    if s != [] {
      var n := |s| - 1;
      PassItems(s[..n], prices);
      assert forall i :: 0 <= i < n ==> s[..n][i] == s[i];
    }
  }

  /** The position of an alert in sending order: its item's block of three, then its check. */
  function AlertKey(a: Alert): nat {
    3 * a.index + Rank(a.kind)
  }

  /** Alerts sent item by item in list order, and within an item in check order. */
  predicate StrictlyOrdered(alerts: seq<Alert>) {
    forall i, j :: 0 <= i < j < |alerts| ==> AlertKey(alerts[i]) < AlertKey(alerts[j])
  }

  lemma TagMembers(index: nat, kinds: seq<Flag>)
    ensures forall i: nat, k :: Alert(i, k) in Tag(index, kinds) <==> i == index && k in kinds
  {
    var t := Tag(index, kinds);
    forall i: nat, k | Alert(i, k) in t ensures i == index && k in kinds {
      var j :| 0 <= j < |t| && t[j] == Alert(i, k);
      assert kinds[j] == k;
    }
    forall k | k in kinds ensures Alert(index, k) in t {
      var j :| 0 <= j < |kinds| && kinds[j] == k;
      assert t[j] == Alert(index, k);
    }
  }

  /** The alerts of one item come out in check order, all keyed within that item's block of three. */
  lemma TagOrdered(index: nat, kinds: seq<Flag>)
    requires InRankOrder(kinds)
    ensures StrictlyOrdered(Tag(index, kinds))
    ensures forall a :: a in Tag(index, kinds) ==> 3 * index <= AlertKey(a) < 3 * index + 3
  {
  }

  /** Two ordered runs, the first wholly below the second, make one ordered run. */
  lemma ConcatOrdered(a: seq<Alert>, b: seq<Alert>, bound: nat)
    requires StrictlyOrdered(a) && StrictlyOrdered(b)
    requires forall x :: x in a ==> AlertKey(x) < bound
    requires forall y :: y in b ==> bound <= AlertKey(y)
    ensures StrictlyOrdered(a + b)
  {
    var all := a + b;
    forall i, j | 0 <= i < j < |all| ensures AlertKey(all[i]) < AlertKey(all[j]) {
      if j < |a| {
        assert all[i] == a[i] && all[j] == a[j];
      } else if i < |a| {
        assert all[i] in a && all[j] in b;
      } else {
        assert all[i] == b[i - |a|] && all[j] == b[j - |a|];
      }
    }
  }

  /** Alerts of a pass come out item by item in list order, and within an item in check order. */
  lemma {:induction false} PassOrdered(s: seq<Position>, prices: PriceFeed)
    ensures StrictlyOrdered(Pass(s, prices).alerts)
  {
    if s != [] {
      var n := |s| - 1;
      PassOrdered(s[..n], prices);
      var r0 := Pass(s[..n], prices);
      var e := EvaluateItem(s[n], Quote(prices, s[n].ticker));
      EvaluateItemRules(s[n], Quote(prices, s[n].ticker));
      TagOrdered(n, e.fired);
      ConcatOrdered(r0.alerts, Tag(n, e.fired), 3 * n);
    }
  }

  /** Which alerts a pass sends: exactly those its items' evaluations fire. */
  lemma {:induction false} PassAlerts(s: seq<Position>, prices: PriceFeed)
    ensures forall i: nat, k :: Alert(i, k) in Pass(s, prices).alerts <==>
      i < |s| && k in EvaluateItem(s[i], Quote(prices, s[i].ticker)).fired
  {
    if s != [] {
      var n := |s| - 1;
      var prefix := s[..n];
      PassAlerts(prefix, prices);
      var e := EvaluateItem(s[n], Quote(prices, s[n].ticker));
      TagMembers(n, e.fired);
      assert forall i :: 0 <= i < n ==> prefix[i] == s[i];
    }
  }

  /** A strictly ordered sequence of alerts holds each alert at most once. */
  lemma {:induction false} OrderedNoRepeats(alerts: seq<Alert>, a: Alert)
    requires StrictlyOrdered(alerts)
    ensures multiset(alerts)[a] <= 1
  {
    if alerts != [] {
      var n := |alerts| - 1;
      OrderedNoRepeats(alerts[..n], a);
      assert alerts == alerts[..n] + [alerts[n]];
      forall j | 0 <= j < n ensures alerts[..n][j] != alerts[n] {
        assert AlertKey(alerts[j]) < AlertKey(alerts[n]);
      }
      assert alerts[n] !in alerts[..n];
    }
  }

  /**
   * What a pass does to item `i`: a flag never goes down; the kind-`k` alert
   * is sent at most once, and exactly when flag `k` goes from down to up;
   * an item without a price keeps every flag reading and sends nothing.
   */
  lemma PassLatches(s: seq<Position>, prices: PriceFeed, i: nat, k: Flag)
    requires i < |s|
    ensures var r := Pass(s, prices);
      && SameItem(s[i], r.items[i])
      && HasAllFlags(r.items[i])
      && (Flagged(s[i], k) ==> Flagged(r.items[i], k))
      && (Alert(i, k) in r.alerts <==> !Flagged(s[i], k) && Flagged(r.items[i], k))
      && multiset(r.alerts)[Alert(i, k)] <= 1
      && (Quote(prices, s[i].ticker).None? ==> Flagged(r.items[i], k) == Flagged(s[i], k) && Alert(i, k) !in r.alerts)
  {
    PassItems(s, prices);
    PassAlerts(s, prices);
    PassOrdered(s, prices);
    EvaluateItemRules(s[i], Quote(prices, s[i].ticker));
    OrderedNoRepeats(Pass(s, prices).alerts, Alert(i, k));
  }

  /** After a pass every item carries all three flags, as the call at app.py:172 leaves the list that is saved. */
  lemma PassMigrates(s: seq<Position>, prices: PriceFeed)
    ensures forall i :: 0 <= i < |s| ==> HasAllFlags(Pass(s, prices).items[i])
  {
    PassItems(s, prices);
    forall i | 0 <= i < |s| ensures HasAllFlags(Pass(s, prices).items[i]) {
      EvaluateItemRules(s[i], Quote(prices, s[i].ticker));
    }
  }

  /** `changed` in `check_thresholds`: the list is saved iff some flag went up, iff some alert was sent. */
  lemma PassChanged(s: seq<Position>, prices: PriceFeed)
    ensures var r := Pass(s, prices);
      r.alerts != [] <==> exists i, k :: 0 <= i < |s| && !Flagged(s[i], k) && Flagged(r.items[i], k)
  {
    var r := Pass(s, prices);
    if r.alerts != [] {
      var a := r.alerts[0];
      PassLatches(s, prices, a.index, a.kind);
      assert a in r.alerts;
    }
    forall i, k | 0 <= i < |s| && !Flagged(s[i], k) && Flagged(r.items[i], k) ensures r.alerts != [] {
      PassLatches(s, prices, i, k);
    }
  }

  /** A pass keeps the tickers, so it keeps them unique. */
  lemma PassKeepsTickers(s: seq<Position>, prices: PriceFeed)
    ensures UniqueTickers(s) ==> UniqueTickers(Pass(s, prices).items)
    ensures forall i :: 0 <= i < |s| ==> Pass(s, prices).items[i].ticker == s[i].ticker
  {
    PassItems(s, prices);
    forall i | 0 <= i < |s| ensures Pass(s, prices).items[i].ticker == s[i].ticker {
      EvaluateItemRules(s[i], Quote(prices, s[i].ticker));
    }
  }

  /** Several passes over an unchanged list, one per price snapshot, with all alerts in sending order. */
  function Run(s: seq<Position>, snapshots: seq<PriceFeed>): (r: PassResult)
    ensures |r.items| == |s|
    decreases |snapshots|
  {
    if snapshots == [] then PassResult(s, [])
    else
      var first := Pass(s, snapshots[0]);
      var rest := Run(first.items, snapshots[1..]);
      PassResult(rest.items, first.alerts + rest.alerts)
  }

  /**
   * Each alert is sent only once per item (app.py:282): across any number of
   * passes the kind-`k` alert of item `i` is sent at most once, and never if
   * its flag was already up.
   */
  lemma {:induction false} AlertSentOnlyOnce(s: seq<Position>, snapshots: seq<PriceFeed>, i: nat, k: Flag)
    requires i < |s|
    ensures multiset(Run(s, snapshots).alerts)[Alert(i, k)] <= if Flagged(s[i], k) then 0 else 1
    ensures Flagged(s[i], k) ==> Flagged(Run(s, snapshots).items[i], k)
    decreases |snapshots|
  {
    if snapshots != [] {
      var first := Pass(s, snapshots[0]);
      PassLatches(s, snapshots[0], i, k);
      AlertSentOnlyOnce(first.items, snapshots[1..], i, k);
      if Alert(i, k) !in first.alerts {
        assert multiset(first.alerts)[Alert(i, k)] == 0;
      }
    }
  }

  /** The worked examples for a position bought at 100 with all flags down. */
  lemma ThresholdExamples(name: string, ticker: string)
    ensures Evaluate(NewPosition(name, ticker, 100.0), 87.0).fired == [AvgDown]
    ensures Evaluate(NewPosition(name, ticker, 100.0), 126.0).fired == [Target]
    ensures var p := NewPosition(name, ticker, 100.0);
      var first := Evaluate(p, 111.0);
      && first.fired == [TakeProfit]
      && Evaluate(first.pos, 109.0).fired == []
      && Flagged(Evaluate(first.pos, 109.0).pos, TakeProfit)
  {
  }
}
