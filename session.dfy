/**
 * `st.session_state` of app.py as an object: the portfolio list, the last
 * Telegram update id, and, standing for the notifier and the JSON file,
 * the messages sent and the number of saves. Each method does what the
 * source does step by step and is proved to leave the state a function of
 * `Commands` describes: `CheckThresholds`, `Buy` and `Delete` the function
 * of the same name, `HandleOne` `HandleUpdate`, `ListenOnce` `Listen`; `Send`
 * and the constructor state their new state outright.
 */
module App {
  import opened Wrappers
  import Text
  import Numbers
  import Markdown
  import opened Positions
  import opened Alerts
  import opened Commands

  /** Every item migrated, as the loop at app.py:66-67 leaves the loaded list. */
  function MigrateAll(s: seq<Position>): seq<Position>
  {
    seq(|s|, i requires 0 <= i < |s| => Migrated(s[i]))
  }

  /**
   * After loading, every item carries all three flags with its name, ticker
   * and price kept, and migrating the loaded list again changes nothing.
   */
  lemma MigrateAllComplete(s: seq<Position>)
    ensures var m := MigrateAll(s);
      && (forall i :: 0 <= i < |s| ==> HasAllFlags(m[i]) && SameItem(s[i], m[i]))
      && MigrateAll(m) == m
  {
    var m := MigrateAll(s);
    forall i | 0 <= i < |s| ensures HasAllFlags(m[i]) && SameItem(s[i], m[i]) && Migrated(m[i]) == m[i] {
      MigratedIdempotent(s[i]);
    }
  }

  class Session {
    var portfolio: seq<Position>
    var lastUpdateId: Option<int>
    var outbox: seq<Message>
    var saves: nat

    function Snapshot(): SessionState
      reads this
    {
      SessionState(portfolio, lastUpdateId, outbox, saves)
    }

    /** app.py:51-55 and 66-67: the loaded list with its flags migrated; no update seen yet. */
    constructor (loaded: seq<Position>)
      ensures Snapshot() == SessionState(MigrateAll(loaded), None, [], 0)
    {
      var items := loaded;
      for i := 0 to |items|
        invariant |items| == |loaded|
        invariant forall j :: 0 <= j < i ==> items[j] == Migrated(loaded[j])
        invariant forall j :: i <= j < |items| ==> items[j] == loaded[j]
      {
        var migrated, _ := EnsureAlertFlags(items[i]);
        items := items[i := migrated];
      }
      portfolio := items;
      lastUpdateId := None;
      outbox := [];
      saves := 0;
    }

    /** `check_thresholds(enabled)` (app.py:166-213). */
    method CheckThresholds(enabled: bool, prices: PriceFeed)
      modifies this
      ensures Snapshot() == Commands.CheckThresholds(old(Snapshot()), enabled, prices)
    {
      if !enabled || portfolio == [] {
        return;
      }
      ghost var start := portfolio;
      ghost var sentBefore := outbox;
      ghost var done := Pass([], prices);
      var changed := false;
      for i := 0 to |portfolio|
        invariant |start| == |portfolio|
        invariant done == Pass(start[..i], prices)
        invariant portfolio == done.items + start[i..]
        invariant outbox == sentBefore + Notices(done.alerts)
        invariant changed <==> done.alerts != []
        invariant lastUpdateId == old(lastUpdateId) && saves == old(saves)
      {
        assert portfolio[i] == start[i];
        var item, sent, flipped := CheckItem(i, portfolio[i], Quote(prices, portfolio[i].ticker));
        LoopStep(start, prices, i, done, item, sent);
        AppendAssoc(sentBefore, Notices(done.alerts), sent);
        outbox := outbox + sent;
        changed := changed || flipped;
        portfolio := portfolio[i := item];
        done := Pass(start[..i + 1], prices);
      }
      assert start[..|start|] == start;
      if changed {
        saves := saves + 1;
      }
    }

    /** `listen_telegram_once` (app.py:113-163) on the updates the request returned. */
    method ListenOnce(updates: seq<Update>, prices: PriceFeed) returns (command: Command)
      modifies this
      ensures Listen(old(Snapshot()), updates, prices) == ListenResult(Snapshot(), command)
    {
      for j := 0 to |updates|
        invariant Listen(Snapshot(), updates[j..], prices) == Listen(old(Snapshot()), updates, prices)
      {
        assert updates[j..][1..] == updates[j + 1..];
        var stop := HandleOne(updates[j], prices);
        if stop.Some? {
          return stop.value;
        }
      }
      return Idle;
    }

    /**
     * The loop body of app.py:128-158 for one update: record its id, then
     * act on the request its text makes; `stop` is what the function
     * returns early, if anything.
     */
    method HandleOne(update: Update, prices: PriceFeed) returns (stop: Option<Command>)
      modifies this
      ensures StepResult(Snapshot(), stop) == HandleUpdate(old(Snapshot()), update, prices)
    {
      lastUpdateId := NextUpdateId(lastUpdateId, update.updateId);
      if update.text == [] {
        return None;
      }
      var request := ParseRequest(update.text);
      match request
      case Other =>
        stop := None;
      case FullReportRequest =>
        stop := Some(FullReport);
      case BuyUsage =>
        Send(BuyFormatHelp);
        stop := None;
      case BuyBadPrice(token) =>
        Send(PriceFormatError(Markdown.EscapeMarkdownV2(token)));
        stop := None;
      case BuyOrder(name, ticker, price) =>
        Buy(name, ticker, price, prices);
        stop := Some(Rerun);
    }

    /** `send_telegram_msg`: the message goes out; nothing else changes. */
    method Send(m: Message)
      modifies this
      ensures Snapshot() == old(Snapshot()).(outbox := old(outbox) + [m])
    {
      outbox := outbox + [m];
    }

    /** A buy order (app.py:144-153): drop the items with that ticker, append the new one, save, send the report. */
    method Buy(name: string, ticker: string, price: real, prices: PriceFeed)
      modifies this
      ensures Snapshot() == Commands.Buy(old(Snapshot()), name, ticker, price, prices)
    {
      var item := NewPosition(name, ticker, price);
      portfolio := RemoveTicker(portfolio, ticker);
      portfolio := portfolio + [item];
      saves := saves + 1;
      var report := AggressiveReport(name, ticker, price, |portfolio|, Quote(prices, ticker));
      Send(BuyReport(report));
    }

    /** The delete button of item `i` (app.py:267-272): `pop(i)`, then save. */
    method Delete(i: nat)
      requires i < |portfolio|
      modifies this
      ensures Snapshot() == Commands.Delete(old(Snapshot()), i)
    {
      portfolio := RemoveAt(portfolio, i);
      saves := saves + 1;
    }
  }

  /**
   * The checks of app.py:172-208 on item number `index`, in the order the
   * source runs them: the item with its flags latched, the alerts it sends,
   * and whether any flag went up.
   */
  method CheckItem(index: nat, p: Position, price: Option<real>) returns (item: Position, sent: seq<Message>, changed: bool)
    ensures var e := EvaluateItem(p, price);
      && item == e.pos && sent == Notices(Tag(index, e.fired))
      && (changed <==> exists k :: !Flagged(p, k) && Flagged(item, k))
      && (changed <==> sent != [])
  {
    var added: bool;
    item, added := EnsureAlertFlags(p);
    sent, changed := [], false;
    ghost var e := Evaluation(item, []);
    if price.Some? {
      var current := price.value;
      var levels := LevelsOf(item.buyPrice);
      if current <= levels.avgDown && !Flagged(item, AvgDown) {
        sent := sent + [ThresholdAlert(Alert(index, AvgDown))];
        item := item.(flags := item.flags[AvgDown := true]);
        changed := true;
      }
      e := Latch(e, AvgDown, current <= levels.avgDown);
      assert e.pos == item && sent == Notices(Tag(index, e.fired));
      if current >= levels.target && !Flagged(item, Target) {
        sent := sent + [ThresholdAlert(Alert(index, Target))];
        item := item.(flags := item.flags[Target := true]);
        changed := true;
      }
      e := Latch(e, Target, current >= levels.target);
      assert e.pos == item && sent == Notices(Tag(index, e.fired));
      if current >= levels.takeProfit && !Flagged(item, TakeProfit) && !Flagged(item, Target) {
        sent := sent + [ThresholdAlert(Alert(index, TakeProfit))];
        item := item.(flags := item.flags[TakeProfit := true]);
        changed := true;
      }
      e := Latch(e, TakeProfit, current >= levels.takeProfit && !Flagged(e.pos, Target));
      assert e.pos == item && sent == Notices(Tag(index, e.fired));
    }
    assert e == EvaluateItem(p, price);
    assert changed <==> e.fired != [];
    EvaluateItemRules(p, price);
    if e.fired != [] {
      assert e.fired[0] in e.fired;
    }
  }

  /** One more item of the pass: its evaluation is appended to the prefix's result. */
  lemma LoopStep(s: seq<Position>, prices: PriceFeed, i: nat, done: PassResult, item: Position, sent: seq<Message>)
    requires i < |s| && done == Pass(s[..i], prices) && |done.items| == i
    requires var e := EvaluateItem(s[i], Quote(prices, s[i].ticker)); item == e.pos && sent == Notices(Tag(i, e.fired))
    ensures var next := Pass(s[..i + 1], prices);
      && (done.items + s[i..])[i := item] == next.items + s[i + 1..]
      && Notices(next.alerts) == Notices(done.alerts) + sent
      && (next.alerts != [] <==> done.alerts != [] || sent != [])
  {
    var e := EvaluateItem(s[i], Quote(prices, s[i].ticker));
    PassStep(s, prices, i);
    ReplaceNext(done.items, s, i, item);
    NoticesConcat(done.alerts, Tag(i, e.fired));
  }

  lemma PassStep(s: seq<Position>, prices: PriceFeed, i: nat)
    requires i < |s|
    ensures var e := EvaluateItem(s[i], Quote(prices, s[i].ticker));
      Pass(s[..i + 1], prices) == PassResult(Pass(s[..i], prices).items + [e.pos], Pass(s[..i], prices).alerts + Tag(i, e.fired))
  {
    assert s[..i + 1][..i] == s[..i];
  }

  lemma ReplaceNext(front: seq<Position>, s: seq<Position>, i: nat, item: Position)
    requires |front| == i < |s|
    ensures (front + s[i..])[i := item] == front + [item] + s[i + 1..]
  {
    assert s[i..] == [s[i]] + s[i + 1..];
  }

  /** Proof helper: concatenation of the outbox regroups. */
  lemma AppendAssoc(a: seq<Message>, b: seq<Message>, c: seq<Message>)
    ensures (a + b) + c == a + (b + c)
  {
  }

  /** Proof helper: the notices of joined alert runs are the joined notices. */
  lemma NoticesConcat(a: seq<Alert>, b: seq<Alert>)
    ensures Notices(a + b) == Notices(a) + Notices(b)
  {
  }
}
