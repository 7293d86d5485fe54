/**
 * What `listen_telegram_once` (app.py:113-163) does with the updates it
 * fetched, what `check_thresholds` does to the session, and the delete
 * button, all as functions of the session state. The class in `App` runs
 * them step by step.
 */
module Commands {
  import opened Wrappers
  import Text
  import Numbers
  import Markdown
  import opened Positions
  import opened Alerts

  /** 매수, "buy" */
  const BuyWord: string := "\U{B9E4}\U{C218}"
  /** 보고, "report" */
  const ReportWord: string := "\U{BCF4}\U{ACE0}"

  /** What the text of one message asks for. */
  datatype Request =
    | Other
    | FullReportRequest
    | BuyUsage                   // a buy command with fewer than four words
    | BuyBadPrice(token: string) // its price word is not a number
    | BuyOrder(name: string, ticker: string, price: real)

  /**
   * app.py:133-158: the stripped text must start with 매수; its words are
   * the command word, the name, the ticker (upper-cased) and the price
   * (commas dropped); 보고 alone asks for the full report.
   */
  function ParseRequest(text: string): Request {
    var t := Text.Strip(text);
    if Text.StartsWith(t, BuyWord) then
      var parts := Text.Split(t);
      if |parts| >= 4 then
        match Numbers.ParsePrice(parts[3])
        case None => BuyBadPrice(parts[3])
        case Some(price) => BuyOrder(parts[1], Text.ToUpper(parts[2]), price)
      else BuyUsage
    else if t == ReportWord then FullReportRequest
    else Other
  }

  /**
   * A buy order is read off the words of the text: at least four of them,
   * the second is the name, the third the ticker upper-cased, the fourth a
   * number once its commas are gone. Fewer words, or a fourth word that is
   * not a number, never make a buy order.
   */
  lemma ParseRequestWords(text: string)
    ensures var r := ParseRequest(text); var parts := Text.Split(text);
      && (r.BuyOrder? ==>
            && Text.StartsWith(Text.Strip(text), BuyWord)
            && |parts| >= 4
            && r.name == parts[1] && r.ticker == Text.ToUpper(parts[2])
            && Numbers.ParsePrice(parts[3]) == Some(r.price))
      && (|parts| < 4 ==> !r.BuyOrder?)
      && (|parts| >= 4 && Numbers.ParsePrice(parts[3]).None? ==> !r.BuyOrder?)
  {
    var t := Text.Strip(text);
    var parts := Text.Split(text);
    Text.SplitStrip(text);
    assert Text.Split(t) == parts;
    if Text.StartsWith(t, BuyWord) && |parts| >= 4 {
      match Numbers.ParsePrice(parts[3])
      case None =>
        assert ParseRequest(text) == BuyBadPrice(parts[3]);
      case Some(price) =>
        assert ParseRequest(text) == BuyOrder(parts[1], Text.ToUpper(parts[2]), price);
    } else {
      assert !ParseRequest(text).BuyOrder?;
    }
  }

  /**
   * Conversely, a text whose stripped form starts with 매수 and that has at
   * least four words, the fourth a number once its commas are gone, is a
   * buy order of the second word, the upper-cased third word and that number.
   */
  lemma ParseRequestAccepts(text: string)
    requires var parts := Text.Split(text);
      && Text.StartsWith(Text.Strip(text), BuyWord)
      && |parts| >= 4 && Numbers.ParsePrice(parts[3]).Some?
    ensures var parts := Text.Split(text);
      ParseRequest(text) == BuyOrder(parts[1], Text.ToUpper(parts[2]), Numbers.ParsePrice(parts[3]).value)
  {
    Text.SplitStrip(text);
  }

  /** A well-formed buy command, written with single spaces, is read back word for word. */
  lemma BuyCommandRoundTrip(name: string, ticker: string, price: nat)
    requires name != [] && Text.NoSpace(name)
    requires ticker != [] && Text.NoSpace(ticker)
    ensures ParseRequest(Text.JoinSpaced([BuyWord, name, ticker, Numbers.NatDigits(price)]))
         == BuyOrder(name, Text.ToUpper(ticker), price as real)
  {
    var digits := Numbers.NatDigits(price);
    var words := [BuyWord, name, ticker, digits];
    assert Text.NoSpace(digits);
    assert Text.NoSpace(BuyWord);
    var text := Text.JoinSpaced(words);
    JoinFour(BuyWord, name, ticker, digits);
    Text.SplitJoinSpaced(words);
    Text.StripTrimmed(text);
    assert Text.StartsWith(text, BuyWord);
    Numbers.ParsePriceNatDigits(price);
  }

  lemma JoinFour(a: string, b: string, c: string, d: string)
    ensures Text.JoinSpaced([a, b, c, d]) == a + " " + (b + " " + (c + " " + d))
  {
    var words := [a, b, c, d];
    assert words[1..] == [b, c, d];
    assert words[1..][1..] == [c, d];
    assert words[1..][1..][1..] == [d];
    assert Text.JoinSpaced([d]) == d;
    assert Text.JoinSpaced([c, d]) == c + " " + d;
    assert Text.JoinSpaced([b, c, d]) == b + " " + (c + " " + d);
  }

  /**
   * app.py:128 as written: `max(last_update_id or -1, update_id)`, where
   * `or` also replaces a stored 0 by -1.
   */
  function NextUpdateIdAsWritten(last: Option<int>, updateId: Option<int>): Option<int> {
    var floor := if last.None? || last.value == 0 then -1 else last.value;
    var id := updateId.GetOr(-1);
    Some(if floor >= id then floor else id)
  }

  /** With 0 stored and an update without `update_id`, the high-water mark goes down to -1. */
  lemma NextUpdateIdAsWrittenDecreases()
    ensures NextUpdateIdAsWritten(Some(0), None) == Some(-1)
  {
  }

  /** The high-water mark with only a missing value read as -1: the larger of the two. */
  function NextUpdateId(last: Option<int>, updateId: Option<int>): (r: Option<int>)
    ensures r.Some? && r.value >= updateId.GetOr(-1)
    ensures r.value >= last.GetOr(-1)
    ensures r.value == updateId.GetOr(-1) || r.value == last.GetOr(-1)
  {
    var floor := last.GetOr(-1);
    var id := updateId.GetOr(-1);
    Some(if floor >= id then floor else id)
  }

  /** The two agree except when 0 is stored and the update's id is negative or missing. */
  lemma NextUpdateIdAgrees(last: Option<int>, updateId: Option<int>)
    requires last != Some(0) || updateId.GetOr(-1) >= 0
    ensures NextUpdateIdAsWritten(last, updateId) == NextUpdateId(last, updateId)
  {
  }

  /** Everything handed to `send_telegram_msg`, by kind. */
  datatype Message =
    | ThresholdAlert(alert: Alert)
    | PriceFormatError(token: string)
    | BuyFormatHelp
    | BuyReport(report: Report)

  function Notices(alerts: seq<Alert>): seq<Message>
  {
    seq(|alerts|, j requires 0 <= j < |alerts| => ThresholdAlert(alerts[j]))
  }

  /**
   * The session: the portfolio list, the last Telegram update id, the
   * messages sent so far and how many times the list was saved.
   */
  datatype SessionState = SessionState(portfolio: seq<Position>, lastUpdateId: Option<int>, outbox: seq<Message>, saves: nat)

  /** One entry of `getUpdates`: its `update_id` and the text of its message (empty when there is none). */
  datatype Update = Update(updateId: Option<int>, text: string)

  /** The value `listen_telegram_once` returns: `None`, `"RERUN"` or `"REPORT"`. */
  datatype Command = Idle | Rerun | FullReport

  datatype StepResult = StepResult(state: SessionState, stop: Option<Command>)

  /** What one request does to the session (app.py:134-158); `stop` is the value returned early, if any. */
  function Apply(s: SessionState, req: Request, prices: PriceFeed): StepResult {
    match req
    case Other => StepResult(s, None)
    case FullReportRequest => StepResult(s, Some(FullReport))
    case BuyUsage => StepResult(s.(outbox := s.outbox + [BuyFormatHelp]), None)
    case BuyBadPrice(token) =>
      StepResult(s.(outbox := s.outbox + [PriceFormatError(Markdown.EscapeMarkdownV2(token))]), None)
    case BuyOrder(name, ticker, price) => StepResult(Buy(s, name, ticker, price, prices), Some(Rerun))
  }

  /** A buy order (app.py:144-153): the item upserted, one save, the report sent. */
  function Buy(s: SessionState, name: string, ticker: string, price: real, prices: PriceFeed): SessionState {
    var items := Upsert(s.portfolio, NewPosition(name, ticker, price));
    var report := AggressiveReport(name, ticker, price, |items|, Quote(prices, ticker));
    SessionState(items, s.lastUpdateId, s.outbox + [BuyReport(report)], s.saves + 1)
  }

  /** The state an update leaves before its text is looked at. */
  function Heard(s: SessionState, u: Update): SessionState {
    s.(lastUpdateId := NextUpdateId(s.lastUpdateId, u.updateId))
  }

  /** The body of the loop of app.py:127-158 for one update. */
  function HandleUpdate(s: SessionState, u: Update, prices: PriceFeed): StepResult {
    if u.text == [] then StepResult(Heard(s, u), None) else Apply(Heard(s, u), ParseRequest(u.text), prices)
  }

  datatype ListenResult = ListenResult(state: SessionState, command: Command)

  /** The updates in order until one of them returns early. */
  function Listen(s: SessionState, updates: seq<Update>, prices: PriceFeed): ListenResult
    decreases |updates|
  {
    if updates == [] then ListenResult(s, Idle)
    else
      var r := HandleUpdate(s, updates[0], prices);
      if r.stop.Some? then ListenResult(r.state, r.stop.value) else Listen(r.state, updates[1..], prices)
  }

  /**
   * A request never touches the update id; only a buy order ends the batch
   * with a rerun, and every other request leaves the list and the save
   * count alone.
   */
  lemma ApplyEffects(s: SessionState, req: Request, prices: PriceFeed)
    ensures var r := Apply(s, req, prices);
      && r.state.lastUpdateId == s.lastUpdateId
      && r.stop != Some(Idle)
      && (r.stop == Some(Rerun) <==> req.BuyOrder?)
      && (!req.BuyOrder? ==> r.state.portfolio == s.portfolio && r.state.saves == s.saves)
      && (req.BuyOrder? ==> r.state == Buy(s, req.name, req.ticker, req.price, prices))
  {
  }

  /**
   * Every update moves the high-water mark as `NextUpdateId` says, whatever
   * its text, and an early return is never the "nothing to do" value.
   */
  lemma HandleUpdateId(s: SessionState, u: Update, prices: PriceFeed)
    ensures HandleUpdate(s, u, prices).state.lastUpdateId == NextUpdateId(s.lastUpdateId, u.updateId)
    ensures HandleUpdate(s, u, prices).stop != Some(Idle)
  {
    if u.text != [] {
      ApplyEffects(Heard(s, u), ParseRequest(u.text), prices);
    }
  }

  /**
   * A malformed buy command (fewer than four words, or a price word that is
   * not a number once its commas are gone) leaves the list unsaved and
   * unchanged.
   */
  lemma BuyRejected(s: SessionState, u: Update, prices: PriceFeed)
    requires var parts := Text.Split(u.text); |parts| < 4 || Numbers.ParsePrice(parts[3]).None?
    ensures var r := HandleUpdate(s, u, prices);
      r.state.portfolio == s.portfolio && r.state.saves == s.saves && r.stop != Some(Rerun)
  {
    if u.text != [] {
      var req := ParseRequest(u.text);
      ParseRequestWords(u.text);
      assert !req.BuyOrder?;
      ApplyEffects(Heard(s, u), req, prices);
    }
  }

  /**
   * A well-formed buy command puts a fresh item with all flags down last, as
   * the only item with its upper-cased ticker, keeps every other item in
   * order, saves, and ends the batch.
   */
  lemma BuyAccepted(s: SessionState, u: Update, prices: PriceFeed)
    requires HandleUpdate(s, u, prices).stop == Some(Rerun)
    ensures var r := HandleUpdate(s, u, prices); var parts := Text.Split(u.text);
      var items := r.state.portfolio;
      && |items| > 0
      && var p := items[|items| - 1];
      && |parts| >= 4 && p.ticker == Text.ToUpper(parts[2]) && p.name == parts[1]
      && Numbers.ParsePrice(parts[3]) == Some(p.buyPrice)
      && (forall k :: !Flagged(p, k)) && HasAllFlags(p)
      && (forall i :: 0 <= i < |items| - 1 ==> items[i].ticker != p.ticker)
      && (forall x: Position :: x.ticker != p.ticker ==> multiset(items[..|items| - 1])[x] == multiset(s.portfolio)[x])
      && IsSubsequence(items[..|items| - 1], s.portfolio)
      && r.state.saves == s.saves + 1
  {
    assert u.text != [];
    var req := ParseRequest(u.text);
    ApplyEffects(Heard(s, u), req, prices);
    assert req.BuyOrder?;
    ParseRequestWords(u.text);
    var p := NewPosition(req.name, req.ticker, req.price);
    UpsertReplaces(s.portfolio, p);
    var items := Upsert(s.portfolio, p);
    assert items[..|items| - 1] == RemoveTicker(s.portfolio, p.ticker);
  }

  /** One update keeps the tickers of the portfolio unique. */
  lemma HandleUpdateKeepsUnique(s: SessionState, u: Update, prices: PriceFeed)
    requires UniqueTickers(s.portfolio)
    ensures UniqueTickers(HandleUpdate(s, u, prices).state.portfolio)
  {
    if u.text != [] {
      var req := ParseRequest(u.text);
      ApplyEffects(Heard(s, u), req, prices);
      if req.BuyOrder? {
        UpsertUnique(s.portfolio, NewPosition(req.name, req.ticker, req.price));
      }
    }
  }

  /** The high-water mark of update ids never goes down. */
  predicate NotBelow(before: Option<int>, after: Option<int>) {
    before.Some? ==> after.Some? && after.value >= before.value
  }

  /** The largest of `floor` and the ids of `updates`, a missing id read as -1. */
  function HighWater(floor: int, updates: seq<Update>): (m: int)
    ensures m >= floor
    ensures forall j :: 0 <= j < |updates| ==> m >= updates[j].updateId.GetOr(-1)
    ensures m == floor || exists j :: 0 <= j < |updates| && m == updates[j].updateId.GetOr(-1)
    decreases |updates|
  {
    if updates == [] then floor
    else
      var id := updates[0].updateId.GetOr(-1);
      var m := HighWater(if floor >= id then floor else id, updates[1..]);
      assert forall j :: 1 <= j < |updates| ==> updates[j] == updates[1..][j - 1];
      assert m != floor && m != id ==> exists j :: 1 <= j < |updates| && m == updates[j].updateId.GetOr(-1);
      m
  }

  /**
   * The mark `r` ends with is the largest of `floor` and the ids of the
   * updates looked at: a non-empty prefix of the batch that is the whole
   * batch unless an update returned early.
   */
  predicate MarkOfPrefix(floor: int, updates: seq<Update>, r: ListenResult) {
    exists n :: 0 < n <= |updates| && MarkAt(floor, updates, n, r)
  }

  predicate MarkAt(floor: int, updates: seq<Update>, n: nat, r: ListenResult)
    requires n <= |updates|
  {
    r.state.lastUpdateId == Some(HighWater(floor, updates[..n])) && (r.command == Idle ==> n == |updates|)
  }

  /**
   * `last_update_id` never decreases. After a non-empty batch it is the
   * largest of its old value (or -1) and the `update_id` of every update
   * looked at, up to the one that returned early or to the end.
   */
  lemma {:induction false} ListenHighWater(s: SessionState, updates: seq<Update>, prices: PriceFeed)
    ensures var r := Listen(s, updates, prices);
      && NotBelow(s.lastUpdateId, r.state.lastUpdateId)
      && (updates != [] ==> MarkOfPrefix(s.lastUpdateId.GetOr(-1), updates, r))
    decreases |updates|
  {
    if updates != [] {
      var r := Listen(s, updates, prices);
      var h := HandleUpdate(s, updates[0], prices);
      HandleUpdateId(s, updates[0], prices);
      var floor := s.lastUpdateId.GetOr(-1);
      var next := HighWaterStep(floor, updates);
      assert h.state.lastUpdateId == Some(next);
      var rest := updates[1..];
      if h.stop.Some? {
        assert r == ListenResult(h.state, h.stop.value);
        assert MarkAt(floor, updates, 1, r);
      } else if rest == [] {
        assert r == Listen(h.state, rest, prices);
        assert r == ListenResult(h.state, Idle);
        assert MarkAt(floor, updates, 1, r);
      } else {
        ListenHighWater(h.state, rest, prices);
        assert r == Listen(h.state, rest, prices);
        var n :| 0 < n <= |rest| && MarkAt(next, rest, n, r);
        HighWaterPrefix(floor, updates, n);
        assert MarkAt(floor, updates, n + 1, r);
      }
    }
  }

  /** The first update of a batch raises the floor to its id; alone it is the whole mark. */
  lemma HighWaterStep(floor: int, updates: seq<Update>) returns (next: int)
    requires updates != []
    ensures var id := updates[0].updateId.GetOr(-1); next == if floor >= id then floor else id
    ensures HighWater(floor, updates[..1]) == next
  {
    var id := updates[0].updateId.GetOr(-1);
    next := if floor >= id then floor else id;
    assert updates[..1][1..] == [];
  }

  /** The mark of the first `n + 1` updates is the mark of the next `n` from the raised floor. */
  lemma HighWaterPrefix(floor: int, updates: seq<Update>, n: nat)
    requires 0 < n < |updates|
    ensures var id := updates[0].updateId.GetOr(-1);
      HighWater(floor, updates[..n + 1]) == HighWater(if floor >= id then floor else id, updates[1..][..n])
  {
    assert updates[..n + 1][1..] == updates[1..][..n];
  }

  /** Handling updates keeps the tickers of the portfolio unique. */
  lemma {:induction false} ListenKeepsUnique(s: SessionState, updates: seq<Update>, prices: PriceFeed)
    requires UniqueTickers(s.portfolio)
    ensures UniqueTickers(Listen(s, updates, prices).state.portfolio)
    decreases |updates|
  {
    if updates != [] {
      var u := updates[0];
      HandleUpdateKeepsUnique(s, u, prices);
      var h := HandleUpdate(s, u, prices);
      if h.stop.None? {
        ListenKeepsUnique(h.state, updates[1..], prices);
      }
    }
  }

  /** `check_thresholds(enabled)` (app.py:166-213) on the session. */
  function CheckThresholds(s: SessionState, enabled: bool, prices: PriceFeed): SessionState {
    if !enabled || s.portfolio == [] then s
    else
      var r := Pass(s.portfolio, prices);
      s.(portfolio := r.items,
         outbox := s.outbox + Notices(r.alerts),
         saves := if r.alerts == [] then s.saves else s.saves + 1)
  }

  /**
   * Disabled alerts or an empty list change nothing. Otherwise the list is
   * saved exactly when some flag went from down to up, every message sent is
   * a threshold alert, and every item comes out with all three flags.
   */
  lemma CheckThresholdsSaves(s: SessionState, enabled: bool, prices: PriceFeed)
    ensures var t := CheckThresholds(s, enabled, prices);
      && ((!enabled || s.portfolio == []) ==> t == s)
      && (t.saves == s.saves + 1 <==>
            enabled && exists i, k :: 0 <= i < |s.portfolio| && !Flagged(s.portfolio[i], k) && Flagged(t.portfolio[i], k))
      && t.saves <= s.saves + 1
      && t.lastUpdateId == s.lastUpdateId
      && |t.outbox| >= |s.outbox| && t.outbox[..|s.outbox|] == s.outbox
      && (forall j :: |s.outbox| <= j < |t.outbox| ==> t.outbox[j].ThresholdAlert?)
      && (enabled ==> forall i :: 0 <= i < |t.portfolio| ==> HasAllFlags(t.portfolio[i]))
  {
    if enabled && s.portfolio != [] {
      PassChanged(s.portfolio, prices);
      PassMigrates(s.portfolio, prices);
    }
  }

  /** The delete button (app.py:267-272): item `i` is popped and the list saved. */
  function Delete(s: SessionState, i: nat): SessionState
    requires i < |s.portfolio|
  {
    s.(portfolio := RemoveAt(s.portfolio, i), saves := s.saves + 1)
  }
}
