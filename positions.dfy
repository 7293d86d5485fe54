/**
 * A tracked holding of app.py's portfolio list and the list operations that
 * the buy command and the delete button perform on it.
 */
module Positions {
  import opened Wrappers
  import Text
  import Markdown

  /** The three one-shot alerts; the JSON item stores them under
      `alerted_avg_down`, `alerted_take_profit` and `alerted_target`. */
  datatype Flag = AvgDown | TakeProfit | Target

  /** The keys in the order `ensure_alert_flags` visits them. */
  const FlagKeys: seq<Flag> := [AvgDown, TakeProfit, Target]

  /**
   * One portfolio item: `name`, `ticker`, `buy_price` and whichever alert
   * flags the item carries (an item saved by an older version may lack some).
   */
  datatype Position = Position(name: string, ticker: string, buyPrice: real, flags: map<Flag, bool>)

  /** `item.get(key, False)`: a missing flag reads as false. */
  predicate Flagged(p: Position, k: Flag) {
    k in p.flags && p.flags[k]
  }

  predicate HasAllFlags(p: Position) {
    forall k: Flag :: k in p.flags
  }

  lemma EveryFlagIsKey(k: Flag)
    ensures k == AvgDown || k == TakeProfit || k == Target
    ensures k in FlagKeys
  {
    match k
    case AvgDown => assert FlagKeys[0] == k;
    case TakeProfit => assert FlagKeys[1] == k;
    case Target => assert FlagKeys[2] == k;
  }

  /** The item the buy command appends (app.py:145-146): all three flags present and false. */
  function NewPosition(name: string, ticker: string, buyPrice: real): (p: Position)
    ensures HasAllFlags(p) && forall k: Flag :: !Flagged(p, k)
  {
    var m := map[AvgDown := false, TakeProfit := false, Target := false];
    assert forall k: Flag :: k in m by {
      forall k: Flag ensures k in m { EveryFlagIsKey(k); }
    }
    Position(name, ticker, buyPrice, m)
  }

  /** What `ensure_alert_flags` makes of an item. */
  function Migrated(p: Position): (q: Position)
    ensures HasAllFlags(q)
    ensures q.name == p.name && q.ticker == p.ticker && q.buyPrice == p.buyPrice
    ensures forall k :: k in p.flags ==> q.flags[k] == p.flags[k]
    ensures forall k :: k !in p.flags ==> !q.flags[k]
  {
    var m := map k | k in FlagKeys :: if k in p.flags then p.flags[k] else false;
    assert forall k: Flag :: k in m by {
      forall k: Flag ensures k in m { EveryFlagIsKey(k); }
    }
    p.(flags := m)
  }

  /**
   * `ensure_alert_flags` (app.py:58-64): adds each missing flag key with
   * value false and reports whether it added any. The dictionary the source
   * updates in place is passed in and handed back.
   */
  method EnsureAlertFlags(p: Position) returns (q: Position, changed: bool)
    ensures q == Migrated(p)
    ensures changed <==> !HasAllFlags(p)
  {
    q, changed := p, false;
    for j := 0 to |FlagKeys|
      invariant q.name == p.name && q.ticker == p.ticker && q.buyPrice == p.buyPrice
      invariant forall k :: k in q.flags <==> k in p.flags || k in FlagKeys[..j]
      invariant forall k :: k in p.flags ==> q.flags[k] == p.flags[k]
      invariant forall k :: k in q.flags && k !in p.flags ==> !q.flags[k]
      invariant changed <==> exists i :: 0 <= i < j && FlagKeys[i] !in p.flags
    {
      var k := FlagKeys[j];
      if k !in q.flags {
        q := q.(flags := q.flags[k := false]);
        changed := true;
      }
    }
    forall k: Flag { EveryFlagIsKey(k); }
    assert FlagKeys[..|FlagKeys|] == FlagKeys;
    assert q.flags == Migrated(p).flags;
  }

  /** Migrating changes no flag's reading, and a second migration changes nothing. */
  lemma MigratedIdempotent(p: Position)
    ensures forall k :: Flagged(Migrated(p), k) == Flagged(p, k)
    ensures Migrated(Migrated(p)) == Migrated(p)
    ensures HasAllFlags(p) ==> Migrated(p) == p
  {
    assert Migrated(Migrated(p)).flags == Migrated(p).flags;
    if HasAllFlags(p) {
      assert Migrated(p).flags == p.flags;
    }
  }

  /** The three price levels derived from the purchase price. */
  datatype Levels = Levels(avgDown: real, takeProfit: real, target: real)

  /** Average down at -12 %, take profit at +10 %, sell at the target +25 % (app.py:96-98, 177-179). */
  function LevelsOf(buyPrice: real): (l: Levels)
    ensures buyPrice > 0.0 ==> 0.0 < l.avgDown < buyPrice < l.takeProfit < l.target
    ensures buyPrice == 0.0 ==> l.avgDown == l.takeProfit == l.target == 0.0
    ensures buyPrice < 0.0 ==> l.target < l.takeProfit < buyPrice < l.avgDown < 0.0
  {
    Levels(buyPrice * 0.88, buyPrice * 1.10, buyPrice * 1.25)
  }

  /** Yahoo Finance suffixes of the Korean exchanges. */
  const KoreanSuffixes: seq<string> := [".KS", ".KQ", ".KR"]

  const Won: string := "\U{20A9}"

  /** app.py:99: the won sign for a ticker listed in Korea, the dollar sign otherwise. */
  function CurrencySymbol(ticker: string): (symbol: string)
    ensures symbol == Won || symbol == "$"
    ensures symbol == Won <==> exists j: nat, i: nat :: j < |KoreanSuffixes| && Text.OccursAt(ticker, KoreanSuffixes[j], i)
  {
    if Text.HasInfix(ticker, KoreanSuffixes[0]) || Text.HasInfix(ticker, KoreanSuffixes[1])
      || Text.HasInfix(ticker, KoreanSuffixes[2])
    then Won
    else
      assert forall j: nat, i: nat :: j < |KoreanSuffixes| ==> !Text.OccursAt(ticker, KoreanSuffixes[j], i);
      "$"
  }

  /** A code with a Korean exchange suffix is priced in won. */
  lemma KoreanListingInWon(code: string)
    ensures CurrencySymbol(code + ".KS") == Won
    ensures CurrencySymbol(code + ".KQ") == Won
  {
    assert Text.OccursAt(code + ".KS", KoreanSuffixes[0], |code|);
    assert Text.OccursAt(code + ".KQ", KoreanSuffixes[1], |code|);
  }

  /** A ticker without a dot, such as `AAPL`, is priced in dollars. */
  lemma PlainTickerInDollars(ticker: string)
    requires '.' !in ticker
    ensures CurrencySymbol(ticker) == "$"
  {
    forall j: nat, i: nat | j < |KoreanSuffixes|
      ensures !Text.OccursAt(ticker, KoreanSuffixes[j], i)
    {
      if i < |ticker| {
        assert ticker[i] in ticker;
      }
    }
  }

  /**
   * `get_aggressive_report` (app.py:91-111) apart from its text layout: the
   * failure report when no price is known, otherwise the levels and currency
   * of the plan for item number `index`.
   */
  datatype Report =
    | Unavailable(name: string, ticker: string)
    | Plan(index: nat, title: string, symbol: string, buyPrice: real, current: real, levels: Levels)

  function AggressiveReport(name: string, ticker: string, buyPrice: real, index: nat, current: Option<real>): (r: Report)
    ensures r.Unavailable? <==> current.None?
  {
    match current
    case None => Unavailable(Markdown.EscapeMarkdownV2(name), Markdown.EscapeMarkdownV2(ticker))
    case Some(c) =>
      Plan(index, Markdown.EscapeMarkdownV2(Text.ToUpper(name)), CurrencySymbol(ticker), buyPrice, c, LevelsOf(buyPrice))
  }

  // ----- the portfolio list -----

  /** The ticker is a key: no two items share one. */
  predicate UniqueTickers(s: seq<Position>) {
    forall i, j :: 0 <= i < j < |s| ==> s[i].ticker != s[j].ticker
  }

  /** `r` is `s` with some items left out, the rest in their original order. */
  predicate IsSubsequence(r: seq<Position>, s: seq<Position>)
    decreases |s|
  {
    if r == [] then true
    else if s == [] then false
    else (r[0] == s[0] && IsSubsequence(r[1..], s[1..])) || IsSubsequence(r, s[1..])
  }

  lemma {:induction false} SubsequenceMembers(r: seq<Position>, s: seq<Position>)
    requires IsSubsequence(r, s)
    ensures forall x :: x in r ==> x in s
    decreases |s|
  {
    if r != [] {
      if r[0] == s[0] && IsSubsequence(r[1..], s[1..]) {
        SubsequenceMembers(r[1..], s[1..]);
        assert forall x :: x in r ==> x == r[0] || x in r[1..];
      } else {
        SubsequenceMembers(r, s[1..]);
      }
    }
  }

  lemma {:induction false} SubsequenceUnique(r: seq<Position>, s: seq<Position>)
    requires IsSubsequence(r, s) && UniqueTickers(s)
    ensures UniqueTickers(r)
    decreases |s|
  {
    if r != [] {
      assert UniqueTickers(s[1..]);
      if r[0] == s[0] && IsSubsequence(r[1..], s[1..]) {
        SubsequenceUnique(r[1..], s[1..]);
        SubsequenceMembers(r[1..], s[1..]);
        forall j | 0 < j < |r| ensures r[0].ticker != r[j].ticker {
          assert r[j] in r[1..];
          var k :| 0 <= k < |s[1..]| && s[1..][k] == r[j];
          assert s[k + 1] == r[j];
        }
      } else {
        SubsequenceUnique(r, s[1..]);
      }
    }
  }

  /** `[i for i in my_portfolio if i.get('ticker') != ticker]` (app.py:144) */
  function RemoveTicker(s: seq<Position>, ticker: string): (r: seq<Position>)
    ensures forall x: Position :: multiset(r)[x] == if x.ticker == ticker then 0 else multiset(s)[x]
    ensures IsSubsequence(r, s)
  {
    if s == [] then []
    else
      assert s == [s[0]] + s[1..];
      var rest := RemoveTicker(s[1..], ticker);
      if s[0].ticker == ticker then
        assert IsSubsequence(rest, s) by {
          if rest != [] { assert IsSubsequence(rest, s[1..]); }
        }
        rest
      else
        assert ([s[0]] + rest)[1..] == rest;
        [s[0]] + rest
  }

  /** The buy command's replace-or-insert keyed on the ticker (app.py:144-147). */
  function Upsert(s: seq<Position>, p: Position): seq<Position> {
    RemoveTicker(s, p.ticker) + [p]
  }

  /**
   * After an upsert the new item is last and is the only one with its ticker;
   * every other item keeps its multiplicity and its relative order.
   */
  lemma UpsertReplaces(s: seq<Position>, p: Position)
    ensures var r := Upsert(s, p);
      && |r| > 0 && r[|r| - 1] == p
      && (forall i :: 0 <= i < |r| - 1 ==> r[i].ticker != p.ticker)
      && (forall x: Position :: x.ticker != p.ticker ==> multiset(r)[x] == multiset(s)[x])
      && IsSubsequence(r[..|r| - 1], s)
  {
    var kept := RemoveTicker(s, p.ticker);
    var r := Upsert(s, p);
    assert r[..|r| - 1] == kept;
    forall i | 0 <= i < |r| - 1 ensures r[i].ticker != p.ticker {
      assert r[i] in kept;
    }
  }

  /** Upserting keeps the tickers unique. */
  lemma UpsertUnique(s: seq<Position>, p: Position)
    requires UniqueTickers(s)
    ensures UniqueTickers(Upsert(s, p))
  {
    var kept := RemoveTicker(s, p.ticker);
    SubsequenceUnique(kept, s);
    UpsertReplaces(s, p);
  }

  /** `my_portfolio.pop(i)` (app.py:268): exactly item `i` goes, the others keep their order. */
  function RemoveAt<T>(s: seq<T>, i: nat): (r: seq<T>)
    requires i < |s|
    ensures |r| == |s| - 1
    ensures forall j :: 0 <= j < i ==> r[j] == s[j]
    ensures forall j :: i <= j < |r| ==> r[j] == s[j + 1]
    ensures multiset(r) + multiset{s[i]} == multiset(s)
  {
    assert s == s[..i] + [s[i]] + s[i + 1..];
    s[..i] + s[i + 1..]
  }

  /** Deleting an item keeps the tickers unique. */
  lemma RemoveAtUnique(s: seq<Position>, i: nat)
    requires i < |s| && UniqueTickers(s)
    ensures UniqueTickers(RemoveAt(s, i))
  {
    var r := RemoveAt(s, i);
    forall a, b | 0 <= a < b < |r| ensures r[a].ticker != r[b].ticker {
      var a' := if a < i then a else a + 1;
      var b' := if b < i then b else b + 1;
      assert r[a] == s[a'] && r[b] == s[b'];
    }
  }
}
