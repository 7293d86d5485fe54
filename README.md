# Stock alert command post — verified model

`app.py` of the stock-ai repository is a Streamlit page that keeps a list of
stock holdings. It answers two Telegram commands:

- `매수 <name> <ticker> <price>` records a purchase.
- `보고` asks for a full report.

It also sends one-shot threshold alerts. An item gets an alert when its
latest close falls to -12 % of the purchase price (average down). It also
gets one at +10 % (take profit) and at +25 % (target).

This project models the logic inside that page. It proves what the logic
promises:

- **Text helpers** (`Text`). It models Python's `str.strip` and
  `str.split` over the whitespace set of `str.isspace`, `str.upper` on ASCII
  letters, and the comma removal the price word goes through. It proves that splitting a stripped text gives the same
  words, and that splitting undoes joining with single spaces.
- **MarkdownV2 escaping** (`Markdown`). It models `escape_markdown_v2`. It
  proves the length law, and that the escaping can be inverted in both
  directions.
- **Price parsing** (`Numbers`). It models `float(token.replace(",", ""))`
  on decimal text, as an exact `real`: whole numbers, fractions such as
  `182.5`, exponents such as `1.5e3`, and the rejection of `1.2.3`.
- **The portfolio item** (`Positions`), covering:
  - its optional alert flags, and their migration by `ensure_alert_flags`;
  - the three price levels and the currency symbol;
  - the report of `get_aggressive_report` apart from its text layout;
  - the upsert-by-ticker of the buy command, and the delete-by-index of the
    delete button.
- **The alert engine** (`Alerts`). It covers:
  - the three latches of `check_thresholds`, in their source order;
  - one pass over the list;
  - any number of passes.
- **The session** (`Commands`, as values). It covers:
  - one Telegram update: the `last_update_id` high-water mark, then the
    command;
  - a batch of updates, `listen_telegram_once`;
  - `check_thresholds`;
  - the delete button.
- **`st.session_state` as an object** (`App.Session`). Its methods run the
  steps of the source one by one. `CheckThresholds`, `Buy` and `Delete` are
  proved to leave the state the function of the same name in `Commands`
  gives; `HandleOne` the state of `Commands.HandleUpdate`; `ListenOnce` that
  of `Commands.Listen`. `Send` and the constructor state their new state
  outright.

The outside world is turned into plain values:

- The notifier (`send_telegram_msg`) is an outbox sequence of `Message`s.
- The JSON file (`save_db`) is a counter of saves.
- The price source (`fetch_recent_close`) is a parameter `PriceFeed`, a
  function from ticker to `Option<real>`.

Prices are `real`, so the ×0.88, ×1.10 and ×1.25 comparisons are exact. IEEE
floating-point rounding is abstracted away.

The `last_update_id` update (app.py:128) reads a stored 0 as "no value" (see
Findings). The session uses the corrected maximum, `Commands.NextUpdateId`.

## Model

| member | source | states |
|---|---|---|
| Text.SplitStrip | app.py:133-135 | splitting the stripped text gives exactly the words of the unstripped text, so `strip()` never changes what `split()` sees |
| Text.SplitJoinSpaced | app.py:135 | `split()` of non-empty, space-free words joined by single spaces gives back exactly those words |
| Text.SplitTrailingSpace | app.py:135 | a trailing whitespace character does not change the words |
| Text.SplitTrimRight | app.py:133 | right-stripping does not change the words |
| Text.SplitTrimLeft | app.py:133 | left-stripping does not change the words |
| Text.StripTrimmed | app.py:133 | a non-empty text with no whitespace at either end is its own `strip()` |
| Text.Split | app.py:135 | every word is non-empty and contains no whitespace |
| Text.TrimLeft | app.py:133 | the result is a suffix of the input, everything dropped is whitespace, and the result does not start with whitespace |
| Text.TrimRight | app.py:133 | the result is a prefix of the input, everything dropped is whitespace, and the result does not end with whitespace |
| Text.WordLength | app.py:135 | the first word is whitespace-free and is followed by whitespace or the end |
| Text.WordLengthOfWord | app.py:135 | a space-free word followed by whitespace or by nothing is read as exactly that word |
| Text.ToUpperIdempotent | app.py:137 | the upper-cased ticker has no ASCII lower-case letter, and upper-casing it again changes nothing |
| Text.RemoveCommasSpec | app.py:140 | `replace(",", "")` leaves no comma and keeps the number of occurrences of every other character |
| Text.RemoveCommasNoComma | app.py:140 | a token without commas is unchanged |
| Text.RemoveCommasConcat | app.py:140 | comma removal distributes over concatenation |
| Text.HasInfix | app.py:99 | `p in s` holds iff `p` occurs in `s` at some index |
| Markdown.EscapeMarkdownV2 | app.py:18-22 | the output is as long as the input plus its number of special characters |
| Markdown.EscapeRoundTrip | app.py:18-22 | removing the escape backslashes recovers the input |
| Markdown.UnescapeSound | app.py:18-22 | any text that unescapes to `s` is exactly the escaping of `s`, so escaping is onto the well-formed escaped texts |
| Markdown.EscapeInjective | app.py:18-22 | different inputs escape to different outputs |
| Markdown.EscapeConcat | app.py:22 | escaping works character by character: it distributes over concatenation |
| Markdown.EscapePlain | app.py:18-22 | a text without special characters is unchanged |
| Numbers.DigitsValue | app.py:140 | a run of `n` decimal digits has a value below 10^n |
| Numbers.ParseMantissa | app.py:140 | an accepted mantissa is non-empty, is made of number characters only, and is not negative |
| Numbers.ParseUnsigned | app.py:140 | an accepted unsigned number is non-empty, is made of number characters only, and is not negative |
| Numbers.ParseFloat | app.py:140 | `float` accepts only non-empty text made of digits, signs, dots and exponent marks |
| Numbers.ParseDecimalPoint | app.py:140 | digits, a point and digits (at least one digit in all) are read as the whole part plus the fraction over ten to the number of fraction digits |
| Numbers.ParseScientific | app.py:140 | `w.f` followed by `e` and digits is that decimal scaled up by that power of ten |
| Numbers.ParseScientificNegative | app.py:140 | `w.f` followed by `e-` and digits is that decimal scaled down by that power of ten |
| Numbers.ScaleUp | app.py:140 | scaling by a non-negative exponent multiplies by ten to that power |
| Numbers.ScaleDown | app.py:140 | scaling by a negative exponent divides by ten to its magnitude |
| Numbers.ParseExponentDigits | app.py:140 | an unsigned exponent of digits is read as that whole number |
| Numbers.ParseExponentNegative | app.py:140 | a minus sign before the exponent's digits negates it |
| Numbers.ParseTwoPoints | app.py:140-143 | a second decimal point, as in `1.2.3`, is rejected, which is the `ValueError` path |
| Numbers.ParseNatDigits | app.py:140 | the decimal digits of any natural number parse back to that number |
| Numbers.ParsePriceNatDigits | app.py:140 | the price word of a whole number, written without separators, is read as that number |
| Numbers.ParseNegatedNatDigits | app.py:140 | a leading minus sign negates, so a negative price is accepted |
| Numbers.ParsePriceIgnoresComma | app.py:140 | a comma anywhere in the price word does not change its parsed value |
| Positions.NewPosition | app.py:145-146 | the appended item carries all three flags, all false |
| Positions.Migrated | app.py:58-64 | all three flags become present; present flags keep their value; added ones are false; name, ticker and price are unchanged |
| Positions.EnsureAlertFlags | app.py:58-64 | the key loop returns the migrated item, and it reports a change iff some flag key was missing |
| Positions.MigratedIdempotent | app.py:58-64 | migration changes no flag's reading; a second migration changes nothing; an item with all flags is left as is |
| Positions.LevelsOf | app.py:96-98 | for a positive purchase price, average-down < price < take-profit < target, with the orders for zero and negative prices |
| Positions.CurrencySymbol | app.py:99 | the symbol is `₩` iff one of `.KS`, `.KQ`, `.KR` occurs in the ticker, and `$` otherwise |
| Positions.KoreanListingInWon | app.py:99 | a code with a `.KS` or `.KQ` suffix is priced in won |
| Positions.PlainTickerInDollars | app.py:99 | a ticker without a dot is priced in dollars |
| Positions.AggressiveReport | app.py:91-94 | the failure report is produced iff no price is known |
| Positions.RemoveTicker | app.py:144 | the filter drops exactly the items with that ticker, keeping every other item's multiplicity and relative order |
| Positions.UpsertReplaces | app.py:144-147 | after the upsert, the new item is last and is the only one with its ticker; the other items keep their multiplicity and order |
| Positions.UpsertUnique | app.py:144-147 | upserting keeps the tickers unique |
| Positions.SubsequenceUnique | app.py:144 | dropping items keeps the tickers unique |
| Positions.RemoveAt | app.py:268 | `pop(i)` removes exactly item `i`; the items before it keep their index and the ones after it move down by one |
| Positions.RemoveAtUnique | app.py:268 | deleting keeps the tickers unique |
| Alerts.LatchRules | app.py:183-208 | one check fires iff its condition holds and its flag is down; it then sets that flag and nothing else |
| Alerts.EvaluateFired | app.py:177-208 | which kinds fire, condition by condition in check order, and the flags after the checks |
| Alerts.EvaluateRules | app.py:177-208 | average-down fires iff price <= buy×0.88 and its flag is down; target iff price >= buy×1.25 and its flag is down; take-profit iff buy×1.10 <= price < buy×1.25 and neither its flag nor the target flag is up; alerts come in check order; a flag is up afterwards iff it was up or it fired |
| Alerts.TargetPreemptsTakeProfit | app.py:191-201 | target and take-profit never fire together, and once target has latched take-profit never fires |
| Alerts.BuyAndSellExclusive | app.py:177-208 | with a positive purchase price, average-down never fires together with a selling alert |
| Alerts.EvaluateItemRules | app.py:172-176 | an item is migrated first, so it comes out with all three flags; an item without a price sends nothing and keeps every flag reading; flags never go down |
| Alerts.TagMembers | app.py:188 | an alert of item `index` is in the tag iff its kind fired |
| Alerts.Pass | app.py:170-208 | one pass keeps the length of the list, and every alert names an item of the list |
| Alerts.PassMigrates | app.py:170-172 | after a pass every item of the list carries all three flags |
| Alerts.PassItems | app.py:170-208 | item `i` after a pass is item `i` after its own checks |
| Alerts.PassOrdered | app.py:169-170 | alerts come out item by item in list order, and within an item in the order average-down, target, take-profit |
| Alerts.ConcatOrdered | app.py:169-170 | the ordered alerts of earlier items followed by the ordered alerts of a later item stay ordered |
| Alerts.PassAlerts | app.py:183-208 | the kind-`k` alert of item `i` is sent iff `k` fired for item `i` |
| Alerts.OrderedNoRepeats | app.py:183-208 | alerts in sending order hold no duplicate |
| Alerts.PassLatches | app.py:172-208 | within a pass, every item gets all three flags; a flag never goes down; an alert is sent at most once, and exactly when its flag goes from down to up; an item without a price keeps every flag reading and sends nothing |
| Alerts.PassChanged | app.py:190-213 | `changed` holds, and the list is saved, iff some flag went from down to up, iff some alert was sent |
| Alerts.PassKeepsTickers | app.py:170-208 | a pass keeps every ticker, so it keeps the tickers unique |
| Alerts.AlertSentOnlyOnce | app.py:282 | across any number of passes, each kind of alert is sent at most once per item, never if its flag was already up, and a raised flag stays up |
| Alerts.ThresholdExamples | app.py:177-208 | at price 87 on a purchase at 100 average-down fires; at 126 only target fires; at 111 take-profit fires, and it does not fire again at 109 |
| Commands.ParseRequestWords | app.py:133-141 | a buy order comes from a stripped text starting with 매수 with at least four words: name second, ticker third upper-cased, price fourth parsed after comma removal; fewer words or a non-numeric price never make one |
| Commands.ParseRequestAccepts | app.py:133-141 | conversely, a stripped text starting with 매수 with at least four words and a numeric fourth word is a buy order of exactly those words |
| Commands.BuyCommandRoundTrip | app.py:133-141 | `매수 name ticker digits`, with single spaces, is read back as that name, the upper-cased ticker and that price |
| Commands.NextUpdateIdAsWrittenDecreases | app.py:128 | as written, a stored 0 and an update without `update_id` lower the mark to -1 |
| Commands.NextUpdateId | app.py:128 | the new mark is at least the update's id and at least the stored one, each read as -1 when missing, and it is one of the two: exactly their maximum |
| Commands.NextUpdateIdAgrees | app.py:128 | the corrected and the as-written update agree unless 0 is stored and the update's id is negative or missing |
| Commands.ApplyEffects | app.py:134-158 | a request never changes the update id and never returns the "nothing to do" value; only a buy order reruns; every other request leaves the list and the saves alone |
| Commands.HandleUpdateId | app.py:128-132 | every update moves the mark by `NextUpdateId`, whatever its text |
| Commands.BuyRejected | app.py:135-143 | fewer than four words or a non-numeric price word leave the list unchanged and unsaved, with no rerun |
| Commands.BuyAccepted | app.py:144-154 | a buy ends with the new item last and the only one with its upper-cased ticker; it has the parsed price and all flags down; every item with another ticker keeps its multiplicity, and the kept items their order; one save |
| Commands.HandleUpdateKeepsUnique | app.py:144-147 | one update keeps the tickers unique |
| Commands.HighWater | app.py:128 | the largest of the floor and the batch's ids is at least each of them and equal to one of them |
| Commands.ListenHighWater | app.py:127-158 | `last_update_id` never goes down; after a non-empty batch it is the maximum of its old value (or -1) and the `update_id` of every update looked at, the whole batch unless one returned early at a buy or a report |
| Commands.ListenKeepsUnique | app.py:127-158 | handling updates keeps the tickers unique |
| Commands.CheckThresholdsSaves | app.py:166-213 | disabled alerts or an empty list change nothing; otherwise there is one save iff some flag went up, only threshold alerts are appended, every item comes out with all three flags, and the update id is untouched |
| App.MigrateAllComplete | app.py:66-67 | after loading, every item carries all three flags with its name, ticker and price kept, and migrating again changes nothing |
| App.Session.constructor | app.py:51-67 | the session starts with the loaded list migrated, no update id, nothing sent and nothing saved |
| App.Session.CheckThresholds | app.py:166-213 | the loop over the list leaves exactly the state `Commands.CheckThresholds` describes |
| App.CheckItem | app.py:172-208 | the three checks of one item give its evaluation and its alerts; `changed` is set iff a flag went up, iff an alert was sent |
| App.LoopStep | app.py:170-208 | one more loop iteration extends the pass over the prefix by that item |
| App.Session.ListenOnce | app.py:125-163 | the loop over the updates leaves the state and returns the value `Commands.Listen` describes |
| App.Session.HandleOne | app.py:128-158 | one update leaves the state `Commands.HandleUpdate` describes, and returns early exactly when it does |
| App.Session.Send | app.py:70-78 | a message is appended to the outbox and nothing else changes |
| App.Session.Buy | app.py:144-153 | the filter, append, save and report of a buy leave the state `Commands.Buy` describes |
| App.Session.Delete | app.py:267-272 | the delete button pops item `i` and saves, as `Commands.Delete` describes |

## Left out

- Streamlit is not modelled: page layout, widgets, autorefresh and `experimental_rerun` (app.py:216-279). They are presentation and framework glue. The sidebar's full report on `보고` (app.py:227-233) is UI: the model returns the `FullReport` value and stops there.
- The Telegram HTTP calls are not modelled. These are the token checks, the `getUpdates` request and its offset, and the delivery result of `sendMessage` (app.py:70-78, 113-124). The updates come in as a sequence, and sending appends to the outbox.
- Choosing between `message` and `edited_message` (app.py:129-130) is not modelled: each update carries its text directly, and an empty text stands for "no text".
- The exception handlers of `listen_telegram_once` are not modelled (app.py:159-162). Neither is the partial state an exception in the middle of a batch would leave, since every modelled step is total.
- `fetch_recent_close` (yfinance, pandas, the 20-second cache) is a `PriceFeed` parameter. Several calls within one pass see the same quote for a ticker.
- The JSON file is not modelled (`load_db`, `save_db`, `atomic_save_json`, app.py:24-49). Saving is a counter. Loading is the constructor's argument. Items with missing or wrongly typed `name`/`ticker`/`buy_price` keys, and keys other than the flags, are not modelled.
- Number formatting (`:,.2f`), the profit percentage and the exact message texts are not modelled. Messages are kept by kind and content (alert kind and item index, escaped token, report fields).
- The `except Exception` branch of `get_aggressive_report` (app.py:110-111) is left out, because on `real`s the computation cannot fail.
- Numbers.ParseFloat: models decimal ASCII text only. It rejects `inf`, `nan`, underscores between digits, surrounding whitespace and non-ASCII digits, all of which Python's `float` accepts. Binary rounding and overflow are replaced by exact `real` arithmetic.
- Text.ToUpper: upper-cases ASCII letters only. Python's `str.upper` also maps other scripts.
- Alerts.AlertSentOnlyOnce: covers passes over one unchanged list. It does not cover lists edited between passes: a delete shifts the indices, and a re-added item starts with fresh flags.
- The in-place dictionary updates of `ensure_alert_flags` and of the alert flags are modelled on values. The item is handed back and written into the list. Aliasing between the list and the loop variable is therefore not modelled.

## Findings

| source | as written | input that shows it | evidently intended | confidence | as-written member | corrected member |
|---|---|---|---|---|---|---|
| app.py:128 | `max(st.session_state.last_update_id or -1, upd.get("update_id", -1))` reads a stored id of 0 as missing, because 0 is falsy | `last_update_id == 0` and an update without `update_id`: the mark drops from 0 to -1, and the next `getUpdates` offset goes from 1 to 0 | a missing value (`None`) alone should be read as -1, so the mark never goes down | not executed | Commands.NextUpdateIdAsWrittenDecreases | Commands.NextUpdateId |
