# Eneba affiliate bots, modelled in Dafny

The repository holds three small Telegram bots that promote Eneba game offers
with an affiliate link:

- `bot_eneba.py`: an administrator sends `/oferta <link> | <name> | <price>` in a
  private chat. The bot checks the sender, splits and checks the three fields,
  cleans the Brazilian price text, rewrites the link with the affiliate
  parameters and posts the offer to a channel. At start-up it checks its
  configuration and stores the administrator id.
- `bot_eeba.py`: a scheduled job. It reads an exchange rate (with a fallback),
  the product feed and a ledger file of ids already posted. It keeps the rows
  with an id and a price, a converted price of at most R$ 150.00 and a new id.
  It posts each of them and is meant to append the ids of the delivered posts
  to the ledger (as written it appends nothing; see Findings).
- `bot.py`: `/promo <link>` posts a fixed message with one buy button carrying
  the rewritten link.

The Dafny project has five modules:

| file | module | what it holds |
|---|---|---|
| `wrappers.dfy` | `Wrappers` | `Option` |
| `pystr.dfy` | `PyStr` | the Python `str` operations the bots use: `strip`, `in`, `startswith`, `replace`, `split(sep, maxsplit)`, `join`, truthiness |
| `eneba_bot.dfy` | `EnebaBot` | `bot_eneba.py` |
| `feed_bot.dfy` | `FeedBot` | `bot_eeba.py` |
| `promo_bot.dfy` | `PromoBot` | `bot.py` |

Handlers are modelled as functions from their inputs to the sequence of
effects they produce (replies to the user, posts to the channel). A Telegram
send is a boolean input that says whether it went through. In the feed bot,
attempt `k` goes through when `delivered(k)` holds. The feed bot's ledger file
is the class `FeedBot.LedgerFile`, whose content is `None` while the file does
not exist. One run of the job is the method `FeedBot.CheckAndSendOffers`. It
works on that object and is proved equal to the function `FeedBot.RunSpec`;
the lemmas about runs are stated on `RunSpec`. The start-up of `bot_eneba.py`
updates two process globals, modelled by the class `EnebaBot.Process`.

The save step of the feed bot has a defect (see Findings). `RunSpec` and
`CheckAndSendOffers` take a flag `asWritten`. With `true` they follow the code
as written; with `false` they follow the evident intent.

Some behaviour of the code is easy to miss, and the model follows it:
- the affiliate rewrite appends `&` whenever the URL holds a `?` anywhere. A
  `#` fragment is not split off, so the parameters can land inside the
  fragment. Rewriting twice appends the block twice.
- `/promo` splits at the first space only. `/promo ` with nothing after it
  still posts, with an empty link.
- in `get_exchange_rate`, only request errors fall back to 5.00. A response
  without a BRL rate raises `KeyError`, and nothing catches it. The model then
  ends the run with no effect (`RateMissing`). In the program the error also
  escapes `schedule.run_pending` and ends the scheduler thread
  (bot_eeba.py:185-190), so no later run happens; the scheduler is not part of
  this model.

## Model

| member | source | states |
|---|---|---|
| PyStr.Strip | bot_eneba.py:92 | the stripped text starts and ends with a non-whitespace character (Python's `isspace` set) and is no longer than the input |
| PyStr.StripSplits | bot_eneba.py:92 | the input is whitespace, then the stripped text, then whitespace |
| PyStr.StripUnique | bot_eneba.py:92 | whitespace around a stripped core strips to exactly that core |
| PyStr.StripEach | bot_eneba.py:92 | the list comprehension strips each part, keeps their number and order, and every result is stripped |
| PyStr.StripIgnoresTrailingSpace | bot_eeba.py:62 | a line's trailing newline does not change the stripped id |
| PyStr.StripKeepsCount | bot_eneba.py:112 | stripping keeps the count of every non-whitespace character |
| PyStr.ReplaceAbsent | bot_eneba.py:112 | replacing a pattern that does not occur leaves the text unchanged |
| PyStr.ReplaceKeepsCount | bot_eneba.py:112 | a character in neither the pattern nor the replacement keeps its count |
| PyStr.ReplaceCharConcat | bot_eneba.py:112 | a one-character replacement works piece by piece over a concatenation |
| PyStr.ReplaceSoleChar | bot_eneba.py:112 | the only occurrence of a character is replaced in place |
| PyStr.RemoveCharCount | bot_eneba.py:112 | `replace('.', '')` leaves no `.` |
| PyStr.ReplaceCharCount | bot_eneba.py:112 | `replace(',', '.')` leaves no `,` and adds the count of `,` to the count of `.` |
| PyStr.Contains | bot_eneba.py:104 | Python's `sub in s`: some index of `s` starts an occurrence of `sub` (ReplaceAbsent and ValidateOffer rely on it) |
| PyStr.Replace | bot_eneba.py:112 | Python's `replace`: left-to-right, non-overlapping replacement of every occurrence (ReplaceAbsent, ReplaceKeepsCount, ReplaceCharConcat, ReplaceSoleChar and ReplaceCharCount characterise it) |
| PyStr.Join | bot_eneba.py:91 | Python's `sep.join(parts)`: the parts in order with the separator between neighbours (SplitJoin states it inverts Split) |
| PyStr.IndexOf | bot.py:43 | the index found holds the character and no earlier index does |
| PyStr.Split | bot_eneba.py:92 | `split(sep, maxsplit)` yields between 1 and maxsplit+1 parts, and no part before the last holds the separator |
| PyStr.SplitJoin | bot_eneba.py:91-92 | joining the parts with the separator gives back the split text |
| PyStr.SplitCount | bot_eneba.py:92-94 | the number of parts is one more than the smaller of the separator count and maxsplit |
| PyStr.SplitFirst | bot_eneba.py:92 | a cut is made at the first separator and splitting continues after it with one cut fewer |
| PyStr.SplitThreeFields | bot_eneba.py:92-101 | with separators after two separator-free fields, a two-cut split gives those fields and the whole rest |
| EnebaBot.ToAffiliate | bot_eneba.py:37-42 | the result starts with the URL, then `&` if the URL holds `?` and `?` otherwise, then exactly the parameter block; its length is the URL's plus one plus the block's, and it always holds `?` |
| EnebaBot.ToAffiliateDetermined | bot_eneba.py:37-42 | any text of that shape is the rewrite, so the contract of `ToAffiliate` fixes its result |
| EnebaBot.ToAffiliateTwice | bot_eneba.py:37-42 | rewriting the rewritten link appends `&` and the block again; the rewrite is not idempotent |
| EnebaBot.ToAffiliateAfterFragment | bot_eneba.py:39-42 | with a `#` and no `?`, the block is appended after the fragment's text |
| EnebaBot.CheckAdmin | bot_eneba.py:49-58 | the command proceeds iff the chat is private and the sender is the administrator; the denial reply is sent iff the chat is private and the sender is someone else, and nothing else is sent |
| EnebaBot.CommandParts | bot_eneba.py:91-94 | one to three stripped parts, and exactly three iff the joined arguments hold at least two `\|` |
| EnebaBot.CommandPartsFields | bot_eneba.py:91-101 | for `link\|name\|price` with no `\|` in link or name, the parts are the three stripped fields; every further `\|` stays in the price |
| EnebaBot.CleanPrice | bot_eneba.py:112 | the cleaned price is stripped, has no `,`, has as many `.` as the input has `,`, and keeps the count of every non-whitespace character other than `R`, `$`, `.` and `,` (so every digit survives) |
| EnebaBot.CleanDecimalPrice | bot_eneba.py:112 | for all digit texts `a`, `b` (no `R`, `$`, `.`, `,`) with non-space ends, `a,b` with any leading whitespace and an optional leading `R$` cleans to exactly `a.b` |
| EnebaBot.CleanGroupedPrice | bot_eneba.py:112 | the same with one thousands separator: `g.a,b` (optionally after `R$` and whitespace) cleans to exactly `ga.b` |
| EnebaBot.CleanIntegerPrice | bot_eneba.py:112 | a price without separators, after any leading whitespace and an optional `R$`, cleans to exactly its digits: `R$ 150` gives `150` |
| EnebaBot.CleanDotDecimal | bot_eneba.py:112 | a price typed with a decimal point loses the point: `a.b` cleans to `ab`, so `149.90` becomes `14990`, a hundred times the typed price |
| EnebaBot.DropSymbolExample | bot_eneba.py:112 | `"R$ 1.149,90"` without `R$` is `" 1.149,90"` |
| EnebaBot.DropGroupingExample | bot_eneba.py:112 | removing `.` from `" 1.149,90"` gives `" 1149,90"` |
| EnebaBot.DecimalPointExample | bot_eneba.py:112 | turning `,` into `.` in `" 1149,90"` gives `" 1149.90"` |
| EnebaBot.CleanPriceExample | bot_eneba.py:112 | `"R$ 1.149,90"` cleans to `"1149.90"` |
| EnebaBot.ValidateOffer | bot_eneba.py:84-118 | an offer results iff arguments are present, there are exactly three parts, the link is valid and the cleaned price parses; the offer carries the first two parts and the parsed price; each failed check gives its own refusal in the source's order: no arguments the incomplete-command reply, not three parts the format reply, a bad link the invalid-link reply, an unparsable price the invalid-price reply quoting the price part |
| EnebaBot.SendOfferCommand | bot_eneba.py:75-152 | a post to the channel is attempted iff the administrator gate passes and the checks accept; outside a private chat nothing at all happens; when the gate refuses, the effects are exactly the gate's denial, and when the checks refuse, exactly one reply carrying the refusal the checks chose |
| EnebaBot.AcceptedOfferEffects | bot_eneba.py:120-151 | an accepted offer gives the progress reply, then the post with the rewritten link in its button, then the success reply or the failure reply carrying the link |
| EnebaBot.BadLinkRejected | bot_eneba.py:103-106 | a link without `eneba.com` or not starting with `http` gets the invalid-link reply and nothing is posted |
| EnebaBot.GroupCommandIgnored | bot_eneba.py:54-57 | in a group or channel even the administrator's command produces no effect |
| EnebaBot.ValidLink | bot_eneba.py:104 | a link is accepted iff it contains `eneba.com` and starts with `http` (BadLinkRejected and ValidateOffer state what each outcome does) |
| EnebaBot.DigitsValue | bot_eneba.py:200 | `int()` on a decimal digit string, read most significant digit first (DigitsRoundTrip and LeadingZeroIgnored characterise it) |
| EnebaBot.DigitsRoundTrip | bot_eneba.py:199-200 | the digit text of every number reads back as that number |
| EnebaBot.LeadingZeroIgnored | bot_eneba.py:199-200 | a leading zero does not change the administrator id read |
| EnebaBot.StartupCheck | bot_eneba.py:195-203 | start-up proceeds iff the token, the chat id and the administrator id are set and non-empty and the latter is all digits; the id then is its decimal value |
| EnebaBot.Process.Start | bot_eneba.py:188-224 | on a valid configuration the administrator id is stored and polling starts; otherwise both globals are left as they were |
| PromoBot.AffiliateLink | bot.py:20-24 | the link, then `&` if it holds `?` and `?` otherwise, then exactly the parameter block |
| PromoBot.ParamsAgree | bot.py:12 | the hard-coded parameter block equals the one built from the affiliate id in `bot_eneba.py` |
| PromoBot.AffiliateLinkAgrees | bot.py:20-24 | this rewriter and `bot_eneba.py`'s agree on every link |
| PromoBot.BuildMessage | bot.py:29-37 | the fixed offer text and a keyboard of one row with one button whose URL is the affiliate rewrite of the link (starting with the link and ending with the parameter block) |
| PromoBot.MessageTextFixed | bot.py:29-37 | the text does not depend on the link, and two links give the same keyboard iff they are equal |
| PromoBot.HandlePromo | bot.py:42-57 | without a space only the usage answer is given; with one, the effects are exactly the post of everything after the first space, followed by the success answer iff the send returned |
| PromoBot.LinkKeepsSpaces | bot.py:43-48 | further spaces belong to the link |
| PromoBot.EmptyLinkStillSent | bot.py:43-56 | `/promo ` posts a message whose button URL is `?` followed by the parameter block |
| FeedBot.ExchangeRate | bot_eeba.py:39-52 | the fetched rate, 5.00 after a failed request, and no rate when the body lacks one |
| FeedBot.SendMessage | bot_eeba.py:71-90 | a message is sent iff the token and chat id are set and the request succeeds |
| FeedBot.Filter | bot_eeba.py:130-138 | a row is kept iff it passes the test; the result is no longer than the input |
| FeedBot.FilterConcat | bot_eeba.py:130-138 | filtering works piece by piece, so row order is kept |
| FeedBot.NewOffers | bot_eeba.py:130-138 | a row is selected iff it has an id and a price, its price is numeric and at most 150.00 once converted, and its id is not in the ledger |
| FeedBot.NewOffersInOrder | bot_eeba.py:130-138 | the three stages equal one filter by the combined test, so the offers keep feed order and multiplicity |
| FeedBot.DuplicateIdsBothSelected | bot_eeba.py:120-138 | two qualifying rows with the same new id are both selected |
| FeedBot.SelectedWithinBudget | bot_eeba.py:134-138 | every selected row has a numeric price of at most 150.00 converted and an id not in the ledger |
| FeedBot.Lines | bot_eeba.py:61-62 | reading a file yields non-empty lines |
| FeedBot.LinesConcat | bot_eeba.py:61-62 | the lines put back together are the file's text |
| FeedBot.LinesCut | bot_eeba.py:61-62 | every line but the last ends in a newline, and no line holds a newline before its end |
| FeedBot.IdsOf | bot_eeba.py:62 | the set of stripped, non-blank lines; every id in it is non-empty and stripped (IdsOfConcat, IdsOfOne and LoadEncoded characterise it) |
| FeedBot.LinesAppend | bot_eeba.py:65-67 | text appended after a complete last line reads as new lines |
| FeedBot.LoadIds | bot_eeba.py:58-62 | a missing file loads as the empty set; every loaded id is non-empty and stripped |
| FeedBot.EncodeLines | bot_eeba.py:65-67 | the written text ends with a complete line |
| FeedBot.LoadEncoded | bot_eeba.py:58-67 | loading the written lines gives back the stripped, non-blank ids |
| FeedBot.LoadAfterAppend | bot_eeba.py:58-67 | after an append, the loaded ids are the earlier ones plus the appended ones |
| FeedBot.RecordedClean | bot_eeba.py:62 | clean ids load back as themselves |
| FeedBot.LedgerFile.Append | bot_eeba.py:64-67 | the intended save creates the file if needed and appends each id on its own line, in order, after the earlier content |
| FeedBot.LedgerFile.AppendAsWritten | bot_eeba.py:64-67 | the save as written creates the file if needed, writes nothing and raises |
| FeedBot.FormatOffer | bot_eeba.py:92-109 | the post shows the name, the dollar price, that price times the rate, the rate and the row's link |
| FeedBot.Formats | bot_eeba.py:147-148 | one post per offer, in order |
| FeedBot.Collected | bot_eeba.py:147-155 | at most one id per attempted offer |
| FeedBot.CollectedIff | bot_eeba.py:147-155 | an id is collected iff the send of an offer with that id returned true |
| FeedBot.SendOffers | bot_eeba.py:147-155 | the loop attempts every offer in order and collects exactly the ids of the delivered ones |
| FeedBot.Saved | bot_eeba.py:64-67 | the ledger after a save always exists and keeps its earlier text as a prefix; the save as written loads back the same ids as before |
| FeedBot.RunSpec | bot_eeba.py:111-165 | what one run does: never more ids collected than posts attempted, and a run that attempts nothing leaves the ledger as it was (IdleRun, RunAttemptsNewOffers, RunCollectsDelivered and LedgerWrittenOnlyOnSuccess state the rest) |
| FeedBot.CheckAndSendOffers | bot_eeba.py:111-165 | a run's posts, collected ids and ledger are those of `RunSpec` |
| FeedBot.IdleRun | bot_eeba.py:115-127 | without configuration, with the rate missing or with the feed failing, a run posts nothing and leaves the ledger alone |
| FeedBot.RunAttemptsNewOffers | bot_eeba.py:134-148 | a run attempts exactly the new offers in order, each post is at most 150.00, and with no new offer the ledger is untouched |
| FeedBot.RunCollectsDelivered | bot_eeba.py:147-155 | a run collects an id iff some offer with that id was delivered |
| FeedBot.LedgerWrittenOnlyOnSuccess | bot_eeba.py:140-159 | the ledger changes only if some id was collected, and then some send returned true |
| FeedBot.EmptyFileLoadsNothing | bot_eeba.py:58-65 | a file created empty loads like a missing one |
| FeedBot.AsWrittenLedgerUnchanged | bot_eeba.py:64-67 | as written, the ids loaded after any run are those loaded before it |
| FeedBot.AsWrittenResends | bot_eeba.py:64-67 | as written, the next run over the same feed attempts the same posts again |
| FeedBot.IntendedLedgerGrows | bot_eeba.py:157-159 | with the intended save, the ledger gains exactly the collected ids and loses none |
| FeedBot.NextRunOffers | bot_eeba.py:138-159 | with the intended save, the next run offers this run's offers less the delivered ids: delivered offers are not posted again and failed ones stay eligible |

## Left out

- Flask keep-alive endpoints and server start-up, the scheduler thread and its polling loop, the asyncio polling bootstrap and webhook deletion: runtime plumbing without logic of the bots.
- The `/start` reply of `bot_eneba.py` and the registration of handlers (`CommandHandler`, and the `startswith("/promo")` filter of `bot.py`): the library dispatches. Handler functions take the message text or the arguments as inputs.
- How the library builds `context.args` from the message: the arguments are an input sequence.
- Telegram API calls: each send is a boolean outcome (`sendOk`, `delivered(k)`). An exception from the send in `bot.py` appears as `sendOk == false`: no success answer follows.
- The exchange-rate HTTP request: its outcome is the input `RateFetch`.
- Fetching and decoding the CSV feed with pandas: the feed is a sequence of `Row` values with optional id and price. `astype(str)` turning a float id column into texts like `42.0` is not modelled: the id is the text pandas produces.
- Floating point: prices and rates are `real`, and there is no rounding, `:.2f` formatting or decimal-comma rendering of prices.
- EnebaBot.ValidateOffer: Python's `float()` on the cleaned price is the input function `toFloat`. It is a library parser, and the model only fixes the text it is given.
- The Markdown texts of replies and posts: replies are constructors and posts keep the values they show.
- Logging, printing, and reading environment variables: configuration values are inputs (`Env`, `Config`).
- FeedBot.Lines: universal-newline translation of `\r` and `\r\n` when reading the ledger is not modelled; lines end at `\n`.
- EnebaBot.StartupCheck: only ASCII `0`-`9` count as digits. Python's `isdigit` also accepts other Unicode digits, on which `int()` can fail.
- PyStr.Replace: requires a non-empty pattern. Python's empty-pattern behaviour is not needed here.
- FeedBot.LoadAfterAppend: requires the ledger's last line to be complete and the ids to be single-line. The save as written only creates the file and writes nothing (see Findings). The intended save writes complete lines only while the feed's ids hold no newline.
- FeedBot.IntendedLedgerGrows: requires feed ids that are single-line, stripped and non-blank, and a ledger whose text is empty or ends in a newline. A padded or blank feed id loads back stripped (or not at all), so it is not gained as written; and a hand-made ledger whose last line lacks its newline gets the first new id glued onto it: `17` followed by `42\n` reads back as `1742`, so `17` is lost.
- FeedBot.NextRunOffers: requires the same two conditions: single-line, stripped, non-blank feed ids, and a ledger that is empty or ends in a newline. A blank or padded id would load back differently and be posted again; a missing final newline merges the last recorded id with the first new one.

## Findings

| source | as written | input that shows it | evidently intended | confidence | as-written member | corrected member |
|---|---|---|---|---|---|---|
| bot_eeba.py:64-67 | `save_sent_ids` loops over `ids_enviados_nesta_execucao`, which is only a local of the run, instead of its parameter. It raises `NameError` after opening the ledger for appending, the catch-all at lines 164-165 swallows it, and no id is ever recorded | any run in which a send returns true, e.g. one row with id `1`, price 1.0, rate 5.0 and an empty ledger: every later run posts that offer again | append each id of the parameter on its own line, so delivered offers are not posted again | high; not executed | FeedBot.AsWrittenResends | FeedBot.NextRunOffers |
