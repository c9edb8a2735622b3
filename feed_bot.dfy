/**
 * The scheduled feed bot (bot_eeba.py): the exchange rate with its fallback,
 * the ledger file of ids already posted, the filters applied to the product
 * feed, the send loop that collects the ids of delivered offers, and the run
 * that ties them together.
 */
module FeedBot {
  import opened Wrappers
  import opened PyStr

  /** Offers whose converted price is above this many reais are not posted. */
  const MaxPriceBrl: real := 150.0
  /** The rate used when the exchange-rate request fails. */
  const FallbackRate: real := 5.0

  /** The two settings read from the environment. */
  datatype Config = Config(botToken: Option<string>, chatId: Option<string>)

  predicate Configured(cfg: Config) {
    Truthy(cfg.botToken) && Truthy(cfg.chatId)
  }

  /** What the exchange-rate service answered: a rate, a failed request, or a
      body without a BRL rate (a KeyError, which the fallback does not catch). */
  datatype RateFetch = RateFetched(rate: real) | RateRequestFailed | RateMissing

  /** `get_exchange_rate`: the fetched rate, the fallback after a failed request,
      and no rate at all (the error escapes) when the body lacks one. */
  function ExchangeRate(fetch: RateFetch): (r: Option<real>)
    ensures r.None? <==> fetch.RateMissing?
    ensures fetch.RateRequestFailed? ==> r == Some(FallbackRate)
    ensures fetch.RateFetched? ==> r == Some(fetch.rate)
  {
    match fetch
    case RateFetched(rate) => Some(rate)
    case RateRequestFailed => Some(FallbackRate)
    case RateMissing => None
  }

  /** `enviar_mensagem`: without a token and a chat id nothing is sent and the
      answer is false; otherwise the answer is whether the request went through. */
  function SendMessage(cfg: Config, transportOk: bool): (sent: bool)
    ensures sent <==> Configured(cfg) && transportOk
  {
    if !Configured(cfg) then false else transportOk
  }

  /** A price cell after numeric coercion: a number, or text coerced to NaN. */
  datatype Price = Numeric(usd: real) | NotNumeric

  /** A feed row: the id (as text) and the price may be missing. */
  datatype Row = Row(id: Option<string>, name: string, price: Option<Price>, url: string)

  /** What fetching and decoding the feed gave: its rows, or an error the run catches. */
  datatype FeedFetch = FeedRows(rows: seq<Row>) | FeedFailed

  /** The rows of `xs` that satisfy `p`, in their order. */
  function Filter<T(!new)>(xs: seq<T>, p: T -> bool): (r: seq<T>)
    ensures |r| <= |xs|
    ensures forall x :: x in r <==> x in xs && p(x)
  {
    if xs == [] then []
    else
      assert xs == [xs[0]] + xs[1..];
      (if p(xs[0]) then [xs[0]] else []) + Filter(xs[1..], p)
  }

  /** Filtering a concatenation filters each part, so the order of the rows is kept. */
  lemma {:induction false} FilterConcat<T(!new)>(a: seq<T>, b: seq<T>, p: T -> bool)
    ensures Filter(a + b, p) == Filter(a, p) + Filter(b, p)
  {
    if a == [] {
      assert a + b == b;
    } else {
      assert (a + b)[0] == a[0] && (a + b)[1..] == a[1..] + b;
      FilterConcat(a[1..], b, p);
    }
  }

  /** `dropna` on the id and price columns. */
  predicate HasIdAndPrice(row: Row) {
    row.id.Some? && row.price.Some?
  }

  /** The converted price is at most the threshold; NaN fails the comparison. */
  predicate WithinBudget(row: Row, rate: real) {
    row.price.Some? && row.price.value.Numeric? && row.price.value.usd * rate <= MaxPriceBrl
  }

  /** The id is not in the ledger loaded at the start of the run. */
  predicate Unsent(row: Row, ledger: set<string>) {
    row.id.Some? && row.id.value !in ledger
  }

  predicate Qualifies(row: Row, rate: real, ledger: set<string>) {
    HasIdAndPrice(row) && WithinBudget(row, rate) && Unsent(row, ledger)
  }

  /** The offer rows that reach the send loop carry an id and a numeric price. */
  predicate Postable(row: Row) {
    row.id.Some? && row.price.Some? && row.price.value.Numeric?
  }

  function BudgetTest(rate: real): Row -> bool {
    row => WithinBudget(row, rate)
  }

  function UnsentTest(ledger: set<string>): Row -> bool {
    row => Unsent(row, ledger)
  }

  function QualifiesTest(rate: real, ledger: set<string>): Row -> bool {
    row => Qualifies(row, rate, ledger)
  }

  /** The three filtering stages of the run, one after the other. */
  function NewOffers(rows: seq<Row>, rate: real, ledger: set<string>): (offers: seq<Row>)
    ensures forall row :: row in offers <==> row in rows && Qualifies(row, rate, ledger)
    ensures forall k | 0 <= k < |offers| :: Qualifies(offers[k], rate, ledger) && Postable(offers[k])
    ensures |offers| <= |rows|
  {
    var complete := Filter(rows, HasIdAndPrice);
    var affordable := Filter(complete, BudgetTest(rate));
    Filter(affordable, UnsentTest(ledger))
  }

  /** The stages together select exactly the qualifying rows, each as often and
      in the same order as in the feed. */
  lemma {:induction false} NewOffersInOrder(rows: seq<Row>, rate: real, ledger: set<string>)
    ensures NewOffers(rows, rate, ledger) == Filter(rows, QualifiesTest(rate, ledger))
  {
    if rows != [] {
      var budget, unsent := BudgetTest(rate), UnsentTest(ledger);
      var first := if HasIdAndPrice(rows[0]) then [rows[0]] else [];
      FilterConcat(first, Filter(rows[1..], HasIdAndPrice), budget);
      FilterConcat(Filter(first, budget), Filter(Filter(rows[1..], HasIdAndPrice), budget), unsent);
      assert Filter(Filter(first, budget), unsent)
          == if Qualifies(rows[0], rate, ledger) then [rows[0]] else [];
      NewOffersInOrder(rows[1..], rate, ledger);
    }
  }

  /** The ledger is only read at the start of the run, so a new id that appears
      twice in the feed is selected twice. */
  lemma DuplicateIdsBothSelected(a: Row, b: Row, rate: real, ledger: set<string>)
    requires a.id == b.id
    requires Qualifies(a, rate, ledger) && Qualifies(b, rate, ledger)
    ensures NewOffers([a, b], rate, ledger) == [a, b]
  {
    NewOffersInOrder([a, b], rate, ledger);
    var q := QualifiesTest(rate, ledger);
    assert [a, b][1..] == [b];
    assert Filter([b], q) == [b] by {
      assert [b][1..] == [];
    }
  }

  /** Every selected offer costs at most the threshold once converted, and its id
      is a fresh one. */
  lemma SelectedWithinBudget(rows: seq<Row>, rate: real, ledger: set<string>)
    ensures forall row | row in NewOffers(rows, rate, ledger) ::
      row.price == Some(Numeric(row.price.value.usd)) && row.price.value.usd * rate <= MaxPriceBrl
      && row.id.Some? && row.id.value !in ledger
  {
  }

  /** The text of a sequence of lines, in order. */
  function Concat(lines: seq<string>): string {
    if lines == [] then [] else lines[0] + Concat(lines[1..])
  }

  /** Iterating over a text file: each line keeps its `\n`; a last line without one is kept too. */
  function Lines(t: string): (lines: seq<string>)
    ensures forall k | 0 <= k < |lines| :: lines[k] != []
    decreases |t|
  {
    if t == [] then []
    else if '\n' !in t then [t]
    else
      var i := IndexOf(t, '\n');
      [t[..i + 1]] + Lines(t[i + 1..])
  }

  /** Lines end at each `\n`: only the last line may lack one, and none holds one before its end. */
  lemma {:induction false} LinesCut(t: string)
    ensures forall k | 0 <= k < |Lines(t)| :: '\n' !in Lines(t)[k][..|Lines(t)[k]| - 1]
    ensures forall k | 0 <= k < |Lines(t)| - 1 :: Lines(t)[k][|Lines(t)[k]| - 1] == '\n'
    decreases |t|
  {
    if t != [] && '\n' in t {
      var i := IndexOf(t, '\n');
      var head := t[..i + 1];
      LinesCut(t[i + 1..]);
      var rest := Lines(t[i + 1..]);
      var lines := [head] + rest;
      assert Lines(t) == lines;
      assert head[..|head| - 1] == t[..i];
      forall k | 0 <= k < |lines|
        ensures '\n' !in lines[k][..|lines[k]| - 1]
      {
        if k > 0 {
          assert lines[k] == rest[k - 1];
          assert '\n' !in rest[k - 1][..|rest[k - 1]| - 1];
        } else {
          assert lines[k] == head;
        }
      }
      forall k | 0 <= k < |lines| - 1
        ensures lines[k][|lines[k]| - 1] == '\n'
      {
        if k > 0 {
          assert lines[k] == rest[k - 1];
          assert rest[k - 1][|rest[k - 1]| - 1] == '\n';
        } else {
          assert lines[k] == head;
        }
      }
    } else if t != [] {
      assert Lines(t) == [t];
    }
  }

  /** Reading the lines back gives the whole text. */
  lemma {:induction false} LinesConcat(t: string)
    ensures Concat(Lines(t)) == t
    decreases |t|
  {
    if t != [] && '\n' in t {
      var i := IndexOf(t, '\n');
      LinesConcat(t[i + 1..]);
      assert ([t[..i + 1]] + Lines(t[i + 1..]))[1..] == Lines(t[i + 1..]);
      assert t == t[..i + 1] + t[i + 1..];
    }
  }

  /** A text whose last line is complete. */
  predicate EndsLine(t: string) {
    t == [] || t[|t| - 1] == '\n'
  }

  /** After a complete last line, the lines of what follows are new lines. */
  lemma {:induction false} LinesAppend(a: string, b: string)
    requires EndsLine(a)
    ensures Lines(a + b) == Lines(a) + Lines(b)
    decreases |a|
  {
    if a == [] {
      assert a + b == b;
    } else {
      assert a[|a| - 1] == '\n';
      var i := IndexOf(a, '\n');
      assert (a + b)[..i] == a[..i];
      IndexOfFirst(a + b, '\n', i);
      assert (a + b)[..i + 1] == a[..i + 1];
      assert (a + b)[i + 1..] == a[i + 1..] + b;
      LinesAppend(a[i + 1..], b);
    }
  }

  /** The ids the lines hold: each line stripped, blank lines skipped. */
  function IdsOf(lines: seq<string>): (ids: set<string>)
    ensures forall id | id in ids :: id != [] && IsStripped(id)
  {
    set line | line in lines && Strip(line) != [] :: Strip(line)
  }

  /** `load_sent_ids`: the set of stripped non-blank lines, and the empty set when
      the file does not exist (`None`). */
  function LoadIds(file: Option<string>): (ids: set<string>)
    ensures file.None? ==> ids == {}
    ensures forall id | id in ids :: id != [] && IsStripped(id)
  {
    if file.None? then {} else IdsOf(Lines(file.value))
  }

  /** The lines `save_sent_ids` means to write: each id followed by `\n`. */
  function EncodeLines(ids: seq<string>): (t: string)
    ensures EndsLine(t)
  {
    if ids == [] then [] else EncodeLines(ids[..|ids| - 1]) + ids[|ids| - 1] + "\n"
  }

  /** The ids of a sequence, as loading reads them back: stripped, blanks dropped. */
  function Recorded(ids: seq<string>): set<string> {
    set id | id in ids && Strip(id) != [] :: Strip(id)
  }

  /** The ids one id holds once written as a line and loaded back. */
  function OneId(id: string): set<string> {
    if Strip(id) != [] then {Strip(id)} else {}
  }

  lemma IdsOfConcat(a: seq<string>, b: seq<string>)
    ensures IdsOf(a + b) == IdsOf(a) + IdsOf(b)
  {
    assert forall line :: line in a + b <==> line in a || line in b;
  }

  lemma RecordedLast(ids: seq<string>)
    requires ids != []
    ensures Recorded(ids) == Recorded(ids[..|ids| - 1]) + OneId(ids[|ids| - 1])
  {
    var init := ids[..|ids| - 1];
    assert forall id :: id in ids <==> id in init || id == ids[|ids| - 1] by {
      forall id | id in ids ensures id in init || id == ids[|ids| - 1] {
        var k :| 0 <= k < |ids| && ids[k] == id;
        if k < |ids| - 1 {
          assert init[k] == id;
        }
      }
    }
  }

  /** A line with its only newline at the end is read as one line. */
  lemma SingleLine(id: string)
    requires '\n' !in id
    ensures Lines(id + "\n") == [id + "\n"]
  {
    var line := id + "\n";
    assert line[|id|] == '\n' && line[..|id|] == id;
    IndexOfFirst(line, '\n', |id|);
    assert line[..|id| + 1] == line;
  }

  /** A written id comes back as one line holding it. */
  lemma LineOfId(id: string)
    requires '\n' !in id
    ensures IdsOf(Lines(id + "\n")) == OneId(id)
  {
    SingleLine(id);
    StripIgnoresTrailingSpace(id, "\n");
    IdsOfOne(id + "\n");
  }

  lemma IdsOfOne(line: string)
    ensures IdsOf([line]) == if Strip(line) != [] then {Strip(line)} else {}
  {
    assert forall l :: l in [line] <==> l == line;
  }

  /** Loading what was written gives the ids back, stripped. */
  lemma {:induction false} LoadEncoded(ids: seq<string>)
    requires forall k | 0 <= k < |ids| :: '\n' !in ids[k]
    ensures IdsOf(Lines(EncodeLines(ids))) == Recorded(ids)
  {
    if ids == [] {
      assert Recorded(ids) == {};
    } else {
      var init, last := ids[..|ids| - 1], ids[|ids| - 1];
      LoadEncoded(init);
      assert EncodeLines(ids) == EncodeLines(init) + (last + "\n");
      LinesAppend(EncodeLines(init), last + "\n");
      IdsOfConcat(Lines(EncodeLines(init)), Lines(last + "\n"));
      LineOfId(last);
      RecordedLast(ids);
    }
  }

  /** Appending complete lines to a ledger whose last line is complete adds
      exactly the written ids and loses none. */
  lemma LoadAfterAppend(before: string, ids: seq<string>)
    requires EndsLine(before)
    requires forall k | 0 <= k < |ids| :: '\n' !in ids[k]
    ensures LoadIds(Some(before + EncodeLines(ids))) == LoadIds(Some(before)) + Recorded(ids)
  {
    LinesAppend(before, EncodeLines(ids));
    LoadEncoded(ids);
  }

  /** The text of a file, empty when it does not exist. */
  function TextOf(file: Option<string>): string {
    if file.Some? then file.value else []
  }

  /** The ledger file `sent_offers_ids.txt`; `None` while it does not exist. */
  class LedgerFile {
    var content: Option<string>

    constructor(initial: Option<string>)
      ensures content == initial
    {
      content := initial;
    }

    function Text(): string
      reads this
    {
      TextOf(content)
    }

    /** `save_sent_ids` as intended: open for appending (creating the file) and
        write each id on its own line, in order. */
    method Append(ids: seq<string>)
      modifies this
      ensures content == Some(old(Text()) + EncodeLines(ids))
    {
      var before := Text();
      content := Some(before);
      assert before + EncodeLines(ids[..0]) == before;
      for k := 0 to |ids|
        invariant content == Some(before + EncodeLines(ids[..k]))
      {
        var written := ids[..k + 1];
        assert written[..k] == ids[..k] && written[k] == ids[k];
        assert EncodeLines(written) == EncodeLines(ids[..k]) + ids[k] + "\n";
        content := Some(content.value + ids[k] + "\n");
        assert content.value == before + (EncodeLines(ids[..k]) + ids[k] + "\n");
      }
      assert ids[..|ids|] == ids;
    }

    /** `save_sent_ids` as written: opening for appending creates the file, then
        the loop names a variable that does not exist, so it raises before
        writing anything. */
    method AppendAsWritten(ids: seq<string>) returns (raised: bool)
      modifies this
      ensures content == Some(old(Text()))
      ensures raised
    {
      content := Some(Text());
      raised := true;
    }
  }

  /** An offer as posted: the product, its price in dollars and in reais, the rate and the link. */
  datatype FeedPost = FeedPost(name: string, priceUsd: real, priceBrl: real, rate: real, link: string)

  /** `formatar_oferta`: the Markdown text is left out; the post keeps the values it shows. */
  function FormatOffer(row: Row, rate: real): (post: FeedPost)
    requires Postable(row)
    ensures post.priceBrl == post.priceUsd * rate && post.rate == rate
    ensures post.priceUsd == row.price.value.usd && post.name == row.name && post.link == row.url
  {
    var usd := row.price.value.usd;
    FeedPost(row.name, usd, usd * rate, rate, row.url)
  }

  /** The posts for the first `n` offers, in order. */
  function Formats(offers: seq<Row>, rate: real, n: nat): (posts: seq<FeedPost>)
    requires n <= |offers| && forall k | 0 <= k < |offers| :: Postable(offers[k])
    ensures |posts| == n
    ensures forall k | 0 <= k < n :: posts[k] == FormatOffer(offers[k], rate)
  {
    if n == 0 then [] else Formats(offers, rate, n - 1) + [FormatOffer(offers[n - 1], rate)]
  }

  /** The ids of the first `n` offers whose send returned true, in order; attempt
      `k` went through when `delivered(k)`. */
  function Collected(cfg: Config, offers: seq<Row>, delivered: nat -> bool, n: nat): (ids: seq<string>)
    requires n <= |offers| && forall k | 0 <= k < |offers| :: Postable(offers[k])
    ensures |ids| <= n
  {
    if n == 0 then []
    else
      var ids := Collected(cfg, offers, delivered, n - 1);
      if SendMessage(cfg, delivered(n - 1)) then ids + [offers[n - 1].id.value] else ids
  }

  /** An id is collected exactly when the send of some offer with that id returned true. */
  lemma {:induction false} CollectedIff(cfg: Config, offers: seq<Row>, delivered: nat -> bool, n: nat, id: string)
    requires n <= |offers| && forall k | 0 <= k < |offers| :: Postable(offers[k])
    ensures id in Collected(cfg, offers, delivered, n) <==>
      exists k | 0 <= k < n :: SendMessage(cfg, delivered(k)) && offers[k].id == Some(id)
  {
    if n > 0 {
      CollectedIff(cfg, offers, delivered, n - 1, id);
    }
  }

  /** The send loop of the run: format each offer, send it, and collect the ids of
      the offers whose send returned true. */
  method SendOffers(cfg: Config, offers: seq<Row>, rate: real, delivered: nat -> bool)
    returns (attempts: seq<FeedPost>, collected: seq<string>)
    requires forall k | 0 <= k < |offers| :: Postable(offers[k])
    ensures attempts == Formats(offers, rate, |offers|)
    ensures collected == Collected(cfg, offers, delivered, |offers|)
  {
    attempts, collected := [], [];
    for k := 0 to |offers|
      invariant attempts == Formats(offers, rate, k)
      invariant collected == Collected(cfg, offers, delivered, k)
    {
      var post := FormatOffer(offers[k], rate);
      attempts := attempts + [post];
      if SendMessage(cfg, delivered(k)) {
        collected := collected + [offers[k].id.value];
      }
    }
  }

  /** What one run did: the posts it attempted, the ids it collected, and the ledger file after it. */
  datatype Run = Run(attempts: seq<FeedPost>, collected: seq<string>, ledger: Option<string>)

  /** The ledger after the save step: created if missing; as written, nothing more. */
  function Saved(ledger: Option<string>, ids: seq<string>, asWritten: bool): (saved: Option<string>)
    ensures saved.Some? && TextOf(ledger) <= saved.value
    ensures asWritten ==> LoadIds(saved) == LoadIds(ledger)
  {
    if asWritten then Some(TextOf(ledger)) else Some(TextOf(ledger) + EncodeLines(ids))
  }

  /** `verificar_e_enviar_ofertas`, step by step: the configuration guard, the rate
      (a missing BRL rate escapes and ends the run), the ledger loaded once, the
      feed (whose errors are caught), the filters, the early return when nothing is
      new, the send loop, and the save when at least one id was collected. */
  function RunSpec(cfg: Config, fetch: RateFetch, feed: FeedFetch, ledger: Option<string>,
                   delivered: nat -> bool, asWritten: bool): (run: Run)
    ensures |run.collected| <= |run.attempts|
    ensures run.attempts == [] ==> run.ledger == ledger
  {
    var rate := ExchangeRate(fetch);
    if !Configured(cfg) || rate.None? || feed.FeedFailed? then Run([], [], ledger)
    else
      var offers := NewOffers(feed.rows, rate.value, LoadIds(ledger));
      if offers == [] then Run([], [], ledger)
      else
        var ids := Collected(cfg, offers, delivered, |offers|);
        Run(Formats(offers, rate.value, |offers|), ids, if ids == [] then ledger else Saved(ledger, ids, asWritten))
  }

  /** One scheduled run against the ledger file; the Telegram sends are the oracle `delivered`. */
  method CheckAndSendOffers(cfg: Config, fetch: RateFetch, feed: FeedFetch, ledger: LedgerFile,
                            delivered: nat -> bool, asWritten: bool)
    returns (attempts: seq<FeedPost>, collected: seq<string>)
    modifies ledger
    ensures Run(attempts, collected, ledger.content) == RunSpec(cfg, fetch, feed, old(ledger.content), delivered, asWritten)
  {
    attempts, collected := [], [];
    if !Configured(cfg) {
      return;
    }
    var rate := ExchangeRate(fetch);
    if rate.None? {
      return;
    }
    var sentIds := LoadIds(ledger.content);
    match feed
    case FeedFailed =>
      return;
    case FeedRows(rows) =>
      var offers := NewOffers(rows, rate.value, sentIds);
      if offers == [] {
        return;
      }
      attempts, collected := SendOffers(cfg, offers, rate.value, delivered);
      if collected != [] {
        if asWritten {
          var _ := ledger.AppendAsWritten(collected);
        } else {
          ledger.Append(collected);
        }
      }
  }

  /** Without a token and a chat id, or without a rate, or without a feed, a run posts
      nothing and leaves the ledger alone. */
  lemma {:induction false} IdleRun(cfg: Config, fetch: RateFetch, feed: FeedFetch, ledger: Option<string>,
                                   delivered: nat -> bool, asWritten: bool)
    requires !Configured(cfg) || fetch.RateMissing? || feed.FeedFailed?
    ensures RunSpec(cfg, fetch, feed, ledger, delivered, asWritten) == Run([], [], ledger)
  {
    assert fetch.RateMissing? ==> ExchangeRate(fetch).None?;
  }

  /** A run attempts exactly the new offers, in feed order; each attempted post costs
      at most the threshold once converted; with no new offer nothing is sent and the
      ledger is left alone. */
  lemma RunAttemptsNewOffers(cfg: Config, fetch: RateFetch, rows: seq<Row>, ledger: Option<string>,
                             delivered: nat -> bool, asWritten: bool)
    requires Configured(cfg) && !fetch.RateMissing?
    ensures var rate := ExchangeRate(fetch).value;
      var offers := NewOffers(rows, rate, LoadIds(ledger));
      var run := RunSpec(cfg, fetch, FeedRows(rows), ledger, delivered, asWritten);
      && |run.attempts| == |offers|
      && (forall k | 0 <= k < |offers| :: run.attempts[k] == FormatOffer(offers[k], rate))
      && (forall k | 0 <= k < |offers| :: run.attempts[k].priceBrl <= MaxPriceBrl)
      && (offers == [] ==> run.ledger == ledger)
  {
  }

  /** The ids a run collects are those of offers whose send returned true. */
  lemma RunCollectsDelivered(cfg: Config, fetch: RateFetch, rows: seq<Row>, ledger: Option<string>,
                             delivered: nat -> bool, asWritten: bool, id: string)
    requires Configured(cfg) && !fetch.RateMissing?
    ensures var offers := NewOffers(rows, ExchangeRate(fetch).value, LoadIds(ledger));
      var run := RunSpec(cfg, fetch, FeedRows(rows), ledger, delivered, asWritten);
      id in run.collected <==> exists k | 0 <= k < |offers| :: delivered(k) && offers[k].id == Some(id)
  {
    var offers := NewOffers(rows, ExchangeRate(fetch).value, LoadIds(ledger));
    CollectedIff(cfg, offers, delivered, |offers|, id);
  }

  /** The ledger changes only when at least one send returned true. */
  lemma LedgerWrittenOnlyOnSuccess(cfg: Config, fetch: RateFetch, feed: FeedFetch, ledger: Option<string>,
                                   delivered: nat -> bool, asWritten: bool)
    ensures var run := RunSpec(cfg, fetch, feed, ledger, delivered, asWritten);
      run.ledger != ledger ==> run.collected != [] && exists k | 0 <= k < |run.attempts| :: delivered(k)
  {
    var run := RunSpec(cfg, fetch, feed, ledger, delivered, asWritten);
    if run.ledger != ledger {
      var rate := ExchangeRate(fetch).value;
      var offers := NewOffers(feed.rows, rate, LoadIds(ledger));
      var id := run.collected[0];
      CollectedIff(cfg, offers, delivered, |offers|, id);
    }
  }

  /** A file created empty loads like a missing one. */
  lemma EmptyFileLoadsNothing()
    ensures LoadIds(Some([])) == LoadIds(None) == {}
  {
    assert Lines([]) == [];
  }

  /** As written, the save step never records an id: the ids loaded after a run are
      those loaded before it. */
  lemma AsWrittenLedgerUnchanged(cfg: Config, fetch: RateFetch, feed: FeedFetch, ledger: Option<string>,
                                 delivered: nat -> bool)
    ensures LoadIds(RunSpec(cfg, fetch, feed, ledger, delivered, true).ledger) == LoadIds(ledger)
  {
    EmptyFileLoadsNothing();
  }

  /** So, as written, the next run over the same feed attempts every offer again,
      including those already delivered. */
  lemma AsWrittenResends(cfg: Config, fetch: RateFetch, feed: FeedFetch, ledger: Option<string>,
                         delivered: nat -> bool)
    ensures var first := RunSpec(cfg, fetch, feed, ledger, delivered, true);
      RunSpec(cfg, fetch, feed, first.ledger, delivered, true).attempts == first.attempts
  {
    AsWrittenLedgerUnchanged(cfg, fetch, feed, ledger, delivered);
  }

  /** An id as the feed should give it: one line, stripped, not blank. */
  predicate CleanId(id: string) {
    '\n' !in id && IsStripped(id) && id != []
  }

  predicate CleanIds(rows: seq<Row>) {
    forall k | 0 <= k < |rows| && rows[k].id.Some? :: CleanId(rows[k].id.value)
  }

  lemma OffersClean(rows: seq<Row>, rate: real, ledger: set<string>)
    requires CleanIds(rows)
    ensures var offers := NewOffers(rows, rate, ledger);
      forall k | 0 <= k < |offers| :: CleanId(offers[k].id.value)
  {
    var offers := NewOffers(rows, rate, ledger);
    forall k | 0 <= k < |offers|
      ensures CleanId(offers[k].id.value)
    {
      assert offers[k] in rows;
    }
  }

  lemma {:induction false} CollectedClean(cfg: Config, offers: seq<Row>, delivered: nat -> bool, n: nat)
    requires n <= |offers| && forall k | 0 <= k < |offers| :: Postable(offers[k]) && CleanId(offers[k].id.value)
    ensures forall j | 0 <= j < |Collected(cfg, offers, delivered, n)| :: CleanId(Collected(cfg, offers, delivered, n)[j])
  {
    if n > 0 {
      CollectedClean(cfg, offers, delivered, n - 1);
    }
  }

  /** Clean ids load back as themselves. */
  lemma RecordedClean(ids: seq<string>)
    requires forall j | 0 <= j < |ids| :: CleanId(ids[j])
    ensures Recorded(ids) == set id | id in ids
  {
    forall id | id in ids
      ensures Strip(id) == id
    {
      StripUnique([], id, []);
      assert [] + id + [] == id;
    }
  }

  /** With the intended save and clean feed ids, a run adds exactly the collected
      ids to the ledger and drops none of the ids it held. */
  lemma IntendedLedgerGrows(cfg: Config, fetch: RateFetch, rows: seq<Row>, ledger: Option<string>,
                            delivered: nat -> bool)
    requires EndsLine(TextOf(ledger)) && CleanIds(rows)
    ensures var run := RunSpec(cfg, fetch, FeedRows(rows), ledger, delivered, false);
      LoadIds(run.ledger) == LoadIds(ledger) + set id | id in run.collected
  {
    var run := RunSpec(cfg, fetch, FeedRows(rows), ledger, delivered, false);
    if !Configured(cfg) || fetch.RateMissing? {
      IdleRun(cfg, fetch, FeedRows(rows), ledger, delivered, false);
    } else {
      var rate := ExchangeRate(fetch).value;
      var offers := NewOffers(rows, rate, LoadIds(ledger));
      var ids := Collected(cfg, offers, delivered, |offers|);
      assert run.collected == ids;
      OffersClean(rows, rate, LoadIds(ledger));
      CollectedClean(cfg, offers, delivered, |offers|);
      RecordedClean(ids);
      if ids != [] {
        assert run.ledger == Some(TextOf(ledger) + EncodeLines(ids));
        LoadAfterAppend(TextOf(ledger), ids);
        EmptyFileLoadsNothing();
      }
    }
  }

  /** With the intended save, the next run over the same feed offers exactly what this
      run offered, less the ids whose send returned true: delivered offers are not
      posted again and failed ones stay eligible. */
  lemma NextRunOffers(cfg: Config, fetch: RateFetch, rows: seq<Row>, ledger: Option<string>,
                      delivered: nat -> bool, row: Row)
    requires !fetch.RateMissing?
    requires EndsLine(TextOf(ledger)) && CleanIds(rows)
    ensures var rate := ExchangeRate(fetch).value;
      var run := RunSpec(cfg, fetch, FeedRows(rows), ledger, delivered, false);
      row in NewOffers(rows, rate, LoadIds(run.ledger)) <==>
        row in NewOffers(rows, rate, LoadIds(ledger)) && row.id.value !in run.collected
  {
    IntendedLedgerGrows(cfg, fetch, rows, ledger, delivered);
  }
}
