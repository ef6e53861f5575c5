// The quote fallback chain and the last-good cache behind it, on the in-memory
// store. What the live sources answer is an input of each call.
module QuoteAdapter {
  import opened Common

  datatype Quote = Quote(
    code: string, market: Market, price: real, open: real, high: real, low: real, volume: int,
    amount: real, bid: real, ask: real, change: real, changePct: real, timestamp: int,
    source: string, isStale: bool)

  /** What the store holds: every field but the stale flag. */
  datatype Payload = Payload(
    code: string, market: Market, price: real, open: real, high: real, low: real, volume: int,
    amount: real, bid: real, ask: real, change: real, changePct: real, timestamp: int, source: string)

  function Serialize(q: Quote): Payload {
    Payload(q.code, q.market, q.price, q.open, q.high, q.low, q.volume, q.amount, q.bid, q.ask,
            q.change, q.changePct, q.timestamp, q.source)
  }

  function Deserialize(p: Payload, isStale: bool): Quote {
    Quote(p.code, p.market, p.price, p.open, p.high, p.low, p.volume, p.amount, p.bid, p.ask,
          p.change, p.changePct, p.timestamp, p.source, isStale)
  }

  function MarketText(m: Market): string {
    if m.TW? then "TW" else "US"
  }

  /** `_cache_key`. */
  function CacheKey(m: Market, code: string): string {
    "atlas:quote:" + MarketText(m) + ":" + code
  }

  /** Two entries share a key only if market and code agree. */
  lemma CacheKeyInjective(m: Market, code: string, m': Market, code': string)
    requires CacheKey(m, code) == CacheKey(m', code')
    ensures m == m' && code == code'
  {
    var k, k' := CacheKey(m, code), CacheKey(m', code');
    assert k[12] == MarketText(m)[0] && k'[12] == MarketText(m')[0];
    assert k[15..] == code && k'[15..] == code';
  }

  type Store = map<string, Payload>

  /** A live source answers a quote or raises; a zero price is refused like a failure. */
  predicate Accepted(answer: Option<Quote>) {
    answer.Some? && answer.value.price != 0.0
  }

  /** The first accepted answer of the chain. */
  function FirstAccepted(answers: seq<Option<Quote>>): Option<Quote> {
    if answers == [] then None
    else if Accepted(answers[0]) then answers[0]
    else FirstAccepted(answers[1..])
  }

  /** The cache source: a stale copy of the entry, if there is one. */
  function CacheAnswer(store: Store, m: Market, code: string): Option<Quote> {
    if CacheKey(m, code) in store then Some(Deserialize(store[CacheKey(m, code)], true)) else None
  }

  function Write(store: Store, m: Market, q: Quote): Store {
    store[CacheKey(m, q.code) := Serialize(q)]
  }

  // ---------------------------------------------------------------- batches

  /** Results so far, and the store they were written through to. */
  datatype Batch = Batch(results: map<string, Quote>, remaining: set<string>, store: Store)

  /** One quote of a live source's answer. */
  function Collect(b: Batch, m: Market, q: Quote): Batch {
    Batch(b.results[q.code := q], b.remaining - {q.code}, Write(b.store, m, q))
  }

  function CollectAll(b: Batch, m: Market, qs: seq<Quote>): Batch {
    if qs == [] then b else Collect(CollectAll(b, m, qs[..|qs| - 1]), m, qs[|qs| - 1])
  }

  /** One live source of the chain; None is a source that raised. */
  function AskSource(b: Batch, m: Market, answer: Option<seq<Quote>>): Batch {
    if b.remaining == {} || answer.None? then b else CollectAll(b, m, answer.value)
  }

  function AskSources(b: Batch, m: Market, answers: seq<Option<seq<Quote>>>): Batch {
    if answers == [] then b
    else AskSource(AskSources(b, m, answers[..|answers| - 1]), m, answers[|answers| - 1])
  }

  /** The remaining codes the cache knows. */
  function Hits(b: Batch, m: Market): set<string> {
    set c | c in b.remaining && CacheKey(m, c) in b.store
  }

  function Cached(b: Batch, m: Market): (r: map<string, Quote>)
    ensures r.Keys == Hits(b, m)
  {
    map c | c in Hits(b, m) :: Deserialize(b.store[CacheKey(m, c)], true)
  }

  /** The cache source answers those; its quotes are not written back. */
  function AskCache(b: Batch, m: Market): Batch {
    Batch(b.results + Cached(b, m), b.remaining - Hits(b, m), b.store)
  }

  function Requested(codes: seq<string>): set<string> {
    set c | c in codes
  }

  function Gather(store: Store, m: Market, codes: seq<string>, answers: seq<Option<seq<Quote>>>): Batch {
    AskCache(AskSources(Batch(map[], Requested(codes), store), m, answers), m)
  }

  /** The answered codes of the input, duplicates and order kept. */
  function InOrder(codes: seq<string>, results: map<string, Quote>): seq<Quote> {
    if codes == [] then []
    else
      var init, c := InOrder(codes[..|codes| - 1], results), codes[|codes| - 1];
      if c in results then init + [results[c]] else init
  }

  // ---------------------------------------------------------------- the merge

  /** Whatever the sources answer, `remaining` is the requested codes less the answered ones. */
  ghost predicate Accounted(b: Batch, requested: set<string>) {
    && b.remaining == requested - b.results.Keys
    && forall c <- b.results :: b.results[c].code == c
  }

  lemma {:induction false} CollectAccounts(b: Batch, m: Market, qs: seq<Quote>, requested: set<string>)
    requires Accounted(b, requested)
    ensures Accounted(CollectAll(b, m, qs), requested)
  {
    if qs != [] {
      CollectAccounts(b, m, qs[..|qs| - 1], requested);
    }
  }

  lemma {:induction false} SourcesAccount(
      b: Batch, m: Market, answers: seq<Option<seq<Quote>>>, requested: set<string>)
    requires Accounted(b, requested)
    ensures Accounted(AskSources(b, m, answers), requested)
  {
    if answers != [] {
      var init, last := AskSources(b, m, answers[..|answers| - 1]), answers[|answers| - 1];
      SourcesAccount(b, m, answers[..|answers| - 1], requested);
      if init.remaining != {} && last.Some? {
        CollectAccounts(init, m, last.value, requested);
      }
    }
  }

  /** The store's entries carry the code they are kept under. */
  ghost predicate StoreKeyed(store: Store) {
    forall m: Market, c: string :: CacheKey(m, c) in store ==> store[CacheKey(m, c)].code == c
  }

  lemma WriteKeyed(store: Store, m: Market, q: Quote)
    requires StoreKeyed(store)
    ensures StoreKeyed(Write(store, m, q))
  {
    forall m': Market, c: string | CacheKey(m', c) in Write(store, m, q)
      ensures Write(store, m, q)[CacheKey(m', c)].code == c
    {
      if CacheKey(m', c) == CacheKey(m, q.code) {
        CacheKeyInjective(m', c, m, q.code);
      }
    }
  }

  lemma {:induction false} CollectKeyed(b: Batch, m: Market, qs: seq<Quote>)
    requires StoreKeyed(b.store)
    ensures StoreKeyed(CollectAll(b, m, qs).store)
  {
    if qs != [] {
      CollectKeyed(b, m, qs[..|qs| - 1]);
      WriteKeyed(CollectAll(b, m, qs[..|qs| - 1]).store, m, qs[|qs| - 1]);
    }
  }

  lemma {:induction false} SourcesKeyed(b: Batch, m: Market, answers: seq<Option<seq<Quote>>>)
    requires StoreKeyed(b.store)
    ensures StoreKeyed(AskSources(b, m, answers).store)
  {
    if answers != [] {
      var init, last := AskSources(b, m, answers[..|answers| - 1]), answers[|answers| - 1];
      SourcesKeyed(b, m, answers[..|answers| - 1]);
      if init.remaining != {} && last.Some? {
        CollectKeyed(init, m, last.value);
      }
    }
  }

  lemma GatherAccounts(store: Store, m: Market, codes: seq<string>, answers: seq<Option<seq<Quote>>>)
    requires StoreKeyed(store)
    ensures Accounted(Gather(store, m, codes, answers), Requested(codes))
  {
    var b := Batch(map[], Requested(codes), store);
    SourcesAccount(b, m, answers, Requested(codes));
    SourcesKeyed(b, m, answers);
  }

  /** The last quote for `c` in one source's answer. */
  function QuoteIn(qs: seq<Quote>, c: string): (r: Option<Quote>)
    ensures r.None? <==> forall q <- qs :: q.code != c
  {
    if qs == [] then None
    else if qs[|qs| - 1].code == c then Some(qs[|qs| - 1])
    else QuoteIn(qs[..|qs| - 1], c)
  }

  /** What the first source of the chain to supply `c` said about it. */
  function FirstSupplied(answers: seq<Option<seq<Quote>>>, c: string): Option<Quote> {
    if answers == [] then None
    else
      var init, last := FirstSupplied(answers[..|answers| - 1], c), answers[|answers| - 1];
      if init.Some? then init else if last.Some? then QuoteIn(last.value, c) else None
  }

  /**
   * Every source from the `from`-th on that is asked answers only codes it was
   * asked for.
   */
  ghost predicate AnswersAsked(b: Batch, m: Market, answers: seq<Option<seq<Quote>>>, from: nat) {
    answers != [] ==>
      var init, last := answers[..|answers| - 1], answers[|answers| - 1];
      var before := AskSources(b, m, init);
      && AnswersAsked(b, m, init, from)
      && (|init| >= from && before.remaining != {} && last.Some? ==> forall q <- last.value :: q.code in before.remaining)
  }

  /** No source asked after the first supplier of `c` answers `c` differently. */
  ghost predicate Unchallenged(b: Batch, m: Market, answers: seq<Option<seq<Quote>>>, c: string) {
    answers != [] ==>
      var init, last := answers[..|answers| - 1], answers[|answers| - 1];
      && Unchallenged(b, m, init, c)
      && (FirstSupplied(init, c).Some? && AskSources(b, m, init).remaining != {} && last.Some? ==>
            QuoteIn(last.value, c).None? || QuoteIn(last.value, c) == FirstSupplied(init, c))
  }

  /** The two batches hold the same result and the same entry for `c`. */
  ghost predicate SameFor(b: Batch, b': Batch, m: Market, c: string) {
    && (c in b'.results <==> c in b.results) && (c in b.results ==> b'.results[c] == b.results[c])
    && (CacheKey(m, c) in b'.store <==> CacheKey(m, c) in b.store)
    && (CacheKey(m, c) in b.store ==> b'.store[CacheKey(m, c)] == b.store[CacheKey(m, c)])
  }

  lemma {:induction false} CollectLookup(b: Batch, m: Market, qs: seq<Quote>, c: string)
    ensures var r, q := CollectAll(b, m, qs), QuoteIn(qs, c);
      if q.Some? then c in r.results && r.results[c] == q.value else SameFor(b, r, m, c)
  {
    if qs != [] {
      var last := qs[|qs| - 1];
      CollectLookup(b, m, qs[..|qs| - 1], c);
      if last.code != c && CacheKey(m, last.code) == CacheKey(m, c) {
        CacheKeyInjective(m, last.code, m, c);
      }
    }
  }

  /** What the whole chain makes of one code: the first live supplier, else the cache. */
  function Merged(store: Store, m: Market, answers: seq<Option<seq<Quote>>>, c: string): Option<Quote> {
    var live := FirstSupplied(answers, c);
    if live.Some? then live else CacheAnswer(store, m, c)
  }

  /** The cache answers last: it adds what it knows and disturbs nothing. */
  lemma CacheLookup(b: Batch, m: Market, c: string, requested: set<string>)
    requires Accounted(b, requested) && c in requested
    ensures var r := AskCache(b, m);
      && (c in b.results ==> c in r.results && r.results[c] == b.results[c])
      && (c !in b.results ==> (c in r.results <==> CacheAnswer(b.store, m, c).Some?))
      && (c !in b.results && c in r.results ==> r.results[c] == CacheAnswer(b.store, m, c).value)
  {
    assert c in b.remaining <==> c !in b.results;
  }

  /** The last word of the asked sources on `c`. */
  function LastWord(store: Store, m: Market, codes: seq<string>, answers: seq<Option<seq<Quote>>>, c: string): Option<Quote> {
    Latest(AcceptedInBatch(Batch(map[], Requested(codes), store), m, answers), m, c)
  }

  /** What the last source of the chain adds to the word on `c`. */
  lemma WordStep(b: Batch, m: Market, answers: seq<Option<seq<Quote>>>, c: string)
    requires answers != []
    ensures var init, last := answers[..|answers| - 1], answers[|answers| - 1];
      var word := Latest(AcceptedInBatch(b, m, init), m, c);
      Latest(AcceptedInBatch(b, m, answers), m, c)
        == if AskSources(b, m, init).remaining != {} && last.Some? && QuoteIn(last.value, c).Some?
           then QuoteIn(last.value, c) else word
  {
    var init, last := answers[..|answers| - 1], answers[|answers| - 1];
    var sofar := AcceptedInBatch(b, m, init);
    if AskSources(b, m, init).remaining != {} && last.Some? {
      LatestInTag(sofar, m, last.value, c);
    } else {
      assert AcceptedInBatch(b, m, answers) == sofar;
    }
  }

  /** A requested code is still asked for exactly while no asked source has answered it. */
  lemma StillAsked(b: Batch, m: Market, answers: seq<Option<seq<Quote>>>, requested: set<string>, c: string)
    requires Accounted(b, requested) && b.results == map[] && c in requested
    ensures c in AskSources(b, m, answers).remaining <==> Latest(AcceptedInBatch(b, m, answers), m, c).None?
  {
    BatchKeepsLastAnswer(b, m, answers, c);
    SourcesAccount(b, m, answers, requested);
  }

  /** A requested code that some source supplies is asked of it, so the asked sources have a word on it too. */
  lemma {:induction false} SuppliedIsAccepted(
      b: Batch, m: Market, answers: seq<Option<seq<Quote>>>, requested: set<string>, c: string)
    requires Accounted(b, requested) && b.results == map[] && c in requested
    ensures FirstSupplied(answers, c).Some? <==> Latest(AcceptedInBatch(b, m, answers), m, c).Some?
  {
    if answers != [] {
      var init := answers[..|answers| - 1];
      SuppliedIsAccepted(b, m, init, requested, c);
      StillAsked(b, m, init, requested, c);
      WordStep(b, m, answers, c);
    }
  }

  /**
   * Prioritised merge, whatever the sources answer: a requested code is answered
   * exactly when some live source supplies it or the cache knows it, and its
   * quote is that of the first supplier, or else the cache's, exactly when the
   * last word of the asked sources on it is the first supplier's.
   */
  lemma BatchIsPrioritisedMerge(
      store: Store, m: Market, codes: seq<string>, answers: seq<Option<seq<Quote>>>, c: string)
    requires c in codes
    ensures var results, merged := Gather(store, m, codes, answers).results, Merged(store, m, answers, c);
      && (c in results <==> merged.Some?)
      && (c in results ==>
            (results[c] == merged.value <==> LastWord(store, m, codes, answers, c) == FirstSupplied(answers, c)))
  {
    var b := Batch(map[], Requested(codes), store);
    SourcesAccount(b, m, answers, Requested(codes));
    BatchKeepsLastAnswer(b, m, answers, c);
    SuppliedIsAccepted(b, m, answers, Requested(codes), c);
    CacheLookup(AskSources(b, m, answers), m, c, Requested(codes));
  }

  lemma {:induction false} UnchallengedLastWord(
      b: Batch, m: Market, answers: seq<Option<seq<Quote>>>, requested: set<string>, c: string)
    requires Accounted(b, requested) && b.results == map[] && c in requested
    requires Unchallenged(b, m, answers, c)
    ensures Latest(AcceptedInBatch(b, m, answers), m, c) == FirstSupplied(answers, c)
  {
    if answers != [] {
      var init := answers[..|answers| - 1];
      UnchallengedLastWord(b, m, init, requested, c);
      StillAsked(b, m, init, requested, c);
      WordStep(b, m, answers, c);
    }
  }

  /** A source that answers only what it is asked is not asked for `c` again, so it challenges nothing. */
  lemma {:induction false} AskedOnlyUnchallenged(
      b: Batch, m: Market, answers: seq<Option<seq<Quote>>>, requested: set<string>, c: string)
    requires Accounted(b, requested) && b.results == map[] && c in requested
    requires AnswersAsked(b, m, answers, 1)
    ensures Unchallenged(b, m, answers, c)
  {
    if answers != [] {
      var init, last := answers[..|answers| - 1], answers[|answers| - 1];
      AskedOnlyUnchallenged(b, m, init, requested, c);
      if FirstSupplied(init, c).Some? {
        SuppliedIsAccepted(b, m, init, requested, c);
        StillAsked(b, m, init, requested, c);
      }
    }
  }

  /** Where no later source answers `c` differently, the merge is prioritised. */
  lemma UnchallengedMerge(store: Store, m: Market, codes: seq<string>, answers: seq<Option<seq<Quote>>>, c: string)
    requires c in codes && Unchallenged(Batch(map[], Requested(codes), store), m, answers, c)
    ensures var results, merged := Gather(store, m, codes, answers).results, Merged(store, m, answers, c);
      (c in results <==> merged.Some?) && (c in results ==> results[c] == merged.value)
  {
    BatchIsPrioritisedMerge(store, m, codes, answers, c);
    UnchallengedLastWord(Batch(map[], Requested(codes), store), m, answers, Requested(codes), c);
  }

  /**
   * The live sources of the chains `connect` builds: two for TW and one for US.
   * The last of them stamps its quotes with the code it was asked for; what the
   * exchange answers before it for TW is arbitrary.
   */
  ghost predicate ShippedChain(b: Batch, m: Market, answers: seq<Option<seq<Quote>>>) {
    var yahoo := if m.TW? then 1 else 0;
    |answers| == yahoo + 1 && AnswersAsked(b, m, answers, yahoo)
  }

  /** For those chains the merge is prioritised on every requested code. */
  lemma ShippedChainMerges(store: Store, m: Market, codes: seq<string>, answers: seq<Option<seq<Quote>>>, c: string)
    requires c in codes && ShippedChain(Batch(map[], Requested(codes), store), m, answers)
    ensures var results, merged := Gather(store, m, codes, answers).results, Merged(store, m, answers, c);
      (c in results <==> merged.Some?) && (c in results ==> results[c] == merged.value)
  {
    var b := Batch(map[], Requested(codes), store);
    AnswersAskedFrom(b, m, answers, if m.TW? then 1 else 0, 1);
    AskedOnlyUnchallenged(b, m, answers, Requested(codes), c);
    UnchallengedMerge(store, m, codes, answers, c);
  }

  lemma {:induction false} AnswersAskedFrom(
      b: Batch, m: Market, answers: seq<Option<seq<Quote>>>, from: nat, from': nat)
    requires AnswersAsked(b, m, answers, from) && from <= from'
    ensures AnswersAsked(b, m, answers, from')
  {
    if answers != [] {
      AnswersAskedFrom(b, m, answers[..|answers| - 1], from, from');
    }
  }

  function Codes(qs: seq<Quote>): seq<string> {
    seq(|qs|, i requires 0 <= i < |qs| => qs[i].code)
  }

  function Answered(codes: seq<string>, keys: set<string>): seq<string> {
    if codes == [] then []
    else
      var init, c := Answered(codes[..|codes| - 1], keys), codes[|codes| - 1];
      if c in keys then init + [c] else init
  }

  /** The output is the input list, duplicates and order kept, less the unanswered codes. */
  lemma {:induction false} OutputFollowsInput(codes: seq<string>, results: map<string, Quote>)
    requires forall c <- results :: results[c].code == c
    ensures Codes(InOrder(codes, results)) == Answered(codes, results.Keys)
    ensures forall q <- InOrder(codes, results) :: q.code in results && q == results[q.code]
  {
    if codes != [] {
      OutputFollowsInput(codes[..|codes| - 1], results);
    }
  }

  // ---------------------------------------------------------------- runs

  datatype Event =
    | Connect(market: Market)
    | Disconnect
    | Single(market: Market, code: string, answers: seq<Option<Quote>>, lastClose: Option<Quote>)
    | Many(market: Market, codes: seq<string>, batches: seq<Option<seq<Quote>>>)

  datatype Adapter = Adapter(store: Store, connected: set<Market>)

  function Apply(a: Adapter, e: Event): Adapter {
    match e
    case Connect(m) => a.(connected := a.connected + {m})
    case Disconnect => a.(connected := {})
    case Single(m, _, answers, _) =>
      if m !in a.connected || FirstAccepted(answers).None? then a
      else a.(store := Write(a.store, m, FirstAccepted(answers).value))
    case Many(m, codes, batches) =>
      if m !in a.connected then a else a.(store := Gather(a.store, m, codes, batches).store)
  }

  function Run(es: seq<Event>): Adapter {
    if es == [] then Adapter(map[], {}) else Apply(Run(es[..|es| - 1]), es[|es| - 1])
  }

  /** `get_quote`. */
  function SingleAnswer(a: Adapter, m: Market, code: string, answers: seq<Option<Quote>>, lastClose: Option<Quote>)
    : Result<Quote>
  {
    var cached := CacheAnswer(a.store, m, code);
    if m !in a.connected then Err("QuoteAdapter not connected")
    else if FirstAccepted(answers).Some? then Ok(FirstAccepted(answers).value)
    else if Accepted(cached) then Ok(cached.value)
    else if lastClose.Some? then Ok(lastClose.value)
    else Err("All sources failed")
  }

  /** `get_quotes_batch`. */
  function ManyAnswer(a: Adapter, m: Market, codes: seq<string>, batches: seq<Option<seq<Quote>>>): Result<seq<Quote>> {
    var results := Gather(a.store, m, codes, batches).results;
    if m !in a.connected then Err("QuoteAdapter not connected")
    else if results == map[] then Err("All sources failed")
    else Ok(InOrder(codes, results))
  }

  /** The live quotes a batch accepted, in order. */
  function AcceptedInBatch(b: Batch, m: Market, batches: seq<Option<seq<Quote>>>): seq<(Market, Quote)> {
    if batches == [] then []
    else
      var init, last := batches[..|batches| - 1], batches[|batches| - 1];
      AcceptedInBatch(b, m, init)
        + if AskSources(b, m, init).remaining == {} || last.None? then [] else Tag(m, last.value)
  }

  function Tag(m: Market, qs: seq<Quote>): seq<(Market, Quote)> {
    seq(|qs|, i requires 0 <= i < |qs| => (m, qs[i]))
  }

  lemma {:induction false} LatestInTag(log: seq<(Market, Quote)>, m: Market, qs: seq<Quote>, c: string)
    ensures Latest(log + Tag(m, qs), m, c) == if QuoteIn(qs, c).Some? then QuoteIn(qs, c) else Latest(log, m, c)
  {
    if qs == [] {
      assert log + Tag(m, qs) == log;
    } else {
      var init := qs[..|qs| - 1];
      LatestInTag(log, m, init, c);
      assert (log + Tag(m, qs))[..|log| + |init|] == log + Tag(m, init);
    }
  }

  /**
   * Whatever the sources answer, a code has the last quote any of those asked
   * gave for it, and keeps what it had where none did.
   */
  lemma {:induction false} BatchKeepsLastAnswer(b: Batch, m: Market, batches: seq<Option<seq<Quote>>>, c: string)
    ensures var r, q := AskSources(b, m, batches), Latest(AcceptedInBatch(b, m, batches), m, c);
      if q.Some? then c in r.results && r.results[c] == q.value else SameFor(b, r, m, c)
  {
    if batches != [] {
      var init, last := batches[..|batches| - 1], batches[|batches| - 1];
      var before, sofar := AskSources(b, m, init), AcceptedInBatch(b, m, init);
      BatchKeepsLastAnswer(b, m, init, c);
      if before.remaining != {} && last.Some? {
        CollectLookup(before, m, last.value, c);
        LatestInTag(sofar, m, last.value, c);
        assert AcceptedInBatch(b, m, batches) == sofar + Tag(m, last.value);
      } else {
        assert AcceptedInBatch(b, m, batches) == sofar;
      }
    }
  }

  /**
   * In a longer chain, or one whose second source stamps its own codes, a source
   * that answers a code it was not asked for overwrites the earlier quote.
   */
  lemma UnaskedAnswerOverwrites(store: Store, m: Market, first: Quote, second: Quote)
    requires first.code == second.code == "2330"
    ensures var answers := [Some([first]), Some([second])];
      var results := Gather(store, m, ["2330", "2317"], answers).results;
      && "2330" in results && results["2330"] == second
      && Merged(store, m, answers, "2330") == Some(first)
  {
    var codes, answers := ["2330", "2317"], [Some([first]), Some([second])];
    var b := Batch(map[], Requested(codes), store);
    assert codes[0] == "2330" && codes[1] == "2317";
    assert answers[..1] == [Some([first])] && [Some([first])][..0] == [];
    assert [first][..0] == [] && [second][..0] == [];
    assert "2330" in b.remaining && "2317" in b.remaining;
    var one := Collect(b, m, first);
    assert AskSources(b, m, [Some([first])]) == CollectAll(b, m, [first]) == one;
    assert "2317" in one.remaining;
    assert AskSources(b, m, answers) == CollectAll(one, m, [second]) == Collect(one, m, second);
    assert FirstSupplied(answers[..1], "2330") == Some(first);
  }

  /** Every live quote accepted over a run, oldest first. */
  function Live(es: seq<Event>): seq<(Market, Quote)> {
    if es == [] then []
    else
      var a, e := Run(es[..|es| - 1]), es[|es| - 1];
      Live(es[..|es| - 1]) +
        match e
        case Single(m, _, answers, _) =>
          if m !in a.connected || FirstAccepted(answers).None? then [] else [(m, FirstAccepted(answers).value)]
        case Many(m, codes, batches) =>
          if m !in a.connected then [] else AcceptedInBatch(Batch(map[], Requested(codes), a.store), m, batches)
        case _ => []
  }

  function Latest(log: seq<(Market, Quote)>, m: Market, code: string): Option<Quote> {
    if log == [] then None
    else
      var last := log[|log| - 1];
      if last.0 == m && last.1.code == code then Some(last.1) else Latest(log[..|log| - 1], m, code)
  }

  /** The entry of every market and code is the latest live quote for it. */
  ghost predicate HoldsLatest(store: Store, log: seq<(Market, Quote)>) {
    forall m: Market, c: string ::
      && (CacheKey(m, c) in store <==> Latest(log, m, c).Some?)
      && (CacheKey(m, c) in store ==> store[CacheKey(m, c)] == Serialize(Latest(log, m, c).value))
  }

  lemma WriteHolds(store: Store, log: seq<(Market, Quote)>, m: Market, q: Quote)
    requires HoldsLatest(store, log)
    ensures HoldsLatest(Write(store, m, q), log + [(m, q)])
  {
    var store', log' := Write(store, m, q), log + [(m, q)];
    assert log'[..|log|] == log;
    forall m': Market, c: string
      ensures CacheKey(m', c) in store' <==> Latest(log', m', c).Some?
      ensures CacheKey(m', c) in store' ==> store'[CacheKey(m', c)] == Serialize(Latest(log', m', c).value)
    {
      if CacheKey(m', c) == CacheKey(m, q.code) {
        CacheKeyInjective(m', c, m, q.code);
      }
    }
  }

  lemma {:induction false} CollectHolds(b: Batch, m: Market, qs: seq<Quote>, log: seq<(Market, Quote)>)
    requires HoldsLatest(b.store, log)
    ensures HoldsLatest(CollectAll(b, m, qs).store, log + Tag(m, qs))
  {
    if qs == [] {
      assert log + Tag(m, qs) == log;
    } else {
      var init, q := qs[..|qs| - 1], qs[|qs| - 1];
      CollectHolds(b, m, init, log);
      WriteHolds(CollectAll(b, m, init).store, log + Tag(m, init), m, q);
      assert log + Tag(m, qs) == log + Tag(m, init) + [(m, q)];
    }
  }

  lemma {:induction false} SourcesHold(
      b: Batch, m: Market, batches: seq<Option<seq<Quote>>>, log: seq<(Market, Quote)>)
    requires HoldsLatest(b.store, log)
    ensures HoldsLatest(AskSources(b, m, batches).store, log + AcceptedInBatch(b, m, batches))
  {
    if batches == [] {
      assert log + [] == log;
    } else {
      var init, last := batches[..|batches| - 1], batches[|batches| - 1];
      var before, sofar := AskSources(b, m, init), log + AcceptedInBatch(b, m, init);
      SourcesHold(b, m, init, log);
      if before.remaining != {} && last.Some? {
        CollectHolds(before, m, last.value, sofar);
        assert log + AcceptedInBatch(b, m, batches) == sofar + Tag(m, last.value);
      } else {
        assert log + AcceptedInBatch(b, m, batches) == sofar;
      }
    }
  }

  /** Over every run the cache is the latest live quotes; hits, connects and the other market leave it alone. */
  lemma {:induction false} CacheHoldsLatest(es: seq<Event>)
    ensures HoldsLatest(Run(es).store, Live(es))
  {
    if es != [] {
      var init, e := es[..|es| - 1], es[|es| - 1];
      var a := Run(init);
      CacheHoldsLatest(init);
      assert Live(init) + [] == Live(init);
      if e.Single? && e.market in a.connected && FirstAccepted(e.answers).Some? {
        WriteHolds(a.store, Live(init), e.market, FirstAccepted(e.answers).value);
      } else if e.Many? && e.market in a.connected {
        SourcesHold(Batch(map[], Requested(e.codes), a.store), e.market, e.batches, Live(init));
      }
    }
  }

  /**
   * When no live source has an acceptable answer, the latest live quote of the
   * market and code comes back, equal in every field but the stale flag.
   */
  lemma FallsBackToLatest(
      es: seq<Event>, m: Market, code: string, answers: seq<Option<Quote>>, lastClose: Option<Quote>)
    requires m in Run(es).connected && FirstAccepted(answers).None?
    ensures var latest := Latest(Live(es), m, code);
      SingleAnswer(Run(es), m, code, answers, lastClose)
        == if Accepted(latest) then Ok(latest.value.(isStale := true))
           else if lastClose.Some? then Ok(lastClose.value) else Err("All sources failed")
  {
    CacheHoldsLatest(es);
  }

  lemma {:induction false} FirstAcceptedIsFirst(answers: seq<Option<Quote>>, i: nat)
    requires i < |answers| && Accepted(answers[i]) && forall j :: 0 <= j < i ==> !Accepted(answers[j])
    ensures FirstAccepted(answers) == answers[i]
  {
    if i > 0 {
      FirstAcceptedIsFirst(answers[1..], i - 1);
    }
  }

  // ---------------------------------------------------------------- what a caller gets

  /** The `i`-th call connected the market and no later one disconnected. */
  ghost predicate ConnectedSince(es: seq<Event>, m: Market, i: nat) {
    i < |es| && es[i] == Connect(m) && forall j :: i < j < |es| ==> es[j] != Disconnect
  }

  lemma {:induction false} ConnectedOneMore(es: seq<Event>, m: Market, i: nat)
    requires i < |es| - 1
    ensures ConnectedSince(es, m, i) <==> ConnectedSince(es[..|es| - 1], m, i) && es[|es| - 1] != Disconnect
  {
    var init := es[..|es| - 1];
    assert forall j :: 0 <= j < |init| ==> init[j] == es[j];
  }

  /** A market is connected from its `connect` to the next `disconnect`. */
  lemma {:induction false} ConnectedMeans(es: seq<Event>, m: Market)
    ensures m in Run(es).connected <==> exists i: nat :: ConnectedSince(es, m, i)
  {
    if es != [] {
      var n := |es| - 1;
      ConnectedMeans(es[..n], m);
      if es[n] == Connect(m) {
        assert ConnectedSince(es, m, n);
      }
      if i: nat :| ConnectedSince(es[..n], m, i) {
        ConnectedOneMore(es, m, i);
      }
      if i: nat :| ConnectedSince(es, m, i) {
        if i < n {
          ConnectedOneMore(es, m, i);
        }
      }
    }
  }

  /** A live source supplies the code now, or one did before. */
  predicate Known(es: seq<Event>, m: Market, batches: seq<Option<seq<Quote>>>, c: string) {
    FirstSupplied(batches, c).Some? || Latest(Live(es), m, c).Some?
  }

  /** What the caller of a batch should see for a known code. */
  function Due(es: seq<Event>, m: Market, batches: seq<Option<seq<Quote>>>, c: string): Quote
    requires Known(es, m, batches, c)
  {
    if FirstSupplied(batches, c).Some? then FirstSupplied(batches, c).value
    else Latest(Live(es), m, c).value.(isStale := true)
  }

  /** The known codes of a list, in order and with duplicates. */
  function KnownCodes(es: seq<Event>, m: Market, batches: seq<Option<seq<Quote>>>, codes: seq<string>): seq<string> {
    if codes == [] then []
    else
      var init, c := KnownCodes(es, m, batches, codes[..|codes| - 1]), codes[|codes| - 1];
      if Known(es, m, batches, c) then init + [c] else init
  }

  /** Some source answers a quote, of whatever code. */
  predicate AnySupplied(batches: seq<Option<seq<Quote>>>) {
    exists i :: 0 <= i < |batches| && Supplies(batches[i])
  }

  predicate Supplies(answer: Option<seq<Quote>>) {
    answer.Some? && answer.value != []
  }

  lemma {:induction false} StoreKnows(es: seq<Event>, m: Market, c: string)
    ensures CacheAnswer(Run(es).store, m, c)
         == if Latest(Live(es), m, c).Some? then Some(Latest(Live(es), m, c).value.(isStale := true)) else None
  {
    CacheHoldsLatest(es);
  }

  lemma {:induction false} BatchKnows(es: seq<Event>, m: Market, codes: seq<string>, batches: seq<Option<seq<Quote>>>, c: string)
    requires c in codes
    ensures c in Gather(Run(es).store, m, codes, batches).results <==> Known(es, m, batches, c)
  {
    BatchIsPrioritisedMerge(Run(es).store, m, codes, batches, c);
    StoreKnows(es, m, c);
  }

  lemma {:induction false} TagSome(log: seq<(Market, Quote)>, i: nat)
    requires i < |log|
    ensures Latest(log, log[i].0, log[i].1.code).Some?
  {
    var n := |log| - 1;
    if i < n {
      TagSome(log[..n], i);
      assert log[..n][i] == log[i];
    }
  }

  /** While nothing requested is supplied every source is asked, so whatever any supplies is accepted. */
  lemma {:induction false} AllAskedAccept(b: Batch, m: Market, batches: seq<Option<seq<Quote>>>, requested: set<string>, c: string)
    requires Accounted(b, requested) && b.results == map[] && c in requested
    requires FirstSupplied(batches, c).None?
    ensures AnySupplied(batches) <==> AcceptedInBatch(b, m, batches) != []
  {
    if batches != [] {
      var n := |batches| - 1;
      var init := batches[..n];
      AllAskedAccept(b, m, init, requested, c);
      SuppliedIsAccepted(b, m, init, requested, c);
      StillAsked(b, m, init, requested, c);
      AnyOneMore(batches);
    }
  }

  lemma {:induction false} AnyOneMore(batches: seq<Option<seq<Quote>>>)
    requires batches != []
    ensures AnySupplied(batches) <==> AnySupplied(batches[..|batches| - 1]) || Supplies(batches[|batches| - 1])
  {
    var init := batches[..|batches| - 1];
    if AnySupplied(init) {
      var i :| 0 <= i < |init| && Supplies(init[i]);
      assert Supplies(batches[i]);
    }
    if AnySupplied(batches) {
      var i :| 0 <= i < |batches| && Supplies(batches[i]);
      assert i < |init| ==> init[i] == batches[i];
    }
  }

  /** What a batch collects is not empty exactly when a requested code is known or a source supplies anything at all. */
  lemma {:induction false} BatchNotEmpty(es: seq<Event>, m: Market, codes: seq<string>, batches: seq<Option<seq<Quote>>>)
    ensures Gather(Run(es).store, m, codes, batches).results != map[] <==>
      codes != [] && (AnySupplied(batches) || exists c <- codes :: Known(es, m, batches, c))
  {
    var results := Gather(Run(es).store, m, codes, batches).results;
    if codes == [] {
      NothingAsked(Batch(map[], Requested(codes), Run(es).store), m, batches);
    } else {
      if c :| c in codes && Known(es, m, batches, c) {
        BatchKnows(es, m, codes, batches, c);
      } else {
        UnknownBatch(es, m, codes, batches);
      }
    }
  }

  lemma {:induction false} NothingAsked(b: Batch, m: Market, batches: seq<Option<seq<Quote>>>)
    requires b.remaining == {}
    ensures AskSources(b, m, batches) == b
  {
    if batches != [] {
      NothingAsked(b, m, batches[..|batches| - 1]);
    }
  }

  lemma {:induction false} UnknownBatch(es: seq<Event>, m: Market, codes: seq<string>, batches: seq<Option<seq<Quote>>>)
    requires codes != [] && forall c <- codes :: !Known(es, m, batches, c)
    ensures Gather(Run(es).store, m, codes, batches).results != map[] <==> AnySupplied(batches)
  {
    var b := Batch(map[], Requested(codes), Run(es).store);
    var asked := AskSources(b, m, batches);
    var results := Gather(Run(es).store, m, codes, batches).results;
    assert codes[0] in codes && !Known(es, m, batches, codes[0]);
    AllAskedAccept(b, m, batches, Requested(codes), codes[0]);
    AskedNotEmpty(b, m, batches);
    SourcesAccount(b, m, batches, Requested(codes));
    CacheAddsRequested(asked, m, Requested(codes));
    if c :| c in results && c in codes {
      BatchKnows(es, m, codes, batches, c);
    }
    if c :| c in results {
      assert c in asked.results;
    }
    if c :| c in asked.results {
      assert c in results;
    }
  }

  lemma {:induction false} CacheAddsRequested(b: Batch, m: Market, requested: set<string>)
    requires Accounted(b, requested)
    ensures forall c <- AskCache(b, m).results :: c in b.results || c in requested
    ensures forall c <- b.results :: c in AskCache(b, m).results
  {
  }

  lemma {:induction false} AskedNotEmpty(b: Batch, m: Market, batches: seq<Option<seq<Quote>>>)
    requires b.results == map[]
    ensures AskSources(b, m, batches).results == map[] <==> AcceptedInBatch(b, m, batches) == []
  {
    var asked, accepted := AskSources(b, m, batches), AcceptedInBatch(b, m, batches);
    if accepted != [] {
      AcceptedMarket(b, m, batches);
      TagSome(accepted, 0);
      BatchKeepsLastAnswer(b, m, batches, accepted[0].1.code);
    } else if c :| c in asked.results {
      BatchKeepsLastAnswer(b, m, batches, c);
    }
  }

  lemma {:induction false} AcceptedMarket(b: Batch, m: Market, batches: seq<Option<seq<Quote>>>)
    ensures forall a <- AcceptedInBatch(b, m, batches) :: a.0 == m
  {
    if batches != [] {
      AcceptedMarket(b, m, batches[..|batches| - 1]);
    }
  }

  lemma {:induction false} AnsweredAreKnown(
      es: seq<Event>, m: Market, batches: seq<Option<seq<Quote>>>, codes: seq<string>, keys: set<string>)
    requires forall c <- codes :: c in keys <==> Known(es, m, batches, c)
    ensures Answered(codes, keys) == KnownCodes(es, m, batches, codes)
  {
    if codes != [] {
      assert codes == codes[..|codes| - 1] + [codes[|codes| - 1]];
      AnsweredAreKnown(es, m, batches, codes[..|codes| - 1], keys);
    }
  }

  /** The batch answers `r`, in terms of what was supplied now and what is on record. */
  ghost predicate AnswersBatch(
      es: seq<Event>, m: Market, codes: seq<string>, batches: seq<Option<seq<Quote>>>, r: Result<seq<Quote>>)
  {
    && (r.Ok? <==> codes != [] && (AnySupplied(batches) || exists c <- codes :: Known(es, m, batches, c)))
    && (r.Err? ==> r.error == "All sources failed")
    && (r.Ok? ==> Codes(r.value) == KnownCodes(es, m, batches, codes))
    && (r.Ok? && ShippedChain(Batch(map[], Requested(codes), Run(es).store), m, batches) ==>
          forall q <- r.value :: Known(es, m, batches, q.code) && q == Due(es, m, batches, q.code))
  }

  /**
   * A connected batch over every run: it raises exactly when nothing was
   * requested, or no source supplied anything and no requested code is on
   * record; otherwise it returns the known codes of its input, in order and with
   * duplicates, and with the shipped chains each with the first supplier's
   * quote, or else its latest live quote marked stale.
   */
  lemma {:induction false} BatchAnswer(es: seq<Event>, m: Market, codes: seq<string>, batches: seq<Option<seq<Quote>>>)
    requires m in Run(es).connected
    ensures AnswersBatch(es, m, codes, batches, ManyAnswer(Run(es), m, codes, batches))
  {
    var b := Batch(map[], Requested(codes), Run(es).store);
    var results := Gather(Run(es).store, m, codes, batches).results;
    BatchNotEmpty(es, m, codes, batches);
    StoreStaysKeyed(es);
    GatherAccounts(Run(es).store, m, codes, batches);
    OutputFollowsInput(codes, results);
    forall c | c in codes
      ensures c in results <==> Known(es, m, batches, c)
    {
      BatchKnows(es, m, codes, batches, c);
    }
    AnsweredAreKnown(es, m, batches, codes, results.Keys);
    if ShippedChain(b, m, batches) {
      forall q | q in InOrder(codes, results)
        ensures Known(es, m, batches, q.code) && q == Due(es, m, batches, q.code)
      {
        InOrderRequested(codes, results, q);
        ShippedChainMerges(Run(es).store, m, codes, batches, q.code);
        StoreKnows(es, m, q.code);
      }
    }
  }

  lemma {:induction false} InOrderRequested(codes: seq<string>, results: map<string, Quote>, q: Quote)
    requires q in InOrder(codes, results) && forall c <- results :: results[c].code == c
    ensures q.code in codes
  {
    var init := codes[..|codes| - 1];
    if q in InOrder(init, results) {
      InOrderRequested(init, results, q);
    }
  }

  lemma {:induction false} StoreStaysKeyed(es: seq<Event>)
    ensures StoreKeyed(Run(es).store)
  {
    CacheHoldsLatest(es);
    forall m: Market, c: string | CacheKey(m, c) in Run(es).store
      ensures Run(es).store[CacheKey(m, c)].code == c
    {
      LatestCode(Live(es), m, c);
    }
  }

  lemma {:induction false} LatestCode(log: seq<(Market, Quote)>, m: Market, c: string)
    ensures Latest(log, m, c).Some? ==> Latest(log, m, c).value.code == c
  {
    if log != [] {
      LatestCode(log[..|log| - 1], m, c);
    }
  }

  /** Sources that answer only codes nobody asked for make an empty answer where there should be an error. */
  lemma {:induction false} UnaskedOnlyIsNoError(es: seq<Event>, m: Market, code: string, q: Quote)
    requires m in Run(es).connected && q.code != code && Latest(Live(es), m, code).None?
    ensures ManyAnswer(Run(es), m, [code], [Some([q])]) == Ok([])
  {
    var batches := [Some([q])];
    assert Supplies(batches[0]);
    assert batches[..0] == [] && [q][..0] == [];
    assert FirstSupplied(batches, code).None?;
    BatchAnswer(es, m, [code], batches);
    assert [code][..0] == [];
    assert KnownCodes(es, m, batches, [code]) == [];
  }

  /** The answer at `i` is the first live one with a price other than zero. */
  ghost predicate FirstPriced(answers: seq<Option<Quote>>, i: nat) {
    && i < |answers| && answers[i].Some? && answers[i].value.price != 0.0
    && forall j :: 0 <= j < i ==> answers[j].None? || answers[j].value.price == 0.0
  }

  lemma {:induction false} NoneAcceptedIsNone(answers: seq<Option<Quote>>)
    requires forall i :: 0 <= i < |answers| ==> answers[i].None? || answers[i].value.price == 0.0
    ensures FirstAccepted(answers).None?
  {
    if answers != [] {
      NoneAcceptedIsNone(answers[1..]);
    }
  }

  /** A single quote `r` of a connected adapter, in terms of the live answers and what is on record. */
  ghost predicate AnswersSingle(
      es: seq<Event>, m: Market, code: string, answers: seq<Option<Quote>>, lastClose: Option<Quote>, r: Result<Quote>)
  {
    && (forall i: nat :: FirstPriced(answers, i) ==> r == Ok(answers[i].value))
    && ((forall i :: 0 <= i < |answers| ==> answers[i].None? || answers[i].value.price == 0.0) ==>
          var latest := Latest(Live(es), m, code);
          if latest.Some? && latest.value.price != 0.0 then r == Ok(latest.value.(isStale := true))
          else if lastClose.Some? then r == Ok(lastClose.value)
          else r == Err("All sources failed"))
  }

  /**
   * The first live answer with a price; without one the latest live quote on
   * record with a price, marked stale; then the last close; then an error.
   */
  lemma {:induction false} SingleOutcome(
      es: seq<Event>, m: Market, code: string, answers: seq<Option<Quote>>, lastClose: Option<Quote>)
    requires m in Run(es).connected
    ensures AnswersSingle(es, m, code, answers, lastClose, SingleAnswer(Run(es), m, code, answers, lastClose))
  {
    forall i: nat | FirstPriced(answers, i)
      ensures FirstAccepted(answers) == answers[i]
    {
      FirstAcceptedIsFirst(answers, i);
    }
    if forall i :: 0 <= i < |answers| ==> answers[i].None? || answers[i].value.price == 0.0 {
      NoneAcceptedIsNone(answers);
      FallsBackToLatest(es, m, code, answers, lastClose);
    }
  }

  // ---------------------------------------------------------------- the object

  class QuoteAdapter {
    var memoryStore: Store
    /** The markets whose chain is built. */
    var chains: set<Market>
    /** Every call so far. */
    ghost var log: seq<Event>

    constructor ()
      ensures Valid() && log == []
    {
      memoryStore, chains := map[], {};
      log := [];
    }

    ghost predicate Valid()
      reads this
    {
      Adapter(memoryStore, chains) == Run(log) && StoreKeyed(memoryStore)
    }

    method Connect(m: Market)
      requires Valid()
      modifies this
      ensures Valid() && log == old(log) + [Event.Connect(m)] && memoryStore == old(memoryStore)
    {
      chains := chains + {m};
      log := log + [Event.Connect(m)];
    }

    method Disconnect()
      requires Valid()
      modifies this
      ensures Valid() && log == old(log) + [Event.Disconnect] && memoryStore == old(memoryStore)
    {
      chains := {};
      log := log + [Event.Disconnect];
    }

    /** The live answers come in chain order; the cache and the last close follow. */
    method GetQuote(m: Market, code: string, answers: seq<Option<Quote>>, lastClose: Option<Quote>)
      returns (r: Result<Quote>)
      requires Valid()
      modifies this
      ensures Valid() && log == old(log) + [Single(m, code, answers, lastClose)]
      ensures r == SingleAnswer(Run(old(log)), m, code, answers, lastClose)
      ensures m !in old(chains) ==> r == Err("QuoteAdapter not connected")
      ensures m in old(chains) ==> AnswersSingle(old(log), m, code, answers, lastClose, r)
    {
      if m in chains {
        SingleOutcome(log, m, code, answers, lastClose);
      }
      r := AskChain(m, code, answers, lastClose);
    }

    method AskChain(m: Market, code: string, answers: seq<Option<Quote>>, lastClose: Option<Quote>)
      returns (r: Result<Quote>)
      requires Valid()
      modifies this
      ensures Valid() && log == old(log) + [Single(m, code, answers, lastClose)]
      ensures r == SingleAnswer(Run(old(log)), m, code, answers, lastClose)
    {
      log := log + [Single(m, code, answers, lastClose)];
      if m !in chains {
        return Err("QuoteAdapter not connected");
      }
      for i := 0 to |answers|
        invariant memoryStore == old(memoryStore) && chains == old(chains)
        invariant log == old(log) + [Single(m, code, answers, lastClose)]
        invariant FirstAccepted(answers) == FirstAccepted(answers[i..])
      {
        if answers[i].Some? && answers[i].value.price != 0.0 {
          var q := answers[i].value;
          WriteKeyed(memoryStore, m, q);
          memoryStore := memoryStore[CacheKey(m, q.code) := Serialize(q)];
          return Ok(q);
        }
      }
      var key := CacheKey(m, code);
      if key in memoryStore && memoryStore[key].price != 0.0 {
        return Ok(Deserialize(memoryStore[key], true));
      }
      if lastClose.Some? {
        return Ok(lastClose.value);
      }
      r := Err("All sources failed");
    }

    method GetQuotesBatch(m: Market, codes: seq<string>, batches: seq<Option<seq<Quote>>>)
      returns (r: Result<seq<Quote>>)
      requires Valid()
      modifies this
      ensures Valid() && log == old(log) + [Many(m, codes, batches)]
      ensures r == ManyAnswer(Run(old(log)), m, codes, batches)
      ensures m !in old(chains) ==> r == Err("QuoteAdapter not connected")
      ensures m in old(chains) ==> AnswersBatch(old(log), m, codes, batches, r)
    {
      if m in chains {
        BatchAnswer(log, m, codes, batches);
      }
      r := AskChainForBatch(m, codes, batches);
    }

    method AskChainForBatch(m: Market, codes: seq<string>, batches: seq<Option<seq<Quote>>>)
      returns (r: Result<seq<Quote>>)
      requires Valid()
      modifies this
      ensures Valid() && log == old(log) + [Many(m, codes, batches)]
      ensures r == ManyAnswer(Run(old(log)), m, codes, batches)
    {
      log := log + [Many(m, codes, batches)];
      if m !in chains {
        return Err("QuoteAdapter not connected");
      }
      ghost var start := Batch(map[], Requested(codes), memoryStore);
      var remaining := Requested(codes);
      var results: map<string, Quote> := map[];
      for i := 0 to |batches|
        invariant chains == old(chains) && log == old(log) + [Many(m, codes, batches)]
        invariant Batch(results, remaining, memoryStore) == AskSources(start, m, batches[..i])
        invariant StoreKeyed(memoryStore)
      {
        assert batches[..i + 1][..i] == batches[..i];
        if remaining != {} && batches[i].Some? {
          results, remaining := MergeAnswer(m, batches[i].value, results, remaining);
        }
      }
      assert batches[..|batches|] == batches;
      results, remaining := MergeCache(m, results, remaining);
      if results == map[] {
        return Err("All sources failed");
      }
      var output: seq<Quote> := [];
      for i := 0 to |codes|
        invariant output == InOrder(codes[..i], results)
      {
        assert codes[..i + 1][..i] == codes[..i];
        if codes[i] in results {
          output := output + [results[codes[i]]];
        }
      }
      assert codes[..|codes|] == codes;
      r := Ok(output);
    }

    /** One live answer: each quote is taken, ticked off and written through. */
    method MergeAnswer(m: Market, qs: seq<Quote>, results: map<string, Quote>, remaining: set<string>)
      returns (results': map<string, Quote>, remaining': set<string>)
      requires StoreKeyed(memoryStore)
      modifies this`memoryStore
      ensures StoreKeyed(memoryStore)
      ensures Batch(results', remaining', memoryStore)
           == CollectAll(Batch(results, remaining, old(memoryStore)), m, qs)
    {
      results', remaining' := results, remaining;
      for i := 0 to |qs|
        invariant StoreKeyed(memoryStore)
        invariant Batch(results', remaining', memoryStore)
               == CollectAll(Batch(results, remaining, old(memoryStore)), m, qs[..i])
      {
        assert qs[..i + 1][..i] == qs[..i];
        var q := qs[i];
        results' := results'[q.code := q];
        remaining' := remaining' - {q.code};
        WriteKeyed(memoryStore, m, q);
        memoryStore := memoryStore[CacheKey(m, q.code) := Serialize(q)];
      }
      assert qs[..|qs|] == qs;
    }

    /** The cache source, asked for the remaining codes in some order. */
    method MergeCache(m: Market, results: map<string, Quote>, remaining: set<string>)
      returns (results': map<string, Quote>, remaining': set<string>)
      requires StoreKeyed(memoryStore)
      ensures Batch(results', remaining', memoryStore) == AskCache(Batch(results, remaining, memoryStore), m)
    {
      ghost var b := Batch(results, remaining, memoryStore);
      results', remaining' := MergeEntries(m, results, remaining, Cached(b, m));
    }

    method MergeEntries(
        m: Market, results: map<string, Quote>, remaining: set<string>, ghost cached: map<string, Quote>)
      returns (results': map<string, Quote>, remaining': set<string>)
      requires cached.Keys <= remaining
      requires forall c <- remaining :: c in cached <==> CacheKey(m, c) in memoryStore
      requires forall c <- cached :: cached[c] == Deserialize(memoryStore[CacheKey(m, c)], true) && cached[c].code == c
      ensures results' == results + cached && remaining' == remaining - cached.Keys
    {
      results', remaining' := results, remaining;
      var left := remaining;
      while left != {}
        invariant left <= remaining
        invariant results' == results + (cached - left)
        invariant remaining' == remaining - (cached - left).Keys
        decreases left
      {
        var c :| c in left;
        var key := CacheKey(m, c);
        if key in memoryStore {
          var q := Deserialize(memoryStore[key], true);
          results' := results'[q.code := q];
          remaining' := remaining' - {q.code};
        }
        left := left - {c};
      }
    }
  }
}
