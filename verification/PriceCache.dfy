/** The price cache (`balance_valuation.py`): USDT prices kept for 60 seconds per exchange and currency, with
    Binance as the fallback source.  Times are milliseconds; prices are reals.  The cache read that opens a
    call and the completion of its fetch are separate steps, so calls may interleave freely. */
module PriceCache {
  import opened Prelude
  import Text

  const TTL_MS := 60_000
  const USDT := "USDT"
  const BINANCE := "binance"
  const VALUED_BASES: set<string> := {"BTC", "SOL", "XRP", "BNB", "ETH"}
  const SUPPORTED_EXCHANGES: set<string> := {"binance", "bybit", "okx", "mexc"}

  /** What asking an exchange for a ticker gives: an exception, or a ticker with some of four prices. */
  datatype Ticker = Fails | Ticker(last: Option<real>, close: Option<real>, bid: Option<real>, ask: Option<real>)

  datatype Entry = Entry(price: real, expiry: int)

  type Cache = map<string, Entry>

  predicate Listed(currency: string) { Text.Upper(currency) in VALUED_BASES }

  function Key(exchange: string, currency: string): string {
    "prices:usdt:" + Text.Lower(exchange) + ":" + Text.Upper(currency)
  }

  predicate SamePair(exchange: string, currency: string, exchange': string, currency': string) {
    Text.Lower(exchange) == Text.Lower(exchange') && Text.Upper(currency) == Text.Upper(currency')
  }

  /** For valued currencies the key determines the exchange and the currency up to case, even when the
      exchange name contains a colon, and spellings that differ only in case share an entry. */
  lemma KeyIdentifiesPair(exchange: string, currency: string, exchange': string, currency': string)
    requires Listed(currency) && Listed(currency')
    ensures Key(exchange, currency) == Key(exchange', currency') <==> SamePair(exchange, currency, exchange', currency')
    ensures Key(exchange, currency) == Key(Text.Upper(exchange), Text.Lower(currency))
  {
    var k, k' := Key(exchange, currency), Key(exchange', currency');
    var e, e' := Text.Lower(exchange), Text.Lower(exchange');
    assert k[|"prices:usdt:"|..] == e + ":" + Text.Upper(currency);
    assert k'[|"prices:usdt:"|..] == e' + ":" + Text.Upper(currency');
    assert k[|k| - 3..] == Text.Upper(currency) && k'[|k'| - 3..] == Text.Upper(currency');
    assert k[|"prices:usdt:"|..|k| - 4] == e && k'[|"prices:usdt:"|..|k'| - 4] == e';
    Text.UpperOfLower(exchange);
    Text.UpperOfLower(currency);
  }

  // ---------- fetching ----------

  /** `x or y`: an absent or zero price is passed over. */
  predicate Truthy(x: Option<real>) { x.Some? && x.value != 0.0 }

  function Or(x: Option<real>, y: Option<real>): Option<real> { if Truthy(x) then x else y }

  function TickerPrice(t: Ticker): Option<real>
    requires t.Ticker?
  {
    var raw := Or(Or(Or(t.last, t.close), t.bid), t.ask);
    if raw.Some? && raw.value > 0.0 then raw else None
  }

  /** The answer of one exchange, given as its normalised name and its ticker. */
  function Fetch(exchange: string, ticker: Ticker): Option<real> {
    if exchange !in SUPPORTED_EXCHANGES || ticker.Fails? then None else TickerPrice(ticker)
  }

  /** The answer of a fetch with its fallback. */
  function Quoted(exchange: string, own: Ticker, binance: Ticker): Option<real> {
    var name := Text.Lower(exchange);
    var price := Fetch(name, own);
    if price.None? && name != BINANCE then Fetch(BINANCE, binance) else price
  }

  function Fields(t: Ticker): seq<Option<real>>
    requires t.Ticker?
  {
    [t.last, t.close, t.bid, t.ask]
  }

  /** `p` is positive and is the first of last, close, bid and ask that is present and not zero. */
  ghost predicate FirstQuote(t: Ticker, p: real) {
    && t.Ticker? && p > 0.0
    && exists i | 0 <= i < 4 :: Fields(t)[i] == Some(p) && forall j | 0 <= j < i :: !Truthy(Fields(t)[j])
  }

  /** A fetch answers with the first usable price of a supported exchange, and with nothing else. */
  lemma FetchIff(exchange: string, t: Ticker, p: real)
    ensures Fetch(exchange, t) == Some(p) <==> exchange in {"binance", "bybit", "okx", "mexc"} && FirstQuote(t, p)
  {
    if t.Ticker? {
      var f := Fields(t);
      if Truthy(f[0]) {
        assert TickerPrice(t) == if f[0].value > 0.0 then f[0] else None;
      } else if Truthy(f[1]) {
        assert TickerPrice(t) == if f[1].value > 0.0 then f[1] else None;
      } else if Truthy(f[2]) {
        assert TickerPrice(t) == if f[2].value > 0.0 then f[2] else None;
      } else {
        assert TickerPrice(t) == if f[3].Some? && f[3].value > 0.0 then f[3] else None;
      }
    }
  }

  /** Where a fetched price may come from: the requested exchange, or Binance after that had none. */
  ghost predicate Source(exchange: string, own: Ticker, binance: Ticker, p: real) {
    var name := Text.Lower(exchange);
    || (name in SUPPORTED_EXCHANGES && FirstQuote(own, p))
    || (name != BINANCE && FirstQuote(binance, p)
        && forall q :: !(name in SUPPORTED_EXCHANGES && FirstQuote(own, q)))
  }

  lemma QuotedIff(exchange: string, own: Ticker, binance: Ticker, p: real)
    ensures Quoted(exchange, own, binance) == Some(p) <==> Source(exchange, own, binance, p)
  {
    var name := Text.Lower(exchange);
    forall q ensures Fetch(name, own) == Some(q) <==> name in SUPPORTED_EXCHANGES && FirstQuote(own, q) {
      FetchIff(name, own, q);
    }
    if Fetch(name, own).Some? {
      assert FirstQuote(own, Fetch(name, own).value);
    }
    FetchIff(BINANCE, binance, p);
  }

  // ---------- runs ----------

  /** The cache read that opens a call, and the end of the fetch of a call whose read missed. */
  datatype Event =
    | Lookup(exchange: string, currency: string, at: int)
    | Finish(exchange: string, currency: string, own: Ticker, binance: Ticker, at: int)

  function Cached(s: Cache, exchange: string, currency: string, now: int): Option<real> {
    var key := Key(exchange, currency);
    if key in s && now < s[key].expiry then Some(s[key].price) else None
  }

  /** What the call returns at this step; at a lookup, None means that nothing is returned yet or ever. */
  function Answer(s: Cache, e: Event): Option<real> {
    match e
    case Lookup(exchange, currency, at) =>
      if Text.Upper(currency) == USDT then Some(1.0)
      else if !Listed(currency) then None
      else Cached(s, exchange, currency, at)
    case Finish(exchange, _, own, binance, _) => Quoted(exchange, own, binance)
  }

  function Step(s: Cache, e: Event): Cache {
    if e.Finish? && Answer(s, e).Some?
    then s[Key(e.exchange, e.currency) := Entry(Answer(s, e).value, e.at + TTL_MS)]
    else s
  }

  function Run(events: seq<Event>): Cache {
    if events == [] then map[] else Step(Run(events[..|events| - 1]), events[|events| - 1])
  }

  /** Only calls for a valued currency get as far as a fetch. */
  ghost predicate Sound(events: seq<Event>) {
    forall i | 0 <= i < |events| :: events[i].Finish? ==> Listed(events[i].currency)
  }

  /** The index after the last successful fetch for the pair; zero if there is none. */
  function LastFetch(events: seq<Event>, exchange: string, currency: string): (k: nat)
    ensures k <= |events|
    ensures k > 0 ==>
              var e := events[k - 1];
              e.Finish? && SamePair(e.exchange, e.currency, exchange, currency)
              && Quoted(e.exchange, e.own, e.binance).Some?
    ensures forall i | k <= i < |events| ::
              events[i].Finish? && SamePair(events[i].exchange, events[i].currency, exchange, currency) ==>
                Quoted(events[i].exchange, events[i].own, events[i].binance).None?
  {
    if events == [] then 0
    else
      var n := |events| - 1;
      var e := events[n];
      if e.Finish? && SamePair(e.exchange, e.currency, exchange, currency)
         && Quoted(e.exchange, e.own, e.binance).Some?
      then n + 1
      else LastFetch(events[..n], exchange, currency)
  }

  /** The cached price as a function of the trace: that of the last successful fetch, if younger than 60 s. */
  function Remembered(events: seq<Event>, exchange: string, currency: string, now: int): Option<real> {
    var k := LastFetch(events, exchange, currency);
    if k == 0 || now >= events[k - 1].at + 60_000 then None
    else Quoted(events[k - 1].exchange, events[k - 1].own, events[k - 1].binance)
  }

  /** In every run, whatever the interleaving, a cache read returns the price of the last successful fetch
      for the same exchange and currency up to case, if that fetch ended less than 60 s ago, and misses
      otherwise. */
  lemma {:induction false} CacheReflectsTrace(events: seq<Event>, exchange: string, currency: string, now: int)
    requires Sound(events) && Listed(currency)
    ensures Cached(Run(events), exchange, currency, now) == Remembered(events, exchange, currency, now)
  {
    if events != [] {
      var n := |events| - 1;
      var e := events[n];
      CacheReflectsTrace(events[..n], exchange, currency, now);
      if e.Finish? {
        KeyIdentifiesPair(e.exchange, e.currency, exchange, currency);
      }
    }
  }

  /** The guarantee for callers.  A price for anything but USDT that is returned anywhere in a run is
      positive and comes from a fetch of the same exchange and currency, up to case, that ended at that
      moment or less than 60 s before: from the requested exchange, or from Binance after that had none. */
  lemma EveryPriceHasASource(events: seq<Event>, i: nat, p: real)
    requires Sound(events) && i < |events|
    requires Text.Upper(events[i].currency) != USDT && Answer(Run(events[..i]), events[i]) == Some(p)
    ensures p > 0.0
    ensures exists j | 0 <= j <= i ::
              && events[j].Finish?
              && SamePair(events[j].exchange, events[j].currency, events[i].exchange, events[i].currency)
              && events[i].at < events[j].at + 60_000
              && Source(events[j].exchange, events[j].own, events[j].binance, p)
  {
    var e := events[i];
    var j: nat := i;
    if e.Lookup? {
      CacheReflectsTrace(events[..i], e.exchange, e.currency, e.at);
      j := LastFetch(events[..i], e.exchange, e.currency) - 1;
    }
    QuotedIff(events[j].exchange, events[j].own, events[j].binance, p);
    assert Source(events[j].exchange, events[j].own, events[j].binance, p);
  }

  /** The answer to a lookup in any run, without the cache: USDT is worth one, an unlisted currency has no
      price, and a listed one has that of its last successful fetch while it is younger than 60 s. */
  lemma LookupAnswers(events: seq<Event>, exchange: string, currency: string, now: int)
    requires Sound(events)
    ensures Answer(Run(events), Lookup(exchange, currency, now)) ==
            if Text.Upper(currency) == "USDT" then Some(1.0)
            else if Text.Upper(currency) in {"BTC", "SOL", "XRP", "BNB", "ETH"}
            then Remembered(events, exchange, currency, now)
            else None
  {
    if Listed(currency) {
      CacheReflectsTrace(events, exchange, currency, now);
    }
  }

  // ---------- the service ----------

  /** The lookup settles the call: no fetch follows. */
  predicate Settled(s: Cache, exchange: string, currency: string, now: int) {
    !Listed(currency) || Answer(s, Lookup(exchange, currency, now)).Some?
  }

  class PriceService {
    var redis: Cache

    constructor ()
      ensures redis == map[]
    {
      redis := map[];
    }

    /** One undisturbed call: `now` is the time of the cache read, `later` that of the write. */
    method GetUsdtPrice(exchange: string, currency: string, own: Ticker, binance: Ticker, now: int, later: int)
      returns (price: Option<real>)
      modifies this`redis
      ensures Settled(old(redis), exchange, currency, now) ==>
                price == Answer(old(redis), Lookup(exchange, currency, now)) && redis == old(redis)
      ensures !Settled(old(redis), exchange, currency, now) ==>
                var finish := Finish(exchange, currency, own, binance, later);
                price == Answer(old(redis), finish) && redis == Step(old(redis), finish)
    {
      var currencyNorm := Text.Upper(currency);
      if currencyNorm == USDT {
        return Some(1.0);
      }
      if currencyNorm !in VALUED_BASES {
        return None;
      }
      var exchangeNorm := Text.Lower(exchange);
      var key := "prices:usdt:" + exchangeNorm + ":" + currencyNorm;
      if key in redis && now < redis[key].expiry {
        return Some(redis[key].price);
      }
      price := Fetch(exchangeNorm, own);
      if price.None? && exchangeNorm != BINANCE {
        price := Fetch(BINANCE, binance);
      }
      if price.None? {
        return;
      }
      redis := redis[key := Entry(price.value, later + TTL_MS)];
    }
  }
}
