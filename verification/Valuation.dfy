/** The balance summary from end to end (`routers/balances.py`): the latest balances that the ranking query
    returns, the prices that the lookups answer, and the error of the equity computed from them. */
module Valuation {
  import opened Prelude
  import opened Domain
  import opened Decimals
  import opened Equity
  import LatestBalances
  import PriceCache
  import Text

  /** A latest balance, the answer of its price lookup, and the holding that the loops work on. */
  datatype Line = Line(row: Balance, price: Option<real>, holding: Holding)

  /** One credential of the user and its lines. */
  datatype Account = Account(credential: Uuid, exchange: string, lines: seq<Line>)

  function RowsOf(lines: seq<Line>): seq<Balance> {
    seq(|lines|, i requires 0 <= i < |lines| => lines[i].row)
  }

  function HoldingsOf(lines: seq<Line>): seq<Holding> {
    seq(|lines|, i requires 0 <= i < |lines| => lines[i].holding)
  }

  /** A call for this exchange and currency ended in the run with the given price. */
  ghost predicate Answered(events: seq<PriceCache.Event>, exchange: string, currency: string, price: Option<real>) {
    exists k | 0 <= k < |events| ::
      && events[k].exchange == exchange && events[k].currency == currency
      && PriceCache.Answer(PriceCache.Run(events[..k]), events[k]) == price
      && (events[k].Lookup? ==> PriceCache.Settled(PriceCache.Run(events[..k]), exchange, currency, events[k].at))
  }

  /** The holding carries the amounts of the row and the price as decimals. */
  ghost predicate Carries(l: Line) {
    var h, b := l.holding, l.row;
    && h.currency == b.currency && h.observedAt == b.observedAt
    && b.free == Finite(Value(h.free)) && b.used == Finite(Value(h.used))
    && l.price == if h.price.Some? then Some(Value(h.price.value)) else None
  }

  /** The account is what the stores say: the rows are the query's, and each price answered a lookup. */
  ghost predicate FromStores(a: Account, log: seq<Balance>, events: seq<PriceCache.Event>) {
    && RowsOf(a.lines) == LatestBalances.LatestForCredential(log, a.credential)
    && forall l | l in a.lines :: Carries(l) && Answered(events, a.exchange, l.row.currency, l.price)
  }

  function Amount(q: Quantity): real { if q.Finite? then q.value else 0.0 }

  /** What a row, its free amount or its used amount is worth at its price; without a price, nothing. */
  function Worth(l: Line): real {
    if l.price.None? then 0.0 else (Amount(l.row.free) + Amount(l.row.used)) * l.price.value
  }

  function FreeWorth(l: Line): real { if l.price.None? then 0.0 else Amount(l.row.free) * l.price.value }

  function UsedWorth(l: Line): real { if l.price.None? then 0.0 else Amount(l.row.used) * l.price.value }

  /** The sum of a term over lines, and over the lines of all accounts. */
  function LineSum(lines: seq<Line>, term: Line -> real): real {
    if lines == [] then 0.0 else LineSum(lines[..|lines| - 1], term) + term(lines[|lines| - 1])
  }

  function AccountSum(accounts: seq<Account>, term: Line -> real): real {
    if accounts == [] then 0.0
    else AccountSum(accounts[..|accounts| - 1], term) + LineSum(accounts[|accounts| - 1].lines, term)
  }

  /** What the loops of the summary work on, account by account. */
  function PerAccount(accounts: seq<Account>): seq<seq<Holding>> {
    seq(|accounts|, i requires 0 <= i < |accounts| => HoldingsOf(accounts[i].lines))
  }

  lemma TermsAgree(l: Line)
    requires Carries(l)
    ensures EquityTerm(l.holding) == Worth(l)
    ensures FreeTerm(l.holding) == FreeWorth(l) && UsedTerm(l.holding) == UsedWorth(l)
  {
  }

  lemma {:induction false} LineSumIsSum(lines: seq<Line>, f: Holding -> real, g: Line -> real)
    requires forall l | l in lines :: f(l.holding) == g(l)
    ensures Sum(HoldingsOf(lines), f) == LineSum(lines, g)
  {
    if lines != [] {
      var n := |lines| - 1;
      assert lines[n] in lines && forall l | l in lines[..n] :: l in lines;
      LineSumIsSum(lines[..n], f, g);
      assert HoldingsOf(lines)[..n] == HoldingsOf(lines[..n]);
    }
  }

  lemma {:induction false} SumConcatenates(a: seq<Holding>, b: seq<Holding>, f: Holding -> real)
    ensures Sum(a + b, f) == Sum(a, f) + Sum(b, f)
    decreases |b|
  {
    if b == [] {
      assert a + b == a;
    } else {
      var n := |b| - 1;
      SumConcatenates(a, b[..n], f);
      assert (a + b)[..|a| + n] == a + b[..n];
    }
  }

  lemma {:induction false} AccountSumIsSum(accounts: seq<Account>, f: Holding -> real, g: Line -> real)
    requires forall a, l | a in accounts && l in a.lines :: f(l.holding) == g(l)
    ensures Sum(Flatten(PerAccount(accounts)), f) == AccountSum(accounts, g)
  {
    if accounts != [] {
      var init, last := accounts[..|accounts| - 1], accounts[|accounts| - 1];
      assert last in accounts && forall a | a in init :: a in accounts;
      AccountSumIsSum(init, f, g);
      LineSumIsSum(last.lines, f, g);
      assert PerAccount(accounts)[..|init|] == PerAccount(init);
      SumConcatenates(Flatten(PerAccount(init)), HoldingsOf(last.lines), f);
    }
  }

  lemma SumsAreExact(accounts: seq<Account>)
    requires forall a, l | a in accounts && l in a.lines :: Carries(l)
    ensures var hs := Flatten(PerAccount(accounts));
      && ExactEquity(hs) == AccountSum(accounts, Worth)
      && ExactFree(hs) == AccountSum(accounts, FreeWorth) && ExactUsed(hs) == AccountSum(accounts, UsedWorth)
  {
    forall a, l | a in accounts && l in a.lines
      ensures EquityTerm(l.holding) == Worth(l)
      ensures FreeTerm(l.holding) == FreeWorth(l) && UsedTerm(l.holding) == UsedWorth(l)
    {
      TermsAgree(l);
    }
    AccountSumIsSum(accounts, EquityTerm, Worth);
    AccountSumIsSum(accounts, FreeTerm, FreeWorth);
    AccountSumIsSum(accounts, UsedTerm, UsedWorth);
  }

  /** The newest row of its currency in the credential's log. */
  ghost predicate Newest(log: seq<Balance>, credential: Uuid, b: Balance) {
    && b in log && b.credential == credential
    && forall c | c in log && LatestBalances.SamePartition(c, b) && c != b :: LatestBalances.Newer(b, c)
  }

  ghost predicate PriceFits(currency: string, price: Option<real>) {
    && (Text.Upper(currency) == PriceCache.USDT ==> price == Some(1.0))
    && (price.Some? ==>
          price.value > 0.0 && (Text.Upper(currency) == PriceCache.USDT || PriceCache.Listed(currency)))
  }

  /** The rows of the account are exactly the newest of each currency, and its prices are positive, one for
      USDT, and absent for currencies that are not listed. */
  ghost predicate Faithful(a: Account, log: seq<Balance>) {
    && (forall b :: b in RowsOf(a.lines) <==> Newest(log, a.credential, b))
    && (forall l | l in a.lines :: PriceFits(l.row.currency, l.price))
  }

  lemma PricesFit(events: seq<PriceCache.Event>, exchange: string, currency: string, price: Option<real>)
    requires PriceCache.Sound(events) && Answered(events, exchange, currency, price)
    ensures PriceFits(currency, price)
  {
    var k :| 0 <= k < |events| && events[k].exchange == exchange && events[k].currency == currency
             && PriceCache.Answer(PriceCache.Run(events[..k]), events[k]) == price;
    if price.Some? && Text.Upper(currency) != PriceCache.USDT {
      PriceCache.EveryPriceHasASource(events, k, price.value);
    }
  }

  lemma StoresAreFaithful(a: Account, log: seq<Balance>, events: seq<PriceCache.Event>)
    requires LatestBalances.DistinctIds(log) && PriceCache.Sound(events) && FromStores(a, log, events)
    ensures Faithful(a, log)
  {
    forall b ensures b in RowsOf(a.lines) <==> Newest(log, a.credential, b) {
      LatestBalances.QueryReturnsNewestPerCurrency(log, a.credential, b);
    }
    forall l | l in a.lines ensures PriceFits(l.row.currency, l.price) {
      PricesFit(events, a.exchange, l.row.currency, l.price);
    }
  }

  lemma EquityIsNearWorth(accounts: seq<Account>)
    requires forall a, l | a in accounts && l in a.lines :: Carries(l)
    ensures var hs := Flatten(PerAccount(accounts));
      && Within(Value(Equity.Equity(hs)), AccountSum(accounts, Worth), Priced(hs) + 1)
      && Within(Value(Total(hs, true)), AccountSum(accounts, FreeWorth), Priced(hs))
      && Within(Value(Total(hs, false)), AccountSum(accounts, UsedWorth), Priced(hs))
  {
    EquityRoundingBound(Flatten(PerAccount(accounts)));
    TotalsRoundingBound(Flatten(PerAccount(accounts)));
    SumsAreExact(accounts);
  }

  /** The summary as a whole.  For any snapshot log and any run of price lookups, the equity computed from the
      accounts lies within (1-u)^(n+1) and (1+u)^(n+1) of the exact worth, at the prices the lookups answered,
      of exactly the newest row of each currency of each credential, and the free and used totals within
      (1-u)^n and (1+u)^n of the exact worth of those rows' free and used columns; n counts the priced rows. */
  lemma SummaryIsWorthOfLatest(log: seq<Balance>, events: seq<PriceCache.Event>, accounts: seq<Account>)
    requires LatestBalances.DistinctIds(log) && PriceCache.Sound(events)
    requires forall a | a in accounts :: FromStores(a, log, events)
    ensures var hs := Flatten(PerAccount(accounts));
      && Within(Value(Equity.Equity(hs)), AccountSum(accounts, Worth), Priced(hs) + 1)
      && Within(Value(Total(hs, true)), AccountSum(accounts, FreeWorth), Priced(hs))
      && Within(Value(Total(hs, false)), AccountSum(accounts, UsedWorth), Priced(hs))
    ensures forall a | a in accounts :: Faithful(a, log)
  {
    EquityIsNearWorth(accounts);
    forall a | a in accounts ensures Faithful(a, log) {
      StoresAreFaithful(a, log, events);
    }
  }
}
