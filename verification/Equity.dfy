/** The balance summary (`routers/balances.py`): accumulation loops in 28-digit decimal arithmetic, and how
    far the reported equity can be from the exact sum. */
module Equity {
  import opened Prelude
  import opened Decimals

  /** One latest balance, with its USDT price if it has one. */
  datatype Holding = Holding(currency: string, free: Dec, used: Dec, price: Option<Dec>, observedAt: int)

  datatype Summary = Summary(equity: Dec, free: Dec, used: Dec, currencies: seq<Holding>, lastObserved: Option<int>)

  // ---------- the computed totals ----------

  function Amount(h: Holding, free: bool): Dec { if free then h.free else h.used }

  /** The total after the given balances, in order; a balance without a price is skipped. */
  function Total(hs: seq<Holding>, free: bool): Dec {
    if hs == [] then ZERO
    else
      var n := |hs| - 1;
      if hs[n].price.None? then Total(hs[..n], free)
      else Add(Total(hs[..n], free), Mul(Amount(hs[n], free), hs[n].price.value))
  }

  function Equity(hs: seq<Holding>): Dec { Add(Total(hs, true), Total(hs, false)) }

  function Flatten(accounts: seq<seq<Holding>>): seq<Holding> {
    if accounts == [] then [] else Flatten(accounts[..|accounts| - 1]) + accounts[|accounts| - 1]
  }

  // ---------- the exact totals ----------

  function Priced(hs: seq<Holding>): nat {
    if hs == [] then 0
    else Priced(hs[..|hs| - 1]) + if hs[|hs| - 1].price.Some? then 1 else 0
  }

  ghost function ExactTotal(hs: seq<Holding>, free: bool): real {
    if hs == [] then 0.0
    else
      var n := |hs| - 1;
      ExactTotal(hs[..n], free)
      + if hs[n].price.None? then 0.0 else Value(Amount(hs[n], free)) * Value(hs[n].price.value)
  }

  /** The sum of a term over the balances. */
  ghost function Sum(hs: seq<Holding>, term: Holding -> real): real {
    if hs == [] then 0.0 else Sum(hs[..|hs| - 1], term) + term(hs[|hs| - 1])
  }

  ghost function FreeTerm(h: Holding): real {
    if h.price.None? then 0.0 else Value(h.free) * Value(h.price.value)
  }

  ghost function UsedTerm(h: Holding): real {
    if h.price.None? then 0.0 else Value(h.used) * Value(h.price.value)
  }

  ghost function EquityTerm(h: Holding): real {
    if h.price.None? then 0.0 else (Value(h.free) + Value(h.used)) * Value(h.price.value)
  }

  /** The exact sum of free * price over the priced balances. */
  ghost function ExactFree(hs: seq<Holding>): real { Sum(hs, FreeTerm) }

  /** The exact sum of used * price over the priced balances. */
  ghost function ExactUsed(hs: seq<Holding>): real { Sum(hs, UsedTerm) }

  /** The exact sum of (free + used) * price over the priced balances. */
  ghost function ExactEquity(hs: seq<Holding>): real { Sum(hs, EquityTerm) }

  lemma {:induction false} EquityIsFreePlusUsed(hs: seq<Holding>)
    ensures ExactEquity(hs) == ExactTotal(hs, true) + ExactTotal(hs, false)
  {
    if hs != [] {
      var n := |hs| - 1;
      EquityIsFreePlusUsed(hs[..n]);
      if hs[n].price.Some? {
        var f, u, p := Value(hs[n].free), Value(hs[n].used), Value(hs[n].price.value);
        assert (f + u) * p == f * p + u * p;
      }
    }
  }

  lemma {:induction false} TotalsAreFreeAndUsed(hs: seq<Holding>)
    ensures ExactTotal(hs, true) == ExactFree(hs) && ExactTotal(hs, false) == ExactUsed(hs)
  {
    if hs != [] {
      TotalsAreFreeAndUsed(hs[..|hs| - 1]);
    }
  }

  // ---------- accumulated error ----------

  function Power(x: real, k: nat): real { if k == 0 then 1.0 else x * Power(x, k - 1) }

  /** `x` approximates `exact` after at most k roundings. */
  predicate Within(x: real, exact: real, k: nat) {
    Power(1.0 - U, k) * exact <= x <= Power(1.0 + U, k) * exact
  }

  lemma {:induction false} PowerBounds(k: nat)
    ensures 0.0 < Power(1.0 - U, k) <= 1.0 <= Power(1.0 + U, k)
  {
    if k > 0 {
      PowerBounds(k - 1);
      Monotone(1.0 - U, 1.0, Power(1.0 - U, k - 1));
      Monotone(1.0, 1.0 + U, Power(1.0 + U, k - 1));
      var low := Power(1.0 - U, k - 1);
      assert (1.0 - U) * low > 0.0;
    }
  }

  /** One more rounding. */
  lemma RoundingStep(x: real, r: real, exact: real, k: nat)
    requires Within(x, exact, k) && Near(r, x)
    ensures Within(r, exact, k + 1)
  {
    var low, high := Power(1.0 - U, k), Power(1.0 + U, k);
    Monotone(low * exact, x, 1.0 - U);
    Monotone(x, high * exact, 1.0 + U);
    assert (1.0 - U) * (low * exact) == ((1.0 - U) * low) * exact;
    assert (1.0 + U) * (high * exact) == ((1.0 + U) * high) * exact;
  }

  lemma SumWithin(x: real, y: real, a: real, b: real, k: nat)
    requires Within(x, a, k) && Within(y, b, k)
    ensures Within(x + y, a + b, k)
  {
    var low, high := Power(1.0 - U, k), Power(1.0 + U, k);
    assert low * (a + b) == low * a + low * b;
    assert high * (a + b) == high * a + high * b;
  }

  /** Allowing more roundings only widens the bound. */
  lemma {:induction false} Widen(x: real, exact: real, j: nat, k: nat)
    requires Within(x, exact, j) && j <= k && exact >= 0.0
    ensures Within(x, exact, k)
    decreases k
  {
    if j < k {
      Widen(x, exact, j, k - 1);
      PowerBounds(k - 1);
      var low, high := Power(1.0 - U, k - 1), Power(1.0 + U, k - 1);
      Monotone(1.0 - U, 1.0, low);
      Monotone(1.0, 1.0 + U, high);
      Monotone((1.0 - U) * low, low, exact);
      Monotone(high, (1.0 + U) * high, exact);
    }
  }

  lemma ProductWithin(a: Dec, p: Dec)
    ensures Within(Value(Mul(a, p)), Value(a) * Value(p), 1) && Value(a) * Value(p) >= 0.0
  {
    MulError(a, p);
    MulValue(a, p);
    ValueNonNegative(ExactMul(a, p));
    assert Power(1.0 - U, 0) == 1.0 && Power(1.0 + U, 0) == 1.0;
    assert Power(1.0 - U, 1) == 1.0 - U && Power(1.0 + U, 1) == 1.0 + U;
  }

  /** Adding to zero is exact. */
  lemma FirstAddIsExact(a: Dec, p: Dec)
    ensures Add(ZERO, Mul(a, p)) == Mul(a, p)
  {
    FixIsIdempotent(ExactMul(a, p));
  }

  /** One more product added to a running total that has been rounded k times. */
  lemma AddendWithin(total: real, product: real, rounded: real, exactTotal: real, exactProduct: real, k: nat)
    requires Within(total, exactTotal, k) && Within(product, exactProduct, 1) && exactProduct >= 0.0 && k >= 1
    requires Near(rounded, total + product)
    ensures Within(rounded, exactTotal + exactProduct, k + 1)
  {
    Widen(product, exactProduct, 1, k);
    SumWithin(total, product, exactTotal, exactProduct, k);
    RoundingStep(total + product, rounded, exactTotal + exactProduct, k);
  }

  lemma FirstProductWithin(a: Dec, p: Dec)
    ensures Within(Value(Add(ZERO, Mul(a, p))), Value(a) * Value(p), 1)
  {
    ProductWithin(a, p);
    FirstAddIsExact(a, p);
  }

  /** `p` is a product that has been rounded once, `exact` its exact value. */
  lemma NextProductWithin(before: Dec, p: Dec, exactBefore: real, exact: real, k: nat)
    requires Within(Value(before), exactBefore, k) && Within(Value(p), exact, 1) && exact >= 0.0 && k >= 1
    ensures Within(Value(Add(before, p)), exactBefore + exact, k + 1)
  {
    AddError(before, p);
    AddendWithin(Value(before), Value(p), Value(Add(before, p)), exactBefore, exact, k);
  }

  /** The total of a non-empty list whose last balance has a price. */
  lemma TotalStep(hs: seq<Holding>, free: bool)
    requires hs != [] && hs[|hs| - 1].price.Some?
    requires var before := hs[..|hs| - 1];
             && Within(Value(Total(before, free)), ExactTotal(before, free), Priced(before))
             && (Priced(before) == 0 ==> Total(before, free) == ZERO && ExactTotal(before, free) == 0.0)
    ensures Within(Value(Total(hs, free)), ExactTotal(hs, free), Priced(hs))
  {
    var n := |hs| - 1;
    var a, p := Amount(hs[n], free), hs[n].price.value;
    var before, product := Total(hs[..n], free), Mul(a, p);
    var exact, v := ExactTotal(hs[..n], free), Value(a) * Value(p);
    assert Total(hs, free) == Add(before, product);
    assert ExactTotal(hs, free) == exact + v;
    if Priced(hs[..n]) == 0 {
      FirstProductWithin(a, p);
    } else {
      ProductWithin(a, p);
      NextProductWithin(before, product, exact, v, Priced(hs[..n]));
    }
  }

  /** The running total after n priced balances carries at most n roundings. */
  lemma {:induction false} TotalWithin(hs: seq<Holding>, free: bool)
    ensures Within(Value(Total(hs, free)), ExactTotal(hs, free), Priced(hs))
    ensures Priced(hs) == 0 ==> Total(hs, free) == ZERO && ExactTotal(hs, free) == 0.0
  {
    if hs == [] {
      ZeroValue(ZERO);
    } else {
      var n := |hs| - 1;
      TotalWithin(hs[..n], free);
      if hs[n].price.Some? {
        TotalStep(hs, free);
      }
    }
  }

  lemma AddWithin(a: Dec, b: Dec, exact: real, k: nat)
    requires Within(Value(a) + Value(b), exact, k)
    ensures Within(Value(Add(a, b)), exact, k + 1)
  {
    AddError(a, b);
    RoundingStep(Value(a) + Value(b), Value(Add(a, b)), exact, k);
  }

  /** For any non-negative balances and prices, the computed equity lies within the factors (1-u)^(n+1)
      and (1+u)^(n+1) of the exact sum of (free + used) * price over the n priced balances, with u half a
      unit in the 28th digit; balances without a price contribute nothing. */
  lemma EquityRoundingBound(hs: seq<Holding>)
    ensures Within(Value(Equity(hs)), ExactEquity(hs), Priced(hs) + 1)
  {
    TotalWithin(hs, true);
    TotalWithin(hs, false);
    EquityIsFreePlusUsed(hs);
    SumWithin(Value(Total(hs, true)), Value(Total(hs, false)), ExactTotal(hs, true), ExactTotal(hs, false), Priced(hs));
    AddWithin(Total(hs, true), Total(hs, false), ExactEquity(hs), Priced(hs));
  }

  /** Each of the two totals carries one rounding for each priced balance at most. */
  lemma TotalsRoundingBound(hs: seq<Holding>)
    ensures Within(Value(Total(hs, true)), ExactFree(hs), Priced(hs))
    ensures Within(Value(Total(hs, false)), ExactUsed(hs), Priced(hs))
  {
    TotalWithin(hs, true);
    TotalWithin(hs, false);
    TotalsAreFreeAndUsed(hs);
  }

  // ---------- the loops ----------

  lemma FlattenExtends(accounts: seq<seq<Holding>>, k: nat)
    requires k < |accounts|
    ensures Flatten(accounts[..k + 1]) == Flatten(accounts[..k]) + accounts[k]
  {
    assert accounts[..k + 1][..k] == accounts[..k];
  }

  /** The latest observation among the balances. */
  predicate IsLatest(last: Option<int>, hs: seq<Holding>) {
    match last
    case None => hs == []
    case Some(t) => (exists h | h in hs :: h.observedAt == t) && forall h | h in hs :: h.observedAt <= t
  }

  /** What the loops have accumulated over the balances in `all`. */
  predicate Tallied(all: seq<Holding>, free: Dec, used: Dec, last: Option<int>) {
    free == Total(all, true) && used == Total(all, false) && IsLatest(last, all)
  }

  function Later(last: Option<int>, h: Holding): Option<int> {
    if last.None? || h.observedAt > last.value then Some(h.observedAt) else last
  }

  function Accumulate(total: Dec, h: Holding, free: bool): Dec {
    if h.price.None? then total else Add(total, Mul(Amount(h, free), h.price.value))
  }

  lemma TalliedExtends(all: seq<Holding>, free: Dec, used: Dec, last: Option<int>, h: Holding)
    requires Tallied(all, free, used, last)
    ensures Tallied(all + [h], Accumulate(free, h, true), Accumulate(used, h, false), Later(last, h))
  {
    assert (all + [h])[..|all|] == all;
    var t := Later(last, h);
    assert h in all + [h];
    assert forall g | g in all + [h] :: g == h || g in all;
    if t == last {
      var g :| g in all && g.observedAt == t.value;
      assert g in all + [h];
    }
  }

  method AddBalance(free: Dec, used: Dec, last: Option<int>, h: Holding, ghost all: seq<Holding>)
    returns (free': Dec, used': Dec, last': Option<int>)
    requires Tallied(all, free, used, last)
    ensures Tallied(all + [h], free', used', last')
  {
    free', used', last' := free, used, last;
    TalliedExtends(all, free, used, last, h);
    if last.None? || h.observedAt > last.value {
      last' := Some(h.observedAt);
    }
    if h.price.Some? {
      free' := Add(free, Mul(h.free, h.price.value));
      used' := Add(used, Mul(h.used, h.price.value));
    }
  }

  /** The inner loop: the latest balances of one account. */
  method AddAccount(all: seq<Holding>, free: Dec, used: Dec, last: Option<int>, account: seq<Holding>)
    returns (all': seq<Holding>, free': Dec, used': Dec, last': Option<int>)
    requires Tallied(all, free, used, last)
    ensures all' == all + account && Tallied(all', free', used', last')
  {
    all', free', used', last' := all, free, used, last;
    for i := 0 to |account|
      invariant all' == all + account[..i] && Tallied(all', free', used', last')
    {
      assert all + account[..i + 1] == all + account[..i] + [account[i]];
      free', used', last' := AddBalance(free', used', last', account[i], all');
      all' := all' + [account[i]];
    }
  }

  /** The summary of a user's accounts. */
  method BalancesSummary(accounts: seq<seq<Holding>>) returns (s: Summary)
    ensures s.currencies == Flatten(accounts)
    ensures s.free == Total(s.currencies, true) && s.used == Total(s.currencies, false)
    ensures s.equity == Equity(s.currencies)
    ensures Within(Value(s.equity), ExactEquity(s.currencies), Priced(s.currencies) + 1)
    ensures Within(Value(s.free), ExactFree(s.currencies), Priced(s.currencies))
    ensures Within(Value(s.used), ExactUsed(s.currencies), Priced(s.currencies))
    ensures IsLatest(s.lastObserved, s.currencies)
  {
    var free, used := ZERO, ZERO;
    var all: seq<Holding> := [];
    var last: Option<int> := None;
    for k := 0 to |accounts|
      invariant all == Flatten(accounts[..k]) && Tallied(all, free, used, last)
    {
      FlattenExtends(accounts, k);
      all, free, used, last := AddAccount(all, free, used, last, accounts[k]);
    }
    assert accounts[..|accounts|] == accounts;
    EquityRoundingBound(all);
    TotalsRoundingBound(all);
    s := Summary(Add(free, used), free, used, all, last);
  }
}
