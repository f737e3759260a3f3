/**
 * The monitoring pass of `main`: for each catalog entry on the "amazon"
 * site, take the observed stock flag and price, record the price in the
 * product's rolling history, decide whether to notify, and store the new
 * stock flag. State is keyed by product name.
 *
 * Fetching and parsing the page, the clock, the chat webhook and the JSON
 * files are not modelled: the observations and the dates are inputs, and a
 * notification is an output value.
 */
module Tracker {
  import opened Wrappers
  import opened History
  import HistoryText

  /** How many samples a product's history keeps (`prices[-50:]`). */
  const HistoryCap: nat := 50
  /** The only site the tracker knows how to check. */
  const AmazonSite: string := "amazon"

  /** A catalog entry of `products.json`. */
  datatype Product = Product(name: string, site: string, url: string, maxPrice: real)

  /** What one fetch of a product page yields: whether the add-to-cart
      button is there, and the price, if a price tag was found. */
  datatype Observation = Observation(inStock: bool, price: Option<real>)

  /** A product's record in `state.json`. */
  datatype Item = Item(inStock: bool, prices: seq<Sample>)

  type State = map<string, Item>

  /** The arguments of one `send_discord` call. */
  datatype Notice = Notice(product: Product, price: real, history: seq<Sample>)

  /** The state and the possible notification after one catalog entry. */
  datatype Outcome = Outcome(state: State, notice: Option<Notice>)

  /** The state after a sequence of catalog entries, and for each entry the
      notification it sent, if any. */
  datatype Pass = Pass(state: State, sent: seq<Option<Notice>>)

  /** The record `setdefault` creates for a product seen for the first time. */
  const Fresh: Item := Item(false, [])

  /** Python truthiness of the price: no price and a zero price both count
      as "no price". */
  predicate Truthy(price: Option<real>) { price.Some? && price.value != 0.0 }

  /** The record `setdefault` yields: the stored one, or a fresh one. */
  function Stored(state: State, name: string): Item
  {
    if name in state then state[name] else Fresh
  }

  /** Lines 57-62: a truthy price is appended with the current date and the
      history is cut to its most recent 50 samples; otherwise the history is
      left as it is. */
  function Record(prices: seq<Sample>, price: Option<real>, date: string): (r: seq<Sample>)
    ensures !Truthy(price) ==> r == prices
    ensures Truthy(price) ==> |r| == Min(HistoryCap, |prices| + 1)
    ensures Truthy(price) ==> r[|r| - 1] == Sample(price.value, date)
    ensures Truthy(price) ==> r == (prices + [Sample(price.value, date)])[|prices| + 1 - |r|..]
    ensures |prices| <= HistoryCap ==> |r| <= HistoryCap
  {
    if Truthy(price) then LastN(prices + [Sample(price.value, date)], HistoryCap) else prices
  }

  /** Line 64: notify on the rising edge only, and only at a known price
      within the target. */
  predicate Notifies(wasInStock: bool, obs: Observation, maxPrice: real)
  {
    obs.inStock && Truthy(obs.price) && obs.price.value <= maxPrice && !wasInStock
  }

  /** Lines 50-67 for one catalog entry. */
  function Step(state: State, p: Product, obs: Observation, date: string): (r: Outcome)
    // another site: skipped, nothing changes, no entry is created
    ensures p.site != AmazonSite ==> r == Outcome(state, None)
    ensures p.site == AmazonSite ==> p.name in r.state
    // the stored flag becomes the observed one, whatever else happens
    ensures p.site == AmazonSite ==> r.state[p.name].inStock == obs.inStock
    ensures p.site == AmazonSite ==>
      r.state[p.name].prices == Record(Stored(state, p.name).prices, obs.price, date)
    // the edge trigger reads the flag stored before the update
    ensures r.notice.Some? <==>
      p.site == AmazonSite && Notifies(Stored(state, p.name).inStock, obs, p.maxPrice)
    ensures r.notice.Some? ==>
      r.notice.value == Notice(p, obs.price.value, r.state[p.name].prices)
    // a product not yet in the state notifies on its first in-stock sighting at a good price
    ensures p.site == AmazonSite && p.name !in state ==>
      (r.notice.Some? <==> obs.inStock && Truthy(obs.price) && obs.price.value <= p.maxPrice)
    // a price above target never notifies, and neither does staying in stock
    ensures Truthy(obs.price) && obs.price.value > p.maxPrice ==> r.notice.None?
    ensures Stored(state, p.name).inStock ==> r.notice.None?
  {
    if p.site != AmazonSite then Outcome(state, None)
    else
      var item := Stored(state, p.name);
      var prices := Record(item.prices, obs.price, date);
      var notice := if Notifies(item.inStock, obs, p.maxPrice)
                    then Some(Notice(p, obs.price.value, prices)) else None;
      Outcome(state[p.name := Item(obs.inStock, prices)], notice)
  }

  /** Only the product's own record is touched: it is created if missing,
      and every other record is left as it was. */
  lemma StepFrame(state: State, p: Product, obs: Observation, date: string)
    ensures var s := Step(state, p, obs, date).state;
      && (p.site == AmazonSite ==> s.Keys == state.Keys + {p.name})
      && (p.site != AmazonSite ==> s.Keys == state.Keys)
      && forall k :: k in state && k != p.name ==> k in s && s[k] == state[k]
  {
  }

  /** The loop of `main` over the first `|products|` catalog entries, one
      step per entry, in catalog order. */
  function RunSpec(state: State, products: seq<Product>, obs: seq<Observation>, dates: seq<string>): (r: Pass)
    requires |obs| == |products| && |dates| == |products|
    ensures |r.sent| == |products|
    decreases |products|
  {
    if products == [] then Pass(state, [])
    else
      var n := |products| - 1;
      var before := RunSpec(state, products[..n], obs[..n], dates[..n]);
      var o := Step(before.state, products[n], obs[n], dates[n]);
      Pass(o.state, before.sent + [o.notice])
  }

  /** No stored history is longer than the cap. */
  predicate CapHolds(state: State)
  {
    forall k :: k in state ==> |state[k].prices| <= HistoryCap
  }

  /** The names of the catalog entries the loop does not skip. */
  function CheckedNames(products: seq<Product>): set<string>
  {
    if products == [] then {}
    else
      var n := |products| - 1;
      CheckedNames(products[..n]) + (if products[n].site == AmazonSite then {products[n].name} else {})
  }

  /** Lines 49-67: the whole monitoring pass over the catalog, with the
      per-entry observation and clock reading supplied by the caller. */
  method Run(state0: State, products: seq<Product>, obs: seq<Observation>, dates: seq<string>)
    returns (state: State, sent: seq<Option<Notice>>)
    requires |obs| == |products| && |dates| == |products|
    ensures Pass(state, sent) == RunSpec(state0, products, obs, dates)
    ensures CapHolds(state0) ==> CapHolds(state)
  {
    state, sent := state0, [];
    for i := 0 to |products|
      invariant Pass(state, sent) == RunSpec(state0, products[..i], obs[..i], dates[..i])
    {
      ghost var before, sentBefore := state, sent;
      ghost var step := Step(before, products[i], obs[i], dates[i]);
      assert RunSpec(state0, products[..i + 1], obs[..i + 1], dates[..i + 1])
        == Pass(step.state, sentBefore + [step.notice]) by {
        assert products[..i + 1][..i] == products[..i];
        assert obs[..i + 1][..i] == obs[..i];
        assert dates[..i + 1][..i] == dates[..i];
      }
      var p := products[i];
      if p.site != AmazonSite {
        sent := sent + [None];
        continue;
      }
      var notice;
      state, notice := Track(state, p, obs[i], dates[i]);
      sent := sent + [notice];
    }
    assert products[..|products|] == products;
    assert obs[..|obs|] == obs;
    assert dates[..|dates|] == dates;
    if CapHolds(state0) {
      RunKeepsCap(state0, products, obs, dates);
    }
  }

  /** Lines 55-67: the update for one "amazon" catalog entry. */
  method Track(state0: State, p: Product, obs: Observation, date: string)
    returns (state: State, notice: Option<Notice>)
    requires p.site == AmazonSite
    ensures Outcome(state, notice) == Step(state0, p, obs, date)
  {
    ghost var stored := Stored(state0, p.name);
    ghost var recorded := Record(stored.prices, obs.price, date);
    var inStock, price := obs.inStock, obs.price;
    // `setdefault`: the stored record, or a fresh one that is put in the
    // state; the changes below go through it and are written back once
    var item := if p.name in state0 then state0[p.name] else Fresh;
    if Truthy(price) {
      var prices := item.prices + [Sample(price.value, date)];
      if |prices| > HistoryCap {
        prices := prices[|prices| - HistoryCap..];
      }
      item := item.(prices := prices);
    }
    assert item == Item(stored.inStock, recorded);
    notice := None;
    if inStock && Truthy(price) && price.value <= p.maxPrice && !item.inStock {
      notice := Some(Notice(p, price.value, item.prices));
    }
    assert notice == if Notifies(stored.inStock, obs, p.maxPrice)
                     then Some(Notice(p, obs.price.value, recorded)) else None;
    item := item.(inStock := inStock);
    state := state0[p.name := item];
  }

  /** A pass never lets a history grow past the cap. */
  lemma {:induction false} RunKeepsCap(state: State, products: seq<Product>, obs: seq<Observation>, dates: seq<string>)
    requires |obs| == |products| && |dates| == |products|
    requires CapHolds(state)
    ensures CapHolds(RunSpec(state, products, obs, dates).state)
    decreases |products|
  {
    if products != [] {
      var n := |products| - 1;
      RunKeepsCap(state, products[..n], obs[..n], dates[..n]);
    }
  }

  /** A pass adds a record for every checked name and no other, and leaves
      the record of every name it does not check exactly as it was. */
  lemma {:induction false} RunFrame(state: State, products: seq<Product>, obs: seq<Observation>, dates: seq<string>)
    requires |obs| == |products| && |dates| == |products|
    ensures RunSpec(state, products, obs, dates).state.Keys == state.Keys + CheckedNames(products)
    ensures forall k :: k in state && k !in CheckedNames(products) ==>
      RunSpec(state, products, obs, dates).state[k] == state[k]
    decreases |products|
  {
    if products != [] {
      var n := |products| - 1;
      var before := RunSpec(state, products[..n], obs[..n], dates[..n]);
      RunFrame(state, products[..n], obs[..n], dates[..n]);
      StepFrame(before.state, products[n], obs[n], dates[n]);
    }
  }

  /** The notification of entry `k` is the one its own step sends, from the
      state the earlier entries left. */
  lemma {:induction false} RunSentAt(state: State, products: seq<Product>, obs: seq<Observation>, dates: seq<string>, k: nat)
    requires |obs| == |products| && |dates| == |products|
    requires k < |products|
    ensures RunSpec(state, products, obs, dates).sent[k] ==
      Step(RunSpec(state, products[..k], obs[..k], dates[..k]).state, products[k], obs[k], dates[k]).notice
    decreases |products|
  {
    var n := |products| - 1;
    var before := RunSpec(state, products[..n], obs[..n], dates[..n]);
    var full := RunSpec(state, products, obs, dates);
    assert full.sent == before.sent + [Step(before.state, products[n], obs[n], dates[n]).notice];
    if k < n {
      assert products[..n][..k] == products[..k];
      assert obs[..n][..k] == obs[..k];
      assert dates[..n][..k] == dates[..k];
      assert products[..n][k] == products[k] && obs[..n][k] == obs[k] && dates[..n][k] == dates[k];
      RunSentAt(state, products[..n], obs[..n], dates[..n], k);
      assert full.sent[k] == before.sent[k];
    } else {
      assert products[..k] == products[..n];
      assert full.sent[k] == Step(before.state, products[n], obs[n], dates[n]).notice;
    }
  }

  /** Two passes in a row are one pass over both lists: the second starts
      from the state the first leaves, and the notices come out in order.
      So what is proved about consecutive checks of one product holds
      across runs of the tracker as well as within one. */
  lemma {:induction false} RunSpecAppend(state: State, a: seq<Product>, oa: seq<Observation>, da: seq<string>,
                                         b: seq<Product>, ob: seq<Observation>, db: seq<string>)
    requires |oa| == |a| && |da| == |a|
    requires |ob| == |b| && |db| == |b|
    ensures var first := RunSpec(state, a, oa, da);
      var second := RunSpec(first.state, b, ob, db);
      RunSpec(state, a + b, oa + ob, da + db) == Pass(second.state, first.sent + second.sent)
    decreases |b|
  {
    var first := RunSpec(state, a, oa, da);
    if b == [] {
      assert a + b == a && oa + ob == oa && da + db == da;
      assert first.sent + [] == first.sent;
    } else {
      var n := |b| - 1;
      var m := |a| + n;
      assert (a + b)[..m] == a + b[..n];
      assert (oa + ob)[..m] == oa + ob[..n];
      assert (da + db)[..m] == da + db[..n];
      assert (a + b)[m] == b[n] && (oa + ob)[m] == ob[n] && (da + db)[m] == db[n];
      RunSpecAppend(state, a, oa, da, b[..n], ob[..n], db[..n]);
      var mid := RunSpec(first.state, b[..n], ob[..n], db[..n]);
      var o := Step(mid.state, b[n], ob[n], db[n]);
      assert RunSpec(first.state, b, ob, db) == Pass(o.state, mid.sent + [o.notice]);
      assert first.sent + mid.sent + [o.notice] == first.sent + (mid.sent + [o.notice]);
    }
  }

  /** The stock flag stored under `name` once the entries `products` have
      been checked: the flag observed by the last checked entry of that
      name, or the flag stored before when no entry of that name was
      checked. */
  function LastFlag(state: State, name: string, products: seq<Product>, obs: seq<Observation>): bool
    requires |obs| == |products|
    decreases |products|
  {
    if products == [] then Stored(state, name).inStock
    else
      var n := |products| - 1;
      if products[n].site == AmazonSite && products[n].name == name then obs[n].inStock
      else LastFlag(state, name, products[..n], obs[..n])
  }

  /** Whatever other products the catalog lists, a pass leaves each name's
      stock flag as its last check saw it. */
  lemma {:induction false} RunStoredFlag(state: State, products: seq<Product>, obs: seq<Observation>, dates: seq<string>,
                                         name: string)
    requires |obs| == |products| && |dates| == |products|
    ensures Stored(RunSpec(state, products, obs, dates).state, name).inStock
      == LastFlag(state, name, products, obs)
    decreases |products|
  {
    if products != [] {
      var n := |products| - 1;
      var before := RunSpec(state, products[..n], obs[..n], dates[..n]).state;
      RunStoredFlag(state, products[..n], obs[..n], dates[..n], name);
      StepFrame(before, products[n], obs[n], dates[n]);
      if products[n].site == AmazonSite && products[n].name == name {
        StepStored(before, products[n], obs[n], dates[n]);
      }
    }
  }

  /** The de-duplication of line 64 for a whole catalog: entry `k` notifies
      exactly when it is checked and `Notifies` holds on the flag the last
      earlier check of the same name saw (or the stored flag, when there was
      none); entries of other products in between play no part. */
  lemma RunFires(state: State, products: seq<Product>, obs: seq<Observation>, dates: seq<string>, k: nat)
    requires |obs| == |products| && |dates| == |products|
    requires k < |products|
    ensures RunSpec(state, products, obs, dates).sent[k].Some? <==>
      products[k].site == AmazonSite
      && Notifies(LastFlag(state, products[k].name, products[..k], obs[..k]), obs[k], products[k].maxPrice)
  {
    RunSentAt(state, products, obs, dates, k);
    RunStoredFlag(state, products[..k], obs[..k], dates[..k], products[k].name);
  }

  /** When entry `j` is the last check of a name before position `m`, the
      flag seen at `j` is the one stored under that name at `m`. */
  lemma {:induction false} LastFlagSince(state: State, products: seq<Product>, obs: seq<Observation>, j: nat, m: nat)
    requires |obs| == |products|
    requires j < m <= |products| && products[j].site == AmazonSite
    requires forall i :: j < i < m ==>
      !(products[i].site == AmazonSite && products[i].name == products[j].name)
    ensures LastFlag(state, products[j].name, products[..m], obs[..m]) == obs[j].inStock
    decreases m
  {
    var ps, os := products[..m], obs[..m];
    assert ps[m - 1] == products[m - 1] && os[m - 1] == obs[m - 1];
    if m - 1 > j {
      assert ps[..m - 1] == products[..m - 1] && os[..m - 1] == obs[..m - 1];
      LastFlagSince(state, products, obs, j, m - 1);
    }
  }

  /** In a catalog of many products, a product seen in stock is not
      announced again by its next check, whatever entries lie between. */
  lemma NoRefireAcrossCatalog(state: State, products: seq<Product>, obs: seq<Observation>, dates: seq<string>,
                              j: nat, k: nat)
    requires |obs| == |products| && |dates| == |products|
    requires j < k < |products|
    requires products[j].site == AmazonSite && products[j].name == products[k].name && obs[j].inStock
    requires forall i :: j < i < k ==>
      !(products[i].site == AmazonSite && products[i].name == products[k].name)
    ensures RunSpec(state, products, obs, dates).sent[k].None?
  {
    RunFires(state, products, obs, dates, k);
    LastFlagSince(state, products, obs, j, k);
  }

  /** The catalog entry `p` listed `n` times: one product watched across
      `n` consecutive checks. */
  function Repeat(p: Product, n: nat): (r: seq<Product>)
    ensures |r| == n && forall i :: 0 <= i < n ==> r[i] == p
  {
    seq(n, _ => p)
  }

  /** The stock flag stored before check `k` of a single watched product. */
  function InStockBefore(state: State, name: string, obs: seq<Observation>, k: nat): bool
    requires k <= |obs|
  {
    if k == 0 then Stored(state, name).inStock else obs[k - 1].inStock
  }

  /** The samples a sequence of checks records: one per truthy price, in
      order. */
  function Recorded(obs: seq<Observation>, dates: seq<string>): (r: seq<Sample>)
    requires |dates| == |obs|
    ensures |r| <= |obs|
  {
    if obs == [] then []
    else
      var n := |obs| - 1;
      Recorded(obs[..n], dates[..n])
        + (if Truthy(obs[n].price) then [Sample(obs[n].price.value, dates[n])] else [])
  }

  /** What a history holds after the samples `added` are recorded one by
      one: unchanged when nothing was added, otherwise the last 50 of the
      old history followed by the new samples. */
  function Retained(past: seq<Sample>, added: seq<Sample>): seq<Sample>
  {
    if added == [] then past else LastN(past + added, HistoryCap)
  }

  /** One more check of `p` after the first `n`: the state it leaves is the
      step from the state the first `n` left. */
  lemma RepeatLast(state: State, p: Product, obs: seq<Observation>, dates: seq<string>)
    requires |dates| == |obs| && obs != []
    ensures var n := |obs| - 1;
      RunSpec(state, Repeat(p, |obs|), obs, dates).state
        == Step(RunSpec(state, Repeat(p, n), obs[..n], dates[..n]).state, p, obs[n], dates[n]).state
  {
    assert Repeat(p, |obs|)[..|obs| - 1] == Repeat(p, |obs| - 1);
  }

  /** The record a checked entry leaves under its own name. */
  lemma StepStored(state: State, p: Product, obs: Observation, date: string)
    requires p.site == AmazonSite
    ensures Stored(Step(state, p, obs, date).state, p.name)
      == Item(obs.inStock, Record(Stored(state, p.name).prices, obs.price, date))
  {
  }

  /** After a single product is checked repeatedly, its record holds the
      flag of the last check (or the stored one, when there was none). */
  lemma {:induction false} RepeatedInStock(state: State, p: Product, obs: seq<Observation>, dates: seq<string>)
    requires p.site == AmazonSite && |dates| == |obs|
    ensures Stored(RunSpec(state, Repeat(p, |obs|), obs, dates).state, p.name).inStock
      == InStockBefore(state, p.name, obs, |obs|)
  {
    if obs != [] {
      var n := |obs| - 1;
      RepeatLast(state, p, obs, dates);
      StepStored(RunSpec(state, Repeat(p, n), obs[..n], dates[..n]).state, p, obs[n], dates[n]);
    }
  }

  /** After a single product is checked repeatedly, its history is what it
      was if no check saw a truthy price, and otherwise the most recent 50
      of the old and the new samples, in chronological order. */
  lemma {:induction false} RepeatedHistory(state: State, p: Product, obs: seq<Observation>, dates: seq<string>)
    requires p.site == AmazonSite && |dates| == |obs|
    ensures Stored(RunSpec(state, Repeat(p, |obs|), obs, dates).state, p.name).prices
      == Retained(Stored(state, p.name).prices, Recorded(obs, dates))
    decreases |obs|
  {
    if obs != [] {
      var n := |obs| - 1;
      var before := RunSpec(state, Repeat(p, n), obs[..n], dates[..n]).state;
      var past, added := Stored(state, p.name).prices, Recorded(obs[..n], dates[..n]);
      RepeatLast(state, p, obs, dates);
      StepStored(before, p, obs[n], dates[n]);
      RepeatedHistory(state, p, obs[..n], dates[..n]);
      RetainedStep(past, added, obs[n].price, dates[n]);
    }
  }

  /** Recording one more check extends the retained history as if the
      check's sample had been among the added ones from the start. */
  lemma RetainedStep(past: seq<Sample>, added: seq<Sample>, price: Option<real>, date: string)
    ensures Record(Retained(past, added), price, date)
      == Retained(past, added + (if Truthy(price) then [Sample(price.value, date)] else []))
  {
    if Truthy(price) {
      var x := Sample(price.value, date);
      if added != [] {
        LastNAppend(past + added, x, HistoryCap);
        assert past + added + [x] == past + (added + [x]);
      } else {
        assert added + [x] == [x];
      }
    } else {
      assert added + [] == added;
    }
  }

  /** Over repeated checks of one product, check `k` notifies exactly when
      it sees the product in stock at a truthy price within target and the
      previous check (or the stored state, for the first) saw it out of
      stock. */
  lemma RepeatedFires(state: State, p: Product, obs: seq<Observation>, dates: seq<string>)
    requires p.site == AmazonSite && |dates| == |obs|
    ensures var sent := RunSpec(state, Repeat(p, |obs|), obs, dates).sent;
      forall k :: 0 <= k < |obs| ==>
        (sent[k].Some? <==> Notifies(InStockBefore(state, p.name, obs, k), obs[k], p.maxPrice))
  {
    var ps := Repeat(p, |obs|);
    forall k | 0 <= k < |obs|
      ensures RunSpec(state, ps, obs, dates).sent[k].Some? <==>
        Notifies(InStockBefore(state, p.name, obs, k), obs[k], p.maxPrice)
    {
      RunSentAt(state, ps, obs, dates, k);
      assert ps[..k] == Repeat(p, k);
      RepeatedInStock(state, p, obs[..k], dates[..k]);
    }
  }

  /** Staying in stock never notifies again, even when the price drops. */
  lemma NoRefireWhileInStock(state: State, p: Product, obs: seq<Observation>, dates: seq<string>, k: nat)
    requires p.site == AmazonSite && |dates| == |obs|
    requires 0 < k < |obs| && obs[k - 1].inStock
    ensures RunSpec(state, Repeat(p, |obs|), obs, dates).sent[k].None?
  {
    RepeatedFires(state, p, obs, dates);
  }

  /** A product already stored as in stock that is seen in stock on every
      check produces no notification at all. */
  lemma StaysInStockSilent(state: State, p: Product, obs: seq<Observation>, dates: seq<string>)
    requires p.site == AmazonSite && |dates| == |obs|
    requires Stored(state, p.name).inStock
    requires forall k :: 0 <= k < |obs| ==> obs[k].inStock
    ensures forall k :: 0 <= k < |obs| ==> RunSpec(state, Repeat(p, |obs|), obs, dates).sent[k].None?
  {
    RepeatedFires(state, p, obs, dates);
  }

  /** Every notification of a single watched product sits on a rising edge:
      the check before it saw the product out of stock. */
  lemma FiresOnlyOnRisingEdge(state: State, p: Product, obs: seq<Observation>, dates: seq<string>, k: nat)
    requires p.site == AmazonSite && |dates| == |obs|
    requires k < |obs| && RunSpec(state, Repeat(p, |obs|), obs, dates).sent[k].Some?
    ensures obs[k].inStock && !InStockBefore(state, p.name, obs, k)
  {
    RepeatedFires(state, p, obs, dates);
  }

  /** A price above target never notifies, whatever was stored before. */
  lemma PriceGate(state: State, p: Product, obs: seq<Observation>, dates: seq<string>, k: nat)
    requires p.site == AmazonSite && |dates| == |obs|
    requires k < |obs| && Truthy(obs[k].price) && obs[k].price.value > p.maxPrice
    ensures RunSpec(state, Repeat(p, |obs|), obs, dates).sent[k].None?
  {
    RepeatedFires(state, p, obs, dates);
  }

  /** Out of stock, in stock within target, in stock within target, out
      of stock, in stock within target: starting from no record, the
      second and fifth checks notify and no other does. */
  lemma RisingEdgeExample(state: State, p: Product, dates: seq<string>)
    requires p.site == AmazonSite && p.name !in state && p.maxPrice == 100.0
    requires |dates| == 5
    ensures var obs := [Observation(false, None), Observation(true, Some(95.0)),
                        Observation(true, Some(95.0)), Observation(false, None),
                        Observation(true, Some(95.0))];
      var sent := RunSpec(state, Repeat(p, 5), obs, dates).sent;
      sent[0].None? && sent[1].Some? && sent[2].None? && sent[3].None? && sent[4].Some?
  {
    var obs := [Observation(false, None), Observation(true, Some(95.0)),
                Observation(true, Some(95.0)), Observation(false, None),
                Observation(true, Some(95.0))];
    RepeatedFires(state, p, obs, dates);
    assert InStockBefore(state, p.name, obs, 0) == false;
  }

  /** The history a notice carries ends with the sample of the reported
      price, dated at the check. */
  lemma StepNoticeLast(state: State, p: Product, obs: Observation, date: string, n: Notice)
    requires Step(state, p, obs, date).notice == Some(n)
    ensures n.history != [] && n.history[|n.history| - 1] == Sample(n.price, date)
  {
    assert Truthy(obs.price) && n.price == obs.price.value;
    assert n.history == Record(Stored(state, p.name).prices, obs.price, date);
  }

  /** The notice a step sends carries a history that already holds the
      reported price: its text is not the placeholder and ends with the
      line of that price and the check's date, and the field the chat
      message shows ends with it too whenever the text fits. */
  lemma NoticeShowsCurrentSample(state: State, p: Product, obs: Observation, date: string, n: Notice,
                                  render: real -> string)
    requires Step(state, p, obs, date).notice == Some(n)
    ensures HistoryText.Text(n.history, render) != HistoryText.Placeholder
    ensures HistoryText.EndsWith(HistoryText.Text(n.history, render), HistoryText.Line(Sample(n.price, date), render))
    ensures |HistoryText.Text(n.history, render)| <= HistoryText.FieldLimit ==>
      HistoryText.EndsWith(HistoryText.Field(n.history, render), HistoryText.Line(Sample(n.price, date), render))
  {
    StepNoticeLast(state, p, obs, date, n);
    HistoryText.ShowsLatest(n.history, Sample(n.price, date), render);
  }

  /** One product, target 100, stored as out of stock, seen in stock at 95:
      one notification at 95, the flag becomes true, and the history gains
      one sample dated at the time of the check. */
  lemma EndToEndExample(p: Product, prices: seq<Sample>, date: string)
    requires p.site == AmazonSite && p.maxPrice == 100.0 && |prices| < HistoryCap
    ensures var state := map[p.name := Item(false, prices)];
      var r := RunSpec(state, [p], [Observation(true, Some(95.0))], [date]);
      r.sent == [Some(Notice(p, 95.0, prices + [Sample(95.0, date)]))]
      && r.state == map[p.name := Item(true, prices + [Sample(95.0, date)])]
  {
    var state := map[p.name := Item(false, prices)];
    var o := Observation(true, Some(95.0));
    assert [p][..0] == [] && [o][..0] == [] && [date][..0] == [];
    assert RunSpec(state, [p][..0], [o][..0], [date][..0]) == Pass(state, []);
    var h := Record(prices, Some(95.0), date);
    assert h == prices + [Sample(95.0, date)];
    var step := Step(state, p, o, date);
    assert step.state == map[p.name := Item(true, h)];
    assert step.notice == Some(Notice(p, 95.0, h));
  }
}
