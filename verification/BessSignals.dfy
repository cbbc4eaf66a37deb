/**
  Battery charge and discharge signals of one delivery day
  (src/shiden/processing/gold/gold_bess_signals.py).  The rule is written twice
  in the source: as two row-number windows over the day, and as a stable sort
  in `assign_signals`.  Slots are numbered in time order; a slot without a EUR
  price holds None; prices are reals.
 */
module BessSignals {
  import opened Options

  type Prices = seq<Option<real>>

  const CHARGE := -1
  const IDLE := 0
  const DISCHARGE := 1

  predicate Priced(prices: Prices, i: int) {
    0 <= i < |prices| && prices[i].Some?
  }

  function PricedSlots(prices: Prices): set<int> {
    set i | 0 <= i < |prices| && Priced(prices, i)
  }

  // ------------------------------------------------------- the window rule

  /** The order of the ascending window: price with nulls last, then time. */
  predicate AscBefore(prices: Prices, j: int, i: int)
    requires 0 <= j < |prices| && 0 <= i < |prices|
  {
    match (prices[j], prices[i])
    case (Some(a), Some(b)) => a < b || (a == b && j < i)
    case (Some(_), None) => true
    case (None, Some(_)) => false
    case (None, None) => j < i
  }

  /** The order of the descending window: price with nulls last, then time backwards. */
  predicate DescBefore(prices: Prices, j: int, i: int)
    requires 0 <= j < |prices| && 0 <= i < |prices|
  {
    match (prices[j], prices[i])
    case (Some(a), Some(b)) => a > b || (a == b && j > i)
    case (Some(_), None) => true
    case (None, Some(_)) => false
    case (None, None) => j > i
  }

  /** `row_number` over the ascending window. */
  function RankAsc(prices: Prices, i: int): int
    requires 0 <= i < |prices|
  {
    1 + |set j | 0 <= j < |prices| && AscBefore(prices, j, i)|
  }

  /** `row_number` over the descending window. */
  function RankDesc(prices: Prices, i: int): int
    requires 0 <= i < |prices|
  {
    1 + |set j | 0 <= j < |prices| && DescBefore(prices, j, i)|
  }

  /** The signal column: no price is idle, and charging is tested first. */
  function WindowSignal(prices: Prices, chargeSlots: int, dischargeSlots: int, i: int): int
    requires 0 <= i < |prices|
  {
    if !Priced(prices, i) then IDLE
    else if RankAsc(prices, i) <= chargeSlots then CHARGE
    else if RankDesc(prices, i) <= dischargeSlots then DISCHARGE
    else IDLE
  }

  // ---------------------------------------------------------- price orders

  /** The priced slots from cheapest to dearest, earlier first among equals. */
  ghost predicate IsPriceOrder(prices: Prices, order: seq<int>) {
    && (forall k :: 0 <= k < |order| ==> Priced(prices, order[k]))
    && (forall k, m :: 0 <= k < m < |order| ==> AscBefore(prices, order[k], order[m]))
    && (forall i :: Priced(prices, i) ==> i in order)
  }

  /** The slots in places lo up to hi of an order. */
  function Stretch(order: seq<int>, lo: int, hi: int): set<int>
    requires 0 <= lo && hi <= |order|
  {
    set k | lo <= k < hi :: order[k]
  }

  lemma {:induction false} SliceSize(order: seq<int>, lo: nat, hi: nat)
    requires lo <= hi <= |order|
    requires forall k, m :: 0 <= k < m < |order| ==> order[k] != order[m]
    ensures |Stretch(order, lo, hi)| == hi - lo
  {
    if lo < hi {
      SliceSize(order, lo, hi - 1);
      assert Stretch(order, lo, hi) == Stretch(order, lo, hi - 1) + {order[hi - 1]};
    }
  }

  /** The slot in place k of the price order has ascending rank k + 1 and the mirrored descending rank. */
  lemma RanksFollowOrder(prices: Prices, order: seq<int>, k: nat)
    requires IsPriceOrder(prices, order) && k < |order|
    ensures RankAsc(prices, order[k]) == k + 1
    ensures RankDesc(prices, order[k]) == |order| - k
  {
    var i := order[k];
    assert (set j | 0 <= j < |prices| && AscBefore(prices, j, i)) == Stretch(order, 0, k) by {
      forall j | 0 <= j < |prices| && AscBefore(prices, j, i) ensures exists m :: 0 <= m < k && order[m] == j {
        assert Priced(prices, j);
        var m :| 0 <= m < |order| && order[m] == j;
      }
    }
    assert (set j | 0 <= j < |prices| && DescBefore(prices, j, i)) == Stretch(order, k + 1, |order|) by {
      forall j | 0 <= j < |prices| && DescBefore(prices, j, i) ensures exists m :: k + 1 <= m < |order| && order[m] == j {
        assert Priced(prices, j);
        var m :| 0 <= m < |order| && order[m] == j;
      }
    }
    SliceSize(order, 0, k);
    SliceSize(order, k + 1, |order|);
  }

  /** The rule by place in the price order, as the sorting version applies it. */
  function PlaceSignal(k: int, n: int, chargeSlots: int, dischargeSlots: int): int {
    if k < chargeSlots then CHARGE else if k >= n - dischargeSlots then DISCHARGE else IDLE
  }

  lemma SignalFollowsOrder(prices: Prices, order: seq<int>, k: nat, chargeSlots: int, dischargeSlots: int)
    requires IsPriceOrder(prices, order) && k < |order|
    ensures WindowSignal(prices, chargeSlots, dischargeSlots, order[k]) == PlaceSignal(k, |order|, chargeSlots, dischargeSlots)
  {
    RanksFollowOrder(prices, order, k);
  }

  // -------------------------------------------------------- the stable sort

  datatype Quote = Quote(price: real, slot: int)

  /** Puts a quote behind every one that is not dearer. */
  function Insert(sorted: seq<Quote>, q: Quote): seq<Quote> {
    if sorted == [] || sorted[|sorted| - 1].price <= q.price then sorted + [q]
    else Insert(sorted[..|sorted| - 1], q) + [sorted[|sorted| - 1]]
  }

  /** The stable sort by price: `list.sort` keyed on the price alone. */
  function SortByPrice(quotes: seq<Quote>): seq<Quote> {
    if quotes == [] then [] else Insert(SortByPrice(quotes[..|quotes| - 1]), quotes[|quotes| - 1])
  }

  predicate Cheaper(a: Quote, b: Quote) {
    a.price < b.price || (a.price == b.price && a.slot < b.slot)
  }

  ghost predicate InPriceOrder(quotes: seq<Quote>) {
    forall k, m :: 0 <= k < m < |quotes| ==> Cheaper(quotes[k], quotes[m])
  }

  ghost predicate InTimeOrder(quotes: seq<Quote>) {
    forall k, m :: 0 <= k < m < |quotes| ==> quotes[k].slot < quotes[m].slot
  }

  lemma {:induction false} InsertKeepsOrder(sorted: seq<Quote>, q: Quote)
    requires InPriceOrder(sorted)
    requires forall k :: 0 <= k < |sorted| ==> sorted[k].slot < q.slot
    ensures InPriceOrder(Insert(sorted, q))
    ensures forall r :: r in Insert(sorted, q) <==> r in sorted || r == q
  {
    if sorted != [] && sorted[|sorted| - 1].price > q.price {
      var init, last := sorted[..|sorted| - 1], sorted[|sorted| - 1];
      InsertKeepsOrder(init, q);
      assert sorted == init + [last];
      forall k | 0 <= k < |Insert(init, q)| ensures Cheaper(Insert(init, q)[k], last) {
        assert Insert(init, q)[k] in Insert(init, q);
      }
    } else if sorted != [] {
      assert forall k :: 0 <= k < |sorted| ==> sorted[k].price <= sorted[|sorted| - 1].price;
    }
  }

  /** Stability: quotes given in time order come out ordered by price and then time. */
  lemma {:induction false} SortIsStable(quotes: seq<Quote>)
    requires InTimeOrder(quotes)
    ensures InPriceOrder(SortByPrice(quotes))
    ensures forall r :: r in SortByPrice(quotes) <==> r in quotes
  {
    if quotes != [] {
      var init, last := quotes[..|quotes| - 1], quotes[|quotes| - 1];
      SortIsStable(init);
      assert quotes == init + [last];
      forall k | 0 <= k < |SortByPrice(init)| ensures SortByPrice(init)[k].slot < last.slot {
        assert SortByPrice(init)[k] in init;
      }
      InsertKeepsOrder(SortByPrice(init), last);
    }
  }

  /** The priced slots of the first n, with their prices, in time order. */
  function Quotes(prices: Prices, n: nat): (q: seq<Quote>)
    requires n <= |prices|
    ensures forall k :: 0 <= k < |q| ==> 0 <= q[k].slot < n && prices[q[k].slot] == Some(q[k].price)
    ensures forall i :: 0 <= i < n && Priced(prices, i) ==> Quote(prices[i].value, i) in q
  {
    if n == 0 then []
    else Quotes(prices, n - 1) + if prices[n - 1].Some? then [Quote(prices[n - 1].value, n - 1)] else []
  }

  lemma {:induction false} QuotesInTimeOrder(prices: Prices, n: nat)
    requires n <= |prices|
    ensures InTimeOrder(Quotes(prices, n))
  {
    if n > 0 { QuotesInTimeOrder(prices, n - 1); }
  }

  function SlotsOf(quotes: seq<Quote>): seq<int> {
    seq(|quotes|, k requires 0 <= k < |quotes| => quotes[k].slot)
  }

  /** Quotes in price order that are exactly those of the day give the day's price order. */
  lemma OrderOfQuotes(prices: Prices, sorted: seq<Quote>)
    requires InPriceOrder(sorted)
    requires forall k :: 0 <= k < |sorted| ==> 0 <= sorted[k].slot < |prices| && prices[sorted[k].slot] == Some(sorted[k].price)
    requires forall i :: Priced(prices, i) ==> Quote(prices[i].value, i) in sorted
    ensures IsPriceOrder(prices, SlotsOf(sorted))
  {
    var order := SlotsOf(sorted);
    forall k, m | 0 <= k < m < |order| ensures AscBefore(prices, order[k], order[m]) {
      assert Cheaper(sorted[k], sorted[m]);
    }
    forall i | Priced(prices, i) ensures i in order {
      var k :| 0 <= k < |sorted| && sorted[k] == Quote(prices[i].value, i);
      assert order[k] == i;
    }
  }

  lemma SortedQuotesAreAnOrder(prices: Prices)
    ensures IsPriceOrder(prices, SlotsOf(SortByPrice(Quotes(prices, |prices|))))
  {
    var quotes := Quotes(prices, |prices|);
    QuotesInTimeOrder(prices, |prices|);
    SortIsStable(quotes);
    SortedFacts(quotes, SortByPrice(quotes), prices);
    OrderOfQuotes(prices, SortByPrice(quotes));
  }

  lemma SortedFacts(quotes: seq<Quote>, sorted: seq<Quote>, prices: Prices)
    requires quotes == Quotes(prices, |prices|) && forall r :: r in sorted <==> r in quotes
    ensures forall k :: 0 <= k < |sorted| ==> 0 <= sorted[k].slot < |prices| && prices[sorted[k].slot] == Some(sorted[k].price)
    ensures forall i :: Priced(prices, i) ==> Quote(prices[i].value, i) in sorted
  {
    forall k | 0 <= k < |sorted|
      ensures 0 <= sorted[k].slot < |prices| && prices[sorted[k].slot] == Some(sorted[k].price)
    {
      assert sorted[k] in quotes;
      var m :| 0 <= m < |quotes| && quotes[m] == sorted[k];
    }
  }

  // --------------------------------------------------------- assign_signals

  /** Cheaper, or as cheap and earlier. */
  ghost predicate CheaperSlot(prices: Prices, i: int, j: int) {
    Priced(prices, i) && Priced(prices, j) &&
      (prices[i].value < prices[j].value || (prices[i].value == prices[j].value && i < j))
  }

  /** Whatever is cheaper than a charged slot is charged, and whatever is dearer than a discharged one is discharged. */
  lemma SignalsFollowPrice(prices: Prices, chargeSlots: int, dischargeSlots: int, i: int, j: int)
    requires CheaperSlot(prices, i, j)
    ensures WindowSignal(prices, chargeSlots, dischargeSlots, j) == -1 ==> WindowSignal(prices, chargeSlots, dischargeSlots, i) == -1
    ensures WindowSignal(prices, chargeSlots, dischargeSlots, i) == 1 ==> WindowSignal(prices, chargeSlots, dischargeSlots, j) == 1
  {
    var order := SlotsOf(SortByPrice(Quotes(prices, |prices|)));
    SortedQuotesAreAnOrder(prices);
    var k :| 0 <= k < |order| && order[k] == i;
    var m :| 0 <= m < |order| && order[m] == j;
    assert k < m;
    SignalFollowsOrder(prices, order, k, chargeSlots, dischargeSlots);
    SignalFollowsOrder(prices, order, m, chargeSlots, dischargeSlots);
  }

  function Signalled(signals: seq<int>, signal: int): set<int> {
    set i | 0 <= i < |signals| && signals[i] == signal
  }

  /** `assign_signals`, in its own terms and as the window version has it. */
  method AssignSignals(prices: Prices, chargeSlots: int, dischargeSlots: int) returns (signals: seq<int>)
    ensures |signals| == |prices|
    ensures forall i :: 0 <= i < |signals| ==> signals[i] in [-1, 0, 1] && (prices[i].None? ==> signals[i] == 0)
    ensures forall i, j :: CheaperSlot(prices, i, j) ==> (signals[j] == -1 ==> signals[i] == -1) && (signals[i] == 1 ==> signals[j] == 1)
    ensures |Signalled(signals, -1)| == Clamp(chargeSlots, |PricedSlots(prices)|)
    ensures |Signalled(signals, 1)| == Clamp(dischargeSlots, |PricedSlots(prices)| - |Signalled(signals, -1)|)
    ensures forall i :: 0 <= i < |prices| ==> signals[i] == WindowSignal(prices, chargeSlots, dischargeSlots, i)
  {
    signals := MarkSlots(prices, chargeSlots, dischargeSlots);
    OptimalArbitrage(prices, chargeSlots, dischargeSlots, {}, {});
    assert Signalled(signals, -1) == SlotsWith(prices, chargeSlots, dischargeSlots, -1);
    assert Signalled(signals, 1) == SlotsWith(prices, chargeSlots, dischargeSlots, 1);
    forall i, j | CheaperSlot(prices, i, j)
      ensures (signals[j] == -1 ==> signals[i] == -1) && (signals[i] == 1 ==> signals[j] == 1)
    {
      SignalsFollowPrice(prices, chargeSlots, dischargeSlots, i, j);
    }
  }

  /** The sort and the marking loop. */
  method MarkSlots(prices: Prices, chargeSlots: int, dischargeSlots: int) returns (signals: seq<int>)
    ensures |signals| == |prices|
    ensures forall i :: 0 <= i < |prices| ==> signals[i] == WindowSignal(prices, chargeSlots, dischargeSlots, i)
  {
    signals := seq(|prices|, _ => IDLE);
    var valid: seq<Quote> := [];
    for i := 0 to |prices|
      invariant valid == Quotes(prices, i)
    {
      if prices[i].Some? {
        valid := valid + [Quote(prices[i].value, i)];
      }
    }
    valid := SortByPrice(valid);
    SortedQuotesAreAnOrder(prices);
    ghost var order := SlotsOf(valid);
    for rank := 0 to |valid|
      invariant |signals| == |prices|
      invariant forall k :: 0 <= k < rank ==>
        signals[order[k]] == PlaceSignal(k, |order|, chargeSlots, dischargeSlots)
      invariant forall i :: 0 <= i < |prices| && i !in order[..rank] ==> signals[i] == IDLE
    {
      var idx := valid[rank].slot;
      assert order[rank] == idx && idx !in order[..rank];
      assert order[..rank + 1] == order[..rank] + [idx];
      if rank < chargeSlots {
        signals := signals[idx := CHARGE];
      } else if rank >= |valid| - dischargeSlots {
        signals := signals[idx := DISCHARGE];
      }
    }
    forall i | 0 <= i < |prices| ensures signals[i] == WindowSignal(prices, chargeSlots, dischargeSlots, i) {
      if Priced(prices, i) {
        var k :| 0 <= k < |order| && order[k] == i;
        SignalFollowsOrder(prices, order, k, chargeSlots, dischargeSlots);
      }
    }
  }

  // -------------------------------------------------------------- optimality

  function SlotsWith(prices: Prices, chargeSlots: int, dischargeSlots: int, signal: int): set<int> {
    set i | 0 <= i < |prices| && WindowSignal(prices, chargeSlots, dischargeSlots, i) == signal
  }

  /** The sum of the prices of the slots below n that are in `slots`. */
  function Total(prices: Prices, slots: set<int>, n: nat): real
    requires n <= |prices|
  {
    if n == 0 then 0.0
    else Total(prices, slots, n - 1) + if n - 1 in slots && Priced(prices, n - 1) then prices[n - 1].value else 0.0
  }

  function Value(prices: Prices, slots: set<int>): real { Total(prices, slots, |prices|) }

  /** It is what the slots' prices add up to. */
  lemma ValueAdds(prices: Prices, slots: set<int>, i: int)
    requires Priced(prices, i) && i !in slots
    ensures Value(prices, slots + {i}) == Value(prices, slots) + prices[i].value && Value(prices, {}) == 0.0
  {
    OneMoreSlot(prices, slots, i, |prices|);
    NoSlots(prices, |prices|);
  }

  lemma {:induction false} OneMoreSlot(prices: Prices, slots: set<int>, i: int, n: nat)
    requires Priced(prices, i) && i !in slots && n <= |prices|
    ensures Total(prices, slots + {i}, n) == Total(prices, slots, n) + if i < n then prices[i].value else 0.0
  {
    if n > 0 { OneMoreSlot(prices, slots, i, n - 1); }
  }

  lemma {:induction false} NoSlots(prices: Prices, n: nat)
    requires n <= |prices|
    ensures Total(prices, {}, n) == 0.0
  {
    if n > 0 { NoSlots(prices, n - 1); }
  }

  /** The same sum with every price lowered by `cut`. */
  function Lowered(prices: Prices, slots: set<int>, cut: real, n: nat): real
    requires n <= |prices|
  {
    if n == 0 then 0.0
    else Lowered(prices, slots, cut, n - 1) + if n - 1 in slots && Priced(prices, n - 1) then prices[n - 1].value - cut else 0.0
  }

  function CountBelow(prices: Prices, slots: set<int>, n: nat): nat
    requires n <= |prices|
  {
    if n == 0 then 0
    else CountBelow(prices, slots, n - 1) + if n - 1 in slots && Priced(prices, n - 1) then 1 else 0
  }

  lemma {:induction false} CountIsSize(prices: Prices, slots: set<int>, n: nat)
    requires n <= |prices|
    requires forall i :: i in slots ==> Priced(prices, i) && i < n
    ensures CountBelow(prices, slots, n) == |slots|
  {
    if n == 0 {
      forall i ensures i !in slots {
        assert i in slots ==> Priced(prices, i) && i < 0;
      }
      assert slots == {};
    } else {
      CountSame(prices, slots, slots - {n - 1}, n - 1);
      CountIsSize(prices, slots - {n - 1}, n - 1);
    }
  }

  lemma {:induction false} CountSame(prices: Prices, a: set<int>, b: set<int>, n: nat)
    requires n <= |prices| && forall i :: 0 <= i < n ==> (i in a <==> i in b)
    ensures CountBelow(prices, a, n) == CountBelow(prices, b, n)
  {
    if n > 0 { CountSame(prices, a, b, n - 1); }
  }

  lemma {:induction false} LoweredIsTotal(prices: Prices, slots: set<int>, cut: real, n: nat)
    requires n <= |prices|
    ensures Lowered(prices, slots, cut, n) == Total(prices, slots, n) - cut * (CountBelow(prices, slots, n) as real)
  {
    if n > 0 {
      LoweredIsTotal(prices, slots, cut, n - 1);
      var before := CountBelow(prices, slots, n - 1) as real;
      assert cut * (before + 1.0) == cut * before + cut;
    }
  }

  /** `cut` separates the slots from the other priced ones: cheaper below, dearer above. */
  ghost predicate Separates(prices: Prices, low: set<int>, cut: real) {
    forall i :: Priced(prices, i) ==> if i in low then prices[i].value <= cut else prices[i].value >= cut
  }

  lemma {:induction false} LoweredAtMost(prices: Prices, low: set<int>, other: set<int>, cut: real, n: nat)
    requires n <= |prices| && Separates(prices, low, cut)
    ensures Lowered(prices, low, cut, n) <= Lowered(prices, other, cut, n)
  {
    if n > 0 { LoweredAtMost(prices, low, other, cut, n - 1); }
  }

  /** The exchange argument: separated slots are the cheapest of their number. */
  lemma SeparatedIsCheapest(prices: Prices, low: set<int>, other: set<int>, cut: real)
    requires Separates(prices, low, cut)
    requires low <= PricedSlots(prices) && other <= PricedSlots(prices) && |low| == |other|
    ensures Value(prices, low) <= Value(prices, other)
  {
    var n := |prices|;
    LoweredAtMost(prices, low, other, cut, n);
    LoweredIsTotal(prices, low, cut, n);
    LoweredIsTotal(prices, other, cut, n);
    CountIsSize(prices, low, n);
    CountIsSize(prices, other, n);
  }

  /** The cheapest k slots cost no more than any other k. */
  lemma CheapestSlots(prices: Prices, order: seq<int>, k: nat, other: set<int>)
    requires IsPriceOrder(prices, order) && k <= |order|
    requires other <= PricedSlots(prices) && |other| == k
    ensures Value(prices, Stretch(order, 0, k)) <= Value(prices, other)
  {
    var low := Stretch(order, 0, k);
    SliceSize(order, 0, k);
    if k == 0 {
      assert low == other;
    } else {
      var cut := prices[order[k - 1]].value;
      forall i | Priced(prices, i) ensures if i in low then prices[i].value <= cut else prices[i].value >= cut {
        var m :| 0 <= m < |order| && order[m] == i;
      }
      SeparatedIsCheapest(prices, low, other, cut);
    }
  }

  lemma {:induction false} TotalSplits(prices: Prices, a: set<int>, b: set<int>, n: nat)
    requires n <= |prices| && a !! b
    ensures Total(prices, a + b, n) == Total(prices, a, n) + Total(prices, b, n)
  {
    if n > 0 { TotalSplits(prices, a, b, n - 1); }
  }

  lemma OtherHalf(prices: Prices, part: set<int>)
    requires part <= PricedSlots(prices)
    ensures Value(prices, PricedSlots(prices)) == Value(prices, part) + Value(prices, PricedSlots(prices) - part)
  {
    assert part + (PricedSlots(prices) - part) == PricedSlots(prices);
    TotalSplits(prices, part, PricedSlots(prices) - part, |prices|);
  }

  lemma StretchesSplit(prices: Prices, order: seq<int>, k: nat)
    requires IsPriceOrder(prices, order) && k <= |order|
    ensures Stretch(order, 0, k) <= PricedSlots(prices)
    ensures Stretch(order, k, |order|) == PricedSlots(prices) - Stretch(order, 0, k)
  {
    OrderIsAll(prices, order);
    forall i | i in PricedSlots(prices) ensures i in Stretch(order, 0, k) <==> i !in Stretch(order, k, |order|) {
      var m :| 0 <= m < |order| && order[m] == i;
    }
  }

  /** The dearest slots from place k on earn no less than any others of their number. */
  lemma DearestSlots(prices: Prices, order: seq<int>, k: nat, other: set<int>)
    requires IsPriceOrder(prices, order) && k <= |order|
    requires other <= PricedSlots(prices) && |other| == |order| - k
    ensures Value(prices, Stretch(order, k, |order|)) >= Value(prices, other)
  {
    OrderIsAll(prices, order);
    StretchesSplit(prices, order, k);
    OtherHalf(prices, Stretch(order, 0, k));
    OtherHalf(prices, other);
    CheapestSlots(prices, order, k, PricedSlots(prices) - other);
  }

  lemma OrderIsAll(prices: Prices, order: seq<int>)
    requires IsPriceOrder(prices, order)
    ensures Stretch(order, 0, |order|) == PricedSlots(prices)
    ensures |order| == |PricedSlots(prices)|
  {
    forall i | i in PricedSlots(prices) ensures exists m :: 0 <= m < |order| && order[m] == i {
      assert i in order;
    }
    assert Stretch(order, 0, |order|) == PricedSlots(prices);
    SliceSize(order, 0, |order|);
  }

  /** A slot count cut to what there is. */
  function Clamp(slots: int, available: nat): nat {
    if slots < 0 then 0 else if slots > available then available else slots
  }

  /** The charged and discharged slots are a bottom and a top stretch of the price order. */
  lemma SignalStretches(prices: Prices, order: seq<int>, chargeSlots: int, dischargeSlots: int)
    requires IsPriceOrder(prices, order)
    ensures
      var c := Clamp(chargeSlots, |order|);
      var d := Clamp(dischargeSlots, |order| - c);
      && SlotsWith(prices, chargeSlots, dischargeSlots, CHARGE) == Stretch(order, 0, c)
      && SlotsWith(prices, chargeSlots, dischargeSlots, DISCHARGE) == Stretch(order, |order| - d, |order|)
  {
    forall k | 0 <= k < |order| ensures WindowSignal(prices, chargeSlots, dischargeSlots, order[k])
                                     == PlaceSignal(k, |order|, chargeSlots, dischargeSlots)
    {
      SignalFollowsOrder(prices, order, k, chargeSlots, dischargeSlots);
    }
    forall i | Priced(prices, i) ensures exists m :: 0 <= m < |order| && order[m] == i {
      assert i in order;
    }
  }

  /**
    For every day and every pair of slot counts, overlapping or negative ones
    included: the counts are met as far as there are priced slots, charging
    first; slots without a price stay idle; and no other choice of that many
    priced slots to buy and to sell in earns more.
   */
  lemma OptimalArbitrage(prices: Prices, chargeSlots: int, dischargeSlots: int, buy: set<int>, sell: set<int>)
    ensures
      var charged := SlotsWith(prices, chargeSlots, dischargeSlots, -1);
      var discharged := SlotsWith(prices, chargeSlots, dischargeSlots, 1);
      var valid := |PricedSlots(prices)|;
      && charged !! discharged && charged + discharged <= PricedSlots(prices)
      && |charged| == Clamp(chargeSlots, valid)
      && |discharged| == Clamp(dischargeSlots, valid - |charged|)
      && (buy <= PricedSlots(prices) && sell <= PricedSlots(prices) && |buy| == |charged| && |sell| == |discharged| ==>
            Value(prices, sell) - Value(prices, buy) <= Value(prices, discharged) - Value(prices, charged))
  {
    SortedQuotesAreAnOrder(prices);
    OptimalByOrder(prices, SlotsOf(SortByPrice(Quotes(prices, |prices|))), chargeSlots, dischargeSlots, buy, sell);
  }

  lemma OptimalByOrder(prices: Prices, order: seq<int>, chargeSlots: int, dischargeSlots: int, buy: set<int>, sell: set<int>)
    requires IsPriceOrder(prices, order)
    ensures
      var c := Clamp(chargeSlots, |order|);
      var d := Clamp(dischargeSlots, |order| - c);
      var charged := SlotsWith(prices, chargeSlots, dischargeSlots, CHARGE);
      var discharged := SlotsWith(prices, chargeSlots, dischargeSlots, DISCHARGE);
      && |order| == |PricedSlots(prices)| && |charged| == c && |discharged| == d
      && charged <= PricedSlots(prices) && discharged <= PricedSlots(prices)
      && (buy <= PricedSlots(prices) && |buy| == c ==> Value(prices, charged) <= Value(prices, buy))
      && (sell <= PricedSlots(prices) && |sell| == d ==> Value(prices, sell) <= Value(prices, discharged))
  {
    var c := Clamp(chargeSlots, |order|);
    var d := Clamp(dischargeSlots, |order| - c);
    OrderIsAll(prices, order);
    SignalStretches(prices, order, chargeSlots, dischargeSlots);
    SliceSize(order, 0, c);
    SliceSize(order, |order| - d, |order|);
    if buy <= PricedSlots(prices) && |buy| == c { CheapestSlots(prices, order, c, buy); }
    if sell <= PricedSlots(prices) && |sell| == d { DearestSlots(prices, order, |order| - d, sell); }
  }
}
