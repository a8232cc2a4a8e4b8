/**
 The reference price of a group: the quantity-weighted average of its sales, or failing those its
 listings, after everything far from the median has been set aside.
 */
module ReferencePrices {
  import opened Economy
  import opened Evidence

  datatype ReferencePrice = ReferencePrice(unitPrice: nat, acceptedSales: nat, acceptedListings: nat, confident: bool)

  function InsertPrice(sorted: seq<nat>, price: nat): (r: seq<nat>)
    ensures |r| == |sorted| + 1
  {
    if sorted == [] then [price]
    else
      var n := |sorted| - 1;
      if price < sorted[n] then InsertPrice(sorted[..n], price) + [sorted[n]] else sorted + [price]
  }

  function SortedPrices(candidates: seq<Observation>): (r: seq<nat>)
    ensures |r| == |candidates|
  {
    if candidates == [] then []
    else InsertPrice(SortedPrices(candidates[..|candidates| - 1]), candidates[|candidates| - 1].unitPrice)
  }

  function Median(candidates: seq<Observation>): nat
    requires candidates != []
  {
    SortedPrices(candidates)[|candidates| / 2]
  }

  function Floor(median: nat): nat { Max(1, median / 4) }

  function Ceiling(median: nat): nat { if median > MAX_UINT64 / 4 then MAX_UINT64 else median * 4 }

  predicate Plausible(o: Observation, median: nat)
  {
    Floor(median) <= o.unitPrice <= Ceiling(median)
  }

  /** Only sales and listings tell a price; whatever is not a sale counts as a listing. */
  function Accepted(candidates: seq<Observation>, median: nat, sales: bool): (r: seq<Observation>)
    ensures forall o :: o in r <==> o in candidates && Plausible(o, median) && (o.source.Sale? <==> sales)
  {
    if candidates == [] then []
    else
      var n := |candidates| - 1;
      var o := candidates[n];
      assert forall c :: c in candidates <==> c in candidates[..n] || c == o;
      Accepted(candidates[..n], median, sales) +
      if Plausible(o, median) && (o.source.Sale? <==> sales) then [o] else []
  }

  function TotalQuantity(s: seq<Observation>): nat
  {
    if s == [] then 0 else TotalQuantity(s[..|s| - 1]) + s[|s| - 1].quantity
  }

  function TotalPrice(s: seq<Observation>): nat
  {
    if s == [] then 0 else TotalPrice(s[..|s| - 1]) + s[|s| - 1].unitPrice * s[|s| - 1].quantity
  }

  function Average(price: nat, quantity: nat): (r: nat)
    ensures quantity > 0 ==> r * quantity <= price < r * quantity + quantity
  {
    if quantity == 0 then 0
    else
      assert price == price / quantity * quantity + price % quantity;
      price / quantity
  }

  function WeightedAverage(s: seq<Observation>): nat
  {
    Average(TotalPrice(s), TotalQuantity(s))
  }

  function Confident(sales: nat, listings: nat): bool
  {
    sales >= 2 || (sales == 1 && listings != 0)
  }

  function Reference(candidates: seq<Observation>): Option<ReferencePrice>
  {
    if candidates == [] then None
    else
      var median := Median(candidates);
      var sales, listings := Accepted(candidates, median, true), Accepted(candidates, median, false);
      if sales == [] && listings == [] then None
      else Some(ReferencePrice(WeightedAverage(if sales == [] then listings else sales), |sales|, |listings|,
                               Confident(|sales|, |listings|)))
  }

  // ----- the loops

  method AverageOf(s: seq<Observation>) returns (average: nat)
    ensures average == WeightedAverage(s)
  {
    var quantity, price := 0, 0;
    for i := 0 to |s|
      invariant quantity == TotalQuantity(s[..i]) && price == TotalPrice(s[..i])
    {
      assert s[..i + 1][..i] == s[..i];
      quantity, price := quantity + s[i].quantity, price + s[i].unitPrice * s[i].quantity;
    }
    assert s[..|s|] == s;
    average := if quantity == 0 then 0 else Average(price, quantity);
  }

  method Sort(candidates: seq<Observation>) returns (prices: seq<nat>)
    ensures prices == SortedPrices(candidates)
  {
    prices := [];
    for i := 0 to |candidates|
      invariant prices == SortedPrices(candidates[..i])
    {
      assert candidates[..i + 1][..i] == candidates[..i];
      prices := InsertPrice(prices, candidates[i].unitPrice);
    }
    assert candidates[..|candidates|] == candidates;
  }

  method Partition(candidates: seq<Observation>, median: nat) returns (sales: seq<Observation>, listings: seq<Observation>)
    ensures sales == Accepted(candidates, median, true) && listings == Accepted(candidates, median, false)
  {
    sales, listings := [], [];
    for i := 0 to |candidates|
      invariant sales == Accepted(candidates[..i], median, true) && listings == Accepted(candidates[..i], median, false)
    {
      assert candidates[..i + 1][..i] == candidates[..i];
      var o := candidates[i];
      if Floor(median) <= o.unitPrice <= Ceiling(median) {
        if o.source.Sale? {
          sales := sales + [o];
        } else {
          listings := listings + [o];
        }
      }
    }
    assert candidates[..|candidates|] == candidates;
  }

  method BuildReference(candidates: seq<Observation>) returns (r: Option<ReferencePrice>)
    ensures r == Reference(candidates)
  {
    hide SortedPrices, Accepted, WeightedAverage;
    if candidates == [] {
      return None;
    }
    var prices := Sort(candidates);
    var median := prices[|prices| / 2];
    var sales, listings := Partition(candidates, median);
    if sales == [] && listings == [] {
      return None;
    }
    var unitPrice := AverageOf(if sales == [] then listings else sales);
    r := Some(ReferencePrice(unitPrice, |sales|, |listings|, |sales| >= 2 || (|sales| == 1 && listings != [])));
  }

  // ----- where the average lies

  predicate PricesWithin(s: seq<Observation>, low: nat, high: nat)
  {
    forall o | o in s :: low <= o.unitPrice <= high && o.quantity > 0
  }

  lemma Scaled(price: nat, quantity: nat, low: nat, high: nat)
    requires low <= price <= high
    ensures low * quantity <= price * quantity <= high * quantity
  {
  }

  lemma {:induction false} TotalsWithin(s: seq<Observation>, low: nat, high: nat)
    requires PricesWithin(s, low, high)
    ensures low * TotalQuantity(s) <= TotalPrice(s) <= high * TotalQuantity(s)
    ensures s != [] ==> TotalQuantity(s) > 0
  {
    if s == [] {
    } else {
      var n := |s| - 1;
      forall o | o in s[..n]
        ensures o in s
      {
      }
      TotalsWithin(s[..n], low, high);
      assert s[n] in s;
      Scaled(s[n].unitPrice, s[n].quantity, low, high);
      Spread(low, TotalQuantity(s[..n]), s[n].quantity);
      Spread(high, TotalQuantity(s[..n]), s[n].quantity);
    }
  }

  lemma Spread(a: nat, b: nat, c: nat)
    ensures a * (b + c) == a * b + a * c
  {
  }

  lemma AverageWithin(price: nat, quantity: nat, low: nat, high: nat)
    requires quantity > 0 && low * quantity <= price <= high * quantity
    ensures low <= Average(price, quantity) <= high
  {
    hide Average;
    var r := Average(price, quantity);
    if r < low {
      Scaled(r + 1, quantity, 0, low);
    } else if r > high {
      Scaled(high + 1, quantity, 0, r);
    }
  }

  lemma WeightedAverageWithin(s: seq<Observation>, low: nat, high: nat)
    requires s != [] && PricesWithin(s, low, high)
    ensures low <= WeightedAverage(s) <= high
  {
    hide Average, TotalPrice, TotalQuantity;
    TotalsWithin(s, low, high);
    AverageWithin(TotalPrice(s), TotalQuantity(s), low, high);
  }

  lemma {:induction false} SortedAreCandidates(candidates: seq<Observation>)
    ensures forall p | p in SortedPrices(candidates) :: exists o :: o in candidates && o.unitPrice == p
  {
    if candidates == [] {
    } else {
      var n := |candidates| - 1;
      SortedAreCandidates(candidates[..n]);
      var rest := SortedPrices(candidates[..n]);
      forall p | p in SortedPrices(candidates)
        ensures exists o :: o in candidates && o.unitPrice == p
      {
        InsertedPrice(rest, candidates[n].unitPrice, p);
        if p == candidates[n].unitPrice {
          assert candidates[n] in candidates;
        } else {
          var o :| o in candidates[..n] && o.unitPrice == p;
          assert o in candidates;
        }
      }
    }
  }

  lemma {:induction false} InsertedPrice(sorted: seq<nat>, price: nat, p: nat)
    requires p in InsertPrice(sorted, price)
    ensures p == price || p in sorted
  {
    if sorted == [] {
    } else {
      var n := |sorted| - 1;
      if price < sorted[n] && p in InsertPrice(sorted[..n], price) {
        InsertedPrice(sorted[..n], price, p);
      }
    }
  }

  /** The median is itself the price of a candidate, so that candidate is plausible. */
  lemma MedianIsPlausible(candidates: seq<Observation>)
    requires candidates != [] && AllValid(candidates)
    ensures var median := Median(candidates);
            exists o :: o in candidates && o.unitPrice == median && Plausible(o, median)
  {
    var median := Median(candidates);
    SortedAreCandidates(candidates);
    assert median in SortedPrices(candidates);
    hide SortedPrices;
    var o :| o in candidates && o.unitPrice == median;
    assert IsValid(o);
    assert Plausible(o, median);
  }

  /** There is a reference price exactly when there are candidates, and whatever outliers are among
      them it lies within a factor of four of their median. */
  lemma ReferenceNearMedian(candidates: seq<Observation>)
    requires AllValid(candidates)
    ensures Reference(candidates).Some? <==> candidates != []
    ensures candidates != [] ==>
              Max(1, Median(candidates) / 4) <= Reference(candidates).value.unitPrice <= Min(4 * Median(candidates), MAX_UINT64)
  {
    if candidates != [] {
      var median := Median(candidates);
      MedianIsPlausible(candidates);
      hide SortedPrices, Median, WeightedAverage;
      var sales, listings := Accepted(candidates, median, true), Accepted(candidates, median, false);
      var o :| o in candidates && Plausible(o, median);
      assert o in sales || o in listings;
      PlausibleIsWithin(candidates, median);
      if sales == [] {
        WeightedAverageWithin(listings, Floor(median), Ceiling(median));
      } else {
        WeightedAverageWithin(sales, Floor(median), Ceiling(median));
      }
    }
  }

  lemma PlausibleIsWithin(candidates: seq<Observation>, median: nat)
    requires AllValid(candidates)
    ensures forall sales :: PricesWithin(Accepted(candidates, median, sales), Floor(median), Ceiling(median))
  {
    hide Accepted;
    forall o | o in candidates
      ensures o.quantity > 0
    {
      assert IsValid(o);
    }
  }

  // ----- which observations decide

  /** A price within a factor of four of a median. */
  predicate Near(o: Observation, median: nat)
  {
    Max(1, median / 4) <= o.unitPrice <= Min(4 * median, MAX_UINT64)
  }

  /** How many sales, or how many listings, are near a median. */
  function CountNear(candidates: seq<Observation>, median: nat, sales: bool): nat
  {
    if candidates == [] then 0
    else
      var o := candidates[|candidates| - 1];
      CountNear(candidates[..|candidates| - 1], median, sales) + if Near(o, median) && (o.source.Sale? <==> sales) then 1 else 0
  }

  lemma PlausibleIsNear(o: Observation, median: nat)
    ensures Plausible(o, median) <==> Near(o, median)
  {
  }

  lemma {:induction false} AcceptedAreCounted(candidates: seq<Observation>, median: nat, sales: bool)
    ensures |Accepted(candidates, median, sales)| == CountNear(candidates, median, sales)
  {
    if candidates == [] {
    } else {
      AcceptedAreCounted(candidates[..|candidates| - 1], median, sales);
      PlausibleIsNear(candidates[|candidates| - 1], median);
      hide Plausible, Near;
    }
  }

  /** Sales decide: if any sale is near the median the price lies between the prices of such sales, whatever is
      listed, and otherwise between those of the listings near it. Two observations near the median, a sale among
      them, are what it takes to be confident. */
  lemma SalesDecide(candidates: seq<Observation>, low: nat, high: nat)
    requires AllValid(candidates) && candidates != []
    ensures Reference(candidates).Some?
    ensures var median, price := Median(candidates), Reference(candidates).value;
            var bySales := exists o | o in candidates :: o.source.Sale? && Near(o, median);
            && price.acceptedSales == CountNear(candidates, median, true)
            && price.acceptedListings == CountNear(candidates, median, false)
            && (price.confident <==> price.acceptedSales >= 1 && price.acceptedSales + price.acceptedListings >= 2)
            && ((forall o | o in candidates && Near(o, median) && (o.source.Sale? <==> bySales) :: low <= o.unitPrice <= high) ==>
                  low <= price.unitPrice <= high)
  {
    ReferenceNearMedian(candidates);
    hide SortedPrices, Median, WeightedAverage, Plausible, Near;
    var median := Median(candidates);
    forall o
      ensures Plausible(o, median) <==> Near(o, median)
    {
      PlausibleIsNear(o, median);
    }
    AcceptedAreCounted(candidates, median, true);
    AcceptedAreCounted(candidates, median, false);
    var bySales := exists o | o in candidates :: o.source.Sale? && Near(o, median);
    var deciding := Accepted(candidates, median, bySales);
    SomeSaleDecides(candidates, median);
    if forall o | o in candidates && Near(o, median) && (o.source.Sale? <==> bySales) :: low <= o.unitPrice <= high {
      PositiveQuantities(candidates);
      WeightedAverageWithin(deciding, low, high);
    }
  }

  lemma SomeSaleDecides(candidates: seq<Observation>, median: nat)
    ensures Accepted(candidates, median, true) != [] <==> exists o | o in candidates :: o.source.Sale? && Near(o, median)
  {
    hide Near, Plausible;
    forall o
      ensures Plausible(o, median) <==> Near(o, median)
    {
      PlausibleIsNear(o, median);
    }
    var sales := Accepted(candidates, median, true);
    if sales != [] {
      assert sales[0] in sales;
    }
  }

  lemma PositiveQuantities(candidates: seq<Observation>)
    requires AllValid(candidates)
    ensures forall o | o in candidates :: o.quantity > 0
  {
  }

  lemma Appended(s: seq<Observation>, o: Observation)
    ensures TotalQuantity(s + [o]) == TotalQuantity(s) + o.quantity
    ensures TotalPrice(s + [o]) == TotalPrice(s) + o.unitPrice * o.quantity
  {
    assert (s + [o])[..|s|] == s;
  }

  /** Quantities weigh: an observation counts like any split of it. */
  lemma QuantitiesWeigh(s: seq<Observation>, o: Observation, part: uint32)
    requires part <= o.quantity
    ensures WeightedAverage(s + [o]) == WeightedAverage(s + [o.(quantity := part)] + [o.(quantity := o.quantity - part)])
  {
    hide TotalQuantity, TotalPrice, Average;
    Appended(s, o);
    Appended(s, o.(quantity := part));
    Appended(s + [o.(quantity := part)], o.(quantity := o.quantity - part));
    Spread(o.unitPrice, part, o.quantity - part);
  }

  // ----- how far outliers can pull it

  predicate Between(price: nat, low: nat, high: nat) { low <= price <= high }

  function CountBetween(candidates: seq<Observation>, low: nat, high: nat): nat
  {
    if candidates == [] then 0
    else CountBetween(candidates[..|candidates| - 1], low, high) +
         if Between(candidates[|candidates| - 1].unitPrice, low, high) then 1 else 0
  }

  function PricesBetween(prices: seq<nat>, low: nat, high: nat): (r: nat)
    ensures r <= |prices|
  {
    if prices == [] then 0
    else PricesBetween(prices[..|prices| - 1], low, high) + if Between(prices[|prices| - 1], low, high) then 1 else 0
  }

  lemma {:induction false} InsertCounts(sorted: seq<nat>, price: nat, low: nat, high: nat)
    ensures PricesBetween(InsertPrice(sorted, price), low, high) ==
            PricesBetween(sorted, low, high) + if Between(price, low, high) then 1 else 0
  {
    if sorted == [] {
      assert [price][..0] == [];
    } else {
      var n := |sorted| - 1;
      if price < sorted[n] {
        InsertCounts(sorted[..n], price, low, high);
        var front := InsertPrice(sorted[..n], price);
        assert (front + [sorted[n]])[..|front|] == front;
      } else {
        assert (sorted + [price])[..|sorted|] == sorted;
      }
    }
  }

  lemma {:induction false} SortCounts(candidates: seq<Observation>, low: nat, high: nat)
    ensures PricesBetween(SortedPrices(candidates), low, high) == CountBetween(candidates, low, high)
  {
    if candidates == [] {
    } else {
      var n := |candidates| - 1;
      SortCounts(candidates[..n], low, high);
      InsertCounts(SortedPrices(candidates[..n]), candidates[n].unitPrice, low, high);
    }
  }

  predicate Ascending(prices: seq<nat>)
  {
    forall i, j | 0 <= i < j < |prices| :: prices[i] <= prices[j]
  }

  lemma {:induction false} InsertAscends(sorted: seq<nat>, price: nat)
    requires Ascending(sorted)
    ensures Ascending(InsertPrice(sorted, price))
  {
    if sorted == [] {
    } else {
      var n := |sorted| - 1;
      if price < sorted[n] {
        InsertAscends(sorted[..n], price);
        var front := InsertPrice(sorted[..n], price);
        forall i | 0 <= i < |front|
          ensures front[i] <= sorted[n]
        {
          InsertedPrice(sorted[..n], price, front[i]);
        }
      }
    }
  }

  lemma {:induction false} SortAscends(candidates: seq<Observation>)
    ensures Ascending(SortedPrices(candidates))
  {
    if candidates == [] {
    } else {
      SortAscends(candidates[..|candidates| - 1]);
      InsertAscends(SortedPrices(candidates[..|candidates| - 1]), candidates[|candidates| - 1].unitPrice);
    }
  }

  /** From position m on, none of the prices lies between the bounds. */
  lemma {:induction false} NoneAbove(prices: seq<nat>, low: nat, high: nat, m: nat)
    requires m <= |prices| && forall i | m <= i < |prices| :: !Between(prices[i], low, high)
    ensures PricesBetween(prices, low, high) <= m
  {
    if m == |prices| {
    } else {
      NoneAbove(prices[..|prices| - 1], low, high, m);
    }
  }

  lemma {:induction false} NoneBelow(prices: seq<nat>, low: nat, high: nat, m: nat)
    requires m <= |prices| && forall i | 0 <= i < m :: !Between(prices[i], low, high)
    ensures PricesBetween(prices, low, high) <= |prices| - m
  {
    if m == |prices| {
      NoneAbove(prices, low, high, 0);
    } else {
      NoneBelow(prices[..|prices| - 1], low, high, m);
    }
  }

  /** If more than half of the candidates are priced between two bounds, so is the median. */
  lemma MajorityHoldsMedian(candidates: seq<Observation>, low: nat, high: nat)
    requires 2 * CountBetween(candidates, low, high) > |candidates|
    ensures low <= Median(candidates) <= high
  {
    var prices := SortedPrices(candidates);
    SortCounts(candidates, low, high);
    SortAscends(candidates);
    hide SortedPrices, CountBetween;
    var m := |prices| / 2;
    if prices[m] > high {
      NoneAbove(prices, low, high, m);
    } else if prices[m] < low {
      NoneBelow(prices, low, high, m + 1);
    }
  }

  lemma FewCheaper(candidates: seq<Observation>)
    requires candidates != [] && Median(candidates) > 0
    ensures CountBetween(candidates, 0, Median(candidates) - 1) <= |candidates| / 2
  {
    hide SortedPrices, CountBetween, PricesBetween;
    var prices := SortedPrices(candidates);
    SortAscends(candidates);
    SortCounts(candidates, 0, Median(candidates) - 1);
    NoneAbove(prices, 0, Median(candidates) - 1, |prices| / 2);
  }

  lemma FewDearer(candidates: seq<Observation>, high: nat)
    requires candidates != []
    ensures CountBetween(candidates, Median(candidates) + 1, high) <= |candidates| - 1 - |candidates| / 2
  {
    hide SortedPrices, CountBetween, PricesBetween;
    var prices := SortedPrices(candidates);
    SortAscends(candidates);
    SortCounts(candidates, Median(candidates) + 1, high);
    NoneBelow(prices, Median(candidates) + 1, high, |prices| / 2 + 1);
  }

  /** The median is the upper one: at most half of the candidates are cheaper, and fewer than half dearer. */
  lemma MedianSplits(candidates: seq<Observation>, high: nat)
    requires candidates != []
    ensures var median, n := Median(candidates), |candidates|;
            && (median > 0 ==> CountBetween(candidates, 0, median - 1) <= n / 2)
            && CountBetween(candidates, median + 1, high) <= n - 1 - n / 2
  {
    hide Median, CountBetween;
    if Median(candidates) > 0 {
      FewCheaper(candidates);
    }
    FewDearer(candidates, high);
  }

  /** However wild the rest, an honest majority bounds the reference price. */
  lemma HonestMajorityBoundsReference(candidates: seq<Observation>, low: nat, high: nat)
    requires AllValid(candidates) && 2 * CountBetween(candidates, low, high) > |candidates|
    ensures Reference(candidates).Some?
    ensures Max(1, low / 4) <= Reference(candidates).value.unitPrice <= 4 * high
  {
    ReferenceNearMedian(candidates);
    MajorityHoldsMedian(candidates, low, high);
    hide Reference, Median, CountBetween;
  }
}
