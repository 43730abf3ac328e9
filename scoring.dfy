/**
 * The receipt scorer, `calculatePoints`: seven independent rules, each worth a whole
 * number of points, added up in one accumulator. Each rule is a function here; the
 * method `CalculatePoints` is the accumulator loop, proved equal to their sum `Score`.
 */
module Scoring {
  import opened Wrappers
  import opened Text
  import opened Digits
  import opened Amount
  import opened Calendar

  datatype Item = Item(shortDescription: string, price: string)

  datatype Receipt = Receipt(
    retailer: string,
    purchaseDate: string,
    purchaseTime: string,
    items: seq<Item>,
    total: string)

  /** Rule 1: a point for every character of the retailer name matched by [a-zA-Z0-9]. */
  function RetailerPoints(retailer: string): (r: nat)
    ensures r <= |retailer|
    ensures r == |retailer| <==> forall i :: 0 <= i < |retailer| ==> IsAsciiAlnum(retailer[i])
    ensures r == 0 <==> forall i :: 0 <= i < |retailer| ==> !IsAsciiAlnum(retailer[i])
  {
    CountAlnumExtremes(retailer);
    CountAlnum(retailer)
  }

  /** Rule 2: 50 points when the total, as a real number, equals its floor. */
  function RoundDollarPoints(total: string): (r: nat)
    ensures r == 0 || r == 50
    ensures r == 50 <==> Value(AmountOf(total)) == Value(AmountOf(total)).Floor as real
  {
    RoundDollarIsIntegral(AmountOf(total));
    if IsRoundDollar(AmountOf(total)) then 50 else 0
  }

  /** Rule 3: 25 points when the total is a multiple of 0.25, that is, four times it is an integer. */
  function QuarterPoints(total: string): (r: nat)
    ensures r == 0 || r == 25
    ensures r == 25 <==> Value(AmountOf(total)) * 4.0 == (Value(AmountOf(total)) * 4.0).Floor as real
  {
    QuarterMultipleIsIntegral(AmountOf(total));
    if IsQuarterMultiple(AmountOf(total)) then 25 else 0
  }

  /** Rule 4: 5 points for every two items; `r / 5` is the number of complete pairs. */
  function ItemPairPoints(count: nat): (r: nat)
    ensures r % 5 == 0 && 2 * (r / 5) <= count <= 2 * (r / 5) + 1
  {
    (count / 2) * 5
  }

  /**
   * Rule 5's test: the trimmed description is a multiple of 3 bytes long. A description that
   * trims to nothing qualifies, and for ASCII text bytes are characters.
   */
  predicate HasScoringDescription(item: Item)
    ensures TrimSpace(item.shortDescription) == [] ==> HasScoringDescription(item)
    ensures (forall i :: 0 <= i < |TrimSpace(item.shortDescription)| ==>
               TrimSpace(item.shortDescription)[i] as int < 0x80) ==>
      (HasScoringDescription(item) <==> |TrimSpace(item.shortDescription)| % 3 == 0)
  {
    Utf8LenAscii(TrimSpace(item.shortDescription));
    Utf8Len(TrimSpace(item.shortDescription)) % 3 == 0
  }

  /**
   * Rule 5 for one item: when its description qualifies, the least `r` with `5 * r` not below
   * the price (the price is `mantissa / 10^scale`); otherwise nothing.
   */
  function ItemPoints(item: Item): (r: int)
    ensures HasScoringDescription(item) ==>
      var d := AmountOf(item.price);
      5 * Pow10(d.scale) * (r - 1) < d.mantissa <= 5 * Pow10(d.scale) * r
    ensures !HasScoringDescription(item) ==> r == 0
  {
    if HasScoringDescription(item) then CeilFifth(AmountOf(item.price)) else 0
  }

  /** Rule 5 for a list of items: nothing when no description qualifies. */
  function DescriptionPoints(items: seq<Item>): (r: int)
    ensures (forall i :: 0 <= i < |items| ==> !HasScoringDescription(items[i])) ==> r == 0
  {
    if items == [] then 0
    else DescriptionPoints(items[..|items| - 1]) + ItemPoints(items[|items| - 1])
  }

  /** Rule 6: 6 points when the day is odd, a date Parse rejects counting as day 1. */
  function OddDayPoints(date: string): (r: nat)
    ensures r == 0 || r == 6
    ensures r == 6 <==> ParseDate(date).None? || ParseDate(date).value.day % 2 == 1
  {
    if PurchaseDay(date) % 2 == 1 then 6 else 0
  }

  /** Rule 7: 10 points when the purchase time parses and is after 14:00 and before 16:00. */
  function AfternoonPoints(time: string): (r: nat)
    ensures r == 0 || r == 10
    ensures r == 10 <==> ParseClock(time).Some? && WindowStart < ParseClock(time).value < WindowEnd
  {
    if InAfternoonWindow(PurchaseInstant(time)) then 10 else 0
  }

  /** The score of a receipt: the sum of the seven rules; no negative price, no negative score. */
  function Score(r: Receipt): (s: int)
    ensures (forall i :: 0 <= i < |r.items| ==> AmountOf(r.items[i].price).mantissa >= 0) ==> s >= 0
  {
    DescriptionPointsNonNegative(r.items);
    RetailerPoints(r.retailer)
    + RoundDollarPoints(r.total) + QuarterPoints(r.total)
    + ItemPairPoints(|r.items|)
    + DescriptionPoints(r.items)
    + OddDayPoints(r.purchaseDate)
    + AfternoonPoints(r.purchaseTime)
  }

  /** `calculatePoints`: the rules applied in order to one running total. */
  method CalculatePoints(receipt: Receipt) returns (points: int)
    ensures points == Score(receipt)
  {
    points := 0;

    points := points + CountAlnum(receipt.retailer);

    var total := AmountOf(receipt.total);
    if IsRoundDollar(total) {
      points := points + 50;
    }
    if IsQuarterMultiple(total) {
      points := points + 25;
    }
    ghost var money := points;

    points := points + (|receipt.items| / 2) * 5;

    ghost var before := points;
    var i := 0;
    while i < |receipt.items|
      invariant 0 <= i <= |receipt.items|
      invariant points == before + DescriptionPoints(receipt.items[..i])
    {
      var item := receipt.items[i];
      var trimmedLen := Utf8Len(TrimSpace(item.shortDescription));
      if trimmedLen % 3 == 0 {
        var price := AmountOf(item.price);
        points := points + CeilFifth(price);
      }
      DescriptionPointsStep(receipt.items, i);
      i := i + 1;
    }
    assert receipt.items[..i] == receipt.items;
    ghost var middle := points;

    if PurchaseDay(receipt.purchaseDate) % 2 == 1 {
      points := points + 6;
    }
    ghost var late := points;
    if InAfternoonWindow(PurchaseInstant(receipt.purchaseTime)) {
      points := points + 10;
    }
    assert money == RetailerPoints(receipt.retailer) + RoundDollarPoints(receipt.total)
      + QuarterPoints(receipt.total);
    assert late == middle + OddDayPoints(receipt.purchaseDate);
    assert points == late + AfternoonPoints(receipt.purchaseTime);
  }

  /** One more item adds its own points to the rule over the items before it. */
  lemma {:induction false} DescriptionPointsStep(items: seq<Item>, i: nat)
    requires i < |items|
    ensures DescriptionPoints(items[..i + 1]) == DescriptionPoints(items[..i]) +
      if Utf8Len(TrimSpace(items[i].shortDescription)) % 3 == 0 then CeilFifth(AmountOf(items[i].price)) else 0
  {
    assert items[..i + 1][..i] == items[..i];
  }

  // Rules 2 and 3: the total.

  /** For a total with at most two fraction digits, in cents `c`: 75 for round dollars, 25 for other quarters, else 0. */
  lemma {:induction false} TotalPointsCents(total: string)
    requires AmountOf(total).scale <= 2
    ensures var c := Cents(AmountOf(total));
      RoundDollarPoints(total) + QuarterPoints(total)
      == if c % 100 == 0 then 75 else if c % 25 == 0 then 25 else 0
  {
    MoneyBonusCents(AmountOf(total));
  }

  /** A total ParseFloat rejects is read as 0, which earns both bonuses. */
  lemma {:induction false} UnparseableTotalPoints(total: string)
    requires ParseDecimal(total).None?
    ensures RoundDollarPoints(total) == 50 && QuarterPoints(total) == 25
  {
  }

  /** The two money rules on a plain total "w.f" with two fraction digits. */
  lemma {:induction false} TotalAt(w: string, f: string)
    requires |w| > 0 && AllDigits(w) && AllDigits(f) && |f| == 2
    ensures var c := DigitsValue(w) * 100 + DigitsValue(f);
      RoundDollarPoints(w + "." + f) + QuarterPoints(w + "." + f)
      == if c % 100 == 0 then 75 else if c % 25 == 0 then 25 else 0
  {
    AmountOfCents(w, f);
    TotalPointsHundredths(w + "." + f, DigitsValue(w) * 100 + DigitsValue(f));
  }

  /** The money rules on a total read as `c` hundredths. */
  lemma {:induction false} TotalPointsHundredths(total: string, c: int)
    requires AmountOf(total) == Decimal(c, 2)
    ensures RoundDollarPoints(total) + QuarterPoints(total)
      == if c % 100 == 0 then 75 else if c % 25 == 0 then 25 else 0
  {
    TotalPointsCents(total);
    assert Pow10(0) == 1;
  }

  /** A plain total "w.f" with two fraction digits is read as `w * 100 + f` hundredths. */
  lemma {:induction false} AmountOfCents(w: string, f: string)
    requires |w| > 0 && AllDigits(w) && AllDigits(f) && |f| == 2
    ensures AmountOf(w + "." + f) == Decimal(DigitsValue(w) * 100 + DigitsValue(f), 2)
  {
    ParseDecimalPlain(w, f);
    assert Pow10(|f|) == 100;
  }

  // Rule 4: pairs of items.

  /** More items never earn fewer pair points. */
  lemma {:induction false} ItemPairMonotone(m: nat, n: nat)
    requires m <= n
    ensures ItemPairPoints(m) <= ItemPairPoints(n)
  {
    assert m / 2 <= n / 2;
  }

  /** A trailing unpaired item adds nothing. */
  lemma {:induction false} ItemPairUnpaired(k: nat)
    ensures ItemPairPoints(2 * k) == ItemPairPoints(2 * k + 1) == 5 * k
  {
  }

  // Rule 5: descriptions and prices.

  /** A description that trims to nothing has length 0, a multiple of 3, so it qualifies. */
  lemma {:induction false} EmptyDescriptionQualifies(item: Item)
    requires TrimSpace(item.shortDescription) == []
    ensures ItemPoints(item) == CeilFifth(AmountOf(item.price))
  {
    assert Utf8Len([]) == 0;
  }

  /** A price ParseFloat rejects is read as 0 and earns nothing. */
  lemma {:induction false} UnparseablePricePoints(item: Item)
    requires ParseDecimal(item.price).None?
    ensures ItemPoints(item) == 0
  {
    var r := CeilFifth(AmountOf(item.price));
    assert 5 * (r - 1) < 0 <= 5 * r;
  }

  /** For a qualifying item with a nonnegative price of `c` cents, the bonus is `(c + 499) / 500`. */
  lemma {:induction false} ItemPointsCents(item: Item)
    requires HasScoringDescription(item)
    requires AmountOf(item.price).scale <= 2 && Cents(AmountOf(item.price)) >= 0
    ensures ItemPoints(item) == (Cents(AmountOf(item.price)) + 499) / 500
  {
    CeilFifthCents(AmountOf(item.price));
  }

  /**
   * A negative price gives a qualifying item at most 0 points, and a price of -5 or less
   * takes points away from the receipt.
   */
  lemma {:induction false} NegativePricePoints(item: Item)
    requires HasScoringDescription(item) && AmountOf(item.price).mantissa < 0
    ensures ItemPoints(item) <= 0
    ensures AmountOf(item.price).mantissa <= -5 * Pow10(AmountOf(item.price).scale) ==> ItemPoints(item) < 0
  {
    CeilFifthNegative(AmountOf(item.price));
  }

  /** A nonnegative price never earns negative points. */
  lemma {:induction false} ItemPointsNonNegative(item: Item)
    requires AmountOf(item.price).mantissa >= 0
    ensures ItemPoints(item) >= 0
  {
  }

  /** The rule splits over a concatenation of item lists. */
  lemma {:induction false} DescriptionPointsAppend(a: seq<Item>, b: seq<Item>)
    ensures DescriptionPoints(a + b) == DescriptionPoints(a) + DescriptionPoints(b)
    decreases |b|
  {
    if b == [] {
      assert a + b == a;
    } else {
      assert (a + b)[..|a + b| - 1] == a + b[..|b| - 1];
      DescriptionPointsAppend(a, b[..|b| - 1]);
    }
  }

  /** The order of two groups of items does not matter. */
  lemma {:induction false} DescriptionPointsCommute(a: seq<Item>, b: seq<Item>)
    ensures DescriptionPoints(a + b) == DescriptionPoints(b + a)
  {
    DescriptionPointsAppend(a, b);
    DescriptionPointsAppend(b, a);
  }

  /** With nonnegative prices the rule adds a nonnegative amount. */
  lemma {:induction false} DescriptionPointsNonNegative(items: seq<Item>)
    ensures (forall i :: 0 <= i < |items| ==> AmountOf(items[i].price).mantissa >= 0) ==>
      DescriptionPoints(items) >= 0
    decreases |items|
  {
    if items != [] && forall i :: 0 <= i < |items| ==> AmountOf(items[i].price).mantissa >= 0 {
      DescriptionPointsNonNegative(items[..|items| - 1]);
      ItemPointsNonNegative(items[|items| - 1]);
    }
  }

  // Rule 6: the day.

  /** A parsed date earns 6 exactly when its day is odd. */
  lemma {:induction false} OddDayPointsParsed(date: string)
    requires ParseDate(date).Some?
    ensures OddDayPoints(date) == (if ParseDate(date).value.day % 2 == 1 then 6 else 0)
  {
  }

  /** A date Parse rejects falls back to the zero Time, day 1, and earns 6. */
  lemma {:induction false} UnparseableDatePoints(date: string)
    requires ParseDate(date).None?
    ensures OddDayPoints(date) == 6
  {
  }

  // Rule 7: the time.

  /** A parsed time earns 10 exactly when it is strictly between 14:00 and 16:00. */
  lemma {:induction false} AfternoonPointsParsed(time: string, t: nat)
    requires ParseClock(time) == Some(t)
    ensures AfternoonPoints(time) == 10 <==> 14 * 60 < t < 16 * 60
    ensures AfternoonPoints(time) == 0 <==> !(14 * 60 < t < 16 * 60)
  {
  }

  /** A time Parse rejects is the zero Time, a year after the window, and earns nothing. */
  lemma {:induction false} UnparseableTimePoints(time: string)
    requires ParseClock(time).None?
    ensures AfternoonPoints(time) == 0
  {
  }

  /** Both ends of the window are excluded, and so is a time before it. */
  lemma {:induction false} OutsideWindowExamples(time: string)
    requires time == "14:00" || time == "16:00" || time == "13:01"
    ensures AfternoonPoints(time) == 0
  {
    if time == "14:00" {
      ParseClockPlain("14", "00");
      assert "14" + ":" + "00" == time;
    } else if time == "16:00" {
      ParseClockPlain("16", "00");
      assert "16" + ":" + "00" == time;
    } else {
      ParseClockPlain("13", "01");
      assert "13" + ":" + "01" == time;
    }
  }

  /** The first and the last minute inside the window earn the bonus. */
  lemma {:induction false} InsideWindowExamples(time: string)
    requires time == "14:01" || time == "15:59"
    ensures AfternoonPoints(time) == 10
  {
    if time == "14:01" {
      ParseClockPlain("14", "01");
      assert "14" + ":" + "01" == time;
    } else {
      ParseClockPlain("15", "59");
      assert "15" + ":" + "59" == time;
    }
  }
}
