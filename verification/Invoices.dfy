/** Invoice arithmetic over exact amounts, and what rounding to cents for storage does to it. */
module Invoices {

  datatype Item = Item(quantity: real, unitPrice: real, taxRate: real)

  function Net(i: Item): real {
    i.quantity * i.unitPrice
  }

  function LineTotal(i: Item): real {
    i.quantity * i.unitPrice * (1.0 + i.taxRate / 100.0)
  }

  function Subtotal(items: seq<Item>): real {
    if |items| == 0 then 0.0 else Subtotal(items[..|items| - 1]) + Net(items[|items| - 1])
  }

  function TaxAmount(items: seq<Item>): real {
    if |items| == 0 then 0.0
    else TaxAmount(items[..|items| - 1]) + Net(items[|items| - 1]) * items[|items| - 1].taxRate / 100.0
  }

  function Total(items: seq<Item>): real {
    Subtotal(items) + TaxAmount(items)
  }

  function SumOf(xs: seq<real>): real {
    if |xs| == 0 then 0.0 else SumOf(xs[..|xs| - 1]) + xs[|xs| - 1]
  }

  function LineTotals(items: seq<Item>): (xs: seq<real>)
    ensures |xs| == |items|
  {
    seq(|items|, i requires 0 <= i < |items| => LineTotal(items[i]))
  }

  /** Line totals add up to the invoice total exactly. */
  lemma {:induction false} LinesSumToTotal(items: seq<Item>)
    ensures SumOf(LineTotals(items)) == Total(items)
  {
    if |items| > 0 {
      var front, last := items[..|items| - 1], items[|items| - 1];
      LinesSumToTotal(front);
      assert LineTotals(items)[..|items| - 1] == LineTotals(front);
      LineSplits(last);
    }
  }

  lemma LineSplits(i: Item)
    ensures LineTotal(i) == Net(i) + Net(i) * i.taxRate / 100.0
  {
  }

  // ---------------------------------------------------------------- cents

  /** A two-decimal column's value, in cents: nearest, halves away from zero. */
  function Cents(x: real): int {
    if x >= 0.0 then (x * 100.0 + 0.5).Floor else -((-x * 100.0 + 0.5).Floor)
  }

  /** How far storing an amount moves it, in cents. */
  function Drift(x: real): real {
    Cents(x) as real - x * 100.0
  }

  lemma DriftIsSmall(x: real)
    ensures -0.5 <= Drift(x) <= 0.5
    ensures x >= 0.0 ==> -0.5 < Drift(x)
    ensures x <= 0.0 ==> Drift(x) < 0.5
  {
  }

  function StoredSum(xs: seq<real>): int {
    if |xs| == 0 then 0 else StoredSum(xs[..|xs| - 1]) + Cents(xs[|xs| - 1])
  }

  /** What n stored lines are off by in all: at most half a cent each, and less on the upper
      side when some line is negative, on the lower side when some line is positive. */
  lemma {:induction false} LinesDrift(xs: seq<real>)
    ensures var off := StoredSum(xs) as real - SumOf(xs) * 100.0;
            && -(|xs| as real) <= 2.0 * off <= |xs| as real
            && (SumOf(xs) < 0.0 ==> 2.0 * off < |xs| as real)
            && (SumOf(xs) > 0.0 ==> -(|xs| as real) < 2.0 * off)
  {
    if |xs| > 0 {
      LinesDrift(xs[..|xs| - 1]);
      DriftIsSmall(xs[|xs| - 1]);
    }
  }

  /** The stored lines of an invoice and its stored total differ by at most n / 2 cents. */
  lemma StoredLinesBound(items: seq<Item>)
    ensures var gap := StoredSum(LineTotals(items)) - Cents(Total(items));
            -|items| <= 2 * gap <= |items|
  {
    var xs := LineTotals(items);
    LinesSumToTotal(items);
    LinesDrift(xs);
    DriftIsSmall(Total(items));
    if |items| == 0 {
      assert Total(items) == 0.0;
    }
    var gap := StoredSum(xs) - Cents(Total(items));
    assert 2.0 * (gap as real) < (|items| + 1) as real;
    assert -((|items| + 1) as real) < 2.0 * (gap as real);
    assert (2 * gap) as real == 2.0 * (gap as real);
  }

  /** Stored subtotal plus stored tax is within one cent of the stored total. */
  lemma StoredPartsBound(items: seq<Item>)
    ensures -1 <= Cents(Subtotal(items)) + Cents(TaxAmount(items)) - Cents(Total(items)) <= 1
  {
  }

  // ---------------------------------------------------------------- the bounds are reached

  const HALF_CENT := Item(1.0, 0.005, 0.0)

  function Copies(i: Item, n: nat): (items: seq<Item>)
    ensures |items| == n
  {
    if n == 0 then [] else Copies(i, n - 1) + [i]
  }

  lemma {:induction false} CopiesStored(i: Item, n: nat, line: real)
    requires LineTotal(i) == line && Cents(line) == 1
    ensures StoredSum(LineTotals(Copies(i, n))) == n
  {
    if n > 0 {
      CopiesStored(i, n - 1, line);
      var xs := LineTotals(Copies(i, n));
      assert xs[..n - 1] == LineTotals(Copies(i, n - 1));
      assert xs[n - 1] == line;
    }
  }

  lemma {:induction false} CopiesSubtotal(i: Item, n: nat)
    requires Net(i) == 0.005
    ensures Subtotal(Copies(i, n)) * 200.0 == n as real
  {
    if n > 0 {
      CopiesSubtotal(i, n - 1);
      OneMoreCopy(i, n);
    }
  }

  lemma OneMoreCopy(i: Item, n: nat)
    requires n > 0
    ensures Subtotal(Copies(i, n)) == Subtotal(Copies(i, n - 1)) + Net(i)
  {
    assert Copies(i, n)[..n - 1] == Copies(i, n - 1);
  }

  lemma {:induction false} CopiesTax(i: Item, n: nat)
    requires Net(i) * i.taxRate / 100.0 == 0.0
    ensures TaxAmount(Copies(i, n)) == 0.0
  {
    if n > 0 {
      CopiesTax(i, n - 1);
      assert Copies(i, n)[..n - 1] == Copies(i, n - 1);
    }
  }

  /** n lines of half a cent each, untaxed. */
  function HalfCents(n: nat): seq<Item> {
    Copies(HALF_CENT, n)
  }

  lemma HalfCentsSums(n: nat)
    ensures StoredSum(LineTotals(HalfCents(n))) == n
    ensures Total(HalfCents(n)) * 200.0 == n as real
  {
    CopiesStored(HALF_CENT, n, 0.005);
    CopiesSubtotal(HALF_CENT, n);
    CopiesTax(HALF_CENT, n);
  }

  /** For every number of lines some invoice is off by the full n / 2 cents, rounded down. */
  lemma StoredLinesBoundIsReached(n: nat)
    ensures StoredSum(LineTotals(HalfCents(n))) - Cents(Total(HalfCents(n))) == n / 2
  {
    HalfCentsSums(n);
    HalfOf(n, Total(HalfCents(n)));
  }

  lemma HalfOf(n: nat, x: real)
    requires x * 200.0 == n as real
    ensures Cents(x) == n - n / 2
  {
  }

  lemma StoredPartsBoundIsReached()
    ensures var items := [Item(1.0, 0.005, 100.0)];
            Cents(Subtotal(items)) + Cents(TaxAmount(items)) == Cents(Total(items)) + 1
  {
  }
}
