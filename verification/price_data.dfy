/** The price snapshot returned by the wiki's "latest prices" endpoint: a
    mapping from an item identifier, written as a decimal string, to that item's
    quote. A `None` entry stands for a JSON `null`; a `None` field for a `null`
    or absent `high`/`low`. */
module PriceData {
  import opened Results

  datatype Quote = Quote(high: Option<int>, low: Option<int>)

  type Snapshot = map<string, Option<Quote>>

  /** The decimal digit character for `d`. */
  function DigitChar(d: nat): (c: char)
    requires d < 10
    ensures '0' <= c <= '9'
    ensures c as int - '0' as int == d
  {
    ('0' as int + d) as char
  }

  /** Decimal notation of a natural number, most significant digit first. */
  function Decimal(n: nat): (s: string)
    ensures 1 <= |s|
    ensures forall i :: 0 <= i < |s| ==> '0' <= s[i] <= '9'
    decreases n
  {
    if n < 10 then [DigitChar(n)] else Decimal(n / 10) + [DigitChar(n % 10)]
  }

  /** The digits of `Decimal(n)`, read back as a number. */
  function DecimalValue(s: string): int
  {
    if |s| == 0 then 0 else DecimalValue(s[..|s| - 1]) * 10 + (s[|s| - 1] as int - '0' as int)
  }

  /** The string form of an integer item identifier, as the snapshot is keyed:
      its decimal digits, after a minus sign when it is negative. */
  function ItemKey(id: int): (s: string)
    ensures 1 <= |s|
    ensures s[0] == '-' <==> id < 0
  {
    if id < 0 then "-" + Decimal(-id) else Decimal(id)
  }

  /** Reads a key back as an identifier: an optional minus sign, then digits. */
  function ParseItemKey(s: string): int
  {
    if |s| > 0 && s[0] == '-' then -DecimalValue(s[1..]) else DecimalValue(s)
  }

  /** Reading the decimal notation of `n` back gives `n`. */
  lemma {:induction false} DecimalRoundTrip(n: nat)
    ensures DecimalValue(Decimal(n)) == n
    decreases n
  {
    if n >= 10 {
      var s := Decimal(n);
      assert s[..|s| - 1] == Decimal(n / 10);
      DecimalRoundTrip(n / 10);
    }
  }

  /** Every identifier is read back from its key. */
  lemma ItemKeyRoundTrip(id: int)
    ensures ParseItemKey(ItemKey(id)) == id
  {
    if id < 0 {
      DecimalRoundTrip(-id);
      assert ItemKey(id)[1..] == Decimal(-id);
    } else {
      DecimalRoundTrip(id);
    }
  }

  /** Distinct item identifiers have distinct snapshot keys, so looking an item
      up by its string form never returns another item's quote. */
  lemma ItemKeyInjective(a: int, b: int)
    requires ItemKey(a) == ItemKey(b)
    ensures a == b
  {
    ItemKeyRoundTrip(a);
    ItemKeyRoundTrip(b);
  }

  /** A quote field read with a fallback to zero, under JavaScript's
      truthiness: the price when it is present and non-zero, 0 otherwise. */
  function OrZero(field: Option<int>): int
  {
    if field.Some? && field.value != 0 then field.value else 0
  }

  /** The instant-sell price of an item: the `high` quote of its snapshot
      entry, or 0 when the entry is missing or null or the quote is missing,
      null or zero. */
  function HighPrice(prices: Snapshot, id: int): (p: int)
    ensures p != 0 ==> ItemKey(id) in prices && prices[ItemKey(id)].Some?
                       && prices[ItemKey(id)].value.high == Some(p)
    ensures ItemKey(id) in prices && prices[ItemKey(id)].Some? && prices[ItemKey(id)].value.high.Some? ==>
              p == prices[ItemKey(id)].value.high.value
  {
    var key := ItemKey(id);
    if key in prices && prices[key].Some? then OrZero(prices[key].value.high) else 0
  }

  /** The instant-buy price of an item: the `low` quote of its snapshot entry,
      or 0 when the entry is missing or null or the quote is missing, null or
      zero. */
  function LowPrice(prices: Snapshot, id: int): (p: int)
    ensures p != 0 ==> ItemKey(id) in prices && prices[ItemKey(id)].Some?
                       && prices[ItemKey(id)].value.low == Some(p)
    ensures ItemKey(id) in prices && prices[ItemKey(id)].Some? && prices[ItemKey(id)].value.low.Some? ==>
              p == prices[ItemKey(id)].value.low.value
  {
    var key := ItemKey(id);
    if key in prices && prices[key].Some? then OrZero(prices[key].value.low) else 0
  }

  /** An item the snapshot knows nothing about is priced at 0 on both sides. */
  lemma UnpricedIsZero(prices: Snapshot, id: int)
    requires ItemKey(id) !in prices
    ensures HighPrice(prices, id) == 0 && LowPrice(prices, id) == 0
  {
  }
}
