/** Direction-aware returns and trading costs (src/shared/returns.js). */
module Returns {
  import opened Collections

  datatype Direction = Long | Short | NoDirection

  /** The return of a position from its entry price to another price, before costs. */
  function GrossReturn(d: Direction, entry: real, price: real): real
    requires entry > 0.0
  {
    if d.Long? then (price - entry) / entry else (entry - price) / entry
  }

  /** Cost of one trade as a fraction of its notional; an unusable setting costs nothing. */
  function SideCostFraction(costBps: Option<real>): real {
    if costBps.Some? && costBps.value > 0.0 then costBps.value / 10000.0 else 0.0
  }

  function RoundTripCostFraction(costBps: Option<real>): real {
    2.0 * SideCostFraction(costBps)
  }

  /** The recorded return of a closed position, net of one entry and one exit cost. */
  function RealizedReturn(d: Direction, entry: real, price: real, costBps: Option<real>): real
    requires entry > 0.0
  {
    GrossReturn(d, entry, price) - RoundTripCostFraction(costBps)
  }

  /** A long gains what the price gains on the entry price; anything else loses it. */
  lemma GrossMeans(d: Direction, entry: real, price: real)
    requires entry > 0.0
    ensures var g := GrossReturn(d, entry, price);
            price == if d.Long? then entry * (1.0 + g) else entry * (1.0 - g)
  {
    var move := if d.Long? then price - entry else entry - price;
    assert (move / entry) * entry == move;
  }

  /** Costs are in hundredths of a percent of each trade, so a closed position bears them twice. */
  lemma CostsMean(d: Direction, entry: real, price: real, costBps: Option<real>)
    requires entry > 0.0
    ensures var bps := if costBps.Some? && costBps.value > 0.0 then costBps.value else 0.0;
            && SideCostFraction(costBps) * 10000.0 == bps && RoundTripCostFraction(costBps) * 10000.0 == 2.0 * bps
            && GrossReturn(d, entry, price) == RealizedReturn(d, entry, price, costBps) + 2.0 * (bps / 10000.0)
  {
  }
}
