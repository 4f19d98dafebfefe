/** The normalized records that flow through the distribution layer. */
module MarketData {

  datatype Telemetry = Telemetry(t0ExchangeNs: nat, t1IngestNicNs: nat, t2EngineProcNs: nat, t3EgressNs: nat)

  datatype Bbo = Bbo(
    telemetry: Telemetry, marketId: nat, venue: nat, chain: nat, sequence: nat,
    bidPrice: int, bidQty: nat, askPrice: int, askQty: nat, spreadBps: nat, flags: nat)

  datatype Trade = Trade(
    telemetry: Telemetry, marketId: nat, venue: nat, chain: nat, sequence: nat, tradeId: nat,
    price: int, size: nat, side: nat, isLiquidation: bool)
}
