/** Identifiers, sentinels and messages shared by every component. */
module Types {
  const ME_MAX_TICKERS := 8
  const ME_MAX_NUM_CLIENTS := 256
  const ME_MAX_PRICE_LEVELS := 256
  const ME_MAX_ORDER_IDS := 1024 * 1024

  const ORDER_ID_INVALID := 0xFFFF_FFFF_FFFF_FFFF
  const PRICE_INVALID := 0x7FFF_FFFF_FFFF_FFFF
  const QTY_INVALID := 0xFFFF_FFFF
  const PRIORITY_INVALID := 0xFFFF_FFFF_FFFF_FFFF

  /** The number of values of the 32-bit quantity type. */
  const QTY_MODULUS := 0x1_0000_0000

  datatype Side = INVALID | BUY | SELL {
    function Opposite(): Side {
      match this
      case BUY => SELL
      case SELL => BUY
      case INVALID => INVALID
    }
  }

  datatype RequestType = InvalidRequest | New | Cancel

  datatype ClientRequest = ClientRequest(
    kind: RequestType, client: nat, ticker: nat, orderId: nat, side: Side, price: int, qty: nat)

  datatype ResponseType = Accepted | Canceled | Filled | CancelRejected

  datatype ClientResponse = ClientResponse(
    kind: ResponseType, client: nat, ticker: nat, clientOrderId: nat, marketOrderId: nat,
    side: Side, price: int, execQty: nat, leavesQty: nat)

  datatype UpdateType = Add | Modify | Remove | Trade

  datatype MarketUpdate = MarketUpdate(
    kind: UpdateType, orderId: nat, ticker: nat, side: Side, price: int, qty: nat, priority: nat)

  function Min(a: nat, b: nat): nat {
    if a <= b then a else b
  }
}
