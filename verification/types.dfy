/** Orders, and the optional value that stands for a Go pointer that may be nil. */
module Types {

  datatype Option<+T> = None | Some(value: T)

  /** `types.Order`: immutable while the engine holds it (recycling through the object pool is not modelled). */
  datatype Order = Order(id: nat, symbol: string, price: real, quantity: int, side: int, kind: int)

  const SIDE_BUY: int := 1
  const SIDE_SELL: int := 2
  const TYPE_LIMIT: int := 1
  const TYPE_MARKET: int := 2
}
