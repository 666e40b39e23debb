/** Values shared by every component: prices in ticks, 32-bit quantities, and the
    messages that travel between the feed, the engine and the output thread. */
module Types {
  /** Number of price levels: ticks 0 .. MAX_PRICE_TICKS - 1. */
  const MAX_PRICE_TICKS: int := 10_000_000

  /** Number of values of a 32-bit unsigned word. */
  const WORD: int := 0x1_0000_0000

  type Quantity = q: int | 0 <= q < 0x1_0000_0000
  type OrderId = nat

  datatype Side = Bid | Ask
  datatype OrderType = Limit | Market

  datatype NewOrder = NewOrder(id: OrderId, side: Side, typ: OrderType, price: int, quantity: Quantity, timestamp: nat)

  datatype Message =
    | New(order: NewOrder)
    | Cancel(id: OrderId, timestamp: nat)

  datatype Fill = Fill(aggressiveId: OrderId, passiveId: OrderId, price: int, quantity: nat,
                       timestamp: nat, aggressorSide: Side)

  datatype Option<+T> = None | Some(value: T)

  function Opposite(side: Side): Side {
    if side.Bid? then Ask else Bid
  }

  predicate InRange(price: int) {
    0 <= price < MAX_PRICE_TICKS
  }

  function Min(a: int, b: int): int {
    if a <= b then a else b
  }

  predicate Distinct(s: seq<int>) {
    forall i, j :: 0 <= i < j < |s| ==> s[i] != s[j]
  }

  /** Unsigned 32-bit addition and subtraction: exact up to multiples of the word. */
  function Add32(a: Quantity, b: Quantity): Quantity {
    (a + b) % WORD
  }

  function Sub32(a: Quantity, b: Quantity): Quantity {
    (a - b) % WORD
  }

  lemma Add32Tracks(total: nat, b: Quantity)
    ensures Add32(total % WORD, b) == (total + b) % WORD
  {
  }

  lemma Sub32Tracks(total: nat, b: Quantity)
    requires b <= total
    ensures Sub32(total % WORD, b) == (total - b) % WORD
  {
  }
}
