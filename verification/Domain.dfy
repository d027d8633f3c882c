/** The values that travel between the order book, the engine, the service and the database.
    Prices are whole ticks of 0.01 and quantities are whole shares. */
module Domain {

  datatype Side = Bid | Ask

  datatype OrderSide = BUY | SELL

  datatype Outcome = YES | NO

  datatype Option<+T> = None | Some(value: T)

  datatype Result<+T, +E> = Ok(value: T) | Err(error: E)

  /** An order as it rests in a book. */
  datatype Order = Order(
    id: string,
    userAddress: string,
    side: Side,
    price: int,
    quantity: int,
    marketId: string,
    outcome: nat)

  /** The incoming order of one match: the taker. */
  datatype MatchingOrder = MatchingOrder(
    id: string,
    userAddress: string,
    side: OrderSide,
    price: int,
    quantity: int,
    marketId: string,
    outcome: Outcome)

  datatype Trade = Trade(
    id: string,
    marketId: string,
    outcome: Outcome,
    buyerAddress: string,
    sellerAddress: string,
    buyOrderId: string,
    sellOrderId: string,
    price: int,
    quantity: int,
    timestamp: int)

  function OutcomeToNumber(outcome: Outcome): nat {
    if outcome == YES then 0 else 1
  }

  /** The side of the book on which an order of this side rests. */
  function RestingSide(side: OrderSide): Side {
    if side == BUY then Bid else Ask
  }

  /** The side of the book against which an order of this side is matched. */
  function MatchingSide(side: OrderSide): Side {
    if side == BUY then Ask else Bid
  }

  function Opposite(side: Side): Side {
    if side == Bid then Ask else Bid
  }

  function Min(a: int, b: int): int {
    if a < b then a else b
  }

  function Max(a: int, b: int): int {
    if a < b then b else a
  }

  function IndexOf<T(==)>(s: seq<T>, x: T): (i: nat)
    requires x in s
    ensures i < |s| && s[i] == x
  {
    if s[0] == x then 0 else 1 + IndexOf(s[1..], x)
  }

  lemma MultisetWithout<T>(s: seq<T>, k: nat)
    requires k < |s|
    ensures multiset(s[..k] + s[k + 1..]) == multiset(s) - multiset{s[k]}
  {
    assert s == s[..k] + ([s[k]] + s[k + 1..]);
  }
}
