/** Values shared by the book, the event queue and the accounts. */
module Types {
  import opened OrderKeys

  datatype Option<+T> = None | Some(value: T)

  datatype Result<+T> = Ok(value: T) | Err(error: Error)

  datatype Error =
    | OutOfSpace | TooManyOpenOrders | MathError | InvalidOrderId | InsufficientLiquidity | InvalidParam | InvalidState
    | Panic

  /** Accounts are named by their position in the list of all accounts. */
  type Pubkey = nat

  const I64_MAX: int := 0x7fff_ffff_ffff_ffff
  const U64_MAX: int := 0xffff_ffff_ffff_ffff

  /** Cells of one side of a book, and the orders they can hold: two cells for every order but the first. */
  const MAX_BOOK_NODES: nat := 1024
  const SIDE_CAPACITY: nat := MAX_BOOK_NODES / 2

  datatype Side = Bid | Ask

  function InvertSide(side: Side): Side {
    if side == Bid then Ask else Bid
  }

  datatype OrderType = Limit | ImmediateOrCancel | PostOnly | Market | PostOnlySlide

  function Min(a: int, b: int): int { if a <= b then a else b }

  function Max(a: int, b: int): int { if a >= b then a else b }

  function Abs(a: int): int { if a < 0 then -a else a }

  /** An order resting on the book. */
  datatype LeafNode = LeafNode(
    ownerSlot: nat,
    orderType: OrderType,
    version: nat,
    timeInForce: nat,
    key: Key,
    owner: Pubkey,
    quantity: int,
    clientOrderId: nat,
    bestInitial: int,
    timestamp: nat)
  {
    function Price(): nat { Shr(key, 64) }

    /** Time at which the order expires, the largest 64-bit value if never. */
    function Expiry(): nat {
      if timeInForce == 0 then U64_MAX else timestamp + timeInForce
    }

    predicate IsValid(now: nat) {
      timeInForce == 0 || now < timestamp + timeInForce
    }
  }
}
