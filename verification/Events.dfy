/** The events that matching leaves for settlement. */
module Events {
  import opened OrderKeys
  import opened Types
  import opened FixedPoint

  datatype Event =
    | Fill(takerSide: Side, makerSlot: nat, makerOut: bool, timestamp: nat, seqNum: nat,
           maker: Pubkey, makerOrderId: Key, makerClientOrderId: nat, makerFee: Fixed,
           bestInitial: int, makerTimestamp: nat,
           taker: Pubkey, takerOrderId: Key, takerClientOrderId: nat, takerFee: Fixed,
           price: int, quantity: int, version: nat)
    | Out(side: Side, slot: nat, timestamp: nat, seqNum: nat, owner: Pubkey, quantity: int)
    | Liquidate(timestamp: nat, seqNum: nat, liqee: Pubkey, liqor: Pubkey, liqPrice: Fixed, liqQuantity: int,
                liquidationFee: Fixed)
  {
    /** Base and quote lots a party on `side` of the fill receives. */
    function BaseQuoteChange(side: Side): (int, int)
      requires Fill?
    {
      if side == Bid then (quantity, -(price * quantity)) else (-quantity, price * quantity)
    }
  }
}
