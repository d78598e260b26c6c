/**
 * The quantity ledger: a confirmed check-in adds the amount, a check-out
 * subtracts it, and the new quantity is clamped at 0 either way.
 */
module Ledger {
  import opened Registry

  datatype Direction = In | Out

  /** The Confirm button is enabled only for an amount that parses to a positive integer. */
  predicate CanConfirm(amount: int) {
    amount > 0
  }

  /**
   * The record written back by a transaction: the current item with the
   * clamped new quantity and fresh stamps; nothing else changes.
   */
  function Apply(current: Item, dir: Direction, amount: int, now: string, user: string): (r: Item)
    ensures r.quantity >= 0
    ensures dir == In && current.quantity + amount >= 0 ==> r.quantity == current.quantity + amount
    ensures dir == In && current.quantity + amount < 0 ==> r.quantity == 0
    ensures dir == Out ==> r.quantity == if amount <= current.quantity then current.quantity - amount else 0
    ensures r.itemNumber == current.itemNumber && r.description == current.description
    ensures r.color == current.color && r.qrCode == current.qrCode
    ensures r.lastUpdated == now && r.lastUpdatedBy == user
  {
    var next := if dir == In then current.quantity + amount else current.quantity - amount;
    current.(quantity := if next < 0 then 0 else next, lastUpdated := now, lastUpdatedBy := user)
  }

  /** A check-out of what was just checked in restores a non-negative stock. */
  lemma CheckOutUndoesCheckIn(current: Item, amount: int, now: string, user: string)
    requires current.quantity >= 0 && CanConfirm(amount)
    ensures Apply(Apply(current, In, amount, now, user), Out, amount, now, user).quantity == current.quantity
  {
  }

  /** A check-in undoes a check-out only when the stock covered it; otherwise the clamp loses the shortfall. */
  lemma CheckInUndoesCheckOut(current: Item, amount: int, now: string, user: string)
    requires CanConfirm(amount)
    ensures Apply(Apply(current, Out, amount, now, user), In, amount, now, user).quantity
            == if amount <= current.quantity then current.quantity else amount
  {
  }

  /** A run of confirmed transactions, applied in order. */
  function Replay(current: Item, txs: seq<(Direction, int)>, now: string, user: string): Item
    decreases txs
  {
    if txs == [] then current
    else Replay(Apply(current, txs[0].0, txs[0].1, now, user), txs[1..], now, user)
  }

  /**
   * An empty run changes nothing. After a non-empty run of confirmed
   * transactions the quantity is non-negative and at most the starting stock
   * (or 0, when the stored stock was negative) plus everything checked in;
   * the item number, description and color are those of the starting record.
   */
  lemma {:induction false} ReplayBounds(current: Item, txs: seq<(Direction, int)>, now: string, user: string)
    requires forall k :: 0 <= k < |txs| ==> CanConfirm(txs[k].1)
    ensures txs == [] ==> Replay(current, txs, now, user) == current
    ensures var r := Replay(current, txs, now, user);
            txs != [] ==>
              && 0 <= r.quantity <= (if current.quantity < 0 then 0 else current.quantity) + CheckedIn(txs)
              && r.itemNumber == current.itemNumber && r.description == current.description && r.color == current.color
    decreases txs
  {
    if txs != [] {
      var next := Apply(current, txs[0].0, txs[0].1, now, user);
      ReplayBounds(next, txs[1..], now, user);
    }
  }

  /** The total amount checked in by a run of transactions. */
  function CheckedIn(txs: seq<(Direction, int)>): int {
    if txs == [] then 0 else (if txs[0].0 == In then txs[0].1 else 0) + CheckedIn(txs[1..])
  }

  /** Checking out 60 from a stock of 50 leaves 0, not -10. */
  lemma CheckOutBeyondStock(current: Item, now: string, user: string)
    requires current.quantity == 50
    ensures Apply(current, Out, 60, now, user).quantity == 0
  {
  }
}
