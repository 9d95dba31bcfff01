/** Orders and trades. Decimals are reals: addition, subtraction, multiplication and comparison are exact there too. */
module Models {

  datatype Side = Buy | Sell {
    function Opposite(): Side { if this == Buy then Sell else Buy }
  }

  // Iceberg orders are not part of this model.
  datatype OrderType = Limit | Market | StopLimit | StopMarket | UnknownType

  datatype Status = New | PartiallyFilled | Filled | Cancelled | Expired | Rejected

  datatype TimeInForce = GTC | IOC | FOK | GTX | UnknownTif

  datatype Option<T> = None | Some(value: T)

  /** Price times amount. */
  function Cost(price: real, amount: real): real { price * amount }

  /** The value of an order at one moment. */
  datatype Ord = Ord(id: nat, user: nat, symbol: string, side: Side, kind: OrderType, tif: TimeInForce,
                     price: real, amount: real, status: Status, filled: real, remain: real, filledTotal: real)
  {
    predicate IsFinished() { status in {Filled, Cancelled, Expired, Rejected} }

    predicate CanCancel() { status in {New, PartiallyFilled} }

    /** The bookkeeping of one fill. */
    function Fill(amt: real, total: real): Ord {
      var f := filled + amt;
      this.(filled := f, remain := amount - f, filledTotal := filledTotal + total,
            status := if amount - f == 0.0 then Filled else if f > 0.0 then PartiallyFilled else status)
    }

    /** Filled and remaining parts are non-negative and make up the whole amount, and the status tells how far it is. */
    predicate Kept() { filled >= 0.0 && remain >= 0.0 && filled + remain == amount && StatusFits() }

    /** New: nothing is filled. Partially filled: something is, and something remains. Filled: something is, and
        nothing remains. */
    predicate StatusFits() {
      && (status == New ==> filled == 0.0)
      && (status == PartiallyFilled ==> filled > 0.0 && remain > 0.0)
      && (status == Filled ==> filled > 0.0 && remain == 0.0)
    }

    /** An order that can still trade. */
    predicate Open() { Kept() && remain > 0.0 && CanCancel() }

    /** An order as it is submitted. */
    predicate Fresh() { status == New && filled == 0.0 && filledTotal == 0.0 && remain == amount && amount >= 0.0 }
  }

  /** An order is either finished or can be cancelled. */
  lemma FinishedOrCancellable(o: Ord)
    ensures o.IsFinished() <==> !o.CanCancel()
    ensures o.IsFinished() <==> o.status != New && o.status != PartiallyFilled
  {
    match o.status
    case New =>
    case PartiallyFilled =>
    case Filled =>
    case Cancelled =>
    case Expired =>
    case Rejected =>
  }

  function NewOrd(id: nat, user: nat, symbol: string, side: Side, kind: OrderType, price: real, amount: real,
                  tif: TimeInForce): Ord
  {
    Ord(id, user, symbol, side, kind, tif, price, amount, New, 0.0, amount, 0.0)
  }

  datatype Trade = Trade(taker: nat, maker: nat, user: nat, makerUser: nat, symbol: string,
                         price: real, amount: real, total: real, takerSide: Side)

  function NewTrade(symbol: string, taker: Ord, maker: Ord, price: real, amount: real): Trade {
    Trade(taker.id, maker.id, taker.user, maker.user, symbol, price, amount, Cost(price, amount), taker.side)
  }

  function Min(a: real, b: real): real { if a < b then a else b }

  /** An order as the program holds it: one object, shared between the matchers, the book and its index. */
  class Order {
    const ID: nat
    const UserID: nat
    const Symbol: string
    const Side: Side
    const Type: OrderType
    const TimeInForce: TimeInForce
    const Price: real
    const Amount: real
    var Status: Status
    var FilledAmount: real
    var RemainAmount: real
    var FilledTotal: real

    constructor (o: Ord)
      ensures View() == o
    {
      ID, UserID, Symbol, Side, Type, TimeInForce := o.id, o.user, o.symbol, o.side, o.kind, o.tif;
      Price, Amount, Status := o.price, o.amount, o.status;
      FilledAmount, RemainAmount, FilledTotal := o.filled, o.remain, o.filledTotal;
    }

    function View(): (o: Ord)
      reads this
      ensures o.id == ID && o.side == Side && o.price == Price
    {
      Ord(ID, UserID, Symbol, Side, Type, TimeInForce, Price, Amount, Status, FilledAmount, RemainAmount, FilledTotal)
    }

    predicate IsBuy() { Side == Buy }

    predicate IsFinished()
      reads this
      ensures IsFinished() <==> Status != New && Status != PartiallyFilled
    {
      Status == Filled || Status == Cancelled || Status == Expired || Status == Rejected
    }

    method UpdateFilled(filledAmount: real, filledTotal: real)
      modifies this
      ensures View() == old(View()).Fill(filledAmount, filledTotal)
      ensures FilledAmount == old(FilledAmount) + filledAmount && FilledTotal == old(FilledTotal) + filledTotal
      ensures FilledAmount + RemainAmount == Amount
      ensures RemainAmount == 0.0 ==> Status == Filled
      ensures RemainAmount != 0.0 && FilledAmount > 0.0 ==> Status == PartiallyFilled
      ensures RemainAmount != 0.0 && FilledAmount <= 0.0 ==> Status == old(Status)
    {
      FilledAmount := FilledAmount + filledAmount;
      RemainAmount := Amount - FilledAmount;
      FilledTotal := FilledTotal + filledTotal;
      if RemainAmount == 0.0 {
        Status := Filled;
      } else if FilledAmount > 0.0 {
        Status := PartiallyFilled;
      }
    }
  }

  class TradeResult {
    var TakerOrder: Order
    var MakerOrder: Order?
    var Trade: Option<Trade>
    var Trades: seq<Trade>

    constructor (taker: Order)
      ensures TakerOrder == taker && MakerOrder == null && Trade == None && Trades == []
    {
      TakerOrder, MakerOrder, Trade, Trades := taker, null, None, [];
    }

    method AddTrade(trade: Trade)
      modifies this`Trade, this`Trades
      ensures Trades == old(Trades) + [trade] && Trade == Some(trade)
    {
      Trades := Trades + [trade];
      Trade := Some(trade);
    }

    predicate HasTrade()
      reads this
    {
      |Trades| > 0
    }
  }
}
