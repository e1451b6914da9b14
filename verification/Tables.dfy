/** The rows of the trading tables, and sums over the fill table.

    Amounts are exact reals, instants are integers (milliseconds), and every
    table except the fills is a map from row id to row.  The fills are kept in
    the order of their ids, because the endpoints read them in that order. */
module Tables {

  datatype Option<+T> = None | Some(value: T) {
    function GetOr(default: T): T {
      if Some? then value else default
    }
  }

  datatype Side = Buy | Sell

  datatype Status = Open | Closed

  datatype CloseReason = ByImport | ByManualFix | ByBreakeven | ByOther

  datatype JobStatus = Filled | Failed | Skipped

  datatype JobReason = NoReason | Imported | ManuallyFixed | DebugBreakeven

  /** The exchange's order id of an execution, or the synthetic one of a break-even close. */
  datatype OrderRef = NoOrder | ExchangeOrder(id: string) | BreakevenOrder(at: int, position: int)

  datatype Account = Account(id: int, simulated: bool)

  datatype Job = Job(
    account: int, live: bool, symbol: string, side: Side, baseQty: real,
    status: JobStatus, reason: JobReason, positionToClose: Option<int>, createdAt: int)

  datatype Execution = Execution(
    job: int, account: int, live: bool, order: OrderRef,
    executedQty: real, avgPrice: real, quoteQty: real,
    feeAmount: Option<real>, feeCurrency: Option<string>, feeRate: Option<real>, createdAt: int)

  datatype Position = Position(
    account: int, live: bool, symbol: string, openJob: int,
    qtyTotal: real, qtyRemaining: real, priceOpen: real, status: Status,
    realizedProfit: real, feesOnBuy: real, feesOnSell: real, totalFees: real,
    closeReason: Option<CloseReason>, closedAt: Option<int>, createdAt: int)

  datatype Fill = Fill(
    id: int, position: int, execution: int, side: Side, qty: real, price: real, createdAt: int)

  /** A snapshot of the tables, with the next value of each auto-increment counter. */
  datatype Db = Db(
    jobs: map<int, Job>, executions: map<int, Execution>, positions: map<int, Position>, fills: seq<Fill>,
    nextJob: int, nextExecution: int, nextPosition: int, nextFill: int)

  const EMPTY_DB := Db(map[], map[], map[], [], 1, 1, 1, 1)

  /** At or below this remaining quantity a position counts as closed. */
  const DUST: real := 0.00001

  function Min(a: real, b: real): real {
    if a <= b then a else b
  }

  function Max(a: real, b: real): real {
    if a >= b then a else b
  }

  function Abs(a: real): real {
    if a < 0.0 then -a else a
  }

  /** The quantity of one side filled on a position. */
  function FilledQty(fills: seq<Fill>, position: int, side: Side): real {
    if fills == [] then 0.0
    else
      var f := fills[|fills| - 1];
      FilledQty(fills[..|fills| - 1], position, side)
      + if f.position == position && f.side == side then f.qty else 0.0
  }

  /** What the SELL fills of a position earned before fees, against its opening price. */
  function GrossProfit(fills: seq<Fill>, position: int, priceOpen: real): real {
    if fills == [] then 0.0
    else
      var f := fills[|fills| - 1];
      GrossProfit(fills[..|fills| - 1], position, priceOpen)
      + if f.position == position && f.side == Sell then (f.price - priceOpen) * f.qty else 0.0
  }

  function Worth(price: real, qty: real): real {
    price * qty
  }

  /** What the fills of one side of a position are worth: what was paid for it, or what it was sold for. */
  function Turnover(fills: seq<Fill>, position: int, side: Side): real {
    if fills == [] then 0.0
    else
      var f := fills[|fills| - 1];
      Turnover(fills[..|fills| - 1], position, side)
      + if f.position == position && f.side == side then Worth(f.price, f.qty) else 0.0
  }

  /** The SELL quantity that one execution has attached to positions. */
  function AttachedQty(fills: seq<Fill>, execution: int): real {
    if fills == [] then 0.0
    else
      var f := fills[|fills| - 1];
      AttachedQty(fills[..|fills| - 1], execution)
      + if f.execution == execution && f.side == Sell then f.qty else 0.0
  }

  /** A position's fills, in table order. */
  function FillsOf(fills: seq<Fill>, position: int): seq<Fill> {
    if fills == [] then []
    else
      var f := fills[|fills| - 1];
      var rest := FillsOf(fills[..|fills| - 1], position);
      if f.position == position then rest + [f] else rest
  }

  /** The execution of a job created last; of several created at one instant, the one with the least id. */
  function LatestExecution(executions: map<int, Execution>, job: int, bound: int): (latest: Option<int>)
    ensures latest.Some? ==>
      && latest.value in executions && 0 < latest.value < bound && executions[latest.value].job == job
      && forall e :: 0 < e < bound && e in executions && executions[e].job == job ==>
           executions[e].createdAt <= executions[latest.value].createdAt
           && (e < latest.value ==> executions[e].createdAt < executions[latest.value].createdAt)
    ensures latest.None? ==> forall e :: 0 < e < bound && e in executions ==> executions[e].job != job
    decreases bound
  {
    if bound <= 1 then None
    else
      var best := LatestExecution(executions, job, bound - 1);
      var e := bound - 1;
      if e in executions && executions[e].job == job
         && (best.None? || executions[e].createdAt > executions[best.value].createdAt)
      then Some(e)
      else best
  }

  /** A position with no fill has no quantity, profit or attached sale. */
  lemma {:induction false} NoFillsNoSums(fills: seq<Fill>, position: int)
    requires forall f :: f in fills ==> f.position != position
    ensures FilledQty(fills, position, Buy) == 0.0
    ensures FilledQty(fills, position, Sell) == 0.0
    ensures forall price :: GrossProfit(fills, position, price) == 0.0
  {
    if fills == [] {
    } else {
      NoFillsNoSums(fills[..|fills| - 1], position);
    }
  }

  lemma {:induction false} NothingAttached(fills: seq<Fill>, execution: int)
    requires forall f :: f in fills ==> f.execution != execution
    ensures AttachedQty(fills, execution) == 0.0
  {
    if fills == [] {
    } else {
      NothingAttached(fills[..|fills| - 1], execution);
    }
  }

  /** Adding one fill moves exactly one sum of each kind. */
  lemma Append(fills: seq<Fill>, f: Fill, p: int, side: Side, price: real, e: int)
    ensures FilledQty(fills + [f], p, side) ==
            FilledQty(fills, p, side) + if f.position == p && f.side == side then f.qty else 0.0
    ensures GrossProfit(fills + [f], p, price) ==
            GrossProfit(fills, p, price) + if f.position == p && f.side == Sell then (f.price - price) * f.qty else 0.0
    ensures AttachedQty(fills + [f], e) ==
            AttachedQty(fills, e) + if f.execution == e && f.side == Sell then f.qty else 0.0
  {
    assert (fills + [f])[..|fills|] == fills;
  }

  /** `symbol.split('/')[0]` */
  function BaseAsset(symbol: string): string {
    if symbol == "" || symbol[0] == '/' then "" else [symbol[0]] + BaseAsset(symbol[1..])
  }

  /** `symbol.split('/')[1]`, absent when the symbol has no slash. */
  function QuoteAsset(symbol: string): Option<string> {
    if symbol == "" then None
    else if symbol[0] == '/' then Some(BaseAsset(symbol[1..]))
    else QuoteAsset(symbol[1..])
  }

  /** `symbol.split('/')[1] || 'USDT'` */
  function QuoteOrUsdt(symbol: string): string {
    match QuoteAsset(symbol)
    case None => "USDT"
    case Some(q) => if q == "" then "USDT" else q
  }

  lemma {:induction false} NoSlash(asset: string)
    requires '/' !in asset
    ensures BaseAsset(asset) == asset && QuoteAsset(asset) == None
  {
    if asset != "" {
      NoSlash(asset[1..]);
      assert [asset[0]] + asset[1..] == asset;
    }
  }

  /** A symbol is its assets joined by a slash. */
  lemma {:induction false} SymbolParts(base: string, quote: string)
    requires '/' !in base && '/' !in quote
    ensures BaseAsset(base + "/" + quote) == base && QuoteAsset(base + "/" + quote) == Some(quote)
    ensures QuoteOrUsdt(base + "/" + quote) == if quote == "" then "USDT" else quote
    ensures BaseAsset(base) == base && QuoteAsset(base) == None && QuoteOrUsdt(base) == "USDT"
    decreases base
  {
    var symbol := base + "/" + quote;
    NoSlash(base);
    NoSlash(quote);
    if base == "" {
      assert symbol[1..] == quote;
    } else {
      SymbolParts(base[1..], quote);
      assert symbol[1..] == base[1..] + "/" + quote;
      assert [base[0]] + base[1..] == base;
    }
  }
}
