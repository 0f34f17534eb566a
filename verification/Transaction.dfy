/** A whole transaction: checks, prepayment, the outer call or creation, refunds and removals. */
module Transaction {
  import opened Types
  import opened Accounts
  import opened Memory
  import opened Vm
  import opened Execution

  /** `address` of a creation is whatever the address scheme hashes to. */
  datatype Action = CreateContract(address: Address) | CallContract(to: Address)

  datatype Transaction = Transaction(
    hash: H256,
    sender: Address,
    isUnsigned: bool,
    nonce: nat,
    gas: nat,
    gasPrice: nat,
    value: nat,
    action: Action,
    data: Bytes)

  /** What a transaction sees of its block. */
  datatype BlockInfo = BlockInfo(author: Address, gasUsed: nat, gasLimit: nat)

  datatype ExecutionError =
    | NotEnoughBaseGas
    | SenderMustExist
    | InvalidNonce
    | BlockGasLimitReached
    | NotEnoughCash
    | InternalError

  datatype Executed = Executed(
    exception: Option<VmError>,
    gas: nat,
    gasUsed: nat,
    refunded: nat,
    cumulativeGasUsed: nat,
    logs: seq<LogEntry>,
    contractsCreated: seq<Address>)

  datatype TxResult = Done(executed: Executed) | Refused(error: ExecutionError)

  /** Everything that decides a run besides the accounts: the code's behaviour, the balances that accounts were
      first seen with, and whether the sender was loaded. */
  datatype Oracle = Oracle(builtin: BuiltinRun, frame: Frame, firstSeen: map<Address, nat>, senderLoaded: bool)

  function DataGas(s: Schedule, data: Bytes): nat {
    if data == [] then 0
    else
      var last := |data| - 1;
      DataGas(s, data[..last]) + if data[last] == 0 then s.txDataZeroGas else s.txDataNonZeroGas
  }

  /** The gas every transaction pays before it starts. */
  function BaseGas(s: Schedule, t: Transaction): nat {
    (if t.action.CreateContract? then s.txCreateGas else s.txGas) + DataGas(s, t.data)
  }

  /** The first check that a transaction fails, if any. */
  function Rejection(env: Env, info: BlockInfo, w: World, t: Transaction, checkNonce: bool): Option<ExecutionError> {
    if t.gas < BaseGas(env.schedule, t) then Some(NotEnoughBaseGas)
    else if !t.isUnsigned && checkNonce && !env.schedule.killDust.Off? && t.sender !in w then Some(SenderMustExist)
    else if checkNonce && t.nonce != Nonce(w, t.sender, env.startNonce) then Some(InvalidNonce)
    else if info.gasUsed + t.gas > info.gasLimit then Some(BlockGasLimitReached)
    else if Balance(w, t.sender) < t.value + t.gas * t.gasPrice then Some(NotEnoughCash)
    else None
  }

  predicate RaisesNonce(env: Env, t: Transaction) {
    !env.schedule.eip86 || !t.isUnsigned
  }

  /** The accounts once the nonce is raised and all the gas is paid for. */
  function Prepaid(env: Env, w: World, t: Transaction): World
    requires t.gas * t.gasPrice <= Balance(w, t.sender)
  {
    var w1 := if RaisesNonce(env, t) then IncNonce(w, t.sender, env.startNonce) else w;
    SubBalance(w1, t.sender, t.gas * t.gasPrice, env.startNonce)
  }

  function PrepaidTrail(env: Env, w: World, t: Transaction): seq<Event> {
    if RaisesNonce(env, t) then
      [Fetched(t.sender)] + SubTrail(IncNonce(w, t.sender, env.startNonce), t.sender, t.gas * t.gasPrice)
    else SubTrail(w, t.sender, t.gas * t.gasPrice)
  }

  function PrepaidSub(env: Env, t: Transaction): Substate {
    if Mode(env.schedule).TrackTouched? then Touch(EmptySubstate, {t.sender}) else EmptySubstate
  }

  function OuterParams(env: Env, w: World, t: Transaction): Params
    requires BaseGas(env.schedule, t) <= t.gas
  {
    var gas := t.gas - BaseGas(env.schedule, t);
    match t.action
    case CreateContract(a) => Params(a, a, t.sender, gas, Moved(t.value), true, NoCall)
    case CallContract(to) => Params(to, to, t.sender, gas, Moved(t.value), CodeOf(w, to) != [], Call)
  }

  /** The outermost call or creation, on accounts whose sender has paid for the gas. */
  function OuterFrame(env: Env, w: World, sub: Substate, t: Transaction, b: BuiltinRun, frame: Frame): Run
    requires BaseGas(env.schedule, t) <= t.gas && t.value <= Balance(w, t.sender)
  {
    var p := OuterParams(env, w, t);
    if t.action.CreateContract? then CreateRun(env, 0, false, w, sub, p, frame)
    else
      var run := CallRun(env, 0, false, w, sub, p, b, frame);
      run.(trail := [Asked(t.action.to)] + run.trail)
  }

  /** The run of a transaction: paying for the gas, then the outermost call or creation. */
  function OuterRun(env: Env, w: World, t: Transaction, o: Oracle): Run
    requires BaseGas(env.schedule, t) <= t.gas
    requires t.value + t.gas * t.gasPrice <= Balance(w, t.sender)
  {
    OuterFrame(env, Prepaid(env, w, t), PrepaidSub(env, t), t, o.builtin, o.frame)
  }

  function GasLeft(r: Finalization): nat {
    if r.Ok? then r.gasLeft else 0
  }

  /** The gas that the run has earned back. */
  function RefundsAsked(s: Schedule, run: Run): nat {
    s.sstoreRefundGas * run.sub.sstoreClears + s.suicideRefundGas * |run.sub.suicides|
  }

  /** The gas that is really given back on top of what was left. */
  function RefundedGas(s: Schedule, t: Transaction, run: Run): nat
    requires GasLeft(run.result) <= t.gas
  {
    Min(RefundsAsked(s, run), (t.gas - GasLeft(run.result)) / 2)
  }

  /** The gas that is really charged. */
  function ChargedGas(s: Schedule, t: Transaction, run: Run): (used: nat)
    requires GasLeft(run.result) <= t.gas
    ensures used <= t.gas
    ensures t.gas - GasLeft(run.result) <= 2 * used
  {
    t.gas - (GasLeft(run.result) + RefundedGas(s, t, run))
  }

  /** The accounts once the sender has its refund and the author of the block the fees. */
  function PaidBack(env: Env, w: World, sender: Address, refund: nat, author: Address, fees: nat): World {
    AddBalance(AddBalance(w, sender, refund, NoEmpty, env.startNonce), author, fees, Mode(env.schedule), env.startNonce)
  }

  function PaidBackTrail(env: Env, w: World, sender: Address, refund: nat, author: Address, fees: nat): seq<Event> {
    AddTrail(w, sender, refund, NoEmpty)
    + AddTrail(AddBalance(w, sender, refund, NoEmpty, env.startNonce), author, fees, Mode(env.schedule))
  }

  /** Paying the author nothing touches it. */
  function PaidTouches(env: Env, w: World, sender: Address, refund: nat, author: Address, fees: nat): set<Address> {
    if Mode(env.schedule).TrackTouched? && fees == 0 && author in AddBalance(w, sender, refund, NoEmpty, env.startNonce)
    then {author} else {}
  }

  /** The price of the gas that was not used, and of the gas that was. */
  function RefundValue(t: Transaction, used: nat): nat
    requires used <= t.gas
  {
    (t.gas - used) * t.gasPrice
  }

  function FeesValue(t: Transaction, used: nat): nat {
    used * t.gasPrice
  }

  /** The accounts once the sender and the author of the block are paid for `used` gas. */
  function CreditedFor(env: Env, info: BlockInfo, t: Transaction, w: World, used: nat): World
    requires used <= t.gas
  {
    PaidBack(env, w, t.sender, RefundValue(t, used), info.author, FeesValue(t, used))
  }

  function Credited(env: Env, info: BlockInfo, t: Transaction, run: Run): World
    requires GasLeft(run.result) <= t.gas
  {
    CreditedFor(env, info, t, run.world, ChargedGas(env.schedule, t, run))
  }

  /** The touched accounts at the end. */
  function TouchedAtEnd(env: Env, info: BlockInfo, t: Transaction, run: Run): set<Address>
    requires GasLeft(run.result) <= t.gas
  {
    var used := ChargedGas(env.schedule, t, run);
    run.sub.touched +
    PaidTouches(env, run.world, t.sender, RefundValue(t, used), info.author, FeesValue(t, used))
  }

  /** The one sender that may go through a transaction without being loaded: its nonce does not rise, it pays
      nothing, and it exists without code. */
  predicate SenderLoose(env: Env, w: World, t: Transaction) {
    !RaisesNonce(env, t) && t.gas * t.gasPrice == 0 && t.sender in w && w[t.sender].code == []
  }

  /** What happens to the loaded accounts up to the removals: the sender is read and pays, the code runs, and sender
      and author are paid. */
  function TrailAtEnd(env: Env, info: BlockInfo, w: World, t: Transaction, run: Run): seq<Event>
    requires GasLeft(run.result) <= t.gas
  {
    var used := ChargedGas(env.schedule, t, run);
    [Asked(t.sender)] + PrepaidTrail(env, w, t) + run.trail
    + PaidBackTrail(env, run.world, t.sender, RefundValue(t, used), info.author, FeesValue(t, used))
  }

  /** What is remembered by then, on top of `olds`. */
  function OldsAtEnd(env: Env, info: BlockInfo, w: World, t: Transaction, run: Run, r: Reader,
                     olds: map<Address, Option<nat>>): map<Address, Option<nat>>
    requires GasLeft(run.result) <= t.gas
  {
    Replay(r, Between(olds), TrailAtEnd(env, info, w, t, run)).olds
  }

  /** So the balances first seen, and whether the sender is loaded, follow from the run and from where accounts are
      loaded from. */
  function OracleAtEnd(env: Env, info: BlockInfo, w: World, t: Transaction, b: BuiltinRun, frame: Frame, run: Run,
                       r: Reader, olds: map<Address, Option<nat>>): Oracle
    requires GasLeft(run.result) <= t.gas
  {
    var seen := OldsAtEnd(env, info, w, t, run, r, olds);
    Oracle(b, frame, SeenIn(r.base, seen), !SenderLoose(env, w, t) || t.sender in seen)
  }

  /** The touched accounts that are removed after the self-destructed ones. */
  function DustAtEnd(env: Env, info: BlockInfo, t: Transaction, run: Run, o: Oracle): set<Address>
    requires GasLeft(run.result) <= t.gas
  {
    Dust(env, Credited(env, info, t, run) - run.sub.suicides, t, TouchedAtEnd(env, info, t, run), o)
  }

  /** Those of the touched accounts that are empty, or dust by the price of a plain transfer. */
  function Dust(env: Env, w: World, t: Transaction, touched: set<Address>, o: Oracle): set<Address> {
    Garbage(w, touched - (if o.senderLoaded then {} else {t.sender}), o.firstSeen, env.schedule.killEmpty,
            if env.schedule.killDust.Off? then None else Some(env.schedule.txGas * t.gasPrice),
            env.schedule.killDust.WithCodeAndStorage?)
  }

  /** The accounts that are removed at the end. */
  function RemovedAtEnd(env: Env, info: BlockInfo, t: Transaction, run: Run, o: Oracle): set<Address>
    requires GasLeft(run.result) <= t.gas
  {
    run.sub.suicides + DustAtEnd(env, info, t, run, o)
  }

  function Finalized(env: Env, info: BlockInfo, t: Transaction, run: Run, o: Oracle): World
    requires GasLeft(run.result) <= t.gas
  {
    Credited(env, info, t, run) - run.sub.suicides - DustAtEnd(env, info, t, run, o)
  }

  /** What is reported to the caller. */
  function Report(env: Env, info: BlockInfo, t: Transaction, run: Run): TxResult
    requires GasLeft(run.result) <= t.gas
  {
    match run.result
    case Err(error) =>
      if error.Internal? then Refused(InternalError)
      else Done(Executed(Some(error), t.gas, t.gas, 0, info.gasUsed + t.gas, [], []))
    case Ok(_, applyState) =>
      var used := ChargedGas(env.schedule, t, run);
      Done(Executed(if applyState then None else Some(Reverted), t.gas, used, RefundedGas(env.schedule, t, run),
                    info.gasUsed + used, run.sub.logs, run.sub.created))
  }

  /** Code never gives back more gas than the transaction had left for it. */
  predicate OracleFits(env: Env, t: Transaction, o: Oracle) {
    BaseGas(env.schedule, t) <= t.gas ==>
      o.frame.outcome.Failed? || o.frame.outcome.gasLeft <= t.gas - BaseGas(env.schedule, t)
  }
}
