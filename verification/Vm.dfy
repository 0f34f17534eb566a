/** What a contract run asks of its surroundings, and the records that pass between frames. */
module Vm {
  import opened Types
  import opened Accounts

  datatype VmError =
    | OutOfGas
    | BadJumpDestination
    | BadInstruction
    | StackUnderflow
    | OutOfStack
    | BuiltIn
    | MutableCallInStaticContext
    | Internal
    | Wasm
    | OutOfBounds
    | Reverted

  datatype CallType = NoCall | Call | CallCode | DelegateCall | StaticCall

  /** `Moved` is transferred from sender to receiver, `Apparent` is only reported to the code. */
  datatype ActionValue = Moved(amount: nat) | Apparent(amount: nat)

  /** `hasCode` tells whether there is code to run; running empty code does nothing. */
  datatype Params = Params(
    codeAddress: Address,
    address: Address,
    sender: Address,
    gas: nat,
    value: ActionValue,
    hasCode: bool,
    callType: CallType)

  /** How a run of code ends. */
  datatype VmResult =
    | Known(gasLeft: nat)
    | NeedsReturn(gasLeft: nat, data: Bytes, applyState: bool)
    | Failed(error: VmError)

  /** How a call or creation ends. */
  datatype Finalization = Ok(gasLeft: nat, applyState: bool) | Err(error: VmError)

  /** What a built-in contract would charge, and whether it accepts its input. */
  datatype BuiltinRun = BuiltinRun(cost: nat, accepts: bool)

  datatype LogEntry = LogEntry(address: Address, topics: seq<H256>, data: Bytes)

  /** One run of code: the requests it makes, in order, and how it ends. Code reads the state as it
      likes and decides what to ask next; a frame records what one run did ask, so a statement
      about every frame covers every program on every state. */
  datatype Frame = Frame(requests: seq<Request>, outcome: VmResult)

  datatype Request =
    | PutStorage(key: H256, value: H256)
    | PutLog(topics: seq<H256>, data: Bytes)
    | SelfDestruct(refund: Address)
    | IncSstoreClears
      /** Reads an account: its balance, code or storage. */
    | Look(address: Address)
    | CallOut(kind: CallType, target: Address, amount: nat, gas: nat, builtin: BuiltinRun, child: Frame)
      /** `address` is whatever the address scheme hashes to. */
    | CreateOut(address: Address, amount: nat, gas: nat, child: Frame)

  datatype Substate = Substate(
    suicides: set<Address>,
    touched: set<Address>,
    logs: seq<LogEntry>,
    sstoreClears: nat,
    created: seq<Address>)

  const EmptySubstate := Substate({}, {}, [], 0, [])

  function Accrue(s: Substate, t: Substate): Substate {
    Substate(s.suicides + t.suicides, s.touched + t.touched, s.logs + t.logs,
             s.sstoreClears + t.sstoreClears, s.created + t.created)
  }

  function Touch(s: Substate, addresses: set<Address>): Substate {
    s.(touched := s.touched + addresses)
  }

  datatype CleanDustMode = Off | BasicOnly | WithCodeAndStorage

  datatype Schedule = Schedule(
    maxDepth: nat,
    noEmpty: bool,
    killEmpty: bool,
    killDust: CleanDustMode,
    createDataGas: nat,
    createDataLimit: nat,
    exceptionalFailedCodeDeposit: bool,
    sstoreRefundGas: nat,
    suicideRefundGas: nat,
    txGas: nat,
    txCreateGas: nat,
    txDataZeroGas: nat,
    txDataNonZeroGas: nat,
    eip86: bool)

  datatype Env = Env(schedule: Schedule, builtins: set<Address>, startNonce: nat)

  /** The sender of unsigned transactions. */
  const UNSIGNED_SENDER: Address := 0xffff_ffff_ffff_ffff_ffff_ffff_ffff_ffff_ffff_ffff

  /** `Substate::to_cleanup_mode`. */
  function Mode(s: Schedule): CleanupMode {
    if s.killDust.Off? && !s.noEmpty then ForceCreate
    else if s.killDust.Off? && !s.killEmpty then NoEmpty
    else TrackTouched
  }
}
