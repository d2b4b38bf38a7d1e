/**
 * Command gating: the two execution contexts (a plain one and an observable one)
 * and DelegateCommand, whose callback runs only when its context allows it.
 *
 * A command is passed to a context only through its IsBlocking flag, which is all
 * the contexts read of it.
 */
module Commands {
  import opened Wrappers
  import opened Observable

  /** The two lock flags both contexts keep. */
  datatype LockFlags = LockFlags(byCommand: bool, globally: bool)

  const Unlocked := LockFlags(false, false)

  /** CanExecuteCommand. */
  predicate Allows(f: LockFlags) {
    !f.byCommand && !f.globally
  }

  function Begin(f: LockFlags, isBlocking: bool): LockFlags {
    if isBlocking then f.(byCommand := true) else f
  }

  function End(f: LockFlags, isBlocking: bool): LockFlags {
    if isBlocking then f.(byCommand := false) else f
  }

  function LockGlobally(f: LockFlags): LockFlags {
    f.(globally := true)
  }

  function UnlockGlobally(f: LockFlags): LockFlags {
    f.(globally := false)
  }

  /** The calls a context receives. */
  datatype Call = BeginCall(isBlocking: bool) | EndCall(isBlocking: bool) | LockCall | UnlockCall

  function Apply(f: LockFlags, c: Call): LockFlags {
    match c
    case BeginCall(b) => Begin(f, b)
    case EndCall(b) => End(f, b)
    case LockCall => LockGlobally(f)
    case UnlockCall => UnlockGlobally(f)
  }

  function ApplyAll(f: LockFlags, calls: seq<Call>): LockFlags
    decreases |calls|
  {
    if calls == [] then f else ApplyAll(Apply(f, calls[0]), calls[1..])
  }

  /** The command lock is a flag, not a counter: one End undoes any number of Begins. */
  lemma {:induction false} OneEndUndoesAllBegins(f: LockFlags, n: nat)
    ensures !ApplyAll(f, seq(n, _ => BeginCall(true)) + [EndCall(true)]).byCommand
    ensures ApplyAll(f, seq(n, _ => BeginCall(true)) + [EndCall(true)]).globally == f.globally
    decreases n
  {
    var calls := seq(n, _ => BeginCall(true)) + [EndCall(true)];
    if n > 0 {
      assert calls[0] == BeginCall(true);
      assert calls[1..] == seq(n - 1, _ => BeginCall(true)) + [EndCall(true)];
      OneEndUndoesAllBegins(Begin(f, true), n - 1);
    } else {
      assert calls == [EndCall(true)];
      assert calls[1..] == [];
    }
  }

  /** Begin and End of non-blocking commands never change a context. */
  lemma {:induction false} NonBlockingCommandsChangeNothing(f: LockFlags, calls: seq<Call>)
    requires forall i :: 0 <= i < |calls| ==> calls[i] in {BeginCall(false), EndCall(false)}
    ensures ApplyAll(f, calls) == f
    decreases |calls|
  {
    if calls != [] {
      assert forall i :: 0 <= i < |calls[1..]| ==> calls[1..][i] == calls[i + 1];
      NonBlockingCommandsChangeNothing(Apply(f, calls[0]), calls[1..]);
    }
  }

  /** Once locked globally, no command may execute until UnlockContext, whatever commands begin and end. */
  lemma {:induction false} GlobalLockHoldsUntilUnlock(f: LockFlags, calls: seq<Call>)
    requires f.globally
    requires UnlockCall !in calls
    ensures ApplyAll(f, calls).globally && !Allows(ApplyAll(f, calls))
    decreases |calls|
  {
    if calls != [] {
      assert UnlockCall !in calls[1..] by { assert forall c :: c in calls[1..] ==> c in calls; }
      GlobalLockHoldsUntilUnlock(Apply(f, calls[0]), calls[1..]);
    }
  }

  /** Lock and Unlock touch only the global flag; Begin and End touch only the command flag. */
  lemma FlagsAreIndependent(f: LockFlags, b: bool)
    ensures LockGlobally(f).byCommand == f.byCommand && UnlockGlobally(f).byCommand == f.byCommand
    ensures Begin(f, b).globally == f.globally && End(f, b).globally == f.globally
    ensures Allows(f) <==> !f.byCommand && !f.globally
  {
  }

  /** BaseExecutionContext: two plain boolean fields. */
  class BaseExecutionContext {
    var lockedByCommand: bool
    var lockedGlobally: bool

    constructor ()
      ensures Flags() == Unlocked
    {
      lockedByCommand, lockedGlobally := false, false;
    }

    function Flags(): LockFlags
      reads this
    {
      LockFlags(lockedByCommand, lockedGlobally)
    }

    function CanExecuteCommand(): (r: bool)
      reads this
      ensures r <==> Allows(Flags())
    {
      !lockedByCommand && !lockedGlobally
    }

    method BeginCommandExecution(commandIsBlocking: bool)
      modifies this
      ensures Flags() == Begin(old(Flags()), commandIsBlocking)
      ensures commandIsBlocking ==> !CanExecuteCommand()
    {
      if commandIsBlocking {
        lockedByCommand := true;
      }
    }

    method EndCommandExecution(commandIsBlocking: bool)
      modifies this
      ensures Flags() == End(old(Flags()), commandIsBlocking)
    {
      if commandIsBlocking {
        lockedByCommand := false;
      }
    }

    method Lock()
      modifies this
      ensures Flags() == LockGlobally(old(Flags()))
      ensures !CanExecuteCommand()
    {
      lockedGlobally := true;
    }

    method Unlock()
      modifies this
      ensures Flags() == UnlockGlobally(old(Flags()))
    {
      lockedGlobally := false;
    }
  }

  /**
   * ExecutionContext: the same flags, each written through UpdateValue, so every
   * actual change of a flag fires Update once and a rewrite of the same value fires nothing.
   */
  class ExecutionContext {
    const obs: BaseObservable
    var lockedByCommand: bool
    var lockedGlobally: bool

    ghost predicate Valid()
      reads this, obs, obs.openTokens
    {
      obs.Valid()
    }

    constructor ()
      ensures Valid() && fresh(obs) && Flags() == Unlocked
      ensures obs.State() == Initial && obs.openTokens == {}
    {
      obs := new BaseObservable();
      lockedByCommand, lockedGlobally := false, false;
    }

    function Flags(): LockFlags
      reads this
    {
      LockFlags(lockedByCommand, lockedGlobally)
    }

    function CanExecuteCommand(): (r: bool)
      reads this
      ensures r <==> Allows(Flags())
    {
      !lockedByCommand && !lockedGlobally
    }

    /** The LockedByCommand setter. */
    method SetLockedByCommand(value: bool)
      requires Valid()
      modifies this, obs
      ensures Valid() && obs.openTokens == old(obs.openTokens)
      ensures lockedByCommand == value && lockedGlobally == old(lockedGlobally)
      ensures obs.State() == SignalIf(old(obs.State()), value != old(lockedByCommand))
    {
      lockedByCommand := obs.UpdateValue(lockedByCommand, value);
    }

    /** The LockedGlobally setter. */
    method SetLockedGlobally(value: bool)
      requires Valid()
      modifies this, obs
      ensures Valid() && obs.openTokens == old(obs.openTokens)
      ensures lockedGlobally == value && lockedByCommand == old(lockedByCommand)
      ensures obs.State() == SignalIf(old(obs.State()), value != old(lockedGlobally))
    {
      lockedGlobally := obs.UpdateValue(lockedGlobally, value);
    }

    method BeginCommandExecution(commandIsBlocking: bool)
      requires Valid()
      modifies this, obs
      ensures Valid() && obs.openTokens == old(obs.openTokens)
      ensures Flags() == Begin(old(Flags()), commandIsBlocking)
      ensures obs.State() == SignalIf(old(obs.State()), Flags() != old(Flags()))
    {
      if commandIsBlocking {
        SetLockedByCommand(true);
      }
    }

    method EndCommandExecution(commandIsBlocking: bool)
      requires Valid()
      modifies this, obs
      ensures Valid() && obs.openTokens == old(obs.openTokens)
      ensures Flags() == End(old(Flags()), commandIsBlocking)
      ensures obs.State() == SignalIf(old(obs.State()), Flags() != old(Flags()))
    {
      if commandIsBlocking {
        SetLockedByCommand(false);
      }
    }

    method LockContext()
      requires Valid()
      modifies this, obs
      ensures Valid() && obs.openTokens == old(obs.openTokens)
      ensures Flags() == LockGlobally(old(Flags()))
      ensures obs.State() == SignalIf(old(obs.State()), !old(lockedGlobally))
    {
      SetLockedGlobally(true);
    }

    method UnlockContext()
      requires Valid()
      modifies this, obs
      ensures Valid() && obs.openTokens == old(obs.openTokens)
      ensures Flags() == UnlockGlobally(old(Flags()))
      ensures obs.State() == SignalIf(old(obs.State()), old(lockedGlobally))
    {
      SetLockedGlobally(false);
    }
  }

  /** An ICommandExecutionContext: one of the two implementations. */
  datatype Context = Plain(base: BaseExecutionContext) | Observed(ctx: ExecutionContext) {
    function Frame(): set<object> {
      match this
      case Plain(b) => {b}
      case Observed(e) => {e}
    }

    predicate CanExecuteCommand()
      reads Frame()
    {
      match this
      case Plain(b) => b.CanExecuteCommand()
      case Observed(e) => e.CanExecuteCommand()
    }
  }

  /** An opaque delegate. */
  datatype Callback = Callback(id: nat)

  /** ArgumentNullException, naming the parameter that was null. */
  datatype ArgumentNull = NullCallback | NullContext

  /**
   * A payload passed as object: castable to the command's data type, of another
   * type, or null while the data type is a value type.
   */
  datatype Payload<D> = Castable(value: D) | NotCastable | NullForValueType

  /** NullReferenceException, raised by unboxing null to a value type. */
  datatype NullReference = NullReference

  /** DelegateCommand: a synchronous command with no payload. */
  class DelegateCommand {
    const callback: Callback
    const context: Context
    /** How many times the callback has run. */
    var invocations: nat

    constructor (callback: Callback, context: Context)
      ensures this.callback == callback && this.context == context && invocations == 0
    {
      this.callback := callback;
      this.context := context;
      invocations := 0;
    }

    /** The constructor's null checks: the callback is checked first, then the context. */
    static method Create(callback: Option<Callback>, context: Option<Context>) returns (r: Result<DelegateCommand, ArgumentNull>)
      ensures callback.None? ==> r == Failure(NullCallback)
      ensures callback.Some? && context.None? ==> r == Failure(NullContext)
      ensures callback.Some? && context.Some? ==>
        r.Success? && fresh(r.value) && r.value.callback == callback.value &&
        r.value.context == context.value && r.value.invocations == 0
    {
      if callback.None? {
        return Failure(NullCallback);
      }
      if context.None? {
        return Failure(NullContext);
      }
      var c := new DelegateCommand(callback.value, context.value);
      r := Success(c);
    }

    predicate CanExecute()
      reads this, context.Frame()
    {
      context.CanExecuteCommand()
    }

    /** A DelegateCommand never blocks its context. */
    function IsBlocking(): (r: bool)
      ensures !r
    {
      false
    }

    /** TryExecute: runs the callback exactly once when the context allows it, otherwise not at all. */
    method TryExecute()
      modifies this
      ensures invocations == if CanExecute() then old(invocations) + 1 else old(invocations)
    {
      if !CanExecute() {
        return;
      }
      invocations := invocations + 1;
    }

    /** Execute(object): the payload is ignored. */
    method Execute<D>(payload: Payload<D>)
      modifies this
      ensures invocations == if CanExecute() then old(invocations) + 1 else old(invocations)
    {
      TryExecute();
    }
  }

  /** DelegateCommand<TData>: the callback receives the payload. */
  class DelegateCommandOf<D> {
    const callback: Callback
    const context: Context
    /** The payloads the callback has received, in order. */
    var received: seq<D>

    constructor (callback: Callback, context: Context)
      ensures this.callback == callback && this.context == context && received == []
    {
      this.callback := callback;
      this.context := context;
      received := [];
    }

    static method Create(callback: Option<Callback>, context: Option<Context>) returns (r: Result<DelegateCommandOf<D>, ArgumentNull>)
      ensures callback.None? ==> r == Failure(NullCallback)
      ensures callback.Some? && context.None? ==> r == Failure(NullContext)
      ensures callback.Some? && context.Some? ==>
        r.Success? && fresh(r.value) && r.value.callback == callback.value &&
        r.value.context == context.value && r.value.received == []
    {
      if callback.None? {
        return Failure(NullCallback);
      }
      if context.None? {
        return Failure(NullContext);
      }
      var c := new DelegateCommandOf<D>(callback.value, context.value);
      r := Success(c);
    }

    predicate CanExecute()
      reads this, context.Frame()
    {
      context.CanExecuteCommand()
    }

    function IsBlocking(): (r: bool)
      ensures !r
    {
      false
    }

    /** Execute(payload): passes the payload to the callback when the context allows it. */
    method Execute(payload: D)
      modifies this
      ensures received == if CanExecute() then old(received) + [payload] else old(received)
    {
      if !CanExecute() {
        return;
      }
      received := received + [payload];
    }

    /**
     * Execute(object): a payload of another type invokes nothing and completes
     * normally; a null payload for a value type escapes as NullReferenceException,
     * which the InvalidCastException handler does not catch.
     */
    method ExecuteObject(payload: Payload<D>) returns (r: Result<(), NullReference>)
      modifies this
      ensures r.Failure? <==> payload.NullForValueType?
      ensures !payload.Castable? ==> received == old(received)
      ensures payload.Castable? ==>
        received == if CanExecute() then old(received) + [payload.value] else old(received)
    {
      match payload
      case NullForValueType =>
        return Failure(NullReference);
      case NotCastable =>
        return Success(());
      case Castable(value) =>
        Execute(value);
        return Success(());
    }
  }
}
