/**
 * The change-notification core: BaseObservable and its batch token.
 *
 * The `Update` event is modelled by the counter `fires`, the number of times the
 * event has been invoked (an invocation with no subscriber is still counted).
 * The pure functions below give the abstract effect of every operation; the class
 * methods are proved to have exactly that effect, and the lemmas state when a fire
 * happens.
 */
module Observable {

  /** Abstract state of a BaseObservable. */
  datatype ObsState = ObsState(
    lockCount: int,
    updateAfterUnlock: bool,
    batchDepth: int,
    batchDirty: bool,
    fires: nat)

  /** The state of a freshly constructed observable. */
  const Initial := ObsState(0, false, 0, false, 0)

  /** Counters never go below zero. */
  predicate Wellformed(s: ObsState) {
    s.lockCount >= 0 && s.batchDepth >= 0
  }

  /** SignalUpdate: an open batch absorbs the signal, a held lock defers it, otherwise Update fires. */
  function Signal(s: ObsState): ObsState {
    if s.batchDepth > 0 then s.(batchDirty := true)
    else if s.lockCount == 0 then s.(fires := s.fires + 1)
    else s.(updateAfterUnlock := true)
  }

  function AfterLock(s: ObsState): ObsState {
    s.(lockCount := s.lockCount + 1)
  }

  /** Unlock clamps the counter at zero and re-signals when it is zero and an update was deferred. */
  function AfterUnlock(s: ObsState): ObsState {
    var t := s.(lockCount := if s.lockCount - 1 < 0 then 0 else s.lockCount - 1);
    if t.lockCount == 0 && t.updateAfterUnlock then Signal(t) else t
  }

  function OpenBatch(s: ObsState): ObsState {
    s.(batchDepth := s.batchDepth + 1)
  }

  /** The action a batch token runs when it is disposed. */
  function CloseBatch(s: ObsState): ObsState {
    var t := s.(batchDepth := s.batchDepth - 1);
    if t.batchDepth == 0 && t.batchDirty then Signal(t.(batchDirty := false)) else t
  }

  /** The state after a mutator that signals only when c holds. */
  function SignalIf(s: ObsState, c: bool): ObsState {
    if c then Signal(s) else s
  }

  /** UpdateValue on the observable part: equal values change nothing, others signal once. */
  function UpdateValueState<T(==)>(s: ObsState, current: T, newValue: T): ObsState {
    if current == newValue then s else Signal(s)
  }

  /** Calls a client can make, for reasoning about sequences of them. */
  datatype Op = SignalOp | LockOp | UnlockOp | OpenBatchOp | CloseBatchOp

  function Step(s: ObsState, op: Op): ObsState {
    match op
    case SignalOp => Signal(s)
    case LockOp => AfterLock(s)
    case UnlockOp => AfterUnlock(s)
    case OpenBatchOp => OpenBatch(s)
    case CloseBatchOp => CloseBatch(s)
  }

  function Run(s: ObsState, ops: seq<Op>): ObsState
    decreases |ops|
  {
    if ops == [] then s else Run(Step(s, ops[0]), ops[1..])
  }

  /** k consecutive SignalUpdate calls. */
  function Signals(k: nat): (ops: seq<Op>)
    ensures |ops| == k && forall i :: 0 <= i < k ==> ops[i] == SignalOp
  {
    if k == 0 then [] else [SignalOp] + Signals(k - 1)
  }

  lemma {:induction false} RunAppend(s: ObsState, a: seq<Op>, b: seq<Op>)
    ensures Run(s, a + b) == Run(Run(s, a), b)
    decreases |a|
  {
    if a == [] {
      assert a + b == b;
    } else {
      assert (a + b)[1..] == a[1..] + b;
      RunAppend(Step(s, a[0]), a[1..], b);
    }
  }

  /** With no lock held and no batch open, one signal fires exactly once; otherwise it fires nothing. */
  lemma SignalFiresIffFree(s: ObsState)
    requires Wellformed(s)
    ensures Signal(s).fires == if s.batchDepth == 0 && s.lockCount == 0 then s.fires + 1 else s.fires
    ensures s.batchDepth > 0 ==> Signal(s) == s.(batchDirty := true)
    ensures s.batchDepth == 0 && s.lockCount > 0 ==> Signal(s) == s.(updateAfterUnlock := true)
  {
  }

  /** Every operation keeps the lock counter non-negative. */
  lemma {:induction false} RunKeepsLockCountNonNegative(s: ObsState, ops: seq<Op>)
    requires s.lockCount >= 0
    ensures Run(s, ops).lockCount >= 0
    decreases |ops|
  {
    if ops != [] {
      RunKeepsLockCountNonNegative(Step(s, ops[0]), ops[1..]);
    }
  }

  /** Surplus Unlock calls leave the counter at zero. */
  lemma {:induction false} SurplusUnlocksStayAtZero(s: ObsState, k: nat)
    requires s.lockCount == 0
    ensures Run(s, seq(k, _ => UnlockOp)).lockCount == 0
    decreases k
  {
    if k > 0 {
      var ops := seq(k, _ => UnlockOp);
      assert ops[1..] == seq(k - 1, _ => UnlockOp);
      SurplusUnlocksStayAtZero(AfterUnlock(s), k - 1);
    }
  }

  /** No operation ever resets the deferred-update flag. */
  lemma {:induction false} DeferredFlagNeverCleared(s: ObsState, ops: seq<Op>)
    requires s.updateAfterUnlock
    ensures Run(s, ops).updateAfterUnlock
    decreases |ops|
  {
    if ops != [] {
      DeferredFlagNeverCleared(Step(s, ops[0]), ops[1..]);
    }
  }

  /**
   * Because the flag is never reset, once an update has been deferred every later
   * Unlock that brings the counter to zero fires again, even after a Lock/Unlock
   * pair with no change in between.
   */
  lemma EveryLaterUnlockFiresAgain(s: ObsState)
    requires s.updateAfterUnlock && s.lockCount == 0 && s.batchDepth == 0
    ensures Run(s, [LockOp, UnlockOp]).fires == s.fires + 1
    ensures Run(s, [LockOp, UnlockOp]).updateAfterUnlock
  {
    assert [LockOp, UnlockOp][1..] == [UnlockOp];
  }

  /**
   * Once an update has been deferred, any Unlock that leaves the counter at zero
   * fires, whether it released the last lock or was a surplus call.
   */
  lemma UnlockToZeroFires(s: ObsState)
    requires s.updateAfterUnlock && s.batchDepth == 0 && 0 <= s.lockCount <= 1
    ensures AfterUnlock(s).fires == s.fires + 1
    ensures AfterUnlock(s).updateAfterUnlock && AfterUnlock(s).lockCount == 0
  {
  }

  /** With the flag set and no lock held, each of k surplus Unlock calls fires once. */
  lemma {:induction false} SurplusUnlocksFire(s: ObsState, k: nat)
    requires s.updateAfterUnlock && s.batchDepth == 0 && s.lockCount == 0
    ensures Run(s, seq(k, _ => UnlockOp)).fires == s.fires + k
    decreases k
  {
    if k > 0 {
      var ops := seq(k, _ => UnlockOp);
      assert ops[1..] == seq(k - 1, _ => UnlockOp);
      UnlockToZeroFires(s);
      SurplusUnlocksFire(AfterUnlock(s), k - 1);
    }
  }

  /** While a batch is open, signals, locks and unlocks fire nothing; a signal only marks the batch dirty. */
  lemma {:induction false} OpenBatchFiresNothing(s: ObsState, ops: seq<Op>)
    requires s.batchDepth > 0
    requires forall i :: 0 <= i < |ops| ==> ops[i] in {SignalOp, LockOp, UnlockOp, OpenBatchOp}
    ensures Run(s, ops).fires == s.fires
    ensures Run(s, ops).batchDepth >= s.batchDepth
    ensures SignalOp in ops ==> Run(s, ops).batchDirty
    ensures s.batchDirty ==> Run(s, ops).batchDirty
    decreases |ops|
  {
    if ops != [] {
      var t := Step(s, ops[0]);
      assert t.fires == s.fires && t.batchDepth >= s.batchDepth;
      assert ops[0] == SignalOp ==> t.batchDirty;
      assert s.batchDirty ==> t.batchDirty;
      assert forall i :: 0 <= i < |ops[1..]| ==> ops[1..][i] == ops[i + 1];
      OpenBatchFiresNothing(t, ops[1..]);
      assert SignalOp in ops ==> ops[0] == SignalOp || SignalOp in ops[1..];
    }
  }

  /** While a lock is held and no batch is open, signals and further locks fire nothing and defer the update. */
  lemma {:induction false} LockedFiresNothing(s: ObsState, ops: seq<Op>)
    requires s.lockCount > 0 && s.batchDepth == 0
    requires forall i :: 0 <= i < |ops| ==> ops[i] in {SignalOp, LockOp}
    ensures Run(s, ops).fires == s.fires
    ensures Run(s, ops).lockCount >= s.lockCount
    ensures Run(s, ops).batchDepth == 0
    ensures Run(s, ops).updateAfterUnlock == (s.updateAfterUnlock || SignalOp in ops)
    decreases |ops|
  {
    if ops != [] {
      assert forall i :: 0 <= i < |ops[1..]| ==> ops[1..][i] == ops[i + 1];
      LockedFiresNothing(Step(s, ops[0]), ops[1..]);
      assert SignalOp in ops <==> ops[0] == SignalOp || SignalOp in ops[1..];
    }
  }

  /**
   * Lock; k signals; Unlock, starting free and with nothing deferred, fires exactly
   * once if something was signalled and not at all otherwise.
   */
  lemma LockedSectionFiresAtMostOnce(s: ObsState, k: nat)
    requires s.lockCount == 0 && s.batchDepth == 0 && !s.updateAfterUnlock
    ensures Run(s, [LockOp] + Signals(k) + [UnlockOp]).fires == if k > 0 then s.fires + 1 else s.fires
    ensures Run(s, [LockOp] + Signals(k) + [UnlockOp]).lockCount == 0
  {
    var locked := AfterLock(s);
    RunAppend(s, [LockOp], Signals(k));
    RunAppend(s, [LockOp] + Signals(k), [UnlockOp]);
    LockedFiresNothing(locked, Signals(k));
    SignalsKeepCounters(locked, k);
    var mid := Run(locked, Signals(k));
    assert k > 0 ==> Signals(k)[0] == SignalOp;
    assert mid.updateAfterUnlock == (k > 0);
  }

  /**
   * Open batch; k signals; close batch, with nothing locked or pending, fires exactly
   * once if something was signalled, and leaves the dirty flag cleared.
   */
  lemma BatchFiresAtMostOnce(s: ObsState, k: nat)
    requires s.lockCount == 0 && s.batchDepth == 0 && !s.batchDirty
    ensures Run(s, [OpenBatchOp] + Signals(k) + [CloseBatchOp]).fires == if k > 0 then s.fires + 1 else s.fires
    ensures !Run(s, [OpenBatchOp] + Signals(k) + [CloseBatchOp]).batchDirty
    ensures Run(s, [OpenBatchOp] + Signals(k) + [CloseBatchOp]).batchDepth == 0
  {
    var inBatch := OpenBatch(s);
    RunAppend(s, [OpenBatchOp], Signals(k));
    RunAppend(s, [OpenBatchOp] + Signals(k), [CloseBatchOp]);
    OpenBatchFiresNothing(inBatch, Signals(k));
    var mid := Run(inBatch, Signals(k));
    assert mid.batchDepth == 1 && mid.lockCount == 0 by {
      SignalsKeepCounters(inBatch, k);
    }
    assert k > 0 ==> Signals(k)[0] == SignalOp;
    assert mid.batchDirty == (k > 0) by {
      SignalsKeepCounters(inBatch, k);
    }
  }

  /** Signals alone never touch the counters, and leave the dirty flag as it was unless one was sent in a batch. */
  lemma {:induction false} SignalsKeepCounters(s: ObsState, k: nat)
    ensures Run(s, Signals(k)).lockCount == s.lockCount
    ensures Run(s, Signals(k)).batchDepth == s.batchDepth
    ensures Run(s, Signals(k)).batchDirty == (s.batchDirty || (k > 0 && s.batchDepth > 0))
    decreases k
  {
    if k > 0 {
      assert Signals(k)[1..] == Signals(k - 1);
      SignalsKeepCounters(Signal(s), k - 1);
    }
  }

  /** Batch closes only fire when they close the outermost batch. */
  lemma InnerCloseFiresNothing(s: ObsState)
    requires s.batchDepth > 1
    ensures CloseBatch(s).fires == s.fires && CloseBatch(s).batchDepth == s.batchDepth - 1
  {
  }

  /**
   * The mutable observable. Subclasses in the source inherit from it; in this model
   * they own one instance of it.
   */
  class BaseObservable {
    var lockCount: int
    var updateAfterUnlock: bool
    var batchDepth: int
    var batchDirty: bool
    /** Number of invocations of the Update event so far. */
    var fires: nat
    /** The batch tokens handed out and not yet disposed. */
    ghost var openTokens: set<BatchToken>

    ghost predicate Valid()
      reads this, openTokens
    {
      && lockCount >= 0
      && batchDepth == |openTokens|
      && (batchDepth == 0 ==> !batchDirty)
      && forall t :: t in openTokens ==> t.owner == this && t.open
    }

    function State(): (s: ObsState)
      reads this
      ensures s.fires == fires && s.lockCount == lockCount && s.batchDepth == batchDepth
    {
      ObsState(lockCount, updateAfterUnlock, batchDepth, batchDirty, fires)
    }

    constructor ()
      ensures Valid() && State() == Initial && openTokens == {}
    {
      lockCount, updateAfterUnlock, batchDepth, batchDirty, fires := 0, false, 0, false, 0;
      openTokens := {};
    }

    method SignalUpdate()
      requires Valid()
      modifies this
      ensures Valid() && openTokens == old(openTokens)
      ensures State() == Signal(old(State()))
      ensures fires == if old(batchDepth) == 0 && old(lockCount) == 0 then old(fires) + 1 else old(fires)
    {
      if batchDepth > 0 {
        batchDirty := true;
        return;
      }
      if lockCount == 0 {
        fires := fires + 1;
      } else {
        updateAfterUnlock := true;
      }
    }

    /** Batch(): opens a batch and hands out the token that closes it. */
    method Batch() returns (token: BatchToken)
      requires Valid()
      modifies this
      ensures Valid() && fresh(token)
      ensures token.owner == this && token.open
      ensures openTokens == old(openTokens) + {token}
      ensures State() == OpenBatch(old(State()))
    {
      batchDepth := batchDepth + 1;
      token := new BatchToken(this);
      openTokens := openTokens + {token};
    }

    /** The end action of a batch token, run once per token. */
    method EndBatch(token: BatchToken)
      requires Valid() && token in openTokens
      modifies this
      ensures lockCount == old(lockCount) && batchDepth == old(batchDepth) - 1
      ensures openTokens == old(openTokens) - {token}
      ensures State() == CloseBatch(old(State()))
      ensures fires == if batchDepth == 0 && old(batchDirty) && lockCount == 0 then old(fires) + 1 else old(fires)
      ensures Valid()
    {
      openTokens := openTokens - {token};
      batchDepth := batchDepth - 1;
      if batchDepth == 0 && batchDirty {
        batchDirty := false;
        SignalUpdate();
      }
    }

    method Lock()
      requires Valid()
      modifies this
      ensures Valid() && openTokens == old(openTokens)
      ensures State() == AfterLock(old(State()))
    {
      lockCount := lockCount + 1;
    }

    method Unlock()
      requires Valid()
      modifies this
      ensures Valid() && openTokens == old(openTokens)
      ensures State() == AfterUnlock(old(State()))
      ensures lockCount == if old(lockCount) == 0 then 0 else old(lockCount) - 1
    {
      lockCount := if lockCount - 1 < 0 then 0 else lockCount - 1;
      if lockCount == 0 && updateAfterUnlock {
        SignalUpdate();
      }
    }

    /**
     * UpdateValue(ref value, newValue): the caller stores the returned value in the
     * field passed by reference.
     */
    method UpdateValue<T(==)>(current: T, newValue: T) returns (stored: T)
      requires Valid()
      modifies this
      ensures Valid() && openTokens == old(openTokens)
      ensures stored == newValue
      ensures State() == UpdateValueState(old(State()), current, newValue)
      ensures current == newValue ==> State() == old(State())
    {
      stored := current;
      if current == newValue {
        return;
      }
      stored := newValue;
      SignalUpdate();
    }
  }

  /** The IDisposable returned by Batch(); its end action runs on the first Dispose only. */
  class BatchToken {
    const owner: BaseObservable
    /** False once the end action has been dropped (the source nulls it). */
    var open: bool

    constructor (owner: BaseObservable)
      ensures this.owner == owner && open
    {
      this.owner := owner;
      open := true;
    }

    method Dispose()
      requires owner.Valid() && (open <==> this in owner.openTokens)
      modifies this, owner
      ensures owner.Valid() && !open && this !in owner.openTokens
      ensures old(open) ==> owner.State() == CloseBatch(old(owner.State()))
      ensures old(open) ==> owner.openTokens == old(owner.openTokens) - {this}
      ensures !old(open) ==> owner.State() == old(owner.State()) && owner.openTokens == old(owner.openTokens)
    {
      if open {
        owner.EndBatch(this);
      }
      open := false;
    }
  }
}
