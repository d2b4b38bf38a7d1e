/**
 * TextModel: an observable pair of a localisation key and its format arguments.
 *
 * The arguments are an object[] compared by reference, as UpdateValue does for arrays:
 * the shared empty array equals itself, and every non-empty argument list is a freshly
 * allocated array, different from any array before it.
 */
module TextModels {
  import opened Wrappers
  import opened Observable

  /** An argument array: the shared Array.Empty<object>() or an allocated one with its identity. */
  datatype ArgArray = SharedEmpty | Allocated(id: nat, values: seq<string>) {
    function Values(): seq<string> {
      if SharedEmpty? then [] else values
    }
  }

  /** One argument's text: its ToString(), or "" for null (a null ToString() result included). */
  function ArgText(v: Option<string>): string {
    if v.Some? then v.value else ""
  }

  /** GetNormalizedArgs on contents: null or empty gives empty; otherwise each argument's text. */
  function Normalize(src: Option<seq<Option<string>>>): (r: seq<string>)
    ensures src.None? ==> r == []
    ensures src.Some? ==> |r| == |src.value| && forall i :: 0 <= i < |r| ==> r[i] == ArgText(src.value[i])
  {
    if src.None? || |src.value| == 0 then []
    else seq(|src.value|, i requires 0 <= i < |src.value| => ArgText(src.value[i]))
  }

  /** Whether assigning the normalised arguments changes the stored array reference. */
  predicate ArgsChange(current: ArgArray, src: Option<seq<Option<string>>>) {
    !(current.SharedEmpty? && Normalize(src) == [])
  }

  /** WithArgs(null) and WithArgs() are the same call. */
  lemma NullArgsAreEmptyArgs(current: ArgArray)
    ensures Normalize(None) == Normalize(Some([])) == []
    ensures ArgsChange(current, None) == ArgsChange(current, Some([])) == current.Allocated?
  {
  }

  /**
   * Full(key, args): both assignments inside one batch, so the pair fires at most one
   * update, fires nothing when neither changed, and fires exactly once when one of them
   * changed and no batch or lock was already holding updates back.
   */
  lemma FullFiresAtMostOnce(s: ObsState, keyChanged: bool, argsChanged: bool)
    requires s.batchDepth >= 0 && (s.batchDepth == 0 ==> !s.batchDirty)
    ensures var r := CloseBatch(SignalIf(SignalIf(OpenBatch(s), keyChanged), argsChanged));
      && r.fires <= s.fires + 1
      && r.batchDepth == s.batchDepth && r.lockCount == s.lockCount
      && (!keyChanged && !argsChanged ==> r == s)
      && (s.batchDepth == 0 && s.lockCount == 0 ==> r.fires == if keyChanged || argsChanged then s.fires + 1 else s.fires)
  {
  }

  class TextModel {
    const obs: BaseObservable
    var key: Option<string>
    var args: ArgArray
    /** How many argument arrays this model has allocated; the next one gets this identity. */
    var arraysMade: nat

    ghost predicate Valid()
      reads this, obs, obs.openTokens
    {
      obs.Valid() && (args.Allocated? ==> args.id < arraysMade && args.values != [])
    }

    /** TextModel(key): Key is set through its setter, so a non-null key fires once. */
    constructor (key: Option<string>)
      ensures Valid() && fresh(obs) && obs.openTokens == {}
      ensures this.key == key && args == SharedEmpty
      ensures obs.State() == SignalIf(Initial, key.Some?)
    {
      obs := new BaseObservable();
      this.key := None;
      args := SharedEmpty;
      arraysMade := 0;
      new;
      SetKey(key);
    }

    /** TextModel(): the empty key. */
    constructor Default()
      ensures Valid() && fresh(obs) && obs.openTokens == {}
      ensures key == Some("") && args == SharedEmpty
      ensures obs.State() == Signal(Initial)
    {
      obs := new BaseObservable();
      key := None;
      args := SharedEmpty;
      arraysMade := 0;
      new;
      SetKey(Some(""));
    }

    function Args(): seq<string>
      reads this
    {
      args.Values()
    }

    /** The Key setter: an equal key fires nothing. */
    method SetKey(value: Option<string>)
      requires Valid()
      modifies this, obs
      ensures Valid() && obs.openTokens == old(obs.openTokens)
      ensures key == value && args == old(args) && arraysMade == old(arraysMade)
      ensures obs.State() == SignalIf(old(obs.State()), value != old(key))
    {
      key := obs.UpdateValue(key, value);
    }

    /** GetNormalizedArgs, with the allocation of the array it returns. */
    method GetNormalizedArgs(src: Option<seq<Option<string>>>) returns (a: ArgArray)
      modifies this
      ensures key == old(key) && args == old(args)
      ensures a.Values() == Normalize(src)
      ensures a.SharedEmpty? <==> Normalize(src) == []
      ensures a.Allocated? ==> a.id == old(arraysMade) && arraysMade == old(arraysMade) + 1 && a.values != []
      ensures a.SharedEmpty? ==> arraysMade == old(arraysMade)
    {
      if src.None? || |src.value| == 0 {
        return SharedEmpty;
      }
      a := Allocated(arraysMade, Normalize(src));
      arraysMade := arraysMade + 1;
    }

    /**
     * The Args setter: a non-empty list always fires (a new array is never the stored one);
     * an empty list fires only when a non-empty array was stored.
     */
    method SetArgs(value: Option<seq<Option<string>>>)
      requires Valid()
      modifies this, obs
      ensures Valid() && obs.openTokens == old(obs.openTokens)
      ensures key == old(key) && Args() == Normalize(value)
      ensures obs.State() == SignalIf(old(obs.State()), ArgsChange(old(args), value))
    {
      var normalized := GetNormalizedArgs(value);
      args := obs.UpdateValue(args, normalized);
    }

    method WithKey(value: Option<string>) returns (self: TextModel)
      requires Valid()
      modifies this, obs
      ensures self == this && Valid() && obs.openTokens == old(obs.openTokens)
      ensures key == value && args == old(args)
      ensures obs.State() == SignalIf(old(obs.State()), value != old(key))
    {
      SetKey(value);
      self := this;
    }

    /** WithArgs(args): a null array is taken as the empty one. */
    method WithArgs(value: Option<seq<Option<string>>>) returns (self: TextModel)
      requires Valid()
      modifies this, obs
      ensures self == this && Valid() && obs.openTokens == old(obs.openTokens)
      ensures key == old(key) && Args() == Normalize(value)
      ensures obs.State() == SignalIf(old(obs.State()), ArgsChange(old(args), value))
    {
      SetArgs(if value.None? then Some([]) else value);
      self := this;
    }

    /** Full(key, args): WithKey then WithArgs inside one batch. */
    method Full(k: Option<string>, a: Option<seq<Option<string>>>) returns (self: TextModel)
      requires Valid()
      modifies this, obs
      ensures self == this && Valid() && obs.openTokens == old(obs.openTokens)
      ensures key == k && Args() == Normalize(a)
      ensures obs.State() == CloseBatch(SignalIf(SignalIf(OpenBatch(old(obs.State())), k != old(key)), ArgsChange(old(args), a)))
      ensures obs.fires <= old(obs.fires) + 1
      ensures k == old(key) && !ArgsChange(old(args), a) ==> obs.State() == old(obs.State())
    {
      FullFiresAtMostOnce(obs.State(), k != key, ArgsChange(args, a));
      var token := obs.Batch();
      var _ := WithKey(k);
      var _ := WithArgs(a);
      token.Dispose();
      self := this;
    }
  }
}
