/**
 * Toggleables: an enabled flag whose Enable/Disable run the OnEnable/OnDisable hook
 * only on a real change, and a nested toggleable whose hooks cascade to its children.
 */
module Toggleables {
  import opened Sequences

  /** A toggleable's flag and how many times each hook has run. */
  datatype ToggleState = ToggleState(enabled: bool, enableRuns: nat, disableRuns: nat)

  const Fresh := ToggleState(false, 0, 0)

  function AfterEnable(s: ToggleState): ToggleState {
    if s.enabled then s else s.(enabled := true, enableRuns := s.enableRuns + 1)
  }

  function AfterDisable(s: ToggleState): ToggleState {
    if !s.enabled then s else s.(enabled := false, disableRuns := s.disableRuns + 1)
  }

  /** The hooks alternate, starting with OnEnable: one more OnEnable than OnDisable exactly when enabled. */
  predicate Alternating(s: ToggleState) {
    s.enableRuns == s.disableRuns + (if s.enabled then 1 else 0)
  }

  datatype Toggle = EnableCall | DisableCall

  function Apply(s: ToggleState, t: Toggle): ToggleState {
    match t
    case EnableCall => AfterEnable(s)
    case DisableCall => AfterDisable(s)
  }

  function ApplyAll(s: ToggleState, ts: seq<Toggle>): ToggleState
    decreases |ts|
  {
    if |ts| == 0 then s else ApplyAll(Apply(s, ts[0]), ts[1..])
  }

  /** Enable and Disable are idempotent: a second call in a row changes nothing and runs no hook. */
  lemma Idempotent(s: ToggleState)
    ensures AfterEnable(AfterEnable(s)) == AfterEnable(s)
    ensures AfterDisable(AfterDisable(s)) == AfterDisable(s)
    ensures AfterEnable(s).enabled && !AfterDisable(s).enabled
  {
  }

  /** From a fresh object, whatever calls are made, the hooks alternate. */
  lemma {:induction false} HooksAlternate(s: ToggleState, ts: seq<Toggle>)
    requires Alternating(s)
    ensures Alternating(ApplyAll(s, ts))
    ensures ApplyAll(s, ts).enableRuns >= ApplyAll(s, ts).disableRuns
    decreases |ts|
  {
    if |ts| > 0 {
      HooksAlternate(Apply(s, ts[0]), ts[1..]);
    }
  }

  /** BaseToggleable (its hooks do nothing but are counted). */
  class BaseToggleable {
    var enabled: bool
    var enableRuns: nat
    var disableRuns: nat

    function State(): ToggleState
      reads this
    {
      ToggleState(enabled, enableRuns, disableRuns)
    }

    /** A fresh object is disabled. */
    constructor ()
      ensures State() == Fresh && !enabled
    {
      enabled, enableRuns, disableRuns := false, 0, 0;
    }

    method Enable()
      modifies this
      ensures State() == AfterEnable(old(State()))
      ensures enabled
      ensures enableRuns == old(enableRuns) + (if old(enabled) then 0 else 1) && disableRuns == old(disableRuns)
    {
      if enabled {
        return;
      }
      enabled := true;
      enableRuns := enableRuns + 1;
    }

    method Disable()
      modifies this
      ensures State() == AfterDisable(old(State()))
      ensures !enabled
      ensures disableRuns == old(disableRuns) + (if old(enabled) then 1 else 0) && enableRuns == old(enableRuns)
    {
      if !enabled {
        return;
      }
      enabled := false;
      disableRuns := disableRuns + 1;
    }
  }

  predicate Distinct<T(==)>(s: seq<T>) {
    forall i, j :: 0 <= i < j < |s| ==> s[i] != s[j]
  }

  lemma {:induction false} RemoveFirstKeepsDistinct<T>(s: seq<T>, x: T)
    requires Distinct(s)
    ensures Distinct(RemoveFirst(s, x))
    ensures x !in RemoveFirst(s, x)
  {
    if x in s {
      var i := IndexOf(s, x);
      var r := RemoveFirst(s, x);
      assert r == s[..i] + s[i + 1..];
      forall a, b | 0 <= a < b < |r| ensures r[a] != r[b] {
        var a' := if a < i then a else a + 1;
        var b' := if b < i then b else b + 1;
        assert r[a] == s[a'] && r[b] == s[b'];
      }
    }
  }

  /**
   * NestedToggleable: its OnEnable/OnDisable enable/disable every child. The children
   * are plain toggleables, so the cascade is one level deep.
   */
  class NestedToggleable {
    var enabled: bool
    var children: seq<BaseToggleable>

    /** Add refuses duplicates, so the children are distinct. */
    ghost predicate Valid()
      reads this
    {
      Distinct(children)
    }

    constructor ()
      ensures Valid() && !enabled && children == []
    {
      enabled, children := false, [];
    }

    /** The ForEach over the children calling Enable on each. */
    method EnableChildren()
      requires Valid()
      modifies children
      ensures forall i :: 0 <= i < |children| ==> children[i].State() == AfterEnable(old(children[i].State()))
    {
      for k := 0 to |children|
        invariant forall i :: 0 <= i < k ==> children[i].State() == AfterEnable(old(children[i].State()))
        invariant forall i :: k <= i < |children| ==> children[i].State() == old(children[i].State())
      {
        children[k].Enable();
      }
    }

    /** The ForEach over the children calling Disable on each. */
    method DisableChildren()
      requires Valid()
      modifies children
      ensures forall i :: 0 <= i < |children| ==> children[i].State() == AfterDisable(old(children[i].State()))
    {
      for k := 0 to |children|
        invariant forall i :: 0 <= i < k ==> children[i].State() == AfterDisable(old(children[i].State()))
        invariant forall i :: k <= i < |children| ==> children[i].State() == old(children[i].State())
      {
        children[k].Disable();
      }
    }

    /** Enable: a disabled parent becomes enabled and enables every current child. */
    method Enable()
      requires Valid()
      modifies this, children
      ensures Valid() && enabled && children == old(children)
      ensures old(enabled) ==> forall i :: 0 <= i < |children| ==> children[i].State() == old(children[i].State())
      ensures !old(enabled) ==> forall i :: 0 <= i < |children| ==> children[i].State() == AfterEnable(old(children[i].State()))
    {
      if enabled {
        return;
      }
      enabled := true;
      EnableChildren();
    }

    /** Disable: an enabled parent becomes disabled and disables every current child. */
    method Disable()
      requires Valid()
      modifies this, children
      ensures Valid() && !enabled && children == old(children)
      ensures !old(enabled) ==> forall i :: 0 <= i < |children| ==> children[i].State() == old(children[i].State())
      ensures old(enabled) ==> forall i :: 0 <= i < |children| ==> children[i].State() == AfterDisable(old(children[i].State()))
    {
      if !enabled {
        return;
      }
      enabled := false;
      DisableChildren();
    }

    /** Add: a child already present changes nothing; a new one is appended and enabled iff the parent is. */
    method Add(child: BaseToggleable)
      requires Valid()
      modifies this, child
      ensures Valid() && enabled == old(enabled)
      ensures old(child in children) ==> children == old(children) && child.State() == old(child.State())
      ensures old(child !in children) ==>
        && children == old(children) + [child]
        && child.State() == if enabled then AfterEnable(old(child.State())) else old(child.State())
    {
      if child in children {
        return;
      }
      children := children + [child];
      if enabled {
        child.Enable();
      }
    }

    /** Remove: the child leaves the list, and an enabled parent disables it even when it was not there. */
    method Remove(child: BaseToggleable)
      requires Valid()
      modifies this, child
      ensures Valid() && enabled == old(enabled)
      ensures children == RemoveFirst(old(children), child) && child !in children
      ensures child.State() == if enabled then AfterDisable(old(child.State())) else old(child.State())
    {
      RemoveFirstKeepsDistinct(children, child);
      children := RemoveFirst(children, child);
      if enabled {
        child.Disable();
      }
    }

    /** Clear: an enabled parent disables every child first; the list is emptied either way. */
    method Clear()
      requires Valid()
      modifies this, children
      ensures Valid() && enabled == old(enabled) && children == []
      ensures old(enabled) ==> forall i :: 0 <= i < |old(children)| ==> old(children)[i].State() == AfterDisable(old(children[i].State()))
      ensures !old(enabled) ==> forall i :: 0 <= i < |old(children)| ==> old(children)[i].State() == old(children[i].State())
    {
      if enabled {
        DisableChildren();
      }
      children := [];
    }
  }
}
