/**
 * Binder: the static tables of the dependency binder, as one object whose methods
 * update them in place. Every method is proved to compute the corresponding function
 * of BinderSpec, where the binder's properties are stated and proved.
 */
module Binding {
  import opened Wrappers
  import opened BinderSpec

  class Binder {
    var dependencies: map<TypeName, seq<Target>>
    var injectors: map<TypeName, seq<Listener>>
    var updaters: map<TypeName, seq<Listener>>
    /** The values of the bound objects' fields, as written through FieldInfo.SetValue. */
    var slots: map<FieldSlot, Option<Target>>
    /** The callbacks invoked through MethodInfo.Invoke, in order. */
    var invoked: seq<Invocation>
    /** Reflection: the metadata of each class. */
    const reflect: TypeName -> ClassInfo

    function State(): BinderState
      reads this
    {
      BinderState(dependencies, injectors, updaters, Effects(slots, invoked))
    }

    ghost predicate Valid()
      reads this
    {
      Wellformed(State())
    }

    constructor (reflect: TypeName -> ClassInfo)
      ensures this.reflect == reflect && State() == Empty && Valid()
    {
      this.reflect := reflect;
      dependencies, injectors, updaters := map[], map[], map[];
      slots, invoked := map[], [];
    }

    // ---- listeners ----

    /** Listener.Call. */
    method CallListener(l: Listener, dep: Option<Target>)
      modifies this
      ensures State() == old(State()).(effects := Call(old(State()).effects, l, dep))
    {
      if l.callback.Some? && dep.Some? {
        invoked := invoked + [Invocation(l.target, l.callback.value, dep.value)];
      }
      slots := slots[l.Slot() := dep];
    }

    /** ListenerList.Call: ForEach over the list. */
    method CallListeners(ls: seq<Listener>, dep: Option<Target>)
      modifies this
      ensures State() == old(State()).(effects := CallAll(old(State()).effects, ls, dep))
    {
      for i := 0 to |ls|
        invariant dependencies == old(dependencies) && injectors == old(injectors) && updaters == old(updaters)
        invariant CallAll(State().effects, ls[i..], dep) == CallAll(old(State()).effects, ls, dep)
      {
        assert ls[i..][1..] == ls[i + 1..];
        CallListener(ls[i], dep);
      }
      assert ls[|ls|..] == [];
    }

    // ---- table helpers ----

    method AddDependency(t: TypeName, dependency: Target)
      modifies this
      ensures State() == old(State()).(dependencies := Append(old(dependencies), t, dependency))
    {
      var list := if t in dependencies then dependencies[t] else [];
      dependencies := dependencies[t := list + [dependency]];
    }

    method RemoveDependency(t: TypeName, dependency: Target) returns (changed: bool)
      modifies this
      ensures (State().dependencies, changed) == BinderSpec.RemoveDependency(old(dependencies), t, dependency)
      ensures State() == old(State()).(dependencies := dependencies)
    {
      if t !in dependencies {
        return false;
      }
      var list := dependencies[t];
      changed := dependency in list;
      list := Sequences.RemoveFirst(list, dependency);
      if |list| == 0 {
        dependencies := dependencies - {t};
      } else {
        dependencies := dependencies[t := list];
      }
    }

    method AddUpdater(t: TypeName, updater: Listener)
      modifies this
      ensures State() == old(State()).(updaters := Append(old(updaters), t, updater))
    {
      var list := if t in updaters then updaters[t] else [];
      updaters := updaters[t := list + [updater]];
    }

    method RemoveUpdater(t: TypeName, target: Target)
      modifies this
      ensures State() == old(State()).(updaters := RemoveListeners(old(updaters), t, target))
    {
      if t in updaters {
        var list := Sequences.RemoveWhere(updaters[t], OwnedBy(target));
        if |list| == 0 {
          updaters := updaters - {t};
        } else {
          updaters := updaters[t := list];
        }
      }
    }

    method AddInjector(t: TypeName, injector: Listener)
      modifies this
      ensures State() == old(State()).(injectors := Append(old(injectors), t, injector))
    {
      var list := if t in injectors then injectors[t] else [];
      injectors := injectors[t := list + [injector]];
    }

    /** RemoveInjector: a table helper the binder itself never calls. */
    method RemoveInjector(t: TypeName, target: Target)
      modifies this
      ensures State() == old(State()).(injectors := RemoveListeners(old(injectors), t, target))
    {
      if t in injectors {
        var list := Sequences.RemoveWhere(injectors[t], OwnedBy(target));
        if |list| == 0 {
          injectors := injectors - {t};
        } else {
          injectors := injectors[t := list];
        }
      }
    }

    // ---- operations ----

    method RefreshListener(t: TypeName, l: Listener) returns (injected: bool)
      modifies this
      ensures (State(), injected) == BinderSpec.RefreshListener(old(State()), t, l)
    {
      if t in dependencies && |dependencies[t]| > 0 {
        CallListener(l, Some(dependencies[t][|dependencies[t]| - 1]));
        return true;
      }
      return false;
    }

    method RefreshDependency(t: TypeName)
      modifies this
      ensures State() == BinderSpec.RefreshDependency(old(State()), t)
    {
      var dep: Option<Target> := None;
      if t in dependencies && |dependencies[t]| > 0 {
        dep := Some(dependencies[t][|dependencies[t]| - 1]);
      }
      assert dep == Newest(dependencies, t);
      ghost var before := State();
      if t in updaters {
        CallListeners(updaters[t], dep);
      }
      assert State() == before.(effects := if t in before.updaters then CallAll(before.effects, before.updaters[t], dep) else before.effects);
      if t in injectors {
        CallListeners(injectors[t], dep);
        injectors := injectors - {t};
      }
    }

    /** Install(target, type) and Install<T>(target). */
    method Install(target: Target, t: TypeName)
      requires Valid()
      modifies this
      ensures Valid()
      ensures State() == BinderSpec.Install(old(State()), target, t)
    {
      InstallKeepsWellformed(State(), target, t);
      AddDependency(t, target);
      RefreshDependency(t);
    }

    /** Uninstall(target, type) and Uninstall<T>(target). */
    method Uninstall(target: Target, t: TypeName)
      requires Valid()
      modifies this
      ensures Valid()
      ensures State() == BinderSpec.Uninstall(old(State()), target, t)
    {
      UninstallKeepsWellformed(State(), target, t);
      var changed := RemoveDependency(t, target);
      if changed {
        RefreshDependency(t);
      }
    }

    method Inject(target: Target, d: InjectData)
      requires Valid()
      modifies this
      ensures Valid()
      ensures State() == BinderSpec.Inject(old(State()), target, d)
    {
      InjectKeepsWellformed(State(), target, d);
      var listener := ListenerFor(target, d);
      var injected := RefreshListener(d.depType, listener);
      if d.updater {
        AddUpdater(d.depType, listener);
      } else if !injected {
        AddInjector(d.depType, listener);
      }
    }

    method Uninject(target: Target, d: InjectData)
      requires Valid()
      modifies this
      ensures Valid()
      ensures State() == BinderSpec.Uninject(old(State()), target, d)
    {
      UninjectKeepsWellformed(State(), target, d);
      RemoveUpdater(d.depType, target);
      slots := slots[(target, d.field) := None];
    }

    method Bind(target: Target)
      requires Valid()
      modifies this
      ensures Valid()
      ensures State() == BinderSpec.Bind(old(State()), reflect, target)
    {
      var info := reflect(target.cls);
      var injects := CreateInjectDatas(info);
      var installs := CreateInstallTypes(target.cls, info, injects);
      for i := 0 to |installs|
        invariant Valid()
        invariant InstallAll(State(), target, installs[i..]) == InstallAll(old(State()), target, installs)
      {
        assert installs[i..][1..] == installs[i + 1..];
        Install(target, installs[i]);
      }
      assert installs[|installs|..] == [];
      if injects.Some? {
        var ds := injects.value;
        ghost var installed := State();
        for i := 0 to |ds|
          invariant Valid()
          invariant InjectAll(State(), target, ds[i..]) == InjectAll(installed, target, ds)
        {
          assert ds[i..][1..] == ds[i + 1..];
          Inject(target, ds[i]);
        }
        assert ds[|ds|..] == [];
      }
    }

    method Unbind(target: Target)
      requires Valid()
      modifies this
      ensures Valid()
      ensures State() == BinderSpec.Unbind(old(State()), reflect, target)
    {
      var info := reflect(target.cls);
      var injects := CreateInjectDatas(info);
      var installs := CreateInstallTypes(target.cls, info, injects);
      for i := 0 to |installs|
        invariant Valid()
        invariant UninstallAll(State(), target, installs[i..]) == UninstallAll(old(State()), target, installs)
      {
        assert installs[i..][1..] == installs[i + 1..];
        Uninstall(target, installs[i]);
      }
      assert installs[|installs|..] == [];
      if injects.Some? {
        var ds := injects.value;
        ghost var uninstalled := State();
        for i := 0 to |ds|
          invariant Valid()
          invariant UninjectAll(State(), target, ds[i..]) == UninjectAll(uninstalled, target, ds)
        {
          assert ds[i..][1..] == ds[i + 1..];
          Uninject(target, ds[i]);
        }
        assert ds[|ds|..] == [];
      }
    }

    /** Clear (on script reload and on leaving play mode): forgets every table, not the fields already written. */
    method Clear()
      modifies this
      ensures Valid()
      ensures State() == old(State()).(dependencies := map[], injectors := map[], updaters := map[])
    {
      dependencies, injectors, updaters := map[], map[], map[];
    }
  }
}
