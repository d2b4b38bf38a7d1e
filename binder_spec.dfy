/**
 * The dependency binder's meaning, on values.
 *
 * The binder keeps three tables from a type to a list: the installed dependencies
 * (the newest one wins), the one-shot injectors (listeners waiting for a first
 * dependency) and the updaters (listeners told of every change). A listener is a
 * field of a target object with an optional callback; delivering a dependency to it
 * writes the field and, when both the callback and the dependency exist, invokes
 * the callback.
 *
 * Reflection is replaced by given class metadata: the Install attributes of a class,
 * its fields with their Inject/Update attribute, and the names of its methods.
 * Field writes are a map from (target, field) to an optional dependency, and the
 * callback invocations are a log.
 */
module BinderSpec {
  import opened Wrappers
  import opened Sequences

  type TypeName = string
  type FieldName = string
  type MethodName = string

  /** An object handed to the binder; cls is what GetType() returns for it. */
  datatype Target = Target(id: nat, cls: TypeName)

  /** A field of a target object. */
  type FieldSlot = (Target, FieldName)

  datatype Listener = Listener(target: Target, field: FieldName, callback: Option<MethodName>) {
    function Slot(): FieldSlot {
      (target, field)
    }
  }

  /** One Callback.Invoke(target, dependency). */
  datatype Invocation = Invocation(target: Target, callback: MethodName, dependency: Target)

  /** What listeners change outside the binder: field values and callback invocations. */
  datatype Effects = Effects(slots: map<FieldSlot, Option<Target>>, invoked: seq<Invocation>)

  datatype BinderState = BinderState(
    dependencies: map<TypeName, seq<Target>>,
    injectors: map<TypeName, seq<Listener>>,
    updaters: map<TypeName, seq<Listener>>,
    effects: Effects)

  const Empty := BinderState(map[], map[], map[], Effects(map[], []))

  // ---- listeners ----

  predicate HasCallback(l: Listener) {
    l.callback.Some?
  }

  /** Listener.Call: the field is always written; the callback runs first, and only for a non-null dependency. */
  function Call(e: Effects, l: Listener, dep: Option<Target>): (r: Effects)
    ensures l.Slot() in r.slots && r.slots[l.Slot()] == dep
    ensures forall k :: k != l.Slot() ==> (k in r.slots <==> k in e.slots) && (k in e.slots ==> r.slots[k] == e.slots[k])
    ensures HasCallback(l) && dep.Some? ==> r.invoked == e.invoked + [Invocation(l.target, l.callback.value, dep.value)]
    ensures !(HasCallback(l) && dep.Some?) ==> r.invoked == e.invoked
  {
    var invoked :=
      if l.callback.Some? && dep.Some? then e.invoked + [Invocation(l.target, l.callback.value, dep.value)]
      else e.invoked;
    Effects(e.slots[l.Slot() := dep], invoked)
  }

  /** ListenerList.Call: each listener in list order. */
  function CallAll(e: Effects, ls: seq<Listener>, dep: Option<Target>): Effects
    decreases |ls|
  {
    if |ls| == 0 then e else CallAll(Call(e, ls[0], dep), ls[1..], dep)
  }

  function SlotsOf(ls: seq<Listener>): set<FieldSlot> {
    set l | l in ls :: l.Slot()
  }

  /** Every listener of the list ends up holding the dependency, and no other field changes. */
  lemma {:induction false} CallAllDelivers(e: Effects, ls: seq<Listener>, dep: Option<Target>)
    ensures var r := CallAll(e, ls, dep);
      && (forall l :: l in ls ==> l.Slot() in r.slots && r.slots[l.Slot()] == dep)
      && (forall k :: k in e.slots ==> k in r.slots && (r.slots[k] == e.slots[k] || r.slots[k] == dep))
      && (forall k :: k !in SlotsOf(ls) ==> (k in r.slots <==> k in e.slots) && (k in e.slots ==> r.slots[k] == e.slots[k]))
    decreases |ls|
  {
    if |ls| > 0 {
      var e1 := Call(e, ls[0], dep);
      CallAllDelivers(e1, ls[1..], dep);
      assert forall l :: l in ls ==> l == ls[0] || l in ls[1..];
      assert SlotsOf(ls) == {ls[0].Slot()} + SlotsOf(ls[1..]);
    }
  }

  /**
   * A list call invokes one callback per listener that has one, all with the dependency,
   * after the earlier invocations; a null dependency invokes nothing.
   */
  lemma {:induction false} CallAllInvocations(e: Effects, ls: seq<Listener>, dep: Option<Target>)
    ensures var r := CallAll(e, ls, dep);
      && (dep.None? ==> r.invoked == e.invoked)
      && (dep.Some? ==> |r.invoked| == |e.invoked| + CountWhere(ls, HasCallback))
      && |e.invoked| <= |r.invoked| && r.invoked[..|e.invoked|] == e.invoked
      && (forall i :: |e.invoked| <= i < |r.invoked| ==> dep.Some? && r.invoked[i].dependency == dep.value)
    decreases |ls|
  {
    if |ls| > 0 {
      var e1 := Call(e, ls[0], dep);
      CallAllInvocations(e1, ls[1..], dep);
      var r := CallAll(e, ls, dep);
      assert r == CallAll(e1, ls[1..], dep);
      assert r.invoked[..|e1.invoked|] == e1.invoked;
      assert e1.invoked[..|e.invoked|] == e.invoked;
      assert r.invoked[..|e.invoked|] == r.invoked[..|e1.invoked|][..|e.invoked|];
    }
  }

  // ---- table helpers ----

  /** The newest dependency of t (TryGetLast), or null. */
  function Newest(deps: map<TypeName, seq<Target>>, t: TypeName): (r: Option<Target>)
    ensures r.Some? <==> t in deps && deps[t] != []
    ensures r.Some? ==> r.value == deps[t][|deps[t]| - 1]
  {
    if t in deps && |deps[t]| > 0 then Some(deps[t][|deps[t]| - 1]) else None
  }

  /** Ensure* followed by Add: the list of t gets v at its end, created if missing. */
  function Append<V>(m: map<TypeName, seq<V>>, t: TypeName, v: V): (r: map<TypeName, seq<V>>)
    ensures r.Keys == m.Keys + {t}
    ensures r[t] == (if t in m then m[t] else []) + [v]
    ensures forall u :: u in m && u != t ==> r[u] == m[u]
  {
    m[t := (if t in m then m[t] else []) + [v]]
  }

  function OwnedBy(target: Target): Listener -> bool {
    (l: Listener) => l.target == target
  }

  /** RemoveUpdater/RemoveInjector: drops every listener of the target; a list left empty loses its entry. */
  function RemoveListeners(m: map<TypeName, seq<Listener>>, t: TypeName, target: Target): (r: map<TypeName, seq<Listener>>)
    ensures r.Keys <= m.Keys
    ensures forall u :: u in m && u != t ==> u in r && r[u] == m[u]
    ensures t in r ==> t in m && r[t] == RemoveWhere(m[t], OwnedBy(target)) && r[t] != []
    ensures t in m && RemoveWhere(m[t], OwnedBy(target)) != [] ==> t in r
  {
    if t !in m then m
    else
      var rest := RemoveWhere(m[t], OwnedBy(target));
      if |rest| == 0 then m - {t} else m[t := rest]
  }

  /** RemoveDependency: removes the first occurrence; reports whether it was there; a list left empty loses its entry. */
  function RemoveDependency(m: map<TypeName, seq<Target>>, t: TypeName, target: Target): (r: (map<TypeName, seq<Target>>, bool))
    ensures r.1 <==> t in m && target in m[t]
    ensures r.0.Keys <= m.Keys
    ensures forall u :: u in m && u != t ==> u in r.0 && r.0[u] == m[u]
    ensures t in r.0 ==> r.0[t] == RemoveFirst(m[t], target) && r.0[t] != []
    ensures t in m && RemoveFirst(m[t], target) != [] ==> t in r.0
  {
    if t !in m then (m, false)
    else
      var rest := RemoveFirst(m[t], target);
      (if |rest| == 0 then m - {t} else m[t := rest], target in m[t])
  }

  // ---- operations ----

  /**
   * RefreshDependency: every updater of t receives the newest dependency (or null),
   * then every pending injector does, and the injector entry of t is dropped.
   */
  function RefreshDependency(s: BinderState, t: TypeName): BinderState {
    var dep := Newest(s.dependencies, t);
    var e1 := if t in s.updaters then CallAll(s.effects, s.updaters[t], dep) else s.effects;
    if t in s.injectors then s.(effects := CallAll(e1, s.injectors[t], dep), injectors := s.injectors - {t})
    else s.(effects := e1)
  }

  function Install(s: BinderState, target: Target, t: TypeName): BinderState {
    RefreshDependency(s.(dependencies := Append(s.dependencies, t, target)), t)
  }

  /** Uninstall: refreshes t only when the target was actually one of its dependencies. */
  function Uninstall(s: BinderState, target: Target, t: TypeName): BinderState {
    var (deps, changed) := RemoveDependency(s.dependencies, t, target);
    var s1 := s.(dependencies := deps);
    if changed then RefreshDependency(s1, t) else s1
  }

  /** RefreshListener: delivers the newest dependency of t, if there is one, and says whether it did. */
  function RefreshListener(s: BinderState, t: TypeName, l: Listener): (BinderState, bool) {
    var dep := Newest(s.dependencies, t);
    if dep.Some? then (s.(effects := Call(s.effects, l, dep)), true) else (s, false)
  }

  /** What reflection records about one [Inject] or [Update] field. */
  datatype InjectData = InjectData(depType: TypeName, field: FieldName, callback: Option<MethodName>, updater: bool)

  function ListenerFor(target: Target, d: InjectData): Listener {
    Listener(target, d.field, d.callback)
  }

  /** Inject: an updater is always registered; an injector is queued only when nothing was delivered. */
  function Inject(s: BinderState, target: Target, d: InjectData): BinderState {
    var l := ListenerFor(target, d);
    var (s1, injected) := RefreshListener(s, d.depType, l);
    if d.updater then s1.(updaters := Append(s1.updaters, d.depType, l))
    else if !injected then s1.(injectors := Append(s1.injectors, d.depType, l))
    else s1
  }

  /** Uninject: drops the target's updaters of that type and nulls the field; pending injectors stay. */
  function Uninject(s: BinderState, target: Target, d: InjectData): BinderState {
    var s1 := s.(updaters := RemoveListeners(s.updaters, d.depType, target));
    s1.(effects := s1.effects.(slots := s1.effects.slots[(target, d.field) := None]))
  }

  function InstallAll(s: BinderState, target: Target, ts: seq<TypeName>): BinderState
    decreases |ts|
  {
    if |ts| == 0 then s else InstallAll(Install(s, target, ts[0]), target, ts[1..])
  }

  function UninstallAll(s: BinderState, target: Target, ts: seq<TypeName>): BinderState
    decreases |ts|
  {
    if |ts| == 0 then s else UninstallAll(Uninstall(s, target, ts[0]), target, ts[1..])
  }

  function InjectAll(s: BinderState, target: Target, ds: seq<InjectData>): BinderState
    decreases |ds|
  {
    if |ds| == 0 then s else InjectAll(Inject(s, target, ds[0]), target, ds[1..])
  }

  function UninjectAll(s: BinderState, target: Target, ds: seq<InjectData>): BinderState
    decreases |ds|
  {
    if |ds| == 0 then s else UninjectAll(Uninject(s, target, ds[0]), target, ds[1..])
  }

  // ---- reflection, as given metadata ----

  /** An [Inject] attribute, or an [Update] one when isUpdate holds. */
  datatype InjectAttribute = InjectAttribute(typeOverride: Option<TypeName>, callbackOverride: Option<MethodName>, isUpdate: bool)

  datatype FieldDecl = FieldDecl(name: FieldName, fieldType: TypeName, attribute: Option<InjectAttribute>)

  /** A class: the Type argument of each [Install] attribute (null when omitted), its fields, its method names. */
  datatype ClassInfo = ClassInfo(installAttributes: seq<Option<TypeName>>, fields: seq<FieldDecl>, methods: set<MethodName>)

  function DefaultCallback(t: TypeName): MethodName {
    "On" + t + "Inject"
  }

  /** CreateInjectData for one field: null for a field without the attribute. */
  function CreateInjectData(info: ClassInfo, f: FieldDecl): (r: Option<InjectData>)
    ensures r.Some? <==> f.attribute.Some?
    ensures r.Some? ==> r.value.field == f.name && r.value.updater == f.attribute.value.isUpdate
    ensures r.Some? && f.attribute.value.typeOverride.None? ==> r.value.depType == f.fieldType
    ensures r.Some? && f.attribute.value.typeOverride.Some? ==> r.value.depType == f.attribute.value.typeOverride.value
    ensures r.Some? ==> var name := if f.attribute.value.callbackOverride.Some? then f.attribute.value.callbackOverride.value else DefaultCallback(r.value.depType);
      r.value.callback == if name in info.methods then Some(name) else None
  {
    match f.attribute
    case None => None
    case Some(a) =>
      var injectType := if a.typeOverride.Some? then a.typeOverride.value else f.fieldType;
      var callback := if a.callbackOverride.Some? then a.callbackOverride.value else DefaultCallback(injectType);
      Some(InjectData(injectType, f.name, if callback in info.methods then Some(callback) else None, a.isUpdate))
  }

  /** The field carries [Inject] or [Update]. */
  predicate Attributed(f: FieldDecl) {
    f.attribute.Some?
  }

  function CollectInjects(info: ClassInfo, fields: seq<FieldDecl>): seq<InjectData>
    decreases |fields|
  {
    if |fields| == 0 then []
    else
      var d := CreateInjectData(info, fields[0]);
      (if d.Some? then [d.value] else []) + CollectInjects(info, fields[1..])
  }

  /** CreateInjectData for a class: null when no field carries the attribute. */
  function CreateInjectDatas(info: ClassInfo): Option<seq<InjectData>> {
    var result := CollectInjects(info, info.fields);
    if |result| > 0 then Some(result) else None
  }

  /** The inject data of a class are those of its attributed fields, in field order. */
  lemma {:induction false} CollectInjectsExact(info: ClassInfo, fields: seq<FieldDecl>)
    ensures |CollectInjects(info, fields)| == CountWhere(fields, Attributed)
    ensures forall d :: d in CollectInjects(info, fields) <==> exists f :: f in fields && CreateInjectData(info, f) == Some(d)
    decreases |fields|
  {
    if |fields| > 0 {
      CollectInjectsExact(info, fields[1..]);
      forall d ensures d in CollectInjects(info, fields) <==> exists f :: f in fields && CreateInjectData(info, f) == Some(d) {
        if d in CollectInjects(info, fields) {
          if CreateInjectData(info, fields[0]) == Some(d) {
            assert fields[0] in fields;
          } else {
            var f :| f in fields[1..] && CreateInjectData(info, f) == Some(d);
            assert f in fields;
          }
        }
        if exists f :: f in fields && CreateInjectData(info, f) == Some(d) {
          var f :| f in fields && CreateInjectData(info, f) == Some(d);
          if f != fields[0] {
            assert f in fields[1..];
          }
        }
      }
    }
  }

  /** A class has inject data iff one of its fields carries [Inject] or [Update]. */
  lemma CreateInjectDatasNull(info: ClassInfo)
    ensures CreateInjectDatas(info).None? <==> forall f :: f in info.fields ==> f.attribute.None?
  {
    CollectInjectsExact(info, info.fields);
    if exists f :: f in info.fields && f.attribute.Some? {
      var f :| f in info.fields && f.attribute.Some?;
      assert CreateInjectData(info, f).value in CollectInjects(info, info.fields);
    } else {
      CountWhereNone(info.fields, Attributed);
    }
  }

  /** CreateInstallDatas: one install per [Install] attribute (defaulting to the class); none at all means the class itself, unless it has inject fields. */
  function CreateInstallTypes(cls: TypeName, info: ClassInfo, injects: Option<seq<InjectData>>): (r: seq<TypeName>)
    ensures |info.installAttributes| > 0 ==> |r| == |info.installAttributes|
    ensures |info.installAttributes| > 0 ==> forall i :: 0 <= i < |r| ==>
      r[i] == if info.installAttributes[i].Some? then info.installAttributes[i].value else cls
    ensures |info.installAttributes| == 0 ==> r == if injects.None? then [cls] else []
  {
    var attrs := info.installAttributes;
    var result := seq(|attrs|, i requires 0 <= i < |attrs| => if attrs[i].Some? then attrs[i].value else cls);
    if |result| > 0 then result
    else if injects.None? then [cls]
    else []
  }

  /** Bind: every install of the target's class first, then every inject. */
  function Bind(s: BinderState, reflect: TypeName -> ClassInfo, target: Target): BinderState {
    var info := reflect(target.cls);
    var injects := CreateInjectDatas(info);
    var s1 := InstallAll(s, target, CreateInstallTypes(target.cls, info, injects));
    if injects.Some? then InjectAll(s1, target, injects.value) else s1
  }

  /** Unbind: every uninstall, then every uninject. */
  function Unbind(s: BinderState, reflect: TypeName -> ClassInfo, target: Target): BinderState {
    var info := reflect(target.cls);
    var injects := CreateInjectDatas(info);
    var s1 := UninstallAll(s, target, CreateInstallTypes(target.cls, info, injects));
    if injects.Some? then UninjectAll(s1, target, injects.value) else s1
  }

  // ---- invariants ----

  /** No table maps a type to an empty list. */
  predicate NoEmptyLists(s: BinderState) {
    && (forall t :: t in s.dependencies ==> s.dependencies[t] != [])
    && (forall t :: t in s.injectors ==> s.injectors[t] != [])
    && (forall t :: t in s.updaters ==> s.updaters[t] != [])
  }

  /** The tables' invariant: no empty list, and a type with a dependency has no pending injector. */
  predicate Wellformed(s: BinderState) {
    NoEmptyLists(s) && forall t :: t in s.injectors ==> t !in s.dependencies
  }

  lemma EmptyWellformed()
    ensures Wellformed(Empty)
  {
  }

  lemma InstallKeepsWellformed(s: BinderState, target: Target, t: TypeName)
    requires Wellformed(s)
    ensures Wellformed(Install(s, target, t))
  {
  }

  lemma UninstallKeepsWellformed(s: BinderState, target: Target, t: TypeName)
    requires Wellformed(s)
    ensures Wellformed(Uninstall(s, target, t))
  {
  }

  lemma InjectKeepsWellformed(s: BinderState, target: Target, d: InjectData)
    requires Wellformed(s)
    ensures Wellformed(Inject(s, target, d))
  {
  }

  lemma UninjectKeepsWellformed(s: BinderState, target: Target, d: InjectData)
    requires Wellformed(s)
    ensures Wellformed(Uninject(s, target, d))
  {
  }

  lemma {:induction false} InstallAllKeepsWellformed(s: BinderState, target: Target, ts: seq<TypeName>)
    requires Wellformed(s)
    ensures Wellformed(InstallAll(s, target, ts))
    decreases |ts|
  {
    if |ts| > 0 {
      InstallKeepsWellformed(s, target, ts[0]);
      InstallAllKeepsWellformed(Install(s, target, ts[0]), target, ts[1..]);
    }
  }

  lemma {:induction false} UninstallAllKeepsWellformed(s: BinderState, target: Target, ts: seq<TypeName>)
    requires Wellformed(s)
    ensures Wellformed(UninstallAll(s, target, ts))
    decreases |ts|
  {
    if |ts| > 0 {
      UninstallKeepsWellformed(s, target, ts[0]);
      UninstallAllKeepsWellformed(Uninstall(s, target, ts[0]), target, ts[1..]);
    }
  }

  lemma {:induction false} InjectAllKeepsWellformed(s: BinderState, target: Target, ds: seq<InjectData>)
    requires Wellformed(s)
    ensures Wellformed(InjectAll(s, target, ds))
    decreases |ds|
  {
    if |ds| > 0 {
      InjectKeepsWellformed(s, target, ds[0]);
      InjectAllKeepsWellformed(Inject(s, target, ds[0]), target, ds[1..]);
    }
  }

  lemma {:induction false} UninjectAllKeepsWellformed(s: BinderState, target: Target, ds: seq<InjectData>)
    requires Wellformed(s)
    ensures Wellformed(UninjectAll(s, target, ds))
    decreases |ds|
  {
    if |ds| > 0 {
      UninjectKeepsWellformed(s, target, ds[0]);
      UninjectAllKeepsWellformed(Uninject(s, target, ds[0]), target, ds[1..]);
    }
  }

  /** Bind and Unbind keep the tables' invariant. */
  lemma BindKeepsWellformed(s: BinderState, reflect: TypeName -> ClassInfo, target: Target)
    requires Wellformed(s)
    ensures Wellformed(Bind(s, reflect, target))
    ensures Wellformed(Unbind(s, reflect, target))
  {
    var info := reflect(target.cls);
    var injects := CreateInjectDatas(info);
    var ts := CreateInstallTypes(target.cls, info, injects);
    InstallAllKeepsWellformed(s, target, ts);
    UninstallAllKeepsWellformed(s, target, ts);
    if injects.Some? {
      InjectAllKeepsWellformed(InstallAll(s, target, ts), target, injects.value);
      UninjectAllKeepsWellformed(UninstallAll(s, target, ts), target, injects.value);
    }
  }

  // ---- properties ----

  /**
   * After Install(target, t): target is the newest dependency of t, every updater and
   * every formerly pending injector of t holds it, no injector of t is left, and the
   * updater table is unchanged.
   */
  lemma InstallDelivers(s: BinderState, target: Target, t: TypeName)
    ensures var r := Install(s, target, t);
      && Newest(r.dependencies, t) == Some(target)
      && t !in r.injectors
      && r.updaters == s.updaters
      && (t in s.updaters ==> forall l :: l in s.updaters[t] ==> l.Slot() in r.effects.slots && r.effects.slots[l.Slot()] == Some(target))
      && (t in s.injectors ==> forall l :: l in s.injectors[t] ==> l.Slot() in r.effects.slots && r.effects.slots[l.Slot()] == Some(target))
  {
    var s1 := s.(dependencies := Append(s.dependencies, t, target));
    var dep := Some(target);
    if t in s.updaters {
      CallAllDelivers(s1.effects, s.updaters[t], dep);
      if t in s.injectors {
        CallAllDelivers(CallAll(s1.effects, s.updaters[t], dep), s.injectors[t], dep);
      }
    } else if t in s.injectors {
      CallAllDelivers(s1.effects, s.injectors[t], dep);
    }
  }

  /** Uninstall of a target that is not a dependency of t changes nothing. */
  lemma UninstallAbsentChangesNothing(s: BinderState, target: Target, t: TypeName)
    requires NoEmptyLists(s)
    requires t !in s.dependencies || target !in s.dependencies[t]
    ensures Uninstall(s, target, t) == s
  {
    if t in s.dependencies {
      assert RemoveFirst(s.dependencies[t], target) == s.dependencies[t];
      assert s.dependencies[t := s.dependencies[t]] == s.dependencies;
    }
  }

  /** Uninstalling the last dependency of t deletes its entry and hands null to every updater of t. */
  lemma UninstallLastHandsNull(s: BinderState, target: Target, t: TypeName)
    requires t in s.dependencies && s.dependencies[t] == [target]
    ensures var r := Uninstall(s, target, t);
      && t !in r.dependencies
      && (t in s.updaters ==> forall l :: l in s.updaters[t] ==> l.Slot() in r.effects.slots && r.effects.slots[l.Slot()] == None)
  {
    assert RemoveFirst(s.dependencies[t], target) == [];
    var s1 := s.(dependencies := s.dependencies - {t});
    if t in s.updaters {
      CallAllDelivers(s1.effects, s.updaters[t], None);
      if t in s.injectors {
        CallAllDelivers(CallAll(s1.effects, s.updaters[t], None), s.injectors[t], None);
      }
    }
  }

  /**
   * Inject delivers the newest dependency at once when there is one; an updater field
   * is always registered, an inject field is queued only when nothing was delivered.
   */
  lemma InjectDelivers(s: BinderState, target: Target, d: InjectData)
    ensures var r := Inject(s, target, d);
      var l := ListenerFor(target, d);
      var dep := Newest(s.dependencies, d.depType);
      && r.dependencies == s.dependencies
      && (dep.Some? ==> l.Slot() in r.effects.slots && r.effects.slots[l.Slot()] == dep)
      && (dep.None? ==> r.effects == s.effects)
      && (d.updater ==> r.injectors == s.injectors && d.depType in r.updaters && r.updaters[d.depType][|r.updaters[d.depType]| - 1] == l)
      && (!d.updater ==> r.updaters == s.updaters)
      && (!d.updater && dep.None? ==> d.depType in r.injectors && r.injectors[d.depType][|r.injectors[d.depType]| - 1] == l)
      && (!d.updater && dep.Some? ==> r.injectors == s.injectors)
  {
  }

  /** Uninject nulls the field and leaves the dependencies and pending injectors alone. */
  lemma UninjectNullsField(s: BinderState, target: Target, d: InjectData)
    ensures var r := Uninject(s, target, d);
      && (target, d.field) in r.effects.slots && r.effects.slots[(target, d.field)] == None
      && r.dependencies == s.dependencies && r.injectors == s.injectors
      && (d.depType in r.updaters ==> forall l :: l in r.updaters[d.depType] ==> l.target != target)
  {
    if d.depType in s.updaters {
      var rest := RemoveWhere(s.updaters[d.depType], OwnedBy(target));
      forall l | l in rest ensures l.target != target {
        RemoveWhereKeeps(s.updaters[d.depType], OwnedBy(target), l);
      }
    }
  }

  /** On well-formed tables an Uninstall never touches the pending injectors. */
  lemma UninstallKeepsInjectors(s: BinderState, target: Target, t: TypeName)
    requires Wellformed(s)
    ensures Uninstall(s, target, t).injectors == s.injectors
  {
  }

  lemma {:induction false} UninstallAllKeepsInjectors(s: BinderState, target: Target, ts: seq<TypeName>)
    requires Wellformed(s)
    ensures UninstallAll(s, target, ts).injectors == s.injectors
    decreases |ts|
  {
    if |ts| > 0 {
      UninstallKeepsInjectors(s, target, ts[0]);
      UninstallKeepsWellformed(s, target, ts[0]);
      UninstallAllKeepsInjectors(Uninstall(s, target, ts[0]), target, ts[1..]);
    }
  }

  lemma {:induction false} UninjectAllKeepsInjectors(s: BinderState, target: Target, ds: seq<InjectData>)
    ensures UninjectAll(s, target, ds).injectors == s.injectors
    decreases |ds|
  {
    if |ds| > 0 {
      UninjectAllKeepsInjectors(Uninject(s, target, ds[0]), target, ds[1..]);
    }
  }

  /** Unbind never removes a pending injector, not even one of the unbound target. */
  lemma UnbindKeepsInjectors(s: BinderState, reflect: TypeName -> ClassInfo, target: Target)
    requires Wellformed(s)
    ensures Unbind(s, reflect, target).injectors == s.injectors
  {
    var info := reflect(target.cls);
    var injects := CreateInjectDatas(info);
    var ts := CreateInstallTypes(target.cls, info, injects);
    UninstallAllKeepsInjectors(s, target, ts);
    if injects.Some? {
      UninjectAllKeepsInjectors(UninstallAll(s, target, ts), target, injects.value);
    }
  }

  // ---- Bind: installs before injects ----

  /** An Install of any type keeps the target as the newest dependency of t, and an Install of t makes it so. */
  lemma {:induction false} InstallAllNewest(s: BinderState, target: Target, ts: seq<TypeName>, t: TypeName)
    requires t in ts || Newest(s.dependencies, t) == Some(target)
    ensures Newest(InstallAll(s, target, ts).dependencies, t) == Some(target)
    decreases |ts|
  {
    if |ts| > 0 {
      var s1 := Install(s, target, ts[0]);
      InstallDelivers(s, target, ts[0]);
      assert t in ts[1..] || Newest(s1.dependencies, t) == Some(target) by {
        if t != ts[0] {
          assert t in ts[1..] || Newest(s.dependencies, t) == Some(target);
        }
      }
      InstallAllNewest(s1, target, ts[1..], t);
    }
  }

  predicate DistinctFields(ds: seq<InjectData>) {
    forall i, j :: 0 <= i < j < |ds| ==> ds[i].field != ds[j].field
  }

  /** Injects change no dependency and write no field but the injected ones of the target. */
  lemma {:induction false} InjectAllFrame(s: BinderState, target: Target, ds: seq<InjectData>, k: FieldSlot)
    requires forall d :: d in ds ==> k != (target, d.field)
    ensures InjectAll(s, target, ds).dependencies == s.dependencies
    ensures var r := InjectAll(s, target, ds);
      (k in r.effects.slots <==> k in s.effects.slots) && (k in s.effects.slots ==> r.effects.slots[k] == s.effects.slots[k])
    decreases |ds|
  {
    if |ds| > 0 {
      InjectAllFrame(Inject(s, target, ds[0]), target, ds[1..], k);
    }
  }

  /** Each injected field ends up holding the newest dependency of its type, when there is one. */
  lemma {:induction false} InjectAllDelivers(s: BinderState, target: Target, ds: seq<InjectData>)
    requires DistinctFields(ds)
    ensures var r := InjectAll(s, target, ds);
      forall d :: d in ds && Newest(s.dependencies, d.depType).Some? ==>
        (target, d.field) in r.effects.slots && r.effects.slots[(target, d.field)] == Newest(s.dependencies, d.depType)
    decreases |ds|
  {
    if |ds| > 0 {
      var s1 := Inject(s, target, ds[0]);
      InjectDelivers(s, target, ds[0]);
      assert DistinctFields(ds[1..]) by {
        forall i, j | 0 <= i < j < |ds[1..]| ensures ds[1..][i].field != ds[1..][j].field {
          assert ds[1..][i] == ds[i + 1] && ds[1..][j] == ds[j + 1];
        }
      }
      InjectAllDelivers(s1, target, ds[1..]);
      forall d | d in ds[1..] ensures (target, ds[0].field) != (target, d.field) {
        var j :| 0 <= j < |ds[1..]| && ds[1..][j] == d;
        assert ds[j + 1] == d;
      }
      InjectAllFrame(s1, target, ds[1..], (target, ds[0].field));
      assert forall d :: d in ds ==> d == ds[0] || d in ds[1..];
    }
  }

  predicate DistinctFieldNames(fields: seq<FieldDecl>) {
    forall i, j :: 0 <= i < j < |fields| ==> fields[i].name != fields[j].name
  }

  lemma {:induction false} CollectInjectsDistinct(info: ClassInfo, fields: seq<FieldDecl>)
    requires DistinctFieldNames(fields)
    ensures DistinctFields(CollectInjects(info, fields))
    decreases |fields|
  {
    if |fields| > 0 {
      assert DistinctFieldNames(fields[1..]) by {
        forall i, j | 0 <= i < j < |fields[1..]| ensures fields[1..][i].name != fields[1..][j].name {
          assert fields[1..][i] == fields[i + 1] && fields[1..][j] == fields[j + 1];
        }
      }
      CollectInjectsDistinct(info, fields[1..]);
      CollectInjectsExact(info, fields[1..]);
      var rest := CollectInjects(info, fields[1..]);
      var c := CollectInjects(info, fields);
      var d0 := CreateInjectData(info, fields[0]);
      if d0.Some? {
        assert c == [d0.value] + rest;
        forall j | 0 <= j < |rest| ensures d0.value.field != rest[j].field {
          assert rest[j] in rest;
          var f :| f in fields[1..] && CreateInjectData(info, f) == Some(rest[j]);
          var k :| 0 <= k < |fields[1..]| && fields[1..][k] == f;
          assert fields[k + 1] == f;
        }
        forall i, j | 0 <= i < j < |c| ensures c[i].field != c[j].field {
          if i > 0 {
            assert c[i] == rest[i - 1] && c[j] == rest[j - 1];
          } else {
            assert c[j] == rest[j - 1];
          }
        }
      } else {
        assert c == rest;
      }
    }
  }

  /**
   * Bind runs every install of the target before any of its injects: a class that
   * installs a type and injects a field of that same type receives itself in that field.
   */
  lemma BindInjectsOwnInstall(s: BinderState, reflect: TypeName -> ClassInfo, target: Target)
    requires DistinctFieldNames(reflect(target.cls).fields)
    ensures var info := reflect(target.cls);
      var injects := CreateInjectDatas(info);
      var installs := CreateInstallTypes(target.cls, info, injects);
      var r := Bind(s, reflect, target);
      injects.Some? ==> forall d :: d in injects.value && d.depType in installs ==>
        (target, d.field) in r.effects.slots && r.effects.slots[(target, d.field)] == Some(target)
  {
    var info := reflect(target.cls);
    var injects := CreateInjectDatas(info);
    var installs := CreateInstallTypes(target.cls, info, injects);
    var s1 := InstallAll(s, target, installs);
    if injects.Some? {
      CollectInjectsDistinct(info, info.fields);
      InjectAllDelivers(s1, target, injects.value);
      forall d | d in injects.value && d.depType in installs
        ensures Newest(s1.dependencies, d.depType) == Some(target)
      {
        InstallAllNewest(s, target, installs, d.depType);
      }
    }
  }
}
