# Unity-Commons core, modelled in Dafny

This project models the runtime core of the Unity-Commons package (C#), plus the CJK
font-atlas baker from its editor tools. It proves properties of each modelled part.

- **Observables.**
  - `BaseObservable` has a lock counter, a deferred-update flag, batches and their tokens.
  - The `Update` event is modelled as a count of how many times it has fired.
  - `ObservableList<T>` signals at most one update per mutating call. `Add`, `Insert`, `RemoveAt`, the indexer setter and every `Sort` overload always signal. The others signal only when something may have changed: `AddRange` and `InsertRange` when the count changed, `Remove` and `RemoveAll` when something was removed, `RemoveRange` when its count is positive, `Clear` when the list was non-empty, and both `Reverse` overloads when at least two items are reversed.
  - `ExecutionContext` and `TextModel` are observables too; they get their change notifications from `UpdateValue`.
- **Commands.**
  - `BaseExecutionContext` and `ExecutionContext` each hold two lock flags.
  - `DelegateCommand` and `DelegateCommand<TData>` run their callback only while the context allows commands.
- **Toggleables.**
  - `BaseToggleable` runs its `OnEnable`/`OnDisable` hooks only when the flag really changes.
  - `NestedToggleable` cascades enable and disable to its children.
- **Dependency injection (`Binder`).**
  - It keeps three tables: the installed dependencies, the pending injectors and the updaters.
  - `Bind`/`Unbind`, `Install`/`Uninstall` and `Inject`/`Uninject` are modelled.
  - `CreateInjectData` and `CreateInstallDatas` read `[Inject]`, `[Update]` and `[Install]` attributes; here that metadata is given as input.
  - Everything the binder writes into fields, and every callback it invokes, is recorded as an observable effect.
- **`SerializableDictionary<TKey,TValue>`.** A list of key/value entries that is searched linearly.
- **Localization.**
  - The player-prefs store holds one key, `localization_language`.
  - `LanguagePersistence` loads the saved language, or detects it and saves it.
  - `LocalizationService` builds a translation table, changes language, looks up localized text and refreshes the registered text components.
- **String and numeric extensions.** `FirstToUpper`, `SplitCamelCase`, `IsHttpUrl`, `ClampToPositive`, `IsZero`/`NotZero`.
- **`TextBakerCJK`.**
  - The table of predefined Unicode ranges.
  - The set of code points that the language and range toggles select.
  - The radio-button logic of the Chinese options.
  - Turning a browsed folder into a path relative to `Assets`.
  - The three checks that stop `GenerateAtlases`.

**How operations are modelled.**
- Where the C# mutates an object, the model is a Dafny `class` whose methods are proved against pure specification functions: `BaseObservable`, `ObservableList`, the contexts, the commands, the toggleables, the binder, the dictionary, the prefs store, the persistence object, the localization service and the baker window.
- The properties themselves are lemmas about those functions.
- Where the C# computes a value, the model is a function with a contract.
- The C# loops stay loops, with their invariants:
  - filling the code-point set;
  - building the translation table;
  - the batch update;
  - calling a listener list;
  - cascading to children.

Inheritance from `BaseObservable` is modelled by composition. `ObservableList`, `ExecutionContext` and `TextModel` each hold a `BaseObservable` in the field `obs`, and their methods state the exact effect on `obs.State()`.

## Model

| member | source | states |
|---|---|---|
| Observable.BaseObservable.constructor | Runtime/Interfaces/Observable/BaseObservable.cs:53-59 | a new observable has no lock, no batch, no deferred update and has fired nothing |
| Observable.BaseObservable.SignalUpdate | Runtime/Interfaces/Observable/BaseObservable.cs:65-81 | the update fires exactly when no batch is open and the lock counter is zero; otherwise the batch is marked dirty or the update is deferred |
| Observable.BaseObservable.Batch | Runtime/Interfaces/Observable/BaseObservable.cs:83-94 | opening a batch deepens it by one and hands out a fresh open token owned by this object |
| Observable.BaseObservable.EndBatch | Runtime/Interfaces/Observable/BaseObservable.cs:86-93 | closing a batch lowers the depth by one; when the batch was dirty and the outermost one closes, it fires once (unless locked) |
| Observable.BaseObservable.Lock | Runtime/Interfaces/Observable/BaseObservable.cs:99 | the lock counter goes up by one and nothing fires |
| Observable.BaseObservable.Unlock | Runtime/Interfaces/Observable/BaseObservable.cs:105-113 | the counter goes down by one but never below zero; at zero a deferred update is signalled |
| Observable.BaseObservable.UpdateValue | Runtime/Interfaces/Observable/BaseObservable.cs:134-141 | the new value is stored; an equal value changes no state, a different one signals once |
| Observable.BatchToken.constructor | Runtime/Interfaces/Observable/BaseObservable.cs:147-150 | a new token is open and belongs to its observable |
| Observable.BatchToken.Dispose | Runtime/Interfaces/Observable/BaseObservable.cs:152-156 | the first dispose closes the batch; a second dispose does nothing |
| Observable.RunAppend | Runtime/Interfaces/Observable/BaseObservable.cs:65-113 | running two call sequences in turn is the same as running them joined |
| Observable.SignalFiresIffFree | Runtime/Interfaces/Observable/BaseObservable.cs:65-81 | a signal fires if and only if no batch is open and no lock is held, and otherwise records exactly one flag |
| Observable.RunKeepsLockCountNonNegative | Runtime/Interfaces/Observable/BaseObservable.cs:99-113 | whatever calls are made, the lock counter never becomes negative |
| Observable.SurplusUnlocksStayAtZero | Runtime/Interfaces/Observable/BaseObservable.cs:107 | extra unlocks at zero keep the counter at zero |
| Observable.DeferredFlagNeverCleared | Runtime/Interfaces/Observable/BaseObservable.cs:65-113 | once an update has been deferred the flag stays set forever, because nothing resets it |
| Observable.EveryLaterUnlockFiresAgain | Runtime/Interfaces/Observable/BaseObservable.cs:105-113 | with the flag set and nothing locked, a Lock/Unlock pair with no change in between fires one update and leaves the flag set |
| Observable.UnlockToZeroFires | Runtime/Interfaces/Observable/BaseObservable.cs:105-113 | with the flag set and no batch open, an Unlock that leaves the counter at zero, from one or from zero, fires exactly one update and keeps the flag |
| Observable.SurplusUnlocksFire | Runtime/Interfaces/Observable/BaseObservable.cs:105-113 | with the flag set and nothing locked, k surplus Unlock calls fire k updates |
| Observable.OpenBatchFiresNothing | Runtime/Interfaces/Observable/BaseObservable.cs:67-71 | inside an open batch, signals, locks and unlocks fire nothing, and a signal marks the batch dirty |
| Observable.LockedFiresNothing | Runtime/Interfaces/Observable/BaseObservable.cs:73-80 | while locked, signals fire nothing and set the deferred flag exactly when a signal occurs |
| Observable.LockedSectionFiresAtMostOnce | Runtime/Interfaces/Observable/BaseObservable.cs:99-113 | Lock, then k signals, then Unlock fires exactly once when k > 0 and never otherwise |
| Observable.BatchFiresAtMostOnce | Runtime/Interfaces/Observable/BaseObservable.cs:83-94 | a batch holding k signals fires once on close when k > 0 and never otherwise, and leaves no dirty flag |
| Observable.SignalsKeepCounters | Runtime/Interfaces/Observable/BaseObservable.cs:65-81 | signals never change the lock counter or the batch depth |
| Observable.InnerCloseFiresNothing | Runtime/Interfaces/Observable/BaseObservable.cs:88 | closing an inner, nested batch fires nothing |
| ObservableLists.ObservableList.constructor | Runtime/Interfaces/Observable/ObservableList.cs:22-23 | the list starts with the given items and a fresh observable |
| ObservableLists.ObservableList.Get | Runtime/Interfaces/Observable/ObservableList.cs:203 | the indexer getter returns an element of the list |
| ObservableLists.ObservableList.Contains | Runtime/Interfaces/Observable/ObservableList.cs:37 | true if and only if some position holds the item |
| ObservableLists.ObservableList.IndexOf | Runtime/Interfaces/Observable/ObservableList.cs:54 | the first position holding the item, or -1 when there is none |
| ObservableLists.ObservableList.FindIndex | Runtime/Interfaces/Observable/ObservableList.cs:47 | the first position whose item matches, or -1 when none matches |
| ObservableLists.ObservableList.Add | Runtime/Interfaces/Observable/ObservableList.cs:104-108 | the item is appended and one update is signalled |
| ObservableLists.ObservableList.AddRange | Runtime/Interfaces/Observable/ObservableList.cs:110-115 | the collection is appended; an update is signalled only if the count changed |
| ObservableLists.ObservableList.Clear | Runtime/Interfaces/Observable/ObservableList.cs:117-122 | the list becomes empty; an update is signalled only if it was not empty already |
| ObservableLists.ObservableList.Insert | Runtime/Interfaces/Observable/ObservableList.cs:124-128 | the item is placed at index with the rest shifted up, and one update is signalled |
| ObservableLists.ObservableList.InsertRange | Runtime/Interfaces/Observable/ObservableList.cs:130-135 | the collection is spliced in at index; an update is signalled only if the count changed |
| ObservableLists.ObservableList.Remove | Runtime/Interfaces/Observable/ObservableList.cs:137-142 | returns whether the item was present, removes its first occurrence, and signals only on removal |
| ObservableLists.ObservableList.RemoveAll | Runtime/Interfaces/Observable/ObservableList.cs:144-149 | removes every match and returns how many there were; signals only if that count is nonzero |
| ObservableLists.ObservableList.RemoveAt | Runtime/Interfaces/Observable/ObservableList.cs:151-155 | the element at index is removed and one update is signalled |
| ObservableLists.ObservableList.RemoveRange | Runtime/Interfaces/Observable/ObservableList.cs:157-161 | the count elements at index are removed; signals only when count > 0 |
| ObservableLists.ObservableList.Reverse | Runtime/Interfaces/Observable/ObservableList.cs:163-168 | the list is reversed; a list shorter than two is untouched and signals nothing |
| ObservableLists.ObservableList.ReverseRange | Runtime/Interfaces/Observable/ObservableList.cs:170-175 | only the slice is reversed and the rest is kept; a count below two does nothing and signals nothing |
| ObservableLists.ObservableList.Sort | Runtime/Interfaces/Observable/ObservableList.cs:177-193 | the result is a sorted permutation of the items, and one update is signalled |
| ObservableLists.ObservableList.SortRange | Runtime/Interfaces/Observable/ObservableList.cs:195-199 | only the slice becomes a sorted permutation of itself and the rest is kept; one update is signalled |
| ObservableLists.ObservableList.SetAt | Runtime/Interfaces/Observable/ObservableList.cs:204 | the indexer setter replaces one element and signals once |
| Sequences.IndexOf | Runtime/Interfaces/Observable/ObservableList.cs:54 | -1 exactly when the item is absent; otherwise its first position |
| Sequences.FindIndex | Runtime/Interfaces/Observable/ObservableList.cs:47 | -1 exactly when nothing matches; otherwise the first match |
| Sequences.RemoveFirst | Runtime/Interfaces/Observable/ObservableList.cs:137-142 | removes the first occurrence only: the multiset loses one copy, and an absent item changes nothing |
| Sequences.RemoveWhere | Runtime/Interfaces/Observable/ObservableList.cs:144-149 | no element of the result matches, and the result is no longer than the input |
| Sequences.RemoveWhereCount | Runtime/Interfaces/Observable/ObservableList.cs:146 | the number of removed elements equals the number of matches |
| Sequences.RemoveWhereKeeps | Runtime/Interfaces/Observable/ObservableList.cs:144-149 | an element survives if and only if it was present and does not match |
| Sequences.CountWhereNone | Runtime/Interfaces/Observable/ObservableList.cs:147 | with no match, the count of matches is zero |
| Sequences.RemoveWhereNoMatch | Runtime/Interfaces/Observable/ObservableList.cs:147 | with zero matches, the list is unchanged |
| Sequences.Reversed | Runtime/Interfaces/Observable/ObservableList.cs:166 | reversal keeps the length |
| Sequences.ReversedAt | Runtime/Interfaces/Observable/ObservableList.cs:166 | position k of the reversal holds the element at position length-1-k |
| Sequences.ReversedShort | Runtime/Interfaces/Observable/ObservableList.cs:165 | reversing a list shorter than two changes nothing |
| Sequences.Insert | Runtime/Interfaces/Observable/ObservableList.cs:179 | insertion adds exactly one copy of the element |
| Sequences.InsertSorted | Runtime/Interfaces/Observable/ObservableList.cs:179 | inserting into a sorted list keeps it sorted under a total preorder |
| Sequences.SortBy | Runtime/Interfaces/Observable/ObservableList.cs:179 | sorting is a permutation of its input |
| Sequences.SortBySorted | Runtime/Interfaces/Observable/ObservableList.cs:179 | the sorted result is ordered under any total preorder |
| Commands.OneEndUndoesAllBegins | Runtime/Interfaces/Command/BaseExecutionContext.cs:10-24 | any number of blocking begins is undone by a single blocking end, because the flag is a bool and not a counter |
| Commands.NonBlockingCommandsChangeNothing | Runtime/Interfaces/Command/BaseExecutionContext.cs:10-24 | begins and ends of non-blocking commands never change the flags |
| Commands.GlobalLockHoldsUntilUnlock | Runtime/Interfaces/Command/BaseExecutionContext.cs:26-34 | after Lock and until Unlock, no command may execute |
| Commands.FlagsAreIndependent | Runtime/Interfaces/Command/BaseExecutionContext.cs:8-34 | the command lock and the global lock never touch each other, and execution needs both clear |
| Commands.BaseExecutionContext.constructor | Runtime/Interfaces/Command/BaseExecutionContext.cs:5-6 | a new context is unlocked |
| Commands.BaseExecutionContext.BeginCommandExecution | Runtime/Interfaces/Command/BaseExecutionContext.cs:10-16 | a blocking command sets the command lock, after which no command may execute; a non-blocking one changes nothing |
| Commands.BaseExecutionContext.EndCommandExecution | Runtime/Interfaces/Command/BaseExecutionContext.cs:18-24 | a blocking command clears the command lock |
| Commands.BaseExecutionContext.Lock | Runtime/Interfaces/Command/BaseExecutionContext.cs:26-29 | sets the global lock, after which no command may execute |
| Commands.BaseExecutionContext.Unlock | Runtime/Interfaces/Command/BaseExecutionContext.cs:31-34 | clears the global lock only |
| Commands.ExecutionContext.constructor | Runtime/Interfaces/Command/ExecutionContext.cs:5-6 | a new observable context is unlocked and has fired nothing |
| Commands.ExecutionContext.SetLockedByCommand | Runtime/Interfaces/Command/ExecutionContext.cs:9-13 | the property setter signals an update only when the value changes |
| Commands.ExecutionContext.SetLockedGlobally | Runtime/Interfaces/Command/ExecutionContext.cs:15-19 | the property setter signals an update only when the value changes |
| Commands.ExecutionContext.BeginCommandExecution | Runtime/Interfaces/Command/ExecutionContext.cs:24-28 | the same flag change as the base context, signalling only when the flags change |
| Commands.ExecutionContext.EndCommandExecution | Runtime/Interfaces/Command/ExecutionContext.cs:30-34 | the same flag change as the base context, signalling only when the flags change |
| Commands.ExecutionContext.LockContext | Runtime/Interfaces/Command/ExecutionContext.cs:36-37 | sets the global lock, signalling only if it was clear |
| Commands.ExecutionContext.UnlockContext | Runtime/Interfaces/Command/ExecutionContext.cs:39-40 | clears the global lock, signalling only if it was set |
| Commands.DelegateCommand.constructor | Runtime/Interfaces/Command/DelegateCommand.cs:13-17 | stores the callback and the context; nothing has run yet |
| Commands.DelegateCommand.Create | Runtime/Interfaces/Command/DelegateCommand.cs:13-17 | a null callback and then a null context are rejected, in that order; otherwise a new command is made |
| Commands.DelegateCommand.TryExecute | Runtime/Interfaces/Command/DelegateCommand.cs:22-28 | the callback runs once if the context allows execution, and not at all otherwise |
| Commands.DelegateCommand.Execute | Runtime/Interfaces/Command/DelegateCommand.cs:19-20 | ignores its argument and behaves as TryExecute |
| Commands.DelegateCommandOf.constructor | Runtime/Interfaces/Command/DelegateCommand.cs:39-43 | stores the callback and the context; nothing has been received |
| Commands.DelegateCommandOf.Create | Runtime/Interfaces/Command/DelegateCommand.cs:39-43 | a null callback and then a null context are rejected; otherwise a new command is made |
| Commands.DelegateCommandOf.Execute | Runtime/Interfaces/Command/DelegateCommand.cs:45-52 | the payload reaches the callback if and only if the context allows execution |
| Commands.DelegateCommandOf.ExecuteObject | Runtime/Interfaces/Command/DelegateCommand.cs:54-65 | fails, with nothing received, exactly when the payload is null for a value type; a payload of another type is dropped and completes normally; a castable one behaves as the typed Execute |
| Toggleables.Idempotent | Runtime/Interfaces/Toggleable/BaseToggleable.cs:7-23 | Enable twice is Enable once, likewise Disable; afterwards the flag is set or clear accordingly |
| Toggleables.HooksAlternate | Runtime/Interfaces/Toggleable/BaseToggleable.cs:7-23 | over any call sequence, OnEnable and OnDisable alternate, starting with OnEnable |
| Toggleables.RemoveFirstKeepsDistinct | Runtime/Interfaces/Toggleable/NestedToggleable.cs:37-43 | removing a child keeps the children distinct and the child gone |
| Toggleables.BaseToggleable.constructor | Runtime/Interfaces/Toggleable/BaseToggleable.cs:5 | a new toggleable is disabled and has run no hook |
| Toggleables.BaseToggleable.Enable | Runtime/Interfaces/Toggleable/BaseToggleable.cs:7-14 | becomes enabled; OnEnable runs only if it was disabled |
| Toggleables.BaseToggleable.Disable | Runtime/Interfaces/Toggleable/BaseToggleable.cs:16-23 | becomes disabled; OnDisable runs only if it was enabled |
| Toggleables.NestedToggleable.constructor | Runtime/Interfaces/Toggleable/NestedToggleable.cs:9 | starts disabled with no children |
| Toggleables.NestedToggleable.EnableChildren | Runtime/Interfaces/Toggleable/NestedToggleable.cs:11-15 | every child is enabled |
| Toggleables.NestedToggleable.DisableChildren | Runtime/Interfaces/Toggleable/NestedToggleable.cs:17-21 | every child is disabled |
| Toggleables.NestedToggleable.Enable | Runtime/Interfaces/Toggleable/NestedToggleable.cs:11-15 | a disabled parent enables itself and every child; an enabled one changes no child |
| Toggleables.NestedToggleable.Disable | Runtime/Interfaces/Toggleable/NestedToggleable.cs:17-21 | an enabled parent disables itself and every child; a disabled one changes no child |
| Toggleables.NestedToggleable.Add | Runtime/Interfaces/Toggleable/NestedToggleable.cs:23-35 | a duplicate is ignored; a new child is appended and enabled exactly when the parent is enabled |
| Toggleables.NestedToggleable.Remove | Runtime/Interfaces/Toggleable/NestedToggleable.cs:37-43 | the child leaves the list; an enabled parent disables it even if it was not a child |
| Toggleables.NestedToggleable.Clear | Runtime/Interfaces/Toggleable/NestedToggleable.cs:45-51 | an enabled parent disables every child, then the list is emptied |
| BinderSpec.Call | Runtime/Injection/Core/Binder.cs:24-38 | the field always receives the dependency; the callback is invoked only when both it and the dependency are non-null |
| BinderSpec.CallAllDelivers | Runtime/Injection/Core/Binder.cs:43-44 | every listener of the list ends up holding the dependency, and no other field changes |
| BinderSpec.CallAllInvocations | Runtime/Injection/Core/Binder.cs:43-44 | a null dependency invokes nothing; otherwise one invocation per listener with a callback, appended in order |
| BinderSpec.Newest | Runtime/Injection/Core/Binder.cs:171-172 | the last installed dependency of a type, or none when it has none |
| BinderSpec.Append | Runtime/Injection/Core/Binder.cs:203-206 | adds to the end of the type's list, creating the list if needed; other types are untouched |
| BinderSpec.RemoveListeners | Runtime/Injection/Core/Binder.cs:46-47 | drops every listener of the target for that type, removes a list left empty, and leaves other types alone |
| BinderSpec.RemoveDependency | Runtime/Injection/Core/Binder.cs:208-222 | removes the first occurrence, returns whether it was there, and removes a list left empty |
| BinderSpec.CreateInjectData | Runtime/Injection/Core/Binder.cs:378-396 | null without the attribute; otherwise the type override or the field type, and the named or default callback only if the class has that method |
| BinderSpec.CollectInjectsExact | Runtime/Injection/Core/Binder.cs:362-371 | one inject entry per attributed field, and exactly the entries made from the fields |
| BinderSpec.CreateInjectDatasNull | Runtime/Injection/Core/Binder.cs:373-375 | the inject list is null if and only if no field carries the attribute |
| BinderSpec.CreateInstallTypes | Runtime/Injection/Core/Binder.cs:333-360 | one install per [Install] attribute, defaulting to the class; with none, the class itself only when it has no injects |
| BinderSpec.EmptyWellformed | Runtime/Injection/Core/Binder.cs:398-404 | the cleared tables satisfy the table invariant |
| BinderSpec.InstallKeepsWellformed | Runtime/Injection/Core/Binder.cs:104-112 | Install keeps the invariant: no empty list, and no pending injector for a type that has a dependency |
| BinderSpec.UninstallKeepsWellformed | Runtime/Injection/Core/Binder.cs:117-127 | Uninstall keeps the table invariant |
| BinderSpec.InjectKeepsWellformed | Runtime/Injection/Core/Binder.cs:138-157 | Inject keeps the table invariant |
| BinderSpec.UninjectKeepsWellformed | Runtime/Injection/Core/Binder.cs:159-167 | Uninject keeps the table invariant |
| BinderSpec.InstallAllKeepsWellformed | Runtime/Injection/Core/Binder.cs:81-83 | a class's installs keep the table invariant |
| BinderSpec.UninstallAllKeepsWellformed | Runtime/Injection/Core/Binder.cs:95-97 | a class's uninstalls keep the table invariant |
| BinderSpec.InjectAllKeepsWellformed | Runtime/Injection/Core/Binder.cs:85-87 | a class's injects keep the table invariant |
| BinderSpec.UninjectAllKeepsWellformed | Runtime/Injection/Core/Binder.cs:99-101 | a class's uninjects keep the table invariant |
| BinderSpec.BindKeepsWellformed | Runtime/Injection/Core/Binder.cs:76-102 | Bind and Unbind keep the table invariant |
| BinderSpec.InstallDelivers | Runtime/Injection/Core/Binder.cs:104-112 | after Install the target is the newest dependency; every updater and pending injector of the type holds it; the injectors are dropped |
| BinderSpec.UninstallAbsentChangesNothing | Runtime/Injection/Core/Binder.cs:117-127 | uninstalling something that is not installed changes nothing |
| BinderSpec.UninstallLastHandsNull | Runtime/Injection/Core/Binder.cs:180-200 | removing the last dependency of a type sets every updater's field to null |
| BinderSpec.InjectDelivers | Runtime/Injection/Core/Binder.cs:138-157 | an available dependency is written at once; an updater is always registered; an injector is queued only when nothing was delivered |
| BinderSpec.UninjectNullsField | Runtime/Injection/Core/Binder.cs:159-167 | the field is nulled and the target's updaters of that type are gone; dependencies and injectors are untouched |
| BinderSpec.UninstallKeepsInjectors | Runtime/Injection/Core/Binder.cs:117-127 | Uninstall never changes the pending injectors |
| BinderSpec.UninstallAllKeepsInjectors | Runtime/Injection/Core/Binder.cs:95-97 | a class's uninstalls never change the pending injectors |
| BinderSpec.UninjectAllKeepsInjectors | Runtime/Injection/Core/Binder.cs:99-101 | Uninject leaves the pending injectors in place, so a queued injector outlives Unbind |
| BinderSpec.UnbindKeepsInjectors | Runtime/Injection/Core/Binder.cs:90-102 | Unbind never removes the target's pending injectors |
| BinderSpec.InstallAllNewest | Runtime/Injection/Core/Binder.cs:81-83 | after a class's installs, the target is the newest dependency of each installed type |
| BinderSpec.InjectAllFrame | Runtime/Injection/Core/Binder.cs:85-87 | injects change no dependency and write no field except the target's injected ones |
| BinderSpec.InjectAllDelivers | Runtime/Injection/Core/Binder.cs:85-87 | each injected field whose type has a dependency receives the newest one |
| BinderSpec.CollectInjectsDistinct | Runtime/Injection/Core/Binder.cs:362-371 | distinct field names give inject entries with distinct fields |
| BinderSpec.BindInjectsOwnInstall | Runtime/Injection/Core/Binder.cs:76-88 | a class that installs a type and injects the same type receives itself in that field |
| Binding.Binder.constructor | Runtime/Injection/Core/Binder.cs:71-74 | the tables start empty |
| Binding.Binder.CallListener | Runtime/Injection/Core/Binder.cs:24-38 | has exactly the effect of Call |
| Binding.Binder.CallListeners | Runtime/Injection/Core/Binder.cs:43-44 | the ForEach loop has exactly the effect of calling every listener in order |
| Binding.Binder.AddDependency | Runtime/Injection/Core/Binder.cs:203-206 | the dependency is appended to its type's list |
| Binding.Binder.RemoveDependency | Runtime/Injection/Core/Binder.cs:208-222 | removes the first occurrence and returns whether it was there |
| Binding.Binder.AddUpdater | Runtime/Injection/Core/Binder.cs:243-246 | the listener is appended to the updaters of its type |
| Binding.Binder.RemoveUpdater | Runtime/Injection/Core/Binder.cs:248-258 | every updater of the target is dropped from that type |
| Binding.Binder.AddInjector | Runtime/Injection/Core/Binder.cs:279-282 | the listener is appended to the pending injectors of its type |
| Binding.Binder.RemoveInjector | Runtime/Injection/Core/Binder.cs:284-294 | every pending injector of the target is dropped from that type |
| Binding.Binder.RefreshListener | Runtime/Injection/Core/Binder.cs:169-178 | delivers the newest dependency if there is one, and says whether it did |
| Binding.Binder.RefreshDependency | Runtime/Injection/Core/Binder.cs:180-200 | updaters, then pending injectors, receive the newest dependency or null; the injectors are then dropped |
| Binding.Binder.Install | Runtime/Injection/Core/Binder.cs:104-112 | keeps the invariant and has exactly the effect of the Install specification |
| Binding.Binder.Uninstall | Runtime/Injection/Core/Binder.cs:117-127 | keeps the invariant; refreshes only when the target really was a dependency |
| Binding.Binder.Inject | Runtime/Injection/Core/Binder.cs:138-157 | keeps the invariant and has exactly the effect of the Inject specification |
| Binding.Binder.Uninject | Runtime/Injection/Core/Binder.cs:159-167 | keeps the invariant and has exactly the effect of the Uninject specification |
| Binding.Binder.Bind | Runtime/Injection/Core/Binder.cs:76-88 | every install of the class, then every inject, in declaration order |
| Binding.Binder.Unbind | Runtime/Injection/Core/Binder.cs:90-102 | every uninstall of the class, then every uninject |
| Binding.Binder.Clear | Runtime/Injection/Core/Binder.cs:398-404 | all three tables become empty; the fields already written are untouched |
| SerializableDictionaries.KeyIndex | Runtime/Collections/SerializableDictionary.cs:62 | -1 exactly when the key is absent; otherwise the first entry with that key |
| SerializableDictionaries.Lookup | Runtime/Collections/SerializableDictionary.cs:48-54 | the value of the first entry with the key, or the default when there is none |
| SerializableDictionaries.KeysOf | Runtime/Collections/SerializableDictionary.cs:69 | one key per entry, in storage order; every key it lists is contained, and unique stored keys give a list without repeats |
| SerializableDictionaries.Assign | Runtime/Collections/SerializableDictionary.cs:26-41 | overwrites the first entry with the key in place, or appends a new entry |
| SerializableDictionaries.GetAfterSet | Runtime/Collections/SerializableDictionary.cs:26-54 | after setting a key, the key is present and reading it gives the value set |
| SerializableDictionaries.SetKeepsOthers | Runtime/Collections/SerializableDictionary.cs:26-54 | setting one key changes neither the presence nor the value of any other key |
| SerializableDictionaries.SetKeepsUnique | Runtime/Collections/SerializableDictionary.cs:26-41 | setting keeps keys unique |
| SerializableDictionaries.RemoveKeepsUnique | Runtime/Collections/SerializableDictionary.cs:61 | removing keeps keys unique |
| SerializableDictionaries.RemoveRemoves | Runtime/Collections/SerializableDictionary.cs:56-61 | after RemoveKey the key is absent, and every other key keeps its presence |
| SerializableDictionaries.SerializableDictionary.constructor | Runtime/Collections/SerializableDictionary.cs:46 | a new dictionary has no entries |
| SerializableDictionaries.SerializableDictionary.Set | Runtime/Collections/SerializableDictionary.cs:26-41 | the indexer setter assigns the entry and keeps keys unique |
| SerializableDictionaries.SerializableDictionary.RemoveKey | Runtime/Collections/SerializableDictionary.cs:61 | every entry with the key is removed; afterwards ContainsKey is false and keys stay unique |
| TextModels.Normalize | Runtime/Text/TextModel.cs:52-61 | null gives no arguments; otherwise each argument's ToString(), with "" for null |
| TextModels.NullArgsAreEmptyArgs | Runtime/Text/TextModel.cs:46-50 | WithArgs(null) and WithArgs() are the same call |
| TextModels.FullFiresAtMostOnce | Runtime/Text/TextModel.cs:30-38 | Full fires at most one update, and none when nothing changes |
| TextModels.TextModel.constructor | Runtime/Text/TextModel.cs:13-16 | stores the key (an update fires when it is non-null) and starts with the shared empty argument array |
| TextModels.TextModel.Default | Runtime/Text/TextModel.cs:12 | the key is "", set through the property, so one update fires |
| TextModels.TextModel.SetKey | Runtime/Text/TextModel.cs:18-22 | stores the key and signals only when it differs |
| TextModels.TextModel.GetNormalizedArgs | Runtime/Text/TextModel.cs:52-61 | normalised contents; the shared empty array exactly when they are empty, otherwise a newly allocated array |
| TextModels.TextModel.SetArgs | Runtime/Text/TextModel.cs:24-28 | stores the normalised arguments and signals unless both arrays are the shared empty one |
| TextModels.TextModel.WithKey | Runtime/Text/TextModel.cs:40-44 | sets the key and returns this |
| TextModels.TextModel.WithArgs | Runtime/Text/TextModel.cs:46-50 | sets the arguments (null meaning none) and returns this |
| TextModels.TextModel.Full | Runtime/Text/TextModel.cs:30-38 | sets key and arguments inside one batch, so at most one update fires |
| Localization.Stored | Runtime/PlayerPrefs/LocalizationPlayerPrefs.cs:7-11 | the language key holds the code and every other key is untouched |
| Localization.Deleted | Runtime/PlayerPrefs/LocalizationPlayerPrefs.cs:24-28 | the language key is gone and every other key is untouched |
| Localization.LanguagePrefs.constructor | Runtime/PlayerPrefs/LocalizationPlayerPrefs.cs:5 | the store starts with the given entries |
| Localization.LanguagePrefs.Save | Runtime/PlayerPrefs/LocalizationPlayerPrefs.cs:7-11 | stores the code under the language key |
| Localization.LanguagePrefs.TryLoad | Runtime/PlayerPrefs/LocalizationPlayerPrefs.cs:13-22 | nothing if and only if the key is missing; otherwise the stored code |
| Localization.LanguagePrefs.Clear | Runtime/PlayerPrefs/LocalizationPlayerPrefs.cs:24-28 | deletes the language key |
| Localization.LoadOrDetectCases | Runtime/Services/Localization/Persistence/LocalizationPersistence.cs:16-27 | a recognised saved code wins with the store unchanged; otherwise the system language is used and saved; afterwards a code is always stored |
| Localization.SaveThenLoad | Runtime/Services/Localization/Persistence/LocalizationPersistence.cs:16-33 | with a round-tripping mapper, loading after saving a language gives that language back |
| Localization.LoadOrDetectStable | Runtime/Services/Localization/Persistence/LocalizationPersistence.cs:16-27 | a second LoadOrDetect gives the same language and store as the first |
| Localization.LanguagePersistence.constructor | Runtime/Services/Localization/Persistence/LocalizationPersistence.cs:11-14 | keeps the mapper and the store |
| Localization.LanguagePersistence.Create | Runtime/Services/Localization/Persistence/LocalizationPersistence.cs:11-14 | fails if and only if the mapper is null |
| Localization.LanguagePersistence.Save | Runtime/Services/Localization/Persistence/LocalizationPersistence.cs:29-33 | stores the language's code and returns the language |
| Localization.LanguagePersistence.LoadOrDetect | Runtime/Services/Localization/Persistence/LocalizationPersistence.cs:16-27 | behaves as the load-or-detect specification, and leaves a code stored |
| Localization.LangMapLastWins | Runtime/Services/Localization/LocalizationService.cs:39-51 | a language is in the map if and only if some value has a code for it; its text is the last such value's |
| Localization.BuildTableLastWins | Runtime/Services/Localization/LocalizationService.cs:35-56 | a key is in the table if and only if some translation has it; its map is the last such translation's |
| Localization.LocalizedFallback | Runtime/Services/Localization/LocalizationService.cs:75-96 | a blank key gives ""; a stored key with text in the asked language gives that text; any other key, missing or stored without that language, comes back lower-cased |
| Localization.RegisteredLookup | Runtime/Services/Localization/LocalizationService.cs:33-96 | a registered lower-case key comes back as the text of its last value in the asked language |
| Localization.UnregisteredLookup | Runtime/Services/Localization/LocalizationService.cs:33-96 | a key with no translation comes back lower-cased and is not localized |
| Localization.UpperCaseKeyNeverFound | Runtime/Services/Localization/LocalizationService.cs:53-86 | keys are stored verbatim but looked up lower-cased, so a stored key holding an upper-case letter is never found |
| Localization.LocalizationService.constructor | Runtime/Services/Localization/LocalizationService.cs:20-26 | starts with the loaded-or-detected language, no components and no translations |
| Localization.LocalizationService.Create | Runtime/Services/Localization/LocalizationService.cs:20-26 | fails if and only if the mapper is null, leaving the store untouched |
| Localization.LocalizationService.RegisterText | Runtime/Services/Localization/LocalizationService.cs:28-29 | adds the component to the set and changes nothing else |
| Localization.LocalizationService.UnregisterText | Runtime/Services/Localization/LocalizationService.cs:30-31 | removes the component from the set and changes nothing else |
| Localization.LocalizationService.BatchUpdate | Runtime/Services/Localization/LocalizationService.cs:98-111 | every registered component is updated exactly once |
| Localization.LocalizationService.RegisterTranslations | Runtime/Services/Localization/LocalizationService.cs:33-60 | the table is rebuilt from scratch from the translations, then every component is updated once |
| Localization.LocalizationService.ChangeLanguage | Runtime/Services/Localization/LocalizationService.cs:62-73 | the same language changes nothing; a new one is set and saved, and every component is updated once |
| Chars.ToUpper | Runtime/Extensions/StringExtensions.cs:22 | a lower-case ASCII letter becomes its upper-case letter (32 code points lower); every other character is unchanged; the result is never lower-case |
| Chars.ToLower | Runtime/Services/Localization/LocalizationService.cs:86 | an upper-case ASCII letter becomes its lower-case letter (32 code points higher); every other character is unchanged; the result is never upper-case |
| Chars.Lower | Runtime/Services/Localization/LocalizationService.cs:86 | ToLowerInvariant maps each character and keeps the length |
| Chars.LowerHasNoUpper | Runtime/Services/Localization/LocalizationService.cs:86 | a lower-cased string holds no upper-case letter |
| StringExtensions.FirstToUpper | Runtime/Extensions/StringExtensions.cs:17-23 | null and "" give ""; otherwise the first character is upper-cased and the rest is kept |
| StringExtensions.FirstToUpperIdempotent | Runtime/Extensions/StringExtensions.cs:17-23 | applying it twice equals applying it once |
| StringExtensions.FirstToUpperExamples | Tests/EditModeTests/Extensions/StringExtensionsTests.cs:9-12 | "test" becomes "Test"; "hello world" becomes "Hello world"; null and "" give "" |
| StringExtensions.SplitFromJoins | Runtime/Extensions/StringExtensions.cs:30-33 | joining the regex pieces with spaces puts a space before every capital of the rest |
| StringExtensions.SplitCamelCaseInsertsSpaces | Runtime/Extensions/StringExtensions.cs:11-33 | the output is the input with one space before every 'A'..'Z' that is not at position 0 |
| StringExtensions.SpaceBeforeCapitalsLength | Runtime/Extensions/StringExtensions.cs:30-33 | each capital adds exactly one character |
| StringExtensions.SplitCamelCaseLength | Runtime/Extensions/StringExtensions.cs:30-33 | the output is as long as the input plus its capitals after position 0 |
| StringExtensions.IsHttpUrlMeaning | Runtime/Extensions/StringExtensions.cs:40-46 | true if and only if a non-null string starts with http:// or https://, in any case; blank input is never a URL |
| NumericExtensions.ClampToPositive | Runtime/Extensions/NumericExtensions.cs:38-39 | never negative; non-negative values unchanged; negative ones become 0 |
| NumericExtensions.ClampToPositiveIdempotent | Runtime/Extensions/NumericExtensions.cs:38-39 | clamping twice equals clamping once |
| NumericExtensions.IsZeroOnInt | Runtime/Extensions/NumericExtensions.cs:17-33 | for int, IsZero holds exactly at 0 and NotZero is its negation |
| FontBaking.RangeLookups | Editor/Fonts/TextBakerCJK.cs:60-85 | each range GenerateAtlases looks up is in the table with its code points, and every such range is non-empty and above 0 |
| FontBaking.PlaceholderEntries | Editor/Fonts/TextBakerCJK.cs:63-77 | the three word-list entries hold the placeholder range (0, 0) |
| FontBaking.GatedByLanguage | Editor/Fonts/TextBakerCJK.cs:281-362 | a language's options count only while its language toggle is on; with no language on, nothing is selected |
| FontBaking.SelectedBounded | Editor/Fonts/TextBakerCJK.cs:60-85 | every selected code point lies in 0..0x2FA1F |
| FontBaking.SelectedMonotone | Editor/Fonts/TextBakerCJK.cs:278-362 | turning a toggle on never removes a selected code point |
| FontBaking.AddCharactersFromRange | Editor/Fonts/TextBakerCJK.cs:474-480 | the set becomes the old set plus every code point of the inclusive range |
| FontBaking.AddCharactersFromText | Editor/Fonts/TextBakerCJK.cs:286-289 | the set becomes the old set plus every code unit of the text |
| FontBaking.AddKorean | Editor/Fonts/TextBakerCJK.cs:283-305 | adds exactly the code points the Korean options select |
| FontBaking.AddJapanese | Editor/Fonts/TextBakerCJK.cs:311-318 | adds exactly the code points the Japanese options select |
| FontBaking.AddChinese | Editor/Fonts/TextBakerCJK.cs:324-340 | adds exactly the code points the Chinese word lists select |
| FontBaking.AddCjk | Editor/Fonts/TextBakerCJK.cs:348-361 | adds exactly the code points the CJK options select |
| FontBaking.CombineUnderAssets | Editor/Fonts/TextBakerCJK.cs:388-389 | a relative file name under a folder starting with "Assets" passes the inside-Assets check |
| FontBaking.BrowsedFolderUnderAssets | Editor/Fonts/TextBakerCJK.cs:139-142 | a folder browsed inside the project's data path always passes the inside-Assets check |
| FontBaking.TextBakerWindow.constructor | Editor/Fonts/TextBakerCJK.cs:14-47 | no font, nothing selected, output Assets/GeneratedFont.asset |
| FontBaking.TextBakerWindow.DrawChineseOptions | Editor/Fonts/TextBakerCJK.cs:163-177 | the two Chinese radio options are never both on; the 7000 option wins when both are clicked |
| FontBaking.TextBakerWindow.Browse | Editor/Fonts/TextBakerCJK.cs:133-146 | an empty choice keeps the folder; a folder under the data path becomes Assets-relative; others are kept as chosen |
| FontBaking.TextBakerWindow.CollectCodePoints | Editor/Fonts/TextBakerCJK.cs:278-362 | the collected set is exactly the selected code points |
| FontBaking.TextBakerWindow.GenerateAtlases | Editor/Fonts/TextBakerCJK.cs:264-393 | fails for a missing font, then an empty path, then a path outside Assets; succeeds otherwise, with exactly the selected code points |

## Left out

- The asset pipeline in `GenerateAtlases` is not modelled. This covers `TMP_FontAsset.CreateFontAsset`, the initial atlas and material, `AssetDatabase`, the missing-characters report and `Resources.Load` of the word lists. The word lists are inputs, and a successful result carries the code-point set that would be handed to the font asset.
- The baker's GUI drawing is not modelled. The values that `GUILayout.Toggle` and `EditorUtility.OpenFolderPanel` return are parameters.
- FontBaking.AddCharactersFromRange: the C# mutates the `HashSet<int>` it is passed. The model returns the enlarged set instead, so aliasing of that set is not captured.
- FontBaking.CombinePath: `Path.Combine` is modelled with '/' as the separator. Drive letters and invalid-character checks are left out. `StartsWith` is taken as ordinal, not culture-sensitive.
- FontBaking.TextBakerWindow.GenerateAtlases: the path check really comes after the font asset is created. The model checks it before, since creating the asset has no modelled effect.
- `ObservableList`: the non-generic `IList` members are left out: `Add(object)`, `Insert(int, object)`, `Remove(object)` and the object indexer. So are `Capacity`, `TrimExcess`, `CopyTo`, `BinarySearch`, `ConvertAll`, `Exists`, `Find`, `FindAll`, `FindLast`, every `FindLastIndex` overload, the `FindIndex` overloads that take a start index or a count (the predicate-only `FindIndex` is modelled), `LastIndexOf`, `ForEach`, `TrueForAll` and the enumerators. They pass straight through to `List<T>` and never signal, or only repeat the modelled generic members.
- ObservableLists.ObservableList.Sort: `List<T>.Sort` is unstable. The model states only that the result is a sorted permutation, and the function that realises it is an insertion sort. The comparer overloads are modelled as one ordering given as a total preorder.
- Index and count arguments that make `List<T>` throw are preconditions, not modelled exceptions. So are the null collection and predicate arguments that make it throw, such as `AddRange(null)`, `InsertRange(index, null)` and `RemoveAll(null)`: the model's collections and predicates are never null.
- Localization.LocalizationService.RegisterTranslations: translation keys, value arrays and value texts are taken to be non-null. In the C# a null key makes `_translations[translation.key] = map` throw `ArgumentNullException` (Runtime/Services/Localization/LocalizationService.cs:53) after the table was cleared, leaving it partly rebuilt and skipping the batch update. A null `values` array throws `NullReferenceException` (line 41). A null `text`, as the XML serializer leaves for an empty `<value>` element, is stored and later returned by `GetLocalized` as null.
- The event's subscribers are not modelled. `Update` is only counted. A handler that re-enters the observable is out of scope.
- Binder callbacks are recorded, not run. A callback that calls back into the binder is not modelled.
- The binder's reflection is given as data: fields, attributes and method names for each class. The `_reflections` cache is left out because it only memoises that function.
- The binder's `#if ENABLE_DI_LOGS` logging, `OnReloadScripts` and the play-mode hook are not modelled.
- BinderSpec.CreateInjectData: reflection also collects static fields (`BindingFlags.Static`, Runtime/Injection/Core/Binder.cs:364). A static `[Inject]`/`[Update]` field is one location shared by every instance, so in the C# `Inject` on one instance is seen by all of them and `Uninject` on one nulls it for all. The model keys every slot by (target instance, field), so static inject fields are modelled as per-instance and that sharing is not captured; `InjectDelivers`, `UninjectNullsField` and `InjectAllFrame` hold as stated only for instance fields.
- BinderSpec.CreateInjectData: `Type.GetMethod` can throw when a name is ambiguous; the model uses plain presence of the name.
- BinderSpec.DefaultCallback: the default callback name is built from `Type.Name`, the short name without namespace (a generic type gives a name such as "List`1"). The model builds it from the opaque `TypeName` that also identifies the type, so two types with the same short name are not told apart here.
- BinderSpec.Install: `Install<T>(null)` is accepted by the C# and hands null, as the newest dependency, to the updaters and pending injectors of that type. The model's targets are never null, so installing null is not modelled.
- BinderSpec.BindInjectsOwnInstall assumes distinct field names. C# fields of one class, inherited ones included, are taken to have unique names.
- `NestedToggleable`: its children are plain toggleables, so the cascade is modelled one level deep.
- `LocalizationService`: `async` methods and `Task.Yield` are modelled as sequential code. Batch-size yields are left out.
- Localization.LocalizationService.BatchUpdate: `HashSet` enumeration order is unspecified. The model states that each registered component is updated exactly once, in no particular order.
- Warnings and events reported through `ReportWarning` and `ReportEvent` are not modelled.
- `ILocalizedText` components are opaque identities (`TextId`). Their `UpdateText` is recorded, not run.
- `Application.systemLanguage` is a parameter (`SystemLanguage`, as a number). The language mapper is given as a table of codes, a code function and a system-language function.
- Localization.LanguagePrefs: `PlayerPrefs` is modelled as a string map held by an object. `ATargetedPlayerPrefs` targeting and writes to disk (`Save()`) are not modelled.
- Chars.Lower: `ToLowerInvariant` and `ToUpper` are modelled for ASCII letters only. Other scripts' case mappings are not captured. `FirstToUpper` (Runtime/Extensions/StringExtensions.cs:22) calls the culture-sensitive `ToUpper()`, so under a Turkish culture 'i' becomes 'İ'; the model takes the invariant mapping.
- `StringExtensions.SplitCamelCase(null)` throws in `Regex.Split`. The model takes a non-null string.
- The `float` overloads are not modelled: `ClampToPositive(float)`, `FloorToInt`, `ToPercentageMultiplier` and `ToAdditionalPercentageMultiplier`. Neither is the floating-point branch of `IsZero`.
- NumericExtensions.IsZeroOnInt: `IsZero` on a non-floating type compares with `default(T)`, which the model passes in as an argument.
- SerializableDictionaries.Lookup: the indexer getter's `default(TValue)` is passed in as an argument.
- `SerializableDictionary`: the indexer setter compares keys with the non-generic `Comparer.Default`, while the other members use `Comparer<TKey>.Default`. The model uses one key equality for both, with compare-to-zero as equality.
- `Equals`/`GetHashCode` overrides and serialization attributes are not modelled.
- Commands.DelegateCommand.Execute: the returned `UniTask` is always completed and is not modelled. Neither is the `Debug.LogError` of the typed `Execute(object)`.
- Commands.DelegateCommandOf.ExecuteObject: the callback runs inside the `try`, so an `InvalidCastException` thrown by the callback itself is also swallowed and logged. Callbacks are recorded, not run, so the model has no callback exceptions.
- Observable.BaseObservable: `_lockCount` and `_batchDepth` are C# `int`s incremented without a check (Runtime/Interfaces/Observable/BaseObservable.cs:85, 99). The model's counters are unbounded, so wrap-around after 2^31 - 1 nested locks or batches is not modelled.
- TextModels.Normalize: each argument's `ToString()` is an input. It is an `Option<string>`, so a null `ToString()` result is covered.
- ObservableLists.ObservableList.Get: the contract states only that the result is an element of the list. That it is the element at the index is the function's definition.
