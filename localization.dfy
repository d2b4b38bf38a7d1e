/**
 * Localization: the language preference kept in the player-preferences store, the
 * choice of the language at start-up, and the key -> language -> text table of the
 * localization service with its lower-cased lookup and fallback.
 */
module Localization {
  import opened Wrappers
  import opened Chars

  /** The index of a value of the engine's SystemLanguage enumeration. */
  type SystemLanguage = nat

  /** A registered ILocalizedText component, as an opaque reference. */
  type TextId = nat

  datatype TranslationValue = TranslationValue(lang: string, text: string)

  datatype Translation = Translation(key: string, values: seq<TranslationValue>)

  /**
   * ILanguageMapper: TryGetLanguage is the partial map `languages` from codes,
   * GetCodeForLanguage and MapSystemLanguage are total functions.
   */
  datatype Mapper<!L> = Mapper(languages: map<string, L>, codeFor: L -> string, mapSystem: SystemLanguage -> L)

  /** The mapper reads back the code it writes for every language. */
  ghost predicate RoundTrips<L(!new)>(m: Mapper<L>) {
    forall l: L :: m.codeFor(l) in m.languages && m.languages[m.codeFor(l)] == l
  }

  datatype LocalizationError = NullMapper

  // ---- the preference store ----

  /** LocalizationPlayerPrefs' single key. */
  const KeyLanguage := "localization_language"

  /** LocalizationPlayerPrefs.Save: store the code under the language key. */
  function Stored(entries: map<string, string>, code: string): (r: map<string, string>)
    ensures KeyLanguage in r && r[KeyLanguage] == code
    ensures forall k :: k != KeyLanguage ==> (k in r <==> k in entries)
    ensures forall k :: k != KeyLanguage && k in entries ==> r[k] == entries[k]
  {
    entries[KeyLanguage := code]
  }

  /** LocalizationPlayerPrefs.Clear: delete the language key. */
  function Deleted(entries: map<string, string>): (r: map<string, string>)
    ensures KeyLanguage !in r
    ensures forall k :: k != KeyLanguage ==> (k in r <==> k in entries)
    ensures forall k :: k != KeyLanguage && k in entries ==> r[k] == entries[k]
  {
    entries - {KeyLanguage}
  }

  /** The player-preferences store, as a string-to-string map. */
  class LanguagePrefs {
    var entries: map<string, string>

    constructor (entries: map<string, string>)
      ensures this.entries == entries
    {
      this.entries := entries;
    }

    method Save(languageCode: string)
      modifies this
      ensures entries == Stored(old(entries), languageCode)
    {
      entries := entries[KeyLanguage := languageCode];
    }

    /** TryLoad: the stored code, or None (the out parameter left null) when the key is absent. */
    method TryLoad() returns (languageCode: Option<string>)
      ensures languageCode.None? <==> KeyLanguage !in entries
      ensures languageCode.Some? ==> languageCode.value == entries[KeyLanguage]
    {
      if KeyLanguage !in entries {
        return None;
      }
      return Some(entries[KeyLanguage]);
    }

    method Clear()
      modifies this
      ensures entries == Deleted(old(entries))
    {
      entries := entries - {KeyLanguage};
    }
  }

  // ---- LanguagePersistence ----

  /** What LoadOrDetect returns, with the store it leaves behind. */
  datatype Loaded<L> = Loaded(language: L, entries: map<string, string>)

  /** LanguagePersistence.Save: the language's code is stored; the language is returned. */
  function SaveLanguage<L>(m: Mapper<L>, entries: map<string, string>, language: L): map<string, string> {
    Stored(entries, m.codeFor(language))
  }

  /** LoadOrDetect: a saved and recognised code wins; otherwise an unrecognised one is deleted and the system language is saved. */
  function LoadOrDetectSpec<L>(m: Mapper<L>, entries: map<string, string>, system: SystemLanguage): Loaded<L> {
    if KeyLanguage in entries && entries[KeyLanguage] in m.languages then
      Loaded(m.languages[entries[KeyLanguage]], entries)
    else
      var cleared := if KeyLanguage in entries then Deleted(entries) else entries;
      Loaded(m.mapSystem(system), SaveLanguage(m, cleared, m.mapSystem(system)))
  }

  /** The three cases of LoadOrDetect; afterwards the store always holds a language code. */
  lemma LoadOrDetectCases<L>(m: Mapper<L>, entries: map<string, string>, system: SystemLanguage)
    ensures KeyLanguage in LoadOrDetectSpec(m, entries, system).entries
    ensures KeyLanguage in entries && entries[KeyLanguage] in m.languages ==>
      LoadOrDetectSpec(m, entries, system) == Loaded(m.languages[entries[KeyLanguage]], entries)
    ensures !(KeyLanguage in entries && entries[KeyLanguage] in m.languages) ==>
      var r := LoadOrDetectSpec(m, entries, system);
      && r.language == m.mapSystem(system)
      && r.entries == Stored(entries, m.codeFor(m.mapSystem(system)))
  {
    if !(KeyLanguage in entries && entries[KeyLanguage] in m.languages) {
      var r := LoadOrDetectSpec(m, entries, system);
      assert r.entries == Stored(entries, m.codeFor(m.mapSystem(system)));
    }
  }

  /** With a mapper that round-trips, a saved language is what the next start-up loads, and the store is left as it is. */
  lemma SaveThenLoad<L(!new)>(m: Mapper<L>, entries: map<string, string>, language: L, system: SystemLanguage)
    requires RoundTrips(m)
    ensures LoadOrDetectSpec(m, SaveLanguage(m, entries, language), system) == Loaded(language, SaveLanguage(m, entries, language))
  {
    assert m.codeFor(language) in m.languages && m.languages[m.codeFor(language)] == language;
  }

  /** With a mapper that round-trips, a second start-up loads the same language and changes nothing. */
  lemma LoadOrDetectStable<L(!new)>(m: Mapper<L>, entries: map<string, string>, system: SystemLanguage)
    requires RoundTrips(m)
    ensures var first := LoadOrDetectSpec(m, entries, system);
      LoadOrDetectSpec(m, first.entries, system) == first
  {
    var first := LoadOrDetectSpec(m, entries, system);
    if !(KeyLanguage in entries && entries[KeyLanguage] in m.languages) {
      var l := m.mapSystem(system);
      assert first.entries[KeyLanguage] == m.codeFor(l);
      assert m.codeFor(l) in m.languages && m.languages[m.codeFor(l)] == l;
    }
  }

  class LanguagePersistence<L> {
    const mapper: Mapper<L>
    const store: LanguagePrefs

    constructor (mapper: Mapper<L>, store: LanguagePrefs)
      ensures this.mapper == mapper && this.store == store
    {
      this.mapper := mapper;
      this.store := store;
    }

    /** The constructor: a null mapper is an ArgumentNullException. */
    static method Create(mapper: Option<Mapper<L>>, store: LanguagePrefs) returns (r: Result<LanguagePersistence<L>, LocalizationError>)
      ensures mapper.None? <==> r.Failure?
      ensures r.Success? ==> fresh(r.value) && r.value.mapper == mapper.value && r.value.store == store
    {
      if mapper.None? {
        return Failure(NullMapper);
      }
      var p := new LanguagePersistence(mapper.value, store);
      return Success(p);
    }

    method Save(language: L) returns (saved: L)
      modifies store
      ensures saved == language
      ensures store.entries == SaveLanguage(mapper, old(store.entries), language)
    {
      store.Save(mapper.codeFor(language));
      return language;
    }

    /** LoadOrDetect, with Application.systemLanguage given as a parameter. */
    method LoadOrDetect(system: SystemLanguage) returns (language: L)
      modifies store
      ensures Loaded(language, store.entries) == LoadOrDetectSpec(mapper, old(store.entries), system)
      ensures KeyLanguage in store.entries
    {
      var savedCode := store.TryLoad();
      if savedCode.Some? {
        if savedCode.value in mapper.languages {
          return mapper.languages[savedCode.value];
        }
        store.Clear();
      }
      language := Save(mapper.mapSystem(system));
    }
  }

  // ---- the translation table ----

  /** The value v supplies the text of language l. */
  predicate Recognised<L(==)>(m: Mapper<L>, v: TranslationValue, l: L) {
    v.lang in m.languages && m.languages[v.lang] == l
  }

  /** The language map built from one translation's values: unknown codes are skipped, a later value for a language overwrites an earlier one. */
  function LangMap<L(==)>(m: Mapper<L>, vs: seq<TranslationValue>): map<L, string>
    decreases |vs|
  {
    if vs == [] then map[]
    else
      var prev := LangMap(m, vs[..|vs| - 1]);
      var v := vs[|vs| - 1];
      if v.lang in m.languages then prev[m.languages[v.lang] := v.text] else prev
  }

  /** The table Register(translations) builds: a later translation with the same key replaces the whole map. */
  function BuildTable<L(==)>(m: Mapper<L>, ts: seq<Translation>): map<string, map<L, string>>
    decreases |ts|
  {
    if ts == [] then map[]
    else
      var last := ts[|ts| - 1];
      BuildTable(m, ts[..|ts| - 1])[last.key := LangMap(m, last.values)]
  }

  /** A language is in the map iff some value is recognised for it; its text is that of the last such value. */
  lemma {:induction false} LangMapLastWins<L>(m: Mapper<L>, vs: seq<TranslationValue>, l: L)
    ensures l in LangMap(m, vs) <==> exists i :: 0 <= i < |vs| && Recognised(m, vs[i], l)
    ensures l in LangMap(m, vs) ==>
      exists i :: (0 <= i < |vs| && Recognised(m, vs[i], l) && LangMap(m, vs)[l] == vs[i].text
                   && forall j :: i < j < |vs| ==> !Recognised(m, vs[j], l))
    decreases |vs|
  {
    if vs != [] {
      var n := |vs| - 1;
      var prefix := vs[..n];
      LangMapLastWins(m, prefix, l);
      assert forall i :: 0 <= i < n ==> prefix[i] == vs[i];
      if Recognised(m, vs[n], l) {
        assert LangMap(m, vs)[l] == vs[n].text;
      } else if l in LangMap(m, prefix) {
        var i :| 0 <= i < |prefix| && Recognised(m, prefix[i], l) && LangMap(m, prefix)[l] == prefix[i].text
          && forall j :: i < j < |prefix| ==> !Recognised(m, prefix[j], l);
        assert LangMap(m, vs)[l] == vs[i].text;
      }
    }
  }

  /** A key is in the table iff some translation has it; its map is that of the last such translation. */
  lemma {:induction false} BuildTableLastWins<L>(m: Mapper<L>, ts: seq<Translation>, key: string)
    ensures key in BuildTable(m, ts) <==> exists i :: 0 <= i < |ts| && ts[i].key == key
    ensures key in BuildTable(m, ts) ==>
      exists i :: (0 <= i < |ts| && ts[i].key == key && BuildTable(m, ts)[key] == LangMap(m, ts[i].values)
                   && forall j :: i < j < |ts| ==> ts[j].key != key)
    decreases |ts|
  {
    if ts != [] {
      var n := |ts| - 1;
      var prefix := ts[..n];
      BuildTableLastWins(m, prefix, key);
      var table := BuildTable(m, ts);
      assert table == BuildTable(m, prefix)[ts[n].key := LangMap(m, ts[n].values)];
      if ts[n].key != key {
        if key in table {
          var i :| 0 <= i < |prefix| && prefix[i].key == key && BuildTable(m, prefix)[key] == LangMap(m, prefix[i].values)
            && forall j :: i < j < |prefix| ==> prefix[j].key != key;
          assert prefix[i] == ts[i];
          forall j | i < j < |ts| ensures ts[j].key != key {
            if j < n {
              assert prefix[j] == ts[j];
            }
          }
        } else {
          forall i | 0 <= i < |ts| ensures ts[i].key != key {
            if i < n {
              assert prefix[i] == ts[i];
            }
          }
        }
      }
    }
  }

  /** HasLocalized: not blank, and the lower-cased key is a stored key. */
  predicate HasLocalizedIn<L>(table: map<string, map<L, string>>, key: Option<string>) {
    !IsNullOrWhiteSpace(key) && Lower(key.value) in table
  }

  /** GetLocalized(key, language): "" for a blank key, the stored text when there is one, otherwise the lower-cased key. */
  function LocalizedIn<L(==)>(table: map<string, map<L, string>>, key: Option<string>, language: L): string {
    if IsNullOrWhiteSpace(key) then ""
    else
      var lower := Lower(key.value);
      if lower in table && language in table[lower] then table[lower][language] else lower
  }

  /**
   * A blank key gives ""; a key with text in the asked language comes back translated;
   * any other key, stored or not, comes back lower-cased.
   */
  lemma LocalizedFallback<L>(table: map<string, map<L, string>>, key: Option<string>, language: L)
    ensures IsNullOrWhiteSpace(key) ==> !HasLocalizedIn(table, key) && LocalizedIn(table, key, language) == ""
    ensures !IsNullOrWhiteSpace(key) && !HasLocalizedIn(table, key) ==> LocalizedIn(table, key, language) == Lower(key.value)
    ensures HasLocalizedIn(table, key) && language in table[Lower(key.value)] ==>
      LocalizedIn(table, key, language) == table[Lower(key.value)][language]
    ensures HasLocalizedIn(table, key) && language !in table[Lower(key.value)] ==>
      LocalizedIn(table, key, language) == Lower(key.value)
  {
  }

  /** End to end: after Register(ts), a non-blank key finds the text of the last recognised value of the last translation stored under its lower-cased form. */
  lemma RegisteredLookup<L>(m: Mapper<L>, ts: seq<Translation>, key: string, language: L, i: nat, j: nat)
    requires !IsNullOrWhiteSpace(Some(key))
    requires i < |ts| && ts[i].key == Lower(key) && forall k :: i < k < |ts| ==> ts[k].key != Lower(key)
    requires j < |ts[i].values| && Recognised(m, ts[i].values[j], language)
    requires forall k :: j < k < |ts[i].values| ==> !Recognised(m, ts[i].values[k], language)
    ensures HasLocalizedIn(BuildTable(m, ts), Some(key))
    ensures LocalizedIn(BuildTable(m, ts), Some(key), language) == ts[i].values[j].text
  {
    var table := BuildTable(m, ts);
    BuildTableLastWins(m, ts, Lower(key));
    var i' :| 0 <= i' < |ts| && ts[i'].key == Lower(key) && table[Lower(key)] == LangMap(m, ts[i'].values)
      && forall k :: i' < k < |ts| ==> ts[k].key != Lower(key);
    assert i' == i;
    var vs := ts[i].values;
    LangMapLastWins(m, vs, language);
    var j' :| 0 <= j' < |vs| && Recognised(m, vs[j'], language) && LangMap(m, vs)[language] == vs[j'].text
      && forall k :: j' < k < |vs| ==> !Recognised(m, vs[k], language);
    assert j' == j;
  }

  /** After Register(ts), a non-blank key that no translation carries in lower-cased form is not localized and comes back lower-cased. */
  lemma UnregisteredLookup<L>(m: Mapper<L>, ts: seq<Translation>, key: string, language: L)
    requires !IsNullOrWhiteSpace(Some(key))
    requires forall k :: 0 <= k < |ts| ==> ts[k].key != Lower(key)
    ensures !HasLocalizedIn(BuildTable(m, ts), Some(key))
    ensures LocalizedIn(BuildTable(m, ts), Some(key), language) == Lower(key)
  {
    BuildTableLastWins(m, ts, Lower(key));
  }

  /** Keys are stored verbatim but looked up lower-cased: a stored key holding an upper-case letter can be dropped without changing any lookup. */
  lemma UpperCaseKeyNeverFound<L>(table: map<string, map<L, string>>, stored: string, i: nat, key: Option<string>, language: L)
    requires i < |stored| && IsAsciiUpper(stored[i])
    ensures HasLocalizedIn(table, key) <==> HasLocalizedIn(table - {stored}, key)
    ensures LocalizedIn(table, key, language) == LocalizedIn(table - {stored}, key, language)
  {
    if key.Some? {
      LowerHasNoUpper(key.value);
      if i < |Lower(key.value)| {
        assert !IsAsciiUpper(Lower(key.value)[i]);
      }
    }
  }

  // ---- the service ----

  class LocalizationService<L(==)> {
    var currentLanguage: L
    /** The HashSet of registered ILocalizedText components. */
    var registeredTexts: set<TextId>
    var translations: map<string, map<L, string>>
    /** The UpdateText calls made on registered components, in order. */
    var updates: seq<TextId>
    const persistence: LanguagePersistence<L>

    constructor (persistence: LanguagePersistence<L>, system: SystemLanguage)
      modifies persistence.store
      ensures this.persistence == persistence
      ensures Loaded(currentLanguage, persistence.store.entries) == LoadOrDetectSpec(persistence.mapper, old(persistence.store.entries), system)
      ensures registeredTexts == {} && translations == map[] && updates == []
    {
      this.persistence := persistence;
      var language := persistence.LoadOrDetect(system);
      currentLanguage := language;
      registeredTexts, translations, updates := {}, map[], [];
    }

    /** The constructor: a null mapper is an ArgumentNullException; otherwise the language is loaded or detected. */
    static method Create(mapper: Option<Mapper<L>>, store: LanguagePrefs, system: SystemLanguage)
      returns (r: Result<LocalizationService<L>, LocalizationError>)
      modifies store
      ensures mapper.None? <==> r.Failure?
      ensures mapper.None? ==> store.entries == old(store.entries)
      ensures r.Success? ==> && fresh(r.value) && r.value.persistence.store == store
                              && r.value.registeredTexts == {} && r.value.translations == map[] && r.value.updates == []
                              && Loaded(r.value.currentLanguage, store.entries) == LoadOrDetectSpec(mapper.value, old(store.entries), system)
    {
      var p := LanguagePersistence.Create(mapper, store);
      if p.Failure? {
        return Failure(p.error);
      }
      var service := new LocalizationService(p.value, system);
      return Success(service);
    }

    /** Register(component): a set insertion, so duplicates are absorbed. */
    method RegisterText(component: TextId)
      modifies this
      ensures registeredTexts == old(registeredTexts) + {component}
      ensures translations == old(translations) && currentLanguage == old(currentLanguage) && updates == old(updates)
    {
      registeredTexts := registeredTexts + {component};
    }

    /** Unregister(component): a set deletion, so removing an absent one changes nothing. */
    method UnregisterText(component: TextId)
      modifies this
      ensures registeredTexts == old(registeredTexts) - {component}
      ensures translations == old(translations) && currentLanguage == old(currentLanguage) && updates == old(updates)
    {
      registeredTexts := registeredTexts - {component};
    }

    /** BatchUpdate: UpdateText once on every registered component, in the set's order. */
    method BatchUpdate()
      modifies this
      ensures registeredTexts == old(registeredTexts) && translations == old(translations) && currentLanguage == old(currentLanguage)
      ensures |old(updates)| <= |updates| && updates[..|old(updates)|] == old(updates)
      ensures multiset(updates[|old(updates)|..]) == multiset(registeredTexts)
    {
      var remaining := registeredTexts;
      ghost var n := |updates|;
      while remaining != {}
        invariant registeredTexts == old(registeredTexts) && translations == old(translations) && currentLanguage == old(currentLanguage)
        invariant n == |old(updates)| <= |updates| && updates[..n] == old(updates)
        invariant remaining <= registeredTexts
        invariant multiset(updates[n..]) + multiset(remaining) == multiset(registeredTexts)
        decreases |remaining|
      {
        var text :| text in remaining;
        assert (updates + [text])[n..] == updates[n..] + [text];
        assert multiset(remaining - {text}) + multiset{text} == multiset(remaining);
        updates := updates + [text];
        remaining := remaining - {text};
      }
    }

    /** Register(translations): the table is rebuilt from scratch, then every registered text is updated. */
    method RegisterTranslations(ts: seq<Translation>)
      modifies this
      ensures translations == BuildTable(persistence.mapper, ts)
      ensures registeredTexts == old(registeredTexts) && currentLanguage == old(currentLanguage)
      ensures |old(updates)| <= |updates| && updates[..|old(updates)|] == old(updates)
      ensures multiset(updates[|old(updates)|..]) == multiset(registeredTexts)
    {
      var m := persistence.mapper;
      translations := map[];
      for i := 0 to |ts|
        invariant registeredTexts == old(registeredTexts) && currentLanguage == old(currentLanguage) && updates == old(updates)
        invariant translations == BuildTable(m, ts[..i])
      {
        var vs := ts[i].values;
        var langMap := map[];
        for j := 0 to |vs|
          invariant langMap == LangMap(m, vs[..j])
        {
          assert vs[..j + 1][..j] == vs[..j];
          if vs[j].lang in m.languages {
            langMap := langMap[m.languages[vs[j].lang] := vs[j].text];
          }
        }
        assert vs[..|vs|] == vs;
        assert ts[..i + 1][..i] == ts[..i];
        translations := translations[ts[i].key := langMap];
      }
      assert ts[..|ts|] == ts;
      BatchUpdate();
    }

    /** ChangeLanguage: the current language changes nothing; another is set, saved, and every registered text is updated. */
    method ChangeLanguage(language: L)
      modifies this, persistence.store
      ensures registeredTexts == old(registeredTexts) && translations == old(translations)
      ensures language == old(currentLanguage) ==>
        currentLanguage == old(currentLanguage) && updates == old(updates) && persistence.store.entries == old(persistence.store.entries)
      ensures language != old(currentLanguage) ==>
        && currentLanguage == language
        && persistence.store.entries == SaveLanguage(persistence.mapper, old(persistence.store.entries), language)
        && |old(updates)| <= |updates| && updates[..|old(updates)|] == old(updates)
        && multiset(updates[|old(updates)|..]) == multiset(registeredTexts)
    {
      if language == currentLanguage {
        return;
      }
      currentLanguage := language;
      var _ := persistence.Save(currentLanguage);
      BatchUpdate();
    }

    function HasLocalized(key: Option<string>): bool
      reads this
    {
      HasLocalizedIn(translations, key)
    }

    /** GetLocalized(key): in the current language. */
    function GetLocalized(key: Option<string>): string
      reads this
    {
      LocalizedIn(translations, key, currentLanguage)
    }

    function GetLocalizedIn(key: Option<string>, language: L): string
      reads this
    {
      LocalizedIn(translations, key, language)
    }
  }
}
