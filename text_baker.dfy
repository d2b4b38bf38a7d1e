/**
 * The code-point selection of the CJK font-atlas baker window: a table of named inclusive
 * Unicode ranges, option flags that pick ranges and word lists, and the checks made before
 * a font asset is written. Code points are collected into a set, so repeats are absorbed.
 */
module FontBaking {
  import opened Wrappers

  /** An inclusive range of code points. */
  datatype Range = Range(start: int, end: int)

  /** A UTF-16 code unit: a word list is enumerated char by char. */
  type Utf16Unit = x: int | 0 <= x < 0x1_0000

  const KsX1001Hangul := "KS X 1001 Hangul"
  const FullHangulSyllables := "Full Hangul Syllables (KS1001 included)"
  const HangulJamo := "Hangul Jamo"
  const HangulCompatibilityJamo := "Hangul Compatibility Jamo"
  const HangulJamoExtendedA := "Hangul Jamo Extended-A"
  const HangulJamoExtendedB := "Hangul Jamo Extended-B"
  const Hiragana := "Hiragana"
  const Katakana := "Katakana"
  const KatakanaPhoneticExt := "KatakanaPhoneticExt"
  const Common3500 := "Common 3500"
  const Common7000 := "Common 7000"
  const CjkUnified := "CJK Unified Ideographs"
  const CjkExtensionB := "CJK Unified Ideographs Extension B"
  const CjkCompatibility := "CJK Compatibility Ideographs"
  const CjkCompatibilitySupplement := "CJK Compatibility Ideographs Supplement"
  const CjkRadicals := "CJK Radicals Supplement"

  const FullHangulRange := Range(0xAC00, 0xD7A3)
  const HangulJamoRange := Range(0x1100, 0x11FF)
  const HangulCompatibilityJamoRange := Range(0x3130, 0x318F)
  const HangulJamoExtendedARange := Range(0xA960, 0xA97F)
  const HangulJamoExtendedBRange := Range(0xD7B0, 0xD7FF)
  const HiraganaRange := Range(0x3040, 0x309F)
  const KatakanaRange := Range(0x30A0, 0x30FF)
  const KatakanaPhoneticExtRange := Range(0x31F0, 0x31FF)
  const CjkUnifiedRange := Range(0x4E00, 0x9FBF)
  const CjkExtensionBRange := Range(0x20000, 0x2A6DF)
  const CjkCompatibilityRange := Range(0xF900, 0xFAFF)
  const CjkCompatibilitySupplementRange := Range(0x2F800, 0x2FA1F)
  const CjkRadicalsRange := Range(0x2E80, 0x2EFF)
  /** The entry of an option that loads a word list instead of a range. */
  const Placeholder := Range(0x0000, 0x0000)

  /** The predefined ranges, by name. */
  function PredefinedRanges(): map<string, Range> {
    map[
      KsX1001Hangul := Placeholder,
      FullHangulSyllables := FullHangulRange,
      HangulJamo := HangulJamoRange,
      HangulCompatibilityJamo := HangulCompatibilityJamoRange,
      HangulJamoExtendedA := HangulJamoExtendedARange,
      HangulJamoExtendedB := HangulJamoExtendedBRange,
      Hiragana := HiraganaRange,
      Katakana := KatakanaRange,
      KatakanaPhoneticExt := KatakanaPhoneticExtRange,
      Common3500 := Placeholder,
      Common7000 := Placeholder,
      CjkUnified := CjkUnifiedRange,
      CjkExtensionB := CjkExtensionBRange,
      CjkCompatibility := CjkCompatibilityRange,
      CjkCompatibilitySupplement := CjkCompatibilitySupplementRange,
      CjkRadicals := CjkRadicalsRange
    ]
  }

  /**
   * The lookups GenerateAtlases makes: each name it passes on is in the table with its
   * range, and every such range is a real one (0 < start <= end).
   */
  lemma RangeLookups()
    ensures var t := PredefinedRanges();
      && FullHangulSyllables in t && t[FullHangulSyllables] == FullHangulRange
      && HangulJamo in t && t[HangulJamo] == HangulJamoRange
      && HangulCompatibilityJamo in t && t[HangulCompatibilityJamo] == HangulCompatibilityJamoRange
      && HangulJamoExtendedA in t && t[HangulJamoExtendedA] == HangulJamoExtendedARange
      && HangulJamoExtendedB in t && t[HangulJamoExtendedB] == HangulJamoExtendedBRange
      && Hiragana in t && t[Hiragana] == HiraganaRange
      && Katakana in t && t[Katakana] == KatakanaRange
      && KatakanaPhoneticExt in t && t[KatakanaPhoneticExt] == KatakanaPhoneticExtRange
      && CjkUnified in t && t[CjkUnified] == CjkUnifiedRange
      && CjkExtensionB in t && t[CjkExtensionB] == CjkExtensionBRange
      && CjkCompatibility in t && t[CjkCompatibility] == CjkCompatibilityRange
      && CjkCompatibilitySupplement in t && t[CjkCompatibilitySupplement] == CjkCompatibilitySupplementRange
      && CjkRadicals in t && t[CjkRadicals] == CjkRadicalsRange
    ensures forall r :: (r in [FullHangulRange, HangulJamoRange, HangulCompatibilityJamoRange, HangulJamoExtendedARange,
                               HangulJamoExtendedBRange, HiraganaRange, KatakanaRange, KatakanaPhoneticExtRange, CjkUnifiedRange,
                               CjkExtensionBRange, CjkCompatibilityRange, CjkCompatibilitySupplementRange, CjkRadicalsRange])
                        ==> 0 < r.start <= r.end
  {
  }

  /** The three word-list options have the (0, 0) placeholder, which is never passed on. */
  lemma PlaceholderEntries()
    ensures var t := PredefinedRanges();
      && KsX1001Hangul in t && t[KsX1001Hangul] == Placeholder
      && Common3500 in t && t[Common3500] == Placeholder
      && Common7000 in t && t[Common7000] == Placeholder
  {
  }

  /** x is a code point of the range, both ends included; no point when start > end. */
  predicate InRange(range: Range, x: int) {
    range.start <= x <= range.end
  }

  /** x is one of the code units of a word list. */
  predicate InText(text: seq<Utf16Unit>, x: int) {
    exists i :: 0 <= i < |text| && text[i] as int == x
  }

  /** The contents of the word lists loaded from Resources (empty when a list is missing). */
  datatype WordLists = WordLists(korean2350: seq<Utf16Unit>, chinese3500: seq<Utf16Unit>, chinese7000: seq<Utf16Unit>)

  /** The language toggles. */
  datatype Languages = Languages(chinese: bool, japanese: bool, korean: bool)

  datatype CjkOptions = CjkOptions(unified: bool, extensionB: bool, compatibility: bool, compatibilitySupplement: bool, radicals: bool)

  datatype KoreanOptions = KoreanOptions(ks1001: bool, fullHangul: bool, jamo: bool, compatibilityJamo: bool, jamoExtendedA: bool, jamoExtendedB: bool)

  datatype JapaneseOptions = JapaneseOptions(hiragana: bool, katakana: bool, katakanaPhoneticExt: bool)

  datatype ChineseOptions = ChineseOptions(common3500: bool, common7000: bool)

  /** The window's option toggles. */
  datatype Selection = Selection(languages: Languages, cjk: CjkOptions, korean: KoreanOptions, japanese: JapaneseOptions, chinese: ChineseOptions)

  const NoKorean := KoreanOptions(false, false, false, false, false, false)
  const NoJapanese := JapaneseOptions(false, false, false)
  const NoChinese := ChineseOptions(false, false)
  const NothingSelected := Selection(Languages(false, false, false), CjkOptions(false, false, false, false, false), NoKorean, NoJapanese, NoChinese)

  predicate KoreanSelects(o: KoreanOptions, words: WordLists, x: int) {
    || (o.ks1001 && InText(words.korean2350, x))
    || (o.fullHangul && InRange(FullHangulRange, x))
    || (o.jamo && InRange(HangulJamoRange, x))
    || (o.compatibilityJamo && InRange(HangulCompatibilityJamoRange, x))
    || (o.jamoExtendedA && InRange(HangulJamoExtendedARange, x))
    || (o.jamoExtendedB && InRange(HangulJamoExtendedBRange, x))
  }

  predicate JapaneseSelects(o: JapaneseOptions, x: int) {
    || (o.hiragana && InRange(HiraganaRange, x))
    || (o.katakana && InRange(KatakanaRange, x))
    || (o.katakanaPhoneticExt && InRange(KatakanaPhoneticExtRange, x))
  }

  predicate ChineseSelects(o: ChineseOptions, words: WordLists, x: int) {
    (o.common3500 && InText(words.chinese3500, x)) || (o.common7000 && InText(words.chinese7000, x))
  }

  predicate CjkSelects(o: CjkOptions, x: int) {
    || (o.unified && InRange(CjkUnifiedRange, x))
    || (o.extensionB && InRange(CjkExtensionBRange, x))
    || (o.compatibility && InRange(CjkCompatibilityRange, x))
    || (o.compatibilitySupplement && InRange(CjkCompatibilitySupplementRange, x))
    || (o.radicals && InRange(CjkRadicalsRange, x))
  }

  predicate AnyLanguage(l: Languages) {
    l.chinese || l.japanese || l.korean
  }

  /** The code points GenerateAtlases requests: the union of the enabled ranges and word lists, each gated by its language. */
  predicate Selected(sel: Selection, words: WordLists, x: int) {
    || (sel.languages.korean && KoreanSelects(sel.korean, words, x))
    || (sel.languages.japanese && JapaneseSelects(sel.japanese, x))
    || (sel.languages.chinese && ChineseSelects(sel.chinese, words, x))
    || (AnyLanguage(sel.languages) && CjkSelects(sel.cjk, x))
  }

  /**
   * A language's sub-options contribute only while its language toggle is on, and with
   * no language toggled on nothing at all is selected (the CJK ranges included).
   */
  lemma GatedByLanguage(sel: Selection, words: WordLists, x: int)
    ensures !sel.languages.korean ==> (Selected(sel, words, x) <==> Selected(sel.(korean := NoKorean), words, x))
    ensures !sel.languages.japanese ==> (Selected(sel, words, x) <==> Selected(sel.(japanese := NoJapanese), words, x))
    ensures !sel.languages.chinese ==> (Selected(sel, words, x) <==> Selected(sel.(chinese := NoChinese), words, x))
    ensures !AnyLanguage(sel.languages) ==> !Selected(sel, words, x)
  {
  }

  /** Every selected code point lies between U+0000 and U+2FA1F, the end of the last range in the table. */
  lemma SelectedBounded(sel: Selection, words: WordLists, x: int)
    requires Selected(sel, words, x)
    ensures 0 <= x <= 0x2FA1F
  {
  }

  /** Turning a toggle on never removes a code point. */
  lemma SelectedMonotone(sel: Selection, words: WordLists, x: int)
    requires Selected(sel, words, x)
    ensures Selected(sel.(languages := sel.languages.(korean := true)), words, x)
    ensures Selected(sel.(cjk := sel.cjk.(unified := true)), words, x)
    ensures Selected(sel.(chinese := sel.chinese.(common7000 := true)), words, x)
  {
  }

  /** AddCharactersFromRange: the for loop from start to end inclusive, adding each integer. */
  method AddCharactersFromRange(range: Range, characters: set<int>) returns (r: set<int>)
    ensures forall x :: x in r <==> x in characters || InRange(range, x)
  {
    r := characters;
    var i := range.start;
    while i <= range.end
      invariant range.start <= i <= range.end + 1 || i == range.start
      invariant forall x :: x in r <==> x in characters || range.start <= x < i
      decreases range.end - i
    {
      r := r + {i};
      i := i + 1;
    }
  }

  /** The foreach over a loaded word list, adding each char. */
  method AddCharactersFromText(text: seq<Utf16Unit>, characters: set<int>) returns (r: set<int>)
    ensures forall x :: x in r <==> x in characters || InText(text, x)
  {
    r := characters;
    for k := 0 to |text|
      invariant forall x :: x in r <==> x in characters || exists i :: 0 <= i < k && text[i] as int == x
    {
      r := r + {text[k] as int};
    }
  }

  /** The Korean block of GenerateAtlases. */
  method AddKorean(o: KoreanOptions, words: WordLists, codePoints: set<int>) returns (r: set<int>)
    ensures forall x :: x in r <==> x in codePoints || KoreanSelects(o, words, x)
  {
    RangeLookups();
    var ranges := PredefinedRanges();
    r := codePoints;
    if o.ks1001 {
      r := AddCharactersFromText(words.korean2350, r);
    }
    if o.fullHangul {
      r := AddCharactersFromRange(ranges[FullHangulSyllables], r);
    }
    if o.jamo {
      r := AddCharactersFromRange(ranges[HangulJamo], r);
    }
    if o.compatibilityJamo {
      r := AddCharactersFromRange(ranges[HangulCompatibilityJamo], r);
    }
    if o.jamoExtendedA {
      r := AddCharactersFromRange(ranges[HangulJamoExtendedA], r);
    }
    if o.jamoExtendedB {
      r := AddCharactersFromRange(ranges[HangulJamoExtendedB], r);
    }
  }

  /** The Japanese block of GenerateAtlases. */
  method AddJapanese(o: JapaneseOptions, codePoints: set<int>) returns (r: set<int>)
    ensures forall x :: x in r <==> x in codePoints || JapaneseSelects(o, x)
  {
    RangeLookups();
    var ranges := PredefinedRanges();
    r := codePoints;
    if o.hiragana {
      r := AddCharactersFromRange(ranges[Hiragana], r);
    }
    if o.katakana {
      r := AddCharactersFromRange(ranges[Katakana], r);
    }
    if o.katakanaPhoneticExt {
      r := AddCharactersFromRange(ranges[KatakanaPhoneticExt], r);
    }
  }

  /** The Chinese block of GenerateAtlases: the word lists only. */
  method AddChinese(o: ChineseOptions, words: WordLists, codePoints: set<int>) returns (r: set<int>)
    ensures forall x :: x in r <==> x in codePoints || ChineseSelects(o, words, x)
  {
    r := codePoints;
    if o.common3500 {
      r := AddCharactersFromText(words.chinese3500, r);
    }
    if o.common7000 {
      r := AddCharactersFromText(words.chinese7000, r);
    }
  }

  /** The CJK block of GenerateAtlases. */
  method AddCjk(o: CjkOptions, codePoints: set<int>) returns (r: set<int>)
    ensures forall x :: x in r <==> x in codePoints || CjkSelects(o, x)
  {
    RangeLookups();
    var ranges := PredefinedRanges();
    r := codePoints;
    if o.unified {
      r := AddCharactersFromRange(ranges[CjkUnified], r);
    }
    if o.extensionB {
      r := AddCharactersFromRange(ranges[CjkExtensionB], r);
    }
    if o.compatibility {
      r := AddCharactersFromRange(ranges[CjkCompatibility], r);
    }
    if o.compatibilitySupplement {
      r := AddCharactersFromRange(ranges[CjkCompatibilitySupplement], r);
    }
    if o.radicals {
      r := AddCharactersFromRange(ranges[CjkRadicals], r);
    }
  }

  // ---- the output path ----

  /** string.StartsWith(prefix), compared ordinally. */
  predicate StartsWith(s: string, prefix: string) {
    |prefix| <= |s| && s[..|prefix|] == prefix
  }

  /** A path that Path.Combine treats as rooted. */
  predicate Rooted(path: string) {
    |path| > 0 && (path[0] == '/' || path[0] == '\\')
  }

  /** Path.Combine(folder, file) with '/' as the directory separator. */
  function CombinePath(folder: string, file: string): string {
    if Rooted(file) then file
    else if |folder| > 0 && (folder[|folder| - 1] == '/' || folder[|folder| - 1] == '\\') then folder + file
    else folder + "/" + file
  }

  const AssetsFolder := "Assets"

  /** A file name that is not rooted, under a folder that starts with "Assets", passes the inside-Assets check. */
  lemma CombineUnderAssets(folder: string, file: string)
    requires StartsWith(folder, AssetsFolder) && !Rooted(file)
    ensures StartsWith(CombinePath(folder, file), AssetsFolder)
  {
    var p := CombinePath(folder, file);
    assert p[..|AssetsFolder|] == folder[..|AssetsFolder|];
  }

  /** A folder picked with Browse under the data path, with a file name that is not rooted, passes the check. */
  lemma BrowsedFolderUnderAssets(selectedPath: string, dataPath: string, file: string)
    requires StartsWith(selectedPath, dataPath) && !Rooted(file)
    ensures StartsWith(CombinePath(AssetsFolder + selectedPath[|dataPath|..], file), AssetsFolder)
  {
    var folder := AssetsFolder + selectedPath[|dataPath|..];
    assert folder[..|AssetsFolder|] == AssetsFolder;
    CombineUnderAssets(folder, file);
  }

  datatype BakeError = NoTargetFont | NoOutputPath | OutsideAssets

  class TextBakerWindow {
    /** The Target Font field is assigned. */
    var hasTargetFont: bool
    var selection: Selection
    var outputFolderPath: string
    var outputFileName: string

    /** A new window: no font, nothing selected, output "Assets" / "GeneratedFont.asset". */
    constructor ()
      ensures !hasTargetFont && selection == NothingSelected
      ensures outputFolderPath == AssetsFolder && outputFileName == "GeneratedFont.asset"
    {
      hasTargetFont, selection := false, NothingSelected;
      outputFolderPath, outputFileName := AssetsFolder, "GeneratedFont.asset";
    }

    /**
     * DrawChineseOptions: the two radio toggles return shown3500 and shown7000; turning one
     * on turns the other off, the second toggle having the last word.
     */
    method DrawChineseOptions(shown3500: bool, shown7000: bool)
      modifies this
      ensures !(selection.chinese.common3500 && selection.chinese.common7000)
      ensures selection == old(selection).(chinese := ChineseOptions(shown3500 && !shown7000, shown7000))
      ensures hasTargetFont == old(hasTargetFont) && outputFolderPath == old(outputFolderPath) && outputFileName == old(outputFileName)
    {
      var c3500 := shown3500;
      var c7000 := selection.chinese.common7000;
      if c3500 {
        c7000 := false;
      }
      c7000 := shown7000;
      if c7000 {
        c3500 := false;
      }
      selection := selection.(chinese := ChineseOptions(c3500, c7000));
    }

    /**
     * The Browse button: a folder chosen under the project's data path is rewritten as
     * "Assets" followed by the rest of the path; a cancelled (empty) choice changes nothing.
     */
    method Browse(selectedPath: string, dataPath: string)
      modifies this
      ensures selectedPath == "" ==> outputFolderPath == old(outputFolderPath)
      ensures selectedPath != "" && StartsWith(selectedPath, dataPath) ==>
        outputFolderPath == AssetsFolder + selectedPath[|dataPath|..]
      ensures selectedPath != "" && !StartsWith(selectedPath, dataPath) ==> outputFolderPath == selectedPath
      ensures hasTargetFont == old(hasTargetFont) && selection == old(selection) && outputFileName == old(outputFileName)
    {
      if selectedPath != "" {
        var path := selectedPath;
        if StartsWith(path, dataPath) {
          path := AssetsFolder + path[|dataPath|..];
        }
        outputFolderPath := path;
      }
    }

    /** The part of GenerateAtlases that fills the code-point set. */
    method CollectCodePoints(words: WordLists) returns (codePoints: set<int>)
      ensures forall x :: x in codePoints <==> Selected(selection, words, x)
    {
      var sel := selection;
      codePoints := {};
      if sel.languages.korean {
        codePoints := AddKorean(sel.korean, words, codePoints);
      }
      if sel.languages.japanese {
        codePoints := AddJapanese(sel.japanese, codePoints);
      }
      if sel.languages.chinese {
        codePoints := AddChinese(sel.chinese, words, codePoints);
      }
      if AnyLanguage(sel.languages) {
        codePoints := AddCjk(sel.cjk, codePoints);
      }
    }

    /**
     * GenerateAtlases up to the point where the asset is saved: the checks in order, and
     * the set of code points requested from the font.
     */
    method GenerateAtlases(words: WordLists) returns (r: Result<set<int>, BakeError>)
      ensures !hasTargetFont ==> r == Failure(NoTargetFont)
      ensures hasTargetFont && (outputFolderPath == "" || outputFileName == "") ==> r == Failure(NoOutputPath)
      ensures (hasTargetFont && outputFolderPath != "" && outputFileName != ""
               && !StartsWith(CombinePath(outputFolderPath, outputFileName), AssetsFolder)) ==> r == Failure(OutsideAssets)
      ensures r.Success? <==> (hasTargetFont && outputFolderPath != "" && outputFileName != ""
                               && StartsWith(CombinePath(outputFolderPath, outputFileName), AssetsFolder))
      ensures r.Success? ==> forall x :: x in r.value <==> Selected(selection, words, x)
    {
      if !hasTargetFont {
        return Failure(NoTargetFont);
      }
      if outputFolderPath == "" || outputFileName == "" {
        return Failure(NoOutputPath);
      }
      var codePoints := CollectCodePoints(words);
      var assetPath := CombinePath(outputFolderPath, outputFileName);
      if !StartsWith(assetPath, AssetsFolder) {
        return Failure(OutsideAssets);
      }
      return Success(codePoints);
    }
  }
}
