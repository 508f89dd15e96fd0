/** The translation handler: discovery of the language directories, loading of
    one `Language` per directory, lookup by name or abbreviation, and the single
    active-language slot that deferred translations read when turned into text. */
module Translations {
  import opened Wrappers
  import opened Seqs
  import opened Catalogs
  import opened Languages

  /** One record of `languages.json`. */
  datatype MappingEntry = MappingEntry(abbr: string, lang: string, translatedLang: Option<string>)

  /** The ways loading the languages fails; each one aborts construction of the handler. */
  datatype LoadError =
    | MissingMapping(directory: string)  // `next` on an empty filter raises StopIteration
    | CatalogNotFound(lang: string)      // the re-raised FileNotFoundError
    | DivisionByZero                     // ZeroDivisionError: `base.pot` has a single msgid line

  /** The ValueError raised by the two registry lookups. */
  datatype LookupError = NoLanguageWithName(name: string) | NoLanguageWithAbbr(abbr: string)

  /** Directory names longer than two characters that still hold a translation. */
  const RegionalCodes: set<string> := {"pt_BR", "zh-CN", "zh-TW"}

  predicate IsTranslationDir(name: string) {
    |name| == 2 || name in RegionalCodes
  }

  /** The directory names `_provided_translations` keeps, in listing order. */
  function KeptDirectories(listing: seq<string>): seq<string> {
    Filter(listing, IsTranslationDir)
  }

  /** The first `languages.json` record for a directory (`next(filter(...))` on the mappings). */
  function FindMapping(mappings: seq<MappingEntry>, abbr: string): (r: Option<MappingEntry>)
    ensures r.Some? ==> r.value.abbr == abbr && r.value in mappings
    ensures r.Some? ==> exists i :: 0 <= i < |mappings| && mappings[i] == r.value
                                    && forall j :: 0 <= j < i ==> mappings[j].abbr != abbr
    ensures r.None? <==> forall e :: e in mappings ==> e.abbr != abbr
  {
    match FindFirst(mappings, (e: MappingEntry) => e.abbr == abbr)
    case None => None
    case Some(i) => Some(mappings[i])
  }

  /** `gettext.translation('base', localedir, languages=(abbr, lang))`: the catalog
      compiled for the abbreviation, else the one for the language name. `available`
      maps a locale directory name to the catalog it holds. */
  function LoadCatalog(available: map<string, Catalog>, abbr: string, lang: string): (r: Result<Catalog, LoadError>)
    ensures abbr in available ==> r == Success(available[abbr])
    ensures abbr !in available && lang in available ==> r == Success(available[lang])
    ensures r.Failure? <==> abbr !in available && lang !in available
    ensures r.Failure? ==> r.error == CatalogNotFound(lang)
  {
    if abbr in available then Success(available[abbr])
    else if lang in available then Success(available[lang])
    else Failure(CatalogNotFound(lang))
  }

  /** Python's `int()` of the exact quotient `a / b`: division truncated toward zero. */
  function TruncDiv(a: nat, b: int): (q: int)
    requires b != 0
    ensures b > 0 ==> 0 <= q && q * b <= a < (q + 1) * b
    ensures b < 0 ==> q <= 0 && -q * -b <= a < (-q + 1) * -b
  {
    if b > 0 then a / b else -(a / -b)
  }

  /** The completeness percentage of a catalog against `total` reference messages. */
  function TranslationPercent(abbr: string, c: Catalog, total: int): (r: Result<int, LoadError>)
    ensures abbr == "en" ==> r == Success(100)
    ensures abbr != "en" ==> (r.Failure? <==> total == 0)
    ensures r.Failure? ==> r.error == DivisionByZero
    ensures abbr != "en" && total > 0 ==> 0 <= r.value <= 100
    ensures abbr != "en" && total > 0 ==>
              (r.value == 100 <==> CatalogSize(c) >= total)
    ensures abbr != "en" && total > 0 && r.value < 100 ==>
              r.value * total <= 100 * CatalogSize(c) < (r.value + 1) * total
    ensures abbr != "en" && total < 0 ==> r.value <= 0
  {
    if abbr == "en" then Success(100)
    else if total == 0 then Failure(DivisionByZero)
    else
      var percent := TruncDiv(100 * CatalogSize(c), total);
      PercentReachesHundred(CatalogSize(c), total);
      Success(if percent < 100 then percent else 100)
  }

  /** The truncated percentage reaches 100 exactly when the count reaches the total. */
  lemma PercentReachesHundred(n: nat, total: int)
    requires total != 0
    ensures total > 0 ==> (TruncDiv(100 * n, total) >= 100 <==> n >= total)
  {
    if total > 0 {
      var q := TruncDiv(100 * n, total);
      if q >= 100 {
        MulMonotone(100, q, total);
      } else {
        MulMonotone(q + 1, 100, total);
      }
    }
  }

  lemma MulMonotone(a: int, b: int, c: nat)
    requires a <= b
    ensures a * c <= b * c
  {
  }

  /** One iteration of the loading loop: the `Language` for one kept directory. */
  function MakeLanguage(total: int, mappings: seq<MappingEntry>, available: map<string, Catalog>,
                        dir: string): (r: Result<Language, LoadError>)
    ensures FindMapping(mappings, dir).None? ==> r == Failure(MissingMapping(dir))
    ensures r.Success? ==> r.value.abbr == dir
    ensures r.Success? ==> FindMapping(mappings, dir).Some?
                           && r.value.nameEn == FindMapping(mappings, dir).value.lang
                           && r.value.translatedLang == FindMapping(mappings, dir).value.translatedLang
    ensures r.Success? && dir == "en" ==> r.value.translationPercent == 100
    ensures r.Success? && total > 0 ==> 0 <= r.value.translationPercent <= 100
    ensures r.Failure? && FindMapping(mappings, dir).Some? ==>
              var e := FindMapping(mappings, dir).value;
              r.error == CatalogNotFound(e.lang) || (dir != "en" && total == 0 && r.error == DivisionByZero)
  {
    match FindMapping(mappings, dir)
    case None => Failure(MissingMapping(dir))
    case Some(e) =>
      match LoadCatalog(available, e.abbr, e.lang)
      case Failure(err) => Failure(err)
      case Success(c) =>
        match TranslationPercent(e.abbr, c, total)
        case Failure(err) => Failure(err)
        case Success(percent) => Success(Language(e.abbr, e.lang, c, percent, e.translatedLang))
  }

  /** When one loop iteration succeeds, and the catalog and percentage the language it builds
      carries. */
  lemma MakeLanguageOutcome(total: int, mappings: seq<MappingEntry>, available: map<string, Catalog>,
                            dir: string)
    ensures var r := MakeLanguage(total, mappings, available, dir);
            var e := FindMapping(mappings, dir);
            (r.Success? <==> e.Some? && LoadCatalog(available, dir, e.value.lang).Success?
                             && (dir == "en" || total != 0))
            && (r.Success? ==>
                  r.value.translation == LoadCatalog(available, dir, e.value.lang).value
                  && TranslationPercent(dir, r.value.translation, total) == Success(r.value.translationPercent))
  {
  }

  /** The languages loaded from the kept directories, in directory order; the first
      directory that cannot be loaded decides the error. */
  function BuildLanguages(total: int, mappings: seq<MappingEntry>, available: map<string, Catalog>,
                          dirs: seq<string>): Result<seq<Language>, LoadError>
  {
    if dirs == [] then Success([])
    else
      match BuildLanguages(total, mappings, available, dirs[..|dirs| - 1])
      case Failure(err) => Failure(err)
      case Success(init) =>
        match MakeLanguage(total, mappings, available, dirs[|dirs| - 1])
        case Failure(err) => Failure(err)
        case Success(l) => Success(init + [l])
  }

  /** A successful load holds one language per directory, in directory order. */
  lemma {:induction false} BuildShape(total: int, mappings: seq<MappingEntry>, available: map<string, Catalog>,
                                      dirs: seq<string>)
    ensures var r := BuildLanguages(total, mappings, available, dirs);
            r.Success? ==>
              |r.value| == |dirs|
              && forall i :: 0 <= i < |dirs| ==>
                   MakeLanguage(total, mappings, available, dirs[i]) == Success(r.value[i])
                   && r.value[i].abbr == dirs[i]
  {
    if dirs != [] {
      var n := |dirs| - 1;
      var init := dirs[..n];
      BuildShape(total, mappings, available, init);
      var r := BuildLanguages(total, mappings, available, dirs);
      if r.Success? {
        var prefix := BuildLanguages(total, mappings, available, init).value;
        var last := MakeLanguage(total, mappings, available, dirs[n]);
        assert r.value == prefix + [last.value];
        forall i | 0 <= i < |dirs|
          ensures MakeLanguage(total, mappings, available, dirs[i]) == Success(r.value[i])
        {
          if i < n {
            assert dirs[i] == init[i] && r.value[i] == prefix[i];
          }
        }
      }
    }
  }

  /** A failed load fails on the first directory that cannot be loaded, with that directory's error. */
  lemma {:induction false} BuildFailure(total: int, mappings: seq<MappingEntry>, available: map<string, Catalog>,
                                        dirs: seq<string>)
    ensures var r := BuildLanguages(total, mappings, available, dirs);
            r.Failure? ==>
              exists i :: 0 <= i < |dirs| && MakeLanguage(total, mappings, available, dirs[i]) == Failure(r.error)
                          && forall j :: 0 <= j < i ==> MakeLanguage(total, mappings, available, dirs[j]).Success?
  {
    if dirs != [] {
      var n := |dirs| - 1;
      var init := dirs[..n];
      BuildFailure(total, mappings, available, init);
      BuildShape(total, mappings, available, init);
      assert forall j :: 0 <= j < n ==> init[j] == dirs[j];
      var r := BuildLanguages(total, mappings, available, dirs);
      var ri := BuildLanguages(total, mappings, available, init);
      if ri.Failure? {
        var i :| 0 <= i < n && MakeLanguage(total, mappings, available, init[i]) == Failure(ri.error)
                 && forall j :: 0 <= j < i ==> MakeLanguage(total, mappings, available, init[j]).Success?;
        assert MakeLanguage(total, mappings, available, dirs[i]) == Failure(r.error);
      } else if r.Failure? {
        assert MakeLanguage(total, mappings, available, dirs[n]) == Failure(r.error);
      }
    }
  }

  /** Loading succeeds exactly when every directory can be loaded on its own. */
  lemma BuildSucceedsIff(total: int, mappings: seq<MappingEntry>, available: map<string, Catalog>,
                         dirs: seq<string>)
    ensures BuildLanguages(total, mappings, available, dirs).Success? <==>
              forall i :: 0 <= i < |dirs| ==> MakeLanguage(total, mappings, available, dirs[i]).Success?
  {
    BuildShape(total, mappings, available, dirs);
    BuildFailure(total, mappings, available, dirs);
  }

  /** Loading one more directory after a successful prefix appends that directory's language
      or stops with its error. */
  lemma BuildStep(total: int, mappings: seq<MappingEntry>, available: map<string, Catalog>,
                  dirs: seq<string>, i: nat)
    requires i < |dirs|
    requires BuildLanguages(total, mappings, available, dirs[..i]).Success?
    ensures var prefix := BuildLanguages(total, mappings, available, dirs[..i]).value;
            BuildLanguages(total, mappings, available, dirs[..i + 1])
              == match MakeLanguage(total, mappings, available, dirs[i])
                 case Failure(err) => Failure(err)
                 case Success(l) => Success(prefix + [l])
  {
    assert dirs[..i + 1][..i] == dirs[..i];
  }

  /** A kept directory with no `languages.json` record makes loading fail; it is not skipped. */
  lemma UnmappedDirectoryIsFatal(total: int, mappings: seq<MappingEntry>, available: map<string, Catalog>,
                                 dirs: seq<string>, dir: string)
    requires dir in dirs
    requires forall e :: e in mappings ==> e.abbr != dir
    ensures BuildLanguages(total, mappings, available, dirs).Failure?
  {
    var i :| 0 <= i < |dirs| && dirs[i] == dir;
    assert MakeLanguage(total, mappings, available, dirs[i]).Failure?;
    BuildSucceedsIff(total, mappings, available, dirs);
  }

  /** Every loaded language has a percentage in [0, 100] once the reference count is
      positive, and English is always complete. */
  lemma LoadedPercentBounds(total: int, mappings: seq<MappingEntry>, available: map<string, Catalog>,
                            dirs: seq<string>)
    ensures var r := BuildLanguages(total, mappings, available, dirs);
            r.Success? ==> forall l :: l in r.value ==>
              (l.abbr == "en" ==> l.translationPercent == 100)
              && (total > 0 ==> 0 <= l.translationPercent <= 100)
  {
    BuildShape(total, mappings, available, dirs);
  }

  /** Every loaded language holds the catalog found for its directory and that catalog's percentage. */
  lemma LoadedCatalogs(total: int, mappings: seq<MappingEntry>, available: map<string, Catalog>,
                       dirs: seq<string>)
    ensures var r := BuildLanguages(total, mappings, available, dirs);
            r.Success? ==> |r.value| == |dirs| && forall i :: 0 <= i < |dirs| ==>
              FindMapping(mappings, dirs[i]).Some?
              && LoadCatalog(available, dirs[i], FindMapping(mappings, dirs[i]).value.lang).Success?
              && r.value[i].translation == LoadCatalog(available, dirs[i], FindMapping(mappings, dirs[i]).value.lang).value
              && TranslationPercent(dirs[i], r.value[i].translation, total) == Success(r.value[i].translationPercent)
  {
    BuildShape(total, mappings, available, dirs);
    var r := BuildLanguages(total, mappings, available, dirs);
    if r.Success? {
      forall i | 0 <= i < |dirs|
        ensures FindMapping(mappings, dirs[i]).Some?
        ensures LoadCatalog(available, dirs[i], FindMapping(mappings, dirs[i]).value.lang).Success?
        ensures r.value[i].translation == LoadCatalog(available, dirs[i], FindMapping(mappings, dirs[i]).value.lang).value
        ensures TranslationPercent(dirs[i], r.value[i].translation, total) == Success(r.value[i].translationPercent)
      {
        MakeLanguageOutcome(total, mappings, available, dirs[i]);
      }
    }
  }

  /** Distinct directory names give languages with distinct abbreviations. */
  lemma LoadedAbbrsDistinct(total: int, mappings: seq<MappingEntry>, available: map<string, Catalog>,
                            listing: seq<string>)
    requires Distinct(listing)
    ensures var r := BuildLanguages(total, mappings, available, KeptDirectories(listing));
            r.Success? ==> forall i, j :: 0 <= i < j < |r.value| ==> r.value[i].abbr != r.value[j].abbr
  {
    FilterDistinct(listing, IsTranslationDir);
    BuildShape(total, mappings, available, KeptDirectories(listing));
  }

  /** A failure found in a prefix of the directories is the failure of the whole load. */
  lemma {:induction false} BuildFailurePersists(total: int, mappings: seq<MappingEntry>,
                                                available: map<string, Catalog>, dirs: seq<string>, k: nat)
    requires k <= |dirs|
    requires BuildLanguages(total, mappings, available, dirs[..k]).Failure?
    ensures BuildLanguages(total, mappings, available, dirs) == BuildLanguages(total, mappings, available, dirs[..k])
    decreases |dirs|
  {
    if k == |dirs| {
      assert dirs[..k] == dirs;
    } else {
      var n := |dirs| - 1;
      assert dirs[..n][..k] == dirs[..k];
      BuildFailurePersists(total, mappings, available, dirs[..n], k);
    }
  }

  /** A marker for translatable text; it is resolved only when turned into a string. */
  datatype DeferredTranslation = DeferredTranslation(message: string) {
    /** `__str__`: the message itself while no language is active, else its lookup
        in the active catalog. */
    function Str(active: Option<Catalog>): (r: string)
      ensures active.None? ==> r == message
      ensures active.Some? && message in active.value ==> r == active.value[message]
      ensures active.Some? && message !in active.value ==> r == message
    {
      match active
      case None => message
      case Some(c) => Gettext(c, message)
    }
  }

  class TranslationHandler {
    /** The reference message count taken from `base.pot`. */
    const totalMessages: int
    /** The loaded languages, in directory order. */
    const translatedLanguages: seq<Language>
    /** The catalog deferred translations resolve through; None until a language is activated. */
    var active: Option<Catalog>

    predicate UniqueNames() {
      forall i, j :: 0 <= i < j < |translatedLanguages| ==>
        translatedLanguages[i].nameEn != translatedLanguages[j].nameEn
    }

    predicate UniqueAbbrs() {
      forall i, j :: 0 <= i < j < |translatedLanguages| ==>
        translatedLanguages[i].abbr != translatedLanguages[j].abbr
    }

    /** Builds the handler from an already computed count and language list; used by Load. */
    constructor (totalMessages: int, languages: seq<Language>)
      ensures this.totalMessages == totalMessages && translatedLanguages == languages
      ensures active == None
      ensures forall m :: Tr(m) == m
    {
      this.totalMessages := totalMessages;
      translatedLanguages := languages;
      active := None;
    }

    /** `TranslationHandler.__init__`: count the reference messages, then load every
        kept directory. `potLines` are the lines of `base.pot`, `mappings` the records of
        `languages.json`, `listing` the names in the locales directory and `available`
        the catalogs present in it. */
    static method Load(potLines: seq<string>, mappings: seq<MappingEntry>, listing: seq<string>,
                       available: map<string, Catalog>) returns (r: Result<TranslationHandler, LoadError>)
      ensures var built := BuildLanguages(TotalActiveMessages(potLines), mappings, available, KeptDirectories(listing));
              (r.Failure? <==> built.Failure?)
              && (r.Failure? ==> r.error == built.error)
              && (r.Success? ==> fresh(r.value)
                                 && r.value.totalMessages == TotalActiveMessages(potLines)
                                 && r.value.translatedLanguages == built.value
                                 && r.value.active == None)
      ensures r.Success? && Distinct(listing) ==> r.value.UniqueAbbrs()
    {
      var total := TotalActiveMessages(potLines);
      var languages :- GetTranslations(total, mappings, listing, available);
      if Distinct(listing) {
        LoadedAbbrsDistinct(total, mappings, available, listing);
      }
      var handler := new TranslationHandler(total, languages);
      return Success(handler);
    }

    /** `_provided_translations`: the names in the locales directory that are two
        characters long or one of the regional codes, in listing order. */
    static method ProvidedTranslations(filenames: seq<string>) returns (translationFiles: seq<string>)
      ensures translationFiles == KeptDirectories(filenames)
      ensures forall name :: name in translationFiles <==>
                name in filenames && (|name| == 2 || name == "pt_BR" || name == "zh-CN" || name == "zh-TW")
    {
      translationFiles := [];
      for i := 0 to |filenames|
        invariant translationFiles == KeptDirectories(filenames[..i])
      {
        FilterSnoc(filenames, i, IsTranslationDir);
        if |filenames[i]| == 2 || filenames[i] in RegionalCodes {
          translationFiles := translationFiles + [filenames[i]];
        }
      }
      assert filenames[..|filenames|] == filenames;
    }

    /** `_get_translations`: one `Language` per kept directory, in order, or the
        error of the first directory that cannot be loaded. */
    static method GetTranslations(total: int, mappings: seq<MappingEntry>, listing: seq<string>,
                                  available: map<string, Catalog>) returns (r: Result<seq<Language>, LoadError>)
      ensures r == BuildLanguages(total, mappings, available, KeptDirectories(listing))
      ensures r.Success? ==> |r.value| == |KeptDirectories(listing)|
                             && forall i :: 0 <= i < |r.value| ==> r.value[i].abbr == KeptDirectories(listing)[i]
    {
      var defined := ProvidedTranslations(listing);
      var languages: seq<Language> := [];
      for i := 0 to |defined|
        invariant BuildLanguages(total, mappings, available, defined[..i]) == Success(languages)
      {
        BuildStep(total, mappings, available, defined, i);
        var shortForm := defined[i];
        var mappingEntry := FindMapping(mappings, shortForm);
        if mappingEntry.None? {
          assert MakeLanguage(total, mappings, available, shortForm) == Failure(MissingMapping(shortForm));
          BuildFailurePersists(total, mappings, available, defined, i + 1);
          return Failure(MissingMapping(shortForm));
        }
        var abbr, lang, translatedLang := mappingEntry.value.abbr, mappingEntry.value.lang, mappingEntry.value.translatedLang;
        var translation := LoadCatalog(available, abbr, lang);
        if translation.Failure? {
          assert MakeLanguage(total, mappings, available, shortForm) == Failure(CatalogNotFound(lang));
          BuildFailurePersists(total, mappings, available, defined, i + 1);
          return Failure(CatalogNotFound(lang));
        }
        var percent := TranslationPercent(abbr, translation.value, total);
        if percent.Failure? {
          assert MakeLanguage(total, mappings, available, shortForm) == Failure(DivisionByZero);
          BuildFailurePersists(total, mappings, available, defined, i + 1);
          return Failure(DivisionByZero);
        }
        var language := Language(abbr, lang, translation.value, percent.value, translatedLang);
        assert MakeLanguage(total, mappings, available, shortForm) == Success(language);
        languages := languages + [language];
      }
      assert defined[..|defined|] == defined;
      BuildShape(total, mappings, available, defined);
      return Success(languages);
    }

    /** `get_language_by_name`: the first language whose English name is `name`. */
    function GetLanguageByName(name: string): (r: Result<Language, LookupError>)
      ensures r.Success? ==> r.value.nameEn == name
      ensures r.Success? ==> exists i :: 0 <= i < |translatedLanguages| && translatedLanguages[i] == r.value
                                         && forall j :: 0 <= j < i ==> translatedLanguages[j].nameEn != name
      ensures r.Failure? <==> forall l :: l in translatedLanguages ==> l.nameEn != name
      ensures r.Failure? ==> r.error == NoLanguageWithName(name)
    {
      match FindFirst(translatedLanguages, (l: Language) => l.nameEn == name)
      case None => Failure(NoLanguageWithName(name))
      case Some(i) => Success(translatedLanguages[i])
    }

    /** `get_language_by_abbr`: the first language whose abbreviation is `abbr`. */
    function GetLanguageByAbbr(abbr: string): (r: Result<Language, LookupError>)
      ensures r.Success? ==> r.value.abbr == abbr
      ensures r.Success? ==> exists i :: 0 <= i < |translatedLanguages| && translatedLanguages[i] == r.value
                                         && forall j :: 0 <= j < i ==> translatedLanguages[j].abbr != abbr
      ensures r.Failure? <==> forall l :: l in translatedLanguages ==> l.abbr != abbr
      ensures r.Failure? ==> r.error == NoLanguageWithAbbr(abbr)
    {
      match FindFirst(translatedLanguages, (l: Language) => l.abbr == abbr)
      case None => Failure(NoLanguageWithAbbr(abbr))
      case Some(i) => Success(translatedLanguages[i])
    }

    /** `activate`: from now on deferred translations resolve through the language's catalog. */
    method Activate(language: Language)
      modifies this`active
      ensures active == Some(language.translation)
      ensures forall m :: Tr(m) == Gettext(language.translation, m)
    {
      active := Some(language.translation);
    }

    /** `tr`: wrap the message in a deferred translation and turn it into text at once. */
    function Tr(message: string): (r: string)
      reads this
      ensures active.None? ==> r == message
      ensures active.Some? ==> r == Gettext(active.value, message)
    {
      DeferredTranslation(message).Str(active)
    }
  }

  /** With unique English names, looking up the stored JSON form of a loaded language gives it back. */
  lemma JsonRoundTrip(h: TranslationHandler, l: Language)
    requires h.UniqueNames()
    requires l in h.translatedLanguages
    ensures h.GetLanguageByName(l.Json()) == Success(l)
  {
    var k :| 0 <= k < |h.translatedLanguages| && h.translatedLanguages[k] == l;
    var r := h.GetLanguageByName(l.Json());
    assert r.Success?;
    var i :| 0 <= i < |h.translatedLanguages| && h.translatedLanguages[i] == r.value
             && forall j :: 0 <= j < i ==> h.translatedLanguages[j].nameEn != l.nameEn;
    assert !(k < i);
  }

  /** With unique abbreviations, every loaded language is found by its abbreviation. */
  lemma AbbrLookupFindsEach(h: TranslationHandler, i: nat)
    requires h.UniqueAbbrs()
    requires i < |h.translatedLanguages|
    ensures h.GetLanguageByAbbr(h.translatedLanguages[i].abbr) == Success(h.translatedLanguages[i])
  {
    var langs := h.translatedLanguages;
    var r := h.GetLanguageByAbbr(langs[i].abbr);
    assert langs[i] in langs;
    var k :| 0 <= k < |langs| && langs[k] == r.value
             && forall j :: 0 <= j < k ==> langs[j].abbr != langs[i].abbr;
    assert !(i < k);
  }

  /** A caller's view: text passes through untranslated until a language is activated,
      then resolves through its catalog and falls back to itself when missing. */
  method ActivationScenario()
  {
    var french := Language("fr", "French", map["Hello" := "Bonjour"], 50, Some("Français"));
    var handler := new TranslationHandler(10, [french]);
    assert handler.Tr("Hello") == "Hello";
    var found := handler.GetLanguageByName("French");
    assert found == Success(french);
    handler.Activate(found.value);
    assert handler.Tr("Hello") == "Bonjour";
    assert handler.Tr("Goodbye") == "Goodbye";
    assert handler.GetLanguageByAbbr("de").Failure?;
  }
}
