# archinstall translation handler, modelled in Dafny

This project models `archinstall/lib/translationhandler.py`: how archinstall loads
its translation catalogs, gives each language a completeness percentage, looks a
language up by English name or abbreviation, and keeps one process-wide active
language that deferred translations (`tr(...)`) read when they are turned into text.

The files read by the handler enter the model as values:

- `base.pot` is a `seq<string>` of lines;
- `languages.json` is a `seq<MappingEntry>` of `{abbr, lang, translatedLang}` records;
- the listing of the locales directory is a `seq<string>`;
- the compiled catalogs present in the locales directory are a `map<string, Catalog>`
  from locale directory name to catalog, where a `Catalog` is the `map<string, string>`
  message table that gettext keeps in `_catalog`.

Modules, one per concern:

- `Wrappers` (`wrappers.dfy`): `Option` and `Result`. `Result` carries the exceptions the Python code raises.
- `Seqs` (`seqs.dfy`): an order-preserving `Filter` and a first-match `FindFirst`. These stand for the list comprehensions and for `next(filter(...))`.
- `Numerals` (`numerals.dfy`): Python's `str()` on integers, with its inverse parse.
- `Catalogs` (`catalogs.dfy`): catalog size, gettext lookup, and the `msgid` line count of `base.pot`.
- `Languages` (`languages.dfy`): the `Language` record and its helpers.
- `Translations` (`translations.dfy`): the percentage rule, the loading loop, and the `TranslationHandler` class.
  The class holds `totalMessages`, `translatedLanguages` and the `active` catalog slot.
  It also has the lookups, `Activate`, and `Tr` / `DeferredTranslation.Str`.

The handler's constructor can raise in `translationhandler.py`. It is therefore modelled as the static
method `TranslationHandler.Load`, which returns `Result<TranslationHandler, LoadError>`.
The process-global `builtins._` override becomes the handler's `active` field. `None` is
the passthrough state set at import time. `Some(catalog)` is the state after `activate`.

Three behaviours of the code that are easy to miss:

- An empty stored translation is returned as the empty string, as `GNUTranslations.gettext` does.
- A reference count of zero only fails (division by zero) for a language other than `en`.
  A negative count (a `base.pot` with no `msgid` line) is not an error and gives a
  non-positive percentage.
- Uniqueness of English names and abbreviations is not enforced by the loader. The lookup
  round-trip lemmas take it as a hypothesis. `Load` establishes unique abbreviations when
  the directory listing has no duplicate names.

## Model

| member | source | states |
|---|---|---|
| `Seqs.FindFirst` | archinstall/lib/translationhandler.py:119 | the index returned is the first element satisfying the test; None exactly when no element does |
| `Seqs.FilterAppend` | archinstall/lib/translationhandler.py:154-159 | filtering keeps listing order: the filter of a concatenation is the concatenation of the filters |
| `Seqs.FilterDistinct` | archinstall/lib/translationhandler.py:154-159 | filtering a listing without duplicates yields a list without duplicates |
| `Numerals.DecimalRoundTrip` | archinstall/lib/translationhandler.py:23 | parsing the decimal text of a number gives back the number |
| `Numerals.IntToString` | archinstall/lib/translationhandler.py:23 | `str(i)`: a leading minus exactly for negative numbers, then digits without a leading zero (unless the number is 0) that parse back to the absolute value |
| `Catalogs.CatalogSize` | archinstall/lib/translationhandler.py:93-101 | the size is the number of entries with non-empty id and non-empty translation, at most the catalog size |
| `Catalogs.CatalogSizeIgnoresUntranslated` | archinstall/lib/translationhandler.py:100 | adding an entry with an empty id, or an empty translation that replaces no translated one, leaves the size unchanged |
| `Catalogs.CatalogSizeCountsTranslated` | archinstall/lib/translationhandler.py:100 | adding a translated entry for an untranslated id raises the size by exactly one |
| `Catalogs.Gettext` | archinstall/lib/translationhandler.py:173 | gettext lookup: the stored translation when the id is present, the message itself when it is absent |
| `Catalogs.MsgidPluralLineCounts` | archinstall/lib/translationhandler.py:110 | a `msgid_plural` line contains `msgid` and is counted |
| `Catalogs.TotalActiveMessages` | archinstall/lib/translationhandler.py:103-112 | the count lies in [-1, number of lines); it is -1 exactly when no line contains `msgid` |
| `Catalogs.TotalActiveMessagesAppend` | archinstall/lib/translationhandler.py:110-112 | one more line raises the count by one exactly when that line contains `msgid` |
| `Languages.Language.DisplayName` | archinstall/lib/translationhandler.py:20-23 | the label starts with the English name followed by " (", and ends with "%)" |
| `Languages.DisplayNameShowsPercent` | archinstall/lib/translationhandler.py:21-23 | the text between the parentheses is `str(percent)` and, for a non-negative percent, parses back to it |
| `Languages.Language.Json` | archinstall/lib/translationhandler.py:32-33 | the JSON form is the English name: `is_match` accepts it and the display label starts with it; `Translations.JsonRoundTrip` proves the lookup by name inverts it |
| `Languages.Language.IsMatch` | archinstall/lib/translationhandler.py:25-30 | the English name and the translated name match; without a translated name only the English name matches; nothing else matches |
| `Translations.FindMapping` | archinstall/lib/translationhandler.py:58 | the first `languages.json` record whose abbreviation is the directory name; None exactly when there is none |
| `Translations.LoadCatalog` | archinstall/lib/translationhandler.py:63-65 | the catalog for the abbreviation, else the one for the language name; CatalogNotFound(lang) exactly when neither exists |
| `Translations.TruncDiv` | archinstall/lib/translationhandler.py:72 | `int()` of the quotient: the floor for a positive divisor, truncation toward zero for a negative one |
| `Translations.TranslationPercent` | archinstall/lib/translationhandler.py:67-74 | `en` is 100; otherwise division by zero exactly when the count is 0; for a positive count the percent lies in [0, 100], is 100 exactly when the catalog size reaches the count, and is otherwise the floor of 100·size/count |
| `Translations.PercentReachesHundred` | archinstall/lib/translationhandler.py:72-74 | for a positive reference count, the truncated percentage reaches 100 exactly when the translated count reaches the reference count, so the clamp only cuts values of at least 100 |
| `Translations.MakeLanguage` | archinstall/lib/translationhandler.py:57-77 | one loop iteration: a missing record fails with MissingMapping; a result has the directory as abbreviation and the record's English and translated names; its percentage is 100 for `en` and in [0, 100] for a positive count; a failure after a record is found is the catalog error or the division error |
| `Translations.MakeLanguageOutcome` | archinstall/lib/translationhandler.py:57-77 | an iteration succeeds exactly when a record exists, a catalog is found for the directory or the record's language name, and the language is `en` or the count is non-zero; the language then holds that catalog and that catalog's `TranslationPercent` |
| `Translations.BuildShape` | archinstall/lib/translationhandler.py:55-81 | a successful load has one language per kept directory, in order, each with that directory as abbreviation |
| `Translations.BuildFailure` | archinstall/lib/translationhandler.py:57-79 | a failed load reports the error of the first directory that cannot be loaded |
| `Translations.BuildSucceedsIff` | archinstall/lib/translationhandler.py:57-79 | loading succeeds exactly when every kept directory loads on its own |
| `Translations.UnmappedDirectoryIsFatal` | archinstall/lib/translationhandler.py:58 | a kept directory without a `languages.json` record makes loading fail instead of being skipped |
| `Translations.LoadedPercentBounds` | archinstall/lib/translationhandler.py:67-74 | every loaded `en` language is at 100 and, with a positive reference count, every percentage lies in [0, 100] |
| `Translations.LoadedCatalogs` | archinstall/lib/translationhandler.py:63-77 | every loaded language holds the catalog found for its directory (the catalog `activate` later resolves through) and that catalog's percentage |
| `Translations.LoadedAbbrsDistinct` | archinstall/lib/translationhandler.py:57-59 | a listing without duplicate names loads languages with distinct abbreviations |
| `Translations.DeferredTranslation.Str` | archinstall/lib/translationhandler.py:166-173 | with no active language the message comes back unchanged; otherwise the stored translation, or the message when the id is missing |
| `Translations.TranslationHandler.constructor` | archinstall/lib/translationhandler.py:180 | a new handler is in passthrough mode: every `Tr(m)` is `m` |
| `Translations.TranslationHandler.Load` | archinstall/lib/translationhandler.py:37-42 | counts the `base.pot` messages, then fails exactly when loading the kept directories fails; otherwise a fresh handler holds the loaded languages, nothing active, and unique abbreviations for a duplicate-free listing |
| `Translations.TranslationHandler.ProvidedTranslations` | archinstall/lib/translationhandler.py:147-159 | keeps a name exactly when its length is 2 or it is `pt_BR`, `zh-CN` or `zh-TW`, in listing order |
| `Translations.TranslationHandler.GetTranslations` | archinstall/lib/translationhandler.py:48-81 | the loop's result equals the load specification: one language per kept directory in order, or the first directory's error |
| `Translations.TranslationHandler.GetLanguageByName` | archinstall/lib/translationhandler.py:114-121 | the first language with that English name; fails with NoLanguageWithName exactly when none has it |
| `Translations.TranslationHandler.GetLanguageByAbbr` | archinstall/lib/translationhandler.py:123-130 | the first language with that abbreviation; fails with NoLanguageWithAbbr exactly when none has it |
| `Translations.TranslationHandler.Activate` | archinstall/lib/translationhandler.py:132-137 | afterwards every `Tr(m)` is the gettext lookup of `m` in the language's catalog |
| `Translations.TranslationHandler.Tr` | archinstall/lib/translationhandler.py:176-177 | passthrough while nothing is active, otherwise the lookup in the active catalog |
| `Translations.JsonRoundTrip` | archinstall/lib/translationhandler.py:32-33 | with unique English names, looking up a language's JSON form by name gives that language back |
| `Translations.AbbrLookupFindsEach` | archinstall/lib/translationhandler.py:123-130 | with unique abbreviations, every loaded language is found by its own abbreviation |

## Left out

- File and directory access is not modelled. This covers opening `base.pot` and `languages.json`, `json.load`, `os.listdir`, and locating the locales directory next to the module (`_get_locales_dir`). Their results are parameters of `Load`.
- Malformed `languages.json` is not modelled. A record always has `abbr` and `lang`, so the KeyError and JSON decoding errors do not arise.
- gettext's catalog loading is reduced to a lookup in the `available` map, first by abbreviation and then by language name. Three parts of it are left out: parsing `.mo` files, expanding locale names (`pt_BR` also trying `pt`), and chaining every catalog found as a fallback of the first.
- `Catalogs.Gettext` is an assumption about gettext, a library outside this file. A present id returns its stored value, and a missing id returns the message. Plural-form keys and fallback translators are not modelled.
- `Translations.TranslationPercent` computes `int((n / total) * 100)` exactly, as the integer quotient of 100·n by total truncated toward zero. `translationhandler.py` uses floating point, which can be one lower than the exact value: in Python `int(29 / 100 * 100)` is 28.
- The `builtins._` override and its identity test against the deferred-translation class are modelled as the explicit `active` field. Concurrent access to that slot is not modelled.
- The `translated_languages` property is just the `translatedLanguages` field.
- The module-level `translation_handler = TranslationHandler()` singleton, created at import, is left out.
