/** The `Language` record: one loaded translation with its completeness. */
module Languages {
  import opened Wrappers
  import opened Catalogs
  import opened Numerals

  /** A supported language: its directory abbreviation, English name, loaded
      catalog, completeness percentage and optional name in the language itself. */
  datatype Language = Language(
    abbr: string,
    nameEn: string,
    translation: Catalog,
    translationPercent: int,
    translatedLang: Option<string>)
  {
    /** The label shown in language menus: English name, then the percentage in parentheses. */
    function DisplayName(): (r: string)
      ensures |r| >= |nameEn| + 5
      ensures r[..|nameEn|] == nameEn
      ensures r[|nameEn|..|nameEn| + 2] == " ("
      ensures r[|r| - 2..] == "%)"
    {
      nameEn + " (" + IntToString(translationPercent) + "%)"
    }

    /** Whether user input names this language, in English or in the language itself. */
    function IsMatch(candidate: string): (r: bool)
      ensures candidate == nameEn ==> r
      ensures translatedLang == Some(candidate) ==> r
      ensures translatedLang.None? ==> (r <==> candidate == nameEn)
      ensures r ==> candidate == nameEn || translatedLang == Some(candidate)
    {
      if nameEn == candidate then true
      else if translatedLang == Some(candidate) then true
      else false
    }

    /** The value stored when a language is serialised: its English name. */
    function Json(): (r: string)
      ensures IsMatch(r)
      ensures |r| <= |DisplayName()| && DisplayName()[..|r|] == r
    {
      nameEn
    }
  }

  /** The text between the parentheses of a display name reads back as the percentage. */
  lemma DisplayNameShowsPercent(l: Language)
    ensures var r := l.DisplayName();
            var shown := r[|l.nameEn| + 2..|r| - 2];
            shown == IntToString(l.translationPercent)
            && (l.translationPercent >= 0 ==> AllDigits(shown) && DecimalValue(shown) == l.translationPercent)
  {
    var r := l.DisplayName();
    var digits := IntToString(l.translationPercent);
    assert r == l.nameEn + " (" + digits + "%)";
    assert r[|l.nameEn| + 2..|r| - 2] == digits;
  }
}
