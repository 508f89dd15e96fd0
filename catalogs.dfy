/** The message catalogs read by the translation handler: a compiled gettext
    catalog seen as its message-id table, and the reference `base.pot` file seen
    as its lines. */
module Catalogs {
  import Seqs

  /** A loaded catalog: the table from message id to translated string that a
      gettext translation object keeps. */
  type Catalog = map<string, string>

  /** The message ids that count as translated: non-empty id, non-empty translation. */
  function TranslatedIds(c: Catalog): set<string> {
    set id | id in c && id != "" && c[id] != ""
  }

  /** The number of translated messages of a catalog (`_get_catalog_size`). */
  function CatalogSize(c: Catalog): (n: nat)
    ensures n <= |c|
    ensures n == |set id | id in c && id != "" && c[id] != ""|
  {
    var ids := TranslatedIds(c);
    assert ids <= c.Keys;
    SubsetCardinality(ids, c.Keys);
    |ids|
  }

  lemma {:induction false} SubsetCardinality(a: set<string>, b: set<string>)
    requires a <= b
    ensures |a| <= |b|
    decreases |b|
  {
    if a != {} {
      var x :| x in a;
      SubsetCardinality(a - {x}, b - {x});
    }
  }

  /** An entry with an empty id, or an empty translation that does not replace a
      translated one, leaves the catalog size unchanged. */
  lemma CatalogSizeIgnoresUntranslated(c: Catalog, id: string, text: string)
    requires id == "" || (text == "" && (id !in c || c[id] == ""))
    ensures CatalogSize(c[id := text]) == CatalogSize(c)
  {
    assert TranslatedIds(c[id := text]) == TranslatedIds(c);
  }

  /** A translated entry for an id that had no translation adds exactly one to the size. */
  lemma CatalogSizeCountsTranslated(c: Catalog, id: string, text: string)
    requires id != "" && text != "" && (id !in c || c[id] == "")
    ensures CatalogSize(c[id := text]) == CatalogSize(c) + 1
  {
    assert id !in TranslatedIds(c);
    assert TranslatedIds(c[id := text]) == TranslatedIds(c) + {id};
  }

  /** `GNUTranslations.gettext` on a catalog without fallbacks: the stored
      translation when the id is present, the message itself otherwise. */
  function Gettext(c: Catalog, message: string): (r: string)
    ensures message in c ==> r == c[message]
    ensures message !in c ==> r == message
  {
    if message in c then c[message] else message
  }

  /** `pattern` occurs in `line` starting at index `i`. */
  predicate OccursAt(line: string, pattern: string, i: int) {
    0 <= i && i + |pattern| <= |line| && line[i..i + |pattern|] == pattern
  }

  /** Python's `pattern in line` on strings: a substring test. */
  predicate ContainsSubstring(line: string, pattern: string) {
    exists i | 0 <= i <= |line| :: OccursAt(line, pattern, i)
  }

  /** A `base.pot` line that counts as a message declaration. */
  predicate IsMsgidLine(line: string) {
    ContainsSubstring(line, "msgid")
  }

  /** `msgid_plural` lines contain `msgid`, so they are counted as well. */
  lemma MsgidPluralLineCounts(line: string)
    requires |line| >= 12 && line[..12] == "msgid_plural"
    ensures IsMsgidLine(line)
  {
    assert line[0..5] == line[..12][0..5];
    assert OccursAt(line, "msgid", 0);
  }

  /** The lines of `base.pot` that mention `msgid`, in file order. */
  function MsgidLines(lines: seq<string>): seq<string> {
    Seqs.Filter(lines, IsMsgidLine)
  }

  /** `_get_total_active_messages`: the number of `msgid` lines, less the header entry. */
  function TotalActiveMessages(lines: seq<string>): (total: int)
    ensures -1 <= total < |lines|
    ensures total == -1 <==> forall l :: l in lines ==> !IsMsgidLine(l)
  {
    var found := MsgidLines(lines);
    assert found != [] ==> found[0] in found;
    |found| - 1
  }

  /** Appending a line raises the count by one exactly when the line mentions `msgid`. */
  lemma TotalActiveMessagesAppend(lines: seq<string>, line: string)
    ensures TotalActiveMessages(lines + [line])
         == TotalActiveMessages(lines) + (if IsMsgidLine(line) then 1 else 0)
  {
    Seqs.FilterAppend(lines, [line], IsMsgidLine);
    assert [line][..0] == [];
  }
}
