/**
 Field extraction from BibTeX text (`parse_bibtex`). The BibTeX library's
 `loads` is not modelled: it is a parameter, any function from the text to
 the list of parsed entries, each entry a map from field name to value.
 */
module Bibtex {

  type Entry = map<string, string>

  /** The record handed to the catalog writer; every field is a string. */
  datatype BibInfo = BibInfo(title: string, year: string, doi: string, bibtex: string)

  /** `entry.get(key, "")`. */
  function Field(entry: Entry, key: string): (v: string)
    ensures key in entry ==> v == entry[key]
    ensures key !in entry ==> v == ""
  {
    if key in entry then entry[key] else ""
  }

  /**
   `parse_bibtex`: the first parsed entry (or an empty one when the library
   finds none) supplies title, year and doi, each defaulting to ""; the raw
   text is kept as it was given.
   */
  function ParseBibtex(loads: string -> seq<Entry>, text: string): (info: BibInfo)
    ensures info.bibtex == text
    ensures loads(text) == [] ==> info.title == "" && info.year == "" && info.doi == ""
    ensures loads(text) != [] ==>
      && (if "title" in loads(text)[0] then info.title == loads(text)[0]["title"] else info.title == "")
      && (if "year" in loads(text)[0] then info.year == loads(text)[0]["year"] else info.year == "")
      && (if "doi" in loads(text)[0] then info.doi == loads(text)[0]["doi"] else info.doi == "")
  {
    var entries := loads(text);
    var entry: Entry := if entries != [] then entries[0] else map[];
    BibInfo(Field(entry, "title"), Field(entry, "year"), Field(entry, "doi"), text)
  }

  /** Entries after the first never influence the result. */
  lemma OnlyFirstEntryMatters(loads1: string -> seq<Entry>, loads2: string -> seq<Entry>, text: string)
    requires loads1(text) != [] && loads2(text) != []
    requires loads1(text)[0] == loads2(text)[0]
    ensures ParseBibtex(loads1, text) == ParseBibtex(loads2, text)
  {
  }
}
