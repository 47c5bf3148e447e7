/**
 The record-to-catalog pipeline: the duplicate check, the check-then-write
 step of `add_to_notion`, and the guard in `main` that skips everything when
 no BibTeX text was extracted.
 */
module Pipeline {
  import opened Wrappers
  import opened Bibtex
  import opened Properties
  import opened Catalog

  /**
   The filter `check_duplicate` sends: title equality OR doi-URL equality. The
   URL clause is built even for an empty DOI, where it compares against the
   bare prefix "https://doi.org/".
   */
  function DuplicateFilter(title: string, doi: string): (f: Filter)
    ensures |f.clauses| == 2
    ensures forall p :: Satisfies(f, p) <==> p.title == title || p.doi == Some(DoiUrl(doi))
  {
    var f := Or([TitleEquals(title), DoiUrlEquals(DoiUrl(doi))]);
    assert forall p :: Satisfies(f, p) <==> p.title == title || p.doi == Some(DoiUrl(doi)) by {
      forall p ensures Satisfies(f, p) <==> p.title == title || p.doi == Some(DoiUrl(doi)) {
        assert Holds(f.clauses[0], p) <==> p.title == title;
        assert Holds(f.clauses[1], p) <==> p.doi == Some(DoiUrl(doi));
      }
    }
    f
  }

  /** `check_duplicate`: some page has the title, or has the DOI's URL. */
  function CheckDuplicate(pages: seq<Page>, title: string, doi: string): (dup: bool)
    ensures dup <==> exists i :: 0 <= i < |pages| && (pages[i].title == title || pages[i].doi == Some(DoiUrl(doi)))
  {
    var f := DuplicateFilter(title, doi);
    QueryNonEmpty(pages, f);
    |Query(pages, f)| > 0
  }

  /** The catalog after `add_to_notion(info)` at time `now`. */
  function CatalogAfterAdd(pages: seq<Page>, info: BibInfo, now: string): (after: seq<Page>)
    ensures pages <= after
    ensures |after| == |pages| + (if CheckDuplicate(pages, info.title, info.doi) then 0 else 1)
    ensures |after| > |pages| ==> after[|pages|] == BuildProperties(info, now)
  {
    if CheckDuplicate(pages, info.title, info.doi) then pages
    else pages + [BuildProperties(info, now)]
  }

  /** After an add, the same record is always reported as a duplicate. */
  lemma AddThenDuplicate(pages: seq<Page>, info: BibInfo, now: string)
    ensures CheckDuplicate(CatalogAfterAdd(pages, info, now), info.title, info.doi)
  {
  }

  /**
   Write-once: a second add of the same record changes nothing, and the two
   adds together append the record's page at most once, at the end.
   */
  lemma AddIsWriteOnce(pages: seq<Page>, info: BibInfo, t1: string, t2: string)
    ensures var once := CatalogAfterAdd(pages, info, t1);
      && CatalogAfterAdd(once, info, t2) == once
      && pages <= once
      && |once| == |pages| + (if CheckDuplicate(pages, info.title, info.doi) then 0 else 1)
      && (|once| > |pages| ==> once[|pages|] == BuildProperties(info, t1))
  {
  }

  /** A page whose DOI property, when set, is a resolver URL with a non-empty DOI. */
  predicate DoiWellFormed(p: Page) {
    p.doi.Some? ==> DoiPrefix < p.doi.value
  }

  predicate AllDoiWellFormed(pages: seq<Page>) {
    forall i :: 0 <= i < |pages| ==> DoiWellFormed(pages[i])
  }

  /** Every page `add_to_notion` writes has a well-formed DOI property. */
  lemma BuildPropertiesDoiWellFormed(info: BibInfo, now: string)
    ensures DoiWellFormed(BuildProperties(info, now))
  {
  }

  /** Adding keeps a catalog of well-formed pages well-formed. */
  lemma AddPreservesDoiWellFormed(pages: seq<Page>, info: BibInfo, now: string)
    requires AllDoiWellFormed(pages)
    ensures AllDoiWellFormed(CatalogAfterAdd(pages, info, now))
  {
  }

  /**
   With an empty DOI the URL clause compares against the bare prefix, which no
   page written by `add_to_notion` holds (an empty DOI is stored as null), so
   over such a catalog only the title clause can match.
   */
  lemma EmptyDoiMatchesOnlyByTitle(pages: seq<Page>, title: string)
    requires AllDoiWellFormed(pages)
    ensures CheckDuplicate(pages, title, "") <==> exists i :: 0 <= i < |pages| && pages[i].title == title
  {
  }

  /** The page written for a record with an empty DOI never matches the empty-DOI URL clause. */
  lemma EmptyDoiPageMissesDoiClause(info: BibInfo, now: string)
    requires info.doi == ""
    ensures !Holds(DoiUrlEquals(DoiUrl(info.doi)), BuildProperties(info, now))
  {
  }

  /**
   The URL clause is still sent for an empty DOI: a page entered by other means
   whose DOI property is exactly "https://doi.org/" matches any record without
   a DOI, whatever its title.
   */
  lemma EmptyDoiClauseStillSent(title: string)
    requires title != "x"
    ensures CheckDuplicate([Page("x", None, Some(DoiPrefix), "", false, "")], title, "")
  {
    var pages := [Page("x", None, Some(DoiPrefix), "", false, "")];
    assert DoiUrl("") == DoiPrefix;
    assert pages[0].doi == Some(DoiUrl(""));
  }

  /** How one run of `main` ends. */
  datatype Outcome = NoBibtex | Added(title: string) | Skipped(title: string)

  /** The Notion database the pipeline writes to; `pages` is its content. */
  class NotionDatabase {
    var pages: seq<Page>

    constructor (initial: seq<Page>)
      ensures pages == initial
    {
      pages := initial;
    }

    /**
     `add_to_notion`: on a duplicate, writes nothing and answers false;
     otherwise creates exactly one page and answers true.
     */
    method AddToNotion(info: BibInfo, now: string) returns (added: bool)
      modifies this
      ensures added <==> !CheckDuplicate(old(pages), info.title, info.doi)
      ensures pages == CatalogAfterAdd(old(pages), info, now)
      ensures added ==> pages == old(pages) + [BuildProperties(info, now)]
      ensures !added ==> pages == old(pages)
    {
      if CheckDuplicate(pages, info.title, info.doi) {
        return false;
      }
      var properties := BuildProperties(info, now);
      pages := pages + [properties];
      return true;
    }

    /**
     `main` after extraction: `extracted` is what the extraction tool printed,
     or None when it failed. Empty or missing text skips everything.
     */
    method Ingest(extracted: Option<string>, loads: string -> seq<Entry>, now: string) returns (outcome: Outcome)
      modifies this
      ensures (extracted.None? || extracted.value == "") ==> outcome == NoBibtex && pages == old(pages)
      ensures extracted.Some? && extracted.value != "" ==>
        var info := ParseBibtex(loads, extracted.value);
        && pages == CatalogAfterAdd(old(pages), info, now)
        && outcome == (if CheckDuplicate(old(pages), info.title, info.doi) then Skipped(info.title) else Added(info.title))
    {
      if extracted.None? || extracted.value == "" {
        return NoBibtex;
      }
      var info := ParseBibtex(loads, extracted.value);
      var added := AddToNotion(info, now);
      if added {
        outcome := Added(info.title);
      } else {
        outcome := Skipped(info.title);
      }
    }
  }
}
