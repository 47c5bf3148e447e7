# notion-paper: record-to-catalog pipeline

A Dafny model of the core of `notion-paper`, a command-line tool that turns a
paper's PDF into a BibTeX record and files it in a Notion database. The model
covers what happens between the extraction tool and the database:

- `parse_bibtex` takes the first entry the BibTeX library finds, or an empty
  one. Title, year and doi each default to `""`. The raw text is kept verbatim
  (`Bibtex.ParseBibtex`). The library's `loads` is a parameter of type
  `string -> seq<map<string, string>>`, so every result is proved for any parser.
- The page properties `add_to_notion` writes (`Properties.BuildProperties`):
  - the year becomes a number only when it is a non-empty string of digits;
  - the DOI becomes `https://doi.org/<doi>` only when it is non-empty;
  - the BibTeX text is cut to 2000 characters;
  - READ is false and the date is the write time.
- `check_duplicate` is an "or" filter with a title clause and a doi-URL clause.
  It is evaluated by a query over the database's pages (`Catalog.Query`,
  `Pipeline.CheckDuplicate`).
- `add_to_notion` checks, then writes (`Pipeline.NotionDatabase.AddToNotion`).
  On a duplicate it writes nothing and returns false. Otherwise it appends
  exactly one page and returns true.
- The guard in `main` skips everything when no BibTeX text was extracted
  (`Pipeline.NotionDatabase.Ingest`).

Modules: `Wrappers` (Option), `Decimal` (`str.isdigit` and `int` on ASCII
digits), `Bibtex`, `Properties`, `Catalog` (the database's query), `Pipeline`.

The URL clause is sent even for an empty DOI: the filter then asks for pages
whose DOI equals the bare prefix `https://doi.org/`. Pages written by
`add_to_notion` store a null DOI for an empty one, so on a catalog of such
pages an empty-DOI check matches by title only
(`Pipeline.EmptyDoiMatchesOnlyByTitle`). A page entered by other means whose
DOI is exactly the bare prefix does match a record without a DOI, whatever
its title (`Pipeline.EmptyDoiClauseStillSent`).

## Model

| member | source | states |
|---|---|---|
| `Bibtex.Field` | main.py:26-28 | a key present in the entry gives its value; a missing key gives "" |
| `Bibtex.ParseBibtex` | main.py:21-30 | the raw text is kept unchanged; with no entries, title, year and doi are all ""; otherwise each comes from the first entry, or is "" when the key is missing |
| `Bibtex.OnlyFirstEntryMatters` | main.py:23 | two parsers that agree on the first entry give the same record, so later entries are ignored |
| `Decimal.IsDigits` | main.py:52 | `s.isdigit()` on ASCII: true exactly when the string is non-empty and every character is a digit, so `""` and `"n.d."` are rejected |
| `Decimal.DecimalValue` | main.py:52 | `int(s)` of a string of k digits is a natural number below 10^k |
| `Decimal.DecimalValueOfShowNat` | main.py:52 | reading the decimal rendering of n gives n back |
| `Decimal.ShowNatOfDecimalValue` | main.py:52 | rendering the value of a digit string without a leading zero gives the same string, so the two functions are inverse |
| `Decimal.LeadingZeroIgnored` | main.py:52 | a leading "0" does not change the value, as with `int("02020") == 2020` |
| `Properties.ParseYear` | main.py:52 | the year is present exactly when the text is a non-empty string of digits, and a present year is `int(year)`, the value `DecimalValue` gives (below 10^length) |
| `Properties.YearRoundTrip` | main.py:52 | the year parsed from the rendering of n is n |
| `Properties.YearExamples` | main.py:52 | "2020" gives 2020; "n.d." and "" give null, not 0 |
| `Properties.DoiUrl` | main.py:53 | the URL starts with "https://doi.org/" and the DOI is what follows the prefix |
| `Properties.StoredDoi` | main.py:53 | the stored DOI is null exactly when the DOI is empty; otherwise it is the DOI's URL |
| `Properties.StoredDoiInjective` | main.py:53 | different DOIs are stored differently, so the DOI can be recovered from the stored value |
| `Properties.StoredDoiNeverBarePrefix` | main.py:53 | no stored DOI is the bare prefix "https://doi.org/" |
| `Properties.Truncate` | main.py:54 | the stored text is a prefix of the raw text, of length min(length, 2000) |
| `Properties.BuildProperties` | main.py:50-57 | field by field: title verbatim; year present exactly for a digit string and then its value; DOI null exactly for an empty DOI and otherwise the prefix followed by the DOI; BibTeX text a prefix of the raw text, unchanged up to 2000 characters and exactly 2000 beyond; READ false; date is the write time |
| `Catalog.Query` | main.py:33-41 | the results are exactly the catalog pages that satisfy some clause of the filter; a null URL satisfies no URL clause |
| `Catalog.QueryNonEmpty` | main.py:42 | the query has results exactly when some page satisfies the filter |
| `Pipeline.DuplicateFilter` | main.py:35-40 | the filter has two clauses, and a page satisfies it exactly when its title equals the title or its DOI equals `https://doi.org/<doi>`, also for an empty DOI |
| `Pipeline.CheckDuplicate` | main.py:32-42 | true exactly when some page has the title, or has the DOI URL `https://doi.org/<doi>` |
| `Pipeline.CatalogAfterAdd` | main.py:44-66 | the catalog after one add keeps the old pages as a prefix, grows by one page exactly when there was no duplicate, and that page is the record's page |
| `Pipeline.AddThenDuplicate` | main.py:44-66 | after an add, the same record is always reported as a duplicate |
| `Pipeline.AddIsWriteOnce` | main.py:44-66 | a second add of the same record leaves the catalog as the first left it; the first add keeps the old pages as a prefix and grows the catalog by one page exactly when there was no duplicate; that page is the record's page |
| `Pipeline.BuildPropertiesDoiWellFormed` | main.py:53 | every written page's DOI is null or the prefix followed by a non-empty DOI |
| `Pipeline.AddPreservesDoiWellFormed` | main.py:44-66 | an add keeps every page's DOI well formed |
| `Pipeline.EmptyDoiMatchesOnlyByTitle` | main.py:36-39 | over pages with well-formed DOIs, an empty-DOI check is true exactly when some page has the title |
| `Pipeline.EmptyDoiPageMissesDoiClause` | main.py:38 | the page written for a record with an empty DOI never matches the `url equals "https://doi.org/"` clause |
| `Pipeline.EmptyDoiClauseStillSent` | main.py:38 | the URL clause is still sent for an empty DOI: a page whose DOI is exactly the bare prefix matches a record with another title and no DOI |
| `Pipeline.NotionDatabase.AddToNotion` | main.py:44-66 | returns false and leaves the pages unchanged on a duplicate; otherwise appends exactly the record's page and returns true |
| `Pipeline.NotionDatabase.Ingest` | main.py:68-78 | missing or empty extracted text changes nothing; otherwise the parsed record is added, and the outcome says whether it was added or skipped |

## Left out

- `pdf_to_bibtex` (main.py:12-19) runs the external `pdf2bib` tool. Its result is the `extracted: Option<string>` parameter of `Ingest`.
- The internals of `bibtexparser.loads` belong to a foreign library. They are the `loads` parameter.
- The Notion client is network I/O. `Client(auth=...)`, `databases.query` and `pages.create` become the in-memory `pages` sequence of `NotionDatabase`. The `database_id` argument is dropped because the model has a single database. The nested JSON shape of the properties is flattened into the `Page` fields. `databases.query` returns its matches a page of results at a time, in an order the service chooses; the model returns all matches, because `check_duplicate` only asks whether the first page of results is empty.
- `datetime.now().isoformat()` reads the clock. It is the `now` parameter.
- The `argparse` command line, the environment-variable defaults (main.py:9-10, main.py:80-88) and all printed output are not modelled. `Outcome` stands for which message `main` prints.
- `Properties.ParseYear` accepts ASCII digits only. Python's `str.isdigit` also accepts other Unicode digits, some of which make `int()` raise. That exception path is not modelled.
- `Properties.ParseYear` does not model the limit on `int()` of a string (`sys.int_max_str_digits`, 4300 digits by default in current Python releases, and configurable). A year of more digits passes `isdigit()`, then `int()` raises `ValueError` after the duplicate check, so `add_to_notion` writes nothing and the run stops. The model stores the number instead. The limit depends on the interpreter version and configuration, so it is left out.
- Exceptions raised by the Notion client are not modelled. Neither are concurrent writers between the check and the write.
- Strings are sequences of Unicode scalar values. Slicing in Python counts code points, so the two agree except on lone surrogates.
