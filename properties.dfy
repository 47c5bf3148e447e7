/**
 The page properties that `add_to_notion` sends for a parsed record: the
 year coerced to a number only when it is all digits, the DOI rendered as a
 doi.org URL only when present, the BibTeX text cut to the rich-text limit,
 the READ checkbox cleared and the date set to the moment of writing.
 */
module Properties {
  import opened Wrappers
  import opened Decimal
  import opened Bibtex

  /** Longest BibTeX text stored in a page. */
  const BibtexLimit: nat := 2000

  /** Every stored DOI URL begins with this resolver prefix. */
  const DoiPrefix: string := "https://doi.org/"

  /**
   A catalog page. `year` and `doi` are `None` where the property is null;
   `date` is the ISO timestamp taken from the clock at write time.
   */
  datatype Page = Page(
    title: string,
    year: Option<nat>,
    doi: Option<string>,
    bibtex: string,
    read: bool,
    date: string)

  function Min(a: nat, b: nat): nat {
    if a <= b then a else b
  }

  /** `int(year) if year.isdigit() else None`. */
  function ParseYear(year: string): (r: Option<nat>)
    ensures r.Some? <==> IsDigits(year)
    ensures r.Some? ==> r.value == DecimalValue(year) && r.value < Pow10(|year|)
  {
    if IsDigits(year) then Some(DecimalValue(year)) else None
  }

  /** `f"https://doi.org/{doi}"`: the DOI can be read back after the prefix. */
  function DoiUrl(doi: string): (url: string)
    ensures DoiPrefix <= url
    ensures url[|DoiPrefix|..] == doi
  {
    DoiPrefix + doi
  }

  /** The DOI property: the URL when the DOI is non-empty, null otherwise. */
  function StoredDoi(doi: string): (r: Option<string>)
    ensures r.None? <==> doi == ""
    ensures r.Some? ==> r.value == DoiUrl(doi)
  {
    if doi != "" then Some(DoiUrl(doi)) else None
  }

  /** `text[:limit]`: the longest prefix of `text` of at most `limit` characters. */
  function Truncate(text: string, limit: nat): (r: string)
    ensures r <= text
    ensures |r| == Min(|text|, limit)
  {
    if |text| <= limit then text else text[..limit]
  }

  /** The properties written for `info` at time `now`, field by field. */
  function BuildProperties(info: BibInfo, now: string): (p: Page)
    ensures p.title == info.title
    ensures p.year.Some? <==> IsDigits(info.year)
    ensures p.year.Some? ==> p.year.value == DecimalValue(info.year)
    ensures p.doi.None? <==> info.doi == ""
    ensures p.doi.Some? ==> DoiPrefix <= p.doi.value && p.doi.value[|DoiPrefix|..] == info.doi
    ensures p.bibtex <= info.bibtex
    ensures |info.bibtex| <= BibtexLimit ==> p.bibtex == info.bibtex
    ensures |info.bibtex| > BibtexLimit ==> |p.bibtex| == BibtexLimit
    ensures !p.read
    ensures p.date == now
  {
    Page(
      info.title,
      ParseYear(info.year),
      StoredDoi(info.doi),
      Truncate(info.bibtex, BibtexLimit),
      false,
      now)
  }

  /** The year of the canonical rendering of `n` is `n`. */
  lemma {:induction false} YearRoundTrip(n: nat)
    ensures ParseYear(ShowNat(n)) == Some(n)
  {
    DecimalValueOfShowNat(n);
  }

  /** "2020" becomes 2020; "n.d." and "" become null, not 0 and not an error. */
  lemma YearExamples()
    ensures ParseYear("2020") == Some(2020)
    ensures ParseYear("n.d.") == None
    ensures ParseYear("") == None
  {
    assert !IsAsciiDigit('n');
    assert "2020"[..3] == "202" && "202"[..2] == "20" && "20"[..1] == "2" && "2"[..0] == "";
  }

  /** Distinct DOIs are stored as distinct properties. */
  lemma StoredDoiInjective(a: string, b: string)
    requires StoredDoi(a) == StoredDoi(b)
    ensures a == b
  {
  }

  /** A DOI property written by `BuildProperties` is never the bare prefix. */
  lemma StoredDoiNeverBarePrefix(doi: string)
    ensures StoredDoi(doi) != Some(DoiPrefix)
  {
  }
}
