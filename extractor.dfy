/** The two site extractors of the content script (`extractInsightlyData`,
    `extractSunRunData`) and the dispatcher `extractData`. The page is given
    as a value: its URL parts, its title, the time of the extraction and, for
    every element id, what waiting for the element with that id yields (its
    `textContent`, or `None` when the 5000 ms wait timed out). The selector
    `#id` the code builds fails outright for an id that starts with a digit;
    `SelectorWait` and `SiteResultAsWritten` model that. */
module Extractor {
  import opened Wrappers
  import opened CleanValue
  import opened Paths
  import opened Records

  /** What the extraction sees of the page. */
  datatype Page = Page(
    href: string,                     // window.location.href
    hostname: string,                 // window.location.hostname
    pathname: string,                 // window.location.pathname
    title: string,                    // document.title
    now: string,                      // new Date().toISOString()
    find: string -> Option<string>)   // wait for the element with this id, then textContent

  /** The response sent back to the panel: `{data}` or `{error}`. */
  datatype Envelope = Data(data: Record) | Error(error: string)

  const FieldsNotFound: string := "Fields not found"
  const NotValidPage: string := "Not a valid Insightly or SunRun page"
  const FieldNotFound: string := "Field not found"

  const InsightlyHost: string := "crm.na1.insightly.com"
  const InsightlyMarker: string := "/details/project/"
  const SunRunHost: string := "sunrun.my.site.com"
  const SunRunMarker: string := "/partner/"

  datatype Site = Insightly | SunRun

  /** One row of a site's `fieldMappings`: the displayed name and the element id. */
  datatype Field = Field(name: string, id: string)

  /** The fixed field tables, in declaration order. */
  function Mapping(site: Site): seq<Field> {
    match site
    case Insightly => [
      Field("Funding Kickback Status", "metadata-row-viewer-PROJECT_FIELD_229"),
      Field("Funding Kickback Reason", "metadata-row-viewer-PROJECT_FIELD_549"),
      Field("Funding Kickback Notes", "metadata-row-viewer-Funding_Kickback_Notes_M__c"),
      Field("FSD Status Update", "metadata-row-viewer-FSD_Status_Update__c"),
      Field("Post Install Work Completed", "metadata-row-viewer-Punch_List_Completed__c"),
      Field("Post Install Work Scheduled", "metadata-row-viewer-Insp_Prp_Wrk_Sch__c"),
      Field("Post Install Work Details", "metadata-row-viewer-Inspection_Prep_Work_Details__c"),
      Field("Additional Work Notes", "metadata-row-viewer-PROJECT_FIELD_658")]
    case SunRun => [
      Field("Status Update", "00N60000002WJIm_ileinner"),
      Field("Final Findings", "00N60000002VX72_ileinner"),
      Field("Submit Findings", "00N60000002VX7L_ileinner"),
      Field("Time Submitted", "00N60000002VX7S_ileinner"),
      Field("Last Modified By", "LastModifiedBy_ileinner")]
  }

  /** The properties the record starts with, before any field is read. */
  function Metadata(site: Site, page: Page): Record {
    match site
    case Insightly => [
      Entry("projectId", ProjectId(page.pathname)),
      Entry("projectName", page.title),
      Entry("url", page.href),
      Entry("timestamp", page.now)]
    case SunRun => [
      Entry("url", page.href),
      Entry("timestamp", page.now)]
  }

  function Names(fields: seq<Field>): seq<string> {
    seq(|fields|, i requires 0 <= i < |fields| => fields[i].name)
  }

  /** What one field contributes: the cleaned text of the element, or the
      "Field not found" sentinel when waiting for it timed out. */
  function FieldValue(found: Option<string>): string {
    match found
    case None => FieldNotFound
    case Some(text) => Clean(Some(text))
  }

  /** The record after the field loop has handled `fields`, in order. */
  function Fill(data: Record, fields: seq<Field>, find: string -> Option<string>): Record
    decreases |fields|
  {
    if fields == [] then data
    else
      var f := fields[|fields| - 1];
      Put(Fill(data, fields[..|fields| - 1], find), f.name, FieldValue(find(f.id)))
  }

  /** Some element of `fields` appeared before its wait timed out. */
  predicate AnyFound(fields: seq<Field>, find: string -> Option<string>) {
    exists i :: 0 <= i < |fields| && find(fields[i].id).Some?
  }

  /** Handling one more field is one more assignment. */
  lemma FillStep(data: Record, fields: seq<Field>, i: nat, find: string -> Option<string>)
    requires i < |fields|
    ensures Fill(data, fields[..i + 1], find)
         == Put(Fill(data, fields[..i], find), fields[i].name, FieldValue(find(fields[i].id)))
  {
    assert fields[..i + 1][..i] == fields[..i];
  }

  lemma AnyFoundStep(fields: seq<Field>, i: nat, find: string -> Option<string>)
    requires i < |fields|
    ensures AnyFound(fields[..i + 1], find) <==> AnyFound(fields[..i], find) || find(fields[i].id).Some?
  {
    assert fields[..i + 1][i] == fields[i];
    assert forall j :: 0 <= j < i ==> fields[..i + 1][j] == fields[..i][j];
  }

  lemma NamesPrefix(fields: seq<Field>, n: nat)
    requires n <= |fields|
    ensures Names(fields[..n]) == Names(fields)[..n]
  {
  }

  /** After the loop, every field of the table holds its own value: the cleaned
      text of its element, or "Field not found". */
  lemma {:induction false} FillGet(data: Record, fields: seq<Field>, find: string -> Option<string>, i: nat)
    requires Distinct(Names(fields)) && i < |fields|
    ensures Get(Fill(data, fields, find), fields[i].name) == Some(FieldValue(find(fields[i].id)))
    decreases |fields|
  {
    var n := |fields| - 1;
    if i < n {
      assert Names(fields)[i] != Names(fields)[n];
      NamesPrefix(fields, n);
      assert fields[..n][i] == fields[i];
      FillGet(data, fields[..n], find, i);
    }
  }

  /** The loop touches no property outside the table. */
  lemma {:induction false} FillGetOther(data: Record, fields: seq<Field>, find: string -> Option<string>, k: string)
    requires k !in Names(fields)
    ensures Get(Fill(data, fields, find), k) == Get(data, k)
    decreases |fields|
  {
    if fields != [] {
      var n := |fields| - 1;
      assert Names(fields)[n] == fields[n].name;
      NamesPrefix(fields, n);
      FillGetOther(data, fields[..n], find, k);
    }
  }

  /** The record lists the starting properties, then the table's names in
      table order; no name is left out. */
  lemma {:induction false} FillKeys(data: Record, fields: seq<Field>, find: string -> Option<string>)
    requires Distinct(Names(fields))
    requires forall i :: 0 <= i < |fields| ==> fields[i].name !in Keys(data)
    ensures Keys(Fill(data, fields, find)) == Keys(data) + Names(fields)
    decreases |fields|
  {
    if fields == [] {
      assert Names(fields) == [];
    } else {
      var n := |fields| - 1;
      var init := fields[..n];
      var name := fields[n].name;
      NamesPrefix(fields, n);
      assert Names(fields) == Names(init) + [name];
      DistinctInitLast(Names(fields));
      assert Names(fields)[..n] == Names(init);
      assert Names(fields)[n] == name;
      assert name !in Names(init);
      assert Distinct(Names(init));
      assert forall i :: 0 <= i < n ==> init[i].name !in Keys(data) by {
        forall i | 0 <= i < n ensures init[i].name !in Keys(data) {
          assert init[i] == fields[i];
        }
      }
      FillKeys(data, init, find);
      var before := Fill(data, init, find);
      assert Keys(before) == Keys(data) + Names(init);
      assert name !in Keys(data);
      assert name !in Keys(before);
      var v := FieldValue(find(fields[n].id));
      assert Fill(data, fields, find) == Put(before, name, v);
      PutKeys(before, name, v);
      AppendAssoc(Keys(data), Names(init), [name]);
    }
  }

  /** The property names each site's record starts with. */
  function MetadataKeys(site: Site): seq<string> {
    match site
    case Insightly => ["projectId", "projectName", "url", "timestamp"]
    case SunRun => ["url", "timestamp"]
  }

  lemma MetadataHasKeys(site: Site, page: Page)
    ensures Keys(Metadata(site, page)) == MetadataKeys(site)
  {
    var meta := Metadata(site, page);
    var rest := meta[1..][1..];
    match site
    case Insightly =>
      assert rest[1..][1..] == [];
      assert Keys(rest) == ["url", "timestamp"];
      assert Keys(meta) == ["projectId", "projectName"] + Keys(rest);
    case SunRun =>
      assert rest == [];
  }

  lemma NamesDistinct(site: Site)
    ensures Distinct(Names(Mapping(site)))
  {
    match site
    case Insightly => InsightlyNamesDistinct();
    case SunRun => SunRunNamesDistinct();
  }

  lemma InsightlyNamesDistinct()
    ensures Distinct(Names(Mapping(Insightly)))
  {
    assert "Funding Kickback Status"[17] != "Funding Kickback Reason"[17];
    assert "Post Install Work Completed"[18] != "Post Install Work Scheduled"[18];
  }

  lemma SunRunNamesDistinct()
    ensures Distinct(Names(Mapping(SunRun)))
  {
    assert "Final Findings"[0] != "Time Submitted"[0];
  }

  lemma MetadataKeysDistinct(site: Site)
    ensures Distinct(MetadataKeys(site))
  {
  }

  lemma NamesNotMetadata(site: Site)
    ensures forall i :: 0 <= i < |Mapping(site)| ==> Mapping(site)[i].name !in MetadataKeys(site)
  {
  }

  /** Both tables have distinct names, none of which is a metadata property,
      and the metadata properties are themselves distinct. */
  lemma TablesWellFormed(site: Site, page: Page)
    ensures Distinct(Names(Mapping(site)))
    ensures forall i :: 0 <= i < |Mapping(site)| ==> Mapping(site)[i].name !in Keys(Metadata(site, page))
    ensures DistinctKeys(Metadata(site, page))
  {
    MetadataHasKeys(site, page);
    NamesDistinct(site);
    MetadataKeysDistinct(site);
    NamesNotMetadata(site);
  }

  /** Starting properties whose names the table does not use keep their values. */
  lemma FillKeepsMeta(meta: Record, fields: seq<Field>, find: string -> Option<string>)
    requires DistinctKeys(meta)
    requires forall i :: 0 <= i < |fields| ==> fields[i].name !in Keys(meta)
    ensures forall j :: 0 <= j < |meta| ==> Get(Fill(meta, fields, find), meta[j].key) == Some(meta[j].value)
  {
    forall j | 0 <= j < |meta|
      ensures Get(Fill(meta, fields, find), meta[j].key) == Some(meta[j].value)
    {
      KeysAt(meta, j);
      assert meta[j].key !in Names(fields);
      FillGetOther(meta, fields, find, meta[j].key);
      KeyedEntry(meta, j);
    }
  }

  /** The record a table produces from well-formed starting properties: the
      starting properties untouched, followed by every field of the table,
      each with its own value. */
  lemma FillSpec(meta: Record, fields: seq<Field>, find: string -> Option<string>)
    requires DistinctKeys(meta) && Distinct(Names(fields))
    requires forall i :: 0 <= i < |fields| ==> fields[i].name !in Keys(meta)
    ensures Keys(Fill(meta, fields, find)) == Keys(meta) + Names(fields)
    ensures DistinctKeys(Fill(meta, fields, find))
    ensures forall i :: 0 <= i < |fields| ==>
              Get(Fill(meta, fields, find), fields[i].name) == Some(FieldValue(find(fields[i].id)))
    ensures forall j :: 0 <= j < |meta| ==> Get(Fill(meta, fields, find), meta[j].key) == Some(meta[j].value)
  {
    FillKeys(meta, fields, find);
    DistinctConcat(Keys(meta), Names(fields));
    forall i | 0 <= i < |fields|
      ensures Get(Fill(meta, fields, find), fields[i].name) == Some(FieldValue(find(fields[i].id)))
    {
      FillGet(meta, fields, find, i);
    }
    FillKeepsMeta(meta, fields, find);
  }

  /** A site extractor reports "Fields not found" exactly when no element of
      its table appeared. */
  lemma ExtractionError(meta: Record, fields: seq<Field>, find: string -> Option<string>)
    ensures Extraction(meta, fields, find).Error? <==>
              forall i :: 0 <= i < |fields| ==> find(fields[i].id).None?
    ensures Extraction(meta, fields, find).Error? ==> Extraction(meta, fields, find).error == FieldsNotFound
  {
  }

  /** The record of a site extractor holds the metadata untouched, followed by
      every field of the table, each with its own value. */
  lemma SiteResultData(site: Site, page: Page)
    requires AnyFound(Mapping(site), page.find)
    ensures Keys(SiteResult(site, page).data) == MetadataKeys(site) + Names(Mapping(site))
    ensures DistinctKeys(SiteResult(site, page).data)
    ensures forall i :: 0 <= i < |Mapping(site)| ==>
              Get(SiteResult(site, page).data, Mapping(site)[i].name)
                == Some(FieldValue(page.find(Mapping(site)[i].id)))
    ensures forall j :: 0 <= j < |Metadata(site, page)| ==>
              Get(SiteResult(site, page).data, Metadata(site, page)[j].key) == Some(Metadata(site, page)[j].value)
  {
    var meta, fields := Metadata(site, page), Mapping(site);
    TablesWellFormed(site, page);
    MetadataHasKeys(site, page);
    FillSpec(meta, fields, page.find);
  }

  /** The response of a site extractor with starting properties `meta` and
      table `fields`. */
  function Extraction(meta: Record, fields: seq<Field>, find: string -> Option<string>): Envelope {
    if AnyFound(fields, find) then Data(Fill(meta, fields, find)) else Error(FieldsNotFound)
  }

  /** The response `extractInsightlyData` / `extractSunRunData` produces. */
  function SiteResult(site: Site, page: Page): Envelope {
    Extraction(Metadata(site, page), Mapping(site), page.find)
  }

  /** The `for (const [fieldName, fieldId] of Object.entries(fieldMappings))`
      loop: wait for each element in turn, store its cleaned text or the
      sentinel under the field's name, and note whether anything was found. */
  method ExtractFields(meta: Record, fields: seq<Field>, find: string -> Option<string>)
    returns (data: Record, fieldsFound: bool)
    ensures data == Fill(meta, fields, find)
    ensures fieldsFound <==> AnyFound(fields, find)
  {
    data := meta;
    fieldsFound := false;
    var i := 0;
    while i < |fields|
      invariant 0 <= i <= |fields|
      invariant data == Fill(meta, fields[..i], find)
      invariant fieldsFound <==> AnyFound(fields[..i], find)
    {
      var f := fields[i];
      var found := find(f.id);
      match found {
        case Some(text) =>
          data := Put(data, f.name, Clean(Some(text)));
          fieldsFound := true;
        case None =>
          data := Put(data, f.name, FieldNotFound);
      }
      FillStep(meta, fields, i, find);
      AnyFoundStep(fields, i, find);
      i := i + 1;
    }
    assert fields[..i] == fields;
  }

  /** One site extractor: metadata first, then the field loop, then the error
      envelope when nothing at all was found. */
  method ExtractSite(site: Site, page: Page) returns (response: Envelope)
    ensures response == SiteResult(site, page)
  {
    var data, fieldsFound := ExtractFields(Metadata(site, page), Mapping(site), page.find);
    if !fieldsFound {
      return Error(FieldsNotFound);
    }
    return Data(data);
  }

  /** An id whose first character is a decimal digit. Such an id is not a CSS
      identifier, so `#id` is not a valid selector. */
  predicate LeadingDigit(id: string) {
    |id| > 0 && '0' <= id[0] <= '9'
  }

  /** `waitForElement(`#${id}`)` as written: for an id that starts with a digit
      `document.querySelector` throws inside the Promise executor, so the wait
      rejects at once, as a timeout would; any other id waits for the element. */
  function SelectorWait(find: string -> Option<string>): string -> Option<string> {
    id => if LeadingDigit(id) then None else find(id)
  }

  /** The response a site extractor produces as written, with `#id` selectors. */
  function SiteResultAsWritten(site: Site, page: Page): Envelope {
    Extraction(Metadata(site, page), Mapping(site), SelectorWait(page.find))
  }

  /** The field loop depends on the page only through the table's ids. */
  lemma {:induction false} FillAgree(meta: Record, fields: seq<Field>, f: string -> Option<string>, g: string -> Option<string>)
    requires forall i :: 0 <= i < |fields| ==> f(fields[i].id) == g(fields[i].id)
    ensures Fill(meta, fields, f) == Fill(meta, fields, g)
    decreases |fields|
  {
    if fields != [] {
      var n := |fields| - 1;
      var init := fields[..n];
      assert forall i :: 0 <= i < n ==> init[i] == fields[i];
      FillAgree(meta, init, f, g);
    }
  }

  lemma ExtractionAgree(meta: Record, fields: seq<Field>, f: string -> Option<string>, g: string -> Option<string>)
    requires forall i :: 0 <= i < |fields| ==> f(fields[i].id) == g(fields[i].id)
    ensures Extraction(meta, fields, f) == Extraction(meta, fields, g)
  {
    FillAgree(meta, fields, f, g);
  }

  /** No Insightly id starts with a digit, so its extractor as written reads
      every element it waits for. */
  lemma InsightlyAsWritten(page: Page)
    ensures SiteResultAsWritten(Insightly, page) == SiteResult(Insightly, page)
  {
    var fields := Mapping(Insightly);
    assert fields[0].id[0] == fields[1].id[0] == fields[2].id[0] == fields[3].id[0] == 'm';
    assert fields[4].id[0] == fields[5].id[0] == fields[6].id[0] == fields[7].id[0] == 'm';
    forall i | 0 <= i < |fields|
      ensures SelectorWait(page.find)(fields[i].id) == page.find(fields[i].id)
    {
      assert i == 0 || i == 1 || i == 2 || i == 3 || i == 4 || i == 5 || i == 6 || i == 7;
    }
    ExtractionAgree(Metadata(Insightly, page), fields, SelectorWait(page.find), page.find);
  }

  /** Waiting as written for SunRun's elements: the four "00N" ids fail at
      once, and only "LastModifiedBy_ileinner" is looked up. */
  lemma SunRunWaits(find: string -> Option<string>)
    ensures forall i :: 0 <= i < 4 ==> SelectorWait(find)(Mapping(SunRun)[i].id) == None
    ensures SelectorWait(find)(Mapping(SunRun)[4].id) == find("LastModifiedBy_ileinner")
  {
    var fields := Mapping(SunRun);
    assert fields[0].id[0] == fields[1].id[0] == fields[2].id[0] == fields[3].id[0] == '0';
    forall i | 0 <= i < 4
      ensures SelectorWait(find)(fields[i].id) == None
    {
      assert i == 0 || i == 1 || i == 2 || i == 3;
      assert LeadingDigit(fields[i].id);
    }
    assert fields[4].id == "LastModifiedBy_ileinner";
  }

  /** SunRun's extractor as written: the four ids that start with "00N" never
      yield an element, so those fields always hold "Field not found", and the
      extractor reports "Fields not found" exactly when "Last Modified By" is
      missing. */
  lemma SunRunAsWritten(page: Page)
    ensures SiteResultAsWritten(SunRun, page).Error? <==> page.find("LastModifiedBy_ileinner").None?
    ensures SiteResultAsWritten(SunRun, page).Data? ==>
              forall i :: 0 <= i < 4 ==>
                Get(SiteResultAsWritten(SunRun, page).data, Mapping(SunRun)[i].name) == Some(FieldNotFound)
  {
    var meta, fields, wait := Metadata(SunRun, page), Mapping(SunRun), SelectorWait(page.find);
    SunRunWaits(page.find);
    ExtractionError(meta, fields, wait);
    if SiteResultAsWritten(SunRun, page).Data? {
      TablesWellFormed(SunRun, page);
      FillSpec(meta, fields, wait);
    }
  }

  /** A SunRun page on which "Status Update" is the only element present. */
  function StatusOnlyPage(): Page {
    Page("", "", "", "", "", id => if id == "00N60000002WJIm_ileinner" then Some("Done") else None)
  }

  /** On that page the extractor as written reports "Fields not found", while
      reading the element by its id gives a record. */
  lemma DigitIdCounterexample()
    ensures SiteResult(SunRun, StatusOnlyPage()).Data?
    ensures SiteResultAsWritten(SunRun, StatusOnlyPage()).Error?
  {
    var page, fields := StatusOnlyPage(), Mapping(SunRun);
    assert page.find(fields[0].id).Some?;
    ExtractionError(Metadata(SunRun, page), fields, page.find);
    assert "LastModifiedBy_ileinner"[0] != "00N60000002WJIm_ileinner"[0];
    assert page.find("LastModifiedBy_ileinner").None?;
    SunRunAsWritten(page);
  }

  /** The page test of `extractData`: exact hostname, case-sensitive path marker. */
  function SelectSite(hostname: string, pathname: string): Option<Site> {
    if hostname == InsightlyHost && Includes(pathname, InsightlyMarker) then Some(Insightly)
    else if hostname == SunRunHost && Includes(pathname, SunRunMarker) then Some(SunRun)
    else None
  }

  /** What `extractData` resolves to. */
  function Dispatch(page: Page): Envelope {
    match SelectSite(page.hostname, page.pathname)
    case Some(site) => SiteResult(site, page)
    case None => Error(NotValidPage)
  }

  /** `extractData`: run the extractor of the recognised site, or report an
      invalid page without reading any element. */
  method ExtractData(page: Page) returns (response: Envelope)
    ensures response == Dispatch(page)
  {
    var site := SelectSite(page.hostname, page.pathname);
    match site {
      case Some(s) =>
        response := ExtractSite(s, page);
      case None =>
        response := Error(NotValidPage);
    }
  }

  /** Dispatch picks Insightly exactly on its host with the marker somewhere in
      the path, SunRun likewise, and nothing otherwise. */
  lemma SelectSiteSpec(hostname: string, pathname: string)
    ensures SelectSite(hostname, pathname) == Some(Insightly) <==>
              hostname == InsightlyHost && exists i :: OccursAt(pathname, InsightlyMarker, i)
    ensures SelectSite(hostname, pathname) == Some(SunRun) <==>
              hostname == SunRunHost && exists i :: OccursAt(pathname, SunRunMarker, i)
  {
    IncludesSpec(pathname, InsightlyMarker);
    IncludesSpec(pathname, SunRunMarker);
  }

  /** "Not a valid Insightly or SunRun page" is reported exactly for an
      unrecognised page: a site extractor never produces it. */
  lemma DispatchInvalid(page: Page)
    ensures Dispatch(page) == Error(NotValidPage) <==> SelectSite(page.hostname, page.pathname) == None
  {
    assert FieldsNotFound != NotValidPage by {
      assert |FieldsNotFound| != |NotValidPage|;
    }
  }
}
