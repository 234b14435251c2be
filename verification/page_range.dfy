/** PageRange: the page selection argument of the `cat` and `shuffle`
    operations, `<HANDLE>[<start>[-<end>]][<qualifier>][<rotation>]`. */
module PageRanges {
  import opened Results
  import opened Text

  /** The constructor stores start, end, qualifier and rotation without
      checking them, so the fields hold any text; the setters validate. */
  datatype PageRange = PageRange(
    fileHandle: string,
    startPage: Option<string>,
    endPage: Option<string>,
    qualifier: Option<string>,
    rotation: Option<string>)

  const Qualifiers: seq<string> := ["even", "odd"]

  const Rotations: seq<string> := ["north", "south", "east", "west", "left", "right", "down"]

  /** `end|[1-9][0-9]*` */
  predicate IsForwardPage(s: string) {
    s == "end" || (|s| > 0 && '1' <= s[0] <= '9' && AllDigits(s[1..]))
  }

  /** `r?(end|[1-9][0-9]*)`, the whole text. */
  predicate IsStrictPageToken(s: string) {
    IsForwardPage(s) || (|s| > 0 && s[0] == 'r' && IsForwardPage(s[1..]))
  }

  /** `preg_match('/^r?(end|[1-9][0-9]*)$/', s) === 1`. Without the `D`
      modifier PCRE's `$` also matches just before a final newline, so a
      token followed by one "\n" is accepted as well. */
  predicate IsPageToken(s: string) {
    IsStrictPageToken(s) || (|s| > 0 && s[|s| - 1] == '\n' && IsStrictPageToken(s[..|s| - 1]))
  }

  /** `new PageRange($handle, $start, $end, $qualifier, $rotation)`: only
      the handle goes through its setter. */
  function New(handle: string, startPage: Option<string>, endPage: Option<string>,
               qualifier: Option<string>, rotation: Option<string>): (r: Result<PageRange>)
    ensures r.Ok? <==> IsHandle(handle)
    ensures r.Ok? ==> r.value == PageRange(handle, startPage, endPage, qualifier, rotation)
    ensures r.Err? ==> r.error == InvalidHandle(handle)
  {
    var blank := PageRange("", None, None, None, None);
    var pr :- SetFileHandle(blank, handle);
    Ok(pr.(startPage := startPage, endPage := endPage, qualifier := qualifier, rotation := rotation))
  }

  function SetFileHandle(pr: PageRange, handle: string): (r: Result<PageRange>)
    ensures r.Ok? <==> IsHandle(handle)
    ensures r.Ok? ==> r.value == pr.(fileHandle := handle)
    ensures r.Err? ==> r.error == InvalidHandle(handle)
  {
    if IsHandle(handle) then Ok(pr.(fileHandle := handle)) else Err(InvalidHandle(handle))
  }

  function SetStartPage(pr: PageRange, page: Option<string>): (r: Result<PageRange>)
    ensures r.Ok? <==> page.None? || IsPageToken(page.value)
    ensures r.Ok? ==> r.value == pr.(startPage := page)
    ensures r.Err? ==> r.error == InvalidPage(page.value)
  {
    if page.Some? && !IsPageToken(page.value) then Err(InvalidPage(page.value))
    else Ok(pr.(startPage := page))
  }

  function SetEndPage(pr: PageRange, page: Option<string>): (r: Result<PageRange>)
    ensures r.Ok? <==> page.None? || IsPageToken(page.value)
    ensures r.Ok? ==> r.value == pr.(endPage := page)
    ensures r.Err? ==> r.error == InvalidPage(page.value)
  {
    if page.Some? && !IsPageToken(page.value) then Err(InvalidPage(page.value))
    else Ok(pr.(endPage := page))
  }

  function SetQualifier(pr: PageRange, qualifier: Option<string>): (r: Result<PageRange>)
    ensures r.Ok? <==> qualifier.None? || qualifier.value == "even" || qualifier.value == "odd"
    ensures r.Ok? ==> r.value == pr.(qualifier := qualifier)
    ensures r.Err? ==> r.error == InvalidQualifier(qualifier.value)
  {
    if qualifier.Some? && qualifier.value !in Qualifiers then Err(InvalidQualifier(qualifier.value))
    else Ok(pr.(qualifier := qualifier))
  }

  function SetRotation(pr: PageRange, rotation: Option<string>): (r: Result<PageRange>)
    ensures r.Ok? <==> rotation.None? || rotation.value in Rotations
    ensures r.Ok? ==> r.value == pr.(rotation := rotation)
    ensures r.Err? ==> r.error == InvalidRotation(rotation.value)
  {
    if rotation.Some? && rotation.value !in Rotations then Err(InvalidRotation(rotation.value))
    else Ok(pr.(rotation := rotation))
  }

  /** `__toString`: handle, then the start page, then `-end` only when both
      pages are set, then the qualifier only when an end page is set, then
      the rotation; no separators otherwise. */
  function ToString(pr: PageRange): string {
    pr.fileHandle
    + (if pr.startPage.Some? then
         pr.startPage.value + (if pr.endPage.Some? then "-" + pr.endPage.value else "")
       else "")
    + (if pr.endPage.Some? && pr.qualifier.Some? then pr.qualifier.value else "")
    + (if pr.rotation.Some? then pr.rotation.value else "")
  }

  /** Ranges built through the setters: the start page alone, then a
      start and end pair. */
  lemma SetterExamples()
    ensures var a := New("A", None, None, None, None).value;
      && SetStartPage(a, Some("r1")).Ok? && ToString(SetStartPage(a, Some("r1")).value) == "Ar1"
      && SetEndPage(SetStartPage(a, Some("r3")).value, Some("r1")).Ok?
      && ToString(SetEndPage(SetStartPage(a, Some("r3")).value, Some("r1")).value) == "Ar3-r1"
  {
    var a := New("A", None, None, None, None).value;
    assert a == PageRange("A", None, None, None, None);
    assert IsPageToken("r1") && IsPageToken("r3");
  }

  /** A trailing rotation, and a qualifier without an end page, which is
      dropped. */
  lemma ToStringExamples()
    ensures ToString(PageRange("A", Some("1"), Some("2"), None, Some("north"))) == "A1-2north"
    ensures ToString(PageRange("A", Some("r3"), Some("end"), None, Some("north"))) == "Ar3-endnorth"
    ensures ToString(PageRange("A", Some("1"), None, Some("even"), None)) == "A1"
  {
  }
}
