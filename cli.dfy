/** The course ids given on the command line, checked before the scrape and
    turned into the list of search terms. */
module Cli {
  import opened Text

  /** Course ids (or prefixes of them) have between two and seven characters. */
  predicate GoodLength(id: string) { 1 < |id| < 8 }

  /** The faculty codes offered by the search form: every option but the first,
      which is the form's placeholder. */
  function FacultyCodes(options: seq<string>): seq<string>
  {
    if options == [] then [] else options[1..]
  }

  /** The search terms of a run. Without ids they are every faculty code; with
      ids, every id must have a good length (checked first, over all ids) and
      start with a known faculty code (checked next), and the ids themselves are
      the search terms. The first offending id is reported. */
  method SearchTerms(ids: Option<seq<string>>, options: seq<string>) returns (r: Result<seq<string>>)
    ensures ids.None? ==> r == Ok(FacultyCodes(options))
    ensures ids.Some? ==>
      (r.Ok? <==> forall i :: 0 <= i < |ids.value| ==> GoodLength(ids.value[i]) && ids.value[i][..2] in FacultyCodes(options))
    ensures ids.Some? && r.Ok? ==> r.value == ids.value
    ensures r.Err? ==> ids.Some? && (r.error.BadIdLength? || r.error.UnknownFaculty?)
    ensures r.Err? && r.error.BadIdLength? ==>
      exists k :: 0 <= k < |ids.value| && ids.value[k] == r.error.id && !GoodLength(ids.value[k])
                  && forall i :: 0 <= i < k ==> GoodLength(ids.value[i])
    ensures r.Err? && r.error.UnknownFaculty? ==>
      (forall i :: 0 <= i < |ids.value| ==> GoodLength(ids.value[i]))
      && exists k :: 0 <= k < |ids.value| && ids.value[k][..2] == r.error.code && r.error.code !in FacultyCodes(options)
                     && forall i :: 0 <= i < k ==> ids.value[i][..2] in FacultyCodes(options)
  {
    var codes := FacultyCodes(options);
    if ids.None? {
      return Ok(codes);
    }
    var given := ids.value;
    var j := 0;
    while j < |given|
      invariant 0 <= j <= |given|
      invariant forall i :: 0 <= i < j ==> GoodLength(given[i])
    {
      if !GoodLength(given[j]) {
        return Err(BadIdLength(given[j]));
      }
      j := j + 1;
    }
    j := 0;
    while j < |given|
      invariant 0 <= j <= |given|
      invariant forall i :: 0 <= i < j ==> given[i][..2] in codes
    {
      var facultyCode := given[j][..2];
      if facultyCode !in codes {
        return Err(UnknownFaculty(facultyCode));
      }
      j := j + 1;
    }
    return Ok(given);
  }
}
