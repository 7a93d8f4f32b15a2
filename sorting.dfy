/**
 * The sort menu of the listing: the current sort field and direction read
 * from the URL, and the change of sort option, which rewrites the `sort`,
 * `dir` and `page` parameters and closes the menu.
 */
module Sorting {
  import opened Wrappers

  /** A sort option; its label and icon are presentation only. */
  datatype SortOption = SortOption(field: string, direction: string)

  /** The listing's default: newest first. */
  const DEFAULT_SORT_SERVERS: SortOption := SortOption("createdAt", "desc")

  /** The options the menu offers. */
  const SERVERS_SORT_OPTIONS: seq<SortOption> := [
    SortOption("createdAt", "desc"),
    SortOption("name", "asc"),
    SortOption("name", "desc"),
    SortOption("stars", "desc"),
    SortOption("lastCommit", "desc")
  ]

  const DEFAULT_PAGE_PARAM: string := "1"

  /** The three URL parameters; `None` is a parameter absent from the URL. */
  datatype SortParams = SortParams(sort: Option<string>, dir: Option<string>, page: Option<string>)

  /** `param || fallback`: an absent or empty parameter gives the fallback. */
  function OrDefault(param: Option<string>, fallback: string): (r: string)
    ensures param.Some? && param.value != "" ==> r == param.value
    ensures param.None? || param.value == "" ==> r == fallback
  {
    if param.Some? && param.value != "" then param.value else fallback
  }

  /** The option the listing is currently sorted by. */
  function Current(p: SortParams, defaultSort: SortOption): SortOption {
    SortOption(OrDefault(p.sort, defaultSort.field), OrDefault(p.dir, defaultSort.direction))
  }

  /** A setter with `clearOnDefault`: the default value removes the parameter. */
  function SetParam(value: string, defaultValue: string): (r: Option<string>)
    ensures value == defaultValue <==> r.None?
    ensures r.Some? ==> r.value == value
  {
    if value == defaultValue then None else Some(value)
  }

  /**
   * The parameters after choosing `option`: unchanged when it is already
   * the current option; otherwise sort and direction are set and the page
   * goes back to the first.
   */
  function SortChange(p: SortParams, option: SortOption, defaultSort: SortOption): (r: SortParams)
    ensures Current(p, defaultSort) == option ==> r == p
    ensures Current(p, defaultSort) != option ==>
      && r.page == SetParam(DEFAULT_PAGE_PARAM, DEFAULT_PAGE_PARAM)
      && r.sort == SetParam(option.field, defaultSort.field)
      && r.dir == SetParam(option.direction, defaultSort.direction)
  {
    if Current(p, defaultSort) == option then p
    else SortParams(SetParam(option.field, defaultSort.field), SetParam(option.direction, defaultSort.direction),
                    SetParam(DEFAULT_PAGE_PARAM, DEFAULT_PAGE_PARAM))
  }

  /** After a change the chosen option is the current one, and the first page is shown. */
  lemma ChosenBecomesCurrent(p: SortParams, option: SortOption, defaultSort: SortOption)
    requires option.field != "" && option.direction != ""
    ensures Current(SortChange(p, option, defaultSort), defaultSort) == option
    ensures Current(p, defaultSort) != option ==> SortChange(p, option, defaultSort).page.None?
  {
  }

  /** Choosing the same option again changes nothing. */
  lemma SortChangeIdempotent(p: SortParams, option: SortOption, defaultSort: SortOption)
    requires option.field != "" && option.direction != ""
    ensures var once := SortChange(p, option, defaultSort);
            SortChange(once, option, defaultSort) == once
  {
    ChosenBecomesCurrent(p, option, defaultSort);
  }

  /** A URL without sort parameters is sorted newest first. */
  lemma NoParamsMeansNewest()
    ensures Current(SortParams(None, None, None), DEFAULT_SORT_SERVERS) == SortOption("createdAt", "desc")
    ensures DEFAULT_SORT_SERVERS in SERVERS_SORT_OPTIONS
  {
  }

  /** The state of one sort menu: whether it is open, and the URL parameters it writes. */
  class SortMenu {
    var open: bool
    var params: SortParams
    const defaultSort: SortOption

    constructor (defaultSort: SortOption, params: SortParams)
      ensures this.defaultSort == defaultSort && this.params == params && !open
    {
      this.defaultSort := defaultSort;
      this.params := params;
      open := false;
    }

    method SetOpen(value: bool)
      modifies this
      ensures open == value && params == old(params)
    {
      open := value;
    }

    /** `handleSortChange`: the menu is closed on every path. */
    method HandleSortChange(option: SortOption)
      modifies this
      ensures !open
      ensures params == SortChange(old(params), option, defaultSort)
    {
      if option == Current(params, defaultSort) {
        open := false;
        return;
      }
      params := params.(sort := SetParam(option.field, defaultSort.field));
      params := params.(dir := SetParam(option.direction, defaultSort.direction));
      params := params.(page := SetParam(DEFAULT_PAGE_PARAM, DEFAULT_PAGE_PARAM));
      open := false;
    }
  }
}
