/**
 * The reusable search panel `SearchCenterComponent`
 * (search-center.component.ts): the filter record, the criteria record it
 * emits to the page that hosts it, and the state changes behind its
 * buttons and inputs.
 */
module SearchCenter {
  import opened Wrappers
  import opened Text

  /**
   * `SearchFilters`: field name to the value typed or picked. Only string
   * values are modelled; a key that is missing reads as `undefined`.
   */
  type SearchFilters = map<string, string>

  /** `SearchResult`, the criteria record; `poNumber` and `receiveNumber` may be absent. */
  datatype SearchResult = SearchResult(
    id: string,
    poNumber: Option<string>,
    receiveNumber: Option<string>,
    vendor: string,
    date: string,
    status: string,
    kind: string,
    items: int,
    totalValue: int)

  /** The part of `SearchConfig` the panel's logic reads. */
  datatype SearchConfig = SearchConfig(defaultFilters: SearchFilters)

  /** The eleven named filter fields. */
  const FilterKeys: set<string> := {
    "poNumber", "receiveNumber", "outboundNumber", "inventoryCode", "skuCode",
    "customerCode", "status", "type", "dateFrom", "dateTo", "vendor"}

  /**
   * `initializeFilters`: every named field set to `''`, then the config's
   * default filters spread over them.
   */
  function InitialFilters(defaults: SearchFilters): (f: SearchFilters)
    ensures f.Keys == FilterKeys + defaults.Keys
    ensures forall k :: k in defaults ==> f[k] == defaults[k]
    ensures forall k :: k in FilterKeys && k !in defaults ==> f[k] == ""
  {
    (map k | k in FilterKeys :: "") + defaults
  }

  /** `value && value.toString().trim() !== ''` for a string value. */
  predicate Filled(value: string) {
    value != "" && Trim(value) != ""
  }

  /** `hasFilters`: some field holds more than white space. */
  function HasFilters(f: SearchFilters): (b: bool)
    ensures b <==> exists k :: k in f && Trim(f[k]) != ""
  {
    exists k :: k in f && Filled(f[k])
  }

  /** `hasFilters` holds exactly when some value has a character that is not white space. */
  lemma HasFiltersIff(f: SearchFilters)
    ensures HasFilters(f) <==> exists k, i :: k in f && 0 <= i < |f[k]| && !IsSpace(f[k][i])
  {
    forall k | k in f {
      TrimEmptyIffBlank(f[k]);
    }
  }

  /** With no defaults, or only blank ones, a freshly initialised record has no filters. */
  lemma InitialHasNoFilters(defaults: SearchFilters)
    requires forall k :: k in defaults ==> Trim(defaults[k]) == ""
    ensures !HasFilters(InitialFilters(defaults))
  {
    var f := InitialFilters(defaults);
    forall k | k in f ensures !Filled(f[k]) {
      if k !in defaults {
        assert f[k] == "";
      }
    }
  }

  /** `this.filters.k || ''`: the value, or `''` when the key is missing. */
  function ValueOf(f: SearchFilters, k: string): (v: string)
    ensures k in f ==> v == f[k]
    ensures k !in f ==> v == ""
  {
    if k in f then f[k] else ""
  }

  /** A field whose value is truthy: present and non-empty. */
  function Given(f: SearchFilters, k: string): (r: Option<string>)
    ensures r.Some? <==> k in f && f[k] != ""
    ensures r.Some? ==> r.value == f[k]
  {
    if k in f && f[k] != "" then Some(f[k]) else None
  }

  /**
   * The criteria record `searchData` emits: empty id, `vendor`, `status`
   * and `type` copied (or `''`), `date` from `dateFrom`, zero counts, and
   * the two document numbers only when they were filled in.
   */
  function Criteria(f: SearchFilters): (r: SearchResult)
    ensures r.id == "" && r.items == 0 && r.totalValue == 0
    ensures r.poNumber.Some? <==> "poNumber" in f && f["poNumber"] != ""
    ensures r.receiveNumber.Some? <==> "receiveNumber" in f && f["receiveNumber"] != ""
    ensures r.poNumber.Some? ==> r.poNumber.value == f["poNumber"]
    ensures r.receiveNumber.Some? ==> r.receiveNumber.value == f["receiveNumber"]
    ensures r.vendor == ValueOf(f, "vendor") && r.status == ValueOf(f, "status")
    ensures r.kind == ValueOf(f, "type") && r.date == ValueOf(f, "dateFrom")
  {
    SearchResult("", Given(f, "poNumber"), Given(f, "receiveNumber"),
      ValueOf(f, "vendor"), ValueOf(f, "dateFrom"), ValueOf(f, "status"), ValueOf(f, "type"), 0, 0)
  }

  /** One value sent on one of the panel's outputs. */
  datatype Output =
    | FiltersChanged(filters: SearchFilters)
    | SearchResults(list: seq<SearchResult>)
    | SearchResultPicked(result: SearchResult)

  class SearchCenterPanel {
    var config: Option<SearchConfig>
    var filters: SearchFilters
    var results: seq<SearchResult>
    var isSearching: bool
    var showAdvancedFilters: bool
    /** Every value emitted on `filtersChanged`, `searchResults` or `searchResult`, oldest first. */
    var outputs: seq<Output>

    constructor(config: Option<SearchConfig>)
      ensures this.config == config && filters == map[] && results == [] && outputs == []
      ensures !isSearching && !showAdvancedFilters
    {
      this.config := config;
      filters, results, outputs := map[], [], [];
      isSearching, showAdvancedFilters := false, false;
    }

    /** `ngOnInit`: the filters are initialised when a config was given. */
    method NgOnInit()
      modifies this`filters
      ensures config.Some? ==> filters == InitialFilters(config.value.defaultFilters)
      ensures config.None? ==> filters == old(filters)
    {
      if config.Some? {
        filters := InitialFilters(config.value.defaultFilters);
      }
    }

    /** A form control bound to `filters[key]` takes a new value. */
    method SetFilter(key: string, value: string)
      modifies this`filters
      ensures filters == old(filters)[key := value]
    {
      filters := filters[key := value];
    }

    /** `selectResult(result)`: the record is emitted on `searchResult`. */
    method SelectResult(result: SearchResult)
      modifies this`outputs
      ensures outputs == old(outputs) + [SearchResultPicked(result)]
    {
      outputs := outputs + [SearchResultPicked(result)];
    }

    /** `clearFilters`: re-initialise when configured, then emit the empty list. */
    method ClearFilters()
      modifies this`filters, this`results, this`outputs
      ensures config.Some? ==> filters == InitialFilters(config.value.defaultFilters)
      ensures config.None? ==> filters == old(filters)
      ensures results == [] && outputs == old(outputs) + [SearchResults([])]
    {
      NgOnInit();
      results := [];
      outputs := outputs + [SearchResults([])];
    }

    /** `toggleAdvancedFilters`. */
    method ToggleAdvancedFilters()
      modifies this`showAdvancedFilters
      ensures showAdvancedFilters == !old(showAdvancedFilters)
    {
      showAdvancedFilters := !showAdvancedFilters;
    }

    /**
     * `searchData`: exactly one criteria record is kept; the filters are
     * emitted on `filtersChanged`, then the record on `searchResults`, and
     * searching ends.
     */
    method SearchData()
      modifies this`isSearching, this`results, this`outputs
      ensures results == [Criteria(filters)] && !isSearching
      ensures outputs == old(outputs) + [FiltersChanged(filters), SearchResults(results)]
    {
      isSearching := true;
      var activeCriteria := SearchResult("", None, None, ValueOf(filters, "vendor"), ValueOf(filters, "dateFrom"),
        ValueOf(filters, "status"), ValueOf(filters, "type"), 0, 0);
      if "poNumber" in filters && filters["poNumber"] != "" {
        activeCriteria := activeCriteria.(poNumber := Some(filters["poNumber"]));
      }
      if "receiveNumber" in filters && filters["receiveNumber"] != "" {
        activeCriteria := activeCriteria.(receiveNumber := Some(filters["receiveNumber"]));
      }
      results := [activeCriteria];
      isSearching := false;
      outputs := outputs + [FiltersChanged(filters), SearchResults(results)];
    }

    /** `onFilterChange`: search when some filter is filled, otherwise emit the empty list. */
    method OnFilterChange()
      modifies this`isSearching, this`results, this`outputs
      ensures HasFilters(filters) ==> results == [Criteria(filters)] && !isSearching
      ensures HasFilters(filters) ==> outputs == old(outputs) + [FiltersChanged(filters), SearchResults(results)]
      ensures !HasFilters(filters) ==> results == [] && isSearching == old(isSearching)
      ensures !HasFilters(filters) ==> outputs == old(outputs) + [SearchResults([])]
    {
      if HasFilters(filters) {
        SearchData();
      } else {
        results := [];
        outputs := outputs + [SearchResults([])];
      }
    }
  }
}
