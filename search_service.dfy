/**
 * The mock search of `SearchService.getMockResults` (search.service.ts): a
 * filter over four fixed receiving documents.
 */
module SearchService {
  import opened Wrappers
  import opened Seqs
  import opened Text
  import opened SearchCenter

  /** The four receiving documents the mock search runs over. */
  const MockData: seq<SearchResult> := [
    SearchResult("RCV-2024-001", Some("PO-2024-001"), Some("RCV-2024-001"), "บริษัท เอ จำกัด", "2024-01-15", "Received", "Normal", 15, 25000),
    SearchResult("RCV-2024-002", Some("PO-2024-002"), Some("RCV-2024-002"), "บริษัท บี จำกัด", "2024-01-16", "Pending", "Import", 8, 18000),
    SearchResult("RCV-2024-003", Some("PO-2024-003"), Some("RCV-2024-003"), "บริษัท ซี จำกัด", "2024-01-17", "Received", "Return", 5, 12000),
    SearchResult("RCV-2024-004", Some("PO-2024-004"), Some("RCV-2024-004"), "บริษัท เอ จำกัด", "2024-01-18", "Pending", "Normal", 20, 35000)]

  /** `!filters.k`: the field is missing or empty. */
  predicate Unset(f: SearchFilters, k: string) {
    k !in f || f[k] == ""
  }

  /** `value?.toLowerCase().includes(term.toLowerCase())`. */
  predicate ContainsIgnoringCase(value: Option<string>, term: string) {
    value.Some? && Includes(ToLower(value.value), ToLower(term))
  }

  /** A text criterion: unset, or a case-insensitive substring of the field. */
  predicate TextMatch(f: SearchFilters, k: string, value: Option<string>) {
    Unset(f, k) || ContainsIgnoringCase(value, f[k])
  }

  /** An exact criterion: unset, or equal to the field. */
  predicate ExactMatch(f: SearchFilters, k: string, value: string) {
    Unset(f, k) || value == f[k]
  }

  /**
   * The date range with both bounds inclusive, on ISO `yyyy-mm-dd` strings
   * compared character by character.
   */
  predicate DateMatch(f: SearchFilters, date: string) {
    && (Unset(f, "dateFrom") || LexLe(f["dateFrom"], date))
    && (Unset(f, "dateTo") || LexLe(date, f["dateTo"]))
  }

  /** The conjunction the mock search applies to each record. */
  predicate Matches(f: SearchFilters, item: SearchResult) {
    && TextMatch(f, "poNumber", item.poNumber)
    && TextMatch(f, "receiveNumber", item.receiveNumber)
    && ExactMatch(f, "status", item.status)
    && ExactMatch(f, "type", item.kind)
    && TextMatch(f, "vendor", Some(item.vendor))
    && DateMatch(f, item.date)
  }

  function MatchesFor(f: SearchFilters): SearchResult -> bool {
    (item: SearchResult) => Matches(f, item)
  }

  /** `getMockResults(filters)`. */
  function GetMockResults(f: SearchFilters): (r: seq<SearchResult>)
    ensures |r| <= |MockData|
    ensures forall x :: x in r ==> x in MockData && Matches(f, x)
  {
    Filter(MockData, MatchesFor(f))
  }

  /**
   * The result keeps the order of the fixed list and holds exactly the
   * records that satisfy every criterion.
   */
  lemma MockResultsMeaning(f: SearchFilters)
    ensures IsSubsequence(GetMockResults(f), MockData)
    ensures forall x :: x in GetMockResults(f) <==> x in MockData && Matches(f, x)
  {
    FilterMeaning(MockData, MatchesFor(f));
    forall x | x in MockData && Matches(f, x) ensures x in GetMockResults(f) {
      FilterKeeps(MockData, MatchesFor(f), x);
    }
  }

  /** The seven keys the mock search reads. */
  const SearchKeys: set<string> := {"poNumber", "receiveNumber", "status", "type", "vendor", "dateFrom", "dateTo"}

  /** With every criterion empty or absent the four records come back. */
  lemma NoCriteriaAll(f: SearchFilters)
    requires forall k :: k in SearchKeys ==> Unset(f, k)
    ensures GetMockResults(f) == MockData
  {
    assert forall k :: k in SearchKeys ==> Unset(f, k);
    FilterAll(MockData, MatchesFor(f));
  }

  /** Text criteria ignore case: a term and its lower-case form find the same records. */
  lemma TextIgnoresCase(f: SearchFilters, k: string)
    requires k in {"poNumber", "receiveNumber", "vendor"} && k in f
    ensures GetMockResults(f[k := ToLower(f[k])]) == GetMockResults(f)
  {
    var g := f[k := ToLower(f[k])];
    LowerIdempotent(f[k]);
    assert Unset(g, k) == Unset(f, k);
    assert forall x :: Matches(g, x) == Matches(f, x);
    FilterEquivalent(MockData, MatchesFor(g), MatchesFor(f));
  }

  /** Filling in one more criterion never brings back a record the search had left out. */
  lemma MoreCriteriaFewerResults(f: SearchFilters, k: string, v: string)
    requires Unset(f, k)
    ensures IsSubsequence(GetMockResults(f[k := v]), GetMockResults(f))
  {
    FilterStronger(MockData, MatchesFor(f[k := v]), MatchesFor(f));
  }

  /** Status is an exact match: `Pending` keeps the second and the fourth record. */
  lemma PendingOnly()
    ensures GetMockResults(map["status" := "Pending"]) == [MockData[1], MockData[3]]
  {
    var f := map["status" := "Pending"];
    assert !Matches(f, MockData[0]) && Matches(f, MockData[1]);
    assert !Matches(f, MockData[2]) && Matches(f, MockData[3]);
    assert MockData[1..][1..][1..][1..] == [];
  }
}
