/** The viewer's state machine: the module-level variables currentPage,
    allPokemon, filteredPokemon and isLoading, the display of the "load more"
    button, and the handlers that change them (page load, load more, search,
    type filter, surprise pick). The network is an input: the result of each
    fetch, None where fetchPokemon returns null. */
module Pokedex {

  import opened Seqs
  import opened Text
  import opened Catalog

  /** pokemonPerPage */
  const PageSize: int := 20

  /** The highest id loadPokemon ever requests. */
  const LastId: int := 1010

  /** The ids first..last, both included; empty when last < first. */
  datatype IdRange = IdRange(first: int, last: int) {
    function Count(): nat { if last < first then 0 else last - first + 1 }
    predicate Has(id: int) { first <= id <= last }
  }

  /** The startId..endId that loadPokemon computes for a page:
      startId = (page - 1) * 20 + 1 and endId = min(startId + 19, 1010). A page
      never holds more than twenty ids, never an id above 1010, and is a full
      twenty exactly when it ends at or before 1010. */
  function PageRange(page: int): (r: IdRange)
    ensures r.Count() <= PageSize
    ensures r.last <= LastId
    ensures page >= 1 ==> r.first >= 1
    ensures r.Count() == PageSize <==> page * PageSize <= LastId
  {
    var first := (page - 1) * PageSize + 1;
    IdRange(first, if first + PageSize - 1 < LastId then first + PageSize - 1 else LastId)
  }

  /** The page an id belongs to. */
  function PageOf(id: int): int
    requires id >= 1
  {
    (id - 1) / PageSize + 1
  }

  /** Every id the catalogue goes up to is requested by exactly one page:
      the page PageOf names. */
  lemma PageOfRoundTrip(id: int, page: int)
    requires 1 <= id <= LastId && page >= 1
    ensures PageRange(PageOf(id)).Has(id)
    ensures PageRange(page).Has(id) <==> page == PageOf(id)
  {
  }

  /** A later page starts after an earlier one ends, so no id is requested
      by two pages. */
  lemma PagesDisjoint(p: int, q: int)
    requires 1 <= p < q
    ensures PageRange(p).last < PageRange(q).first
  {
  }

  /** The two rules for the "load more" button agree right after a page
      load: endId < 1010 after loading a page exactly when
      page * 20 < 1010. */
  lemma LoadMoreRulesAgree(page: int)
    requires page >= 1
    ensures PageRange(page).last < LastId <==> page * PageSize < LastId
  {
  }

  /** The loop of loadPokemon that issues one fetchPokemon per id: the ids
      of the range, in increasing order. */
  method RequestedIds(range: IdRange) returns (ids: seq<int>)
    ensures |ids| == range.Count()
    ensures forall k :: 0 <= k < |ids| ==> ids[k] == range.first + k
    ensures forall id :: id in ids <==> range.Has(id)
  {
    ids := [];
    var i := range.first;
    while i <= range.last
      invariant range.first <= i
      invariant i <= range.last + 1 || i == range.first
      invariant |ids| == i - range.first
      invariant forall k :: 0 <= k < |ids| ==> ids[k] == range.first + k
      decreases range.last - i
    {
      ids := ids + [i];
      i := i + 1;
    }
    forall id | range.Has(id) ensures id in ids {
      assert ids[id - range.first] == id;
    }
  }

  /** What Promise.all yields for a range when fetchPokemon(id) settles to
      fetch(id): one result per id, in id order. */
  function Fetches(range: IdRange, fetch: int -> Option<Pokemon>): (results: seq<Option<Pokemon>>)
    ensures |results| == range.Count()
  {
    seq(range.Count(), k requires 0 <= k < range.Count() => fetch(range.first + k))
  }

  /** searchInput.value.trim().toLowerCase(): empty exactly when the input is
      all white space, otherwise free of white space at both ends, and
      without capitals. */
  function SearchTerm(input: string): (term: string)
    ensures term == [] <==> forall i :: 0 <= i < |input| ==> IsWhitespace(input[i])
    ensures term != [] ==> !IsWhitespace(term[0]) && !IsWhitespace(term[|term| - 1])
    ensures forall i :: 0 <= i < |term| ==> !IsAsciiUpper(term[i])
  {
    LowerKeepsEnds(Trim(input));
    ToLower(Trim(input))
  }

  /** The search of a term is stable: normalising a term a second time does
      not change it. */
  lemma SearchTermIdempotent(input: string)
    ensures SearchTerm(SearchTerm(input)) == SearchTerm(input)
  {
    var t := Trim(input);
    var lower := ToLower(t);
    LowerKeepsEnds(t);
    TrimUnchanged(lower);
    ToLowerIdempotent(t);
  }

  /** Lower-casing never turns a character into white space. */
  lemma LowerKeepsEnds(t: string)
    requires t == [] || (!IsWhitespace(t[0]) && !IsWhitespace(t[|t| - 1]))
    ensures ToLower(t) == [] || (!IsWhitespace(ToLower(t)[0]) && !IsWhitespace(ToLower(t)[|t| - 1]))
  {
    if t != [] {
      assert ToLower(t)[0] == LowerChar(t[0]);
      assert ToLower(t)[|t| - 1] == LowerChar(t[|t| - 1]);
    }
  }

  /** The entry's lower-cased name or its decimal id includes the term. The
      empty term matches every entry, and a term longer than both matches
      none. */
  predicate MatchesSearch(p: Pokemon, term: string)
    ensures term == [] ==> MatchesSearch(p, term)
    ensures MatchesSearch(p, term) ==> |term| <= |p.name| || |term| <= |DecimalString(p.id)|
  {
    Contains(ToLower(p.name), term) || Contains(DecimalString(p.id), term)
  }

  /** An entry matches exactly when the term occurs at some index of its
      lower-cased name or of its decimal id. */
  lemma MatchesSearchIffOccurs(p: Pokemon, term: string)
    ensures MatchesSearch(p, term) <==>
      (exists i :: OccursAt(ToLower(p.name), term, i)) ||
      (exists i :: OccursAt(DecimalString(p.id), term, i))
  {
    ContainsIffOccurs(ToLower(p.name), term);
    ContainsIffOccurs(DecimalString(p.id), term);
    if i :| OccursAt(ToLower(p.name), term, i) {
      assert Contains(ToLower(p.name), term);
    }
    if i :| OccursAt(DecimalString(p.id), term, i) {
      assert Contains(DecimalString(p.id), term);
    }
  }

  /** handleSearch's new filtered list for a normalised term: the whole list
      for the empty term; otherwise exactly the entries that match the term,
      each as often as in the list, in their original order. */
  function SearchResults(all: seq<Pokemon>, term: string): (r: seq<Pokemon>)
    ensures term == "" ==> r == all
    ensures Subsequence(r, all)
    ensures term != "" ==>
      forall p :: multiset(r)[p] == if MatchesSearch(p, term) then multiset(all)[p] else 0
  {
    SubsequenceReflexive(all);
    if term == "" then all else Filter(all, p => MatchesSearch(p, term))
  }

  /** Searching for an entry's id, as digits and with any surrounding white
      space or case, finds that entry. */
  lemma SearchFindsId(all: seq<Pokemon>, p: Pokemon)
    requires p in all
    ensures p in SearchResults(all, SearchTerm(DecimalString(p.id)))
  {
    var d := DecimalString(p.id);
    DigitsSearchTerm(d);
    assert Contains(d, d);
    var r := SearchResults(all, SearchTerm(d));
    assert multiset(r)[p] == multiset(all)[p];
  }

  /** The number shown on a card is not what the search looks at: for an
      id below 100 the padded number ("007", "025") is longer than the id's
      digits, so searching it can only match through the name, and never
      matches a name without a '0'. */
  lemma PaddedNumberMatchesOnlyNames(p: Pokemon)
    requires p.id < 100
    ensures MatchesSearch(p, SearchTerm(PaddedId(p.id))) <==> Contains(ToLower(p.name), PaddedId(p.id))
    ensures '0' !in ToLower(p.name) ==> !MatchesSearch(p, SearchTerm(PaddedId(p.id)))
  {
    var padded := PaddedId(p.id);
    assert |DecimalString(p.id)| < 3 by {
      if p.id >= 10 {
        assert DecimalString(p.id) == DecimalString(p.id / 10) + [DigitChar(p.id % 10)];
      }
    }
    assert padded[0] == '0';
    DigitsSearchTerm(padded);
    ContainsNeedsFirstChar(ToLower(p.name), padded);
  }

  /** A string of digits is its own search term. */
  lemma DigitsSearchTerm(d: string)
    requires forall i :: 0 <= i < |d| ==> IsDigit(d[i])
    ensures SearchTerm(d) == d
  {
    if d != [] {
      assert IsDigit(d[0]) && IsDigit(d[|d| - 1]);
    }
    TrimUnchanged(d);
    ToLowerUnchanged(d);
  }

  /** pokemon.types.some(type => type.type.name === t): some position of the
      entry's type list holds t. */
  predicate HasType(p: Pokemon, t: string)
    ensures HasType(p, t) <==> exists i :: 0 <= i < |p.types| && p.types[i] == t
  {
    t in p.types
  }

  /** handleTypeFilter's new filtered list: the whole list for the empty
      selection; otherwise exactly the entries with a type of that name, each
      as often as in the list, in their original order. */
  function TypeResults(all: seq<Pokemon>, selected: string): (r: seq<Pokemon>)
    ensures selected == "" ==> r == all
    ensures Subsequence(r, all)
    ensures selected != "" ==>
      forall p :: multiset(r)[p] == if HasType(p, selected) then multiset(all)[p] else 0
  {
    SubsequenceReflexive(all);
    if selected == "" then all else Filter(all, p => HasType(p, selected))
  }

  /** A type that no loaded entry has gives an empty list. */
  lemma UnknownTypeGivesNothing(all: seq<Pokemon>, selected: string)
    requires selected != ""
    requires forall i :: 0 <= i < |all| ==> !HasType(all[i], selected)
    ensures TypeResults(all, selected) == []
  {
    FilterKeepsNone(all, p => HasType(p, selected));
  }

  /** When every loaded entry has the selected type, the filter keeps the
      whole list. */
  lemma CommonTypeKeepsAll(all: seq<Pokemon>, selected: string)
    requires forall i :: 0 <= i < |all| ==> HasType(all[i], selected)
    ensures TypeResults(all, selected) == all
  {
    FilterKeepsAll(all, p => HasType(p, selected));
  }

  /** renderFilteredPokemon's rule: hidden while the filter leaves entries
      out, otherwise shown while currentPage * 20 < 1010. */
  function LoadMoreAfterFilter(filteredCount: nat, allCount: nat, page: int): (shown: bool)
    ensures page >= 1 ==>
      (shown <==> filteredCount >= allCount && PageRange(page).last < LastId)
  {
    if filteredCount < allCount then false else page * PageSize < LastId
  }

  /** A filter that narrows the list always hides the button, and one that
      keeps everything shows it exactly when the current page ends before
      1010, as the page load itself decides. */
  lemma LoadMoreAfterFilterMeaning(filtered: seq<Pokemon>, all: seq<Pokemon>, page: int)
    requires Subsequence(filtered, all) && page >= 1
    ensures filtered != all ==> !LoadMoreAfterFilter(|filtered|, |all|, page)
    ensures filtered == all ==>
      (LoadMoreAfterFilter(|filtered|, |all|, page) <==> PageRange(page).last < LastId)
  {
    if filtered != all {
      SubsequenceShorter(filtered, all);
    }
  }

  /** Later pages reach at least as far, and each page starts after the
      previous one ends: right after it, unless the earlier page already
      reached 1010. */
  lemma PageRangeGrows(page: int)
    ensures PageRange(page).last <= PageRange(page + 1).last
    ensures PageRange(page).last < PageRange(page + 1).first
    ensures PageRange(page).last + 1 == PageRange(page + 1).first ||
            PageRange(page + 1).last == PageRange(page).last
  {
  }

  /** after is before with the ids of r added. */
  ghost predicate AddsRange(before: set<int>, after: set<int>, r: IdRange)
  {
    forall id :: id in after <==> id in before || r.Has(id)
  }

  /** The ids strictly increase along the list, so no id occurs twice. */
  ghost predicate IdsAscending(s: seq<Pokemon>)
  {
    forall i, j :: 0 <= i < j < |s| ==> s[i].id < s[j].id
  }

  /** One result per id of the range, and each entry that came back is the
      entry for the id it was requested for (what /pokemon/{id} answers). */
  ghost predicate AnswersRange(results: seq<Option<Pokemon>>, range: IdRange)
  {
    |results| == range.Count() &&
    forall k :: 0 <= k < |results| && results[k].Some? ==> results[k].value.id == range.first + k
  }

  /** Every entry the network returns is the one for the id asked for. */
  ghost predicate AnswersOwnId(fetch: int -> Option<Pokemon>)
  {
    forall id :: fetch(id).Some? ==> fetch(id).value.id == id
  }

  /** The entries kept from a batch that answers first, first + 1, ... are in
      increasing id order, within the ids requested. */
  lemma {:induction false} PresentOfAnswers(results: seq<Option<Pokemon>>, first: int)
    requires forall k :: 0 <= k < |results| && results[k].Some? ==> results[k].value.id == first + k
    ensures IdsAscending(Present(results))
    ensures forall i :: 0 <= i < |Present(results)| ==>
      first <= Present(results)[i].id < first + |results|
  {
    if results != [] {
      var rest := results[1..];
      forall k | 0 <= k < |rest| && rest[k].Some? ensures rest[k].value.id == (first + 1) + k {
        assert rest[k] == results[k + 1];
      }
      PresentOfAnswers(rest, first + 1);
    }
  }

  /** Appending a list of higher ids keeps the order. */
  lemma AscendingAppend(a: seq<Pokemon>, b: seq<Pokemon>, bound: int)
    requires IdsAscending(a) && IdsAscending(b)
    requires forall i :: 0 <= i < |a| ==> a[i].id < bound
    requires forall j :: 0 <= j < |b| ==> bound <= b[j].id
    ensures IdsAscending(a + b)
  {
  }

  /** The module-level state of the viewer. */
  class App {
    var currentPage: int
    var allPokemon: seq<Pokemon>
    var filteredPokemon: seq<Pokemon>
    var isLoading: bool
    /** loadMoreBtn.style.display == 'block' */
    var loadMoreShown: bool
    /** The id range of the loadPokemon call that is suspended at its
        await, if one is. */
    var inFlight: Option<IdRange>
    /** Every id some call of loadPokemon has issued a fetch for. */
    ghost var requested: set<int>

    /** Pages start at 1, the flag is set exactly while a load is suspended,
        a load in flight asks for at most a page of ids up to 1010, the
        filtered list is an order-preserving selection of the loaded list, and
        no id beyond the current page has been requested. */
    ghost predicate Valid()
      reads this
    {
      currentPage >= 1 &&
      (isLoading <==> inFlight.Some?) &&
      (inFlight.Some? ==> inFlight.value.Count() <= PageSize && inFlight.value.last <= LastId) &&
      Subsequence(filteredPokemon, allPokemon) &&
      RequestedWithinPages()
    }

    ghost predicate RequestedWithinPages()
      reads this
    {
      forall id :: id in requested ==> 1 <= id <= PageRange(currentPage).last
    }

    /** Every id up to the end of the current page has been requested: no
        page was passed over. */
    ghost predicate NoGap()
      reads this
    {
      forall id :: 1 <= id <= PageRange(currentPage).last ==> id in requested
    }

    ghost predicate LoadedBelow(bound: int)
      reads this
    {
      forall i :: 0 <= i < |allPokemon| ==> allPokemon[i].id < bound
    }

    /** The loaded entries are in strictly increasing id order, none beyond
        the current page; a load in flight asks only for ids above every
        loaded one and not beyond the current page. The page loads keep this
        when the API answers each id with that id. */
    ghost predicate Ordered()
      reads this
    {
      IdsAscending(allPokemon) &&
      (forall i :: 0 <= i < |allPokemon| ==> allPokemon[i].id <= PageRange(currentPage).last) &&
      (inFlight.Some? ==>
        LoadedBelow(inFlight.value.first) && inFlight.value.last <= PageRange(currentPage).last)
    }

    /** The state when the script starts; the button's initial display
        comes from the page's markup. */
    constructor (loadMoreInitiallyShown: bool)
      ensures Valid() && Ordered()
      ensures currentPage == 1 && allPokemon == [] && filteredPokemon == []
      ensures !isLoading && inFlight == None
      ensures loadMoreShown == loadMoreInitiallyShown && requested == {}
    {
      currentPage := 1;
      allPokemon := [];
      filteredPokemon := [];
      isLoading := false;
      loadMoreShown := loadMoreInitiallyShown;
      inFlight := None;
      requested := {};
    }

    /** loadPokemon up to its await: refused, with nothing changed, while a
        load is in flight; otherwise raises the flag and requests the ids of
        the current page. */
    method StartLoad() returns (ids: Option<seq<int>>)
      requires Valid()
      modifies this`isLoading, this`inFlight, this`requested
      ensures Valid()
      ensures old(isLoading) ==>
        ids == None && isLoading && inFlight == old(inFlight) && requested == old(requested)
      ensures !old(isLoading) ==>
        isLoading && inFlight == Some(PageRange(currentPage)) && ids.Some? &&
        |ids.value| == PageRange(currentPage).Count() &&
        (forall k :: 0 <= k < |ids.value| ==> ids.value[k] == PageRange(currentPage).first + k) &&
        AddsRange(old(requested), requested, PageRange(currentPage))
      ensures old(Ordered()) && (old(isLoading) || old(LoadedBelow(PageRange(currentPage).first))) ==>
        Ordered()
    {
      if isLoading {
        return None;
      }
      isLoading := true;
      var range := PageRange(currentPage);
      var requestedIds := RequestedIds(range);
      inFlight := Some(range);
      requested := requested + set id | id in requestedIds;
      ids := Some(requestedIds);
    }

    /** The rest of loadPokemon once every fetch of the batch has settled,
        with results[k] the result for the k-th requested id. The present
        results are appended in id order, the filter is dropped, the button
        follows endId < 1010, and the finally block lowers the flag. When
        rendering the new cards throws, the entries are already in the lists,
        the button is left as it was and an error is shown. */
    method FinishLoad(results: seq<Option<Pokemon>>, renderFails: bool) returns (errorShown: bool)
      requires Valid() && inFlight.Some? && |results| == inFlight.value.Count()
      modifies this`allPokemon, this`filteredPokemon, this`isLoading, this`inFlight, this`loadMoreShown
      ensures Valid()
      ensures allPokemon == old(allPokemon) + Present(results)
      ensures filteredPokemon == allPokemon
      ensures !isLoading && inFlight == None
      ensures loadMoreShown == if renderFails then old(loadMoreShown) else old(inFlight).value.last < LastId
      ensures errorShown == renderFails
      ensures old(Ordered()) && AnswersRange(results, old(inFlight).value) ==> Ordered()
    {
      var range := inFlight.value;
      ghost var before := allPokemon;
      ghost var wasOrdered := Ordered();
      allPokemon := allPokemon + Present(results);
      filteredPokemon := allPokemon;
      SubsequenceReflexive(allPokemon);
      if renderFails {
        errorShown := true;
      } else {
        loadMoreShown := range.last < LastId;
        errorShown := false;
      }
      isLoading := false;
      inFlight := None;
      if wasOrdered && AnswersRange(results, range) {
        PresentOfAnswers(results, range.first);
        AscendingAppend(before, Present(results), range.first);
      }
    }

    /** loadPokemon when nothing else runs while it waits, with fetch(id)
        standing for what fetchPokemon(id) settles to. */
    method LoadPokemon(fetch: int -> Option<Pokemon>, renderFails: bool) returns (errorShown: bool)
      requires Valid()
      modifies this`allPokemon, this`filteredPokemon, this`isLoading, this`inFlight, this`loadMoreShown
      modifies this`requested
      ensures Valid()
      ensures old(isLoading) ==> unchanged(this) && !errorShown
      ensures !old(isLoading) ==>
        AddsRange(old(requested), requested, PageRange(currentPage)) &&
        allPokemon == old(allPokemon) + Present(Fetches(PageRange(currentPage), fetch)) &&
        filteredPokemon == allPokemon && !isLoading && inFlight == None &&
        loadMoreShown == (if renderFails then old(loadMoreShown) else PageRange(currentPage).last < LastId) &&
        errorShown == renderFails
      ensures old(Ordered()) && AnswersOwnId(fetch) ==>
        (old(isLoading) || old(LoadedBelow(PageRange(currentPage).first)) ==> Ordered())
    {
      var ids := StartLoad();
      if ids.None? {
        return false;
      }
      var results := seq(|ids.value|, k requires 0 <= k < |ids.value| => fetch(ids.value[k]));
      assert results == Fetches(PageRange(currentPage), fetch);
      errorShown := FinishLoad(results, renderFails);
    }

    /** loadMorePokemon: the page number moves on by one, and then the
        guarded load starts; when a load is already in flight that page
        number is used up without being fetched, so a page that still had
        ids is passed over for good. */
    method LoadMore() returns (ids: Option<seq<int>>)
      requires Valid()
      modifies this`currentPage, this`isLoading, this`inFlight, this`requested
      ensures Valid()
      ensures currentPage == old(currentPage) + 1
      ensures old(isLoading) ==>
        ids == None && isLoading && inFlight == old(inFlight) && requested == old(requested)
      ensures !old(isLoading) ==>
        isLoading && inFlight == Some(PageRange(currentPage)) && ids.Some? &&
        |ids.value| == PageRange(currentPage).Count() &&
        (forall k :: 0 <= k < |ids.value| ==> ids.value[k] == PageRange(currentPage).first + k) &&
        AddsRange(old(requested), requested, PageRange(currentPage))
      ensures old(Ordered()) ==> Ordered()
      ensures !old(isLoading) && old(NoGap()) ==> NoGap()
      ensures old(isLoading) && old(currentPage) * PageSize < LastId ==> !NoGap()
    {
      PageRangeGrows(currentPage);
      ghost var skipped := currentPage * PageSize + 1;
      currentPage := currentPage + 1;
      ids := StartLoad();
      if old(isLoading) && old(currentPage) * PageSize < LastId {
        assert skipped !in requested && 1 <= skipped <= PageRange(currentPage).last;
      }
    }

    /** loadMorePokemon with the guard moved in front of the page
        increment: while a load is in flight nothing happens, so every page
        is requested in turn. */
    method LoadMoreWhenIdle() returns (ids: Option<seq<int>>)
      requires Valid()
      modifies this`currentPage, this`isLoading, this`inFlight, this`requested
      ensures Valid()
      ensures old(isLoading) ==> ids == None && unchanged(this)
      ensures !old(isLoading) ==>
        currentPage == old(currentPage) + 1 &&
        isLoading && inFlight == Some(PageRange(currentPage)) && ids.Some? &&
        |ids.value| == PageRange(currentPage).Count() &&
        (forall k :: 0 <= k < |ids.value| ==> ids.value[k] == PageRange(currentPage).first + k) &&
        AddsRange(old(requested), requested, PageRange(currentPage))
      ensures old(Ordered()) ==> Ordered()
      ensures old(NoGap()) ==> NoGap()
    {
      if isLoading {
        return None;
      }
      ids := LoadMore();
    }

    /** renderFilteredPokemon: the cards are drawn first and the button is
        updated after them. When drawing a card throws (renderFails), the
        exception leaves before the update and the button keeps its display. */
    method RenderFiltered(renderFails: bool)
      modifies this`loadMoreShown
      ensures renderFails ==> loadMoreShown == old(loadMoreShown)
      ensures !renderFails ==>
        loadMoreShown == LoadMoreAfterFilter(|filteredPokemon|, |allPokemon|, currentPage)
    {
      if renderFails {
        return;
      }
      if |filteredPokemon| < |allPokemon| {
        loadMoreShown := false;
      } else {
        loadMoreShown := currentPage * PageSize < LastId;
      }
    }

    /** handleSearch: the list is re-filtered from everything loaded, so an
        earlier search or type filter is forgotten. The new list is assigned
        before it is drawn, so it stays even when drawing throws. */
    method Search(input: string, renderFails: bool)
      requires Valid()
      modifies this`filteredPokemon, this`loadMoreShown
      ensures Valid()
      ensures filteredPokemon == SearchResults(allPokemon, SearchTerm(input))
      ensures renderFails ==> loadMoreShown == old(loadMoreShown)
      ensures !renderFails ==>
        loadMoreShown == LoadMoreAfterFilter(|filteredPokemon|, |allPokemon|, currentPage)
    {
      var results := SearchResults(allPokemon, SearchTerm(input));
      assert Subsequence(results, allPokemon);
      filteredPokemon := results;
      RenderFiltered(renderFails);
    }

    /** handleTypeFilter: the list is re-filtered from everything loaded; as
        in handleSearch, the new list stays even when drawing it throws. */
    method FilterByType(selected: string, renderFails: bool)
      requires Valid()
      modifies this`filteredPokemon, this`loadMoreShown
      ensures Valid()
      ensures filteredPokemon == TypeResults(allPokemon, selected)
      ensures renderFails ==> loadMoreShown == old(loadMoreShown)
      ensures !renderFails ==>
        loadMoreShown == LoadMoreAfterFilter(|filteredPokemon|, |allPokemon|, currentPage)
    {
      var results := TypeResults(allPokemon, selected);
      assert Subsequence(results, allPokemon);
      filteredPokemon := results;
      RenderFiltered(renderFails);
    }

    /** handleSurprise: nothing on an empty list; otherwise one loaded entry,
        at an index chosen freely in [0, length). */
    method Surprise() returns (picked: Option<Pokemon>)
      ensures picked.None? <==> allPokemon == []
      ensures picked.Some? ==> picked.value in allPokemon
    {
      if |allPokemon| == 0 {
        return None;
      }
      var i :| 0 <= i < |allPokemon|;
      picked := Some(allPokemon[i]);
    }
  }

  /** Loading page 1 when every fetch succeeds gives twenty entries, shown
      unfiltered, with the button shown. */
  method FirstPageScenario(fetch: int -> Option<Pokemon>) returns (loaded: nat, shown: bool, filtered: nat)
    requires forall id :: 1 <= id <= 20 ==> fetch(id).Some?
    ensures loaded == 20 && filtered == 20 && shown
  {
    var app := new App(false);
    var _ := app.LoadPokemon(fetch, false);
    var results := Fetches(PageRange(1), fetch);
    PresentAllSucceeded(results);
    assert |Lift(Present(results))| == |Present(results)| by {
      LiftLength(Present(results));
    }
    loaded, shown, filtered := |app.allPokemon|, app.loadMoreShown, |app.filteredPokemon|;
  }

  /** Page 1 is loaded and the button is shown; "load more" starts page 2,
      and a second click while page 2 is loading is refused but uses up page
      3. The next click asks for ids 61..80, and ids 41..60 have not been
      requested by then, while every other id up to 80 has. Each click is made
      while the button is shown. */
  method SkippedPageScenario(page1: seq<Option<Pokemon>>, page2: seq<Option<Pokemon>>)
    returns (clickable: bool, next: seq<int>, ghost requested: set<int>)
    requires |page1| == 20 && |page2| == 20
    ensures clickable
    ensures |next| == 20 && next[0] == 61 && next[19] == 80
    ensures forall id :: 41 <= id <= 60 ==> id !in requested
    ensures forall id :: 1 <= id <= 40 || 61 <= id <= 80 ==> id in requested
  {
    var app := new App(false);
    var _ := app.StartLoad();
    var _ := app.FinishLoad(page1, false);
    clickable := app.loadMoreShown;
    var _ := app.LoadMore();
    clickable := clickable && app.loadMoreShown;
    var refused := app.LoadMore();
    assert refused == None && app.currentPage == 3;
    var _ := app.FinishLoad(page2, false);
    clickable := clickable && app.loadMoreShown;
    var again := app.LoadMore();
    next := again.value;
    requested := app.requested;
  }

  /** The same clicks with the guard in front of the increment: the second
      click changes nothing, the next one asks for ids 41..60, and every id up
      to 60 has been requested. */
  method GuardedLoadMoreScenario(page1: seq<Option<Pokemon>>, page2: seq<Option<Pokemon>>)
    returns (clickable: bool, next: seq<int>, ghost requested: set<int>)
    requires |page1| == 20 && |page2| == 20
    ensures clickable
    ensures |next| == 20 && next[0] == 41 && next[19] == 60
    ensures forall id :: 1 <= id <= 60 ==> id in requested
  {
    var app := new App(false);
    var _ := app.StartLoad();
    var _ := app.FinishLoad(page1, false);
    clickable := app.loadMoreShown;
    var _ := app.LoadMoreWhenIdle();
    clickable := clickable && app.loadMoreShown;
    var refused := app.LoadMoreWhenIdle();
    assert refused == None && app.currentPage == 2;
    var _ := app.FinishLoad(page2, false);
    clickable := clickable && app.loadMoreShown;
    var again := app.LoadMoreWhenIdle();
    next := again.value;
    requested := app.requested;
  }
}
