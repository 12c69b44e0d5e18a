/** The OSCA (senior citizens) analytics page (files/assets/js/analytics.js):
    the statistics computed from the per-barangay entries, the search box and
    the paginated table, over the page's module-level state. */
module OscaTable {
  import opened Options
  import opened Text
  import opened Numbers

  /** `itemsPerPage`. */
  const ItemsPerPage: nat := 5

  /** `maxVisiblePages` of the pagination bar. */
  const MaxVisiblePages: nat := 5

  function Min(a: int, b: int): int { if a <= b then a else b }
  function Max(a: int, b: int): int { if a >= b then a else b }

  // ------------------------------------------------------------ the data

  /** One entry of `barangayData`, as `Object.entries` lists it: its numeric
      key, the barangay's name and OSCA count, and a pension count that may
      be missing; `data.withPension || 0` counts it as 0 (the 65% default
      that `loadOscaData` supplies is not modelled). */
  datatype Entry = Entry(id: nat, name: string, oscaCount: nat, withPension: Option<nat>)

  /** `data.withPension || 0`. */
  function Pension(e: Entry): nat {
    if e.withPension.Some? then e.withPension.value else 0
  }

  /** One row of `allData`, without the percentage strings. */
  datatype Row = Row(id: nat, name: string, oscaCount: nat, withPension: nat, withoutPension: int)

  function RowOf(e: Entry): Row {
    Row(e.id, e.name, e.oscaCount, Pension(e), e.oscaCount - Pension(e))
  }

  /** `entries.map(...)` building `allData`. */
  function TableRows(es: seq<Entry>): (rows: seq<Row>)
    ensures |rows| == |es|
  {
    seq(|es|, i requires 0 <= i < |es| => RowOf(es[i]))
  }

  /** `entries.reduce((sum, [_, data]) => sum + data.oscaCount, 0)`. */
  function TotalCount(es: seq<Entry>): nat {
    if es == [] then 0 else TotalCount(es[..|es| - 1]) + es[|es| - 1].oscaCount
  }

  /** `entries.reduce((sum, [_, data]) => sum + (data.withPension || 0), 0)`. */
  function TotalPension(es: seq<Entry>): nat {
    if es == [] then 0 else TotalPension(es[..|es| - 1]) + Pension(es[|es| - 1])
  }

  /** Every row keeps its entry's key, name and count, takes a missing
      pension count as 0, and splits the count into the pensioned and the
      rest. */
  lemma TableRowsSpec(es: seq<Entry>)
    ensures forall i :: 0 <= i < |es| ==>
              var r := TableRows(es)[i];
              && r.id == es[i].id && r.name == es[i].name && r.oscaCount == es[i].oscaCount
              && r.withPension == (if es[i].withPension.Some? then es[i].withPension.value else 0)
              && r.withPension + r.withoutPension == r.oscaCount
  {
  }

  // ------------------------------------------------ highest and lowest

  /** A count that may be `Infinity`, the initial bound of the lowest
      search. */
  datatype Extended = Finite(n: nat) | Infinity

  /** `{ name, count }` of `highestPopulation` / `lowestPopulation`. */
  datatype Population = Population(name: string, count: Extended)

  /** `c < bound` with `Infinity` above every count. */
  predicate Below(c: nat, bound: Extended) {
    bound.Infinity? || c < bound.n
  }

  /** The `highestPopulation` step of the `forEach`. */
  function HighestStep(acc: Population, e: Entry): Population {
    if acc.count.Finite? && e.oscaCount > acc.count.n
    then Population(e.name, Finite(e.oscaCount)) else acc
  }

  /** The `lowestPopulation` step of the `forEach`. */
  function LowestStep(acc: Population, e: Entry): Population {
    if Below(e.oscaCount, acc.count) && e.oscaCount > 0
    then Population(e.name, Finite(e.oscaCount)) else acc
  }

  /** `highestPopulation` after the `forEach` over `es`, from `{ '', 0 }`. */
  function Highest(es: seq<Entry>): Population {
    if es == [] then Population("", Finite(0)) else HighestStep(Highest(es[..|es| - 1]), es[|es| - 1])
  }

  /** `lowestPopulation` after the `forEach` over `es`, from `{ '', Infinity }`. */
  function LowestScan(es: seq<Entry>): Population {
    if es == [] then Population("", Infinity) else LowestStep(LowestScan(es[..|es| - 1]), es[|es| - 1])
  }

  /** `lowestPopulation` once an `Infinity` left by the scan became `{ 'N/A', 0 }`. */
  function Lowest(es: seq<Entry>): Population {
    var l := LowestScan(es);
    if l.count.Infinity? then Population("N/A", Finite(0)) else l
  }

  /** Entry `i` has the greatest count and no earlier entry reaches it. */
  predicate FirstHighest(es: seq<Entry>, i: int) {
    && 0 <= i < |es|
    && (forall j :: 0 <= j < |es| ==> es[j].oscaCount <= es[i].oscaCount)
    && (forall j :: 0 <= j < i ==> es[j].oscaCount < es[i].oscaCount)
  }

  /** Entry `i` has the smallest positive count and no earlier entry with a
      positive count reaches it. */
  predicate FirstLowest(es: seq<Entry>, i: int) {
    && 0 <= i < |es| && es[i].oscaCount > 0
    && (forall j :: 0 <= j < |es| && es[j].oscaCount > 0 ==> es[i].oscaCount <= es[j].oscaCount)
    && (forall j :: 0 <= j < i && es[j].oscaCount > 0 ==> es[i].oscaCount < es[j].oscaCount)
  }

  /** The highest barangay is the first entry with the greatest count; when
      every count is 0 it stays `{ '', 0 }`. */
  lemma {:induction false} HighestSpec(es: seq<Entry>)
    ensures Highest(es).count.Finite?
    ensures (forall j :: 0 <= j < |es| ==> es[j].oscaCount == 0) ==> Highest(es) == Population("", Finite(0))
    ensures (exists j :: 0 <= j < |es| && es[j].oscaCount > 0) ==>
              exists i :: FirstHighest(es, i) && Highest(es) == Population(es[i].name, Finite(es[i].oscaCount))
  {
    if es != [] {
      var p, e := es[..|es| - 1], es[|es| - 1];
      assert es == p + [e];
      HighestSpec(p);
      if exists j :: 0 <= j < |p| && p[j].oscaCount > 0 {
        var i :| FirstHighest(p, i) && Highest(p) == Population(p[i].name, Finite(p[i].oscaCount));
        if e.oscaCount > p[i].oscaCount {
          assert FirstHighest(es, |p|);
        } else {
          assert FirstHighest(es, i);
        }
      } else if e.oscaCount > 0 {
        assert FirstHighest(es, |p|);
      }
    }
  }

  /** The scan keeps `Infinity` exactly while no count is positive, and
      otherwise holds the first entry with the smallest positive count. */
  lemma {:induction false} LowestScanSpec(es: seq<Entry>)
    ensures (forall j :: 0 <= j < |es| ==> es[j].oscaCount == 0) ==> LowestScan(es) == Population("", Infinity)
    ensures (exists j :: 0 <= j < |es| && es[j].oscaCount > 0) ==>
              exists i :: FirstLowest(es, i) && LowestScan(es) == Population(es[i].name, Finite(es[i].oscaCount))
  {
    if es != [] {
      var p, e := es[..|es| - 1], es[|es| - 1];
      assert es == p + [e];
      LowestScanSpec(p);
      if exists j :: 0 <= j < |p| && p[j].oscaCount > 0 {
        var i :| FirstLowest(p, i) && LowestScan(p) == Population(p[i].name, Finite(p[i].oscaCount));
        if 0 < e.oscaCount < p[i].oscaCount {
          assert FirstLowest(es, |p|);
        } else {
          assert FirstLowest(es, i);
        }
      } else if e.oscaCount > 0 {
        assert FirstLowest(es, |p|);
      }
    }
  }

  /** The lowest barangay is the first entry with the smallest positive
      count, or `{ 'N/A', 0 }` when no count is positive. */
  lemma LowestSpec(es: seq<Entry>)
    ensures (forall j :: 0 <= j < |es| ==> es[j].oscaCount == 0) ==> Lowest(es) == Population("N/A", Finite(0))
    ensures (exists j :: 0 <= j < |es| && es[j].oscaCount > 0) ==>
              exists i :: FirstLowest(es, i) && Lowest(es) == Population(es[i].name, Finite(es[i].oscaCount))
  {
    LowestScanSpec(es);
  }

  // ------------------------------------------------------------- search

  /** `allData.filter(item => item.name.toLowerCase().includes(term))` for
      an already lower-cased term. */
  function Matching(rows: seq<Row>, term: string): seq<Row> {
    if rows == [] then []
    else
      var rest := Matching(rows[..|rows| - 1], term);
      if Contains(Lower(rows[|rows| - 1].name), term) then rest + [rows[|rows| - 1]] else rest
  }

  /** The positions in `rows` that `Matching` keeps, in order. */
  function MatchingIndices(rows: seq<Row>, term: string): seq<nat> {
    if rows == [] then []
    else
      var rest := MatchingIndices(rows[..|rows| - 1], term);
      if Contains(Lower(rows[|rows| - 1].name), term) then rest + [|rows| - 1] else rest
  }

  /** `f` lays `a` out in `b` at strictly increasing positions. */
  predicate Embeds<T(==)>(a: seq<T>, b: seq<T>, f: seq<nat>) {
    && |f| == |a|
    && (forall k :: 0 <= k < |f| ==> f[k] < |b| && a[k] == b[f[k]])
    && (forall k, l :: 0 <= k < l < |f| ==> f[k] < f[l])
  }

  /** `a` is `b` with some elements removed, the rest in their order. */
  ghost predicate IsSubsequence<T>(a: seq<T>, b: seq<T>) {
    exists f :: Embeds(a, b, f)
  }

  /** The identity embedding. */
  lemma SubsequenceRefl<T>(a: seq<T>)
    ensures IsSubsequence(a, a)
  {
    var f := seq(|a|, k requires 0 <= k < |a| => k as nat);
    assert Embeds(a, a, f);
  }

  /** The filter keeps exactly the rows whose lower-cased name contains the
      term, in their original order and without repeating any. */
  lemma {:induction false} MatchingSpec(rows: seq<Row>, term: string)
    ensures Embeds(Matching(rows, term), rows, MatchingIndices(rows, term))
    ensures forall k :: 0 <= k < |MatchingIndices(rows, term)| ==>
              Contains(Lower(rows[MatchingIndices(rows, term)[k]].name), term)
    ensures forall i :: 0 <= i < |rows| && Contains(Lower(rows[i].name), term) ==> i in MatchingIndices(rows, term)
  {
    if rows != [] {
      var p := rows[..|rows| - 1];
      MatchingSpec(p, term);
      assert forall j :: 0 <= j < |p| ==> p[j] == rows[j];
    }
  }

  /** A row is kept exactly when it is one of the rows and its lower-cased
      name contains the term. */
  lemma MatchingMembers(rows: seq<Row>, term: string, x: Row)
    ensures x in Matching(rows, term) <==> x in rows && Contains(Lower(x.name), term)
  {
    MatchingSpec(rows, term);
    var m, f := Matching(rows, term), MatchingIndices(rows, term);
    if x in m {
      var k :| 0 <= k < |m| && m[k] == x;
      assert rows[f[k]] == x;
    }
    if x in rows && Contains(Lower(x.name), term) {
      var i :| 0 <= i < |rows| && rows[i] == x;
      var k :| 0 <= k < |f| && f[k] == i;
      assert m[k] == x;
    }
  }

  /** Every name contains the empty term, so filtering with it keeps every
      row: the `searchTerm === ''` shortcut gives what the filter would. */
  lemma {:induction false} MatchingEmptyTerm(rows: seq<Row>)
    ensures Matching(rows, "") == rows
  {
    if rows != [] {
      MatchingEmptyTerm(rows[..|rows| - 1]);
      ContainsSelf(Lower(rows[|rows| - 1].name));
    }
  }

  /** `filteredData` after `handleSearch`. */
  function SearchResult(all: seq<Row>, input: string): seq<Row> {
    if Lower(input) == "" then all else Matching(all, Lower(input))
  }

  /** The result of a search is the filter by the lower-cased input, also
      when the input is empty; it lists rows of `all` in their order. */
  lemma SearchResultSpec(all: seq<Row>, input: string)
    ensures SearchResult(all, input) == Matching(all, Lower(input))
    ensures IsSubsequence(SearchResult(all, input), all)
    ensures input == "" ==> SearchResult(all, input) == all
  {
    MatchingEmptyTerm(all);
    MatchingSpec(all, Lower(input));
  }

  // --------------------------------------------------------- pagination

  /** `Math.ceil(length / itemsPerPage)`. */
  function TotalPages(length: nat): nat {
    CeilDiv(length, ItemsPerPage)
  }

  /** There are just enough pages for the rows: none for an empty list. */
  lemma TotalPagesSpec(length: nat)
    ensures ItemsPerPage * TotalPages(length) >= length
    ensures TotalPages(length) > 0 ==> ItemsPerPage * (TotalPages(length) - 1) < length
    ensures TotalPages(length) == 0 <==> length == 0
  {
  }

  /** One end of `Array.prototype.slice`: a negative index counts from the
      end, and the index is clamped to the length. */
  function SliceIndex(length: nat, k: int): (r: nat)
    ensures r <= length
    ensures 0 <= k ==> r == Min(k, length)
  {
    if k < 0 then Max(length + k, 0) else Min(k, length)
  }

  /** `s.slice(start, end)`. */
  function JsSlice<T>(s: seq<T>, start: int, end: int): (r: seq<T>)
    ensures 0 <= start <= end ==> r == s[Min(start, |s|)..Min(end, |s|)]
    ensures 0 <= start <= end ==> |r| <= end - start
  {
    var from, to := SliceIndex(|s|, start), SliceIndex(|s|, end);
    if from < to then s[from..to] else []
  }

  /** What `renderTable` shows: the no-results message, or the rows of the
      page. */
  datatype TableView = NoResults | PageRows(rows: seq<Row>)

  /** One numbered button of the pagination bar. */
  datatype PageButton = PageButton(page: int, active: bool)

  /** What `renderPagination` shows: "Showing startItem-endItem of entries
      entries", the previous button, the window of page buttons from
      `startPage` to `endPage`, and the next button. */
  datatype Pagination = Pagination(
    startItem: int, endItem: int, entries: nat, prevDisabled: bool,
    startPage: int, endPage: int, buttons: seq<PageButton>, nextDisabled: bool)

  // ------------------------------------------------------ the page state

  /** The module-level variables of the page and the functions that update
      them. */
  class Analytics {
    var barangayData: seq<Entry>
    var currentPage: int
    var filteredData: seq<Row>
    var allData: seq<Row>
    var totalOSCA: nat
    var averageOSCA: nat
    var totalWithPension: nat
    var totalWithoutPension: int
    var highestPopulation: Population
    var lowestPopulation: Population

    /** The page number is at least 1, and the table lists rows of
        `allData` in their order. */
    ghost predicate Valid()
      reads this
    {
      currentPage >= 1 && IsSubsequence(filteredData, allData)
    }

    /** The initial values of the module-level `let`s. */
    constructor()
      ensures barangayData == [] && currentPage == 1 && filteredData == [] && allData == []
      ensures totalOSCA == 0 && averageOSCA == 0 && totalWithPension == 0 && totalWithoutPension == 0
      ensures highestPopulation == Population("", Finite(0)) && lowestPopulation == Population("", Infinity)
      ensures Valid()
    {
      barangayData := [];
      currentPage := 1;
      filteredData := [];
      allData := [];
      totalOSCA := 0;
      averageOSCA := 0;
      totalWithPension := 0;
      totalWithoutPension := 0;
      highestPopulation := Population("", Finite(0));
      lowestPopulation := Population("", Infinity);
      new;
      SubsequenceRefl(filteredData);
    }

    /** `initializeData`: the totals, the rounded mean, the highest and
        lowest barangays, and `allData` with `filteredData` a copy of it;
        the page number is kept. */
    method InitializeData()
      modifies this
      ensures barangayData == old(barangayData) && currentPage == old(currentPage)
      ensures totalOSCA == TotalCount(barangayData)
      ensures totalWithPension == TotalPension(barangayData)
      ensures totalWithoutPension == totalOSCA - totalWithPension
      ensures averageOSCA == if |barangayData| > 0 then RoundDiv(totalOSCA, |barangayData|) else 0
      ensures highestPopulation == Highest(barangayData)
      ensures lowestPopulation == Lowest(barangayData)
      ensures allData == TableRows(barangayData) && filteredData == allData
      ensures old(currentPage) >= 1 ==> Valid()
    {
      var entries := barangayData;
      totalOSCA := TotalCount(entries);
      totalWithPension := TotalPension(entries);
      totalWithoutPension := totalOSCA - totalWithPension;
      averageOSCA := if |entries| > 0 then RoundDiv(totalOSCA, |entries|) else 0;

      highestPopulation := Population("", Finite(0));
      lowestPopulation := Population("", Infinity);
      for n := 0 to |entries|
        invariant barangayData == entries && currentPage == old(currentPage)
        invariant totalOSCA == TotalCount(entries) && totalWithPension == TotalPension(entries)
        invariant totalWithoutPension == totalOSCA - totalWithPension
        invariant averageOSCA == if |entries| > 0 then RoundDiv(totalOSCA, |entries|) else 0
        invariant highestPopulation == Highest(entries[..n])
        invariant lowestPopulation == LowestScan(entries[..n])
      {
        var data := entries[n];
        assert entries[..n + 1] == entries[..n] + [data];
        if highestPopulation.count.Finite? && data.oscaCount > highestPopulation.count.n {
          highestPopulation := Population(data.name, Finite(data.oscaCount));
        }
        if Below(data.oscaCount, lowestPopulation.count) && data.oscaCount > 0 {
          lowestPopulation := Population(data.name, Finite(data.oscaCount));
        }
      }
      assert entries[..|entries|] == entries;
      if lowestPopulation.count == Infinity {
        lowestPopulation := Population("N/A", Finite(0));
      }

      allData := TableRows(entries);
      filteredData := allData;
      SubsequenceRefl(allData);
    }

    /** `handleSearch` with the search box holding `input`. */
    method HandleSearch(input: string)
      modifies this
      ensures filteredData == SearchResult(allData, input)
      ensures currentPage == 1
      ensures barangayData == old(barangayData) && allData == old(allData)
      ensures totalOSCA == old(totalOSCA) && averageOSCA == old(averageOSCA)
      ensures totalWithPension == old(totalWithPension) && totalWithoutPension == old(totalWithoutPension)
      ensures highestPopulation == old(highestPopulation) && lowestPopulation == old(lowestPopulation)
      ensures Valid()
    {
      var searchTerm := Lower(input);
      if searchTerm == "" {
        filteredData := allData;
      } else {
        filteredData := Matching(allData, searchTerm);
      }
      currentPage := 1;
      SearchResultSpec(allData, input);
    }

    /** `changePage(page)`: only a page between 1 and the number of pages is
        taken; any other request changes nothing. */
    method ChangePage(page: int)
      modifies this
      ensures 1 <= page <= TotalPages(|filteredData|) ==> currentPage == page
      ensures !(1 <= page <= TotalPages(|filteredData|)) ==> currentPage == old(currentPage)
      ensures barangayData == old(barangayData) && filteredData == old(filteredData) && allData == old(allData)
      ensures totalOSCA == old(totalOSCA) && averageOSCA == old(averageOSCA)
      ensures totalWithPension == old(totalWithPension) && totalWithoutPension == old(totalWithoutPension)
      ensures highestPopulation == old(highestPopulation) && lowestPopulation == old(lowestPopulation)
      ensures old(Valid()) ==> Valid()
    {
      var totalPages := TotalPages(|filteredData|);
      if page >= 1 && page <= totalPages {
        currentPage := page;
      }
    }

    /** `filteredData.slice(startIndex, endIndex)` of `renderTable`. */
    function PageData(): (rows: seq<Row>)
      reads this
      ensures |rows| <= ItemsPerPage
      ensures currentPage >= 1 && (currentPage - 1) * ItemsPerPage <= |filteredData| ==>
                rows == filteredData[(currentPage - 1) * ItemsPerPage..Min(currentPage * ItemsPerPage, |filteredData|)]
      ensures currentPage >= 1 && (currentPage - 1) * ItemsPerPage >= |filteredData| ==> rows == []
    {
      var startIndex := (currentPage - 1) * ItemsPerPage;
      JsSlice(filteredData, startIndex, startIndex + ItemsPerPage)
    }

    /** `renderTable`: no rows on the page shows the no-results message. */
    function RenderTable(): (view: TableView)
      reads this
      ensures view == NoResults <==> PageData() == []
      ensures view.PageRows? ==> view.rows == PageData()
    {
      var pageData := PageData();
      if |pageData| == 0 then NoResults else PageRows(pageData)
    }

    /** `renderPagination`: the entry range, the previous / next buttons and
        a window of at most five page buttons around the current page. */
    method RenderPagination() returns (p: Pagination)
      ensures p.entries == |filteredData|
      ensures p.startItem == if |filteredData| == 0 then 0 else (currentPage - 1) * ItemsPerPage + 1
      ensures p.endItem == Min(currentPage * ItemsPerPage, |filteredData|)
      ensures p.prevDisabled <==> currentPage == 1
      ensures p.nextDisabled <==> currentPage == TotalPages(|filteredData|)
      ensures p.startPage >= 1 && p.endPage <= TotalPages(|filteredData|)
      ensures p.endPage - p.startPage + 1 <= MaxVisiblePages
      ensures |p.buttons| == Min(MaxVisiblePages, TotalPages(|filteredData|))
      ensures forall k :: 0 <= k < |p.buttons| ==>
                p.buttons[k] == PageButton(p.startPage + k, p.startPage + k == currentPage)
      ensures 1 <= currentPage <= TotalPages(|filteredData|) ==> p.startPage <= currentPage <= p.endPage
      ensures p.startPage == Max(1, Min(currentPage - MaxVisiblePages / 2, TotalPages(|filteredData|) - MaxVisiblePages + 1))
      ensures p.endPage == Min(TotalPages(|filteredData|), p.startPage + MaxVisiblePages - 1)
    {
      var totalPages := TotalPages(|filteredData|);
      var startItem := if |filteredData| == 0 then 0 else (currentPage - 1) * ItemsPerPage + 1;
      var endItem := Min(currentPage * ItemsPerPage, |filteredData|);
      var prevDisabled := currentPage == 1;

      var startPage := Max(1, currentPage - MaxVisiblePages / 2);
      var endPage := Min(totalPages, startPage + MaxVisiblePages - 1);
      if endPage - startPage + 1 < MaxVisiblePages {
        startPage := Max(1, endPage - MaxVisiblePages + 1);
      }

      var buttons: seq<PageButton> := [];
      var i := startPage;
      while i <= endPage
        invariant startPage <= i <= Max(startPage, endPage + 1)
        invariant |buttons| == i - startPage
        invariant forall k :: 0 <= k < |buttons| ==> buttons[k] == PageButton(startPage + k, startPage + k == currentPage)
        decreases endPage - i
      {
        buttons := buttons + [PageButton(i, i == currentPage)];
        i := i + 1;
      }

      var nextDisabled := currentPage == totalPages;
      p := Pagination(startItem, endItem, |filteredData|, prevDisabled, startPage, endPage, buttons, nextDisabled);
    }
  }

  /** On a page that exists, the table shows exactly the rows the entry
      range announces: rows `startItem` to `endItem`, counting from 1, and
      no page of a non-empty list is empty. */
  lemma RangeMatchesPage(t: Analytics, p: Pagination)
    requires 1 <= t.currentPage <= TotalPages(|t.filteredData|)
    requires p.startItem == (t.currentPage - 1) * ItemsPerPage + 1
    requires p.endItem == Min(t.currentPage * ItemsPerPage, |t.filteredData|)
    ensures t.PageData() == t.filteredData[p.startItem - 1..p.endItem]
    ensures 1 <= |t.PageData()| == p.endItem - p.startItem + 1
    ensures t.RenderTable().PageRows?
  {
    TotalPagesSpec(|t.filteredData|);
  }

  /** Past the last page, or on an empty list, the table shows the
      no-results message. */
  lemma NoResultsPastLastPage(t: Analytics)
    requires t.currentPage >= 1 && t.currentPage > TotalPages(|t.filteredData|)
    ensures t.RenderTable() == NoResults
  {
    TotalPagesSpec(|t.filteredData|);
    assert (t.currentPage - 1) * ItemsPerPage >= ItemsPerPage * TotalPages(|t.filteredData|);
  }
}
