/**
 `get_total_pages` and `get_listing_urls` of `app/main_app.py`, and the
 enumeration of all result pages done by `run_app`. The browser is replaced
 by what it would show: the text of the count element, and for each result
 page the element counts observed round after round.
 */
module Listings {
  import opened Results

  /** The text of the first element matching `total_css_selector`, as `int()` reads it. */
  datatype CountReading = Missing | NotNumeric | Number(n: int)

  /** Python's `//`: the quotient rounded towards minus infinity. */
  function FloorDiv(a: int, b: int): (q: int)
    requires b != 0
    ensures b > 0 ==> b * q <= a < b * q + b
    ensures b < 0 ==> b * q >= a > b * q + b
  {
    if b > 0 then a / b else (-a) / (-b)
  }

  /**
   `get_total_pages`: `int(count) // per_page + 1`. The count element must
   exist and be numeric and the page size non-zero; otherwise the run dies.
   */
  function TotalPages(count: CountReading, perPage: int): (r: Result<int, Failure>)
    ensures r.Ok? <==> count.Number? && perPage != 0
    ensures count.Missing? ==> r == Err(CountMissing)
    ensures count.NotNumeric? ==> r == Err(CountNotNumeric)
    ensures count.Number? && perPage == 0 ==> r == Err(ZeroPageSize)
    ensures r.Ok? && perPage > 0 ==> (r.value - 1) * perPage <= count.n < r.value * perPage
    ensures r.Ok? && perPage < 0 ==> (r.value - 1) * perPage >= count.n > r.value * perPage
    ensures r.Ok? && perPage > 0 && count.n >= 0 ==> r.value >= 1
  {
    match count
    case Missing => Err(CountMissing)
    case NotNumeric => Err(CountNotNumeric)
    case Number(n) =>
      if perPage == 0 then Err(ZeroPageSize) else Ok(FloorDiv(n, perPage) + 1)
  }

  /** 57 listings at 25 per page make three pages (0, 1 and 2). */
  lemma TotalPagesExample()
    ensures TotalPages(Number(57), 25) == Ok(3)
    ensures TotalPages(Number(50), 25) == Ok(3)
    ensures TotalPages(Number(0), 25) == Ok(1)
    ensures TotalPages(Number(57), 0) == Err(ZeroPageSize)
    ensures TotalPages(Number(57), -25) == Ok(-2)
  {
  }

  /**
   One pass of the loop body in `get_listing_urls`: the number of listing
   elements before the scroll, and the listing attribute of every element
   found after it, in document order.
   */
  datatype Round = Round(before: nat, after: seq<string>)

  /** The counts before and after the scroll agree: the loop condition turns false. */
  predicate Settled(r: Round)
  {
    r.before == |r.after|
  }

  /**
   The round at which the loop of `get_listing_urls` stops, counting from
   `from`: the first one whose two counts agree, or -1 when none of the
   observed rounds settles.
   */
  function FirstSettled(rounds: seq<Round>, from: nat): (k: int)
    requires from <= |rounds|
    ensures k == -1 <==> forall j :: from <= j < |rounds| ==> !Settled(rounds[j])
    ensures k != -1 ==> from <= k < |rounds| && Settled(rounds[k])
    ensures k != -1 ==> forall j :: from <= j < k ==> !Settled(rounds[j])
    decreases |rounds| - from
  {
    if from == |rounds| then -1
    else if Settled(rounds[from]) then from
    else FirstSettled(rounds, from + 1)
  }

  /**
   `get_listing_urls`: the body runs at least once (the initial counts 0 and
   None never agree), stops at the first round whose counts agree, and
   returns the listing URLs of that round's final query. `None` means the
   observed rounds run out first; the source would keep polling.
   */
  function ListingUrlsOnPage(rounds: seq<Round>): (r: Option<seq<string>>)
    ensures r.None? <==> forall k :: 0 <= k < |rounds| ==> !Settled(rounds[k])
    ensures r.Some? ==> exists k :: 0 <= k < |rounds| && Settled(rounds[k]) && r.value == rounds[k].after
  {
    var k := FirstSettled(rounds, 0);
    if k == -1 then None else Some(rounds[k].after)
  }

  /**
   The loop's result is the final query of the first settled round, and
   there is one exactly when some observed round settles.
   */
  lemma ListingUrlsOnPageSpec(rounds: seq<Round>)
    ensures ListingUrlsOnPage(rounds).Some? <==> exists k :: 0 <= k < |rounds| && Settled(rounds[k])
    ensures ListingUrlsOnPage(rounds).Some? ==>
      exists k :: && 0 <= k < |rounds|
                  && Settled(rounds[k])
                  && ListingUrlsOnPage(rounds).value == rounds[k].after
                  && forall j :: 0 <= j < k ==> !Settled(rounds[j])
  {
    var k := FirstSettled(rounds, 0);
    if k != -1 {
      assert Settled(rounds[k]);
    }
  }

  /** A page with no listings still takes one round, and settles there with no URLs. */
  lemma EmptyPageTakesOneRound(later: seq<Round>)
    ensures ListingUrlsOnPage([Round(0, [])] + later) == Some([])
  {
  }

  /** A page that grows by lazy loading settles at the first unchanged round. */
  lemma LazyPageSettles()
    ensures ListingUrlsOnPage([Round(2, ["a", "b", "c"]), Round(3, ["a", "b", "c"]), Round(3, [])]) == Some(["a", "b", "c"])
  {
    var rounds := [Round(2, ["a", "b", "c"]), Round(3, ["a", "b", "c"]), Round(3, [])];
    assert !Settled(rounds[0]) && Settled(rounds[1]);
    assert FirstSettled(rounds, 0) == 1;
  }

  /** All elements of a sequence of sequences, one after the other. */
  function Concat<T>(ss: seq<seq<T>>): seq<T>
  {
    if ss == [] then [] else ss[0] + Concat(ss[1..])
  }

  /** The pages `from`, `from`+1, …, `pages`-1, i.e. `range(from, pages)`. */
  function Interval(from: int, pages: int): (r: seq<nat>)
    requires 0 <= from
    ensures |r| == if pages <= from then 0 else pages - from
    ensures forall j :: 0 <= j < |r| ==> r[j] == from + j
    decreases pages - from
  {
    if pages <= from then [] else [from] + Interval(from + 1, pages)
  }

  /**
   The loop `for page_num in range(pages)` of `run_app`, from page `from`
   on: every page's URLs, concatenated in page order. It dies at the first
   page whose element count does not settle.
   */
  function EnumerateFrom(from: nat, pages: int, page: nat -> seq<Round>): (r: Result<seq<string>, Failure>)
    ensures r.Err? ==> && r.error.Unsettled?
                       && from <= r.error.page < pages
                       && ListingUrlsOnPage(page(r.error.page)).None?
    decreases pages - from
  {
    if pages <= from then Ok([])
    else match ListingUrlsOnPage(page(from))
      case None => Err(Unsettled(from))
      case Some(urls) =>
        match EnumerateFrom(from + 1, pages, page)
        case Err(e) => Err(e)
        case Ok(rest) => Ok(urls + rest)
  }

  /**
   The enumeration succeeds exactly when every page settles; otherwise it
   dies at the first page that does not, having visited the earlier ones.
   */
  lemma {:induction false} EnumerateSpec(from: nat, pages: int, page: nat -> seq<Round>)
    ensures var r := EnumerateFrom(from, pages, page);
      && (r.Ok? <==> forall p :: from <= p < pages ==> ListingUrlsOnPage(page(p)).Some?)
      && (r.Err? ==> && r.error.Unsettled?
                     && from <= r.error.page < pages
                     && ListingUrlsOnPage(page(r.error.page)).None?
                     && forall p :: from <= p < r.error.page ==> ListingUrlsOnPage(page(p)).Some?)
    decreases pages - from
  {
    if from < pages {
      EnumerateSpec(from + 1, pages, page);
    }
  }

  /** The URLs of every page, enumerated from page 0. */
  function Enumerate(pages: int, page: nat -> seq<Round>): Result<seq<string>, Failure>
  {
    EnumerateFrom(0, pages, page)
  }

  /** The URLs each of the pages `from` … `pages`-1 settles on, one block per page. */
  function PageBlocks(from: nat, pages: int, page: nat -> seq<Round>): (r: seq<seq<string>>)
    requires forall p :: from <= p < pages ==> ListingUrlsOnPage(page(p)).Some?
    ensures |r| == if pages <= from then 0 else pages - from
    ensures forall j :: 0 <= j < |r| ==> r[j] == ListingUrlsOnPage(page(from + j)).value
    decreases pages - from
  {
    if pages <= from then [] else [ListingUrlsOnPage(page(from)).value] + PageBlocks(from + 1, pages, page)
  }

  /**
   When every page settles, the enumeration is the concatenation of the
   pages' URLs in page order, nothing dropped and nothing repeated beyond
   what the pages themselves show.
   */
  lemma {:induction false} EnumerateConcatenates(from: nat, pages: int, page: nat -> seq<Round>)
    requires forall p :: from <= p < pages ==> ListingUrlsOnPage(page(p)).Some?
    ensures EnumerateFrom(from, pages, page) == Ok(Concat(PageBlocks(from, pages, page)))
    decreases pages - from
  {
    var blocks := PageBlocks(from, pages, page);
    if from < pages {
      var tail := PageBlocks(from + 1, pages, page);
      EnumerateConcatenates(from + 1, pages, page);
      var urls := ListingUrlsOnPage(page(from)).value;
      assert blocks[1..] == tail;
    } else {
      assert blocks == [];
    }
  }
}
