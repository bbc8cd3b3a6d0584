/**
 The list crawl of one spider run (crawler/tender_crawler/spiders/anhui_ggzy_zfcg_spider.py).
 Only one list request is open at a time, so the server is any sequence of pages.
 */
module ListPagination {
  import opened Options
  import opened Ordering
  import opened PaginationTarget
  import opened Text

  type Fingerprint = string
  type Day = int

  /** A list item: its fingerprint and its publication day, if that could be parsed. */
  datatype Item = Item(fingerprint: Fingerprint, day: Option<Day>)

  /** A list response: the page number it claims, its items unless extraction fails, and its links. */
  datatype Page = Page(current: int, items: Option<seq<Item>>, anchors: seq<Anchor>)

  datatype Config = Config(maxPages: Option<int>, backfillStart: Option<Day>, threshold: int, dedup: bool)
  {
    /** What the constructor makes of its arguments. */
    predicate Valid() { threshold >= 1 && (maxPages.Some? ==> maxPages.value >= 1) }
  }

  /** Why a page ends the list crawl, or the page asked for next. */
  datatype Outcome = RepeatedPage | Unreadable | EmptyPage | BackfillBoundary | MaxPages | NoNewPages | LastPage | Follow(page: int)

  /** The fields `parse` updates, and the detail requests it has issued. */
  datatype Crawl = Crawl(
    seenPages: set<int>, seen: set<Fingerprint>, requested: seq<Fingerprint>,
    pagesScraped: nat, itemsSeen: nat, itemsUnique: nat, itemsSkipped: nat, itemsOutside: nat, consecutive: nat)

  const START := Crawl({}, {}, [], 0, 0, 0, 0, 0, 0)

  predicate InWindow(config: Config, i: Item) {
    config.backfillStart.None? || i.day.None? || i.day.value >= config.backfillStart.value
  }

  /** Items inside the backfill window. */
  function Window(config: Config): Item -> bool {
    i => InWindow(config, i)
  }

  /** The page lies wholly before the window: it has items, all of them dated and too old. */
  predicate AllOlder(config: Config, items: seq<Item>) {
    config.backfillStart.Some? && items != [] &&
    forall i | i in items :: i.day.Some? && i.day.value < config.backfillStart.value
  }

  /** The items for which a detail page is requested, in list order. */
  function Fresh(dedup: bool, seen: set<Fingerprint>, items: seq<Item>): seq<Fingerprint> {
    if items == [] then []
    else
      var before := Fresh(dedup, seen, items[..|items| - 1]);
      var f := items[|items| - 1].fingerprint;
      if dedup && (f in seen || f in before) then before else before + [f]
  }

  function Counted(c: Crawl, config: Config, page: int, items: seq<Item>): Crawl {
    var inside := if AllOlder(config, items) then [] else Filter(Window(config), items);
    var added := Fresh(config.dedup, c.seen, inside);
    Crawl(c.seenPages + {page}, c.seen + Members(added), c.requested + added, c.pagesScraped + 1,
          c.itemsSeen + |items|, c.itemsUnique + |added|,
          c.itemsSkipped + SkippedOf(config.dedup, c.seen, inside),
          c.itemsOutside + |items| - |Filter(Window(config), items)|,
          if added == [] then c.consecutive + 1 else 0)
  }

  /** In-window items whose fingerprint had been seen. */
  function SkippedOf(dedup: bool, seen: set<Fingerprint>, items: seq<Item>): nat {
    if items == [] then 0
    else
      var f := items[|items| - 1].fingerprint;
      SkippedOf(dedup, seen, items[..|items| - 1])
      + if dedup && (f in seen || f in Fresh(dedup, seen, items[..|items| - 1])) then 1 else 0
  }

  /** The stop conditions, in the order they are tried. */
  function Verdict(c: Crawl, config: Config, p: Page, items: seq<Item>): Outcome {
    var next := NextPage(p.anchors, p.current);
    if items == [] then EmptyPage
    else if AllOlder(config, items) then BackfillBoundary
    else if config.maxPages.Some? && c.pagesScraped >= config.maxPages.value then MaxPages
    else if c.consecutive >= config.threshold then NoNewPages
    else if next.None? then LastPage
    else Follow(next.value)
  }

  function After(c: Crawl, config: Config, p: Page): Crawl {
    if p.current in c.seenPages then c
    else if p.items.None? then c.(seenPages := c.seenPages + {p.current}, pagesScraped := c.pagesScraped + 1)
    else Counted(c, config, p.current, p.items.value)
  }

  function OutcomeOf(c: Crawl, config: Config, p: Page): Outcome {
    if p.current in c.seenPages then RepeatedPage
    else if p.items.None? then Unreadable
    else Verdict(After(c, config, p), config, p, p.items.value)
  }

  /** `r` is `n`, or 1 if `n` is below that. */
  predicate AtLeastOne(n: int, r: int) {
    r >= 1 && r >= n && (r == n || r == 1)
  }

  class Spider {
    const config: Config
    var seenPages: set<int>
    var seen: set<Fingerprint>
    ghost var requested: seq<Fingerprint>
    var pagesScraped: nat
    var itemsSeen: nat
    var itemsUnique: nat
    var itemsSkipped: nat
    ghost var itemsOutside: nat
    var consecutive: nat

    ghost function State(): Crawl
      reads this
    {
      Crawl(seenPages, seen, requested, pagesScraped, itemsSeen, itemsUnique, itemsSkipped, itemsOutside, consecutive)
    }

    constructor (maxPages: Option<int>, backfillStart: Option<Day>, threshold: int, thresholdOverride: Option<int>, dedup: bool)
      ensures State() == START && config.Valid()
      ensures config.backfillStart == backfillStart && config.dedup == dedup
      ensures maxPages.None? <==> config.maxPages.None?
      ensures maxPages.Some? ==> AtLeastOne(maxPages.value, config.maxPages.value)
      ensures AtLeastOne(thresholdOverride.GetOr(threshold), config.threshold)
    {
      var limit := if maxPages.Some? then Some(if maxPages.value >= 1 then maxPages.value else 1) else None;
      var stopAfter := if thresholdOverride.Some? then (if thresholdOverride.value >= 1 then thresholdOverride.value else 1) else threshold;
      config := Config(limit, backfillStart, if stopAfter >= 1 then stopAfter else 1, dedup);
      seenPages, seen, requested := {}, {}, [];
      pagesScraped, itemsSeen, itemsUnique, itemsSkipped, itemsOutside, consecutive := 0, 0, 0, 0, 0, 0;
    }

    method AllItemsOlder(items: seq<Item>) returns (r: bool)
      ensures r == AllOlder(config, items)
    {
      if config.backfillStart.None? || items == [] {
        return false;
      }
      for i := 0 to |items|
        invariant forall j | 0 <= j < i :: items[j].day.Some? && items[j].day.value < config.backfillStart.value
      {
        if items[i].day.None? || items[i].day.value >= config.backfillStart.value {
          assert items[i] in items;
          return false;
        }
      }
      return true;
    }

    /** Asks for the details of the in-window items not seen before. */
    method RequestDetails(items: seq<Item>) returns (added: nat, skipped: nat)
      modifies this`seen, this`requested
      ensures requested == old(requested) + Fresh(config.dedup, old(seen), items)
      ensures seen == old(seen) + Members(Fresh(config.dedup, old(seen), items))
      ensures added == |Fresh(config.dedup, old(seen), items)| && skipped == SkippedOf(config.dedup, old(seen), items)
    {
      NothingRequested(config.dedup, seen, requested);
      hide Fresh, SkippedOf;
      added, skipped := 0, 0;
      ghost var asked: seq<Fingerprint> := [];
      assert items[..0] == [];
      for i := 0 to |items|
        invariant asked == Fresh(config.dedup, old(seen), items[..i])
        invariant added == |asked| && skipped == SkippedOf(config.dedup, old(seen), items[..i])
        invariant requested == old(requested) + asked && seen == old(seen) + Members(asked)
      {
        var candidate := items[i];
        assert items[..i + 1] == items[..i] + [candidate];
        FreshSnoc(config.dedup, old(seen), items[..i], candidate);
        if config.dedup && candidate.fingerprint in seen {
          skipped := skipped + 1;
        } else {
          seen := seen + {candidate.fingerprint};
          requested := requested + [candidate.fingerprint];
          added := added + 1;
          asked := asked + [candidate.fingerprint];
          assert Members(asked) == Members(Fresh(config.dedup, old(seen), items[..i])) + {candidate.fingerprint};
        }
      }
      assert items[..|items|] == items;
    }

    /** One list response. */
    method Parse(p: Page) returns (outcome: Outcome)
      modifies this
      ensures State() == After(old(State()), config, p)
      ensures outcome == OutcomeOf(old(State()), config, p)
    {
      hide Fresh, SkippedOf, AllOlder, Window, NextPage, Filter;
      if p.current in seenPages {
        return RepeatedPage;
      }
      seenPages := seenPages + {p.current};
      pagesScraped := pagesScraped + 1;
      if p.items.None? {
        return Unreadable;
      }
      var items := p.items.value;
      itemsSeen := itemsSeen + |items|;
      var older := AllItemsOlder(items);
      var inside := Filter(Window(config), items);
      itemsOutside := itemsOutside + |items| - |inside|;
      var added, skipped := 0, 0;
      if !older {
        added, skipped := RequestDetails(inside);
      } else {
        NothingRequested(config.dedup, seen, requested);
      }
      itemsUnique := itemsUnique + added;
      itemsSkipped := itemsSkipped + skipped;
      if added == 0 {
        consecutive := consecutive + 1;
      } else {
        consecutive := 0;
      }
      var next := NextPageNo(p.anchors, p.current);
      assert State() == After(old(State()), config, p);
      hide Counted, After;
      if items == [] {
        return EmptyPage;
      }
      if older {
        return BackfillBoundary;
      }
      if config.maxPages.Some? && pagesScraped >= config.maxPages.value {
        return MaxPages;
      }
      if consecutive >= config.threshold {
        return NoNewPages;
      }
      if next.None? {
        return LastPage;
      }
      return Follow(next.value);
    }
  }

  /** Every in-window item is either requested or skipped. */
  lemma {:induction false} RequestedOrSkipped(dedup: bool, seen: set<Fingerprint>, items: seq<Item>)
    ensures SkippedOf(dedup, seen, items) + |Fresh(dedup, seen, items)| == |items|
  {
    if items != [] { RequestedOrSkipped(dedup, seen, items[..|items| - 1]); }
  }

  lemma FreshSnoc(dedup: bool, seen: set<Fingerprint>, items: seq<Item>, next: Item)
    ensures var before := Fresh(dedup, seen, items);
            var known := dedup && (next.fingerprint in seen || next.fingerprint in before);
            && Fresh(dedup, seen, items + [next]) == (if known then before else before + [next.fingerprint])
            && SkippedOf(dedup, seen, items + [next]) == SkippedOf(dedup, seen, items) + if known then 1 else 0
  {
    assert (items + [next])[..|items|] == items;
  }

  lemma NothingRequested(dedup: bool, seen: set<Fingerprint>, requested: seq<Fingerprint>)
    ensures Fresh(dedup, seen, []) == [] && SkippedOf(dedup, seen, []) == 0
    ensures seen + Members(Fresh(dedup, seen, [])) == seen && requested + Fresh(dedup, seen, []) == requested
  {
    assert Members(Fresh(dedup, seen, [])) == {};
  }

  // ---------------------------------------------------------------- runs

  function Run(config: Config, pages: seq<Page>): Crawl {
    if pages == [] then START else After(Run(config, pages[..|pages| - 1]), config, pages[|pages| - 1])
  }

  function LastOutcome(config: Config, pages: seq<Page>): Outcome
    requires pages != []
  {
    OutcomeOf(Run(config, pages[..|pages| - 1]), config, pages[|pages| - 1])
  }

  /** The crawl gets to ask for a page after each of these. */
  predicate GoesOn(config: Config, pages: seq<Page>) {
    pages == [] || (GoesOn(config, pages[..|pages| - 1]) && LastOutcome(config, pages).Follow?)
  }

  /** These are the pages of one run: each but the last was followed by another request. */
  ghost predicate IsRun(config: Config, pages: seq<Page>) {
    pages != [] && GoesOn(config, pages[..|pages| - 1])
  }

  // ---------------------------------------------------------------- requests

  lemma {:induction false} FreshIsNew(seen: set<Fingerprint>, items: seq<Item>)
    ensures Distinct(Fresh(true, seen, items)) && forall f | f in Fresh(true, seen, items) :: f !in seen
  {
    if items != [] { FreshIsNew(seen, items[..|items| - 1]); }
  }

  lemma {:induction false} FreshCovers(dedup: bool, seen: set<Fingerprint>, items: seq<Item>)
    ensures forall i | i in items :: i.fingerprint in seen || i.fingerprint in Fresh(dedup, seen, items)
    ensures forall f | f in Fresh(dedup, seen, items) :: exists i :: i in items && i.fingerprint == f
  {
    if items != [] {
      var init := items[..|items| - 1];
      FreshCovers(dedup, seen, init);
      assert items == init + [items[|items| - 1]];
      forall f | f in Fresh(dedup, seen, items) ensures exists i :: i in items && i.fingerprint == f {
        if f in Fresh(dedup, seen, init) {
          var i :| i in init && i.fingerprint == f;
          assert i in items;
        } else {
          assert items[|items| - 1] in items;
        }
      }
    }
  }

  /** With in-run deduplication no detail page is requested twice, whatever the server lists. */
  lemma {:induction false} NothingRequestedTwice(config: Config, pages: seq<Page>)
    ensures var c := Run(config, pages); c.seen == Members(c.requested)
    ensures config.dedup ==> Distinct(Run(config, pages).requested)
  {
    if pages == [] {
      assert Members(START.requested) == {};
    } else {
      var init := pages[..|pages| - 1];
      var p := pages[|pages| - 1];
      NothingRequestedTwice(config, init);
      var c := Run(config, init);
      RunStep(config, pages);
      hide Run, Distinct;
      if p.current !in c.seenPages && p.items.Some? {
        var inside := if AllOlder(config, p.items.value) then [] else Filter(Window(config), p.items.value);
        var added := Fresh(config.dedup, c.seen, inside);
        FreshIsNew(c.seen, inside);
        hide Fresh, AllOlder, Window;
        MembersOfJoin(c.requested, added);
        assert forall x | x in c.requested :: x in Members(c.requested);
        if config.dedup { DistinctJoin(c.requested, added); }
      }
    }
  }

  lemma RunStep(config: Config, pages: seq<Page>)
    requires pages != []
    ensures Run(config, pages) == After(Run(config, pages[..|pages| - 1]), config, pages[|pages| - 1])
  {
  }

  lemma DistinctJoin(a: seq<Fingerprint>, b: seq<Fingerprint>)
    requires Distinct(a) && Distinct(b) && forall f | f in b :: f !in a
    ensures Distinct(a + b)
  {
    forall i, j | 0 <= i < j < |a + b| ensures (a + b)[i] != (a + b)[j] {
      if i < |a| <= j { assert (a + b)[i] in a && (a + b)[j] in b; }
    }
  }

  lemma MembersOfJoin(a: seq<Fingerprint>, b: seq<Fingerprint>)
    ensures Members(a + b) == Members(a) + Members(b)
  {
  }

  lemma CountedPage(config: Config, c: Crawl, p: Page)
    requires p.current !in c.seenPages
    ensures var c' := After(c, config, p); c'.seenPages == c.seenPages + {p.current} && c'.pagesScraped == c.pagesScraped + 1
  {
  }

  function NumbersOf(pages: seq<Page>): (r: seq<int>)
    ensures |r| == |pages| && forall i | 0 <= i < |r| :: r[i] == pages[i].current
  {
    if pages == [] then [] else NumbersOf(pages[..|pages| - 1]) + [pages[|pages| - 1].current]
  }

  /** No page number is processed twice: the numbers of the pages a run goes on from are distinct. */
  lemma {:induction false} NoPageTwice(config: Config, pages: seq<Page>)
    requires GoesOn(config, pages)
    ensures Distinct(NumbersOf(pages))
    ensures var c := Run(config, pages); c.seenPages == Members(NumbersOf(pages)) && c.pagesScraped == |pages|
  {
    if pages == [] {
      assert Members(NumbersOf(pages)) == {};
    } else {
      hide After, Run, Verdict;
      var init := pages[..|pages| - 1];
      var last := pages[|pages| - 1];
      NoPageTwice(config, init);
      assert LastOutcome(config, pages).Follow?;
      RunStep(config, pages);
      CountedPage(config, Run(config, init), last);
      hide GoesOn;
      assert last.current !in Members(NumbersOf(init));
      AppendedNumber(NumbersOf(init), last.current);
    }
  }

  lemma AppendedNumber(numbers: seq<int>, x: int)
    requires Distinct(numbers) && x !in Members(numbers)
    ensures Distinct(numbers + [x]) && Members(numbers + [x]) == Members(numbers) + {x}
  {
  }

  /** A run never scrapes more than `max_pages` pages. */
  lemma {:induction false} AtMostMaxPages(config: Config, pages: seq<Page>)
    requires config.Valid() && config.maxPages.Some? && IsRun(config, pages)
    ensures |pages| <= config.maxPages.value
  {
    var init := pages[..|pages| - 1];
    NoPageTwice(config, init);
    if init != [] {
      assert LastOutcome(config, init).Follow?;
      RunStep(config, init);
    }
  }

  /** Every item counted is accounted for: unique, skipped as a duplicate, or outside the window. */
  lemma {:induction false} ItemsAreConserved(config: Config, pages: seq<Page>)
    ensures var c := Run(config, pages);
            c.itemsSeen == c.itemsUnique + c.itemsSkipped + c.itemsOutside && c.itemsUnique == |c.requested|
  {
    if pages != [] {
      var init := pages[..|pages| - 1];
      var p := pages[|pages| - 1];
      ItemsAreConserved(config, init);
      RunStep(config, pages);
      hide Run;
      if p.items.Some? && AllOlder(config, p.items.value) {
        NothingInside(config, p.items.value);
      }
      if p.items.Some? {
        RequestedOrSkipped(config.dedup, Run(config, init).seen, if AllOlder(config, p.items.value) then [] else Filter(Window(config), p.items.value));
      }
      hide Fresh, AllOlder, SkippedOf, Window;
    }
  }

  lemma NothingInside(config: Config, items: seq<Item>)
    requires AllOlder(config, items)
    ensures Filter(Window(config), items) == []
  {
    var inside := Filter(Window(config), items);
    FilterMembers(Window(config), items);
    assert forall i :: i in inside ==> i in items && Window(config)(i);
    EmptyOrInhabited(inside);
  }

  // ---------------------------------------------------------------- termination

  /** All fingerprints of the pages are among these. */
  ghost predicate Among(universe: set<Fingerprint>, pages: seq<Page>) {
    forall p, i | p in pages && p.items.Some? && i in p.items.value :: i.fingerprint in universe
  }

  lemma {:induction false} SeenIsAmong(universe: set<Fingerprint>, config: Config, pages: seq<Page>)
    requires Among(universe, pages)
    ensures Run(config, pages).seen <= universe
  {
    if pages != [] {
      var init := pages[..|pages| - 1];
      var p := pages[|pages| - 1];
      assert p in pages && forall q | q in init :: q in pages;
      SeenIsAmong(universe, config, init);
      RunStep(config, pages);
      var c := Run(config, init);
      hide Run;
      if p.current !in c.seenPages && p.items.Some? {
        var inside := if AllOlder(config, p.items.value) then [] else Filter(Window(config), p.items.value);
        FreshCovers(config.dedup, c.seen, inside);
        FilterMembers(Window(config), p.items.value);
        hide Fresh, AllOlder, Window;
      }
    }
  }

  /** Unseen fingerprints weigh a full threshold each; the rest of the threshold is what is left
      before the no-new-pages stop. */
  function Measure(universe: set<Fingerprint>, config: Config, c: Crawl): int {
    |universe - c.seen| * config.threshold + (config.threshold - c.consecutive)
  }

  lemma {:induction false} WeightDrops(fewer: nat, more: nat, threshold: nat)
    requires fewer < more
    ensures fewer * threshold + threshold <= more * threshold
  {
    assert more == fewer + 1 + (more - fewer - 1);
    assert more * threshold == fewer * threshold + threshold + (more - fewer - 1) * threshold;
  }

  /** Going on from a page costs at least one unit of the measure. */
  lemma {:induction false} FollowingCosts(universe: set<Fingerprint>, config: Config, c: Crawl, p: Page)
    requires config.Valid() && config.dedup && OutcomeOf(c, config, p).Follow? && c.consecutive < config.threshold
    requires After(c, config, p).seen <= universe
    ensures var c' := After(c, config, p);
            c'.consecutive < config.threshold && Measure(universe, config, c') < Measure(universe, config, c)
  {
    var c' := After(c, config, p);
    var inside := Filter(Window(config), p.items.value);
    var added := Fresh(true, c.seen, inside);
    FreshIsNew(c.seen, inside);
    hide Fresh, Window;
    if added == [] {
      assert Members(added) == {};
      assert c'.seen == c.seen;
    } else {
      assert added[0] in added && added[0] in Members(added);
      assert added[0] in universe - c.seen && added[0] !in universe - c'.seen;
      SubsetsAreSmaller(universe - c'.seen, (universe - c.seen) - {added[0]});
      WeightDrops(|universe - c'.seen|, |universe - c.seen|, config.threshold);
    }
  }

  lemma {:induction false} MeasureBoundsTheRun(universe: set<Fingerprint>, config: Config, pages: seq<Page>)
    requires config.Valid() && config.dedup && Among(universe, pages) && GoesOn(config, pages)
    ensures var c := Run(config, pages);
            c.consecutive < config.threshold && Measure(universe, config, c) + |pages| <= (|universe| + 1) * config.threshold
  {
    if pages == [] {
      assert universe - START.seen == universe;
    } else {
      var init := pages[..|pages| - 1];
      var p := pages[|pages| - 1];
      assert forall q | q in init :: q in pages;
      MeasureBoundsTheRun(universe, config, init);
      SeenIsAmong(universe, config, pages);
      RunStep(config, pages);
      assert LastOutcome(config, pages).Follow?;
      hide Run, GoesOn, Measure, After, OutcomeOf;
      FollowingCosts(universe, config, Run(config, init), p);
    }
  }

  /** Whatever the server answers, a run over at most |universe| fingerprints processes at most
      (|universe| + 1) * threshold pages. */
  lemma {:induction false} PaginationTerminates(universe: set<Fingerprint>, config: Config, pages: seq<Page>)
    requires config.Valid() && config.dedup && Among(universe, pages) && IsRun(config, pages)
    ensures |pages| <= (|universe| + 1) * config.threshold
  {
    var init := pages[..|pages| - 1];
    assert forall q | q in init :: q in pages;
    MeasureBoundsTheRun(universe, config, init);
    WeightIsNotNegative(|universe - Run(config, init).seen|, config.threshold);
  }

  lemma WeightIsNotNegative(a: nat, b: nat)
    ensures a * b >= 0
  {
  }

  // ---------------------------------------------------------------- without deduplication

  const ENDLESS_LINK := Anchor(NEXT_PAGE, "", "", "go()")

  /** Page k of a server that lists one undated item for ever. */
  function EndlessPage(f: Fingerprint, k: nat): Page {
    Page(k + 1, Some([Item(f, None)]), [ENDLESS_LINK])
  }

  function EndlessPages(f: Fingerprint, n: nat): (pages: seq<Page>)
    ensures |pages| == n && forall k | 0 <= k < n :: pages[k] == EndlessPage(f, k)
  {
    if n == 0 then [] else EndlessPages(f, n - 1) + [EndlessPage(f, n - 1)]
  }

  lemma EndlessLinkLeadsOn(current: int)
    ensures NextPage([ENDLESS_LINK], current).Some?
  {
    assert Contains(NEXT_PAGE, NEXT_PAGE);
    assert !Contains(Lower(""), "disabled");
    assert Strip("go()") == "go()" && Lower("go()") != "";
    assert FirstLink([ENDLESS_LINK], 0) && !Inert(ENDLESS_LINK);
    FirstLinkDecides([ENDLESS_LINK], current);
  }

  lemma SameItemIsFresh(config: Config, f: Fingerprint, seen: set<Fingerprint>)
    requires !config.dedup
    ensures var items := [Item(f, None)];
            !AllOlder(config, items) && Fresh(config.dedup, seen, Filter(Window(config), items)) != []
  {
    var items := [Item(f, None)];
    assert items[0] in items && Filter(Window(config), items) == items;
  }

  lemma OneMoreEndlessPage(config: Config, f: Fingerprint, c: Crawl, k: nat)
    requires config.Valid() && !config.dedup && config.maxPages.None? && k + 1 !in c.seenPages
    ensures OutcomeOf(c, config, EndlessPage(f, k)).Follow?
  {
    EndlessLinkLeadsOn(k + 1);
    SameItemIsFresh(config, f, c.seen);
    hide Fresh, Filter, Window, AllOlder, SkippedOf, NextPage;
  }

  lemma {:induction false} EndlessRunGoesOn(config: Config, f: Fingerprint, n: nat)
    requires config.Valid() && !config.dedup && config.maxPages.None?
    ensures GoesOn(config, EndlessPages(f, n))
  {
    if n > 0 {
      var pages := EndlessPages(f, n);
      EndlessRunGoesOn(config, f, n - 1);
      assert pages[..n - 1] == EndlessPages(f, n - 1);
      NoPageTwice(config, EndlessPages(f, n - 1));
      OneMoreEndlessPage(config, f, Run(config, EndlessPages(f, n - 1)), n - 1);
    }
  }

  ghost predicate Bounded(universe: set<Fingerprint>, config: Config, bound: nat) {
    forall pages: seq<Page> | Among(universe, pages) && IsRun(config, pages) :: |pages| <= bound
  }

  /** Without fingerprints there are no items, and a page without items ends the run. */
  lemma {:induction false} NothingListedEndsTheRun(config: Config, pages: seq<Page>)
    requires Among({}, pages) && IsRun(config, pages)
    ensures |pages| <= 1
  {
    hide Run, Counted;
    var init := pages[..|pages| - 1];
    if init != [] {
      var p := init[|init| - 1];
      assert p == pages[|init| - 1] && p in pages;
      assert LastOutcome(config, init).Follow?;
      if p.items.Some? {
        assert forall i | i in p.items.value :: i.fingerprint in {};
        EmptyOrInhabited(p.items.value);
      }
    }
  }

  lemma {:induction false} BoundHolds(universe: set<Fingerprint>, config: Config) returns (bound: nat)
    requires config.Valid() && (universe == {} || config.dedup || config.maxPages.Some?)
    ensures Bounded(universe, config, bound)
  {
    WeightIsNotNegative(|universe| + 1, config.threshold);
    bound := if config.dedup then (|universe| + 1) * config.threshold else if config.maxPages.Some? then config.maxPages.value else 1;
    hide IsRun, Among;
    forall pages: seq<Page> | Among(universe, pages) && IsRun(config, pages) ensures |pages| <= bound {
      if config.dedup {
        PaginationTerminates(universe, config, pages);
      } else if config.maxPages.Some? {
        AtMostMaxPages(config, pages);
      } else {
        NothingListedEndsTheRun(config, pages);
      }
    }
  }

  /** Over a fixed set of fingerprints the length of runs is bounded exactly if in-run deduplication or
      `max_pages` is on, or there is no fingerprint at all. */
  lemma {:induction false} BoundedExactly(universe: set<Fingerprint>, config: Config)
    requires config.Valid()
    ensures (universe == {} || config.dedup || config.maxPages.Some?) <==> exists bound :: Bounded(universe, config, bound)
  {
    if universe == {} || config.dedup || config.maxPages.Some? {
      var bound := BoundHolds(universe, config);
    } else {
      var f :| f in universe;
      forall bound: nat ensures !Bounded(universe, config, bound) {
        var pages := EndlessPages(f, bound + 1);
        EndlessRunGoesOn(config, f, bound);
        assert pages[..bound] == EndlessPages(f, bound);
        assert Among(universe, pages) && IsRun(config, pages) && |pages| > bound;
      }
    }
  }

  // ---------------------------------------------------------------- backfill completeness

  /** Every page was new and readable. */
  predicate AllCounted(config: Config, pages: seq<Page>) {
    pages == [] ||
    (AllCounted(config, pages[..|pages| - 1])
     && pages[|pages| - 1].current !in Run(config, pages[..|pages| - 1]).seenPages && pages[|pages| - 1].items.Some?)
  }

  lemma {:induction false} GoingOnCounts(config: Config, pages: seq<Page>)
    requires GoesOn(config, pages)
    ensures AllCounted(config, pages)
  {
    if pages != [] {
      GoingOnCounts(config, pages[..|pages| - 1]);
      assert LastOutcome(config, pages).Follow?;
    }
  }

  /** An undated item, or one dated on or after the start of the backfill. */
  predicate Wanted(start: Option<Day>, i: Item) {
    start == None || i.day == None || start.value <= i.day.value
  }

  ghost predicate ListedInside(config: Config, pages: seq<Page>, f: Fingerprint) {
    exists p, i :: p in pages && p.items.Some? && i in p.items.value && Wanted(config.backfillStart, i) && i.fingerprint == f
  }

  lemma CountedRequests(config: Config, c: Crawl, p: Page)
    requires p.current !in c.seenPages && p.items.Some? && c.seen == Members(c.requested)
    ensures var c' := After(c, config, p);
            && (forall f | f in c.requested :: f in c'.requested)
            && (forall i | i in p.items.value && Wanted(config.backfillStart, i) :: i.fingerprint in c'.requested)
            && (forall f | f in c'.requested && f !in c.requested ::
                  exists i :: i in p.items.value && Wanted(config.backfillStart, i) && i.fingerprint == f)
  {
    var items := p.items.value;
    var inside := if AllOlder(config, items) then [] else Filter(Window(config), items);
    FreshCovers(config.dedup, c.seen, inside);
    FilterMembers(Window(config), items);
    assert forall i | i in items && Wanted(config.backfillStart, i) :: i in inside && Window(config)(i);
    hide Fresh, AllOlder, Wanted;
  }

  /** The details requested are exactly those of the in-window items on the pages processed. */
  lemma {:induction false} RequestsAreTheWindow(config: Config, pages: seq<Page>)
    requires AllCounted(config, pages)
    ensures forall f :: f in Run(config, pages).requested <==> ListedInside(config, pages, f)
  {
    if pages != [] {
      var init := pages[..|pages| - 1];
      var p := pages[|pages| - 1];
      assert pages == init + [p];
      assert forall q :: q in pages <==> q in init || q == p;
      RequestsAreTheWindow(config, init);
      NothingRequestedTwice(config, init);
      RunStep(config, pages);
      CountedRequests(config, Run(config, init), p);
      hide Run, After, AllCounted, Wanted;
      forall f | f in Run(config, pages).requested ensures ListedInside(config, pages, f) {
        if f in Run(config, init).requested {
          var q, i :| q in init && q.items.Some? && i in q.items.value && Wanted(config.backfillStart, i) && i.fingerprint == f;
          assert q in pages;
        }
      }
      forall q, i | q in pages && q.items.Some? && i in q.items.value && Wanted(config.backfillStart, i)
        ensures i.fingerprint in Run(config, pages).requested
      {
        assert q in init ==> ListedInside(config, init, i.fingerprint);
      }
    }
  }

  /** The server answers with consecutive pages of one list, and links each page to the one after it. */
  ghost predicate Serves(list: seq<seq<Item>>, pages: seq<Page>) {
    && |pages| <= |list|
    && forall k | 0 <= k < |pages| ::
         && pages[k].current == k + 1 && pages[k].items == Some(list[k])
         && NextPage(pages[k].anchors, k + 1) == if k + 1 < |list| then Some(k + 2) else None
  }

  /** No later page holds an item dated after an item of an earlier page. */
  ghost predicate NewestFirst(list: seq<seq<Item>>) {
    forall k, l, i, j | 0 <= k < l < |list| && i in list[k] && j in list[l] && i.day.Some? && j.day.Some? ::
      i.day.value >= j.day.value
  }

  predicate DatedInside(config: Config, i: Item) {
    i.day.Some? && (config.backfillStart.Some? ==> config.backfillStart.value <= i.day.value)
  }

  lemma LaterItemsAreOutside(config: Config, list: seq<seq<Item>>, m: nat, k: nat, i: Item)
    requires m < k < |list| && NewestFirst(list) && AllOlder(config, list[m]) && i in list[k]
    ensures !DatedInside(config, i)
  {
    assert list[m][0] in list[m];
  }

  lemma LastPageVerdict(config: Config, c: Crawl, p: Page)
    requires OutcomeOf(c, config, p) in [BackfillBoundary, LastPage]
    ensures p.current !in c.seenPages && p.items.Some?
    ensures OutcomeOf(c, config, p) == BackfillBoundary ==> AllOlder(config, p.items.value)
    ensures OutcomeOf(c, config, p) == LastPage ==> NextPage(p.anchors, p.current).None?
  {
    hide NextPage, AllOlder, After;
  }

  /** If the run stops at the backfill boundary or at the last page, the details of every item of the
      whole list dated inside the window have been requested, also of those on pages never fetched. */
  lemma {:induction false} BackfillIsComplete(config: Config, list: seq<seq<Item>>, pages: seq<Page>)
    requires IsRun(config, pages) && Serves(list, pages) && NewestFirst(list)
    requires LastOutcome(config, pages) in [BackfillBoundary, LastPage]
    ensures forall k, i | 0 <= k < |list| && i in list[k] && DatedInside(config, i) :: i.fingerprint in Run(config, pages).requested
  {
    hide Run, OutcomeOf, After, NextPage, GoesOn, NewestFirst, AllOlder, InWindow;
    var m := |pages| - 1;
    var last := pages[m];
    GoingOnCounts(config, pages[..m]);
    LastPageVerdict(config, Run(config, pages[..m]), last);
    RequestsAreTheWindow(config, pages);
    assert last.current == m + 1 && last.items == Some(list[m]);
    hide AllCounted;
    forall k, i | 0 <= k < |list| && i in list[k] && DatedInside(config, i) ensures i.fingerprint in Run(config, pages).requested {
      if k <= m {
        assert pages[k] in pages && pages[k].items == Some(list[k]);
        assert ListedInside(config, pages, i.fingerprint);
      } else {
        LaterItemsAreOutside(config, list, m, k, i);
      }
    }
  }

  // ---------------------------------------------------------------- when a run goes on and why it stops

  /** Processing page k requested no detail. */
  predicate AddedNothing(config: Config, pages: seq<Page>, k: nat)
    requires k < |pages|
  {
    Run(config, pages[..k + 1]).requested == Run(config, pages[..k]).requested
  }

  /** None of the last n pages requested a detail. */
  ghost predicate Idle(config: Config, pages: seq<Page>, n: int) {
    n <= |pages| && forall k: nat | |pages| - n <= k < |pages| :: AddedNothing(config, pages, k)
  }

  lemma AddedNothingBefore(config: Config, pages: seq<Page>, k: nat)
    requires k < |pages| - 1
    ensures AddedNothing(config, pages[..|pages| - 1], k) <==> AddedNothing(config, pages, k)
  {
    assert pages[..|pages| - 1][..k + 1] == pages[..k + 1] && pages[..|pages| - 1][..k] == pages[..k];
  }

  lemma LastAddition(config: Config, pages: seq<Page>)
    requires AllCounted(config, pages) && pages != []
    ensures var c := Run(config, pages[..|pages| - 1]);
            var c' := Run(config, pages);
            && (AddedNothing(config, pages, |pages| - 1) ==> c'.consecutive == c.consecutive + 1)
            && (!AddedNothing(config, pages, |pages| - 1) ==> c'.consecutive == 0)
            && c'.pagesScraped == c.pagesScraped + 1
  {
    RunStep(config, pages);
    assert pages[..|pages|] == pages;
    hide Run, Fresh, Filter, AllOlder, SkippedOf;
  }

  lemma IdleBefore(config: Config, pages: seq<Page>, n: nat)
    requires pages != [] && Idle(config, pages[..|pages| - 1], n) && AddedNothing(config, pages, |pages| - 1)
    ensures Idle(config, pages, n + 1)
  {
    hide AddedNothing;
    forall k: nat | |pages| - n - 1 <= k < |pages| ensures AddedNothing(config, pages, k) {
      if k < |pages| - 1 {
        AddedNothingBefore(config, pages, k);
        assert AddedNothing(config, pages[..|pages| - 1], k);
      }
    }
  }

  lemma IdleNever(config: Config, pages: seq<Page>)
    ensures Idle(config, pages, 0)
    ensures pages == [] ==> Run(config, pages) == START
  {
  }

  lemma CountedBefore(config: Config, pages: seq<Page>)
    requires AllCounted(config, pages) && pages != []
    ensures AllCounted(config, pages[..|pages| - 1])
  {
  }

  /** The counter of pages without a new item counts exactly the latest such pages. */
  lemma {:induction false} ConsecutiveIsExact(config: Config, pages: seq<Page>)
    requires AllCounted(config, pages)
    ensures var c := Run(config, pages);
            && c.pagesScraped == |pages|
            && Idle(config, pages, c.consecutive)
            && (c.consecutive < |pages| ==> !AddedNothing(config, pages, |pages| - c.consecutive - 1))
  {
    hide AddedNothing, Idle, Run, AllCounted;
    IdleNever(config, pages);
    if pages != [] {
      var init := pages[..|pages| - 1];
      CountedBefore(config, pages);
      ConsecutiveIsExact(config, init);
      LastAddition(config, pages);
      var n := Run(config, init).consecutive;
      if AddedNothing(config, pages, |pages| - 1) {
        IdleBefore(config, pages, n);
        if n < |init| { AddedNothingBefore(config, pages, |init| - n - 1); }
      }
    }
  }

  lemma {:induction false} IdleExactly(config: Config, pages: seq<Page>, n: int)
    requires AllCounted(config, pages) && n >= 1
    ensures Run(config, pages).consecutive >= n <==> Idle(config, pages, n)
  {
    ConsecutiveIsExact(config, pages);
    hide Run, AllCounted, AddedNothing;
  }

  /** Some next-page link on the page is the first and is live. */
  ghost predicate HasLiveLink(p: Page) {
    exists i :: FirstLink(p.anchors, i) && !Inert(p.anchors[i])
  }

  /** The page is new to the run, could be read, and lists something not wholly before the window. */
  ghost predicate ListsSomething(config: Config, pages: seq<Page>)
    requires pages != []
  {
    var p := pages[|pages| - 1];
    && (forall k | 0 <= k < |pages| - 1 :: pages[k].current != p.current)
    && p.items.Some? && exists i :: i in p.items.value && Wanted(config.backfillStart, i)
  }

  lemma {:induction false} RepeatedExactly(config: Config, pages: seq<Page>)
    requires IsRun(config, pages)
    ensures pages[|pages| - 1].current in Run(config, pages[..|pages| - 1]).seenPages <==>
            exists k :: 0 <= k < |pages| - 1 && pages[k].current == pages[|pages| - 1].current
  {
    var init := pages[..|pages| - 1];
    NoPageTwice(config, init);
    hide Run, GoesOn;
    var x := pages[|pages| - 1].current;
    if x in Members(NumbersOf(init)) {
      var k :| 0 <= k < |init| && NumbersOf(init)[k] == x;
      assert pages[k].current == x;
    }
    if k :| 0 <= k < |pages| - 1 && pages[k].current == x {
      assert NumbersOf(init)[k] == x;
    }
  }

  lemma OldMeansUnwanted(config: Config, items: seq<Item>)
    ensures items != [] && !AllOlder(config, items) <==> exists i :: i in items && Wanted(config.backfillStart, i)
  {
    EmptyOrInhabited(items);
  }

  /** The counters the stop conditions read, in terms of the pages of the run. */
  lemma {:induction false} LatestCounters(config: Config, pages: seq<Page>)
    requires config.Valid() && IsRun(config, pages)
    ensures var c := Run(config, pages[..|pages| - 1]);
            var p := pages[|pages| - 1];
            p.current !in c.seenPages && p.items.Some? ==>
              && After(c, config, p).pagesScraped == |pages|
              && (After(c, config, p).consecutive >= config.threshold <==> Idle(config, pages, config.threshold))
              && (p.items.value != [] && !AllOlder(config, p.items.value) <==>
                    exists i :: i in p.items.value && Wanted(config.backfillStart, i))
  {
    hide After, Run, GoesOn, Idle, AllOlder;
    var init := pages[..|pages| - 1];
    var p := pages[|pages| - 1];
    GoingOnCounts(config, init);
    if p.current !in Run(config, init).seenPages && p.items.Some? {
      OldMeansUnwanted(config, p.items.value);
      RunStep(config, pages);
      ConsecutiveIsExact(config, pages);
      IdleExactly(config, pages, config.threshold);
    }
  }

  /** A run goes on from its latest page exactly if that page is new, could be read, lists something not
      wholly before the window and has a live next-page link, the page limit is not reached, and one of
      the last `threshold` pages, if there were so many, requested something.  It goes on to that link. */
  lemma {:induction false} FollowedExactly(config: Config, pages: seq<Page>)
    requires config.Valid() && IsRun(config, pages)
    ensures var p := pages[|pages| - 1];
            && (LastOutcome(config, pages).Follow? <==>
                  && ListsSomething(config, pages) && HasLiveLink(p)
                  && (config.maxPages.Some? ==> |pages| < config.maxPages.value)
                  && !Idle(config, pages, config.threshold))
            && (forall i | LastOutcome(config, pages).Follow? && FirstLink(p.anchors, i) && !Inert(p.anchors[i]) ::
                  LastOutcome(config, pages) == Follow(Destination(p.anchors[i], p.current)))
  {
    var init := pages[..|pages| - 1];
    var p := pages[|pages| - 1];
    RepeatedExactly(config, pages);
    FirstLinkDecides(p.anchors, p.current);
    LatestCounters(config, pages);
    hide Run, GoesOn, AllCounted, After, Idle, FirstLink, Inert, AllOlder, NextPage, Destination;
  }

  /** Why a run stops for want of new items or at the page limit. */
  lemma {:induction false} StopsExactly(config: Config, pages: seq<Page>)
    requires config.Valid() && IsRun(config, pages)
    ensures var p := pages[|pages| - 1];
            var atLimit := config.maxPages == Some(|pages|);
            && (LastOutcome(config, pages) == MaxPages <==> ListsSomething(config, pages) && atLimit)
            && (LastOutcome(config, pages) == NoNewPages <==>
                  ListsSomething(config, pages) && !atLimit && Idle(config, pages, config.threshold))
            && (LastOutcome(config, pages) == LastPage <==>
                  ListsSomething(config, pages) && !atLimit && !Idle(config, pages, config.threshold) && !HasLiveLink(p))
  {
    var init := pages[..|pages| - 1];
    var p := pages[|pages| - 1];
    RepeatedExactly(config, pages);
    FirstLinkDecides(p.anchors, p.current);
    if config.maxPages.Some? { AtMostMaxPages(config, pages); }
    LatestCounters(config, pages);
    hide Run, GoesOn, AllCounted, After, Idle, FirstLink, Inert, AllOlder, NextPage, Destination;
  }

  /** Why a run stops at a page that lists nothing to go on for. */
  lemma {:induction false} NothingListedExactly(config: Config, pages: seq<Page>)
    requires IsRun(config, pages)
    ensures var p := pages[|pages| - 1];
            var repeated := exists k :: 0 <= k < |pages| - 1 && pages[k].current == p.current;
            && (LastOutcome(config, pages) == RepeatedPage <==> repeated)
            && (LastOutcome(config, pages) == Unreadable <==> !repeated && p.items == None)
            && (LastOutcome(config, pages) == EmptyPage <==> !repeated && p.items == Some([]))
            && (LastOutcome(config, pages) == BackfillBoundary <==>
                  !repeated && p.items.Some? && p.items != Some([]) && forall i | i in p.items.value :: !Wanted(config.backfillStart, i))
  {
    var p := pages[|pages| - 1];
    RepeatedExactly(config, pages);
    if p.items.Some? { OldMeansUnwanted(config, p.items.value); }
    hide Run, GoesOn, After, AllOlder, NextPage;
  }
}
