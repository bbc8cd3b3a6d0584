/** The detail requests of a run, in their order, against what the server listed. */
module ListRequests {
  import opened Options
  import opened Ordering
  import opened ListPagination

  /** The fingerprints of the undated and the recent enough items, in list order. */
  function WantedOf(start: Option<Day>, items: seq<Item>): seq<Fingerprint> {
    if items == [] then []
    else
      var last := items[|items| - 1];
      WantedOf(start, items[..|items| - 1]) + if Wanted(start, last) then [last.fingerprint] else []
  }

  /** What the pages list, one after the other; a page whose number was there before, or that could not
      be read, lists nothing. */
  function Listing(start: Option<Day>, pages: seq<Page>): seq<Fingerprint> {
    if pages == [] then []
    else
      var init, p := pages[..|pages| - 1], pages[|pages| - 1];
      Listing(start, init)
      + if p.items.None? || exists k | 0 <= k < |init| :: init[k].current == p.current then [] else WantedOf(start, p.items.value)
  }

  /** The list without what occurred before. */
  function Firsts(s: seq<Fingerprint>): seq<Fingerprint> {
    if s == [] then []
    else
      var init, last := s[..|s| - 1], s[|s| - 1];
      Firsts(init) + if last in init then [] else [last]
  }

  function PrintsOf(items: seq<Item>): seq<Fingerprint> {
    if items == [] then [] else PrintsOf(items[..|items| - 1]) + [items[|items| - 1].fingerprint]
  }

  lemma {:induction false} FirstsKeepMembers(s: seq<Fingerprint>)
    ensures forall f :: f in Firsts(s) <==> f in s
  {
    if s != [] {
      FirstsKeepMembers(s[..|s| - 1]);
      assert s == s[..|s| - 1] + [s[|s| - 1]];
    }
  }

  /** Going through more items with the earlier ones seen keeps the first occurrences. */
  lemma {:induction false} FreshContinues(earlier: seq<Fingerprint>, items: seq<Item>)
    ensures Firsts(earlier + PrintsOf(items)) == Firsts(earlier) + Fresh(true, Members(earlier), items)
    ensures forall f :: f in PrintsOf(items) && f !in earlier <==> f in Fresh(true, Members(earlier), items)
  {
    if items == [] {
      assert earlier + PrintsOf(items) == earlier;
    } else {
      var init, f := items[..|items| - 1], items[|items| - 1].fingerprint;
      FreshContinues(earlier, init);
      var s := earlier + PrintsOf(items);
      assert s[..|s| - 1] == earlier + PrintsOf(init) && s[|s| - 1] == f;
    }
  }

  lemma {:induction false} EverythingIsFresh(seen: set<Fingerprint>, items: seq<Item>)
    ensures Fresh(false, seen, items) == PrintsOf(items)
  {
    if items != [] { EverythingIsFresh(seen, items[..|items| - 1]); }
  }

  lemma {:induction false} WindowIsWanted(config: Config, items: seq<Item>)
    ensures PrintsOf(Filter(Window(config), items)) == WantedOf(config.backfillStart, items)
  {
    if items != [] {
      var init, last := items[..|items| - 1], items[|items| - 1];
      WindowIsWanted(config, init);
      assert items == init + [last];
      FilterSnoc(Window(config), init, last);
      var kept := Filter(Window(config), init);
      hide Filter;
      assert Window(config)(last) == Wanted(config.backfillStart, last);
      assert Filter(Window(config), items) == if Wanted(config.backfillStart, last) then kept + [last] else kept;
      assert (kept + [last])[..|kept|] == kept;
    }
  }

  lemma {:induction false} NothingWanted(start: Option<Day>, items: seq<Item>)
    requires forall i | i in items :: !Wanted(start, i)
    ensures WantedOf(start, items) == []
  {
    if items != [] {
      assert items[|items| - 1] in items && forall i | i in items[..|items| - 1] :: i in items;
      NothingWanted(start, items[..|items| - 1]);
    }
  }

  /** A counted page adds the wanted items it lists, those not requested before if deduplication is on. */
  lemma PageAdds(config: Config, c: Crawl, p: Page, listed: seq<Fingerprint>)
    requires p.current !in c.seenPages && p.items.Some? && c.seen == Members(listed)
    requires c.requested == if config.dedup then Firsts(listed) else listed
    ensures var listed' := listed + WantedOf(config.backfillStart, p.items.value);
            After(c, config, p).requested == if config.dedup then Firsts(listed') else listed'
  {
    var items := p.items.value;
    var inside := if AllOlder(config, items) then [] else Filter(Window(config), items);
    if AllOlder(config, items) {
      NothingWanted(config.backfillStart, items);
    } else {
      WindowIsWanted(config, items);
    }
    assert PrintsOf(inside) == WantedOf(config.backfillStart, items);
    FreshContinues(listed, inside);
    EverythingIsFresh(c.seen, inside);
    hide Fresh, Firsts, PrintsOf, WantedOf, AllOlder, Window, Filter, SkippedOf;
  }

  lemma {:induction false} NumbersAreSeen(config: Config, pages: seq<Page>)
    ensures forall n :: n in Run(config, pages).seenPages <==> exists k :: 0 <= k < |pages| && pages[k].current == n
  {
    if pages != [] {
      var init := pages[..|pages| - 1];
      NumbersAreSeen(config, init);
      RunStep(config, pages);
      hide Run;
      forall n ensures n in Run(config, pages).seenPages <==> exists k :: 0 <= k < |pages| && pages[k].current == n {
        if k :| 0 <= k < |init| && init[k].current == n { assert pages[k].current == n; }
        if k :| 0 <= k < |pages| && pages[k].current == n { assert k < |init| ==> init[k].current == n; }
      }
    }
  }

  /** The detail requests, in order: everything wanted that the pages list, page by page, and with in-run
      deduplication the first occurrence of each. */
  lemma {:induction false} RequestsReadTheListing(config: Config, pages: seq<Page>)
    ensures var listed := Listing(config.backfillStart, pages);
            Run(config, pages).requested == if config.dedup then Firsts(listed) else listed
  {
    if pages != [] {
      var init, p := pages[..|pages| - 1], pages[|pages| - 1];
      var c := Run(config, init);
      var listed := Listing(config.backfillStart, init);
      RequestsReadTheListing(config, init);
      NothingRequestedTwice(config, init);
      NumbersAreSeen(config, init);
      RunStep(config, pages);
      FirstsKeepMembers(listed);
      assert c.seen == Members(listed);
      hide Run, Distinct, Counted;
      if p.current !in c.seenPages && p.items.Some? {
        PageAdds(config, c, p, listed);
      } else {
        assert listed + [] == listed;
      }
    }
  }
}
