/**
 `run_app` of `app/main_app.py`: count the pages, obtain the listing URLs
 (from the `listing_urls` checkpoint, or by enumerating every page and then
 saving them once), and download the listings one by one from the saved
 index on, saving the index after every attempt.
 */
module Crawl {
  import opened Results
  import opened Utils
  import opened Images
  import opened Listings

  /** The one configuration value the decisions depend on: `listings_per_page`. */
  datatype Config = Config(perPage: int)

  /** What the browser and the network show during one run. */
  datatype Site = Site(
    count: CountReading,              // the count element on the start page
    page: nat -> seq<Round>,          // the rounds observed on result page `?page=n`
    listing: string -> ListingPage)   // what visiting a listing URL gives

  /** How a run ends: normally, by `sys.exit(0)` after a failed listing, or by an uncaught exception or a result page that never settles. */
  datatype End = Finished | Exited(at: nat) | Crashed(why: Failure)

  /** The save directory afterwards, how the run ended, the result pages enumerated and the listings attempted. */
  datatype Run = Run(disk: Disk, end: End, enumerated: seq<nat>, attempted: seq<nat>)

  /** The download loop's share of a run. */
  datatype Progress = Progress(disk: Disk, end: End, attempted: seq<nat>)

  /** The listing list in hand, the disk once it is, and the result pages visited for it. */
  datatype Listing = Listing(disk: Disk, urls: seq<string>, enumerated: seq<nat>)

  /** `download_images` of this listing raises no exception. */
  predicate Succeeds(site: Site, url: string)
  {
    DownloadImages(site.listing(url), CommonString).ok
  }

  /** What `download_images` does with each listing URL during this run. */
  function Outcomes(site: Site): string -> Download
  {
    url => DownloadImages(site.listing(url), CommonString)
  }

  /** Every file a listing's download writes is an image file. */
  ghost predicate WritesImagesOnly(outcome: string -> Download)
  {
    forall url, s :: s in outcome(url).saved ==> IsImageName(s.name)
  }

  lemma OutcomesWriteImagesOnly(site: Site)
    ensures WritesImagesOnly(Outcomes(site))
  {
    forall url, s | s in Outcomes(site)(url).saved
      ensures IsImageName(s.name)
    {
      assert Outcomes(site)(url) == DownloadImages(site.listing(url), CommonString);
    }
  }

  /**
   `r` is `d` after writes of image files and checkpoints only: no file has
   been removed, and every file of another name is exactly as it was.
   */
  ghost predicate OnlyRunFilesChange(d: Disk, r: Disk)
  {
    && (forall n :: Exists(d, n) ==> Exists(r, n))
    && (forall n :: n !in Checkpoints && !IsImageName(n) ==> SameFile(r, d, n))
  }

  /** The listings `s` are `from`, `from`+1, … in this order: a run of consecutive indices. */
  predicate Consecutive(s: seq<nat>, from: nat)
  {
    forall k :: 0 <= k < |s| ==> s[k] == from + k
  }

  /** The save directory after attempt `i`: the listing's image files written, then `i` saved as the index. */
  function AfterAttempt(d: Disk, i: nat, saved: seq<Saved>): (r: Disk)
    requires d.Dir?
    requires forall s :: s in saved ==> IsImageName(s.name)
    ensures r.Dir? && StoredIndexIs(r, i)
    ensures SameFile(r, d, ListingUrls) && SameFile(r, d, SaveMarker)
  {
    WriteImagesKeepsCheckpoints(d, saved, ListingUrls);
    WriteImagesKeepsCheckpoints(d, saved, SaveMarker);
    SaveBinary(WriteFiles(d, saved), UrlIndex, Index(i)).0
  }

  /** Image files and the index are all an attempt writes; it removes nothing. */
  lemma AttemptWritesOnlyRunFiles(d: Disk, i: nat, saved: seq<Saved>)
    requires d.Dir?
    requires forall s :: s in saved ==> IsImageName(s.name)
    ensures OnlyRunFilesChange(d, AfterAttempt(d, i, saved))
  {
    var w := WriteFiles(d, saved);
    WriteFilesNames(d, saved);
    var r := SaveBinary(w, UrlIndex, Index(i)).0;
    forall n | n !in Checkpoints && !IsImageName(n)
      ensures SameFile(r, d, n)
    {
      assert n !in Names(saved);
    }
  }

  /**
   The loop `for i in range(index, len(listing_urls))`: each listing's
   images are downloaded and `i` is saved whether or not that succeeded; a
   failure ends the run right after its index is saved.
   */
  function CrawlFrom(urls: seq<string>, i: nat, d: Disk, outcome: string -> Download): (r: Progress)
    requires d.Dir? && WritesImagesOnly(outcome)
    ensures r.disk.Dir?
    ensures r.end.Finished? || r.end.Exited?
    ensures i >= |urls| ==> r == Progress(d, Finished, [])
    ensures i < |urls| ==> && 1 <= |r.attempted|
                           && i + |r.attempted| <= |urls|
                           && Consecutive(r.attempted, i)
                           && StoredIndexIs(r.disk, i + |r.attempted| - 1)
    ensures r.end.Finished? ==> i + |r.attempted| >= |urls|
    ensures r.end.Exited? ==> r.end.at == i + |r.attempted| - 1 && !outcome(urls[r.end.at]).ok
    ensures SameFile(r.disk, d, ListingUrls) && SameFile(r.disk, d, SaveMarker)
    decreases |urls| - i
  {
    if i >= |urls| then Progress(d, Finished, [])
    else
      var dl := outcome(urls[i]);
      var d2 := AfterAttempt(d, i, dl.saved);
      if !dl.ok then Progress(d2, Exited(i), [i])
      else
        var rest := CrawlFrom(urls, i + 1, d2, outcome);
        var attempted := [i] + rest.attempted;
        assert forall k :: 1 <= k < |attempted| ==> attempted[k] == rest.attempted[k - 1];
        Progress(rest.disk, rest.end, attempted)
  }

  /** Every listing the loop went past succeeded: all attempted listings but the last. */
  lemma {:induction false} CrawlPassesOnlySuccesses(urls: seq<string>, i: nat, d: Disk, outcome: string -> Download)
    requires d.Dir? && WritesImagesOnly(outcome)
    ensures var r := CrawlFrom(urls, i, d, outcome);
      forall j :: i <= j < i + |r.attempted| - 1 ==> outcome(urls[j]).ok
    decreases |urls| - i
  {
    if i < |urls| && outcome(urls[i]).ok {
      var d2 := AfterAttempt(d, i, outcome(urls[i]).saved);
      var rest := CrawlFrom(urls, i + 1, d2, outcome);
      CrawlPassesOnlySuccesses(urls, i + 1, d2, outcome);
      var r := CrawlFrom(urls, i, d, outcome);
      assert |r.attempted| == 1 + |rest.attempted|;
      forall j | i < j < i + |r.attempted| - 1
        ensures outcome(urls[j]).ok
      {
        assert i + 1 <= j < i + 1 + |rest.attempted| - 1;
      }
    }
  }

  /** A loop that runs to the end saw every listing from its start succeed. */
  lemma {:induction false} CrawlFinishesOnSuccesses(urls: seq<string>, i: nat, d: Disk, outcome: string -> Download)
    requires d.Dir? && WritesImagesOnly(outcome)
    ensures CrawlFrom(urls, i, d, outcome).end.Finished? ==> forall j :: i <= j < |urls| ==> outcome(urls[j]).ok
    decreases |urls| - i
  {
    if i < |urls| && outcome(urls[i]).ok {
      var d2 := AfterAttempt(d, i, outcome(urls[i]).saved);
      var rest := CrawlFrom(urls, i + 1, d2, outcome);
      CrawlFinishesOnSuccesses(urls, i + 1, d2, outcome);
      assert CrawlFrom(urls, i, d, outcome).end == rest.end;
      if rest.end.Finished? {
        assert forall j :: i + 1 <= j < |urls| ==> outcome(urls[j]).ok;
      }
    }
  }

  /** The loop only writes image files and the index, and removes no file. */
  lemma {:induction false} CrawlWritesOnlyRunFiles(urls: seq<string>, i: nat, d: Disk, outcome: string -> Download)
    requires d.Dir? && WritesImagesOnly(outcome)
    ensures OnlyRunFilesChange(d, CrawlFrom(urls, i, d, outcome).disk)
    decreases |urls| - i
  {
    if i < |urls| {
      var d2 := AfterAttempt(d, i, outcome(urls[i]).saved);
      AttemptWritesOnlyRunFiles(d, i, outcome(urls[i]).saved);
      if outcome(urls[i]).ok {
        CrawlWritesOnlyRunFiles(urls, i + 1, d2, outcome);
        assert CrawlFrom(urls, i, d, outcome).disk == CrawlFrom(urls, i + 1, d2, outcome).disk;
      }
    }
  }

  /**
   Lines 158-167 of `run_app`: load the `listing_urls` checkpoint verbatim
   if it exists; otherwise visit pages 0 … pages-1 and save their URLs once,
   after the last page.
   */
  function ObtainUrls(d: Disk, pages: int, site: Site): (r: Result<Listing, Failure>)
    requires d.Dir?
    ensures r.Ok? ==> && r.value.disk.Dir?
                      && Exists(r.value.disk, ListingUrls)
                      && LoadBinary(r.value.disk, ListingUrls) == UrlList(r.value.urls)
                      && SameFile(r.value.disk, d, UrlIndex)
                      && SameFile(r.value.disk, d, SaveMarker)
    ensures Exists(d, ListingUrls) && r.Ok? ==> r.value.disk == d && r.value.enumerated == []
    ensures !Exists(d, ListingUrls) ==> (r.Ok? <==> Enumerate(pages, site.page).Ok?)
  {
    if Exists(d, ListingUrls) then
      match LoadBinary(d, ListingUrls)
      case UrlList(urls) => Ok(Listing(d, urls, []))
      case _ => Err(CheckpointKind(ListingUrls))
    else
      match Enumerate(pages, site.page)
      case Err(e) => Err(e)
      case Ok(urls) => Ok(Listing(SaveBinary(d, ListingUrls, UrlList(urls)).0, urls, Interval(0, pages)))
  }

  /** Lines 169-173 of `run_app`: the saved index, or 0 when there is none. */
  function StartIndex(d: Disk): (r: Result<nat, Failure>)
    ensures r.Ok? ==> r.value == ResumeFrom(d)
    ensures Consistent(d) ==> r.Ok?
  {
    if Exists(d, UrlIndex) then
      match LoadBinary(d, UrlIndex)
      case Index(i) => Ok(i)
      case _ => Err(CheckpointKind(UrlIndex))
    else Ok(0)
  }

  /**
   Lines 169-185 of `run_app`: start at the saved index (or 0) and run the
   download loop over the list in hand.
   */
  function ResumeLoop(l: Listing, site: Site): (r: Run)
    requires l.disk.Dir? && Exists(l.disk, ListingUrls) && LoadBinary(l.disk, ListingUrls) == UrlList(l.urls)
    ensures r.disk.Dir? && r.enumerated == l.enumerated
    ensures SameFile(r.disk, l.disk, ListingUrls) && SameFile(r.disk, l.disk, SaveMarker)
    ensures r.attempted == [] ==> r.disk == l.disk
    ensures r.end.Crashed? ==> r.attempted == [] && !Consistent(l.disk)
    ensures Consecutive(r.attempted, ResumeFrom(l.disk))
    ensures r.attempted != [] ==> && ResumeFrom(l.disk) + |r.attempted| <= |l.urls|
                                  && StoredIndexIs(r.disk, r.attempted[|r.attempted| - 1])
    ensures ResumeFrom(l.disk) < |l.urls| && !r.end.Crashed? ==> r.attempted != []
  {
    match StartIndex(l.disk)
    case Err(e) => Run(l.disk, Crashed(e), l.enumerated, [])
    case Ok(start) =>
      OutcomesWriteImagesOnly(site);
      var p := CrawlFrom(l.urls, start, l.disk, Outcomes(site));
      Run(p.disk, p.end, l.enumerated, p.attempted)
  }

  /**
   How the download loop ends: on the last attempted listing when that one
   failed, past the last listing otherwise; every listing it went past
   succeeded.
   */
  lemma ResumeLoopEnds(l: Listing, site: Site)
    requires l.disk.Dir? && Exists(l.disk, ListingUrls) && LoadBinary(l.disk, ListingUrls) == UrlList(l.urls)
    ensures var r := ResumeLoop(l, site);
      && (r.end.Exited? ==> && r.attempted != []
                            && r.end.at == r.attempted[|r.attempted| - 1]
                            && !Succeeds(site, l.urls[r.end.at]))
      && (r.end.Finished? && r.attempted != [] ==> r.attempted[|r.attempted| - 1] == |l.urls| - 1)
      && (forall j :: ResumeFrom(l.disk) <= j < ResumeFrom(l.disk) + |r.attempted| - 1 ==> Succeeds(site, l.urls[j]))
      && (r.end.Finished? ==> forall j :: ResumeFrom(l.disk) <= j < |l.urls| ==> Succeeds(site, l.urls[j]))
  {
    match StartIndex(l.disk)
    case Err(e) =>
    case Ok(start) =>
      OutcomesWriteImagesOnly(site);
      CrawlPassesOnlySuccesses(l.urls, start, l.disk, Outcomes(site));
      CrawlFinishesOnSuccesses(l.urls, start, l.disk, Outcomes(site));
  }

  /** `run_app(yaml_dict)`. */
  function RunApp(cfg: Config, disk: Disk, site: Site): (r: Run)
    ensures r.disk.Dir?
    ensures !r.end.Crashed? ==> TotalPages(site.count, cfg.perPage).Ok?
    ensures SameFile(r.disk, disk, SaveMarker)
  {
    var d0 := MakeDirs(disk);
    match TotalPages(site.count, cfg.perPage)
    case Err(e) => Run(d0, Crashed(e), [], [])
    case Ok(pages) =>
      match ObtainUrls(d0, pages, site)
      case Err(e) => Run(d0, Crashed(e), if e.Unsettled? then Interval(0, e.page + 1) else [], [])
      case Ok(l) => ResumeLoop(l, site)
  }

  /**
   `run_app` removes no file, and besides image files it writes only the
   `listing_urls` and `url_index` checkpoints.
   */
  lemma RunWritesOnlyRunFiles(cfg: Config, disk: Disk, site: Site)
    ensures OnlyRunFilesChange(disk, RunApp(cfg, disk, site).disk)
  {
    var d0 := MakeDirs(disk);
    match TotalPages(site.count, cfg.perPage)
    case Err(e) =>
    case Ok(pages) =>
      match ObtainUrls(d0, pages, site)
      case Err(e) =>
      case Ok(l) =>
        assert OnlyRunFilesChange(disk, l.disk);
        match StartIndex(l.disk)
        case Err(e) =>
        case Ok(start) =>
          OutcomesWriteImagesOnly(site);
          var p := CrawlFrom(l.urls, start, l.disk, Outcomes(site));
          CrawlWritesOnlyRunFiles(l.urls, start, l.disk, Outcomes(site));
          RunFilesChain(disk, l.disk, p.disk);
          assert RunApp(cfg, disk, site).disk == p.disk;
  }

  /** Two stages that each write only run files write only run files together. */
  lemma RunFilesChain(d1: Disk, d2: Disk, d3: Disk)
    requires OnlyRunFilesChange(d1, d2) && OnlyRunFilesChange(d2, d3)
    ensures OnlyRunFilesChange(d1, d3)
  {
  }

  /** The index the download loop starts from: the saved one, or 0. */
  function ResumeFrom(d: Disk): nat
  {
    if Exists(d, UrlIndex) && LoadBinary(d, UrlIndex).Index? then LoadBinary(d, UrlIndex).i else 0
  }

  /**
   Without a `listing_urls` checkpoint, pages 0 … pages-1 are visited in
   order and the concatenation of their URLs is saved once, after the last
   page; if some page does not settle, no list is saved at all.
   */
  lemma FreshRunEnumerates(cfg: Config, disk: Disk, site: Site, pages: int)
    requires !Exists(disk, ListingUrls)
    requires TotalPages(site.count, cfg.perPage) == Ok(pages)
    ensures var r := RunApp(cfg, disk, site);
      if forall p :: 0 <= p < pages ==> ListingUrlsOnPage(site.page(p)).Some? then
        && r.enumerated == Interval(0, pages)
        && Exists(r.disk, ListingUrls)
        && LoadBinary(r.disk, ListingUrls) == UrlList(Concat(PageBlocks(0, pages, site.page)))
      else
        && r.end.Crashed? && r.end.why.Unsettled?
        && !Exists(r.disk, ListingUrls)
        && r.attempted == []
  {
    EnumerateSpec(0, pages, site.page);
    if forall p :: 0 <= p < pages ==> ListingUrlsOnPage(site.page(p)).Some? {
      EnumerateConcatenates(0, pages, site.page);
    }
  }

  /**
   With a `listing_urls` checkpoint, no result page is visited again: the
   saved list is used verbatim, stays as it was, and only its indices are
   attempted.
   */
  lemma CheckpointedListReused(cfg: Config, disk: Disk, site: Site, urls: seq<string>)
    requires Exists(disk, ListingUrls) && LoadBinary(disk, ListingUrls) == UrlList(urls)
    ensures var r := RunApp(cfg, disk, site);
      && r.enumerated == []
      && SameFile(r.disk, disk, ListingUrls)
      && forall j :: j in r.attempted ==> j < |urls|
  {
  }

  /**
   Whatever the `listing_urls` checkpoint holds, a run over it visits no
   result page: it either uses the list or dies on unpickling it.
   */
  lemma ListCheckpointSkipsEnumeration(cfg: Config, disk: Disk, site: Site)
    ensures Exists(disk, ListingUrls) ==> RunApp(cfg, disk, site).enumerated == []
  {
    if !Exists(disk, ListingUrls) {
      return;
    }
    var d0 := MakeDirs(disk);
    assert Exists(d0, ListingUrls);
    match TotalPages(site.count, cfg.perPage)
    case Err(_) =>
    case Ok(pages) =>
      match ObtainUrls(d0, pages, site)
      case Err(e) =>
        assert e == CheckpointKind(ListingUrls);
      case Ok(l) =>
  }

  /** Creating the directory changes no file, so a run resumes from what the disk held. */
  lemma ResumeFromMakeDirs(disk: Disk)
    ensures ResumeFrom(MakeDirs(disk)) == ResumeFrom(disk)
    ensures Consistent(disk) ==> Consistent(MakeDirs(disk))
  {
    if !disk.Dir? {
      assert !Exists(disk, UrlIndex) && !Exists(MakeDirs(disk), UrlIndex);
      assert !Exists(MakeDirs(disk), ListingUrls);
    }
  }

  /**
   The download loop starts at the saved index, or at 0 without one, and
   attempts consecutive listings from there: nothing below the starting
   index is ever attempted.
   */
  lemma StartsAtSavedIndex(cfg: Config, disk: Disk, site: Site)
    ensures var r := RunApp(cfg, disk, site);
      && Consecutive(r.attempted, ResumeFrom(disk))
      && forall j :: j in r.attempted ==> j >= ResumeFrom(disk)
  {
    var d0 := MakeDirs(disk);
    ResumeFromMakeDirs(disk);
    match TotalPages(site.count, cfg.perPage)
    case Err(_) =>
    case Ok(pages) =>
      match ObtainUrls(d0, pages, site)
      case Err(_) =>
      case Ok(l) =>
        assert ResumeFrom(l.disk) == ResumeFrom(d0);
  }

  /**
   A run that stops on a failed listing `j` has attempted exactly the
   listings from its start up to `j`, all but `j` succeeded, and `j` itself
   is the saved index.
   */
  lemma FailureSavesSameIndex(cfg: Config, disk: Disk, site: Site)
    ensures var r := RunApp(cfg, disk, site);
      r.end.Exited? ==>
        && StoredIndexIs(r.disk, r.end.at)
        && Consecutive(r.attempted, ResumeFrom(disk))
        && r.attempted != [] && r.attempted[|r.attempted| - 1] == r.end.at
        && Exists(r.disk, ListingUrls) && LoadBinary(r.disk, ListingUrls).UrlList?
        && r.end.at < |LoadBinary(r.disk, ListingUrls).urls|
        && !Succeeds(site, LoadBinary(r.disk, ListingUrls).urls[r.end.at])
  {
    var d0 := MakeDirs(disk);
    ResumeFromMakeDirs(disk);
    match TotalPages(site.count, cfg.perPage)
    case Err(_) =>
    case Ok(pages) =>
      match ObtainUrls(d0, pages, site)
      case Err(_) =>
      case Ok(l) =>
        assert ResumeFrom(l.disk) == ResumeFrom(d0);
        var r := ResumeLoop(l, site);
        ResumeLoopEnds(l, site);
        assert RunApp(cfg, disk, site) == r;
        assert LoadBinary(r.disk, ListingUrls) == UrlList(l.urls);
        if r.end.Exited? {
          assert r.end.at < |l.urls|;
          assert StoredIndexIs(r.disk, r.end.at);
        }
  }

  /**
   Resumption re-attempts the listing that failed: a later run over the
   disk a failed run left behind uses the saved list without enumerating
   and starts exactly at the failed index.
   */
  lemma {:induction false} ResumeRetriesFailedListing(cfg: Config, disk: Disk, first: Site, second: Site)
    requires RunApp(cfg, disk, first).end.Exited?
    requires TotalPages(second.count, cfg.perPage).Ok?
    ensures var r1 := RunApp(cfg, disk, first);
      var r2 := RunApp(cfg, r1.disk, second);
      && r2.enumerated == []
      && r2.attempted != []
      && r2.attempted[0] == r1.end.at
  {
    var r1 := RunApp(cfg, disk, first);
    FailureSavesSameIndex(cfg, disk, first);
    var urls := LoadBinary(r1.disk, ListingUrls).urls;
    assert ResumeFrom(r1.disk) == r1.end.at;
    var pages := TotalPages(second.count, cfg.perPage).value;
    var d0 := MakeDirs(r1.disk);
    assert d0 == r1.disk;
    assert ObtainUrls(d0, pages, second) == Ok(Listing(d0, urls, []));
    assert StartIndex(d0) == Ok(r1.end.at);
  }

  /**
   What the program's own writes keep true of a save directory: checkpoints
   hold the kinds it writes, and a saved index points into the saved list.
   */
  predicate Consistent(d: Disk)
  {
    && (Exists(d, ListingUrls) ==> LoadBinary(d, ListingUrls).UrlList?)
    && (Exists(d, UrlIndex) ==>
          && LoadBinary(d, UrlIndex).Index?
          && Exists(d, ListingUrls)
          && LoadBinary(d, UrlIndex).i < |LoadBinary(d, ListingUrls).urls|)
  }

  /** Obtaining the list keeps a consistent directory consistent. */
  lemma ObtainKeepsConsistent(d: Disk, pages: int, site: Site)
    requires d.Dir? && Consistent(d) && ObtainUrls(d, pages, site).Ok?
    ensures Consistent(ObtainUrls(d, pages, site).value.disk)
  {
  }

  /** The download loop keeps a consistent directory consistent. */
  lemma LoopKeepsConsistent(l: Listing, site: Site)
    requires l.disk.Dir? && Exists(l.disk, ListingUrls) && LoadBinary(l.disk, ListingUrls) == UrlList(l.urls)
    requires Consistent(l.disk)
    ensures Consistent(ResumeLoop(l, site).disk)
  {
    var r := ResumeLoop(l, site);
    if r.attempted != [] {
      assert r.attempted[|r.attempted| - 1] == ResumeFrom(l.disk) + |r.attempted| - 1;
    }
  }

  /** A run keeps a consistent save directory consistent. */
  lemma RunKeepsConsistent(cfg: Config, disk: Disk, site: Site)
    requires Consistent(disk)
    ensures Consistent(RunApp(cfg, disk, site).disk)
  {
    var d0 := MakeDirs(disk);
    ResumeFromMakeDirs(disk);
    match TotalPages(site.count, cfg.perPage)
    case Err(_) =>
    case Ok(pages) =>
      match ObtainUrls(d0, pages, site)
      case Err(_) =>
      case Ok(l) =>
        ObtainKeepsConsistent(d0, pages, site);
        LoopKeepsConsistent(l, site);
  }

  /**
   On a consistent save directory, a run that finishes over a non-empty
   list leaves the last index saved, and every listing from its start on
   succeeded.
   */
  lemma FinishedSavesLastIndex(cfg: Config, disk: Disk, site: Site)
    requires Consistent(disk)
    ensures var r := RunApp(cfg, disk, site);
      r.end.Finished? && Exists(r.disk, ListingUrls) && LoadBinary(r.disk, ListingUrls).UrlList? ==>
        var urls := LoadBinary(r.disk, ListingUrls).urls;
        && (|urls| > 0 ==> StoredIndexIs(r.disk, |urls| - 1))
        && forall j :: ResumeFrom(disk) <= j < |urls| ==> Succeeds(site, urls[j])
  {
    var d0 := MakeDirs(disk);
    ResumeFromMakeDirs(disk);
    match TotalPages(site.count, cfg.perPage)
    case Err(_) =>
    case Ok(pages) =>
      match ObtainUrls(d0, pages, site)
      case Err(_) =>
      case Ok(l) =>
        ObtainKeepsConsistent(d0, pages, site);
        assert ResumeFrom(l.disk) == ResumeFrom(d0);
        LoopFinishedSavesLast(l, site);
        var r := ResumeLoop(l, site);
        assert RunApp(cfg, disk, site) == r;
        assert LoadBinary(r.disk, ListingUrls) == UrlList(l.urls);
  }

  /** `FinishedSavesLastIndex` for the download loop over the list in hand. */
  lemma LoopFinishedSavesLast(l: Listing, site: Site)
    requires l.disk.Dir? && Exists(l.disk, ListingUrls) && LoadBinary(l.disk, ListingUrls) == UrlList(l.urls)
    requires Consistent(l.disk)
    ensures var r := ResumeLoop(l, site);
      r.end.Finished? ==>
        && (|l.urls| > 0 ==> StoredIndexIs(r.disk, |l.urls| - 1))
        && forall j :: ResumeFrom(l.disk) <= j < |l.urls| ==> Succeeds(site, l.urls[j])
  {
    var r := ResumeLoop(l, site);
    ResumeLoopEnds(l, site);
    if r.end.Finished? && |l.urls| > 0 {
      assert ResumeFrom(l.disk) < |l.urls|;
    }
  }

  /**
   Ten saved listings, the fifth (index 4) failing: the run stops there with
   4 saved, and the next run attempts index 4 again rather than 5.
   */
  lemma FailureAtIndexFour(cfg: Config, site: Site, later: Site, urls: seq<string>)
    requires |urls| == 10
    requires TotalPages(site.count, cfg.perPage).Ok? && TotalPages(later.count, cfg.perPage).Ok?
    requires forall j :: 0 <= j < 4 ==> Succeeds(site, urls[j])
    requires !Succeeds(site, urls[4])
    ensures var r := RunApp(cfg, Dir(map[ListingUrls := UrlList(urls)]), site);
      && r.end == Exited(4)
      && StoredIndexIs(r.disk, 4)
      && r.attempted == [0, 1, 2, 3, 4]
      && RunApp(cfg, r.disk, later).attempted[0] == 4
  {
    var disk := Dir(map[ListingUrls := UrlList(urls)]);
    var pages := TotalPages(site.count, cfg.perPage).value;
    var l := Listing(disk, urls, []);
    assert ObtainUrls(disk, pages, site) == Ok(l);
    assert ResumeFrom(disk) == 0;
    var r := ResumeLoop(l, site);
    ResumeLoopEnds(l, site);
    assert RunApp(cfg, disk, site) == r;
    var n := |r.attempted|;
    assert n >= 1;
    assert !r.end.Finished?;
    assert r.end.at == r.attempted[n - 1] == n - 1;
    assert n - 1 <= 4;
    assert r.attempted == [0, 1, 2, 3, 4];
    ResumeRetriesFailedListing(cfg, disk, site, later);
  }
}
