/**
 `main` of `app/main_app.py`: the choice between refusing, restarting,
 continuing, running for the first time and doing nothing, followed by the
 completion marker write at the end of `main`.
 */
module MainApp {
  import opened Results
  import opened Utils
  import opened Images
  import opened Listings
  import opened Crawl

  /** The command-line flags: `-c` and `--restart`. */
  datatype Flags = Flags(cont: bool, restart: bool)

  /**
   What `main` leaves behind: the save directory, the run it started if
   any, and whether it reached `complete_scrape` (an exception or
   `sys.exit` inside `run_app` ends the process before that).
   */
  datatype Outcome = Outcome(disk: Disk, run: Option<Run>, marked: bool)

  /** `run_app` followed by `complete_scrape`, which is reached only when the run ends normally. */
  function RunThenMark(cfg: Config, disk: Disk, site: Site): (o: Outcome)
    ensures o.run.Some?
    ensures o.marked <==> o.run.value.end.Finished?
    ensures IsCompleted(o.disk) <==> o.marked || IsCompleted(disk)
    ensures Consecutive(o.run.value.attempted, ResumeFrom(disk))
    ensures Exists(disk, ListingUrls) ==> o.run.value.enumerated == []
    ensures forall n :: n != SaveMarker ==> SameFile(o.disk, o.run.value.disk, n)
    ensures OnlyRunFilesChange(disk, o.disk)
  {
    StartsAtSavedIndex(cfg, disk, site);
    ListCheckpointSkipsEnumeration(cfg, disk, site);
    RunWritesOnlyRunFiles(cfg, disk, site);
    var r := RunApp(cfg, disk, site);
    if r.end.Finished? then Outcome(CompleteScrape(r.disk), Some(r), true)
    else Outcome(r.disk, Some(r), false)
  }

  /** Whether `main` calls `run_app`, by flags and state: the seven branches of lines 217-236. */
  predicate Runs(flags: Flags, disk: Disk)
  {
    if IsCompleted(disk) then !flags.cont && flags.restart
    else flags.cont || flags.restart || disk.Absent?
  }

  /** `main`, exactly as written: the marker is written whenever no exit or exception intervenes. */
  function MainAsWritten(flags: Flags, cfg: Config, disk: Disk, site: Site): (o: Outcome)
    ensures o.run.Some? <==> Runs(flags, disk)
    ensures IsCompleted(disk) && flags.cont ==> o == Outcome(disk, None, false)
    ensures flags.restart && !flags.cont ==>
      && o.run.Some?
      && Consecutive(o.run.value.attempted, 0)
      && (IsCompleted(o.disk) <==> o.run.value.end.Finished?)
    ensures o.run.Some? && !(flags.restart && !flags.cont) ==>
      && Consecutive(o.run.value.attempted, ResumeFrom(disk))
      && (Exists(disk, ListingUrls) ==> o.run.value.enumerated == [])
      && OnlyRunFilesChange(disk, o.disk)
    ensures flags.restart && !flags.cont ==> forall n :: n !in Checkpoints && Exists(disk, n) ==> Exists(o.disk, n)
    ensures o.run.Some? ==> forall n :: n !in Checkpoints && !IsImageName(n) ==> SameFile(o.disk, disk, n)
    ensures o.run.None? ==> forall n :: n != SaveMarker ==> SameFile(o.disk, disk, n)
    ensures o.run.None? ==> (o.marked <==> !(IsCompleted(disk) && flags.cont))
    ensures o.run.Some? ==> (o.marked <==> o.run.value.end.Finished?)
    ensures o.marked ==> IsCompleted(o.disk)
  {
    DeleteSavesClears(disk);
    if IsCompleted(disk) then
      if flags.cont then Outcome(disk, None, false)
      else if flags.restart then RunThenMark(cfg, DeleteSaves(disk), site)
      else Outcome(CompleteScrape(disk), None, true)
    else if flags.cont then RunThenMark(cfg, disk, site)
    else if flags.restart then RunThenMark(cfg, DeleteSaves(disk), site)
    else if disk.Dir? then Outcome(CompleteScrape(disk), None, true)
    else RunThenMark(cfg, disk, site)
  }

  /**
   An interrupted crawl started again without flags is marked completed
   although nothing ran, and from then on `-c` refuses to continue it.
   */
  lemma MarkerWithoutRun(cfg: Config, site: Site, later: Site)
    ensures var interrupted := Dir(map[ListingUrls := UrlList(["a", "b"]), UrlIndex := Index(0)]);
      var o := MainAsWritten(Flags(false, false), cfg, interrupted, site);
      && o.run.None?
      && IsCompleted(o.disk)
      && MainAsWritten(Flags(true, false), cfg, o.disk, later).run.None?
  {
    var interrupted := Dir(map[ListingUrls := UrlList(["a", "b"]), UrlIndex := Index(0)]);
    assert !IsCompleted(interrupted);
  }

  /**
   `main` with the evident intent of its message "Specify the continue flag
   with -c to continue": a save directory that exists but is not completed
   is left alone, without the marker.
   */
  function MainFixed(flags: Flags, cfg: Config, disk: Disk, site: Site): (o: Outcome)
    ensures o.run.Some? <==> Runs(flags, disk)
    ensures IsCompleted(disk) && flags.cont ==> o == Outcome(disk, None, false)
    ensures flags.restart && !flags.cont ==>
      && o.run.Some?
      && Consecutive(o.run.value.attempted, 0)
      && (IsCompleted(o.disk) <==> o.run.value.end.Finished?)
    ensures o.run.Some? && !(flags.restart && !flags.cont) ==>
      && Consecutive(o.run.value.attempted, ResumeFrom(disk))
      && (Exists(disk, ListingUrls) ==> o.run.value.enumerated == [])
      && OnlyRunFilesChange(disk, o.disk)
    ensures flags.restart && !flags.cont ==> forall n :: n !in Checkpoints && Exists(disk, n) ==> Exists(o.disk, n)
    ensures o.run.Some? ==> forall n :: n !in Checkpoints && !IsImageName(n) ==> SameFile(o.disk, disk, n)
    ensures o.run.None? ==> forall n :: n != SaveMarker ==> SameFile(o.disk, disk, n)
    ensures o.run.None? && !IsCompleted(disk) ==> o == Outcome(disk, None, false)
    ensures o.run.Some? ==> (o.marked <==> o.run.value.end.Finished?)
  {
    DeleteSavesClears(disk);
    if IsCompleted(disk) then
      if flags.cont then Outcome(disk, None, false)
      else if flags.restart then RunThenMark(cfg, DeleteSaves(disk), site)
      else Outcome(CompleteScrape(disk), None, true)
    else if flags.cont then RunThenMark(cfg, disk, site)
    else if flags.restart then RunThenMark(cfg, DeleteSaves(disk), site)
    else if disk.Dir? then Outcome(disk, None, false)
    else RunThenMark(cfg, disk, site)
  }

  /** The fix changes only the branch of an unfinished directory given no flags. */
  lemma FixChangesOneBranch(flags: Flags, cfg: Config, disk: Disk, site: Site)
    ensures MainFixed(flags, cfg, disk, site) != MainAsWritten(flags, cfg, disk, site) ==>
      !IsCompleted(disk) && !flags.cont && !flags.restart && disk.Dir?
    ensures !IsCompleted(disk) && !flags.cont && !flags.restart && disk.Dir? ==>
      && MainFixed(flags, cfg, disk, site).disk == disk
      && IsCompleted(MainAsWritten(flags, cfg, disk, site).disk)
  {
  }

  /**
   With the fix, the save directory counts as completed afterwards only if
   a run finished, or if it already was completed and no run was started.
   */
  lemma MarkerOnlyAfterFinishedRun(flags: Flags, cfg: Config, disk: Disk, site: Site)
    ensures var o := MainFixed(flags, cfg, disk, site);
      IsCompleted(o.disk) ==> (o.run.Some? && o.run.value.end.Finished?) || (o.run.None? && IsCompleted(disk))
  {
    if !IsCompleted(disk) || flags.restart {
      DeleteSavesClears(disk);
    }
  }

  /**
   `--restart` in either state deletes the checkpoints before running: the
   run starts at listing 0, and enumerates the result pages afresh.
   */
  lemma RestartRunsFromScratch(flags: Flags, cfg: Config, disk: Disk, site: Site, pages: int)
    requires flags.restart && !flags.cont
    requires TotalPages(site.count, cfg.perPage) == Ok(pages)
    requires forall p :: 0 <= p < pages ==> ListingUrlsOnPage(site.page(p)).Some?
    ensures var o := MainAsWritten(flags, cfg, disk, site);
      && o.run.Some?
      && o.run.value.enumerated == Interval(0, pages)
      && Consecutive(o.run.value.attempted, 0)
  {
    DeleteSavesClears(disk);
    FreshRunEnumerates(cfg, DeleteSaves(disk), site, pages);
    StartsAtSavedIndex(cfg, DeleteSaves(disk), site);
  }

  /** Writing the marker touches no checkpoint the consistency rule looks at. */
  lemma MarkKeepsConsistent(d: Disk)
    requires d.Dir? && Consistent(d)
    ensures Consistent(CompleteScrape(d))
  {
  }

  lemma RunThenMarkKeepsConsistent(cfg: Config, disk: Disk, site: Site)
    requires Consistent(disk)
    ensures Consistent(RunThenMark(cfg, disk, site).disk)
  {
    RunKeepsConsistent(cfg, disk, site);
    MarkKeepsConsistent(RunApp(cfg, disk, site).disk);
  }

  /** `main` keeps a consistent save directory consistent, whatever the flags. */
  lemma MainKeepsConsistent(flags: Flags, cfg: Config, disk: Disk, site: Site)
    requires Consistent(disk)
    ensures Consistent(MainAsWritten(flags, cfg, disk, site).disk)
  {
    DeleteSavesClears(disk);
    assert Consistent(DeleteSaves(disk));
    if IsCompleted(disk) {
      if flags.cont {
      } else if flags.restart {
        RunThenMarkKeepsConsistent(cfg, DeleteSaves(disk), site);
      } else {
        MarkKeepsConsistent(disk);
      }
    } else if flags.cont {
      RunThenMarkKeepsConsistent(cfg, disk, site);
    } else if flags.restart {
      RunThenMarkKeepsConsistent(cfg, DeleteSaves(disk), site);
    } else if disk.Dir? {
      MarkKeepsConsistent(disk);
    } else {
      RunThenMarkKeepsConsistent(cfg, disk, site);
    }
  }
}
