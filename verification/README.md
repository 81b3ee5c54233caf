# rv_scrape in Dafny

A model of the scraper in `app/main_app.py` and its checkpoint helpers in
`app/utils.py`. The scraper collects listing URLs from a paginated site,
downloads each listing's photos into a save directory and keeps checkpoints
so that an interrupted crawl can be resumed. The model keeps the decisions
and leaves the browser and the network out. Those decisions are:

- which `img` sources count as listing photos;
- what a downloaded file is called;
- how many result pages there are;
- when a result page's lazy loading has settled;
- how the `listing_urls` and `url_index` checkpoints and the `.save` marker
  are read and written;
- which branch `main` takes for the `-c` and `--restart` flags.

Modules, one file each:

| file | module | models |
|---|---|---|
| `results.dfy` | `Results` | `Option`, `Result`, and `Failure`: the exceptions that end a run |
| `text.dfy` | `Text` | `str.lower`, `str.endswith`, `str.find`, `str.rfind` and POSIX `os.path.splitext` |
| `utils.dfy` | `Utils` | the save directory as a map from file names to contents; `save_binary`, `load_binary`, `is_completed`, `complete_scrape` and `delete_saves` |
| `images.dfy` | `Images` | `download_images` and `download_image`: the source filter, the `rv_image<uuid><ext>` names, and the loop that stops at the first failed fetch |
| `listings.dfy` | `Listings` | `get_total_pages` (floor division with its error cases), the scroll-until-stable loop of `get_listing_urls`, and the enumeration of all result pages |
| `crawl.dfy` | `Crawl` | `run_app`: create the directory, count the pages, obtain the list (the checkpoint, or a fresh enumeration saved once), then download from the saved index on and save the index after every attempt |
| `main_app.dfy` | `MainApp` | `main`: its seven branches and the completion marker at its end, as written and corrected (see Findings) |

A run's outside world is given as data, not computed:

- `Crawl.Site` holds what the count element shows.
- It holds, for each result page, the element counts seen round after
  round (`Listings.Round`).
- It holds, for each listing URL, an `Images.ListingPage`: whether the page
  loads, the `src` of each image, the UUID drawn for each image, and whether
  each image fetch succeeds.

A run ends in one of three ways (`Crawl.End`):

- `Finished`;
- `Exited(i)`, the `sys.exit(0)` after listing `i` failed;
- `Crashed(why)`, an uncaught exception, or a result page that never settles (`Unsettled`). The program polls such a page forever; the model stops when the observed rounds run out.

`sys.exit` raises `SystemExit`, which `main` does not catch. So no marker is
written after `Exited` or `Crashed`.

Resumption re-attempts the saved index. `url_index` holds the last listing
attempted, and the loop is `range(index, …)`, so a crawl continued with `-c`
starts again at the listing that failed.

The docstring of `run_app` (app/main_app.py:137-139) presents `.save` as
the mark of a completed scrape. The code also writes it when `main` did not
run at all; the model follows the code, and Findings records the
discrepancy.

`get_total_pages` runs on every run, including a resumed run that never
uses its result, so its failures end resumed runs too.

## Model

| member | source | states |
|---|---|---|
| Text.FindFrom | app/main_app.py:44 | `find` gives -1 exactly when the substring occurs nowhere from the start position; otherwise it gives the least position where it occurs |
| Text.RFind | app/main_app.py:61 | `rfind` of a character gives a position holding that character with none after it, or -1 |
| Text.SplitExtSpec | app/main_app.py:61 | `splitext`: root followed by extension gives the path back; the extension is empty or a dot with no dot or `/` after it; it is non-empty exactly when the last segment has a non-dot before its final dot |
| Utils.MakeDirs | app/main_app.py:153 | `makedirs(exist_ok=True)` leaves an existing directory unchanged and creates an empty one otherwise |
| Utils.SaveBinary | app/utils.py:53-59 | saving creates the file, returns the object it saved, and creates or removes no other file |
| Utils.LoadBinary | app/utils.py:62-85 | loading returns the object stored in an existing file, and saving that object back leaves the directory exactly as it was |
| Utils.LoadAfterSave | app/utils.py:79-85 | loading a file right after saving into it returns the saved object |
| Utils.SaveLeavesOthers | app/utils.py:53-54 | a save leaves every other file's existence and content unchanged |
| Utils.SaveReplacesWhole | app/utils.py:53-54 | opening with `"wb"` replaces the file: saving twice equals saving the second object once |
| Utils.IsCompleted | app/utils.py:119-138 | completed means the `.save` marker exists; a missing save directory is never completed |
| Utils.CompleteScrape | app/utils.py:151-153 | after `complete_scrape`, `is_completed` holds and no other file appears or disappears |
| Utils.CompletedAfterMarker | app/utils.py:134-153 | `is_completed` holds after `complete_scrape`, and every other file keeps its content |
| Utils.DeleteSaves | app/utils.py:168-179 | `delete_saves` removes exactly `.save`, `url_index` and `listing_urls`, keeps every other file with its content, and leaves a missing directory missing |
| Utils.DeleteSavesClears | app/utils.py:168-179 | `delete_saves` is idempotent; afterwards the directory is not completed and has no index or list checkpoint; all other files survive unchanged |
| Images.Accepts | app/main_app.py:40-44 | an accepted `src` is present, at least four characters long and no shorter than `common`; a missing or empty `src` is never accepted |
| Images.AcceptsIff | app/main_app.py:41-44 | a source passes exactly when its last four characters lowercase to ".jpg" or ".png" and `common` occurs in it somewhere |
| Images.UpperCaseExtensionPasses | app/main_app.py:43 | ".JPG" passes: the extension test ignores case |
| Images.MarkerRequired | app/main_app.py:44 | a ".png" source without `unit_photo` is rejected |
| Images.MarkerIsCaseSensitive | app/main_app.py:44 | "UNIT_PHOTO" does not count as `unit_photo`: the substring test keeps case |
| Images.OtherExtensionsFail | app/main_app.py:41-43 | ".gif" is rejected, and so are a missing and an empty `src` |
| Images.MissingFirstChar | app/main_app.py:44 | a source lacking the first character of `common` is never accepted |
| Images.ImageUrlsMembers | app/main_app.py:39-45 | the URLs downloaded are exactly the present `src` values that pass the filter, and there are no more of them than images |
| Images.ImageUrlsSingle | app/main_app.py:41-45 | one `img` contributes its `src` iff that passes the filter, and nothing otherwise |
| Images.ImageUrlsAppend | app/main_app.py:40-45 | the loop keeps page order and repeats: the accepted sources of two runs of `img` elements are those of the first followed by those of the second |
| Images.RepeatedSourceFetchedTwice | app/main_app.py:40-45 | an accepted `src` that appears twice is downloaded twice |
| Images.FileNamesDistinct | app/main_app.py:62 | different UUIDs give different file names whatever the extensions, and every name starts with `rv_image` |
| Images.ImageNameIsNoCheckpoint | app/main_app.py:62 | no image file name is `.save`, `url_index` or `listing_urls` |
| Images.DownloadImage | app/main_app.py:48-66 | the k-th accepted image goes to an image file, never a checkpoint, whose name holds the k-th UUID right after `rv_image`; it records the URL and is complete iff the fetch succeeded |
| Images.AcceptedExtension | app/main_app.py:43-61 | for an accepted URL, `splitext` gives the URL's own last four characters, case kept, as extension exactly when the last path segment has a non-dot character before the final dot, and no extension otherwise |
| Images.AcceptedFileName | app/main_app.py:61-62 | the file written for an accepted URL is named `rv_image`, then the k-th UUID, then the URL's last four characters in their original case, or nothing after the UUID when the last path segment is only a dot and the extension |
| Images.AcceptedTail | app/main_app.py:42-43 | an accepted URL ends in a dot followed by three characters that are neither dots nor `/` |
| Images.FetchFrom | app/main_app.py:39-66 | the loop writes no more files than there are accepted URLs, and its k-th file is the one `download_image` makes of the k-th accepted URL as the k-th image |
| Images.FetchStops | app/main_app.py:64-66 | a failing `requests.get` ends the listing: it succeeds iff every fetch does, having then written one file per accepted URL; otherwise its last file is the one whose fetch failed |
| Images.FetchPassesEarlier | app/main_app.py:39-66 | every file before the last one comes from a fetch that succeeded |
| Images.DownloadImages | app/main_app.py:38-45 | a listing page that does not load fails with nothing written; every file written is an image file holding an accepted source |
| Images.DownloadedIff | app/main_app.py:40-45 | after a successful listing, a URL's bytes were written iff some `img` has it as `src` and it passes the filter |
| Images.DistinctImageNames | app/main_app.py:62 | when the UUIDs drawn for a listing's accepted images are pairwise different, the files of that listing all have different names |
| Images.OneFilePerAcceptedImage | app/main_app.py:40-66 | when the UUIDs drawn for a listing's accepted images are pairwise different, a successful listing writes as many distinct files as it has accepted `img` elements |
| Images.NamesCount | app/main_app.py:62-64 | files with pairwise different names make as many directory entries as there are files |
| Images.WriteFilesNames | app/main_app.py:64-66 | writing files adds exactly their names and leaves the files with other names unchanged |
| Images.WriteImagesKeepsCheckpoints | app/main_app.py:62-66 | writing a listing's images never creates, removes or changes a checkpoint file |
| Listings.FloorDiv | app/main_app.py:129 | `//` gives the floor of the quotient, for either sign of the divisor |
| Listings.TotalPages | app/main_app.py:127-130 | the page count exists iff the count element exists and is numeric and the page size is non-zero, and each of the three failures is reported as its own error; the result `r` for count `n` and page size `p` is `n // p + 1` with `//` rounding down: (r-1)·p ≤ n < r·p for positive `p`, so r ≥ 1 for a non-negative count, and (r-1)·p ≥ n > r·p for negative `p` |
| Listings.TotalPagesExample | app/main_app.py:129-130 | 57 or 50 listings at 25 per page give 3 pages, 0 listings give 1, a page size of 0 fails, and a page size of -25 gives -2 for 57 listings |
| Listings.FirstSettled | app/main_app.py:86-100 | the loop stops at the first round whose before and after counts agree; -1 means no observed round agrees |
| Listings.ListingUrlsOnPage | app/main_app.py:69-106 | there is no result exactly when no observed round settles; otherwise the result is the final query of some settled round |
| Listings.ListingUrlsOnPageSpec | app/main_app.py:86-106 | a page yields URLs iff some round settles, and then they are the final query of the first settled round |
| Listings.EmptyPageTakesOneRound | app/main_app.py:86-88 | the body runs at least once, because 0 and None differ; a page with no listings settles there with no URLs |
| Listings.LazyPageSettles | app/main_app.py:88-100 | a page that grows after a scroll is queried again and settles at the first round with unchanged counts |
| Listings.Interval | app/main_app.py:163 | `range(from, pages)`: its length and its elements in order |
| Listings.EnumerateFrom | app/main_app.py:161-165 | enumerating pages `from` … `pages`-1 can fail only as the page-not-settled error, naming a page in that range whose element count does not settle |
| Listings.EnumerateSpec | app/main_app.py:163-165 | enumerating succeeds iff every page settles; otherwise it fails on the first page that does not, and every earlier page settled |
| Listings.PageBlocks | app/main_app.py:163-165 | one block per page, each block that page's settled URLs |
| Listings.EnumerateConcatenates | app/main_app.py:161-165 | when every page settles, the list is the concatenation of the pages' URLs in page order |
| Crawl.OutcomesWriteImagesOnly | app/main_app.py:62 | every file any listing download writes is an image file |
| Crawl.AfterAttempt | app/main_app.py:177-185 | after one attempt, `url_index` holds that attempt's index and neither the list nor the marker has changed |
| Crawl.AttemptWritesOnlyRunFiles | app/main_app.py:177-185 | one attempt removes no file and changes no file other than image files and `url_index` |
| Crawl.CrawlFrom | app/main_app.py:175-185 | the loop attempts consecutive indices from its start; the saved index is the last one attempted; it exits on the first failed listing and otherwise runs to the end of the list; list and marker stay untouched |
| Crawl.CrawlPassesOnlySuccesses | app/main_app.py:175-183 | every listing attempted before the last one succeeded |
| Crawl.CrawlFinishesOnSuccesses | app/main_app.py:175-185 | a loop that runs to the end saw every listing from its start succeed |
| Crawl.CrawlWritesOnlyRunFiles | app/main_app.py:175-185 | the whole download loop removes no file and changes no file other than image files and `url_index` |
| Crawl.ObtainUrls | app/main_app.py:158-167 | an existing `listing_urls` is used as it is, with no page visited; otherwise the list is obtained iff enumeration succeeds, and it is then saved; the index and the marker are untouched |
| Crawl.StartIndex | app/main_app.py:169-173 | the loop starts at the saved index, or at 0 without one; on a consistent directory this never fails |
| Crawl.ResumeLoop | app/main_app.py:169-185 | the attempted indices run consecutively from the start index and stay within the list; the last one is saved; a loop that starts inside the list attempts something |
| Crawl.ResumeLoopEnds | app/main_app.py:175-185 | an exit happens on the last attempted listing, which failed; a finished loop saved the last index of the list; every listing passed succeeded |
| Crawl.RunApp | app/main_app.py:153-185 | the save directory exists afterwards; a run gets past `get_total_pages` unless it crashed there; `run_app` never touches `.save` |
| Crawl.RunWritesOnlyRunFiles | app/main_app.py:153-185 | `run_app` removes no file, and changes no file other than image files and the `listing_urls` and `url_index` checkpoints |
| Crawl.ResumeFromMakeDirs | app/main_app.py:153 | creating the directory changes neither the start index nor consistency |
| Crawl.FreshRunEnumerates | app/main_app.py:158-167 | without a list checkpoint, either every page settles and the concatenation of all pages' URLs is saved, or the run crashes on an unsettled page, saving no list and attempting nothing |
| Crawl.ListCheckpointSkipsEnumeration | app/main_app.py:158-165 | whatever the `listing_urls` checkpoint holds, a run over it visits no result page |
| Crawl.CheckpointedListReused | app/main_app.py:158-159 | with a list checkpoint, no result page is visited, the list is unchanged, and only indices of that list are attempted |
| Crawl.StartsAtSavedIndex | app/main_app.py:169-175 | a run attempts consecutive indices starting exactly at the saved index (0 without one), never below it |
| Crawl.FailureSavesSameIndex | app/main_app.py:176-183 | a run that exits on listing j saved j, attempted start … j in order, and listing j of the saved list failed |
| Crawl.ResumeRetriesFailedListing | app/main_app.py:169-183 | the run after a failed one reuses the saved list and attempts the failed listing first |
| Crawl.ObtainKeepsConsistent | app/main_app.py:158-167 | obtaining the list keeps the checkpoints consistent (right kinds, and the index inside the list) |
| Crawl.LoopKeepsConsistent | app/main_app.py:175-185 | the download loop keeps the checkpoints consistent |
| Crawl.RunKeepsConsistent | app/main_app.py:153-185 | a whole run keeps the checkpoints consistent |
| Crawl.LoopFinishedSavesLast | app/main_app.py:169-185 | a finished download loop over a non-empty list on a consistent directory leaves the list's last index saved, and every listing from its start succeeded |
| Crawl.FinishedSavesLastIndex | app/main_app.py:175-185 | on a consistent directory, a finished run over a non-empty list leaves the last index saved, and every listing from the start succeeded |
| Crawl.FailureAtIndexFour | app/main_app.py:175-183 | with ten listings and the fifth failing, the run exits at 4, saves 4 and attempts 0 … 4; the next run starts at 4 again |
| MainApp.RunThenMark | app/main_app.py:224-238 | the marker is written after `run_app` iff the run finished; afterwards the directory is completed iff it was before or the marker was written; the marker is the only change after the run; no file is removed and only image files and checkpoints change; the run resumes from the directory's saved index and enumerates nothing when a list checkpoint exists |
| MainApp.MainAsWritten | app/main_app.py:217-238 | `run_app` is called exactly in the branches the flags and the directory's state select; `-c` on a completed directory exits untouched; `--restart` without `-c` runs from listing 0, keeps every non-checkpoint file, and ends up completed iff that run finished; every other run (`-c`, or a first run) resumes from the saved index, reuses an existing list and removes no file; a run changes only image files and checkpoints; without a run only `.save` can change, and the marker is written unless `-c` refused |
| MainApp.MarkerWithoutRun | app/main_app.py:231-238 | an interrupted directory and no flags: no run, yet the directory is marked completed, and `-c` then refuses to continue |
| MainApp.MainFixed | app/main_app.py:231-238 | as `main` for each flag branch (runs from 0 after `--restart`, resumes otherwise, with the same limits on which files change), except that an unfinished directory given no flags is left alone and unmarked |
| MainApp.FixChangesOneBranch | app/main_app.py:231-238 | the corrected `main` agrees with `main` everywhere except on an existing unfinished directory given no flags, which it leaves as it was where `main` marks it completed |
| MainApp.MarkerOnlyAfterFinishedRun | app/main_app.py:217-238 | with the fix, the directory ends up completed only if a run finished, or if it was already completed and no run started |
| MainApp.RestartRunsFromScratch | app/main_app.py:222-230 | `--restart` deletes the checkpoints, enumerates every result page afresh and attempts listings from 0 |
| MainApp.MarkKeepsConsistent | app/utils.py:151-153 | writing the marker keeps the checkpoints consistent |
| MainApp.RunThenMarkKeepsConsistent | app/main_app.py:224-238 | a run followed by the marker keeps the checkpoints consistent |
| MainApp.MainKeepsConsistent | app/main_app.py:217-238 | `main` keeps the checkpoints consistent for every combination of flags |

## Left out

- The browser (Selenium, `initialize_driver`, `driver.get`, scrolling and `time.sleep`): replaced by what each page would show.
- HTTP: `requests.get` is an oracle that succeeds or fails per image. The bytes are not modelled, only whether the file is complete.
- `uuid.uuid4` is an oracle: `ListingPage.id` gives the UUID drawn for each accepted image. That the draws for one listing's accepted images are pairwise different is a precondition of `Images.DistinctImageNames` and `Images.OneFilePerAcceptedImage`, not a fact about the model.
- Pickling and unpickling: files hold typed values. A checkpoint holding the wrong kind of object becomes a crash (`CheckpointKind`). Corrupt pickles are not modelled.
- The timestamp text of `.save` and all printed messages are not modelled.
- `load_yaml` and the configuration file are not modelled. The only configuration value decisions depend on is `listings_per_page`. Selectors and paths are fixed by the model's file names.
- `argparse`'s `--config` is not modelled, and neither is `get_args`.
- `app/manage.py` is not part of this model.
- Listings.Round: the listing attribute of every element is a string. An element without the attribute gives `None` in the source, which is saved in `listing_urls` and makes that listing fail later when `driver.get(None)` raises. The model cannot represent such an element, and `Utils.UrlList` holds only strings.
- Listings.ListingUrlsOnPage: the source polls until the element count settles, possibly forever. The model sees a finite list of rounds and reports `None` (`Unsettled`) when none of them settles.
- Text.LowerChar: lowercases ASCII letters only, not the rest of Unicode. The ".jpg"/".png" test depends only on ASCII characters.
- Text.SplitExt: models the POSIX flavour only, with `/` as the separator. The Windows flavour is not modelled.
- Listings.TotalPages: `int()` of the element's text is abstracted into `CountReading`. Whitespace and sign handling are inside that abstraction.
- Crawl.Site: one `ListingPage` per URL per run. The same URL at two indices shows the same page within a run, and also draws the same UUIDs. `uuid.uuid4` draws new ones on every call, so where the program writes a second set of files for a repeated listing URL, the model rewrites the first set.

## Findings

| source | as written | input that shows it | evidently intended | confidence | as-written member | corrected member |
|---|---|---|---|---|---|---|
| app/main_app.py:231-238 | When the save directory exists but is not completed and neither `-c` nor `--restart` is given, `main` prints "Specify the continue flag with -c to continue." and falls through to `complete_scrape`. That writes `.save` although nothing ran. | An interrupted directory holding `listing_urls` and `url_index`, started with no flags. Afterwards `is_completed` holds, and `-c` exits with "Scrape already completed". | Leave the directory alone and unmarked, so that `-c` can continue the crawl. | not executed | MainApp.MarkerWithoutRun | MainApp.MarkerOnlyAfterFinishedRun |
