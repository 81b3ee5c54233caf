/**
 `download_images` and `download_image` of `app/main_app.py`: which image
 URLs of a listing page are fetched, under which file names, and what is
 left in the save directory when a fetch fails.
 */
module Images {
  import opened Results
  import opened Text
  import opened Utils

  /** The default `common_string` every listing is downloaded with. */
  const CommonString := "unit_photo"
  /** Every image file name starts with this. */
  const ImagePrefix := "rv_image"

  /** The text of a `uuid.uuid4()`: always 36 characters. */
  type UuidText = s: string | |s| == 36 witness "00000000-0000-0000-0000-000000000000"

  /**
   The filter of `download_images`: the `src` attribute is present and
   non-empty, ends in ".jpg" or ".png" ignoring case, and contains `common`
   exactly as written.
   */
  predicate Accepts(src: Option<string>, common: string)
    ensures Accepts(src, common) ==> src.Some? && |src.value| >= 4 && |src.value| >= |common|
    ensures src.None? || src == Some([]) ==> !Accepts(src, common)
  {
    && src.Some?
    && |src.value| > 0
    && (EndsWith(Lower(src.value), ".jpg") || EndsWith(Lower(src.value), ".png"))
    && Find(src.value, common) != -1
  }

  /** The filter restated on the URL itself: its last four characters and an occurrence of `common`. */
  lemma AcceptsIff(u: string, common: string)
    ensures Accepts(Some(u), common) <==>
      && |u| >= 4
      && (Lower(u[|u| - 4..]) == ".jpg" || Lower(u[|u| - 4..]) == ".png")
      && exists k :: OccursAt(u, common, k)
  {
    if |u| >= 4 {
      assert Lower(u)[|u| - 4..] == Lower(u[|u| - 4..]);
    }
    if exists k :: OccursAt(u, common, k) {
      var k :| OccursAt(u, common, k);
      assert Find(u, common) != -1;
    }
  }

  /** A URL ending in ".JPG" that contains the marker passes: the extension test ignores case. */
  lemma UpperCaseExtensionPasses()
    ensures Accepts(Some("https://x/unit_photo_1.JPG"), CommonString)
  {
    var u := "https://x/unit_photo_1.JPG";
    assert u[|u| - 4..] == ".JPG";
    assert Lower(".JPG") == ".jpg";
    assert OccursAt(u, CommonString, 10);
    AcceptsIff(u, CommonString);
  }

  /** A text lacking the first character of `common` cannot contain `common`. */
  lemma MissingFirstChar(u: string, common: string)
    requires |common| > 0
    requires forall k :: 0 <= k < |u| ==> u[k] != common[0]
    ensures !Accepts(Some(u), common)
  {
    forall k | OccursAt(u, common, k)
      ensures u[k] == common[0]
    {
      assert u[k..k + |common|][0] == u[k];
    }
    AcceptsIff(u, common);
  }

  /** A ".png" URL without the marker fails. */
  lemma MarkerRequired()
    ensures !Accepts(Some("https://x/logo.png"), CommonString)
  {
    var logo := "https://x/logo.png";
    assert forall k :: 0 <= k < |logo| ==> logo[k] != 'u';
    MissingFirstChar(logo, CommonString);
  }

  /** The marker written in capitals does not count: the substring test keeps case. */
  lemma MarkerIsCaseSensitive()
    ensures !Accepts(Some("x/UNIT_PHOTO.jpg"), CommonString)
  {
    var upper := "x/UNIT_PHOTO.jpg";
    assert forall k :: 0 <= k < |upper| ==> upper[k] != 'u';
    MissingFirstChar(upper, CommonString);
  }

  /** A URL with the marker but another extension fails, and so do a missing or empty `src`. */
  lemma OtherExtensionsFail()
    ensures !Accepts(Some("https://x/unit_photo.gif"), CommonString)
    ensures !Accepts(Some(""), CommonString)
    ensures !Accepts(None, CommonString)
  {
    var gif := "https://x/unit_photo.gif";
    assert gif[|gif| - 4..] == ".gif";
    assert Lower(".gif")[1] == 'g';
    AcceptsIff(gif, CommonString);
  }

  /** The present `src` values that pass `keep`, in page order. */
  function Present(srcs: seq<Option<string>>, keep: string -> bool): seq<string>
  {
    if srcs == [] then []
    else
      var rest := Present(srcs[1..], keep);
      if srcs[0].Some? && keep(srcs[0].value) then [srcs[0].value] + rest else rest
  }

  lemma {:induction false} PresentMembers(srcs: seq<Option<string>>, keep: string -> bool)
    ensures |Present(srcs, keep)| <= |srcs|
    ensures forall u :: u in Present(srcs, keep) <==> Some(u) in srcs && keep(u)
  {
    if srcs != [] {
      PresentMembers(srcs[1..], keep);
      assert forall u :: Some(u) in srcs <==> Some(u) == srcs[0] || Some(u) in srcs[1..];
    }
  }

  /** One `img` in front: its `src` comes first when it is kept. */
  lemma PresentCons(x: Option<string>, rest: seq<Option<string>>, keep: string -> bool)
    ensures Present([x] + rest, keep) == (if x.Some? && keep(x.value) then [x.value] else []) + Present(rest, keep)
  {
    assert ([x] + rest)[1..] == rest;
  }

  lemma {:induction false} PresentAppend(a: seq<Option<string>>, b: seq<Option<string>>, keep: string -> bool)
    ensures Present(a + b, keep) == Present(a, keep) + Present(b, keep)
  {
    if a == [] {
      assert a + b == b;
    } else {
      var x, t := a[0], a[1..];
      assert a == [x] + t;
      assert a + b == [x] + (t + b);
      PresentAppend(t, b, keep);
      PresentCons(x, t, keep);
      PresentCons(x, t + b, keep);
    }
  }

  /** The accepted URLs of a page, in page order. */
  function ImageUrls(srcs: seq<Option<string>>, common: string): seq<string>
  {
    Present(srcs, u => Accepts(Some(u), common))
  }

  /**
   The URLs downloaded are exactly the present `src` values that pass the
   filter, and there are no more of them than `img` elements.
   */
  lemma ImageUrlsMembers(srcs: seq<Option<string>>, common: string)
    ensures |ImageUrls(srcs, common)| <= |srcs|
    ensures forall u :: u in ImageUrls(srcs, common) <==> Some(u) in srcs && Accepts(Some(u), common)
  {
    PresentMembers(srcs, u => Accepts(Some(u), common));
  }

  /** One `img`: its `src` is kept iff it passes the filter. */
  lemma ImageUrlsSingle(src: Option<string>, common: string)
    ensures ImageUrls([src], common) == if Accepts(src, common) then [src.value] else []
  {
    var keep := u => Accepts(Some(u), common);
    assert [src][1..] == [];
    assert Present([src][1..], keep) == [];
    assert src.Some? ==> keep(src.value) == Accepts(src, common);
  }

  /**
   The filter keeps page order and repeats: the accepted sources of two
   runs of `img` elements are those of the first followed by those of the
   second.
   */
  lemma ImageUrlsAppend(a: seq<Option<string>>, b: seq<Option<string>>, common: string)
    ensures ImageUrls(a + b, common) == ImageUrls(a, common) + ImageUrls(b, common)
  {
    PresentAppend(a, b, u => Accepts(Some(u), common));
  }

  /** The same accepted `src` twice is downloaded twice. */
  lemma RepeatedSourceFetchedTwice()
    ensures ImageUrls([Some("https://x/unit_photo_1.JPG"), Some("https://x/unit_photo_1.JPG")], CommonString)
         == ["https://x/unit_photo_1.JPG", "https://x/unit_photo_1.JPG"]
  {
    var src := Some("https://x/unit_photo_1.JPG");
    UpperCaseExtensionPasses();
    ImageUrlsSingle(src, CommonString);
    ImageUrlsAppend([src], [src], CommonString);
    assert [src] + [src] == [src, src];
  }

  /** `"rv_image{}{}".format(uuid, ext)`. */
  function FileName(id: UuidText, ext: string): string
  {
    ImagePrefix + id + ext
  }

  predicate IsImageName(name: string)
  {
    |name| >= |ImagePrefix| && name[..|ImagePrefix|] == ImagePrefix
  }

  /** Two different UUIDs never give the same file name, whatever the extensions. */
  lemma FileNamesDistinct(id1: UuidText, id2: UuidText, ext1: string, ext2: string)
    requires id1 != id2
    ensures FileName(id1, ext1) != FileName(id2, ext2)
    ensures IsImageName(FileName(id1, ext1))
  {
    var n1, n2 := FileName(id1, ext1), FileName(id2, ext2);
    assert n1[|ImagePrefix|..|ImagePrefix| + 36] == id1;
    assert n2[|ImagePrefix|..|ImagePrefix| + 36] == id2;
    assert n1[..|ImagePrefix|] == ImagePrefix;
  }

  /** An image file can never overwrite or be removed as a checkpoint. */
  lemma ImageNameIsNoCheckpoint(name: string)
    requires IsImageName(name)
    ensures name !in Checkpoints
  {
    assert name[0] == 'r';
  }

  /** A four-character text that lowercases to ".jpg" or ".png" is a dot and three non-separators. */
  lemma ExtensionShape(x: string)
    requires |x| == 4 && (Lower(x) == ".jpg" || Lower(x) == ".png")
    ensures x[0] == '.'
    ensures forall i :: 1 <= i < 4 ==> x[i] != '.' && x[i] != '/'
  {
    var l := Lower(x);
    assert l[0] == LowerChar(x[0]) && l[1] == LowerChar(x[1]);
    assert l[2] == LowerChar(x[2]) && l[3] == LowerChar(x[3]);
    if l == ".jpg" {
      assert l[0] == '.' && l[1] == 'j' && l[2] == 'p' && l[3] == 'g';
    } else {
      assert l[0] == '.' && l[1] == 'p' && l[2] == 'n' && l[3] == 'g';
    }
  }

  /**
   For an accepted URL `os.path.splitext` gives the URL's own last four
   characters as extension (".JPG" stays ".JPG") exactly when its last path
   segment has a non-dot character before the final dot; otherwise it finds
   no extension at all.
   */
  lemma AcceptedExtension(u: string, common: string)
    requires Accepts(Some(u), common)
    ensures Lower(u[|u| - 4..]) == ".jpg" || Lower(u[|u| - 4..]) == ".png"
    ensures SplitExt(u).1 == u[|u| - 4..] <==> NonDotBetween(u, RFind(u, '/'), |u| - 4)
    ensures SplitExt(u).1 == u[|u| - 4..] || SplitExt(u).1 == []
  {
    AcceptedTail(u, common);
    FinalExtension(u, |u| - 4);
  }

  /** An accepted URL ends in a dot followed by three characters that are neither dots nor separators. */
  lemma AcceptedTail(u: string, common: string)
    requires Accepts(Some(u), common)
    ensures |u| >= 4 && (Lower(u[|u| - 4..]) == ".jpg" || Lower(u[|u| - 4..]) == ".png")
    ensures u[|u| - 4] == '.'
    ensures forall k :: |u| - 4 < k < |u| ==> u[k] != '.' && u[k] != '/'
  {
    AcceptsIff(u, common);
    var n := |u| - 4;
    var x := u[n..];
    ExtensionShape(x);
    assert forall k :: n <= k < |u| ==> u[k] == x[k - n];
  }

  /** A path whose last dot is at `n` with no separator after it: `splitext` cuts there or nowhere. */
  lemma FinalExtension(u: string, n: nat)
    requires n < |u| && u[n] == '.'
    requires forall k :: n < k < |u| ==> u[k] != '.' && u[k] != '/'
    ensures SplitExt(u).1 == u[n..] <==> NonDotBetween(u, RFind(u, '/'), n)
    ensures SplitExt(u).1 == u[n..] || SplitExt(u).1 == []
  {
    LastCharAt(u, '.', n);
    NoCharFrom(u, '/', n);
  }

  /** `c` occurs at `n` and nowhere after: `rfind` finds `n`. */
  lemma LastCharAt(u: string, c: char, n: nat)
    requires n < |u| && u[n] == c
    requires forall k :: n < k < |u| ==> u[k] != c
    ensures RFind(u, c) == n
  {
  }

  /** `c` does not occur from `n` on: `rfind` finds it before `n`, if at all. */
  lemma NoCharFrom(u: string, c: char, n: nat)
    requires n <= |u|
    requires forall k :: n <= k < |u| ==> u[k] != c
    ensures RFind(u, c) < n
  {
  }

  /** What the browser and the network give while one listing is processed. */
  datatype ListingPage = ListingPage(
    loads: bool,                  // `driver.get(url)` succeeds
    srcs: seq<Option<string>>,    // `src` of every `img` element, in page order
    id: nat -> UuidText,          // the UUID drawn for the k-th accepted image
    fetchOk: nat -> bool)         // `requests.get` of the k-th accepted image succeeds

  /** A file written into the save directory. */
  datatype Saved = Saved(name: string, entry: Entry)

  /** The files a listing left behind, in order, and whether no exception escaped. */
  datatype Download = Download(saved: seq<Saved>, ok: bool)

  /**
   `download_image` of the k-th accepted URL: the file is opened (and so
   created) before the fetch, so a failed fetch leaves it empty.
   */
  function DownloadImage(url: string, k: nat, page: ListingPage): (s: Saved)
    ensures IsImageName(s.name) && s.name !in Checkpoints
    ensures |s.name| >= |ImagePrefix| + 36 && s.name[|ImagePrefix|..|ImagePrefix| + 36] == page.id(k)
    ensures s.entry.Image? && s.entry.source == url
    ensures s.entry.complete <==> page.fetchOk(k)
  {
    FileNameIsImageName(page.id(k), SplitExt(url).1);
    ImageNameIsNoCheckpoint(FileName(page.id(k), SplitExt(url).1));
    assert FileName(page.id(k), SplitExt(url).1)[|ImagePrefix|..|ImagePrefix| + 36] == page.id(k);
    Saved(FileName(page.id(k), SplitExt(url).1), Image(url, page.fetchOk(k)))
  }

  /**
   The file `download_image` writes for an accepted URL is named `rv_image`,
   the k-th UUID and the URL's last four characters in their original case,
   or the same without an extension when the last path segment is only a
   dot and the extension.
   */
  lemma AcceptedFileName(url: string, k: nat, page: ListingPage, common: string)
    requires Accepts(Some(url), common)
    ensures DownloadImage(url, k, page).name ==
      ImagePrefix + page.id(k) + (if NonDotBetween(url, RFind(url, '/'), |url| - 4) then url[|url| - 4..] else "")
  {
    AcceptedExtension(url, common);
  }

  /** `download_image` of a listing page, as a function of the URL and its position. */
  function ImageFile(page: ListingPage): (string, nat) -> Saved
  {
    (url: string, k: nat) => DownloadImage(url, k, page)
  }

  /**
   The download loop over the accepted URLs from the k-th on, `file` writing
   one image (`ImageFile(page)`); the first failed fetch ends it.
   */
  function FetchFrom(urls: seq<string>, k: nat, page: ListingPage, file: (string, nat) -> Saved): (r: Download)
    requires k <= |urls|
    ensures k + |r.saved| <= |urls|
    ensures forall j :: 0 <= j < |r.saved| ==> r.saved[j] == file(urls[k + j], k + j)
    decreases |urls| - k
  {
    if k == |urls| then Download([], true)
    else
      var first := file(urls[k], k);
      if !page.fetchOk(k) then Download([first], false)
      else
        var rest := FetchFrom(urls, k + 1, page, file);
        var saved := [first] + rest.saved;
        assert forall j :: 1 <= j < |saved| ==> saved[j] == rest.saved[j - 1];
        Download(saved, rest.ok)
  }

  /**
   The loop stops at the first failed fetch: it succeeds iff every fetch
   does, then having written every file; otherwise its last file is the one
   whose fetch failed.
   */
  lemma {:induction false} FetchStops(urls: seq<string>, k: nat, page: ListingPage, file: (string, nat) -> Saved)
    requires k <= |urls|
    ensures var r := FetchFrom(urls, k, page, file);
      && (r.ok <==> forall j :: k <= j < |urls| ==> page.fetchOk(j))
      && (r.ok ==> k + |r.saved| == |urls|)
      && (!r.ok ==> 1 <= |r.saved| && !page.fetchOk(k + |r.saved| - 1))
    decreases |urls| - k
  {
    if k < |urls| {
      FetchStep(urls, k, page, file);
      if page.fetchOk(k) {
        FetchStops(urls, k + 1, page, file);
        var r, rest := FetchFrom(urls, k, page, file), FetchFrom(urls, k + 1, page, file);
        if r.ok {
          assert forall j :: k < j < |urls| ==> page.fetchOk(j);
        } else {
          var last := k + |r.saved| - 1;
          assert last == (k + 1) + |rest.saved| - 1;
          assert !page.fetchOk(last);
        }
      }
    }
  }

  /** One step of the loop: a failed fetch ends it with one file, a good one adds a file in front of the rest. */
  lemma FetchStep(urls: seq<string>, k: nat, page: ListingPage, file: (string, nat) -> Saved)
    requires k < |urls|
    ensures !page.fetchOk(k) ==> !FetchFrom(urls, k, page, file).ok && |FetchFrom(urls, k, page, file).saved| == 1
    ensures page.fetchOk(k) ==>
      && FetchFrom(urls, k, page, file).ok == FetchFrom(urls, k + 1, page, file).ok
      && |FetchFrom(urls, k, page, file).saved| == 1 + |FetchFrom(urls, k + 1, page, file).saved|
  {
  }

  /** Every file before the last one comes from a fetch that succeeded. */
  lemma {:induction false} FetchPassesEarlier(urls: seq<string>, k: nat, page: ListingPage, file: (string, nat) -> Saved)
    requires k <= |urls|
    ensures var r := FetchFrom(urls, k, page, file);
      forall j :: k <= j < k + |r.saved| - 1 ==> page.fetchOk(j)
    decreases |urls| - k
  {
    if k < |urls| && page.fetchOk(k) {
      FetchPassesEarlier(urls, k + 1, page, file);
      FetchStep(urls, k, page, file);
      var r := FetchFrom(urls, k, page, file);
      var rest := FetchFrom(urls, k + 1, page, file);
      forall j | k < j < k + |r.saved| - 1
        ensures page.fetchOk(j)
      {
        assert k + 1 <= j < k + 1 + |rest.saved| - 1;
      }
    }
  }

  /**
   `download_images(driver, url, save_dir, common)`: visit the listing,
   then download every accepted image in page order until one fails.
   */
  function DownloadImages(page: ListingPage, common: string): (r: Download)
    ensures !page.loads ==> r == Download([], false)
    ensures forall s :: s in r.saved ==> IsImageName(s.name)
    ensures forall j :: 0 <= j < |r.saved| ==> r.saved[j].entry.Image? && Accepts(Some(r.saved[j].entry.source), common)
  {
    if !page.loads then Download([], false)
    else
      var urls := ImageUrls(page.srcs, common);
      ImageUrlsMembers(page.srcs, common);
      var r := FetchFrom(urls, 0, page, ImageFile(page));
      assert forall j :: 0 <= j < |r.saved| ==> r.saved[j].entry.source == urls[j];
      r
  }

  lemma FileNameIsImageName(id: UuidText, ext: string)
    ensures IsImageName(FileName(id, ext))
  {
    assert FileName(id, ext)[..|ImagePrefix|] == ImagePrefix;
  }

  /** The URLs whose bytes were fully written, in order. */
  function Fetched(saved: seq<Saved>): (r: seq<string>)
    ensures forall u :: u in r <==> exists j :: 0 <= j < |saved| && saved[j].entry == Image(u, true)
  {
    if saved == [] then []
    else
      var rest := Fetched(saved[1..]);
      assert forall j :: 1 <= j < |saved| ==> saved[j] == saved[1..][j - 1];
      if saved[0].entry.Image? && saved[0].entry.complete then [saved[0].entry.source] + rest else rest
  }

  /**
   A listing that succeeds has fetched exactly the image URLs the filter
   accepts: a URL is downloaded iff some `img` has it as non-empty `src`,
   its lowercased form ends in ".jpg" or ".png", and it contains `common`.
   */
  lemma {:induction false} DownloadedIff(page: ListingPage, common: string)
    requires DownloadImages(page, common).ok
    ensures forall u :: u in Fetched(DownloadImages(page, common).saved) <==>
              Some(u) in page.srcs && Accepts(Some(u), common)
  {
    var urls := ImageUrls(page.srcs, common);
    ImageUrlsMembers(page.srcs, common);
    var r := DownloadImages(page, common);
    assert r == FetchFrom(urls, 0, page, ImageFile(page));
    FetchStops(urls, 0, page, ImageFile(page));
    forall u
      ensures u in Fetched(r.saved) <==> u in urls
    {
      if u in urls {
        var j :| 0 <= j < |urls| && urls[j] == u;
        assert r.saved[j].entry == Image(u, true);
      }
    }
  }

  /**
   When the UUIDs drawn for a listing's accepted images differ from one
   another, the files of that listing all have different names.
   */
  lemma {:induction false} DistinctImageNames(page: ListingPage, common: string)
    requires forall a, b :: 0 <= a < b < |ImageUrls(page.srcs, common)| ==> page.id(a) != page.id(b)
    ensures forall i, j :: 0 <= i < j < |DownloadImages(page, common).saved| ==>
              DownloadImages(page, common).saved[i].name != DownloadImages(page, common).saved[j].name
  {
    var r := DownloadImages(page, common);
    if page.loads {
      var urls := ImageUrls(page.srcs, common);
      assert r == FetchFrom(urls, 0, page, ImageFile(page));
      forall i, j | 0 <= i < j < |r.saved|
        ensures r.saved[i].name != r.saved[j].name
      {
        FileNamesDistinct(page.id(i), page.id(j), SplitExt(urls[i]).1, SplitExt(urls[j]).1);
      }
    }
  }

  /** The names of a sequence of written files. */
  function Names(saved: seq<Saved>): (r: set<string>)
    ensures forall n :: n in r <==> exists j :: 0 <= j < |saved| && saved[j].name == n
  {
    if saved == [] then {}
    else
      assert forall j :: 1 <= j < |saved| ==> saved[j] == saved[1..][j - 1];
      {saved[0].name} + Names(saved[1..])
  }

  /** Files with pairwise different names make as many directory entries. */
  lemma {:induction false} NamesCount(saved: seq<Saved>)
    requires forall i, j :: 0 <= i < j < |saved| ==> saved[i].name != saved[j].name
    ensures |Names(saved)| == |saved|
  {
    if saved != [] {
      NamesCount(saved[1..]);
      assert saved[0].name !in Names(saved[1..]);
    }
  }

  /** Write the files one after the other into the save directory. */
  function WriteFiles(d: Disk, saved: seq<Saved>): (r: Disk)
    requires d.Dir?
    ensures r.Dir?
    decreases |saved|
  {
    if saved == [] then d
    else WriteFiles(Put(d, saved[0].name, saved[0].entry), saved[1..])
  }

  /** Writing files adds exactly their names and leaves the files of other names unchanged. */
  lemma {:induction false} WriteFilesNames(d: Disk, saved: seq<Saved>)
    requires d.Dir?
    ensures WriteFiles(d, saved).files.Keys == d.files.Keys + Names(saved)
    ensures forall n :: n in d.files && n !in Names(saved) ==> WriteFiles(d, saved).files[n] == d.files[n]
    decreases |saved|
  {
    if saved != [] {
      var d1 := Put(d, saved[0].name, saved[0].entry);
      WriteFilesNames(d1, saved[1..]);
      assert Names(saved) == {saved[0].name} + Names(saved[1..]);
    }
  }

  /** Writing image files leaves every checkpoint file as it was. */
  lemma WriteImagesKeepsCheckpoints(d: Disk, saved: seq<Saved>, name: string)
    requires d.Dir?
    requires forall s :: s in saved ==> IsImageName(s.name)
    requires name in Checkpoints
    ensures Exists(WriteFiles(d, saved), name) <==> Exists(d, name)
    ensures Exists(d, name) ==> LoadBinary(WriteFiles(d, saved), name) == LoadBinary(d, name)
  {
    WriteFilesNames(d, saved);
    if name in Names(saved) {
      var j :| 0 <= j < |saved| && saved[j].name == name;
      assert saved[j] in saved;
      ImageNameIsNoCheckpoint(name);
    }
  }

  /**
   When the UUIDs drawn for a listing's accepted images differ from one
   another, a listing that succeeds adds one new file per accepted `img`:
   N accepted images give N files.
   */
  lemma OneFilePerAcceptedImage(page: ListingPage, common: string)
    requires forall a, b :: 0 <= a < b < |ImageUrls(page.srcs, common)| ==> page.id(a) != page.id(b)
    requires DownloadImages(page, common).ok
    ensures |Names(DownloadImages(page, common).saved)| == |ImageUrls(page.srcs, common)|
  {
    var urls := ImageUrls(page.srcs, common);
    var r := DownloadImages(page, common);
    assert r == FetchFrom(urls, 0, page, ImageFile(page));
    FetchStops(urls, 0, page, ImageFile(page));
    DistinctImageNames(page, common);
    NamesCount(r.saved);
  }
}
