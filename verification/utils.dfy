/**
 The checkpoint store of `app/utils.py`. The save directory of one site is an
 abstract map from file names to what the files hold; a directory that does
 not exist yet is `Absent`. Pickled objects, the completion marker and the
 downloaded images all live in this one directory.
 */
module Utils {
  import opened Results

  /** The file holding the pickled list of listing URLs. */
  const ListingUrls := "listing_urls"
  /** The file holding the pickled index of the last attempted listing. */
  const UrlIndex := "url_index"
  /** The completion marker; its timestamp text is not modelled. */
  const SaveMarker := ".save"

  /** What a file in the save directory holds. */
  datatype Entry =
    | UrlList(urls: seq<string>)        // a pickled list of strings
    | Index(i: nat)                     // a pickled listing index
    | Marker                            // the text written by `complete_scrape`
    | Image(source: string, complete: bool)  // bytes fetched from `source`; empty when the fetch failed

  datatype Disk = Absent | Dir(files: map<string, Entry>)

  /** `os.path.exists(path.join(save_dir, name))`. */
  predicate Exists(d: Disk, name: string)
  {
    d.Dir? && name in d.files
  }

  /** `os.makedirs(save_dir, exist_ok=True)`. */
  function MakeDirs(d: Disk): (r: Disk)
    ensures r.Dir?
    ensures forall name :: Exists(r, name) <==> Exists(d, name)
    ensures d.Dir? ==> r == d
  {
    if d.Dir? then d else Dir(map[])
  }

  /** Write one file, replacing whatever it held. */
  function Put(d: Disk, name: string, e: Entry): (r: Disk)
    requires d.Dir?
    ensures r.Dir? && r.files.Keys == d.files.Keys + {name}
    ensures r.files[name] == e
    ensures forall n :: n != name && n in d.files ==> r.files[n] == d.files[n]
  {
    Dir(d.files[name := e])
  }

  /**
   `save_binary(path, obj)`: pickles `obj` into the file, replacing it whole,
   and hands `obj` back. Opening the file needs the directory to exist.
   */
  function SaveBinary(d: Disk, name: string, obj: Entry): (r: (Disk, Entry))
    requires d.Dir?
    ensures r.1 == obj
    ensures Exists(r.0, name)
    ensures forall n :: n != name ==> (Exists(r.0, n) <==> Exists(d, n))
  {
    (Put(d, name, obj), obj)
  }

  /**
   `load_binary(path)`: the object last pickled into an existing file.
   Saving that object back changes nothing.
   */
  function LoadBinary(d: Disk, name: string): (e: Entry)
    requires Exists(d, name)
    ensures SaveBinary(d, name, e) == (d, e)
  {
    assert d.files[name := d.files[name]] == d.files;
    d.files[name]
  }

  /**
   `is_completed(save_path)`: true iff the `.save` marker exists, so a
   missing directory is never completed.
   */
  predicate IsCompleted(d: Disk)
    ensures IsCompleted(d) ==> d.Dir? && SaveMarker in d.files
    ensures d.Absent? ==> !IsCompleted(d)
  {
    Exists(d, SaveMarker)
  }

  /** `complete_scrape(save_path)`: (re)writes the `.save` marker. */
  function CompleteScrape(d: Disk): (r: Disk)
    requires d.Dir?
    ensures IsCompleted(r)
    ensures forall n :: n != SaveMarker ==> (Exists(r, n) <==> Exists(d, n))
  {
    Put(d, SaveMarker, Marker)
  }

  /** The three checkpoint files `delete_saves` removes. */
  const Checkpoints: set<string> := {SaveMarker, UrlIndex, ListingUrls}

  /**
   `delete_saves(save_path)`: removes `.save`, `url_index` and `listing_urls`
   where they exist and leaves every other file alone; a missing directory
   is left missing.
   */
  function DeleteSaves(d: Disk): (r: Disk)
    ensures r.Dir? <==> d.Dir?
    ensures r.Dir? ==> r.files.Keys == d.files.Keys - Checkpoints
    ensures r.Dir? ==> forall n :: n in r.files ==> r.files[n] == d.files[n]
  {
    if d.Absent? then d else Dir(d.files - Checkpoints)
  }

  /** `name` is missing from both disks, or present in both with the same content. */
  predicate SameFile(d1: Disk, d2: Disk, name: string)
  {
    && (Exists(d1, name) <==> Exists(d2, name))
    && (Exists(d1, name) ==> LoadBinary(d1, name) == LoadBinary(d2, name))
  }

  /** The `url_index` checkpoint exists and holds `i`. */
  predicate StoredIndexIs(d: Disk, i: nat)
  {
    Exists(d, UrlIndex) && LoadBinary(d, UrlIndex) == Index(i)
  }

  /** Loading a file right after saving into it returns the saved object. */
  lemma LoadAfterSave(d: Disk, name: string, obj: Entry)
    requires d.Dir?
    ensures LoadBinary(SaveBinary(d, name, obj).0, name) == obj
  {
  }

  /** A save touches no other file. */
  lemma SaveLeavesOthers(d: Disk, name: string, obj: Entry, other: string)
    requires d.Dir? && other != name
    ensures Exists(SaveBinary(d, name, obj).0, other) <==> Exists(d, other)
    ensures Exists(d, other) ==> LoadBinary(SaveBinary(d, name, obj).0, other) == LoadBinary(d, other)
  {
  }

  /** A save replaces the whole previous value: the earlier save leaves no trace. */
  lemma SaveReplacesWhole(d: Disk, name: string, first: Entry, second: Entry)
    requires d.Dir?
    ensures SaveBinary(SaveBinary(d, name, first).0, name, second).0 == SaveBinary(d, name, second).0
  {
    assert SaveBinary(SaveBinary(d, name, first).0, name, second).0.files == SaveBinary(d, name, second).0.files;
  }

  /** After `complete_scrape`, `is_completed` holds; no other file changes. */
  lemma CompletedAfterMarker(d: Disk)
    requires d.Dir?
    ensures IsCompleted(CompleteScrape(d))
    ensures forall n :: n != SaveMarker && Exists(d, n) ==> LoadBinary(CompleteScrape(d), n) == LoadBinary(d, n)
  {
  }

  /**
   `delete_saves` never fails, is idempotent, leaves `is_completed` false and
   no checkpoint behind, and keeps every other file (the images) as it was.
   */
  lemma DeleteSavesClears(d: Disk)
    ensures DeleteSaves(DeleteSaves(d)) == DeleteSaves(d)
    ensures !IsCompleted(DeleteSaves(d))
    ensures !Exists(DeleteSaves(d), UrlIndex) && !Exists(DeleteSaves(d), ListingUrls)
    ensures forall n :: n !in Checkpoints && Exists(d, n) ==>
              Exists(DeleteSaves(d), n) && LoadBinary(DeleteSaves(d), n) == LoadBinary(d, n)
  {
    if d.Dir? {
      assert DeleteSaves(DeleteSaves(d)).files == DeleteSaves(d).files;
    }
  }
}
