/**
 * `BeatManager.get_all_genres` (app.py:40-103): the loops that build the
 * catalog, proved to compute `Catalog.BuildCatalog`, and the single-slot
 * `lru_cache` that memoizes them.
 */
module Manager {

  import opened Options
  import opened Text
  import opened FileTree
  import opened Sorting
  import opened Catalog

  /** The loop of app.py:59-62 that fills `image_map` from the `images` folder. */
  method LoadImageMap(imgs: seq<Entry>) returns (imageMap: map<string, string>)
    ensures imageMap == ImageMap(imgs)
  {
    imageMap := map[];
    var j := 0;
    while j < |imgs|
      invariant 0 <= j <= |imgs|
      invariant imageMap == ImageMap(imgs[..j])
    {
      var img := imgs[j];
      assert imgs[..j + 1][..j] == imgs[..j];
      if IsImageName(img.name) {
        imageMap := imageMap[StemKey(img.name) := img.name];
      }
      j := j + 1;
    }
    assert imgs[..|imgs|] == imgs;
  }

  /**
   * The loop of app.py:77-92: one beat per audio file, in the order given,
   * each paired with an image of `imageMap` or with `default.jpg`.
   */
  method PairBeats(audioFiles: seq<string>, imageMap: map<string, string>, imgDir: Option<Entry>)
    returns (beats: seq<Beat>)
    requires imgDir.Some? ==> imgDir.value.Dir?
    ensures beats == Beats(audioFiles, ImagePool(imageMap, imgDir.Some? && Find(imgDir.value.entries, DEFAULT_IMAGE).Some?))
  {
    ghost var pool := ImagePool(imageMap, imgDir.Some? && Find(imgDir.value.entries, DEFAULT_IMAGE).Some?);
    beats := [];
    var k := 0;
    while k < |audioFiles|
      invariant 0 <= k <= |audioFiles|
      invariant |beats| == k
      invariant forall i :: 0 <= i < k ==> beats[i] == MakeBeat(audioFiles[i], pool)
    {
      var audio := audioFiles[k];
      var stem := StemKey(audio);
      var imageName := if stem in imageMap then Some(imageMap[stem]) else None;
      if (imageName.None? || imageName.value == "") && imgDir.Some? && Find(imgDir.value.entries, DEFAULT_IMAGE).Some? {
        imageName := Some(DEFAULT_IMAGE);
      }
      beats := beats + [Beat(BeatTitle(audio), audio, imageName)];
      k := k + 1;
    }
  }

  /** The body of `get_all_genres` (app.py:45-103), without the cache. */
  method ScanGenres(root: Option<Entry>) returns (r: Result<seq<Genre>, BuildError>)
    ensures r == BuildCatalog(root)
  {
    if root.None? {
      return Success([]);
    }
    if root.value.File? {
      return Failure(RootNotADirectory);
    }
    var ordered := SortBy(root.value.entries, LowerName);
    var genres: seq<Genre> := [];
    var i := 0;
    while i < |ordered|
      invariant 0 <= i <= |ordered|
      invariant GenresOf(ordered[..i]) == Success(genres)
    {
      var genre := ordered[i];
      assert ordered[..i + 1][..i] == ordered[..i];
      i := i + 1;
      if genre.File? {
        continue;
      }
      var imgDir := Find(genre.entries, IMAGES_FOLDER);
      var imageMap: map<string, string> := map[];
      if imgDir.Some? {
        if imgDir.value.File? {
          GenresOfFailurePersists(ordered, i, ImagesNotADirectory(genre.name));
          return Failure(ImagesNotADirectory(genre.name));
        }
        imageMap := LoadImageMap(imgDir.value.entries);
      }
      var audioFiles := SortBy(AudioNames(genre.entries), Lower);
      if audioFiles == [] {
        continue;
      }
      var beats := PairBeats(audioFiles, imageMap, imgDir);
      genres := genres + [Genre(GenreName(genre.name), genre.name, beats)];
    }
    assert ordered[..|ordered|] == ordered;
    return Success(genres);
  }

  /**
   * The `BeatManager` with its `@lru_cache(maxsize=1)` on the argument-less
   * `get_all_genres`: one slot, filled by the first call that returns and
   * never cleared. A call that raises stores nothing.
   */
  class BeatManager {

    var cache: Option<seq<Genre>>

    /** How many times the beats folder has been scanned. */
    ghost var scans: nat

    /** The beats folder as it was at the scan that filled the cache. */
    ghost var builtFrom: Option<Entry>

    /** A cached catalog is one the build has returned, so it is well formed. */
    ghost predicate Valid()
      reads this
    {
      cache.Some? ==> BuildCatalog(builtFrom) == Success(cache.value) && WellFormedCatalog(cache.value)
    }

    constructor ()
      ensures Valid()
      ensures cache.None? && scans == 0
    {
      cache := None;
      scans := 0;
      builtFrom := None;
    }

    /**
     * `BeatManager.get_all_genres()` with the beats folder as it is at the
     * time of the call. The cached list is returned without scanning; else
     * the folder is scanned and a successful result is cached.
     */
    method GetAllGenres(root: Option<Entry>) returns (r: Result<seq<Genre>, BuildError>)
      requires Valid()
      modifies this
      ensures Valid()
      ensures old(cache).Some? ==>
        r == Success(old(cache).value) && cache == old(cache) && scans == old(scans) && builtFrom == old(builtFrom)
      ensures old(cache).None? ==> r == BuildCatalog(root) && scans == old(scans) + 1
      ensures old(cache).None? ==> cache == if r.Success? then Some(r.value) else None
      ensures old(cache).None? && r.Success? ==> builtFrom == root
      ensures r.Success? ==> WellFormedCatalog(r.value)
    {
      if cache.Some? {
        return Success(cache.value);
      }
      r := ScanGenres(root);
      scans := scans + 1;
      if r.Success? {
        CatalogWellFormed(root);
        cache := Some(r.value);
        builtFrom := root;
      }
    }
  }

  /**
   * Two consecutive calls: once a call has returned a catalog, the next one
   * returns the same catalog, whatever the beats folder holds by then, and
   * scans nothing: the only scan is the first call's, and only when the cache
   * was empty.
   */
  method CallTwice(manager: BeatManager, first: Option<Entry>, second: Option<Entry>)
    returns (a: Result<seq<Genre>, BuildError>, b: Result<seq<Genre>, BuildError>)
    requires manager.Valid()
    modifies manager
    ensures a.Success? ==> b == a
    ensures manager.Valid()
    ensures a.Success? ==> manager.scans == old(manager.scans) + (if old(manager.cache).None? then 1 else 0)
  {
    a := manager.GetAllGenres(first);
    b := manager.GetAllGenres(second);
  }
}
