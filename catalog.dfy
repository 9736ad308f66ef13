/**
 * The catalog `BeatManager.get_all_genres` builds from the beats folder
 * (app.py:40-103), stated as functions of the directory listing, and the
 * properties the catalog has.
 *
 * The beats folder holds one folder per genre. A genre folder holds audio
 * files and, optionally, an `images` folder with cover images. Each genre
 * with at least one audio file becomes a `Genre`; each audio file becomes a
 * `Beat`, paired with the image whose stem matches its own, or with
 * `default.jpg`.
 */
module Catalog {

  import opened Options
  import opened Text
  import opened PathNames
  import opened FileTree
  import opened Sorting

  /** `Config.IMAGE_EXTS` and `Config.AUDIO_EXTS` (app.py:20-21). */
  const IMAGE_EXTS: set<string> := {".jpg", ".jpeg", ".png", ".webp"}
  const AUDIO_EXTS: set<string> := {".mp3", ".wav", ".ogg"}

  const IMAGES_FOLDER: string := "images"
  const DEFAULT_IMAGE: string := "default.jpg"

  /** One element of a genre's `beats` list: the dictionary built at app.py:87-91. */
  datatype Beat = Beat(title: string, file: string, image: Option<string>)

  /** One element of the returned list: the dictionary built at app.py:95-99. */
  datatype Genre = Genre(name: string, folder: string, beats: seq<Beat>)

  /**
   * The exceptions the build lets escape: `iterdir()` on a path that exists
   * but is a file raises `NotADirectoryError`.
   */
  datatype BuildError = RootNotADirectory | ImagesNotADirectory(folder: string)

  /** What one genre's `images` folder offers: `image_map` and whether `default.jpg` exists. */
  datatype ImagePool = ImagePool(byStem: map<string, string>, hasDefault: bool)

  predicate IsAudioName(name: string) { Lower(Suffix(name)) in AUDIO_EXTS }

  predicate IsImageName(name: string) { Lower(Suffix(name)) in IMAGE_EXTS }

  /** Sort key of genre folders (app.py:52). */
  function LowerName(e: Entry): string { Lower(e.name) }

  /** Key of `image_map` and of the lookup for an audio file (app.py:62, 79). */
  function StemKey(name: string): string { Lower(Stem(name)) }

  /** A beat's display title (app.py:88). */
  function BeatTitle(file: string): string { Title(Replace(Stem(file), '_', ' ')) }

  /** A genre's display name (app.py:96). */
  function GenreName(folder: string): string { Title(Replace(folder, '-', ' ')) }

  /**
   * `image_map` after the loop of app.py:60-62 has seen `imgs`: every entry
   * with an image suffix, file or folder, is stored under its lower-cased
   * stem, a later entry replacing an earlier one with the same key.
   */
  function ImageMap(imgs: seq<Entry>): map<string, string>
  {
    if imgs == [] then map[]
    else
      var m := ImageMap(imgs[..|imgs| - 1]);
      var img := imgs[|imgs| - 1];
      if IsImageName(img.name) then m[StemKey(img.name) := img.name] else m
  }

  /** The images of one genre folder (app.py:56-64), or the error `iterdir()` raises. */
  function PoolOf(folder: string, es: seq<Entry>): Result<ImagePool, BuildError>
  {
    match Find(es, IMAGES_FOLDER)
    case None => Success(ImagePool(map[], false))
    case Some(File(_)) => Failure(ImagesNotADirectory(folder))
    case Some(Dir(_, imgs)) => Success(ImagePool(ImageMap(imgs), Find(imgs, DEFAULT_IMAGE).Some?))
  }

  /** The `image` of an audio file (app.py:79-84); `not image_name` also holds of an empty name. */
  function PairImage(pool: ImagePool, file: string): Option<string>
  {
    var found := if StemKey(file) in pool.byStem then Some(pool.byStem[StemKey(file)]) else None;
    if (found.None? || found.value == "") && pool.hasDefault then Some(DEFAULT_IMAGE) else found
  }

  function MakeBeat(file: string, pool: ImagePool): Beat
  {
    Beat(BeatTitle(file), file, PairImage(pool, file))
  }

  function Beats(files: seq<string>, pool: ImagePool): (bs: seq<Beat>)
    ensures |bs| == |files|
  {
    seq(|files|, i requires 0 <= i < |files| => MakeBeat(files[i], pool))
  }

  function FileNames(bs: seq<Beat>): (r: seq<string>)
    ensures |r| == |bs|
  {
    seq(|bs|, i requires 0 <= i < |bs| => bs[i].file)
  }

  /** Names of the plain files of a folder with an audio suffix, in listing order (app.py:67-70). */
  function AudioNames(es: seq<Entry>): seq<string>
  {
    if es == [] then []
    else (if es[0].File? && IsAudioName(es[0].name) then [es[0].name] else []) + AudioNames(es[1..])
  }

  /**
   * One pass of the genre loop (app.py:53-100): no genre for a file or for a
   * folder without audio, the error of an `images` entry that is a file, or
   * the genre.
   */
  function GenreOf(e: Entry): Result<Option<Genre>, BuildError>
  {
    match e
    case File(_) => Success(None)
    case Dir(folder, es) =>
      match PoolOf(folder, es)
      case Failure(err) => Failure(err)
      case Success(pool) =>
        var files := SortBy(AudioNames(es), Lower);
        if files == [] then Success(None)
        else Success(Some(Genre(GenreName(folder), folder, Beats(files, pool))))
  }

  /** The genre loop over `es`, stopping at the first error. */
  function GenresOf(es: seq<Entry>): Result<seq<Genre>, BuildError>
  {
    if es == [] then Success([])
    else
      match GenresOf(es[..|es| - 1])
      case Failure(err) => Failure(err)
      case Success(gs) =>
        match GenreOf(es[|es| - 1])
        case Failure(err) => Failure(err)
        case Success(None) => Success(gs)
        case Success(Some(g)) => Success(gs + [g])
  }

  /**
   * The result of the uncached `get_all_genres` (app.py:44-103) for the beats
   * folder `root`, `None` when it does not exist.
   */
  function BuildCatalog(root: Option<Entry>): (r: Result<seq<Genre>, BuildError>)
    ensures root.None? ==> r == Success([])
    ensures root.Some? && root.value.File? ==> r == Failure(RootNotADirectory)
  {
    match root
    case None => Success([])
    case Some(File(_)) => Failure(RootNotADirectory)
    case Some(Dir(_, es)) => GenresOf(SortBy(es, LowerName))
  }

  // ---------------------------------------------------------------------------
  // Properties of one genre
  // ---------------------------------------------------------------------------

  /** The audio names are exactly the plain files of the folder with an audio suffix. */
  lemma {:induction false} AudioNamesMembers(es: seq<Entry>)
    ensures forall n :: n in AudioNames(es) <==> File(n) in es && IsAudioName(n)
  {
    if es != [] {
      AudioNamesMembers(es[1..]);
      assert es == [es[0]] + es[1..];
    }
  }

  /** `image_map` holds a key exactly when some entry with an image suffix has that lower-cased stem. */
  lemma {:induction false} ImageMapKeys(imgs: seq<Entry>)
    ensures forall k :: k in ImageMap(imgs) <==>
      exists e :: e in imgs && IsImageName(e.name) && StemKey(e.name) == k
  {
    if imgs != [] {
      var init := imgs[..|imgs| - 1];
      var img := imgs[|imgs| - 1];
      ImageMapKeys(init);
      assert imgs == init + [img];
      forall k
        ensures k in ImageMap(imgs) <==> exists e :: e in imgs && IsImageName(e.name) && StemKey(e.name) == k
      {
        if exists e :: e in imgs && IsImageName(e.name) && StemKey(e.name) == k {
          var e :| e in imgs && IsImageName(e.name) && StemKey(e.name) == k;
          if e != img {
            assert e in init;
          }
        }
      }
    }
  }

  /**
   * The name stored under a key of `image_map` is the name of an entry of the
   * `images` folder, has an image suffix, and has the key as lower-cased stem.
   */
  lemma {:induction false} ImageMapValues(imgs: seq<Entry>)
    ensures forall k :: k in ImageMap(imgs) ==>
      IsImageName(ImageMap(imgs)[k]) && StemKey(ImageMap(imgs)[k]) == k && ImageMap(imgs)[k] in Names(imgs)
  {
    if imgs != [] {
      var init := imgs[..|imgs| - 1];
      var img := imgs[|imgs| - 1];
      ImageMapValues(init);
      var m := ImageMap(init);
      forall k | k in ImageMap(imgs)
        ensures IsImageName(ImageMap(imgs)[k]) && StemKey(ImageMap(imgs)[k]) == k
        ensures ImageMap(imgs)[k] in Names(imgs)
      {
        if IsImageName(img.name) && k == StemKey(img.name) {
          assert ImageMap(imgs)[k] == img.name;
          assert Names(imgs)[|imgs| - 1] == img.name;
        } else {
          assert k in m && ImageMap(imgs)[k] == m[k];
          var i :| 0 <= i < |init| && Names(init)[i] == m[k];
          assert Names(imgs)[i] == init[i].name == m[k];
        }
      }
    }
  }

  /** The images a genre folder offers: none without an `images` folder, else those the folder lists. */
  lemma PoolOfSpec(folder: string, es: seq<Entry>, pool: ImagePool)
    requires PoolOf(folder, es) == Success(pool)
    ensures Find(es, IMAGES_FOLDER).None? ==> pool.byStem == map[] && !pool.hasDefault
    ensures Find(es, IMAGES_FOLDER).Some? ==>
      var imgs := Find(es, IMAGES_FOLDER).value;
      && imgs.Dir?
      && pool.hasDefault == (DEFAULT_IMAGE in Names(imgs.entries))
      && (forall k :: k in pool.byStem <==> exists e :: e in imgs.entries && IsImageName(e.name) && StemKey(e.name) == k)
      && (forall k :: k in pool.byStem ==>
            IsImageName(pool.byStem[k]) && StemKey(pool.byStem[k]) == k && pool.byStem[k] in Names(imgs.entries))
  {
    var found := Find(es, IMAGES_FOLDER);
    if found.Some? {
      var imgs := found.value.entries;
      ImageMapKeys(imgs);
      ImageMapValues(imgs);
      var d := Find(imgs, DEFAULT_IMAGE);
      if d.Some? {
        var i :| 0 <= i < |imgs| && imgs[i] == d.value;
        assert Names(imgs)[i] == DEFAULT_IMAGE;
      }
      if DEFAULT_IMAGE in Names(imgs) {
        var i :| 0 <= i < |imgs| && Names(imgs)[i] == DEFAULT_IMAGE;
        assert imgs[i] in imgs;
      }
    }
  }

  /** An image name is never empty: its suffix is one of the image extensions. */
  lemma ImageNameNotEmpty(name: string)
    requires IsImageName(name)
    ensures name != ""
  {
    assert Suffix("") == "";
    assert Lower("") == "";
  }

  /**
   * Pairing (app.py:79-84). A beat gets an image whose lower-cased stem is
   * its own when there is one; otherwise `default.jpg` when the `images`
   * folder holds it; otherwise no image. An unrelated image is never paired.
   */
  lemma PairImageSpec(pool: ImagePool, file: string, names: seq<string>)
    requires forall k :: k in pool.byStem ==>
      IsImageName(pool.byStem[k]) && StemKey(pool.byStem[k]) == k && pool.byStem[k] in names
    ensures StemKey(file) in pool.byStem ==>
      && PairImage(pool, file).Some?
      && PairImage(pool, file).value in names
      && IsImageName(PairImage(pool, file).value)
      && StemKey(PairImage(pool, file).value) == StemKey(file)
    ensures StemKey(file) !in pool.byStem && pool.hasDefault ==> PairImage(pool, file) == Some(DEFAULT_IMAGE)
    ensures StemKey(file) !in pool.byStem && !pool.hasDefault ==> PairImage(pool, file) == None
  {
    var k := StemKey(file);
    if k in pool.byStem {
      var v := pool.byStem[k];
      assert IsImageName(v) && StemKey(v) == k && v in names;
      ImageNameNotEmpty(v);
      assert PairImage(pool, file) == Some(v);
    }
  }

  /** Without an `images` folder no beat of the genre has an image. */
  lemma NoImagesFolderNoImage(folder: string, es: seq<Entry>, file: string)
    requires Find(es, IMAGES_FOLDER).None?
    ensures PoolOf(folder, es).Success?
    ensures PairImage(PoolOf(folder, es).value, file) == None
  {
  }

  /**
   * A genre built from folder `e`: it comes from a folder, keeps the folder's
   * name as `folder`, displays it title-cased, and has at least one beat. Its
   * beats are the folder's audio files: a permutation of them, ordered by
   * lower-cased name, keeping listing order among equal lower-cased names.
   * Each beat's `file` is the file name unchanged, its title derives from the
   * name, and its image is the pairing of the name.
   */
  lemma GenreOfSpec(e: Entry, g: Genre)
    requires GenreOf(e) == Success(Some(g))
    ensures e.Dir? && g.folder == e.name && g.name == GenreName(e.name)
    ensures |g.beats| > 0
    ensures multiset(FileNames(g.beats)) == multiset(AudioNames(e.entries))
    ensures forall n :: n in FileNames(g.beats) <==> File(n) in e.entries && IsAudioName(n)
    ensures SortedBy(FileNames(g.beats), Lower)
    ensures forall k :: KeyClass(FileNames(g.beats), Lower, k) == KeyClass(AudioNames(e.entries), Lower, k)
    ensures forall b :: b in g.beats ==>
      b.title == BeatTitle(b.file) && b.image == PairImage(PoolOf(e.name, e.entries).value, b.file)
  {
    GenreOfUnfold(e, g);
    var pool := PoolOf(e.name, e.entries).value;
    var files := SortBy(AudioNames(e.entries), Lower);
    BeatsOf(files, pool);
    SortBySpec(AudioNames(e.entries), Lower);
    SortByMembers(AudioNames(e.entries), Lower);
    AudioNamesMembers(e.entries);
  }

  /** What `GenreOf` computes for a folder that yields a genre. */
  lemma GenreOfUnfold(e: Entry, g: Genre)
    requires GenreOf(e) == Success(Some(g))
    ensures e.Dir? && PoolOf(e.name, e.entries).Success?
    ensures SortBy(AudioNames(e.entries), Lower) != []
    ensures g == Genre(GenreName(e.name), e.name,
                       Beats(SortBy(AudioNames(e.entries), Lower), PoolOf(e.name, e.entries).value))
  {
  }

  /** The beats of a list of files are those files, each with its derived title and its paired image. */
  lemma BeatsOf(files: seq<string>, pool: ImagePool)
    ensures FileNames(Beats(files, pool)) == files
    ensures forall b :: b in Beats(files, pool) ==> b.title == BeatTitle(b.file) && b.image == PairImage(pool, b.file)
  {
  }


  /** A genre folder fails the build exactly when its `images` entry is a file. */
  lemma GenreOfFails(e: Entry)
    ensures GenreOf(e).Failure? <==>
      e.Dir? && Find(e.entries, IMAGES_FOLDER).Some? && Find(e.entries, IMAGES_FOLDER).value.File?
  {
  }

  /** A genre folder yields no genre exactly when it is a file or lists no audio file. */
  lemma GenreOfSkips(e: Entry)
    requires GenreOf(e).Success?
    ensures GenreOf(e).value.None? <==> e.File? || forall n :: File(n) in e.entries ==> !IsAudioName(n)
  {
    if e.Dir? {
      AudioNamesMembers(e.entries);
      SortByMembers(AudioNames(e.entries), Lower);
      if AudioNames(e.entries) != [] {
        assert AudioNames(e.entries)[0] in AudioNames(e.entries);
      }
    }
  }

  // ---------------------------------------------------------------------------
  // Properties of the genre loop
  // ---------------------------------------------------------------------------

  /** Once the loop has failed on a prefix, the whole loop fails with that error. */
  lemma {:induction false} GenresOfFailurePersists(es: seq<Entry>, n: nat, err: BuildError)
    requires n <= |es|
    requires GenresOf(es[..n]) == Failure(err)
    ensures GenresOf(es) == Failure(err)
  {
    if n < |es| {
      assert es[..|es| - 1][..n] == es[..n];
      GenresOfFailurePersists(es[..|es| - 1], n, err);
    } else {
      assert es[..n] == es;
    }
  }

  /** The loop fails exactly when one of its passes fails. */
  lemma {:induction false} GenresOfFails(es: seq<Entry>)
    ensures GenresOf(es).Failure? <==> exists e :: e in es && GenreOf(e).Failure?
  {
    if es != [] {
      var init := es[..|es| - 1];
      GenresOfFails(init);
      assert es == init + [es[|es| - 1]];
    }
  }

  /**
   * Every genre of a successful loop comes from a folder of `es`, and every
   * folder of `es` that yields a genre contributes it.
   */
  lemma {:induction false} GenresOfOrigin(es: seq<Entry>)
    requires GenresOf(es).Success?
    ensures forall g :: g in GenresOf(es).value ==> exists e :: e in es && GenreOf(e) == Success(Some(g))
    ensures forall e :: e in es && GenreOf(e).Success? && GenreOf(e).value.Some? ==>
      GenreOf(e).value.value in GenresOf(es).value
  {
    if es != [] {
      var init := es[..|es| - 1];
      var last := es[|es| - 1];
      assert es == init + [last];
      var gs := GenresOf(init).value;
      var step := GenreOf(last).value;
      GenresOfOrigin(init);
      assert GenresOf(es).value == if step.Some? then gs + [step.value] else gs;
      forall g | g in GenresOf(es).value
        ensures exists e :: e in es && GenreOf(e) == Success(Some(g))
      {
        if g in gs {
          var e :| e in init && GenreOf(e) == Success(Some(g));
          assert e in es;
        } else {
          assert last in es;
        }
      }
      forall e | e in es && GenreOf(e).Success? && GenreOf(e).value.Some?
        ensures GenreOf(e).value.value in GenresOf(es).value
      {
        if e in init {
          assert GenreOf(e).value.value in gs;
        }
      }
    }
  }

  /** A genre is named after the folder it comes from. */
  lemma GenreOfFolder(e: Entry, g: Genre)
    requires GenreOf(e) == Success(Some(g))
    ensures e.Dir? && g.folder == e.name
  {
  }

  /** A successful loop over `es` is a successful loop over all but the last folder, then that folder's pass. */
  lemma GenresOfLast(es: seq<Entry>)
    requires es != [] && GenresOf(es).Success?
    ensures GenresOf(es[..|es| - 1]).Success? && GenreOf(es[|es| - 1]).Success?
    ensures GenresOf(es).value == GenresOf(es[..|es| - 1]).value +
      (if GenreOf(es[|es| - 1]).value.Some? then [GenreOf(es[|es| - 1]).value.value] else [])
  {
  }

  /** One more folder after a successful loop: its genre, if any, goes at the end. */
  lemma GenresOfSnoc(es: seq<Entry>, e: Entry, gs: seq<Genre>, step: Option<Genre>)
    requires GenresOf(es) == Success(gs) && GenreOf(e) == Success(step)
    ensures GenresOf(es + [e]) == Success(gs + (if step.Some? then [step.value] else []))
  {
    var xs := es + [e];
    assert xs != [] && xs[..|xs| - 1] == es && xs[|xs| - 1] == e;
    if step.None? {
      assert GenresOf(xs) == Success(gs) && gs + [] == gs;
    } else {
      assert GenresOf(xs) == Success(gs + [step.value]);
    }
  }

  /** Folders whose lower-cased names are all at most `bound` yield genres whose folders are too. */
  lemma GenresBelow(es: seq<Entry>, bound: string)
    requires GenresOf(es).Success?
    requires forall i :: 0 <= i < |es| ==> LexLe(LowerName(es[i]), bound)
    ensures forall g :: g in GenresOf(es).value ==> LexLe(Lower(g.folder), bound)
  {
    GenresOfOrigin(es);
    forall g | g in GenresOf(es).value
      ensures LexLe(Lower(g.folder), bound)
    {
      var e :| e in es && GenreOf(e) == Success(Some(g));
      GenreOfFolder(e, g);
      var m :| 0 <= m < |es| && es[m] == e;
    }
  }

  /** A sorted sequence of genres stays sorted when one no smaller than all of them is appended. */
  lemma FoldersSortedAppend(gs: seq<Genre>, g: Genre)
    requires forall i, j :: 0 <= i < j < |gs| ==> LexLe(Lower(gs[i].folder), Lower(gs[j].folder))
    requires forall h :: h in gs ==> LexLe(Lower(h.folder), Lower(g.folder))
    ensures forall i, j :: 0 <= i < j < |gs + [g]| ==>
      LexLe(Lower((gs + [g])[i].folder), Lower((gs + [g])[j].folder))
  {
    var r := gs + [g];
    forall i, j | 0 <= i < j < |r|
      ensures LexLe(Lower(r[i].folder), Lower(r[j].folder))
    {
      assert r[i] == gs[i] && r[i] in gs;
      if j < |gs| {
        assert r[j] == gs[j];
      }
    }
  }

  /** When the folders are in order of lower-cased name, so are the genres. */
  lemma {:induction false} GenresOfSorted(es: seq<Entry>)
    requires SortedBy(es, LowerName)
    requires GenresOf(es).Success?
    ensures forall i, j :: 0 <= i < j < |GenresOf(es).value| ==>
      LexLe(Lower(GenresOf(es).value[i].folder), Lower(GenresOf(es).value[j].folder))
  {
    if es != [] {
      var init := es[..|es| - 1];
      var last := es[|es| - 1];
      GenresOfLast(es);
      assert SortedBy(init, LowerName) by {
        forall i, j | 0 <= i < j < |init|
          ensures LexLe(LowerName(init[i]), LowerName(init[j]))
        {
          assert init[i] == es[i] && init[j] == es[j];
        }
      }
      GenresOfSorted(init);
      var step := GenreOf(last).value;
      if step.Some? {
        GenreOfFolder(last, step.value);
        forall i | 0 <= i < |init|
          ensures LexLe(LowerName(init[i]), LowerName(last))
        {
          assert init[i] == es[i];
        }
        GenresBelow(init, LowerName(last));
        FoldersSortedAppend(GenresOf(init).value, step.value);
      }
    }
  }

  // ---------------------------------------------------------------------------
  // Properties of the catalog
  // ---------------------------------------------------------------------------

  /** A genre as every catalog entry is: the facts that hold of a genre without its folder. */
  ghost predicate WellFormedGenre(g: Genre)
  {
    && |g.beats| > 0
    && g.name == GenreName(g.folder)
    && SortedBy(FileNames(g.beats), Lower)
    && forall b :: b in g.beats ==> IsAudioName(b.file) && b.title == BeatTitle(b.file)
  }

  /** Genres in order of lower-cased folder name, each of them well formed. */
  ghost predicate WellFormedCatalog(gs: seq<Genre>)
  {
    && (forall i, j :: 0 <= i < j < |gs| ==> LexLe(Lower(gs[i].folder), Lower(gs[j].folder)))
    && forall g :: g in gs ==> WellFormedGenre(g)
  }

  /** Every genre a folder yields is well formed. */
  lemma GenreWellFormed(e: Entry, g: Genre)
    requires GenreOf(e) == Success(Some(g))
    ensures WellFormedGenre(g)
  {
    GenreOfSpec(e, g);
    forall b | b in g.beats
      ensures IsAudioName(b.file)
    {
      var i :| 0 <= i < |g.beats| && g.beats[i] == b;
      assert FileNames(g.beats)[i] == b.file;
    }
  }

  /** Every catalog the build returns is well formed. */
  lemma CatalogWellFormed(root: Option<Entry>)
    requires BuildCatalog(root).Success?
    ensures WellFormedCatalog(BuildCatalog(root).value)
  {
    if root.Some? {
      var es := SortBy(root.value.entries, LowerName);
      SortBySpec(root.value.entries, LowerName);
      GenresOfSorted(es);
      GenresOfOrigin(es);
      forall g | g in GenresOf(es).value
        ensures WellFormedGenre(g)
      {
        var e :| e in es && GenreOf(e) == Success(Some(g));
        GenreWellFormed(e, g);
      }
    }
  }

  /**
   * The genres of a catalog are exactly the genres of the root's folders
   * that hold audio: files in the root and folders without audio never
   * appear.
   */
  lemma CatalogGenres(root: Option<Entry>)
    requires root.Some? && root.value.Dir?
    requires BuildCatalog(root).Success?
    ensures forall g :: g in BuildCatalog(root).value ==>
      exists e :: e in root.value.entries && e.Dir? && e.name == g.folder && GenreOf(e) == Success(Some(g))
    ensures forall e :: e in root.value.entries && GenreOf(e).Success? && GenreOf(e).value.Some? ==>
      GenreOf(e).value.value in BuildCatalog(root).value
  {
    var es := SortBy(root.value.entries, LowerName);
    SortByMembers(root.value.entries, LowerName);
    GenresOfOrigin(es);
    forall g | g in BuildCatalog(root).value
      ensures exists e :: e in root.value.entries && e.Dir? && e.name == g.folder && GenreOf(e) == Success(Some(g))
    {
      var e :| e in es && GenreOf(e) == Success(Some(g));
      GenreOfSpec(e, g);
    }
  }

  /** No two entries share a name, as in any folder of a file system. */
  ghost predicate DistinctNames(es: seq<Entry>)
  {
    forall i, j :: 0 <= i < j < |es| ==> es[i].name != es[j].name
  }

  lemma DistinctCons(y: Entry, u: seq<Entry>)
    requires DistinctNames(u)
    requires forall e :: e in u ==> e.name != y.name
    ensures DistinctNames([y] + u)
  {
    var r := [y] + u;
    forall i, j | 0 <= i < j < |r|
      ensures r[i].name != r[j].name
    {
      assert r[j] == u[j - 1] && r[j] in u;
      if i > 0 {
        assert r[i] == u[i - 1];
      }
    }
  }

  lemma {:induction false} InsertDistinct(x: Entry, t: seq<Entry>, key: Entry -> string)
    requires DistinctNames(t)
    requires forall e :: e in t ==> e.name != x.name
    ensures DistinctNames(Insert(x, t, key))
  {
    if t == [] || LexLe(key(x), key(t[0])) {
      assert Insert(x, t, key) == [x] + t;
      DistinctCons(x, t);
    } else {
      var rest := t[1..];
      var u := Insert(x, rest, key);
      assert Insert(x, t, key) == [t[0]] + u;
      assert DistinctNames(rest) by {
        forall i, j | 0 <= i < j < |rest|
          ensures rest[i].name != rest[j].name
        {
          assert rest[i] == t[i + 1] && rest[j] == t[j + 1];
        }
      }
      forall e | e in rest
        ensures e.name != x.name
      {
        assert e in t;
      }
      InsertDistinct(x, rest, key);
      forall e | e in u
        ensures e.name != t[0].name
      {
        assert e in multiset(u);
        if e != x {
          assert e in multiset(rest);
          var m :| 0 <= m < |rest| && rest[m] == e;
          assert t[m + 1] == e;
        } else {
          assert t[0] in t;
        }
      }
      DistinctCons(t[0], u);
    }
  }

  /** Sorting a listing keeps its names distinct. */
  lemma {:induction false} SortByDistinct(es: seq<Entry>, key: Entry -> string)
    requires DistinctNames(es)
    ensures DistinctNames(SortBy(es, key))
  {
    if es != [] {
      var rest := es[1..];
      assert DistinctNames(rest) by {
        forall i, j | 0 <= i < j < |rest|
          ensures rest[i].name != rest[j].name
        {
          assert rest[i] == es[i + 1] && rest[j] == es[j + 1];
        }
      }
      SortByDistinct(rest, key);
      var t := SortBy(rest, key);
      forall e | e in t
        ensures e.name != es[0].name
      {
        assert e in multiset(t);
        assert e in multiset(rest);
        var m :| 0 <= m < |rest| && rest[m] == e;
        assert es[m + 1] == e;
      }
      InsertDistinct(es[0], t, key);
    }
  }

  /** A list of genres with distinct folders keeps them distinct when a genre from a new folder is appended. */
  lemma FoldersDistinctAppend(gs: seq<Genre>, g: Genre)
    requires forall i, j :: 0 <= i < j < |gs| ==> gs[i].folder != gs[j].folder
    requires forall h :: h in gs ==> h.folder != g.folder
    ensures forall i, j :: 0 <= i < j < |gs + [g]| ==> (gs + [g])[i].folder != (gs + [g])[j].folder
  {
    var r := gs + [g];
    forall i, j | 0 <= i < j < |r|
      ensures r[i].folder != r[j].folder
    {
      assert r[i] == gs[i] && r[i] in gs;
      if j < |gs| {
        assert r[j] == gs[j];
      }
    }
  }

  /** Folders with distinct names yield genres with distinct folders: each folder gives at most one genre. */
  lemma {:induction false} GenresOfDistinct(es: seq<Entry>)
    requires DistinctNames(es)
    requires GenresOf(es).Success?
    ensures forall i, j :: 0 <= i < j < |GenresOf(es).value| ==>
      GenresOf(es).value[i].folder != GenresOf(es).value[j].folder
  {
    if es != [] {
      var init := es[..|es| - 1];
      var last := es[|es| - 1];
      GenresOfLast(es);
      assert DistinctNames(init) by {
        forall i, j | 0 <= i < j < |init|
          ensures init[i].name != init[j].name
        {
          assert init[i] == es[i] && init[j] == es[j];
        }
      }
      GenresOfDistinct(init);
      var gs := GenresOf(init).value;
      var step := GenreOf(last).value;
      if step.Some? {
        GenreOfFolder(last, step.value);
        GenresOfOrigin(init);
        forall h | h in gs
          ensures h.folder != step.value.folder
        {
          var e :| e in init && GenreOf(e) == Success(Some(h));
          GenreOfFolder(e, h);
          var m :| 0 <= m < |init| && init[m] == e;
          assert es[m] == e;
        }
        FoldersDistinctAppend(gs, step.value);
      }
    }
  }

  /** Each folder of a root, whose entries have distinct names, appears in the catalog at most once. */
  lemma CatalogOnePerFolder(root: Option<Entry>)
    requires root.Some? && root.value.Dir? && DistinctNames(root.value.entries)
    requires BuildCatalog(root).Success?
    ensures forall i, j :: 0 <= i < j < |BuildCatalog(root).value| ==>
      BuildCatalog(root).value[i].folder != BuildCatalog(root).value[j].folder
  {
    SortByDistinct(root.value.entries, LowerName);
    GenresOfDistinct(SortBy(root.value.entries, LowerName));
  }

  /**
   * The build fails exactly when the root is a file, or one of its folders
   * has an `images` entry that is a file.
   */
  lemma CatalogFails(root: Option<Entry>)
    ensures BuildCatalog(root).Failure? <==>
      root.Some? &&
      (root.value.File? ||
       exists e :: e in root.value.entries && e.Dir? &&
         Find(e.entries, IMAGES_FOLDER).Some? && Find(e.entries, IMAGES_FOLDER).value.File?)
  {
    if root.Some? && root.value.Dir? {
      var es := SortBy(root.value.entries, LowerName);
      SortByMembers(root.value.entries, LowerName);
      GenresOfFails(es);
      forall e | e in es
        ensures GenreOf(e).Failure? <==>
          e.Dir? && Find(e.entries, IMAGES_FOLDER).Some? && Find(e.entries, IMAGES_FOLDER).value.File?
      {
        GenreOfFails(e);
      }
    }
  }

  // ---------------------------------------------------------------------------
  // Display strings
  // ---------------------------------------------------------------------------

  /**
   * A beat's title is its file's stem with `_` turned into spaces, title-cased:
   * as long as the stem, the same text up to case, no `_` left.
   */
  lemma BeatTitleSpec(file: string)
    ensures |BeatTitle(file)| == |Stem(file)|
    ensures '_' !in BeatTitle(file)
    ensures Lower(BeatTitle(file)) == Lower(Replace(Stem(file), '_', ' '))
    ensures forall i :: 0 <= i < |Stem(file)| ==> (BeatTitle(file)[i] == ' ' <==> Stem(file)[i] in {'_', ' '})
    ensures Title(BeatTitle(file)) == BeatTitle(file)
  {
    var s := Replace(Stem(file), '_', ' ');
    TitleKeepsText(s);
    TitleIdempotent(s);
  }

  /**
   * A genre's display name is its folder name with `-` turned into spaces,
   * title-cased: as long as the folder name, the same text up to case, no
   * `-` left.
   */
  lemma GenreNameSpec(folder: string)
    ensures |GenreName(folder)| == |folder|
    ensures '-' !in GenreName(folder)
    ensures Lower(GenreName(folder)) == Lower(Replace(folder, '-', ' '))
    ensures forall i :: 0 <= i < |folder| ==> (GenreName(folder)[i] == ' ' <==> folder[i] in {'-', ' '})
    ensures Title(GenreName(folder)) == GenreName(folder)
  {
    var s := Replace(folder, '-', ' ');
    TitleKeepsText(s);
    TitleIdempotent(s);
  }
}
