/**
 * A worked beats folder and the catalog the build makes of it.
 */
module Scenario {
  import opened Options
  import opened Text
  import opened PathNames
  import opened FileTree
  import opened Sorting
  import opened Catalog

  const HIP_HOP := Dir("hip-hop", [File("Track_Two.mp3"), File("Track_One.mp3"), Dir("images", [File("TRACK_ONE.png"), File("default.jpg")])])
  const LO_FI := Dir("lo-fi", [Dir("images", [File("cover.png")])])
  const NOTES := File("notes.txt")

  /** `Lower(s)` and `t` agree from index `i` on, checked one index at a time. */
  predicate LowersFrom(s: string, t: string, i: nat)
    decreases |s| - i
  {
    |s| == |t| && (i >= |s| || (LowerChar(s[i]) == t[i] && LowersFrom(s, t, i + 1)))
  }

  lemma {:induction false} LowersFromAt(s: string, t: string, i: nat, j: nat)
    requires LowersFrom(s, t, i) && i <= j < |s|
    ensures LowerChar(s[j]) == t[j]
    decreases j - i
  {
    if i < j {
      LowersFromAt(s, t, i + 1, j);
    }
  }

  lemma LowerIs(s: string, t: string)
    requires LowersFrom(s, t, 0)
    ensures Lower(s) == t
  {
    forall j | 0 <= j < |s|
      ensures Lower(s)[j] == t[j]
    {
      LowersFromAt(s, t, 0, j);
    }
  }

  lemma LowerTrackOneStem()
    ensures Lower("Track_One") == "track_one"
  {
    LowerIs("Track_One", "track_one");
  }

  lemma LowerTrackTwoStem()
    ensures Lower("Track_Two") == "track_two"
  {
    LowerIs("Track_Two", "track_two");
  }

  lemma LowerCoverStem()
    ensures Lower("TRACK_ONE") == "track_one"
  {
    LowerIs("TRACK_ONE", "track_one");
  }

  lemma LowerDefaultStem()
    ensures Lower("default") == "default"
  {
    LowerIs("default", "default");
  }

  lemma LowerPngSuffix()
    ensures Lower(".png") == ".png"
  {
    LowerIs(".png", ".png");
  }

  lemma LowerJpgSuffix()
    ensures Lower(".jpg") == ".jpg"
  {
    LowerIs(".jpg", ".jpg");
  }

  lemma LowerMp3Suffix()
    ensures Lower(".mp3") == ".mp3"
  {
    LowerIs(".mp3", ".mp3");
  }

  lemma LowerTrackOneFile()
    ensures Lower("Track_One.mp3") == "track_one.mp3"
  {
    LowerIs("Track_One.mp3", "track_one.mp3");
  }

  lemma LowerTrackTwoFile()
    ensures Lower("Track_Two.mp3") == "track_two.mp3"
  {
    LowerIs("Track_Two.mp3", "track_two.mp3");
  }

  lemma FirstLetters()
    ensures LowerName(HIP_HOP)[0] == 'h' && LowerName(LO_FI)[0] == 'l' && LowerName(NOTES)[0] == 'n'
  {
  }

  lemma RootKeys()
    ensures !LexLe(LowerName(NOTES), LowerName(HIP_HOP))
    ensures !LexLe(LowerName(LO_FI), LowerName(HIP_HOP))
    ensures LexLe(LowerName(LO_FI), LowerName(NOTES))
  {
    FirstLetters();
  }

  /** Sorting two elements whose keys are out of order swaps them. */
  lemma SortTwo<T>(a: T, b: T, key: T -> string)
    requires !LexLe(key(a), key(b))
    ensures SortBy([a, b], key) == [b, a]
  {
    SortByCons(b, [], key);
    InsertFront(b, [], key);
    SortByCons(a, [b], key);
    InsertPast(a, b, [], key);
    InsertFront(a, [], key);
  }

  /** Sorting three elements whose last key is the smallest moves it to the front. */
  lemma SortThree<T>(a: T, b: T, c: T, key: T -> string)
    requires !LexLe(key(b), key(c)) && !LexLe(key(a), key(c)) && LexLe(key(a), key(b))
    ensures SortBy([a, b, c], key) == [c, a, b]
  {
    SortTwo(b, c, key);
    SortByCons(a, [b, c], key);
    InsertPast(a, c, [b], key);
    InsertFront(a, [b], key);
  }

  lemma RootOrder()
    ensures SortBy([LO_FI, NOTES, HIP_HOP], LowerName) == [HIP_HOP, LO_FI, NOTES]
  {
    RootKeys();
    SortThree(LO_FI, NOTES, HIP_HOP, LowerName);
  }

  lemma NoGenres()
    ensures GenreOf(LO_FI) == Success(None)
    ensures GenreOf(NOTES) == Success(None)
  {
    assert LO_FI.entries[1..] == [];
    assert AudioNames(LO_FI.entries) == [];
  }

  lemma AudioSplits()
    ensures Suffix("Track_One.mp3") == ".mp3" && Stem("Track_One.mp3") == "Track_One"
    ensures Suffix("Track_Two.mp3") == ".mp3" && Stem("Track_Two.mp3") == "Track_Two"
  {
    SplitAtLastDot("Track_One.mp3", 9);
    SplitAtLastDot("Track_Two.mp3", 9);
  }

  lemma ImageSplits()
    ensures Suffix("TRACK_ONE.png") == ".png" && Stem("TRACK_ONE.png") == "TRACK_ONE"
    ensures Suffix("default.jpg") == ".jpg" && Stem("default.jpg") == "default"
  {
    SplitAtLastDot("TRACK_ONE.png", 9);
    SplitAtLastDot("default.jpg", 7);
  }

  lemma TitleTrackOne()
    ensures BeatTitle("Track_One.mp3") == "Track One"
  {
    AudioSplits();
    assert Replace("Track_One", '_', ' ') == "Track One";
    TitleIs("Track One", "Track One");
  }

  lemma TitleTrackTwo()
    ensures BeatTitle("Track_Two.mp3") == "Track Two"
  {
    AudioSplits();
    assert Replace("Track_Two", '_', ' ') == "Track Two";
    TitleIs("Track Two", "Track Two");
  }

  lemma NameHipHop()
    ensures GenreName("hip-hop") == "Hip Hop"
  {
    assert Replace("hip-hop", '-', ' ') == "hip hop";
    TitleIs("hip hop", "Hip Hop");
  }

  lemma HipHopImageKeys()
    ensures IsImageName("TRACK_ONE.png") && StemKey("TRACK_ONE.png") == "track_one"
    ensures IsImageName("default.jpg") && StemKey("default.jpg") == "default"
  {
    ImageSplits();
    LowerPngSuffix();
    LowerJpgSuffix();
    LowerCoverStem();
    LowerDefaultStem();
  }

  lemma HipHopPool()
    ensures PoolOf("hip-hop", HIP_HOP.entries) ==
      Success(ImagePool(map["track_one" := "TRACK_ONE.png", "default" := "default.jpg"], true))
  {
    HipHopImageKeys();
    var imgs := [File("TRACK_ONE.png"), File("default.jpg")];
    assert imgs[..1] == [File("TRACK_ONE.png")] && imgs[..1][..0] == [];
    assert ImageMap(imgs[..1]) == map["track_one" := "TRACK_ONE.png"];
    assert ImageMap(imgs) == map["track_one" := "TRACK_ONE.png", "default" := "default.jpg"];
    assert Find(imgs, DEFAULT_IMAGE).Some? by {
      assert imgs[0].name != DEFAULT_IMAGE by { assert imgs[0].name[0] != DEFAULT_IMAGE[0]; }
      assert imgs[1..] == [File("default.jpg")];
    }
    var es := HIP_HOP.entries;
    assert es[0].name != IMAGES_FOLDER by { assert es[0].name[0] != IMAGES_FOLDER[0]; }
    assert es[1].name != IMAGES_FOLDER by { assert es[1].name[0] != IMAGES_FOLDER[0]; }
    assert es[1..][1..] == [es[2]];
  }

  lemma HipHopAudioNames()
    ensures AudioNames(HIP_HOP.entries) == ["Track_Two.mp3", "Track_One.mp3"]
  {
    AudioSplits();
    LowerMp3Suffix();
    var es := HIP_HOP.entries;
    assert es[1..][1..] == [es[2]] && es[1..][1..][1..] == [];
  }

  lemma HipHopAudioOrder()
    ensures SortBy(["Track_Two.mp3", "Track_One.mp3"], Lower) == ["Track_One.mp3", "Track_Two.mp3"]
  {
    var a, b := "track_two.mp3", "track_one.mp3";
    LowerTrackTwoFile();
    LowerTrackOneFile();
    assert a[..6] == b[..6] && b[6] == 'o' && a[6] == 't';
    LexLeAtDifference(b, a, 6);
    SortTwo("Track_Two.mp3", "Track_One.mp3", Lower);
  }

  const POOL := ImagePool(map["track_one" := "TRACK_ONE.png", "default" := "default.jpg"], true)
  const HIP_HOP_GENRE := Genre("Hip Hop", "hip-hop", [
      Beat("Track One", "Track_One.mp3", Some("TRACK_ONE.png")),
      Beat("Track Two", "Track_Two.mp3", Some("default.jpg"))])

  // The lemmas below name a file, a folder or a listing through a parameter
  // fixed by `requires` instead of writing the literal in the call. Applied
  // to a literal, the string functions are unfolded eagerly by the verifier,
  // which makes these proofs much slower; a parameter keeps them small.

  lemma ImageOfTrackOne(file: string)
    requires StemKey(file) == "track_one"
    ensures PairImage(POOL, file) == Some("TRACK_ONE.png")
  {
    assert "track_one" in POOL.byStem && POOL.byStem["track_one"] == "TRACK_ONE.png";
  }

  lemma ImageOfTrackTwo(file: string)
    requires StemKey(file) == "track_two"
    ensures PairImage(POOL, file) == Some("default.jpg")
  {
    assert "track_two" !in POOL.byStem by {
      assert "track_two" != "default" && "track_two" != "track_one";
    }
  }

  lemma BeatOne(file: string)
    requires file == "Track_One.mp3"
    ensures MakeBeat(file, POOL) == Beat("Track One", file, Some("TRACK_ONE.png"))
  {
    TitleTrackOne();
    assert StemKey(file) == "track_one" by { AudioSplits(); LowerTrackOneStem(); }
    ImageOfTrackOne(file);
  }

  lemma BeatTwo(file: string)
    requires file == "Track_Two.mp3"
    ensures MakeBeat(file, POOL) == Beat("Track Two", file, Some("default.jpg"))
  {
    TitleTrackTwo();
    assert StemKey(file) == "track_two" by { AudioSplits(); LowerTrackTwoStem(); }
    ImageOfTrackTwo(file);
  }

  /** The beats of two files are the two files' beats. */
  lemma BeatsOfTwo(f1: string, f2: string, pool: ImagePool, b1: Beat, b2: Beat)
    requires MakeBeat(f1, pool) == b1 && MakeBeat(f2, pool) == b2
    ensures Beats([f1, f2], pool) == [b1, b2]
  {
    var bs := Beats([f1, f2], pool);
    assert bs[0] == b1 && bs[1] == b2;
  }

  lemma HipHopBeats(files: seq<string>)
    requires files == ["Track_One.mp3", "Track_Two.mp3"]
    ensures Beats(files, POOL) == HIP_HOP_GENRE.beats
  {
    BeatOne(files[0]);
    BeatTwo(files[1]);
    BeatsOfTwo(files[0], files[1], POOL, HIP_HOP_GENRE.beats[0], HIP_HOP_GENRE.beats[1]);
    assert files == [files[0], files[1]];
  }

  lemma HipHopGenre(e: Entry)
    requires e == HIP_HOP
    ensures GenreOf(e) == Success(Some(HIP_HOP_GENRE))
  {
    HipHopPool();
    var files := SortBy(AudioNames(e.entries), Lower);
    assert files == ["Track_One.mp3", "Track_Two.mp3"] by {
      HipHopAudioNames();
      HipHopAudioOrder();
    }
    HipHopBeats(files);
    NameHipHop();
  }

  /** The genre loop over a folder that yields a genre followed by two that yield none. */
  lemma LoopOverThree(first: Entry, second: Entry, third: Entry, g: Genre)
    requires GenreOf(first) == Success(Some(g))
    requires GenreOf(second) == Success(None) && GenreOf(third) == Success(None)
    ensures GenresOf([first, second, third]) == Success([g])
  {
    GenresOfSnoc([], first, [], Some(g));
    assert [] + [first] == [first] && [] + [g] == [g];
    GenresOfSnoc([first], second, [g], None);
    assert [first] + [second] == [first, second];
    GenresOfSnoc([first, second], third, [g], None);
    assert [first, second] + [third] == [first, second, third];
  }

  /**
   * A beats folder with a `lo-fi` folder holding only an image, a stray file,
   * and a `hip-hop` folder with two tracks, a cover for one of them and a
   * default cover: one genre, `Hip Hop`, with the tracks in name order, the
   * first with its own cover and the second with the default.
   */
  lemma ExampleCatalog()
    ensures BuildCatalog(Some(Dir("beats", [LO_FI, NOTES, HIP_HOP]))) == Success([Genre("Hip Hop", "hip-hop", [
      Beat("Track One", "Track_One.mp3", Some("TRACK_ONE.png")),
      Beat("Track Two", "Track_Two.mp3", Some("default.jpg"))])])
  {
    RootOrder();
    NoGenres();
    HipHopGenre(HIP_HOP);
    CatalogOfThree("beats", LO_FI, NOTES, HIP_HOP, HIP_HOP_GENRE);
  }

  /** A root of three entries that sort last-first, where only the last yields a genre. */
  lemma CatalogOfThree(name: string, a: Entry, b: Entry, c: Entry, g: Genre)
    requires SortBy([a, b, c], LowerName) == [c, a, b]
    requires GenreOf(c) == Success(Some(g))
    requires GenreOf(a) == Success(None) && GenreOf(b) == Success(None)
    ensures BuildCatalog(Some(Dir(name, [a, b, c]))) == Success([g])
  {
    LoopOverThree(c, a, b, g);
  }
}
