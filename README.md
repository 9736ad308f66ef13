# Beat catalog builder, modelled in Dafny

This project models the catalog builder of a small beat store web app. The
app keeps its beats on disk: a `beats` folder holds one folder per genre, a
genre folder holds audio files and, optionally, an `images` folder with cover
art. `BeatManager.get_all_genres` (app.py:40-103) turns that tree into the
list the home page renders:

- one entry per genre folder that holds at least one audio file (`.mp3`,
  `.wav`, `.ogg`, any case);
- genres ordered by lower-cased folder name, beats by lower-cased file name;
- each beat paired with the image (`.jpg`, `.jpeg`, `.png`, `.webp`) whose
  lower-cased stem is the beat's own, else with `default.jpg` when the
  `images` folder holds one, else with no image;
- display strings: `_` → space then `str.title()` for a beat's title, `-` →
  space then `str.title()` for a genre's name.

The result is memoized by `@lru_cache(maxsize=1)` (app.py:43), so later calls
return the first list without looking at the disk again.

The disk is an input value: `Option<Entry>` for the `beats` folder (`None`
when it does not exist), where an `Entry` is a `File(name)` or a
`Dir(name, entries)`. The order of a folder's entries is the order in which
`iterdir()` yields them; it matters only for ties between names that are
equal once lower-cased and for two images with the same lower-cased stem.

Files:

- `options.dfy`: `Option` and `Result`.
- `text.dfy`: ASCII `lower`, `title` and `replace`, and Python's string order.
- `path_names.dfy`: `pathlib`'s `suffix` and `stem`.
- `file_tree.dfy`: the directory tree and `exists()` lookup.
- `sorting.dfy`: `sorted(..., key=...)` as a stable insertion sort, proved
  sorted, a permutation and stable.
- `catalog.dfy`: the catalog as functions of the tree, and its properties.
- `beat_manager.dfy`: the loops of `get_all_genres`, proved to compute the
  catalog, and the `BeatManager` class holding the one-slot cache.
- `scenario.dfy`: a worked folder and the catalog built from it.

The code does not do the following, and neither does the model:

- The code has no recency flag, upload timestamp, shuffled or position-based
  image assignment, or recent-first ordering. Beats are ordered by lower-cased
  file name only.
- The code does not degrade on listing errors. When the `beats` path or a
  genre's `images` path exists but is a file, `iterdir()` raises
  `NotADirectoryError`, which escapes `get_all_genres`. The model returns
  `Failure(RootNotADirectory)` or `Failure(ImagesNotADirectory(folder))`. Like
  `lru_cache`, it caches nothing after a failure.
- The code has no invalidation hook and no lock around the build.

Other points taken from the code:

- Entries of `images` count when their suffix is an image suffix, whether
  they are files or folders: the loop has no `is_file()` test.
- The `default.jpg` test is an exact-name `exists()`.
- `not image_name` is also true of an empty name. The model keeps that test,
  and `ImageNameNotEmpty` shows that a stored name is never empty.

## Model

| member | source | states |
|---|---|---|
| `Text.LowerChar` | app.py:52 | lower-casing one character keeps letters letters, leaves no upper-case letter, and changes nothing else |
| `Text.UpperChar` | app.py:88 | upper-casing one character keeps letters letters, leaves no lower-case letter, changes nothing else, and agrees with lower-casing up to case |
| `Text.Lower` | app.py:52 | `str.lower()` keeps the length, leaves no upper-case letter, keeps letters letters and non-letters, and keeps every character that is not an upper-case letter |
| `Text.LowerIdempotent` | app.py:61 | lower-casing an already lower-cased name changes nothing |
| `Text.Replace` | app.py:88 | `str.replace(a, b)` keeps the length, leaves no `a` when `a != b`, puts `b` where `a` was and keeps every other character |
| `Text.TitleFrom` | app.py:88 | the `str.title()` scan keeps the length |
| `Text.TitleFromAt` | app.py:88 | the scan upper-cases a character unless it follows a letter, and then lower-cases it |
| `Text.TitleAt` | app.py:88 | every character of `s.title()` is upper-cased at a word start and lower-cased after a letter |
| `Text.TitleIs` | app.py:96 | a string whose characters all obey the word-start rule is `s.title()` |
| `Text.TitleKeepsText` | app.py:88 | `s.title()` is `s` up to case: same length, same lower-cased text, same non-letters in the same places |
| `Text.TitleIdempotent` | app.py:96 | title-casing a title-cased string changes nothing |
| `Text.LexLeRefl` | app.py:52 | Python's string order is reflexive |
| `Text.LexLeTotal` | app.py:52 | Python's string order is total |
| `Text.LexLeTrans` | app.py:52 | Python's string order is transitive |
| `Text.LexLeAntisym` | app.py:52 | Python's string order is antisymmetric |
| `Text.LexLeAtDifference` | app.py:71 | two strings compare as their first differing characters do |
| `PathNames.RFind` | app.py:61 | `str.rfind` gives the last index holding the character, or -1 when there is none |
| `PathNames.StemSuffixSplit` | app.py:61-62 | stem + suffix is the name; a suffix is empty or a dot and at least one more character, with no other dot; a non-empty name has a non-empty stem |
| `PathNames.SplitAtLastDot` | app.py:69 | the suffix starts at the last dot when that dot is neither the first nor the last character |
| `FileTree.Find` | app.py:59 | `exists()` finds an entry of the folder with that exact name, and finds nothing only when there is no such entry |
| `Sorting.Insert` | app.py:52 | inserting an element adds exactly that element to the multiset |
| `Sorting.SortBy` | app.py:66-72 | `sorted` returns a permutation of its input |
| `Sorting.InsertSorted` | app.py:52 | inserting into a sorted sequence keeps it sorted |
| `Sorting.InsertKeyClass` | app.py:52 | an inserted element goes before every element with an equal key |
| `Sorting.SortBySpec` | app.py:52 | `sorted` orders by key and keeps the input order among equal keys (stable) |
| `Sorting.KeyClassMembers` | app.py:52 | the elements with a given key are elements of the sequence with that key |
| `Sorting.SortedByUnique` | app.py:52 | two sequences ordered by key with the same elements, in the same order, for every key are equal |
| `Sorting.SortByUnique` | app.py:66-72 | any ordering by key that keeps each key's elements in input order is the result of `sorted`, so `SortBySpec` determines it |
| `Sorting.SortByMembers` | app.py:66-72 | `sorted` keeps the length and the members |
| `Catalog.Beats` | app.py:77-92 | one beat per audio file |
| `Catalog.BuildCatalog` | app.py:46-50 | a missing beats folder gives an empty list; a beats path that is a file gives `RootNotADirectory` |
| `Catalog.AudioNamesMembers` | app.py:66-70 | the audio names of a folder are exactly its plain files whose lower-cased suffix is `.mp3`, `.wav` or `.ogg` |
| `Catalog.ImageMapKeys` | app.py:59-62 | `image_map` has a key exactly when some `images` entry with an image suffix has that lower-cased stem |
| `Catalog.ImageMapValues` | app.py:59-62 | the name stored under a key has an image suffix, its lower-cased stem is the key, and it is an entry of `images` |
| `Catalog.PoolOfSpec` | app.py:56-64 | without `images` there is no image and no default; with it, the map is as `ImageMapKeys` and `ImageMapValues` say and the default exists exactly when `images` lists `default.jpg` |
| `Catalog.ImageNameNotEmpty` | app.py:20 | a name with an image suffix is not empty |
| `Catalog.PairImageSpec` | app.py:79-84 | a beat whose lower-cased stem is in the map gets an image of `images` with that lower-cased stem; otherwise `default.jpg` when it exists; otherwise no image |
| `Catalog.NoImagesFolderNoImage` | app.py:59-64 | without an `images` folder no beat has an image |
| `Catalog.GenreOfSpec` | app.py:66-100 | a genre comes from a folder, keeps its name as `folder`, has a title-cased `name` and at least one beat; its beat files are a stable sort, by lower-cased name, of the folder's audio files, unchanged; each beat's title and image derive from its file |
| `Catalog.BeatsOf` | app.py:77-92 | the beats list the files in order, each titled from its file and paired with its image |
| `Catalog.GenreWellFormed` | app.py:66-100 | every genre a folder yields has beats, a derived name, beats sorted by lower-cased file name, audio files only and derived titles |
| `Catalog.GenreOfFails` | app.py:59-60 | a genre folder fails the build exactly when its `images` entry is a file |
| `Catalog.GenreOfSkips` | app.py:53-75 | a root entry gives no genre exactly when it is a file or its folder has no audio file |
| `Catalog.GenreOfFolder` | app.py:97 | a genre's `folder` is the name of the folder it comes from |
| `Catalog.GenresOfFailurePersists` | app.py:52-60 | once a genre folder fails, the whole build fails with that error |
| `Catalog.GenresOfFails` | app.py:52-100 | the genre loop fails exactly when one of its passes fails |
| `Catalog.GenresOfOrigin` | app.py:52-100 | each listed genre comes from a folder of the loop, and each folder that yields a genre is listed |
| `Catalog.GenresBelow` | app.py:52-97 | folders whose lower-cased names are at most a bound yield genres whose folders are too |
| `Catalog.GenresOfSorted` | app.py:52 | when folders come in lower-cased name order, so do the genres |
| `Catalog.CatalogWellFormed` | app.py:44-103 | every catalog is in lower-cased folder order, and every genre has beats, a derived name, beats sorted by lower-cased file name, audio files only and derived titles |
| `Catalog.CatalogGenres` | app.py:52-100 | the genres are exactly those of the root's folders that hold audio: root files and folders without audio never appear |
| `Catalog.InsertDistinct` | app.py:52 | inserting an entry whose name is new into a listing with distinct names keeps the names distinct |
| `Catalog.SortByDistinct` | app.py:52 | sorting a listing with distinct names keeps them distinct |
| `Catalog.GenresOfDistinct` | app.py:52-100 | folders with distinct names yield genres with distinct `folder`s: each folder is appended at most once |
| `Catalog.CatalogOnePerFolder` | app.py:44-103 | in the catalog of a root whose entries have distinct names, no two genres share a folder: with `CatalogGenres`, each folder that holds audio appears exactly once |
| `Catalog.CatalogFails` | app.py:48-60 | the build fails exactly when the beats path is a file or a genre folder's `images` entry is a file |
| `Catalog.BeatTitleSpec` | app.py:88 | a title is as long as the stem, has no `_`, is the stem with `_` as space up to case, has a space exactly where the stem has `_` or space, and is already title-cased |
| `Catalog.GenreNameSpec` | app.py:96 | a genre name is as long as the folder name, has no `-`, is the folder name with `-` as space up to case, has a space exactly where the folder name has `-` or space, and is already title-cased |
| `Manager.LoadImageMap` | app.py:57-62 | the image loop computes `ImageMap` of the `images` listing |
| `Manager.PairBeats` | app.py:77-92 | the beat loop computes `Beats` of the sorted audio files with the genre's images |
| `Manager.ScanGenres` | app.py:44-103 | the uncached body of `get_all_genres` computes `BuildCatalog` |
| `Manager.BeatManager.constructor` | app.py:43 | the cache starts empty, with no scan done |
| `Manager.BeatManager.GetAllGenres` | app.py:42-44 | a filled cache is returned without a scan; an empty one is filled by one scan, only when the scan succeeds, and then records the folder it was built from; a cached catalog is always the build of that folder and well formed |
| `Manager.CallTwice` | app.py:43 | after a call that returns a catalog, the next call returns the same catalog whatever the disk holds; the two calls together scan once when the cache was empty and not at all when it was filled, and the cache stays well formed |
| `Scenario.ExampleCatalog` | app.py:44-103 | a root with an image-only `lo-fi`, a stray file and a two-track `hip-hop` gives only `Hip Hop`, tracks in name order, the first with its own cover and the second with `default.jpg` |
| `Scenario.RootOrder` | app.py:52 | `hip-hop`, `lo-fi`, `notes.txt` is the sorted order of that root |
| `Scenario.HipHopAudioOrder` | app.py:66-72 | `Track_One.mp3` sorts before `Track_Two.mp3` |
| `Scenario.HipHopPool` | app.py:56-62 | `TRACK_ONE.png` is stored under `track_one` and `default.jpg` under `default` |
| `Scenario.NameHipHop` | app.py:96 | `hip-hop` is displayed as `Hip Hop` |
| `Scenario.TitleTrackOne` | app.py:88 | `Track_One.mp3` is titled `Track One` |
| `Scenario.TitleTrackTwo` | app.py:88 | `Track_Two.mp3` is titled `Track Two` |

## Left out

- The routes `index`, `audio`, `visuals` and `debug_images` (app.py:107-159), and the `Cache-Control` headers. They are HTTP and file streaming through Flask.
- Logging (app.py:26-30, 36, 49, 64, 102): a side effect only.
- Real filesystem calls (`exists`, `iterdir`, `is_file`, `is_dir`, `resolve`). The tree is an input value. Symbolic links, permission errors and case-insensitive file systems are not modelled. A file system lists a name at most once per folder. The model does not require it, and `Find` takes the first match. `CatalogOnePerFolder` assumes it, because two root entries with the same name could each yield a genre.
- Non-ASCII text: `str.lower()` and `str.title()` change only ASCII letters here. Other characters, including non-ASCII letters, count as non-letters.
- Thread safety of `lru_cache`. The cache is modelled for sequential calls only. `cache_clear()` is never called by the app, so it is not modelled.
- `Catalog.ImageMapValues`: does not say which of two images with the same lower-cased stem is kept. The function `ImageMap` keeps the later one in listing order, as the dictionary assignment does, but the listing order from `iterdir()` is unspecified.
