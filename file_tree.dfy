/**
 * The directory listing the catalog is built from, as a value: what
 * `Path.iterdir()`, `is_dir()`, `is_file()` and `exists()` report about the
 * beats folder, its genre folders and their `images` folders.
 */
module FileTree {

  import opened Options

  /**
   * An entry of a directory. The order of a directory's entries is the
   * order in which `iterdir()` yields them.
   */
  datatype Entry = File(name: string) | Dir(name: string, entries: seq<Entry>)

  function Names(es: seq<Entry>): (r: seq<string>)
    ensures |r| == |es|
    ensures forall i :: 0 <= i < |es| ==> r[i] == es[i].name
  {
    seq(|es|, i requires 0 <= i < |es| => es[i].name)
  }

  /** `(dir / name).exists()`, and the entry it finds: the first one with that exact name. */
  function Find(es: seq<Entry>, name: string): (r: Option<Entry>)
    ensures r.Some? ==> r.value in es && r.value.name == name
    ensures r.None? ==> forall e :: e in es ==> e.name != name
  {
    if es == [] then None
    else if es[0].name == name then Some(es[0])
    else Find(es[1..], name)
  }
}
