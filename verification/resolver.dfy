/** The feature resolver: joins a registry definition with its stored memory,
    and narrows a pull request's changed files to those a feature owns. */
module Resolver {
  import opened Base
  import opened Seqs
  import opened JavaString
  import opened Dto
  import Registry
  import MemoryStore

  /** `resolve`: nothing for a name the registry does not define, otherwise the
      definition with the memory stored under the same name (if any). Fails
      when the registry is uninitialised, because `getFeature` throws. */
  function Resolve(reg: Registry.Registry, store: MemoryStore.Store, name: string)
    : (r: Result<Option<ResolvedFeature>>)
    ensures r.Err? <==> reg.Uninitialized?
    ensures r.Ok? ==> (r.value.None? <==> name !in reg.catalog)
    ensures r.Ok? && r.value.Some? ==>
              && r.value.value.definition == reg.catalog[name]
              && r.value.value.memory == MemoryStore.Find(store, name)
  {
    var definition :- Registry.GetFeature(reg, name);
    match definition
    case None => Ok(None)
    case Some(d) => Ok(Some(ResolvedFeature(d, MemoryStore.Find(store, name))))
  }

  /** `file` lies under at least one of `paths`. */
  function OwnedBy(paths: seq<string>): string -> bool {
    file => exists p :: p in paths && StartsWith(file, p)
  }

  /** The index of the first path `file` starts with: where the inner loop
      of `filterRelatedFiles` breaks. */
  function FirstMatchingPath(file: string, paths: seq<string>): (r: Option<nat>)
    ensures r.Some? ==> r.value < |paths| && StartsWith(file, paths[r.value])
    ensures r.Some? ==> forall j :: 0 <= j < r.value ==> !StartsWith(file, paths[j])
    ensures r.None? <==> !OwnedBy(paths)(file)
  {
    if paths == [] then None
    else if StartsWith(file, paths[0]) then Some(0)
    else match FirstMatchingPath(file, paths[1..])
      case None =>
        assert forall p :: p in paths ==> p == paths[0] || p in paths[1..];
        None
      case Some(i) => Some(i + 1)
  }

  /** The two loops of `filterRelatedFiles`: each changed file, in order, is
      kept once as soon as one path matches. */
  function FilterByPaths(paths: seq<string>, files: seq<string>): (r: seq<string>)
    ensures |r| <= |files|
    ensures forall f :: f in r ==> f in files && OwnedBy(paths)(f)
    ensures forall f :: f in files && OwnedBy(paths)(f) ==> f in r
  {
    if files == [] then []
    else
      assert forall f :: f in files ==> f == files[0] || f in files[1..];
      (if FirstMatchingPath(files[0], paths).Some? then [files[0]] else [])
        + FilterByPaths(paths, files[1..])
  }

  /** The loops compute exactly the order-preserving filter by ownership. */
  lemma {:induction false} FilterByPathsIsFilter(paths: seq<string>, files: seq<string>)
    ensures FilterByPaths(paths, files) == Filter(files, OwnedBy(paths))
  {
    if files != [] {
      FilterByPathsIsFilter(paths, files[1..]);
    }
  }

  /** Filtering an already filtered list returns it unchanged, and the result
      keeps the changed files' order. */
  lemma FilterByPathsIdempotent(paths: seq<string>, files: seq<string>)
    ensures FilterByPaths(paths, FilterByPaths(paths, files)) == FilterByPaths(paths, files)
    ensures IsSubseq(FilterByPaths(paths, files), files)
  {
    FilterByPathsIsFilter(paths, files);
    FilterByPathsIsFilter(paths, FilterByPaths(paths, files));
    FilterIdempotent(files, OwnedBy(paths));
    FilterIsSubseq(files, OwnedBy(paths));
  }

  /** `filterRelatedFiles`: the empty list for an unknown feature, otherwise
      the changed files under one of its paths, in order. Fails when the
      registry is uninitialised. */
  function FilterRelatedFiles(reg: Registry.Registry, name: string, changedFiles: seq<string>)
    : (r: Result<seq<string>>)
    ensures r.Err? <==> reg.Uninitialized?
    ensures r.Ok? && name !in reg.catalog ==> r.value == []
    ensures r.Ok? && name in reg.catalog ==>
              r.value == Filter(changedFiles, OwnedBy(reg.catalog[name].paths))
  {
    var definition :- Registry.GetFeature(reg, name);
    match definition
    case None => Ok([])
    case Some(d) =>
      FilterByPathsIsFilter(d.paths, changedFiles);
      Ok(FilterByPaths(d.paths, changedFiles))
  }

  /** `getCoreFiles`: the definition's core files, or the empty list for an
      unknown feature. Fails when the registry is uninitialised. */
  function GetCoreFiles(reg: Registry.Registry, name: string): (r: Result<seq<string>>)
    ensures r.Err? <==> reg.Uninitialized?
    ensures r.Ok? && name !in reg.catalog ==> r.value == []
    ensures r.Ok? && name in reg.catalog ==> r.value == reg.catalog[name].coreFiles
  {
    var definition :- Registry.GetFeature(reg, name);
    Ok(match definition case Some(d) => d.coreFiles case None => [])
  }

  /** A file under none of the feature's paths is never kept, and every kept
      file is one of the changed files. */
  lemma FilteredFilesAreOwned(reg: Registry.Registry, name: string,
                              changedFiles: seq<string>, f: string)
    requires reg.Initialized?
    ensures var r := FilterRelatedFiles(reg, name, changedFiles).value;
            f in r <==> (f in changedFiles && name in reg.catalog
                         && exists p :: p in reg.catalog[name].paths && StartsWith(f, p))
  {
  }
}
