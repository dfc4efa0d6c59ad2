/** The traversal of the mirror, written after the source's functions: the
    top catalog, then each group in catalog order, each artifact, each
    version, and each file of the version's manifest (or of the fallback
    list). Every operation yields the ordered trace of the effects it
    issues; an exception thrown inside a loop is a run that stops with
    `ok` unset, and the `try` around each catalog loop ends it there. */
module Traversal {
  import opened Paths
  import opened Layout
  import opened Catalog

  /** One effect on the local disk or the network, in issue order.
      `Fetch` is an awaited reliable fetch with the result it returned;
      `Download` is the per-file fetch, issued and not awaited, labelled
      with the catalog coordinate it serves. */
  datatype Step =
    | MakeDir(dir: string)
    | Fetch(path: string, url: string, result: bool)
    | Remove(path: string)
    | Download(at: Coord, path: string, url: string)

  /** The effects of a loop, and whether it ran to its end without throwing. */
  datatype Run = Run(steps: seq<Step>, ok: bool)

  /** The effects of a manifest lookup, and the file list it yields
      (`None` when reading the manifest throws). */
  datatype Meta = Meta(steps: seq<Step>, files: Option<seq<FileEntry>>)

  /** One request of the per-file loop: the file `at.name` of the version
      directory, from the same name under the version URL. */
  function DownloadArtifact(versionDir: string, versionUrl: string, at: Coord): Step {
    Download(at, Join(versionDir, at.name), Join(versionUrl, at.name))
  }

  /** The per-file loop of one version: one request per listed file, in
      list order. */
  function DownloadAll(versionDir: string, versionUrl: string, g: string, a: string, v: string,
                       files: seq<FileEntry>): (r: seq<Step>)
    ensures |r| == |files|
    ensures forall j :: 0 <= j < |r| ==> r[j].Download? && r[j].at == Coord(g, a, v, files[j].name)
  {
    seq(|files|, j requires 0 <= j < |files| => DownloadArtifact(versionDir, versionUrl, Coord(g, a, v, files[j].name)))
  }

  /** The manifest lookup of one version. A delivered manifest is deleted
      before it is parsed; a manifest that is not delivered gives the
      fallback list, so the lookup fails only on a delivered manifest that
      does not parse. */
  function GetMetaData(remote: Remote, versionDir: string, versionUrl: string, key: string, version: string): (r: Meta)
    ensures var path, url := Join(versionDir, MANIFEST_JSON), Join(versionUrl, MANIFEST_JSON);
      && |r.steps| > 0
      && r.steps[0] == Fetch(path, url, Delivers(remote, url))
      && (Delivers(remote, url) <==> Remove(path) in r.steps)
      && (Delivers(remote, url) ==> r.steps[|r.steps| - 1] == Remove(path) && r.files == ManifestFiles(remote[url].body))
      && (!Delivers(remote, url) ==> r.files == Some(FallbackFiles(key, version)))
    ensures forall i :: 0 <= i < |r.steps| ==> !r.steps[i].Download?
  {
    var path := Join(versionDir, MANIFEST_JSON);
    var url := Join(versionUrl, MANIFEST_JSON);
    if Delivers(remote, url) then
      Meta([Fetch(path, url, true), Remove(path)], ManifestFiles(remote[url].body))
    else
      Meta([Fetch(path, url, false)], Some(FallbackFiles(key, version)))
  }

  /** The loop over the versions of one artifact: stage the version
      directory, look up its manifest, request its files; a manifest that
      does not parse throws and ends the loop. */
  function VersionsRun(remote: Remote, artDir: string, artUrl: string, g: string, key: string,
                       versions: seq<string>): (r: Run)
    decreases |versions|
  {
    if |versions| == 0 then Run([], true)
    else
      var v := versions[0];
      var versionDir := Join(artDir, v);
      var versionUrl := Join(artUrl, v);
      var meta := GetMetaData(remote, versionDir, versionUrl, key, v);
      var head := [MakeDir(versionDir)] + meta.steps;
      match meta.files
      case None => Run(head, false)
      case Some(files) =>
        var rest := VersionsRun(remote, artDir, artUrl, g, key, versions[1..]);
        Run(head + DownloadAll(versionDir, versionUrl, g, key, v, files) + rest.steps, rest.ok)
  }

  /** The version loop of one artifact. The version list is the artifact's
      `versions` attribute split on ','; an entry without that attribute
      throws before any version is visited. */
  function GetArtifacts(remote: Remote, artDir: string, versions: Option<string>, artUrl: string,
                        g: string, key: string): Run {
    match versions
    case None => Run([], false)
    case Some(list) => VersionsRun(remote, artDir, artUrl, g, key, Split(list, ','))
  }

  /** The loop over the artifacts of one group catalog: stage the artifact
      directory, then walk its versions; a throw ends the loop. */
  function ArtifactsRun(remote: Remote, groupDir: string, groupUrl: string, g: string,
                        entries: seq<Entry>): (r: Run)
    decreases |entries|
  {
    if |entries| == 0 then Run([], true)
    else
      var key := entries[0].name;
      var artDir := Join(groupDir, key);
      var artUrl := Join(groupUrl, key);
      var art := GetArtifacts(remote, artDir, entries[0].versions, artUrl, g, key);
      var head := [MakeDir(artDir)] + art.steps;
      if !art.ok then Run(head, false)
      else
        var rest := ArtifactsRun(remote, groupDir, groupUrl, g, entries[1..]);
        Run(head + rest.steps, rest.ok)
  }

  /** Parse the downloaded group catalog and walk its artifacts. The
      catalog copy is deleted only when the whole loop finished; a catalog
      that does not parse, or a throw in the loop, leaves it in place. */
  function ParseGroupIndex(remote: Remote, groupDir: string, fileName: string, package: string,
                           groupUrl: string, body: Content): seq<Step>
  {
    match GroupEntries(body, package)
    case None => []
    case Some(entries) =>
      var run := ArtifactsRun(remote, groupDir, groupUrl, package, entries);
      if run.ok then run.steps + [Remove(fileName)] else run.steps
  }

  /** Fetch one group's catalog into its directory and, when it arrived,
      walk it. The catalog URL turns the group's dots into slashes; the
      local directory keeps the dotted name. */
  function GetGroupIndex(remote: Remote, groupDir: string, package: string): (r: seq<Step>)
    ensures var fileName, groupUrl := Join(groupDir, GROUP_XML), Join(MAVEN_URL, ReplaceDots(package));
      && |r| > 0
      && r[0] == Fetch(fileName, Join(groupUrl, GROUP_XML), Delivers(remote, Join(groupUrl, GROUP_XML)))
      && (!Delivers(remote, Join(groupUrl, GROUP_XML)) ==> |r| == 1)
  {
    var fileName := Join(groupDir, GROUP_XML);
    var groupUrl := Join(MAVEN_URL, ReplaceDots(package));
    var indexUrl := Join(groupUrl, GROUP_XML);
    var result := Delivers(remote, indexUrl);
    [Fetch(fileName, indexUrl, result)]
      + (if result then ParseGroupIndex(remote, groupDir, fileName, package, groupUrl, remote[indexUrl].body) else [])
  }

  /** One iteration of the top-level loop: stage the group directory
      (dotted name) and process the group. */
  function GroupSteps(remote: Remote, key: string): (r: seq<Step>)
    ensures |r| > 1 && r[0] == MakeDir(GroupDir(key))
    ensures r[1] == Fetch(GroupIndexPath(key), GroupIndexUrl(key), Delivers(remote, GroupIndexUrl(key)))
  {
    var groupDir := Join(ROOT_DIR, key);
    [MakeDir(groupDir)] + GetGroupIndex(remote, groupDir, key)
  }

  /** The top-level loop over the groups of the top catalog, in catalog
      order. Every group runs: a failure inside one is caught there. */
  function GroupsSteps(remote: Remote, keys: seq<string>): seq<Step>
    decreases |keys|
  {
    if |keys| == 0 then [] else GroupSteps(remote, keys[0]) + GroupsSteps(remote, keys[1..])
  }

  /** Parse the downloaded top catalog and walk its groups; the catalog
      copy is deleted once the loop is over. A top catalog that does not
      parse stops here, leaving the copy in place. */
  function ParseMasterIndex(remote: Remote, fileName: string, body: Content): (r: seq<Step>)
    ensures MasterGroups(body).None? ==> r == []
    ensures MasterGroups(body).Some? ==> |r| > 0 && r[|r| - 1] == Remove(fileName)
  {
    match MasterGroups(body)
    case None => []
    case Some(groups) => GroupsSteps(remote, groups) + [Remove(fileName)]
  }

  /** A whole run: stage the root, fetch the top catalog, and walk it only
      when it was delivered. */
  function GetMasterIndex(remote: Remote): (r: seq<Step>)
    ensures |r| >= 2 && r[..2] == [MakeDir(ROOT_DIR), Fetch(MASTER_PATH, MASTER_URL, Delivers(remote, MASTER_URL))]
    ensures !Delivers(remote, MASTER_URL) ==> |r| == 2
  {
    var fileName := Join(ROOT_DIR, MASTER_XML);
    var indexUrl := Join(MAVEN_URL, MASTER_XML);
    var result := Delivers(remote, indexUrl);
    [MakeDir(ROOT_DIR), Fetch(fileName, indexUrl, result)]
      + (if result then ParseMasterIndex(remote, fileName, remote[indexUrl].body) else [])
  }
}
