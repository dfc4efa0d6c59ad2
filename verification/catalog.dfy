/** The remote repository as the mirror sees it, and the fields it reads
    out of the catalogs and manifests once they are parsed.

    Parsing itself (xml2js for the catalogs, `JSON.parse` for manifests) is
    not modelled: a body is given already parsed, with an explicit case for
    text that does not parse in the expected format. */
module Catalog {
  import opened Fetcher

  datatype Option<T> = None | Some(value: T)

  /** One entry of a manifest's `artifacts` list. */
  datatype FileEntry = FileEntry(name: string, tag: string)

  /** One key of a parsed catalog's root object, in `Object.keys` order,
      with the `versions` attribute of its first element if there is one. */
  datatype Entry = Entry(name: string, versions: Option<string>)

  datatype Content =
    | Xml(root: string, entries: seq<Entry>)          // an XML document: root element name and its children
    | Json(artifacts: Option<seq<FileEntry>>)          // a JSON document, with its `artifacts` list if it has one
    | Unparsable                                       // neither

  /** The root element the top catalog is read from. */
  const MASTER_ROOT: string := "metadata"

  /** What the server does with a URL: the outcome of each successive
      attempt, and the body a 200 delivers. */
  datatype Endpoint = Endpoint(attempts: seq<Attempt>, body: Content)

  /** Endpoints on which the unbounded retry stops. */
  type Served = e: Endpoint | Terminates(e.attempts)
    witness Endpoint([Response(404, false)], Unparsable)

  /** The remote repository. A URL outside the map answers non-200 at once. */
  type Remote = map<string, Served>

  /** The reliable fetch of `url` ends with the body written locally. */
  predicate Delivers(remote: Remote, url: string) {
    url in remote && Reliable(remote[url].attempts).result
  }

  /** Group names of the top catalog: the keys of its `metadata` root.
      Any other document makes `Object.keys` throw. */
  function MasterGroups(c: Content): Option<seq<string>> {
    if c.Xml? && c.root == MASTER_ROOT then Some(seq(|c.entries|, i requires 0 <= i < |c.entries| => c.entries[i].name))
    else None
  }

  /** Artifact entries of a group catalog: its root must be named after
      the group, or the lookup `xmls[package]` is undefined and throws. */
  function GroupEntries(c: Content, group: string): Option<seq<Entry>> {
    if c.Xml? && c.root == group then Some(c.entries) else None
  }

  /** The file list of a manifest. Text that is not JSON makes the parse
      throw, and JSON without an `artifacts` list makes reading its length
      throw; both are failures. */
  function ManifestFiles(c: Content): Option<seq<FileEntry>> {
    if c.Json? then c.artifacts else None
  }

  /** The two files assumed for a version that publishes no manifest: a
      project descriptor and an Android archive, each named
      `<key>-<version>.<tag>`. */
  function FallbackFiles(key: string, version: string): (r: seq<FileEntry>)
    ensures |r| == 2 && r[0].tag == "pom" && r[1].tag == "aar"
    ensures forall k :: 0 <= k < |r| ==> r[k].name == key + "-" + version + "." + r[k].tag
  {
    [FileEntry(key + "-" + version + ".pom", "pom"), FileEntry(key + "-" + version + ".aar", "aar")]
  }
}
