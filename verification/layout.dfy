/** The fixed constants of the mirror and the layout it produces, each path
    and URL written out in one piece: a mirrored file of group `g`,
    artifact `a`, version `v` and name `n` lives at `ROOT/g/a/v/n` locally
    and at `MAVEN_URL/<g with dots as slashes>/a/v/n` remotely. */
module Layout {
  import opened Paths

  const MAVEN_URL: string := "https://dl.google.com/android/maven2"
  const MASTER_XML: string := "master-index.xml"
  const GROUP_XML: string := "group-index.xml"
  const ROOT_DIR: string := "google_maven"
  const MANIFEST_JSON: string := "artifact-metadata.json"

  /** Where a requested file sits in the catalog hierarchy. */
  datatype Coord = Coord(group: string, artifact: string, version: string, name: string)

  const MASTER_PATH: string := ROOT_DIR + "/" + MASTER_XML
  const MASTER_URL: string := MAVEN_URL + "/" + MASTER_XML

  function GroupDir(g: string): string {
    ROOT_DIR + "/" + g
  }

  function GroupUrl(g: string): string {
    MAVEN_URL + "/" + ReplaceDots(g)
  }

  function GroupIndexPath(g: string): string {
    ROOT_DIR + "/" + g + "/" + GROUP_XML
  }

  function GroupIndexUrl(g: string): string {
    MAVEN_URL + "/" + ReplaceDots(g) + "/" + GROUP_XML
  }

  function ManifestUrl(g: string, a: string, v: string): string {
    MAVEN_URL + "/" + ReplaceDots(g) + "/" + a + "/" + v + "/" + MANIFEST_JSON
  }

  function LocalFile(c: Coord): string {
    ROOT_DIR + "/" + c.group + "/" + c.artifact + "/" + c.version + "/" + c.name
  }

  function RemoteFile(c: Coord): string {
    MAVEN_URL + "/" + ReplaceDots(c.group) + "/" + c.artifact + "/" + c.version + "/" + c.name
  }
}
