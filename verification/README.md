# google-maven-downloader, modelled in Dafny

The mirror walks Google's Maven repository depth first and copies it into a
local directory tree:

- it fetches the top catalog (`master-index.xml`);
- for each group it fetches the group catalog (`group-index.xml`);
- for each artifact it splits the version list on `,`;
- for each version it fetches the version's manifest (`artifact-metadata.json`), or assumes a `.pom`/`.aar` pair when there is none;
- it then requests every listed file.

Every fetch goes through a reliable fetcher, which retries transport failures until some attempt is definitive. Every directory is staged by wiping it and creating it again. Scratch copies of the catalogs and manifests are deleted once they have been used.

The project models that engine as pure functions. It proves that:
- the engine's trace of effects follows an independently written expansion of the catalogs;
- files land where the mirror's layout puts them;
- scratch copies are deleted exactly when the source deletes them.

Modules, one per file:

- `Fetcher` (fetcher.dfy) covers one HTTPS attempt, reduced to what the mirror observes of it (a request error, or a status code and whether the 200 body stream broke). It also holds the `do … while` retry loop over a finite script of attempts.
- `Paths` (paths.dfy) holds the string building blocks. These are joining with `/`, turning a group's dots into slashes, and `String.prototype.split` on one character together with its inverse.
- `Layout` (layout.dfy) holds the fixed constants. It also gives the path and URL of every file in the mirror, each written out in one piece.
- `Staging` (staging.dfy) models `makeDirectory` on an abstract file system, the set of paths that exist.
- `Catalog` (catalog.dfy) models the remote repository as a map from URL to a script of attempts and an already parsed body. It also holds the fields the mirror reads from each parsed document and the fallback file pair.
- `Traversal` (traversal.dfy) has one function per source function (`getMetaData`, `getArtifacts`, `parseGroupIndex`, …). Each yields the ordered trace of effects it issues:
  - staging a directory;
  - an awaited fetch and its result;
  - deleting a file;
  - a per-file download request.

  An exception thrown inside a loop is a run whose `ok` flag is unset, and the `try` blocks of `parseGroupIndex` and `parseMasterIndex` end the run there.
- `Trace` (trace.dfy) holds the layout lemmas: where requests land and what may be deleted.
- `Plan` (plan.dfy) defines what a run is meant to request, independently of the traversal. It is the catalogs expanded depth first, with the parts that fail to resolve contributing nothing. The lemmas relate each loop of the traversal to that expansion.
- `Scenario` (scenario.dfy) is the smallest complete run, for any names: one group, one artifact, one version, no manifest.

## Model

| member | source | states |
|---|---|---|
| Fetcher.GetRemoteFile | src/main.js:20-58 | `status` is set exactly when the attempt is not a transport failure (a request error, or a 200 whose stream broke). `result` is set exactly when a 200 body was streamed to its end. Any other status code is a definitive `{true, false}`. |
| Fetcher.Reliable | src/main.js:60-66 | The retry stops at an attempt that is not a transport failure. Every earlier attempt was one. The result is whether that attempt delivered the body. |
| Fetcher.GetRemoteFileReliable | src/main.js:60-66 | The `do … while (status == false)` loop returns the same result and attempt count as the reference `Reliable`. |
| Fetcher.SameFirstDefinitive | src/main.js:60-66 | The stopping point is unique: any definitive attempt that follows only transport failures is the one the retry stops at, with its delivery as the result. |
| Fetcher.RetryUntilSuccess | src/main.js:60-66 | N transport failures followed by a delivered body give success after exactly N + 1 attempts. |
| Fetcher.AbsenceEndsRetry | src/main.js:41-47 | A non-200 first answer gives "absent" after exactly one attempt, with no retry. |
| Fetcher.PartialFileNeedsBrokenStream | src/main.js:22-47 | When the retry reports "absent", a destination file was opened exactly when some attempt before the last was a 200 whose stream broke. |
| Fetcher.AbsenceCanLeavePartialFile | src/main.js:22-32 | A 200 whose stream breaks, then a 404, reports "absent" after two attempts. The first attempt still opened the destination file. |
| Staging.MakeDirectory | src/main.js:14-18 | Afterwards the directory exists and nothing lies beneath it. Every path outside it is present exactly when it was before. |
| Staging.StagingForgetsContents | src/main.js:14-18 | The result depends only on what lies outside the directory. |
| Staging.MakeDirectoryIdempotent | src/main.js:14-18 | Staging twice gives the same file system as staging once. |
| Staging.RestagingClearsWrites | src/main.js:14-18 | Files written beneath a staged directory are gone after staging it again. |
| Paths.Join | src/main.js:88 | Definition: one more `/`-separated segment on a path or URL. Where the joined paths land is proved in `Trace.MirrorLayout`. |
| Paths.ReplaceDots | src/main.js:100 | Same length as the input, every '.' becomes '/', and every other character stays in place. |
| Paths.ReplaceDotsInjective | src/main.js:100 | Two group names without '/' that give the same URL path are the same name. |
| Paths.Split | src/main.js:129 | There is one more segment than there are separators, and no segment holds the separator. |
| Paths.JoinSplit | src/main.js:129 | Joining the segments with the separator gives the original string back. |
| Paths.SplitJoin | src/main.js:129 | Segments free of the separator, empty ones included, are split back unchanged and in order. |
| Paths.SplitExample | src/main.js:129 | "1.0.0,1.1.0,2.0.0-beta" yields exactly those three versions, in that order. |
| Paths.SplitKeepsEmpty | src/main.js:129 | The empty string yields one empty version, and a doubled comma yields an empty version between its neighbours. |
| Catalog.Delivers | src/main.js:102-103 | Definition: the reliable fetch of a URL ends with `result == true`. Its meaning per attempt script is proved in `Fetcher.Reliable` and `Fetcher.SameFirstDefinitive`. |
| Catalog.MasterGroups | src/main.js:81-83 | Definition: the keys of a parsed top catalog's `metadata` root, or a throw for any other document. `Plan.MirrorFollowsPlan` proves that the run's group traces follow these keys in order, and that the top catalog's copy is deleted exactly when they exist. |
| Catalog.GroupEntries | src/main.js:109-111 | Definition: the keys of a group catalog whose root is named after the group, or a throw otherwise. `Plan.CatalogFollowsPlan` proves that the artifact loop follows these entries, and that the group ends normally only when they exist. |
| Catalog.ManifestFiles | src/main.js:152-154 | Definition: the `artifacts` list of a JSON manifest, or a throw. `Plan.VersionResolves` proves that a delivered manifest's list is exactly what the version requests. |
| Catalog.FallbackFiles | src/main.js:156-161 | Exactly two files, tagged `pom` then `aar`, each named `<artifact>-<version>.<tag>`. |
| Traversal.GetMasterIndex | src/main.js:68-77 | A run always begins by staging the root and fetching the top catalog into it. When the top catalog is absent, the run ends right there. |
| Traversal.ParseMasterIndex | src/main.js:79-96 | A top catalog that does not parse leads to nothing further. One that parses ends with its copy being deleted, after the group loop. |
| Traversal.GroupsSteps | src/main.js:86-91 | Definition: the group loop, every listed group in catalog order. `Plan.GroupsInOrder` proves that it is the groups' own traces laid end to end, and `Plan.GroupsFollowPlan` relates it to the expansion. |
| Traversal.GroupSteps | src/main.js:86-90 | Each group's work begins by staging the group's directory, named with the dotted group name, and then fetches the group catalog into that directory from the URL with dots as slashes, with the reliable fetch's result. |
| Traversal.GetGroupIndex | src/main.js:98-105 | The group catalog is fetched into the dotted directory from the URL with dots as slashes. When it is absent, that fetch is the group's only effect. |
| Traversal.ParseGroupIndex | src/main.js:107-126 | Definition: parse the group catalog, walk its artifacts, and delete the copy when the loop ended normally. `Trace.GroupLayout` and `Plan.CatalogFollowsPlan` prove when the copy is deleted and what is requested. |
| Traversal.ArtifactsRun | src/main.js:114-121 | Definition: the artifact loop, ending at the first artifact that throws. `Plan.ArtifactsFollowPlan` proves that it requests a prefix of the group's expansion, and all of it exactly when every entry is good. |
| Traversal.GetArtifacts | src/main.js:128-129 | Definition: split the `versions` attribute on `,` and walk the versions; a missing attribute throws. `Trace.ArtifactStaging` and `Plan.ArtifactResolves` prove what it stages and requests. |
| Traversal.VersionsRun | src/main.js:130-143 | Definition: the version loop, ending at the first manifest that does not parse. `Trace.VersionsStaged` and `Plan.VersionsFollowPlan` prove what it stages and requests. |
| Traversal.GetMetaData | src/main.js:146-163 | The lookup first fetches the manifest and never downloads. The manifest copy is deleted exactly when it was delivered, as the last step. The files come from the manifest when it was delivered, and are the fallback pair otherwise. |
| Traversal.DownloadAll | src/main.js:139-142 | One request per listed file, in list order. Each is labelled with the group, artifact, version and file name it serves. |
| Traversal.DownloadArtifact | src/main.js:165-168 | Definition: one per-file request, to the file's name under the version directory and the version URL. `Trace.MirrorLayout` proves that every such request of a run sits at the mirror's layout for its coordinate. |
| Trace.MetaLayout | src/main.js:146-154 | The manifest lookup deletes nothing except the manifest copy inside its own version directory. |
| Trace.DownloadAllLayout | src/main.js:139-142 | Every request of a version is one of its files, written below the version directory and fetched below the version URL. |
| Trace.VersionsStaged | src/main.js:130-133 | The version loop stages the version directories one by one, in list order. It stages a prefix of them, and all of them when it ends normally. |
| Trace.ArtifactStaging | src/main.js:128-133 | An entry without a version list throws before staging or fetching anything. Otherwise the directories staged are a prefix of the directories of the versions the list splits into, in order, and all of them when nothing throws. |
| Trace.VersionsLayout | src/main.js:128-144 | The version loop deletes only manifest copies inside the artifact directory. Each request sits at `version/name` below the artifact's directory and URL, and is labelled with the group and artifact. |
| Trace.ArtifactsLayout | src/main.js:107-126 | The artifact loop deletes only manifest copies inside the group directory. Each request sits at `artifact/version/name` below the group's directory and URL. |
| Trace.GroupLayout | src/main.js:98-126 | A group's catalog copy is deleted exactly when the catalog arrived, parsed, and its whole artifact loop ran without throwing. The deletion is then the group's last step, after the artifact loop. All deletions stay inside the group directory. Every request sits at its place in the mirror layout. |
| Trace.GroupsLayout | src/main.js:86-91 | The group loop never deletes the top catalog's copy. Every request belongs to a listed group and sits at its place in the layout. |
| Trace.MirrorLayout | src/main.js:165-168 | Every download of a run is written to `ROOT/group/artifact/version/name` and fetched from `MAVEN_URL/<group, dots as slashes>/artifact/version/name`. |
| Plan.VersionResolves | src/main.js:146-163 | The manifest lookup resolves to the reference file list for the version's manifest URL: the manifest's list when it is delivered, the fallback pair when it is absent. The version requests exactly those files. |
| Plan.VersionsRunCons | src/main.js:130-143 | A version that resolves contributes its files and hands over to the next version. One whose manifest does not parse throws, having requested nothing. |
| Plan.VersionsFollowPlan | src/main.js:128-144 | The version loop requests a prefix of the expansion of its versions. It ends normally exactly when every version resolves, and then requests all of it. |
| Plan.ArtifactResolves | src/main.js:119-129 | An artifact requests a prefix of its expansion. It ends normally exactly when it has a version list and every version resolves, and then requests all of it. |
| Plan.ArtifactsRunCons | src/main.js:114-121 | A good artifact contributes its whole expansion and hands over to the next. A failing one ends the loop after a prefix of its own expansion. |
| Plan.ArtifactsFollowPlan | src/main.js:107-126 | The artifact loop requests a prefix of the group's expansion. It ends normally exactly when every entry is good, and then requests all of it. |
| Plan.CatalogFollowsPlan | src/main.js:107-126 | A delivered group catalog gives a prefix of the group's expansion. The group is free of failures exactly when the catalog parses and its artifact loop ends normally, and then all of the expansion is requested. |
| Plan.GroupFollowsPlan | src/main.js:98-126 | A group requests a prefix of its expansion. Its catalog copy is deleted exactly when the catalog arrives and nothing in the group throws. A group is free of throws exactly when its catalog copy is deleted whenever the catalog arrived. Such a group requests its whole expansion, whether or not its catalog arrived. |
| Plan.AbsentCatalogSkipped | src/main.js:102-104 | A listed group whose catalog is absent is skipped without throwing. It requests nothing and its expansion is empty. |
| Plan.GroupsInOrder | src/main.js:86-91 | The group loop is the groups' own traces, one after the other in catalog order. No group's failure affects the next. |
| Plan.GroupsFollowPlan | src/main.js:86-91 | When no group throws, the group loop requests the groups' expansions one after the other. Groups whose catalog is absent count as not throwing. |
| Plan.MirrorRequestsPlan | src/main.js:68-96 | When no listed group throws, a run requests exactly the depth-first expansion of the catalogs. Groups whose catalog is absent count as not throwing. |
| Plan.MirrorFollowsTop | src/main.js:68-96 | The top catalog's copy is deleted exactly when it arrives and parses. An absent or unparsable top catalog requests nothing. Otherwise the run is staging, fetch, each group's trace in order, then the deletion. |
| Plan.MirrorFollowsPlan | src/main.js:68-96 | Everything `Plan.MirrorFollowsTop` states holds. In addition, when no listed group throws, the run requests exactly the expansion of the catalogs. |
| Scenario.SingleGroupRun | src/main.js:79-96 | With a single listed group, a run is that group's trace between the top catalog's fetch and its deletion. |
| Scenario.SingleFallbackPlan | src/main.js:156-161 | One group, one artifact, one version without a manifest: the expansion is exactly `<a>-<v>.pom` and `<a>-<v>.aar`, and nothing throws. |
| Scenario.SingleFallbackRun | src/main.js:68-169 | Such a run requests exactly those two files and deletes both the top catalog's copy and the group catalog's copy. |
| Scenario.SingleFallbackPlacement | src/main.js:165-168 | The descriptor is written under the dotted group directory and fetched from the URL with the dots as slashes. |

## Behaviour worth knowing

- **Partial files.** A 200 response opens the destination file before streaming. If the stream breaks and the retry then ends on a 404, the fetch reports "absent" and the partial file stays on disk. `Fetcher.PartialFileNeedsBrokenStream` shows this is the only way an "absent" fetch leaves a file, and `Fetcher.AbsenceCanLeavePartialFile` gives an instance.
- **How far a failure reaches.** The `try` of `parseGroupIndex` encloses the whole artifact loop. So any of these ends that group's loop and skips its later artifacts:
  - a version list that is missing;
  - a manifest that does not parse;
  - a manifest without an `artifacts` list.

  The group's catalog copy then stays on disk (`Trace.GroupLayout`, `Plan.ArtifactsRunCons`). Later groups still run (`Plan.GroupsInOrder`).
- **Absent group catalogs.** A listed group whose catalog answers non-200 is skipped without an exception and requests nothing (`Plan.AbsentCatalogSkipped`).
- **Manifest deletion.** A delivered manifest is deleted before it is parsed, so a manifest that fails to parse is deleted all the same. `Traversal.GetMetaData` ties the deletion to delivery alone, not to the parse.
- **Per-file fetches.** `downloadArtifact` is called without `await`. Those fetches overlap with the rest of the walk and with each other, and their outcome is never looked at. The model records them in the order they are issued.

## Left out

- Network, disk and console I/O: a fetch's effect on the disk is the `Fetch` or `Download` step in the trace, and file contents are not modelled.
- Parsing: bodies come already parsed (`Catalog.Content`). Behaviour of the XML parser is not modelled: merging repeated child elements, the `$` and `_` keys, and unusual element names.
- Concurrency: per-file downloads are un-awaited promises; only their issue order is modelled, not their completion, their interleaving, or their own retries.
- Unbounded retry: a remote endpoint is a finite script of attempts that reaches a definitive answer (`Catalog.Served`). A host that fails forever, or an attempt that never settles (the request has no timeout), makes the source hang and is outside the model.
- File-system errors (a `mkdirSync` whose parent is missing, permissions, `rmSync` of a missing file) and path normalisation (`..`, repeated `/`) are not modelled. Paths are plain strings.
- Staging.MakeDirectory: the abstraction is syntactic on path strings, and `mkdirSync` never fails in it. Two cases where the real file system differs reach the traversal through version names:
  - A version holding `/`, such as `1.0/rc`, stages `<artifact dir>/1.0/rc`, whose parent was never created. The non-recursive `mkdirSync` then throws, the catch in `parseGroupIndex` abandons the group, and its catalog copy stays on disk. `Traversal.VersionsRun` instead carries on, and `Plan.GroupFollowsPlan` predicts that the copy is deleted.
  - An empty version, which the split keeps (`Paths.SplitKeepsEmpty`), stages `<artifact dir>/`. The file system resolves that to the artifact directory itself, so staging it wipes the versions staged before it. The model treats `<artifact dir>/` as a new path.
  - A name that collides with a scratch copy is not noticed either. A group named `master-index.xml` is staged over the top catalog's copy, so the later `rmSync` of that copy meets a directory and throws, and the catch swallows the error. The model emits `Remove(MASTER_PATH)` all the same, and `Trace.GroupsLayout` says the group loop never deletes it. An artifact named `group-index.xml` does the same to its group's catalog copy.
- Manifest entries are taken as given: an entry without a `name`, or an `artifacts` value that is not a list, is not modelled.
- The logging calls and the commented-out debugging lines are left out.
