/** Where the effects of a run land. Every download request is written to
    `ROOT/group/artifact/version/name` and fetched from
    `MAVEN_URL/<group with dots as slashes>/artifact/version/name`; every
    deletion inside a group is of a scratch copy inside that group's
    directory, so deleting a group catalog or the top catalog can only come
    from the step that is meant to do it. */
module Trace {
  import opened Paths
  import opened Layout
  import opened Catalog
  import opened Staging
  import opened Traversal

  predicate EndsWith(s: string, suffix: string) {
    |suffix| <= |s| && s[|s| - |suffix|..] == suffix
  }

  /** A path that names a local copy of a manifest. */
  predicate ManifestCopy(p: string) {
    EndsWith(p, "/" + MANIFEST_JSON)
  }

  /** Every deletion in `steps` is of a manifest copy. */
  predicate RemovesManifests(steps: seq<Step>) {
    forall s :: s in steps && s.Remove? ==> ManifestCopy(s.path)
  }

  /** Every deletion in `steps` is of something inside directory `dir`. */
  predicate RemovesBeneath(steps: seq<Step>, dir: string) {
    forall s :: s in steps && s.Remove? ==> Beneath(s.path, dir)
  }

  lemma BeneathAppend(d: string, rest: string)
    ensures Beneath(d + "/" + rest, d)
  {
    assert (d + "/" + rest)[..|d + "/"|] == d + "/";
  }

  /** Inside `d + "/" + x` is inside `d`. */
  lemma BeneathNested(steps: seq<Step>, d: string, x: string)
    requires RemovesBeneath(steps, d + "/" + x)
    ensures RemovesBeneath(steps, d)
  {
    forall s | s in steps && s.Remove?
      ensures Beneath(s.path, d)
    {
      assert s.path[..|d + "/"|] == (d + "/" + x + "/")[..|d + "/"|] == d + "/";
    }
  }

  /** The copy of a group catalog lies in the group directory and is not
      a manifest copy. */
  lemma GroupIndexCopy(groupDir: string)
    ensures Beneath(Join(groupDir, GROUP_XML), groupDir)
    ensures !ManifestCopy(Join(groupDir, GROUP_XML))
  {
    BeneathAppend(groupDir, GROUP_XML);
    var p := Join(groupDir, GROUP_XML);
    assert p[|p| - 1] == 'l';
  }

  /** The top catalog's copy never lies inside a group directory: its name
      holds no '/'. */
  lemma MasterOutsideGroups(g: string)
    ensures !Beneath(MASTER_PATH, GroupDir(g))
  {
    var n := |ROOT_DIR| + 1 + |g|;
    if n < |MASTER_PATH| {
      assert MASTER_PATH[n] == MASTER_XML[|g|];
      assert (GroupDir(g) + "/")[n] == '/';
    }
  }

  /** The per-file loop of a version: each request is the file of that
      version, below the version's directory and URL. */
  lemma DownloadAllLayout(versionDir: string, versionUrl: string, g: string, a: string, v: string,
                          files: seq<FileEntry>)
    ensures forall s :: s in DownloadAll(versionDir, versionUrl, g, a, v, files) ==>
      && s.Download? && s.at.group == g && s.at.artifact == a && s.at.version == v
      && s.path == versionDir + "/" + s.at.name && s.url == versionUrl + "/" + s.at.name
  {
    var r := DownloadAll(versionDir, versionUrl, g, a, v, files);
    forall s | s in r
      ensures s.Download? && s.at.group == g && s.at.artifact == a && s.at.version == v
      ensures s.path == versionDir + "/" + s.at.name && s.url == versionUrl + "/" + s.at.name
    {
      var j :| 0 <= j < |r| && r[j] == s;
      assert s == DownloadArtifact(versionDir, versionUrl, Coord(g, a, v, files[j].name));
    }
  }

  /** The manifest lookup deletes nothing but the manifest copy of its
      version directory. */
  lemma MetaLayout(remote: Remote, versionDir: string, versionUrl: string, key: string, version: string)
    ensures var r := GetMetaData(remote, versionDir, versionUrl, key, version);
      RemovesManifests(r.steps) && RemovesBeneath(r.steps, versionDir)
  {
    var path := Join(versionDir, MANIFEST_JSON);
    assert ManifestCopy(path) by {
      assert path == versionDir + ("/" + MANIFEST_JSON);
      var suffix := "/" + MANIFEST_JSON;
      assert path[|path| - |suffix|..] == suffix;
    }
    BeneathAppend(versionDir, MANIFEST_JSON);
  }

  /** The version loop of an artifact: each request is the file of one of
      its versions, below the artifact's directory and URL; it deletes
      only manifest copies inside the artifact directory. */
  lemma {:induction false} VersionsLayout(remote: Remote, artDir: string, artUrl: string, g: string,
                                         key: string, vs: seq<string>)
    ensures var r := VersionsRun(remote, artDir, artUrl, g, key, vs);
      && RemovesManifests(r.steps) && RemovesBeneath(r.steps, artDir)
      && forall s :: s in r.steps && s.Download? ==>
           && s.at.group == g && s.at.artifact == key
           && s.path == artDir + "/" + s.at.version + "/" + s.at.name
           && s.url == artUrl + "/" + s.at.version + "/" + s.at.name
    decreases |vs|
  {
    if |vs| > 0 {
      var v := vs[0];
      var versionDir, versionUrl := Join(artDir, v), Join(artUrl, v);
      var meta := GetMetaData(remote, versionDir, versionUrl, key, v);
      MetaLayout(remote, versionDir, versionUrl, key, v);
      BeneathNested(meta.steps, artDir, v);
      if meta.files.Some? {
        DownloadAllLayout(versionDir, versionUrl, g, key, v, meta.files.value);
      }
      VersionsLayout(remote, artDir, artUrl, g, key, vs[1..]);
    }
  }

  /** The directories a trace stages, in order. */
  function Staged(steps: seq<Step>): seq<string> {
    if |steps| == 0 then []
    else (if steps[0].MakeDir? then [steps[0].dir] else []) + Staged(steps[1..])
  }

  lemma {:induction false} StagedAppend(a: seq<Step>, b: seq<Step>)
    ensures Staged(a + b) == Staged(a) + Staged(b)
    decreases |a|
  {
    if |a| > 0 {
      assert (a + b)[1..] == a[1..] + b;
      StagedAppend(a[1..], b);
    } else {
      assert a + b == b;
    }
  }

  lemma {:induction false} StagedNone(s: seq<Step>)
    requires forall i :: 0 <= i < |s| ==> !s[i].MakeDir?
    ensures Staged(s) == []
    decreases |s|
  {
    if |s| > 0 {
      StagedNone(s[1..]);
    }
  }

  /** The version directories of an artifact, in list order. */
  function VersionDirs(artDir: string, vs: seq<string>): seq<string> {
    seq(|vs|, k requires 0 <= k < |vs| => Join(artDir, vs[k]))
  }

  /** The version loop stages the version directories one by one, in list
      order: a prefix of them, and all of them when it ends normally. */
  lemma {:induction false} VersionsStaged(remote: Remote, artDir: string, artUrl: string, g: string,
                                         key: string, vs: seq<string>)
    ensures var r := VersionsRun(remote, artDir, artUrl, g, key, vs);
      && Staged(r.steps) <= VersionDirs(artDir, vs)
      && (r.ok ==> Staged(r.steps) == VersionDirs(artDir, vs))
    decreases |vs|
  {
    var r := VersionsRun(remote, artDir, artUrl, g, key, vs);
    if |vs| > 0 {
      var v := vs[0];
      var versionDir, versionUrl := Join(artDir, v), Join(artUrl, v);
      var meta := GetMetaData(remote, versionDir, versionUrl, key, v);
      StagedNone(meta.steps);
      StagedAppend([MakeDir(versionDir)], meta.steps);
      var head := [MakeDir(versionDir)] + meta.steps;
      assert Staged(head) == [versionDir];
      assert VersionDirs(artDir, vs) == [versionDir] + VersionDirs(artDir, vs[1..]);
      if meta.files.Some? {
        var downloads := DownloadAll(versionDir, versionUrl, g, key, v, meta.files.value);
        var rest := VersionsRun(remote, artDir, artUrl, g, key, vs[1..]);
        StagedNone(downloads);
        StagedAppend(head, downloads);
        StagedAppend(head + downloads, rest.steps);
        VersionsStaged(remote, artDir, artUrl, g, key, vs[1..]);
      }
    }
  }

  /** An artifact without a version list throws before it stages or
      fetches anything; otherwise it stages the directories of the
      versions its list splits into, in order. */
  lemma ArtifactStaging(remote: Remote, artDir: string, versions: Option<string>, artUrl: string,
                        g: string, key: string)
    ensures var r := GetArtifacts(remote, artDir, versions, artUrl, g, key);
      && (versions.None? ==> r.steps == [] && !r.ok)
      && (versions.Some? ==> Staged(r.steps) <= VersionDirs(artDir, Split(versions.value, ',')))
      && (versions.Some? && r.ok ==> Staged(r.steps) == VersionDirs(artDir, Split(versions.value, ',')))
  {
    if versions.Some? {
      VersionsStaged(remote, artDir, artUrl, g, key, Split(versions.value, ','));
    }
  }

  /** The artifact loop of a group: each request is below the group's
      directory and URL, under its artifact and version; it deletes only
      manifest copies inside the group directory. */
  lemma {:induction false} ArtifactsLayout(remote: Remote, groupDir: string, groupUrl: string, g: string,
                                          es: seq<Entry>)
    ensures var r := ArtifactsRun(remote, groupDir, groupUrl, g, es);
      && RemovesManifests(r.steps) && RemovesBeneath(r.steps, groupDir)
      && forall s :: s in r.steps && s.Download? ==>
           && s.at.group == g
           && s.path == groupDir + "/" + s.at.artifact + "/" + s.at.version + "/" + s.at.name
           && s.url == groupUrl + "/" + s.at.artifact + "/" + s.at.version + "/" + s.at.name
    decreases |es|
  {
    if |es| > 0 {
      var key := es[0].name;
      var artDir, artUrl := Join(groupDir, key), Join(groupUrl, key);
      var art := GetArtifacts(remote, artDir, es[0].versions, artUrl, g, key);
      if es[0].versions.Some? {
        VersionsLayout(remote, artDir, artUrl, g, key, Split(es[0].versions.value, ','));
      }
      BeneathNested(art.steps, groupDir, key);
      ArtifactsLayout(remote, groupDir, groupUrl, g, es[1..]);
    }
  }

  /** One group: its catalog copy is deleted exactly when the catalog
      arrived, parsed, and its whole artifact loop ran without throwing,
      and then as the group's last step;
      every request of the group is at its place in the mirror layout. */
  lemma GroupLayout(remote: Remote, key: string)
    ensures var r := GroupSteps(remote, key);
      var url := GroupIndexUrl(key);
      && (Remove(GroupIndexPath(key)) in r <==>
            && Delivers(remote, url)
            && GroupEntries(remote[url].body, key).Some?
            && ArtifactsRun(remote, GroupDir(key), GroupUrl(key), key, GroupEntries(remote[url].body, key).value).ok)
      && (Remove(GroupIndexPath(key)) in r ==> r[|r| - 1] == Remove(GroupIndexPath(key)))
      && RemovesBeneath(r, GroupDir(key))
      && forall s :: s in r && s.Download? ==>
           s.at.group == key && s.path == LocalFile(s.at) && s.url == RemoteFile(s.at)
  {
    var groupDir, groupUrl := Join(ROOT_DIR, key), Join(MAVEN_URL, ReplaceDots(key));
    var fileName, url := Join(groupDir, GROUP_XML), Join(groupUrl, GROUP_XML);
    assert fileName == GroupIndexPath(key) && url == GroupIndexUrl(key);
    GroupIndexCopy(groupDir);
    if Delivers(remote, url) {
      var entries := GroupEntries(remote[url].body, key);
      if entries.Some? {
        var run := ArtifactsRun(remote, groupDir, groupUrl, key, entries.value);
        ArtifactsLayout(remote, groupDir, groupUrl, key, entries.value);
        assert Remove(fileName) in run.steps ==> ManifestCopy(fileName);
      }
    }
  }

  /** The group loop: every request is at its place in the mirror layout
      and belongs to a listed group, and the top catalog's copy is never
      deleted inside it. */
  lemma {:induction false} GroupsLayout(remote: Remote, keys: seq<string>)
    ensures var r := GroupsSteps(remote, keys);
      && Remove(MASTER_PATH) !in r
      && forall s :: s in r && s.Download? ==>
           s.at.group in keys && s.path == LocalFile(s.at) && s.url == RemoteFile(s.at)
    decreases |keys|
  {
    if |keys| > 0 {
      GroupLayout(remote, keys[0]);
      MasterOutsideGroups(keys[0]);
      GroupsLayout(remote, keys[1..]);
    }
  }

  /** A whole run: every download request is written to the place the
      mirror layout gives its coordinate, from the URL it gives. */
  lemma MirrorLayout(remote: Remote)
    ensures forall s :: s in GetMasterIndex(remote) && s.Download? ==>
      s.path == LocalFile(s.at) && s.url == RemoteFile(s.at)
  {
    if Delivers(remote, MASTER_URL) {
      var groups := MasterGroups(remote[MASTER_URL].body);
      if groups.Some? {
        GroupsLayout(remote, groups.value);
      }
    }
  }
}
