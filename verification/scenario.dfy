/** The smallest complete mirror run, worked out for any names: a top
    catalog listing one group, whose catalog lists one artifact with one
    version, which publishes no manifest. */
module Scenario {
  import opened Paths
  import opened Layout
  import opened Catalog
  import opened Traversal
  import opened Plan

  /** The remote of such a run. */
  predicate SingleFallback(remote: Remote, g: string, a: string, v: string) {
    && GroupsOf(remote) == Some([g])
    && CatalogOf(remote, g) == Some([Entry(a, Some(v))])
    && ',' !in v
    && !Delivers(remote, ManifestUrl(g, a, v))
  }

  /** The version resolves to the fallback pair. */
  lemma SingleFallbackPlan(remote: Remote, g: string, a: string, v: string)
    requires SingleFallback(remote, g, a, v)
    ensures MirrorPlan(remote) == [Coord(g, a, v, a + "-" + v + ".pom"), Coord(g, a, v, a + "-" + v + ".aar")]
    ensures GroupOk(remote, g) && MirrorClean(remote)
  {
    var files := [Coord(g, a, v, a + "-" + v + ".pom"), Coord(g, a, v, a + "-" + v + ".aar")];
    var e := Entry(a, Some(v));
    SplitPlain(v, ',');
    assert VersionPlan(remote, g, a, v) == files;
    assert VersionPlans(remote, g, a, [v]) == [files];
    assert Flatten([files]) == files;
    assert ArtifactPlan(remote, g, e) == files;
    assert ArtifactPlans(remote, g, [e]) == [files];
    assert GroupPlan(remote, g) == files;
    assert GroupPlans(remote, [g]) == [files];
  }

  /** A top catalog with a single group: the run is that group's trace
      between the top catalog's fetch and its deletion. */
  lemma SingleGroupRun(remote: Remote, g: string)
    requires GroupsOf(remote) == Some([g])
    ensures GetMasterIndex(remote)
      == [MakeDir(ROOT_DIR), Fetch(MASTER_PATH, MASTER_URL, true)] + GroupSteps(remote, g) + [Remove(MASTER_PATH)]
  {
    MirrorUnfold(remote);
    assert GroupsSteps(remote, [g]) == GroupSteps(remote, g) + GroupsSteps(remote, []);
  }

  /** Such a run requests exactly the project descriptor and the archive
      named after the artifact and version, and deletes both catalog
      copies. */
  lemma SingleFallbackRun(remote: Remote, g: string, a: string, v: string)
    requires SingleFallback(remote, g, a, v)
    ensures var steps := GetMasterIndex(remote);
      && Requests(steps) == [Coord(g, a, v, a + "-" + v + ".pom"), Coord(g, a, v, a + "-" + v + ".aar")]
      && Remove(MASTER_PATH) in steps
      && Remove(GroupIndexPath(g)) in steps
  {
    SingleFallbackPlan(remote, g, a, v);
    MirrorFollowsPlan(remote);
    GroupFollowsPlan(remote, g);
    SingleGroupRun(remote, g);
  }

  /** The descriptor is written under the dotted group directory and
      fetched from the slashed group URL. */
  lemma SingleFallbackPlacement(remote: Remote, g: string, a: string, v: string)
    requires SingleFallback(remote, g, a, v)
    ensures var name := a + "-" + v + ".pom";
      Download(Coord(g, a, v, name),
               ROOT_DIR + "/" + g + "/" + a + "/" + v + "/" + name,
               MAVEN_URL + "/" + ReplaceDots(g) + "/" + a + "/" + v + "/" + name)
      in GetMasterIndex(remote)
  {
    var pom := Coord(g, a, v, a + "-" + v + ".pom");
    SingleFallbackRun(remote, g, a, v);
    Trace.MirrorLayout(remote);
    assert Requests(GetMasterIndex(remote))[0] == pom;
    RequestPlaced(GetMasterIndex(remote), pom);
  }
}
