/** What a run is meant to request, defined independently of the traversal:
    the catalogs expanded depth first (group, artifact, version, file), each
    level in the order its catalog lists it, with every part that fails to
    resolve contributing nothing. The lemmas relate the traversal's trace to
    this expansion: the requests issued for a group are a prefix of its
    expansion, all of it exactly when nothing in the group throws, and the
    run is the groups' traces one after the other. */
module Plan {
  import opened Paths
  import opened Layout
  import opened Catalog
  import opened Traversal
  import opened Trace

  /** The download requests of a trace, in issue order. */
  function Requests(steps: seq<Step>): seq<Coord> {
    if |steps| == 0 then []
    else (if steps[0].Download? then [steps[0].at] else []) + Requests(steps[1..])
  }

  function Flatten<T>(xss: seq<seq<T>>): seq<T> {
    if |xss| == 0 then [] else xss[0] + Flatten(xss[1..])
  }

  /** The files a version resolves to: its manifest's list when the
      manifest is delivered, the fallback pair otherwise. */
  function ResolvedFiles(remote: Remote, g: string, a: string, v: string): Option<seq<FileEntry>> {
    var url := ManifestUrl(g, a, v);
    if Delivers(remote, url) then ManifestFiles(remote[url].body) else Some(FallbackFiles(a, v))
  }

  function VersionPlan(remote: Remote, g: string, a: string, v: string): seq<Coord> {
    match ResolvedFiles(remote, g, a, v)
    case None => []
    case Some(files) => seq(|files|, j requires 0 <= j < |files| => Coord(g, a, v, files[j].name))
  }

  /** The expansions of the versions `vs` of one artifact, in list order. */
  function VersionPlans(remote: Remote, g: string, a: string, vs: seq<string>): seq<seq<Coord>> {
    seq(|vs|, k requires 0 <= k < |vs| => VersionPlan(remote, g, a, vs[k]))
  }

  function ArtifactPlan(remote: Remote, g: string, e: Entry): seq<Coord> {
    match e.versions
    case None => []
    case Some(list) => Flatten(VersionPlans(remote, g, e.name, Split(list, ',')))
  }

  /** The expansions of the artifact entries `es` of one group, in catalog order. */
  function ArtifactPlans(remote: Remote, g: string, es: seq<Entry>): seq<seq<Coord>> {
    seq(|es|, j requires 0 <= j < |es| => ArtifactPlan(remote, g, es[j]))
  }

  /** The artifact entries of a group's catalog, when it is delivered and parses. */
  function CatalogOf(remote: Remote, g: string): Option<seq<Entry>> {
    var url := GroupIndexUrl(g);
    if Delivers(remote, url) then GroupEntries(remote[url].body, g) else None
  }

  function GroupPlan(remote: Remote, g: string): seq<Coord> {
    match CatalogOf(remote, g)
    case None => []
    case Some(es) => Flatten(ArtifactPlans(remote, g, es))
  }

  /** The groups of the top catalog, when it is delivered and parses. */
  function GroupsOf(remote: Remote): Option<seq<string>> {
    if Delivers(remote, MASTER_URL) then MasterGroups(remote[MASTER_URL].body) else None
  }

  /** The expansions of the groups `gs`, in catalog order. */
  function GroupPlans(remote: Remote, gs: seq<string>): seq<seq<Coord>> {
    seq(|gs|, i requires 0 <= i < |gs| => GroupPlan(remote, gs[i]))
  }

  function MirrorPlan(remote: Remote): seq<Coord> {
    match GroupsOf(remote)
    case None => []
    case Some(gs) => Flatten(GroupPlans(remote, gs))
  }

  predicate VersionOk(remote: Remote, g: string, a: string, v: string) {
    ResolvedFiles(remote, g, a, v).Some?
  }

  predicate ArtifactOk(remote: Remote, g: string, e: Entry) {
    e.versions.Some? && forall v :: v in Split(e.versions.value, ',') ==> VersionOk(remote, g, e.name, v)
  }

  /** The group's catalog arrives and nothing in the group throws: the
      catalog parses, every entry has a version list, every delivered
      manifest parses. */
  predicate GroupOk(remote: Remote, g: string) {
    CatalogOf(remote, g).Some? && forall e :: e in CatalogOf(remote, g).value ==> ArtifactOk(remote, g, e)
  }

  /** Nothing in the group throws: its catalog is absent, so the group is
      skipped, or it arrives and the group is `GroupOk`. */
  predicate GroupClean(remote: Remote, g: string) {
    !Delivers(remote, GroupIndexUrl(g)) || GroupOk(remote, g)
  }

  /** No group listed by the top catalog throws. */
  predicate MirrorClean(remote: Remote) {
    forall g :: GroupsOf(remote).Some? && g in GroupsOf(remote).value ==> GroupClean(remote, g)
  }

  lemma {:induction false} RequestsAppend(a: seq<Step>, b: seq<Step>)
    ensures Requests(a + b) == Requests(a) + Requests(b)
    decreases |a|
  {
    if |a| > 0 {
      var x := if a[0].Download? then [a[0].at] else [];
      assert (a + b)[0] == a[0];
      assert (a + b)[1..] == a[1..] + b;
      assert Requests(a + b) == x + Requests(a[1..] + b);
      assert Requests(a) == x + Requests(a[1..]);
      RequestsAppend(a[1..], b);
    } else {
      assert a + b == b;
    }
  }

  /** A head that requests nothing, then the rest. */
  lemma RequestsSilentHead(head: seq<Step>, rest: seq<Step>)
    requires Requests(head) == []
    ensures Requests(head + rest) == Requests(rest)
  {
    RequestsAppend(head, rest);
  }

  /** A head that requests nothing, then requests, then a tail. */
  lemma RequestsCons(head: seq<Step>, middle: seq<Step>, tail: seq<Step>)
    requires Requests(head) == []
    ensures Requests(head + middle + tail) == Requests(middle) + Requests(tail)
  {
    RequestsAppend(head + middle, tail);
    RequestsAppend(head, middle);
  }

  /** Every request comes from a download step of the trace. */
  lemma {:induction false} RequestsMember(steps: seq<Step>, c: Coord)
    requires c in Requests(steps)
    ensures exists s :: s in steps && s.Download? && s.at == c
    decreases |steps|
  {
    if steps[0].Download? && steps[0].at == c {
      assert steps[0] in steps;
    } else {
      RequestsMember(steps[1..], c);
      var s :| s in steps[1..] && s.Download? && s.at == c;
      assert s in steps;
    }
  }

  /** In a trace whose downloads all sit at their place in the mirror
      layout, every request is the download of its coordinate's file. */
  lemma RequestPlaced(steps: seq<Step>, c: Coord)
    requires c in Requests(steps)
    requires forall s :: s in steps && s.Download? ==> s.path == LocalFile(s.at) && s.url == RemoteFile(s.at)
    ensures Download(c, LocalFile(c), RemoteFile(c)) in steps
  {
    RequestsMember(steps, c);
    var d :| d in steps && d.Download? && d.at == c;
    assert d == Download(c, LocalFile(c), RemoteFile(c));
  }

  lemma {:induction false} RequestsNone(s: seq<Step>)
    requires forall i :: 0 <= i < |s| ==> !s[i].Download?
    ensures Requests(s) == []
    decreases |s|
  {
    if |s| > 0 {
      RequestsNone(s[1..]);
    }
  }

  lemma {:induction false} RequestsAll(s: seq<Step>)
    requires forall i :: 0 <= i < |s| ==> s[i].Download?
    ensures Requests(s) == seq(|s|, i requires 0 <= i < |s| => s[i].at)
    decreases |s|
  {
    if |s| > 0 {
      RequestsAll(s[1..]);
    }
  }

  lemma {:induction false} RequestsFlatten(xss: seq<seq<Step>>)
    ensures Requests(Flatten(xss)) == Flatten(seq(|xss|, i requires 0 <= i < |xss| => Requests(xss[i])))
    decreases |xss|
  {
    if |xss| > 0 {
      RequestsAppend(xss[0], Flatten(xss[1..]));
      RequestsFlatten(xss[1..]);
      var f := seq(|xss|, i requires 0 <= i < |xss| => Requests(xss[i]));
      assert f[1..] == seq(|xss[1..]|, i requires 0 <= i < |xss[1..]| => Requests(xss[1..][i]));
    }
  }

  lemma PrefixExtend<T>(a: seq<T>, b: seq<T>, c: seq<T>)
    requires a <= b
    ensures a <= b + c
  {
    assert (b + c)[..|a|] == b[..|a|];
  }

  lemma PrefixShift<T>(p: seq<T>, a: seq<T>, b: seq<T>)
    requires a <= b
    ensures p + a <= p + b
  {
    assert (p + b)[..|p + a|] == p + b[..|a|];
  }

  /** One turn of a loop: `r` is the loop started at this turn and `next`
      the loop started at the next one. A good turn requests its `plan`
      and hands over to the next turn; a bad one throws after requesting a
      prefix of its plan. */
  predicate Turn(r: Run, next: Run, plan: seq<Coord>, good: bool) {
    if good then r.ok == next.ok && Requests(r.steps) == plan + Requests(next.steps)
    else !r.ok && Requests(r.steps) <= plan
  }

  /** A whole loop read turn by turn: `runs[i]` is the loop started at turn
      `i`, and the last entry the loop with no turns left. */
  predicate LoopTurns(runs: seq<Run>, plans: seq<seq<Coord>>, good: seq<bool>) {
    && |runs| == |plans| + 1 && |good| == |plans|
    && runs[|plans|] == Run([], true)
    && forall i :: 0 <= i < |plans| ==> Turn(runs[i], runs[i + 1], plans[i], good[i])
  }

  /** Such a loop requests a prefix of its plans laid end to end; it ends
      normally exactly when every turn is good, and then requests all of it. */
  lemma {:induction false} LoopFollowsPlan(runs: seq<Run>, plans: seq<seq<Coord>>, good: seq<bool>)
    requires LoopTurns(runs, plans, good)
    ensures Requests(runs[0].steps) <= Flatten(plans)
    ensures runs[0].ok <==> forall i :: 0 <= i < |good| ==> good[i]
    ensures runs[0].ok ==> Requests(runs[0].steps) == Flatten(plans)
    decreases |plans|
  {
    if |plans| > 0 {
      assert LoopTurns(runs[1..], plans[1..], good[1..]) by {
        forall i | 0 <= i < |plans| - 1
          ensures Turn(runs[1..][i], runs[1..][i + 1], plans[1..][i], good[1..][i])
        {
          assert Turn(runs[i + 1], runs[i + 2], plans[i + 1], good[i + 1]);
        }
      }
      LoopFollowsPlan(runs[1..], plans[1..], good[1..]);
      assert Turn(runs[0], runs[1], plans[0], good[0]);
      if good[0] {
        PrefixShift(plans[0], Requests(runs[1].steps), Flatten(plans[1..]));
        assert (forall i :: 0 <= i < |good| ==> good[i]) <==> (forall i :: 0 <= i < |good[1..]| ==> good[1..][i]) by {
          assert forall i :: 0 <= i < |good[1..]| ==> good[1..][i] == good[i + 1];
        }
      } else {
        PrefixExtend(Requests(runs[0].steps), plans[0], Flatten(plans[1..]));
      }
    } else {
      assert Requests(runs[0].steps) == [];
    }
  }

  /** One version: its manifest lookup resolves the files the reference
      expansion lists for it, and its requests are exactly those files. */
  lemma VersionResolves(remote: Remote, artDir: string, artUrl: string, g: string, a: string, v: string)
    requires artUrl == MAVEN_URL + "/" + ReplaceDots(g) + "/" + a
    ensures var meta := GetMetaData(remote, Join(artDir, v), Join(artUrl, v), a, v);
      && meta.files == ResolvedFiles(remote, g, a, v)
      && Requests([MakeDir(Join(artDir, v))] + meta.steps) == []
      && (meta.files.Some? ==>
            Requests(DownloadAll(Join(artDir, v), Join(artUrl, v), g, a, v, meta.files.value)) == VersionPlan(remote, g, a, v))
  {
    var meta := GetMetaData(remote, Join(artDir, v), Join(artUrl, v), a, v);
    assert Join(Join(artUrl, v), MANIFEST_JSON) == ManifestUrl(g, a, v);
    RequestsNone([MakeDir(Join(artDir, v))] + meta.steps);
    if meta.files.Some? {
      RequestsAll(DownloadAll(Join(artDir, v), Join(artUrl, v), g, a, v, meta.files.value));
    }
  }

  /** The version loop unrolled once. */
  lemma VersionsRunUnfold(remote: Remote, artDir: string, artUrl: string, g: string, a: string, vs: seq<string>)
    requires |vs| > 0
    ensures var versionDir, versionUrl := Join(artDir, vs[0]), Join(artUrl, vs[0]);
      var meta := GetMetaData(remote, versionDir, versionUrl, a, vs[0]);
      var r := VersionsRun(remote, artDir, artUrl, g, a, vs);
      var rest := VersionsRun(remote, artDir, artUrl, g, a, vs[1..]);
      && (meta.files.None? ==> r == Run([MakeDir(versionDir)] + meta.steps, false))
      && (meta.files.Some? ==>
            r == Run([MakeDir(versionDir)] + meta.steps + DownloadAll(versionDir, versionUrl, g, a, vs[0], meta.files.value)
                     + rest.steps, rest.ok))
  {
  }

  /** One turn of the version loop: a version that resolves contributes
      its files and hands over to the rest of the loop; one that does not
      ends the loop with nothing requested. */
  lemma VersionsRunCons(remote: Remote, artDir: string, artUrl: string, g: string, a: string, vs: seq<string>)
    requires |vs| > 0
    requires artUrl == MAVEN_URL + "/" + ReplaceDots(g) + "/" + a
    ensures var r := VersionsRun(remote, artDir, artUrl, g, a, vs);
      var rest := VersionsRun(remote, artDir, artUrl, g, a, vs[1..]);
      if VersionOk(remote, g, a, vs[0]) then
        r.ok == rest.ok && Requests(r.steps) == VersionPlan(remote, g, a, vs[0]) + Requests(rest.steps)
      else
        !r.ok && Requests(r.steps) == []
  {
    var v := vs[0];
    var versionDir, versionUrl := Join(artDir, v), Join(artUrl, v);
    var meta := GetMetaData(remote, versionDir, versionUrl, a, v);
    VersionResolves(remote, artDir, artUrl, g, a, v);
    VersionsRunUnfold(remote, artDir, artUrl, g, a, vs);
    if meta.files.Some? {
      RequestsCons([MakeDir(versionDir)] + meta.steps, DownloadAll(versionDir, versionUrl, g, a, v, meta.files.value),
                   VersionsRun(remote, artDir, artUrl, g, a, vs[1..]).steps);
    }
  }

  /** The version loop started at each turn, the last with no versions left. */
  function VersionRuns(remote: Remote, artDir: string, artUrl: string, g: string, a: string, vs: seq<string>): seq<Run> {
    seq(|vs| + 1, i requires 0 <= i <= |vs| => VersionsRun(remote, artDir, artUrl, g, a, vs[i..]))
  }

  function VersionGoods(remote: Remote, g: string, a: string, vs: seq<string>): seq<bool> {
    seq(|vs|, k requires 0 <= k < |vs| => VersionOk(remote, g, a, vs[k]))
  }

  /** Turn `i` of the version loop, read off the loop started there. */
  lemma VersionTurnAt(remote: Remote, artDir: string, artUrl: string, g: string, a: string, vs: seq<string>, i: nat)
    requires i < |vs|
    requires artUrl == MAVEN_URL + "/" + ReplaceDots(g) + "/" + a
    ensures Turn(VersionsRun(remote, artDir, artUrl, g, a, vs[i..]), VersionsRun(remote, artDir, artUrl, g, a, vs[i + 1..]),
                 VersionPlan(remote, g, a, vs[i]), VersionOk(remote, g, a, vs[i]))
  {
    VersionsRunCons(remote, artDir, artUrl, g, a, vs[i..]);
    assert vs[i..][0] == vs[i] && vs[i..][1..] == vs[i + 1..];
  }

  /** The version loop, turn by turn. */
  lemma VersionsTurns(remote: Remote, artDir: string, artUrl: string, g: string, a: string, vs: seq<string>)
    requires artUrl == MAVEN_URL + "/" + ReplaceDots(g) + "/" + a
    ensures LoopTurns(VersionRuns(remote, artDir, artUrl, g, a, vs), VersionPlans(remote, g, a, vs), VersionGoods(remote, g, a, vs))
  {
    var runs, plans, good := VersionRuns(remote, artDir, artUrl, g, a, vs), VersionPlans(remote, g, a, vs), VersionGoods(remote, g, a, vs);
    forall i | 0 <= i < |vs|
      ensures Turn(runs[i], runs[i + 1], plans[i], good[i])
    {
      VersionTurnAt(remote, artDir, artUrl, g, a, vs, i);
    }
    assert vs[|vs|..] == [];
  }

  /** The version loop of an artifact requests a prefix of the artifact's
      expansion over those versions; it runs to its end exactly when every
      version resolves, and then requests the whole expansion. */
  lemma VersionsFollowPlan(remote: Remote, artDir: string, artUrl: string, g: string, a: string, vs: seq<string>)
    requires artUrl == MAVEN_URL + "/" + ReplaceDots(g) + "/" + a
    ensures var r := VersionsRun(remote, artDir, artUrl, g, a, vs);
      && Requests(r.steps) <= Flatten(VersionPlans(remote, g, a, vs))
      && (r.ok <==> forall k :: 0 <= k < |vs| ==> VersionOk(remote, g, a, vs[k]))
      && (r.ok ==> Requests(r.steps) == Flatten(VersionPlans(remote, g, a, vs)))
  {
    var runs, good := VersionRuns(remote, artDir, artUrl, g, a, vs), VersionGoods(remote, g, a, vs);
    VersionsTurns(remote, artDir, artUrl, g, a, vs);
    LoopFollowsPlan(runs, VersionPlans(remote, g, a, vs), good);
    assert vs[0..] == vs;
    assert runs[0] == VersionsRun(remote, artDir, artUrl, g, a, vs);
    assert forall k :: 0 <= k < |vs| ==> good[k] == VersionOk(remote, g, a, vs[k]);
  }

  /** One artifact: its version loop against its expansion. */
  lemma ArtifactResolves(remote: Remote, artDir: string, artUrl: string, g: string, e: Entry)
    requires artUrl == MAVEN_URL + "/" + ReplaceDots(g) + "/" + e.name
    ensures var art := GetArtifacts(remote, artDir, e.versions, artUrl, g, e.name);
      && Requests(art.steps) <= ArtifactPlan(remote, g, e)
      && (art.ok <==> ArtifactOk(remote, g, e))
      && (art.ok ==> Requests(art.steps) == ArtifactPlan(remote, g, e))
  {
    match e.versions
    case None =>
    case Some(list) =>
      var vs := Split(list, ',');
      VersionsFollowPlan(remote, artDir, artUrl, g, e.name, vs);
      assert (forall k :: 0 <= k < |vs| ==> VersionOk(remote, g, e.name, vs[k]))
        <==> (forall v :: v in vs ==> VersionOk(remote, g, e.name, v));
  }

  /** The artifact loop unrolled once. */
  lemma ArtifactsRunUnfold(remote: Remote, groupDir: string, groupUrl: string, g: string, es: seq<Entry>)
    requires |es| > 0
    ensures var artDir, artUrl := Join(groupDir, es[0].name), Join(groupUrl, es[0].name);
      var art := GetArtifacts(remote, artDir, es[0].versions, artUrl, g, es[0].name);
      var r := ArtifactsRun(remote, groupDir, groupUrl, g, es);
      var rest := ArtifactsRun(remote, groupDir, groupUrl, g, es[1..]);
      && (!art.ok ==> r == Run([MakeDir(artDir)] + art.steps, false))
      && (art.ok ==> r == Run([MakeDir(artDir)] + art.steps + rest.steps, rest.ok))
  {
  }

  /** One turn of the artifact loop: an artifact that fails ends the loop
      with a prefix of its own expansion requested; one that succeeds
      contributes all of it and hands over to the rest of the loop. */
  lemma ArtifactsRunCons(remote: Remote, groupDir: string, groupUrl: string, g: string, es: seq<Entry>)
    requires |es| > 0
    requires groupUrl == MAVEN_URL + "/" + ReplaceDots(g)
    ensures var r := ArtifactsRun(remote, groupDir, groupUrl, g, es);
      var rest := ArtifactsRun(remote, groupDir, groupUrl, g, es[1..]);
      if ArtifactOk(remote, g, es[0]) then
        r.ok == rest.ok && Requests(r.steps) == ArtifactPlan(remote, g, es[0]) + Requests(rest.steps)
      else
        !r.ok && Requests(r.steps) <= ArtifactPlan(remote, g, es[0])
  {
    var e := es[0];
    var artDir, artUrl := Join(groupDir, e.name), Join(groupUrl, e.name);
    var art := GetArtifacts(remote, artDir, e.versions, artUrl, g, e.name);
    ArtifactResolves(remote, artDir, artUrl, g, e);
    ArtifactsRunUnfold(remote, groupDir, groupUrl, g, es);
    assert Requests([MakeDir(artDir)]) == [];
    if art.ok {
      RequestsCons([MakeDir(artDir)], art.steps, ArtifactsRun(remote, groupDir, groupUrl, g, es[1..]).steps);
    } else {
      RequestsSilentHead([MakeDir(artDir)], art.steps);
    }
  }

  /** The artifact loop started at each turn, the last with no entries left. */
  function ArtifactRuns(remote: Remote, groupDir: string, groupUrl: string, g: string, es: seq<Entry>): seq<Run> {
    seq(|es| + 1, i requires 0 <= i <= |es| => ArtifactsRun(remote, groupDir, groupUrl, g, es[i..]))
  }

  function ArtifactGoods(remote: Remote, g: string, es: seq<Entry>): seq<bool> {
    seq(|es|, j requires 0 <= j < |es| => ArtifactOk(remote, g, es[j]))
  }

  /** Turn `i` of the artifact loop, read off the loop started there. */
  lemma ArtifactTurnAt(remote: Remote, groupDir: string, groupUrl: string, g: string, es: seq<Entry>, i: nat)
    requires i < |es|
    requires groupUrl == MAVEN_URL + "/" + ReplaceDots(g)
    ensures Turn(ArtifactsRun(remote, groupDir, groupUrl, g, es[i..]), ArtifactsRun(remote, groupDir, groupUrl, g, es[i + 1..]),
                 ArtifactPlan(remote, g, es[i]), ArtifactOk(remote, g, es[i]))
  {
    ArtifactsRunCons(remote, groupDir, groupUrl, g, es[i..]);
    assert es[i..][0] == es[i] && es[i..][1..] == es[i + 1..];
  }

  /** The artifact loop, turn by turn. */
  lemma ArtifactsTurns(remote: Remote, groupDir: string, groupUrl: string, g: string, es: seq<Entry>)
    requires groupUrl == MAVEN_URL + "/" + ReplaceDots(g)
    ensures LoopTurns(ArtifactRuns(remote, groupDir, groupUrl, g, es), ArtifactPlans(remote, g, es), ArtifactGoods(remote, g, es))
  {
    var runs, plans, good := ArtifactRuns(remote, groupDir, groupUrl, g, es), ArtifactPlans(remote, g, es), ArtifactGoods(remote, g, es);
    forall i | 0 <= i < |es|
      ensures Turn(runs[i], runs[i + 1], plans[i], good[i])
    {
      ArtifactTurnAt(remote, groupDir, groupUrl, g, es, i);
    }
    assert es[|es|..] == [];
  }

  /** The artifact loop of a group requests a prefix of the group's
      expansion over those entries; it runs to its end exactly when every
      entry has versions that all resolve, and then requests all of it. */
  lemma ArtifactsFollowPlan(remote: Remote, groupDir: string, groupUrl: string, g: string, es: seq<Entry>)
    requires groupUrl == MAVEN_URL + "/" + ReplaceDots(g)
    ensures var r := ArtifactsRun(remote, groupDir, groupUrl, g, es);
      && Requests(r.steps) <= Flatten(ArtifactPlans(remote, g, es))
      && (r.ok <==> forall j :: 0 <= j < |es| ==> ArtifactOk(remote, g, es[j]))
      && (r.ok ==> Requests(r.steps) == Flatten(ArtifactPlans(remote, g, es)))
  {
    var runs, good := ArtifactRuns(remote, groupDir, groupUrl, g, es), ArtifactGoods(remote, g, es);
    ArtifactsTurns(remote, groupDir, groupUrl, g, es);
    LoopFollowsPlan(runs, ArtifactPlans(remote, g, es), good);
    assert es[0..] == es;
    assert runs[0] == ArtifactsRun(remote, groupDir, groupUrl, g, es);
    assert forall j :: 0 <= j < |es| ==> good[j] == ArtifactOk(remote, g, es[j]);
  }

  /** One group's trace, unrolled: stage, fetch the catalog, and walk it
      when it arrived. */
  lemma GroupUnfold(remote: Remote, g: string)
    ensures var url := GroupIndexUrl(g);
      GroupSteps(remote, g)
        == [MakeDir(GroupDir(g)), Fetch(GroupIndexPath(g), url, Delivers(remote, url))]
           + (if Delivers(remote, url)
              then ParseGroupIndex(remote, GroupDir(g), GroupIndexPath(g), g, GroupUrl(g), remote[url].body)
              else [])
  {
    assert Join(ROOT_DIR, g) == GroupDir(g) && Join(MAVEN_URL, ReplaceDots(g)) == GroupUrl(g);
    assert Join(GroupDir(g), GROUP_XML) == GroupIndexPath(g) && Join(GroupUrl(g), GROUP_XML) == GroupIndexUrl(g);
  }

  /** A delivered group catalog, walked: a prefix of the group's
      expansion; nothing throws exactly when it parses and its artifact
      loop ends normally, and then all of the expansion is requested. */
  lemma CatalogFollowsPlan(remote: Remote, g: string)
    requires Delivers(remote, GroupIndexUrl(g))
    ensures var body := remote[GroupIndexUrl(g)].body;
      var parsed := ParseGroupIndex(remote, GroupDir(g), GroupIndexPath(g), g, GroupUrl(g), body);
      && Requests(parsed) <= GroupPlan(remote, g)
      && (GroupOk(remote, g) <==>
            GroupEntries(body, g).Some? && ArtifactsRun(remote, GroupDir(g), GroupUrl(g), g, GroupEntries(body, g).value).ok)
      && (GroupOk(remote, g) ==> Requests(parsed) == GroupPlan(remote, g))
  {
    var body := remote[GroupIndexUrl(g)].body;
    var fileName := GroupIndexPath(g);
    var parsed := ParseGroupIndex(remote, GroupDir(g), fileName, g, GroupUrl(g), body);
    match GroupEntries(body, g)
    case None =>
      assert parsed == [];
    case Some(es) =>
      var run := ArtifactsRun(remote, GroupDir(g), GroupUrl(g), g, es);
      ArtifactsFollowPlan(remote, GroupDir(g), GroupUrl(g), g, es);
      assert (forall j :: 0 <= j < |es| ==> ArtifactOk(remote, g, es[j]))
        <==> (forall e :: e in es ==> ArtifactOk(remote, g, e));
      if run.ok {
        assert parsed == run.steps + [Remove(fileName)];
        RequestsAppend(run.steps, [Remove(fileName)]);
      }
  }

  /** One group: its requests are a prefix of its expansion; its catalog
      copy is deleted exactly when the catalog arrives and nothing in the
      group throws; and when nothing in the group throws, whether or not
      its catalog arrived, every file of the expansion is requested. */
  lemma GroupFollowsPlan(remote: Remote, g: string)
    ensures Requests(GroupSteps(remote, g)) <= GroupPlan(remote, g)
    ensures GroupOk(remote, g) <==> Remove(GroupIndexPath(g)) in GroupSteps(remote, g)
    ensures GroupClean(remote, g) <==>
      (Delivers(remote, GroupIndexUrl(g)) ==> Remove(GroupIndexPath(g)) in GroupSteps(remote, g))
    ensures GroupClean(remote, g) ==> Requests(GroupSteps(remote, g)) == GroupPlan(remote, g)
  {
    var url := GroupIndexUrl(g);
    GroupUnfold(remote, g);
    GroupLayout(remote, g);
    var head := [MakeDir(GroupDir(g)), Fetch(GroupIndexPath(g), url, Delivers(remote, url))];
    RequestsNone(head);
    if Delivers(remote, url) {
      CatalogFollowsPlan(remote, g);
      RequestsSilentHead(head, ParseGroupIndex(remote, GroupDir(g), GroupIndexPath(g), g, GroupUrl(g), remote[url].body));
    } else {
      assert GroupSteps(remote, g) == head + [] == head;
      assert CatalogOf(remote, g).None?;
    }
  }

  /** A listed group whose catalog is absent is skipped without throwing:
      it requests nothing, its expansion is empty, and it is clean though
      not `GroupOk`. */
  lemma AbsentCatalogSkipped(remote: Remote, g: string)
    requires !Delivers(remote, GroupIndexUrl(g))
    ensures GroupClean(remote, g) && !GroupOk(remote, g)
    ensures Requests(GroupSteps(remote, g)) == [] == GroupPlan(remote, g)
  {
    GroupFollowsPlan(remote, g);
  }

  /** The traces of the groups `gs`, each on its own. */
  function GroupTraces(remote: Remote, gs: seq<string>): seq<seq<Step>> {
    seq(|gs|, i requires 0 <= i < |gs| => GroupSteps(remote, gs[i]))
  }

  /** The group loop is the groups' own traces one after the other. */
  lemma {:induction false} GroupsInOrder(remote: Remote, gs: seq<string>)
    ensures GroupsSteps(remote, gs) == Flatten(GroupTraces(remote, gs))
    decreases |gs|
  {
    if |gs| > 0 {
      GroupsInOrder(remote, gs[1..]);
      assert GroupTraces(remote, gs)[1..] == GroupTraces(remote, gs[1..]);
    }
  }

  /** When no group throws, the group loop requests the groups'
      expansions one after the other. */
  lemma GroupsFollowPlan(remote: Remote, gs: seq<string>)
    requires forall i :: 0 <= i < |gs| ==> GroupClean(remote, gs[i])
    ensures Requests(GroupsSteps(remote, gs)) == Flatten(GroupPlans(remote, gs))
  {
    var traces := GroupTraces(remote, gs);
    GroupsInOrder(remote, gs);
    RequestsFlatten(traces);
    var issued := seq(|traces|, i requires 0 <= i < |traces| => Requests(traces[i]));
    forall i | 0 <= i < |gs|
      ensures issued[i] == GroupPlans(remote, gs)[i]
    {
      GroupFollowsPlan(remote, gs[i]);
    }
    assert issued == GroupPlans(remote, gs);
  }

  /** A whole run, unrolled: stage the root, fetch the top catalog, and
      when it arrives and parses, run the group loop and delete the copy. */
  lemma MirrorUnfold(remote: Remote)
    ensures GetMasterIndex(remote)
      == [MakeDir(ROOT_DIR), Fetch(MASTER_PATH, MASTER_URL, Delivers(remote, MASTER_URL))]
         + (if GroupsOf(remote).Some? then GroupsSteps(remote, GroupsOf(remote).value) + [Remove(MASTER_PATH)] else [])
  {
    assert Join(ROOT_DIR, MASTER_XML) == MASTER_PATH && Join(MAVEN_URL, MASTER_XML) == MASTER_URL;
  }

  /** A run whose top catalog lists `gs` requests what the group loop
      over `gs` requests. */
  lemma MirrorRequestsGroups(remote: Remote, gs: seq<string>)
    requires GroupsOf(remote) == Some(gs)
    ensures Requests(GetMasterIndex(remote)) == Requests(GroupsSteps(remote, gs))
  {
    var head := [MakeDir(ROOT_DIR), Fetch(MASTER_PATH, MASTER_URL, true)];
    MirrorUnfold(remote);
    RequestsNone(head);
    RequestsNone([Remove(MASTER_PATH)]);
    assert GetMasterIndex(remote) == head + GroupsSteps(remote, gs) + [Remove(MASTER_PATH)];
    RequestsCons(head, GroupsSteps(remote, gs), [Remove(MASTER_PATH)]);
  }

  /** When no listed group throws, the run requests exactly the
      depth-first expansion of the catalogs. */
  lemma MirrorRequestsPlan(remote: Remote)
    requires MirrorClean(remote)
    ensures Requests(GetMasterIndex(remote)) == MirrorPlan(remote)
  {
    if GroupsOf(remote).Some? {
      var gs := GroupsOf(remote).value;
      MirrorRequestsGroups(remote, gs);
      assert forall i :: 0 <= i < |gs| ==> GroupClean(remote, gs[i]);
      GroupsFollowPlan(remote, gs);
    } else {
      MirrorFollowsTop(remote);
    }
  }

  /** A whole run. The top catalog's copy is deleted exactly when it
      arrives and parses; then every group of it runs, in catalog order,
      each to completion before the next, whatever happened in the earlier
      ones; and when no listed group throws the run requests exactly the
      depth-first expansion of the catalogs. */
  lemma MirrorFollowsPlan(remote: Remote)
    ensures var steps := GetMasterIndex(remote);
      && (Remove(MASTER_PATH) in steps <==> GroupsOf(remote).Some?)
      && (GroupsOf(remote).None? ==> Requests(steps) == [])
      && (GroupsOf(remote).Some? ==>
            steps == [MakeDir(ROOT_DIR), Fetch(MASTER_PATH, MASTER_URL, true)]
                     + Flatten(GroupTraces(remote, GroupsOf(remote).value))
                     + [Remove(MASTER_PATH)])
      && (MirrorClean(remote) ==> Requests(steps) == MirrorPlan(remote))
  {
    MirrorFollowsTop(remote);
    if MirrorClean(remote) {
      MirrorRequestsPlan(remote);
    }
  }

  /** The top of a run: the copy is deleted exactly when the top catalog
      arrives and parses; otherwise nothing is requested, and when it
      parses the run is its groups' traces between fetch and deletion. */
  lemma MirrorFollowsTop(remote: Remote)
    ensures var steps := GetMasterIndex(remote);
      && (Remove(MASTER_PATH) in steps <==> GroupsOf(remote).Some?)
      && (GroupsOf(remote).None? ==> Requests(steps) == [])
      && (GroupsOf(remote).Some? ==>
            steps == [MakeDir(ROOT_DIR), Fetch(MASTER_PATH, MASTER_URL, true)]
                     + Flatten(GroupTraces(remote, GroupsOf(remote).value))
                     + [Remove(MASTER_PATH)])
  {
    var steps := GetMasterIndex(remote);
    var head := [MakeDir(ROOT_DIR), Fetch(MASTER_PATH, MASTER_URL, Delivers(remote, MASTER_URL))];
    MirrorUnfold(remote);
    match GroupsOf(remote)
    case None =>
      assert steps == head + [] == head;
      RequestsNone(head);
    case Some(gs) =>
      GroupsInOrder(remote, gs);
      GroupsLayout(remote, gs);
  }
}
