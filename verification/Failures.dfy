// Inputs on which a promise of the deployer fails, one for each condition that
// the main results ask for.
module Failures {
  import opened Paths
  import opened FileStore
  import opened Options
  import opened Projections
  import opened Planner
  import opened SafePaths
  import opened Backup
  import opened Planting
  import opened Restore
  import opened Rollback
  import opened SkillTrees
  import opened SkillParity

  /* ---- An original that was a link ---- */

  // A file that the plan updates, and a legacy link that it removes.
  const UPDATED: Path := ["r", "f"]
  const LEGACY: Path := ["r", "old", "link"]

  function UpdateEntry(): Entry {
    Entry(["f"], Copy, ["src", "f"], UPDATED, ["r"], ["src"], ["f"], true, None, false,
          None, None, None, None, None, None)
  }

  function LegacyEntry(): Entry {
    Entry(["old"], Remove, LEGACY, LEGACY, ["r"], ["r"], ["old", "link"], true, None, false,
          None, None, None, None, None, None)
  }

  function LegacyPlan(): seq<Entry> {
    [UpdateEntry(), LegacyEntry()]
  }

  ghost predicate IsLegacy(s: Store) {
    && WellFormed(s) && UPDATED in s && s[UPDATED] == File("old", 420)
    && LEGACY in s && s[LEGACY] == Link(true, UPDATED)
  }

  function LegacyPlants(): seq<Plant> {
    [Plant(UPDATED, File("old", 420)), Plant(LEGACY, Link(true, UPDATED))]
  }

  lemma LegacyIsThere(hops: nat)
    ensures IsLegacy(Planted(LegacyPlants(), hops))
  {
    assert UPDATED[1] != LEGACY[1];
    PlantedHolds(LegacyPlants(), hops);
    assert LegacyPlants()[0].at == UPDATED && LegacyPlants()[1].at == LEGACY;
  }

  // The backup takes both, the link as a link ...
  lemma LegacyIsBacked(s: Store, hops: nat)
    requires IsLegacy(s) && hops > 0
    ensures Backable(s, LegacyPlan(), 2, hops)
  {
    var plan := LegacyPlan();
    KeysAreClear(s, UPDATED);
    KeysAreClear(s, LEGACY);
    ClearLookups(s, UPDATED, hops);
    ClearIsSafe(s, UPDATED, ["r"], hops);
    ClearLookups(s, LEGACY, hops);
    LegacyIsSafe(s, hops);
    assert EntryBackable(s, plan, 0, hops) && EntryBackable(s, plan, 1, hops);
  }

  lemma LegacyIsSafe(s: Store, hops: nat)
    requires IsLegacy(s) && hops > 0 && Clear(s, LEGACY) && Clear(s, UPDATED) && IsSymlink(s, LEGACY, hops)
    ensures SafeTarget(s, LEGACY, ["r"], hops)
  {
    ResolvePrefix(s, LEGACY, ["r"], hops);
    ResolveName(s, LEGACY, hops);
    ResolveName(s, UPDATED, hops - 1);
  }

  // ... but from no store, whatever became of the two names, does the rollback
  // get past the link: it stops there, with the file put back.
  lemma LinkOriginalStops(s: Store, t: Store, b: Store, dir: Path, records: seq<Record>, hops: nat, backupHops: nat,
                          n: nat)
    requires IsLegacy(s) && dir != [] && BackedUp(s, b, dir, LegacyPlan(), 2, records, hops)
    requires WellFormed(t) && FreeName(t, UPDATED) && FreeName(t, LEGACY) && n <= |records|
    requires AllRestore(t, hops, b, backupHops, dir, records, n)
    requires n < |records| ==> !RestoresAt(t, hops, b, backupHops, dir, records, n)
    ensures |records| == 2 && n == 1 && records[0].target == UPDATED && records[1].target == LEGACY
  {
    LegacyRecorded(s, b, dir, records, hops);
    assert UPDATED[1] != LEGACY[1];
    TwoApart(records);
    assert NodeRecorded(s, hops, b, dir, records[0]) && NodeRecorded(s, hops, b, dir, records[1]);
    RecordReady(s, t, b, dir, records, hops, 0);
    RecordReady(s, t, b, dir, records, hops, 1);
    RecordsFree(t, b, dir, records, hops);
    StopsAtFirstLink(s, t, b, dir, records, hops, backupHops, n, 1);
  }

  lemma TwoApart(records: seq<Record>)
    requires |records| == 2 && Apart(records[0].target, records[1].target)
    ensures TargetsApart(records)
  {
    forall i, j | 0 <= i < 2 && 0 <= j < 2
      ensures !(records[i].target < records[j].target)
    {
      if i == j {
        assert !(records[i].target < records[i].target);
      }
    }
  }

  ghost predicate RecordFree(t: Store, b: Store, dir: Path, records: seq<Record>, hops: nat, i: nat)
    requires i < |records|
  {
    TargetFree(t, hops, records, i) && PayloadSound(b, dir, records[i]) && Clear(t, records[i].target)
  }

  lemma RecordsFree(t: Store, b: Store, dir: Path, records: seq<Record>, hops: nat)
    requires |records| == 2 && TargetsApart(records) && WellFormed(t) && WellFormed(b) && IsDirAt(b, dir)
    requires RecordFree(t, b, dir, records, hops, 0) && RecordFree(t, b, dir, records, hops, 1)
    ensures Restorable(t, b, dir, records) && TargetsFree(t, hops, records)
  {
    forall i | 0 <= i < |records|
      ensures TargetFree(t, hops, records, i) && Clear(t, records[i].target) && PayloadSound(b, dir, records[i])
    {
      assert RecordFree(t, b, dir, records, hops, i);
    }
  }

  // The first record whose original was a link.
  ghost predicate IsFirstLink(s: Store, records: seq<Record>, n: nat) {
    && n < |records| && IsLinkAt(s, records[n].target)
    && forall i | 0 <= i < n :: !IsLinkAt(s, records[i].target)
  }

  lemma StopsAtFirstLink(s: Store, t: Store, b: Store, dir: Path, records: seq<Record>, hops: nat, backupHops: nat,
                         n: nat,
                         link: nat)
    requires Restorable(t, b, dir, records) && TargetsFree(t, hops, records) && dir != []
    requires RecordedFrom(s, hops, b, dir, records) && IsFirstLink(s, records, link)
    requires n <= |records| && AllRestore(t, hops, b, backupHops, dir, records, n)
    requires n < |records| ==> !RestoresAt(t, hops, b, backupHops, dir, records, n)
    ensures n == link
  {
    LinkOriginalsExactly(s, t, hops, b, backupHops, dir, records, n);
  }

  lemma RecordReady(s: Store, t: Store, b: Store, dir: Path, records: seq<Record>, hops: nat, i: nat)
    requires i < |records| && NodeRecorded(s, hops, b, dir, records[i]) && WellFormed(s) && WellFormed(t)
    requires FreeName(t, records[i].target)
    ensures RecordFree(t, b, dir, records, hops, i)
  {
    var r := records[i];
    ClearLookups(s, r.target, hops);
    assert !IsLinkAt(t - TargetsOf(records, i), r.target);
  }

  ghost predicate FreeName(t: Store, p: Path) {
    Clear(t, p) && !IsDirAt(t, p) && !IsLinkAt(t, p)
  }

  lemma BothAreTold(told: seq<Option<Record>>)
    requires |told| == 2 && told[0].Some? && told[1].Some?
    ensures Kept(told, 2) == [told[0].value, told[1].value]
  {
    assert Kept(told, 1) == Kept(told, 0) + [told[0].value];
  }

  lemma LegacyRecorded(s: Store, b: Store, dir: Path, records: seq<Record>, hops: nat)
    requires IsLegacy(s) && BackedUp(s, b, dir, LegacyPlan(), 2, records, hops)
    ensures |records| == 2 && records[0].target == UPDATED && records[1].target == LEGACY
    ensures RecordedFrom(s, hops, b, dir, records)
  {
    BothAreTold(Told(s, LegacyPlan(), hops));
    KeysAreClear(s, UPDATED);
    KeysAreClear(s, LEGACY);
    ClearLookups(s, UPDATED, hops);
    ClearLookups(s, LEGACY, hops);
    assert Saved(s, b, dir, records[0], hops) && Saved(s, b, dir, records[1], hops);
  }

  /* ---- A link that stands in for a directory ---- */

  predicate IsFileWith(s: Store, p: Path, content: Content) {
    p in s && s[p].File? && s[p].content == content
  }

  // The source has a directory `dir` with a file `f`; in the copy `dir` is a
  // link to another directory that has such a file.  The name of the link is
  // excluded, that of the file is not.
  ghost predicate IsShadow(s: Store, r: Roots, other: Path, dir: Name, f: Name) {
    && WellFormed(s) && IsDirAt(s, r.source) && IsDirAt(s, r.target) && IsDirAt(s, other) && r.runtime == []
    && IsDirAt(s, r.source + [dir]) && IsFileWith(s, r.source + [dir] + [f], "same")
    && IsLinkAt(s, r.target + [dir]) && s[r.target + [dir]] == Link(true, other) && IsFileWith(s, other + [f], "same")
    && (forall q | q in s && r.source < q :: q == r.source + [dir] || q == r.source + [dir] + [f])
    && (forall q | q in s && r.target < q :: q == r.target + [dir])
    && IsExcluded([dir]) && !IsExcluded([dir] + [f])
  }

  lemma Remainder(base: Path, p: Path, q: Path)
    requires base + p == base + q
    ensures p == q
  {
    assert (base + p)[|base|..] == p && (base + q)[|base|..] == q;
  }

  lemma ShadowSource(s: Store, r: Roots, other: Path, dir: Name, f: Name, p: Path, hops: nat)
    requires IsShadow(s, r, other, dir, f)
    ensures IsDir(s, r.source, hops) && RealOf(s, r.source, hops) == r.source && !BrokenAt(s, r.source, p, hops)
    ensures InTree(s, r.source, p, false, hops) <==> p == [dir] + [f]
  {
    PhysicalWalk(s, r.source, hops);
    assert r.source + ([dir] + [f]) == r.source + [dir] + [f];
    if p != [] && r.source + p in s {
      assert r.source < r.source + p;
      if r.source + p == r.source + [dir] {
        Remainder(r.source, p, [dir]);
      } else {
        Remainder(r.source, p, [dir] + [f]);
      }
    }
  }

  lemma ShadowTarget(s: Store, r: Roots, other: Path, dir: Name, f: Name, p: Path, hops: nat)
    requires IsShadow(s, r, other, dir, f)
    ensures IsDir(s, r.target, hops) && !BrokenAt(s, r.target, p, hops) && !InTree(s, r.target, p, true, hops)
  {
    PhysicalWalk(s, r.target, hops);
    if p != [] && r.target + p in s {
      assert r.target < r.target + p;
      Remainder(r.target, p, [dir]);
    }
  }

  // Through the link, the file is found where the link leads.
  lemma ThroughLink(s: Store, base: Path, dir: Name, other: Path, f: Name, hops: nat)
    requires WellFormed(s) && IsDirAt(s, base) && dir != UP && IsLinkAt(s, base + [dir]) && hops > 0
    requires s[base + [dir]] == Link(true, other) && other + [f] in s && s[other + [f]].File?
    ensures Walk(s, [], base + ([dir] + [f]), hops) == Found(other + [f])
  {
    PhysicalThen(s, base, [dir] + [f], hops);
    WalkCons(s, base, dir, [f], hops);
    PhysicalWalk(s, other + [f], hops - 1);
  }

  lemma LinkNameIsPlain(s: Store, base: Path, dir: Name)
    requires WellFormed(s) && base + [dir] in s
    ensures dir != UP
  {
    ParentOfChild(base, dir);
  }

  lemma ShadowLookup(s: Store, r: Roots, other: Path, dir: Name, f: Name, hops: nat)
    requires IsShadow(s, r, other, dir, f) && hops > 0
    ensures Walk(s, [], r.target + ([dir] + [f]), hops) == Found(other + [f])
  {
    LinkNameIsPlain(s, r.target, dir);
    ThroughLink(s, r.target, dir, other, f, hops);
  }

  lemma ShadowSame(s: Store, r: Roots, other: Path, dir: Name, f: Name, hops: nat)
    requires IsShadow(s, r, other, dir, f) && hops > 0
    ensures Differs(s, r, [dir] + [f], hops) == Some(false)
  {
    var source := r.source + ([dir] + [f]);
    PhysicalWalk(s, r.source, hops);
    assert source == r.source + [dir] + [f];
    PhysicalWalk(s, source, hops);
    ShadowLookup(s, r, other, dir, f, hops);
    ResolveIsWalk(s, [], r.target + ([dir] + [f]), hops);
  }

  // The check reports nothing, although the copy lacks the file.
  lemma ShadowIsNotSeen(s: Store, r: Roots, other: Path, dir: Name, f: Name, hops: nat)
    requires IsShadow(s, r, other, dir, f) && hops > 0
    ensures NothingReported(s, r, hops) && !SameTrees(s, r, hops)
  {
    ShadowHidden(s, r, other, dir, f, hops);
    forall p
      ensures !AskRaises(s, r, p, hops) && !BrokenAt(s, r.source, p, hops) && !BrokenAt(s, r.target, p, hops)
    {
      NothingSaid(s, r, other, dir, f, p, hops);
    }
    forall e
      ensures !Reported(s, r, e, hops)
    {
      if !e.SourceRoot? {
        NothingSaid(s, r, other, dir, f, e.relative, hops);
      }
    }
  }

  lemma NothingSaid(s: Store, r: Roots, other: Path, dir: Name, f: Name, p: Path, hops: nat)
    requires IsShadow(s, r, other, dir, f) && hops > 0
    ensures !AskRaises(s, r, p, hops) && !BrokenAt(s, r.source, p, hops) && !BrokenAt(s, r.target, p, hops)
    ensures NothingAt(s, r, p, hops)
  {
    ShadowSame(s, r, other, dir, f, hops);
    ShadowSource(s, r, other, dir, f, p, hops);
    ShadowTarget(s, r, other, dir, f, p, hops);
  }

  lemma ShadowHidden(s: Store, r: Roots, other: Path, dir: Name, f: Name, hops: nat)
    requires IsShadow(s, r, other, dir, f)
    ensures IsDir(s, r.source, hops) && !SameTrees(s, r, hops)
  {
    var p := [dir] + [f];
    ShadowSource(s, r, other, dir, f, p, hops);
    ShadowTarget(s, r, other, dir, f, p, hops);
    assert r.source + p == r.source + [dir] + [f];
    assert CanonicalAt(s, r.source, p, hops) != CanonicalAt(s, r.target, p, hops);
  }

  ghost predicate AreShadowNames(a: Name, b: Name, o: Name, dir: Name, f: Name, n: Node) {
    && a != b && b != o && o != a && UP !in [a, b, o, dir, f] && IsFileNode(n, "same")
    && IsExcluded([dir]) && !IsExcluded([dir] + [f])
  }

  predicate IsFileNode(n: Node, content: Content) {
    n.File? && n.content == content
  }

  // Two files in different directories and a link to the second one.
  function ShadowPlants(a: Name, b: Name, o: Name, dir: Name, f: Name, n: Node): seq<Plant> {
    [Plant([a] + [dir] + [f], n), Plant([o] + [f], n), Plant([b] + [dir], Link(true, [o]))]
  }

  lemma ShadowPlantsFit(a: Name, b: Name, o: Name, dir: Name, f: Name, n: Node)
    requires AreShadowNames(a, b, o, dir, f, n)
    ensures Plantable(ShadowPlants(a, b, o, dir, f, n))
  {
    assert ([a] + [dir] + [f])[0] == a && ([o] + [f])[0] == o && ([b] + [dir])[0] == b;
  }

  lemma ShadowBelow(s: Store, a: Name, b: Name, o: Name, dir: Name, f: Name, n: Node, q: Path)
    requires a != b && b != o && o != a && HoldsOnly(s, ShadowPlants(a, b, o, dir, f, n)) && q in s
    ensures [a] < q ==> q == [a] + [dir] || q == [a] + [dir] + [f]
    ensures [b] < q ==> q == [b] + [dir]
  {
    var ps := ShadowPlants(a, b, o, dir, f, n);
    if [a] < q || [b] < q {
      assert OnTheWay(ps, q);
      var i :| 0 <= i < |ps| && q <= ps[i].at;
      ShadowPlant(a, b, o, dir, f, ps[i].at, q);
    }
  }

  lemma ShadowPlant(a: Name, b: Name, o: Name, dir: Name, f: Name, d: Path, q: Path)
    requires a != b && b != o && o != a && d in [[a] + [dir] + [f], [o] + [f], [b] + [dir]] && q <= d
    ensures [a] < q ==> q == [a] + [dir] || q == [a] + [dir] + [f]
    ensures [b] < q ==> q == [b] + [dir]
  {
    assert q == d[..|q|];
    assert [a] < q ==> q[0] == a == d[0];
    assert [b] < q ==> q[0] == b == d[0];
  }

  lemma ShadowNodes(s: Store, a: Name, b: Name, o: Name, dir: Name, f: Name)
    requires WellFormed(s) && [a] + [dir] + [f] in s && [o] + [f] in s && [b] + [dir] in s
    ensures IsDirAt(s, [a]) && IsDirAt(s, [b]) && IsDirAt(s, [o]) && IsDirAt(s, [a] + [dir])
  {
    ParentOfChild([a] + [dir], f);
    ParentOfChild([a], dir);
    ParentOfChild([o], f);
    ParentOfChild([b], dir);
  }

  lemma LinkStandsIn(a: Name, b: Name, o: Name, dir: Name, f: Name, n: Node, hops: nat)
    requires AreShadowNames(a, b, o, dir, f, n) && hops > 0
    ensures var s, r := Planted(ShadowPlants(a, b, o, dir, f, n), hops), Roots([a], [b], []);
      WellFormed(s) && NothingReported(s, r, hops) && !SameTrees(s, r, hops)
  {
    var ps := ShadowPlants(a, b, o, dir, f, n);
    ShadowPlantsFit(a, b, o, dir, f, n);
    PlantedHolds(ps, hops);
    TreeIsShadow(Planted(ps, hops), a, b, o, dir, f, n);
    ShadowIsNotSeen(Planted(ps, hops), Roots([a], [b], []), [o], dir, f, hops);
  }

  lemma TreeIsShadow(s: Store, a: Name, b: Name, o: Name, dir: Name, f: Name, n: Node)
    requires AreShadowNames(a, b, o, dir, f, n) && HoldsOnly(s, ShadowPlants(a, b, o, dir, f, n))
    ensures IsShadow(s, Roots([a], [b], []), [o], dir, f)
  {
    var ps := ShadowPlants(a, b, o, dir, f, n);
    assert ps[0].at in s && ps[1].at in s && ps[2].at in s;
    ShadowNodes(s, a, b, o, dir, f);
    forall q | q in s
      ensures [a] < q ==> q == [a] + [dir] || q == [a] + [dir] + [f]
      ensures [b] < q ==> q == [b] + [dir]
    {
      ShadowBelow(s, a, b, o, dir, f, n, q);
    }
  }

  // Such names are x.bak and f: an editor backup that is no cache directory,
  // and a file that is not excluded by itself.
  lemma BackupNamesShadow(dir: Name, f: Name)
    requires EditorBackup(dir) && dir !in EXCLUDE_DIRS && !IsExcluded([f])
    ensures IsExcluded([dir]) && !IsExcluded([dir] + [f])
  {
    assert Last([dir]) == dir && Last([dir] + [f]) == f && Last([f]) == f;
    forall p | p in [dir] + [f]
      ensures p !in EXCLUDE_DIRS
    {
      assert p != dir ==> p == f && f in [f];
    }
  }

  /* ---- A write that nobody performs ---- */

  // An entry whose own destination is the physical target it is projected to.
  const SELF_OWNED: Entry :=
    Entry(PluginId("x", ["f"]), Copy, ["src", "f"], ["r"] + TARGET + ["f"], ["r"], ["src"], ["f"], true, Some("x"),
          false, None, None, None, None, None, None)

  const PROJECTED: Contract := [Projection("x", LogicalOf("x"), TARGET)]

  lemma SelfOwnedIsRedirected()
    ensures TargetOf([SELF_OWNED], PROJECTED, ["r"], 0) == Some(Target(SELF_OWNED.destination, 0))
  {
    assert ProjectionFor(PROJECTED, Some("x")) == Some(PROJECTED[0]);
    assert SELF_OWNED.id[2] == "plugin" && NamesPlugin(SELF_OWNED.id);
    assert LastCopy([SELF_OWNED], SELF_OWNED.destination, 1) == Some(0);
  }

  // The planner accepts it, as its own owner, and then nothing writes the file.
  lemma SelfOwnedIsNotWritten(plan: seq<Entry>)
    requires IsPlan([SELF_OWNED], plan, PROJECTED, ["r"])
    ensures SourcesAgree([SELF_OWNED]) && OwnersExist([SELF_OWNED], PROJECTED, ["r"])
    ensures |plan| == 1 && plan[0].kind.Copy? && !plan[0].Writes()
  {
    var es, ts := [SELF_OWNED], Targets([SELF_OWNED], PROJECTED, ["r"]);
    SelfOwnedIsRedirected();
    assert ts[0] == Some(Target(SELF_OWNED.destination, 0));
    assert plan[0] == WithDefaults(Marked(es, ts, 0, |es|));
  }

  /* ---- A skill file that is taken for a plugin file ---- */

  // A file in a directory of a skill that is called "plugin".
  const SKILL_FILE: Entry :=
    Entry(SkillId("x", "active-skill", "s", ["plugin", "f"]), Copy, ["src", "plugin", "f"],
          ["r", "profiles", "x", "skills", "s", "plugin", "f"], ["r"], ["src"], ["plugin", "f"], true, Some("x"),
          false, None, None, None, None, None, None)

  // The planner looks for its owner in the global plugin directory and fails.
  lemma SkillFileIsRefused()
    ensures !NamesPlugin(SkillId("x", "active-skill", "s", ["f"])) && NamesPlugin(SKILL_FILE.id)
    ensures SourcesAgree([SKILL_FILE]) && !OwnersExist([SKILL_FILE], PROJECTED, ["r"])
  {
    assert ProjectionFor(PROJECTED, Some("x")) == Some(PROJECTED[0]);
    assert SKILL_FILE.id[4] == "plugin" && NamesPlugin(SKILL_FILE.id);
    assert Physical(PROJECTED, ["r"], SKILL_FILE)[1] == "plugins" && SKILL_FILE.destination[1] == "profiles";
    assert LastCopy([SKILL_FILE], Physical(PROJECTED, ["r"], SKILL_FILE), 1) == None;
    assert !OwnerExists([SKILL_FILE], PROJECTED, ["r"], 0);
  }
}
