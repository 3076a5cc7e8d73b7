// A deployment that is neither made nor undone: a copy uncovers an undeclared
// plugin link, and the rollback of a plan with a projected entry will not start.
module Uncovered {
  import opened Paths
  import opened FileStore
  import opened Projections
  import opened Allowlist
  import opened Planting
  import opened Deploy
  import opened Transaction
  import opened Sample

  const OTHER: Path := HOME + ["other"] + ["plugins"]
  const VIA_MADE: Node := Link(true, HOME + ["made", UP, "other"])

  // The host of the sample with one more profile x.  Its link leads through the
  // directory that the third entry makes, to a place with a plugin link.
  function CoveredPlants(): seq<Plant> {
    HostPlants() + [Plant(PROFILES + ["x"], VIA_MADE), Plant(OTHER + ["aota-tools"], Link(true, HOME + TARGET))]
  }

  // What matters about it.
  ghost predicate IsCovered(s: Store) {
    && IsHost(s) && HasLinks(s)
    && forall q | q in s && q != [] && Parent(q) == PROFILES && Last(q) != "p" :: q == PROFILES + ["x"]
  }

  ghost predicate HasLinks(s: Store) {
    && IsDirAt(s, HOME) && IsDirAt(s, PROFILES) && IsDirAt(s, OTHER) && IsLinkAt(s, OTHER + ["aota-tools"])
    && IsLinkAt(s, PROFILES + ["x"]) && s[PROFILES + ["x"]] == VIA_MADE
  }

  // Where the plugin directory of x is looked for.
  lemma LookedFor(s: Store, hops: nat)
    requires WellFormed(s) && HasLinks(s) && hops > 0
    ensures Walk(s, [], PROFILES + ["x", "plugins"], hops) ==
      Walk(s, HOME, ["made"] + [UP, "other", "plugins"], hops - 1)
  {
    PhysicalThen(s, PROFILES, ["x", "plugins"], hops);
    WalkCons(s, PROFILES, "x", ["plugins"], hops);
    assert ["x"] + ["plugins"] == ["x", "plugins"];
    assert HOME + ["made", UP, "other"] + ["plugins"] == HOME + (["made"] + [UP, "other", "plugins"]);
    PhysicalThen(s, HOME, ["made"] + [UP, "other", "plugins"], hops - 1);
  }

  lemma PluginLinkOfX()
    ensures var logical := HOME + LogicalOf("x");
      logical != [] && Parent(logical) == PROFILES + ["x", "plugins"] && Last(logical) == "aota-tools" != UP
  {
    assert HOME + LogicalOf("x") == PROFILES + ["x", "plugins"] + ["aota-tools"];
    ParentOfChild(PROFILES + ["x", "plugins"], "aota-tools");
  }

  lemma LinkIsHidden(s: Store, hops: nat)
    requires IsCovered(s) && hops > 0
    ensures !IsSymlink(s, HOME + LogicalOf("x"), hops)
  {
    LookedFor(s, hops);
    WalkCons(s, HOME, "made", [UP, "other", "plugins"], hops - 1);
    PluginLinkOfX();
  }

  lemma StillCovered(s: Store, hops: nat)
    requires IsCovered(s) && hops > 0
    ensures ContractHolds(s, HOME, [ALIAS], hops)
  {
    LinkIsHidden(s, hops);
    AliasIsWellFormed();
    AliasHolds(s, hops);
    PhysicalWalk(s, PROFILES, hops);
    forall n | n in ChildNames(s, PROFILES) && n != "p"
      ensures n == "x"
    {
      ParentOfChild(PROFILES, "x");
    }
  }

  lemma ShowsUndeclared(g: Store, hops: nat)
    requires WellFormed(g) && HasLinks(g) && IsDirAt(g, HOME + ["made"]) && hops > 0
    ensures !NoneUndeclared(g, HOME, [ALIAS], hops)
  {
    LookedFor(g, hops);
    WalkCons(g, HOME, "made", [UP, "other", "plugins"], hops - 1);
    WalkCons(g, HOME + ["made"], UP, ["other", "plugins"], hops - 1);
    assert [UP] + ["other", "plugins"] == [UP, "other", "plugins"] && Parent(HOME + ["made"]) == HOME;
    PhysicalThen(g, HOME, ["other", "plugins"], hops - 1);
    assert HOME + ["other", "plugins"] == OTHER;
    PhysicalWalk(g, OTHER, hops - 1);
    PluginLinkOfX();
    assert IsSymlink(g, HOME + LogicalOf("x"), hops);
    XIsUndeclared();
    XIsAProfile(g, hops);
  }

  lemma XIsUndeclared()
    ensures !Declared([ALIAS], LogicalOf("x"))
  {
    assert LogicalOf("x")[1] == "x" && ALIAS.logical[1] == "p";
  }

  lemma XIsAProfile(g: Store, hops: nat)
    requires WellFormed(g) && HasLinks(g)
    ensures Walk(g, [], PROFILES, hops) == Found(PROFILES) && "x" in ChildNames(g, PROFILES)
    ensures IsDir(g, PROFILES, hops) && !IsSymlink(g, PROFILES, hops)
  {
    PhysicalWalk(g, PROFILES, hops);
    ParentOfChild(PROFILES, "x");
    KeysAreClear(g, PROFILES);
    ClearLookups(g, PROFILES, hops);
  }

  lemma CopiesUncover(s: Store, hops: nat)
    requires IsCovered(s) && hops > 0
    ensures Uncovers(s, ThePlan(), HOME, [ALIAS], hops)
  {
    var plan, g := ThePlan(), Grown(s, {WRITTEN, EXTRA});
    HostMeetsThem(s, hops);
    PlanIsHosts();
    PlanNames(plan);
    WrittenIsFree(s);
    GrownWellFormed(s, {WRITTEN, EXTRA});
    assert EXTRA[..2] == HOME + ["made"];
    assert EXTRA[..2] in Above({WRITTEN, EXTRA});
    ShowsUndeclared(g, hops);
    assert UncoversAt(s, plan, |plan|, HOME, [ALIAS], hops);
  }

  // However a calm run from such a store ends, its copies stay: the re-check
  // raises, and so does the rollback.
  lemma CoveredIsNotUndone(s: Store, t: Store, u: Store, r: Result, hops: nat)
    requires IsCovered(s) && hops > 0
    requires Ends(s, t, u, Managed(), ThePlan(), [ALIAS], HOME, Items(), {}, true, true, r, hops)
    ensures MayStart(s, ThePlan(), [ALIAS], HOME, Items(), {}, hops)
    ensures r == RollbackFailed(Failed(ProjectionInvalid)) && CopiesRemain(s, u, Managed(), ThePlan())
  {
    HostMeetsThem(s, hops);
    StillCovered(s, hops);
    CopiesUncover(s, hops);
    RollbackFailsExactly(s, t, u, Managed(), ThePlan(), [ALIAS], HOME, Items(), {}, true, r, hops);
  }

  /* ---- Such a store ---- */

  lemma CoveredNames()
    ensures PROFILES + ["x"] == ["r", "profiles", "x"]
    ensures OTHER + ["aota-tools"] == ["r", "other", "plugins", "aota-tools"]
  {}

  lemma CoveredPlantsFit()
    ensures Plantable(CoveredPlants()) && forall i | 0 <= i < 5 :: FitsHost(CoveredPlants()[i].at)
  {
    HostNames();
    CoveredNames();
    HostPlantsFit();
    FitsByNames(PROFILES + ["x"]);
    FitsByNames(OTHER + ["aota-tools"]);
    forall i, j | 0 <= i < 5 && 0 <= j < 5 && i != j
      ensures !(CoveredPlants()[i].at <= CoveredPlants()[j].at)
    {
      PlantsDiffer(i, j);
    }
  }

  // Plants are told apart by the second and third components.
  lemma PlantsDiffer(i: nat, j: nat)
    requires i < 5 && j < 5 && i != j
    ensures !(CoveredPlants()[i].at <= CoveredPlants()[j].at)
  {
    SecondComponent(i);
    SecondComponent(j);
  }

  lemma SecondComponent(i: nat)
    requires i < 5
    ensures var d := CoveredPlants()[i].at;
      && |d| > 1 && d[1] == ["plugins", "profiles", "f", "profiles", "other"][i]
      && (i == 1 || i == 3 ==> |d| > 2 && d[2] == if i == 1 then "p" else "x")
  {
    HostNames();
    CoveredNames();
  }

  lemma CoveredIsThere(hops: nat)
    ensures IsCovered(Planted(CoveredPlants(), hops))
  {
    var s, ps := Planted(CoveredPlants(), hops), CoveredPlants();
    CoveredPlantsFit();
    PlantedHolds(ps, hops);
    assert ps[..3] == HostPlants();
    IsAHost(s, ps);
    assert ps[3].at in s && ps[4].at in s;
    ParentOfChild(OTHER, "aota-tools");
    forall q | q in s && q != [] && Parent(q) == PROFILES && Last(q) != "p"
      ensures q == PROFILES + ["x"]
    {
      OnTheWayFits(s, ps, q);
      JoinParentLast(q);
    }
  }

  // The run that is neither made nor undone.
  lemma NeitherMadeNorUndone(t: Store, u: Store, r: Result, hops: nat)
    requires hops > 0
    requires Ends(Planted(CoveredPlants(), hops), t, u, Managed(), ThePlan(), [ALIAS], HOME, Items(), {}, true, true, r,
                  hops)
    ensures r == RollbackFailed(Failed(ProjectionInvalid))
    ensures CopiesRemain(Planted(CoveredPlants(), hops), u, Managed(), ThePlan())
  {
    CoveredIsThere(hops);
    CoveredIsNotUndone(Planted(CoveredPlants(), hops), t, u, r, hops);
  }
}
