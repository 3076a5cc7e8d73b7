// File trees that hold given nodes and the directories above them.
module Planting {
  import opened Paths
  import opened FileStore
  import opened FileOps
  import opened Options

  datatype Plant = Plant(at: Path, node: Node)

  ghost function Planted(ps: seq<Plant>, hops: nat): Store {
    if ps == [] then map[[] := Dir]
    else
      var last := ps[|ps| - 1];
      Install(Planted(ps[..|ps| - 1], hops), last.at, Some(last.node), hops).store
  }

  // No name is a directory, or lies at or below another.
  ghost predicate Plantable(ps: seq<Plant>) {
    && (forall i | 0 <= i < |ps| :: ps[i].at != [] && Plain(ps[i].at) && !ps[i].node.Dir?)
    && (forall i, j | 0 <= i < |ps| && 0 <= j < |ps| && i != j :: !(ps[i].at <= ps[j].at))
  }

  // The key lies on the way to one of the plants.
  ghost predicate OnTheWay(ps: seq<Plant>, q: Path) {
    exists i | 0 <= i < |ps| :: q <= ps[i].at
  }

  ghost predicate HoldsOnly(s: Store, ps: seq<Plant>) {
    && WellFormed(s)
    && (forall i | 0 <= i < |ps| :: ps[i].at in s && s[ps[i].at] == ps[i].node)
    && (forall q | q in s && q != [] :: OnTheWay(ps, q))
  }

  lemma {:induction false} PlantedHolds(ps: seq<Plant>, hops: nat)
    requires Plantable(ps)
    ensures HoldsOnly(Planted(ps, hops), ps)
  {
    if ps != [] {
      var front, last := ps[..|ps| - 1], ps[|ps| - 1];
      PlantedHolds(front, hops);
      var s := Planted(front, hops);
      ClearBesides(s, front, last.at);
      InstallClear(s, last.at, last.node, hops);
      PlantMore(s, Planted(ps, hops), ps);
    }
  }

  // A name that no plant is above is clear, and free if it is above none.
  lemma ClearBesides(s: Store, ps: seq<Plant>, p: Path)
    requires HoldsOnly(s, ps) && p != [] && Plain(p)
    requires forall i | 0 <= i < |ps| :: !(ps[i].at <= p)
    ensures Clear(s, p)
    ensures (forall i | 0 <= i < |ps| :: !(p <= ps[i].at)) ==> p !in s
  {
    forall k | 0 <= k < |p|
      ensures p[..k] in s ==> s[p[..k]].Dir?
    {
      if p[..k] in s && k > 0 {
        assert OnTheWay(ps, p[..k]);
        var i :| 0 <= i < |ps| && p[..k] <= ps[i].at;
        WayIsDir(s, ps[i].at, p, k);
      }
    }
    assert p in s ==> OnTheWay(ps, p);
  }

  lemma WayIsDir(s: Store, d: Path, p: Path, k: nat)
    requires WellFormed(s) && d in s && k < |p| && p[..k] <= d && !(d <= p)
    ensures p[..k] in s && s[p[..k]].Dir?
  {
    assert p[..k] != d;
    assert d[..k] == p[..k];
    PrefixesAreDirs(s, d, k);
  }

  lemma PlantMore(s: Store, t: Store, ps: seq<Plant>)
    requires ps != [] && HoldsOnly(s, ps[..|ps| - 1]) && Plantable(ps)
    requires WellFormed(t) && Touches(s, t, ps[|ps| - 1].at)
    requires ps[|ps| - 1].at in t && t[ps[|ps| - 1].at] == ps[|ps| - 1].node
    ensures HoldsOnly(t, ps)
  {
    var front, last := ps[..|ps| - 1], ps[|ps| - 1];
    forall i | 0 <= i < |ps|
      ensures ps[i].at in t && t[ps[i].at] == ps[i].node
    {
      if i < |front| {
        assert front[i] == ps[i] && ps[i].at != last.at;
      }
    }
    forall q | q in t && q != []
      ensures OnTheWay(ps, q)
    {
      if q in s {
        assert OnTheWay(front, q);
        var i :| 0 <= i < |front| && q <= front[i].at;
        assert q <= ps[i].at;
      } else {
        assert q <= ps[|ps| - 1].at;
      }
    }
  }
}
