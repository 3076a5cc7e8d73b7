// What the copies of a skill do to the comparison of its two trees.
module SkillCopies {
  import opened Paths
  import opened FileStore
  import opened Options
  import opened Planner
  import opened SafePaths
  import opened Staging
  import opened Projections
  import opened Copying
  import opened SkillTrees
  import opened SkillParity

  // Entry `i` of the plan writes the copy of the file `p`.
  predicate Clones(e: Entry, r: Roots, p: Path) {
    e.Writes() && e.source == r.source + p && e.destination == r.target + p
  }

  ghost predicate Cloned(plan: seq<Entry>, r: Roots, p: Path) {
    exists i | 0 <= i < |plan| :: Clones(plan[i], r, p)
  }

  // The plan copies every canonical file of the source to its place below the
  // target, and what it writes below the target comes from that place in the
  // source.
  ghost predicate CopiesSkill(s: Store, plan: seq<Entry>, r: Roots, hops: nat) {
    && (forall p | Canonical(s, r.source, p, false, hops) :: Cloned(plan, r, p))
    && (forall i | 0 <= i < |plan| && plan[i].Writes() && r.target < plan[i].destination ::
          Clones(plan[i], r, plan[i].destination[|r.target|..]))
  }

  // The source is a directory in which every canonical file is regular and
  // nothing is changed; the target is a name in the runtime without links on
  // the way.
  ghost predicate SkillReady(s: Store, w: Scope, r: Roots, hops: nat) {
    && IsDirAt(s, r.source) && (forall d | d in w.touched :: !(r.source <= d))
    && (forall p | Canonical(s, r.source, p, false, hops) :: s[r.source + p].File?)
    && Clear(s, r.target) && (r.target in s ==> s[r.target].Dir?) && r.runtime < r.target
    && (forall d | d in w.touched :: !(d <= r.target))
  }

  /* ---- Links and the source stay as they are ---- */

  lemma CopiesKeepLinks(s: Store, t: Store, w: Scope, plan: seq<Entry>)
    requires Quiet(s, w) && CopiedTo(s, t, w, plan, |plan|)
    ensures SameLinks(s, t)
  {
    forall q
      ensures (IsLinkAt(s, q) <==> IsLinkAt(t, q)) && (IsLinkAt(s, q) ==> s[q] == t[q])
    {
      if IsLinkAt(t, q) {
        assert q in Grown(s, w.made) && Grown(s, w.made)[q] == t[q];
      }
    }
  }

  lemma SameLeads(s: Store, t: Store, p: Path, root: Path, hops: nat)
    requires SameLinks(s, t)
    ensures LeadOf(s, p, root, hops) == LeadOf(t, p, root, hops)
    ensures Escapes(s, p, root, hops) == Escapes(t, p, root, hops)
  {
    ResolveByLinks(s, t, [], p, hops);
    ResolveByLinks(s, t, [], root, hops);
  }

  lemma DirectoryIsReal(s: Store, d: Path, hops: nat)
    requires WellFormed(s) && (IsDirAt(s, d) || (Clear(s, d) && (d in s ==> s[d].Dir?)))
    ensures IsDir(s, d, hops) <==> d in s
    ensures d in s ==> RealOf(s, d, hops) == d
  {
    if d in s {
      PhysicalWalk(s, d, hops);
    } else {
      ClearLookups(s, d, hops);
    }
  }

  // No copy touches the source.
  lemma SourceStays(s: Store, t: Store, w: Scope, plan: seq<Entry>, r: Roots, p: Path, includeEscapes: bool, hops: nat)
    requires Quiet(s, w) && CopiedTo(s, t, w, plan, |plan|) && SkillReady(s, w, r, hops)
    ensures Canonical(s, r.source, p, includeEscapes, hops) <==> Canonical(t, r.source, p, includeEscapes, hops)
    ensures Canonical(s, r.source, p, includeEscapes, hops) ==> t[r.source + p] == s[r.source + p]
  {
    var q := r.source + p;
    assert r.source <= q;
    CopiesKeepLinks(s, t, w, plan);
    SameLeads(s, t, q, r.source, hops);
    FileUntouched(s, t, w, q);
  }

  /* ---- Below the target ---- */

  // What is written below the target comes from the same place in the source.
  lemma SkillWriter(s: Store, w: Scope, plan: seq<Entry>, r: Roots, p: Path, hops: nat)
    requires Covers(w, plan) && CopiesSkill(s, plan, r, hops) && p != []
    requires r.target + p in WriteMap(plan, |plan|)
    ensures WriteMap(plan, |plan|)[r.target + p] == r.source + p && r.target + p in w.made
  {
    var q := r.target + p;
    WriteMapFrom(plan, |plan|, q);
    var j :| 0 <= j < |plan| && plan[j].Writes() && plan[j].destination == q
      && plan[j].source == WriteMap(plan, |plan|)[q];
    assert r.target < q && q[|r.target|..] == p;
    assert Clones(plan[j], r, p);
  }

  // What is at a name below the target after the copies.
  lemma TargetAfter(s: Store, t: Store, w: Scope, plan: seq<Entry>, r: Roots, p: Path, hops: nat)
    requires Quiet(s, w) && Covers(w, plan) && CopiedTo(s, t, w, plan, |plan|) && p != []
    requires SkillReady(s, w, r, hops) && CopiesSkill(s, plan, r, hops)
    ensures var q := r.target + p;
      if q in WriteMap(plan, |plan|) && r.source + p in Files(s)
      then q in t && t[q] == s[r.source + p] && t[q].File?
      else (q in Files(t) <==> q in Files(s)) && (q in Files(t) ==> t[q] == s[q])
    ensures r.target + p in WriteMap(plan, |plan|) ==> r.target + p in w.made
  {
    var q, m := r.target + p, WriteMap(plan, |plan|);
    if q in m {
      SkillWriter(s, w, plan, r, p, hops);
    }
    assert q in Files(t) <==> q in Files(s) || (q in m && m[q] in Files(s));
    assert q in Files(t) ==> t[q] == Files(t)[q];
  }

  lemma ClonedIsWritten(plan: seq<Entry>, r: Roots, p: Path)
    requires Cloned(plan, r, p)
    ensures r.target + p in WriteMap(plan, |plan|)
  {
    var j :| 0 <= j < |plan| && Clones(plan[j], r, p);
    WriteMapHas(plan, |plan|, j);
  }

  // A canonical file of the source is there as its copy, inside the runtime.
  lemma CopyIsThere(s: Store, t: Store, w: Scope, plan: seq<Entry>, r: Roots, p: Path, hops: nat)
    requires Quiet(s, w) && Covers(w, plan) && CopiedTo(s, t, w, plan, |plan|)
    requires SkillReady(s, w, r, hops) && CopiesSkill(s, plan, r, hops) && Canonical(s, r.source, p, false, hops)
    ensures Differs(t, r, p, hops) == Some(false)
  {
    var source, target := r.source + p, r.target + p;
    ClonedIsWritten(plan, r, p);
    TargetAfter(s, t, w, plan, r, p, hops);
    SourceStays(s, t, w, plan, r, p, false, hops);
    DirectoryIsReal(t, r.source, hops);
    PhysicalWalk(t, source, hops);
    PhysicalWalk(t, target, hops);
    ResolveIsWalk(t, [], target, hops);
    KeysAreClear(t, target);
    assert r.runtime < target;
    ResolvePrefix(t, target, r.runtime, hops);
  }

  // A file that is canonical below the target but not in the source was there
  // before, and is still there.
  lemma ExtraStays(s: Store, t: Store, w: Scope, plan: seq<Entry>, r: Roots, p: Path, hops: nat)
    requires Quiet(s, w) && Covers(w, plan) && CopiedTo(s, t, w, plan, |plan|)
    requires SkillReady(s, w, r, hops) && CopiesSkill(s, plan, r, hops) && !Canonical(s, r.source, p, false, hops)
    ensures Canonical(t, r.target, p, true, hops) <==> Canonical(s, r.target, p, true, hops)
    ensures Canonical(s, r.target, p, true, hops) ==> t[r.target + p] == s[r.target + p]
  {
    if p != [] && !IsExcluded(p) {
      TargetAfter(s, t, w, plan, r, p, hops);
    }
  }

  lemma SameExtra(s: Store, t: Store, w: Scope, plan: seq<Entry>, r: Roots, p: Path, hops: nat)
    requires Quiet(s, w) && Covers(w, plan) && CopiedTo(s, t, w, plan, |plan|)
    requires SkillReady(s, w, r, hops) && CopiesSkill(s, plan, r, hops)
    ensures IsExtra(t, r, p, hops) <==> IsExtra(s, r, p, hops)
    ensures IsExtra(s, r, p, hops) ==> Strays(t, r, p, hops) == Strays(s, r, p, hops)
  {
    CopiesKeepLinks(s, t, w, plan);
    SourceStays(s, t, w, plan, r, p, false, hops);
    DirectoryIsReal(s, r.source, hops);
    DirectoryIsReal(t, r.source, hops);
    TargetIsReal(s, t, w, r, hops);
    if !Canonical(s, r.source, p, false, hops) {
      ExtraStays(s, t, w, plan, r, p, hops);
      SameLeads(s, t, r.target + p, r.runtime, hops);
      InTarget(s, r, p, hops);
      InTarget(t, r, p, hops);
    }
  }

  lemma TargetIsReal(s: Store, t: Store, w: Scope, r: Roots, hops: nat)
    requires Quiet(s, w) && Stage(s, t, w) && Grows(s, t) && SkillReady(s, w, r, hops)
    ensures Clear(t, r.target) && (r.target in t ==> t[r.target].Dir?)
  {
    StageClear(s, t, w, r.target);
    FileUntouched(s, t, w, r.target);
  }

  lemma InTarget(s: Store, r: Roots, p: Path, hops: nat)
    requires WellFormed(s) && Clear(s, r.target) && (r.target in s ==> s[r.target].Dir?)
    ensures InTree(s, r.target, p, true, hops) <==> Canonical(s, r.target, p, true, hops)
    ensures InTree(s, r.target, p, true, hops) ==> RealOf(s, r.target, hops) == r.target
  {
    DirectoryIsReal(s, r.target, hops);
    if Canonical(s, r.target, p, true, hops) {
      var q := r.target + p;
      PrefixesAreDirs(s, q, |r.target|);
      assert q[..|r.target|] == r.target;
    }
  }

  // After the copies the comparison reports no difference, and it reports just
  // the extra files that it reported before.
  lemma CopiesBringParity(s: Store, t: Store, w: Scope, plan: seq<Entry>, r: Roots, e: SkillError, hops: nat)
    requires Quiet(s, w) && Covers(w, plan) && CopiedTo(s, t, w, plan, |plan|)
    requires SkillReady(s, w, r, hops) && CopiesSkill(s, plan, r, hops)
    ensures Reported(t, r, e, hops) <==> Reported(s, r, e, hops) && !e.Parity?
  {
    DirectoryIsReal(s, r.source, hops);
    DirectoryIsReal(t, r.source, hops);
    if e.Parity? {
      SourceStays(s, t, w, plan, r, e.relative, false, hops);
      if Canonical(s, r.source, e.relative, false, hops) {
        CopyIsThere(s, t, w, plan, r, e.relative, hops);
      }
    } else if !e.SourceRoot? {
      SameExtra(s, t, w, plan, r, e.relative, hops);
    }
  }

  // Nor does it raise where it did not, or the other way round.
  lemma CopiesRaiseAlike(s: Store, t: Store, w: Scope, plan: seq<Entry>, r: Roots, hops: nat)
    requires Quiet(s, w) && Covers(w, plan) && CopiedTo(s, t, w, plan, |plan|)
    requires SkillReady(s, w, r, hops) && CopiesSkill(s, plan, r, hops)
    ensures Raises(t, r, hops) <==> Raises(s, r, hops)
  {
    DirectoryIsReal(s, r.source, hops);
    DirectoryIsReal(t, r.source, hops);
    TargetIsReal(s, t, w, r, hops);
    forall p
      ensures RaisesAlikeAt(s, t, r, p, hops)
    {
      SameBroken(s, t, w, plan, r.source, p, hops);
      SameBroken(s, t, w, plan, r.target, p, hops);
      AsksAlike(s, t, w, plan, r, p, hops);
    }
    RaisesAlike(s, t, r, hops);
  }

  ghost predicate RaisesAlikeAt(s: Store, t: Store, r: Roots, p: Path, hops: nat) {
    && (BrokenAt(t, r.source, p, hops) <==> BrokenAt(s, r.source, p, hops))
    && (BrokenAt(t, r.target, p, hops) <==> BrokenAt(s, r.target, p, hops))
    && (AskRaises(t, r, p, hops) <==> AskRaises(s, r, p, hops))
  }

  lemma RaisesAlike(s: Store, t: Store, r: Roots, hops: nat)
    requires (IsDir(t, r.source, hops) <==> IsDir(s, r.source, hops)) && forall p :: RaisesAlikeAt(s, t, r, p, hops)
    ensures Raises(t, r, hops) <==> Raises(s, r, hops)
  {
    if p :| BrokenAt(s, r.source, p, hops) || BrokenAt(s, r.target, p, hops) || AskRaises(s, r, p, hops) {
      assert RaisesAlikeAt(s, t, r, p, hops);
    }
    if p :| BrokenAt(t, r.source, p, hops) || BrokenAt(t, r.target, p, hops) || AskRaises(t, r, p, hops) {
      assert RaisesAlikeAt(s, t, r, p, hops);
    }
  }

  lemma AsksAlike(s: Store, t: Store, w: Scope, plan: seq<Entry>, r: Roots, p: Path, hops: nat)
    requires Quiet(s, w) && Covers(w, plan) && CopiedTo(s, t, w, plan, |plan|)
    requires SkillReady(s, w, r, hops) && CopiesSkill(s, plan, r, hops)
    ensures AskRaises(t, r, p, hops) <==> AskRaises(s, r, p, hops)
  {
    DirectoryIsReal(s, r.source, hops);
    DirectoryIsReal(t, r.source, hops);
    SameExtra(s, t, w, plan, r, p, hops);
    SourceStays(s, t, w, plan, r, p, false, hops);
    if Canonical(s, r.source, p, false, hops) {
      CopyIsThere(s, t, w, plan, r, p, hops);
      AsksInVain(s, w, r, p, hops);
    }
  }

  lemma SameBroken(s: Store, t: Store, w: Scope, plan: seq<Entry>, d: Path, p: Path, hops: nat)
    requires Quiet(s, w) && CopiedTo(s, t, w, plan, |plan|)
    requires IsDirAt(s, d) || (Clear(s, d) && (d in s ==> s[d].Dir?))
    requires IsDirAt(t, d) || (Clear(t, d) && (d in t ==> t[d].Dir?))
    ensures BrokenAt(t, d, p, hops) <==> BrokenAt(s, d, p, hops)
  {
    CopiesKeepLinks(s, t, w, plan);
    DirectoryIsReal(s, d, hops);
    DirectoryIsReal(t, d, hops);
    SameLeads(s, t, d + p, d, hops);
    if IsLinkAt(s, d + p) && p != [] {
      PrefixesAreDirs(s, d + p, |d|);
      PrefixesAreDirs(t, d + p, |d|);
      assert (d + p)[..|d|] == d;
    }
  }

  // Comparing a regular source file with whatever is at its place never raises.
  lemma AsksInVain(s: Store, w: Scope, r: Roots, p: Path, hops: nat)
    requires Quiet(s, w) && SkillReady(s, w, r, hops) && Canonical(s, r.source, p, false, hops)
    ensures Differs(s, r, p, hops).Some?
  {
    var source, target := r.source + p, r.target + p;
    DirectoryIsReal(s, r.source, hops);
    PhysicalWalk(s, source, hops);
    ResolvePrefix(s, r.target, r.runtime, hops);
    if IsFile(s, target, hops) {
      ResolveIsWalk(s, [], target, hops);
    }
  }
}
