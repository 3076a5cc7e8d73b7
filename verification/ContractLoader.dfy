// Reading the projection declarations of an assembly.
module ContractLoader {
  import opened Paths
  import opened Options
  import opened PathText
  import opened Projections

  // `normal` tells whether both path texts are in Unicode normal form C.
  datatype Declaration = Declaration(
    fields: set<string>, kind: string, profile: string, logicalPath: string, targetPath: string,
    writeMode: string, verifyLogicalPath: bool, normal: bool)

  const PROJECTION_TYPE := "profile_plugin_global_projection"
  const WRITE_MODE := "canonical_target_only"
  const REQUIRED_FIELDS: set<string> :=
    {"type", "profile", "logical_path", "target_path", "write_mode", "verify_logical_path"}
  const FORBIDDEN_PATTERN_CHARS: set<char> := {'*', '?', '[', ']', '{', '}'}

  // `_relative`: the components of an unambiguous relative path.
  function Relative(value: string): Option<Path> {
    var parts := NoDots(Parts(value));
    if value == "" || IsAbsolute(value) || '\\' in value || UP in parts then None
    else if exists c | c in value :: c in FORBIDDEN_PATTERN_CHARS then None
    else Some(parts)
  }

  // The runtime profile of a logical one: only task-main may have another name.
  function RuntimeProfile(profile: string, profiles: map<string, string>): string {
    if profile == "task-main" && profile in profiles && profiles[profile] == "aota-task-main" then "aota-task-main"
    else profile
  }

  function ExpectedLogical(runtimeProfile: string): string {
    "profiles" + [SLASH] + (runtimeProfile + [SLASH] + TargetText())
  }

  function TargetText(): string {
    "plugins" + [SLASH] + "aota-tools"
  }

  // `Path(...).as_posix()`
  function Posix(parts: Path): string {
    if parts == [] then DOT else Joined(parts)
  }

  // One declaration, without regard to the others.
  predicate IsDeclared(d: Declaration, profiles: map<string, string>) {
    && d.fields == REQUIRED_FIELDS
    && d.kind == PROJECTION_TYPE && d.writeMode == WRITE_MODE && d.verifyLogicalPath
    && d.profile in profiles && d.normal
    && Relative(d.logicalPath).Some? && Relative(d.targetPath).Some?
    && Posix(Relative(d.logicalPath).value) == ExpectedLogical(RuntimeProfile(d.profile, profiles))
    && Posix(Relative(d.targetPath).value) == TargetText()
  }

  function PathOf(value: string): Path {
    if Relative(value).Some? then Relative(value).value else []
  }

  function ItemOf(d: Declaration): Projection {
    Projection(d.profile, PathOf(d.logicalPath), PathOf(d.targetPath))
  }

  // Declaration `i` is valid and names no alias that one before it names.
  predicate Accepts(ds: seq<Declaration>, i: nat, profiles: map<string, string>)
    requires i < |ds|
  {
    IsDeclared(ds[i], profiles) && PathOf(ds[i].logicalPath) !in AliasesOf(ds, i)
  }

  function AliasesOf(ds: seq<Declaration>, n: nat): set<Path>
    requires n <= |ds|
  {
    set i | 0 <= i < n :: PathOf(ds[i].logicalPath)
  }

  // The declarations are valid and no two have the same alias.
  ghost predicate AllDeclared(ds: seq<Declaration>, n: nat, profiles: map<string, string>)
    requires n <= |ds|
  {
    forall i | 0 <= i < n :: Accepts(ds, i, profiles)
  }

  // What the first `n` declarations of an assembly amount to.
  ghost predicate IsLoaded(ds: seq<Declaration>, n: nat, c: Contract)
    requires n <= |ds|
  {
    |c| == n && forall i | 0 <= i < n :: c[i] == ItemOf(ds[i])
  }

  // The loop has accepted the first `n` declarations.
  ghost predicate Accepted(ds: seq<Declaration>, n: nat, profiles: map<string, string>, seen: set<Path>, c: Contract)
    requires n <= |ds|
  {
    AllDeclared(ds, n, profiles) && IsLoaded(ds, n, c) && seen == AliasesOf(ds, n)
  }

  lemma AcceptNext(ds: seq<Declaration>, i: nat, profiles: map<string, string>, seen: set<Path>, c: Contract)
    requires i < |ds| && Accepted(ds, i, profiles, seen, c)
    ensures var logical := PathOf(ds[i].logicalPath);
      if IsDeclared(ds[i], profiles) && logical !in seen
      then Accepted(ds, i + 1, profiles, seen + {logical}, c + [ItemOf(ds[i])])
      else !AllDeclared(ds, |ds|, profiles)
  {
    if Accepts(ds, i, profiles) {
      NextAlias(ds, i);
      NextLoaded(ds, i, c);
    }
  }

  lemma NextAlias(ds: seq<Declaration>, i: nat)
    requires i < |ds|
    ensures AliasesOf(ds, i + 1) == AliasesOf(ds, i) + {PathOf(ds[i].logicalPath)}
  {}

  lemma NextLoaded(ds: seq<Declaration>, i: nat, c: Contract)
    requires i < |ds| && IsLoaded(ds, i, c)
    ensures IsLoaded(ds, i + 1, c + [ItemOf(ds[i])])
  {}

  lemma AcceptedAll(ds: seq<Declaration>, profiles: map<string, string>, seen: set<Path>, c: Contract)
    requires Accepted(ds, |ds|, profiles, seen, c)
    ensures AllDeclared(ds, |ds|, profiles) && IsLoaded(ds, |ds|, c) && forall i | 0 <= i < |c| :: c[i].target == TARGET
    ensures WellFormedContract(c) <==> forall i | 0 <= i < |ds| :: SLASH !in ds[i].profile
  {
    SameTargets(ds, profiles, c);
    LoadedIsWellFormedExactly(ds, profiles, c);
  }

  // `load_projection_contract`.  All valid declarations have the same target,
  // so the last check never fails.
  method LoadContract(version: int, ds: seq<Declaration>, profiles: map<string, string>) returns (c: Option<Contract>)
    ensures c.Some? <==> version == 1 && AllDeclared(ds, |ds|, profiles)
    ensures c.Some? ==> IsLoaded(ds, |ds|, c.value)
    ensures c.Some? ==> (WellFormedContract(c.value) <==> forall i | 0 <= i < |ds| :: SLASH !in ds[i].profile)
  {
    if version != 1 {
      return None;
    }
    var seen: set<Path>, result: Contract := {}, [];
    for i := 0 to |ds|
      invariant Accepted(ds, i, profiles, seen, result)
    {
      AcceptNext(ds, i, profiles, seen, result);
      var logical := PathOf(ds[i].logicalPath);
      if !IsDeclared(ds[i], profiles) || logical in seen {
        return None;
      }
      seen := seen + {logical};
      result := result + [ItemOf(ds[i])];
    }
    AcceptedAll(ds, profiles, seen, result);
    if exists i | 0 <= i < |result| :: result[i].target != result[0].target {
      return None;
    }
    c := Some(result);
  }

  /* ---- What a loaded contract promises ---- */

  lemma TargetParts()
    ensures Parts(TargetText()) == TARGET
  {
    assert IsName("plugins") && IsName("aota-tools");
    PartsOfName("plugins");
    PartsOfName("aota-tools");
    PartsThenSlash("plugins", "aota-tools");
  }

  lemma ExpectedParts(runtimeProfile: string)
    ensures Parts(ExpectedLogical(runtimeProfile)) == ["profiles"] + Parts(runtimeProfile) + TARGET
  {
    assert IsName("profiles");
    PartsOfName("profiles");
    TargetParts();
    PartsThenSlash(runtimeProfile, TargetText());
    PartsThenSlash("profiles", runtimeProfile + [SLASH] + TargetText());
  }

  // Where the declared paths lead.  All targets are the same, so the last
  // check of the loader never fails.
  lemma DeclaredPaths(d: Declaration, profiles: map<string, string>)
    requires IsDeclared(d, profiles)
    ensures Relative(d.targetPath) == Some(TARGET)
    ensures Relative(d.logicalPath) == Some(["profiles"] + Parts(RuntimeProfile(d.profile, profiles)) + TARGET)
  {
    TargetParts();
    ExpectedParts(RuntimeProfile(d.profile, profiles));
    PosixParts(d.targetPath);
    PosixParts(d.logicalPath);
  }

  // The text is relative, has no backslash and no wildcard, and its components
  // besides "." are these.
  ghost predicate ReadsAs(value: string, ps: Path) {
    !IsAbsolute(value) && IsClean(value) && NoDots(Parts(value)) == ps
  }

  lemma RelativeExactly(value: string, ps: Path)
    requires ps != [] && UP !in ps
    ensures Relative(value) == Some(ps) <==> ReadsAs(value, ps)
  {
    if ReadsAs(value, ps) {
      assert value != "" by {
        assert Parts("") == [];
      }
    }
  }

  // A declaration of an ordinary profile is valid exactly if every field is the
  // expected one and the two paths read as expected: task-main is deployed as
  // aota-task-main where the assembly says so, any other profile under its own
  // name.
  lemma DeclaredExactly(d: Declaration, profiles: map<string, string>, runtime: Name)
    requires IsName(d.profile) && d.profile != DOT && d.profile != UP
    requires runtime ==
      if d.profile == "task-main" && ("task-main", "aota-task-main") in profiles.Items then "aota-task-main"
      else d.profile
    ensures IsDeclared(d, profiles) <==> (
      && d.fields == {"type", "profile", "logical_path", "target_path", "write_mode", "verify_logical_path"}
      && d.kind == "profile_plugin_global_projection" && d.writeMode == "canonical_target_only"
      && d.verifyLogicalPath && d.normal && d.profile in profiles
      && ReadsAs(d.logicalPath, ["profiles", runtime, "plugins", "aota-tools"])
      && ReadsAs(d.targetPath, ["plugins", "aota-tools"]))
  {
    assert RuntimeProfile(d.profile, profiles) == runtime;
    var logical := ["profiles", runtime, "plugins", "aota-tools"];
    AliasText(runtime);
    RelativeExactly(d.logicalPath, logical);
    RelativeExactly(d.targetPath, ["plugins", "aota-tools"]);
    if IsDeclared(d, profiles) {
      DeclaredPaths(d, profiles);
      PartsOfName(runtime);
      assert ["profiles"] + [runtime] + TARGET == logical;
    }
  }

  lemma AliasText(runtime: Name)
    ensures Posix(["profiles", runtime, "plugins", "aota-tools"]) == ExpectedLogical(runtime)
    ensures Posix(["plugins", "aota-tools"]) == TargetText()
  {
    var target := ["plugins", "aota-tools"];
    assert target[1..] == ["aota-tools"];
    var rest := [runtime, "plugins", "aota-tools"];
    assert rest[1..] == target && Joined(target) == "plugins" + [SLASH] + "aota-tools";
    assert Joined(rest) == runtime + [SLASH] + Joined(target);
    var all := ["profiles", runtime, "plugins", "aota-tools"];
    assert all[1..] == rest && Joined(all) == "profiles" + [SLASH] + Joined(rest);
  }

  lemma PosixParts(value: string)
    requires Posix(NoDots(Parts(value))) != DOT
    ensures Parts(Posix(NoDots(Parts(value)))) == NoDots(Parts(value))
  {
    PartsAreNames(value);
    forall n | n in NoDots(Parts(value))
      ensures IsName(n)
    {
      NoDotsHas(Parts(value), n);
    }
    PartsOfJoined(NoDots(Parts(value)));
  }

  lemma SameTargets(ds: seq<Declaration>, profiles: map<string, string>, c: Contract)
    requires AllDeclared(ds, |ds|, profiles) && IsLoaded(ds, |ds|, c)
    ensures forall i | 0 <= i < |c| :: c[i].target == TARGET
  {
    forall i | 0 <= i < |c|
      ensures c[i].target == TARGET
    {
      assert Accepts(ds, i, profiles);
      DeclaredPaths(ds[i], profiles);
    }
  }

  // A loaded contract is what the validator relies on exactly when no declared
  // profile has a slash in its name.
  lemma LoadedIsWellFormedExactly(ds: seq<Declaration>, profiles: map<string, string>, c: Contract)
    requires AllDeclared(ds, |ds|, profiles) && IsLoaded(ds, |ds|, c)
    ensures WellFormedContract(c) <==> forall i | 0 <= i < |ds| :: SLASH !in ds[i].profile
  {
    forall i | 0 <= i < |ds|
      ensures WellFormedItem(c[i]) <==> SLASH !in ds[i].profile
    {
      assert Accepts(ds, i, profiles);
      ItemWellFormedExactly(ds[i], profiles);
    }
    forall i, j | 0 <= i < j < |c|
      ensures c[i].logical != c[j].logical
    {
      assert Accepts(ds, j, profiles) && PathOf(ds[i].logicalPath) in AliasesOf(ds, j);
    }
  }

  lemma ItemWellFormedExactly(d: Declaration, profiles: map<string, string>)
    requires IsDeclared(d, profiles)
    ensures WellFormedItem(ItemOf(d)) <==> SLASH !in d.profile
  {
    var r := RuntimeProfile(d.profile, profiles);
    DeclaredPaths(d, profiles);
    ProfileIsTight(d, profiles);
    assert SLASH in r <==> SLASH in d.profile;
    var logical := ItemOf(d).logical;
    assert UP !in logical;
    WellFormedLogical(d.profile, Parts(r));
    if SLASH in r {
      PartsOfSlashed(r);
    } else {
      PartsOfName(r);
      assert logical[1] == r && r in logical;
    }
  }

  lemma WellFormedLogical(profile: string, middle: Path)
    ensures WellFormedItem(Projection(profile, ["profiles"] + middle + TARGET, TARGET)) <==>
      |middle| == 1 && middle[0] != UP
  {
    var logical := ["profiles"] + middle + TARGET;
    if |middle| == 1 {
      assert logical[1] == middle[0] && logical == ["profiles", middle[0]] + TARGET;
    }
  }

  // The declared spelling has no doubled slash, so the profile neither is
  // empty nor starts or ends with a slash.
  lemma ProfileIsTight(d: Declaration, profiles: map<string, string>)
    requires IsDeclared(d, profiles)
    ensures var r := RuntimeProfile(d.profile, profiles);
      r != "" && r[0] != SLASH && r[|r| - 1] != SLASH && !HasDouble(r)
  {
    var r := RuntimeProfile(d.profile, profiles);
    var ps := NoDots(Parts(d.logicalPath));
    PartsAreNames(d.logicalPath);
    forall n | n in ps
      ensures IsName(n)
    {
      NoDotsHas(Parts(d.logicalPath), n);
    }
    DeclaredPaths(d, profiles);
    JoinedIsTight(ps);
    var e := ExpectedLogical(r);
    assert e == Joined(ps) && e[8] == SLASH && e[9..] == r + [SLASH] + TargetText();
    assert !DoubleAt(e, 8) && !DoubleAt(e, 8 + |r|);
    forall i: int
      ensures !DoubleAt(r, i)
    {
      assert DoubleAt(r, i) ==> DoubleAt(e, i + 9);
    }
  }

  lemma PartsOfSlashed(r: string)
    requires SLASH in r && r[0] != SLASH && r[|r| - 1] != SLASH && !HasDouble(r)
    ensures |Parts(r)| >= 2
  {
    var i :| 0 <= i < |r| && r[i] == SLASH;
    var a, b := r[..i], r[i + 1..];
    assert r == a + [SLASH] + b && !DoubleAt(r, i);
    PartsThenSlash(a, b);
  }

  // A tight text of plain components is read as these components.
  lemma TightRelative(value: string, ps: Path)
    requires ps != [] && AreNames(ps) && UP !in ps && DOT !in ps && value == Joined(ps) && !IsAbsolute(value)
    requires IsClean(value)
    ensures Relative(value) == Some(ps) && Posix(ps) == value
  {
    PartsOfJoined(ps);
    NoDotsKeeps(ps);
    assert value != "" by {
      assert IsName(ps[0]);
    }
  }

  // A declaration whose profile is "a/b" loads.
  const SLASHED_PROFILE := "a" + [SLASH] + "b"
  const SLASHED_TEXT := ExpectedLogical(SLASHED_PROFILE)
  const SLASHED: Declaration := Declaration(
    REQUIRED_FIELDS, PROJECTION_TYPE, SLASHED_PROFILE, SLASHED_TEXT, TargetText(), WRITE_MODE, true, true)

  // No backslash and no wildcard.
  predicate IsClean(value: string) {
    forall c | c in value :: c != '\\' && c !in FORBIDDEN_PATTERN_CHARS
  }

  const SLASHED_PARTS: Path := ["profiles", "a", "b", "plugins", "aota-tools"]

  lemma JoinedFive(a: Name, b: Name, c: Name, d: Name, e: Name)
    ensures Joined([a, b, c, d, e]) == a + [SLASH] + ((b + [SLASH] + c) + [SLASH] + (d + [SLASH] + e))
  {
    assert Joined([d, e]) == d + [SLASH] + e;
    assert Joined([c, d, e]) == c + [SLASH] + Joined([d, e]);
    assert Joined([b, c, d, e]) == b + [SLASH] + Joined([c, d, e]);
    assert Joined([a, b, c, d, e]) == a + [SLASH] + Joined([b, c, d, e]);
  }

  lemma SlashedJoined()
    ensures Joined(SLASHED_PARTS) == SLASHED_TEXT
  {
    JoinedFive("profiles", "a", "b", "plugins", "aota-tools");
  }

  lemma CleanJoin(a: string, b: string)
    requires IsClean(a) && IsClean(b)
    ensures IsClean(a + [SLASH] + b)
  {}

  predicate IsLetter(c: char) {
    'a' <= c <= 'z' || c == '-'
  }

  lemma LettersAreClean(a: string)
    requires forall c | c in a :: IsLetter(c)
    ensures IsClean(a)
  {}

  lemma SlashedClean()
    ensures IsClean(SLASHED_TEXT) && !IsAbsolute(SLASHED_TEXT)
  {
    LettersAreClean("profiles");
    LettersAreClean("a");
    LettersAreClean("b");
    LettersAreClean("plugins");
    LettersAreClean("aota-tools");
    CleanJoin("a", "b");
    CleanJoin("plugins", "aota-tools");
    CleanJoin(SLASHED_PROFILE, TargetText());
    CleanJoin("profiles", SLASHED_PROFILE + [SLASH] + TargetText());
    assert SLASHED_TEXT[0] == 'p';
  }

  lemma SlashedNames()
    ensures AreNames(SLASHED_PARTS) && UP !in SLASHED_PARTS && DOT !in SLASHED_PARTS
  {}

  lemma SlashedLogical()
    ensures Relative(SLASHED_TEXT) == Some(SLASHED_PARTS) && Posix(SLASHED_PARTS) == SLASHED_TEXT
  {
    SlashedJoined();
    SlashedNames();
    SlashedClean();
    TightRelative(SLASHED_TEXT, SLASHED_PARTS);
  }

  lemma JoinedTwo(a: Name, b: Name)
    ensures Joined([a, b]) == a + [SLASH] + b
  {
    assert [a, b][1..] == [b];
  }

  lemma TargetClean()
    ensures IsClean(TargetText()) && !IsAbsolute(TargetText())
  {
    LettersAreClean("plugins");
    LettersAreClean("aota-tools");
    CleanJoin("plugins", "aota-tools");
    assert TargetText()[0] == 'p';
  }

  lemma SlashedTarget()
    ensures Relative(TargetText()) == Some(TARGET) && Posix(TARGET) == TargetText()
  {
    JoinedTwo("plugins", "aota-tools");
    TargetClean();
    assert AreNames(TARGET) && UP !in TARGET && DOT !in TARGET;
    TightRelative(TargetText(), TARGET);
  }

  lemma SlashedProfileLoads(profiles: map<string, string>)
    requires SLASHED_PROFILE in profiles
    ensures IsDeclared(SLASHED, profiles) && !WellFormedItem(ItemOf(SLASHED))
  {
    SlashedLogical();
    SlashedTarget();
    assert SLASHED_PROFILE != "task-main";
    assert RuntimeProfile(SLASHED_PROFILE, profiles) == SLASHED_PROFILE;
    assert |ItemOf(SLASHED).logical| == 5;
  }
}
