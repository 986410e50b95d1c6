/** The apply adapter, scripts/auto-update-adapter.sh: back up, run the installer, and put
    everything back if the installer fails.
 */
module ApplyAdapter {
  import opened Options

  /** A file system entry; copies with `cp -a` reproduce it as it is. */
  datatype Node = Regular(content: string) | Link(target: string) | Directory

  type Tree = map<string, Node>

  /** The unit files the adapter saves. */
  const UNITS: seq<string> := [
    "pto-auth-proxy.service",
    "pto-auth-proxy-authd@.service",
    "pto-auth-proxy-authd-members.service",
    "pto-auth-proxy-egress-guard.service",
    "pto-auth-proxy-auto-update.service",
    "pto-auth-proxy-auto-update.timer"
  ]

  /** The installed application, the unit directory, and the paths outside both. */
  datatype World = World(app: Tree, units: Tree, outside: Tree)

  // ---------------------------------------------------------------- the installer

  /** A write puts a node at a path, or leaves the path absent. */
  datatype Write =
    | AppFile(path: string, node: Option<Node>)
    | UnitFile(name: string, node: Option<Node>)
    | OutsideFile(path: string, node: Option<Node>)

  function Put(t: Tree, path: string, node: Option<Node>): (r: Tree)
    ensures Entry(r, path) == node
    ensures forall other :: other != path ==> Entry(r, other) == Entry(t, other)
  {
    match node
    case None => t - {path}
    case Some(n) => t[path := n]
  }

  function Perform(w: World, x: Write): World {
    match x
    case AppFile(path, node) => w.(app := Put(w.app, path, node))
    case UnitFile(name, node) => w.(units := Put(w.units, name, node))
    case OutsideFile(path, node) => w.(outside := Put(w.outside, path, node))
  }

  function PerformAll(w: World, xs: seq<Write>): World
    decreases |xs|
  {
    if xs == [] then w else PerformAll(Perform(w, xs[0]), xs[1..])
  }

  const APP_FILES: seq<string> := [
    "bin/pto-auth-proxy", "auth-proxy/auth_proxy.py", "auth-proxy/authd.py", "auth-proxy/join-proxy.sh",
    "auth-proxy/leave-proxy.sh", "auth-proxy/configure-shell.sh", "auth-proxy/status_proxy.py",
    "auth-proxy/test_proxy.sh", "bin/pto-auth-proxy-egress-guard", "bin/pto-auth-proxy-start-authd-members",
    "lib/repo-auto-update/updater.sh", "lib/repo-auto-update/manifest.py",
    "bin/pto-auth-proxy-update-verify", "bin/pto-auth-proxy-update-apply"
  ]

  const BIN_LINK := "/usr/local/bin/pto-auth-proxy"
  const LINK_TARGET := "bin/pto-auth-proxy"
  const UPDATER_CONFIG := "config/auto-update.env"

  /** The directories beside the application, in the order in which they are created. */
  const DIRS: seq<string> := ["config", "tmp", "state", "state/reports", "logs"]

  /** Directories that are not confused with each other or with the two files outside. */
  ghost predicate DirsAreApart(dirs: seq<string>) {
    && (forall j, k :: 0 <= j < k < |dirs| ==> dirs[j] != dirs[k])
    && BIN_LINK !in dirs && UPDATER_CONFIG !in dirs
  }

  lemma InstalledDirsAreApart()
    ensures DirsAreApart(DIRS)
  {
    assert |DIRS[0]| == 6 && |DIRS[1]| == 3 && |DIRS[2]| == 5 && |DIRS[3]| == 13 && |DIRS[4]| == 4;
    assert |UPDATER_CONFIG| == 22 && |BIN_LINK| == 29;
  }

  /** `install -d`: what is there already stays. */
  function DirWrites(w: World, dirs: seq<string>): seq<Write> {
    if dirs == [] then []
    else (if dirs[0] in w.outside then [] else [OutsideFile(dirs[0], Some(Directory))]) + DirWrites(w, dirs[1..])
  }

  function AppWrites(paths: seq<string>, content: string -> string): seq<Write> {
    if paths == [] then [] else [AppFile(paths[0], Some(Regular(content(paths[0]))))] + AppWrites(paths[1..], content)
  }

  function UnitWrite(name: string, content: string -> string): Write {
    UnitFile(name, Some(Regular(content(name))))
  }

  function UnitWrites(names: seq<string>, content: string -> string): seq<Write> {
    if names == [] then [] else [UnitWrite(names[0], content)] + UnitWrites(names[1..], content)
  }

  /** The command link, unless it is right already, and the updater's configuration if there
      is none yet. */
  function LinkWrites(w: World): seq<Write> {
    if Entry(w.outside, BIN_LINK) == Some(Link(LINK_TARGET)) then [] else [OutsideFile(BIN_LINK, Some(Link(LINK_TARGET)))]
  }

  function ConfigWrites(w: World, content: string -> string): seq<Write> {
    if UPDATER_CONFIG in w.outside then [] else [OutsideFile(UPDATER_CONFIG, Some(Regular(content(UPDATER_CONFIG))))]
  }

  /** scripts/install.sh with `--install-service --install-updater`, in its order: the
      directories, then the files. */
  function InstallWrites(w: World, content: string -> string, dirs: seq<string>): seq<Write> {
    DirWrites(w, dirs) + FileWrites(w, content)
  }

  /** The application files, the link, four units, the configuration, two units. */
  function FileWrites(w: World, content: string -> string): seq<Write> {
    Sequence(AppWrites(APP_FILES, content), LinkWrites(w), UnitWrites(UNITS[..4], content),
             ConfigWrites(w, content), UnitWrites(UNITS[4..], content))
  }

  function Sequence(a: seq<Write>, b: seq<Write>, c: seq<Write>, d: seq<Write>, e: seq<Write>): seq<Write> {
    a + b + c + d + e
  }

  /** A run of the installer: how many writes it finishes, what the next one leaves behind if
      it breaks off inside it, and whether it reports success. */
  datatype Install = Install(finished: nat, torn: Option<Write>, ok: bool)

  /** An interrupted write damages at most the path it was writing, which may end up absent. */
  ghost predicate Fits(i: Install, plan: seq<Write>) {
    && i.finished <= |plan|
    && (i.ok ==> i.finished == |plan| && i.torn.None?)
    && (i.torn.Some? ==> i.finished < |plan| && SamePlace(i.torn.value, plan[i.finished]))
  }

  predicate SamePlace(x: Write, y: Write) {
    match x
    case AppFile(path, _) => y.AppFile? && y.path == path
    case UnitFile(name, _) => y.UnitFile? && y.name == name
    case OutsideFile(path, _) => y.OutsideFile? && y.path == path
  }

  function AfterInstall(w: World, i: Install, plan: seq<Write>): World
    requires i.finished <= |plan|
  {
    var done := PerformAll(w, plan[..i.finished]);
    if i.torn.Some? then Perform(done, i.torn.value) else done
  }

  // ---------------------------------------------------------------- what the installer can touch

  ghost predicate UnitsOnly(xs: seq<Write>, names: seq<string>) {
    forall x :: x in xs && x.UnitFile? ==> x.name in names
  }

  lemma {:induction false} AppWritesFacts(paths: seq<string>, content: string -> string)
    ensures forall x :: x in AppWrites(paths, content) ==> x.AppFile?
  {
    if paths != [] {
      AppWritesFacts(paths[1..], content);
    }
  }

  lemma {:induction false} UnitWritesFacts(names: seq<string>, content: string -> string)
    ensures forall x :: x in UnitWrites(names, content) ==> x.UnitFile? && x.name in names
    ensures forall n :: n in names ==> UnitWrite(n, content) in UnitWrites(names, content)
  {
    if names != [] {
      UnitWritesFacts(names[1..], content);
      assert names == [names[0]] + names[1..];
    }
  }

  ghost predicate NoUnits(xs: seq<Write>) {
    forall x :: x in xs ==> !x.UnitFile?
  }

  lemma {:induction false} SequenceUnits(a: seq<Write>, b: seq<Write>, c: seq<Write>, d: seq<Write>, e: seq<Write>,
                      first: seq<string>, second: seq<string>, content: string -> string)
    requires NoUnits(a) && NoUnits(b) && NoUnits(d)
    requires c == UnitWrites(first, content) && e == UnitWrites(second, content)
    ensures UnitsOnly(Sequence(a, b, c, d, e), first + second)
    ensures forall n :: n in first + second ==> UnitWrite(n, content) in Sequence(a, b, c, d, e)
  {
    UnitWritesFacts(first, content);
    UnitWritesFacts(second, content);
  }

  ghost predicate NewDir(w: World, x: Write) {
    x.OutsideFile? && x.node == Some(Directory) && x.path !in w.outside
  }

  lemma {:induction false} DirWritesFacts(w: World, dirs: seq<string>)
    requires forall j, k :: 0 <= j < k < |dirs| ==> dirs[j] != dirs[k]
    ensures forall x :: x in DirWrites(w, dirs) ==> NewDir(w, x) && x.path in dirs
    ensures FreshOutside(w, DirWrites(w, dirs))
  {
    if dirs != [] {
      var d, rest := dirs[0], dirs[1..];
      assert dirs == [d] + rest && d !in rest;
      DirWritesFacts(w, rest);
      var xs := DirWrites(w, rest);
      if d !in w.outside {
        DirInFront(w, OutsideFile(d, Some(Directory)), xs);
      }
    }
  }

  lemma DirInFront(w: World, x: Write, xs: seq<Write>)
    requires NewDir(w, x) && FreshOutside(w, xs) && forall y :: y in xs ==> NewDir(w, y) && y.path != x.path
    ensures FreshOutside(w, [x] + xs)
  {
    var all := [x] + xs;
    forall j, k | 0 <= j < k < |all| && all[j].OutsideFile? && all[k].OutsideFile?
      ensures all[j].path != all[k].path
    {
      assert all[k] in xs;
    }
    forall k | 0 <= k < |all| && all[k].OutsideFile?
      ensures Entry(w.outside, all[k].path) != all[k].node
    {
      assert all[k] == x || all[k] in xs;
    }
  }

  /** The directories lie outside and each is new. */
  lemma InstallerDirs(w: World, dirs: seq<string>)
    requires DirsAreApart(dirs)
    ensures FreshOutside(w, DirWrites(w, dirs)) && OnlyDirs(DirWrites(w, dirs))
  {
    DirWritesFacts(w, dirs);
    var xs := DirWrites(w, dirs);
    forall k | 0 <= k < |xs|
      ensures xs[k].OutsideFile? && xs[k].path != BIN_LINK && xs[k].path != UPDATER_CONFIG
    {
      assert xs[k] in xs;
    }
  }

  ghost predicate OnlyDirs(xs: seq<Write>) {
    forall k :: 0 <= k < |xs| ==> xs[k].OutsideFile? && xs[k].path != BIN_LINK && xs[k].path != UPDATER_CONFIG
  }

  lemma {:induction false} FileUnits(w: World, content: string -> string)
    ensures UnitsOnly(FileWrites(w, content), UNITS)
    ensures forall n :: n in UNITS ==> UnitWrite(n, content) in FileWrites(w, content)
  {
    AppWritesFacts(APP_FILES, content);
    SequenceUnits(AppWrites(APP_FILES, content), LinkWrites(w), UnitWrites(UNITS[..4], content),
                  ConfigWrites(w, content), UnitWrites(UNITS[4..], content), UNITS[..4], UNITS[4..], content);
    Halves(UNITS, 4);
  }

  /** The backup list covers the installer: it writes every saved unit, and no other unit. */
  lemma {:induction false} InstallerUnits(w: World, content: string -> string, dirs: seq<string>)
    requires DirsAreApart(dirs)
    ensures UnitsOnly(InstallWrites(w, content, dirs), UNITS)
    ensures forall n :: n in UNITS ==> UnitWrite(n, content) in InstallWrites(w, content, dirs)
  {
    InstallerDirs(w, dirs);
    FileUnits(w, content);
    UnitsBehind(DirWrites(w, dirs), FileWrites(w, content), content);
  }

  lemma UnitsBehind(first: seq<Write>, rest: seq<Write>, content: string -> string)
    requires (forall k :: 0 <= k < |first| ==> first[k].OutsideFile?) && UnitsOnly(rest, UNITS)
    requires forall n :: n in UNITS ==> UnitWrite(n, content) in rest
    ensures UnitsOnly(first + rest, UNITS)
    ensures forall n :: n in UNITS ==> UnitWrite(n, content) in first + rest
  {
  }

  lemma Halves(s: seq<string>, k: nat)
    requires k <= |s|
    ensures s[..k] + s[k..] == s
  {
  }

  lemma {:induction false} OtherUnitsStay(w: World, xs: seq<Write>, names: seq<string>, name: string)
    requires UnitsOnly(xs, names) && name !in names
    ensures Entry(PerformAll(w, xs).units, name) == Entry(w.units, name)
    decreases |xs|
  {
    if xs != [] {
      assert xs[0] in xs;
      OtherUnitsStay(Perform(w, xs[0]), xs[1..], names, name);
    }
  }

  /** Presence and content of a path. */
  function Entry(t: Tree, name: string): Option<Node> {
    if name in t then Some(t[name]) else None
  }

  lemma InstallKeepsOthers(w: World, i: Install, plan: seq<Write>, names: seq<string>, name: string)
    requires Fits(i, plan) && UnitsOnly(plan, names) && name !in names
    ensures Entry(AfterInstall(w, i, plan).units, name) == Entry(w.units, name)
  {
    assert UnitsOnly(plan[..i.finished], names);
    OtherUnitsStay(w, plan[..i.finished], names, name);
    if i.torn.Some? {
      assert plan[i.finished] in plan;
    }
  }

  // ---------------------------------------------------------------- the adapter

  /** Which commands of `restore_previous` succeed. */
  datatype Restore = Restore(moveAway: bool, moveBack: bool, unitOk: string -> bool)

  class Adapter {
    var world: World
    var backup: Tree               // $SCRATCH_DIR/application-backup
    var unitBackup: Tree           // $SCRATCH_DIR/unit-backup

    constructor (w: World)
      ensures world == w
    {
      world, backup, unitBackup := w, map[], map[];
    }

    /** Copies the application and every unit that exists; the others are marked absent. */
    method BackUp()
      modifies this`backup, this`unitBackup
      ensures backup == world.app
      ensures forall u :: u in UNITS ==> Entry(unitBackup, u) == Entry(world.units, u)
    {
      backup := world.app;
      unitBackup := map[];
      var i := 0;
      while i < |UNITS|
        invariant 0 <= i <= |UNITS|
        invariant backup == world.app
        invariant forall k :: 0 <= k < i ==> Entry(unitBackup, UNITS[k]) == Entry(world.units, UNITS[k])
        invariant forall u :: u in unitBackup ==> Entry(unitBackup, u) == Entry(world.units, u)
      {
        if UNITS[i] in world.units {
          unitBackup := unitBackup[UNITS[i] := world.units[UNITS[i]]];
        }
        i := i + 1;
      }
    }

    /** The loop that copies saved units back and removes the ones that were absent. */
    method RestoreUnits(r: Restore) returns (ok: bool)
      modifies this`world
      ensures world == old(world).(units := world.units)
      ensures forall u :: Entry(world.units, u) ==
                if u in UNITS && r.unitOk(u) then Entry(unitBackup, u) else Entry(old(world).units, u)
      ensures ok <==> forall u :: u in UNITS ==> r.unitOk(u)
    {
      ok := true;
      var i := 0;
      while i < |UNITS|
        invariant 0 <= i <= |UNITS|
        invariant world == old(world).(units := world.units)
        invariant forall u :: Entry(world.units, u) ==
                    if u in UNITS[..i] && r.unitOk(u) then Entry(unitBackup, u) else Entry(old(world).units, u)
        invariant ok <==> forall u :: u in UNITS[..i] ==> r.unitOk(u)
      {
        var unit := UNITS[i];
        assert UNITS[..i + 1] == UNITS[..i] + [unit];
        if r.unitOk(unit) {
          world := world.(units := if unit in unitBackup then world.units[unit := unitBackup[unit]]
                                   else world.units - {unit});
        } else {
          ok := false;
        }
        i := i + 1;
      }
      assert UNITS[..i] == UNITS;
    }

    method RestorePrevious(r: Restore) returns (ok: bool)
      modifies this`world
      ensures ok <==> r.moveAway && r.moveBack && forall u :: u in UNITS ==> r.unitOk(u)
      ensures world.outside == old(world).outside
      ensures if r.moveAway && r.moveBack then
                && world.app == backup
                && forall u :: Entry(world.units, u) ==
                     if u in UNITS && r.unitOk(u) then Entry(unitBackup, u) else Entry(old(world).units, u)
              else world == old(world)
    {
      if !r.moveAway {
        return false;
      }
      var failed := world.app;
      world := world.(app := map[]);
      if !r.moveBack {
        world := world.(app := failed);
        return false;
      }
      world := world.(app := backup);
      ok := RestoreUnits(r);
    }

    /** The whole apply mode, for a candidate whose installer follows `plan`. A failed installer
        is followed by the restore; when its commands succeed, the application and the six
        units are as they were, those that did not exist included. When moving the trees fails,
        nothing more is changed. */
    method Run(plan: seq<Write>, i: Install, r: Restore) returns (applied: bool, restored: bool)
      requires Fits(i, plan)
      modifies this
      ensures applied == i.ok
      ensures applied ==> world == PerformAll(old(world), plan)
      ensures !applied && restored ==> Undone(old(world), AfterInstall(old(world), i, plan), world)
      ensures !applied ==> (restored <==> r.moveAway && r.moveBack && forall u :: u in UNITS ==> r.unitOk(u))
      ensures !applied && !(r.moveAway && r.moveBack) ==> world == AfterInstall(old(world), i, plan)
    {
      BackUp();
      applied, restored := i.ok, false;
      if i.ok {
        assert plan[..i.finished] == plan;
      }
      world := AfterInstall(world, i, plan);
      if !i.ok {
        restored := RestorePrevious(r);
      }
    }
  }

  /** The application and the saved units are as before; everything else is as the installer
      left it. */
  ghost predicate Undone(before: World, left: World, after: World) {
    && after.app == before.app
    && after.outside == left.outside
    && forall u :: Entry(after.units, u) == Entry(if u in UNITS then before.units else left.units, u)
  }

  /** For an installer that keeps to the saved units, as scripts/install.sh does, a failed apply
      changes neither the application nor any unit, wherever the installer broke off. */
  lemma {:induction false} FailedApplyIsUndone(w: World, content: string -> string, dirs: seq<string>, i: Install, after: World)
    requires DirsAreApart(dirs)
    requires Fits(i, InstallWrites(w, content, dirs))
    requires Undone(w, AfterInstall(w, i, InstallWrites(w, content, dirs)), after)
    ensures after.app == w.app && after.units == w.units
  {
    var plan := InstallWrites(w, content, dirs);
    InstallerUnits(w, content, dirs);
    forall u
      ensures Entry(after.units, u) == Entry(w.units, u)
    {
      if u !in UNITS {
        InstallKeepsOthers(w, i, plan, UNITS, u);
      }
    }
    SameEntries(after.units, w.units);
  }

  lemma SameEntries(a: Tree, b: Tree)
    requires forall u :: Entry(a, u) == Entry(b, u)
    ensures a == b
  {
    forall u
      ensures u in a <==> u in b
      ensures u in a ==> a[u] == b[u]
    {
      assert Entry(a, u) == Entry(b, u);
    }
  }

  lemma {:induction false} LastUnitWrite(w: World, xs: seq<Write>, name: string, node: Option<Node>)
    requires forall x :: x in xs && x.UnitFile? && x.name == name ==> x.node == node
    requires UnitFile(name, node) in xs || Entry(w.units, name) == node
    ensures Entry(PerformAll(w, xs).units, name) == node
    decreases |xs|
  {
    if xs != [] {
      assert xs[0] in xs && xs == [xs[0]] + xs[1..];
      LastUnitWrite(Perform(w, xs[0]), xs[1..], name, node);
    }
  }

  lemma {:induction false} LastAppWrite(w: World, xs: seq<Write>, path: string, node: Option<Node>)
    requires forall x :: x in xs && x.AppFile? && x.path == path ==> x.node == node
    requires AppFile(path, node) in xs || Entry(w.app, path) == node
    ensures Entry(PerformAll(w, xs).app, path) == node
    decreases |xs|
  {
    if xs != [] {
      assert xs[0] in xs && xs == [xs[0]] + xs[1..];
      LastAppWrite(Perform(w, xs[0]), xs[1..], path, node);
    }
  }

  /** What the installer writes is the candidate's own content. */
  ghost predicate NodesAre(xs: seq<Write>, content: string -> string) {
    forall x :: x in xs && !x.OutsideFile? ==>
      x.node == Some(Regular(content(if x.AppFile? then x.path else x.name)))
  }

  lemma {:induction false} WritesHaveContent(names: seq<string>, content: string -> string)
    ensures NodesAre(AppWrites(names, content), content) && NodesAre(UnitWrites(names, content), content)
    ensures forall n :: n in names ==> AppFile(n, Some(Regular(content(n)))) in AppWrites(names, content)
  {
    if names != [] {
      WritesHaveContent(names[1..], content);
      assert names == [names[0]] + names[1..];
    }
  }

  ghost predicate AllOutside(xs: seq<Write>) {
    forall x :: x in xs ==> x.OutsideFile?
  }

  lemma SequenceContent(a: seq<Write>, b: seq<Write>, c: seq<Write>, d: seq<Write>, e: seq<Write>,
                        content: string -> string)
    requires NodesAre(a, content) && NodesAre(c, content) && NodesAre(e, content) && AllOutside(b) && AllOutside(d)
    ensures NodesAre(Sequence(a, b, c, d, e), content)
    ensures forall x :: x in a ==> x in Sequence(a, b, c, d, e)
  {
  }

  lemma TwoFilesOutside(w: World, content: string -> string)
    ensures AllOutside(LinkWrites(w)) && AllOutside(ConfigWrites(w, content))
  {
  }

  lemma FileContent(w: World, content: string -> string)
    ensures NodesAre(FileWrites(w, content), content)
    ensures forall n :: n in APP_FILES ==> AppFile(n, Some(Regular(content(n)))) in FileWrites(w, content)
  {
    WritesHaveContent(APP_FILES, content);
    WritesHaveContent(UNITS[..4], content);
    WritesHaveContent(UNITS[4..], content);
    TwoFilesOutside(w, content);
    SequenceContent(AppWrites(APP_FILES, content), LinkWrites(w), UnitWrites(UNITS[..4], content),
                    ConfigWrites(w, content), UnitWrites(UNITS[4..], content), content);
  }

  lemma ContentBehind(first: seq<Write>, rest: seq<Write>, content: string -> string)
    requires AllOutside(first) && NodesAre(rest, content)
    ensures NodesAre(first + rest, content)
    ensures forall x :: x in rest ==> x in first + rest
  {
  }

  lemma InstallerContent(w: World, content: string -> string, dirs: seq<string>)
    requires DirsAreApart(dirs)
    ensures NodesAre(InstallWrites(w, content, dirs), content)
    ensures forall n :: n in APP_FILES ==> AppFile(n, Some(Regular(content(n)))) in InstallWrites(w, content, dirs)
  {
    FileContent(w, content);
    DirWritesFacts(w, dirs);
    ContentBehind(DirWrites(w, dirs), FileWrites(w, content), content);
  }

  lemma UnitEndsUp(w: World, plan: seq<Write>, content: string -> string, n: string)
    requires NodesAre(plan, content) && UnitWrite(n, content) in plan
    ensures Entry(PerformAll(w, plan).units, n) == Some(Regular(content(n)))
  {
    LastUnitWrite(w, plan, n, Some(Regular(content(n))));
  }

  lemma AppFileEndsUp(w: World, plan: seq<Write>, content: string -> string, n: string)
    requires NodesAre(plan, content) && AppFile(n, Some(Regular(content(n)))) in plan
    ensures Entry(PerformAll(w, plan).app, n) == Some(Regular(content(n)))
  {
    LastAppWrite(w, plan, n, Some(Regular(content(n))));
  }

  /** After a complete installation every application file and every unit is the candidate's. */
  lemma {:induction false} SuccessInstallsUnits(w: World, content: string -> string, dirs: seq<string>, n: string)
    requires DirsAreApart(dirs) && n in UNITS
    ensures Entry(PerformAll(w, InstallWrites(w, content, dirs)).units, n) == Some(Regular(content(n)))
  {
    InstallerContent(w, content, dirs);
    InstallerUnits(w, content, dirs);
    UnitEndsUp(w, InstallWrites(w, content, dirs), content, n);
  }

  lemma {:induction false} SuccessInstallsFiles(w: World, content: string -> string, dirs: seq<string>, n: string)
    requires DirsAreApart(dirs) && n in APP_FILES
    ensures Entry(PerformAll(w, InstallWrites(w, content, dirs)).app, n) == Some(Regular(content(n)))
  {
    InstallerContent(w, content, dirs);
    AppFileEndsUp(w, InstallWrites(w, content, dirs), content, n);
  }

  // ---------------------------------------------------------------- what is not restored

  ghost predicate NoOutside(xs: seq<Write>) {
    forall k :: 0 <= k < |xs| ==> !xs[k].OutsideFile?
  }

  /** Each path outside is written once at most, and never with what is there already. */
  ghost predicate FreshOutside(w: World, plan: seq<Write>) {
    && (forall k :: 0 <= k < |plan| && plan[k].OutsideFile? ==> Entry(w.outside, plan[k].path) != plan[k].node)
    && (forall j, k :: 0 <= j < k < |plan| && plan[j].OutsideFile? && plan[k].OutsideFile? ==>
          plan[j].path != plan[k].path)
  }

  /** The installer finished no write outside, and a broken one wrote nothing new. */
  ghost predicate OutsideSpared(w: World, plan: seq<Write>, i: Install)
    requires i.finished <= |plan|
  {
    && NoOutside(plan[..i.finished])
    && (i.torn.Some? && i.torn.value.OutsideFile? ==>
          Entry(w.outside, i.torn.value.path) == i.torn.value.node)
  }

  lemma {:induction false} NoOutsideWrite(w: World, xs: seq<Write>)
    requires NoOutside(xs)
    ensures PerformAll(w, xs).outside == w.outside
    decreases |xs|
  {
    if xs != [] {
      NoOutsideWrite(Perform(w, xs[0]), xs[1..]);
    }
  }

  /** A write outside lasts if no later one has its path. */
  lemma {:induction false} OutsideWritten(w: World, xs: seq<Write>, k: nat)
    requires k < |xs| && xs[k].OutsideFile?
    requires forall j :: k < j < |xs| && xs[j].OutsideFile? ==> xs[j].path != xs[k].path
    ensures Entry(PerformAll(w, xs).outside, xs[k].path) == xs[k].node
    decreases |xs|
  {
    if k > 0 {
      OutsideWritten(Perform(w, xs[0]), xs[1..], k - 1);
    } else {
      OutsideKept(Perform(w, xs[0]), xs[1..], xs[0].path);
    }
  }

  lemma {:induction false} OutsideKept(w: World, xs: seq<Write>, path: string)
    requires forall j :: 0 <= j < |xs| && xs[j].OutsideFile? ==> xs[j].path != path
    ensures Entry(PerformAll(w, xs).outside, path) == Entry(w.outside, path)
    decreases |xs|
  {
    if xs != [] {
      OutsideKept(Perform(w, xs[0]), xs[1..], path);
    }
  }

  lemma FinishedWriteShows(w: World, plan: seq<Write>, i: Install, k: nat)
    requires Fits(i, plan) && FreshOutside(w, plan) && k < i.finished && plan[k].OutsideFile?
    ensures AfterInstall(w, i, plan).outside != w.outside
  {
    var xs := plan[..i.finished];
    assert xs[k] == plan[k];
    OutsideWritten(w, xs, k);
    assert Entry(AfterInstall(w, i, plan).outside, plan[k].path) == plan[k].node;
  }

  lemma OutsideUnchangedIff(w: World, plan: seq<Write>, i: Install)
    requires Fits(i, plan) && FreshOutside(w, plan)
    ensures AfterInstall(w, i, plan).outside == w.outside <==> OutsideSpared(w, plan, i)
  {
    var xs := plan[..i.finished];
    if NoOutside(xs) {
      NoOutsideWrite(w, xs);
      if i.torn.Some? && i.torn.value.OutsideFile? {
        var path, node := i.torn.value.path, i.torn.value.node;
        assert AfterInstall(w, i, plan).outside == Put(w.outside, path, node);
        if Entry(w.outside, path) == node {
          SameEntries(Put(w.outside, path, node), w.outside);
        }
      }
    } else {
      var k :| 0 <= k < |xs| && xs[k].OutsideFile?;
      FinishedWriteShows(w, plan, i, k);
    }
  }

  /** Where the writes outside stand in the order of the installer. */
  lemma SequenceOutside(a: seq<Write>, b: seq<Write>, c: seq<Write>, d: seq<Write>, e: seq<Write>, k: nat)
    requires NoOutside(a) && NoOutside(c) && NoOutside(e) && |b| <= 1 && |d| <= 1
    requires k < |Sequence(a, b, c, d, e)| && Sequence(a, b, c, d, e)[k].OutsideFile?
    ensures (b != [] && k == |a| && Sequence(a, b, c, d, e)[k] == b[0])
            || (d != [] && k == |a| + |b| + |c| && Sequence(a, b, c, d, e)[k] == d[0])
  {
  }

  lemma SequencePlaces(a: seq<Write>, b: seq<Write>, c: seq<Write>, d: seq<Write>, e: seq<Write>)
    ensures b != [] ==> |a| < |Sequence(a, b, c, d, e)| && Sequence(a, b, c, d, e)[|a|] == b[0]
    ensures d != [] ==> |a| + |b| + |c| < |Sequence(a, b, c, d, e)|
                        && Sequence(a, b, c, d, e)[|a| + |b| + |c|] == d[0]
  {
  }

  lemma {:induction false} WriteKinds(names: seq<string>, content: string -> string)
    ensures NoOutside(AppWrites(names, content)) && |AppWrites(names, content)| == |names|
    ensures NoOutside(UnitWrites(names, content)) && |UnitWrites(names, content)| == |names|
  {
    if names != [] {
      WriteKinds(names[1..], content);
    }
  }

  ghost predicate AtMostOneFresh(w: World, xs: seq<Write>) {
    |xs| <= 1 && forall k :: 0 <= k < |xs| ==> xs[k].OutsideFile? && Entry(w.outside, xs[k].path) != xs[k].node
  }

  lemma SequenceIsFresh(w: World, a: seq<Write>, b: seq<Write>, c: seq<Write>, d: seq<Write>, e: seq<Write>)
    requires NoOutside(a) && NoOutside(c) && NoOutside(e) && AtMostOneFresh(w, b) && AtMostOneFresh(w, d)
    requires b != [] && d != [] ==> b[0].path != d[0].path
    ensures FreshOutside(w, Sequence(a, b, c, d, e))
  {
    var plan := Sequence(a, b, c, d, e);
    forall k: nat | k < |plan| && plan[k].OutsideFile?
      ensures Entry(w.outside, plan[k].path) != plan[k].node
    {
      SequenceOutside(a, b, c, d, e, k);
    }
    forall j: nat, k: nat | j < k < |plan| && plan[j].OutsideFile? && plan[k].OutsideFile?
      ensures plan[j].path != plan[k].path
    {
      SequenceOutside(a, b, c, d, e, j);
      SequenceOutside(a, b, c, d, e, k);
    }
  }

  lemma LinkIsFresh(w: World)
    ensures AtMostOneFresh(w, LinkWrites(w))
  {
  }

  lemma ConfigIsFresh(w: World, content: string -> string)
    ensures AtMostOneFresh(w, ConfigWrites(w, content))
    ensures LinkWrites(w) != [] && ConfigWrites(w, content) != [] ==>
              LinkWrites(w)[0].path != ConfigWrites(w, content)[0].path
  {
    assert BIN_LINK[0] == '/' && UPDATER_CONFIG[0] == 'c';
  }

  lemma FilesAreFresh(w: World, content: string -> string)
    ensures FreshOutside(w, FileWrites(w, content))
  {
    WriteKinds(APP_FILES, content);
    WriteKinds(UNITS[..4], content);
    WriteKinds(UNITS[4..], content);
    LinkIsFresh(w);
    ConfigIsFresh(w, content);
    SequenceIsFresh(w, AppWrites(APP_FILES, content), LinkWrites(w), UnitWrites(UNITS[..4], content),
                    ConfigWrites(w, content), UnitWrites(UNITS[4..], content));
  }

  ghost predicate OnlyFiles(xs: seq<Write>) {
    forall k :: 0 <= k < |xs| && xs[k].OutsideFile? ==> xs[k].path == BIN_LINK || xs[k].path == UPDATER_CONFIG
  }

  lemma TwoFiles(w: World, content: string -> string)
    ensures OnlyFiles(LinkWrites(w)) && OnlyFiles(ConfigWrites(w, content))
  {
  }

  lemma OutsideFilePaths(w: World, content: string -> string)
    ensures OnlyFiles(FileWrites(w, content))
  {
    WriteKinds(APP_FILES, content);
    WriteKinds(UNITS[..4], content);
    WriteKinds(UNITS[4..], content);
    TwoFiles(w, content);
    FilesInSequence(AppWrites(APP_FILES, content), LinkWrites(w), UnitWrites(UNITS[..4], content),
                    ConfigWrites(w, content), UnitWrites(UNITS[4..], content));
  }

  lemma FilesInSequence(a: seq<Write>, b: seq<Write>, c: seq<Write>, d: seq<Write>, e: seq<Write>)
    requires NoOutside(a) && NoOutside(c) && NoOutside(e) && OnlyFiles(b) && OnlyFiles(d) && |b| <= 1 && |d| <= 1
    ensures OnlyFiles(Sequence(a, b, c, d, e))
  {
    forall k: nat | k < |Sequence(a, b, c, d, e)| && Sequence(a, b, c, d, e)[k].OutsideFile?
      ensures Sequence(a, b, c, d, e)[k].path == BIN_LINK || Sequence(a, b, c, d, e)[k].path == UPDATER_CONFIG
    {
      SequenceOutside(a, b, c, d, e, k);
    }
  }

  lemma FreshBehind(w: World, first: seq<Write>, rest: seq<Write>)
    requires FreshOutside(w, first) && FreshOutside(w, rest) && OnlyDirs(first) && OnlyFiles(rest)
    ensures FreshOutside(w, first + rest)
  {
    var plan := first + rest;
    assert forall k :: 0 <= k < |plan| ==> plan[k] == if k < |first| then first[k] else rest[k - |first|];
  }

  lemma InstallerIsFresh(w: World, content: string -> string, dirs: seq<string>)
    requires DirsAreApart(dirs)
    ensures FreshOutside(w, InstallWrites(w, content, dirs))
  {
    InstallerDirs(w, dirs);
    FilesAreFresh(w, content);
    OutsideFilePaths(w, content);
    FreshBehind(w, DirWrites(w, dirs), FileWrites(w, content));
  }

  /** The installer stopped before its writes outside, as far as it has any, and a broken one
      wrote nothing new. */
  ghost predicate StoppedBefore(w: World, content: string -> string, dirs: seq<string>, i: Install) {
    && (DirWrites(w, dirs) != [] ==> i.finished == 0)
    && (LinkWrites(w) != [] ==> i.finished <= |APP_FILES|)
    && (ConfigWrites(w, content) != [] ==> i.finished <= |APP_FILES| + |LinkWrites(w)| + 4)
    && (i.torn.Some? && i.torn.value.OutsideFile? ==>
          Entry(w.outside, i.torn.value.path) == i.torn.value.node)
  }

  lemma FinishedOutside(a: seq<Write>, b: seq<Write>, c: seq<Write>, d: seq<Write>, e: seq<Write>, n: nat)
    requires NoOutside(a) && NoOutside(c) && NoOutside(e) && |b| <= 1 && |d| <= 1
    requires b != [] ==> b[0].OutsideFile?
    requires d != [] ==> d[0].OutsideFile?
    requires n <= |Sequence(a, b, c, d, e)|
    ensures NoOutside(Sequence(a, b, c, d, e)[..n]) <==>
            (b != [] ==> n <= |a|) && (d != [] ==> n <= |a| + |b| + |c|)
  {
    var plan := Sequence(a, b, c, d, e);
    SequencePlaces(a, b, c, d, e);
    if b != [] && n > |a| {
      assert plan[..n][|a|] == b[0];
    } else if d != [] && n > |a| + |b| + |c| {
      assert plan[..n][|a| + |b| + |c|] == d[0];
    } else {
      forall k: nat | k < n && plan[k].OutsideFile?
        ensures (b != [] && k == |a|) || (d != [] && k == |a| + |b| + |c|)
      {
        SequenceOutside(a, b, c, d, e, k);
      }
    }
  }

  lemma NoneFinished(first: seq<Write>, rest: seq<Write>, n: nat)
    requires forall k :: 0 <= k < |first| ==> first[k].OutsideFile?
    requires n <= |first + rest|
    ensures first != [] ==> (NoOutside((first + rest)[..n]) <==> n == 0)
    ensures first == [] ==> (first + rest)[..n] == rest[..n]
  {
    if first != [] && n > 0 {
      assert (first + rest)[..n][0] == first[0];
    }
  }

  /** After a failed and restored apply the paths outside the application and the units are as
      before exactly when the installer stopped before it changed one of them: before all
      directories if one is missing, and else before the link and the configuration, if they
      are to be written. */
  lemma {:induction false} OutsideRestoredIff(w: World, content: string -> string, dirs: seq<string>, i: Install, after: World)
    requires DirsAreApart(dirs)
    requires Fits(i, InstallWrites(w, content, dirs))
    requires Undone(w, AfterInstall(w, i, InstallWrites(w, content, dirs)), after)
    ensures after.outside == w.outside <==> StoppedBefore(w, content, dirs, i)
  {
    InstallerIsFresh(w, content, dirs);
    OutsideUnchangedIff(w, InstallWrites(w, content, dirs), i);
    WhatWasFinished(w, content, dirs, i.finished);
  }

  lemma FilesFinished(w: World, content: string -> string, n: nat)
    requires n <= |FileWrites(w, content)|
    ensures NoOutside(FileWrites(w, content)[..n]) <==>
            && (LinkWrites(w) != [] ==> n <= |APP_FILES|)
            && (ConfigWrites(w, content) != [] ==> n <= |APP_FILES| + |LinkWrites(w)| + 4)
  {
    WriteKinds(APP_FILES, content);
    WriteKinds(UNITS[..4], content);
    WriteKinds(UNITS[4..], content);
    FinishedOutside(AppWrites(APP_FILES, content), LinkWrites(w), UnitWrites(UNITS[..4], content),
                    ConfigWrites(w, content), UnitWrites(UNITS[4..], content), n);
  }

  lemma WhatWasFinished(w: World, content: string -> string, dirs: seq<string>, n: nat)
    requires DirsAreApart(dirs)
    requires n <= |InstallWrites(w, content, dirs)|
    ensures NoOutside(InstallWrites(w, content, dirs)[..n]) <==>
            && (DirWrites(w, dirs) != [] ==> n == 0)
            && (LinkWrites(w) != [] ==> n <= |APP_FILES|)
            && (ConfigWrites(w, content) != [] ==> n <= |APP_FILES| + |LinkWrites(w)| + 4)
  {
    InstallerDirs(w, dirs);
    NoneFinished(DirWrites(w, dirs), FileWrites(w, content), n);
    if DirWrites(w, dirs) == [] {
      FilesFinished(w, content, n);
    }
  }

  /** An installer that fails at its first file leaves every directory that was missing. */
  lemma DirectoryIsLeft(w: World, content: string -> string, dirs: seq<string>, dir: string,
                       after: World)
    requires DirsAreApart(dirs)
    requires dir in dirs && dir !in w.outside
    requires var i := Install(|DirWrites(w, dirs)|, None, false);
             Undone(w, AfterInstall(w, i, InstallWrites(w, content, dirs)), after)
    ensures after.app == w.app && after.units == w.units
    ensures after.outside != w.outside
  {
    var plan := InstallWrites(w, content, dirs);
    var i := Install(|DirWrites(w, dirs)|, None, false);
    MissingIsWritten(w, dirs, dir);
    FailedApplyIsUndone(w, content, dirs, i, after);
    OutsideRestoredIff(w, content, dirs, i, after);
  }

  lemma {:induction false} MissingIsWritten(w: World, dirs: seq<string>, dir: string)
    requires dir in dirs && dir !in w.outside
    ensures DirWrites(w, dirs) != []
  {
    if dirs[0] != dir {
      MissingIsWritten(w, dirs[1..], dir);
    }
  }

  /** An installer that breaks off right behind the command link leaves the link. */
  lemma LinkIsLeft(w: World, content: string -> string, dirs: seq<string>, after: World)
    requires DirsAreApart(dirs)
    requires LinkWrites(w) != []
    requires var i := Install(|DirWrites(w, dirs)| + |APP_FILES| + 1, None, false);
             && i.finished <= |InstallWrites(w, content, dirs)|
             && Undone(w, AfterInstall(w, i, InstallWrites(w, content, dirs)), after)
    ensures after.app == w.app && after.units == w.units
    ensures after.outside != w.outside
  {
    var i := Install(|DirWrites(w, dirs)| + |APP_FILES| + 1, None, false);
    FailedApplyIsUndone(w, content, dirs, i, after);
    OutsideRestoredIff(w, content, dirs, i, after);
  }
}
