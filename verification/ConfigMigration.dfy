/** Moving legacy extension groups out of the app config file at startup
    (migrateLegacyExtensionConfigs in cmd/main.go), over a map-like file system.

    A crash can happen after any effect, so a run is the sequence of disks it goes through.
    The app config is replaced by a rename and is never half written; an extension's file
    is written directly, so a failing write may leave a torn file behind. */
module ConfigMigration {
  import opened Options

  type Value = string

  /** One top-level key of the app config with its (already parsed) value. */
  datatype Group = Group(key: string, value: Value, isNull: bool)

  type Files = map<string, Value>

  /** app is None when there is no app config, it does not parse, or it is not a mapping. */
  datatype Disk = Disk(app: Option<seq<Group>>, files: Files)

  datatype WriteOutcome = Written | Failed | Torn(partial: Value)

  /** What the environment decides: stat errors, the outcome of each write, the rename. */
  datatype Env = Env(home: string, statFails: string -> bool, write: string -> WriteOutcome, replaceFails: bool)

  const WLLR_GROUP := "wllr"

  /** The per-extension config file, or None when the name cannot be a directory. */
  function ExtensionConfigPath(home: string, name: string): Option<string> {
    if name == "" || name == "." || name == ".." || '/' in name || '\\' in name then None
    else Some(home + "/" + name + "/config.yaml")
  }

  /** No two extensions share a file. */
  lemma PathsAreInjective(home: string, a: string, b: string)
    requires ExtensionConfigPath(home, a).Some?
    requires ExtensionConfigPath(home, a) == ExtensionConfigPath(home, b)
    ensures a == b
  {
    var pa := home + "/" + a + "/config.yaml";
    var pb := home + "/" + b + "/config.yaml";
    assert |a| == |b|;
    assert pa[|home| + 1..|home| + 1 + |a|] == a;
    assert pb[|home| + 1..|home| + 1 + |b|] == b;
  }

  predicate StaysInApp(home: string, key: string) {
    ExtensionConfigPath(home, key) == None || key == WLLR_GROUP
  }

  /** Which keys stay: the wllr group, and keys that are not the name of one directory. */
  lemma {:induction false} KeysThatStay(home: string, key: string)
    ensures StaysInApp(home, key)
       <==> key in {"", ".", "..", "wllr"} || exists i :: 0 <= i < |key| && key[i] in {'/', '\\'}
    ensures !StaysInApp(home, key) ==> ExtensionConfigPath(home, key) == Some(home + "/" + key + "/config.yaml")
  {
  }

  // ---------- One run ----------

  /** The loop's variables; `history` lists the file systems after each write. */
  datatype Progress = Progress(files: Files, remaining: seq<Group>, changed: bool, history: seq<Files>)

  function MoveGroup(p: Progress, g: Group, env: Env): Progress {
    if StaysInApp(env.home, g.key) then p.(remaining := p.remaining + [g])
    else
      var target := ExtensionConfigPath(env.home, g.key).value;
      if env.statFails(target) then p.(remaining := p.remaining + [g])
      else if target in p.files then p.(changed := true)
      else if g.isNull then p.(changed := true)
      else match env.write(target)
        case Written =>
          var files := p.files[target := g.value];
          p.(files := files, changed := true, history := p.history + [files])
        case Failed => p.(remaining := p.remaining + [g])
        case Torn(partial) =>
          var files := p.files[target := partial];
          p.(files := files, remaining := p.remaining + [g], history := p.history + [files])
  }

  function MoveAll(groups: seq<Group>, files: Files, env: Env): Progress {
    if groups == [] then Progress(files, [], false, [])
    else MoveGroup(MoveAll(groups[..|groups| - 1], files, env), groups[|groups| - 1], env)
  }

  function OnDisk(app: Option<seq<Group>>, history: seq<Files>): seq<Disk> {
    seq(|history|, i requires 0 <= i < |history| => Disk(app, history[i]))
  }

  /** The disks a run goes through, the last one being where it ends. */
  function Trace(disk: Disk, env: Env): (trace: seq<Disk>)
    ensures trace != []
  {
    match disk.app
    case None => [disk]
    case Some(groups) =>
      var p := MoveAll(groups, disk.files, env);
      [disk] + OnDisk(disk.app, p.history)
      + (if p.changed && !env.replaceFails then [Disk(Some(p.remaining), p.files)] else [])
  }

  class Migration {
    var disk: Disk
    /** Every disk since the run began, this one included. */
    ghost var trace: seq<Disk>

    constructor (d: Disk)
      ensures disk == d
    {
      disk := d;
      trace := [d];
    }

    method WriteExtensionConfigFile(target: string, value: Value, env: Env) returns (ok: bool)
      modifies this
      ensures ok <==> env.write(target).Written?
      ensures disk == old(disk).(files := match env.write(target)
                                          case Written => old(disk).files[target := value]
                                          case Failed => old(disk).files
                                          case Torn(partial) => old(disk).files[target := partial])
      ensures trace == old(trace) + if env.write(target).Failed? then [] else [disk]
    {
      match env.write(target) {
        case Written =>
          disk := disk.(files := disk.files[target := value]);
          trace := trace + [disk];
          ok := true;
        case Failed =>
          ok := false;
        case Torn(partial) =>
          disk := disk.(files := disk.files[target := partial]);
          trace := trace + [disk];
          ok := false;
      }
    }

    method MigrateLegacyExtensionConfigs(env: Env)
      modifies this
      ensures trace == Trace(old(disk), env)
      ensures disk == trace[|trace| - 1]
    {
      hide ExtensionConfigPath;
      trace := [disk];
      if disk.app == None {
        return;
      }
      var pairs := disk.app.value;
      var remaining: seq<Group> := [];
      var changed := false;
      for i := 0 to |pairs|
        invariant disk.app == old(disk).app
        invariant MoveAll(pairs[..i], old(disk).files, env)
               == Progress(disk.files, remaining, changed, MoveAll(pairs[..i], old(disk).files, env).history)
        invariant trace == [old(disk)] + OnDisk(old(disk).app, MoveAll(pairs[..i], old(disk).files, env).history)
        invariant disk == trace[|trace| - 1]
      {
        assert pairs[..i + 1][..i] == pairs[..i];
        var g := pairs[i];
        ghost var before := MoveAll(pairs[..i], old(disk).files, env);
        assert MoveAll(pairs[..i + 1], old(disk).files, env) == MoveGroup(before, g, env);
        var target := ExtensionConfigPath(env.home, g.key);
        if target == None || g.key == WLLR_GROUP {
          remaining := remaining + [g];
          continue;
        }
        if env.statFails(target.value) {
          remaining := remaining + [g];
        } else if target.value in disk.files {
          changed := true;
        } else if g.isNull {
          changed := true;
        } else {
          var ok := WriteExtensionConfigFile(target.value, g.value, env);
          if !ok {
            remaining := remaining + [g];
            continue;
          }
          changed := true;
        }
      }
      assert pairs[..|pairs|] == pairs;
      if !changed || env.replaceFails {
        return;
      }
      disk := disk.(app := Some(remaining));
      trace := trace + [disk];
    }
  }

  // ---------- Conservation ----------

  ghost predicate DistinctKeys(groups: seq<Group>) {
    forall i, j :: 0 <= i < j < |groups| ==> groups[i].key != groups[j].key
  }

  ghost predicate NoTornWrites(env: Env) {
    forall target :: !env.write(target).Torn?
  }

  /** A group that belongs in an extension's own file. */
  predicate IsLegacy(home: string, g: Group) {
    !StaysInApp(home, g.key)
  }

  function PathOf(home: string, g: Group): string
    requires IsLegacy(home, g)
  {
    ExtensionConfigPath(home, g.key).value
  }

  /** The wllr group and the keys that cannot name an extension, in order. */
  function Kept(home: string, groups: seq<Group>): seq<Group> {
    if groups == [] then []
    else
      var last := groups[|groups| - 1];
      Kept(home, groups[..|groups| - 1]) + if IsLegacy(home, last) then [] else [last]
  }

  ghost predicate FilesUntouched(files: Files, later: Files) {
    forall path :: path in files ==> path in later && later[path] == files[path]
  }

  /** Every file that is new holds, in full, a group of the app config. */
  ghost predicate NewFilesComeFrom(home: string, groups: seq<Group>, files: Files, later: Files) {
    forall path :: path in later && path !in files ==>
      exists g :: g in groups && IsLegacy(home, g) && !g.isNull && PathOf(home, g) == path && later[path] == g.value
  }

  /** A legacy group that had no file of its own is in its own file or still in `remaining`. */
  ghost predicate NothingLost(home: string, groups: seq<Group>, files: Files, later: Files, remaining: seq<Group>) {
    forall g :: g in groups && IsLegacy(home, g) && !g.isNull && PathOf(home, g) !in files ==>
      PathOf(home, g) in later || g in remaining
  }

  ghost predicate LoopInv(home: string, groups: seq<Group>, files: Files, p: Progress) {
    && FilesUntouched(files, p.files) && NewFilesComeFrom(home, groups, files, p.files)
    && (forall h :: h in p.history ==> FilesUntouched(files, h) && NewFilesComeFrom(home, groups, files, h))
    && NothingLost(home, groups, files, p.files, p.remaining)
    && (forall g :: g in p.remaining ==> g in groups) && DistinctKeys(p.remaining)
    && Kept(home, p.remaining) == Kept(home, groups)
  }

  lemma KeptSnoc(home: string, groups: seq<Group>, g: Group)
    ensures Kept(home, groups + [g]) == Kept(home, groups) + if IsLegacy(home, g) then [] else [g]
  {
    assert (groups + [g])[..|groups|] == groups;
  }

  lemma MoreGroups(home: string, groups: seq<Group>, g: Group, files: Files, later: Files)
    requires NewFilesComeFrom(home, groups, files, later)
    ensures NewFilesComeFrom(home, groups + [g], files, later)
  {
    forall path | path in later && path !in files
      ensures exists f :: f in groups + [g] && IsLegacy(home, f) && !f.isNull
                && PathOf(home, f) == path && later[path] == f.value
    {
      var f :| f in groups && IsLegacy(home, f) && !f.isNull && PathOf(home, f) == path && later[path] == f.value;
      assert f in groups + [g];
    }
  }

  lemma OneMoreFile(home: string, groups: seq<Group>, g: Group, files: Files, later: Files)
    requires FilesUntouched(files, later) && NewFilesComeFrom(home, groups, files, later)
    requires IsLegacy(home, g) && !g.isNull && PathOf(home, g) !in later
    ensures FilesUntouched(files, later[PathOf(home, g) := g.value])
    ensures NewFilesComeFrom(home, groups + [g], files, later[PathOf(home, g) := g.value])
  {
    MoreGroups(home, groups, g, files, later);
    assert g in groups + [g];
  }

  lemma DistinctSnoc(remaining: seq<Group>, groups: seq<Group>, g: Group)
    requires DistinctKeys(remaining) && DistinctKeys(groups + [g]) && forall r :: r in remaining ==> r in groups
    ensures DistinctKeys(remaining + [g])
  {
    forall i | 0 <= i < |remaining|
      ensures remaining[i].key != g.key
    {
      assert remaining[i] in groups;
      var j :| 0 <= j < |groups| && groups[j] == remaining[i];
      assert (groups + [g])[j].key != (groups + [g])[|groups|].key;
    }
  }

  lemma MoreGroupsEverywhere(home: string, groups: seq<Group>, g: Group, files: Files, p: Progress)
    requires LoopInv(home, groups, files, p)
    ensures NewFilesComeFrom(home, groups + [g], files, p.files)
    ensures forall h :: h in p.history ==> NewFilesComeFrom(home, groups + [g], files, h)
  {
    MoreGroups(home, groups, g, files, p.files);
    forall h | h in p.history
      ensures NewFilesComeFrom(home, groups + [g], files, h)
    {
      MoreGroups(home, groups, g, files, h);
    }
  }

  lemma KeepingKeepsLoopInv(home: string, groups: seq<Group>, g: Group, files: Files, p: Progress)
    requires LoopInv(home, groups, files, p) && DistinctKeys(groups + [g])
    ensures LoopInv(home, groups + [g], files, p.(remaining := p.remaining + [g]))
  {
    hide NewFilesComeFrom, DistinctKeys, Kept, FilesUntouched;
    MoreGroupsEverywhere(home, groups, g, files, p);
    KeptSnoc(home, groups, g);
    KeptSnoc(home, p.remaining, g);
    DistinctSnoc(p.remaining, groups, g);
    KeptOrMoved(home, groups, g, files, p.files, p.remaining);
    hide NothingLost;
    assert forall r :: r in p.remaining + [g] ==> r in groups + [g];
  }

  lemma KeptOrMoved(home: string, groups: seq<Group>, g: Group, files: Files, later: Files, remaining: seq<Group>)
    requires NothingLost(home, groups, files, later, remaining)
    ensures NothingLost(home, groups + [g], files, later, remaining + [g])
  {
    forall f | f in groups + [g] && IsLegacy(home, f) && !f.isNull && PathOf(home, f) !in files
      ensures PathOf(home, f) in later || f in remaining + [g]
    {
    }
  }

  lemma DroppingKeepsLoopInv(home: string, groups: seq<Group>, g: Group, files: Files, p: Progress)
    requires LoopInv(home, groups, files, p) && IsLegacy(home, g) && (g.isNull || PathOf(home, g) in p.files)
    ensures LoopInv(home, groups + [g], files, p.(changed := true))
  {
    MoreGroupsEverywhere(home, groups, g, files, p);
    KeptSnoc(home, groups, g);
    hide NewFilesComeFrom, DistinctKeys, Kept, FilesUntouched;
  }

  lemma WritingKeepsLoopInv(home: string, groups: seq<Group>, g: Group, files: Files, p: Progress)
    requires LoopInv(home, groups, files, p)
    requires IsLegacy(home, g) && !g.isNull && PathOf(home, g) !in p.files
    ensures var later := p.files[PathOf(home, g) := g.value];
            LoopInv(home, groups + [g], files, p.(files := later, changed := true, history := p.history + [later]))
  {
    hide NewFilesComeFrom, DistinctKeys, Kept, FilesUntouched;
    MoreGroupsEverywhere(home, groups, g, files, p);
    OneMoreFile(home, groups, g, files, p.files);
    KeptSnoc(home, groups, g);
    var later := p.files[PathOf(home, g) := g.value];
    MovedIsNotLost(home, groups, g, files, p.files, p.remaining);
    hide NothingLost;
    assert forall h :: h in p.history + [later] ==> h in p.history || h == later;
  }

  lemma MovedIsNotLost(home: string, groups: seq<Group>, g: Group, files: Files, later: Files, remaining: seq<Group>)
    requires NothingLost(home, groups, files, later, remaining) && IsLegacy(home, g)
    ensures NothingLost(home, groups + [g], files, later[PathOf(home, g) := g.value], remaining)
  {
    forall f | f in groups + [g] && IsLegacy(home, f) && !f.isNull && PathOf(home, f) !in files
      ensures PathOf(home, f) in later[PathOf(home, g) := g.value] || f in remaining
    {
    }
  }

  lemma MoveGroupKeepsLoopInv(groups: seq<Group>, g: Group, files: Files, p: Progress, env: Env)
    requires LoopInv(env.home, groups, files, p) && DistinctKeys(groups + [g]) && NoTornWrites(env)
    ensures LoopInv(env.home, groups + [g], files, MoveGroup(p, g, env))
  {
    var home := env.home;
    hide LoopInv, DistinctKeys;
    KeepingKeepsLoopInv(home, groups, g, files, p);
    if IsLegacy(home, g) {
      if g.isNull || PathOf(home, g) in p.files {
        DroppingKeepsLoopInv(home, groups, g, files, p);
      } else {
        WritingKeepsLoopInv(home, groups, g, files, p);
      }
    }
  }

  lemma {:induction false} MoveAllKeepsLoopInv(groups: seq<Group>, files: Files, env: Env)
    requires DistinctKeys(groups) && NoTornWrites(env)
    ensures LoopInv(env.home, groups, files, MoveAll(groups, files, env))
  {
    if groups == [] {
    } else {
      var init, last := groups[..|groups| - 1], groups[|groups| - 1];
      MoveAllKeepsLoopInv(init, files, env);
      assert groups == init + [last];
      MoveGroupKeepsLoopInv(init, last, files, MoveAll(init, files, env), env);
    }
  }

  // ---------- Every crash point of every run ----------

  /** No configuration of d0 is lost or altered in d: extension files that existed are as
      they were, a moved group is in its own file in full, every other legacy group is still
      in the app config, and the other keys keep content and order. */
  ghost predicate Safe(home: string, d0: Disk, d: Disk) {
    && FilesUntouched(d0.files, d.files)
    && (d0.app.None? ==> d == d0)
    && (d0.app.Some? ==>
          && d.app.Some?
          && (forall g :: g in d.app.value ==> g in d0.app.value) && DistinctKeys(d.app.value)
          && Kept(home, d.app.value) == Kept(home, d0.app.value)
          && forall g :: g in d0.app.value && IsLegacy(home, g) && !g.isNull && PathOf(home, g) !in d0.files ==>
               if PathOf(home, g) in d.files then d.files[PathOf(home, g)] == g.value else g in d.app.value)
  }

  ghost predicate WellKeyed(d: Disk) {
    d.app.Some? ==> DistinctKeys(d.app.value)
  }

  /** A new file belongs to the one group with its path. */
  lemma NewFileHoldsItsGroup(home: string, groups: seq<Group>, files: Files, later: Files, g: Group)
    requires DistinctKeys(groups) && NewFilesComeFrom(home, groups, files, later)
    requires g in groups && IsLegacy(home, g) && PathOf(home, g) in later && PathOf(home, g) !in files
    ensures later[PathOf(home, g)] == g.value
  {
    var f :| f in groups && IsLegacy(home, f) && PathOf(home, f) == PathOf(home, g)
             && later[PathOf(home, g)] == f.value;
    assert ExtensionConfigPath(home, f.key) == Some(PathOf(home, f));
    assert ExtensionConfigPath(home, g.key) == Some(PathOf(home, g));
    PathsAreInjective(home, f.key, g.key);
    var i :| 0 <= i < |groups| && groups[i] == f;
    var j :| 0 <= j < |groups| && groups[j] == g;
    assert i == j;
  }

  lemma MovedFilesAreSafe(home: string, d0: Disk, later: Files, remaining: seq<Group>)
    requires d0.app.Some? && DistinctKeys(d0.app.value)
    requires FilesUntouched(d0.files, later) && NewFilesComeFrom(home, d0.app.value, d0.files, later)
    requires NothingLost(home, d0.app.value, d0.files, later, remaining)
    requires (forall g :: g in remaining ==> g in d0.app.value) && DistinctKeys(remaining)
    requires Kept(home, remaining) == Kept(home, d0.app.value)
    ensures Safe(home, d0, Disk(Some(remaining), later))
  {
    forall g | g in d0.app.value && IsLegacy(home, g) && !g.isNull && PathOf(home, g) !in d0.files
      ensures if PathOf(home, g) in later then later[PathOf(home, g)] == g.value else g in remaining
    {
      if PathOf(home, g) in later {
        NewFileHoldsItsGroup(home, d0.app.value, d0.files, later, g);
      }
    }
  }

  /** At every crash point of a run, whatever fails, no configuration is lost. */
  lemma EveryCrashPointIsSafe(d0: Disk, env: Env, k: nat)
    requires WellKeyed(d0) && NoTornWrites(env) && k < |Trace(d0, env)|
    ensures Safe(env.home, d0, Trace(d0, env)[k])
  {
    hide MoveAll, NewFilesComeFrom, Safe, DistinctKeys, Kept, FilesUntouched, NothingLost, NoTornWrites;
    if d0.app.None? {
      UnchangedIsSafe(env.home, d0);
    } else {
      var groups := d0.app.value;
      var p := MoveAll(groups, d0.files, env);
      MoveAllKeepsLoopInv(groups, d0.files, env);
      if k == 0 {
        UnchangedIsSafe(env.home, d0);
      } else if k <= |p.history| {
        var h := p.history[k - 1];
        assert h in p.history && Trace(d0, env)[k] == Disk(Some(groups), h);
        StillInAppIsSafe(env.home, d0, h);
      } else {
        assert Trace(d0, env)[k] == Disk(Some(p.remaining), p.files);
        MovedFilesAreSafe(env.home, d0, p.files, p.remaining);
      }
    }
  }

  lemma UnchangedIsSafe(home: string, d: Disk)
    requires WellKeyed(d)
    ensures Safe(home, d, d)
  {
  }

  lemma StillInAppIsSafe(home: string, d0: Disk, later: Files)
    requires d0.app.Some? && DistinctKeys(d0.app.value)
    requires FilesUntouched(d0.files, later) && NewFilesComeFrom(home, d0.app.value, d0.files, later)
    ensures Safe(home, d0, Disk(d0.app, later))
  {
    MovedFilesAreSafe(home, d0, later, d0.app.value);
  }

  /** A start of the program that runs until effect number crashAt, or to the end. */
  datatype Attempt = Attempt(env: Env, crashAt: nat)

  function AfterAttempt(d: Disk, a: Attempt): Disk {
    var trace := Trace(d, a.env);
    if a.crashAt < |trace| then trace[a.crashAt] else trace[|trace| - 1]
  }

  function AfterAttempts(d: Disk, attempts: seq<Attempt>): Disk {
    if attempts == [] then d
    else AfterAttempt(AfterAttempts(d, attempts[..|attempts| - 1]), attempts[|attempts| - 1])
  }

  lemma SafeIsTransitive(home: string, a: Disk, b: Disk, c: Disk)
    requires Safe(home, a, b) && Safe(home, b, c)
    ensures Safe(home, a, c)
  {
  }

  /** Crash and restart as often as you like: as long as a write leaves either the whole file
      or none, nothing of the original configuration is lost. */
  lemma {:induction false} EveryRestartIsSafe(home: string, d0: Disk, attempts: seq<Attempt>)
    requires WellKeyed(d0)
    requires forall a :: a in attempts ==> a.env.home == home && NoTornWrites(a.env)
    ensures Safe(home, d0, AfterAttempts(d0, attempts)) && WellKeyed(AfterAttempts(d0, attempts))
  {
    if attempts == [] {
      UnchangedIsSafe(home, d0);
    } else {
      var init, last := attempts[..|attempts| - 1], attempts[|attempts| - 1];
      EveryRestartIsSafe(home, d0, init);
      var d := AfterAttempts(d0, init);
      var k := if last.crashAt < |Trace(d, last.env)| then last.crashAt else |Trace(d, last.env)| - 1;
      assert last in attempts;
      EveryCrashPointIsSafe(d, last.env, k);
      SafeIsTransitive(home, d0, d, AfterAttempts(d0, attempts));
    }
  }

  // ---------- What becomes of one group ----------

  function FileAt(files: Files, path: string): Option<Value> {
    if path in files then Some(files[path]) else None
  }

  /** The write to this path leaves something other than `value` behind. */
  predicate Tears(env: Env, path: string, value: Value) {
    !env.statFails(path) && env.write(path).Torn? && env.write(path).partial != value
  }

  predicate Moves(env: Env, path: string) {
    !env.statFails(path) && env.write(path).Written?
  }

  /** What a run leaves in a file that was not there and belongs to a group with this value. */
  function FileAfter(env: Env, path: string, value: Value): Option<Value> {
    if env.statFails(path) then None
    else match env.write(path)
      case Written => Some(value)
      case Failed => None
      case Torn(partial) => Some(partial)
  }

  lemma OtherGroupLeavesFileAlone(p: Progress, g: Group, env: Env, path: string)
    requires IsLegacy(env.home, g) ==> PathOf(env.home, g) != path || path in p.files
    ensures FileAt(MoveGroup(p, g, env).files, path) == FileAt(p.files, path)
    ensures forall h :: h in MoveGroup(p, g, env).history ==>
              h in p.history || FileAt(h, path) == FileAt(p.files, path)
  {
  }

  /** A file that exists, or that no group maps to, keeps its content throughout. */
  lemma {:induction false} RunLeavesFileAlone(groups: seq<Group>, files: Files, env: Env, path: string)
    requires path in files || forall g :: g in groups && IsLegacy(env.home, g) ==> PathOf(env.home, g) != path
    ensures FileAt(MoveAll(groups, files, env).files, path) == FileAt(files, path)
    ensures forall h :: h in MoveAll(groups, files, env).history ==> FileAt(h, path) == FileAt(files, path)
  {
    hide ExtensionConfigPath;
    if groups == [] {
    } else {
      var init, last := groups[..|groups| - 1], groups[|groups| - 1];
      assert groups == init + [last];
      RunLeavesFileAlone(init, files, env, path);
      OtherGroupLeavesFileAlone(MoveAll(init, files, env), last, env, path);
    }
  }

  lemma {:induction false} RemainingComesFromGroups(groups: seq<Group>, files: Files, env: Env)
    requires DistinctKeys(groups)
    ensures var r := MoveAll(groups, files, env).remaining; DistinctKeys(r) && forall g :: g in r ==> g in groups
  {
    if groups == [] {
    } else {
      var init, last := groups[..|groups| - 1], groups[|groups| - 1];
      assert groups == init + [last];
      RemainingComesFromGroups(init, files, env);
      DistinctSnoc(MoveAll(init, files, env).remaining, init, last);
    }
  }

  /** What a run has done for the group by the end and at every write on the way. */
  ghost predicate GroupOutcome(p: Progress, g: Group, env: Env)
    requires IsLegacy(env.home, g)
  {
    var path := PathOf(env.home, g);
    && FileAt(p.files, path) == FileAfter(env, path, g.value)
    && (g in p.remaining <==> !Moves(env, path))
    && forall h :: h in p.history ==> FileAt(h, path) == None || FileAt(h, path) == FileAfter(env, path, g.value)
  }

  lemma OwnGroupOutcome(p: Progress, g: Group, env: Env)
    requires IsLegacy(env.home, g) && !g.isNull && g !in p.remaining
    requires FileAt(p.files, PathOf(env.home, g)) == None
    requires forall h :: h in p.history ==> FileAt(h, PathOf(env.home, g)) == None
    ensures GroupOutcome(MoveGroup(p, g, env), g, env)
  {
    hide ExtensionConfigPath;
  }

  lemma OtherGroupKeepsOutcome(p: Progress, g: Group, other: Group, env: Env)
    requires IsLegacy(env.home, g) && GroupOutcome(p, g, env) && other.key != g.key
    ensures GroupOutcome(MoveGroup(p, other, env), g, env)
  {
    var path := PathOf(env.home, g);
    if IsLegacy(env.home, other) && PathOf(env.home, other) == path {
      PathsAreInjective(env.home, other.key, g.key);
    }
    OtherGroupLeavesFileAlone(p, other, env, path);
    hide ExtensionConfigPath, FileAfter, FileAt, Moves;
    assert MoveGroup(p, other, env).remaining == p.remaining
           || MoveGroup(p, other, env).remaining == p.remaining + [other];
  }

  /** On any disk and in any environment a group without a file of its own fares according to
      its own stat and write alone, whatever happens to the other groups. */
  lemma {:induction false} GroupFaresByItsOwnWrite(groups: seq<Group>, files: Files, env: Env, g: Group)
    requires DistinctKeys(groups) && g in groups && IsLegacy(env.home, g) && !g.isNull
    requires PathOf(env.home, g) !in files
    ensures GroupOutcome(MoveAll(groups, files, env), g, env)
  {
    var init, last := groups[..|groups| - 1], groups[|groups| - 1];
    assert groups == init + [last];
    var path := PathOf(env.home, g);
    if g == last {
      forall f | f in init && IsLegacy(env.home, f)
        ensures PathOf(env.home, f) != path
      {
        var i :| 0 <= i < |init| && init[i] == f;
        assert groups[i].key != groups[|groups| - 1].key;
        if PathOf(env.home, f) == path {
          PathsAreInjective(env.home, f.key, g.key);
        }
      }
      RunLeavesFileAlone(init, files, env, path);
      RemainingComesFromGroups(init, files, env);
      assert g !in init;
      OwnGroupOutcome(MoveAll(init, files, env), g, env);
    } else {
      var i :| 0 <= i < |init| && init[i] == g;
      assert groups[i].key != groups[|groups| - 1].key;
      GroupFaresByItsOwnWrite(init, files, env, g);
      OtherGroupKeepsOutcome(MoveAll(init, files, env), g, last, env);
    }
  }

  /** After a full run the group's file holds something else exactly when its own write tore. */
  lemma {:induction false} FileDiffersIffOwnWriteTore(groups: seq<Group>, files: Files, env: Env, g: Group)
    requires DistinctKeys(groups) && g in groups && IsLegacy(env.home, g) && !g.isNull
    requires PathOf(env.home, g) !in files
    ensures var t, p := PathOf(env.home, g), MoveAll(groups, files, env);
            && (t in p.files && p.files[t] != g.value <==> Tears(env, t, g.value))
            && (t !in p.files || Tears(env, t, g.value) ==> g in p.remaining)
  {
    GroupFaresByItsOwnWrite(groups, files, env, g);
  }

  // ---------- Failure-free runs ----------

  ghost predicate FailureFree(env: Env) {
    !env.replaceFails && forall path :: !env.statFails(path) && env.write(path).Written?
  }

  lemma {:induction false} FailureFreeLeavesOnlyKept(groups: seq<Group>, files: Files, env: Env)
    requires FailureFree(env)
    ensures var p := MoveAll(groups, files, env);
            && (forall g :: g in p.remaining ==> StaysInApp(env.home, g.key))
            && (!p.changed ==> p.remaining == groups && p.history == [])
  {
    if groups == [] {
    } else {
      FailureFreeLeavesOnlyKept(groups[..|groups| - 1], files, env);
      assert groups == groups[..|groups| - 1] + [groups[|groups| - 1]];
    }
  }

  lemma {:induction false} KeptGroupsStay(groups: seq<Group>, files: Files, env: Env)
    requires forall g :: g in groups ==> StaysInApp(env.home, g.key)
    ensures MoveAll(groups, files, env) == Progress(files, groups, false, [])
  {
    if groups == [] {
    } else {
      KeptGroupsStay(groups[..|groups| - 1], files, env);
      assert groups == groups[..|groups| - 1] + [groups[|groups| - 1]];
    }
  }

  lemma {:induction false} FailureFreeMovesAll(groups: seq<Group>, files: Files, env: Env)
    requires FailureFree(env) && DistinctKeys(groups)
    ensures MoveAll(groups, files, env).remaining == Kept(env.home, groups)
    ensures FilesUntouched(files, MoveAll(groups, files, env).files)
    ensures NewFilesComeFrom(env.home, groups, files, MoveAll(groups, files, env).files)
  {
    hide ExtensionConfigPath;
    FailureFreeDoesNotTear(env);
    MoveAllKeepsLoopInv(groups, files, env);
    if groups == [] {
    } else {
      var init, last := groups[..|groups| - 1], groups[|groups| - 1];
      assert groups == init + [last];
      FailureFreeMovesAll(init, files, env);
    }
  }

  lemma FailureFreeDoesNotTear(env: Env)
    requires FailureFree(env)
    ensures NoTornWrites(env)
  {
  }

  /** What the migration is for: a run without failures leaves exactly the keys that stay in
      the app config, in order, and every other group, unless null, in a file of its own:
      the one that was there, or else a new one with the group's value. */
  lemma {:induction false} FailureFreeRunMovesEverything(d: Disk, env: Env, g: Group)
    requires FailureFree(env) && WellKeyed(d) && d.app.Some? && g in d.app.value
    ensures AfterRun(d, env).app == Some(Kept(env.home, d.app.value))
    ensures g in Kept(env.home, d.app.value) <==> StaysInApp(env.home, g.key)
    ensures IsLegacy(env.home, g) && !g.isNull ==>
              var path := PathOf(env.home, g);
              FileAt(AfterRun(d, env).files, path) == Some(if path in d.files then d.files[path] else g.value)
    ensures FilesUntouched(d.files, AfterRun(d, env).files)
            && NewFilesComeFrom(env.home, d.app.value, d.files, AfterRun(d, env).files)
  {
    var p := MoveAll(d.app.value, d.files, env);
    FailureFreeMovesAll(d.app.value, d.files, env);
    UnreplacedRunEndsInHistory(d, env);
    FailureFreeLeavesOnlyKept(d.app.value, d.files, env);
    KeptMembers(env.home, d.app.value, g);
    hide MoveAll, ExtensionConfigPath, Kept, NewFilesComeFrom, FilesUntouched, Trace;
    if IsLegacy(env.home, g) && !g.isNull {
      var path := PathOf(env.home, g);
      if path in d.files {
        RunLeavesFileAlone(d.app.value, d.files, env, path);
      } else {
        GroupFaresByItsOwnWrite(d.app.value, d.files, env, g);
      }
    }
  }

  lemma {:induction false} KeptMembers(home: string, groups: seq<Group>, g: Group)
    requires g in groups
    ensures g in Kept(home, groups) <==> !IsLegacy(home, g)
  {
    var init, last := groups[..|groups| - 1], groups[|groups| - 1];
    assert groups == init + [last];
    if g in init {
      KeptMembers(home, init, g);
    }
    KeptAreKept(home, init);
  }

  lemma {:induction false} KeptAreKept(home: string, groups: seq<Group>)
    ensures forall g :: g in Kept(home, groups) ==> !IsLegacy(home, g)
  {
    if groups == [] {
    } else {
      KeptAreKept(home, groups[..|groups| - 1]);
    }
  }

  // ---------- One group over many runs ----------

  /** The group is in full in its own file, or has none yet and is in the app config. */
  predicate Holds(home: string, d: Disk, g: Group)
    requires IsLegacy(home, g)
  {
    var file := FileAt(d.files, PathOf(home, g));
    file == Some(g.value) || (file == None && d.app.Some? && g in d.app.value)
  }

  lemma CrashPointIsWellKeyed(d: Disk, env: Env, k: nat)
    requires WellKeyed(d) && k < |Trace(d, env)|
    ensures WellKeyed(Trace(d, env)[k])
  {
    hide MoveAll, DistinctKeys;
    if d.app.Some? {
      RemainingComesFromGroups(d.app.value, d.files, env);
    }
  }

  lemma CrashPointHoldsGroup(d: Disk, env: Env, k: nat, g: Group)
    requires WellKeyed(d) && k < |Trace(d, env)| && IsLegacy(env.home, g) && !g.isNull
    requires Holds(env.home, d, g) && !Tears(env, PathOf(env.home, g), g.value)
    ensures WellKeyed(Trace(d, env)[k]) && Holds(env.home, Trace(d, env)[k], g)
  {
    hide MoveAll, DistinctKeys, ExtensionConfigPath;
    CrashPointIsWellKeyed(d, env, k);
    if d.app.Some? {
      var groups, path := d.app.value, PathOf(env.home, g);
      var p := MoveAll(groups, d.files, env);
      if path in d.files {
        RunLeavesFileAlone(groups, d.files, env, path);
      } else {
        GroupFaresByItsOwnWrite(groups, d.files, env, g);
      }
      if k == 0 {
        assert Trace(d, env)[k] == d;
      } else if k <= |p.history| {
        assert Trace(d, env)[k] == Disk(Some(groups), p.history[k - 1]) && p.history[k - 1] in p.history;
      } else {
        assert Trace(d, env)[k] == Disk(Some(p.remaining), p.files);
      }
    }
  }

  /** A group survives any crashes and restarts as long as its own write never tears, even
      when the writes of other groups do. */
  lemma {:induction false} GroupSurvivesUnlessItsOwnWriteTears(home: string, d0: Disk, attempts: seq<Attempt>, g: Group)
    requires WellKeyed(d0) && IsLegacy(home, g) && !g.isNull && Holds(home, d0, g)
    requires forall a :: a in attempts ==> a.env.home == home && !Tears(a.env, PathOf(home, g), g.value)
    ensures WellKeyed(AfterAttempts(d0, attempts)) && Holds(home, AfterAttempts(d0, attempts), g)
  {
    hide WellKeyed, Holds, Tears, Trace, ExtensionConfigPath;
    if attempts == [] {
    } else {
      var init, last := attempts[..|attempts| - 1], attempts[|attempts| - 1];
      GroupSurvivesUnlessItsOwnWriteTears(home, d0, init, g);
      var d := AfterAttempts(d0, init);
      var k := if last.crashAt < |Trace(d, last.env)| then last.crashAt else |Trace(d, last.env)| - 1;
      assert last in attempts;
      CrashPointHoldsGroup(d, last.env, k, g);
    }
  }

  function AfterRun(d: Disk, env: Env): Disk {
    var trace := Trace(d, env);
    trace[|trace| - 1]
  }

  /** The group is neither in the app config nor, in full, in its own file. */
  predicate Lost(home: string, d: Disk, g: Group)
    requires IsLegacy(home, g)
  {
    (d.app.Some? ==> g !in d.app.value) && FileAt(d.files, PathOf(home, g)) != Some(g.value)
  }

  lemma FileInTheWayLosesTheGroup(d: Disk, clean: Env, g: Group)
    requires FailureFree(clean) && IsLegacy(clean.home, g)
    requires d.app.Some? && g in d.app.value && PathOf(clean.home, g) in d.files
    requires d.files[PathOf(clean.home, g)] != g.value
    ensures Lost(clean.home, AfterRun(d, clean), g)
  {
    hide ExtensionConfigPath;
    FailureFreeLeavesOnlyKept(d.app.value, d.files, clean);
    RunLeavesFileAlone(d.app.value, d.files, clean, PathOf(clean.home, g));
    hide MoveAll;
    assert MoveAll(d.app.value, d.files, clean).changed;
  }

  lemma TearingLeavesPartial(env: Env, path: string, value: Value)
    requires Tears(env, path, value)
    ensures FileAfter(env, path, value) == Some(env.write(path).partial) && !Moves(env, path)
  {
  }

  lemma CrashPointAfterTearing(d0: Disk, torn: Env, k: nat, g: Group)
    requires WellKeyed(d0) && d0.app.Some? && g in d0.app.value && IsLegacy(torn.home, g) && !g.isNull
    requires PathOf(torn.home, g) !in d0.files && Tears(torn, PathOf(torn.home, g), g.value)
    requires k < |Trace(d0, torn)|
    ensures var d, path := Trace(d0, torn)[k], PathOf(torn.home, g);
            && d.app.Some? && g in d.app.value
            && (path in d.files ==> d.files[path] == torn.write(path).partial)
            && (k == |Trace(d0, torn)| - 1 ==> path in d.files)
  {
    hide ExtensionConfigPath, MoveAll, DistinctKeys, IsLegacy, FileAfter, Moves, Tears;
    var p := MoveAll(d0.app.value, d0.files, torn);
    TearingLeavesPartial(torn, PathOf(torn.home, g), g.value);
    GroupFaresByItsOwnWrite(d0.app.value, d0.files, torn, g);
    UnreplacedRunEndsInHistory(d0, torn);
    if k == 0 {
      assert Trace(d0, torn)[k] == d0;
    } else if k <= |p.history| {
      assert Trace(d0, torn)[k] == Disk(d0.app, p.history[k - 1]) && p.history[k - 1] in p.history;
    } else {
      assert Trace(d0, torn)[k] == Disk(Some(p.remaining), p.files);
    }
  }

  /** Where a run ends whose last step is not the replacement of the app config. */
  lemma UnreplacedRunEndsInHistory(d: Disk, env: Env)
    requires d.app.Some?
    ensures var p := MoveAll(d.app.value, d.files, env);
            AfterRun(d, env) == Disk(if p.changed && !env.replaceFails then Some(p.remaining) else d.app, p.files)
  {
    EndOfHistory(d.app.value, d.files, env);
  }

  lemma {:induction false} EndOfHistory(groups: seq<Group>, files: Files, env: Env)
    ensures var p := MoveAll(groups, files, env);
            p.files == if p.history == [] then files else p.history[|p.history| - 1]
  {
    hide ExtensionConfigPath;
    if groups == [] {
    } else {
      EndOfHistory(groups[..|groups| - 1], files, env);
    }
  }

  /** A torn file is taken for the extension's own by the next run.  For every disk, every
      environment and every crash point of the first run, a failure-free second run leaves
      the group lost exactly when the group's own write tore, and did so before the crash. */
  lemma {:induction false} TornWriteIsLostByTheNextRun(d0: Disk, first: Env, k: nat, clean: Env, g: Group)
    requires WellKeyed(d0) && d0.app.Some? && g in d0.app.value && IsLegacy(first.home, g) && !g.isNull
    requires PathOf(first.home, g) !in d0.files && FailureFree(clean) && clean.home == first.home
    requires k < |Trace(d0, first)|
    ensures Lost(first.home, AfterRun(Trace(d0, first)[k], clean), g)
       <==> Tears(first, PathOf(first.home, g), g.value) && PathOf(first.home, g) in Trace(d0, first)[k].files
  {
    hide Trace, ExtensionConfigPath, FailureFree, MoveAll;
    var d, path := Trace(d0, first)[k], PathOf(first.home, g);
    CrashPointIsWellKeyed(d0, first, k);
    if Tears(first, path, g.value) {
      CrashPointAfterTearing(d0, first, k, g);
    } else {
      CrashPointHoldsGroup(d0, first, k, g);
    }
    if Tears(first, path, g.value) && path in d.files {
      FileInTheWayLosesTheGroup(d, clean, g);
    } else {
      NothingTears(clean, path, g.value);
      CrashPointHoldsGroup(d, clean, |Trace(d, clean)| - 1, g);
    }
  }

  /** For a first run that got to its end the condition is the torn write alone. */
  lemma {:induction false} TornWriteOfAFullRunIsLost(d0: Disk, first: Env, clean: Env, g: Group)
    requires WellKeyed(d0) && d0.app.Some? && g in d0.app.value && IsLegacy(first.home, g) && !g.isNull
    requires PathOf(first.home, g) !in d0.files && FailureFree(clean) && clean.home == first.home
    ensures Lost(first.home, AfterRun(AfterRun(d0, first), clean), g)
       <==> Tears(first, PathOf(first.home, g), g.value)
  {
    hide Trace, ExtensionConfigPath, FailureFree, MoveAll, WellKeyed, Tears, Lost;
    var k := |Trace(d0, first)| - 1;
    TornWriteIsLostByTheNextRun(d0, first, k, clean, g);
    if Tears(first, PathOf(first.home, g), g.value) {
      CrashPointAfterTearing(d0, first, k, g);
    }
  }

  lemma NothingTears(clean: Env, path: string, value: Value)
    requires FailureFree(clean)
    ensures !Tears(clean, path, value)
  {
  }

  // ---------- Running again ----------

  /** After a failure-free run the migration is a no-op in every later run. */
  lemma SecondRunChangesNothing(d: Disk, env: Env, again: Env)
    requires FailureFree(env) && again.home == env.home
    ensures var trace := Trace(d, env); Trace(trace[|trace| - 1], again) == [trace[|trace| - 1]]
  {
    if d.app.Some? {
      var p := MoveAll(d.app.value, d.files, env);
      FailureFreeLeavesOnlyKept(d.app.value, d.files, env);
      KeptGroupsStay(p.remaining, p.files, again);
      if !p.changed {
        KeptGroupsStay(p.remaining, d.files, again);
      }
    }
  }
}
