/**
  The include traversal of cmCMakePresetsGraph::ReadJSONFile: the list of files
  read so far, the stack of files in progress, and the set of reachable files
  that every file accumulates.  A File* is an index into the list, which only
  grows while files are read.
 */
module PresetFiles {
  import opened Options
  import opened Reachability

  datatype Kind = Configure | Build | Test | Package | Workflow

  /** Presets of different kinds are in different maps: a preset is found by its kind and its name. */
  datatype PresetKey = PresetKey(kind: Kind, name: string)

  /**
    A readable, valid presets file: which file it is, the names of its presets of
    every kind, and its includes as full paths (None where macro expansion fails).
   */
  datatype Contents = Contents(
    identity: nat, configurePresets: seq<string>, buildPresets: seq<string>, testPresets: seq<string>,
    packagePresets: seq<string>, workflowPresets: seq<string>, includes: seq<Option<string>>)
  {
    function Named(kind: Kind): seq<string> {
      match kind
      case Configure => configurePresets
      case Build => buildPresets
      case Test => testPresets
      case Package => packagePresets
      case Workflow => workflowPresets
    }

    predicate Has(key: PresetKey) {
      key.name in Named(key.kind)
    }
  }

  /** All names under which a valid file can be read, and the project's own presets file. */
  datatype Disk = Disk(contents: map<string, Contents>, projectFile: Option<string>)

  predicate SameFile(disk: Disk, a: string, b: string) {
    a in disk.contents && b in disk.contents && disk.contents[a].identity == disk.contents[b].identity
  }

  datatype RootType = Project | User

  datatype ReadReason = Root | Included

  datatype File = File(filename: string, reachableFiles: set<nat>)

  /** The includes ReadJSONFile follows: the file's own, then the implicit one of a user root. */
  function IncludesOf(disk: Disk, filename: string, rootType: RootType, readReason: ReadReason): seq<Option<string>>
    requires filename in disk.contents
  {
    disk.contents[filename].includes
    + (if rootType == User && readReason == Root && disk.projectFile.Some? then [disk.projectFile] else [])
  }

  // ------------------------------------------------ includes between names

  /** Where the traversal starts: a file name, and whether it is the user's root file. */
  datatype Start = Start(filename: string, userRoot: bool)

  /** The file read under name a includes name b, explicitly or as the implicit include of the root. */
  ghost predicate Names(disk: Disk, start: Start, a: string, b: string) {
    && a in disk.contents
    && (|| Some(b) in disk.contents[a].includes
        || (start.userRoot && a == start.filename && disk.projectFile == Some(b)))
  }

  ghost function NamesRel(disk: Disk, start: Start): (string, string) -> bool {
    (a: string, b: string) => Names(disk, start, a, b)
  }

  /** Names of one kind that cannot all be entered: an empty one, or one that occurs twice. */
  ghost predicate BadNames(names: seq<string>) {
    "" in names || exists i, j :: 0 <= i < j < |names| && names[i] == names[j]
  }

  ghost predicate BadPresetNames(c: Contents) {
    exists kind :: BadNames(c.Named(kind))
  }

  ghost predicate SharePreset(disk: Disk, a: string, b: string) {
    && a in disk.contents && b in disk.contents && !SameFile(disk, a, b)
    && exists key :: disk.contents[a].Has(key) && disk.contents[b].Has(key)
  }

  /** The only reasons for which reading may be refused at a name. */
  ghost predicate Trouble(disk: Disk, start: Start, name: string) {
    || name !in disk.contents
    || None in disk.contents[name].includes
    || BadPresetNames(disk.contents[name])
    || (exists a :: SameFile(disk, a, name) && ReachesPlus(NamesRel(disk, start), a, name))
    || (exists m :: Reaches(NamesRel(disk, start), start.filename, m) && SharePreset(disk, name, m))
  }

  ghost predicate Troubled(disk: Disk, start: Start) {
    exists name :: Reaches(NamesRel(disk, start), start.filename, name) && Trouble(disk, start, name)
  }

  /** The files read lie on include paths from the start, those in progress on one to filename. */
  ghost predicate OnPaths(disk: Disk, start: Start, files: seq<File>, inProgress: seq<nat>, filename: string) {
    && Reaches(NamesRel(disk, start), start.filename, filename)
    && AllReached(disk, start, files)
    && (forall p | 0 <= p < |inProgress| && inProgress[p] < |files| ::
          ReachesPlus(NamesRel(disk, start), files[inProgress[p]].filename, filename))
  }

  ghost predicate AllReached(disk: Disk, start: Start, files: seq<File>) {
    forall i | 0 <= i < |files| :: Reaches(NamesRel(disk, start), start.filename, files[i].filename)
  }

  // ----------------------------------------------------- the include relation

  /** The names each file has included so far, file by file. */
  type Followed = seq<seq<string>>

  ghost predicate Includes(disk: Disk, files: seq<File>, followed: Followed, i: nat, j: nat) {
    && i < |files| && i < |followed| && j < |files|
    && exists k :: 0 <= k < |followed[i]| && SameFile(disk, followed[i][k], files[j].filename)
  }

  ghost function IncludesRel(disk: Disk, files: seq<File>, followed: Followed): (nat, nat) -> bool {
    (i: nat, j: nat) => Includes(disk, files, followed, i, j)
  }

  ghost predicate Reach(disk: Disk, files: seq<File>, followed: Followed, i: nat, j: nat) {
    Reaches(IncludesRel(disk, files, followed), i, j)
  }

  /** Every file is on disk, under a name of its own identity. */
  ghost predicate DistinctFiles(disk: Disk, files: seq<File>) {
    && (forall i | 0 <= i < |files| :: files[i].filename in disk.contents)
    && (forall i, j | 0 <= i < j < |files| :: !SameFile(disk, files[i].filename, files[j].filename))
  }

  ghost predicate WasRead(disk: Disk, files: seq<File>, name: string) {
    exists j :: 0 <= j < |files| && SameFile(disk, name, files[j].filename)
  }

  /** Every followed include was read, and none is in progress. */
  ghost predicate EdgesOk(disk: Disk, files: seq<File>, followed: Followed, inProgress: seq<nat>) {
    && |followed| == |files|
    && (forall i, k | 0 <= i < |files| && 0 <= k < |followed[i]| ::
          WasRead(disk, files, followed[i][k]))
    && (forall i: nat, j: nat | Includes(disk, files, followed, i, j) :: j !in inProgress)
  }

  /** ReachableFiles is the reflexive-transitive closure of the include relation. */
  ghost predicate ClosureOk(disk: Disk, files: seq<File>, followed: Followed) {
    forall i: nat, j: nat | i < |files| :: j in files[i].reachableFiles <==> Reach(disk, files, followed, i, j)
  }

  ghost predicate Acyclic(disk: Disk, files: seq<File>, followed: Followed) {
    forall i: nat | i < |files| :: !ReachesPlus(IncludesRel(disk, files, followed), i, i)
  }

  ghost predicate Inv(disk: Disk, files: seq<File>, followed: Followed, inProgress: seq<nat>) {
    && DistinctFiles(disk, files) && EdgesOk(disk, files, followed, inProgress)
    && ClosureOk(disk, files, followed) && Acyclic(disk, files, followed)
    && (forall p | 0 <= p < |inProgress| :: inProgress[p] < |files|)
  }

  // -------------------------------------------------------- two ways to grow

  /** Nothing but the file itself is reachable without includes. */
  lemma NoIncludesNoReach(disk: Disk, files: seq<File>, followed: Followed, i: nat, j: nat)
    requires Reach(disk, files, followed, i, j) && i < |followed| && followed[i] == []
    ensures i == j
  {
    ReachesFirstStep(IncludesRel(disk, files, followed), i, j);
  }

  /** A file that nothing includes is reachable from itself only. */
  lemma Unreached(e: (nat, nat) -> bool, i: nat, f: nat)
    requires forall x: nat :: !e(x, f)
    ensures Reaches(e, i, f) ==> i == f
  {
    if Reaches(e, i, f) && i != f {
      ClosedUnderReach(e, (iset x: nat | NotFile(x, f)), i, f);
    }
  }

  ghost predicate NotFile(x: nat, f: nat) {
    x != f
  }

  /** A followed name matches an old file, so it cannot match a new one. */
  lemma OldNamesOldFiles(
      disk: Disk, files: seq<File>, followed: Followed, inProgress: seq<nat>, file: File, i: nat, j: nat)
    requires EdgesOk(disk, files, followed, inProgress)
    requires forall k | 0 <= k < |files| :: !SameFile(disk, file.filename, files[k].filename)
    ensures Includes(disk, files + [file], followed + [[]], i, j) <==> Includes(disk, files, followed, i, j)
  {
    var files', followed' := files + [file], followed + [[]];
    assert forall m | 0 <= m < |files| :: files'[m] == files[m] && followed'[m] == followed[m];
    if Includes(disk, files', followed', i, j) && i < |files| {
      var k :| 0 <= k < |followed[i]| && SameFile(disk, followed'[i][k], files'[j].filename);
      assert WasRead(disk, files, followed[i][k]);
      var m :| 0 <= m < |files| && SameFile(disk, followed[i][k], files[m].filename);
    }
  }

  /** A new file starts without includes and reaches itself. */
  lemma AddFile(disk: Disk, files: seq<File>, followed: Followed, inProgress: seq<nat>, filename: string)
    requires Inv(disk, files, followed, inProgress) && filename in disk.contents
    requires forall i | 0 <= i < |files| :: !SameFile(disk, filename, files[i].filename)
    ensures Inv(disk, files + [File(filename, {|files|})], followed + [[]], inProgress + [|files|])
  {
    var f: nat := |files|;
    var files', followed' := files + [File(filename, {f})], followed + [[]];
    var e: (nat, nat) -> bool := IncludesRel(disk, files, followed);
    var e': (nat, nat) -> bool := IncludesRel(disk, files', followed');
    forall i: nat, j: nat
      ensures Includes(disk, files', followed', i, j) <==> Includes(disk, files, followed, i, j)
    {
      OldNamesOldFiles(disk, files, followed, inProgress, File(filename, {f}), i, j);
    }
    forall i: nat, j: nat
      ensures Reaches<nat>(e, i, j) <==> Reaches<nat>(e', i, j)
    {
      if Reaches<nat>(e, i, j) { SameRelation(e, e', i, j); }
      if Reaches<nat>(e', i, j) { SameRelation(e', e, i, j); }
    }
    EdgesAfterFile(disk, files, followed, inProgress, File(filename, {f}));
    forall i: nat, j: nat | i < |files'|
      ensures j in files'[i].reachableFiles <==> Reach(disk, files', followed', i, j)
    {
      if i == f {
        if Reach(disk, files', followed', f, j) { NoIncludesNoReach(disk, files', followed', f, j); }
        ReachesSelf(e', f);
      } else {
        assert files'[i] == files[i];
      }
    }
    forall i: nat | i < |files'|
      ensures !ReachesPlus(e', i, i)
    {
      forall m: nat | e'(i, m)
        ensures !Reaches<nat>(e', m, i)
      {
        assert Includes(disk, files, followed, i, m) && !ReachesPlus(e, i, i);
        assert Reaches<nat>(e', m, i) ==> Reaches<nat>(e, m, i);
      }
    }
  }

  lemma EdgesAfterFile(disk: Disk, files: seq<File>, followed: Followed, inProgress: seq<nat>, file: File)
    requires EdgesOk(disk, files, followed, inProgress)
    requires forall k | 0 <= k < |files| :: !SameFile(disk, file.filename, files[k].filename)
    ensures EdgesOk(disk, files + [file], followed + [[]], inProgress + [|files|])
  {
    var files', followed' := files + [file], followed + [[]];
    forall i, k | 0 <= i < |files'| && 0 <= k < |followed'[i]|
      ensures WasRead(disk, files', followed'[i][k])
    {
      assert followed'[i] == followed[i] && WasRead(disk, files, followed[i][k]);
      var m :| 0 <= m < |files| && SameFile(disk, followed[i][k], files[m].filename);
      assert files'[m] == files[m];
    }
    forall i: nat, j: nat | Includes(disk, files', followed', i, j)
      ensures j !in inProgress + [|files|]
    {
      OldNamesOldFiles(disk, files, followed, inProgress, file, i, j);
    }
  }

  lemma SameRelation(e: (nat, nat) -> bool, e': (nat, nat) -> bool, i: nat, j: nat)
    requires forall x: nat, y: nat :: e(x, y) ==> e'(x, y)
    requires Reaches(e, i, j)
    ensures Reaches(e', i, j)
  {
    var p :| IsPath(e, p, i, j);
    assert IsPath(e', p, i, j);
  }

  /** The state after f has followed an include that resolved to file j. */
  function Followed1(followed: Followed, f: nat, name: string): Followed
    requires f < |followed|
  {
    followed[f := followed[f] + [name]]
  }

  function Reaching(files: seq<File>, f: nat, j: nat): seq<File>
    requires f < |files| && j < |files|
  {
    files[f := files[f].(reachableFiles := files[f].reachableFiles + files[j].reachableFiles)]
  }

  /** Following an include adds exactly the edge to the file it names. */
  lemma NewEdge(disk: Disk, files: seq<File>, followed: Followed, f: nat, j: nat, name: string, x: nat, y: nat)
    requires DistinctFiles(disk, files) && |followed| == |files| && f < |files| && j < |files|
    requires SameFile(disk, name, files[j].filename)
    ensures Includes(disk, Reaching(files, f, j), Followed1(followed, f, name), x, y)
            <==> Includes(disk, files, followed, x, y) || (x == f && y == j)
  {
    var files', followed' := Reaching(files, f, j), Followed1(followed, f, name);
    assert forall m | 0 <= m < |files| :: files'[m].filename == files[m].filename;
    if x == f {
      assert followed'[f][|followed[f]|] == name;
      assert forall k | 0 <= k < |followed[f]| :: followed'[f][k] == followed[f][k];
      assert y < |files| && SameFile(disk, name, files[y].filename) ==> y == j;
    } else {
      assert x < |followed| ==> followed'[x] == followed[x];
    }
  }

  /** Reachability after adding the edge f -> j, when no edge leads into f. */
  lemma ReachAfterEdge(e: (nat, nat) -> bool, e': (nat, nat) -> bool, f: nat, j: nat, i: nat, x: nat)
    requires f != j && forall y: nat :: !e(y, f)
    requires forall y: nat, z: nat :: e'(y, z) <==> e(y, z) || (y == f && z == j)
    ensures Reaches(e', i, x) <==> Reaches(e, i, x) || (i == f && Reaches(e, j, x))
  {
    if Reaches(e, i, x) {
      SameRelation(e, e', i, x);
    }
    if i == f && Reaches(e, j, x) {
      SameRelation(e, e', j, x);
      EdgeThenReaches(e', f, j, x);
    }
    if Reaches(e', i, x) {
      var s := iset y: nat | Reaches(e, i, y) || (i == f && Reaches(e, j, y));
      ReachesSelf(e, i);
      ReachesSelf(e, j);
      forall y: nat, z: nat | y in s && e'(y, z)
        ensures z in s
      {
        if e(y, z) {
          if Reaches(e, i, y) { ReachesThenEdge(e, i, y, z); } else { ReachesThenEdge(e, j, y, z); }
        } else {
          Unreached(e, i, f);
          if i == f && Reaches(e, j, y) { Unreached(e, j, f); }
        }
      }
      ClosedUnderReach(e', s, i, x);
    }
  }

  /** An include that is not in progress keeps closure and acyclicity. */
  lemma AddEdge(disk: Disk, files: seq<File>, followed: Followed, inProgress: seq<nat>, f: nat, j: nat, name: string)
    requires Inv(disk, files, followed, inProgress) && f in inProgress && j < |files| && j !in inProgress
    requires SameFile(disk, name, files[j].filename)
    ensures f < |files|
    ensures Inv(disk, Reaching(files, f, j), Followed1(followed, f, name), inProgress)
  {
    var files', followed' := Reaching(files, f, j), Followed1(followed, f, name);
    var e: (nat, nat) -> bool := IncludesRel(disk, files, followed);
    var e': (nat, nat) -> bool := IncludesRel(disk, files', followed');
    forall x: nat, y: nat
      ensures e'(x, y) <==> e(x, y) || (x == f && y == j)
    {
      NewEdge(disk, files, followed, f, j, name, x, y);
    }
    assert forall y: nat :: !e(y, f);
    EdgesAfterEdge(disk, files, followed, inProgress, f, j, name);
    forall i: nat, x: nat | i < |files'|
      ensures x in files'[i].reachableFiles <==> Reach(disk, files', followed', i, x)
    {
      ReachAfterEdge(e, e', f, j, i, x);
    }
    forall i: nat | i < |files'|
      ensures !ReachesPlus(e', i, i)
    {
      NoCycleAfterEdge(e, e', f, j, i);
    }
  }

  lemma EdgesAfterEdge(
      disk: Disk, files: seq<File>, followed: Followed, inProgress: seq<nat>, f: nat, j: nat, name: string)
    requires DistinctFiles(disk, files) && EdgesOk(disk, files, followed, inProgress)
    requires f < |files| && j < |files| && j !in inProgress && SameFile(disk, name, files[j].filename)
    ensures EdgesOk(disk, Reaching(files, f, j), Followed1(followed, f, name), inProgress)
  {
    var files', followed' := Reaching(files, f, j), Followed1(followed, f, name);
    forall i, k | 0 <= i < |files'| && 0 <= k < |followed'[i]|
      ensures WasRead(disk, files', followed'[i][k])
    {
      if i == f && k == |followed[f]| {
        assert files'[j].filename == files[j].filename;
      } else {
        assert followed'[i][k] == followed[i][k] && WasRead(disk, files, followed[i][k]);
        var m :| 0 <= m < |files| && SameFile(disk, followed[i][k], files[m].filename);
        assert files'[m].filename == files[m].filename;
      }
    }
    forall x: nat, y: nat | Includes(disk, files', followed', x, y)
      ensures y !in inProgress
    {
      NewEdge(disk, files, followed, f, j, name, x, y);
    }
  }

  lemma NoCycleAfterEdge(e: (nat, nat) -> bool, e': (nat, nat) -> bool, f: nat, j: nat, i: nat)
    requires f != j && forall y: nat :: !e(y, f)
    requires forall y: nat, z: nat :: e'(y, z) <==> e(y, z) || (y == f && z == j)
    requires !ReachesPlus(e, i, i)
    ensures !ReachesPlus(e', i, i)
  {
    forall m: nat | e'(i, m)
      ensures !Reaches(e', m, i)
    {
      ReachAfterEdge(e, e', f, j, m, i);
      Unreached(e, m, f);
      Unreached(e, j, f);
    }
  }

  // --------------------------------------------------------------- the program

  /** Nothing a reader holds on to changes while an include is being read. */
  ghost predicate Extends(files: seq<File>, followed: Followed, files': seq<File>, followed': Followed) {
    |files| <= |files'| && |followed| <= |followed'|
    && files'[..|files|] == files && followed'[..|followed|] == followed
  }

  /** File i has followed all its includes, as its position in the traversal demands. */
  ghost predicate FollowedAll(
      disk: Disk, files: seq<File>, followed: Followed, i: nat, rootType: RootType, readReason: ReadReason)
    requires i < |files| && i < |followed|
  {
    && files[i].filename in disk.contents
    && var wanted := IncludesOf(disk, files[i].filename, rootType, readReason);
       |followed[i]| == |wanted| && forall k | 0 <= k < |wanted| :: wanted[k] == Some(followed[i][k])
  }

  /** Where each preset was read: the five maps of presets, by kind and name. */
  type Origins = map<PresetKey, nat>

  /** The maps of presets hold exactly the presets of the files read, each with its file. */
  ghost predicate PresetsOk(disk: Disk, files: seq<File>, presetOrigin: Origins) {
    && NamesOk(disk, files) && OriginsReal(disk, files, presetOrigin) && OriginsComplete(disk, files, presetOrigin)
  }

  ghost predicate NamesOk(disk: Disk, files: seq<File>) {
    forall i | 0 <= i < |files| ::
      files[i].filename in disk.contents && !BadPresetNames(disk.contents[files[i].filename])
  }

  /** The file of a preset has it. */
  ghost predicate OriginsReal(disk: Disk, files: seq<File>, presetOrigin: Origins) {
    forall key | key in presetOrigin ::
      && presetOrigin[key] < |files| && files[presetOrigin[key]].filename in disk.contents
      && disk.contents[files[presetOrigin[key]].filename].Has(key)
  }

  /** A preset of a file has that file as its own. */
  ghost predicate OriginsComplete(disk: Disk, files: seq<File>, presetOrigin: Origins) {
    forall i, key | 0 <= i < |files| && files[i].filename in disk.contents
              && disk.contents[files[i].filename].Has(key) ::
      key in presetOrigin && presetOrigin[key] == i
  }

  /** An include has been read and its reachable files inserted: one more include followed. */
  lemma ReadingAdvances(
      disk: Disk, f1: seq<File>, fo1: Followed, f2: seq<File>, fo2: Followed, files0: seq<File>, followed0: Followed,
      filename: string, wanted: seq<Option<string>>, k: nat, file: nat, included: nat, name: string,
      rootType: RootType, readReason: ReadReason)
    requires Reading(disk, f1, fo1, files0, followed0, filename, wanted, k, file)
    requires k < |wanted| && wanted[k] == Some(name) && !(rootType == User && readReason == Root)
    requires Extends(f1, fo1, f2, fo2) && |f2| == |fo2| && included < |f2|
    requires NewOnes(disk, f2, fo2, |f1|, included, rootType, readReason)
    requires file != included
    ensures Reading(disk, Reaching(f2, file, included), Followed1(fo2, file, name),
                    files0, followed0, filename, wanted, k + 1, file)
  {
    var f3, fo3 := Reaching(f2, file, included), Followed1(fo2, file, name);
    assert forall i | 0 <= i < |f1| :: f2[i] == f2[..|f1|][i] && fo2[i] == fo2[..|fo1|][i];
    assert f3[..|files0|] == f1[..|files0|] && fo3[..|followed0|] == fo1[..|followed0|];
    forall i | file < i < |f3|
      ensures FollowedAll(disk, f3, fo3, i, Project, Included)
    {
      if i < |f1| {
        assert FollowedAll(disk, f1, fo1, i, Project, Included);
      } else if i == |f1| {
        assert FollowedAll(disk, f2, fo2, i, rootType, readReason);
      } else {
        assert FollowedAll(disk, f2, fo2, i, Project, Included);
      }
    }
    forall i | file <= i < |f3|
      ensures i in f3[file].reachableFiles
    {
      assert i < |f1| ==> i in f1[file].reachableFiles;
    }
  }

  lemma EveryKind()
    ensures forall kind: Kind :: kind in [Configure, Build, Test, Package, Workflow]
  {
    forall kind: Kind
      ensures kind in [Configure, Build, Test, Package, Workflow]
    {
      match kind
      case Configure =>
      case Build =>
      case Test =>
      case Package =>
      case Workflow =>
    }
  }

  /** Following an include renames no file. */
  lemma SameNames(disk: Disk, files: seq<File>, presetOrigin: Origins, f: nat, j: nat)
    requires PresetsOk(disk, files, presetOrigin) && f < |files| && j < |files|
    ensures PresetsOk(disk, Reaching(files, f, j), presetOrigin)
    ensures Unread(disk, Reaching(files, f, j)) == Unread(disk, files)
  {
    var files' := Reaching(files, f, j);
    assert forall i | 0 <= i < |files| :: files'[i].filename == files[i].filename;
    OriginsStay(disk, files, files', presetOrigin);
  }

  lemma OriginsStay(disk: Disk, files: seq<File>, files': seq<File>, presetOrigin: Origins)
    requires PresetsOk(disk, files, presetOrigin) && |files'| == |files|
    requires forall i | 0 <= i < |files| :: files'[i].filename == files[i].filename
    ensures PresetsOk(disk, files', presetOrigin)
  {
    forall i, key | 0 <= i < |files| && disk.contents[files'[i].filename].Has(key)
      ensures key in presetOrigin && presetOrigin[key] == i
    {
      assert disk.contents[files[i].filename].Has(key);
    }
    forall key | key in presetOrigin
      ensures presetOrigin[key] < |files| && disk.contents[files'[presetOrigin[key]].filename].Has(key)
    {
      assert files'[presetOrigin[key]].filename == files[presetOrigin[key]].filename;
    }
  }

  /** What entering the presets of c, read as file number n, makes of the maps. */
  ghost predicate Entered(c: Contents, n: nat, presetOrigin: Origins, presetOrigin': Origins) {
    && (forall key | c.Has(key) :: key !in presetOrigin)
    && (forall key: PresetKey :: key in presetOrigin' <==> key in presetOrigin || c.Has(key))
    && (forall key | key in presetOrigin' ::
          presetOrigin'[key] == if key in presetOrigin then presetOrigin[key] else n)
  }

  /** The presets of a new file are entered: the maps hold its presets besides those of the others. */
  lemma OriginsMore(disk: Disk, files: seq<File>, file: File, presetOrigin: Origins, presetOrigin': Origins)
    requires PresetsOk(disk, files, presetOrigin) && file.filename in disk.contents
    requires !BadPresetNames(disk.contents[file.filename])
    requires Entered(disk.contents[file.filename], |files|, presetOrigin, presetOrigin')
    ensures PresetsOk(disk, files + [file], presetOrigin')
  {
    RealMore(disk, files, file, presetOrigin, presetOrigin');
    CompleteMore(disk, files, file, presetOrigin, presetOrigin');
  }

  lemma RealMore(disk: Disk, files: seq<File>, file: File, presetOrigin: Origins, presetOrigin': Origins)
    requires OriginsReal(disk, files, presetOrigin) && file.filename in disk.contents
    requires Entered(disk.contents[file.filename], |files|, presetOrigin, presetOrigin')
    ensures OriginsReal(disk, files + [file], presetOrigin')
  {
    var files' := files + [file];
    forall key | key in presetOrigin'
      ensures presetOrigin'[key] < |files'| && files'[presetOrigin'[key]].filename in disk.contents
      ensures disk.contents[files'[presetOrigin'[key]].filename].Has(key)
    {
      assert key in presetOrigin ==> files'[presetOrigin[key]] == files[presetOrigin[key]];
    }
  }

  lemma CompleteMore(disk: Disk, files: seq<File>, file: File, presetOrigin: Origins, presetOrigin': Origins)
    requires OriginsComplete(disk, files, presetOrigin) && file.filename in disk.contents
    requires Entered(disk.contents[file.filename], |files|, presetOrigin, presetOrigin')
    ensures OriginsComplete(disk, files + [file], presetOrigin')
  {
    var files' := files + [file];
    forall i, key |
      0 <= i < |files'| && files'[i].filename in disk.contents && disk.contents[files'[i].filename].Has(key)
      ensures key in presetOrigin' && presetOrigin'[key] == i
    {
      assert i < |files| ==> disk.contents[files[i].filename].Has(key);
    }
  }

  lemma ExtendsUnread(disk: Disk, f1: seq<File>, fo1: Followed, f2: seq<File>, fo2: Followed)
    requires Extends(f1, fo1, f2, fo2)
    ensures Unread(disk, f2) <= Unread(disk, f1)
  {
    assert forall i | 0 <= i < |f1| :: f2[i] == f2[..|f1|][i];
  }

  /** As OnPaths, for a file that is itself in progress. */
  ghost predicate OnPathsTo(disk: Disk, start: Start, files: seq<File>, inProgress: seq<nat>, file: nat) {
    && file < |files| && AllReached(disk, start, files)
    && (forall p | 0 <= p < |inProgress| && inProgress[p] < |files| ::
          Reaches(NamesRel(disk, start), files[inProgress[p]].filename, files[file].filename))
  }

  lemma CycleIsTrouble(
      disk: Disk, start: Start, files: seq<File>, inProgress: seq<nat>, filename: string, file: nat)
    requires OnPaths(disk, start, files, inProgress, filename) && file in inProgress && file < |files|
    requires SameFile(disk, filename, files[file].filename)
    ensures Troubled(disk, start)
  {
    assert SameFile(disk, files[file].filename, filename);
    assert Trouble(disk, start, filename);
  }

  lemma ClashIsTrouble(
      disk: Disk, start: Start, files: seq<File>, presetOrigin: Origins, filename: string)
    requires filename in disk.contents && PresetsOk(disk, files, presetOrigin)
    requires Reaches(NamesRel(disk, start), start.filename, filename) && AllReached(disk, start, files)
    requires forall i | 0 <= i < |files| :: !SameFile(disk, filename, files[i].filename)
    requires var c := disk.contents[filename];
             BadPresetNames(c) || exists key :: c.Has(key) && key in presetOrigin
    ensures Troubled(disk, start)
  {
    var c := disk.contents[filename];
    if !BadPresetNames(c) {
      var key :| c.Has(key) && key in presetOrigin;
      var i := presetOrigin[key];
      assert SharePreset(disk, filename, files[i].filename);
      assert Reaches(NamesRel(disk, start), start.filename, files[i].filename);
    }
    assert Trouble(disk, start, filename);
  }

  lemma PathsToFile(disk: Disk, start: Start, files: seq<File>, inProgress: seq<nat>, file: File)
    requires OnPaths(disk, start, files, inProgress, file.filename)
    requires forall p | 0 <= p < |inProgress| :: inProgress[p] < |files|
    ensures OnPathsTo(disk, start, files + [file], inProgress + [|files|], |files|)
  {
    var files', e := files + [file], NamesRel(disk, start);
    ReachesSelf(e, file.filename);
    forall p | 0 <= p < |inProgress|
      ensures Reaches(e, files'[inProgress[p]].filename, file.filename)
    {
      assert ReachesPlus(e, files[inProgress[p]].filename, file.filename);
      var m :| e(files[inProgress[p]].filename, m) && Reaches(e, m, file.filename);
      EdgeThenReaches(e, files[inProgress[p]].filename, m, file.filename);
    }
  }

  lemma PathsToInclude(disk: Disk, start: Start, files: seq<File>, inProgress: seq<nat>, file: nat, name: string)
    requires OnPathsTo(disk, start, files, inProgress, file) && Names(disk, start, files[file].filename, name)
    ensures OnPaths(disk, start, files, inProgress, name)
  {
    var e := NamesRel(disk, start);
    ReachesThenEdge(e, start.filename, files[file].filename, name);
    forall p | 0 <= p < |inProgress| && inProgress[p] < |files|
      ensures ReachesPlus(e, files[inProgress[p]].filename, name)
    {
      var a := files[inProgress[p]].filename;
      ReachesFirstStep(e, a, files[file].filename);
      if ReachesPlus(e, a, files[file].filename) {
        var m :| e(a, m) && Reaches(e, m, files[file].filename);
        ReachesThenEdge(e, m, files[file].filename, name);
      } else {
        ReachesSelf(e, name);
      }
    }
  }

  lemma PathsStay(
      disk: Disk, start: Start, f1: seq<File>, fo1: Followed, f2: seq<File>, fo2: Followed,
      inProgress: seq<nat>, file: nat, included: nat)
    requires OnPathsTo(disk, start, f1, inProgress, file) && Extends(f1, fo1, f2, fo2) && included < |f2|
    requires AllReached(disk, start, f2) && forall p | 0 <= p < |inProgress| :: inProgress[p] < |f1|
    ensures OnPathsTo(disk, start, Reaching(f2, file, included), inProgress, file)
  {
    var f3 := Reaching(f2, file, included);
    assert forall i | 0 <= i < |f2| :: f3[i].filename == f2[i].filename;
    assert forall i | 0 <= i < |f1| :: f2[i] == f2[..|f1|][i];
  }

  class FileReader {
    const disk: Disk
    var files: seq<File>
    var inProgressFiles: seq<nat>
    var presetOrigin: Origins
    ghost var followed: Followed

    constructor (disk: Disk)
      ensures this.disk == disk && files == [] && inProgressFiles == [] && presetOrigin == map[] && followed == []
    {
      this.disk := disk;
      files, inProgressFiles, presetOrigin, followed := [], [], map[], [];
    }

    ghost predicate Valid()
      reads this
    {
      && Inv(disk, files, followed, inProgressFiles)
      && PresetsOk(disk, files, presetOrigin)
    }

    /** The loop at the start of ReadJSONFile: has the file been read under some name? */
    method FindFile(filename: string) returns (file: Option<nat>)
      ensures file.None? ==> forall i | 0 <= i < |files| :: !SameFile(disk, filename, files[i].filename)
      ensures file.Some? ==> file.value < |files| && SameFile(disk, filename, files[file.value].filename)
    {
      for i := 0 to |files|
        invariant forall k | 0 <= k < i :: !SameFile(disk, filename, files[k].filename)
      {
        if SameFile(disk, filename, files[i].filename) {
          return Some(i);
        }
      }
      return None;
    }

    /** One of the five loops: the presets of one kind are entered into their map. */
    method EnterPresets(file: nat, kind: Kind, names: seq<string>) returns (ok: bool)
      modifies this`presetOrigin
      ensures ok <==> !BadNames(names) && forall n | n in names :: PresetKey(kind, n) !in old(presetOrigin)
      ensures ok ==> forall key: PresetKey :: key in presetOrigin <==>
                key in old(presetOrigin) || (key.kind == kind && key.name in names)
      ensures ok ==> forall key | key in presetOrigin ::
                presetOrigin[key] == if key in old(presetOrigin) then old(presetOrigin)[key] else file
    {
      for k := 0 to |names|
        invariant forall key: PresetKey :: key in presetOrigin <==>
                    key in old(presetOrigin) || (key.kind == kind && key.name in names[..k])
        invariant forall key | key in presetOrigin ::
                    presetOrigin[key] == if key in old(presetOrigin) then old(presetOrigin)[key] else file
        invariant !BadNames(names[..k]) && forall n | n in names[..k] :: PresetKey(kind, n) !in old(presetOrigin)
      {
        var key := PresetKey(kind, names[k]);
        if names[k] == "" || key in presetOrigin {
          assert names[k] in names[..k] ==> exists i :: 0 <= i < k && names[i] == names[k];
          return false;
        }
        assert names[..k + 1] == names[..k] + [names[k]] && names[k] !in names[..k];
        presetOrigin := presetOrigin[key := file];
      }
      assert names[..|names|] == names;
      return true;
    }

    /** The presets of a file are entered kind by kind; equal names of different kinds do not clash. */
    method RegisterPresets(file: nat, c: Contents) returns (ok: bool)
      modifies this`presetOrigin
      ensures ok <==> !BadPresetNames(c) && forall key | c.Has(key) :: key !in old(presetOrigin)
      ensures ok ==> forall key: PresetKey :: key in presetOrigin <==> key in old(presetOrigin) || c.Has(key)
      ensures ok ==> forall key | key in presetOrigin ::
                presetOrigin[key] == if key in old(presetOrigin) then old(presetOrigin)[key] else file
    {
      var kinds := [Configure, Build, Test, Package, Workflow];
      for k := 0 to |kinds|
        invariant forall key: PresetKey :: key in presetOrigin <==>
                    key in old(presetOrigin) || (key.kind in kinds[..k] && c.Has(key))
        invariant forall key | key in presetOrigin ::
                    presetOrigin[key] == if key in old(presetOrigin) then old(presetOrigin)[key] else file
        invariant forall kind | kind in kinds[..k] :: !BadNames(c.Named(kind))
        invariant forall key: PresetKey | key.kind in kinds[..k] && c.Has(key) :: key !in old(presetOrigin)
      {
        var kind := kinds[k];
        ok := EnterPresets(file, kind, c.Named(kind));
        if !ok {
          assert kind !in kinds[..k];
          assert !BadNames(c.Named(kind)) ==>
            exists n :: n in c.Named(kind) && c.Has(PresetKey(kind, n)) && PresetKey(kind, n) in old(presetOrigin);
          return;
        }
        assert kinds[..k + 1] == kinds[..k] + [kind];
      }
      assert forall kind: Kind :: kind in kinds[..|kinds|] by {
        assert kinds[..|kinds|] == kinds;
        EveryKind();
      }
      return true;
    }

    method ReadJSONFile(filename: string, rootType: RootType, readReason: ReadReason, ghost start: Start)
      returns (ok: bool, file: nat)
      requires Valid()
      requires rootType == User && readReason == Root ==> start == Start(filename, true)
      requires OnPaths(disk, start, files, inProgressFiles, filename)
      modifies this
      ensures if ok then AllReached(disk, start, files) else Troubled(disk, start)
      ensures ok ==> Valid() && inProgressFiles == old(inProgressFiles)
      ensures ok ==> Extends(old(files), old(followed), files, followed)
      ensures ok ==> file < |files| && file !in inProgressFiles && SameFile(disk, filename, files[file].filename)
      ensures ok ==> NewOnes(disk, files, followed, |old(files)|, file, rootType, readReason)
      ensures ok && |old(files)| < |files| ==> files[|old(files)|].filename == filename
      decreases Unread(disk, files), 1
    {
      file := 0;
      var found := FindFile(filename);
      if found.Some? {
        ok, file := found.value !in inProgressFiles, found.value;
        if !ok {
          CycleIsTrouble(disk, start, files, inProgressFiles, filename, file);
        }
        return;
      }
      if filename !in disk.contents {
        assert Trouble(disk, start, filename);
        return false, 0;
      }
      ok, file := ReadNewFile(filename, rootType, readReason, start);
    }

    /** ReadJSONFile for a file that has not been read before. */
    method ReadNewFile(filename: string, rootType: RootType, readReason: ReadReason, ghost start: Start)
      returns (ok: bool, file: nat)
      requires Valid() && filename in disk.contents
      requires rootType == User && readReason == Root ==> start == Start(filename, true)
      requires OnPaths(disk, start, files, inProgressFiles, filename)
      requires forall i | 0 <= i < |files| :: !SameFile(disk, filename, files[i].filename)
      modifies this
      ensures if ok then AllReached(disk, start, files) else Troubled(disk, start)
      ensures ok ==> Valid() && inProgressFiles == old(inProgressFiles)
      ensures ok ==> Extends(old(files), old(followed), files, followed)
      ensures ok ==> file == |old(files)| < |files| && files[file].filename == filename
      ensures ok ==> NewOnes(disk, files, followed, |old(files)|, file, rootType, readReason)
      decreases Unread(disk, files), 0
    {
      file := |files|;
      ok := StartFile(filename, start);
      if !ok {
        return;
      }
      ok := FollowIncludes(file, filename, rootType, readReason, old(files), old(followed), start);
      if ok {
        inProgressFiles := inProgressFiles[..|inProgressFiles| - 1];
      }
    }

    /** The second half of ReadJSONFile: the file's includes and the implicit one. */
    method FollowIncludes(file: nat, filename: string, rootType: RootType, readReason: ReadReason,
                          ghost files0: seq<File>, ghost followed0: Followed, ghost start: Start)
      returns (ok: bool)
      requires Valid() && file in inProgressFiles && filename in disk.contents
      requires rootType == User && readReason == Root ==> start == Start(filename, true)
      requires OnPathsTo(disk, start, files, inProgressFiles, file)
      requires Reading(disk, files, followed, files0, followed0, filename,
                       IncludesOf(disk, filename, rootType, readReason), 0, file)
      modifies this
      ensures ok ==> Valid() && inProgressFiles == old(inProgressFiles)
      ensures ok ==> Extends(files0, followed0, files, followed)
      ensures ok ==> file < |files| && files[file].filename == filename
      ensures ok ==> NewOnes(disk, files, followed, |files0|, file, rootType, readReason)
      ensures if ok then AllReached(disk, start, files) else Troubled(disk, start)
      decreases Unread(disk, files), 3
    {
      ghost var wanted := IncludesOf(disk, filename, rootType, readReason);
      var includes := disk.contents[filename].includes;
      for k := 0 to |includes|
        invariant Valid() && inProgressFiles == old(inProgressFiles)
        invariant Reading(disk, files, followed, files0, followed0, filename, wanted, k, file)
        invariant OnPathsTo(disk, start, files, inProgressFiles, file)
        invariant Unread(disk, files) <= Unread(disk, old(files))
      {
        if includes[k].None? {
          assert Trouble(disk, start, filename);
          return false;
        }
        assert wanted[k] == includes[k] && Names(disk, start, filename, includes[k].value);
        ok := IncludeFile(file, includes[k].value, rootType, Included, filename, wanted, k, files0, followed0, start);
        if !ok {
          return;
        }
      }
      if rootType == User && readReason == Root {
        if disk.projectFile.Some? {
          assert wanted[|includes|] == disk.projectFile && Names(disk, start, filename, disk.projectFile.value);
          ok := IncludeFile(file, disk.projectFile.value, Project, Root,
                            filename, wanted, |includes|, files0, followed0, start);
          if !ok {
            return;
          }
        }
      }
      return true;
    }

    /** Enter a file that has not been read before: list, stack, presets. */
    method StartFile(filename: string, ghost start: Start) returns (ok: bool)
      requires Valid() && filename in disk.contents
      requires OnPaths(disk, start, files, inProgressFiles, filename)
      requires forall i | 0 <= i < |files| :: !SameFile(disk, filename, files[i].filename)
      modifies this
      ensures ok ==> Valid() && inProgressFiles == old(inProgressFiles) + [|old(files)|]
      ensures ok ==> files == old(files) + [File(filename, {|old(files)|})] && followed == old(followed) + [[]]
      ensures ok ==> Unread(disk, files) < Unread(disk, old(files))
      ensures if ok then OnPathsTo(disk, start, files, inProgressFiles, |old(files)|) else Troubled(disk, start)
    {
      AddFile(disk, files, followed, inProgressFiles, filename);
      FewerUnread(disk, files, File(filename, {|files|}));
      var file := |files|;
      files := files + [File(filename, {file})];
      followed := followed + [[]];
      inProgressFiles := inProgressFiles + [file];
      PathsToFile(disk, start, old(files), old(inProgressFiles), File(filename, {file}));
      ok := RegisterFile(file, filename, old(files), start);
    }

    /** The presets of a new file are entered, or there is a reason to refuse it. */
    method RegisterFile(file: nat, filename: string, ghost before: seq<File>, ghost start: Start) returns (ok: bool)
      requires filename in disk.contents && PresetsOk(disk, before, presetOrigin) && file == |before|
      requires Reaches(NamesRel(disk, start), start.filename, filename) && AllReached(disk, start, before)
      requires forall i | 0 <= i < |before| :: !SameFile(disk, filename, before[i].filename)
      modifies this`presetOrigin
      ensures if ok then PresetsOk(disk, before + [File(filename, {file})], presetOrigin) else Troubled(disk, start)
    {
      ok := RegisterPresets(file, disk.contents[filename]);
      if ok {
        OriginsMore(disk, before, File(filename, {file}), old(presetOrigin), presetOrigin);
      } else {
        ClashIsTrouble(disk, start, before, old(presetOrigin), filename);
      }
    }

    /** The lambda includeFile of ReadJSONFile. */
    method IncludeFile(file: nat, name: string, rootType: RootType, readReason: ReadReason,
                       ghost filename: string, ghost wanted: seq<Option<string>>, ghost k: nat,
                       ghost files0: seq<File>, ghost followed0: Followed, ghost start: Start)
      returns (ok: bool)
      requires Valid() && file in inProgressFiles
      requires OnPathsTo(disk, start, files, inProgressFiles, file) && Names(disk, start, filename, name)
      requires k < |wanted| && wanted[k] == Some(name) && !(rootType == User && readReason == Root)
      requires Reading(disk, files, followed, files0, followed0, filename, wanted, k, file)
      modifies this
      ensures ok ==> Valid() && inProgressFiles == old(inProgressFiles)
      ensures ok ==> Reading(disk, files, followed, files0, followed0, filename, wanted, k + 1, file)
      ensures ok ==> Unread(disk, files) <= Unread(disk, old(files))
      ensures if ok then OnPathsTo(disk, start, files, inProgressFiles, file) else Troubled(disk, start)
      decreases Unread(disk, files), 2
    {
      var included;
      PathsToInclude(disk, start, files, inProgressFiles, file, name);
      ok, included := ReadJSONFile(name, rootType, readReason, start);
      if !ok {
        return;
      }
      AddEdge(disk, files, followed, inProgressFiles, file, included, name);
      ExtendsUnread(disk, old(files), old(followed), files, followed);
      SameNames(disk, files, presetOrigin, file, included);
      PathsStay(disk, start, old(files), old(followed), files, followed, inProgressFiles, file, included);
      ReadingAdvances(disk, old(files), old(followed), files, followed, files0, followed0,
                      filename, wanted, k, file, included, name, rootType, readReason);
      files := Reaching(files, file, included);
      followed := Followed1(followed, file, name);
    }

    /**
      The reading part of ReadProjectPresetsInternal on cleared state: the user's
      presets file if there is one, else the project's, else nothing.
     */
    method ReadProjectPresets(userFile: Option<string>, allowNoFiles: bool) returns (ok: bool)
      requires files == [] && inProgressFiles == [] && presetOrigin == map[] && followed == []
      modifies this
      ensures userFile.Some? ==> StartedAt(ok, Start(userFile.value, true))
      ensures userFile.None? && disk.projectFile.Some? ==> StartedAt(ok, Start(disk.projectFile.value, false))
      ensures userFile.None? && disk.projectFile.None? ==> ok == allowNoFiles && files == []
      ensures ok && userFile.Some? ==>
                files != [] && files[0].filename == userFile.value
                && (disk.projectFile.Some? ==> WasRead(disk, files, disk.projectFile.value))
      ensures ok && userFile.None? && disk.projectFile.Some? ==>
                files != [] && files[0].filename == disk.projectFile.value
      ensures ok ==> PresetsFound(disk, files, presetOrigin)
    {
      assert ClosureOk(disk, files, followed);
      if userFile.Some? {
        ok := ReadRoot(userFile.value, User);
      } else if disk.projectFile.Some? {
        ok := ReadRoot(disk.projectFile.value, Project);
      } else {
        ok := allowNoFiles;
      }
    }

    /** The outcome of reading from a start: everything was read, or there is a reason why not. */
    ghost predicate StartedAt(ok: bool, start: Start)
      reads this
    {
      && (ok ==> ReadAll(disk, start, files, followed, presetOrigin) && inProgressFiles == [])
      && (!ok ==> Troubled(disk, start))
      && (Coherent(disk) ==> (ok <==> !Troubled(disk, start)))
    }

    method ReadRoot(filename: string, rootType: RootType) returns (ok: bool)
      requires files == [] && inProgressFiles == [] && presetOrigin == map[] && followed == [] && Valid()
      modifies this
      ensures StartedAt(ok, Start(filename, rootType == User))
      ensures ok ==> PresetsFound(disk, files, presetOrigin) && files[0].filename == filename
      ensures ok && rootType == User && disk.projectFile.Some? ==> WasRead(disk, files, disk.projectFile.value)
    {
      ghost var start := Start(filename, rootType == User);
      ReachesSelf(NamesRel(disk, start), filename);
      var file;
      ok, file := ReadJSONFile(filename, rootType, Root, start);
      if ok {
        RootFollowed(disk, files, followed, rootType);
        PresetsAreFound(disk, files, presetOrigin);
        if rootType == User && disk.projectFile.Some? { ImplicitInclude(disk, start, files, followed, presetOrigin); }
        if Coherent(disk) {
          NoTrouble(disk, start, files, followed, presetOrigin);
        }
      }
    }
  }

  /** In the map of presets of a kind, a name belongs to file number i. */
  ghost predicate IsFrom(origin: Origins, kind: Kind, n: string, i: nat) {
    PresetKey(kind, n) in origin && origin[PresetKey(kind, n)] == i
  }

  /** The presets that the maps have from file number i are the file's, kind by kind. */
  ghost predicate FoundIn(c: Contents, i: nat, origin: Origins) {
    && (forall n :: IsFrom(origin, Configure, n, i) <==> n in c.configurePresets)
    && (forall n :: IsFrom(origin, Build, n, i) <==> n in c.buildPresets)
    && (forall n :: IsFrom(origin, Test, n, i) <==> n in c.testPresets)
    && (forall n :: IsFrom(origin, Package, n, i) <==> n in c.packagePresets)
    && (forall n :: IsFrom(origin, Workflow, n, i) <==> n in c.workflowPresets)
  }

  /** The maps hold the presets of the files that were read, each with its file, and no others. */
  ghost predicate PresetsFound(disk: Disk, files: seq<File>, origin: Origins) {
    && (forall i | 0 <= i < |files| ::
          files[i].filename in disk.contents && FoundIn(disk.contents[files[i].filename], i, origin))
    && (forall key | key in origin :: origin[key] < |files|)
  }

  lemma PresetsAreFound(disk: Disk, files: seq<File>, origin: Origins)
    requires PresetsOk(disk, files, origin)
    ensures PresetsFound(disk, files, origin)
  {
    forall i | 0 <= i < |files|
      ensures FoundIn(disk.contents[files[i].filename], i, origin)
    {
      EachIsFrom(disk, files, origin, i);
      KindByKind(disk.contents[files[i].filename], i, origin);
    }
  }

  lemma EachIsFrom(disk: Disk, files: seq<File>, origin: Origins, i: nat)
    requires PresetsOk(disk, files, origin) && i < |files|
    ensures forall kind, n :: IsFrom(origin, kind, n, i) <==> disk.contents[files[i].filename].Has(PresetKey(kind, n))
  {
    var c := disk.contents[files[i].filename];
    forall kind, n
      ensures IsFrom(origin, kind, n, i) <==> c.Has(PresetKey(kind, n))
    {
      var key := PresetKey(kind, n);
      assert c.Has(key) ==> key in origin && origin[key] == i;
    }
  }

  lemma KindByKind(c: Contents, i: nat, origin: Origins)
    requires forall kind, n :: IsFrom(origin, kind, n, i) <==> c.Has(PresetKey(kind, n))
    ensures FoundIn(c, i, origin)
  {
  }

  /** After the user's file the project's is read, whatever the user's includes. */
  lemma ImplicitInclude(disk: Disk, start: Start, files: seq<File>, followed: Followed, origin: Origins)
    requires ReadAll(disk, start, files, followed, origin) && start.userRoot && disk.projectFile.Some?
    ensures WasRead(disk, files, disk.projectFile.value)
  {
    assert 0 in files[0].reachableFiles;
    assert FollowedAll(disk, files, followed, 0, User, Root);
    var wanted := IncludesOf(disk, files[0].filename, User, Root);
    var k := |wanted| - 1;
    assert wanted[k] == disk.projectFile && wanted[k] == Some(followed[0][k]);
  }

  /**
    The state after a successful read: different files, all of their includes
    read, their reachable files the closure of an acyclic include relation, and
    every preset entered with its file.
   */
  ghost predicate ReadAll(
      disk: Disk, start: Start, files: seq<File>, followed: Followed, presetOrigin: Origins) {
    && Inv(disk, files, followed, []) && PresetsOk(disk, files, presetOrigin)
    && files != [] && files[0].filename == start.filename
    && AllFollowed(disk, files, followed, start.userRoot)
  }

  /** Every file followed exactly its includes, and the first one reaches them all. */
  ghost predicate AllFollowed(disk: Disk, files: seq<File>, followed: Followed, userRoot: bool)
    requires |followed| == |files|
  {
    forall i | 0 <= i < |files| ::
      && i in files[0].reachableFiles
      && FollowedAll(disk, files, followed, i, if i == 0 && userRoot then User else Project,
                     if i == 0 && userRoot then Root else Included)
  }

  lemma RootFollowed(disk: Disk, files: seq<File>, followed: Followed, rootType: RootType)
    requires files != [] && |followed| == |files|
    requires NewOnes(disk, files, followed, 0, 0, rootType, Root)
    ensures AllFollowed(disk, files, followed, rootType == User)
  {
    assert IncludesOf(disk, files[0].filename, Project, Root) == IncludesOf(disk, files[0].filename, Project, Included);
    forall i | 0 <= i < |files|
      ensures i in files[0].reachableFiles
      ensures FollowedAll(disk, files, followed, i, if i == 0 && rootType == User then User else Project,
                          if i == 0 && rootType == User then Root else Included)
    {
      if i > 0 { assert FollowedAll(disk, files, followed, i, Project, Included); }
    }
  }

  // ------------------------------------------------------ no reason to refuse

  /** All names of one file agree on what it includes and which presets it has. */
  ghost predicate Coherent(disk: Disk) {
    forall a, b | SameFile(disk, a, b) ::
      disk.contents[a] == disk.contents[b]
  }

  /** An include between names is an include between the files read under them. */
  lemma NamedIsIncluded(
      disk: Disk, start: Start, files: seq<File>, followed: Followed,
      presetOrigin: Origins, i: nat, a: string, b: string)
    returns (j: nat)
    requires ReadAll(disk, start, files, followed, presetOrigin) && Coherent(disk)
    requires i < |files| && SameFile(disk, a, files[i].filename) && Names(disk, start, a, b)
    ensures j < |files| && SameFile(disk, b, files[j].filename) && Includes(disk, files, followed, i, j)
  {
    var root := i == 0 && start.userRoot;
    var wanted := IncludesOf(disk, files[i].filename, if root then User else Project, if root then Root else Included);
    assert i in files[0].reachableFiles;
    assert FollowedAll(disk, files, followed, i, if root then User else Project, if root then Root else Included);
    assert Some(b) in wanted by {
      if Some(b) !in disk.contents[a].includes {
        assert SameFile(disk, files[i].filename, files[0].filename);
        assert i == 0;
      }
    }
    var k :| 0 <= k < |wanted| && wanted[k] == Some(b);
    assert WasRead(disk, files, followed[i][k]);
    j :| 0 <= j < |files| && SameFile(disk, b, files[j].filename);
  }

  /** Along includes between names only files read are met, and their include relation is followed. */
  lemma {:induction false} PathIsRead(
      disk: Disk, start: Start, files: seq<File>, followed: Followed, presetOrigin: Origins, i: nat, p: seq<string>)
    returns (j: nat)
    requires ReadAll(disk, start, files, followed, presetOrigin) && Coherent(disk)
    requires p != [] && IsPath(NamesRel(disk, start), p, p[0], p[|p| - 1])
    requires i < |files| && SameFile(disk, p[0], files[i].filename)
    ensures j < |files| && SameFile(disk, p[|p| - 1], files[j].filename)
    ensures Reach(disk, files, followed, i, j) && (|p| > 1 ==> ReachesPlus(IncludesRel(disk, files, followed), i, j))
    decreases |p|
  {
    var e := IncludesRel(disk, files, followed);
    if |p| == 1 {
      j := i;
      ReachesSelf(e, i);
    } else {
      var m := NamedIsIncluded(disk, start, files, followed, presetOrigin, i, p[0], p[1]);
      j := PathIsRead(disk, start, files, followed, presetOrigin, m, p[1..]);
      assert e(i, m) && Reaches(e, m, j);
      EdgeThenReaches(e, i, m, j);
    }
  }

  lemma NameIsRead(
      disk: Disk, start: Start, files: seq<File>, followed: Followed, presetOrigin: Origins, name: string)
    returns (j: nat)
    requires ReadAll(disk, start, files, followed, presetOrigin) && Coherent(disk)
    requires Reaches(NamesRel(disk, start), start.filename, name)
    ensures j < |files| && SameFile(disk, name, files[j].filename)
  {
    var p :| IsPath(NamesRel(disk, start), p, start.filename, name);
    j := PathIsRead(disk, start, files, followed, presetOrigin, 0, p);
  }

  /** What has been read completely gave no reason to refuse. */
  lemma NoTrouble(disk: Disk, start: Start, files: seq<File>, followed: Followed, presetOrigin: Origins)
    requires ReadAll(disk, start, files, followed, presetOrigin) && Coherent(disk)
    ensures !Troubled(disk, start)
  {
    forall name | Reaches(NamesRel(disk, start), start.filename, name)
      ensures !Trouble(disk, start, name)
    {
      var i := NameIsRead(disk, start, files, followed, presetOrigin, name);
      AllIncludesNamed(disk, start, files, followed, presetOrigin, i);
      forall a | SameFile(disk, a, name)
        ensures !ReachesPlus(NamesRel(disk, start), a, name)
      {
        NoCycleOfNames(disk, start, files, followed, presetOrigin, i, a, name);
      }
      forall m | Reaches(NamesRel(disk, start), start.filename, m)
        ensures !SharePreset(disk, name, m)
      {
        var j := NameIsRead(disk, start, files, followed, presetOrigin, m);
        PresetsDiffer(disk, files, presetOrigin, i, j, name, m);
      }
    }
  }

  lemma OneFile(disk: Disk, files: seq<File>, i: nat, j: nat, name: string)
    requires DistinctFiles(disk, files) && i < |files| && j < |files|
    requires SameFile(disk, name, files[i].filename) && SameFile(disk, name, files[j].filename)
    ensures i == j
  {
    assert SameFile(disk, files[i].filename, files[j].filename) && SameFile(disk, files[j].filename, files[i].filename);
  }

  lemma AllIncludesNamed(
      disk: Disk, start: Start, files: seq<File>, followed: Followed, presetOrigin: Origins, i: nat)
    requires ReadAll(disk, start, files, followed, presetOrigin) && i < |files|
    ensures None !in disk.contents[files[i].filename].includes
  {
    var root := i == 0 && start.userRoot;
    var includes := disk.contents[files[i].filename].includes;
    assert i in files[0].reachableFiles;
    assert FollowedAll(disk, files, followed, i, if root then User else Project, if root then Root else Included);
    forall k | 0 <= k < |includes|
      ensures includes[k].Some?
    {
      var wanted := IncludesOf(disk, files[i].filename, if root then User else Project,
                               if root then Root else Included);
      assert wanted[k] == includes[k];
    }
  }

  lemma OtherOrigin(disk: Disk, files: seq<File>, presetOrigin: Origins, j: nat, key: PresetKey)
    requires PresetsOk(disk, files, presetOrigin) && j < |files| && key in presetOrigin && presetOrigin[key] != j
    ensures !disk.contents[files[j].filename].Has(key)
  {
  }

  lemma PresetsDiffer(
      disk: Disk, files: seq<File>, presetOrigin: Origins, i: nat, j: nat, a: string, b: string)
    requires PresetsOk(disk, files, presetOrigin) && Coherent(disk) && i < |files| && j < |files|
    requires SameFile(disk, a, files[i].filename) && SameFile(disk, b, files[j].filename)
    ensures !SharePreset(disk, a, b)
  {
    assert disk.contents[a] == disk.contents[files[i].filename];
    assert disk.contents[b] == disk.contents[files[j].filename];
    if i != j {
      forall key | disk.contents[a].Has(key)
        ensures !disk.contents[b].Has(key)
      {
        OtherOrigin(disk, files, presetOrigin, j, key);
      }
    }
  }

  lemma NoCycleOfNames(
      disk: Disk, start: Start, files: seq<File>, followed: Followed,
      presetOrigin: Origins, i: nat, a: string, b: string)
    requires ReadAll(disk, start, files, followed, presetOrigin) && Coherent(disk) && i < |files|
    requires SameFile(disk, a, files[i].filename) && SameFile(disk, b, files[i].filename)
    ensures !ReachesPlus(NamesRel(disk, start), a, b)
  {
    if ReachesPlus(NamesRel(disk, start), a, b) {
      var p := PathOfReachesPlus(NamesRel(disk, start), a, b);
      var j := PathIsRead(disk, start, files, followed, presetOrigin, i, p);
      OneFile(disk, files, i, j, b);
    }
  }

  /** A file with one preset of every kind, all of one name, gives no reason to refuse. */
  lemma OneNameForEveryKind(filename: string, name: string)
    requires name != ""
    ensures var c := Contents(0, [name], [name], [name], [name], [name], []);
            var disk := Disk(map[filename := c], None);
            Coherent(disk) && !Troubled(disk, Start(filename, false))
  {
    var c := Contents(0, [name], [name], [name], [name], [name], []);
    var disk, start := Disk(map[filename := c], None), Start(filename, false);
    forall a, b
      ensures !ReachesPlus(NamesRel(disk, start), a, b)
    {
      assert forall m :: !Names(disk, start, a, m);
    }
    forall m | Reaches(NamesRel(disk, start), filename, m)
      ensures !Trouble(disk, start, m)
    {
      ReachesFirstStep(NamesRel(disk, start), filename, m);
      assert m == filename;
      assert forall kind: Kind :: c.Named(kind) == [name];
    }
  }

  /** The readable names that have not been used yet: they bound the recursion. */
  ghost function Unread(disk: Disk, files: seq<File>): set<string> {
    set n | n in disk.contents && forall i | 0 <= i < |files| :: files[i].filename != n
  }

  lemma FewerUnread(disk: Disk, files: seq<File>, file: File)
    requires file.filename in disk.contents
    requires forall i | 0 <= i < |files| :: !SameFile(disk, file.filename, files[i].filename)
    ensures Unread(disk, files + [file]) < Unread(disk, files)
  {
    var files' := files + [file];
    assert files'[|files|] == file;
    assert file.filename in Unread(disk, files) && file.filename !in Unread(disk, files');
    assert forall i | 0 <= i < |files| :: files'[i] == files[i];
  }

  /** The files read since there were n of them: reachable from file, and fully followed. */
  ghost predicate NewOnes(
      disk: Disk, files: seq<File>, followed: Followed, n: nat, file: nat, rootType: RootType, readReason: ReadReason)
    requires file < |files| && |followed| == |files|
  {
    && (forall i | n <= i < |files| :: i in files[file].reachableFiles)
    && (forall i | n < i < |files| :: FollowedAll(disk, files, followed, i, Project, Included))
    && (n < |files| ==> file == n && FollowedAll(disk, files, followed, n, rootType, readReason))
  }

  /** File number file, the first new one, has followed k of its wanted includes. */
  ghost predicate Reading(
      disk: Disk, files: seq<File>, followed: Followed, files0: seq<File>, followed0: Followed,
      filename: string, wanted: seq<Option<string>>, k: nat, file: nat)
  {
    && file == |files0| == |followed0| < |files| == |followed| && k <= |wanted|
    && Extends(files0, followed0, files, followed) && files[file].filename == filename
    && |followed[file]| == k && (forall m | 0 <= m < k :: wanted[m] == Some(followed[file][m]))
    && (forall i | file <= i < |files| :: i in files[file].reachableFiles)
    && (forall i | file < i < |files| :: FollowedAll(disk, files, followed, i, Project, Included))
  }
}
