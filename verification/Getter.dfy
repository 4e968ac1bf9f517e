// Fetching and updating tracked assets (cli/getter.py): a three-way comparison of the
// recorded hash, the local file and the source, over any interleaving with user edits.
module Getter {
  import opened Document

  /** A repository-relative path, part by part. */
  type Path = seq<string>

  type Content = string

  /** A recorded hash stands for the content it was computed from, as hashing is injective. */
  datatype HashField = Digest(content: Content) | NotText

  datatype Node = File(content: Content) | Dir | Symlink(toDir: bool)

  /** What is seen under each path, links followed on the way. */
  type Tree = map<Path, Node>

  datatype AssetKind = ProfileAsset | ModuleAsset | RuntimeAsset | ContractAsset

  datatype Category = Profiles | Modules | Contracts

  type Assets = map<Path, AssetKind>

  /** The tracking entry of one profile. */
  datatype Entry = Entry(hashes: map<Path, HashField>, files: set<Path>, assets: Assets)

  datatype Action = Action(path: Path, content: Content)

  /** One source version of a profile: the files planned for copying, and its assets. */
  datatype Upstream = Upstream(actions: seq<Action>, assets: Assets)

  datatype Disk = Disk(tree: Tree, manifest: map<string, Entry>)

  // ---------------------------------------------------------------------------
  // Writing files
  // ---------------------------------------------------------------------------

  predicate IsParent(parent: Path, p: Path) {
    0 < |parent| < |p| && parent <= p
  }

  predicate SymlinkedParent(tree: Tree, p: Path) {
    exists i :: 0 < i < |p| && p[..i] in tree && tree[p[..i]].Symlink?
  }

  /** A parent that is neither a directory nor a link to one makes the write fail. */
  predicate Blocked(tree: Tree, p: Path) {
    p == [] || exists i :: 0 < i < |p| && p[..i] in tree && !LeadsOn(tree[p[..i]])
  }

  predicate LeadsOn(n: Node) {
    n.Dir? || n == Symlink(true)
  }

  function Parents(p: Path): set<Path> {
    set i | 0 < i < |p| :: p[..i]
  }

  /** Copying onto a directory puts the file inside it, under its own name. */
  function Target(tree: Tree, p: Path): Path
    requires p != []
  {
    if p in tree && tree[p].Dir? then p + [p[|p| - 1]] else p
  }

  predicate Writable(tree: Tree, p: Path) {
    !Blocked(tree, p) && (Target(tree, p) in tree ==> !tree[Target(tree, p)].Dir?)
  }

  /** Removing a link hides what was seen through it. */
  function Unlinked(tree: Tree, p: Path): Tree {
    if p in tree && tree[p].Symlink? then map q | q in tree && !(p < q) :: tree[q] else tree
  }

  /** Missing parent directories are created; a symlink at the path gives way to a file. */
  function WriteOne(tree: Tree, a: Action): Tree
    requires Writable(tree, a.path)
  {
    var made := map d | d in Parents(a.path) && d !in tree :: Dir;
    (Unlinked(tree, a.path) + made)[Target(tree, a.path) := File(a.content)]
  }

  datatype Copied = Copied(tree: Tree, done: bool)

  /** Copy in order, up to an obstacle or an input/output failure after `quota` files. */
  function WriteAll(tree: Tree, actions: seq<Action>, quota: nat): Copied {
    if actions == [] then Copied(tree, true)
    else
      var before := WriteAll(tree, actions[..|actions| - 1], quota);
      var last := actions[|actions| - 1];
      if before.done && |actions| <= quota && Writable(before.tree, last.path)
      then Copied(WriteOne(before.tree, last), true)
      else Copied(before.tree, false)
  }

  // ---------------------------------------------------------------------------
  // cds get
  // ---------------------------------------------------------------------------

  /** A destination that must not be overwritten without force. */
  predicate InTheWay(tree: Tree, a: Action) {
    a.path in tree && tree[a.path] != File(a.content)
  }

  function ConflictsOf(tree: Tree, actions: seq<Action>): seq<Path> {
    if actions == [] then []
    else ConflictsOf(tree, actions[..|actions| - 1]) +
         if InTheWay(tree, actions[|actions| - 1]) then [actions[|actions| - 1].path] else []
  }

  function HashesOf(actions: seq<Action>): map<Path, HashField> {
    if actions == [] then map[]
    else HashesOf(actions[..|actions| - 1])[actions[|actions| - 1].path := Digest(actions[|actions| - 1].content)]
  }

  function PathsOf(actions: seq<Action>): set<Path> {
    set i | 0 <= i < |actions| :: actions[i].path
  }

  function FreshEntry(up: Upstream): Entry {
    Entry(HashesOf(up.actions), PathsOf(up.actions), up.assets)
  }

  function AfterGet(disk: Disk, name: string, up: Upstream, force: bool, quota: nat): Disk {
    if ConflictsOf(disk.tree, up.actions) != [] && !force then disk
    else
      var copied := WriteAll(disk.tree, up.actions, quota);
      Disk(copied.tree, if copied.done then disk.manifest[name := FreshEntry(up)] else disk.manifest)
  }

  // ---------------------------------------------------------------------------
  // cds update
  // ---------------------------------------------------------------------------

  datatype Reason = LinkedParent | IsSymlink | IsDirectory | DeletedLocally | ModifiedLocally

  datatype Verdict = Refresh | Current | Conflict(reason: Reason)

  function Judge(tree: Tree, hashes: map<Path, HashField>, a: Action): Verdict {
    var p := a.path;
    if SymlinkedParent(tree, p) then Conflict(LinkedParent)
    else if p !in tree then (if p in hashes then Conflict(DeletedLocally) else Refresh)
    else
      match tree[p]
      case Symlink(_) => Conflict(IsSymlink)
      case Dir => Conflict(IsDirectory)
      case File(local) =>
        if local == a.content then Current
        else if p in hashes && hashes[p] == Digest(local) then Refresh
        else Conflict(ModifiedLocally)
  }

  datatype Removal = RemovedButLinked | AlreadyAbsent | RemovedButDirectory | LeftInPlace | RemovedButModified

  function JudgeRemoved(tree: Tree, hashes: map<Path, HashField>, p: Path): Removal {
    if SymlinkedParent(tree, p) || (p in tree && tree[p].Symlink?) then RemovedButLinked
    else if p !in tree then AlreadyAbsent
    else if tree[p].Dir? then RemovedButDirectory
    else if p in hashes && hashes[p] == Digest(tree[p].content) then LeftInPlace
    else RemovedButModified
  }

  predicate IsConflict(r: Removal) {
    r.RemovedButLinked? || r.RemovedButDirectory? || r.RemovedButModified?
  }

  const CONTRACTS_ROOT: Path := ["shared", "contracts"]

  predicate Included(root: Path, kind: AssetKind, categories: Option<set<Category>>) {
    || categories.None?
    || (kind == ProfileAsset && Profiles in categories.value)
    || ((kind == ModuleAsset || kind == RuntimeAsset) && Modules in categories.value)
    || (kind == ContractAsset && Contracts in categories.value && CONTRACTS_ROOT <= root)
  }

  function SelectedRoots(assets: Assets, categories: Option<set<Category>>): set<Path> {
    set root | root in assets && Included(root, assets[root], categories)
  }

  predicate Under(roots: set<Path>, p: Path) {
    exists root :: root in roots && root <= p
  }

  /** The files an update looks at: all of them, or those of the selected categories. */
  function Planned(up: Upstream, categories: Option<set<Category>>): seq<Action> {
    if categories.None? then up.actions else UnderRoots(up.actions, SelectedRoots(up.assets, categories))
  }

  function UnderRoots(actions: seq<Action>, roots: set<Path>): seq<Action> {
    if actions == [] then []
    else
      var last := actions[|actions| - 1];
      UnderRoots(actions[..|actions| - 1], roots) + if Under(roots, last.path) then [last] else []
  }

  /** Actions with a given verdict, in order. */
  function Refreshed(tree: Tree, hashes: map<Path, HashField>, actions: seq<Action>): seq<Action> {
    if actions == [] then []
    else
      var last := actions[|actions| - 1];
      Refreshed(tree, hashes, actions[..|actions| - 1]) + if Judge(tree, hashes, last) == Refresh then [last] else []
  }

  function Skipped(tree: Tree, hashes: map<Path, HashField>, actions: seq<Action>): seq<Path> {
    if actions == [] then []
    else
      var last := actions[|actions| - 1];
      Skipped(tree, hashes, actions[..|actions| - 1]) + if Judge(tree, hashes, last) == Current then [last.path] else []
  }

  datatype Reported = Reported(path: Path, reason: Reason)

  function Conflicting(tree: Tree, hashes: map<Path, HashField>, actions: seq<Action>): seq<Reported> {
    if actions == [] then []
    else
      var last := actions[|actions| - 1];
      Conflicting(tree, hashes, actions[..|actions| - 1]) +
      match Judge(tree, hashes, last)
      case Conflict(reason) => [Reported(last.path, reason)]
      case _ => []
  }

  /** The hashes an update records: of every file refreshed or found current. */
  function LatestHashes(tree: Tree, hashes: map<Path, HashField>, actions: seq<Action>): map<Path, HashField> {
    if actions == [] then map[]
    else
      var last := actions[|actions| - 1];
      var before := LatestHashes(tree, hashes, actions[..|actions| - 1]);
      if Judge(tree, hashes, last).Conflict? then before else before[last.path := Digest(last.content)]
  }

  /** Tracked files the source no longer has, as far as the categories look. */
  function RemovedPaths(entry: Entry, current: set<Path>, categories: Option<set<Category>>): set<Path> {
    var roots := SelectedRoots(entry.assets, categories);
    if roots == {} then {}
    else set p | p in (entry.hashes.Keys + entry.files) - current && (categories.None? || Under(roots, p))
  }

  function RemovedReport(
    tree: Tree, entry: Entry, current: set<Path>, categories: Option<set<Category>>): map<Path, Removal>
  {
    map p | p in RemovedPaths(entry, current, categories) :: JudgeRemoved(tree, entry.hashes, p)
  }

  datatype Result = Result(
    updated: seq<Action>, skipped: seq<Path>, conflicts: seq<Reported>, removed: map<Path, Removal>)

  /** An update of categories none of the source's assets belongs to does nothing. */
  predicate NothingSelected(up: Upstream, categories: Option<set<Category>>) {
    categories.Some? && SelectedRoots(up.assets, categories) == {}
  }

  function ResultOf(tree: Tree, entry: Entry, up: Upstream, categories: Option<set<Category>>): Result {
    var actions := Planned(up, categories);
    Result(Refreshed(tree, entry.hashes, actions), Skipped(tree, entry.hashes, actions),
           Conflicting(tree, entry.hashes, actions), RemovedReport(tree, entry, PathsOf(actions), categories))
  }

  function AfterUpdate(
    disk: Disk, name: string, up: Upstream, categories: Option<set<Category>>, dryRun: bool, quota: nat): Disk
  {
    if name !in disk.manifest || NothingSelected(up, categories) || dryRun then disk
    else
      var entry, actions := disk.manifest[name], Planned(up, categories);
      var copied := WriteAll(disk.tree, Refreshed(disk.tree, entry.hashes, actions), quota);
      var latest := LatestHashes(disk.tree, entry.hashes, actions);
      Disk(copied.tree,
           if copied.done then disk.manifest[name := Entry(entry.hashes + latest, entry.files + latest.Keys, up.assets)]
           else disk.manifest)
  }

  class Workspace {
    var disk: Disk

    constructor (disk: Disk)
      ensures this.disk == disk
    {
      this.disk := disk;
    }

    method FindConflicts(actions: seq<Action>) returns (conflicts: seq<Path>)
      ensures conflicts == ConflictsOf(disk.tree, actions)
    {
      conflicts := [];
      for i := 0 to |actions|
        invariant conflicts == ConflictsOf(disk.tree, actions[..i])
      {
        assert actions[..i + 1][..i] == actions[..i];
        if InTheWay(disk.tree, actions[i]) {
          conflicts := conflicts + [actions[i].path];
        }
      }
      assert actions[..|actions|] == actions;
    }

    /** Copies files one by one; `quota` is where the file system would give up. */
    method WriteActions(actions: seq<Action>, quota: nat) returns (done: bool)
      modifies this
      ensures Copied(disk.tree, done) == WriteAll(old(disk.tree), actions, quota)
      ensures disk.manifest == old(disk.manifest)
    {
      done := true;
      for i := 0 to |actions|
        invariant Copied(disk.tree, done) == WriteAll(old(disk.tree), actions[..i], quota)
        invariant disk.manifest == old(disk.manifest)
      {
        assert actions[..i + 1][..i] == actions[..i];
        if done && i < quota && Writable(disk.tree, actions[i].path) {
          disk := disk.(tree := WriteOne(disk.tree, actions[i]));
        } else {
          done := false;
        }
      }
      assert actions[..|actions|] == actions;
    }

    method FetchProfile(name: string, up: Upstream, force: bool, dryRun: bool, quota: nat)
      returns (conflicts: seq<Path>)
      modifies this
      ensures conflicts == ConflictsOf(old(disk.tree), up.actions)
      ensures disk == if dryRun then old(disk) else AfterGet(old(disk), name, up, force, quota)
    {
      conflicts := FindConflicts(up.actions);
      if dryRun || (conflicts != [] && !force) {
        return;
      }
      var done := WriteActions(up.actions, quota);
      if done {
        disk := disk.(manifest := disk.manifest[name := FreshEntry(up)]);
      }
    }

    method JudgeActions(entry: Entry, actions: seq<Action>)
      returns (updates: seq<Action>, skipped: seq<Path>, conflicts: seq<Reported>, latest: map<Path, HashField>)
      ensures updates == Refreshed(disk.tree, entry.hashes, actions)
      ensures skipped == Skipped(disk.tree, entry.hashes, actions)
      ensures conflicts == Conflicting(disk.tree, entry.hashes, actions)
      ensures latest == LatestHashes(disk.tree, entry.hashes, actions)
    {
      updates, skipped, conflicts, latest := [], [], [], map[];
      for i := 0 to |actions|
        invariant updates == Refreshed(disk.tree, entry.hashes, actions[..i])
        invariant skipped == Skipped(disk.tree, entry.hashes, actions[..i])
        invariant conflicts == Conflicting(disk.tree, entry.hashes, actions[..i])
        invariant latest == LatestHashes(disk.tree, entry.hashes, actions[..i])
      {
        assert actions[..i + 1][..i] == actions[..i];
        match Judge(disk.tree, entry.hashes, actions[i])
        case Refresh =>
          updates, latest := updates + [actions[i]], latest[actions[i].path := Digest(actions[i].content)];
        case Current =>
          skipped, latest := skipped + [actions[i].path], latest[actions[i].path := Digest(actions[i].content)];
        case Conflict(reason) =>
          conflicts := conflicts + [Reported(actions[i].path, reason)];
      }
      assert actions[..|actions|] == actions;
    }

    method ReportRemoved(entry: Entry, current: set<Path>, categories: Option<set<Category>>)
      returns (removed: map<Path, Removal>)
      ensures removed == RemovedReport(disk.tree, entry, current, categories)
    {
      removed := map[];
      var todo := RemovedPaths(entry, current, categories);
      while todo != {}
        invariant todo <= RemovedPaths(entry, current, categories)
        invariant removed == map p | p in RemovedPaths(entry, current, categories) - todo ::
                  JudgeRemoved(disk.tree, entry.hashes, p)
      {
        var p :| p in todo;
        removed := removed[p := JudgeRemoved(disk.tree, entry.hashes, p)];
        todo := todo - {p};
      }
    }

    method UpdateProfile(name: string, up: Upstream, categories: Option<set<Category>>, dryRun: bool, quota: nat)
      returns (result: Option<Result>)
      modifies this
      ensures disk == AfterUpdate(old(disk), name, up, categories, dryRun, quota)
      ensures result.Some? ==>
              name in old(disk.manifest) &&
                result.value == ResultOf(old(disk.tree), old(disk.manifest)[name], up, categories)
      ensures result.None? <==>
              || name !in old(disk.manifest) || NothingSelected(up, categories)
              || (!dryRun && !WriteAll(old(disk.tree),
                                       Refreshed(old(disk.tree), old(disk.manifest)[name].hashes,
                                                 Planned(up, categories)), quota).done)
    {
      if name !in disk.manifest || NothingSelected(up, categories) {
        return None;
      }
      var entry, actions := disk.manifest[name], Planned(up, categories);
      var updates, skipped, conflicts, latest := JudgeActions(entry, actions);
      var removed := ReportRemoved(entry, PathsOf(actions), categories);
      var report := Result(updates, skipped, conflicts, removed);
      if dryRun {
        return Some(report);
      }
      var done := WriteActions(updates, quota);
      if !done {
        return None;
      }
      disk := disk.(manifest :=
                    disk.manifest[name := Entry(entry.hashes + latest, entry.files + latest.Keys, up.assets)]);
      result := Some(report);
    }
  }

  // ---------------------------------------------------------------------------
  // What the categories select
  // ---------------------------------------------------------------------------

  /** An asset is of one of these categories; contracts only where they are shared. */
  predicate OfCategory(root: Path, kind: AssetKind, cs: set<Category>) {
    match kind
    case ProfileAsset => Profiles in cs
    case ModuleAsset => Modules in cs
    case RuntimeAsset => Modules in cs
    case ContractAsset => Contracts in cs && ["shared", "contracts"] <= root
  }

  predicate InCategories(assets: Assets, cs: set<Category>, p: Path) {
    exists root :: root in assets && root <= p && OfCategory(root, assets[root], cs)
  }

  lemma UnderSelectedIff(assets: Assets, cs: set<Category>, p: Path)
    ensures Under(SelectedRoots(assets, Some(cs)), p) <==> InCategories(assets, cs, p)
  {
    forall root | root in assets
      ensures Included(root, assets[root], Some(cs)) <==> OfCategory(root, assets[root], cs)
    {
    }
    if root :| root in assets && root <= p && OfCategory(root, assets[root], cs) {
      assert root in SelectedRoots(assets, Some(cs));
    }
  }

  lemma {:induction false} UnderRootsIff(actions: seq<Action>, roots: set<Path>, a: Action)
    ensures a in UnderRoots(actions, roots) <==> a in actions && Under(roots, a.path)
  {
    if actions == [] {
    } else {
      UnderRootsIff(actions[..|actions| - 1], roots, a);
    }
  }

  /** An update plans exactly the files of the source that lie in an asset of a selected category. */
  lemma PlannedIff(up: Upstream, cs: set<Category>, a: Action)
    ensures a in Planned(up, Some(cs)) <==> a in up.actions && InCategories(up.assets, cs, a.path)
    ensures Planned(up, None) == up.actions
  {
    UnderRootsIff(up.actions, SelectedRoots(up.assets, Some(cs)), a);
    UnderSelectedIff(up.assets, cs, a.path);
  }

  /** It reports exactly the tracked files gone from the source that lie in such an asset on record. */
  lemma RemovedIff(tree: Tree, entry: Entry, current: set<Path>, cs: set<Category>, p: Path)
    ensures var tracked := p in entry.hashes || p in entry.files;
            && (p in RemovedReport(tree, entry, current, Some(cs)) <==>
                tracked && p !in current && InCategories(entry.assets, cs, p))
            && (p in RemovedReport(tree, entry, current, None) <==> tracked && p !in current && entry.assets != map[])
  {
    UnderSelectedIff(entry.assets, cs, p);
    AssetsAreRoots(entry.assets);
  }

  /** And does nothing exactly when no asset of the source is of a selected category. */
  lemma NothingSelectedIff(up: Upstream, cs: set<Category>)
    ensures NothingSelected(up, Some(cs)) <==>
            forall root :: root in up.assets ==> !OfCategory(root, up.assets[root], cs)
    ensures !NothingSelected(up, None)
  {
    forall root | root in up.assets
      ensures root in SelectedRoots(up.assets, Some(cs)) <==> OfCategory(root, up.assets[root], cs)
    {
    }
  }

  // ---------------------------------------------------------------------------
  // One update: every planned path is accounted for once
  // ---------------------------------------------------------------------------

  /** A source version is a tree of files: no path twice, none below another. */
  ghost predicate FileTree(actions: seq<Action>) {
    && (forall i :: 0 <= i < |actions| ==> actions[i].path != [])
    && (forall i, j :: 0 <= i < |actions| && 0 <= j < |actions| && actions[i].path <= actions[j].path ==> i == j)
  }

  lemma {:induction false} RefreshedAt(tree: Tree, hashes: map<Path, HashField>, actions: seq<Action>)
    ensures forall a :: a in Refreshed(tree, hashes, actions) <==> a in actions && Judge(tree, hashes, a) == Refresh
  {
    if actions == [] {
    } else {
      RefreshedAt(tree, hashes, actions[..|actions| - 1]);
    }
  }

  lemma {:induction false} SkippedAt(tree: Tree, hashes: map<Path, HashField>, actions: seq<Action>)
    ensures forall p :: p in Skipped(tree, hashes, actions) <==>
            exists a :: a in actions && a.path == p && Judge(tree, hashes, a) == Current
  {
    if actions == [] {
    } else {
      SkippedAt(tree, hashes, actions[..|actions| - 1]);
    }
  }

  lemma {:induction false} ConflictingAt(tree: Tree, hashes: map<Path, HashField>, actions: seq<Action>)
    ensures forall r :: r in Conflicting(tree, hashes, actions) <==>
              exists a :: a in actions && a.path == r.path && Judge(tree, hashes, a) == Conflict(r.reason)
  {
    if actions == [] {
    } else {
      ConflictingAt(tree, hashes, actions[..|actions| - 1]);
    }
  }

  lemma {:induction false} VerdictsAddUp(tree: Tree, hashes: map<Path, HashField>, actions: seq<Action>)
    ensures |Refreshed(tree, hashes, actions)| + |Skipped(tree, hashes, actions)| +
            |Conflicting(tree, hashes, actions)| == |actions|
  {
    if actions == [] {
    } else {
      VerdictsAddUp(tree, hashes, actions[..|actions| - 1]);
    }
  }

  /** Each planned file is refreshed, skipped or in conflict, and only one of these. */
  lemma {:induction false} PlannedInExactlyOne(
    tree: Tree, hashes: map<Path, HashField>, actions: seq<Action>, a: Action)
    requires FileTree(actions) && a in actions
    ensures var updated, skipped, conflict :=
              a in Refreshed(tree, hashes, actions),
              a.path in Skipped(tree, hashes, actions),
              exists r :: r in Conflicting(tree, hashes, actions) && r.path == a.path;
            && (updated || skipped || conflict)
            && !(updated && skipped) && !(updated && conflict) && !(skipped && conflict)
    ensures |Refreshed(tree, hashes, actions)| + |Skipped(tree, hashes, actions)| +
            |Conflicting(tree, hashes, actions)| == |actions|
  {
    RefreshedAt(tree, hashes, actions);
    SkippedAt(tree, hashes, actions);
    ConflictingAt(tree, hashes, actions);
    VerdictsAddUp(tree, hashes, actions);
    assert forall b :: b in actions && b.path == a.path ==> b == a;
    if Judge(tree, hashes, a).Conflict? {
      assert Reported(a.path, Judge(tree, hashes, a).reason) in Conflicting(tree, hashes, actions);
    }
  }

  /** The local file is the one recorded at the last get or update. */
  predicate Unedited(tree: Tree, hashes: map<Path, HashField>, p: Path) {
    p in tree && tree[p].File? && p in hashes && hashes[p] == Digest(tree[p].content)
  }

  /**
   What the three-way comparison does with a planned file that no link leads to: new files
   and files left as recorded follow the source, and everything else differing is a conflict.
   */
  lemma {:induction false} VerdictsMean(tree: Tree, hashes: map<Path, HashField>, actions: seq<Action>, a: Action)
    requires FileTree(actions) && a in actions && !SymlinkedParent(tree, a.path)
    ensures var upToDate, known := a.path in tree && tree[a.path] == File(a.content), a.path in hashes;
            && (a.path in Skipped(tree, hashes, actions) <==> upToDate)
            && (a in Refreshed(tree, hashes, actions) <==>
                !upToDate && if a.path in tree then Unedited(tree, hashes, a.path) else !known)
            && ((exists r :: r in Conflicting(tree, hashes, actions) && r.path == a.path) <==>
                !upToDate && if a.path in tree then !Unedited(tree, hashes, a.path) else known)
  {
    PlannedInExactlyOne(tree, hashes, actions, a);
    RefreshedAt(tree, hashes, actions);
    SkippedAt(tree, hashes, actions);
    assert forall b :: b in actions && b.path == a.path ==> b == a;
  }

  /** Why a planned file is in conflict: the first of these that holds. */
  ghost predicate ReasonHolds(tree: Tree, hashes: map<Path, HashField>, a: Action, reason: Reason) {
    var p := a.path;
    if exists i :: 0 < i < |p| && p[..i] in tree && tree[p[..i]].Symlink? then reason == LinkedParent
    else if p !in tree then reason == DeletedLocally && p in hashes
    else
      match tree[p]
      case Symlink(_) => reason == IsSymlink
      case Dir => reason == IsDirectory
      case File(local) =>
        reason == ModifiedLocally && local != a.content && (p in hashes ==> hashes[p] != Digest(local))
  }

  lemma {:induction false} ReasonsMean(
    tree: Tree, hashes: map<Path, HashField>, actions: seq<Action>, p: Path, reason: Reason)
    ensures Reported(p, reason) in Conflicting(tree, hashes, actions) <==>
            exists a :: a in actions && a.path == p && ReasonHolds(tree, hashes, a, reason)
  {
    ConflictingAt(tree, hashes, actions);
    forall a ensures Judge(tree, hashes, a) == Conflict(reason) <==> ReasonHolds(tree, hashes, a, reason) {}
  }

  /** The report names each removed file's state: the first of these that holds. */
  lemma RemovalReasons(tree: Tree, entry: Entry, current: set<Path>, categories: Option<set<Category>>, p: Path)
    requires p in RemovedReport(tree, entry, current, categories)
    ensures RemovedReport(tree, entry, current, categories)[p] ==
            if exists i :: 0 < i < |p| && p[..i] in tree && tree[p[..i]].Symlink? then RemovedButLinked
            else if p !in tree then AlreadyAbsent
            else
              match tree[p]
              case Symlink(_) => RemovedButLinked
              case Dir => RemovedButDirectory
              case File(local) => if p in entry.hashes && entry.hashes[p] == Digest(local) then LeftInPlace
                                  else RemovedButModified
  {
  }

  lemma {:induction false} ConflictsIff(tree: Tree, actions: seq<Action>, p: Path)
    ensures p in ConflictsOf(tree, actions) <==>
            exists a :: a in actions && a.path == p && p in tree && tree[p] != File(a.content)
  {
    if actions == [] {
    } else {
      ConflictsIff(tree, actions[..|actions| - 1], p);
      assert actions == actions[..|actions| - 1] + [actions[|actions| - 1]];
    }
  }

  lemma {:induction false} NoConflictsIff(tree: Tree, actions: seq<Action>)
    ensures ConflictsOf(tree, actions) == [] <==>
            forall a :: a in actions && a.path in tree ==> tree[a.path] == File(a.content)
  {
    var conflicts := ConflictsOf(tree, actions);
    forall a | a in actions && a.path in tree ensures a.path in conflicts || tree[a.path] == File(a.content) {
      ConflictsIff(tree, actions, a.path);
    }
    if conflicts != [] {
      assert conflicts[0] in conflicts;
      ConflictsIff(tree, actions, conflicts[0]);
    }
  }

  lemma {:induction false} HashesAre(actions: seq<Action>, a: Action)
    requires FileTree(actions) && a in actions
    ensures a.path in HashesOf(actions) && HashesOf(actions)[a.path] == Digest(a.content)
  {
    var init, last := actions[..|actions| - 1], actions[|actions| - 1];
    assert actions == init + [last];
    if a != last {
      PrefixOfFileTree(actions, |init|);
      NotMadeParent(init, last);
      HashesAre(init, a);
    }
  }

  /** What a get that goes through leaves behind: every file, and a fresh entry of exactly these files and assets. */
  lemma {:induction false} GetInstalls(disk: Disk, name: string, up: Upstream, force: bool, quota: nat, a: Action)
    requires FileTree(up.actions) && AimAtFiles(disk.tree, up.actions) && WriteAll(disk.tree, up.actions, quota).done
    requires force || forall b :: b in up.actions && b.path in disk.tree ==> disk.tree[b.path] == File(b.content)
    ensures var after := AfterGet(disk, name, up, force, quota);
            && name in after.manifest && after.manifest - {name} == disk.manifest - {name}
            && RecordsAll(after.manifest[name], up)
            && (a in up.actions ==> a.path in after.tree && after.tree[a.path] == File(a.content))
  {
    NoConflictsIff(disk.tree, up.actions);
    WriteAllCopies(disk.tree, up.actions, quota);
    FreshEntryRecords(up);
    var entry := FreshEntry(up);
    assert AfterGet(disk, name, up, force, quota).manifest == disk.manifest[name := entry];
  }

  /** The entry is one of exactly these files and assets. */
  ghost predicate RecordsAll(entry: Entry, up: Upstream) {
    && entry.assets == up.assets
    && (forall a :: a in up.actions ==>
          a.path in entry.files && a.path in entry.hashes && entry.hashes[a.path] == Digest(a.content))
    && (forall p :: p in entry.files ==> exists a :: a in up.actions && a.path == p)
  }

  lemma FreshEntryRecords(up: Upstream)
    requires FileTree(up.actions)
    ensures RecordsAll(FreshEntry(up), up)
  {
    forall a | a in up.actions
      ensures a.path in HashesOf(up.actions) && HashesOf(up.actions)[a.path] == Digest(a.content)
    {
      HashesAre(up.actions, a);
    }
  }

  /**
   A conflict stops a get without force, a dry run of an update, or an unknown profile,
   changes nothing, and copying that breaks off records nothing.
   */
  lemma {:induction false} NothingDone(
    disk: Disk, name: string, up: Upstream, categories: Option<set<Category>>, dryRun: bool, quota: nat, a: Action)
    ensures a in up.actions && a.path in disk.tree && disk.tree[a.path] != File(a.content) ==>
              AfterGet(disk, name, up, false, quota) == disk
    ensures dryRun || name !in disk.manifest || NothingSelected(up, categories) ==>
              AfterUpdate(disk, name, up, categories, dryRun, quota) == disk
    ensures !WriteAll(disk.tree, up.actions, quota).done ==>
              AfterGet(disk, name, up, true, quota).manifest == disk.manifest
    ensures var updates := if name in disk.manifest
                           then Refreshed(disk.tree, disk.manifest[name].hashes, Planned(up, categories)) else [];
            !WriteAll(disk.tree, updates, quota).done ==>
              AfterUpdate(disk, name, up, categories, dryRun, quota).manifest == disk.manifest
  {
    NoConflictsIff(disk.tree, up.actions);
  }

  lemma ReasonIff(tree: Tree, hashes: map<Path, HashField>, a: Action)
    ensures Judge(tree, hashes, a).Conflict? <==> exists reason :: ReasonHolds(tree, hashes, a, reason)
  {
    assert forall reason :: ReasonHolds(tree, hashes, a, reason) <==> Judge(tree, hashes, a) == Conflict(reason);
    if Judge(tree, hashes, a).Conflict? { assert ReasonHolds(tree, hashes, a, Judge(tree, hashes, a).reason); }
  }

  /** The same is on record for the path. */
  predicate SameRecord(before: map<Path, HashField>, after: map<Path, HashField>, p: Path) {
    (p in after <==> p in before) && (p in before ==> after[p] == before[p])
  }

  lemma {:induction false} LatestOnRecord(tree: Tree, hashes: map<Path, HashField>, actions: seq<Action>, a: Action)
    requires FileTree(actions) && a in actions
    ensures var latest := LatestHashes(tree, hashes, actions);
            if Judge(tree, hashes, a).Conflict? then a.path !in latest
            else a.path in latest && latest[a.path] == Digest(a.content)
  {
    LatestHashesAt(tree, hashes, actions, a);
    if a.path in LatestHashes(tree, hashes, actions) {
      LatestHashesAreDigests(tree, hashes, actions, a.path);
      assert forall b :: b in actions && b.path == a.path ==> b == a;
    }
  }

  /**
   What an update that goes through records: the source's content for the files refreshed
   or found current, what was on record for all others, and the source's assets.
   */
  lemma UpdateRecords(
    disk: Disk, name: string, up: Upstream, categories: Option<set<Category>>, quota: nat, a: Action, p: Path)
    requires FileTree(up.actions) && FirstUpdateDone(disk, name, up, categories, quota)
    requires a in Planned(up, categories) && forall b :: b in up.actions ==> b.path != p
    ensures var after, entry := AfterUpdate(disk, name, up, categories, false, quota), disk.manifest[name];
            && name in after.manifest && after.manifest[name].assets == up.assets
            && entry.files <= after.manifest[name].files
            && (if exists reason :: ReasonHolds(disk.tree, entry.hashes, a, reason)
                then SameRecord(entry.hashes, after.manifest[name].hashes, a.path)
                else a.path in after.manifest[name].files && a.path in after.manifest[name].hashes &&
                     after.manifest[name].hashes[a.path] == Digest(a.content))
            && SameRecord(entry.hashes, after.manifest[name].hashes, p)
  {
    var entry, actions := disk.manifest[name], Planned(up, categories);
    UnderRootsAre(up.actions, SelectedRoots(up.assets, categories));
    LatestOnRecord(disk.tree, entry.hashes, actions, a);
    ReasonIff(disk.tree, entry.hashes, a);
    var latest := LatestHashes(disk.tree, entry.hashes, actions);
    assert p !in latest by {
      if p in latest { LatestHashesAreDigests(disk.tree, entry.hashes, actions, p); }
    }
    RecordedAfter(disk, name, up, categories, quota);
  }

  lemma RecordedAfter(disk: Disk, name: string, up: Upstream, categories: Option<set<Category>>, quota: nat)
    requires FirstUpdateDone(disk, name, up, categories, quota)
    ensures var after, entry := AfterUpdate(disk, name, up, categories, false, quota), disk.manifest[name];
            var latest := LatestHashes(disk.tree, entry.hashes, Planned(up, categories));
            && name in after.manifest
            && after.manifest[name] == Entry(entry.hashes + latest, entry.files + latest.Keys, up.assets)
  {
  }

  /**
   Of the tracked files the source no longer has, exactly those that are still there, but
   not as recorded, or that a link leads to, are conflicts.
   */
  lemma RemovalsMean(tree: Tree, entry: Entry, current: set<Path>, categories: Option<set<Category>>, p: Path)
    ensures var report := RemovedReport(tree, entry, current, categories);
            var tracked := p in entry.hashes || p in entry.files;
            && (p in report ==> tracked && p !in current)
            && (tracked && p !in current && categories.None? && entry.assets != map[] ==> p in report)
            && (p in report ==> (IsConflict(report[p]) <==>
                                 SymlinkedParent(tree, p) || (p in tree && !Unedited(tree, entry.hashes, p))))
  {
    AssetsAreRoots(entry.assets);
  }

  // ---------------------------------------------------------------------------
  // What writing changes
  // ---------------------------------------------------------------------------

  ghost predicate Writes(actions: seq<Action>, p: Path, n: Node) {
    exists a :: a in actions && a.path == p && n == File(a.content)
  }

  ghost predicate MakesParent(actions: seq<Action>, p: Path) {
    exists a :: a in actions && IsParent(p, a.path)
  }

  ghost predicate Keeps(before: Tree, after: Tree, actions: seq<Action>) {
    forall p :: p in before ==> p in after && (after[p] == before[p] || Writes(actions, p, after[p]))
  }

  ghost predicate Adds(before: Tree, after: Tree, actions: seq<Action>) {
    forall p :: p in after && p !in before ==>
      Writes(actions, p, after[p]) || (after[p] == Dir && MakesParent(actions, p))
  }

  ghost predicate Holds(after: Tree, actions: seq<Action>) {
    && (forall a :: a in actions ==> a.path in after && after[a.path] == File(a.content))
    && (forall p :: MakesParent(actions, p) ==> p in after)
  }

  /** From `before` to `after` by copying some of the actions, all of them when `done`. */
  ghost predicate CopiedSome(before: Tree, after: Tree, actions: seq<Action>, done: bool) {
    Keeps(before, after, actions) && Adds(before, after, actions) && (done ==> Holds(after, actions))
  }

  /** No action aims at a directory or a link. */
  ghost predicate AimAtFiles(tree: Tree, actions: seq<Action>) {
    forall a :: a in actions && a.path in tree ==> tree[a.path].File?
  }

  lemma WriteOneExact(mid: Tree, a: Action)
    requires Writable(mid, a.path) && (a.path in mid ==> mid[a.path].File?)
    ensures var after := WriteOne(mid, a);
            && a.path in after && after[a.path] == File(a.content)
            && (forall p :: p in after <==> p in mid || p == a.path || IsParent(p, a.path))
            && (forall p :: p in after && p != a.path ==> after[p] == if p in mid then mid[p] else Dir)
  {
    forall p ensures p in Parents(a.path) <==> IsParent(p, a.path) {
      if IsParent(p, a.path) { assert p == a.path[..|p|]; }
    }
  }

  lemma NotMadeParent(init: seq<Action>, a: Action)
    requires FileTree(init + [a])
    ensures !MakesParent(init, a.path) && forall b :: b in init ==> b.path != a.path && !(a.path <= b.path)
  {
    var actions := init + [a];
    forall b | b in init ensures b.path != a.path && !(a.path <= b.path) {
      var i :| 0 <= i < |init| && init[i] == b;
      assert actions[i] == b && actions[|init|] == a;
    }
  }

  lemma WriteOneKeeps(before: Tree, mid: Tree, init: seq<Action>, a: Action)
    requires Keeps(before, mid, init) && Writable(mid, a.path) && (a.path in mid ==> mid[a.path].File?)
    ensures Keeps(before, WriteOne(mid, a), init + [a])
  {
    WriteOneExact(mid, a);
    assert a in init + [a] && forall b :: b in init ==> b in init + [a];
  }

  lemma WriteOneAdds(before: Tree, mid: Tree, init: seq<Action>, a: Action)
    requires Adds(before, mid, init) && Writable(mid, a.path) && (a.path in mid ==> mid[a.path].File?)
    ensures Adds(before, WriteOne(mid, a), init + [a])
  {
    WriteOneExact(mid, a);
    assert a in init + [a] && forall b :: b in init ==> b in init + [a];
  }

  lemma WriteOneHolds(mid: Tree, init: seq<Action>, a: Action)
    requires FileTree(init + [a]) && Holds(mid, init) && Writable(mid, a.path) && (a.path in mid ==> mid[a.path].File?)
    ensures Holds(WriteOne(mid, a), init + [a])
  {
    NotMadeParent(init, a);
    WriteOneExact(mid, a);
    forall p | MakesParent(init + [a], p) ensures p in WriteOne(mid, a) {
      var b :| b in init + [a] && IsParent(p, b.path);
      assert b in init ==> MakesParent(init, p);
    }
  }

  lemma WriteOneCopies(before: Tree, mid: Tree, init: seq<Action>, a: Action)
    requires FileTree(init + [a]) && (a.path in before ==> before[a.path].File?)
    requires CopiedSome(before, mid, init, true) && Writable(mid, a.path)
    ensures CopiedSome(before, WriteOne(mid, a), init + [a], true)
  {
    NotMadeParent(init, a);
    assert a.path in mid ==> mid[a.path].File?;
    WriteOneKeeps(before, mid, init, a);
    WriteOneAdds(before, mid, init, a);
    WriteOneHolds(mid, init, a);
  }

  lemma PrefixOfFileTree(actions: seq<Action>, n: nat)
    requires FileTree(actions) && n <= |actions|
    ensures FileTree(actions[..n])
  {
    forall i, j | 0 <= i < n && 0 <= j < n && actions[..n][i].path <= actions[..n][j].path ensures i == j {
      assert actions[i].path <= actions[j].path;
    }
  }

  lemma CopiedSomeGrows(before: Tree, after: Tree, init: seq<Action>, a: Action, done: bool)
    requires CopiedSome(before, after, init, done)
    ensures CopiedSome(before, after, init + [a], false)
  {
    assert forall b :: b in init ==> b in init + [a];
  }

  lemma {:induction false} WriteAllCopies(tree: Tree, actions: seq<Action>, quota: nat)
    requires FileTree(actions) && AimAtFiles(tree, actions)
    ensures CopiedSome(tree, WriteAll(tree, actions, quota).tree, actions, WriteAll(tree, actions, quota).done)
  {
    if actions == [] {
    } else {
      var init, last := actions[..|actions| - 1], actions[|actions| - 1];
      assert actions == init + [last];
      PrefixOfFileTree(actions, |actions| - 1);
      WriteAllCopies(tree, init, quota);
      var mid := WriteAll(tree, init, quota);
      if mid.done && |actions| <= quota && Writable(mid.tree, last.path) {
        WriteOneCopies(tree, mid.tree, init, last);
      } else {
        CopiedSomeGrows(tree, mid.tree, init, last, mid.done);
      }
    }
  }

  /** A file can be written unless something other than a directory, or a link to one, is in the way to it. */
  lemma WritableIff(tree: Tree, p: Path)
    ensures Writable(tree, p) <==>
            && p != []
            && (forall i :: 0 < i < |p| && p[..i] in tree ==> tree[p[..i]] in {Dir, Symlink(true)})
            && (p in tree && tree[p] == Dir && p + [p[|p| - 1]] in tree ==> tree[p + [p[|p| - 1]]] != Dir)
  {
  }

  /**
   Writing a file makes the directories above it that are missing. A directory of that name
   gets the file inside, a link gives way, with what was seen through it, and nothing else changes.
   */
  lemma WriteOneMeans(tree: Tree, a: Action, q: Path)
    requires Writable(tree, a.path)
    ensures var p, after := a.path, WriteOne(tree, a);
            var target := if p in tree && tree[p] == Dir then p + [p[|p| - 1]] else p;
            && target in after && after[target] == File(a.content)
            && (q in after <==>
                || q == target || (0 < |q| < |p| && q <= p)
                || (q in tree && !(p in tree && tree[p].Symlink? && p < q)))
            && (q in after && q != target ==> after[q] == if q in tree then tree[q] else Dir)
  {
    var p := a.path;
    assert q in Parents(p) <==> 0 < |q| < |p| && q <= p by {
      if 0 < |q| < |p| && q <= p { assert q == p[..|q|]; }
    }
  }

  /** Nothing is in the way of these files: no directory or link in their place, and no file or dangling link above. */
  predicate WayClear(tree: Tree, actions: seq<Action>) {
    forall a :: a in actions ==>
      && (a.path in tree ==> tree[a.path].File?)
      && forall i :: 0 < i < |a.path| && a.path[..i] in tree ==> tree[a.path[..i]] in {Dir, Symlink(true)}
  }

  /** Then copying goes through exactly as far as the file system lets it. */
  lemma {:induction false} ClearWayCopies(tree: Tree, actions: seq<Action>, quota: nat)
    requires FileTree(actions) && WayClear(tree, actions)
    ensures WriteAll(tree, actions, quota).done <==> |actions| <= quota
  {
    if actions == [] {
    } else {
      var init, last := actions[..|actions| - 1], actions[|actions| - 1];
      assert actions == init + [last];
      PrefixOfFileTree(actions, |init|);
      ClearWayCopies(tree, init, quota);
      WriteAllCopies(tree, init, quota);
      var mid := WriteAll(tree, init, quota).tree;
      NotMadeParent(init, last);
      if WriteAll(tree, init, quota).done { StillClear(tree, mid, init, last); }
    }
  }

  lemma StillClear(tree: Tree, mid: Tree, init: seq<Action>, last: Action)
    requires FileTree(init + [last]) && CopiedSome(tree, mid, init, true) && WayClear(tree, init + [last])
    ensures Writable(mid, last.path)
  {
    var p := last.path;
    NotMadeParent(init, last);
    assert (init + [last])[|init|] == last;
    forall i | 0 < i < |p| && p[..i] in mid ensures mid[p[..i]] in {Dir, Symlink(true)} {
      forall b | b in init ensures b.path != p[..i] {
        var k :| 0 <= k < |init| && init[k] == b;
        assert (init + [last])[k] == b;
      }
    }
    WritableIff(mid, p);
  }

  // ---------------------------------------------------------------------------
  // Safety over every run
  // ---------------------------------------------------------------------------

  datatype Op =
    | Get(name: string, up: Upstream, force: bool, quota: nat)
    | Update(name: string, up: Upstream, categories: Option<set<Category>>, dryRun: bool, quota: nat)
    | UserWrites(path: Path, node: Node)
    | UserDeletes(path: Path)

  function Next(disk: Disk, op: Op): Disk {
    match op
    case Get(name, up, force, quota) => AfterGet(disk, name, up, force, quota)
    case Update(name, up, categories, dryRun, quota) => AfterUpdate(disk, name, up, categories, dryRun, quota)
    case UserWrites(path, node) => disk.(tree := disk.tree[path := node])
    case UserDeletes(path) => disk.(tree := disk.tree - {path})
  }

  function Run(start: Disk, ops: seq<Op>): Disk {
    if ops == [] then start else Next(Run(start, ops[..|ops| - 1]), ops[|ops| - 1])
  }

  /** A source version seen during the run gave this path this content. */
  ghost predicate Supplied(ops: seq<Op>, p: Path, c: Content) {
    exists op :: op in ops && (op.Get? || op.Update?) && Action(p, c) in op.up.actions
  }

  ghost predicate SourcesAreFileTrees(ops: seq<Op>) {
    forall op :: op in ops && (op.Get? || op.Update?) ==> FileTree(op.up.actions)
  }

  /** Every hash on record is that of a source version. */
  ghost predicate HashesSupplied(disk: Disk, ops: seq<Op>) {
    forall name, p :: name in disk.manifest && p in disk.manifest[name].hashes ==>
      var hash := disk.manifest[name].hashes[p];
      hash.Digest? ==> Supplied(ops, p, hash.content)
  }

  lemma {:induction false} HashesOfAreDigests(actions: seq<Action>, p: Path)
    requires p in HashesOf(actions)
    ensures HashesOf(actions)[p].Digest? && Action(p, HashesOf(actions)[p].content) in actions
  {
    if actions[|actions| - 1].path != p { HashesOfAreDigests(actions[..|actions| - 1], p); }
  }

  lemma {:induction false} LatestHashesAreDigests(
    tree: Tree, hashes: map<Path, HashField>, actions: seq<Action>, p: Path)
    requires p in LatestHashes(tree, hashes, actions)
    ensures LatestHashes(tree, hashes, actions)[p].Digest? &&
            Action(p, LatestHashes(tree, hashes, actions)[p].content) in actions
  {
    var last := actions[|actions| - 1];
    if last.path != p || Judge(tree, hashes, last).Conflict? {
      LatestHashesAreDigests(tree, hashes, actions[..|actions| - 1], p);
    }
  }

  lemma {:induction false} UnderRootsAre(actions: seq<Action>, roots: set<Path>)
    ensures forall a :: a in UnderRoots(actions, roots) ==> a in actions
    ensures FileTree(actions) ==> FileTree(UnderRoots(actions, roots))
  {
    if actions == [] {
    } else {
      var init, last := actions[..|actions| - 1], actions[|actions| - 1];
      UnderRootsAre(init, roots);
      if FileTree(actions) {
        PrefixOfFileTree(actions, |init|);
        assert actions == init + [last];
        FileTreeGrows(UnderRoots(init, roots), init, last);
      }
    }
  }

  lemma FileTreeGrows(part: seq<Action>, init: seq<Action>, last: Action)
    requires FileTree(init + [last]) && FileTree(part) && forall a :: a in part ==> a in init
    ensures FileTree(part + [last])
  {
    NotMadeParent(init, last);
    var all := part + [last];
    assert (init + [last])[|init|] == last;
    forall i | 0 <= i < |part| ensures !(part[i].path <= last.path) && !(last.path <= part[i].path) {
      assert part[i] in part;
      var k :| 0 <= k < |init| && init[k] == part[i];
      assert (init + [last])[k] == part[i];
    }
    forall i, j | 0 <= i < |all| && 0 <= j < |all| && all[i].path <= all[j].path ensures i == j {
      if i < |part| && j < |part| { assert part[i].path <= part[j].path; }
    }
  }

  lemma {:induction false} RefreshedFileTree(tree: Tree, hashes: map<Path, HashField>, actions: seq<Action>)
    requires FileTree(actions)
    ensures FileTree(Refreshed(tree, hashes, actions))
  {
    if actions == [] {
    } else {
      var init, last := actions[..|actions| - 1], actions[|actions| - 1];
      PrefixOfFileTree(actions, |init|);
      assert actions == init + [last];
      RefreshedFileTree(tree, hashes, init);
      RefreshedIn(tree, hashes, init);
      FileTreeGrows(Refreshed(tree, hashes, init), init, last);
    }
  }

  lemma {:induction false} RefreshedIn(tree: Tree, hashes: map<Path, HashField>, actions: seq<Action>)
    ensures forall a :: a in Refreshed(tree, hashes, actions) ==> a in actions
    ensures AimAtFiles(tree, Refreshed(tree, hashes, actions))
  {
    RefreshedAt(tree, hashes, actions);
  }

  /** Nothing goes away, and an existing file changes only from content a source supplied. */
  ghost predicate OnlySuppliedReplaced(before: Tree, after: Tree, ops: seq<Op>) {
    forall p :: p in before ==>
      && p in after
      && (after[p] != before[p] ==> before[p].File? && Supplied(ops, p, before[p].content))
  }

  /** Refreshing replaces a file only when its content is the one on record. */
  lemma {:induction false} RefreshReplacesRecorded(
    tree: Tree, hashes: map<Path, HashField>, actions: seq<Action>, quota: nat)
    requires FileTree(actions)
    ensures var after := WriteAll(tree, Refreshed(tree, hashes, actions), quota).tree;
            forall p :: p in tree ==>
              && p in after
              && (after[p] != tree[p] ==> tree[p].File? && p in hashes && hashes[p] == Digest(tree[p].content))
  {
    var updates := Refreshed(tree, hashes, actions);
    RefreshedFileTree(tree, hashes, actions);
    RefreshedIn(tree, hashes, actions);
    RefreshedAt(tree, hashes, actions);
    WriteAllCopies(tree, updates, quota);
    var after := WriteAll(tree, updates, quota).tree;
    forall p | p in tree && after[p] != tree[p]
      ensures tree[p].File? && p in hashes && hashes[p] == Digest(tree[p].content)
    {
      var a :| a in updates && a.path == p && after[p] == File(a.content);
      assert Judge(tree, hashes, a) == Refresh;
    }
  }

  lemma UpdateKeepsLocalWork(disk: Disk, op: Op, ops: seq<Op>)
    requires op.Update? && FileTree(op.up.actions) && HashesSupplied(disk, ops)
    ensures OnlySuppliedReplaced(disk.tree, Next(disk, op).tree, ops)
  {
    if op.name in disk.manifest && !NothingSelected(op.up, op.categories) && !op.dryRun {
      var entry, actions := disk.manifest[op.name], Planned(op.up, op.categories);
      UnderRootsAre(op.up.actions, SelectedRoots(op.up.assets, op.categories));
      RefreshReplacesRecorded(disk.tree, entry.hashes, actions, op.quota);
    }
  }

  lemma SuppliedStays(ops: seq<Op>, op: Op)
    ensures forall p, c :: Supplied(ops, p, c) ==> Supplied(ops + [op], p, c)
  {
    assert forall o :: o in ops ==> o in ops + [op];
  }

  lemma UpdateKeepsHashes(disk: Disk, op: Op, ops: seq<Op>)
    requires op.Update? && HashesSupplied(disk, ops)
    ensures HashesSupplied(Next(disk, op), ops + [op])
  {
    SuppliedStays(ops, op);
    if op.name in disk.manifest && !NothingSelected(op.up, op.categories) && !op.dryRun {
      var entry, actions := disk.manifest[op.name], Planned(op.up, op.categories);
      UnderRootsAre(op.up.actions, SelectedRoots(op.up.assets, op.categories));
      assert op in ops + [op];
      var latest := LatestHashes(disk.tree, entry.hashes, actions);
      forall p | p in latest ensures latest[p].Digest? && Supplied(ops + [op], p, latest[p].content) {
        LatestHashesAreDigests(disk.tree, entry.hashes, actions, p);
      }
    }
  }

  lemma {:induction false} NoConflictsMeansSame(tree: Tree, actions: seq<Action>)
    requires ConflictsOf(tree, actions) == []
    ensures forall a :: a in actions && a.path in tree ==> tree[a.path] == File(a.content)
  {
    if actions == [] {
    } else {
      NoConflictsMeansSame(tree, actions[..|actions| - 1]);
    }
  }

  lemma GetKeepsHashes(disk: Disk, op: Op, ops: seq<Op>)
    requires op.Get? && HashesSupplied(disk, ops)
    ensures HashesSupplied(Next(disk, op), ops + [op])
  {
    SuppliedStays(ops, op);
    assert op in ops + [op];
    forall p | p in HashesOf(op.up.actions)
      ensures HashesOf(op.up.actions)[p].Digest? && Supplied(ops + [op], p, HashesOf(op.up.actions)[p].content)
    {
      HashesOfAreDigests(op.up.actions, p);
    }
  }

  /** Without force, get leaves every existing file exactly as it is. */
  lemma GetIsSafe(disk: Disk, op: Op)
    requires op.Get? && !op.force && FileTree(op.up.actions)
    ensures forall p :: p in disk.tree ==> p in Next(disk, op).tree && Next(disk, op).tree[p] == disk.tree[p]
  {
    if ConflictsOf(disk.tree, op.up.actions) == [] {
      NoConflictsMeansSame(disk.tree, op.up.actions);
      WriteAllCopies(disk.tree, op.up.actions, op.quota);
      var after := WriteAll(disk.tree, op.up.actions, op.quota).tree;
      assert Keeps(disk.tree, after, op.up.actions);
      forall p | p in disk.tree ensures p in after && after[p] == disk.tree[p] {
        assert Writes(op.up.actions, p, after[p]) ==> after[p] == disk.tree[p];
      }
    }
  }

  lemma StepKeepsLocalWork(disk: Disk, op: Op, ops: seq<Op>)
    requires op.Update? || (op.Get? && !op.force)
    requires FileTree(op.up.actions) && HashesSupplied(disk, ops)
    ensures OnlySuppliedReplaced(disk.tree, Next(disk, op).tree, ops)
  {
    if op.Update? {
      UpdateKeepsLocalWork(disk, op, ops);
    } else {
      GetIsSafe(disk, op);
    }
  }

  lemma {:induction false} RecordedHashesAreSupplied(start: Disk, ops: seq<Op>)
    requires start.manifest == map[] && SourcesAreFileTrees(ops)
    ensures HashesSupplied(Run(start, ops), ops)
  {
    if ops == [] {
    } else {
      var init, op := ops[..|ops| - 1], ops[|ops| - 1];
      assert ops == init + [op] && op in ops;
      RecordedHashesAreSupplied(start, init);
      var disk := Run(start, init);
      if op.Update? {
        UpdateKeepsHashes(disk, op, init);
      } else if op.Get? {
        GetKeepsHashes(disk, op, init);
      } else {
        assert forall p, c :: Supplied(init, p, c) ==> Supplied(ops, p, c);
      }
    }
  }

  /**
   Over every run of gets, updates and user edits, whatever upstream does in between
   and wherever copying breaks off: a get without force and an update delete nothing,
   and replace an existing file only when its content is one a source supplied for it.
   */
  lemma {:induction false} RunsKeepLocalWork(start: Disk, ops: seq<Op>, op: Op)
    requires start.manifest == map[] && SourcesAreFileTrees(ops)
    requires op.Update? || (op.Get? && !op.force)
    requires FileTree(op.up.actions)
    ensures OnlySuppliedReplaced(Run(start, ops).tree, Run(start, ops + [op]).tree, ops)
  {
    RecordedHashesAreSupplied(start, ops);
    StepKeepsLocalWork(Run(start, ops), op, ops);
    assert (ops + [op])[..|ops|] == ops;
  }

  // ---------------------------------------------------------------------------
  // Updating twice
  // ---------------------------------------------------------------------------

  function Trusted(hashes: map<Path, HashField>, tree: Tree, actions: seq<Action>): map<Path, HashField> {
    hashes + LatestHashes(tree, hashes, actions)
  }

  lemma {:induction false} LatestHashesAt(tree: Tree, hashes: map<Path, HashField>, actions: seq<Action>, a: Action)
    requires FileTree(actions) && a in actions
    ensures a.path in LatestHashes(tree, hashes, actions) <==> !Judge(tree, hashes, a).Conflict?
  {
    var init, last := actions[..|actions| - 1], actions[|actions| - 1];
    assert actions == init + [last];
    NotMadeParent(init, last);
    PrefixOfFileTree(actions, |init|);
    if a in init {
      LatestHashesAt(tree, hashes, init, a);
    } else if last.path in LatestHashes(tree, hashes, init) {
      LatestHashesAreDigests(tree, hashes, init, last.path);
    }
  }

  /** Links are neither made, nor replaced, nor followed. */
  lemma {:induction false} LinksStay(
    tree: Tree, hashes: map<Path, HashField>, actions: seq<Action>, quota: nat, p: Path)
    requires FileTree(actions)
    ensures SymlinkedParent(WriteAll(tree, Refreshed(tree, hashes, actions), quota).tree, p) <==>
            SymlinkedParent(tree, p)
  {
    var updates := Refreshed(tree, hashes, actions);
    RefreshedFileTree(tree, hashes, actions);
    RefreshedIn(tree, hashes, actions);
    WriteAllCopies(tree, updates, quota);
    var after := WriteAll(tree, updates, quota).tree;
    forall q ensures q in after && after[q].Symlink? <==> q in tree && tree[q].Symlink? {
      assert q in tree && Writes(updates, q, after[q]) ==> tree[q].File?;
    }
  }

  /** A path no update writes and no written file lies below is as it was. */
  lemma {:induction false} Untouched(
    tree: Tree, hashes: map<Path, HashField>, actions: seq<Action>, quota: nat, p: Path)
    requires FileTree(actions)
    requires forall a :: a in Refreshed(tree, hashes, actions) ==> a.path != p
    ensures var after := WriteAll(tree, Refreshed(tree, hashes, actions), quota).tree;
            && (p in tree ==> p in after && after[p] == tree[p])
            && (p !in tree && p in after ==> after[p] == Dir && MakesParent(Refreshed(tree, hashes, actions), p))
  {
    RefreshedFileTree(tree, hashes, actions);
    RefreshedIn(tree, hashes, actions);
    WriteAllCopies(tree, Refreshed(tree, hashes, actions), quota);
  }

  lemma {:induction false} JudgedAgain(
    tree: Tree, hashes: map<Path, HashField>, actions: seq<Action>, quota: nat, a: Action)
    requires FileTree(actions) && a in actions && WriteAll(tree, Refreshed(tree, hashes, actions), quota).done
    ensures var verdict := Judge(tree, hashes, a);
            Judge(WriteAll(tree, Refreshed(tree, hashes, actions), quota).tree, Trusted(hashes, tree, actions), a) ==
            if verdict.Conflict? then verdict else Current
  {
    var after := WriteAll(tree, Refreshed(tree, hashes, actions), quota).tree;
    LinksStay(tree, hashes, actions, quota, a.path);
    LatestOnRecord(tree, hashes, actions, a);
    if Judge(tree, hashes, a) == Refresh {
      RefreshedIsThere(tree, hashes, actions, quota, a);
    } else {
      NotRefreshedStays(tree, hashes, actions, quota, a);
      SameJudgement(tree, after, hashes, Trusted(hashes, tree, actions), a);
    }
  }

  lemma {:induction false} NotRefreshedStays(
    tree: Tree, hashes: map<Path, HashField>, actions: seq<Action>, quota: nat, a: Action)
    requires FileTree(actions) && a in actions && Judge(tree, hashes, a) != Refresh
    ensures var after := WriteAll(tree, Refreshed(tree, hashes, actions), quota).tree;
            (a.path in after <==> a.path in tree) && (a.path in tree ==> after[a.path] == tree[a.path])
  {
    RefreshedAt(tree, hashes, actions);
    assert forall b :: b in actions && a.path <= b.path ==> b == a;
    Untouched(tree, hashes, actions, quota, a.path);
    assert !MakesParent(Refreshed(tree, hashes, actions), a.path);
  }

  lemma SameJudgement(
    tree: Tree, after: Tree, hashes: map<Path, HashField>, trusted: map<Path, HashField>, a: Action)
    requires SymlinkedParent(after, a.path) <==> SymlinkedParent(tree, a.path)
    requires (a.path in after <==> a.path in tree) && (a.path in tree ==> after[a.path] == tree[a.path])
    requires Judge(tree, hashes, a) != Refresh
    requires Judge(tree, hashes, a).Conflict? ==> SameRecord(hashes, trusted, a.path)
    ensures Judge(after, trusted, a) == Judge(tree, hashes, a)
  {
  }

  lemma {:induction false} RefreshedIsThere(
    tree: Tree, hashes: map<Path, HashField>, actions: seq<Action>, quota: nat, a: Action)
    requires FileTree(actions) && a in actions && WriteAll(tree, Refreshed(tree, hashes, actions), quota).done
    requires Judge(tree, hashes, a) == Refresh
    ensures var after := WriteAll(tree, Refreshed(tree, hashes, actions), quota).tree;
            a.path in after && after[a.path] == File(a.content)
  {
    RefreshedAt(tree, hashes, actions);
    RefreshedFileTree(tree, hashes, actions);
    RefreshedIn(tree, hashes, actions);
    WriteAllCopies(tree, Refreshed(tree, hashes, actions), quota);
  }

  ghost predicate Settled(
    tree: Tree, hashes: map<Path, HashField>, again: Tree, trusted: map<Path, HashField>, a: Action)
  {
    var verdict := Judge(tree, hashes, a);
    Judge(again, trusted, a) == if verdict.Conflict? then verdict else Current
  }

  lemma {:induction false} SettledLists(
    tree: Tree, hashes: map<Path, HashField>, again: Tree, trusted: map<Path, HashField>, actions: seq<Action>)
    requires forall a :: a in actions ==> Settled(tree, hashes, again, trusted, a)
    ensures Refreshed(again, trusted, actions) == []
    ensures Conflicting(again, trusted, actions) == Conflicting(tree, hashes, actions)
    ensures LatestHashes(again, trusted, actions) == LatestHashes(tree, hashes, actions)
  {
    if actions == [] {
    } else {
      assert Settled(tree, hashes, again, trusted, actions[|actions| - 1]);
      SettledLists(tree, hashes, again, trusted, actions[..|actions| - 1]);
    }
  }

  ghost predicate FirstUpdateDone(
    disk: Disk, name: string, up: Upstream, categories: Option<set<Category>>, quota: nat)
  {
    && name in disk.manifest
    && !NothingSelected(up, categories)
    && WriteAll(disk.tree, Refreshed(disk.tree, disk.manifest[name].hashes, Planned(up, categories)), quota).done
  }

  /**
   Repeating an update that went through, with nothing changed in between: no file is
   refreshed, the same planned files are in conflict, and nothing changes on disk.
   */
  lemma SecondUpdateSettled(
    disk: Disk, name: string, up: Upstream, categories: Option<set<Category>>, quota: nat, quota': nat)
    requires FileTree(up.actions) && FirstUpdateDone(disk, name, up, categories, quota)
    ensures var after := AfterUpdate(disk, name, up, categories, false, quota);
            && name in after.manifest
            && ResultOf(after.tree, after.manifest[name], up, categories).updated == []
            && ResultOf(after.tree, after.manifest[name], up, categories).conflicts ==
               ResultOf(disk.tree, disk.manifest[name], up, categories).conflicts
            && AfterUpdate(after, name, up, categories, false, quota') == after
  {
    var entry, actions := disk.manifest[name], Planned(up, categories);
    UnderRootsAre(up.actions, SelectedRoots(up.assets, categories));
    var after := AfterUpdate(disk, name, up, categories, false, quota);
    var trusted := Trusted(entry.hashes, disk.tree, actions);
    forall a | a in actions ensures Settled(disk.tree, entry.hashes, after.tree, trusted, a) {
      JudgedAgain(disk.tree, entry.hashes, actions, quota, a);
    }
    SettledLists(disk.tree, entry.hashes, after.tree, trusted, actions);
    assert after.manifest[name].hashes == trusted;
    var latest := LatestHashes(disk.tree, entry.hashes, actions);
    assert trusted + latest == trusted;
    assert Entry(trusted + latest, after.manifest[name].files + latest.Keys, up.assets) == after.manifest[name];
    assert after.manifest[name := after.manifest[name]] == after.manifest;
  }

  /** A file gone from upstream and from here, whose place a refreshed file needs as a directory. */
  ghost predicate Buried(disk: Disk, name: string, up: Upstream, p: Path)
    requires name in disk.manifest
  {
    var entry := disk.manifest[name];
    && p in RemovedPaths(entry, PathsOf(up.actions), None)
    && p !in disk.tree
    && MakesParent(Refreshed(disk.tree, entry.hashes, up.actions), p)
  }

  lemma {:induction false} AboveRefreshedNotLinked(
    tree: Tree, hashes: map<Path, HashField>, actions: seq<Action>, p: Path)
    requires MakesParent(Refreshed(tree, hashes, actions), p)
    ensures !SymlinkedParent(tree, p)
  {
    RefreshedAt(tree, hashes, actions);
    var a :| a in Refreshed(tree, hashes, actions) && IsParent(p, a.path);
    assert !SymlinkedParent(tree, a.path);
    assert forall i :: 0 < i < |p| ==> a.path[..i] == p[..i];
  }

  lemma BuriedWasAbsent(disk: Disk, name: string, up: Upstream, p: Path)
    requires name in disk.manifest && Buried(disk, name, up, p)
    ensures JudgeRemoved(disk.tree, disk.manifest[name].hashes, p) == AlreadyAbsent
  {
    AboveRefreshedNotLinked(disk.tree, disk.manifest[name].hashes, up.actions, p);
  }

  lemma {:induction false} RemovedJudgedAgain(
    tree: Tree, hashes: map<Path, HashField>, actions: seq<Action>, quota: nat, p: Path)
    requires FileTree(actions) && WriteAll(tree, Refreshed(tree, hashes, actions), quota).done
    requires p !in PathsOf(actions)
    ensures JudgeRemoved(WriteAll(tree, Refreshed(tree, hashes, actions), quota).tree, Trusted(hashes, tree, actions),
                         p) ==
            if p !in tree && MakesParent(Refreshed(tree, hashes, actions), p) then RemovedButDirectory
            else JudgeRemoved(tree, hashes, p)
  {
    RemovedNotWritten(tree, hashes, actions, p);
    LinksStay(tree, hashes, actions, quota, p);
    Untouched(tree, hashes, actions, quota, p);
    if p !in tree && MakesParent(Refreshed(tree, hashes, actions), p) {
      AboveRefreshedNotLinked(tree, hashes, actions, p);
      MadeParents(tree, hashes, actions, quota, p);
    }
  }

  lemma RemovedAgain(disk: Disk, name: string, up: Upstream, quota: nat, p: Path)
    requires FileTree(up.actions) && FirstUpdateDone(disk, name, up, None, quota)
    requires p in RemovedPaths(disk.manifest[name], PathsOf(up.actions), None)
    ensures var after := AfterUpdate(disk, name, up, None, false, quota);
            && name in after.manifest
            && JudgeRemoved(after.tree, after.manifest[name].hashes, p) ==
               if Buried(disk, name, up, p) then RemovedButDirectory
               else JudgeRemoved(disk.tree, disk.manifest[name].hashes, p)
  {
    RemovedJudgedAgain(disk.tree, disk.manifest[name].hashes, up.actions, quota, p);
  }

  lemma {:induction false} RemovedNotWritten(tree: Tree, hashes: map<Path, HashField>, actions: seq<Action>, p: Path)
    requires p !in PathsOf(actions)
    ensures forall a :: a in Refreshed(tree, hashes, actions) ==> a.path != p
    ensures p !in LatestHashes(tree, hashes, actions)
  {
    RefreshedIn(tree, hashes, actions);
    if p in LatestHashes(tree, hashes, actions) {
      LatestHashesAreDigests(tree, hashes, actions, p);
    }
    assert forall a :: a in actions ==> a.path in PathsOf(actions);
  }

  lemma {:induction false} MadeParents(
    tree: Tree, hashes: map<Path, HashField>, actions: seq<Action>, quota: nat, p: Path)
    requires FileTree(actions) && WriteAll(tree, Refreshed(tree, hashes, actions), quota).done
    requires MakesParent(Refreshed(tree, hashes, actions), p)
    ensures p in WriteAll(tree, Refreshed(tree, hashes, actions), quota).tree
  {
    RefreshedFileTree(tree, hashes, actions);
    RefreshedIn(tree, hashes, actions);
    WriteAllCopies(tree, Refreshed(tree, hashes, actions), quota);
  }

  /**
   A repeated default update reports the same files removed upstream, and the same of
   them in conflict, exactly when the first put no directory where one of them had been.
   */
  lemma SecondUpdateRemovalsIff(disk: Disk, name: string, up: Upstream, quota: nat)
    requires FileTree(up.actions) && FirstUpdateDone(disk, name, up, None, quota)
    requires disk.manifest[name].assets != map[] && up.assets != map[]
    ensures var after := AfterUpdate(disk, name, up, None, false, quota);
            name in after.manifest &&
            var first := ResultOf(disk.tree, disk.manifest[name], up, None).removed;
            var second := ResultOf(after.tree, after.manifest[name], up, None).removed;
            && first.Keys == second.Keys
            && ((forall p :: p in first ==> (IsConflict(first[p]) <==> IsConflict(second[p]))) <==>
                (forall p :: p in first ==> !Buried(disk, name, up, p)))
  {
    var entry := disk.manifest[name];
    var after := AfterUpdate(disk, name, up, None, false, quota);
    var removed := RemovedPaths(entry, PathsOf(up.actions), None);
    SameRemoved(entry, disk.tree, up);
    forall p | p in removed
      ensures IsConflict(JudgeRemoved(after.tree, after.manifest[name].hashes, p)) <==>
              IsConflict(JudgeRemoved(disk.tree, entry.hashes, p)) || Buried(disk, name, up, p)
      ensures Buried(disk, name, up, p) ==> !IsConflict(JudgeRemoved(disk.tree, entry.hashes, p))
    {
      RemovedAgain(disk, name, up, quota, p);
      if Buried(disk, name, up, p) { BuriedWasAbsent(disk, name, up, p); }
    }
  }

  /** The list of removed paths is the same after the update. */
  lemma {:induction false} SameRemoved(entry: Entry, tree: Tree, up: Upstream)
    requires entry.assets != map[] && up.assets != map[]
    ensures var latest := LatestHashes(tree, entry.hashes, up.actions);
            RemovedPaths(Entry(entry.hashes + latest, entry.files + latest.Keys, up.assets), PathsOf(up.actions),
                         None) ==
            RemovedPaths(entry, PathsOf(up.actions), None)
  {
    AssetsAreRoots(entry.assets);
    AssetsAreRoots(up.assets);
    forall p | p in LatestHashes(tree, entry.hashes, up.actions) ensures p in PathsOf(up.actions) {
      LatestHashesAreDigests(tree, entry.hashes, up.actions, p);
    }
  }

  lemma AssetsAreRoots(assets: Assets)
    ensures assets == map[] || SelectedRoots(assets, None) != {}
  {
    if root :| root in assets {
      assert root in SelectedRoots(assets, None);
    }
  }

  /**
   It does when upstream turned the file at `p` into a directory holding `a`, after the
   file was deleted here: the first update reports it as absent, the repeated one finds
   the directory in its place and reports a conflict.
   */
  lemma RemovalsCanChange(disk: Disk, name: string, up: Upstream, a: Action, p: Path)
    requires disk.tree == map[] && up.actions == [a] && IsParent(p, a.path) && up.assets != map[]
    requires name in disk.manifest && a.path !in disk.manifest[name].hashes
    requires p in disk.manifest[name].files && p in disk.manifest[name].assets
    ensures FileTree(up.actions) && FirstUpdateDone(disk, name, up, None, 1)
    ensures var after := AfterUpdate(disk, name, up, None, false, 1);
            name in after.manifest &&
            var first := ResultOf(disk.tree, disk.manifest[name], up, None).removed;
            var second := ResultOf(after.tree, after.manifest[name], up, None).removed;
            && p in first && first[p] == AlreadyAbsent
            && p in second && second[p] == RemovedButDirectory
  {
    OneFreshFile(disk.manifest[name].hashes, up.actions);
    StaysListed(disk.manifest[name], up.actions, p);
    BuriedIsReported(disk, name, up, p);
  }

  lemma BuriedIsReported(disk: Disk, name: string, up: Upstream, p: Path)
    requires FileTree(up.actions) && FirstUpdateDone(disk, name, up, None, 1) && Buried(disk, name, up, p)
    requires disk.manifest[name].assets != map[] && up.assets != map[]
    ensures var after := AfterUpdate(disk, name, up, None, false, 1);
            name in after.manifest &&
            var first := ResultOf(disk.tree, disk.manifest[name], up, None).removed;
            var second := ResultOf(after.tree, after.manifest[name], up, None).removed;
            && p in first && first[p] == AlreadyAbsent
            && p in second && second[p] == RemovedButDirectory
  {
    BuriedWasAbsent(disk, name, up, p);
    RemovedAgain(disk, name, up, 1, p);
    SameRemoved(disk.manifest[name], disk.tree, up);
  }

  lemma StaysListed(entry: Entry, actions: seq<Action>, p: Path)
    requires p in entry.files && p in entry.assets && forall a :: a in actions ==> a.path != p
    ensures p in RemovedPaths(entry, PathsOf(actions), None)
  {
    AssetsAreRoots(entry.assets);
  }

  lemma {:induction false} OneFreshFile(hashes: map<Path, HashField>, actions: seq<Action>)
    requires |actions| == 1 && actions[0].path != [] && actions[0].path !in hashes
    ensures FileTree(actions) && Refreshed(map[], hashes, actions) == actions && WriteAll(map[], actions, 1).done
  {
    OneFreshFileRefreshed(hashes, actions[0]);
    OneFileWritten(actions[0]);
    assert actions == [actions[0]];
  }

  lemma {:induction false} OneFreshFileRefreshed(hashes: map<Path, HashField>, a: Action)
    requires a.path !in hashes
    ensures Refreshed(map[], hashes, [a]) == [a]
  {
    assert [a][..0] == [] && Judge(map[], hashes, a) == Refresh;
    assert Refreshed(map[], hashes, [a][..0]) == [];
  }

  lemma OneFileWritten(a: Action)
    requires a.path != []
    ensures WriteAll(map[], [a], 1).done
  {
    assert [a][..0] == [];
    assert WriteAll(map[], [a][..0], 1) == Copied(map[], true);
  }
}
