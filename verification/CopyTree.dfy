/** Copying a declared source tree into the build context, through the symbolic links that stay inside it. */
module CopyTree {
  import opened Protocol

  type Name = string
  type Path = seq<Name>
  type Bytes = seq<bv8>

  /**
   Where resolving a symbolic link to the end leads: to the real path of something inside the tree (relative to its
   root), out of it, or nowhere.
   */
  datatype Target = Inside(path: Path) | Outside | Broken

  datatype Node =
    | File(data: Bytes, perm: nat)
    | Dir(entries: seq<Entry>)
    | Link(target: Target)
    | Special
  datatype Entry = Entry(name: Name, node: Node)

  datatype Error = LeavesTree | CannotResolve | LinkCycle | NotRegular

  /** What a path of the copy holds. */
  datatype Item = FileItem(data: Bytes, perm: nat) | DirItem

  const GIT := ".git"
  const DEFAULT_PERM := 0x1a4 // octal 0644

  function Child(entries: seq<Entry>, name: Name): (r: Option<Node>)
    ensures r.Some? ==> Entry(name, r.value) in entries
  {
    if entries == [] then None
    else if entries[0].name == name then Some(entries[0].node)
    else Child(entries[1..], name)
  }

  /** What stands at a path of the tree itself, without following any link. */
  function At(root: Node, path: Path): Option<Node>
    decreases |path|
  {
    if path == [] then Some(root)
    else
      var parent := At(root, path[..|path| - 1]);
      if parent.Some? && parent.value.Dir? then Child(parent.value.entries, path[|path| - 1]) else None
  }

  predicate NamesDistinct(entries: seq<Entry>) {
    forall i, j :: 0 <= i < j < |entries| ==> entries[i].name != entries[j].name
  }

  /** A directory's names are distinct, and resolving a link to the end does not stop at another link. */
  predicate Sound(root: Node, node: Node) {
    match node
    case Dir(entries) => NamesDistinct(entries)
    case Link(Inside(path)) => At(root, path).Some? && !At(root, path).value.Link?
    case _ => true
  }

  ghost predicate WellFormed(root: Node) {
    forall path: Path :: At(root, path).Some? ==> Sound(root, At(root, path).value)
  }

  /** The resolved targets of every inner link of a tree. */
  function Targets(node: Node): set<Path> {
    match node
    case Link(Inside(path)) => {path}
    case Dir(entries) => set i, path | 0 <= i < |entries| && path in Targets(entries[i].node) :: path
    case _ => {}
  }

  lemma {:induction false} TargetsOfPart(root: Node, path: Path)
    requires At(root, path).Some?
    ensures Targets(At(root, path).value) <= Targets(root)
    decreases |path|
  {
    if path != [] {
      var parent := At(root, path[..|path| - 1]).value;
      TargetsOfPart(root, path[..|path| - 1]);
      var child := Child(parent.entries, path[|path| - 1]).value;
      var i :| 0 <= i < |parent.entries| && parent.entries[i] == Entry(path[|path| - 1], child);
      forall target | target in Targets(child) ensures target in Targets(parent) {
        assert target in Targets(parent.entries[i].node);
      }
    }
  }

  // ---------------------------------------------------------------- the link-expanded unfolding

  /**
   What a path means once links are followed: nothing, the object at a real path of the tree, or an error. Through
   holds the resolved targets of the links on the way.
   */
  datatype Position = Absent | Here(place: Path, through: set<Path>) | Faulty(error: Error)

  /** Arriving at a real path by way of the given links. */
  function Enter(root: Node, place: Path, through: set<Path>): Position {
    match At(root, place)
    case None => Absent
    case Some(Link(Outside)) => Faulty(LeavesTree)
    case Some(Link(Broken)) => Faulty(CannotResolve)
    case Some(Link(Inside(target))) =>
      if target in through then Faulty(LinkCycle)
      else if At(root, target) == Some(Special) then Faulty(NotRegular)
      else Here(target, through + {target})
    case Some(Special) => Faulty(NotRegular)
    case Some(_) => Here(place, through)
  }

  /** Arriving at a link is arriving at what it resolves to, with the link remembered. */
  lemma EnterResolved(root: Node, place: Path, target: Path, through: set<Path>)
    requires WellFormed(root) && At(root, place) == Some(Link(Inside(target))) && target !in through
    ensures At(root, target).Some? && Enter(root, place, through) == Enter(root, target, through + {target})
  {
    assert Sound(root, At(root, place).value);
  }

  /** A directory named .git is skipped; a link with that name is not. */
  predicate Skipped(name: Name, node: Node) {
    name == GIT && node.Dir?
  }

  predicate Copyable(root: Node, parent: Position, name: Name) {
    && parent.Here? && At(root, parent.place).Some? && At(root, parent.place).value.Dir?
    && Child(At(root, parent.place).value.entries, name).Some?
    && !Skipped(name, Child(At(root, parent.place).value.entries, name).value)
  }

  /** One more name along the path. */
  function Step(root: Node, parent: Position, name: Name): Position {
    if Copyable(root, parent, name) then Enter(root, parent.place + [name], parent.through) else Absent
  }

  function Reach(root: Node, path: Path): Position
    decreases |path|
  {
    if path == [] then Enter(root, [], {}) else Step(root, Reach(root, path[..|path| - 1]), path[|path| - 1])
  }

  function Perm(mode: nat, perm: nat): (r: nat)
    ensures mode != 0 ==> r == mode
    ensures mode == 0 && perm != 0 ==> r == perm
    ensures mode == 0 && perm == 0 ==> r == DEFAULT_PERM
  {
    var chosen := if mode != 0 then mode else perm;
    if chosen == 0 then DEFAULT_PERM else chosen
  }

  /** What a file or a directory becomes in the copy. */
  function ItemOf(mode: nat, node: Option<Node>): Option<Item> {
    match node
    case Some(File(data, perm)) => Some(FileItem(data, Perm(mode, perm)))
    case Some(Dir(_)) => Some(DirItem)
    case _ => None
  }

  /** What the copy must hold at a path. */
  function Expected(root: Node, mode: nat, path: Path): Option<Item> {
    match Reach(root, path)
    case Here(place, _) => ItemOf(mode, At(root, place))
    case _ => None
  }

  predicate Agrees(root: Node, mode: nat, target: map<Path, Item>, path: Path) {
    && (path in target <==> Expected(root, mode, path).Some?)
    && (path in target ==> target[path] == Expected(root, mode, path).value)
  }

  /** The copy is right at this path and there was nothing there to refuse. */
  predicate Done(root: Node, mode: nat, target: map<Path, Item>, path: Path) {
    !Reach(root, path).Faulty? && Agrees(root, mode, target, path)
  }

  lemma {:induction false} NothingBelow(root: Node, dir: Path, name: Name, path: Path)
    requires !Copyable(root, Reach(root, dir), name) && dir + [name] <= path
    ensures Reach(root, path) == Absent
    decreases |path|
  {
    var parent := path[..|path| - 1];
    if |path| == |dir| + 1 {
      assert path == dir + [name];
      assert parent == dir;
    } else {
      assert dir + [name] <= parent;
      NothingBelow(root, dir, name, parent);
    }
  }

  lemma ReachOfChild(root: Node, dir: Path, name: Name)
    requires Copyable(root, Reach(root, dir), name)
    ensures var parent := Reach(root, dir);
      Reach(root, dir + [name]) == Enter(root, parent.place + [name], parent.through)
  {
    assert (dir + [name])[..|dir|] == dir;
  }

  lemma AtChild(root: Node, dir: Path, name: Name)
    requires At(root, dir).Some? && At(root, dir).value.Dir?
    ensures At(root, dir + [name]) == Child(At(root, dir).value.entries, name)
  {
    assert (dir + [name])[..|dir|] == dir;
  }

  lemma {:induction false} ChildOfDistinct(entries: seq<Entry>, i: nat)
    requires NamesDistinct(entries) && i < |entries|
    ensures Child(entries, entries[i].name) == Some(entries[i].node)
  {
    if i > 0 {
      ChildOfDistinct(entries[1..], i - 1);
    }
  }

  // ---------------------------------------------------------------- the walk

  datatype Outcome = Copied | Failed(error: Error, path: Path)

  /** Everything beneath a path is copied right. */
  ghost predicate DoneBelow(root: Node, mode: nat, target: map<Path, Item>, top: Path) {
    forall path: Path :: top <= path ==> Done(root, mode, target, path)
  }

  ghost predicate EmptyBelow(target: map<Path, Item>, top: Path) {
    forall path: Path :: top <= path ==> path !in target
  }

  predicate Same(before: map<Path, Item>, after: map<Path, Item>, path: Path) {
    (path in before <==> path in after) && (path in before ==> before[path] == after[path])
  }

  /** Only what lies beneath a path differs. */
  ghost predicate SameElsewhere(before: map<Path, Item>, after: map<Path, Item>, top: Path) {
    forall path: Path :: !(top <= path) ==> Same(before, after, path)
  }

  class Copier {
    /** The resolved targets of the links being followed now. */
    var ancestors: set<Path>
    var target: map<Path, Item>

    constructor ()
      ensures ancestors == {} && target == map[]
    {
      ancestors, target := {}, map[];
    }

    /**
     walk. It copies exactly the unfolding beneath a path, or reports an error that stands in the unfolding; either
     way the links being followed afterwards are those being followed before.
     */
    method Walk(root: Node, mode: nat, from: Path, node: Node, to: Path) returns (r: Outcome)
      requires WellFormed(root) && At(root, from) == Some(node)
      requires Reach(root, to) == Enter(root, from, ancestors)
      requires EmptyBelow(target, to)
      modifies this
      ensures ancestors == old(ancestors)
      ensures Walked(root, mode, old(target), target, to, r)
      decreases Targets(root) - ancestors, node
    {
      match node
      case Link(Outside) =>
        r := Failed(LeavesTree, to);
      case Link(Broken) =>
        r := Failed(CannotResolve, to);
      case Link(Inside(resolved)) =>
        if resolved in ancestors {
          r := Failed(LinkCycle, to);
        } else {
          TargetsOfPart(root, from);
          EnterResolved(root, from, resolved, ancestors);
          ancestors := ancestors + {resolved};
          r := Walk(root, mode, resolved, At(root, resolved).value, to);
          ancestors := ancestors - {resolved};
        }
      case Dir(entries) =>
        target := target[to := DirItem];
        r := WalkEntries(root, mode, from, entries, to);
        SameAfterPut(old(target), to, DirItem, target);
      case Special =>
        r := Failed(NotRegular, to);
      case File(data, perm) =>
        target := target[to := FileItem(data, Perm(mode, perm))];
        FileWalked(root, mode, old(target), to, from, ancestors);
        r := Copied;
    }

    method WalkEntries(root: Node, mode: nat, from: Path, entries: seq<Entry>, to: Path) returns (r: Outcome)
      requires WellFormed(root) && At(root, from) == Some(Dir(entries)) && Reach(root, to) == Here(from, ancestors)
      requires to in target && target[to] == DirItem && EmptyBeyond(target, to, entries, 0)
      modifies this
      ensures ancestors == old(ancestors)
      ensures Walked(root, mode, old(target), target, to, r)
      decreases Targets(root) - ancestors, entries
    {
      assert Sound(root, Dir(entries));
      for i := 0 to |entries|
        invariant ancestors == old(ancestors)
        invariant SameElsewhere(old(target), target, to)
        invariant to in target && target[to] == DirItem
        invariant DoneUpTo(root, mode, target, to, entries, i)
        invariant EmptyBeyond(target, to, entries, i)
      {
        var entry := entries[i];
        ChildOfDistinct(entries, i);
        if Skipped(entry.name, entry.node) {
          SkipKeeps(root, mode, target, to, entries, i);
        } else {
          ReachOfChild(root, to, entry.name);
          AtChild(root, from, entry.name);
          EmptyAtNext(target, to, entries, i);
          ghost var before := target;
          r := Walk(root, mode, from + [entry.name], entry.node, to + [entry.name]);
          StaysWithin(old(target), before, target, to, entry.name);
          if r.Failed? {
            return r;
          }
          CopyKeeps(root, mode, before, target, to, entries, i);
        }
      }
      EntriesDone(root, mode, target, to, entries);
      r := Copied;
    }
  }

  /** What a walk of the unfolding beneath a path has done. */
  ghost predicate Walked(root: Node, mode: nat, before: map<Path, Item>, after: map<Path, Item>, to: Path, r: Outcome) {
    && SameElsewhere(before, after, to)
    && (r.Copied? ==> DoneBelow(root, mode, after, to))
    && (r.Failed? ==> to <= r.path && Reach(root, r.path) == Faulty(r.error))
  }

  // ---------------------------------------------------------------- one directory's entries

  predicate Named(entries: seq<Entry>, count: nat, name: Name)
    requires count <= |entries|
  {
    exists j :: 0 <= j < count && entries[j].name == name
  }

  ghost predicate DoneUpTo(root: Node, mode: nat, target: map<Path, Item>, to: Path, entries: seq<Entry>, count: nat)
    requires count <= |entries|
  {
    forall path: Path :: to < path && Named(entries, count, path[|to|]) ==> Done(root, mode, target, path)
  }

  ghost predicate EmptyBeyond(target: map<Path, Item>, to: Path, entries: seq<Entry>, count: nat)
    requires count <= |entries|
  {
    forall path: Path :: to < path && !Named(entries, count, path[|to|]) ==> path !in target
  }

  lemma BelowChild(to: Path, name: Name, path: Path)
    ensures to + [name] <= path <==> to < path && path[|to|] == name
  {
    if to < path && path[|to|] == name {
      assert path[..|to| + 1] == to + [name];
    }
  }

  lemma NamedGrows(entries: seq<Entry>, i: nat, name: Name)
    requires i < |entries|
    ensures Named(entries, i + 1, name) <==> Named(entries, i, name) || name == entries[i].name
  {
    if Named(entries, i, name) {
      var j :| 0 <= j < i && entries[j].name == name;
      assert 0 <= j < i + 1;
    } else if name == entries[i].name {
      assert i < i + 1;
    }
  }

  lemma NamesFound(entries: seq<Entry>, name: Name)
    ensures Child(entries, name).Some? ==> Named(entries, |entries|, name)
  {
    if Child(entries, name).Some? {
      var j :| 0 <= j < |entries| && entries[j] == Entry(name, Child(entries, name).value);
      assert entries[j].name == name;
    }
  }

  lemma EmptyAtNext(target: map<Path, Item>, to: Path, entries: seq<Entry>, i: nat)
    requires i < |entries| && NamesDistinct(entries) && EmptyBeyond(target, to, entries, i)
    ensures EmptyBelow(target, to + [entries[i].name])
  {
    forall path: Path | to + [entries[i].name] <= path ensures path !in target {
      BelowChild(to, entries[i].name, path);
    }
  }

  lemma SkipKeeps(root: Node, mode: nat, target: map<Path, Item>, to: Path, entries: seq<Entry>, i: nat)
    requires i < |entries| && NamesDistinct(entries)
    requires !Copyable(root, Reach(root, to), entries[i].name)
    requires DoneUpTo(root, mode, target, to, entries, i) && EmptyBeyond(target, to, entries, i)
    ensures DoneUpTo(root, mode, target, to, entries, i + 1) && EmptyBeyond(target, to, entries, i + 1)
  {
    forall path: Path | to < path && path[|to|] == entries[i].name ensures Done(root, mode, target, path) {
      BelowChild(to, entries[i].name, path);
      NothingBelow(root, to, entries[i].name, path);
    }
    forall path: Path | to < path
      ensures Named(entries, i + 1, path[|to|]) <==> Named(entries, i, path[|to|]) || path[|to|] == entries[i].name
    {
      NamedGrows(entries, i, path[|to|]);
    }
  }

  lemma CopyKeeps(
      root: Node, mode: nat, before: map<Path, Item>, after: map<Path, Item>, to: Path, entries: seq<Entry>, i: nat)
    requires i < |entries| && NamesDistinct(entries)
    requires SameElsewhere(before, after, to + [entries[i].name])
      && DoneBelow(root, mode, after, to + [entries[i].name])
    requires DoneUpTo(root, mode, before, to, entries, i) && EmptyBeyond(before, to, entries, i)
    ensures DoneUpTo(root, mode, after, to, entries, i + 1) && EmptyBeyond(after, to, entries, i + 1)
  {
    forall path: Path | to < path
      ensures if Named(entries, i + 1, path[|to|]) then Done(root, mode, after, path) else path !in after
    {
      NamedGrows(entries, i, path[|to|]);
      BelowChild(to, entries[i].name, path);
      if path[|to|] == entries[i].name {
        assert Done(root, mode, after, path);
      } else {
        assert Same(before, after, path);
        assert Named(entries, i, path[|to|]) ==> Done(root, mode, before, path);
      }
    }
  }

  lemma StaysWithin(first: map<Path, Item>, before: map<Path, Item>, after: map<Path, Item>, to: Path, name: Name)
    requires SameElsewhere(first, before, to) && SameElsewhere(before, after, to + [name])
    ensures SameElsewhere(first, after, to)
    ensures to in before ==> to in after && after[to] == before[to]
  {
    forall path: Path | !(to <= path) ensures Same(first, after, path) {
      BelowChild(to, name, path);
      assert Same(first, before, path) && Same(before, after, path);
    }
    BelowChild(to, name, to);
    assert Same(before, after, to);
  }

  /** A name that is no entry's has nothing to copy. */
  lemma EntriesDone(root: Node, mode: nat, target: map<Path, Item>, to: Path, entries: seq<Entry>)
    requires Reach(root, to).Here? && At(root, Reach(root, to).place) == Some(Dir(entries))
    requires to in target && target[to] == DirItem
    requires DoneUpTo(root, mode, target, to, entries, |entries|) && EmptyBeyond(target, to, entries, |entries|)
    ensures DoneBelow(root, mode, target, to)
  {
    forall path: Path | to <= path ensures Done(root, mode, target, path) {
      if path == to {
      } else {
        assert to < path;
        if !Named(entries, |entries|, path[|to|]) {
          BelowChild(to, path[|to|], path);
          NamesFound(entries, path[|to|]);
          NothingBelow(root, to, path[|to|], path);
        }
      }
    }
  }

  lemma SameAfterPut(before: map<Path, Item>, to: Path, item: Item, after: map<Path, Item>)
    requires SameElsewhere(before[to := item], after, to)
    ensures SameElsewhere(before, after, to)
  {
    forall path: Path | !(to <= path) ensures Same(before, after, path) {
      assert Same(before[to := item], after, path);
    }
  }

  lemma NothingBelowFile(root: Node, to: Path, path: Path)
    requires Reach(root, to).Here? && At(root, Reach(root, to).place).Some?
      && At(root, Reach(root, to).place).value.File?
    requires to < path
    ensures Reach(root, path) == Absent
  {
    BelowChild(to, path[|to|], path);
    NothingBelow(root, to, path[|to|], path);
  }

  lemma LeafDone(root: Node, mode: nat, target: map<Path, Item>, to: Path)
    requires Reach(root, to).Here? && At(root, Reach(root, to).place).Some?
      && At(root, Reach(root, to).place).value.File?
    requires Agrees(root, mode, target, to)
    requires forall path: Path :: to < path ==> path !in target
    ensures DoneBelow(root, mode, target, to)
  {
    assert Done(root, mode, target, to);
    forall path: Path | to <= path ensures Done(root, mode, target, path) {
      if path != to {
        NothingBelowFile(root, to, path);
      }
    }
  }

  lemma FileWalked(root: Node, mode: nat, before: map<Path, Item>, to: Path, from: Path, through: set<Path>)
    requires Reach(root, to) == Here(from, through) && At(root, from).Some? && At(root, from).value.File?
    requires EmptyBelow(before, to)
    ensures var file := At(root, from).value;
      Walked(root, mode, before, before[to := FileItem(file.data, Perm(mode, file.perm))], to, Copied)
  {
    var file := At(root, from).value;
    LeafDone(root, mode, before[to := FileItem(file.data, Perm(mode, file.perm))], to);
  }

  // ---------------------------------------------------------------- the copy

  /**
   No path of the unfolding leads out of the tree, to nothing, into a cycle or to anything but files and
   directories.
   */
  ghost predicate Clean(root: Node) {
    forall path: Path :: Faultless(root, path)
  }

  predicate Faultless(root: Node, path: Path) {
    !Reach(root, path).Faulty?
  }

  /**
   copyTree. It succeeds exactly on trees whose unfolding is clean, and then the target is that unfolding, path by path;
   a failure names a path of the unfolding that really has the reported fault.
   */
  method Copy(root: Node, mode: nat) returns (r: Outcome, target: map<Path, Item>)
    requires WellFormed(root)
    ensures r.Copied? <==> Clean(root)
    ensures r.Copied? ==> forall path: Path :: Agrees(root, mode, target, path)
    ensures r.Failed? ==> Reach(root, r.path) == Faulty(r.error)
  {
    var copier := new Copier();
    r := copier.Walk(root, mode, [], root, []);
    target := copier.target;
    if r.Copied? {
      forall path: Path ensures Faultless(root, path) && Agrees(root, mode, target, path) {
        assert [] <= path && Done(root, mode, target, path);
      }
    } else {
      assert !Faultless(root, r.path);
    }
  }

  // ---------------------------------------------------------------- what the unfolding means

  /** Resolving a link, whatever was followed before. */
  function Resolve(root: Node, place: Path): Option<Path> {
    match At(root, place)
    case Some(Link(Inside(target))) => Some(target)
    case Some(Link(_)) => None
    case None => None
    case Some(_) => Some(place)
  }

  function PlainStep(root: Node, parent: Option<Path>, name: Name): Option<Path> {
    if parent.Some? && Copyable(root, Here(parent.value, {}), name) then Resolve(root, parent.value + [name]) else None
  }

  function FollowFrom(root: Node, start: Option<Path>, path: Path): Option<Path>
    decreases |path|
  {
    if path == [] then start else FollowFrom(root, PlainStep(root, start, path[0]), path[1..])
  }

  /** The unfolding with no memory of the links on the way. */
  function Follow(root: Node, path: Path): Option<Path> {
    FollowFrom(root, Resolve(root, []), path)
  }

  lemma {:induction false} FollowAppend(root: Node, start: Option<Path>, a: Path, b: Path)
    ensures FollowFrom(root, start, a + b) == FollowFrom(root, FollowFrom(root, start, a), b)
    decreases |a|
  {
    if a == [] {
      assert a + b == b;
    } else {
      assert (a + b)[1..] == a[1..] + b;
      FollowAppend(root, PlainStep(root, start, a[0]), a[1..], b);
    }
  }

  lemma FollowLast(root: Node, path: Path)
    requires path != []
    ensures Follow(root, path) == PlainStep(root, Follow(root, path[..|path| - 1]), path[|path| - 1])
  {
    assert path == path[..|path| - 1] + [path[|path| - 1]];
    FollowAppend(root, Resolve(root, []), path[..|path| - 1], [path[|path| - 1]]);
  }

  function Plain(position: Position): Option<Path> {
    match position
    case Here(place, _) => Some(place)
    case _ => None
  }

  lemma PlainStepAgrees(root: Node, parent: Position, name: Name)
    requires !Step(root, parent, name).Faulty?
    ensures PlainStep(root, Plain(parent), name) == Plain(Step(root, parent, name))
  {
  }

  /** Remembering the links changes nothing as long as no fault is met. */
  lemma {:induction false} ReachFollows(root: Node, path: Path)
    requires Reach(root, path).Here?
    ensures Follow(root, path) == Some(Reach(root, path).place)
    decreases |path|
  {
    if path != [] {
      ReachFollows(root, path[..|path| - 1]);
      PlainStepAgrees(root, Reach(root, path[..|path| - 1]), path[|path| - 1]);
      FollowLast(root, path);
    }
  }

  /** A clean tree is copied to its plain unfolding. */
  lemma {:induction false} CleanIsPlain(root: Node, path: Path)
    requires Clean(root)
    ensures Follow(root, path) == Plain(Reach(root, path))
    decreases |path|
  {
    assert Faultless(root, path);
    if path != [] {
      CleanIsPlain(root, path[..|path| - 1]);
      PlainStepAgrees(root, Reach(root, path[..|path| - 1]), path[|path| - 1]);
      FollowLast(root, path);
    }
  }

  /** Every remembered link target was reached at some point of the path. */
  lemma {:induction false} ThroughWasReached(root: Node, path: Path, target: Path) returns (i: nat)
    requires Reach(root, path).Here? && target in Reach(root, path).through
    ensures i <= |path| && Reach(root, path[..i]).Here? && Reach(root, path[..i]).place == target
    decreases |path|
  {
    i := |path|;
    assert path[..i] == path;
    if path == [] {
      EnterThrough(root, [], {});
    } else {
      var prefix := path[..|path| - 1];
      var parent := Reach(root, prefix);
      EnterThrough(root, parent.place + [path[|path| - 1]], parent.through);
      if Reach(root, path).place != target {
        i := ThroughWasReached(root, prefix, target);
        assert prefix[..i] == path[..i];
      }
    }
  }

  lemma EnterThrough(root: Node, place: Path, through: set<Path>)
    requires Enter(root, place, through).Here?
    ensures Enter(root, place, through).through <= through + {Enter(root, place, through).place}
  {
  }

  function Times(path: Path, count: nat): Path {
    if count == 0 then [] else path + Times(path, count - 1)
  }

  lemma {:induction false} LoopsForever(root: Node, start: Option<Path>, loop: Path, count: nat)
    requires FollowFrom(root, start, loop) == start
    ensures FollowFrom(root, start, Times(loop, count)) == start
  {
    if count > 0 {
      FollowAppend(root, start, loop, Times(loop, count - 1));
      LoopsForever(root, start, loop, count - 1);
    }
  }

  /** A path along which some stretch leads back to where it starts. */
  ghost predicate Loops(root: Node, path: Path, i: nat) {
    && i < |path| && Follow(root, path[..i]).Some?
    && forall count: nat :: Follow(root, path[..i] + Times(path[i..], count)) == Follow(root, path[..i])
  }

  lemma ReturnLoops(root: Node, path: Path, i: nat)
    requires i < |path| && Follow(root, path[..i]).Some? && Follow(root, path) == Follow(root, path[..i])
    ensures Loops(root, path, i)
  {
    var start := Resolve(root, []);
    assert path[..i] + path[i..] == path;
    FollowAppend(root, start, path[..i], path[i..]);
    forall count: nat ensures Follow(root, path[..i] + Times(path[i..], count)) == Follow(root, path[..i]) {
      FollowAppend(root, start, path[..i], Times(path[i..], count));
      LoopsForever(root, Follow(root, path[..i]), path[i..], count);
    }
  }

  /**
   A cycle is reported only where the plain unfolding never ends: some stretch of the path can be repeated for ever.
   */
  lemma CycleNeverEnds(root: Node, path: Path) returns (i: nat)
    requires Reach(root, path) == Faulty(LinkCycle)
    ensures Loops(root, path, i)
  {
    var prefix, name := path[..|path| - 1], path[|path| - 1];
    var parent := Reach(root, prefix);
    var target := CycleTarget(root, parent, name);
    i := ThroughWasReached(root, prefix, target);
    assert prefix[..i] == path[..i];
    ReachFollows(root, prefix);
    ReachFollows(root, path[..i]);
    FollowLast(root, path);
    ReturnLoops(root, path, i);
  }

  lemma CycleTarget(root: Node, parent: Position, name: Name) returns (target: Path)
    requires Step(root, parent, name) == Faulty(LinkCycle)
    ensures parent.Here? && target in parent.through && PlainStep(root, Some(parent.place), name) == Some(target)
  {
    target := At(root, parent.place + [name]).value.target.path;
  }

  // ---------------------------------------------------------------- what becomes of .git directories

  /** A real directory named .git. */
  predicate GitDir(root: Node, place: Path) {
    place != [] && place[|place| - 1] == GIT && At(root, place).Some? && At(root, place).value.Dir?
  }

  /** A place at or beneath a real .git directory. */
  ghost predicate InGit(root: Node, place: Path) {
    exists i: nat :: i <= |place| && GitDir(root, place[..i])
  }

  lemma InGitStep(root: Node, dir: Path, name: Name)
    ensures InGit(root, dir + [name]) <==> InGit(root, dir) || GitDir(root, dir + [name])
  {
    var place := dir + [name];
    assert place[..|place|] == place;
    forall i: nat | i <= |dir| ensures place[..i] == dir[..i] {
    }
    if InGit(root, dir) {
      var i: nat :| i <= |dir| && GitDir(root, dir[..i]);
      assert GitDir(root, place[..i]);
    }
    if InGit(root, place) {
      var i: nat :| i <= |place| && GitDir(root, place[..i]);
      assert i <= |dir| ==> GitDir(root, dir[..i]);
    }
  }

  /** Where a path arrives, before a link that stands there is resolved. */
  function Arrival(root: Node, path: Path): Path {
    if path == [] then []
    else
      var parent := Reach(root, path[..|path| - 1]);
      if parent.Here? then parent.place + [path[|path| - 1]] else []
  }

  /** The path is reached through a link that stands at its end and resolves to this place. */
  predicate FollowsLink(root: Node, path: Path, target: Path) {
    Reach(root, path).Here? && At(root, Arrival(root, path)) == Some(Link(Inside(target)))
  }

  /** The place that the last link on the way to a path resolves to. */
  function LastLink(root: Node, path: Path): Option<Path>
    decreases |path|
  {
    match At(root, Arrival(root, path))
    case Some(Link(Inside(target))) => Some(target)
    case _ => if path == [] then None else LastLink(root, path[..|path| - 1])
  }

  lemma ArrivalDecides(root: Node, path: Path)
    requires Reach(root, path).Here?
    ensures At(root, Arrival(root, path)).Some?
    ensures At(root, Arrival(root, path)).value.Link? ==> FollowsLink(root, path, Reach(root, path).place)
    ensures !At(root, Arrival(root, path)).value.Link? ==>
      && Reach(root, path).place == Arrival(root, path)
      && (path != [] ==> Reach(root, path[..|path| - 1]).Here?)
  {
    if path == [] {
      EnterDecides(root, [], {});
    } else {
      var parent := Reach(root, path[..|path| - 1]);
      assert Reach(root, path) == Step(root, parent, path[|path| - 1]);
      EnterDecides(root, parent.place + [path[|path| - 1]], parent.through);
    }
  }

  lemma EnterDecides(root: Node, place: Path, through: set<Path>)
    requires Enter(root, place, through).Here?
    ensures At(root, place).Some?
    ensures Enter(root, place, through).place ==
      match At(root, place).value case Link(Inside(target)) => target case _ => place
    ensures At(root, place).value.Link? ==> At(root, place).value.target.Inside?
    ensures var node := At(root, Enter(root, place, through).place); node != Some(Special)
  {
  }

  lemma FollowedIsPlace(root: Node, path: Path, target: Path)
    requires FollowsLink(root, path, target)
    ensures Reach(root, path).place == target && LastLink(root, path) == Some(target)
  {
    ArrivalDecides(root, path);
    assert FollowsLink(root, path, Reach(root, path).place);
  }

  /** A path leads into a .git directory exactly when the last link followed on the way resolves into one. */
  lemma {:induction false} GitOnlyBehindLinks(root: Node, path: Path)
    requires Reach(root, path).Here?
    ensures InGit(root, Reach(root, path).place) <==>
      LastLink(root, path).Some? && InGit(root, LastLink(root, path).value)
    decreases |path|
  {
    ArrivalDecides(root, path);
    if At(root, Arrival(root, path)).value.Link? {
      FollowedIsPlace(root, path, Reach(root, path).place);
    } else if path != [] {
      var prefix, name := path[..|path| - 1], path[|path| - 1];
      GitOnlyBehindLinks(root, prefix);
      NotSkipped(root, path);
      InGitStep(root, Reach(root, prefix).place, name);
    }
  }

  /** What is reached by its own name is no .git directory. */
  lemma NotSkipped(root: Node, path: Path)
    requires path != [] && Reach(root, path).Here? && !At(root, Arrival(root, path)).value.Link?
    ensures Reach(root, path[..|path| - 1]).Here?
    ensures !GitDir(root, Reach(root, path[..|path| - 1]).place + [path[|path| - 1]])
  {
    AtChild(root, Reach(root, path[..|path| - 1]).place, path[|path| - 1]);
  }

  lemma {:induction false} LastLinkIsFollowed(root: Node, path: Path) returns (i: nat)
    requires Reach(root, path).Here? && LastLink(root, path).Some?
    ensures i <= |path| && FollowsLink(root, path[..i], LastLink(root, path).value)
    decreases |path|
  {
    ArrivalDecides(root, path);
    if At(root, Arrival(root, path)).value.Link? {
      FollowedIsPlace(root, path, Reach(root, path).place);
      i := |path|;
      assert path[..i] == path;
    } else {
      LinkBefore(root, path);
      i := LastLinkIsFollowed(root, path[..|path| - 1]);
      assert path[..|path| - 1][..i] == path[..i];
    }
  }

  lemma LinkBefore(root: Node, path: Path)
    requires Reach(root, path).Here? && LastLink(root, path).Some?
    requires At(root, Arrival(root, path)).Some? && !At(root, Arrival(root, path)).value.Link?
    ensures path != [] && Reach(root, path[..|path| - 1]).Here?
    ensures LastLink(root, path[..|path| - 1]) == LastLink(root, path)
  {
    ArrivalDecides(root, path);
  }

  /** Something the copy holds stands at or beneath a .git directory of the source. */
  ghost predicate HoldsGit(root: Node, target: map<Path, Item>) {
    exists path :: path in target && Reach(root, path).Here? && InGit(root, Reach(root, path).place)
  }

  /** A link that is followed somewhere resolves at or beneath a .git directory. */
  ghost predicate LinksIntoGit(root: Node) {
    exists path, target :: FollowsLink(root, path, target) && InGit(root, target)
  }

  /** What is reached is copied. */
  lemma ReachedIsExpected(root: Node, mode: nat, path: Path)
    requires WellFormed(root) && Reach(root, path).Here?
    ensures Expected(root, mode, path).Some?
    ensures At(root, Reach(root, path).place).Some?
    ensures Expected(root, mode, path) == Some(DirItem) <==> At(root, Reach(root, path).place).value.Dir?
  {
    PlaceExists(root, path);
    NotSpecial(root, path);
    ItemOfPlain(mode, At(root, Reach(root, path).place).value);
  }

  lemma ItemOfPlain(mode: nat, node: Node)
    requires !node.Link? && !node.Special?
    ensures ItemOf(mode, Some(node)).Some? && (ItemOf(mode, Some(node)) == Some(DirItem) <==> node.Dir?)
  {
  }

  lemma PlaceExists(root: Node, path: Path)
    requires WellFormed(root) && Reach(root, path).Here?
    ensures At(root, Reach(root, path).place).Some? && !At(root, Reach(root, path).place).value.Link?
  {
    ArrivalDecides(root, path);
    assert Sound(root, At(root, Arrival(root, path)).value);
  }

  lemma NotSpecial(root: Node, path: Path)
    requires Reach(root, path).Here?
    ensures At(root, Reach(root, path).place) != Some(Special)
  {
    if path == [] {
      EnterDecides(root, [], {});
    } else {
      var parent := Reach(root, path[..|path| - 1]);
      assert Reach(root, path) == Step(root, parent, path[|path| - 1]);
      EnterDecides(root, parent.place + [path[|path| - 1]], parent.through);
    }
  }

  /**
   A finished copy holds .git content exactly when a link that is followed resolves at or beneath a .git directory.
   */
  lemma CopyHoldsGitIff(root: Node, mode: nat, target: map<Path, Item>)
    requires WellFormed(root) && forall path: Path :: Agrees(root, mode, target, path)
    ensures HoldsGit(root, target) <==> LinksIntoGit(root)
  {
    if HoldsGit(root, target) {
      var path :| path in target && Reach(root, path).Here? && InGit(root, Reach(root, path).place);
      GitNeedsLink(root, path);
    }
    if LinksIntoGit(root) {
      var path, into :| FollowsLink(root, path, into) && InGit(root, into);
      FollowedIsPlace(root, path, into);
      ReachedIsExpected(root, mode, path);
      assert Agrees(root, mode, target, path);
    }
  }

  lemma GitNeedsLink(root: Node, path: Path)
    requires Reach(root, path).Here? && InGit(root, Reach(root, path).place)
    ensures LinksIntoGit(root)
  {
    GitOnlyBehindLinks(root, path);
    var i := LastLinkIsFollowed(root, path);
    assert FollowsLink(root, path[..i], LastLink(root, path).value);
  }

  /** The path is a link that resolves to a directory, and it is followed. */
  ghost predicate LinksToDir(root: Node, path: Path) {
    exists target :: FollowsLink(root, path, target) && At(root, target).Some? && At(root, target).value.Dir?
  }

  /** An entry of the copy named .git is a directory exactly when the source's is a link that resolves to one. */
  lemma GitOnlyThroughLinks(root: Node, mode: nat, dir: Path)
    requires WellFormed(root)
    ensures Expected(root, mode, dir + [GIT]) == Some(DirItem) <==> LinksToDir(root, dir + [GIT])
  {
    var path := dir + [GIT];
    if Reach(root, path).Here? {
      ReachedIsExpected(root, mode, path);
      ArrivalDecides(root, path);
      if At(root, Arrival(root, path)).value.Link? {
        assert FollowsLink(root, path, Reach(root, path).place);
      } else {
        NotSkipped(root, path);
      }
    }
    forall target | FollowsLink(root, path, target)
      ensures Reach(root, path).Here? && Reach(root, path).place == target
    {
      FollowedIsPlace(root, path, target);
    }
  }

  /** A tree with a .git directory and, beside it, a link of another name into it. */
  function LinkedGitTree(): Node {
    Dir([Entry(GIT, Dir([Entry(CONFIG, File([], 0))])), Entry(X, Link(Inside([GIT])))])
  }

  const CONFIG := "config"
  const X := "x"

  lemma LinkedGitTreeNames()
    ensures GIT != X && GIT != CONFIG && X != CONFIG
  {
    assert |GIT| != |X| && |GIT| != |CONFIG| && |X| != |CONFIG|;
  }

  predicate InLinkedGitTree(node: Node) {
    || node == LinkedGitTree() || node == Dir([Entry(CONFIG, File([], 0))])
    || node == Link(Inside([GIT])) || node == File([], 0)
  }

  lemma {:induction false} LinkedGitTreeNodes(path: Path)
    ensures At(LinkedGitTree(), path).Some? ==> InLinkedGitTree(At(LinkedGitTree(), path).value)
    decreases |path|
  {
    if path != [] {
      LinkedGitTreeNodes(path[..|path| - 1]);
    }
  }

  lemma LinkedGitTreeAt()
    ensures At(LinkedGitTree(), [GIT]) == Some(Dir([Entry(CONFIG, File([], 0))]))
    ensures At(LinkedGitTree(), [GIT] + [CONFIG]) == Some(File([], 0))
    ensures At(LinkedGitTree(), [X]) == Some(Link(Inside([GIT])))
  {
    LinkedGitTreeNames();
    var entries := LinkedGitTree().entries;
    assert [GIT] == [] + [GIT] && [X] == [] + [X];
    AtChild(LinkedGitTree(), [], GIT);
    AtChild(LinkedGitTree(), [], X);
    assert entries[1..] == [Entry(X, Link(Inside([GIT])))];
    AtChild(LinkedGitTree(), [GIT], CONFIG);
  }

  lemma LinkedGitTreeSound()
    ensures WellFormed(LinkedGitTree())
  {
    var root := LinkedGitTree();
    LinkedGitTreeNames();
    LinkedGitTreeAt();
    forall path: Path | At(root, path).Some? ensures Sound(root, At(root, path).value) {
      LinkedGitTreeNodes(path);
    }
  }

  lemma LinkedGitTreeEnter()
    ensures Enter(LinkedGitTree(), [X], {}) == Here([GIT], {[GIT]})
  {
    LinkedGitTreeAt();
    assert {} + {[GIT]} == {[GIT]};
  }

  lemma LinkedGitTreeReach()
    ensures Reach(LinkedGitTree(), []) == Here([], {})
    ensures Reach(LinkedGitTree(), [X]) == Here([GIT], {[GIT]})
  {
    var root := LinkedGitTree();
    LinkedGitTreeAt();
    LinkedGitTreeEnter();
    assert Reach(root, []) == Here([], {});
    assert [] + [X] == [X];
    AtChild(root, [], X);
    assert Copyable(root, Reach(root, []), X);
    ReachOfChild(root, [], X);
  }

  /**
   The claim that .git directories are skipped fails: this tree's .git content is copied, with no link named .git
   anywhere.
   */
  lemma GitUnderAnotherName()
    ensures WellFormed(LinkedGitTree()) && GitDir(LinkedGitTree(), [GIT])
    ensures Expected(LinkedGitTree(), 0, [X]) == Some(DirItem)
    ensures Expected(LinkedGitTree(), 0, [X] + [CONFIG]) == Some(FileItem([], DEFAULT_PERM))
  {
    LinkedGitTreeSound();
    LinkedGitTreeAt();
    LinkedGitTreeReach();
    LinkedGitTreeNames();
    ReachOfChild(LinkedGitTree(), [X], CONFIG);
  }
}
