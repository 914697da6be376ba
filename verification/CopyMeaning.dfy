/** What a copy holds and what stops it, said of the source tree's own entries. */
module CopyMeaning {
  import opened Protocol
  import opened CopyTree

  /** Entry j of a directory is the one with this name. */
  predicate Stands(entries: seq<Entry>, name: Name, j: nat) {
    j < |entries| && entries[j].name == name
  }

  lemma ChildStands(entries: seq<Entry>, name: Name) returns (j: nat)
    requires Child(entries, name).Some?
    ensures Stands(entries, name, j) && entries[j].node == Child(entries, name).value
  {
    j :| 0 <= j < |entries| && entries[j] == CopyTree.Entry(name, Child(entries, name).value);
  }

  /** What a node becomes where it is arrived at: a link what it resolves to, anything else itself. */
  function Through(node: Node, place: Path): Option<Path> {
    match node
    case Link(Inside(target)) => Some(target)
    case Link(_) => None
    case _ => Some(place)
  }

  lemma RootArrives(root: Node)
    requires WellFormed(root) && !Reach(root, []).Faulty?
    ensures Reach(root, []).Here? && Through(root, []) == Some(Reach(root, []).place)
  {
    assert At(root, []) == Some(root);
    assert Reach(root, []) == Enter(root, [], {});
  }

  lemma OnlyChild(entries: seq<Entry>, name: Name)
    requires NamesDistinct(entries)
    ensures Child(entries, name).Some? <==> exists j: nat :: Stands(entries, name, j)
    ensures forall j: nat :: Stands(entries, name, j) ==> Child(entries, name) == Some(entries[j].node)
  {
    forall j: nat | Stands(entries, name, j) ensures Child(entries, name) == Some(entries[j].node) {
      ChildOfDistinct(entries, j);
    }
    if Child(entries, name).Some? {
      var j := ChildStands(entries, name);
    }
  }

  lemma EnterArrives(root: Node, place: Path, through: set<Path>)
    requires At(root, place).Some? && !Enter(root, place, through).Faulty?
    ensures Enter(root, place, through).Here?
    ensures Through(At(root, place).value, place) == Some(Enter(root, place, through).place)
  {
  }

  /** From a directory that is reached, a child that is there and is no .git directory is reached. */
  lemma ChildArrives(root: Node, dir: Path, name: Name, child: Option<Node>)
    requires WellFormed(root) && Reach(root, dir).Here?
    requires At(root, Reach(root, dir).place).Some? && At(root, Reach(root, dir).place).value.Dir?
    requires child == Child(At(root, Reach(root, dir).place).value.entries, name)
    requires !Reach(root, dir + [name]).Faulty?
    ensures Reach(root, dir + [name]).Here? <==> child.Some? && !(name == ".git" && child.value.Dir?)
    ensures Reach(root, dir + [name]).Here? ==>
      Through(child.value, Reach(root, dir).place + [name]) == Some(Reach(root, dir + [name]).place)
  {
    var parent := Reach(root, dir);
    AtChild(root, parent.place, name);
    if child.Some? && !(name == ".git" && child.value.Dir?) {
      assert Copyable(root, parent, name);
      ReachOfChild(root, dir, name);
      EnterArrives(root, parent.place + [name], parent.through);
    } else {
      NothingBelow(root, dir, name, dir + [name]);
    }
  }

  /** So exactly the entries of the directory that are no .git directories are reached. */
  lemma EntryArrives(root: Node, dir: Path, entries: seq<Entry>, name: Name)
    requires WellFormed(root) && Reach(root, dir).Here? && At(root, Reach(root, dir).place) == Some(Dir(entries))
    requires !Reach(root, dir + [name]).Faulty?
    ensures Reach(root, dir + [name]).Here? <==>
      exists j: nat :: Stands(entries, name, j) && !(name == ".git" && entries[j].node.Dir?)
    ensures forall j: nat :: Stands(entries, name, j) && Reach(root, dir + [name]).Here? ==>
      Through(entries[j].node, Reach(root, dir).place + [name]) == Some(Reach(root, dir + [name]).place)
  {
    assert Sound(root, At(root, Reach(root, dir).place).value);
    OnlyChild(entries, name);
    ChildArrives(root, dir, name, Child(entries, name));
  }

  /** What stands at a reached place is a file or a directory, and is what the copy must hold there. */
  lemma ReachedIsCopied(root: Node, mode: nat, target: map<Path, Item>, path: Path)
    requires WellFormed(root) && Agrees(root, mode, target, path)
    ensures path in target <==> Reach(root, path).Here?
    ensures path in target ==> At(root, Reach(root, path).place).Some?
    ensures path in target ==> Copies(At(root, Reach(root, path).place).value, mode, target[path])
  {
    if Reach(root, path).Here? {
      ReachedIsExpected(root, mode, path);
      PlaceExists(root, path);
      NotSpecial(root, path);
    }
  }

  /** A copy of this node: a directory for a directory, a file with its bytes and the mode it was asked or has. */
  predicate Copies(node: Node, mode: nat, item: Item) {
    match node
    case Dir(_) => item == DirItem
    case File(data, perm) => item == FileItem(data, if mode != 0 then mode else if perm != 0 then perm else 0x1a4)
    case _ => false
  }

  /** Entry by entry: the child of a copied directory is copied exactly when it is not a real .git directory. */
  ghost predicate ChildCopied(root: Node, target: map<Path, Item>, origin: map<Path, Path>, path: Path, name: Name)
    requires path in origin
  {
    At(root, origin[path]).Some? && At(root, origin[path]).value.Dir? ==>
      var entries := At(root, origin[path]).value.entries;
      && (path + [name] in target <==>
           exists j: nat :: Stands(entries, name, j) && !(name == ".git" && entries[j].node.Dir?))
      && (path + [name] in target && path + [name] in origin ==>
           forall j: nat :: Stands(entries, name, j) ==>
             Through(entries[j].node, origin[path] + [name]) == Some(origin[path + [name]]))
  }

  function PlaceOf(root: Node, path: Path): Path {
    match Reach(root, path)
    case Here(place, _) => place
    case _ => []
  }

  lemma ChildIsCopied(
      root: Node, mode: nat, target: map<Path, Item>, origin: map<Path, Path>, path: Path, name: Name)
    requires WellFormed(root) && Clean(root) && forall p: Path :: Agrees(root, mode, target, p)
    requires origin == map p | p in target :: PlaceOf(root, p)
    requires path in target && Reach(root, path).Here?
    ensures ChildCopied(root, target, origin, path, name)
  {
    assert Faultless(root, path + [name]);
    ReachedIsCopied(root, mode, target, path + [name]);
    var node := At(root, origin[path]);
    if node.Some? && node.value.Dir? {
      EntryArrives(root, path, node.value.entries, name);
    }
  }

  lemma NothingUnderFiles(root: Node, mode: nat, target: map<Path, Item>, path: Path, name: Name)
    requires WellFormed(root) && forall p: Path :: Agrees(root, mode, target, p)
    requires path + [name] in target
    ensures path in target && Reach(root, path).Here?
    ensures At(root, Reach(root, path).place).Some? && At(root, Reach(root, path).place).value.Dir?
  {
    assert (path + [name])[..|path|] == path;
    ReachedIsCopied(root, mode, target, path + [name]);
    ReachedIsCopied(root, mode, target, path);
    assert Reach(root, path + [name]) == Step(root, Reach(root, path), name);
  }

  /**
   A finished copy, entry by entry. Origin says for each path of the copy which place of the source it is a copy of:
   the root is copied, every entry of a copied directory but a real .git directory, and nothing else; a file with its
   own bytes, a directory as a directory, and a link as what it resolves to.
   */
  lemma CopyInFull(root: Node, mode: nat, target: map<Path, Item>) returns (origin: map<Path, Path>)
    requires WellFormed(root) && Clean(root) && forall p: Path :: Agrees(root, mode, target, p)
    ensures origin.Keys == target.Keys && [] in target && Through(root, []) == Some(origin[[]])
    ensures forall path :: path in target ==>
      At(root, origin[path]).Some? && Copies(At(root, origin[path]).value, mode, target[path])
    ensures forall path, name :: path in target ==> ChildCopied(root, target, origin, path, name)
    ensures forall path: Path, name: Name :: path + [name] in target ==>
      path in target && At(root, origin[path]).value.Dir?
  {
    forall p: Path ensures p in target <==> Reach(root, p).Here? {
      ReachedIsCopied(root, mode, target, p);
    }
    origin := map p | p in target :: PlaceOf(root, p);
    assert Faultless(root, []);
    RootArrives(root);
    forall path | path in target
      ensures At(root, origin[path]).Some? && Copies(At(root, origin[path]).value, mode, target[path])
    {
      ReachedIsCopied(root, mode, target, path);
    }
    forall path, name | path in target ensures ChildCopied(root, target, origin, path, name) {
      ChildIsCopied(root, mode, target, origin, path, name);
    }
    forall path: Path, name: Name | path + [name] in target
      ensures path in target && At(root, origin[path]).value.Dir?
    {
      NothingUnderFiles(root, mode, target, path, name);
    }
  }

  /** What stops a copy at a node. */
  predicate Stops(root: Node, node: Node, error: Error) {
    match error
    case LeavesTree => node == Link(Outside)
    case CannotResolve => node == Link(Broken)
    case LinkCycle => node.Link? && node.target.Inside?
    case NotRegular =>
      node == Special || (node.Link? && node.target.Inside? && At(root, node.target.path) == Some(Special))
  }

  lemma ArrivalStops(root: Node, place: Path, through: set<Path>)
    requires Enter(root, place, through).Faulty?
    ensures At(root, place).Some? && Stops(root, At(root, place).value, Enter(root, place, through).error)
  {
  }

  /**
   A fault that is reported stands in the source: at the root, or at an entry of a directory that is reached. It is a
   link out of the tree, a link that resolves to nothing, something that is neither file nor directory, or a link that
   leads back.
   */
  lemma FaultInFull(root: Node, path: Path)
    requires WellFormed(root) && Reach(root, path).Faulty?
    ensures path == [] ==> Stops(root, root, Reach(root, path).error)
    ensures path != [] ==>
      var (dir, name) := (path[..|path| - 1], path[|path| - 1]);
      && Reach(root, dir).Here? && At(root, Reach(root, dir).place).Some?
      && At(root, Reach(root, dir).place).value.Dir?
      && var entries := At(root, Reach(root, dir).place).value.entries;
         exists j: nat :: Stands(entries, name, j) && Stops(root, entries[j].node, Reach(root, path).error)
  {
    if path == [] {
      assert At(root, []) == Some(root);
    } else {
      var dir, name := path[..|path| - 1], path[|path| - 1];
      var parent := Reach(root, dir);
      assert Reach(root, path) == Step(root, parent, name);
      ArrivalStops(root, parent.place + [name], parent.through);
      AtChild(root, parent.place, name);
      var j := ChildStands(At(root, parent.place).value.entries, name);
    }
  }

  /** And a cycle is one: the link at the end leads to where the path was after fewer names. */
  lemma CycleInFull(root: Node, path: Path) returns (i: nat)
    requires Reach(root, path) == Faulty(LinkCycle)
    ensures i < |path| && Reach(root, path[..i]).Here? && Reach(root, path[..|path| - 1]).Here?
    ensures At(root, Reach(root, path[..|path| - 1]).place + [path[|path| - 1]])
      == Some(Link(Inside(Reach(root, path[..i]).place)))
  {
    var dir, name := path[..|path| - 1], path[|path| - 1];
    var target := CycleTarget(root, Reach(root, dir), name);
    i := ThroughWasReached(root, dir, target);
    assert dir[..i] == path[..i];
  }
}
