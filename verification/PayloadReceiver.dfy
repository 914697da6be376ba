/** Extraction of a tar payload into an empty staging directory. */
module PayloadReceiver {
  import opened Protocol
  import opened ArchiveNames

  datatype Kind = Regular | Directory | Symlink | HardLink | Device | Fifo | Irregular

  /** A header as the tar reader delivers it; `complete` says whether the body holds the declared bytes. */
  datatype Entry = Entry(rawName: string, kind: Kind, mode: bv64, size: int, complete: bool)

  datatype Node = Folder | File(size: int, mode: bv64)

  datatype Failure =
    | TooManyEntries | BadName | RootEntry | SpecialMode | NegativeSize | TooLarge
    | NameConflict | Unsupported | Truncated | Filesystem

  datatype Result = Accepted(files: nat, bytes: int) | Rejected(failure: Failure)

  const DEFAULT_MAX_BYTES := 64 * 1024 * 1024
  const DEFAULT_MAX_FILES := 1024
  const DIR_PERM: bv64 := 0x1ED // octal 0755

  // ---------------------------------------------------------------- names

  function FirstSlash(s: string): (i: nat)
    ensures i <= |s|
    ensures i < |s| ==> s[i] == '/'
    ensures forall k :: 0 <= k < i ==> s[k] != '/'
  {
    if s == "" || s[0] == '/' then 0 else 1 + FirstSlash(s[1..])
  }

  /** strings.Split on the slash. */
  function Elements(s: string): seq<string>
    decreases |s|
  {
    var i := FirstSlash(s);
    if i == |s| then [s] else [s[..i]] + Elements(s[i + 1..])
  }

  predicate PlainElement(e: string) {
    e != "" && e != "." && FirstSlash(e) == |e|
  }

  /** The elements path.Clean keeps when there is no "..": neither empty nor a dot. */
  function Kept(elements: seq<string>): (r: seq<string>)
    decreases |elements|
  {
    if elements == [] then []
    else if elements[0] == "" || elements[0] == "." then Kept(elements[1..])
    else [elements[0]] + Kept(elements[1..])
  }

  function Join(elements: seq<string>): string
    requires elements != []
    decreases |elements|
  {
    if |elements| == 1 then elements[0] else elements[0] + "/" + Join(elements[1..])
  }

  /** cleanEntryName: "." stands for the payload root. */
  function CleanEntryName(raw: string): Option<string> {
    if raw == "" || '\0' in raw || raw[0] == '/' || ".." in Elements(raw) then None
    else
      var kept := Kept(Elements(raw));
      Some(if kept == [] then "." else Join(kept))
  }

  lemma {:induction false} KeptArePlain(s: string)
    ensures forall i :: 0 <= i < |Kept(Elements(s))| ==> PlainElement(Kept(Elements(s))[i])
    decreases |s|
  {
    var i := FirstSlash(s);
    if i == |s| {
      assert Elements(s)[1..] == [];
    } else {
      NoSlashBefore(s, i);
      KeptArePlain(s[i + 1..]);
      assert Elements(s)[1..] == Elements(s[i + 1..]);
    }
  }

  lemma {:induction false} NoSlashBefore(s: string, n: nat)
    requires n <= FirstSlash(s)
    ensures FirstSlash(s[..n]) == n
  {
    if n > 0 {
      NoSlashBefore(s[1..], n - 1);
      assert s[..n][1..] == s[1..][..n - 1];
    }
  }

  lemma {:induction false} JoinIsClean(elements: seq<string>)
    requires elements != [] && forall i :: 0 <= i < |elements| ==> PlainElement(elements[i])
    ensures Clean(Join(elements))
    decreases |elements|
  {
    var first := elements[0];
    assert forall i :: 0 <= i < |first| ==> first[i] != '/';
    assert |first| >= 2 ==> first[1] != '/';
    if |elements| > 1 {
      var rest := Join(elements[1..]);
      JoinIsClean(elements[1..]);
      var whole := Join(elements);
      assert whole == first + "/" + rest;
      forall i | 0 <= i < |whole| - 1 ensures !(whole[i] == '/' && whole[i + 1] == '/') {
        if i > |first| {
          assert whole[i] == rest[i - |first| - 1] && whole[i + 1] == rest[i - |first|];
        }
      }
      assert whole[0] == first[0] && (if |first| == 1 then first[0] != '.' else whole[1] == first[1]) by {
        assert |first| == 1 ==> first == [first[0]];
      }
    }
  }

  /** Every name that passes is the payload root or a clean relative path. */
  lemma CleanedIsClean(raw: string)
    requires CleanEntryName(raw).Some?
    ensures CleanEntryName(raw).value == "." || Clean(CleanEntryName(raw).value)
  {
    KeptArePlain(raw);
    if Kept(Elements(raw)) != [] {
      JoinIsClean(Kept(Elements(raw)));
    }
  }

  // ---------------------------------------------------------------- what a payload declares

  const SPECIAL_BITS: bv64 := 0xE00

  /** maskMode: keep read for all and execute where asked, never group or other write, never a special bit. */
  function MaskMode(mode: bv64): (r: bv64)
    ensures r & 0xE12 == 0 && r & mode == r && r <= 0x1FF
    ensures r & 0x1A4 == mode & 0x1A4 && r & 0x49 == mode & 0x49
  {
    if mode & 0x49 == 0 then mode & 0x1A4 else mode & 0x1ED
  }

  /** An entry under its cleaned name; "." is the payload root. */
  datatype Item = Item(name: string, kind: Kind, mode: bv64, size: int, complete: bool)

  predicate Named(e: Item) {
    e.name != "."
  }

  predicate Cleanable(entries: seq<Entry>) {
    forall i :: 0 <= i < |entries| ==> CleanEntryName(entries[i].rawName).Some?
  }

  function ItemOf(e: Entry): Item
    requires CleanEntryName(e.rawName).Some?
  {
    Item(CleanEntryName(e.rawName).value, e.kind, e.mode, e.size, e.complete)
  }

  function Items(entries: seq<Entry>): seq<Item>
    requires Cleanable(entries)
  {
    seq(|entries|, i requires 0 <= i < |entries| => ItemOf(entries[i]))
  }

  predicate WellFormed(e: Item, limit: int) {
    if !Named(e) then e.kind.Directory?
    else
      && e.mode & SPECIAL_BITS == 0
      && (e.kind.Directory? || (e.kind.Regular? && 0 <= e.size <= limit && e.complete))
  }

  /** What an entry adds to the declared bytes. */
  function Bytes(e: Item): int {
    if Named(e) && e.kind.Regular? then e.size else 0
  }

  function Declared(items: seq<Item>): int {
    if items == [] then 0 else Declared(items[..|items| - 1]) + Bytes(items[|items| - 1])
  }

  predicate Fine(items: seq<Item>, limit: int, i: nat)
    requires i < |items|
  {
    WellFormed(items[i], limit)
  }

  ghost predicate AllFine(items: seq<Item>, limit: int) {
    forall i: nat :: i < |items| ==> Fine(items, limit, i)
  }

  /** Two items cannot live in one tree: the same name, or a file with something beneath it. */
  predicate Conflict(a: Item, b: Item) {
    && Named(a) && Named(b)
    && (|| a.name == b.name
        || (!a.kind.Directory? && Above(a.name, b.name))
        || (!b.kind.Directory? && Above(b.name, a.name)))
  }

  predicate Clash(items: seq<Item>, i: nat, j: nat)
    requires i < |items| && j < |items|
  {
    Conflict(items[i], items[j])
  }

  ghost predicate Conflictless(items: seq<Item>) {
    forall i: nat, j: nat :: i < j < |items| ==> !Clash(items, i, j)
  }

  /** What an archive must be to be extracted, in any order of its entries. */
  ghost predicate Extractable(items: seq<Item>, limit: int, maxFiles: int) {
    && |items| <= maxFiles && AllFine(items, limit) && Declared(items) <= limit && Conflictless(items)
  }

  ghost predicate Acceptable(entries: seq<Entry>, limit: int, maxFiles: int) {
    Cleanable(entries) && Extractable(Items(entries), limit, maxFiles)
  }

  /** What an entry is blamed for, after the ones before it. */
  ghost predicate Blamed(failure: Failure, items: seq<Item>, e: Item, limit: int) {
    match failure
    case RootEntry => e.name == "." && !e.kind.Directory?
    case SpecialMode => e.name != "." && e.mode & 0xE00 != 0
    case Unsupported => e.name != "." && !e.kind.Regular? && !e.kind.Directory?
    case NegativeSize => e.name != "." && e.kind.Regular? && e.size < 0
    case TooLarge => e.name != "." && e.kind.Regular? && (e.size > limit || Declared(items) + e.size > limit)
    case NameConflict => e.name != "." && !Conflictless(items + [e])
    case Truncated => e.name != "." && e.kind.Regular? && !e.complete
    case _ => false
  }

  /** The entries before k make an acceptable archive, and entry k spoils it for the reason given. */
  ghost predicate SpoiledAt(entries: seq<Entry>, k: nat, limit: int, most: int, failure: Failure) {
    && k < |entries| && Acceptable(entries[..k], limit, most)
    && match failure
       case TooManyEntries => k + 1 > most
       case BadName => CleanEntryName(entries[k].rawName).None?
       case _ =>
         && CleanEntryName(entries[k].rawName).Some?
         && Blamed(failure, Items(entries[..k]), ItemOf(entries[k]), limit)
  }

  ghost predicate Spoiled(entries: seq<Entry>, limit: int, most: int, failure: Failure) {
    exists k: nat :: SpoiledAt(entries, k, limit, most, failure)
  }

  predicate Needs(items: seq<Item>, i: nat, p: string) {
    i < |items| && Named(items[i]) && (items[i].name == p || Above(p, items[i].name))
  }

  /** A path the payload cannot do without: declared, or a directory above something declared. */
  ghost predicate Needed(items: seq<Item>, p: string) {
    exists i: nat :: Needs(items, i, p)
  }

  function NodeOf(e: Item): Node {
    if e.kind.Directory? then Folder else File(e.size, MaskMode(e.mode))
  }

  /** Item i stands in the tree as declared. */
  predicate Placed(items: seq<Item>, tree: map<string, Node>, i: nat)
    requires i < |items|
  {
    Named(items[i]) ==> items[i].name in tree && tree[items[i].name] == NodeOf(items[i])
  }

  /** A path above item i is a directory. */
  predicate Enclosed(items: seq<Item>, tree: map<string, Node>, i: nat, p: string)
    requires i < |items|
  {
    Named(items[i]) && p != "" && Above(p, items[i].name) ==> p in tree && tree[p] == Folder
  }

  /** The tree is exactly the declared files, the declared directories and all directories above them. */
  ghost predicate Builds(items: seq<Item>, tree: map<string, Node>) {
    && (forall p :: p in tree ==> Needed(items, p))
    && (forall i: nat :: i < |items| ==> Placed(items, tree, i))
    && (forall i: nat, p :: i < |items| ==> Enclosed(items, tree, i, p))
  }

  predicate Names(items: seq<Item>, i: nat, n: string) {
    i < |items| && Named(items[i]) && items[i].name == n
  }

  ghost predicate Recorded(items: seq<Item>, n: string) {
    exists i: nat :: Names(items, i, n)
  }

  predicate Noted(items: seq<Item>, dirs: map<string, bool>, i: nat)
    requires i < |items|
  {
    Named(items[i]) ==> items[i].name in dirs && dirs[items[i].name] == items[i].kind.Directory?
  }

  /** What the path tree holds after these items. */
  ghost predicate Records(items: seq<Item>, dirs: map<string, bool>) {
    && (forall i: nat :: i < |items| ==> Noted(items, dirs, i))
    && (forall n :: n in dirs ==> Recorded(items, n))
  }

  lemma FreeMeansConflictless(items: seq<Item>, dirs: map<string, bool>, e: Item)
    requires Records(items, dirs) && Named(e) && Conflictless(items)
    ensures Free(dirs, e.name, e.kind.Directory?) <==> Conflictless(items + [e])
  {
    var all := items + [e];
    if Conflictless(all) {
      forall n | n in dirs
        ensures n != e.name && (Above(n, e.name) ==> dirs[n]) && (!e.kind.Directory? ==> !Above(e.name, n))
      {
        assert Recorded(items, n);
        var i: nat :| Names(items, i, n);
        assert Noted(items, dirs, i) && !Clash(all, i, |items|);
      }
    }
    if Free(dirs, e.name, e.kind.Directory?) {
      forall i: nat, j: nat | i < j < |all| ensures !Clash(all, i, j) {
        if j < |items| {
          assert !Clash(items, i, j);
        } else {
          assert Noted(items, dirs, i);
        }
      }
    }
  }

  // ---------------------------------------------------------------- extraction

  /** The directories a name needs: every prefix that ends before a slash, and the name itself. */
  ghost predicate Prefix(p: string, name: string) {
    p != "" && (p == name || Above(p, name))
  }

  ghost predicate NoFileOn(tree: map<string, Node>, name: string) {
    forall p :: p in tree && Prefix(p, name) ==> tree[p].Folder?
  }

  /** The old tree with a directory at every prefix of a name. */
  ghost predicate GainsDirs(before: map<string, Node>, after: map<string, Node>, name: string) {
    && (forall p :: p in after <==> p in before || Prefix(p, name))
    && (forall p :: p in before ==> after[p] == before[p])
    && (forall p :: Prefix(p, name) ==> p in after && after[p].Folder?)
  }

  /** The staging directory behind os.Root. */
  class Staging {
    var tree: map<string, Node>

    constructor ()
      ensures tree == map[]
    {
      tree := map[];
    }

    predicate ParentUsable(name: string)
      reads this
    {
      Dir(name) == "." || (Dir(name) in tree && tree[Dir(name)].Folder?)
    }

    /**
     Mkdir and Chmod. An existing path, directory or not, is not an error to the caller, so a file there would lose
     its mode.
     */
    method Mkdir(name: string) returns (ok: bool)
      modifies this
      ensures ok <==> name in old(tree) || old(ParentUsable(name))
      ensures tree ==
        if !ok then old(tree)
        else if name in old(tree) && old(tree)[name].File?
        then old(tree)[name := File(old(tree)[name].size, DIR_PERM)]
        else old(tree)[name := Folder]
    {
      ok := name in tree || ParentUsable(name);
      if ok && name !in tree {
        tree := tree[name := Folder];
      }
      if ok && tree[name].File? {
        tree := tree[name := File(tree[name].size, DIR_PERM)];
      }
    }

    /** OpenFile with O_CREATE and O_EXCL, then the body and the mode. */
    method WriteFile(name: string, e: Item) returns (ok: bool)
      modifies this
      ensures ok <==> name !in old(tree) && old(ParentUsable(name))
      ensures tree == if ok then old(tree)[name := File(e.size, MaskMode(e.mode))] else old(tree)
    {
      ok := name !in tree && ParentUsable(name);
      if ok {
        tree := tree[name := File(e.size, MaskMode(e.mode))];
      }
    }

    /** ensureDirs: walk the elements of a name, making a directory of each prefix. */
    method EnsureDirs(name: string) returns (ok: bool)
      requires name == "." || Clean(name)
      modifies this
      ensures old(NoFileOn(tree, name)) || name == "." ==> ok
      ensures name == "." ==> tree == old(tree)
      ensures old(NoFileOn(tree, name)) && name != "." ==> GainsDirs(old(tree), tree, name)
    {
      if name == "." {
        return true;
      }
      var at := 0;
      while at < |name|
        invariant 0 <= at <= |name| + 1
        invariant at == 0 || at == |name| + 1 || name[at - 1] == '/'
        invariant old(NoFileOn(tree, name)) ==> GainsUpTo(old(tree), tree, name, Covered(at))
      {
        var next := at + FirstSlash(name[at..]);
        FirstSlashEnds(name, at);
        ghost var before := tree;
        if old(NoFileOn(tree, name)) {
          ParentReady(old(tree), tree, name, at, next);
        }
        var done := Mkdir(name[..next]);
        if !done {
          return false;
        }
        if old(NoFileOn(tree, name)) {
          GainsNext(old(tree), before, tree, name, at, next);
        }
        at := next + 1;
      }
      if old(NoFileOn(tree, name)) {
        GainsAll(old(tree), tree, name);
      }
      return true;
    }
  }

  /** How much of a name is dealt with once its next element starts here. */
  function Covered(at: nat): nat {
    if at == 0 then 0 else at - 1
  }

  /** The old tree with a directory at every prefix of a name up to a length. */
  ghost predicate GainsUpTo(before: map<string, Node>, after: map<string, Node>, name: string, length: nat) {
    && (forall p :: p in after <==> p in before || (Prefix(p, name) && |p| <= length))
    && (forall p :: p in before ==> after[p] == before[p])
    && (forall p :: Prefix(p, name) && |p| <= length ==> p in after && after[p].Folder?)
  }

  lemma ParentReady(first: map<string, Node>, tree: map<string, Node>, name: string, at: nat, next: nat)
    requires NextElement(name, at, next) && GainsUpTo(first, tree, name, Covered(at))
    ensures var parent := Dir(name[..next]); parent == "." || (parent in tree && tree[parent].Folder?)
  {
    DirOfPrefix(name, at, next);
    NextPrefix(name, at, next);
  }

  lemma GainsNext(
      first: map<string, Node>, before: map<string, Node>, after: map<string, Node>, name: string, at: nat, next: nat)
    requires NextElement(name, at, next) && NoFileOn(first, name)
    requires GainsUpTo(first, before, name, Covered(at))
    requires after == before[name[..next] := if name[..next] in before && before[name[..next]].File?
      then File(before[name[..next]].size, DIR_PERM) else Folder]
    ensures GainsUpTo(first, after, name, next)
  {
    NextPrefix(name, at, next);
    assert name[..next] in before ==> name[..next] in first;
  }

  lemma GainsAll(before: map<string, Node>, after: map<string, Node>, name: string)
    requires GainsUpTo(before, after, name, |name|)
    ensures GainsDirs(before, after, name)
  {
    forall p | Prefix(p, name) ensures |p| <= |name| {
      PrefixEndsAtSlash(name, p);
    }
  }

  /** The next element of a clean name starts at `at` and ends before `next`. */
  ghost predicate NextElement(name: string, at: nat, next: nat) {
    && at < next <= |name|
    && (at == 0 || (at > 1 && name[at - 1] == '/'))
    && (next == |name| || name[next] == '/')
    && forall k :: at <= k < next ==> name[k] != '/'
  }

  lemma FirstSlashEnds(name: string, at: nat)
    requires Clean(name) && at < |name| && (at == 0 || name[at - 1] == '/')
    ensures NextElement(name, at, at + FirstSlash(name[at..]))
  {
    var rest := name[at..];
    assert name[at] != '/';
    assert rest[0] == name[at];
    forall k | at <= k < at + FirstSlash(rest) ensures name[k] != '/' {
      assert name[k] == rest[k - at];
    }
  }

  lemma DirOfPrefix(name: string, at: nat, next: nat)
    requires NextElement(name, at, next)
    ensures Dir(name[..next]) == if at == 0 then "." else name[..at - 1]
  {
    var p := name[..next];
    assert at > 0 ==> p[at - 1] == '/';
    assert LastSlash(p) == at - 1;
    if at > 0 {
      assert p[..at - 1] == name[..at - 1];
    }
  }

  /** Between two neighbouring slashes there is exactly one more directory, and its parent is the one before. */
  lemma NextPrefix(name: string, at: nat, next: nat)
    requires NextElement(name, at, next)
    ensures Prefix(name[..next], name)
    ensures at > 0 ==> Prefix(name[..at - 1], name)
    ensures forall p :: Prefix(p, name) && |p| <= next ==> p == name[..next] || (at > 0 && |p| <= at - 1)
  {
    SlashMakesPrefix(name, next);
    if at > 0 {
      SlashMakesPrefix(name, at - 1);
    }
    forall p | Prefix(p, name) && |p| <= next ensures p == name[..next] || (at > 0 && |p| <= at - 1) {
      PrefixEndsAtSlash(name, p);
    }
  }

  lemma SlashMakesPrefix(name: string, i: nat)
    requires 0 < i <= |name| && (i == |name| || name[i] == '/')
    ensures Prefix(name[..i], name)
  {
    if i < |name| {
      assert name[..i] + "/" == name[..i + 1];
    } else {
      assert name[..i] == name;
    }
  }

  lemma PrefixEndsAtSlash(name: string, p: string)
    requires Prefix(p, name)
    ensures 0 < |p| <= |name| && p == name[..|p|] && (|p| == |name| || name[|p|] == '/')
  {
    if p != name {
      assert (p + "/")[|p|] == '/';
    }
  }

  // ---------------------------------------------------------------- the archive loop

  lemma NeededGrows(items: seq<Item>, e: Item, p: string)
    requires Needed(items, p) || (Named(e) && (e.name == p || Above(p, e.name)))
    ensures Needed(items + [e], p)
  {
    var all := items + [e];
    if Needed(items, p) {
      var i: nat :| Needs(items, i, p);
      assert Needs(all, i, p);
    } else {
      assert Needs(all, |items|, p);
    }
  }

  /**
   Everything a new entry needs a directory at is free of files, and a new file's own path is free, because the path
   tree let the name in.
   */
  lemma FreeMeansNoFile(items: seq<Item>, tree: map<string, Node>, dirs: map<string, bool>, e: Item)
    requires Builds(items, tree) && Records(items, dirs) && Named(e)
    requires Free(dirs, e.name, e.kind.Directory?)
    ensures forall p :: p in tree && Prefix(p, e.name) && (p != e.name || e.kind.Directory?) ==> tree[p].Folder?
    ensures !e.kind.Directory? ==> e.name !in tree
  {
    forall p | p in tree && Prefix(p, e.name) && (p != e.name || e.kind.Directory?) ensures tree[p].Folder? {
      assert Needed(items, p);
      var i: nat :| Needs(items, i, p);
      assert Noted(items, dirs, i) && Placed(items, tree, i) && Enclosed(items, tree, i, p);
    }
    if !e.kind.Directory? {
      forall i: nat ensures !Needs(items, i, e.name) {
        if i < |items| {
          assert Noted(items, dirs, i);
        }
      }
      assert !Needed(items, e.name);
    }
  }

  lemma DirectoryExtends(items: seq<Item>, before: map<string, Node>, after: map<string, Node>, e: Item)
    requires Builds(items, before) && Named(e) && Clean(e.name) && e.kind.Directory?
    requires GainsDirs(before, after, e.name)
    ensures Builds(items + [e], after)
  {
    var all := items + [e];
    assert Prefix(e.name, e.name);
    forall p | p in after ensures Needed(all, p) {
      NeededGrows(items, e, p);
    }
    forall i: nat | i < |all| ensures Placed(all, after, i) {
      assert i < |items| ==> Placed(items, before, i);
    }
    forall i: nat, p | i < |all| ensures Enclosed(all, after, i, p) {
      if i < |items| {
        assert Enclosed(items, before, i, p);
      } else {
        assert p != "" && Above(p, e.name) ==> Prefix(p, e.name);
      }
    }
  }

  lemma FileExtends(items: seq<Item>, before: map<string, Node>, middle: map<string, Node>, e: Item)
    requires Builds(items, before) && Named(e) && Clean(e.name) && !e.kind.Directory?
    requires if Dir(e.name) == "." then middle == before else GainsDirs(before, middle, Dir(e.name))
    requires e.name !in before
    ensures e.name !in middle
    ensures Dir(e.name) == "." || (Dir(e.name) in middle && middle[Dir(e.name)].Folder?)
    ensures Builds(items + [e], middle[e.name := File(e.size, MaskMode(e.mode))])
  {
    var all, parent := items + [e], Dir(e.name);
    var after := middle[e.name := File(e.size, MaskMode(e.mode))];
    ParentPrefixes(e.name);
    if parent != "." {
      assert Prefix(parent, parent);
    }
    assert !Prefix(e.name, parent) by {
      if Prefix(e.name, parent) && parent != "." {
        AboveIsShorter(e.name, e.name);
      } else if Prefix(e.name, parent) {
        DotIsNoPrefix(e.name);
      }
    }
    forall p | p in after ensures Needed(all, p) {
      NeededGrows(items, e, p);
    }
    forall i: nat | i < |all| ensures Placed(all, after, i) {
      if i < |items| {
        assert Placed(items, before, i);
        if Named(items[i]) {
          FileIsNeverAbove(items, before, e.name, i);
        }
      }
    }
    forall i: nat, p | i < |all| ensures Enclosed(all, after, i, p) {
      if i < |items| {
        assert Enclosed(items, before, i, p);
        if Named(items[i]) {
          FileIsNeverAbove(items, before, e.name, i);
        }
      } else if p != "" && Above(p, e.name) {
        AboveIsShorter(p, e.name);
        assert Prefix(p, parent);
      }
    }
  }

  lemma DotIsNoPrefix(name: string)
    requires Clean(name)
    ensures !Prefix(name, ".")
  {
  }

  lemma FileIsNeverAbove(items: seq<Item>, before: map<string, Node>, name: string, i: nat)
    requires Builds(items, before) && name !in before && name != "" && i < |items| && Named(items[i])
    ensures items[i].name != name && !Above(name, items[i].name)
  {
    assert Placed(items, before, i) && Enclosed(items, before, i, name);
  }

  lemma AboveIsShorter(p: string, name: string)
    requires Above(p, name)
    ensures p != name
  {
    assert |p + "/"| <= |name|;
  }

  /** The directories above a name are exactly the prefixes of its path.Dir. */
  lemma ParentPrefixes(name: string)
    requires Clean(name)
    ensures Dir(name) == "." ==> forall p :: p != "" ==> !Above(p, name)
    ensures Dir(name) != "." ==> Clean(Dir(name)) && forall p :: Prefix(p, Dir(name)) <==> p != "" && Above(p, name)
  {
    forall p | p != "" && Above(p, name) ensures Dir(name) != "." && Prefix(p, Dir(name)) {
      AboveIsShorter(p, name);
      DirIsNearest(name, name, p);
      DirIsAbove(name, name);
      NestedPrefix(p, Dir(name), name);
    }
    if Dir(name) != "." {
      DirIsAbove(name, name);
      CleanParent(name);
      forall p | Prefix(p, Dir(name)) ensures Above(p, name) {
        if p != Dir(name) {
          assert p + "/" <= Dir(name) <= name;
        }
      }
    }
  }

  lemma NestedPrefix(p: string, q: string, name: string)
    requires p != "" && Above(p, name) && Above(q, name) && |p| <= |q|
    ensures Prefix(p, q)
  {
    assert p == name[..|p|] && q == name[..|q|];
    if |p| < |q| {
      assert p + "/" == name[..|p| + 1] == q[..|p| + 1];
    }
  }

  lemma CleanParent(name: string)
    requires Clean(name) && Dir(name) != "." && Above(Dir(name), name)
    ensures Clean(Dir(name))
  {
    var d := Dir(name);
    assert (d + "/")[|d|] == '/' == name[|d|];
    assert d == name[..|d|];
    assert forall i :: 0 <= i < |d| ==> d[i] == name[i];
  }

  lemma {:induction false} DeclaredGrows(items: seq<Item>, limit: int, k: nat)
    requires k <= |items| && AllFine(items, limit)
    ensures Declared(items[..k]) <= Declared(items)
    decreases |items| - k
  {
    if k < |items| {
      assert Fine(items, limit, k);
      DeclaredGrows(items, limit, k + 1);
      assert items[..k + 1][..k] == items[..k];
    } else {
      assert items[..k] == items;
    }
  }

  /** What an entry adds to the number of files. */
  function Counted(e: Item): nat {
    if Named(e) && e.kind.Regular? then 1 else 0
  }

  function FileCount(items: seq<Item>): nat {
    if items == [] then 0 else FileCount(items[..|items| - 1]) + Counted(items[|items| - 1])
  }

  /**
   The entry loop of receiver.tar. It accepts exactly the acceptable archives and then the staging directory holds
   exactly the declared tree; no filesystem call fails on the way, so no file is opened over an existing path and no
   Mkdir finds a file.
   */
  method Extract(entries: seq<Entry>, maxBytes: int, maxFiles: int, root: Staging) returns (r: Result)
    requires root.tree == map[]
    modifies root
    ensures var limit := if maxBytes <= 0 then DEFAULT_MAX_BYTES else maxBytes;
      var most := if maxFiles <= 0 then DEFAULT_MAX_FILES else maxFiles;
      && (r.Accepted? <==> Acceptable(entries, limit, most))
      && (r.Accepted? ==>
           && Builds(Items(entries), root.tree)
           && r.bytes == Declared(Items(entries)) <= limit
           && r.files == FileCount(Items(entries)))
      && (r.Rejected? ==> Spoiled(entries, limit, most, r.failure))
    ensures r != Rejected(Filesystem)
  {
    var limit := if maxBytes <= 0 then DEFAULT_MAX_BYTES else maxBytes;
    var most := if maxFiles <= 0 then DEFAULT_MAX_FILES else maxFiles;
    r := ExtractEntries(entries, limit, most, root);
  }

  /** Entry after entry, until one is refused. */
  method ExtractEntries(entries: seq<Entry>, limit: int, most: int, root: Staging) returns (r: Result)
    requires root.tree == map[] && limit > 0 && most > 0
    modifies root
    ensures r.Accepted? <==> Acceptable(entries, limit, most)
    ensures r.Accepted? ==>
      && Builds(Items(entries), root.tree)
      && r.bytes == Declared(Items(entries)) <= limit && r.files == FileCount(Items(entries))
    ensures r.Rejected? ==> Spoiled(entries, limit, most, r.failure)
    ensures r != Rejected(Filesystem)
  {
    var index := new PathTree();
    var declared, files, k := 0, 0, 0;
    NothingExtracted(entries, limit);
    while k < |entries|
      invariant 0 <= k <= |entries| && k <= most
      invariant index.Valid() && fresh(index)
      invariant ExtractedUpTo(entries, k, limit, index.dirs, root.tree, declared, files)
      decreases |entries| - k
    {
      if k + 1 > most {
        TooMany(entries, limit, most);
        SoFarAcceptable(entries, k, limit, most, index.dirs, root.tree, declared, files);
        assert SpoiledAt(entries, k, limit, most, TooManyEntries);
        return Rejected(TooManyEntries);
      }
      var failure;
      failure, declared, files := ExtractOne(entries, k, limit, most, declared, files, index, root);
      if failure.Some? {
        return Rejected(failure.value);
      }
      k := k + 1;
    }
    AllExtracted(entries, limit, most, index.dirs, root.tree, declared, files);
    return Accepted(files, declared);
  }

  /** The bookkeeping after the first entries of an archive. */
  ghost predicate ExtractedUpTo(
      entries: seq<Entry>, k: nat, limit: int, dirs: map<string, bool>, tree: map<string, Node>, declared: int,
      files: int)
    requires k <= |entries|
  {
    exists items: seq<Item> ::
      && ItemsUpTo(entries, k, items) && Extracted(items, limit, dirs, tree)
      && declared == Declared(items) && files == FileCount(items)
  }

  predicate ItemsUpTo(entries: seq<Entry>, k: nat, items: seq<Item>)
    requires k <= |entries|
  {
    Cleanable(entries[..k]) && items == Items(entries[..k])
  }

  lemma NothingExtracted(entries: seq<Entry>, limit: int)
    requires limit > 0
    ensures ExtractedUpTo(entries, 0, limit, map[], map[], 0, 0)
  {
    assert ItemsUpTo(entries, 0, []);
    assert Extracted([], limit, map[], map[]);
  }

  lemma AllExtracted(
      entries: seq<Entry>, limit: int, most: int, dirs: map<string, bool>, tree: map<string, Node>, declared: int,
      files: int)
    requires |entries| <= most && ExtractedUpTo(entries, |entries|, limit, dirs, tree, declared, files)
    ensures Acceptable(entries, limit, most)
    ensures Builds(Items(entries), tree) && declared == Declared(Items(entries)) <= limit
      && files == FileCount(Items(entries))
  {
    assert entries[..|entries|] == entries;
  }

  lemma SoFarAcceptable(
      entries: seq<Entry>, k: nat, limit: int, most: int, dirs: map<string, bool>, tree: map<string, Node>,
      declared: int, files: int)
    requires k <= |entries| && k <= most && ExtractedUpTo(entries, k, limit, dirs, tree, declared, files)
    ensures Acceptable(entries[..k], limit, most)
  {
  }

  /** The next entry: its name is cleaned first, then it is added or refused; a refusal condemns the whole archive. */
  method ExtractOne(
      entries: seq<Entry>, k: nat, limit: int, most: int, declared: int, files: int, index: PathTree, root: Staging)
    returns (failure: Option<Failure>, total: int, count: int)
    requires k < |entries| && k <= most && index.Valid()
    requires ExtractedUpTo(entries, k, limit, index.dirs, root.tree, declared, files)
    modifies index, root
    ensures index.Valid()
    ensures failure.None? ==> ExtractedUpTo(entries, k + 1, limit, index.dirs, root.tree, total, count)
    ensures failure.Some? ==> !Acceptable(entries, limit, most) && SpoiledAt(entries, k, limit, most, failure.value)
    ensures failure != Some(Filesystem)
  {
    var e := entries[k];
    total, count := declared, files;
    SoFarAcceptable(entries, k, limit, most, index.dirs, root.tree, declared, files);
    if CleanEntryName(e.rawName).None? {
      return Some(BadName), total, count;
    }
    CleanedIsClean(e.rawName);
    var item := ItemOf(e);
    ghost var items :| ItemsUpTo(entries, k, items) && Extracted(items, limit, index.dirs, root.tree)
      && declared == Declared(items) && files == FileCount(items);
    NextItems(entries, k, items, item);
    failure := One(item, limit, declared, index, root, items);
    if failure.Some? {
      NotAcceptable(entries, limit, most, k, items + [item]);
      return;
    }
    if Named(item) && item.kind.Regular? {
      total, count := declared + item.size, files + 1;
    }
    assert ItemsUpTo(entries, k + 1, items + [item]);
  }

  /** One entry: the payload root is the staging directory itself, anything else is added. */
  method One(e: Item, limit: int, declared: int, index: PathTree, root: Staging, ghost items: seq<Item>)
    returns (failure: Option<Failure>)
    requires index.Valid() && (Named(e) ==> Clean(e.name))
    requires Extracted(items, limit, index.dirs, root.tree) && declared == Declared(items)
    modifies index, root
    ensures index.Valid()
    ensures failure.None? ==>
      && Extracted(items + [e], limit, index.dirs, root.tree)
      && Declared(items + [e]) == declared + Bytes(e) && FileCount(items + [e]) == FileCount(items) + Counted(e)
    ensures failure.Some? ==> !WellFormed(e, limit) || Declared(items + [e]) > limit || !Conflictless(items + [e])
    ensures failure.Some? ==> Blamed(failure.value, items, e, limit)
    ensures failure != Some(Filesystem)
  {
    if Named(e) {
      failure := Add(e, limit, declared, index, root, items);
    } else if !e.kind.Directory? {
      failure := Some(RootEntry);
    } else {
      RootEntryIsIdle(items, limit, index.dirs, root.tree, e);
      failure := None;
    }
  }

  /** One named entry, from the mode check to its directories and file. */
  method Add(e: Item, limit: int, declared: int, index: PathTree, root: Staging, ghost items: seq<Item>)
    returns (failure: Option<Failure>)
    requires index.Valid() && Named(e) && Clean(e.name)
    requires Extracted(items, limit, index.dirs, root.tree) && declared == Declared(items)
    modifies index, root
    ensures index.Valid()
    ensures failure.None? ==> Extracted(items + [e], limit, index.dirs, root.tree)
    ensures failure.None? ==>
      Declared(items + [e]) == declared + Bytes(e) && FileCount(items + [e]) == FileCount(items) + Counted(e)
    ensures failure.Some? ==>
      !WellFormed(e, limit) || Declared(items + [e]) > limit || !Conflictless(items + [e])
    ensures failure.Some? ==> Blamed(failure.value, items, e, limit)
    ensures failure != Some(Filesystem)
  {
    assert (items + [e])[..|items|] == items;
    if e.mode & SPECIAL_BITS != 0 {
      return Some(SpecialMode);
    }
    if !e.kind.Regular? && !e.kind.Directory? {
      return Some(Unsupported);
    }
    if e.kind.Regular? {
      if e.size < 0 {
        return Some(NegativeSize);
      }
      if e.size > limit || declared > limit - e.size {
        return Some(TooLarge);
      }
    }
    FreeMeansConflictless(items, index.dirs, e);
    var free := index.Check(e.name, e.kind.Directory?);
    if !free {
      return Some(NameConflict);
    }
    FreeMeansNoFile(items, root.tree, old(index.dirs), e);
    RecordsExtend(items, e, old(index.dirs));
    var ok := Place(e, root, items);
    if !ok {
      return Some(Filesystem);
    }
    if e.kind.Regular? && !e.complete {
      return Some(Truncated);
    }
    FineGrows(items, limit, e);
    return None;
  }

  /** ensureDirs, and for a file its exclusive creation. */
  method Place(e: Item, root: Staging, ghost items: seq<Item>) returns (ok: bool)
    requires Named(e) && Clean(e.name) && Builds(items, root.tree)
    requires forall p :: p in root.tree && Prefix(p, e.name) && (p != e.name || e.kind.Directory?) ==>
      root.tree[p].Folder?
    requires !e.kind.Directory? ==> e.name !in root.tree
    modifies root
    ensures ok && Builds(items + [e], root.tree)
  {
    if e.kind.Directory? {
      ok := root.EnsureDirs(e.name);
      DirectoryExtends(items, old(root.tree), root.tree, e);
      return;
    }
    ParentPrefixes(e.name);
    forall p | Above(p, e.name) ensures p != e.name {
      AboveIsShorter(p, e.name);
    }
    ok := root.EnsureDirs(Dir(e.name));
    if ok {
      FileExtends(items, old(root.tree), root.tree, e);
      ok := root.WriteFile(e.name, e);
    }
  }

  lemma NextItems(entries: seq<Entry>, k: nat, items: seq<Item>, item: Item)
    requires k < |entries| && Cleanable(entries[..k]) && items == Items(entries[..k])
    requires CleanEntryName(entries[k].rawName).Some? && item == ItemOf(entries[k])
    ensures Cleanable(entries[..k + 1]) && items + [item] == Items(entries[..k + 1])
    ensures (items + [item])[..k] == items
  {
  }

  lemma TooMany(entries: seq<Entry>, limit: int, most: int)
    requires |entries| > most
    ensures !Acceptable(entries, limit, most)
  {
  }

  /** A prefix of an acceptable archive is acceptable. */
  lemma PrefixExtractable(items: seq<Item>, limit: int, most: int, k: nat)
    requires Extractable(items, limit, most) && k <= |items|
    ensures Extractable(items[..k], limit, most)
  {
    DeclaredGrows(items, limit, k);
    forall i: nat | i < k ensures Fine(items[..k], limit, i) {
      assert Fine(items, limit, i);
    }
    forall i: nat, j: nat | i < j < k ensures !Clash(items[..k], i, j) {
      assert !Clash(items, i, j);
    }
  }

  /** An archive that fails at one entry is not acceptable, whatever follows. */
  lemma NotAcceptable(entries: seq<Entry>, limit: int, most: int, k: nat, items: seq<Item>)
    requires k < |entries| && Cleanable(entries[..k + 1]) && items == Items(entries[..k + 1])
    requires !WellFormed(items[k], limit) || Declared(items) > limit || !Conflictless(items)
    ensures !Acceptable(entries, limit, most)
  {
    if Cleanable(entries) && Extractable(Items(entries), limit, most) {
      var all := Items(entries);
      assert all[..k + 1] == items;
      PrefixExtractable(all, limit, most, k + 1);
      ExtractableMeans(items, limit, most, k);
    }
  }

  lemma ExtractableMeans(items: seq<Item>, limit: int, most: int, k: nat)
    requires Extractable(items, limit, most) && k < |items|
    ensures WellFormed(items[k], limit) && Declared(items) <= limit && Conflictless(items)
  {
    assert Fine(items, limit, k);
  }

  /** The loop's bookkeeping after some entries. */
  ghost predicate Extracted(items: seq<Item>, limit: int, dirs: map<string, bool>, tree: map<string, Node>) {
    && AllFine(items, limit) && Declared(items) <= limit
    && Conflictless(items) && Records(items, dirs) && Builds(items, tree)
  }

  lemma RootEntryIsIdle(items: seq<Item>, limit: int, dirs: map<string, bool>, tree: map<string, Node>, e: Item)
    requires !Named(e) && e.kind.Directory? && Extracted(items, limit, dirs, tree)
    ensures Extracted(items + [e], limit, dirs, tree)
    ensures Declared(items + [e]) == Declared(items) && FileCount(items + [e]) == FileCount(items)
  {
    assert (items + [e])[..|items|] == items;
    FineGrows(items, limit, e);
    RootConflictsWithNothing(items, e);
    RootRecordsNothing(items, dirs, e);
    RootBuildsNothing(items, tree, e);
  }

  lemma FineGrows(items: seq<Item>, limit: int, e: Item)
    requires AllFine(items, limit) && WellFormed(e, limit)
    ensures AllFine(items + [e], limit)
  {
    forall i: nat | i < |items + [e]| ensures Fine(items + [e], limit, i) {
      assert i < |items| ==> Fine(items, limit, i);
    }
  }

  lemma RootConflictsWithNothing(items: seq<Item>, e: Item)
    requires !Named(e) && Conflictless(items)
    ensures Conflictless(items + [e])
  {
    forall i: nat, j: nat | i < j < |items + [e]| ensures !Clash(items + [e], i, j) {
      assert j < |items| ==> !Clash(items, i, j);
    }
  }

  lemma RootRecordsNothing(items: seq<Item>, dirs: map<string, bool>, e: Item)
    requires !Named(e) && Records(items, dirs)
    ensures Records(items + [e], dirs)
  {
    forall i: nat | i < |items + [e]| ensures Noted(items + [e], dirs, i) {
      assert i < |items| ==> Noted(items, dirs, i);
    }
    forall n | n in dirs ensures Recorded(items + [e], n) {
      RecordedGrows(items, e, n);
    }
  }

  lemma RootBuildsNothing(items: seq<Item>, tree: map<string, Node>, e: Item)
    requires !Named(e) && Builds(items, tree)
    ensures Builds(items + [e], tree)
  {
    var all := items + [e];
    forall p | p in tree ensures Needed(all, p) {
      NeededGrows(items, e, p);
    }
    forall i: nat | i < |all| ensures Placed(all, tree, i) {
      assert i < |items| ==> Placed(items, tree, i);
    }
    forall i: nat, p | i < |all| ensures Enclosed(all, tree, i, p) {
      assert i < |items| ==> Enclosed(items, tree, i, p);
    }
  }

  lemma RecordedGrows(items: seq<Item>, e: Item, n: string)
    requires Recorded(items, n) || (Named(e) && e.name == n)
    ensures Recorded(items + [e], n)
  {
    var all := items + [e];
    if Recorded(items, n) {
      var i: nat :| Names(items, i, n);
      assert Names(all, i, n);
    } else {
      assert Names(all, |items|, n);
    }
  }

  lemma RecordsExtend(items: seq<Item>, e: Item, dirs: map<string, bool>)
    requires Records(items, dirs) && Named(e) && e.name !in dirs
    ensures Records(items + [e], dirs[e.name := e.kind.Directory?])
  {
    var all, after := items + [e], dirs[e.name := e.kind.Directory?];
    forall i: nat | i < |all| ensures Noted(all, after, i) {
      assert i < |items| ==> Noted(items, dirs, i);
    }
    forall n | n in after ensures Recorded(all, n) {
      RecordedGrows(items, e, n);
    }
  }

  // ---------------------------------------------------------------- the order of entries

  function Omit<T>(s: seq<T>, i: nat): seq<T>
    requires i < |s|
  {
    s[..i] + s[i + 1..]
  }

  lemma OmitCounts<T>(s: seq<T>, i: nat)
    requires i < |s|
    ensures multiset(s) == multiset(Omit(s, i)) + multiset{s[i]}
  {
    assert s == s[..i] + [s[i]] + s[i + 1..];
  }

  /** Taking one element out of each of two lists with the same elements leaves lists with the same elements. */
  lemma OmitBoth<T>(a: seq<T>, b: seq<T>) returns (j: nat)
    requires multiset(a) == multiset(b) && a != []
    ensures |a| == |b| && j < |b| && b[j] == a[|a| - 1]
    ensures multiset(a[..|a| - 1]) == multiset(Omit(b, j))
  {
    var last := |a| - 1;
    assert a == a[..last] + [a[last]];
    assert |a| == |multiset(a)| == |multiset(b)| == |b|;
    assert a[last] in multiset(a);
    assert a[last] in b;
    j :| 0 <= j < |b| && b[j] == a[last];
    OmitCounts(b, j);
    assert multiset(Omit(b, j)) == multiset(b) - multiset{b[j]};
  }

  lemma SumsOfOneMore(items: seq<Item>, e: Item)
    ensures Declared(items + [e]) == Declared(items) + Bytes(e)
    ensures FileCount(items + [e]) == FileCount(items) + Counted(e)
  {
    assert (items + [e])[..|items|] == items;
  }

  lemma {:induction false} SumsWithout(items: seq<Item>, j: nat)
    requires j < |items|
    ensures Declared(items) == Declared(Omit(items, j)) + Bytes(items[j])
    ensures FileCount(items) == FileCount(Omit(items, j)) + Counted(items[j])
    decreases |items|
  {
    var last := |items| - 1;
    if j == last {
      assert Omit(items, j) == items[..last];
    } else {
      var front := items[..last];
      SumsWithout(front, j);
      SumsOfOneMore(Omit(front, j), items[last]);
      assert Omit(items, j) == Omit(front, j) + [items[last]];
    }
  }

  lemma {:induction false} SumsIgnoreOrder(a: seq<Item>, b: seq<Item>)
    requires multiset(a) == multiset(b)
    ensures Declared(a) == Declared(b) && FileCount(a) == FileCount(b)
    decreases |a|
  {
    if a == [] {
      assert b == [] by {
        assert |b| == |multiset(b)|;
      }
    } else {
      var j := OmitBoth(a, b);
      SumsIgnoreOrder(a[..|a| - 1], Omit(b, j));
      SumsWithout(b, j);
    }
  }

  lemma ItemsOmit(entries: seq<Entry>, i: nat)
    requires i < |entries| && Cleanable(entries)
    ensures Cleanable(Omit(entries, i))
    ensures multiset(Items(entries)) == multiset(Items(Omit(entries, i))) + multiset{ItemOf(entries[i])}
  {
    assert Items(Omit(entries, i)) == Omit(Items(entries), i);
    OmitCounts(Items(entries), i);
  }

  lemma {:induction false} ItemsIgnoreOrder(a: seq<Entry>, b: seq<Entry>)
    requires multiset(a) == multiset(b) && Cleanable(a) && Cleanable(b)
    ensures multiset(Items(a)) == multiset(Items(b))
    decreases |a|
  {
    if a == [] {
      assert b == [] by {
        assert |b| == |multiset(b)|;
      }
    } else {
      var j := OmitBoth(a, b);
      var last := |a| - 1;
      assert a[..last] == Omit(a, last);
      ItemsIgnoreOrder(a[..last], Omit(b, j));
      ItemsOmit(a, last);
      ItemsOmit(b, j);
    }
  }

  lemma {:induction false} CleanableIgnoresOrder(a: seq<Entry>, b: seq<Entry>)
    requires multiset(a) == multiset(b) && Cleanable(a)
    ensures Cleanable(b)
  {
    forall i | 0 <= i < |b| ensures CleanEntryName(b[i].rawName).Some? {
      assert b[i] in multiset(b);
      assert b[i] in a;
    }
  }

  /** An element that stands at two places counts twice. */
  lemma TwicePlaced<T>(s: seq<T>, i: nat, j: nat)
    requires i < j < |s| && s[i] == s[j]
    ensures multiset(s)[s[i]] >= 2
  {
    assert s == s[..i] + [s[i]] + s[i + 1..j] + [s[j]] + s[j + 1..];
  }

  lemma TwoPlaces<T>(s: seq<T>, x: T) returns (i: nat, j: nat)
    requires multiset(s)[x] >= 2
    ensures i < j < |s| && s[i] == x && s[j] == x
  {
    assert x in s;
    i :| 0 <= i < |s| && s[i] == x;
    var before, after := s[..i], s[i + 1..];
    assert s == before + [x] + after;
    assert multiset(s) == multiset(before) + multiset{x} + multiset(after);
    if x in before {
      var k :| 0 <= k < |before| && before[k] == x;
      return k, i;
    }
    assert x in after;
    var k :| 0 <= k < |after| && after[k] == x;
    j := i + 1 + k;
  }

  /** A pair of elements at two places of one list stands at two places of the other. */
  lemma PairElsewhere<T>(a: seq<T>, b: seq<T>, i: nat, j: nat) returns (k: nat, l: nat)
    requires multiset(a) == multiset(b) && i < j < |b|
    ensures k < |a| && l < |a| && k != l && a[k] == b[i] && a[l] == b[j]
  {
    if b[i] == b[j] {
      TwicePlaced(b, i, j);
      k, l := TwoPlaces(a, b[i]);
    } else {
      assert b[i] in multiset(b) && b[j] in multiset(b);
      assert b[i] in a && b[j] in a;
      k :| 0 <= k < |a| && a[k] == b[i];
      l :| 0 <= l < |a| && a[l] == b[j];
    }
  }

  lemma ConflictlessIgnoresOrder(a: seq<Item>, b: seq<Item>)
    requires multiset(a) == multiset(b) && Conflictless(a)
    ensures Conflictless(b)
  {
    forall i: nat, j: nat | i < j < |b| ensures !Clash(b, i, j) {
      var k, l := PairElsewhere(a, b, i, j);
      assert !Clash(a, if k < l then k else l, if k < l then l else k);
    }
  }

  lemma ExtractableIgnoresOrder(a: seq<Item>, b: seq<Item>, limit: int, most: int)
    requires multiset(a) == multiset(b) && Extractable(a, limit, most)
    ensures Extractable(b, limit, most)
  {
    SumsIgnoreOrder(a, b);
    ConflictlessIgnoresOrder(a, b);
    assert |a| == |multiset(a)| == |multiset(b)| == |b|;
    forall j: nat | j < |b| ensures Fine(b, limit, j) {
      var i := Elsewhere(a, b, j);
      assert Fine(a, limit, i);
    }
  }

  lemma Elsewhere<T>(a: seq<T>, b: seq<T>, j: nat) returns (i: nat)
    requires multiset(a) == multiset(b) && j < |b|
    ensures i < |a| && a[i] == b[j]
  {
    assert b[j] in multiset(b);
    assert b[j] in a;
    i :| 0 <= i < |a| && a[i] == b[j];
  }

  lemma BuildsIgnoresOrder(a: seq<Item>, b: seq<Item>, tree: map<string, Node>)
    requires multiset(a) == multiset(b) && Builds(a, tree)
    ensures Builds(b, tree)
  {
    forall j: nat | j < |b| ensures Placed(b, tree, j) {
      var i := Elsewhere(a, b, j);
      assert Placed(a, tree, i);
    }
    forall j: nat, p | j < |b| ensures Enclosed(b, tree, j, p) {
      var i := Elsewhere(a, b, j);
      assert Enclosed(a, tree, i, p);
    }
    forall p | p in tree ensures Needed(b, p) {
      assert Needed(a, p);
      var i: nat :| Needs(a, i, p);
      var j := Elsewhere(b, a, i);
      assert Needs(b, j, p);
    }
  }

  /** What the declaration builds leaves no choice. */
  lemma BuildsOneTree(entries: seq<Entry>, one: map<string, Node>, other: map<string, Node>)
    requires Cleanable(entries) && Builds(Items(entries), one) && Builds(Items(entries), other)
    ensures one == other
  {
    forall p | p in one ensures p in other && other[p] == one[p] {
      SameNode(entries, one, other, p);
    }
    forall p | p in other ensures p in one {
      SameNode(entries, other, one, p);
    }
  }

  lemma SameNode(entries: seq<Entry>, one: map<string, Node>, other: map<string, Node>, p: string)
    requires Cleanable(entries) && Builds(Items(entries), one) && Builds(Items(entries), other) && p in one
    ensures p in other && other[p] == one[p]
  {
    var items := Items(entries);
    assert Needed(items, p);
    var i: nat :| Needs(items, i, p);
    CleanedIsClean(entries[i].rawName);
    assert Placed(items, one, i) && Placed(items, other, i);
    assert Enclosed(items, one, i, p) && Enclosed(items, other, i, p);
  }

  /**
   Two archives with the same entries in whatever order: both are accepted or neither, with the same counts, and both
   build one and the same tree.
   */
  lemma OrderDoesNotMatter(a: seq<Entry>, b: seq<Entry>, limit: int, most: int)
    requires multiset(a) == multiset(b)
    ensures Acceptable(a, limit, most) <==> Acceptable(b, limit, most)
    ensures Acceptable(a, limit, most) ==>
      Declared(Items(a)) == Declared(Items(b)) && FileCount(Items(a)) == FileCount(Items(b))
    ensures Acceptable(a, limit, most) ==>
      forall one, other :: Builds(Items(a), one) && Builds(Items(b), other) ==> one == other
  {
    if Cleanable(a) || Cleanable(b) {
      CleanableIgnoresOrder(if Cleanable(a) then a else b, if Cleanable(a) then b else a);
      ItemsIgnoreOrder(a, b);
      SumsIgnoreOrder(Items(a), Items(b));
      if Acceptable(a, limit, most) {
        ExtractableIgnoresOrder(Items(a), Items(b), limit, most);
      }
      if Acceptable(b, limit, most) {
        ExtractableIgnoresOrder(Items(b), Items(a), limit, most);
      }
      forall one, other | Builds(Items(a), one) && Builds(Items(b), other) ensures one == other {
        BuildsIgnoresOrder(Items(a), Items(b), one);
        BuildsOneTree(b, one, other);
      }
    }
  }
}
