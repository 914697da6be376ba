/** The receiver's record of archive names: a sorted list searched by bisection, and a map of what each name is. */
module ArchiveNames {
  import opened Text

  ghost predicate Sorted(names: seq<string>) {
    forall i, j :: 0 <= i < j < |names| ==> Less(names[i], names[j])
  }

  /** A directory name lies above a path when the path continues it after a slash. */
  predicate Above(dir: string, name: string) {
    dir + "/" <= name
  }

  /** A relative name as path.Clean leaves it: no empty and no dot element. */
  predicate Clean(name: string) {
    && name != "" && name != "." && name[0] != '/' && name[|name| - 1] != '/'
    && !("./" <= name)
    && forall i :: 0 <= i < |name| - 1 ==> !(name[i] == '/' && name[i + 1] == '/')
  }

  function LastSlash(s: string): (i: int)
    ensures -1 <= i < |s|
    ensures i >= 0 ==> s[i] == '/'
    ensures forall k :: i < k < |s| ==> s[k] != '/'
  {
    if s == "" then -1 else if s[|s| - 1] == '/' then |s| - 1 else LastSlash(s[..|s| - 1])
  }

  /** path.Dir of a clean relative name. */
  function Dir(name: string): string {
    if LastSlash(name) <= 0 then "." else name[..LastSlash(name)]
  }

  /** The strings with a given prefix form one interval of the order, and the prefix is its lower end. */
  lemma {:induction false} PrefixInterval(p: string, x: string, y: string)
    requires p <= y && !Less(x, p) && !Less(y, x)
    ensures p <= x
    decreases |p|
  {
    LessTotal(x, y);
    if p != [] {
      assert y == [y[0]] + y[1..] && p == [p[0]] + p[1..];
      assert p[0] == y[0] && p[1..] <= y[1..];
      if x == y {
      } else {
        assert x != [] && x[0] == p[0];
        PrefixInterval(p[1..], x[1..], y[1..]);
        assert x == [x[0]] + x[1..];
      }
    }
  }

  lemma {:induction false} PrefixNotBelow(p: string, y: string)
    requires p <= y
    ensures !Less(y, p)
    decreases |p|
  {
    if p != [] {
      assert p[1..] <= y[1..];
      PrefixNotBelow(p[1..], y[1..]);
    }
  }

  /** sort.SearchStrings: bisection for the first name that is not below the wanted one. */
  method SearchStrings(names: seq<string>, want: string) returns (at: nat)
    requires Sorted(names)
    ensures at <= |names|
    ensures forall k :: 0 <= k < at ==> Less(names[k], want)
    ensures forall k :: at <= k < |names| ==> !Less(names[k], want)
  {
    var low, high := 0, |names|;
    while low < high
      invariant 0 <= low <= high <= |names|
      invariant forall k :: 0 <= k < low ==> Less(names[k], want)
      invariant forall k :: high <= k < |names| ==> !Less(names[k], want)
    {
      var mid := (low + high) / 2;
      if Less(names[mid], want) {
        forall k | 0 <= k < mid ensures Less(names[k], want) {
          LessTransitive(names[k], names[mid], want);
        }
        low := mid + 1;
      } else {
        forall k | mid < k < |names| && Less(names[k], want) ensures false {
          LessTransitive(names[mid], names[k], want);
        }
        high := mid;
      }
    }
    at := low;
  }

  /** One lower-bound search decides whether any recorded name lies beneath a new file. */
  lemma LowerBoundDecides(names: seq<string>, name: string, at: nat)
    requires Sorted(names) && at <= |names|
    requires forall k :: 0 <= k < at ==> Less(names[k], name + "/")
    requires forall k :: at <= k < |names| ==> !Less(names[k], name + "/")
    ensures (at < |names| && name + "/" <= names[at]) <==> exists n :: n in names && Above(name, n)
  {
    if n :| n in names && Above(name, n) {
      var k :| 0 <= k < |names| && names[k] == n;
      PrefixNotBelow(name + "/", n);
      assert at <= k;
      if at < k {
        if Less(names[k], names[at]) {
          LessTransitive(names[at], names[k], names[at]);
          LessIrreflexive(names[at]);
        }
        PrefixInterval(name + "/", names[at], n);
      }
    }
    if at < |names| && name + "/" <= names[at] {
      assert names[at] in names;
    }
  }

  /** The plain relation the index must agree with: a name may be recorded beside the ones that are. */
  ghost predicate Free(dirs: map<string, bool>, name: string, isDir: bool) {
    && name !in dirs
    && (forall a :: a in dirs && Above(a, name) ==> dirs[a])
    && (!isDir ==> forall d :: d in dirs ==> !Above(name, d))
  }

  /** The chain of path.Dir visits exactly the directories above a name. */
  lemma DirIsNearest(name: string, parent: string, a: string)
    requires Clean(name) && (parent == name || Above(parent, name))
    requires Above(a, name) && |a| < |parent|
    ensures Dir(parent) != "." && |a| <= |Dir(parent)|
  {
    assert (a + "/")[|a|] == '/';
    assert parent[|a|] == '/';
    assert a != "";
    assert parent[..2] != "./";
  }

  lemma DirIsAbove(name: string, parent: string)
    requires Clean(name) && (parent == name || Above(parent, name))
    requires Dir(parent) != "."
    ensures Above(Dir(parent), name) && |Dir(parent)| < |parent|
  {
    var i := LastSlash(parent);
    assert parent[..i] + "/" == parent[..i + 1];
    assert name[..i + 1] == parent[..i + 1];
  }

  class PathTree {
    var names: seq<string>
    var dirs: map<string, bool>

    /** The list is sorted, hence free of duplicates, and holds exactly the map's keys. */
    ghost predicate Valid()
      reads this
    {
      && Sorted(names)
      && forall n :: n in names <==> n in dirs
    }

    constructor ()
      ensures Valid() && dirs == map[]
    {
      names, dirs := [], map[];
    }

    method Check(name: string, isDir: bool) returns (accepted: bool)
      requires Valid() && Clean(name)
      modifies this
      ensures Valid()
      ensures accepted <==> Free(old(dirs), name, isDir)
      ensures dirs == if accepted then old(dirs)[name := isDir] else old(dirs)
      ensures !accepted ==> names == old(names)
    {
      var index := SearchStrings(names, name);
      if index < |names| && names[index] == name {
        return false;
      }
      NotRecorded(names, name, index);
      var parent := Dir(name);
      ghost var below := name;
      while parent != "." && parent != "/"
        invariant unchanged(this)
        invariant below == name || Above(below, name)
        invariant parent == Dir(below)
        invariant forall a :: a in dirs && Above(a, name) && |a| >= |below| ==> dirs[a]
        decreases |below|
      {
        DirIsAbove(name, below);
        if parent in dirs && !dirs[parent] {
          return false;
        }
        forall a | a in dirs && Above(a, name) && |a| >= |parent| ensures dirs[a] {
          if |a| < |below| {
            DirIsNearest(name, below, a);
            assert a == name[..|parent|] == parent;
          }
        }
        below := parent;
        parent := Dir(parent);
      }
      forall a | a in dirs && Above(a, name) ensures dirs[a] {
        if |a| < |below| {
          DirIsNearest(name, below, a);
          SlashNotAbove(name, below);
        }
      }
      if !isDir {
        var descendant := SearchStrings(names, name + "/");
        LowerBoundDecides(names, name, descendant);
        if descendant < |names| && name + "/" <= names[descendant] {
          return false;
        }
      }
      Insert(name);
      dirs := dirs[name := isDir];
      return true;
    }

    method Insert(name: string)
      requires Sorted(names) && name !in names
      modifies this`names
      ensures Sorted(names)
      ensures forall n :: n in names <==> n in old(names) || n == name
    {
      var index := SearchStrings(names, name);
      forall k | index <= k < |names| ensures Less(name, names[k]) {
        LessTotal(name, names[k]);
      }
      names := names[..index] + [name] + names[index..];
    }
  }

  lemma NotRecorded(names: seq<string>, name: string, index: nat)
    requires Sorted(names) && index <= |names|
    requires forall k :: 0 <= k < index ==> Less(names[k], name)
    requires forall k :: index <= k < |names| ==> !Less(names[k], name)
    requires index == |names| || names[index] != name
    ensures name !in names
  {
    LessIrreflexive(name);
    if index < |names| {
      LessTotal(names[index], name);
    }
  }

  /** A clean name has no root directory above it. */
  lemma SlashNotAbove(name: string, below: string)
    requires Clean(name) && (below == name || Above(below, name))
    ensures Dir(below) != "/"
  {
    assert below[0] == name[0];
  }
}
