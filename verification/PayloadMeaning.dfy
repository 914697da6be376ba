/** What passes the receiver's door, said of the raw names and the declared fields alone. */
module PayloadMeaning {
  import opened Protocol
  import opened ArchiveNames
  import opened PayloadReceiver

  // ---------------------------------------------------------------- names

  /** The characters from i to j are all that stands between two slashes, or between a slash and an end. */
  predicate Stretch(s: string, i: int, j: int) {
    && 0 <= i <= j <= |s|
    && (i == 0 || s[i - 1] == '/') && (j == |s| || s[j] == '/')
    && forall k :: i <= k < j ==> s[k] != '/'
  }

  /** A stretch of the part behind a slash is the same stretch of the whole. */
  lemma StretchBehind(s: string, cut: int, i: int, j: int)
    requires 0 <= cut < |s| && s[cut] == '/' && cut < i
    ensures Stretch(s, i, j) <==> Stretch(s[cut + 1..], i - cut - 1, j - cut - 1)
    ensures i <= j <= |s| ==> s[i..j] == s[cut + 1..][i - cut - 1..j - cut - 1]
  {
    var rest := s[cut + 1..];
    assert forall k :: cut < k < |s| ==> s[k] == rest[k - cut - 1];
    if Stretch(rest, i - cut - 1, j - cut - 1) {
      forall k | i <= k < j ensures s[k] != '/' {
        assert rest[k - cut - 1] == s[k];
      }
    }
  }

  lemma {:induction false} StretchesAreElements(s: string, i: int, j: int)
    requires Stretch(s, i, j)
    ensures s[i..j] in Elements(s)
    decreases |s|
  {
    var cut := FirstSlash(s);
    if i == 0 {
      assert j == cut;
      assert Elements(s)[0] == s[..cut];
    } else {
      assert s[i - 1] == '/';
      StretchBehind(s, cut, i, j);
      StretchesAreElements(s[cut + 1..], i - cut - 1, j - cut - 1);
    }
  }

  lemma FirstStretch(s: string)
    ensures Stretch(s, 0, FirstSlash(s)) && s[0..FirstSlash(s)] == s[..FirstSlash(s)]
  {
  }

  lemma ShiftedStretch(s: string, cut: nat, k: nat, l: nat)
    requires cut < |s| && s[cut] == '/' && Stretch(s[cut + 1..], k, l)
    ensures Stretch(s, k + cut + 1, l + cut + 1) && s[k + cut + 1..l + cut + 1] == s[cut + 1..][k..l]
  {
    StretchBehind(s, cut, k + cut + 1, l + cut + 1);
  }

  lemma {:induction false} ElementsSplit(s: string, e: string)
    ensures e in Elements(s) <==>
      e == s[..FirstSlash(s)] || (FirstSlash(s) < |s| && e in Elements(s[FirstSlash(s) + 1..]))
  {
    var cut := FirstSlash(s);
    if cut < |s| {
      assert Elements(s) == [s[..cut]] + Elements(s[cut + 1..]);
    } else {
      assert Elements(s) == [s] && s[..cut] == s;
    }
  }

  /** Some stretch of the text reads like this. */
  ghost predicate Reads(s: string, e: string) {
    exists i, j :: Stretch(s, i, j) && s[i..j] == e
  }

  lemma {:induction false} ElementsAreStretches(s: string, e: string)
    requires e in Elements(s)
    ensures Reads(s, e)
    decreases |s|
  {
    ElementsSplit(s, e);
    var cut := FirstSlash(s);
    if e == s[..cut] {
      FirstStretch(s);
    } else {
      ElementsAreStretches(s[cut + 1..], e);
      var k, l :| Stretch(s[cut + 1..], k, l) && s[cut + 1..][k..l] == e;
      ShiftedStretch(s, cut, k, l);
    }
  }

  /** A name is let in exactly when it is relative, holds no NUL and has ".." nowhere between slashes or its ends. */
  lemma LetInExactly(raw: string)
    ensures CleanEntryName(raw).Some? <==>
      && raw != "" && '\0' !in raw && raw[0] != '/'
      && forall i, j :: Stretch(raw, i, j) ==> raw[i..j] != ".."
  {
    forall i, j | Stretch(raw, i, j) ensures raw[i..j] in Elements(raw) {
      StretchesAreElements(raw, i, j);
    }
    if ".." in Elements(raw) {
      ElementsAreStretches(raw, "..");
    }
  }

  lemma {:induction false} JoinElements(s: string)
    ensures Elements(s) != [] && Join(Elements(s)) == s
    ensures forall n :: 0 <= n < |Elements(s)| ==> '/' !in Elements(s)[n]
    decreases |s|
  {
    var cut := FirstSlash(s);
    if cut < |s| {
      JoinElements(s[cut + 1..]);
      assert Elements(s)[1..] == Elements(s[cut + 1..]);
      assert s == s[..cut] + "/" + s[cut + 1..];
    }
  }

  /** An element more is kept in its place exactly when it is neither empty nor ".". */
  lemma {:induction false} KeptOneMore(elements: seq<string>, e: string)
    ensures Kept([]) == []
    ensures Kept(elements + [e]) == Kept(elements) + (if e != "" && e != "." then [e] else [])
    decreases |elements|
  {
    if elements == [] {
      assert elements + [e] == [e] && [e][1..] == [];
    } else {
      assert (elements + [e])[1..] == elements[1..] + [e];
      KeptOneMore(elements[1..], e);
    }
  }

  /**
   What comes of a name that is let in: cut at its slashes, its elements other than the empty one and "." in their
   order; the payload root if there are none.
   */
  lemma CleanedKeepsElements(raw: string) returns (elements: seq<string>)
    requires CleanEntryName(raw).Some?
    ensures elements != [] && Join(elements) == raw && forall n :: 0 <= n < |elements| ==> '/' !in elements[n]
    ensures CleanEntryName(raw).value == if Kept(elements) == [] then "." else Join(Kept(elements))
  {
    elements := Elements(raw);
    JoinElements(raw);
  }

  /** A name every element of which is an ordinary one. */
  ghost predicate Ordinary(name: string) {
    forall i, j :: Stretch(name, i, j) ==> name[i..j] != "" && name[i..j] != "." && name[i..j] != ".."
  }

  lemma {:induction false} KeptAll(elements: seq<string>)
    requires forall n :: 0 <= n < |elements| ==> elements[n] != "" && elements[n] != "."
    ensures Kept(elements) == elements
    decreases |elements|
  {
    if elements != [] {
      KeptAll(elements[1..]);
    }
  }

  /** An ordinary name is returned as it is. */
  lemma OrdinaryStays(name: string)
    requires Ordinary(name) && '\0' !in name
    ensures CleanEntryName(name) == Some(name)
  {
    assert Stretch(name, 0, FirstSlash(name));
    LetInExactly(name);
    JoinElements(name);
    forall n | 0 <= n < |Elements(name)| ensures Elements(name)[n] != "" && Elements(name)[n] != "." {
      ElementsAreStretches(name, Elements(name)[n]);
    }
    KeptAll(Elements(name));
  }

  lemma ElementsBehind(first: string, rest: string)
    requires FirstSlash(first) == |first|
    ensures Elements(first + "/" + rest) == [first] + Elements(rest)
  {
    var whole := first + "/" + rest;
    assert whole[|first|] == '/' && forall k :: 0 <= k < |first| ==> whole[k] == first[k];
    SlashFound(whole, |first|);
    assert whole[..|first|] == first && whole[|first| + 1..] == rest;
  }

  /** The elements of a joined list are the list, if no item holds a slash. */
  lemma {:induction false} ElementsOfJoin(items: seq<string>)
    requires items != [] && forall n :: 0 <= n < |items| ==> FirstSlash(items[n]) == |items[n]|
    ensures Elements(Join(items)) == items
    decreases |items|
  {
    if |items| == 1 {
      assert Elements(items[0]) == [items[0]];
    } else {
      ElementsOfJoin(items[1..]);
      ElementsBehind(items[0], Join(items[1..]));
      assert items == [items[0]] + items[1..];
    }
  }

  lemma SlashFound(s: string, at: nat)
    requires at < |s| && s[at] == '/' && forall k :: 0 <= k < at ==> s[k] != '/'
    ensures FirstSlash(s) == at
  {
    assert !(FirstSlash(s) < at);
    assert !(at < FirstSlash(s));
  }

  lemma {:induction false} KeptHasNoDots(elements: seq<string>)
    requires ".." !in elements
    ensures ".." !in Kept(elements)
    decreases |elements|
  {
    if elements != [] {
      assert elements == [elements[0]] + elements[1..];
      KeptHasNoDots(elements[1..]);
    }
  }

  /** Whatever is let in comes out as the root or as an ordinary name. */
  lemma CleanedIsOrdinary(raw: string)
    requires CleanEntryName(raw).Some?
    ensures CleanEntryName(raw).value == "." || Ordinary(CleanEntryName(raw).value)
  {
    var kept := Kept(Elements(raw));
    if kept != [] {
      KeptArePlain(raw);
      KeptHasNoDots(Elements(raw));
      var name := Join(kept);
      forall n | 0 <= n < |kept| ensures FirstSlash(kept[n]) == |kept[n]| {
        assert PlainElement(kept[n]);
      }
      ElementsOfJoin(kept);
      forall i, j | Stretch(name, i, j) ensures name[i..j] != "" && name[i..j] != "." && name[i..j] != ".." {
        StretchesAreElements(name, i, j);
        var n :| 0 <= n < |kept| && kept[n] == name[i..j];
        assert PlainElement(kept[n]);
      }
    }
  }

  // ---------------------------------------------------------------- archives

  /** The name an entry is extracted under. */
  function NameOf(e: Entry): string
    requires CleanEntryName(e.rawName).Some?
  {
    CleanEntryName(e.rawName).value
  }

  /**
   An archive is accepted exactly when it has no more entries than allowed, every name is let in, every entry is a
   directory or a complete file of an allowed size without special bits, the root is a directory, the declared bytes
   stay within the limit, and no two entries have one name or put something beneath a file.
   */
  lemma AcceptedExactly(entries: seq<Entry>, limit: int, most: int)
    ensures Acceptable(entries, limit, most) <==>
      && |entries| <= most
      && (forall i :: 0 <= i < |entries| ==> CleanEntryName(entries[i].rawName).Some?)
      && (forall i :: 0 <= i < |entries| && NameOf(entries[i]) == "." ==> entries[i].kind.Directory?)
      && (forall i :: 0 <= i < |entries| && NameOf(entries[i]) != "." ==>
           && entries[i].mode & 0xE00 == 0
           && (entries[i].kind.Directory?
               || (entries[i].kind.Regular? && 0 <= entries[i].size <= limit && entries[i].complete)))
      && Declared(Items(entries)) <= limit
      && (forall i, j :: 0 <= i < |entries| && 0 <= j < |entries| && i != j ==>
           NameOf(entries[i]) != "." && NameOf(entries[j]) != "." ==>
             && NameOf(entries[i]) != NameOf(entries[j])
             && (NameOf(entries[i]) + "/" <= NameOf(entries[j]) ==> entries[i].kind.Directory?))
  {
    if Cleanable(entries) {
      FineInFull(entries, limit);
      ConflictlessInFull(entries);
    }
  }

  lemma FineInFull(entries: seq<Entry>, limit: int)
    requires Cleanable(entries)
    ensures AllFine(Items(entries), limit) <==>
      && (forall i :: 0 <= i < |entries| && NameOf(entries[i]) == "." ==> entries[i].kind.Directory?)
      && (forall i :: 0 <= i < |entries| && NameOf(entries[i]) != "." ==>
           && entries[i].mode & 0xE00 == 0
           && (entries[i].kind.Directory?
               || (entries[i].kind.Regular? && 0 <= entries[i].size <= limit && entries[i].complete)))
  {
    var items := Items(entries);
    if AllFine(items, limit) {
      forall i | 0 <= i < |entries| ensures WellFormed(ItemOf(entries[i]), limit) {
        assert Fine(items, limit, i);
      }
    } else {
      var i: nat :| i < |items| && !Fine(items, limit, i);
      assert items[i] == ItemOf(entries[i]);
    }
  }

  lemma ConflictlessInFull(entries: seq<Entry>)
    requires Cleanable(entries)
    ensures Conflictless(Items(entries)) <==>
      forall i, j :: 0 <= i < |entries| && 0 <= j < |entries| && i != j ==>
        NameOf(entries[i]) != "." && NameOf(entries[j]) != "." ==>
          && NameOf(entries[i]) != NameOf(entries[j])
          && (NameOf(entries[i]) + "/" <= NameOf(entries[j]) ==> entries[i].kind.Directory?)
  {
    var items := Items(entries);
    if Conflictless(items) {
      forall i, j | 0 <= i < |entries| && 0 <= j < |entries| && i != j
        ensures !Conflict(ItemOf(entries[i]), ItemOf(entries[j]))
      {
        assert !Clash(items, if i < j then i else j, if i < j then j else i);
      }
    } else {
      var i: nat, j: nat :| i < j < |items| && Clash(items, i, j);
      assert items[i] == ItemOf(entries[i]) && items[j] == ItemOf(entries[j]);
    }
  }

  /** The declared bytes are the sizes of the regular entries, added up; the files are those entries, counted. */
  lemma DeclaredAddsUp(entries: seq<Entry>)
    requires Cleanable(entries)
    ensures entries == [] ==> Declared(Items(entries)) == 0 && FileCount(Items(entries)) == 0
    ensures entries != [] ==>
      var (front, e) := (entries[..|entries| - 1], entries[|entries| - 1]);
      var counts := NameOf(e) != "." && e.kind.Regular?;
      && Declared(Items(entries)) == Declared(Items(front)) + (if counts then e.size else 0)
      && FileCount(Items(entries)) == FileCount(Items(front)) + (if counts then 1 else 0)
  {
    if entries != [] {
      var last := |entries| - 1;
      assert Items(entries)[..last] == Items(entries[..last]);
    }
  }

  /** Entry i gives rise to path p: it is declared there, or the path is a directory above it. */
  predicate Makes(e: Entry, p: string)
    requires CleanEntryName(e.rawName).Some?
  {
    NameOf(e) != "." && (NameOf(e) == p || (p != "" && p + "/" <= NameOf(e)))
  }

  lemma MadePaths(entries: seq<Entry>, tree: map<string, Node>, p: string)
    requires Cleanable(entries) && Builds(Items(entries), tree)
    ensures p in tree <==> exists i :: 0 <= i < |entries| && Makes(entries[i], p)
    ensures p in tree ==> Ordinary(p)
  {
    var items := Items(entries);
    if p in tree {
      assert Needed(items, p);
      var i: nat :| Needs(items, i, p);
      CleanedIsClean(entries[i].rawName);
      assert Makes(entries[i], p);
    }
    forall i | 0 <= i < |entries| && Makes(entries[i], p) ensures p in tree && Ordinary(p) {
      assert Placed(items, tree, i) && Enclosed(items, tree, i, p);
      CleanedIsOrdinary(entries[i].rawName);
      if NameOf(entries[i]) != p {
        PrefixIsOrdinary(p, NameOf(entries[i]));
      }
    }
  }

  /** What is declared stands in the tree as declared, a file with what its mode may keep. */
  lemma DeclaredNode(entries: seq<Entry>, tree: map<string, Node>, i: nat)
    requires Cleanable(entries) && Builds(Items(entries), tree) && i < |entries| && NameOf(entries[i]) != "."
    ensures var (e, p) := (entries[i], NameOf(entries[i]));
      p in tree && tree[p] == if e.kind.Directory? then Folder else File(e.size, MaskMode(e.mode))
  {
    assert Placed(Items(entries), tree, i);
  }

  /**
   The paths of an extracted tree are the declared names and the directories above them, and none has an element "..";
   what is only above something declared is a directory.
   */
  lemma TreeInFull(entries: seq<Entry>, tree: map<string, Node>, p: string)
    requires Cleanable(entries) && Builds(Items(entries), tree)
    ensures p in tree <==> exists i :: 0 <= i < |entries| && Makes(entries[i], p)
    ensures p in tree && (forall i :: 0 <= i < |entries| ==> NameOf(entries[i]) != p) ==> tree[p] == Folder
    ensures p in tree ==> forall i, j :: Stretch(p, i, j) ==> p[i..j] != ".."
  {
    MadePaths(entries, tree, p);
    if p in tree && forall i :: 0 <= i < |entries| ==> NameOf(entries[i]) != p {
      var i :| 0 <= i < |entries| && Makes(entries[i], p);
      assert Enclosed(Items(entries), tree, i, p);
    }
  }

  /** What stands above an ordinary name is ordinary. */
  lemma PrefixIsOrdinary(p: string, name: string)
    requires Ordinary(name) && p + "/" <= name
    ensures Ordinary(p)
  {
    assert (p + "/")[|p|] == '/' == name[|p|];
    forall i, j | Stretch(p, i, j) ensures p[i..j] != "" && p[i..j] != "." && p[i..j] != ".." {
      assert forall k :: 0 <= k < |p| ==> name[k] == (p + "/")[k] == p[k];
      assert Stretch(name, i, j);
      assert name[i..j] == p[i..j];
    }
  }
}
