/** Writing an accepted archive to an empty destination, entry by entry. */
module ArchiveWrites {
  import opened Wrappers
  import opened Sequences
  import opened Strings
  import opened ArchiveNames
  import opened ArchivePasses

  type Path = seq<string>

  /** What lies below the destination; a file holds the content of the entry with that index. */
  datatype Disk = Disk(dirs: set<Path>, files: map<Path, nat>)

  const EMPTY := Disk({}, map[])

  /** What one entry asks for. */
  datatype Item = Item(path: Path, isDirectory: bool)

  /** An entry whose name ends in a separator is a directory. */
  predicate IsDirectory(name: string) {
    name != "" && (name[|name| - 1] == '/' || name[|name| - 1] == '\\')
  }

  /** An accepted name spells its segments, a directory with a separator at the end and a file without. */
  lemma DirectoryExactlyWhen(name: string)
    requires NameKey(name).Some?
    ensures Slashes(name) == Join(Segments(name), '/') + if IsDirectory(name) then "/" else ""
  {
    var segments := Segments(name);
    SegmentsSpell(name);
    AcceptedAt(segments, |segments|, |segments| - 1);
    EndOfJoin(segments);
    assert Slashes(name)[|name| - 1] == '/' <==> IsDirectory(name);
    assert segments[|segments| - 1][|segments[|segments| - 1]| - 1] in segments[|segments| - 1];
    assert Join(segments, '/') + "" == Join(segments, '/');
  }

  lemma {:induction false} EndOfJoin(parts: seq<string>)
    requires parts != [] && parts[|parts| - 1] != ""
    ensures var last := parts[|parts| - 1]; var text := Join(parts, '/');
            text != "" && text[|text| - 1] == last[|last| - 1]
  {
    if |parts| > 1 {
      EndOfJoin(parts[1..]);
    }
  }

  /** The path as the disk compares it: some disks ignore case. */
  function ItemFor(folds: bool, path: Path, name: string): Item {
    Item(if folds then LowerAll(path) else path, IsDirectory(name))
  }

  function ItemOf(folds: bool, name: string): Item {
    ItemFor(folds, Segments(name), name)
  }

  function Items(folds: bool, entries: seq<ZipEntry>): (items: seq<Item>)
    ensures |items| == |entries|
  {
    Mapped((entry: ZipEntry) => ItemOf(folds, entry.name), entries, |entries|)
  }

  lemma ItemAt(folds: bool, entries: seq<ZipEntry>, i: nat)
    requires i < |entries|
    ensures Items(folds, entries)[i] == ItemOf(folds, entries[i].name)
  {
    MappedAt((entry: ZipEntry) => ItemOf(folds, entry.name), entries, |entries|, i);
  }

  // ---- File operations ----

  /** Creates a directory and its ancestors, unless one of them is a file. */
  function MakeDirs(disk: Disk, path: Path): Option<Disk> {
    if exists k :: 0 <= k <= |path| && path[..k] in disk.files then None
    else Some(disk.(dirs := disk.dirs + set k | 0 <= k <= |path| :: path[..k]))
  }

  /** Creates or replaces a file in a directory, unless it is itself a directory. */
  function WriteFile(disk: Disk, path: Path, content: nat): Option<Disk>
    requires path != []
  {
    if path in disk.dirs || path[..|path| - 1] !in disk.dirs then None
    else Some(disk.(files := disk.files[path := content]))
  }

  /** The destination itself is a directory, so no file is written there. */
  function WriteItem(disk: Disk, item: Item, content: nat): Option<Disk> {
    if item.isDirectory then MakeDirs(disk, item.path)
    else if item.path == [] then None
    else
      match MakeDirs(disk, item.path[..|item.path| - 1])
      case None => None
      case Some(made) => WriteFile(made, item.path, content)
  }

  /** The disk once the first n items are written, if each could be. */
  function DiskAfter(items: seq<Item>, n: nat): Option<Disk>
    requires n <= |items|
  {
    if n == 0 then Some(EMPTY)
    else
      match DiskAfter(items, n - 1)
      case None => None
      case Some(disk) => WriteItem(disk, items[n - 1], n - 1)
  }

  /** Writes the items in order, up to the first that the environment or the disk refuses. */
  method WriteAll(items: seq<Item>, allows: nat -> bool) returns (disk: Disk, written: nat)
    ensures written <= |items| && DiskAfter(items, written) == Some(disk)
    ensures written < |items| && allows(written) ==> DiskAfter(items, written + 1) == None
  {
    disk, written := EMPTY, 0;
    while written < |items|
      invariant written <= |items| && DiskAfter(items, written) == Some(disk)
    {
      var next := WriteItem(disk, items[written], written);
      if !allows(written) || next.None? {
        return;
      }
      disk, written := next.value, written + 1;
    }
  }

  lemma PlannedItem(dest: Dest, folds: bool, entries: seq<ZipEntry>, k: nat)
    requires k < |entries|
    ensures |Planned(dest, entries, |entries|)| == |entries| && |dest| <= |Planned(dest, entries, |entries|)[k]|
    ensures ItemFor(folds, Planned(dest, entries, |entries|)[k][|dest|..], entries[k].name) == Items(folds, entries)[k]
  {
    PlannedAt(dest, entries, |entries|, k);
    ItemAt(folds, entries, k);
    assert (dest + Segments(entries[k].name))[|dest|..] == Segments(entries[k].name);
  }

  /** The planned paths are the items of the entries, below the destination. */
  method ItemsOfPlan(dest: Dest, folds: bool, entries: seq<ZipEntry>, planned: seq<Dest>) returns (items: seq<Item>)
    requires planned == Planned(dest, entries, |entries|)
    ensures items == Items(folds, entries)
  {
    ghost var all := Items(folds, entries);
    items := [];
    for k := 0 to |entries|
      invariant |items| == k && forall i :: 0 <= i < k ==> items[i] == all[i]
    {
      PlannedItem(dest, folds, entries, k);
      items := items + [ItemFor(folds, planned[k][|dest|..], entries[k].name)];
    }
  }

  /** Extraction: nothing is written unless every entry is accepted. */
  method Extract(entries: seq<ZipEntry>, dest: Dest, folds: bool, allows: nat -> bool)
    returns (disk: Disk, written: nat, complete: bool)
    ensures !Accepted(entries) ==> disk == EMPTY && !complete
    ensures written <= |entries| && DiskAfter(Items(folds, entries), written) == Some(disk)
    ensures complete <==> Accepted(entries) && written == |entries|
    ensures Accepted(entries) && !complete && allows(written) ==> DiskAfter(Items(folds, entries), written + 1) == None
  {
    disk, written, complete := EMPTY, 0, false;
    var planned := PlanExtraction(entries, dest);
    if planned.None? {
      return;
    }
    var items := ItemsOfPlan(dest, folds, entries, planned.value);
    disk, written := WriteAll(items, allows);
    complete := written == |entries|;
  }

  // ---- What the first n items put on a disk ----

  predicate PutsFile(item: Item, p: Path) {
    !item.isDirectory && item.path == p
  }

  predicate NeedsDir(item: Item, p: Path) {
    p <= item.path && (item.isDirectory || p != item.path)
  }

  predicate HasFile(items: seq<Item>, n: nat, p: Path)
    requires n <= |items|
  {
    n > 0 && (PutsFile(items[n - 1], p) || HasFile(items, n - 1, p))
  }

  predicate HasDir(items: seq<Item>, n: nat, p: Path)
    requires n <= |items|
  {
    n > 0 && (NeedsDir(items[n - 1], p) || HasDir(items, n - 1, p))
  }

  function Content(items: seq<Item>, n: nat, p: Path): nat
    requires n <= |items| && HasFile(items, n, p)
  {
    if PutsFile(items[n - 1], p) then n - 1 else Content(items, n - 1, p)
  }

  predicate HoldsAt(items: seq<Item>, n: nat, disk: Disk, p: Path)
    requires n <= |items|
  {
    && (p in disk.files <==> HasFile(items, n, p))
    && (p in disk.files ==> disk.files[p] == Content(items, n, p))
    && (p in disk.dirs <==> HasDir(items, n, p))
  }

  ghost predicate Holds(items: seq<Item>, n: nat, disk: Disk)
    requires n <= |items|
  {
    forall p :: HoldsAt(items, n, disk, p)
  }

  lemma DirsAreAdded(disk: Disk, path: Path, p: Path)
    requires MakeDirs(disk, path).Some?
    ensures p in MakeDirs(disk, path).value.dirs <==> p in disk.dirs || p <= path
    ensures MakeDirs(disk, path).value.files == disk.files
  {
    if p <= path {
      assert path[..|p|] == p;
    }
  }

  lemma ItemHoldsAt(items: seq<Item>, n: nat, disk: Disk, p: Path)
    requires n < |items| && HoldsAt(items, n, disk, p) && WriteItem(disk, items[n], n).Some?
    ensures HoldsAt(items, n + 1, WriteItem(disk, items[n], n).value, p)
  {
    var path := items[n].path;
    DirsAreAdded(disk, if items[n].isDirectory then path else path[..|path| - 1], p);
  }

  lemma ItemHolds(items: seq<Item>, n: nat, disk: Disk)
    requires n < |items| && Holds(items, n, disk) && WriteItem(disk, items[n], n).Some?
    ensures Holds(items, n + 1, WriteItem(disk, items[n], n).value)
  {
    var next, m := WriteItem(disk, items[n], n).value, n + 1;
    forall p
      ensures HoldsAt(items, m, next, p)
    {
      assert HoldsAt(items, n, disk, p);
      ItemHoldsAt(items, n, disk, p);
    }
  }

  // ---- Which items fail ----

  /** One of the first n items is a file at `path` or above it. */
  predicate FileWithin(items: seq<Item>, n: nat, path: Path)
    requires n <= |items|
  {
    n > 0 && ((!items[n - 1].isDirectory && items[n - 1].path <= path) || FileWithin(items, n - 1, path))
  }

  lemma {:induction false} FileWithinIs(items: seq<Item>, n: nat, path: Path) returns (k: nat)
    requires n <= |items| && FileWithin(items, n, path)
    ensures k <= |path| && HasFile(items, n, path[..k])
  {
    var item := items[n - 1];
    if !item.isDirectory && item.path <= path {
      k := |item.path|;
      assert path[..k] == item.path;
    } else {
      k := FileWithinIs(items, n - 1, path);
    }
  }

  lemma {:induction false} IsFileWithin(items: seq<Item>, n: nat, path: Path, k: nat)
    requires n <= |items| && k <= |path| && HasFile(items, n, path[..k])
    ensures FileWithin(items, n, path)
  {
    if !PutsFile(items[n - 1], path[..k]) {
      IsFileWithin(items, n - 1, path, k);
    }
  }

  lemma DirsAreBlocked(items: seq<Item>, n: nat, disk: Disk, path: Path)
    requires n <= |items| && Holds(items, n, disk)
    ensures MakeDirs(disk, path).None? <==> FileWithin(items, n, path)
  {
    if FileWithin(items, n, path) {
      var k := FileWithinIs(items, n, path);
      assert HoldsAt(items, n, disk, path[..k]);
    } else if k: nat :| k <= |path| && path[..k] in disk.files {
      assert HoldsAt(items, n, disk, path[..k]);
      IsFileWithin(items, n, path, k);
    }
  }

  /** A file that lies above another item. */
  predicate FileAbove(a: Item, b: Item) {
    !a.isDirectory && a.path < b.path
  }

  predicate Collides(items: seq<Item>, n: nat, item: Item)
    requires n <= |items|
  {
    n > 0 && (FileAbove(items[n - 1], item) || FileAbove(item, items[n - 1]) || Collides(items, n - 1, item))
  }

  predicate NoneAt(items: seq<Item>, n: nat, path: Path)
    requires n <= |items|
  {
    n == 0 || (items[n - 1].path != path && NoneAt(items, n - 1, path))
  }

  lemma {:induction false} DirectoryCollides(items: seq<Item>, n: nat, item: Item)
    requires n <= |items| && NoneAt(items, n, item.path) && item.isDirectory
    ensures FileWithin(items, n, item.path) <==> Collides(items, n, item)
  {
    if n > 0 {
      DirectoryCollides(items, n - 1, item);
    }
  }

  lemma {:induction false} FileCollides(items: seq<Item>, n: nat, item: Item)
    requires n <= |items| && NoneAt(items, n, item.path) && !item.isDirectory && item.path != []
    ensures FileWithin(items, n, item.path[..|item.path| - 1]) || HasDir(items, n, item.path) <==>
            Collides(items, n, item)
  {
    if n > 0 {
      FileCollides(items, n - 1, item);
      ParentIsAbove(items[n - 1].path, item.path);
    }
  }

  lemma ParentIsAbove(a: Path, b: Path)
    requires b != []
    ensures a <= b[..|b| - 1] <==> a < b
  {
  }

  lemma ItemFails(items: seq<Item>, n: nat, disk: Disk)
    requires n < |items| && Holds(items, n, disk) && NoneAt(items, n, items[n].path) && items[n].path != []
    ensures WriteItem(disk, items[n], n).None? <==> Collides(items, n, items[n])
  {
    var item := items[n];
    if item.isDirectory {
      DirsAreBlocked(items, n, disk, item.path);
      DirectoryCollides(items, n, item);
    } else {
      var parent := item.path[..|item.path| - 1];
      DirsAreBlocked(items, n, disk, parent);
      FileCollides(items, n, item);
      assert HoldsAt(items, n, disk, item.path);
      if MakeDirs(disk, parent).Some? {
        DirsAreAdded(disk, parent, item.path);
        DirsAreAdded(disk, parent, parent);
      }
    }
  }

  /** Paths below the destination, no two the same. */
  predicate Plain(items: seq<Item>, n: nat)
    requires n <= |items|
  {
    n == 0 || (Plain(items, n - 1) && items[n - 1].path != [] && NoneAt(items, n - 1, items[n - 1].path))
  }

  predicate Compatible(items: seq<Item>, n: nat)
    requires n <= |items|
  {
    n == 0 || (Compatible(items, n - 1) && !Collides(items, n - 1, items[n - 1]))
  }

  lemma {:induction false} DiskHolds(items: seq<Item>, n: nat)
    requires n <= |items| && Plain(items, n)
    ensures DiskAfter(items, n).Some? <==> Compatible(items, n)
    ensures DiskAfter(items, n).Some? ==> Holds(items, n, DiskAfter(items, n).value)
  {
    if n > 0 {
      DiskHolds(items, n - 1);
      match DiskAfter(items, n - 1)
      case None =>
      case Some(disk) =>
        ItemFails(items, n - 1, disk);
        if WriteItem(disk, items[n - 1], n - 1).Some? {
          ItemHolds(items, n - 1, disk);
        }
    }
  }

  // ---- Accepted archives ----

  lemma {:induction false} NoneAtUpTo(items: seq<Item>, n: nat, path: Path)
    requires n <= |items| && forall i :: 0 <= i < n ==> items[i].path != path
    ensures NoneAt(items, n, path)
  {
    if n > 0 {
      NoneAtUpTo(items, n - 1, path);
    }
  }

  lemma PathsDiffer(folds: bool, entries: seq<ZipEntry>, i: nat, j: nat)
    requires i < j < |entries| && Accepts(entries, i) && Accepts(entries, j)
    ensures Items(folds, entries)[i].path != Items(folds, entries)[j].path
  {
    ItemAt(folds, entries, i);
    ItemAt(folds, entries, j);
    AcceptedKeysDiffer(entries, i, j);
  }

  lemma PathIsBelow(folds: bool, entries: seq<ZipEntry>, i: nat)
    requires i < |entries| && Accepts(entries, i)
    ensures Items(folds, entries)[i].path != []
  {
    ItemAt(folds, entries, i);
    AcceptedSegmentsAreOrdinary(entries, i, 0);
  }

  lemma {:induction false} PlainUpTo(items: seq<Item>, n: nat)
    requires n <= |items|
    requires forall i :: 0 <= i < n ==> items[i].path != []
    requires forall i, j :: 0 <= i < j < n ==> items[i].path != items[j].path
    ensures Plain(items, n)
  {
    if n > 0 {
      PlainUpTo(items, n - 1);
      NoneAtUpTo(items, n - 1, items[n - 1].path);
    }
  }

  lemma AcceptedIsPlain(folds: bool, entries: seq<ZipEntry>)
    requires Accepted(entries)
    ensures Plain(Items(folds, entries), |entries|)
  {
    forall i | 0 <= i < |entries|
      ensures Items(folds, entries)[i].path != []
    {
      assert Accepts(entries, i);
      PathIsBelow(folds, entries, i);
    }
    forall i, j | 0 <= i < j < |entries|
      ensures Items(folds, entries)[i].path != Items(folds, entries)[j].path
    {
      assert Accepts(entries, i) && Accepts(entries, j);
      PathsDiffer(folds, entries, i, j);
    }
    PlainUpTo(Items(folds, entries), |entries|);
  }

  lemma {:induction false} NoCollision(items: seq<Item>, n: nat, item: Item, i: nat)
    requires i < n <= |items| && !Collides(items, n, item)
    ensures !FileAbove(items[i], item) && !FileAbove(item, items[i])
  {
    if i < n - 1 {
      NoCollision(items, n - 1, item, i);
    }
  }

  lemma {:induction false} CompatibleAt(items: seq<Item>, n: nat, i: nat, j: nat)
    requires i < n <= |items| && j < n && Compatible(items, n)
    ensures !FileAbove(items[i], items[j])
  {
    if i < n - 1 && j < n - 1 {
      CompatibleAt(items, n - 1, i, j);
    } else if i < n - 1 {
      NoCollision(items, n - 1, items[j], i);
    } else if j < n - 1 {
      NoCollision(items, n - 1, items[i], j);
    }
  }

  lemma {:induction false} CollisionIs(items: seq<Item>, n: nat, item: Item) returns (i: nat)
    requires n <= |items| && Collides(items, n, item)
    ensures i < n && (FileAbove(items[i], item) || FileAbove(item, items[i]))
  {
    if FileAbove(items[n - 1], item) || FileAbove(item, items[n - 1]) {
      i := n - 1;
    } else {
      i := CollisionIs(items, n - 1, item);
    }
  }

  lemma {:induction false} IncompatibleIs(items: seq<Item>, n: nat) returns (i: nat, j: nat)
    requires n <= |items| && !Compatible(items, n)
    ensures i < n && j < n && FileAbove(items[i], items[j])
  {
    if Collides(items, n - 1, items[n - 1]) {
      i := CollisionIs(items, n - 1, items[n - 1]);
      if FileAbove(items[i], items[n - 1]) {
        j := n - 1;
      } else {
        i, j := n - 1, i;
      }
    } else {
      i, j := IncompatibleIs(items, n - 1);
    }
  }

  /** Entry i is a file, and its path, as the disk compares paths, lies above that of entry j. */
  predicate FileAboveEntry(folds: bool, entries: seq<ZipEntry>, i: nat, j: nat)
    requires i < |entries| && j < |entries|
  {
    var a, b := Segments(entries[i].name), Segments(entries[j].name);
    !IsDirectory(entries[i].name) && if folds then LowerAll(a) < LowerAll(b) else a < b
  }

  lemma FileAboveIs(folds: bool, entries: seq<ZipEntry>, i: nat, j: nat)
    requires i < |entries| && j < |entries|
    ensures FileAbove(Items(folds, entries)[i], Items(folds, entries)[j]) <==> FileAboveEntry(folds, entries, i, j)
  {
    ItemAt(folds, entries, i);
    ItemAt(folds, entries, j);
  }

  /** On a disk that refuses nothing else, with or without folding case, an accepted archive extracts
      completely exactly when no file in it lies above another of its entries. */
  lemma ExtractsExactlyWhen(folds: bool, entries: seq<ZipEntry>)
    requires Accepted(entries)
    ensures DiskAfter(Items(folds, entries), |entries|).Some? <==>
            forall i, j :: 0 <= i < |entries| && 0 <= j < |entries| ==> !FileAboveEntry(folds, entries, i, j)
  {
    var items, n := Items(folds, entries), |entries|;
    AcceptedIsPlain(folds, entries);
    DiskHolds(items, n);
    if Compatible(items, n) {
      forall i, j | 0 <= i < n && 0 <= j < n
        ensures !FileAboveEntry(folds, entries, i, j)
      {
        CompatibleAt(items, n, i, j);
        FileAboveIs(folds, entries, i, j);
      }
    } else {
      var i, j := IncompatibleIs(items, n);
      FileAboveIs(folds, entries, i, j);
    }
  }

  lemma {:induction false} HasFileIs(items: seq<Item>, n: nat, i: nat)
    requires i < n <= |items| && Plain(items, n) && !items[i].isDirectory
    ensures HasFile(items, n, items[i].path) && Content(items, n, items[i].path) == i
  {
    if i < n - 1 {
      HasFileIs(items, n - 1, i);
      NoneAtIs(items, n - 1, items[n - 1].path, i);
    }
  }

  lemma {:induction false} NoneAtIs(items: seq<Item>, n: nat, path: Path, i: nat)
    requires i < n <= |items| && NoneAt(items, n, path)
    ensures items[i].path != path
  {
    if i < n - 1 {
      NoneAtIs(items, n - 1, path, i);
    }
  }

  lemma {:induction false} ContentIs(items: seq<Item>, n: nat, p: Path)
    requires n <= |items| && HasFile(items, n, p)
    ensures Content(items, n, p) < n && PutsFile(items[Content(items, n, p)], p)
  {
    if !PutsFile(items[n - 1], p) {
      ContentIs(items, n - 1, p);
    }
  }

  lemma {:induction false} HasDirIs(items: seq<Item>, n: nat, p: Path) returns (i: nat)
    requires n <= |items| && HasDir(items, n, p)
    ensures i < n && NeedsDir(items[i], p)
  {
    if NeedsDir(items[n - 1], p) {
      i := n - 1;
    } else {
      i := HasDirIs(items, n - 1, p);
    }
  }

  /** A complete extraction leaves each file's content at its own path and no other file, and only
      directories that its entries name or lie in. */
  lemma ExtractedTreeIsExact(folds: bool, entries: seq<ZipEntry>, disk: Disk, p: Path)
    requires Accepted(entries) && DiskAfter(Items(folds, entries), |entries|) == Some(disk)
    ensures forall i :: 0 <= i < |entries| && !Items(folds, entries)[i].isDirectory ==>
              Items(folds, entries)[i].path in disk.files && disk.files[Items(folds, entries)[i].path] == i
    ensures p in disk.files ==> disk.files[p] < |entries| && PutsFile(Items(folds, entries)[disk.files[p]], p)
    ensures p in disk.dirs ==> exists i :: 0 <= i < |entries| && NeedsDir(Items(folds, entries)[i], p)
  {
    var items, n := Items(folds, entries), |entries|;
    AcceptedIsPlain(folds, entries);
    DiskHolds(items, n);
    forall i | 0 <= i < n && !items[i].isDirectory
      ensures items[i].path in disk.files && disk.files[items[i].path] == i
    {
      HasFileIs(items, n, i);
      assert HoldsAt(items, n, disk, items[i].path);
    }
    assert HoldsAt(items, n, disk, p);
    if p in disk.files {
      ContentIs(items, n, p);
    }
    if p in disk.dirs {
      var i := HasDirIs(items, n, p);
    }
  }

  lemma PrefixStaysPrefix(a: seq<string>, b: seq<string>)
    requires a < b
    ensures LowerAll(a) < LowerAll(b)
  {
    LowerAllConcat(a, b[|a|..]);
    assert a + b[|a|..] == b;
  }

  /** A file and an entry below it pass the check, but writing them stops short. */
  lemma FileBelowFileIsNotExtracted(folds: bool)
    ensures var entries := [ZipEntry("a", 1, 1), ZipEntry("a/b", 1, 1)];
            Accepted(entries) && DiskAfter(Items(folds, entries), 2) == None
  {
    var entries := [ZipEntry("a", 1, 1), ZipEntry("a/b", 1, 1)];
    FileBelowFileIsAccepted([]);
    PlainKeys();
    PrefixStaysPrefix(Segments("a"), Segments("a/b"));
    assert FileAboveEntry(folds, entries, 0, 1);
    ExtractsExactlyWhen(folds, entries);
  }
}
