/** Re-inserting collected entries: what every path of the merged header then holds. */
module AsarMerge {
  import opened Wrappers
  import opened Sequences
  import opened AsarTree

  /** What a path holds, apart from what lies below it: nothing, a directory with its own fields, or
      another node. */
  datatype Shape = Absent | Directory(own: map<string, Json>) | Leaf(node: Json)

  function ShapeOf(node: Json): Shape {
    if FilesOf(node).Some? then Directory(node.fields - {"files"}) else Leaf(node)
  }

  function ShapeAt(files: Files, path: Path): Shape
    requires path != []
    decreases |path|
  {
    if path[0] !in files then Absent
    else if |path| == 1 then ShapeOf(files[path[0]])
    else
      var child := FilesOf(files[path[0]]);
      if child.Some? then ShapeAt(child.value, path[1..]) else Absent
  }

  lemma {:induction false} ShapeOfLookup(files: Files, path: Path)
    requires path != []
    ensures ShapeAt(files, path) == if Lookup(files, path).Some? then ShapeOf(Lookup(files, path).value) else Absent
    decreases |path|
  {
    if |path| > 1 && path[0] in files && FilesOf(files[path[0]]).Some? {
      ShapeOfLookup(FilesOf(files[path[0]]).value, path[1..]);
    }
  }

  /** The shape at a path below a node. */
  function ShapeBelow(node: Json, rest: Path): Shape {
    if rest == [] then ShapeOf(node)
    else if FilesOf(node).Some? then ShapeAt(FilesOf(node).value, rest)
    else Absent
  }

  lemma {:induction false} ShapeThrough(files: Files, path: Path, rest: Path)
    requires path != []
    ensures ShapeAt(files, path + rest) ==
            if Lookup(files, path).Some? then ShapeBelow(Lookup(files, path).value, rest) else Absent
    decreases |path|
  {
    var all := path + rest;
    assert all[0] == path[0];
    DropOfAppend(path, rest, 1);
    if |path| == 1 {
      assert all[1..] == rest;
    } else if path[0] in files && FilesOf(files[path[0]]).Some? {
      ShapeThrough(FilesOf(files[path[0]]).value, path[1..], rest);
    }
  }

  // ---- One insertion ----

  /** The directory that an insertion leaves above the inserted path. */
  function AsDirectory(shape: Shape): Shape {
    if shape.Directory? then shape else Directory(map[])
  }

  function ShapeAfter(files: Files, path: Path, node: Json, q: Path): Shape
    requires path != [] && q != []
  {
    if path <= q then ShapeBelow(node, q[|path|..])
    else if q < path then AsDirectory(ShapeAt(files, q))
    else ShapeAt(files, q)
  }

  predicate PathIsOpen(files: Files, path: Path) {
    forall k :: 1 <= k < |path| ==> !ShapeAt(files, path[..k]).Leaf?
  }

  lemma WithFilesShape(node: Json, files: Files)
    requires FilesOf(node).Some?
    ensures FilesOf(WithFiles(node, files)) == Some(files)
    ensures ShapeOf(WithFiles(node, files)) == ShapeOf(node)
  {
  }

  lemma NewDirectoryShape()
    ensures FilesOf(NEW_DIRECTORY) == Some(map[]) && ShapeOf(NEW_DIRECTORY) == Directory(map[])
  {
    assert NEW_DIRECTORY.fields - {"files"} == map[];
  }

  /** The child an insertion goes through. */
  function Through(files: Files, path: Path): Json
    requires path != []
  {
    if path[0] in files then files[path[0]] else NEW_DIRECTORY
  }

  lemma InnerShapes(files: Files, path: Path, q: Path)
    requires path != [] && |q| > 1 && q[0] == path[0] && FilesOf(Through(files, path)).Some?
    ensures ShapeAt(FilesOf(Through(files, path)).value, q[1..]) == ShapeAt(files, q)
  {
    NewDirectoryShape();
  }

  lemma InnerIsOpen(files: Files, path: Path)
    requires |path| > 1 && PathIsOpen(files, path)
    ensures FilesOf(Through(files, path)).Some? && PathIsOpen(FilesOf(Through(files, path)).value, path[1..])
  {
    NewDirectoryShape();
    assert path[..1] == [path[0]];
    assert !ShapeAt(files, path[..1]).Leaf?;
    var inner := FilesOf(Through(files, path)).value;
    forall k | 1 <= k < |path| - 1
      ensures !ShapeAt(inner, path[1..][..k]).Leaf?
    {
      TailOfPrefix(path, k + 1);
      InnerShapes(files, path, path[..k + 1]);
      assert !ShapeAt(files, path[..k + 1]).Leaf?;
    }
  }

  lemma PrefixTails(path: Path, q: Path)
    requires |path| > 1 && |q| > 1 && path[0] == q[0]
    ensures path <= q <==> path[1..] <= q[1..]
    ensures q < path <==> q[1..] < path[1..]
    ensures path <= q ==> q[|path|..] == q[1..][|path[1..]|..]
  {
    assert path == [path[0]] + path[1..] && q == [q[0]] + q[1..];
  }

  /** Insertion succeeds below directories, and every path then holds what it should. */
  lemma {:induction false} InsertShapes(files: Files, path: Path, node: Json)
    requires path != [] && PathIsOpen(files, path)
    ensures Insert(files, path, node).Ok?
    ensures forall q: Path :: q != [] ==>
              ShapeAt(Insert(files, path, node).value, q) == ShapeAfter(files, path, node, q)
    decreases |path|
  {
    if |path| == 1 {
      forall q: Path | q != []
        ensures ShapeAt(Insert(files, path, node).value, q) == ShapeAfter(files, path, node, q)
      {
        assert path <= q <==> q[0] == path[0];
      }
    } else {
      InnerIsOpen(files, path);
      var child := Through(files, path);
      var inner := FilesOf(child).value;
      InsertShapes(inner, path[1..], node);
      var changed := Insert(inner, path[1..], node).value;
      WithFilesShape(child, changed);
      forall q: Path | q != []
        ensures ShapeAt(Insert(files, path, node).value, q) == ShapeAfter(files, path, node, q)
      {
        InsertShapeAt(files, path, node, changed, q);
      }
    }
  }

  lemma InsertShapeAt(files: Files, path: Path, node: Json, changed: Files, q: Path)
    requires |path| > 1 && q != [] && FilesOf(Through(files, path)).Some?
    requires var inner := FilesOf(Through(files, path)).value;
             |q| > 1 ==> ShapeAt(changed, q[1..]) == ShapeAfter(inner, path[1..], node, q[1..])
    ensures ShapeAt(files[path[0] := WithFiles(Through(files, path), changed)], q) == ShapeAfter(files, path, node, q)
  {
    WithFilesShape(Through(files, path), changed);
    NewDirectoryShape();
    if q[0] == path[0] {
      if |q| == 1 {
        assert q == path[..1] && q < path;
      } else {
        PrefixTails(path, q);
        InnerShapes(files, path, q);
      }
    }
  }

  lemma InnerIsClosed(files: Files, path: Path)
    requires |path| > 1 && FilesOf(Through(files, path)).Some?
    requires PathIsOpen(FilesOf(Through(files, path)).value, path[1..])
    ensures PathIsOpen(files, path)
  {
    NewDirectoryShape();
    var inner := FilesOf(Through(files, path)).value;
    forall k | 1 <= k < |path|
      ensures !ShapeAt(files, path[..k]).Leaf?
    {
      if k == 1 {
        assert path[..1] == [path[0]];
      } else {
        TailOfPrefix(path, k);
        InnerShapes(files, path, path[..k]);
        assert !ShapeAt(inner, path[1..][..k - 1]).Leaf?;
      }
    }
  }

  /** Insertion fails exactly for an empty path or where a file stands in the way. */
  lemma {:induction false} InsertFailsExactlyWhen(files: Files, path: Path, node: Json)
    ensures Insert(files, path, node).Err? <==> path == [] || !PathIsOpen(files, path)
    decreases |path|
  {
    if path != [] && PathIsOpen(files, path) {
      InsertShapes(files, path, node);
    } else if |path| > 1 && FilesOf(Through(files, path)).Some? {
      InsertFailsExactlyWhen(FilesOf(Through(files, path)).value, path[1..], node);
      if PathIsOpen(FilesOf(Through(files, path)).value, path[1..]) {
        InnerIsClosed(files, path);
      }
    }
  }

  // ---- All insertions ----

  predicate UnderAny(entries: seq<Entry>, q: Path) {
    exists e :: e in entries && e.0 <= q
  }

  predicate AboveAny(entries: seq<Entry>, q: Path) {
    exists e :: e in entries && q < e.0
  }

  /** At and below an inserted path: the source. Above one: a directory. Elsewhere: as it was. */
  function MergedShape(source: Files, merged: Files, entries: seq<Entry>, q: Path): Shape
    requires q != []
  {
    if UnderAny(entries, q) then ShapeAt(source, q)
    else if AboveAny(entries, q) then AsDirectory(ShapeAt(merged, q))
    else ShapeAt(merged, q)
  }

  predicate Sourced(source: Files, e: Entry) {
    e.0 != [] && Lookup(source, e.0) == Some(e.1)
  }

  ghost predicate HasShapes(files: Files, source: Files, merged: Files, entries: seq<Entry>) {
    forall q: Path :: q != [] ==> ShapeAt(files, q) == MergedShape(source, merged, entries, q)
  }

  /** Above an existing path the source has directories. */
  lemma {:induction false} SourceDirectory(source: Files, path: Path, q: Path)
    requires path != [] && Lookup(source, path).Some? && q != [] && q < path
    ensures ShapeAt(source, q).Directory?
    decreases |path|
  {
    if |q| > 1 {
      PrefixTails(path, q);
      SourceDirectory(FilesOf(source[path[0]]).value, path[1..], q[1..]);
    }
  }

  lemma StaysOpen(files: Files, source: Files, merged: Files, entries: seq<Entry>, e: Entry)
    requires HasShapes(files, source, merged, entries) && Sourced(source, e) && PathIsOpen(merged, e.0)
    ensures PathIsOpen(files, e.0)
  {
    forall k | 1 <= k < |e.0|
      ensures !ShapeAt(files, e.0[..k]).Leaf?
    {
      var q := e.0[..k];
      assert q < e.0;
      SourceDirectory(source, e.0, q);
      assert !ShapeAt(merged, q).Leaf?;
      assert ShapeAt(files, q) == MergedShape(source, merged, entries, q);
    }
  }

  lemma UnderAnyAppend(entries: seq<Entry>, e: Entry, q: Path)
    ensures UnderAny(entries + [e], q) <==> UnderAny(entries, q) || e.0 <= q
    ensures AboveAny(entries + [e], q) <==> AboveAny(entries, q) || q < e.0
  {
    if x :| x in entries && x.0 <= q {
      assert x in entries + [e];
    }
    if x :| x in entries && q < x.0 {
      assert x in entries + [e];
    }
    assert e in entries + [e];
  }

  lemma MergedShapeStep(source: Files, merged: Files, entries: seq<Entry>, e: Entry, files: Files, q: Path)
    requires q != [] && Sourced(source, e) && ShapeAt(files, q) == MergedShape(source, merged, entries, q)
    ensures ShapeAfter(files, e.0, e.1, q) == MergedShape(source, merged, entries + [e], q)
  {
    UnderAnyAppend(entries, e, q);
    if e.0 <= q {
      assert q == e.0 + q[|e.0|..];
      ShapeThrough(source, e.0, q[|e.0|..]);
    } else if q < e.0 {
      SourceDirectory(source, e.0, q);
    }
  }

  lemma NothingInserted(source: Files, merged: Files)
    ensures HasShapes(merged, source, merged, [])
  {
  }

  /** Entries of one source go into any header that has no file in their way, in any order, and what
      every path then holds depends only on the set of entries. */
  lemma {:induction false} ReinsertShapes(source: Files, merged: Files, entries: seq<Entry>)
    requires forall e :: e in entries ==> Sourced(source, e) && PathIsOpen(merged, e.0)
    ensures InsertAll(merged, entries).Ok?
    ensures HasShapes(InsertAll(merged, entries).value, source, merged, entries)
  {
    if entries == [] {
      NothingInserted(source, merged);
    } else {
      var init, e := entries[..|entries| - 1], entries[|entries| - 1];
      ReinsertShapes(source, merged, init);
      var files := InsertAll(merged, init).value;
      StaysOpen(files, source, merged, init, e);
      InsertShapes(files, e.0, e.1);
      forall q: Path | q != []
        ensures ShapeAt(InsertAll(merged, entries).value, q) == MergedShape(source, merged, entries, q)
      {
        MergedShapeStep(source, merged, init, e, files, q);
        assert entries == init + [e];
      }
    }
  }

  /** A file already in the header is kept exactly when it is not at or below an inserted path, or the
      source held the same there: a packed file below an unpacked directory is replaced. */
  lemma FileIsKeptExactlyWhen(source: Files, merged: Files, entries: seq<Entry>, q: Path)
    requires forall e :: e in entries ==> Sourced(source, e) && PathIsOpen(merged, e.0)
    requires q != [] && ShapeAt(merged, q).Leaf?
    ensures InsertAll(merged, entries).Ok?
    ensures ShapeAt(InsertAll(merged, entries).value, q) == ShapeAt(merged, q) <==>
            !UnderAny(entries, q) || ShapeAt(source, q) == ShapeAt(merged, q)
  {
    ReinsertShapes(source, merged, entries);
    assert ShapeAt(InsertAll(merged, entries).value, q) == MergedShape(source, merged, entries, q);
    forall e | e in entries
      ensures !(q < e.0)
    {
      if q < e.0 {
        NoFileAbove(merged, e.0, q);
      }
    }
  }

  lemma NoFileAbove(files: Files, path: Path, q: Path)
    requires PathIsOpen(files, path) && q != [] && q < path
    ensures !ShapeAt(files, q).Leaf?
  {
    assert path[..|q|] == q;
  }

  // ---- Equality of trees ----

  /** Two nodes with the same shapes below them are the same node. */
  lemma {:induction false} SameShapesSameNode(a: Json, b: Json)
    requires forall rest: Path :: ShapeBelow(a, rest) == ShapeBelow(b, rest)
    ensures a == b
    decreases a
  {
    assert ShapeBelow(a, []) == ShapeBelow(b, []);
    if FilesOf(a).Some? {
      var x, y := FilesOf(a).value, FilesOf(b).value;
      forall name: string
        ensures name in x <==> name in y
        ensures name in x && name in y ==> x[name] == y[name]
      {
        assert ShapeBelow(a, [name]) == ShapeBelow(b, [name]);
        if name in x && name in y {
          ChildShapes(a, b, name);
          SameShapesSameNode(x[name], y[name]);
        }
      }
      assert x == y;
      assert a.fields == (a.fields - {"files"})["files" := Obj(x)];
      assert b.fields == (b.fields - {"files"})["files" := Obj(y)];
    }
  }

  lemma ChildShapes(a: Json, b: Json, name: string)
    requires forall rest: Path :: ShapeBelow(a, rest) == ShapeBelow(b, rest)
    requires FilesOf(a).Some? && FilesOf(b).Some? && name in FilesOf(a).value && name in FilesOf(b).value
    ensures forall rest: Path :: ShapeBelow(FilesOf(a).value[name], rest) == ShapeBelow(FilesOf(b).value[name], rest)
  {
    forall rest: Path
      ensures ShapeBelow(FilesOf(a).value[name], rest) == ShapeBelow(FilesOf(b).value[name], rest)
    {
      assert ([name] + rest)[1..] == rest;
      assert ShapeBelow(a, [name] + rest) == ShapeBelow(b, [name] + rest);
    }
  }

  // ---- Main results ----

  predicate UnpackedShape(shape: Shape) {
    match shape
    case Absent => false
    case Directory(own) => "unpacked" in own && own["unpacked"] == Bool(true)
    case Leaf(node) => IsUnpacked(node)
  }

  predicate Packed(files: Files, q: Path) {
    q != [] && ShapeAt(files, q).Leaf? && !UnpackedShape(ShapeAt(files, q))
  }

  /** The entries are the unpacked nodes of the source. */
  ghost predicate IsCollection(source: Files, entries: seq<Entry>) {
    forall path: Path, node: Json :: (path, node) in entries <==> UnpackedAt(source, path, node)
  }

  predicate IsOverride(q: Path) {
    q == ["index.js"] || q == ["package.json"]
  }

  predicate UnpackedLeaf(source: Files, q: Path) {
    q != [] && ShapeAt(source, q).Leaf? && UnpackedShape(ShapeAt(source, q))
  }

  /** The archive writer packed source files and the two overrides, and no directory as unpacked; it may
      have entered some unpacked files of the source, such as links, in its own way. */
  ghost predicate IsPackedCopy(source: Files, merged: Files) {
    && (forall q: Path :: q != [] && ShapeAt(merged, q).Leaf? ==>
          UnpackedLeaf(source, q) || (Packed(merged, q) && (Packed(source, q) || IsOverride(q))))
    && (forall q: Path :: q != [] && ShapeAt(merged, q).Directory? ==> !UnpackedShape(ShapeAt(merged, q)))
  }

  /** Nothing is unpacked below an overridden name. */
  ghost predicate OverridesAreFiles(source: Files) {
    forall path: Path, node: Json :: UnpackedAt(source, path, node) && |path| > 1 ==> !IsOverride(path[..1])
  }

  /** No packed file below an unpacked directory, and no overridden name unpacked. */
  ghost predicate IsSeparate(source: Files) {
    forall path: Path, node: Json, q: Path :: UnpackedAt(source, path, node) && path <= q ==>
      !Packed(source, q) && !IsOverride(q)
  }

  lemma CopyIsOpen(source: Files, merged: Files, path: Path, node: Json)
    requires IsPackedCopy(source, merged) && OverridesAreFiles(source) && UnpackedAt(source, path, node)
    ensures PathIsOpen(merged, path)
  {
    forall k | 1 <= k < |path|
      ensures !ShapeAt(merged, path[..k]).Leaf?
    {
      assert path[..k] < path;
      SourceDirectory(source, path, path[..k]);
      assert |path[..k]| == 1 ==> path[..k] == path[..1];
    }
  }

  lemma UnpackedByShape(files: Files, q: Path)
    requires q != []
    ensures UnpackedShape(ShapeAt(files, q)) <==> Lookup(files, q).Some? && IsUnpacked(Lookup(files, q).value)
  {
    ShapeOfLookup(files, q);
  }

  /** At and below an inserted path the trees are equal, node for node. */
  lemma RestoredNode(files: Files, source: Files, merged: Files, entries: seq<Entry>, q: Path)
    requires HasShapes(files, source, merged, entries) && q != [] && UnderAny(entries, q)
    ensures Lookup(files, q) == Lookup(source, q)
  {
    ShapeOfLookup(files, q);
    ShapeOfLookup(source, q);
    assert ShapeAt(files, q) == MergedShape(source, merged, entries, q);
    if Lookup(files, q).Some? {
      var a, b := Lookup(files, q).value, Lookup(source, q).value;
      forall rest: Path
        ensures ShapeBelow(a, rest) == ShapeBelow(b, rest)
      {
        ShapeThrough(files, q, rest);
        ShapeThrough(source, q, rest);
        var e :| e in entries && e.0 <= q;
        assert e.0 <= q + rest;
        assert ShapeAt(files, q + rest) == MergedShape(source, merged, entries, q + rest);
      }
      SameShapesSameNode(a, b);
    }
  }

  lemma CopyAccepts(source: Files, merged: Files, entries: seq<Entry>)
    requires IsCollection(source, entries) && IsPackedCopy(source, merged) && OverridesAreFiles(source)
    ensures forall e :: e in entries ==> Sourced(source, e) && PathIsOpen(merged, e.0)
  {
    forall e | e in entries
      ensures Sourced(source, e) && PathIsOpen(merged, e.0)
    {
      assert UnpackedAt(source, e.0, e.1);
      CopyIsOpen(source, merged, e.0, e.1);
    }
  }

  lemma UnpackedLeafIsCollected(source: Files, entries: seq<Entry>, q: Path)
    requires IsCollection(source, entries) && UnpackedLeaf(source, q)
    ensures UnderAny(entries, q)
  {
    UnpackedByShape(source, q);
    var e := (q, Lookup(source, q).value);
    assert UnpackedAt(source, e.0, e.1);
    assert e in entries && e.0 <= q;
  }

  lemma Elsewhere(source: Files, merged: Files, entries: seq<Entry>, q: Path)
    requires IsCollection(source, entries) && IsPackedCopy(source, merged) && q != [] && !UnderAny(entries, q)
    requires forall e :: e in entries ==> PathIsOpen(merged, e.0)
    ensures ShapeAt(merged, q) != Absent ==> MergedShape(source, merged, entries, q) == ShapeAt(merged, q)
    ensures !UnpackedShape(MergedShape(source, merged, entries, q))
    ensures !AboveAny(entries, q) ==> MergedShape(source, merged, entries, q) == ShapeAt(merged, q)
  {
    if UnpackedLeaf(source, q) {
      UnpackedLeafIsCollected(source, entries, q);
    }
    if e :| e in entries && q < e.0 {
      NoFileAbove(merged, e.0, q);
    }
  }

  lemma NotCollected(source: Files, entries: seq<Entry>, q: Path, node: Json)
    requires IsCollection(source, entries) && !UnderAny(entries, q)
    ensures !UnpackedAt(source, q, node)
  {
    assert (q, node).0 <= q;
  }

  /** Main theorem: rewriting the header succeeds; afterwards its unpacked entries are exactly the
      source's, and at and below each the trees are equal, node for node; every other path it held
      holds the same file or directory; and what else is new lies above a restored entry. */
  lemma MergeRestoresUnpacked(source: Files, merged: Files, entries: seq<Entry>, q: Path, node: Json)
    requires IsCollection(source, entries) && IsPackedCopy(source, merged) && OverridesAreFiles(source) && q != []
    ensures InsertAll(merged, entries).Ok?
    ensures var files := InsertAll(merged, entries).value;
            && (UnpackedAt(files, q, node) <==> UnpackedAt(source, q, node))
            && (UnderAny(entries, q) ==> Lookup(files, q) == Lookup(source, q))
            && (!UnderAny(entries, q) && ShapeAt(merged, q) != Absent ==> ShapeAt(files, q) == ShapeAt(merged, q))
            && (!UnderAny(entries, q) && ShapeAt(merged, q) == Absent && ShapeAt(files, q) != Absent ==>
                  AboveAny(entries, q))
  {
    CopyAccepts(source, merged, entries);
    ReinsertShapes(source, merged, entries);
    var files := InsertAll(merged, entries).value;
    assert ShapeAt(files, q) == MergedShape(source, merged, entries, q);
    if UnderAny(entries, q) {
      RestoredNode(files, source, merged, entries, q);
    } else {
      Elsewhere(source, merged, entries, q);
      UnpackedByShape(files, q);
      NotCollected(source, entries, q, node);
    }
  }

  /** No packed file is lost: where the source keeps packed and unpacked apart, each file that the
      writer packed is still there. */
  lemma PackedFilesAreKept(source: Files, merged: Files, entries: seq<Entry>, q: Path)
    requires IsCollection(source, entries) && IsPackedCopy(source, merged) && OverridesAreFiles(source)
    requires IsSeparate(source) && q != [] && ShapeAt(merged, q).Leaf? && !UnpackedLeaf(source, q)
    ensures InsertAll(merged, entries).Ok? && ShapeAt(InsertAll(merged, entries).value, q) == ShapeAt(merged, q)
  {
    forall e | e in entries
      ensures !(e.0 <= q)
    {
      assert UnpackedAt(source, e.0, e.1);
    }
    MergeRestoresUnpacked(source, merged, entries, q, Bool(true));
  }

  /** An unpacked directory with a packed file, the header written for it, and what is then inserted. */
  function UnpackedDirectory(): Json {
    Obj(map["unpacked" := Bool(true), "files" := Obj(map["f" := Other("old")])])
  }

  function DirectoryIn(directory: Json): Files {
    map["d" := directory]
  }

  function WrittenDirectory(): Json {
    Obj(map["files" := Obj(map["f" := Other("new")])])
  }

  lemma FileLookup(directory: Json, name: string)
    requires FilesOf(directory).Some? && name in FilesOf(directory).value
    ensures Lookup(DirectoryIn(directory), ["d", name]) == Some(FilesOf(directory).value[name])
  {
    assert ["d", name][1..] == [name];
  }

  /** A packed file that is lost: the source's node, with the position it had there, replaces the one
      the writer entered. */
  lemma PackedFileCanBeReplaced()
    ensures var source, merged := DirectoryIn(UnpackedDirectory()), DirectoryIn(WrittenDirectory());
            var entries: seq<Entry> := [(["d"], UnpackedDirectory())];
            && UnpackedAt(source, ["d"], UnpackedDirectory())
            && Lookup(merged, ["d", "f"]) == Some(Other("new"))
            && InsertAll(merged, entries).Ok?
            && Lookup(InsertAll(merged, entries).value, ["d", "f"]) == Some(Other("old"))
  {
    var merged := DirectoryIn(WrittenDirectory());
    var entries: seq<Entry> := [(["d"], UnpackedDirectory())];
    FileLookup(UnpackedDirectory(), "f");
    FileLookup(WrittenDirectory(), "f");
    assert entries[..0] == [] && InsertAll(merged, []) == Ok(merged);
    assert merged["d" := UnpackedDirectory()] == DirectoryIn(UnpackedDirectory());
  }

  /** What the collector gathers from a whole header is that collection. */
  lemma CollectedIsCollection(source: Files, entries: seq<Entry>)
    requires Collected(source, [], source.Keys, entries)
    ensures IsCollection(source, entries)
  {
    forall path: Path, node: Json
      ensures (path, node) in entries <==> UnpackedAt(source, path, node)
    {
      if (path, node) in entries {
        assert FromHere(source, [], source.Keys, (path, node));
        assert path[0..] == path;
      }
      assert [] + path == path;
    }
  }
}
