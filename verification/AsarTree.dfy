/** The archive header as a tree: collecting the unpacked entries of one header and re-inserting them
    into another. */
module AsarTree {
  import opened Wrappers
  import opened Sequences

  /** JSON as the header uses it; everything but objects and booleans is kept as text. */
  datatype Json = Obj(fields: map<string, Json>) | Bool(value: bool) | Other(text: string)

  type Files = map<string, Json>
  type Path = seq<string>
  type Entry = (Path, Json)

  /** The `files` map of a directory node. */
  function FilesOf(node: Json): (files: Option<Files>)
    ensures files.Some? ==> node.Obj? && "files" in node.fields && node.fields["files"] == Obj(files.value)
  {
    if node.Obj? && "files" in node.fields && node.fields["files"].Obj? then Some(node.fields["files"].fields) else None
  }

  predicate IsUnpacked(node: Json) {
    node.Obj? && "unpacked" in node.fields && node.fields["unpacked"] == Bool(true)
  }

  function Lookup(files: Files, path: Path): Option<Json>
    requires path != []
    decreases |path|
  {
    if path[0] !in files then None
    else if |path| == 1 then Some(files[path[0]])
    else
      var child := FilesOf(files[path[0]]);
      if child.Some? then Lookup(child.value, path[1..]) else None
  }

  predicate UnpackedAt(files: Files, path: Path, node: Json) {
    path != [] && Lookup(files, path) == Some(node) && IsUnpacked(node)
  }

  // ---- Inserting ----

  datatype InsertError = EmptyPath | Collision(component: string)

  const NEW_DIRECTORY := Obj(map["files" := Obj(map[])])

  function WithFiles(node: Json, files: Files): Json
    requires node.Obj?
  {
    Obj(node.fields["files" := Obj(files)])
  }

  function Insert(files: Files, path: Path, node: Json): Result<Files, InsertError>
    decreases |path|
  {
    if path == [] then Err(EmptyPath)
    else if |path| == 1 then Ok(files[path[0] := node])
    else
      var child := if path[0] in files then files[path[0]] else NEW_DIRECTORY;
      var inner := FilesOf(child);
      if inner.None? then Err(Collision(path[0]))
      else
        match Insert(inner.value, path[1..], node)
        case Err(e) => Err(e)
        case Ok(changed) => Ok(files[path[0] := WithFiles(child, changed)])
  }

  function InsertAll(files: Files, entries: seq<Entry>): Result<Files, InsertError> {
    if entries == [] then Ok(files)
    else
      match InsertAll(files, entries[..|entries| - 1])
      case Err(e) => Err(e)
      case Ok(before) => Insert(before, entries[|entries| - 1].0, entries[|entries| - 1].1)
  }

  /** A header being rewritten. */
  class MergedHeader {
    var rootFiles: Files

    constructor (files: Files)
      ensures rootFiles == files
    {
      rootFiles := files;
    }

    /** Entries go in one by one; the first that collides ends the rewrite. */
    method InsertUnpackedEntries(entries: seq<Entry>) returns (error: Option<InsertError>)
      modifies this
      ensures match InsertAll(old(rootFiles), entries)
              case Ok(files) => error == None && rootFiles == files
              case Err(e) => error == Some(e)
    {
      for k := 0 to |entries|
        invariant InsertAll(old(rootFiles), entries[..k]) == Ok(rootFiles)
      {
        assert entries[..k + 1][..k] == entries[..k];
        match Insert(rootFiles, entries[k].0, entries[k].1)
        case Err(e) =>
          FailureStays(old(rootFiles), entries, k + 1);
          return Some(e);
        case Ok(files) =>
          rootFiles := files;
      }
      assert entries[..|entries|] == entries;
      error := None;
    }
  }

  lemma {:induction false} FailureStays(files: Files, entries: seq<Entry>, k: nat)
    requires k <= |entries| && InsertAll(files, entries[..k]).Err?
    ensures InsertAll(files, entries) == InsertAll(files, entries[..k])
  {
    if k == |entries| {
      assert entries[..k] == entries;
    } else {
      var init := entries[..|entries| - 1];
      assert init[..k] == entries[..k];
      FailureStays(files, init, k);
    }
  }

  // ---- Collecting ----

  /** The unpacked entries found so far, and the path of the directory being walked. */
  class Collector {
    var prefix: Path
    var entries: seq<Entry>

    constructor ()
      ensures prefix == [] && entries == []
    {
      prefix, entries := [], [];
    }

    /** Walk one directory, in any order of its names: every unpacked node below it is added, once,
        under its full path and with its node as it is. */
    method CollectIn(directory: Json) returns (ghost added: seq<Entry>)
      requires FilesOf(directory).Some?
      modifies this
      ensures prefix == old(prefix) && entries == old(entries) + added
      ensures Collected(FilesOf(directory).value, old(prefix), FilesOf(directory).value.Keys, added)
      decreases directory
    {
      var files := FilesOf(directory).value;
      var remaining := files.Keys;
      added := [];
      while remaining != {}
        invariant remaining <= files.Keys && prefix == old(prefix)
        invariant entries == old(entries) + added
        invariant Collected(files, prefix, files.Keys - remaining, added)
        decreases |remaining|
      {
        var name :| name in remaining;
        var node := files[name];
        ghost var done := files.Keys - remaining;
        ghost var own: seq<Entry> := [];
        ghost var below: seq<Entry> := [];
        if IsUnpacked(node) {
          entries := entries + [(prefix + [name], node)];
          own := [(prefix + [name], node)];
        }
        if FilesOf(node).Some? {
          prefix := prefix + [name];
          below := CollectIn(node);
          prefix := prefix[..|prefix| - 1];
        }
        NameCollected(files, prefix, done, added, name, own, below);
        AddedTwice(old(entries), added, own, below);
        OneLess(files.Keys, remaining, name);
        added := added + own + below;
        remaining := remaining - {name};
      }
      assert files.Keys - remaining == files.Keys;
    }
  }

  /** The entries of the unpacked nodes below the names walked so far. */
  ghost predicate Collected(files: Files, prefix: Path, done: set<string>, added: seq<Entry>) {
    && (forall e :: e in added ==> FromHere(files, prefix, done, e))
    && (forall path: Path, node: Json :: UnpackedAt(files, path, node) && path[0] in done ==>
          (prefix + path, node) in added)
    && (forall i, j :: 0 <= i < j < |added| ==> added[i].0 != added[j].0)
  }

  predicate FromHere(files: Files, prefix: Path, done: set<string>, e: Entry) {
    && prefix < e.0
    && UnpackedAt(files, e.0[|prefix|..], e.1)
    && e.0[|prefix|] in done
  }

  lemma AddedTwice<T>(before: seq<T>, added: seq<T>, own: seq<T>, below: seq<T>)
    ensures (before + added) + own + below == before + (added + own + below)
  {
  }

  lemma OneLess<T>(all: set<T>, remaining: set<T>, x: T)
    requires x in remaining && remaining <= all
    ensures all - (remaining - {x}) == (all - remaining) + {x}
  {
  }

  /** An entry below a named subdirectory is an entry of the directory. */
  lemma BelowName(files: Files, prefix: Path, name: string, e: Entry)
    requires name in files && FilesOf(files[name]).Some?
    requires FromHere(FilesOf(files[name]).value, prefix + [name], FilesOf(files[name]).value.Keys, e)
    ensures FromHere(files, prefix, {name}, e) && |e.0| > |prefix| + 1
  {
    var rel := e.0[|prefix|..];
    DropTwice(e.0, |prefix|, 1);
    assert rel[0] == (prefix + [name])[|prefix|];
    assert rel[1..] == e.0[|prefix + [name]|..];
  }

  lemma OwnName(files: Files, prefix: Path, name: string)
    requires name in files && IsUnpacked(files[name])
    ensures FromHere(files, prefix, {name}, (prefix + [name], files[name]))
  {
    assert (prefix + [name])[|prefix|..] == [name];
  }

  /** What one name adds: the entries of paths that start with it. */
  lemma NameFrom(files: Files, prefix: Path, name: string, own: seq<Entry>, below: seq<Entry>)
    requires name in files
    requires own == if IsUnpacked(files[name]) then [(prefix + [name], files[name])] else []
    requires if FilesOf(files[name]).Some?
             then Collected(FilesOf(files[name]).value, prefix + [name], FilesOf(files[name]).value.Keys, below)
             else below == []
    ensures forall e :: e in own + below ==> FromHere(files, prefix, {name}, e)
    ensures forall i, j :: 0 <= i < j < |own + below| ==> (own + below)[i].0 != (own + below)[j].0
  {
    forall e | e in below
      ensures FromHere(files, prefix, {name}, e) && |e.0| > |prefix| + 1
    {
      BelowName(files, prefix, name, e);
    }
    if own != [] {
      OwnName(files, prefix, name);
      assert forall i :: 0 <= i < |below| ==> below[i] in below;
    }
  }

  lemma NameComplete(files: Files, prefix: Path, name: string, own: seq<Entry>, below: seq<Entry>, path: Path,
                     node: Json)
    requires name in files && UnpackedAt(files, path, node) && path[0] == name
    requires own == if IsUnpacked(files[name]) then [(prefix + [name], files[name])] else []
    requires if FilesOf(files[name]).Some?
             then Collected(FilesOf(files[name]).value, prefix + [name], FilesOf(files[name]).value.Keys, below)
             else below == []
    ensures (prefix + path, node) in own + below
  {
    if |path| == 1 {
      assert path == [name];
    } else {
      var rel := path[1..];
      assert UnpackedAt(FilesOf(files[name]).value, rel, node);
      assert path == [name] + rel;
      Assoc(prefix, [name], rel);
    }
  }

  lemma NameCollected(files: Files, prefix: Path, done: set<string>, added: seq<Entry>, name: string,
                      own: seq<Entry>, below: seq<Entry>)
    requires Collected(files, prefix, done, added) && name in files && name !in done
    requires own == if IsUnpacked(files[name]) then [(prefix + [name], files[name])] else []
    requires if FilesOf(files[name]).Some?
             then Collected(FilesOf(files[name]).value, prefix + [name], FilesOf(files[name]).value.Keys, below)
             else below == []
    ensures Collected(files, prefix, done + {name}, added + own + below)
  {
    NameFrom(files, prefix, name, own, below);
    Assoc(added, own, below);
    var more := own + below;
    forall path: Path, node: Json | UnpackedAt(files, path, node) && path[0] in done + {name}
      ensures (prefix + path, node) in added + more
    {
      if path[0] == name {
        NameComplete(files, prefix, name, own, below, path, node);
      }
    }
    JoinCollected(files, prefix, done, added, name, more);
  }

  lemma JoinCollected(files: Files, prefix: Path, done: set<string>, added: seq<Entry>, name: string, more: seq<Entry>)
    requires Collected(files, prefix, done, added) && name !in done
    requires forall e :: e in more ==> FromHere(files, prefix, {name}, e)
    requires forall i, j :: 0 <= i < j < |more| ==> more[i].0 != more[j].0
    ensures forall e :: e in added + more ==> FromHere(files, prefix, done + {name}, e)
    ensures forall i, j :: 0 <= i < j < |added + more| ==> (added + more)[i].0 != (added + more)[j].0
  {
    forall i, j | 0 <= i < j < |added + more|
      ensures (added + more)[i].0 != (added + more)[j].0
    {
      if i < |added| <= j {
        assert FromHere(files, prefix, done, added[i]);
        assert FromHere(files, prefix, {name}, more[j - |added|]);
      }
    }
  }
}
