/**
 Promotion of quarantined object files: `promote_objects` in crates/styrene-git-store/src/lib.rs, on
 directories and files.
 */
module Promotion {
  import opened Basics

  type Path = seq<string>

  datatype Node = File(content: Bytes) | Directory(entries: seq<Entry>)

  datatype Entry = Entry(name: string, node: Node)

  /** A path that promoting these entries to `destination` may write, and what it writes there. */
  predicate Promotes(entries: seq<Entry>, destination: Path, path: Path, content: Bytes)
    decreases entries
  {
    exists i :: 0 <= i < |entries| && EntryPromotes(entries[i], destination, path, content)
  }

  predicate EntryPromotes(entry: Entry, destination: Path, path: Path, content: Bytes)
    decreases entry
  {
    if entry.node.File? then path == destination + [entry.name] && content == entry.node.content
    else Promotes(entry.node.entries, destination + [entry.name], path, content)
  }

  /** The host: which paths it refuses to make, and where somebody else has just made a file. */
  datatype Host = Host(refuses: Path -> bool, intruder: Path -> Option<Bytes>)

  type Files = map<Path, Bytes>

  /** No file is gone or changed. */
  predicate Kept(before: Files, after: Files) {
    forall p :: p in before ==> p in after && after[p] == before[p]
  }

  /** A file that a promotion leaves behind: the source's, or one that was in its place a moment before. */
  ghost predicate FromEntry(host: Host, entry: Entry, destination: Path, path: Path, content: Bytes) {
    exists c :: EntryPromotes(entry, destination, path, c) && (content == c || host.intruder(path) == Some(content))
  }

  ghost predicate FromSource(host: Host, entries: seq<Entry>, destination: Path, path: Path, content: Bytes) {
    exists c :: Promotes(entries, destination, path, c) && (content == c || host.intruder(path) == Some(content))
  }

  ghost predicate NewFromEntry(host: Host, entry: Entry, destination: Path, before: Files, after: Files) {
    forall p :: p in after && p !in before ==> FromEntry(host, entry, destination, p, after[p])
  }

  ghost predicate NewFromSource(host: Host, entries: seq<Entry>, destination: Path, before: Files, after: Files) {
    forall p :: p in after && p !in before ==> FromSource(host, entries, destination, p, after[p])
  }

  ghost predicate EntryThere(entry: Entry, destination: Path, files: Files, dirs: set<Path>) {
    forall path, content :: EntryPromotes(entry, destination, path, content) ==> path in files || path in dirs
  }

  /** Every file of the source has its place taken. */
  ghost predicate AllThere(entries: seq<Entry>, destination: Path, files: Files, dirs: set<Path>) {
    forall path, content :: Promotes(entries, destination, path, content) ==> path in files || path in dirs
  }

  /** The host refuses a path that the entries need, or a file stands where they have a directory. */
  predicate Obstructed(host: Host, entries: seq<Entry>, destination: Path, files: Files)
    decreases entries
  {
    exists i :: 0 <= i < |entries| && EntryObstructed(host, entries[i], destination, files)
  }

  predicate EntryObstructed(host: Host, entry: Entry, destination: Path, files: Files)
    decreases entry
  {
    var path := destination + [entry.name];
    || host.refuses(path)
    || (entry.node.Directory? && (path in files || Obstructed(host, entry.node.entries, path, files)))
  }

  class FileSystem {
    const host: Host
    var files: Files
    var dirs: set<Path>

    constructor (host: Host, files: Files, dirs: set<Path>)
      ensures this.host == host && this.files == files && this.dirs == dirs
    {
      this.host, this.files, this.dirs := host, files, dirs;
    }

    /** `create_dir_all` of a directory in an existing one; it fails over a file. */
    method CreateDirectory(path: Path) returns (ok: bool)
      modifies this
      ensures files == old(files)
      ensures dirs == if ok then old(dirs) + {path} else old(dirs)
      ensures ok <==> path !in files && !host.refuses(path)
    {
      ok := path !in files && !host.refuses(path);
      if ok {
        dirs := dirs + {path};
      }
    }

    /** `hard_link`; a file that has just appeared is left as it is, which is no error. */
    method HardLink(path: Path, content: Bytes) returns (ok: bool)
      modifies this
      ensures dirs == old(dirs)
      ensures ok <==> path in old(files) || host.intruder(path).Some? || !host.refuses(path)
      ensures files == if path in old(files) then old(files)
                       else if host.intruder(path).Some? then old(files)[path := host.intruder(path).value]
                       else if ok then old(files)[path := content]
                       else old(files)
    {
      if path in files {
        return true;
      }
      if host.intruder(path).Some? {
        files := files[path := host.intruder(path).value];
        return true;
      }
      ok := !host.refuses(path);
      if ok {
        files := files[path := content];
      }
    }

    method PromoteEntry(entry: Entry, destination: Path) returns (ok: bool)
      modifies this
      ensures old(dirs) <= dirs && Kept(old(files), files)
      ensures NewFromEntry(host, entry, destination, old(files), files)
      ensures ok ==> EntryThere(entry, destination, files, dirs)
      ensures !ok ==> EntryObstructed(host, entry, destination, files)
      decreases entry
    {
      var path := destination + [entry.name];
      match entry.node {
        case Directory(below) =>
          ok := CreateDirectory(path);
          if ok {
            ok := Promote(below, path);
            forall p | p in files && p !in old(files)
              ensures FromEntry(host, entry, destination, p, files[p])
            {
              assert FromSource(host, below, path, p, files[p]);
              var c :| Promotes(below, path, p, c) && (files[p] == c || host.intruder(p) == Some(files[p]));
              assert EntryPromotes(entry, destination, p, c);
            }
          }
        case File(content) =>
          if path in files || path in dirs {
            return true;
          }
          ok := HardLink(path, content);
          assert EntryPromotes(entry, destination, path, content);
      }
    }

    /**
     Whether it succeeds or stops half-way, nothing is removed or overwritten and whatever is new is the
     source's; if it succeeds, every file of the source is there, and it fails only over an obstruction.
     */
    method Promote(entries: seq<Entry>, destination: Path) returns (ok: bool)
      modifies this
      ensures old(dirs) <= dirs && Kept(old(files), files)
      ensures NewFromSource(host, entries, destination, old(files), files)
      ensures ok ==> AllThere(entries, destination, files, dirs)
      ensures !ok ==> Obstructed(host, entries, destination, files)
      decreases entries
    {
      ghost var before := files;
      for i := 0 to |entries|
        invariant old(dirs) <= dirs && Kept(before, files)
        invariant NewFromSource(host, entries, destination, before, files)
        invariant forall k :: 0 <= k < i ==> EntryThere(entries[k], destination, files, dirs)
      {
        ghost var earlier, dirsEarlier := files, dirs;
        ok := PromoteEntry(entries[i], destination);
        MoreFromSource(host, entries, destination, i, before, earlier, files);
        if !ok {
          return false;
        }
        forall k | 0 <= k < i
          ensures EntryThere(entries[k], destination, files, dirs)
        {
          StillThere(entries[k], destination, earlier, dirsEarlier, files, dirs);
        }
      }
      ok := true;
    }
  }

  lemma MoreFromSource(host: Host, entries: seq<Entry>, destination: Path, i: nat, before: Files, earlier: Files, after: Files)
    requires i < |entries| && Kept(before, earlier)
    requires NewFromSource(host, entries, destination, before, earlier) && Kept(earlier, after)
    requires NewFromEntry(host, entries[i], destination, earlier, after)
    ensures NewFromSource(host, entries, destination, before, after) && Kept(before, after)
  {
    forall p | p in after && p !in before
      ensures FromSource(host, entries, destination, p, after[p])
    {
      if p !in earlier {
        assert FromEntry(host, entries[i], destination, p, after[p]);
        var c :| EntryPromotes(entries[i], destination, p, c) && (after[p] == c || host.intruder(p) == Some(after[p]));
        assert Promotes(entries, destination, p, c);
      }
    }
  }

  lemma StillThere(entry: Entry, destination: Path, files: Files, dirs: set<Path>, files': Files, dirs': set<Path>)
    requires EntryThere(entry, destination, files, dirs) && Kept(files, files') && dirs <= dirs'
    ensures EntryThere(entry, destination, files', dirs')
  {
  }

  /** In an object store a file's path is the hash of its content: nobody puts anything else there. */
  ghost predicate ContentAddressed(named: Path -> Bytes, host: Host, entries: seq<Entry>, destination: Path,
                                   before: Files, dirs: set<Path>)
  {
    forall p, c :: Promotes(entries, destination, p, c) ==>
      && c == named(p) && p !in dirs
      && (p in before ==> before[p] == c) && (host.intruder(p).Some? ==> host.intruder(p).value == c)
  }

  /** Then a successful promotion is exactly the union of the two stores. */
  lemma PromotionIsUnion(named: Path -> Bytes, host: Host, entries: seq<Entry>, destination: Path,
                         before: Files, after: Files, dirs: set<Path>)
    requires ContentAddressed(named, host, entries, destination, before, dirs)
    requires Kept(before, after) && NewFromSource(host, entries, destination, before, after)
    requires AllThere(entries, destination, after, dirs)
    ensures forall p, c :: p in after && after[p] == c <==> (p in before && before[p] == c) || Promotes(entries, destination, p, c)
  {
    hide Promotes;
    forall p, c
      ensures p in after && after[p] == c <==> (p in before && before[p] == c) || Promotes(entries, destination, p, c)
    {
      if p in after && p !in before {
        assert FromSource(host, entries, destination, p, after[p]);
      }
    }
  }
}
