/**
 * The zip snapshot of the data directory: PGLite.dumpDataDir and PGLite.restoreDataDir.
 * A tree holds the regular files below the data directory with their octets, and the directories.
 */
module Archive {
  import opened Bytes

  /** A name that stands for itself in a path. */
  predicate IsFileName(name: string) {
    name != "" && '/' !in name && name != "." && name != ".."
  }

  type Path = p: seq<string> | p != [] && forall name <- p :: IsFileName(name) witness ["f"]
  type Files = map<Path, bytes>

  /** The directories above a path, the data directory itself excepted. */
  function Ancestors(p: Path): set<Path> {
    set k | 0 < k < |p| :: Ancestor(p, k)
  }

  function Ancestor(p: Path, k: nat): Path
    requires 0 < k < |p|
  {
    p[..k]
  }

  datatype RawTree = Tree(files: Files, dirs: set<Path>)

  /** No path is both a file and a directory, and everything lies in directories. */
  ghost predicate WellFormed(t: RawTree) {
    && (forall p <- t.files :: p !in t.dirs)
    && (forall p <- t.files :: Ancestors(p) <= t.dirs)
    && (forall p <- t.dirs :: Ancestors(p) <= t.dirs)
  }

  type Tree = t: RawTree | WellFormed(t) ghost witness Tree(map[], {})

  datatype Entry = Entry(name: string, content: bytes)

  const SOCKET_PREFIX := ".s.PGSQL."

  /** The files of the emulated socket live in the data directory and are never archived. */
  predicate IsSocket(p: Path) {
    SOCKET_PREFIX <= p[|p| - 1]
  }

  /** The part of a tree that a snapshot keeps. */
  function Stored(t: Files): Files {
    map p | p in t && !IsSocket(p) :: t[p]
  }

  /** Entry names join the path components with slashes. */
  function EntryName(p: seq<string>): string
    requires p != []
  {
    if |p| == 1 then p[0] else p[0] + "/" + EntryName(p[1..])
  }

  /** Resolving an entry name against the data directory cuts it at the slashes. */
  function Resolve(name: string): (p: seq<string>)
    ensures p != []
  {
    if name == "" then [""]
    else
      var rest := Resolve(name[1..]);
      if name[0] == '/' then [""] + rest else [[name[0]] + rest[0]] + rest[1..]
  }

  lemma {:induction false} ResolveFileName(name: string)
    requires '/' !in name
    ensures Resolve(name) == [name]
  {
    if name != "" {
      ResolveFileName(name[1..]);
      assert [name[0]] + name[1..] == name;
    }
  }

  lemma {:induction false} ResolvePrefix(name: string, rest: string)
    requires '/' !in name
    ensures Resolve(name + "/" + rest) == [name] + Resolve(rest)
  {
    var whole := name + "/" + rest;
    if name == "" {
      assert whole[1..] == rest;
    } else {
      ResolvePrefix(name[1..], rest);
      assert whole[1..] == name[1..] + "/" + rest;
      assert [name[0]] + name[1..] == name;
    }
  }

  /** Writing a path as an entry name and resolving that name gives the path back. */
  lemma {:induction false} ResolveEntryName(p: seq<string>)
    requires p != [] && forall name <- p :: IsFileName(name)
    ensures Resolve(EntryName(p)) == p
  {
    assert p[0] in p;
    if |p| == 1 {
      ResolveFileName(p[0]);
    } else {
      ResolveEntryName(p[1..]);
      ResolvePrefix(p[0], EntryName(p[1..]));
      assert [p[0]] + p[1..] == p;
    }
  }

  /** An entry name lists the components with slashes between them. */
  lemma {:induction false} EntryNameMeaning(p: seq<string>, name: string)
    requires p != []
    ensures EntryName([name]) == name
    ensures EntryName(p + [name]) == EntryName(p) + "/" + name
  {
    if |p| == 1 {
      assert (p + [name])[1..] == [name];
    } else {
      EntryNameMeaning(p[1..], name);
      assert (p + [name])[1..] == p[1..] + [name];
      assert (p + [name])[0] == p[0];
    }
  }

  predicate IsDirectory(e: Entry) {
    e.name != "" && e.name[|e.name| - 1] == '/'
  }

  lemma {:induction false} EntryNameNotDirectory(p: seq<string>)
    requires p != [] && forall name <- p :: IsFileName(name)
    ensures EntryName(p) != "" && EntryName(p)[|EntryName(p)| - 1] != '/'
  {
    assert p[0] in p;
    if |p| == 1 {
      assert p[0][|p[0]| - 1] in p[0];
    } else {
      EntryNameNotDirectory(p[1..]);
    }
  }

  /** The entry that archives one file. */
  function EntryOf(t: Files, p: Path): Entry
    requires p in t
  {
    Entry(EntryName(p), t[p])
  }

  /** Every entry archives a kept file of the tree, with its octets, and no file is archived twice. */
  ghost predicate IsPartialArchive(es: seq<Entry>, t: Files) {
    && (forall e <- es :: Resolve(e.name) in Stored(t) && e == EntryOf(t, Resolve(e.name)))
    && (forall i, j :: 0 <= i < j < |es| ==> es[i].name != es[j].name)
  }

  /** A complete archive holds every kept file. */
  ghost predicate IsArchive(es: seq<Entry>, t: Files) {
    && IsPartialArchive(es, t)
    && forall p <- Stored(t) :: EntryOf(t, p) in es
  }

  lemma ExtendArchive(es: seq<Entry>, t: Files, p: Path)
    requires IsPartialArchive(es, t) && p in Stored(t) && EntryOf(t, p) !in es
    ensures IsPartialArchive(es + [EntryOf(t, p)], t)
  {
    ResolveEntryName(p);
    forall e <- es
      ensures e.name != EntryName(p)
    {
      assert e == EntryOf(t, Resolve(e.name));
    }
  }

  /** An archive in plain terms: the files whose name does not start as a socket's does, each with its octets. */
  lemma ArchiveMeaning(es: seq<Entry>, t: Files)
    requires IsArchive(es, t)
    ensures forall p <- t :: Entry(EntryName(p), t[p]) in es <==> !(".s.PGSQL." <= p[|p| - 1])
    ensures forall e <- es :: exists p <- t :: e == Entry(EntryName(p), t[p])
  {
    forall p <- t
      ensures EntryOf(t, p) in es <==> p in Stored(t)
    {
      if EntryOf(t, p) in es {
        ResolveEntryName(p);
      }
    }
    forall e <- es
      ensures exists p <- t :: e == Entry(EntryName(p), t[p])
    {
      assert e == EntryOf(t, Resolve(e.name));
    }
  }

  /** dumpDataDir: walks the tree in any order, skipping socket files. */
  method DumpDataDir(t: Files) returns (es: seq<Entry>)
    ensures IsArchive(es, t)
    ensures forall p <- t :: Entry(EntryName(p), t[p]) in es <==> !(".s.PGSQL." <= p[|p| - 1])
    ensures forall e <- es :: exists p <- t :: e == Entry(EntryName(p), t[p])
  {
    es := [];
    var todo := t.Keys;
    while todo != {}
      invariant todo <= t.Keys
      invariant IsPartialArchive(es, t)
      invariant forall p <- Stored(t) :: p in todo || EntryOf(t, p) in es
      invariant forall e <- es :: Resolve(e.name) !in todo
      decreases todo
    {
      var p :| p in todo;
      ResolveEntryName(p);
      todo := todo - {p};
      if !IsSocket(p) {
        ExtendArchive(es, t, p);
        es := es + [EntryOf(t, p)];
      }
    }
    ArchiveMeaning(es, t);
  }

  // ------------------------------------------------------------------ restore

  /** An archive whose file entries name files below the data directory. */
  ghost predicate Restorable(es: seq<Entry>) {
    forall e <- es :: !IsDirectory(e) ==> forall name <- Resolve(e.name) :: IsFileName(name)
  }

  /** A file is where a directory above `p` is needed: creating the directories fails. */
  predicate FileAbove(t: RawTree, p: Path) {
    exists k :: 0 < k < |p| && Ancestor(p, k) in t.files
  }

  /** `p` is a directory that is not empty: deleting it fails. */
  predicate Occupied(t: RawTree, p: Path) {
    (exists q <- t.files :: p < q) || (exists q <- t.dirs :: p < q)
  }

  /** Writing one file: its directories are created, and a file or an empty directory in its place is replaced. */
  function Extract(t: Tree, p: Path, content: bytes): Option<Tree> {
    if FileAbove(t, p) || Occupied(t, p) then None
    else
      ExtractWellFormed(t, p, content);
      Some(Tree(t.files[p := content], t.dirs + Ancestors(p) - {p}))
  }

  lemma ExtractWellFormed(t: Tree, p: Path, content: bytes)
    requires !FileAbove(t, p) && !Occupied(t, p)
    ensures WellFormed(Tree(t.files[p := content], t.dirs + Ancestors(p) - {p}))
  {
    var dirs := t.dirs + Ancestors(p) - {p};
    forall q: Path | q in t.files || q in t.dirs || q in Ancestors(p)
      ensures Ancestors(q) <= dirs
    {
      AncestorsShorter(q);
      if q in Ancestors(p) {
        AncestorsNest(p, q);
        AncestorsShorter(p);
      }
    }
    AncestorsShorter(p);
  }

  lemma AncestorsShorter(p: Path)
    ensures forall q <- Ancestors(p) :: q < p
  {
  }

  lemma AncestorsNest(p: Path, q: Path)
    requires q in Ancestors(p)
    ensures Ancestors(q) <= Ancestors(p)
  {
    forall r <- Ancestors(q)
      ensures r in Ancestors(p)
    {
      assert r == Ancestor(q, |r|) == Ancestor(p, |r|);
    }
  }

  /** The tree after extracting the entries, in order, over the given one; None when an exception ends the restore. */
  function Restored(es: seq<Entry>, t: Tree): Option<Tree>
    requires Restorable(es)
  {
    if es == [] then Some(t)
    else
      var before := Restored(es[..|es| - 1], t);
      var e := es[|es| - 1];
      if before.None? || IsDirectory(e) then before else Extract(before.value, Resolve(e.name), e.content)
  }

  /** restoreDataDir. */
  method RestoreDataDir(es: seq<Entry>, defaults: Tree) returns (r: Option<Tree>)
    requires Restorable(es)
    ensures r == Restored(es, defaults)
  {
    var t := defaults;
    for i := 0 to |es|
      invariant Restored(es[..i], defaults) == Some(t)
    {
      assert es[..i + 1][..i] == es[..i];
      if IsDirectory(es[i]) {
        continue;
      }
      var next := ExtractEntry(t, Resolve(es[i].name), es[i].content);
      if next.None? {
        RestoreStops(es, i + 1, defaults);
        return None;
      }
      t := next.value;
    }
    assert es[..|es|] == es;
    return Some(t);
  }

  /** Lines 337 to 340: createDirectories, deleteIfExists, copy. */
  method ExtractEntry(t: Tree, p: Path, content: bytes) returns (r: Option<Tree>)
    ensures r == Extract(t, p, content)
  {
    var files, dirs := t.files, t.dirs;
    if FileAbove(t, p) {
      return None;
    }
    dirs := dirs + Ancestors(p);
    if Occupied(t, p) {
      return None;
    }
    files, dirs := files - {p}, dirs - {p};
    files := files[p := content];
    ExtractWellFormed(t, p, content);
    assert files == t.files[p := content];
    return Some(Tree(files, dirs));
  }

  /** An exception ends the restore. */
  lemma {:induction false} RestoreStops(es: seq<Entry>, i: nat, defaults: Tree)
    requires i <= |es| && Restorable(es) && Restored(es[..i], defaults).None?
    ensures Restored(es, defaults).None?
    decreases |es| - i
  {
    if i == |es| {
      assert es[..i] == es;
    } else {
      assert es[..i + 1][..i] == es[..i];
      RestoreStops(es, i + 1, defaults);
    }
  }

  // --------------------------------------------------------------- round trip

  /** No file of `fs` is where `d` needs a directory, or the other way round. */
  ghost predicate Compatible(fs: Files, d: RawTree) {
    forall p <- fs :: !FileAbove(d, p) && !Occupied(d, p)
  }

  ghost function AllAncestors(fs: Files): set<Path> {
    set p, q | p in fs && q in Ancestors(p) :: q
  }

  /** The tree `d` with the files `fs` written over it. */
  ghost function Over(fs: Files, d: RawTree): RawTree {
    Tree(d.files + fs, d.dirs + AllAncestors(fs) - fs.Keys)
  }

  /** Files of one tree never lie below each other. */
  lemma FilesApart(t: Tree, p: Path, q: Path)
    requires p in t.files && q in t.files
    ensures !(p < q)
  {
    if p < q {
      PrefixIsAncestor(p, q);
      assert false;
    }
  }

  lemma PrefixIsAncestor(p: Path, q: Path)
    requires p < q
    ensures p in Ancestors(q)
  {
    assert p == Ancestor(q, |p|);
  }

  ghost predicate Apart(fs: Files, p: Path) {
    forall q <- fs :: !(p < q) && !(q < p)
  }

  /** Files written before do not decide whether a file that lies apart from them can be written. */
  lemma OverClashes(fs: Files, d: RawTree, p: Path)
    requires Apart(fs, p)
    ensures FileAbove(Over(fs, d), p) <==> FileAbove(d, p)
    ensures Occupied(Over(fs, d), p) <==> Occupied(d, p)
  {
    var o := Over(fs, d);
    if FileAbove(o, p) {
      var k :| 0 < k < |p| && Ancestor(p, k) in o.files;
      assert Ancestor(p, k) < p;
    }
    forall q <- AllAncestors(fs)
      ensures !(p < q)
    {
      var r :| r in fs && q in Ancestors(r);
      AncestorsShorter(r);
      if p < q {
        PrefixTrans(p, q, r);
        assert false;
      }
    }
    if Occupied(d, p) {
      if q :| q in d.files && p < q {
        assert q in o.files;
      } else {
        var q :| q in d.dirs && p < q;
        assert q in o.dirs;
      }
    }
  }

  lemma PrefixTrans(p: Path, q: Path, r: Path)
    requires p < q < r
    ensures p < r
  {
  }

  lemma OverSnoc(fs: Files, d: RawTree, p: Path, content: bytes)
    requires Apart(fs, p)
    ensures Over(fs[p := content], d)
         == Tree(Over(fs, d).files[p := content], Over(fs, d).dirs + Ancestors(p) - {p})
  {
    AllAncestorsSnoc(fs, p, content);
    AncestorsApart(fs, p);
    RemoveLast(d.dirs, AllAncestors(fs), Ancestors(p), fs.Keys, p);
    MergeUpdate(d.files, fs, p, content);
  }

  lemma MergeUpdate(a: Files, b: Files, p: Path, content: bytes)
    ensures a + b[p := content] == (a + b)[p := content]
    ensures b[p := content].Keys == b.Keys + {p}
  {
  }

  lemma AncestorsApart(fs: Files, p: Path)
    requires Apart(fs, p)
    ensures Ancestors(p) !! fs.Keys
  {
    AncestorsShorter(p);
  }

  lemma AllAncestorsSnoc(fs: Files, p: Path, content: bytes)
    ensures AllAncestors(fs[p := content]) == AllAncestors(fs) + Ancestors(p)
  {
  }

  lemma RemoveLast<T>(dirs: set<T>, above: set<T>, more: set<T>, gone: set<T>, p: T)
    requires more !! gone
    ensures dirs + (above + more) - (gone + {p}) == dirs + above - gone + more - {p}
  {
  }

  /** The kept files that some entries archive. */
  ghost function Covered(es: seq<Entry>, t: Files): Files {
    map p | p in Stored(t) && EntryOf(t, p) in es :: t[p]
  }

  lemma CoveredSnoc(es: seq<Entry>, t: Files, p: Path)
    requires p in Stored(t)
    ensures Covered(es + [EntryOf(t, p)], t) == Covered(es, t)[p := t[p]]
  {
    var es' := es + [EntryOf(t, p)];
    ResolveEntryName(p);
    forall q <- Stored(t) | EntryOf(t, q) == EntryOf(t, p)
      ensures q == p
    {
      ResolveEntryName(q);
    }
    assert forall q <- Stored(t) :: EntryOf(t, q) in es' <==> EntryOf(t, q) in es || q == p;
  }

  /** What restoring gives: the files over the tree, if they are compatible with it. */
  ghost predicate Gives(r: Option<Tree>, fs: Files, d: Tree) {
    if Compatible(fs, d) then r.Some? && r.value == Over(fs, d) else r.None?
  }

  /** One more file. */
  lemma GivesSnoc(r: Option<Tree>, fs: Files, d: Tree, p: Path, content: bytes)
    requires Gives(r, fs, d) && Apart(fs, p)
    ensures Gives(if r.None? then None else Extract(r.value, p, content), fs[p := content], d)
  {
    OverClashes(fs, d, p);
    OverSnoc(fs, d, p, content);
    CompatibleSnoc(fs, d, p, content);
  }

  lemma CompatibleSnoc(fs: Files, d: RawTree, p: Path, content: bytes)
    ensures Compatible(fs[p := content], d) <==> Compatible(fs, d) && !FileAbove(d, p) && !Occupied(d, p)
  {
    var fs' := fs[p := content];
    assert p in fs';
    assert forall q <- fs :: q in fs';
  }

  lemma GivesNothing(d: Tree)
    ensures Gives(Some(d), map[], d)
  {
    assert AllAncestors(map[]) == {};
    assert d.files + map[] == d.files;
  }

  /** Restoring any part of an archive writes exactly the archived files, or fails on a clash. */
  lemma {:induction false} RestorePartial(es: seq<Entry>, t: Tree, defaults: Tree)
    requires IsPartialArchive(es, t.files)
    ensures Restorable(es)
    ensures Gives(Restored(es, defaults), Covered(es, t.files), defaults)
    decreases |es|
  {
    if es != [] {
      var front, p := LastEntry(es, t.files);
      RestorePartial(front, t, defaults);
      RestoredSnoc(front, EntryOf(t.files, p), defaults);
      ResolveEntryName(p);
      CoveredSnoc(front, t.files, p);
      CoveredApart(front, t, p);
      GivesSnoc(Restored(front, defaults), Covered(front, t.files), defaults, p, t.files[p]);
    } else {
      assert Covered(es, t.files) == map[];
      GivesNothing(defaults);
    }
  }

  lemma CoveredApart(es: seq<Entry>, t: Tree, p: Path)
    requires p in t.files
    ensures Apart(Covered(es, t.files), p)
  {
    forall q <- Covered(es, t.files)
      ensures !(p < q) && !(q < p)
    {
      FilesApart(t, p, q);
      FilesApart(t, q, p);
    }
  }

  /** Takes the last entry off an archive. */
  lemma LastEntry(es: seq<Entry>, t: Files) returns (front: seq<Entry>, p: Path)
    requires IsPartialArchive(es, t) && es != []
    ensures IsPartialArchive(front, t) && p in Stored(t) && es == front + [EntryOf(t, p)]
    ensures |front| < |es| && !IsDirectory(EntryOf(t, p))
  {
    var n := |es| - 1;
    assert es[n] in es;
    front, p := es[..n], Resolve(es[n].name);
    EntryNameNotDirectory(p);
  }

  lemma RestoredSnoc(es: seq<Entry>, e: Entry, defaults: Tree)
    requires Restorable(es) && Restorable(es + [e]) && !IsDirectory(e)
    requires forall name <- Resolve(e.name) :: IsFileName(name)
    ensures Restored(es + [e], defaults)
         == var before := Restored(es, defaults);
            if before.None? then None else Extract(before.value, Resolve(e.name), e.content)
  {
    assert (es + [e])[..|es|] == es;
  }

  /**
   * Dump and restore round trip: restoring an archive of `t` over `defaults` fails if and only if a kept file of one is
   * above or below a path of the other; otherwise it gives t's octets at every kept path of t and the default octets
   * everywhere else.
   */
  lemma RestoreArchive(es: seq<Entry>, t: Tree, defaults: Tree)
    requires IsArchive(es, t.files)
    ensures Restorable(es)
    ensures Restored(es, defaults).Some? <==> Compatible(Stored(t.files), defaults)
    ensures Restored(es, defaults).Some? ==>
              && Restored(es, defaults).value.files == defaults.files + Stored(t.files)
              && Restored(es, defaults).value == Over(Stored(t.files), defaults)
  {
    RestorePartial(es, t, defaults);
    assert Covered(es, t.files) == Stored(t.files);
  }

  /** The same in plain terms, path by path. */
  lemma RestoreMeaning(es: seq<Entry>, t: Tree, defaults: Tree)
    requires IsArchive(es, t.files)
    ensures Restorable(es)
    ensures Restored(es, defaults).Some? <==>
            forall p <- t.files | !(".s.PGSQL." <= p[|p| - 1]) ::
              && (forall q <- defaults.files :: !(q < p) && !(p < q))
              && (forall q <- defaults.dirs :: !(p < q))
    ensures Restored(es, defaults).Some? ==>
              forall p: Path :: var files := Restored(es, defaults).value.files;
                if p in t.files && !(".s.PGSQL." <= p[|p| - 1]) then p in files && files[p] == t.files[p]
                else (p in files <==> p in defaults.files) && (p in files ==> files[p] == defaults.files[p])
  {
    RestoreArchive(es, t, defaults);
    CompatibleMeaning(Stored(t.files), defaults);
    assert forall p: Path :: p in Stored(t.files) <==> p in t.files && !(".s.PGSQL." <= p[|p| - 1]);
    if Restored(es, defaults).Some? {
      var files := Restored(es, defaults).value.files;
      forall p: Path
        ensures if p in t.files && !(".s.PGSQL." <= p[|p| - 1]) then p in files && files[p] == t.files[p]
                else (p in files <==> p in defaults.files) && (p in files ==> files[p] == defaults.files[p])
      {
        assert p in Stored(t.files) ==> Stored(t.files)[p] == t.files[p];
      }
    }
  }

  lemma CompatibleMeaning(fs: Files, d: RawTree)
    ensures Compatible(fs, d) <==>
            forall p <- fs :: (forall q <- d.files :: !(q < p) && !(p < q)) && (forall q <- d.dirs :: !(p < q))
  {
    forall p <- fs
      ensures !FileAbove(d, p) && !Occupied(d, p)
              <==> (forall q <- d.files :: !(q < p) && !(p < q)) && (forall q <- d.dirs :: !(p < q))
    {
      FileAboveMeaning(d, p);
    }
  }

  lemma FileAboveMeaning(d: RawTree, p: Path)
    ensures FileAbove(d, p) <==> exists q <- d.files :: q < p
  {
    if q :| q in d.files && q < p {
      assert q == Ancestor(p, |q|);
    }
    if k :| 0 < k < |p| && Ancestor(p, k) in d.files {
      assert Ancestor(p, k) < p;
    }
  }

  /** Directory entries are skipped. */
  lemma DirectoriesSkipped(es: seq<Entry>, name: string, content: bytes, defaults: Tree)
    requires Restorable(es)
    ensures Restorable(es + [Entry(name + "/", content)])
    ensures Restored(es + [Entry(name + "/", content)], defaults) == Restored(es, defaults)
  {
    var e := Entry(name + "/", content);
    assert IsDirectory(e);
    assert (es + [e])[..|es|] == es;
  }

  /** The restored files are the dumped ones without the socket files exactly when the defaults add none. */
  lemma RestoreExact(es: seq<Entry>, t: Tree, defaults: Tree)
    requires IsArchive(es, t.files)
    ensures Restorable(es)
    ensures (Restored(es, defaults).Some? && Restored(es, defaults).value.files == Stored(t.files))
            <==> Compatible(Stored(t.files), defaults) && forall p <- defaults.files :: p in Stored(t.files)
  {
    RestoreArchive(es, t, defaults);
    MergeAbsorbs(defaults.files, Stored(t.files));
  }

  lemma MergeAbsorbs(a: Files, b: Files)
    ensures a + b == b <==> forall p <- a :: p in b
  {
    if a + b == b {
      forall p <- a
        ensures p in b
      {
        assert p in a + b;
      }
    }
  }

  /** Entry order does not matter, neither for the result nor for whether there is one. */
  lemma OrderIrrelevant(es: seq<Entry>, es': seq<Entry>, t: Tree, defaults: Tree)
    requires IsArchive(es, t.files) && IsArchive(es', t.files)
    ensures Restorable(es) && Restorable(es')
    ensures Restored(es, defaults) == Restored(es', defaults)
  {
    RestoreArchive(es, t, defaults);
    RestoreArchive(es', t, defaults);
  }

  /** A clash: the dump of a tree with the file a/b cannot be restored over one with the file a. */
  lemma ClashEndsRestore(es: seq<Entry>, below: Tree, above: Tree)
    requires ["a", "b"] in below.files && ["a"] in above.files && IsArchive(es, below.files)
    ensures Restorable(es) && Restored(es, above) == None
  {
    var p: Path := ["a", "b"];
    assert Ancestor(p, 1) == ["a"];
    assert FileAbove(above, p);
    assert p in Stored(below.files);
    RestoreArchive(es, below, above);
  }
}
