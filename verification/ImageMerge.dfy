/** Merging a module image into another one: cp_afc (jni/utils/misc.c) as an overlay of directory trees, and
    merge_img and the size arithmetic of jni/utils/img.c.

    The handler that the x-functions call on an error is taken to return, so a step that fails changes
    nothing and the copy goes on.  A link that a source directory meets is taken to lead nowhere. */
module ImageMerge {
  import opened Wrappers

  /** `Special` is anything that is neither a directory, a regular file nor a symbolic link. */
  datatype Tree = File(content: string, blocks: nat) | Link(to: string) | Special | Dir(entries: Entries)
  type Entries = map<string, Tree>

  function Get(m: Entries, k: string): Option<Tree> { if k in m then Some(m[k]) else None }

  predicate IsDir(t: Option<Tree>) { t.Some? && t.value.Dir? }

  predicate IsLeaf(t: Option<Tree>) { t.Some? && !t.value.Dir? }

  function Base(t: Option<Tree>): Entries { if IsDir(t) then t.value.entries else map[] }

  /** The source laid over the target: source files win, target-only entries stay, a special source entry
      removes its namesake, and where a directory meets anything else the target stays as it is. */
  function Overlay(s: Tree, t: Option<Tree>): Option<Tree>
    decreases s
  {
    match s
    case Dir(es) => if IsLeaf(t) then t else Some(Dir(OverlayEntries(s, es, Base(t))))
    case _ => if IsDir(t) then t else if s.Special? then None else Some(s)
  }

  function OverlayEntries(s: Tree, es: Entries, base: Entries): Entries
    requires s.Dir? && s.entries == es
    decreases s, 0
  {
    map k | k in es.Keys + base.Keys && (k in es ==> Overlay(es[k], Get(base, k)).Some?) ::
      if k in es then Overlay(es[k], Get(base, k)).value else base[k]
  }

  lemma OverlayEntry(s: Tree, base: Entries, k: string)
    requires s.Dir?
    ensures Get(OverlayEntries(s, s.entries, base), k) ==
      if k in s.entries then Overlay(s.entries[k], Get(base, k)) else Get(base, k)
  {}

  // ------------------------------------------------------------------ what the overlay is

  /** The tree has exactly this file, link or special entry at the path. */
  predicate LeafAt(t: Option<Tree>, path: seq<string>, leaf: Tree)
    decreases |path|
  {
    && !leaf.Dir?
    && t.Some?
    && if path == [] then t.value == leaf
       else t.value.Dir? && LeafAt(Get(t.value.entries, path[0]), path[1..], leaf)
  }

  ghost predicate Occupied(s: Tree, path: seq<string>) { exists leaf :: LeafAt(Some(s), path, leaf) }

  /** The tree has a directory, possibly an empty one, at the path. */
  predicate DirAt(t: Option<Tree>, path: seq<string>)
    decreases |path|
  {
    IsDir(t) && (path == [] || DirAt(Get(t.value.entries, path[0]), path[1..]))
  }

  /** Nothing in the tree is in the way of a leaf at the path: no directory there, no leaf above it. */
  predicate RoomForLeaf(t: Option<Tree>, path: seq<string>)
    decreases |path|
  {
    t.None? || if path == [] then !t.value.Dir?
               else t.value.Dir? && RoomForLeaf(Get(t.value.entries, path[0]), path[1..])
  }

  /** No leaf at the path or above it. */
  predicate RoomForDir(t: Option<Tree>, path: seq<string>)
    decreases |path|
  {
    t.None? || (t.value.Dir? && (path == [] || RoomForDir(Get(t.value.entries, path[0]), path[1..])))
  }

  /** Leaves: those of the source that have room, and the target's wherever the source has none. */
  lemma {:induction false} OverlayLeaves(s: Tree, t: Option<Tree>, path: seq<string>, leaf: Tree)
    ensures LeafAt(Overlay(s, t), path, leaf) <==>
      || (LeafAt(Some(s), path, leaf) && !leaf.Special? && RoomForLeaf(t, path))
      || (LeafAt(t, path, leaf) && !Occupied(s, path))
    decreases s
  {
    if path == [] {
      assert !s.Dir? ==> LeafAt(Some(s), path, s);
    } else if s.Dir? {
      var k, base := path[0], Base(t);
      if k in s.entries {
        OccupiedBelow(s, path);
        OverlayLeaves(s.entries[k], Get(base, k), path[1..], leaf);
        OverlayEntry(s, base, k);
      } else {
        OverlayEntry(s, base, k);
        forall l ensures !LeafAt(Some(s), path, l) { assert Get(s.entries, k).None?; }
      }
    }
  }

  lemma OccupiedBelow(s: Tree, path: seq<string>)
    requires s.Dir? && path != [] && path[0] in s.entries
    ensures Occupied(s, path) <==> Occupied(s.entries[path[0]], path[1..])
  {
    if Occupied(s, path) {
      var leaf :| LeafAt(Some(s), path, leaf);
      assert LeafAt(Some(s.entries[path[0]]), path[1..], leaf);
    }
    if Occupied(s.entries[path[0]], path[1..]) {
      var leaf :| LeafAt(Some(s.entries[path[0]]), path[1..], leaf);
      assert LeafAt(Some(s), path, leaf);
    }
  }

  /** Directories, empty ones included: all of the target's, and those of the source that have room. */
  lemma {:induction false} OverlayDirs(s: Tree, t: Option<Tree>, path: seq<string>)
    ensures DirAt(Overlay(s, t), path) <==> DirAt(t, path) || (DirAt(Some(s), path) && RoomForDir(t, path))
    decreases s
  {
    if path != [] && s.Dir? {
      var k, base := path[0], Base(t);
      OverlayEntry(s, base, k);
      if k in s.entries { OverlayDirs(s.entries[k], Get(base, k), path[1..]); }
    }
  }

  /** A special file in the source deletes a file of the target, and nothing takes its place. */
  lemma SpecialDeletes()
    ensures Overlay(Dir(map["f" := Special]), Some(Dir(map["f" := File("kept", 1)]))) == Some(Dir(map[]))
  {
    var s: Tree := Dir(map["f" := Special]);
    var base: Entries := map["f" := File("kept", 1)];
    OverlayEntry(s, base, "f");
    assert OverlayEntries(s, s.entries, base).Keys == {};
  }

  /** Repeating the copy changes nothing. */
  lemma {:induction false} OverlayTwice(s: Tree, t: Option<Tree>)
    ensures Overlay(s, Overlay(s, t)) == Overlay(s, t)
    decreases s
  {
    if s.Dir? && !IsLeaf(t) {
      var once := OverlayEntries(s, s.entries, Base(t));
      var twice := OverlayEntries(s, s.entries, once);
      forall k | k in s.entries
        ensures Overlay(s.entries[k], Get(once, k)) == Overlay(s.entries[k], Get(Base(t), k))
      {
        OverlayTwice(s.entries[k], Get(Base(t), k));
      }
      assert twice.Keys == once.Keys;
      forall k | k in once ensures twice[k] == once[k] {
        if k in s.entries { assert Overlay(s.entries[k], Get(once, k)) == Overlay(s.entries[k], Get(Base(t), k)); }
      }
      assert twice == once;
    }
  }

  /** No special entry anywhere. */
  ghost predicate Clean(t: Tree)
    decreases t
  {
    match t
    case Special => false
    case Dir(es) => forall k :: k in es ==> Clean(es[k])
    case _ => true
  }

  /** Copying to a place where nothing is yields the source itself exactly when it has no special
      entries. */
  lemma {:induction false} FreshCopy(s: Tree)
    ensures Overlay(s, None) == Some(s) <==> Clean(s)
    decreases s
  {
    if s.Dir? {
      var copy := OverlayEntries(s, s.entries, map[]);
      forall k | k in s.entries ensures Overlay(s.entries[k], None) == Some(s.entries[k]) <==> Clean(s.entries[k]) {
        FreshCopy(s.entries[k]);
      }
      if Clean(s) {
        assert copy.Keys == s.entries.Keys;
        assert copy == s.entries;
      }
    }
  }

  // ------------------------------------------------------------------ cp_afc

  /** The recursive copy; directories are read in an arbitrary order.  mkdir succeeds on
      whatever exists already, and then nothing can be created below it; unlink and open fail on a
      directory. */
  method Copy(s: Tree, t: Option<Tree>) returns (r: Option<Tree>)
    ensures r == Overlay(s, t)
    decreases s
  {
    if s.Dir? {
      var es := s.entries;
      if IsLeaf(t) { return t; }
      var base := if t.Some? then t.value.entries else map[];
      var todo, now := es.Keys, base;
      while todo != {}
        invariant todo <= es.Keys
        invariant forall k :: k !in es || k in todo ==> Get(now, k) == Get(base, k)
        invariant forall k :: k in es && k !in todo ==> Get(now, k) == Overlay(es[k], Get(base, k))
      {
        var k :| k in todo;
        var copied := Copy(es[k], Get(now, k));
        now := if copied.Some? then now[k := copied.value] else now - {k};
        todo := todo - {k};
      }
      EntriesAgree(s, es, base, now);
      r := Some(Dir(now));
    } else if IsDir(t) {
      r := t;
    } else {
      r := if s.Special? then None else Some(s);
    }
  }

  lemma EntriesAgree(s: Tree, es: Entries, base: Entries, now: Entries)
    requires s.Dir? && s.entries == es
    requires forall k :: Get(now, k) == if k in es then Overlay(es[k], Get(base, k)) else Get(base, k)
    ensures now == OverlayEntries(s, es, base)
  {
    var r := OverlayEntries(s, es, base);
    assert now.Keys == r.Keys by {
      forall k ensures k in now <==> k in r { assert Get(now, k).Some? <==> k in now; }
    }
    forall k | k in now ensures now[k] == r[k] { assert Get(now, k) == Some(now[k]); }
  }

  // ------------------------------------------------------------------ merge_img

  const CORE := ".core"
  const LOST := "lost+found"

  /** A directory of the source image that is a module. */
  predicate IsModule(s: Entries, k: string) { k in s && s[k].Dir? && k != CORE && k != LOST }

  /** access follows links: a link in the target counts as an old module only if it is `live`. */
  predicate Found(t: Entries, live: set<string>, k: string) { k in t && (t[k].Link? ==> k in live) }

  /** The target without the old versions of the modules that the source brings along. */
  function Cleared(s: Entries, t: Entries, live: set<string>): Entries {
    map k | k in t && !(IsModule(s, k) && Found(t, live, k)) :: t[k]
  }

  /** merge_img between the two mounts: old versions of modules are removed, then everything is
      copied. */
  method MergeTrees(s: Entries, t: Entries, live: set<string>) returns (r: Entries)
    ensures Overlay(Dir(s), Some(Dir(Cleared(s, t, live)))) == Some(Dir(r))
  {
    var now, todo := t, s.Keys;
    while todo != {}
      invariant todo <= s.Keys
      invariant forall k ::
        Get(now, k) == if IsModule(s, k) && k !in todo && Found(t, live, k) then None else Get(t, k)
    {
      var k :| k in todo;
      assert Get(now, k) == Get(t, k);
      if s[k].Dir? && k != CORE && k != LOST {
        if Found(now, live, k) { now := now - {k}; }
      }
      todo := todo - {k};
    }
    ClearedIs(s, t, live, now);
    var copied := Copy(Dir(s), Some(Dir(now)));
    r := copied.value.entries;
  }

  lemma ClearedIs(s: Entries, t: Entries, live: set<string>, now: Entries)
    requires forall k :: Get(now, k) == if IsModule(s, k) && Found(t, live, k) then None else Get(t, k)
    ensures now == Cleared(s, t, live)
  {
    var c := Cleared(s, t, live);
    forall k ensures k in now <==> k in c { assert Get(now, k).Some? <==> k in now; }
    forall k | k in now ensures now[k] == c[k] { assert Get(now, k) == Some(now[k]); }
    assert now.Keys == c.Keys;
  }

  ghost function Merged(s: Entries, t: Entries, live: set<string>): Entries {
    Overlay(Dir(s), Some(Dir(Cleared(s, t, live)))).value.entries
  }

  /** Module by module: a source module replaces the target's whatever that was, unless it was a dangling
      link; a target-only entry is untouched, and everything else of the source is laid over its
      namesake. */
  lemma MergedEntry(s: Entries, t: Entries, live: set<string>, k: string)
    ensures Get(Merged(s, t, live), k) ==
      if k in s && s[k].Dir? && k != ".core" && k != "lost+found"
      then if k in t && t[k].Link? && k !in live then Some(t[k]) else Overlay(s[k], None)
      else if k in s then Overlay(s[k], Get(t, k))
      else Get(t, k)
  {
    assert Get(Cleared(s, t, live), k) == if IsModule(s, k) && Found(t, live, k) then None else Get(t, k);
    OverlayEntry(Dir(s), Cleared(s, t, live), k);
  }

  /** A module arrives exactly as it is in the source if and only if it has no special entries and no
      dangling link bears its name in the target. */
  lemma ModuleArrives(s: Entries, t: Entries, live: set<string>, k: string)
    requires IsModule(s, k)
    ensures Get(Merged(s, t, live), k) == Some(s[k]) <==> Clean(s[k]) && (k in t ==> Found(t, live, k))
  {
    MergedEntry(s, t, live, k);
    FreshCopy(s[k]);
  }

  /** An input: the module is lost, the dangling link stays. */
  lemma ModuleLost()
    ensures var s: Entries, t: Entries := map["m" := Dir(map[])], map["m" := Link("gone")];
      IsModule(s, "m") && Get(Merged(s, t, {}), "m") == Some(Link("gone"))
  {
    var s: Entries, t: Entries := map["m" := Dir(map[])], map["m" := Link("gone")];
    MergedEntry(s, t, {}, "m");
  }

  // ------------------------------------------------------------------ sizes

  ghost function Sum(ks: set<string>, f: string -> nat): nat {
    if ks == {} then 0
    else
      var k :| k in ks;
      f(k) + Sum(ks - {k}, f)
  }

  lemma {:induction false} SumPick(ks: set<string>, f: string -> nat, k: string)
    requires k in ks
    ensures Sum(ks, f) == f(k) + Sum(ks - {k}, f)
  {
    var x :| x in ks && Sum(ks, f) == f(x) + Sum(ks - {x}, f);
    if x != k {
      SumPick(ks - {x}, f, k);
      SumPick(ks - {k}, f, x);
      assert ks - {x} - {k} == ks - {k} - {x};
    }
  }

  /** Entry by entry, `f` is at most `g` and `h` together; `g` and `h` may have other entries. */
  lemma {:induction false} SumBound(fs: set<string>, gs: set<string>, hs: set<string>,
                                      f: string -> nat, g: string -> nat, h: string -> nat)
    requires forall k :: k in fs ==> f(k) <= (if k in gs then g(k) else 0) + if k in hs then h(k) else 0
    ensures Sum(fs, f) <= Sum(gs, g) + Sum(hs, h)
    decreases fs
  {
    if fs != {} {
      var k :| k in fs;
      SumPick(fs, f, k);
      if k in gs { SumPick(gs, g, k); }
      if k in hs { SumPick(hs, h, k); }
      SumBound(fs - {k}, gs - {k}, hs - {k}, f, g, h);
      assert k !in gs ==> gs - {k} == gs;
      assert k !in hs ==> hs - {k} == hs;
    }
  }

  /** `room` gives the blocks of a directory with certain names: fewer names need no more, and two
      directories' own blocks are enough for the names of both. */
  ghost predicate Roomy(room: set<string> -> nat) {
    && (forall a, b :: a <= b ==> room(a) <= room(b))
    && (forall a, b :: room(a + b) <= room(a) + room(b))
  }

  /** The blocks of a tree: those of each file, one for a link or special file, and those of each
      directory. */
  ghost function Size(t: Tree, room: set<string> -> nat): nat
    decreases t
  {
    match t
    case File(_, n) => n
    case Dir(es) => room(es.Keys) + Sum(es.Keys, Sizes(t, es, room))
    case _ => 1
  }

  ghost function Sizes(t: Tree, es: Entries, room: set<string> -> nat): string -> nat
    requires t.Dir? && t.entries == es
    decreases t, 0
  {
    k => if k in es then Size(es[k], room) else 0
  }

  ghost function OptSize(t: Option<Tree>, room: set<string> -> nat): nat { if t.Some? then Size(t.value, room) else 0 }

  /** The overlay needs no more blocks than source and target together. */
  lemma {:induction false} OverlaySize(s: Tree, t: Option<Tree>, room: set<string> -> nat)
    requires Roomy(room)
    ensures OptSize(Overlay(s, t), room) <= Size(s, room) + OptSize(t, room)
    decreases s
  {
    if s.Dir? && !IsLeaf(t) {
      var base := Base(t);
      var b, r := Dir(base), Dir(OverlayEntries(s, s.entries, base));
      var f, g, h := Sizes(r, r.entries, room), Sizes(s, s.entries, room), Sizes(b, base, room);
      forall k | k in r.entries
        ensures f(k) <= (if k in s.entries.Keys then g(k) else 0) + if k in base.Keys then h(k) else 0
      {
        OverlayEntry(s, base, k);
        if k in s.entries { OverlaySize(s.entries[k], Get(base, k), room); }
      }
      SumBound(r.entries.Keys, s.entries.Keys, base.Keys, f, g, h);
      DirRoom(r.entries.Keys, s.entries.Keys, base.Keys, room);
      assert t.None? ==> base.Keys == {} && r.entries.Keys <= s.entries.Keys;
    }
  }

  lemma DirRoom(r: set<string>, s: set<string>, t: set<string>, room: set<string> -> nat)
    requires Roomy(room) && r <= s + t
    ensures room(r) <= room(s) + room(t)
  {
    assert room(r) <= room(s + t) <= room(s) + room(t);
  }

  lemma ClearedSize(s: Entries, t: Entries, live: set<string>, room: set<string> -> nat)
    requires Roomy(room)
    ensures Size(Dir(Cleared(s, t, live)), room) <= Size(Dir(t), room)
  {
    var c := Cleared(s, t, live);
    assert c.Keys <= t.Keys;
    SumBound(c.Keys, t.Keys, {}, Sizes(Dir(c), c, room), Sizes(Dir(t), t, room), Sizes(Dir(t), t, room));
  }

  const BLOCKS_PER_MB := 256

  /** get_img_size: megabytes used, from the blocks used. */
  function UsedMb(blocks: nat): nat { blocks / BLOCKS_PER_MB + 1 }

  /** The megabytes that hold the blocks, and never one more than it takes. */
  lemma UsedMbIs(blocks: nat)
    ensures 256 * (UsedMb(blocks) - 1) <= blocks < 256 * UsedMb(blocks)
  {}

  /** round_size. */
  function RoundSize(mb: nat): nat { (mb / 32 + 2) * 32 }

  /** The size that merge_img gives the target holds the merged tree, with 32 megabytes to spare,
      whatever the two images contain. */
  lemma MergedFits(s: Entries, t: Entries, live: set<string>, room: set<string> -> nat, sUsed: nat, tUsed: nat)
    requires Roomy(room) && Size(Dir(s), room) <= sUsed && Size(Dir(t), room) <= tUsed
    ensures Size(Dir(Merged(s, t, live)), room) + 32 * BLOCKS_PER_MB <=
            BLOCKS_PER_MB * RoundSize(UsedMb(sUsed) + UsedMb(tUsed))
  {
    OverlaySize(Dir(s), Some(Dir(Cleared(s, t, live))), room);
    ClearedSize(s, t, live, room);
    Rounding(UsedMb(sUsed) + UsedMb(tUsed));
  }

  lemma Rounding(mb: nat)
    ensures mb + 32 < RoundSize(mb) <= mb + 64
  {}

  /** trim_img: the new size holds what is used. */
  lemma TrimmedFits(used: nat)
    ensures used + 32 * BLOCKS_PER_MB <= BLOCKS_PER_MB * RoundSize(UsedMb(used))
  {
    Rounding(UsedMb(used));
  }
}
