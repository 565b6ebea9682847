/** Directory listings: the tree read from the file system, the arrays built from it for JS, and the
    release of the tree. */
module Directory {

  import opened Options

  datatype Stat = Stat(isDir: bool, uri: string, size: nat, mtime: int)

  type Errno = n: int | n > 0 witness 1

  /** The status a failing system call leaves. */
  function Minus(errno: Errno): (r: int)
    ensures r < 0
  {
    0 - errno as int
  }

  /** What looking at a path gives: stat fails, or its path has no app URI, or both are known. */
  datatype Look = Unreadable(errno: Errno) | Unmapped | Readable(stat: Stat)

  datatype Opening = Opens | Refuses(errno: Errno)

  /** A directory entry as the file system shows it: its type according to the directory, what
      looking at it gives, and its own entries if it can be opened. The two may disagree, for a link. */
  datatype Entry = Entry(name: string, look: Look, listedAsDir: bool, opening: Opening, entries: seq<Entry>)

  /** A node of the tree that is built. `id` stands for its allocation. */
  datatype FileInfo = FileInfo(id: nat, isDir: bool, uri: string, length: nat, mtime: int,
                               fileNum: nat, dirNum: nat, children: seq<FileInfo>)

  predicate Dots(e: Entry) {
    e.name == "." || e.name == ".."
  }

  predicate Skipped(e: Entry) {
    Dots(e) || !e.look.Readable?
  }

  /** Whether the entries of a readable entry are read. */
  predicate Entered(e: Entry, deep: bool) {
    deep && e.listedAsDir && e.opening.Opens?
  }

  // ---------------------------------------------------------------- reading

  function CountDirs(fs: seq<FileInfo>): nat {
    if fs == [] then 0 else (if fs[0].isDir then 1 else 0) + CountDirs(fs[1..])
  }

  function CountFiles(fs: seq<FileInfo>): nat {
    if fs == [] then 0 else (if fs[0].isDir then 0 else 1) + CountFiles(fs[1..])
  }

  /** What reading one entry adds to the list, and the next free allocation. */
  function ReadEntry(e: Entry, deep: bool, next: nat): (Option<FileInfo>, nat)
    decreases e
  {
    if Skipped(e) then (None, next)
    else
      var (children, after) :=
        if Entered(e, deep) then ReadEntries(e.entries, deep, next + 1) else ([], next + 1);
      (Some(Node(e.look.stat, next, children)), after)
  }

  function Node(s: Stat, id: nat, children: seq<FileInfo>): FileInfo {
    FileInfo(id, s.isDir, s.uri, if s.isDir then 0 else s.size, s.mtime,
             CountFiles(children), CountDirs(children), children)
  }

  function ReadEntries(es: seq<Entry>, deep: bool, next: nat): (seq<FileInfo>, nat)
    decreases es
  {
    if es == [] then ([], next)
    else
      var (f, n) := ReadEntry(es[0], deep, next);
      var (rest, m) := ReadEntries(es[1..], deep, n);
      (if f.Some? then [f.value] + rest else rest, m)
  }

  // ---------------------------------------------------------------- the status of a call

  /** The status of the request after an entry: every stat overwrites it, a failing opendir does, and
      nothing else. */
  function StatusEntry(e: Entry, deep: bool, r: int): int
    decreases e
  {
    if Dots(e) then r
    else match e.look
      case Unreadable(errno) => Minus(errno)
      case Unmapped => 0
      case Readable(_) =>
        if !deep || !e.listedAsDir then 0
        else match e.opening
          case Refuses(errno) => Minus(errno)
          case Opens => StatusEntries(e.entries, deep, 0)
  }

  function StatusEntries(es: seq<Entry>, deep: bool, r: int): int
    decreases es
  {
    if es == [] then r else StatusEntries(es[1..], deep, StatusEntry(es[0], deep, r))
  }

  /** The results of all stat calls and of the failing opendir calls, in the order in which they are
      made. */
  function Results(e: Entry, deep: bool): seq<int>
    decreases e
  {
    if Dots(e) then []
    else if e.look.Unreadable? then [Minus(e.look.errno)]
    else if !(e.look.Readable? && deep && e.listedAsDir) then [0]
    else if e.opening.Refuses? then [0, Minus(e.opening.errno)]
    else [0] + AllResults(e.entries, deep)
  }

  function AllResults(es: seq<Entry>, deep: bool): seq<int>
    decreases es
  {
    if es == [] then [] else Results(es[0], deep) + AllResults(es[1..], deep)
  }

  function LastOr(rs: seq<int>, r: int): int {
    if rs == [] then r else rs[|rs| - 1]
  }

  lemma LastOfSum(a: seq<int>, b: seq<int>, r: int)
    ensures LastOr(a + b, r) == LastOr(b, LastOr(a, r))
  {
  }

  /** The last result decides. */
  lemma {:induction false} StatusIsLast(e: Entry, deep: bool, r: int)
    ensures StatusEntry(e, deep, r) == LastOr(Results(e, deep), r)
    decreases e
  {
    if !Dots(e) && e.look.Readable? && deep && e.listedAsDir && e.opening.Opens? {
      StatusesAreLast(e.entries, deep, 0);
      LastOfSum([0], AllResults(e.entries, deep), r);
    }
  }

  lemma {:induction false} StatusesAreLast(es: seq<Entry>, deep: bool, r: int)
    ensures StatusEntries(es, deep, r) == LastOr(AllResults(es, deep), r)
    decreases es
  {
    if es != [] {
      StatusIsLast(es[0], deep, r);
      StatusesAreLast(es[1..], deep, StatusEntry(es[0], deep, r));
      LastOfSum(Results(es[0], deep), AllResults(es[1..], deep), r);
    }
  }

  lemma {:induction false} StatusAppend(es: seq<Entry>, e: Entry, deep: bool, r: int)
    ensures StatusEntries(es + [e], deep, r) == StatusEntry(e, deep, StatusEntries(es, deep, r))
    decreases |es|
  {
    if es == [] {
      assert es + [e] == [e] && [e][1..] == [];
      assert StatusEntries([e], deep, r) == StatusEntries([], deep, StatusEntry(e, deep, r));
    } else {
      assert (es + [e])[1..] == es[1..] + [e];
      StatusAppend(es[1..], e, deep, StatusEntry(es[0], deep, r));
    }
  }

  /** An entry that cannot be read fails the whole call when it is the last one, whatever else was
      read, and is passed over in silence when another entry that can be read follows it. */
  lemma UnreadableLastFails(es: seq<Entry>, bad: Entry, good: Entry, deep: bool, r: int)
    requires !Dots(bad) && bad.look.Unreadable? && !Dots(good) && good.look.Readable? && !good.listedAsDir
    ensures StatusEntries(es + [bad], deep, r) == 0 - bad.look.errno as int
    ensures StatusEntries(es + [bad] + [good], deep, r) == 0
  {
    StatusAppend(es, bad, deep, r);
    StatusAppend(es + [bad], good, deep, r);
  }

  /** A directory that cannot be opened fails the whole call when it is the last one tried, and an entry
      without an app URI never does. */
  lemma ClosedLastFails(es: seq<Entry>, closed: Entry, lost: Entry, r: int)
    requires !Dots(closed) && closed.look.Readable? && closed.listedAsDir && closed.opening.Refuses?
    requires !Dots(lost) && lost.look.Unmapped?
    ensures StatusEntries(es + [closed], true, r) == 0 - closed.opening.errno as int
    ensures StatusEntries(es + [closed], false, r) == 0
    ensures forall deep :: StatusEntries(es + [lost], deep, r) == 0
  {
    StatusAppend(es, closed, true, r);
    StatusAppend(es, closed, false, r);
    forall deep ensures StatusEntries(es + [lost], deep, r) == 0 { StatusAppend(es, lost, deep, r); }
  }

  /** The loop over readdir, with the counters that later size the arrays and the status of the
      request, which starts as `r0`. */
  method ReadDir(es: seq<Entry>, deep: bool, next: nat, r0: int)
      returns (list: seq<FileInfo>, fileNum: nat, dirNum: nat, after: nat, r: int)
    ensures (list, after) == ReadEntries(es, deep, next)
    ensures fileNum == CountFiles(list) && dirNum == CountDirs(list)
    ensures r == StatusEntries(es, deep, r0)
    decreases es, 0
  {
    list, fileNum, dirNum, after, r := [], 0, 0, next, r0;
    var i := 0;
    assert es[0..] == es;
    while i < |es|
      invariant 0 <= i <= |es|
      invariant ReadEntries(es, deep, next).0 == list + ReadEntries(es[i..], deep, after).0
      invariant ReadEntries(es, deep, next).1 == ReadEntries(es[i..], deep, after).1
      invariant fileNum == CountFiles(list) && dirNum == CountDirs(list)
      invariant StatusEntries(es, deep, r0) == StatusEntries(es[i..], deep, r)
    {
      assert es[i..][1..] == es[i + 1..];
      var info: Option<FileInfo>;
      info, after, r := ReadOne(es[i], deep, after, r);
      if info.Some? {
        ghost var rest := ReadEntries(es[i + 1..], deep, after).0;
        assert list + ([info.value] + rest) == list + [info.value] + rest;
        CountAppend(list, info.value);
        list := list + [info.value];
        if !info.value.isDir { fileNum := fileNum + 1; } else { dirNum := dirNum + 1; }
      }
      i := i + 1;
    }
    assert es[i..] == [];
    assert ReadEntries(es, deep, next).0 == list;
  }

  method ReadOne(e: Entry, deep: bool, next: nat, r0: int) returns (info: Option<FileInfo>, after: nat, r: int)
    ensures (info, after) == ReadEntry(e, deep, next) && r == StatusEntry(e, deep, r0)
    decreases e, 1
  {
    if Dots(e) { return None, next, r0; }
    if e.look.Unreadable? { return None, next, Minus(e.look.errno); }
    r := 0;
    if e.look.Unmapped? { return None, next, r; }
    after := next + 1;
    var children: seq<FileInfo>, files: nat, dirs: nat := [], 0, 0;
    if deep && e.listedAsDir {
      if e.opening.Refuses? {
        r := Minus(e.opening.errno);
      } else {
        children, files, dirs, after, r := ReadDir(e.entries, deep, after, r);
      }
    }
    var s := e.look.stat;
    info := Some(FileInfo(next, s.isDir, s.uri, if s.isDir then 0 else s.size, s.mtime, files, dirs, children));
  }

  lemma {:induction false} CountAppend(fs: seq<FileInfo>, f: FileInfo)
    ensures CountFiles(fs + [f]) == CountFiles(fs) + if f.isDir then 0 else 1
    ensures CountDirs(fs + [f]) == CountDirs(fs) + if f.isDir then 1 else 0
    decreases |fs|
  {
    if fs == [] {
      assert fs + [f] == [f];
    } else {
      assert (fs + [f])[1..] == fs[1..] + [f];
      CountAppend(fs[1..], f);
    }
  }

  /** The counters of a node add up to its child list, here and everywhere below. */
  ghost predicate WellCounted(f: FileInfo) {
    && f.fileNum == CountFiles(f.children) && f.dirNum == CountDirs(f.children)
    && f.fileNum + f.dirNum == |f.children|
    && forall i :: 0 <= i < |f.children| ==> WellCounted(f.children[i])
  }

  lemma {:induction false} CountsAddUp(fs: seq<FileInfo>)
    ensures CountFiles(fs) + CountDirs(fs) == |fs|
  {
    if fs != [] { CountsAddUp(fs[1..]); }
  }

  /** Every tree that is read is well counted, for every file system. */
  lemma {:induction false} ReadEntryCounts(e: Entry, deep: bool, next: nat)
    ensures ReadEntry(e, deep, next).0.Some? ==> WellCounted(ReadEntry(e, deep, next).0.value)
    decreases e
  {
    if !Skipped(e) {
      if Entered(e, deep) { ReadEntriesCounts(e.entries, deep, next + 1); }
      CountsAddUp(ReadEntry(e, deep, next).0.value.children);
    }
  }

  lemma {:induction false} ReadEntriesCounts(es: seq<Entry>, deep: bool, next: nat)
    ensures forall i :: 0 <= i < |ReadEntries(es, deep, next).0| ==> WellCounted(ReadEntries(es, deep, next).0[i])
    decreases es
  {
    if es != [] {
      ReadEntryCounts(es[0], deep, next);
      ReadEntriesCounts(es[1..], deep, ReadEntry(es[0], deep, next).1);
    }
  }

  // ---------------------------------------------------------------- the arrays for JS

  /** An element of either array; `subFiles` is empty in a plain listing. */
  datatype Item = Item(kind: string, uri: string, length: nat, modifiedMs: int, subFiles: seq<Item>)

  /** The array for `get`: every child, in read order, and recursively when asked for. */
  function Extended(f: FileInfo, recursive: bool): Item {
    Item(if f.isDir then "dir" else "file", f.uri, f.length, f.mtime * 1000,
         if !recursive then []
         else seq(|f.children|, i requires 0 <= i < |f.children| => Extended(f.children[i], recursive)))
  }

  function Plain(f: FileInfo): Item {
    Item("", f.uri, f.length, f.mtime * 1000, [])
  }

  /** The array for `list`: the plain files, in read order. */
  function PlainFiles(fs: seq<FileInfo>): seq<Item> {
    if fs == [] then []
    else if fs[|fs| - 1].isDir then PlainFiles(fs[..|fs| - 1])
    else PlainFiles(fs[..|fs| - 1]) + [Plain(fs[|fs| - 1])]
  }

  lemma {:induction false} PlainFilesCount(fs: seq<FileInfo>)
    ensures |PlainFiles(fs)| == CountFiles(fs)
    decreases |fs|
  {
    if fs != [] {
      assert fs == fs[..|fs| - 1] + [fs[|fs| - 1]];
      CountAppend(fs[..|fs| - 1], fs[|fs| - 1]);
      PlainFilesCount(fs[..|fs| - 1]);
    }
  }

  lemma PlainFilesGrow(fs: seq<FileInfo>, i: nat)
    requires i < |fs|
    ensures |PlainFiles(fs[..i + 1])| <= CountFiles(fs)
    ensures PlainFiles(fs[..i + 1]) == PlainFiles(fs[..i]) + if fs[i].isDir then [] else [Plain(fs[i])]
  {
    assert fs[..i + 1][..i] == fs[..i];
    PlainFilesCount(fs[..i + 1]);
    CountPrefix(fs, i + 1);
  }

  lemma {:induction false} CountPrefix(fs: seq<FileInfo>, i: nat)
    requires i <= |fs|
    ensures CountFiles(fs[..i]) <= CountFiles(fs)
    decreases |fs|
  {
    if i > 0 {
      assert fs[..i][1..] == fs[1..][..i - 1];
      CountPrefix(fs[1..], i - 1);
    }
  }

  /** The array is sized from the counters and filled by walking the child list: no write is out of
      bounds, and every slot is written. */
  method GetDirList(f: FileInfo) returns (a: array<Option<Item>>)
    requires WellCounted(f)
    ensures fresh(a) && a.Length == |f.children|
    ensures forall i :: 0 <= i < a.Length ==> a[i] == Some(Extended(f.children[i], true))
    decreases f, 0
  {
    a := new Option<Item>[f.dirNum + f.fileNum](_ => None);
    var index := 0;
    while index < |f.children|
      invariant 0 <= index <= |f.children| == a.Length
      invariant forall i :: 0 <= i < index ==> a[i] == Some(Extended(f.children[i], true))
    {
      var item := GetExtendedInfo(f.children[index], true);
      a[index] := Some(item);
      index := index + 1;
    }
  }

  method GetExtendedInfo(f: FileInfo, recursive: bool) returns (item: Item)
    requires WellCounted(f)
    ensures item == Extended(f, recursive)
    decreases f, 1
  {
    var subFiles: seq<Item> := [];
    if recursive {
      var a := GetDirList(f);
      subFiles := seq(a.Length, i requires 0 <= i < a.Length && a[i].Some? reads a => a[i].value);
    }
    item := Item(if f.isDir then "dir" else "file", f.uri, f.length, f.mtime * 1000, subFiles);
  }

  method ListFiles(f: FileInfo) returns (a: array<Option<Item>>)
    requires WellCounted(f)
    ensures fresh(a) && a.Length == |PlainFiles(f.children)|
    ensures forall i :: 0 <= i < a.Length ==> a[i] == Some(PlainFiles(f.children)[i])
  {
    a := new Option<Item>[f.fileNum](_ => None);
    var index, k := 0, 0;
    while k < |f.children|
      invariant 0 <= k <= |f.children| && index == |PlainFiles(f.children[..k])| <= a.Length
      invariant forall i :: 0 <= i < index ==> a[i] == Some(PlainFiles(f.children[..k])[i])
    {
      PlainFilesGrow(f.children, k);
      if !f.children[k].isDir {
        a[index] := Some(Plain(f.children[k]));
        index := index + 1;
      }
      k := k + 1;
    }
    assert f.children[..k] == f.children;
    PlainFilesCount(f.children);
  }

  // ---------------------------------------------------------------- releasing

  /** Allocations in the order in which they are freed: children first. */
  function Freed(f: FileInfo): seq<nat>
    decreases f
  {
    FreedAll(f.children) + [f.id]
  }

  function FreedAll(fs: seq<FileInfo>): seq<nat>
    decreases fs
  {
    if fs == [] then [] else Freed(fs[0]) + FreedAll(fs[1..])
  }

  lemma FreedNext(log: seq<nat>, fs: seq<FileInfo>, i: nat)
    requires i < |fs|
    ensures log + FreedAll(fs[i..]) == log + Freed(fs[i]) + FreedAll(fs[i + 1..])
  {
    assert fs[i..][1..] == fs[i + 1..];
    assert log + (Freed(fs[i]) + FreedAll(fs[i + 1..])) == log + Freed(fs[i]) + FreedAll(fs[i + 1..]);
  }

  /** The release: the safe traversal frees each child with everything below it, then the node. */
  method FreeRootFile(f: FileInfo) returns (log: seq<nat>)
    ensures log == Freed(f)
    decreases f
  {
    log := [];
    var i := 0;
    assert f.children[0..] == f.children;
    while i < |f.children|
      invariant 0 <= i <= |f.children|
      invariant FreedAll(f.children) == log + FreedAll(f.children[i..])
    {
      var below := FreeRootFile(f.children[i]);
      FreedNext(log, f.children, i);
      log := log + below;
      i := i + 1;
    }
    assert f.children[i..] == [] && log + [] == log;
    log := log + [f.id];
  }

  /** Every allocation made while reading is freed exactly once, and nothing else is. */
  lemma {:induction false} FreedOnce(e: Entry, deep: bool, next: nat, k: nat)
    ensures var (f, after) := ReadEntry(e, deep, next);
      && next <= after
      && (f.Some? ==> multiset(Freed(f.value))[k] == if next <= k < after then 1 else 0)
      && (f.None? ==> after == next)
    decreases e
  {
    if !Skipped(e) {
      if Entered(e, deep) { AllFreedOnce(e.entries, deep, next + 1, k); }
    }
  }

  lemma {:induction false} AllFreedOnce(es: seq<Entry>, deep: bool, next: nat, k: nat)
    ensures var (fs, after) := ReadEntries(es, deep, next);
      next <= after && multiset(FreedAll(fs))[k] == if next <= k < after then 1 else 0
    decreases es
  {
    if es != [] {
      var (f, n) := ReadEntry(es[0], deep, next);
      FreedOnce(es[0], deep, next, k);
      AllFreedOnce(es[1..], deep, n, k);
      var (rest, m) := ReadEntries(es[1..], deep, n);
      if f.Some? {
        assert ([f.value] + rest)[1..] == rest;
      }
    }
  }

  // ---------------------------------------------------------------- the items, seen from the file system

  /** An item of a plain listing shows a file. */
  ghost predicate ShowsFile(i: Item, s: Stat) {
    i.kind == "" && i.uri == s.uri && i.length == s.size && i.modifiedMs == 1000 * s.mtime && i.subFiles == []
  }

  /** The items show, in order, exactly the entries that can be read, have an app URI and are no
      directories. */
  ghost predicate ListsFiles(es: seq<Entry>, items: seq<Item>)
    decreases es
  {
    if es == [] then items == []
    else
      var e := es[0];
      if e.name != "." && e.name != ".." && e.look.Readable? && !e.look.stat.isDir
      then items != [] && ShowsFile(items[0], e.look.stat) && ListsFiles(es[1..], items[1..])
      else ListsFiles(es[1..], items)
  }

  /** An item of `get` shows a directory or a file, with all that is below it if that was read. */
  ghost predicate ShowsEntry(i: Item, s: Stat, below: seq<Entry>, entered: bool)
    decreases below, 1
  {
    && i.kind == (if s.isDir then "dir" else "file") && i.uri == s.uri
    && i.length == (if s.isDir then 0 else s.size) && i.modifiedMs == 1000 * s.mtime
    && if entered then ShowsAll(below, i.subFiles) else i.subFiles == []
  }

  ghost predicate ShowsAll(es: seq<Entry>, items: seq<Item>)
    decreases es, 0
  {
    if es == [] then items == []
    else
      var e := es[0];
      if e.name != "." && e.name != ".." && e.look.Readable?
      then
        && items != [] && ShowsEntry(items[0], e.look.stat, e.entries, e.listedAsDir && e.opening.Opens?)
        && ShowsAll(es[1..], items[1..])
      else ShowsAll(es[1..], items)
  }

  lemma {:induction false} PlainFilesCons(f: FileInfo, fs: seq<FileInfo>)
    ensures PlainFiles([f] + fs) == if f.isDir then PlainFiles(fs) else [Plain(f)] + PlainFiles(fs)
    decreases |fs|
  {
    if fs == [] {
      assert [f] + fs == [f] && [f][..0] == [];
    } else {
      var init, last := fs[..|fs| - 1], fs[|fs| - 1];
      assert ([f] + fs)[..|fs|] == [f] + init && ([f] + fs)[|fs|] == last;
      PlainFilesCons(f, init);
    }
  }

  /** Reading one level and keeping the plain files shows the files of the directory. */
  lemma {:induction false} PlainFilesShow(es: seq<Entry>, next: nat)
    ensures ListsFiles(es, PlainFiles(ReadEntries(es, false, next).0))
    decreases es
  {
    if es != [] {
      var (f, n) := ReadEntry(es[0], false, next);
      var rest := ReadEntries(es[1..], false, n).0;
      PlainFilesShow(es[1..], n);
      if f.Some? {
        PlainFilesCons(f.value, rest);
        if !f.value.isDir { assert ([Plain(f.value)] + PlainFiles(rest))[1..] == PlainFiles(rest); }
      }
    }
  }

  function AllExtended(fs: seq<FileInfo>): seq<Item> {
    seq(|fs|, i requires 0 <= i < |fs| => Extended(fs[i], true))
  }

  /** Reading everything and building the items shows everything. */
  lemma {:induction false} ExtendedShows(e: Entry, next: nat)
    requires e.name != "." && e.name != ".." && e.look.Readable?
    ensures var f := ReadEntry(e, true, next).0;
      f.Some? && ShowsEntry(Extended(f.value, true), e.look.stat, e.entries, e.listedAsDir && e.opening.Opens?)
    decreases e
  {
    var f := ReadEntry(e, true, next).0.value;
    assert Extended(f, true).subFiles == AllExtended(f.children);
    if e.listedAsDir && e.opening.Opens? { AllExtendedShow(e.entries, next + 1); }
  }

  lemma {:induction false} AllExtendedShow(es: seq<Entry>, next: nat)
    ensures ShowsAll(es, AllExtended(ReadEntries(es, true, next).0))
    decreases es
  {
    if es != [] {
      var (f, n) := ReadEntry(es[0], true, next);
      var rest := ReadEntries(es[1..], true, n).0;
      AllExtendedShow(es[1..], n);
      if f.Some? {
        ExtendedShows(es[0], next);
        assert AllExtended([f.value] + rest)[1..] == AllExtended(rest);
      }
    }
  }

  // ---------------------------------------------------------------- a whole call

  /** The root of a call: what looking at it gives, and its entries when it is a directory that opens.
      They are read whether or not the call is recursive; `deep` decides about what lies below. */
  datatype Root = Root(look: Look, opening: Opening, entries: seq<Entry>)

  function ReadRoot(root: Root, deep: bool, next: nat): (Option<FileInfo>, nat) {
    if !root.look.Readable? then (None, next)
    else
      var (children, after) :=
        if root.look.stat.isDir && root.opening.Opens? then ReadEntries(root.entries, deep, next + 1)
        else ([], next + 1);
      (Some(Node(root.look.stat, next, children)), after)
  }

  /** The results of a whole call, in order. */
  function RootResults(root: Root, deep: bool): seq<int> {
    if root.look.Unreadable? then [Minus(root.look.errno)]
    else if !(root.look.Readable? && root.look.stat.isDir) then [0]
    else if root.opening.Refuses? then [0, Minus(root.opening.errno)]
    else [0] + AllResults(root.entries, deep)
  }

  lemma RootShows(root: Root, recursive: bool, next: nat)
    requires root.look.Readable?
    ensures var f := ReadRoot(root, recursive, next).0.value;
      ShowsEntry(Extended(f, recursive), root.look.stat, root.entries,
                 recursive && root.look.stat.isDir && root.opening.Opens?)
  {
    var f := ReadRoot(root, recursive, next).0.value;
    if recursive {
      assert Extended(f, true).subFiles == AllExtended(f.children);
      if root.look.stat.isDir && root.opening.Opens? { AllExtendedShow(root.entries, next + 1); }
    }
  }

  /** A root that cannot be read or opened fails its call with that error. */
  lemma ClosedRootFails(root: Root, deep: bool)
    ensures root.look.Unreadable? ==> LastOr(RootResults(root, deep), 0) == 0 - root.look.errno as int
    ensures root.look.Readable? && root.look.stat.isDir && root.opening.Refuses? ==>
              LastOr(RootResults(root, deep), 0) == 0 - root.opening.errno as int
    ensures root.look.Unmapped? || (root.look.Readable? && !root.look.stat.isDir) ==>
              LastOr(RootResults(root, deep), 0) == 0
    ensures root.look.Readable? && root.look.stat.isDir && root.opening.Opens? ==>
              LastOr(RootResults(root, deep), 0) == StatusEntries(root.entries, deep, 0)
  {
    if root.look.Readable? && root.look.stat.isDir && root.opening.Opens? {
      StatusesAreLast(root.entries, deep, 0);
      LastOfSum([0], AllResults(root.entries, deep), 0);
    }
  }

  /** The root is well counted too, for every kind of call and every file system. */
  lemma {:induction false} RootCounts(root: Root, deep: bool, next: nat)
    ensures var info := ReadRoot(root, deep, next).0; info.Some? ==> WellCounted(info.value)
  {
    if root.look.Readable? {
      ReadEntriesCounts(root.entries, deep, next + 1);
      CountsAddUp(ReadRoot(root, deep, next).0.value.children);
    }
  }

  /** Releasing the root frees every allocation of the call exactly once and nothing else. */
  lemma {:induction false} RootFreedOnce(root: Root, deep: bool, next: nat, k: nat)
    ensures var (info, after) := ReadRoot(root, deep, next);
      && next <= after
      && (info.Some? ==> multiset(Freed(info.value))[k] == if next <= k < after then 1 else 0)
      && (info.None? ==> after == next)
  {
    if root.look.Readable? && root.look.stat.isDir && root.opening.Opens? {
      AllFreedOnce(root.entries, deep, next + 1, k);
    }
  }

  /** The root, and the status in which the request is left: the last result of the call. */
  method LoadRoot(root: Root, deep: bool, next: nat) returns (info: Option<FileInfo>, after: nat, r: int)
    ensures (info, after) == ReadRoot(root, deep, next) && r == LastOr(RootResults(root, deep), 0)
    ensures info.Some? ==> WellCounted(info.value)
  {
    RootCounts(root, deep, next);
    if root.look.Unreadable? { return None, next, Minus(root.look.errno); }
    r := 0;
    if root.look.Unmapped? { return None, next, r; }
    var s := root.look.stat;
    var children: seq<FileInfo>, files: nat, dirs: nat := [], 0, 0;
    after := next + 1;
    if s.isDir {
      if root.opening.Refuses? {
        r := Minus(root.opening.errno);
      } else {
        StatusesAreLast(root.entries, deep, 0);
        LastOfSum([0], AllResults(root.entries, deep), 0);
        children, files, dirs, after, r := ReadDir(root.entries, deep, after, r);
      }
    }
    info := Some(FileInfo(next, s.isDir, s.uri, if s.isDir then 0 else s.size, s.mtime, files, dirs, children));
  }

  ghost predicate EachOnce(log: seq<nat>, low: nat, high: nat) {
    forall k: nat :: multiset(log)[k] == if low <= k < high then 1 else 0
  }

  method ReleaseRoot(ghost root: Root, ghost deep: bool, ghost next: nat, info: Option<FileInfo>, ghost after: nat)
      returns (log: seq<nat>)
    requires (info, after) == ReadRoot(root, deep, next)
    ensures EachOnce(log, next, after)
  {
    log := [];
    if info.Some? { log := FreeRootFile(info.value); }
    forall k: nat ensures multiset(log)[k] == if next <= k < after then 1 else 0 {
      RootFreedOnce(root, deep, next, k);
    }
  }

  const IO_ERROR: int := 300
  const PATH_NOT_EXISTS: int := 301
  const ARGS_ERROR: int := 202

  /** The code reported for a negative status. */
  function ErrorCode(r: int): int {
    if r == -2 then PATH_NOT_EXISTS else if r == -22 then ARGS_ERROR else IO_ERROR
  }

  /** A missing path is 301, an invalid argument 202, everything else 300. */
  ghost predicate CodeOf(r: int, code: int) {
    && (r == -2 ==> code == 301)
    && (r == -22 ==> code == 202)
    && (r != -2 && r != -22 ==> code == 300)
  }

  datatype Listing = Failed(code: int) | Listed(items: seq<Item>)

  /** A listing from reading to release: it succeeds exactly when the last result does, and then the
      array holds the plain files of the directory in read order; in any case what was allocated for
      the tree is freed, each piece once. */
  method ListDirectory(root: Root, next: nat) returns (result: Listing, log: seq<nat>, after: nat)
    ensures result.Listed? <==> LastOr(RootResults(root, false), 0) >= 0
    ensures result.Failed? ==> CodeOf(LastOr(RootResults(root, false), 0), result.code)
    ensures result.Listed? ==>
      if root.look.Readable? && root.look.stat.isDir && root.opening.Opens? then ListsFiles(root.entries, result.items)
      else result.items == []
    ensures EachOnce(log, next, after)
  {
    var info: Option<FileInfo>, r: int;
    info, after, r := LoadRoot(root, false, next);
    if r < 0 {
      result := Failed(ErrorCode(r));
    } else if info.None? {
      result := Listed([]);
    } else {
      if root.look.stat.isDir && root.opening.Opens? { PlainFilesShow(root.entries, next + 1); }
      var a := ListFiles(info.value);
      var items := seq(a.Length, i requires 0 <= i < a.Length && a[i].Some? reads a => a[i].value);
      assert items == PlainFiles(info.value.children);
      result := Listed(items);
    }
    log := ReleaseRoot(root, false, next, info, after);
  }

  datatype Got = Refused(code: int) | Got(item: Option<Item>)

  /** The same for `get`: one item for the root, with everything below it when asked for. */
  method GetDirectory(root: Root, recursive: bool, next: nat) returns (result: Got, log: seq<nat>, after: nat)
    ensures result.Got? <==> LastOr(RootResults(root, recursive), 0) >= 0
    ensures result.Refused? ==> CodeOf(LastOr(RootResults(root, recursive), 0), result.code)
    ensures result.Got? ==> (result.item.Some? <==> root.look.Readable?)
    ensures result.Got? && result.item.Some? ==>
      ShowsEntry(result.item.value, root.look.stat, root.entries,
                 recursive && root.look.stat.isDir && root.opening.Opens?)
    ensures EachOnce(log, next, after)
  {
    var info: Option<FileInfo>, r: int;
    info, after, r := LoadRoot(root, recursive, next);
    if r < 0 {
      result := Refused(ErrorCode(r));
    } else if info.None? {
      result := Got(None);
    } else {
      RootShows(root, recursive, next);
      var item := GetExtendedInfo(info.value, recursive);
      result := Got(Some(item));
    }
    log := ReleaseRoot(root, recursive, next, info, after);
  }
}
