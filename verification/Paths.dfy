/** Directory operations and path walking over the file layer. */
module Paths {
  import opened Blocks
  import opened Bitmap
  import opened Ownership
  import opened FileData
  import opened FileSteps
  import opened BlockCounts
  import opened Spending
  import opened Fs
  import opened Names
  import opened Directories
  import opened Trees

  const ROOTINO := 1

  /** An entry's place in the directory and the inode it names. */
  datatype Found = Found(off: nat, inum: nat)

  /** dirlookup's answer is the map's. */
  ghost predicate LookedUp(c: seq<byte>, key: seq<byte>, r: Option<Found>) {
    match r
    case None => key !in Dir(c)
    case Some(f) =>
      && f.off % DESIZE == 0 && Live(c, f.off / DESIZE) && NameAt(c, f.off / DESIZE) == key
      && key in Dir(c) && Dir(c)[key] == f.inum
  }

  lemma FoundAt(c: seq<byte>, k: nat, key: seq<byte>)
    requires DirOk(c) && Live(c, k) && NameAt(c, k) == key && k < |c| / DESIZE
    ensures LookedUp(c, key, Some(Found(DESIZE * k, InumAt(c, k))))
  {
    LiveIsMapped(c, |c| / DESIZE, k);
  }

  /** dirlookup. */
  method Dirlookup(fs: FileSys, dp: nat, name: seq<byte>) returns (r: Option<Found>)
    requires fs.Regular(dp) && IsDir(fs.Now(), dp)
    modifies fs
    ensures fs.Now() == old(fs.Now()) && fs.logged == old(fs.logged)
    ensures LookedUp(Content(fs.disk, fs.inodes, dp), Cut(name), r)
  {
    ghost var v, c := fs.Now(), Content(fs.disk, fs.inodes, dp);
    var off: nat, k: nat := 0, 0;
    while off < fs.inodes[dp].size
      invariant fs.Now() == v && fs.logged == old(fs.logged) && off == DESIZE * k
      invariant forall j: nat | Live(c, j) && j < k :: NameAt(c, j) != Cut(name)
    {
      var n, de := fs.Readi(dp, off, DESIZE);
      EntryRead(c, k, de);
      if de[0] != 0 || de[1] != 0 {
        var same := Namecmp(name, de[2..]);
        if same {
          FoundAt(c, k, Cut(name));
          return Some(Found(off, de[0] as int + 0x100 * de[1] as int));
        }
      }
      off, k := off + DESIZE, k + 1;
    }
    AllSeen(c, Cut(name), k);
    return None;
  }

  lemma EntryRead(c: seq<byte>, k: nat, de: seq<byte>)
    requires |c| % DESIZE == 0 && DESIZE * k < |c| && |de| <= DESIZE && de == c[DESIZE * k..DESIZE * k + |de|]
    requires |de| == Min(DESIZE, |c| - DESIZE * k)
    ensures Fits(c, k) && |de| == DESIZE && NameAt(c, k) == Cut(de[2..])
    ensures InumAt(c, k) == de[0] as int + 0x100 * de[1] as int && (Live(c, k) <==> de[0] != 0 || de[1] != 0)
    ensures k < |c| / DESIZE
  {
    assert c[DESIZE * k + 2..DESIZE * k + DESIZE] == de[2..];
  }

  lemma AllSeen(c: seq<byte>, key: seq<byte>, k: nat)
    requires DirOk(c) && |c| <= DESIZE * k && forall j: nat | Live(c, j) && j < k :: NameAt(c, j) != key
    ensures key !in Dir(c)
  {
    if key in Dir(c) {
      var j := MappedIsLive(c, |c| / DESIZE, key);
      assert false;
    }
  }

  /** A free place: an entry that is not live, or the end. */
  method FreeEntry(fs: FileSys, dp: nat) returns (off: nat, ghost k: nat)
    requires fs.Regular(dp) && IsDir(fs.Now(), dp)
    modifies fs
    ensures fs.Now() == old(fs.Now()) && fs.logged == old(fs.logged)
    ensures off == DESIZE * k <= fs.inodes[dp].size && !Live(Content(fs.disk, fs.inodes, dp), k)
    ensures off == fs.inodes[dp].size <==> !HasFree(Content(fs.disk, fs.inodes, dp))
  {
    hide BitsOk, Addr, Mapped;
    ghost var v, c := fs.Now(), Content(fs.disk, fs.inodes, dp);
    off, k := 0, 0;
    while off < fs.inodes[dp].size
      invariant fs.Now() == v && fs.logged == old(fs.logged) && off == DESIZE * k && off <= |c|
      invariant forall j: nat | j < k :: Live(c, j)
    {
      var n, de := fs.Readi(dp, off, DESIZE);
      EntryRead(c, k, de);
      if de[0] == 0 && de[1] == 0 {
        return;
      }
      off, k := off + DESIZE, k + 1;
    }
  }

  /** dirlink: an insertion into the map, refused when the name is there, which keeps the
      tree if it leads to an inode in use. None is a panic: the name is new, no
      entry is free, and there is no room for one more. */
  method Dirlink(fs: FileSys, dp: nat, name: seq<byte>, inum: nat) returns (r: Option<int>)
    requires fs.Regular(dp) && IsDir(fs.Now(), dp)
    modifies fs
    ensures r == Some(-1) <==> Cut(name) in DirAt(old(fs.Now()), dp)
    ensures r == Some(-1) ==> fs.Now() == old(fs.Now())
    ensures r.Some? && r.value != -1 ==>
      && r.value == 0 && fs.Regular(dp) && IsDir(fs.Now(), dp)
      && OthersSame(old(fs.disk), old(fs.inodes), fs.disk, fs.inodes, dp)
    ensures r.Some? && r.value != -1 ==>
      DirAt(fs.Now(), dp) == Linked(DirAt(old(fs.Now()), dp), Cut(name), inum % 0x1_0000)
    ensures r.Some? && TreeOk(old(fs.Now())) && (inum % 0x1_0000 == 0 || InUse(old(fs.Now()), inum % 0x1_0000)) ==>
      TreeOk(fs.Now())
    ensures r.None? <==>
      && Cut(name) !in DirAt(old(fs.Now()), dp) && !HasFree(Content(old(fs.disk), old(fs.inodes), dp))
      && Cramped(fs.sb, old(fs.disk), old(fs.inodes)[dp].size)
  {
    ghost var v := fs.Now();
    var found := Dirlookup(fs, dp, name);
    if found.Some? {
      return Some(-1);
    }
    var off; ghost var k;
    off, k := FreeEntry(fs, dp);
    r := LinkAt(fs, dp, off, k, name, inum);
    if r.Some? {
      LinkedTree(v, fs.Now(), dp, Cut(name), inum % 0x1_0000);
    }
  }

  /** The end of dirlink: the entry is written at a free place. */
  method LinkAt(fs: FileSys, dp: nat, off: nat, ghost k: nat, name: seq<byte>, inum: nat) returns (r: Option<int>)
    requires fs.Regular(dp) && IsDir(fs.Now(), dp) && Cut(name) !in DirAt(fs.Now(), dp)
    requires off == DESIZE * k <= fs.inodes[dp].size && !Live(Content(fs.disk, fs.inodes, dp), k)
    modifies fs
    ensures r.Some? ==>
      && r.value == 0 && fs.Regular(dp) && IsDir(fs.Now(), dp)
      && OthersSame(old(fs.disk), old(fs.inodes), fs.disk, fs.inodes, dp)
    ensures r.Some? ==> DirAt(fs.Now(), dp) == Linked(DirAt(old(fs.Now()), dp), Cut(name), inum % 0x1_0000)
    ensures r.None? <==>
      off == old(fs.inodes)[dp].size && Cramped(fs.sb, old(fs.disk), old(fs.inodes)[dp].size)
  {
    ghost var c := Content(fs.disk, fs.inodes, dp);
    var padded := Padded(name);
    var de := Dirent(inum, padded);
    var w := WriteEntry(fs, dp, off, k, de);
    if w != Some(DESIZE) {
      return None;
    }
    LinkDone(c, k, Cut(name), inum, padded, de, Content(fs.disk, fs.inodes, dp));
    return Some(0);
  }

  /** A directory of that size has no room for one entry more at its end: it is as large as a
      file can be, or takes more blocks than are free. */
  predicate Cramped(sb: Super, d: Disk, size: nat)
    requires IsDisk(sb, d)
  {
    size == MAXFILE * BSIZE || FreeBlocks(sb, d) < Growth(size, size + DESIZE)
  }

  /** writei of one entry, inside the directory or at its end. */
  method WriteEntry(fs: FileSys, dp: nat, off: nat, ghost k: nat, de: seq<byte>) returns (w: Option<int>)
    requires fs.Regular(dp) && IsDir(fs.Now(), dp) && off == DESIZE * k <= fs.inodes[dp].size && |de| == DESIZE
    modifies fs
    ensures w == Some(DESIZE) ==> fs.Regular(dp) && fs.inodes[dp].typ == T_DIR
    ensures w == Some(DESIZE) ==> OthersSame(old(fs.disk), old(fs.inodes), fs.disk, fs.inodes, dp)
    ensures w == Some(DESIZE) ==>
      Content(fs.disk, fs.inodes, dp) == Spliced(old(Content(fs.disk, fs.inodes, dp)), DESIZE * k, de)
    ensures w == Some(DESIZE) <==>
      off < old(fs.inodes)[dp].size || !Cramped(fs.sb, old(fs.disk), old(fs.inodes)[dp].size)
  {
    hide BitsOk, Addr, ByteAt, FreeBlocks, Growth, Refused, Spent, DirOk;
    DirSize(Content(fs.disk, fs.inodes, dp));
    EntryRoom(fs.inodes[dp].size, k);
    w := fs.Writei(dp, off, de);
  }

  lemma LinkedTree(v: View, w: View, dp: nat, key: seq<byte>, inum: nat)
    requires IndirectsOk(v.disk, v.inodes) && IsDir(v, dp) && IsDir(w, dp)
    requires OthersSame(v.disk, v.inodes, w.disk, w.inodes, dp) && DirAt(w, dp) == Linked(DirAt(v, dp), key, inum)
    requires key !in DirAt(v, dp)
    ensures TreeOk(v) && (inum == 0 || InUse(v, inum)) ==> TreeOk(w)
  {
    if TreeOk(v) && (inum == 0 || InUse(v, inum)) {
      LinkKeepsTree(v, w, dp, key, inum);
    }
  }

  /** The directory has an entry that is free. */
  ghost predicate HasFree(c: seq<byte>) {
    exists k :: Fits(c, k) && !Live(c, k)
  }

  /** Insertion, except that an inode number that is 0 in 16 bits leaves the entry free. */
  function Linked(m: NameMap, key: seq<byte>, inum: nat): NameMap {
    if inum == 0 then m else m[key := inum]
  }

  lemma DirSize(c: seq<byte>)
    requires DirOk(c)
    ensures |c| % DESIZE == 0
  {
  }

  /** An entry is refused exactly behind a directory as large as a file can be, and one inside the
      directory takes no block. */
  lemma EntryRoom(size: nat, k: nat)
    requires size % DESIZE == 0 && DESIZE * k <= size <= MAXFILE * BSIZE
    ensures Refused(size, DESIZE * k, DESIZE) <==> DESIZE * k == size == MAXFILE * BSIZE
    ensures DESIZE * k < size ==> Growth(size, DESIZE * k + DESIZE) == 0
  {
    hide Growth;
    assert MAXFILE * BSIZE == 16 * 4480;
    if DESIZE * k < size {
      GrowthMore(size, DESIZE * k + DESIZE, DESIZE * k + DESIZE);
    }
  }

  lemma SixteenBits(x: nat)
    ensures x % 0x100 + 0x100 * (x / 0x100 % 0x100) == x % 0x1_0000
  {
    var a, b := x / 0x100, x / 0x100 / 0x100;
    assert x == 0x1_0000 * b + (0x100 * (a % 0x100) + x % 0x100);
    Remainder(x, b, 0x100 * (a % 0x100) + x % 0x100);
  }

  lemma Remainder(x: nat, q: nat, r: nat)
    requires x == 0x1_0000 * q + r && r < 0x1_0000
    ensures x % 0x1_0000 == r
  {
  }

  lemma LinkDone(c: seq<byte>, k: nat, key: seq<byte>, inum: nat, name: seq<byte>, de: seq<byte>, d: seq<byte>)
    requires DirOk(c) && DESIZE * k <= |c| && !Live(c, k) && key !in Dir(c)
    requires |name| == DIRSIZ && de == Dirent(inum, name) && Cut(name) == key
    requires d == Spliced(c, DESIZE * k, de)
    ensures DirOk(d) && Dir(d) == Linked(Dir(c), key, inum % 0x1_0000)
  {
    assert de[2..] == name;
    SixteenBits(inum);
    SplicedEntry(c, k, de);
    EntryAdded(c, d, k, key, inum % 0x1_0000);
  }

  /** sys_unlink's clearing of the entry dirlookup found: a removal from the map, which
      keeps the tree. writei never panics or falls short in it. */
  method ClearEntry(fs: FileSys, dp: nat, name: seq<byte>, off: nat) returns (r: Option<int>)
    requires fs.Regular(dp) && IsDir(fs.Now(), dp) && off % DESIZE == 0
    requires Live(Content(fs.disk, fs.inodes, dp), off / DESIZE)
    requires NameAt(Content(fs.disk, fs.inodes, dp), off / DESIZE) == Cut(name)
    modifies fs
    ensures r == Some(DESIZE) && fs.Regular(dp) && IsDir(fs.Now(), dp)
    ensures DirAt(fs.Now(), dp) == DirAt(old(fs.Now()), dp) - {Cut(name)}
    ensures OthersSame(old(fs.disk), old(fs.inodes), fs.disk, fs.inodes, dp)
    ensures TreeOk(old(fs.Now())) ==> TreeOk(fs.Now())
  {
    ghost var v, c, k := fs.Now(), Content(fs.disk, fs.inodes, dp), off / DESIZE;
    var de := seq<byte>(DESIZE, i => 0);
    r := WriteEntry(fs, dp, off, k, de);
    SplicedEntry(c, k, de);
    EntryCleared(c, Content(fs.disk, fs.inodes, dp), k);
    UnlinkedTree(v, fs.Now(), dp, Cut(name));
  }

  lemma UnlinkedTree(v: View, w: View, dp: nat, key: seq<byte>)
    requires IndirectsOk(v.disk, v.inodes) && IsDir(v, dp) && IsDir(w, dp)
    requires OthersSame(v.disk, v.inodes, w.disk, w.inodes, dp) && DirAt(w, dp) == DirAt(v, dp) - {key}
    ensures TreeOk(v) ==> TreeOk(w)
  {
    if TreeOk(v) {
      LinkKeepsTree(v, w, dp, key, 0);
    }
  }

  // ----- paths -----

  lemma GoalStep(v: View, ip: nat, parts: seq<seq<byte>>, stop: bool, k: nat, key: seq<byte>)
    requires TreeOk(v) && k < |parts| && IsDirectory(v, ip) && key == Cut(parts[k]) && (stop ==> |parts| - k > 1)
    ensures key !in DirAt(v, ip) ==> Goal(v, ip, parts[k..], stop) == None
    ensures key in DirAt(v, ip) ==> DirAt(v, ip)[key] in v.inodes
    ensures key in DirAt(v, ip) ==> Goal(v, ip, parts[k..], stop) == Goal(v, DirAt(v, ip)[key], parts[k + 1..], stop)
  {
    assert parts[k..][0] == parts[k] && parts[k..][1..] == parts[k + 1..];
  }

  /** Where a path leads: the fold over its parts from the root or the working directory. */
  ghost function Namei(v: View, path: seq<byte>, cwd: nat, nameiparent: bool): Option<nat>
    requires TreeOk(v)
  {
    Goal(v, if path != [] && path[0] == SLASH then ROOTINO else cwd, Parts(path), nameiparent)
  }

  /** A path that begins with a slash leads to the same inode from everywhere, the slash alone
      to the root, and the empty path nowhere else. */
  lemma WhereWalksBegin(v: View, path: seq<byte>, cwd: nat, other: nat, nameiparent: bool)
    requires TreeOk(v)
    ensures Namei(v, [SLASH] + path, cwd, nameiparent) == Namei(v, [SLASH] + path, other, nameiparent)
    ensures Namei(v, [SLASH], cwd, false) == Some(ROOTINO) && Namei(v, [], cwd, false) == Some(cwd)
  {
    hide TreeOk, IsDirectory, Parts;
    NoParts();
    assert ([SLASH] + path)[0] == SLASH;
    EmptyWalk(v, ROOTINO);
    EmptyWalk(v, cwd);
  }

  lemma EmptyWalk(v: View, ip: nat)
    requires TreeOk(v)
    ensures Goal(v, ip, [], false) == Some(ip)
  {
  }

  /** A path behind a slash leads where it leads from the root. */
  lemma FromRoot(v: View, path: seq<byte>, cwd: nat)
    requires TreeOk(v) && (path != [] ==> path[0] != SLASH)
    ensures Namei(v, [SLASH] + path, cwd, false) == Namei(v, path, ROOTINO, false)
  {
    NoParts();
    PartsJoin([], path, 0);
    assert [] + [SLASH] + path == [SLASH] + path && [] + Parts(path) == Parts(path);
  }

  lemma {:induction false} WalkOn(v: View, ip: nat, parts: seq<seq<byte>>, more: seq<seq<byte>>)
    requires TreeOk(v)
    ensures var at := Walk(v, ip, parts);
      Walk(v, ip, parts + more) == if at.None? then None else Walk(v, at.value, more)
    decreases |parts|
  {
    if parts == [] {
      assert parts + more == more;
    } else {
      assert (parts + more)[1..] == parts[1..] + more;
      if IsDirectory(v, ip) && Cut(parts[0]) in DirAt(v, ip) {
        WalkOn(v, DirAt(v, ip)[Cut(parts[0])], parts[1..], more);
      }
    }
  }

  /** A relative path behind a slash leads on from where the path before it leads. */
  lemma ThroughDirectory(v: View, front: seq<byte>, path: seq<byte>, cwd: nat)
    requires TreeOk(v) && front != [] && (path != [] ==> path[0] != SLASH)
    ensures var at := Namei(v, front, cwd, false);
      Namei(v, front + [SLASH] + path, cwd, false) == if at.None? then None else Namei(v, path, at.value, false)
  {
    PartsJoin(front, path, 0);
    var start := if front[0] == SLASH then ROOTINO else cwd;
    assert (front + [SLASH] + path)[0] == front[0];
    WalkOn(v, start, Parts(front), Parts(path));
  }

  /** A single name leads to what the directory holds under it, and to its parent itself. */
  lemma OneName(v: View, dp: nat, name: seq<byte>)
    requires TreeOk(v) && CleanPart(name)
    ensures Namei(v, name, dp, false) ==
      if IsDirectory(v, dp) && Cut(name) in DirAt(v, dp) then Some(DirAt(v, dp)[Cut(name)]) else None
    ensures Namei(v, name, dp, true) == if IsDirectory(v, dp) then Some(dp) else None
  {
    hide Parts, IsDir;
    OnePart(name);
    var parts := [name];
    assert parts[1..] == [] && |parts| == 1 && parts[0] == name;
    if IsDirectory(v, dp) && Cut(name) in DirAt(v, dp) {
      EmptyWalk(v, DirAt(v, dp)[Cut(name)]);
      assert Walk(v, dp, parts) == Walk(v, DirAt(v, dp)[Cut(name)], parts[1..]);
    }
  }

  /** The parent of a path with a last name is where what stands before the name leads, if
      that is a directory. */
  lemma ParentOf(v: View, front: seq<byte>, name: seq<byte>, cwd: nat)
    requires TreeOk(v) && front != [] && CleanPart(name)
    ensures var up := Namei(v, front, cwd, false);
      Namei(v, front + [SLASH] + name, cwd, true) == if up.Some? && IsDirectory(v, up.value) then up else None
  {
    PartsJoin(front, name, 0);
    OnePart(name);
    var parts := Parts(front) + [name];
    assert parts[..|parts| - 1] == Parts(front) && (front + [SLASH] + name)[0] == front[0];
    ParentThenLast(v, if front[0] == SLASH then ROOTINO else cwd, parts);
  }

  /** namex: the fold over the path's parts from the root or the working directory; with
      nameiparent, one level early, with the last part in name. */
  method Namex(fs: FileSys, path: seq<byte>, nameiparent: bool, cwd: nat) returns (r: Option<nat>, name: seq<byte>)
    requires fs.Valid() && TreeOk(fs.Now()) && cwd in fs.inodes && ROOTINO in fs.inodes
    requires forall i | 0 <= i < |path| :: path[i] != 0
    modifies fs
    ensures fs.Now() == old(fs.Now())
    ensures r == Namei(fs.Now(), path, cwd, nameiparent)
    ensures nameiparent && r.Some? ==> Parts(path) != [] && Cut(name) == Cut(Parts(path)[|Parts(path)| - 1])
  {
    var ip := if At(path, 0) == SLASH then ROOTINO else cwd;
    ghost var v, parts := fs.Now(), Parts(path);
    var p := 0;
    name := [];
    ghost var k := 0;
    while true
      invariant fs.Now() == v && 0 <= p <= |path| && k <= |parts| && PartsFrom(path, p) == parts[k..] && ip in fs.inodes
      invariant Namei(v, path, cwd, nameiparent) == Goal(v, ip, parts[k..], nameiparent)
      decreases |path| - p
    {
      var next;
      next, name := Skipelem(path, p);
      if next.None? {
        return if nameiparent then None else Some(ip), name;
      }
      if fs.inodes[ip].typ != T_DIR {
        return None, name;
      }
      if nameiparent && At(path, next.value) == 0 {
        assert next.value == |path|;
        return Some(ip), name;
      }
      GoalStep(v, ip, parts, nameiparent, k, Cut(name));
      var found := Dirlookup(fs, ip, name);
      if found.None? {
        return None, name;
      }
      ip, p, k := found.value.inum, next.value, k + 1;
    }
  }
}
