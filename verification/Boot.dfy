/** The directory tree of a freshly built image. */
module Boot {
  import opened Blocks
  import opened Bitmap
  import opened Ownership
  import opened FileData
  import opened FileSteps
  import opened Names
  import opened Directories
  import opened Trees
  import opened Fs
  import opened Paths
  import opened Drafts
  import opened Mkfs

  /** The root's links in order: its own two, then one for each file. */
  function Links(dot: seq<byte>, dotdot: seq<byte>, names: seq<seq<byte>>): seq<seq<byte>> {
    [dot, dotdot] + names
  }

  /** Both of the root's own links lead to it; the files have the inodes from 2 on. */
  function LinkInum(k: nat): nat {
    if k < 2 then 1 else k
  }

  /** No two links agree in what a directory keeps of their names. */
  predicate Distinct(links: seq<seq<byte>>) {
    forall i, j | 0 <= i < j < |links| :: Cut(links[i]) != Cut(links[j])
  }

  // ----- the root's bytes -----

  /** Entry k of the bytes is link k. */
  lemma {:induction false} EntryOfBytes(dot: seq<byte>, dotdot: seq<byte>, names: seq<seq<byte>>, n: nat, k: nat)
    requires |dot| == DIRSIZ && |dotdot| == DIRSIZ && NamesOk(names) && n <= |names| && k < 2 + n
    ensures var b := DirBytes(dot, dotdot, names, n);
      Fits(b, k) && InumAt(b, k) == LinkInum(k) && NameAt(b, k) == Cut(Links(dot, dotdot, names)[k])
  {
    var b := DirBytes(dot, dotdot, names, n);
    if n == 0 {
      EntryIn([], Dirent(1, dot), Dirent(1, dotdot), 1, dot, 0, b);
      EntryIn(Dirent(1, dot), Dirent(1, dotdot), [], 1, dotdot, 1, b);
    } else if k == 1 + n {
      EntryIn(DirBytes(dot, dotdot, names, n - 1), Dirent(k, names[n - 1]), [], k, names[n - 1], k, b);
    } else {
      EntryOfBytes(dot, dotdot, names, n - 1, k);
      var a := DirBytes(dot, dotdot, names, n - 1);
      SameEntry(a, b, k);
    }
  }

  lemma EntryIn(
      front: seq<byte>, de: seq<byte>, back: seq<byte>, inum: nat, name: seq<byte>, k: nat, b: seq<byte>)
    requires |name| == DIRSIZ && inum < 0x1_0000 && de == Dirent(inum, name)
    requires |front| == DESIZE * k && b == front + de + back
    ensures Fits(b, k) && InumAt(b, k) == inum && NameAt(b, k) == Cut(name)
  {
    assert b[DESIZE * k + 2..DESIZE * k + DESIZE] == name;
  }

  /** An entry within a common prefix reads the same. */
  lemma SameEntry(a: seq<byte>, b: seq<byte>, k: nat)
    requires Fits(a, k) && |a| <= |b| && forall i | 0 <= i < |a| :: b[i] == a[i]
    ensures Fits(b, k) && InumAt(b, k) == InumAt(a, k) && NameAt(b, k) == NameAt(a, k)
  {
    assert a[DESIZE * k + 2..DESIZE * k + DESIZE] == b[DESIZE * k + 2..DESIZE * k + DESIZE];
  }

  /** The live entries of the rounded root are its links; what follows them is free. */
  lemma RootEntries(c: seq<byte>, dot: seq<byte>, dotdot: seq<byte>, names: seq<seq<byte>>, k: nat)
    requires |dot| == DIRSIZ && |dotdot| == DIRSIZ && NamesOk(names)
    requires var dir := DirBytes(dot, dotdot, names, |names|); RootHolds(c, dir) && |dir| % BSIZE != 0
    ensures Live(c, k) <==> k < 2 + |names|
    ensures Live(c, k) ==> InumAt(c, k) == LinkInum(k) && NameAt(c, k) == Cut(Links(dot, dotdot, names)[k])
  {
    var dir := DirBytes(dot, dotdot, names, |names|);
    if k < 2 + |names| {
      EntryOfBytes(dot, dotdot, names, |names|, k);
      SameEntry(dir, c, k);
    } else if Fits(c, k) {
      assert c[DESIZE * k] == 0 && c[DESIZE * k + 1] == 0;
    }
  }

  /** The rounded root is in order exactly when its links are distinct. */
  lemma RootIsOk(c: seq<byte>, dot: seq<byte>, dotdot: seq<byte>, names: seq<seq<byte>>)
    requires |dot| == DIRSIZ && |dotdot| == DIRSIZ && NamesOk(names)
    requires var dir := DirBytes(dot, dotdot, names, |names|); RootHolds(c, dir) && |dir| % BSIZE != 0
    ensures DirOk(c) <==> Distinct(Links(dot, dotdot, names))
  {
    var links := Links(dot, dotdot, names);
    forall i: nat, j: nat | Live(c, i) && Live(c, j)
      ensures i < |links| && j < |links|
      ensures NameAt(c, i) == NameAt(c, j) <==> Cut(links[i]) == Cut(links[j])
    {
      RootEntries(c, dot, dotdot, names, i);
      RootEntries(c, dot, dotdot, names, j);
    }
    if DirOk(c) {
      forall i: nat, j: nat | i < j < |links| ensures Cut(links[i]) != Cut(links[j]) {
        RootEntries(c, dot, dotdot, names, i);
        RootEntries(c, dot, dotdot, names, j);
      }
    }
    assert |c| % DESIZE == 0;
  }

  // ----- the root and the tree -----

  /** The links fill no whole number of blocks and are distinct. */
  predicate Bootable(dot: seq<byte>, dotdot: seq<byte>, names: seq<seq<byte>>) {
    DESIZE * (2 + |names|) % BSIZE != 0 && Distinct(Links(dot, dotdot, names))
  }

  /** What the root maps: the links, and nothing else. */
  predicate MapsLinks(m: NameMap, links: seq<seq<byte>>) {
    && (forall k | 0 <= k < |links| :: Cut(links[k]) in m && m[Cut(links[k])] == LinkInum(k))
    && forall key | key in m :: exists k | 0 <= k < |links| :: Cut(links[k]) == key
  }

  lemma ImageRoot(sb: Super, v: View, dir: seq<byte>, files: seq<seq<byte>>)
    requires ImageOk(sb, v, dir, files)
    ensures IndirectsOk(v.disk, v.inodes) && 1 in v.inodes && v.inodes[1].typ == T_DIR
    ensures Mapped(v.disk, v.inodes, 1) <==> |dir| % BSIZE != 0
    ensures RootHolds(Content(v.disk, v.inodes, 1), dir)
  {
  }

  /** The root of a built image is a directory as the kernel wants it exactly when the links
      fill no whole number of blocks and are distinct. */
  lemma RootIsDir(
      sb: Super, v: View, dot: seq<byte>, dotdot: seq<byte>, names: seq<seq<byte>>, files: seq<seq<byte>>)
    requires |dot| == DIRSIZ && |dotdot| == DIRSIZ && NamesOk(names)
    requires ImageOk(sb, v, DirBytes(dot, dotdot, names, |names|), files)
    ensures IsDir(v, 1) <==> Bootable(dot, dotdot, names)
  {
    hide ImageOk, Mapped, Content, DirOk, Distinct, RootHolds, DirBytes;
    ImageRoot(sb, v, DirBytes(dot, dotdot, names, |names|), files);
    if DESIZE * (2 + |names|) % BSIZE != 0 {
      RootIsOk(Content(v.disk, v.inodes, 1), dot, dotdot, names);
    }
  }

  /** It then maps the links to their inodes. */
  lemma RootMaps(
      sb: Super, v: View, dot: seq<byte>, dotdot: seq<byte>, names: seq<seq<byte>>, files: seq<seq<byte>>)
    requires |dot| == DIRSIZ && |dotdot| == DIRSIZ && NamesOk(names)
    requires ImageOk(sb, v, DirBytes(dot, dotdot, names, |names|), files) && Bootable(dot, dotdot, names)
    ensures IsDirectory(v, 1) && IsDir(v, 1) && MapsLinks(DirAt(v, 1), Links(dot, dotdot, names))
  {
    RootIsDir(sb, v, dot, dotdot, names, files);
    var c, links := Content(v.disk, v.inodes, 1), Links(dot, dotdot, names);
    forall k | 0 <= k < |links| ensures Cut(links[k]) in Dir(c) && Dir(c)[Cut(links[k])] == LinkInum(k) {
      RootEntries(c, dot, dotdot, names, k);
      LiveIsMapped(c, |c| / DESIZE, k);
    }
    forall key | key in Dir(c) ensures exists k | 0 <= k < |links| :: Cut(links[k]) == key {
      var k := MappedIsLive(c, |c| / DESIZE, key);
      RootEntries(c, dot, dotdot, names, k);
    }
  }

  /** And it is the only directory, so the tree is in order exactly then. */
  lemma TreeOfImage(
      sb: Super, v: View, dot: seq<byte>, dotdot: seq<byte>, names: seq<seq<byte>>, files: seq<seq<byte>>)
    requires |dot| == DIRSIZ && |dotdot| == DIRSIZ && NamesOk(names) && |names| == |files|
    requires ImageOk(sb, v, DirBytes(dot, dotdot, names, |names|), files)
    ensures TreeOk(v) <==> Bootable(dot, dotdot, names)
  {
    RootIsDir(sb, v, dot, dotdot, names, files);
    if Bootable(dot, dotdot, names) {
      RootMaps(sb, v, dot, dotdot, names, files);
      forall dp | dp in v.inodes && v.inodes[dp].typ == T_DIR ensures dp == 1 {
        OnlyRoot(sb, v, DirBytes(dot, dotdot, names, |names|), files, dp);
      }
      forall key | key in DirAt(v, 1) ensures InUse(v, DirAt(v, 1)[key]) {
        var links := Links(dot, dotdot, names);
        var k :| 0 <= k < |links| && Cut(links[k]) == key;
        LinkInUse(sb, v, DirBytes(dot, dotdot, names, |names|), files, k);
      }
    }
  }

  lemma OnlyRoot(sb: Super, v: View, dir: seq<byte>, files: seq<seq<byte>>, dp: nat)
    requires ImageOk(sb, v, dir, files) && dp in v.inodes
    ensures v.inodes[dp].typ == T_DIR <==> dp == 1
  {
    if 2 <= dp < 2 + |files| {
      assert HoldsFile(v.disk, v.inodes, 2 + (dp - 2), files[dp - 2]);
    }
  }

  lemma LinkInUse(sb: Super, v: View, dir: seq<byte>, files: seq<seq<byte>>, k: nat)
    requires ImageOk(sb, v, dir, files) && k < 2 + |files|
    ensures InUse(v, LinkInum(k))
  {
    if k >= 2 {
      assert HoldsFile(v.disk, v.inodes, 2 + (k - 2), files[k - 2]);
    }
  }

  lemma ImageFile(sb: Super, v: View, dir: seq<byte>, files: seq<seq<byte>>, k: nat)
    requires ImageOk(sb, v, dir, files) && k < |files|
    ensures HoldsFile(v.disk, v.inodes, 2 + k, files[k])
  {
  }

  lemma LinkOfFile(m: NameMap, dot: seq<byte>, dotdot: seq<byte>, names: seq<seq<byte>>, k: nat)
    requires k < |names| && MapsLinks(m, Links(dot, dotdot, names))
    ensures Cut(names[k]) in m && m[Cut(names[k])] == 2 + k
  {
    var links, i := Links(dot, dotdot, names), 2 + k;
    assert links[i] == names[k];
    assert Cut(links[i]) in m;
  }

  lemma OneStep(v: View, ip: nat, name: seq<byte>)
    requires TreeOk(v) && IsDirectory(v, ip) && Cut(name) in DirAt(v, ip)
    ensures Walk(v, ip, [name]) == Some(DirAt(v, ip)[Cut(name)])
  {
    assert [name][1..] == [];
  }

  /** In a bootable image the path of a file's name leads to its inode, and that to its bytes. */
  lemma FileIsFound(
      sb: Super, v: View, dot: seq<byte>, dotdot: seq<byte>, names: seq<seq<byte>>, files: seq<seq<byte>>, k: nat)
    requires |dot| == DIRSIZ && |dotdot| == DIRSIZ && NamesOk(names) && |names| == |files| && k < |files|
    requires ImageOk(sb, v, DirBytes(dot, dotdot, names, |names|), files) && Bootable(dot, dotdot, names)
    ensures TreeOk(v) && Walk(v, 1, [names[k]]) == Some(2 + k)
    ensures HoldsFile(v.disk, v.inodes, 2 + k, files[k])
  {
    hide ImageOk, NamesOk, Bootable, MapsLinks, Links, Cut, IsDirectory, IsDir, DirAt, TreeOk, Walk, HoldsFile;
    TreeOfImage(sb, v, dot, dotdot, names, files);
    RootMaps(sb, v, dot, dotdot, names, files);
    ImageFile(sb, v, DirBytes(dot, dotdot, names, |names|), files, k);
    LinkOfFile(DirAt(v, 1), dot, dotdot, names, k);
    OneStep(v, 1, names[k]);
  }

  lemma ImageInodes(sb: Super, v: View, dir: seq<byte>, files: seq<seq<byte>>, i: nat)
    requires ImageOk(sb, v, dir, files)
    ensures i in v.inodes <==> i < sb.ninodes
  {
  }

  lemma PathOfName(v: View, name: seq<byte>, cwd: nat)
    requires TreeOk(v) && CleanPart(name)
    ensures Namei(v, [SLASH] + name, cwd, false) == Walk(v, 1, [Padded(name)])
  {
    hide IsDir, Parts, Padded;
    var padded := Padded(name);
    FromRoot(v, name, cwd);
    OneName(v, ROOTINO, name);
    if IsDirectory(v, 1) && Cut(padded) in DirAt(v, 1) {
      OneStep(v, 1, padded);
    } else {
      assert [padded][0] == padded;
    }
  }

  const UNDERSCORE: byte := 95
  const DOT: byte := 46

  /** The name a file gets in the image: without the underscore its path may begin with. */
  function ImageName(arg: seq<byte>): seq<byte> {
    if arg != [] && arg[0] == UNDERSCORE then arg[1..] else arg
  }

  /** The entries' names as strncpy leaves them. */
  function ImageNames(args: seq<seq<byte>>): (names: seq<seq<byte>>)
    ensures |names| == |args| && forall k | 0 <= k < |args| :: names[k] == Padded(ImageName(args[k]))
  {
    seq(|args|, k requires 0 <= k < |args| => Padded(ImageName(args[k])))
  }

  /** From an empty disk to a file's inode: mkfs builds the image from its arguments, the kernel
      mounts it, and the path of a file's name below the root leads from every directory to the
      inode with its bytes. */
  method BuildAndFind(size: nat, nlog: nat, args: seq<seq<byte>>, files: seq<seq<byte>>, k: nat, cwd: nat)
    returns (fs: Option<FileSys>, r: Option<nat>)
    requires Layout(size, nlog).Ok() && Layout(size, nlog).Nmeta() <= BPB && cwd < NINODES
    requires |args| == |files| <= NINODES - 2 && k < |files| && CleanPart(ImageName(args[k]))
    requires forall i | 0 <= i < |args[k]| :: args[k][i] != 0
    requires Bootable(Padded([DOT]), Padded([DOT, DOT]), ImageNames(args))
    ensures fs.Some? <==> FilesFit(size, nlog, files)
    ensures fs.Some? ==> r == Some(2 + k) && fs.value.Valid()
    ensures fs.Some? ==> HoldsFile(fs.value.disk, fs.value.inodes, 2 + k, files[k])
  {
    hide HoldsFile, ImageOk, DirBytes, FilesFit, Walk, TreeOk, Cut, Bootable, Namei, Padded;
    var dot, dotdot, names := Padded([DOT]), Padded([DOT, DOT]), ImageNames(args);
    fs := BuildAndMount(size, nlog, dot, dotdot, names, files);
    r := None;
    if fs.Some? {
      ghost var v, dir := fs.value.Now(), DirBytes(dot, dotdot, names, |names|);
      FileIsFound(fs.value.sb, v, dot, dotdot, names, files, k);
      PathOfName(v, ImageName(args[k]), cwd);
      ImageInodes(fs.value.sb, v, dir, files, cwd);
      ImageInodes(fs.value.sb, v, dir, files, ROOTINO);
      var path := [SLASH] + ImageName(args[k]);
      var last;
      r, last := Namex(fs.value, path, false, cwd);
    }
  }
}
