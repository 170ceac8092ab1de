/** The directory tree of a file system state: what each directory maps, where paths
    lead, and what keeps every name leading to an inode in use. */
module Trees {
  import opened Blocks
  import opened Bitmap
  import opened Ownership
  import opened FileData
  import opened Truncate
  import opened FileSteps
  import opened Names
  import opened Directories

  /** The directory dp of a state, as a map. */
  ghost predicate IsDir(v: View, dp: nat) {
    match v case View(d, ns, _) =>
      IndirectsOk(d, ns) && dp in ns && ns[dp].typ == T_DIR && Mapped(d, ns, dp) && DirOk(Content(d, ns, dp))
  }

  ghost function DirAt(v: View, dp: nat): NameMap
    requires IsDir(v, dp)
  {
    Dir(Content(v.disk, v.inodes, dp))
  }

  predicate InUse(v: View, ino: nat) {
    ino in v.inodes && v.inodes[ino].typ != 0
  }

  ghost predicate NamesInUse(v: View, dp: nat)
    requires IsDir(v, dp)
  {
    forall key | key in DirAt(v, dp) :: InUse(v, DirAt(v, dp)[key])
  }

  /** Every directory is one, and every name in it leads to an inode in use. */
  ghost predicate TreeOk(v: View) {
    match v case View(d, ns, _) =>
      forall dp | dp in ns && ns[dp].typ == T_DIR :: IsDir(v, dp) && NamesInUse(v, dp)
  }

  ghost predicate IsDirectory(v: View, ip: nat) {
    ip in v.inodes && v.inodes[ip].typ == T_DIR
  }

  /** Lookup folded over the parts of a path. */
  ghost function Walk(v: View, ip: nat, parts: seq<seq<byte>>): Option<nat>
    requires TreeOk(v)
    decreases |parts|
  {
    if parts == [] then Some(ip)
    else if !IsDirectory(v, ip) || Cut(parts[0]) !in DirAt(v, ip) then None
    else Walk(v, DirAt(v, ip)[Cut(parts[0])], parts[1..])
  }

  /** The directory that holds the last part. */
  ghost function WalkToParent(v: View, ip: nat, parts: seq<seq<byte>>): Option<nat>
    requires TreeOk(v)
    decreases |parts|
  {
    if parts == [] || !IsDirectory(v, ip) then None
    else if |parts| == 1 then Some(ip)
    else if Cut(parts[0]) !in DirAt(v, ip) then None
    else WalkToParent(v, DirAt(v, ip)[Cut(parts[0])], parts[1..])
  }

  /** The parent of a path is where the path without its last part leads, if that is a
      directory; the path leads to what the parent holds under the last part. */
  lemma {:induction false} ParentThenLast(v: View, ip: nat, parts: seq<seq<byte>>)
    requires TreeOk(v) && parts != []
    ensures var up := Walk(v, ip, parts[..|parts| - 1]);
      WalkToParent(v, ip, parts) == if up.Some? && IsDirectory(v, up.value) then up else None
    ensures var dp, last := WalkToParent(v, ip, parts), Cut(parts[|parts| - 1]);
      Walk(v, ip, parts) == if dp.Some? && last in DirAt(v, dp.value) then Some(DirAt(v, dp.value)[last]) else None
    decreases |parts|
  {
    InitTail(parts);
    if |parts| > 1 && IsDirectory(v, ip) && Cut(parts[0]) in DirAt(v, ip) {
      ParentThenLast(v, DirAt(v, ip)[Cut(parts[0])], parts[1..]);
    }
  }

  lemma InitTail(parts: seq<seq<byte>>)
    requires parts != []
    ensures |parts| == 1 ==> parts[..|parts| - 1] == [] && parts[1..] == []
    ensures |parts| > 1 ==> parts[..|parts| - 1][0] == parts[0]
    ensures |parts| > 1 ==> parts[..|parts| - 1][1..] == parts[1..][..|parts[1..]| - 1]
    ensures |parts| > 1 ==> parts[1..][|parts[1..]| - 1] == parts[|parts| - 1]
  {
  }

  /** Where namex is to end. */
  ghost function Goal(v: View, ip: nat, parts: seq<seq<byte>>, nameiparent: bool): Option<nat>
    requires TreeOk(v)
  {
    if nameiparent then WalkToParent(v, ip, parts) else Walk(v, ip, parts)
  }

  // ----- what keeps the tree -----

  /** The same directory with the same entries. */
  lemma OtherDirSame(v: View, w: View, ino: nat, dp: nat)
    requires IsDir(v, dp) && dp != ino && IndirectsOk(w.disk, w.inodes)
    requires OthersSame(v.disk, v.inodes, w.disk, w.inodes, ino)
    ensures IsDir(w, dp) && DirAt(w, dp) == DirAt(v, dp)
  {
    OtherContentSame(v.disk, v.inodes, w.disk, w.inodes, ino, dp);
  }

  /** Changing one inode keeps the tree when it stays of its type and, being a directory,
      its names lead to inodes in use. */
  lemma OneChangeKeepsTree(v: View, w: View, ino: nat)
    requires TreeOk(v) && IndirectsOk(v.disk, v.inodes) && IndirectsOk(w.disk, w.inodes)
    requires OthersSame(v.disk, v.inodes, w.disk, w.inodes, ino)
    requires ino in v.inodes && w.inodes[ino].typ == v.inodes[ino].typ
    requires w.inodes[ino].typ == T_DIR ==> IsDir(w, ino) && NamesInUse(w, ino)
    ensures TreeOk(w)
  {
    forall dp | dp in w.inodes && w.inodes[dp].typ == T_DIR ensures IsDir(w, dp) && NamesInUse(w, dp) {
      if dp != ino {
        assert IsDir(v, dp) && NamesInUse(v, dp);
        OtherDirSame(v, w, ino, dp);
      }
    }
  }

  /** A write to something else than a directory. */
  lemma WroteKeepsTree(sb: Super, v: View, w: View, ino: nat, off: nat, src: seq<byte>)
    requires TreeOk(v) && IndirectsOk(v.disk, v.inodes) && ino in v.inodes && off <= v.inodes[ino].size
    requires Wrote(sb, v, w, ino, off, src) && v.inodes[ino].typ != T_DIR
    ensures TreeOk(w)
  {
    OneChangeKeepsTree(v, w, ino);
  }

  /** Truncation, of a directory too: it is then an empty one. */
  lemma TruncatedKeepsTree(v: View, w: View, ino: nat)
    requires TreeOk(v) && IndirectsOk(v.disk, v.inodes) && IndirectsOk(w.disk, w.inodes) && ino in v.inodes
    requires OthersSame(v.disk, v.inodes, w.disk, w.inodes, ino) && w.inodes == v.inodes[ino := Emptied(v.inodes[ino])]
    ensures TreeOk(w)
  {
    if w.inodes[ino].typ == T_DIR {
      assert Content(w.disk, w.inodes, ino) == [];
      assert DirAt(w, ino) == map[];
    }
    OneChangeKeepsTree(v, w, ino);
  }

  /** An entry more or fewer in a directory. */
  lemma LinkKeepsTree(v: View, w: View, dp: nat, key: seq<byte>, inum: nat)
    requires TreeOk(v) && IndirectsOk(v.disk, v.inodes) && IsDir(v, dp) && IsDir(w, dp)
    requires OthersSame(v.disk, v.inodes, w.disk, w.inodes, dp)
    requires forall k | k in DirAt(w, dp) && k != key :: k in DirAt(v, dp) && DirAt(w, dp)[k] == DirAt(v, dp)[k]
    requires key in DirAt(w, dp) ==> DirAt(w, dp)[key] == inum && inum in v.inodes && v.inodes[inum].typ != 0
    ensures TreeOk(w)
  {
    forall k | k in DirAt(w, dp) ensures InUse(w, DirAt(w, dp)[k]) {
      if k != key {
        assert NamesInUse(v, dp) && InUse(v, DirAt(v, dp)[k]);
      }
    }
    OneChangeKeepsTree(v, w, dp);
  }
}
