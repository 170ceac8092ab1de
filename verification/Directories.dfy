/** A directory's bytes as a finite map from names to inode numbers. */
module Directories {
  import opened Blocks
  import opened FileData
  import opened FileSteps
  import opened Names

  const DESIZE := 16
  const T_DIR := 1

  /** struct dirent. */
  function Dirent(inum: nat, name: seq<byte>): (de: seq<byte>)
    requires |name| == DIRSIZ
    ensures |de| == DESIZE
  {
    [inum % 0x100, inum / 0x100 % 0x100] + name
  }

  predicate Fits(c: seq<byte>, k: nat) {
    DESIZE * k + DESIZE <= |c|
  }

  /** The inode number of entry k; 0 marks a free entry. */
  function InumAt(c: seq<byte>, k: nat): nat
    requires Fits(c, k)
  {
    c[DESIZE * k] as int + 0x100 * c[DESIZE * k + 1] as int
  }

  function NameAt(c: seq<byte>, k: nat): seq<byte>
    requires Fits(c, k)
  {
    Cut(c[DESIZE * k + 2..DESIZE * k + DESIZE])
  }

  predicate Live(c: seq<byte>, k: nat) {
    Fits(c, k) && InumAt(c, k) != 0
  }

  /** Whole entries, and no name twice among the live ones. */
  ghost predicate DirOk(c: seq<byte>) {
    |c| % DESIZE == 0 && forall i, j | Live(c, i) && Live(c, j) && i != j :: NameAt(c, i) != NameAt(c, j)
  }

  type NameMap = map<seq<byte>, nat>

  /** The map of the first n entries. */
  function MapTo(c: seq<byte>, n: nat): NameMap
    requires n > 0 ==> Fits(c, n - 1)
  {
    if n == 0 then map[]
    else if Live(c, n - 1) then MapTo(c, n - 1)[NameAt(c, n - 1) := InumAt(c, n - 1)]
    else MapTo(c, n - 1)
  }

  /** The map a directory stands for. */
  function Dir(c: seq<byte>): NameMap {
    MapTo(c, |c| / DESIZE)
  }

  lemma {:induction false} LiveIsMapped(c: seq<byte>, n: nat, k: nat)
    requires DirOk(c) && (n > 0 ==> Fits(c, n - 1)) && k < n && Live(c, k)
    ensures NameAt(c, k) in MapTo(c, n) && MapTo(c, n)[NameAt(c, k)] == InumAt(c, k)
  {
    if k < n - 1 {
      LiveIsMapped(c, n - 1, k);
    }
  }

  lemma {:induction false} MappedIsLive(c: seq<byte>, n: nat, key: seq<byte>) returns (k: nat)
    requires DirOk(c) && (n > 0 ==> Fits(c, n - 1)) && key in MapTo(c, n)
    ensures k < n && Live(c, k) && NameAt(c, k) == key && MapTo(c, n)[key] == InumAt(c, k)
  {
    if Live(c, n - 1) && NameAt(c, n - 1) == key {
      k := n - 1;
    } else {
      k := MappedIsLive(c, n - 1, key);
    }
  }

  /** The map holds exactly the live entries. */
  lemma DirIs(c: seq<byte>, m: NameMap)
    requires DirOk(c)
    requires forall k | Live(c, k) :: NameAt(c, k) in m && m[NameAt(c, k)] == InumAt(c, k)
    requires forall key | key in m :: exists k :: Live(c, k) && NameAt(c, k) == key
    ensures Dir(c) == m
  {
    var n := |c| / DESIZE;
    forall key ensures key in Dir(c) <==> key in m
      ensures key in m ==> Dir(c)[key] == m[key]
    {
      if key in m {
        var k :| Live(c, k) && NameAt(c, k) == key;
        LiveIsMapped(c, n, k);
      }
      if key in Dir(c) {
        var k := MappedIsLive(c, n, key);
      }
    }
  }

  /** An entry changed or appended at position k; the others are as before. */
  predicate Changed(c: seq<byte>, d: seq<byte>, k: nat) {
    && |c| % DESIZE == 0 && DESIZE * k <= |c| && |d| == Max(|c|, DESIZE * k + DESIZE)
    && forall i | 0 <= i < |c| && !(DESIZE * k <= i < DESIZE * k + DESIZE) :: d[i] == c[i]
  }

  lemma OtherEntries(c: seq<byte>, d: seq<byte>, k: nat, j: nat)
    requires Changed(c, d, k) && j != k
    ensures Fits(d, j) == Fits(c, j)
    ensures Fits(c, j) ==> InumAt(d, j) == InumAt(c, j) && NameAt(d, j) == NameAt(c, j)
  {
    if Fits(c, j) {
      assert DESIZE * j + DESIZE <= DESIZE * k || DESIZE * k + DESIZE <= DESIZE * j;
      assert c[DESIZE * j + 2..DESIZE * j + DESIZE] == d[DESIZE * j + 2..DESIZE * j + DESIZE];
    }
  }

  /** A new entry in a free place is an insertion; with an inode number that is 0 in 16 bits it is none. */
  lemma EntryAdded(c: seq<byte>, d: seq<byte>, k: nat, key: seq<byte>, inum: nat)
    requires DirOk(c) && Changed(c, d, k) && !Live(c, k) && key !in Dir(c)
    requires Fits(d, k) && InumAt(d, k) == inum && NameAt(d, k) == key
    ensures DirOk(d) && Dir(d) == if inum == 0 then Dir(c) else Dir(c)[key := inum]
  {
    var n := |c| / DESIZE;
    forall j | Live(d, j) && j != k
      ensures Live(c, j) && NameAt(d, j) == NameAt(c, j) && InumAt(d, j) == InumAt(c, j) && NameAt(c, j) != key
    {
      OtherEntries(c, d, k, j);
      LiveIsMapped(c, n, j);
    }
    var m := if inum == 0 then Dir(c) else Dir(c)[key := inum];
    forall j | Live(d, j) ensures NameAt(d, j) in m && m[NameAt(d, j)] == InumAt(d, j) {
      if j != k {
        LiveIsMapped(c, n, j);
      }
    }
    forall q | q in m ensures exists j :: Live(d, j) && NameAt(d, j) == q {
      if q != key {
        var j := MappedIsLive(c, n, q);
        OtherEntries(c, d, k, j);
        assert Live(d, j);
      } else {
        assert Live(d, k);
      }
    }
    DirIs(d, m);
  }

  /** Clearing a live entry is a removal. */
  lemma EntryCleared(c: seq<byte>, d: seq<byte>, k: nat)
    requires DirOk(c) && Changed(c, d, k) && Live(c, k) && InumAt(d, k) == 0
    ensures DirOk(d) && Dir(d) == Dir(c) - {NameAt(c, k)}
  {
    var n := |c| / DESIZE;
    forall j | Live(d, j)
      ensures j != k && Live(c, j) && NameAt(d, j) == NameAt(c, j) && InumAt(d, j) == InumAt(c, j)
      ensures NameAt(c, j) != NameAt(c, k)
    {
      OtherEntries(c, d, k, j);
    }
    var m := Dir(c) - {NameAt(c, k)};
    forall j | Live(d, j) ensures NameAt(d, j) in m && m[NameAt(d, j)] == InumAt(d, j) {
      LiveIsMapped(c, n, j);
    }
    forall q | q in m ensures exists j :: Live(d, j) && NameAt(d, j) == q {
      var j := MappedIsLive(c, n, q);
      OtherEntries(c, d, k, j);
      assert Live(d, j);
    }
    DirIs(d, m);
  }

  lemma SplicedEntry(c: seq<byte>, k: nat, de: seq<byte>)
    requires |c| % DESIZE == 0 && DESIZE * k <= |c| && |de| == DESIZE
    ensures var d := Spliced(c, DESIZE * k, de);
      && Changed(c, d, k) && Fits(d, k) && InumAt(d, k) == de[0] as int + 0x100 * de[1] as int
      && NameAt(d, k) == Cut(de[2..])
  {
    var d := Spliced(c, DESIZE * k, de);
    assert d[DESIZE * k + 2..DESIZE * k + DESIZE] == de[2..];
  }
}
