/** Names of at most DIRSIZ bytes, C strings, and the splitting of paths at slashes. */
module Names {
  import opened Blocks

  const DIRSIZ := 14
  const SLASH: byte := 47

  /** The name a buffer or string stands for: the bytes before the first zero, at most DIRSIZ of them. */
  function Cut(s: seq<byte>): (c: seq<byte>)
    ensures |c| <= DIRSIZ && |c| <= |s|
  {
    CutTo(s, DIRSIZ)
  }

  function CutTo(s: seq<byte>, n: nat): (c: seq<byte>)
    ensures |c| <= n && |c| <= |s|
  {
    if n == 0 || s == [] || s[0] == 0 then [] else [s[0]] + CutTo(s[1..], n - 1)
  }

  /** A name is what comes before the first zero or the limit, and nothing else. */
  lemma {:induction false} CutIs(s: seq<byte>, n: nat, k: nat)
    requires k <= n && k <= |s| && (forall i | 0 <= i < k :: s[i] != 0) && (k == n || k == |s| || s[k] == 0)
    ensures CutTo(s, n) == s[..k]
  {
    if k > 0 {
      CutIs(s[1..], n - 1, k - 1);
      assert s[..k] == [s[0]] + s[1..][..k - 1];
    }
  }

  /** Where the name of a string ends. */
  lemma {:induction false} CutEnds(s: seq<byte>, n: nat) returns (k: nat)
    ensures k <= n && k <= |s| && (forall i | 0 <= i < k :: s[i] != 0) && (k == n || k == |s| || s[k] == 0)
    ensures CutTo(s, n) == s[..k]
  {
    if n == 0 || s == [] || s[0] == 0 {
      k := 0;
    } else {
      var j := CutEnds(s[1..], n - 1);
      k := j + 1;
      assert s[..k] == [s[0]] + s[1..][..j];
    }
  }

  /** A byte of a C string; the one past its last byte is the terminating zero. */
  function At(s: seq<byte>, i: nat): byte
    requires i <= |s|
  {
    if i < |s| then s[i] else 0
  }

  /** Names whose strings differ before either ends differ. */
  lemma DifferAt(s: seq<byte>, t: seq<byte>, ks: nat, kt: nat, i: nat)
    requires i <= ks <= |s| && i <= kt <= |t| && i < DIRSIZ && At(s, i) != At(t, i)
    requires (ks == DIRSIZ || At(s, ks) == 0) && (kt == DIRSIZ || At(t, kt) == 0)
    ensures s[..ks] != t[..kt]
  {
    if ks == kt {
      assert i < ks;
      assert s[..ks][i] == s[i] && t[..kt][i] == t[i];
    }
  }

  /** namecmp: strncmp over DIRSIZ bytes finds no difference exactly when the names are the same. */
  method Namecmp(s: seq<byte>, t: seq<byte>) returns (same: bool)
    ensures same <==> Cut(s) == Cut(t)
  {
    var i := 0;
    var ks := CutEnds(s, DIRSIZ);
    var kt := CutEnds(t, DIRSIZ);
    while i < DIRSIZ
      invariant 0 <= i <= ks && i <= kt && ks <= DIRSIZ
      invariant s[..i] == t[..i]
    {
      if At(s, i) != At(t, i) {
        DifferAt(s, t, ks, kt, i);
        return false;
      }
      if At(s, i) == 0 {
        assert ks == i && kt == i;
        return true;
      }
      assert s[..i + 1] == s[..i] + [s[i]] && t[..i + 1] == t[..i] + [t[i]];
      i := i + 1;
    }
    return true;
  }

  /** strncpy into a directory entry: the name, padded with zeros. */
  function Padded(name: seq<byte>): (p: seq<byte>)
    ensures |p| == DIRSIZ && Cut(p) == Cut(name)
  {
    var p := Cut(name) + seq<byte>(DIRSIZ - |Cut(name)|, i => 0);
    PaddedCut(name);
    p
  }

  lemma PaddedCut(name: seq<byte>)
    ensures Cut(Cut(name) + seq<byte>(DIRSIZ - |Cut(name)|, i => 0)) == Cut(name)
  {
    var k := CutEnds(name, DIRSIZ);
    var p := Cut(name) + seq<byte>(DIRSIZ - |Cut(name)|, i => 0);
    CutIs(p, DIRSIZ, k);
    assert p[..k] == Cut(name);
  }

  // ----- paths -----

  /** The first position from p on that is not a slash. */
  function SkipSlashes(path: seq<byte>, p: nat): (q: nat)
    requires p <= |path|
    ensures p <= q <= |path| && (q < |path| ==> path[q] != SLASH)
    decreases |path| - p
  {
    if p < |path| && path[p] == SLASH then SkipSlashes(path, p + 1) else p
  }

  /** The first position from p on that is a slash. */
  function PartEnd(path: seq<byte>, p: nat): (q: nat)
    requires p <= |path|
    ensures p <= q <= |path|
    decreases |path| - p
  {
    if p < |path| && path[p] != SLASH then PartEnd(path, p + 1) else p
  }

  /** The parts of a path from p on: what lies between runs of slashes. */
  function PartsFrom(path: seq<byte>, p: nat): seq<seq<byte>>
    requires p <= |path|
    decreases |path| - p
  {
    var at := SkipSlashes(path, p);
    if at == |path| then [] else [path[at..PartEnd(path, at)]] + PartsFrom(path, PartEnd(path, at))
  }

  function Parts(path: seq<byte>): seq<seq<byte>> {
    PartsFrom(path, 0)
  }

  lemma {:induction false} SkipIs(path: seq<byte>, p: nat, q: nat)
    requires p <= q <= |path| && (forall i | p <= i < q :: path[i] == SLASH) && (q < |path| ==> path[q] != SLASH)
    ensures SkipSlashes(path, p) == q
    decreases q - p
  {
    if p < q {
      SkipIs(path, p + 1, q);
    }
  }

  lemma {:induction false} PartEndIs(path: seq<byte>, p: nat, q: nat)
    requires p <= q <= |path| && (forall i | p <= i < q :: path[i] != SLASH) && (q < |path| ==> path[q] == SLASH)
    ensures PartEnd(path, p) == q
    decreases q - p
  {
    if p < q {
      PartEndIs(path, p + 1, q);
    }
  }

  lemma {:induction false} PartHasNoSlash(path: seq<byte>, p: nat)
    requires p <= |path|
    ensures forall i | p <= i < PartEnd(path, p) :: path[i] != SLASH
    decreases |path| - p
  {
    if p < |path| && path[p] != SLASH {
      PartHasNoSlash(path, p + 1);
    }
  }

  /** Leading slashes do not matter. */
  lemma PartsSkip(path: seq<byte>, p: nat)
    requires p <= |path|
    ensures PartsFrom(path, SkipSlashes(path, p)) == PartsFrom(path, p)
    ensures PartsFrom(path, p) == [] <==> SkipSlashes(path, p) == |path|
  {
    var at := SkipSlashes(path, p);
    SkipIs(path, at, at);
  }

  /** Parts are non-empty and have no slashes. */
  lemma {:induction false} PartsAreClean(path: seq<byte>, p: nat, k: nat)
    requires p <= |path| && k < |PartsFrom(path, p)|
    ensures CleanPart(PartsFrom(path, p)[k])
    decreases |path| - p
  {
    var at := SkipSlashes(path, p);
    var end := PartEnd(path, at);
    if k > 0 {
      PartsAreClean(path, end, k - 1);
    } else {
      PartHasNoSlash(path, at);
      assert at < end;
    }
  }

  predicate CleanPart(part: seq<byte>) {
    part != [] && forall i | 0 <= i < |part| :: part[i] != SLASH
  }

  /** The parts from the k-th on, a slash before each. */
  function Joined(parts: seq<seq<byte>>, k: nat): seq<byte>
    requires k <= |parts|
    decreases |parts| - k
  {
    if k == |parts| then [] else [SLASH] + parts[k] + Joined(parts, k + 1)
  }

  /** Parts joined with single slashes split back into the same parts. */
  lemma {:induction false} JoinedParts(parts: seq<seq<byte>>, k: nat, path: seq<byte>, p: nat)
    requires k <= |parts| && forall j | 0 <= j < |parts| :: CleanPart(parts[j])
    requires p <= |path| && path[p..] == Joined(parts, k)
    ensures PartsFrom(path, p) == parts[k..]
    decreases |parts| - k
  {
    if k == |parts| {
      SkipIs(path, p, p);
    } else {
      var part, rest, end, next := parts[k], Joined(parts, k + 1), p + 1 + |parts[k]|, k + 1;
      PartThenRest(path, p, part, rest, end);
      JoinedParts(parts, next, path, end);
      TailOf(parts, k, next);
    }
  }

  lemma TailOf(parts: seq<seq<byte>>, k: nat, next: nat)
    requires k < |parts| && next == k + 1
    ensures parts[k..] == [parts[k]] + parts[next..]
  {
  }

  lemma PartThenRest(path: seq<byte>, p: nat, part: seq<byte>, rest: seq<byte>, end: nat)
    requires p <= |path| && path[p..] == [SLASH] + part + rest && CleanPart(part) && end == p + 1 + |part|
    requires rest != [] ==> rest[0] == SLASH
    ensures end <= |path| && path[end..] == rest && PartsFrom(path, p) == [part] + PartsFrom(path, end)
  {
    FirstPart(path, p, part, rest);
    SkipIs(path, p, p + 1);
    PartEndIs(path, p + 1, p + 1 + |part|);
  }

  lemma FirstPart(path: seq<byte>, p: nat, part: seq<byte>, rest: seq<byte>)
    requires p <= |path| && path[p..] == [SLASH] + part + rest && CleanPart(part)
    requires rest != [] ==> rest[0] == SLASH
    ensures var end := p + 1 + |part|;
      && end <= |path| && path[p] == SLASH && path[p + 1..end] == part && path[end..] == rest
      && (forall i | p + 1 <= i < end :: path[i] != SLASH) && (end < |path| ==> path[end] == SLASH)
  {
    var s, end := path[p..], p + 1 + |part|;
    assert s[0] == path[p] && s[1..1 + |part|] == part && s[1 + |part|..] == rest;
    assert path[p + 1..end] == s[1..1 + |part|] && path[end..] == s[1 + |part|..];
    forall i | p + 1 <= i < end ensures path[i] != SLASH {
      assert path[p + 1..end][i - p - 1] == path[i];
    }
    assert end < |path| ==> path[end..][0] == path[end];
  }

  lemma {:induction false} SlashesSkipped(path: seq<byte>, p: nat)
    requires p <= |path|
    ensures forall i | p <= i < SkipSlashes(path, p) :: path[i] == SLASH
    decreases |path| - p
  {
    if p < |path| && path[p] == SLASH {
      SlashesSkipped(path, p + 1);
    }
  }

  lemma {:induction false} PartEndsAtSlash(path: seq<byte>, p: nat)
    requires p <= |path|
    ensures PartEnd(path, p) < |path| ==> path[PartEnd(path, p)] == SLASH
    decreases |path| - p
  {
    if p < |path| && path[p] != SLASH {
      PartEndsAtSlash(path, p + 1);
    }
  }

  /** Where the first part of the path from p on lies, if it has one. */
  lemma FirstPlace(path: seq<byte>, p: nat)
    requires p <= |path|
    ensures var at := SkipSlashes(path, p);
      && (forall i | p <= i < at :: path[i] == SLASH)
      && (at < |path| ==>
           var end := PartEnd(path, at);
           && at < end && (forall i | at <= i < end :: path[i] != SLASH) && (end < |path| ==> path[end] == SLASH))
  {
    SlashesSkipped(path, p);
    PartHasNoSlash(path, SkipSlashes(path, p));
    PartEndsAtSlash(path, SkipSlashes(path, p));
  }

  /** The parts from p on are those of what stands there. */
  lemma {:induction false} PartsOfTail(path: seq<byte>, p: nat, tail: seq<byte>, q: nat)
    requires p <= |path| && q <= |tail| && path[p..] == tail[q..]
    ensures PartsFrom(path, p) == PartsFrom(tail, q)
    decreases |path| - p
  {
    var at, from := SkipSlashes(path, p), q + (SkipSlashes(path, p) - p);
    SameSkip(path, p, tail, q);
    SkipIs(tail, q, from);
    if at < |path| {
      var end, to := PartEnd(path, at), q + (PartEnd(path, at) - p);
      SameEnd(path, p, tail, q);
      PartEndIs(tail, from, to);
      SameSlices(path, p, tail, q, at, end);
      FirstPlace(path, p);
      PartsOfTail(path, end, tail, to);
    }
  }

  lemma SameSkip(path: seq<byte>, p: nat, tail: seq<byte>, q: nat)
    requires p <= |path| && q <= |tail| && path[p..] == tail[q..]
    ensures var from := q + (SkipSlashes(path, p) - p);
      && from <= |tail| && (from < |tail| <==> SkipSlashes(path, p) < |path|)
      && (forall k | q <= k < from :: tail[k] == SLASH) && (from < |tail| ==> tail[from] != SLASH)
  {
    FirstPlace(path, p);
    SameTail(path, p, tail, q);
  }

  lemma SameEnd(path: seq<byte>, p: nat, tail: seq<byte>, q: nat)
    requires p <= |path| && q <= |tail| && path[p..] == tail[q..] && SkipSlashes(path, p) < |path|
    ensures var at := SkipSlashes(path, p);
      var from, to := q + (at - p), q + (PartEnd(path, at) - p);
      && from <= to <= |tail| && (forall k | from <= k < to :: tail[k] != SLASH)
      && (to < |tail| ==> tail[to] == SLASH)
  {
    FirstPlace(path, p);
    SameTail(path, p, tail, q);
  }

  lemma SameTail(path: seq<byte>, p: nat, tail: seq<byte>, q: nat)
    requires p <= |path| && q <= |tail| && path[p..] == tail[q..]
    ensures |path| - p == |tail| - q && forall k | q <= k < |tail| :: tail[k] == path[p + (k - q)]
  {
    assert |path[p..]| == |tail[q..]|;
    forall k | q <= k < |tail| ensures tail[k] == path[p + (k - q)] {
      assert path[p..][k - q] == tail[q..][k - q];
    }
  }

  lemma SameSlices(path: seq<byte>, p: nat, tail: seq<byte>, q: nat, at: nat, end: nat)
    requires p <= at <= end <= |path| && q <= |tail| && path[p..] == tail[q..]
    ensures q + (end - p) <= |tail| && path[at..end] == tail[q + (at - p)..q + (end - p)]
    ensures path[end..] == tail[q + (end - p)..]
  {
    SameTail(path, p, tail, q);
    assert path[end..] == path[p..][end - p..] && tail[q + (end - p)..] == tail[q..][end - p..];
  }

  /** A slash between two paths joins their parts. */
  lemma {:induction false} PartsJoin(front: seq<byte>, back: seq<byte>, p: nat)
    requires p <= |front|
    ensures PartsFrom(front + [SLASH] + back, p) == PartsFrom(front, p) + Parts(back)
    decreases |front| - p
  {
    var path := front + [SLASH] + back;
    FirstPlace(front, p);
    var at := SkipSlashes(front, p);
    if at == |front| {
      SkipToBack(path, p, at + 1);
      assert path[at + 1..] == back == back[0..];
      PartsOfTail(path, at + 1, back, 0);
    } else {
      var end := PartEnd(front, at);
      SkipIs(path, p, at);
      PartEndIs(path, at, end);
      assert path[at..end] == front[at..end];
      PartsJoin(front, back, end);
      assert [front[at..end]] + PartsFrom(front, end) + Parts(back) ==
             [front[at..end]] + (PartsFrom(front, end) + Parts(back));
    }
  }

  lemma {:induction false} SkipToBack(path: seq<byte>, p: nat, q: nat)
    requires p <= q <= |path| && forall i | p <= i < q :: path[i] == SLASH
    ensures PartsFrom(path, p) == PartsFrom(path, q)
    decreases q - p
  {
    if p < q {
      SkipToBack(path, p + 1, q);
    }
  }

  lemma NoParts()
    ensures Parts([]) == [] && Parts([SLASH]) == []
  {
    SkipIs([], 0, 0);
    SkipIs([SLASH], 0, 1);
    SkipIs([SLASH], 1, 1);
  }

  /** A path without slashes is one part. */
  lemma OnePart(part: seq<byte>)
    requires CleanPart(part)
    ensures Parts(part) == [part]
  {
    SkipIs(part, 0, 0);
    PartEndIs(part, 0, |part|);
    SkipIs(part, |part|, |part|);
    assert PartsFrom(part, |part|) == [] && part[0..|part|] == part;
    assert PartsFrom(part, 0) == [part] + PartsFrom(part, |part|);
  }

  /** What skipelem leaves in the name buffer stands for the part cut to DIRSIZ. */
  lemma NameCut(path: seq<byte>, at: nat, q: nat, name: seq<byte>)
    requires at < q <= |path| && forall i | 0 <= i < |path| :: path[i] != 0
    requires name == if q - at >= DIRSIZ then path[at..at + DIRSIZ] else path[at..q] + [0]
    ensures Cut(name) == Cut(path[at..q])
  {
    var elem := path[at..q];
    var k := if q - at >= DIRSIZ then DIRSIZ else q - at;
    CutIs(name, DIRSIZ, k);
    CutIs(elem, DIRSIZ, k);
    assert elem[..k] == name[..k];
  }

  /** skipelem on the string path from p: the first part in name, cut to DIRSIZ as a buffer
      holds it, and where the next part or the end is; None when there is no part. */
  method Skipelem(path: seq<byte>, p: nat) returns (next: Option<nat>, name: seq<byte>)
    requires p <= |path| && forall i | 0 <= i < |path| :: path[i] != 0
    ensures next.None? <==> PartsFrom(path, p) == []
    ensures next.Some? ==> p < next.value <= |path| && PartsFrom(path, p) != []
    ensures next.Some? ==>
      Cut(name) == Cut(PartsFrom(path, p)[0]) && PartsFrom(path, next.value) == PartsFrom(path, p)[1..]
    ensures next.Some? ==> (next.value == |path| <==> |PartsFrom(path, p)| == 1)
  {
    var q := p;
    name := [];
    while At(path, q) == SLASH
      invariant p <= q <= |path| && forall i | p <= i < q :: path[i] == SLASH
      decreases |path| - q
    {
      q := q + 1;
    }
    SkipIs(path, p, q);
    if At(path, q) == 0 {
      return None, [];
    }
    var at := q;
    while At(path, q) != SLASH && At(path, q) != 0
      invariant at <= q <= |path| && forall i | at <= i < q :: path[i] != SLASH
      decreases |path| - q
    {
      q := q + 1;
    }
    PartEndIs(path, at, q);
    if q - at >= DIRSIZ {
      name := path[at..at + DIRSIZ];
    } else {
      name := path[at..q] + [0];
    }
    NameCut(path, at, q, name);
    PartsSkip(path, q);
    ghost var end := q;
    while At(path, q) == SLASH
      invariant end <= q <= |path| && forall i | end <= i < q :: path[i] == SLASH
      decreases |path| - q
    {
      q := q + 1;
    }
    SkipIs(path, end, q);
    return Some(q), name;
  }
}
