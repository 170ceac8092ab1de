/** The shell's commands and grammar over tokens. Words are of any type W: spans of the
    input for the parser, strings for the reader. */
module ShellGrammar {
  const MAXARGS := 10

  datatype Cmd<W> =
    | Exec(argv: seq<W>)
    | Redir(cmd: Cmd<W>, file: W, out: bool)
    | Pipe(left: Cmd<W>, right: Cmd<W>)
    | List(left: Cmd<W>, right: Cmd<W>)
    | Back(cmd: Cmd<W>)

  /** > and >> are different tokens, though the shell treats them alike. */
  datatype Tok<W> = Bar | LPar | RPar | Semi | Amp | Less | More | MoreMore | Word(w: W)

  datatype Res<W> = Panic | Ok(cmd: Cmd<W>, rest: seq<Tok<W>>)

  datatype Redirs<W> = NoFile | Redirs(wraps: seq<(W, bool)>, rest: seq<Tok<W>>)

  // ----- what the tokens begin with -----

  predicate StartsRedir<W>(ts: seq<Tok<W>>) {
    ts != [] && (ts[0].Less? || ts[0].More? || ts[0].MoreMore?)
  }

  predicate StartsStop<W>(ts: seq<Tok<W>>) {
    ts != [] && (ts[0].Bar? || ts[0].RPar? || ts[0].Amp? || ts[0].Semi?)
  }

  predicate StartsAmp<W>(ts: seq<Tok<W>>) {
    ts != [] && ts[0].Amp?
  }

  predicate StartsSemi<W>(ts: seq<Tok<W>>) {
    ts != [] && ts[0].Semi?
  }

  predicate StartsBar<W>(ts: seq<Tok<W>>) {
    ts != [] && ts[0].Bar?
  }

  predicate StartsLPar<W>(ts: seq<Tok<W>>) {
    ts != [] && ts[0].LPar?
  }

  predicate StartsRPar<W>(ts: seq<Tok<W>>) {
    ts != [] && ts[0].RPar?
  }

  function Wrap<W>(c: Cmd<W>, wraps: seq<(W, bool)>): Cmd<W>
    decreases |wraps|
  {
    if wraps == [] then c else Wrap(Redir(c, wraps[0].0, wraps[0].1), wraps[1..])
  }

  // ----- the parser's meaning -----

  function RedirsOf<W>(ts: seq<Tok<W>>): (r: Redirs<W>)
    ensures r.Redirs? ==> |r.rest| <= |ts| && !StartsRedir(r.rest)
  {
    if !StartsRedir(ts) then Redirs([], ts)
    else if |ts| < 2 || !ts[1].Word? then NoFile
    else match RedirsOf(ts[2..])
      case NoFile => NoFile
      case Redirs(ws, rest) => Redirs([(ts[1].w, !ts[0].Less?)] + ws, rest)
  }

  function Line<W>(ts: seq<Tok<W>>): (r: Res<W>)
    ensures r.Ok? ==> |r.rest| <= |ts|
    decreases |ts|, 3
  {
    match PipeLine(ts)
    case Panic => Panic
    case Ok(c, rest) =>
      var (d, after) := Backed(c, rest);
      if !StartsSemi(after) then Ok(d, after)
      else match Line(after[1..])
        case Panic => Panic
        case Ok(e, end) => Ok(List(d, e), end)
  }

  /** A command with the ampersands behind it taken in, and the tokens left. */
  function Backed<W>(c: Cmd<W>, ts: seq<Tok<W>>): (r: (Cmd<W>, seq<Tok<W>>))
    ensures |r.1| <= |ts| && !StartsAmp(r.1)
    decreases |ts|
  {
    if StartsAmp(ts) then Backed(Back(c), ts[1..]) else (c, ts)
  }

  function PipeLine<W>(ts: seq<Tok<W>>): (r: Res<W>)
    ensures r.Ok? ==> |r.rest| <= |ts|
    decreases |ts|, 2
  {
    match Simple(ts)
    case Panic => Panic
    case Ok(c, rest) =>
      if !StartsBar(rest) then Ok(c, rest)
      else match PipeLine(rest[1..])
        case Panic => Panic
        case Ok(d, end) => Ok(Pipe(c, d), end)
  }

  function Simple<W>(ts: seq<Tok<W>>): (r: Res<W>)
    ensures r.Ok? ==> |r.rest| <= |ts|
    decreases |ts|, 1
  {
    if StartsLPar(ts) then Parens(ts)
    else match RedirsOf(ts)
      case NoFile => Panic
      case Redirs(ws, rest) => Args(rest, [], ws)
  }

  /** The words and redirections of a simple command, argv and wraps so far. */
  function Args<W>(ts: seq<Tok<W>>, argv: seq<W>, wraps: seq<(W, bool)>): (r: Res<W>)
    ensures r.Ok? ==> |r.rest| <= |ts|
    decreases |ts|, 0
  {
    if ts == [] || StartsStop(ts) then Ok(Wrap(Exec(argv), wraps), ts)
    else if !ts[0].Word? || |argv| + 1 >= MAXARGS then Panic
    else match RedirsOf(ts[1..])
      case NoFile => Panic
      case Redirs(ws, rest) => Args(rest, argv + [ts[0].w], wraps + ws)
  }

  function Parens<W>(ts: seq<Tok<W>>): (r: Res<W>)
    requires StartsLPar(ts)
    ensures r.Ok? ==> |r.rest| <= |ts|
    decreases |ts|, 0
  {
    match Line(ts[1..])
    case Panic => Panic
    case Ok(c, rest) =>
      if !StartsRPar(rest) then Panic
      else match RedirsOf(rest[1..])
        case NoFile => Panic
        case Redirs(ws, end) => Ok(Wrap(c, ws), end)
  }

  // ----- words of another type -----

  function MapTok<W, V>(f: W -> V, t: Tok<W>): Tok<V> {
    match t
    case Word(w) => Word(f(w))
    case Bar => Bar
    case LPar => LPar
    case RPar => RPar
    case Semi => Semi
    case Amp => Amp
    case Less => Less
    case More => More
    case MoreMore => MoreMore
  }

  function MapToks<W, V>(f: W -> V, ts: seq<Tok<W>>): (us: seq<Tok<V>>)
    ensures |us| == |ts| && forall i | 0 <= i < |ts| :: us[i] == MapTok(f, ts[i])
  {
    seq(|ts|, i requires 0 <= i < |ts| => MapTok(f, ts[i]))
  }

  function MapWords<W, V>(f: W -> V, ws: seq<W>): (vs: seq<V>)
    ensures |vs| == |ws| && forall i | 0 <= i < |ws| :: vs[i] == f(ws[i])
  {
    seq(|ws|, i requires 0 <= i < |ws| => f(ws[i]))
  }

  function MapCmd<W, V>(f: W -> V, c: Cmd<W>): Cmd<V> {
    match c
    case Exec(argv) => Exec(MapWords(f, argv))
    case Redir(d, w, out) => Redir(MapCmd(f, d), f(w), out)
    case Pipe(l, r) => Pipe(MapCmd(f, l), MapCmd(f, r))
    case List(l, r) => List(MapCmd(f, l), MapCmd(f, r))
    case Back(d) => Back(MapCmd(f, d))
  }

  function MapWraps<W, V>(f: W -> V, ws: seq<(W, bool)>): (vs: seq<(V, bool)>)
    ensures |vs| == |ws| && forall i | 0 <= i < |ws| :: vs[i] == (f(ws[i].0), ws[i].1)
  {
    seq(|ws|, i requires 0 <= i < |ws| => (f(ws[i].0), ws[i].1))
  }

  function MapRes<W, V>(f: W -> V, r: Res<W>): Res<V> {
    match r
    case Panic => Panic
    case Ok(c, rest) => Ok(MapCmd(f, c), MapToks(f, rest))
  }

  lemma {:induction false} MapWrap<W, V>(f: W -> V, c: Cmd<W>, ws: seq<(W, bool)>)
    ensures MapCmd(f, Wrap(c, ws)) == Wrap(MapCmd(f, c), MapWraps(f, ws))
    decreases |ws|
  {
    if ws != [] {
      assert MapWraps(f, ws)[1..] == MapWraps(f, ws[1..]);
      MapWrap(f, Redir(c, ws[0].0, ws[0].1), ws[1..]);
    }
  }

  lemma {:induction false} MapBacked<W, V>(f: W -> V, c: Cmd<W>, ts: seq<Tok<W>>)
    ensures Backed(MapCmd(f, c), MapToks(f, ts)) == (MapCmd(f, Backed(c, ts).0), MapToks(f, Backed(c, ts).1))
    decreases |ts|
  {
    if StartsAmp(ts) {
      assert MapToks(f, ts)[1..] == MapToks(f, ts[1..]);
      MapBacked(f, Back(c), ts[1..]);
    }
  }

  lemma {:induction false} MapRedirs<W, V>(f: W -> V, ts: seq<Tok<W>>)
    ensures RedirsOf(MapToks(f, ts)) ==
      match RedirsOf(ts) case NoFile => NoFile case Redirs(ws, rest) => Redirs(MapWraps(f, ws), MapToks(f, rest))
  {
    var us := MapToks(f, ts);
    if !StartsRedir(ts) {
      assert MapWraps(f, []) == [];
    } else if |ts| >= 2 && ts[1].Word? {
      assert us[2..] == MapToks(f, ts[2..]);
      MapRedirs(f, ts[2..]);
      match RedirsOf(ts[2..])
      case NoFile =>
      case Redirs(ws, rest) =>
        assert MapWraps(f, [(ts[1].w, !ts[0].Less?)] + ws) == [(f(ts[1].w), !ts[0].Less?)] + MapWraps(f, ws);
    }
  }

  lemma {:induction false} MapArgs<W, V>(f: W -> V, ts: seq<Tok<W>>, argv: seq<W>, wraps: seq<(W, bool)>)
    ensures Args(MapToks(f, ts), MapWords(f, argv), MapWraps(f, wraps)) == MapRes(f, Args(ts, argv, wraps))
    decreases |ts|
  {
    if ts == [] || StartsStop(ts) {
      MapWrap(f, Exec(argv), wraps);
    } else if ts[0].Word? && |argv| + 1 < MAXARGS {
      var us := MapToks(f, ts);
      assert us[1..] == MapToks(f, ts[1..]);
      MapRedirs(f, ts[1..]);
      match RedirsOf(ts[1..])
      case NoFile =>
      case Redirs(ws, rest) =>
        assert MapWords(f, argv + [ts[0].w]) == MapWords(f, argv) + [us[0].w];
        assert MapWraps(f, wraps + ws) == MapWraps(f, wraps) + MapWraps(f, ws);
        MapArgs(f, rest, argv + [ts[0].w], wraps + ws);
    }
  }

  /** The parser does not look into words: it gives the same tree whatever they are. */
  lemma {:induction false} MapLine<W, V>(f: W -> V, ts: seq<Tok<W>>)
    ensures Line(MapToks(f, ts)) == MapRes(f, Line(ts))
    decreases |ts|, 3
  {
    MapPipeLine(f, ts);
    match PipeLine(ts)
    case Panic =>
    case Ok(c, rest) =>
      MapBacked(f, c, rest);
      var after := Backed(c, rest).1;
      if StartsSemi(after) {
        assert MapToks(f, after)[1..] == MapToks(f, after[1..]);
        MapLine(f, after[1..]);
      }
  }

  lemma {:induction false} MapPipeLine<W, V>(f: W -> V, ts: seq<Tok<W>>)
    ensures PipeLine(MapToks(f, ts)) == MapRes(f, PipeLine(ts))
    decreases |ts|, 2
  {
    MapSimple(f, ts);
    match Simple(ts)
    case Panic =>
    case Ok(c, rest) =>
      if StartsBar(rest) {
        assert MapToks(f, rest)[1..] == MapToks(f, rest[1..]);
        MapPipeLine(f, rest[1..]);
      }
  }

  lemma {:induction false} MapSimple<W, V>(f: W -> V, ts: seq<Tok<W>>)
    ensures Simple(MapToks(f, ts)) == MapRes(f, Simple(ts))
    decreases |ts|, 1
  {
    if StartsLPar(ts) {
      MapParens(f, ts);
    } else {
      MapRedirs(f, ts);
      match RedirsOf(ts)
      case NoFile =>
      case Redirs(ws, rest) =>
        MapArgs(f, rest, [], ws);
        assert MapWords(f, []) == [];
    }
  }

  lemma {:induction false} MapParens<W, V>(f: W -> V, ts: seq<Tok<W>>)
    requires StartsLPar(ts)
    ensures Parens(MapToks(f, ts)) == MapRes(f, Parens(ts))
    decreases |ts|, 0
  {
    assert MapToks(f, ts)[1..] == MapToks(f, ts[1..]);
    MapLine(f, ts[1..]);
    match Line(ts[1..])
    case Panic =>
    case Ok(c, rest) =>
      if StartsRPar(rest) {
        assert MapToks(f, rest)[1..] == MapToks(f, rest[1..]);
        MapRedirs(f, rest[1..]);
        match RedirsOf(rest[1..])
        case NoFile =>
        case Redirs(ws, end) => MapWrap(f, c, ws);
      }
  }
}
