/** How commands are written: the forms of a line over tokens, what each means, and that the
    parser accepts exactly the lines of these forms and gives what they mean. */
module ShellForms {
  import opened ShellGrammar

  /** An argument, or a redirection with its file: < > >> */
  datatype Item<W> = Arg(w: W) | From(file: W) | Into(file: W) | Onto(file: W)

  /** Words and redirections in any order, or a line in parentheses with redirections behind it. */
  datatype Part<W> = Plain(items: seq<Item<W>>) | Block(body: Script<W>, redirs: seq<Item<W>>)

  /** a | b | c */
  datatype Chain<W> = One(part: Part<W>) | Piped(part: Part<W>, rest: Chain<W>)

  /** A chain with so many ampersands behind it. */
  datatype Job<W> = Job(chain: Chain<W>, amps: nat)

  /** a ; b ; c */
  datatype Script<W> = Last(job: Job<W>) | Then(job: Job<W>, rest: Script<W>)

  // ----- the tokens of a form -----

  function ItemToks<W>(i: Item<W>): seq<Tok<W>> {
    match i
    case Arg(w) => [Word(w)]
    case From(f) => [Less, Word(f)]
    case Into(f) => [More, Word(f)]
    case Onto(f) => [MoreMore, Word(f)]
  }

  function ItemsToks<W>(items: seq<Item<W>>): seq<Tok<W>> {
    if items == [] then [] else ItemToks(items[0]) + ItemsToks(items[1..])
  }

  function PartToks<W>(p: Part<W>): seq<Tok<W>>
    decreases p
  {
    match p
    case Plain(items) => ItemsToks(items)
    case Block(body, redirs) => [LPar] + ScriptToks(body) + [RPar] + ItemsToks(redirs)
  }

  function ChainToks<W>(c: Chain<W>): seq<Tok<W>>
    decreases c
  {
    match c
    case One(p) => PartToks(p)
    case Piped(p, rest) => PartToks(p) + [Bar] + ChainToks(rest)
  }

  function JobToks<W>(j: Job<W>): seq<Tok<W>>
    decreases j
  {
    ChainToks(j.chain) + Amps(j.amps)
  }

  function Amps<W>(n: nat): seq<Tok<W>> {
    if n == 0 then [] else [Amp] + Amps(n - 1)
  }

  function ScriptToks<W>(s: Script<W>): seq<Tok<W>>
    decreases s
  {
    match s
    case Last(j) => JobToks(j)
    case Then(j, rest) => JobToks(j) + [Semi] + ScriptToks(rest)
  }

  // ----- what a form means -----

  /** The words among the items, in order. */
  function Words<W>(items: seq<Item<W>>): seq<W> {
    if items == [] then []
    else if items[0].Arg? then [items[0].w] + Words(items[1..])
    else Words(items[1..])
  }

  /** The redirections among the items, in order. */
  function Files<W>(items: seq<Item<W>>): seq<Item<W>> {
    if items == [] then []
    else if items[0].Arg? then Files(items[1..])
    else [items[0]] + Files(items[1..])
  }

  /** The command with these redirections, the last one outermost: it is opened first. */
  function Redirected<W>(c: Cmd<W>, files: seq<Item<W>>): Cmd<W>
    requires NoArgs(files)
  {
    if files == [] then c
    else
      var last := files[|files| - 1];
      Redir(Redirected(c, files[..|files| - 1]), last.file, !last.From?)
  }

  predicate NoArgs<W>(items: seq<Item<W>>) {
    forall i | 0 <= i < |items| :: !items[i].Arg?
  }

  lemma {:induction false} FilesAreFiles<W>(items: seq<Item<W>>)
    ensures NoArgs(Files(items)) && (NoArgs(items) ==> Files(items) == items && Words(items) == [])
  {
    if items != [] {
      FilesAreFiles(items[1..]);
    }
  }

  /** Every simple command has fewer than MAXARGS words, and what follows a block are redirections. */
  predicate Proper<W>(p: Part<W>)
    decreases p
  {
    match p
    case Plain(items) => |Words(items)| < MAXARGS
    case Block(body, redirs) => ProperScript(body) && NoArgs(redirs)
  }

  predicate ProperChain<W>(c: Chain<W>)
    decreases c
  {
    match c
    case One(p) => Proper(p)
    case Piped(p, rest) => Proper(p) && ProperChain(rest)
  }

  predicate ProperScript<W>(s: Script<W>)
    decreases s
  {
    match s
    case Last(j) => ProperChain(j.chain)
    case Then(j, rest) => ProperChain(j.chain) && ProperScript(rest)
  }

  function PartTree<W>(p: Part<W>): Cmd<W>
    requires Proper(p)
    decreases p
  {
    match p
    case Plain(items) =>
      FilesAreFiles(items);
      Redirected(Exec(Words(items)), Files(items))
    case Block(body, redirs) => Redirected(ScriptTree(body), redirs)
  }

  function ChainTree<W>(c: Chain<W>): Cmd<W>
    requires ProperChain(c)
    decreases c
  {
    match c
    case One(p) => PartTree(p)
    case Piped(p, rest) => Pipe(PartTree(p), ChainTree(rest))
  }

  function JobTree<W>(j: Job<W>): Cmd<W>
    requires ProperChain(j.chain)
    decreases j
  {
    Backs(ChainTree(j.chain), j.amps)
  }

  function Backs<W>(c: Cmd<W>, n: nat): Cmd<W> {
    if n == 0 then c else Back(Backs(c, n - 1))
  }

  function ScriptTree<W>(s: Script<W>): Cmd<W>
    requires ProperScript(s)
    decreases s
  {
    match s
    case Last(j) => JobTree(j)
    case Then(j, rest) => List(JobTree(j), ScriptTree(rest))
  }

  // ----- the parser gives what a form means -----

  /** What may follow a part, and a chain. */
  predicate Stops<W>(ts: seq<Tok<W>>) {
    ts == [] || StartsStop(ts)
  }

  predicate Ends<W>(ts: seq<Tok<W>>) {
    ts == [] || StartsRPar(ts)
  }

  /** The redirections as the parser collects them. */
  function Wraps<W>(files: seq<Item<W>>): (ws: seq<(W, bool)>)
    requires NoArgs(files)
    ensures |ws| == |files| && forall i | 0 <= i < |ws| :: ws[i] == (files[i].file, !files[i].From?)
  {
    seq(|files|, i requires 0 <= i < |files| => (files[i].file, !files[i].From?))
  }

  lemma {:induction false} WrapLast<W>(c: Cmd<W>, ws: seq<(W, bool)>, x: (W, bool))
    ensures Wrap(c, ws + [x]) == Redir(Wrap(c, ws), x.0, x.1)
    decreases |ws|
  {
    if ws == [] {
      assert [x][1..] == [] && ws + [x] == [x];
    } else {
      assert (ws + [x])[1..] == ws[1..] + [x];
      WrapLast(Redir(c, ws[0].0, ws[0].1), ws[1..], x);
    }
  }

  lemma {:induction false} WrapsIsRedirected<W>(c: Cmd<W>, files: seq<Item<W>>)
    requires NoArgs(files)
    ensures Wrap(c, Wraps(files)) == Redirected(c, files)
  {
    if files != [] {
      var front, last := files[..|files| - 1], files[|files| - 1];
      WrapsIsRedirected(c, front);
      WrapLast(c, Wraps(front), (last.file, !last.From?));
      assert Wraps(files) == Wraps(front) + [(last.file, !last.From?)];
    }
  }

  /** What reading of the items' tokens and the rest comes to, with argv and wraps so far. */
  function ItemsRead<W>(ts: seq<Tok<W>>, argv: seq<W>, wraps: seq<(W, bool)>): Res<W> {
    match RedirsOf(ts)
    case NoFile => Panic
    case Redirs(ws, rest) => Args(rest, argv, wraps + ws)
  }

  lemma ItemsReadFirst<W>(i: Item<W>, after: seq<Tok<W>>, argv: seq<W>, wraps: seq<(W, bool)>)
    requires i.Arg? ==> |argv| + 1 < MAXARGS
    ensures ItemsRead(ItemToks(i) + after, argv, wraps) ==
      if i.Arg? then ItemsRead(after, argv + [i.w], wraps) else ItemsRead(after, argv, wraps + [(i.file, !i.From?)])
  {
    var ts := ItemToks(i) + after;
    if i.Arg? {
      assert ts[1..] == after && wraps + [] == wraps;
    } else {
      assert ts[2..] == after;
      if RedirsOf(after).Redirs? {
        var ws := RedirsOf(after).wraps;
        assert wraps + ([(i.file, !i.From?)] + ws) == wraps + [(i.file, !i.From?)] + ws;
      }
    }
  }

  lemma NoMoreItems<W>(rest: seq<Tok<W>>, argv: seq<W>, wraps: seq<(W, bool)>)
    requires Stops(rest)
    ensures ItemsRead([] + rest, argv, wraps) == Ok(Wrap(Exec(argv), wraps), rest)
  {
    assert [] + rest == rest && wraps + [] == wraps;
  }

  lemma Behind<T>(a: seq<T>, b: seq<T>, c: seq<T>)
    ensures a + b + c == a + (b + c)
  {
  }

  lemma {:induction false} ItemsBack<W>(items: seq<Item<W>>, rest: seq<Tok<W>>, argv: seq<W>, wraps: seq<(W, bool)>)
    requires Stops(rest) && |argv| + |Words(items)| < MAXARGS
    ensures NoArgs(Files(items))
    ensures ItemsRead(ItemsToks(items) + rest, argv, wraps) ==
      Ok(Wrap(Exec(argv + Words(items)), wraps + Wraps(Files(items))), rest)
    decreases |items|
  {
    hide ItemsRead, Wrap, Stops, NoArgs;
    FilesAreFiles(items);
    if items == [] {
      NoMoreItems(rest, argv, wraps);
      assert argv + [] == argv && wraps + [] == wraps;
    } else {
      var i, more := items[0], items[1..];
      Behind(ItemToks(i), ItemsToks(more), rest);
      ItemsReadFirst(i, ItemsToks(more) + rest, argv, wraps);
      if i.Arg? {
        ItemsBack(more, rest, argv + [i.w], wraps);
        Behind(argv, [i.w], Words(more));
      } else {
        var x := (i.file, !i.From?);
        ItemsBack(more, rest, argv, wraps + [x]);
        WrapsFirst(i, Files(more));
        Behind(wraps, [x], Wraps(Files(more)));
      }
    }
  }

  lemma WrapsFirst<W>(i: Item<W>, files: seq<Item<W>>)
    requires !i.Arg? && NoArgs(files)
    ensures NoArgs([i] + files) && Wraps([i] + files) == [(i.file, !i.From?)] + Wraps(files)
  {
  }

  lemma RedirsFirst<W>(i: Item<W>, after: seq<Tok<W>>)
    requires !i.Arg?
    ensures RedirsOf(ItemToks(i) + after) ==
      match RedirsOf(after) case NoFile => NoFile
      case Redirs(ws, rest) => Redirs([(i.file, !i.From?)] + ws, rest)
  {
    assert (ItemToks(i) + after)[2..] == after;
  }

  lemma NoRedirs<W>(rest: seq<Tok<W>>)
    requires Stops(rest)
    ensures RedirsOf(rest) == Redirs([], rest)
  {
  }

  lemma NoArgsFront<W>(files: seq<Item<W>>)
    requires NoArgs(files) && files != []
    ensures !files[0].Arg? && NoArgs(files[1..])
  {
  }

  lemma {:induction false} RedirsBack<W>(files: seq<Item<W>>, rest: seq<Tok<W>>)
    requires NoArgs(files) && Stops(rest)
    ensures RedirsOf(ItemsToks(files) + rest) == Redirs(Wraps(files), rest)
    decreases |files|
  {
    hide RedirsOf, NoArgs, ItemToks;
    if files == [] {
      assert ItemsToks(files) + rest == rest;
      NoRedirs(rest);
    } else {
      var i, more := files[0], files[1..];
      NoArgsFront(files);
      Behind(ItemToks(i), ItemsToks(more), rest);
      RedirsFirst(i, ItemsToks(more) + rest);
      RedirsBack(more, rest);
      WrapsFirst(i, more);
      assert files == [i] + more;
    }
  }

  lemma ItemsNotLPar<W>(items: seq<Item<W>>, rest: seq<Tok<W>>)
    requires Stops(rest)
    ensures !StartsLPar(ItemsToks(items) + rest)
  {
  }

  lemma {:induction false} PartBack<W>(p: Part<W>, rest: seq<Tok<W>>)
    requires Proper(p) && Stops(rest)
    ensures Simple(PartToks(p) + rest) == Ok(PartTree(p), rest)
    decreases p, 0
  {
    match p {
      case Plain(items) => PlainBack(items, rest);
      case Block(body, redirs) => {
        var after := ItemsToks(redirs) + rest;
        BlockToks(ScriptToks(body), ItemsToks(redirs), rest);
        ScriptBack(body, [RPar] + after);
        RedirsBack(redirs, rest);
        WrapsIsRedirected(ScriptTree(body), redirs);
      }
    }
  }

  lemma BlockToks<W>(body: seq<Tok<W>>, redirs: seq<Tok<W>>, rest: seq<Tok<W>>)
    ensures var ts, after := [LPar] + body + [RPar] + redirs + rest, redirs + rest;
      StartsLPar(ts) && ts[1..] == body + ([RPar] + after) && ([RPar] + after)[1..] == after
  {
  }

  lemma PlainBack<W>(items: seq<Item<W>>, rest: seq<Tok<W>>)
    requires |Words(items)| < MAXARGS && Stops(rest)
    ensures NoArgs(Files(items))
    ensures Simple(ItemsToks(items) + rest) == Ok(Redirected(Exec(Words(items)), Files(items)), rest)
  {
    hide Simple, ItemsRead, Wrap;
    ItemsBack(items, rest, [], []);
    FilesAreFiles(items);
    WrapsIsRedirected(Exec(Words(items)), Files(items));
    ItemsNotLPar(items, rest);
    PlainRead(ItemsToks(items) + rest);
    assert [] + Words(items) == Words(items);
    var none: seq<(W, bool)> := [];
    assert none + Wraps(Files(items)) == Wraps(Files(items));
  }

  lemma PlainRead<W>(ts: seq<Tok<W>>)
    requires !StartsLPar(ts)
    ensures Simple(ts) == ItemsRead(ts, [], [])
  {
    if RedirsOf(ts).Redirs? {
      assert [] + RedirsOf(ts).wraps == RedirsOf(ts).wraps;
    }
  }

  lemma {:induction false} ChainBack<W>(c: Chain<W>, rest: seq<Tok<W>>)
    requires ProperChain(c) && Stops(rest) && !StartsBar(rest)
    ensures PipeLine(ChainToks(c) + rest) == Ok(ChainTree(c), rest)
    decreases c, 1
  {
    match c {
      case One(p) => PartBack(p, rest);
      case Piped(p, more) => {
        var after := ChainToks(more) + rest;
        assert ChainToks(c) + rest == PartToks(p) + ([Bar] + after) && ([Bar] + after)[1..] == after;
        PartBack(p, [Bar] + after);
        ChainBack(more, rest);
      }
    }
  }

  lemma {:induction false} AmpsBack<W>(c: Cmd<W>, n: nat, rest: seq<Tok<W>>)
    requires !StartsAmp(rest)
    ensures Backed(c, Amps(n) + rest) == (Backs(c, n), rest)
    decreases n
  {
    var ts := Amps(n) + rest;
    if n == 0 {
      assert ts == rest;
    } else {
      assert ts[1..] == Amps(n - 1) + rest;
      AmpsBack(Back(c), n - 1, rest);
      BacksOut(c, n - 1);
    }
  }

  lemma {:induction false} BacksOut<W>(c: Cmd<W>, n: nat)
    ensures Backs(Back(c), n) == Back(Backs(c, n))
  {
    if n > 0 {
      BacksOut(c, n - 1);
    }
  }

  /** Lines of a form are parsed as what it means, and parsing stops right behind them. */
  lemma {:induction false} ScriptBack<W>(s: Script<W>, rest: seq<Tok<W>>)
    requires ProperScript(s) && Ends(rest)
    ensures Line(ScriptToks(s) + rest) == Ok(ScriptTree(s), rest)
    decreases s, 2
  {
    hide PipeLine, Backed, ChainToks, ChainTree, ProperChain;
    match s {
      case Last(j) => {
        JobBack(j, rest);
      }
      case Then(j, more) => {
        var after := ScriptToks(more) + rest;
        Behind(JobToks(j) + [Semi], ScriptToks(more), rest);
        Behind(JobToks(j), [Semi], after);
        JobBack(j, [Semi] + after);
        assert ([Semi] + after)[1..] == after;
        ScriptBack(more, rest);
      }
    }
  }

  lemma {:induction false} JobBack<W>(j: Job<W>, after: seq<Tok<W>>)
    requires ProperChain(j.chain) && (Ends(after) || StartsSemi(after))
    ensures PipeLine(JobToks(j) + after).Ok?
    ensures var r := PipeLine(JobToks(j) + after); Backed(r.cmd, r.rest) == (JobTree(j), after)
    decreases j, 2
  {
    var amps := Amps(j.amps) + after;
    Behind(ChainToks(j.chain), Amps(j.amps), after);
    assert amps == after || amps[0] == Amp;
    ChainBack(j.chain, amps);
    AmpsBack(ChainTree(j.chain), j.amps, after);
  }

  // ----- the parser accepts nothing else -----

  /** A redirection that stands before the tokens. */
  lemma FileFirst<W>(ts: seq<Tok<W>>) returns (i: Item<W>)
    requires StartsRedir(ts) && |ts| >= 2 && ts[1].Word?
    ensures !i.Arg? && ts == ItemToks(i) + ts[2..]
  {
    var w := ts[1].w;
    i := if ts[0].Less? then From(w) else if ts[0].More? then Into(w) else Onto(w);
  }

  lemma {:induction false} RedirsForm<W>(ts: seq<Tok<W>>) returns (files: seq<Item<W>>)
    requires RedirsOf(ts).Redirs?
    ensures NoArgs(files) && ts == ItemsToks(files) + RedirsOf(ts).rest
    decreases |ts|
  {
    if !StartsRedir(ts) {
      files := [];
    } else {
      var more := RedirsForm(ts[2..]);
      var i := FileFirst(ts);
      files := [i] + more;
      assert files[1..] == more;
      Behind(ItemToks(i), ItemsToks(more), RedirsOf(ts).rest);
    }
  }

  lemma {:induction false} ArgsForm<W>(ts: seq<Tok<W>>, argv: seq<W>, wraps: seq<(W, bool)>)
    returns (items: seq<Item<W>>)
    requires Args(ts, argv, wraps).Ok? && |argv| < MAXARGS
    ensures ts == ItemsToks(items) + Args(ts, argv, wraps).rest && |argv| + |Words(items)| < MAXARGS
    decreases |ts|
  {
    hide Words, ItemsToks, RedirsOf, NoArgs;
    if Stops(ts) {
      ItemsNone<W>();
      items := [];
    } else {
      var files := RedirsForm(ts[1..]);
      var r, w := RedirsOf(ts[1..]), ts[0].w;
      var more := ArgsForm(r.rest, argv + [w], wraps + r.wraps);
      items := [Arg(w)] + (files + more);
      WordThen(ts, files, more, r.rest, Args(ts, argv, wraps).rest);
    }
  }

  lemma ItemsNone<W>()
    ensures ItemsToks<W>([]) == [] && Words<W>([]) == []
  {
  }

  /** A word, redirections behind it, and more items. */
  lemma WordThen<W>(
      ts: seq<Tok<W>>, files: seq<Item<W>>, more: seq<Item<W>>, rest: seq<Tok<W>>, end: seq<Tok<W>>)
    requires ts != [] && ts[0].Word? && NoArgs(files)
    requires ts[1..] == ItemsToks(files) + rest && rest == ItemsToks(more) + end
    ensures var items := [Arg(ts[0].w)] + (files + more);
      ts == ItemsToks(items) + end && |Words(items)| == 1 + |Words(more)|
  {
    var w, both := ts[0].w, files + more;
    var items := [Arg(w)] + both;
    ItemsJoin(files, more);
    assert items[1..] == both;
    Behind(ItemsToks(files), ItemsToks(more), end);
    assert ts == [Word(w)] + ts[1..];
    Behind([Word(w)], ItemsToks(both), end);
  }

  lemma {:induction false} ItemsJoin<W>(files: seq<Item<W>>, more: seq<Item<W>>)
    requires NoArgs(files)
    ensures ItemsToks(files + more) == ItemsToks(files) + ItemsToks(more) && Words(files + more) == Words(more)
    decreases |files|
  {
    if files == [] {
      assert files + more == more;
    } else {
      hide ItemToks, NoArgs;
      NoArgsFront(files);
      ItemsJoin(files[1..], more);
      assert (files + more)[1..] == files[1..] + more;
      Behind(ItemToks(files[0]), ItemsToks(files[1..]), ItemsToks(more));
    }
  }

  lemma InBlock<W>(body: seq<Tok<W>>, rest: seq<Tok<W>>, redirs: seq<Tok<W>>, end: seq<Tok<W>>, ts: seq<Tok<W>>)
    requires StartsLPar(ts) && StartsRPar(rest) && ts[1..] == body + rest && rest[1..] == redirs + end
    ensures ts == [LPar] + body + [RPar] + redirs + end
  {
    assert ts == [LPar] + ts[1..] && rest == [RPar] + rest[1..];
  }

  lemma Joined<W>(a: seq<Tok<W>>, x: Tok<W>, b: seq<Tok<W>>, after: seq<Tok<W>>, end: seq<Tok<W>>)
    requires after != [] && after[0] == x && after[1..] == b + end
    ensures a + after == a + [x] + b + end
  {
    assert after == [x] + after[1..];
  }

  lemma {:induction false} PartForm<W>(ts: seq<Tok<W>>) returns (p: Part<W>)
    requires Simple(ts).Ok?
    ensures Proper(p) && ts == PartToks(p) + Simple(ts).rest
    decreases |ts|, 1
  {
    if StartsLPar(ts) {
      var body := ScriptForm(ts[1..]);
      var rest := Line(ts[1..]).rest;
      var redirs := RedirsForm(rest[1..]);
      p := Block(body, redirs);
      InBlock(ScriptToks(body), rest, ItemsToks(redirs), Simple(ts).rest, ts);
    } else {
      var files := RedirsForm(ts);
      var r := RedirsOf(ts);
      var items := ArgsForm(r.rest, [], r.wraps);
      ItemsJoin(files, items);
      p := Plain(files + items);
      Behind(ItemsToks(files), ItemsToks(items), Simple(ts).rest);
    }
  }

  lemma {:induction false} ChainForm<W>(ts: seq<Tok<W>>) returns (c: Chain<W>)
    requires PipeLine(ts).Ok?
    ensures ProperChain(c) && ts == ChainToks(c) + PipeLine(ts).rest
    decreases |ts|, 2
  {
    var p := PartForm(ts);
    var rest := Simple(ts).rest;
    if !StartsBar(rest) {
      c := One(p);
    } else {
      var more := ChainForm(rest[1..]);
      c := Piped(p, more);
      Joined(PartToks(p), Bar, ChainToks(more), rest, PipeLine(ts).rest);
    }
  }

  lemma {:induction false} AmpsForm<W>(c: Cmd<W>, ts: seq<Tok<W>>) returns (n: nat)
    ensures ts == Amps(n) + Backed(c, ts).1
    decreases |ts|
  {
    if StartsAmp(ts) {
      var k := AmpsForm(Back(c), ts[1..]);
      n := k + 1;
      assert ts == [Amp] + ts[1..];
    } else {
      n := 0;
    }
  }

  /** What is read as a line is the tokens of a form. */
  lemma {:induction false} ScriptForm<W>(ts: seq<Tok<W>>) returns (s: Script<W>)
    requires Line(ts).Ok?
    ensures ProperScript(s) && ts == ScriptToks(s) + Line(ts).rest
    decreases |ts|, 3
  {
    var chain := ChainForm(ts);
    var rest := PipeLine(ts).rest;
    var amps := AmpsForm(PipeLine(ts).cmd, rest);
    var after := Backed(PipeLine(ts).cmd, rest).1;
    var job := Job(chain, amps);
    Behind(ChainToks(chain), Amps(amps), after);
    if !StartsSemi(after) {
      s := Last(job);
    } else {
      var more := ScriptForm(after[1..]);
      s := Then(job, more);
      Joined(JobToks(job), Semi, ScriptToks(more), after, Line(ts).rest);
    }
  }

  /** Whole lines: the parser accepts the tokens of forms and no others, and gives what the form means. */
  lemma AcceptsForms<W>(ts: seq<Tok<W>>)
    ensures (Line(ts).Ok? && Line(ts).rest == []) <==> exists s :: ProperScript(s) && ScriptToks(s) == ts
    ensures forall s | ProperScript(s) && ScriptToks(s) == ts :: Line(ts) == Ok(ScriptTree(s), [])
  {
    forall s | ProperScript(s) && ScriptToks(s) == ts ensures Line(ts) == Ok(ScriptTree(s), []) {
      assert ts + [] == ts;
      ScriptBack(s, []);
    }
    if Line(ts).Ok? && Line(ts).rest == [] {
      var s := ScriptForm(ts);
      assert ScriptToks(s) == ts;
    }
  }

  // ----- operators, one at a time -----

  /** One more word for the simple command inside the redirections. */
  function WithWord<W>(c: Cmd<W>, w: W): Cmd<W> {
    match c
    case Exec(argv) => Exec(argv + [w])
    case Redir(d, f, out) => Redir(WithWord(d, w), f, out)
    case _ => c
  }

  lemma {:induction false} ItemLast<W>(items: seq<Item<W>>, i: Item<W>)
    ensures ItemsToks(items + [i]) == ItemsToks(items) + ItemToks(i)
    ensures Words(items + [i]) == Words(items) + if i.Arg? then [i.w] else []
    ensures Files(items + [i]) == Files(items) + if i.Arg? then [] else [i]
  {
    if items == [] {
      assert items + [i] == [i] && [i][1..] == [];
    } else {
      assert (items + [i])[1..] == items[1..] + [i];
      ItemLast(items[1..], i);
    }
  }

  lemma {:induction false} WordInside<W>(argv: seq<W>, files: seq<Item<W>>, w: W)
    requires NoArgs(files)
    ensures Redirected(Exec(argv + [w]), files) == WithWord(Redirected(Exec(argv), files), w)
  {
    if files != [] {
      WordInside(argv, files[..|files| - 1], w);
    }
  }

  function OfChain<W>(c: Chain<W>, n: nat): Script<W> {
    Last(Job(c, n))
  }

  function OfPart<W>(p: Part<W>): Script<W> {
    OfChain(One(p), 0)
  }

  lemma OfPartIs<W>(p: Part<W>)
    ensures ScriptToks(OfPart(p)) == PartToks(p) && (ProperScript(OfPart(p)) <==> Proper(p))
    ensures Proper(p) ==> ScriptTree(OfPart(p)) == PartTree(p)
  {
    assert ChainToks(One(p)) == PartToks(p) && JobToks(OfPart(p).job) == ChainToks(One(p)) + [];
    assert ProperChain(One(p)) <==> Proper(p);
    assert Proper(p) ==> JobTree(OfPart(p).job) == ChainTree(One(p)) == PartTree(p);
  }

  lemma OfChainIs<W>(c: Chain<W>, n: nat)
    ensures ScriptToks(OfChain(c, n)) == ChainToks(c) + Amps(n) && (ProperScript(OfChain(c, n)) <==> ProperChain(c))
    ensures n == 0 ==> ScriptToks(OfChain(c, n)) == ChainToks(c)
    ensures ProperChain(c) ==> ScriptTree(OfChain(c, n)) == Backs(ChainTree(c), n)
  {
    assert JobToks(OfChain(c, n).job) == ChainToks(c) + Amps(n);
  }

  /** A simple command on its own is read. */
  lemma PlainLine<W>(items: seq<Item<W>>)
    requires |Words(items)| < MAXARGS
    ensures NoArgs(Files(items)) && Line(ItemsToks(items)) == Ok(Redirected(Exec(Words(items)), Files(items)), [])
  {
    FilesAreFiles(items);
    OfPartIs(Plain(items));
    Alone(OfPart(Plain(items)));
  }

  /** A word behind a simple command is its last argument, a redirection behind it is the outermost. */
  lemma OneItemMore<W>(items: seq<Item<W>>, i: Item<W>)
    requires |Words(items + [i])| < MAXARGS
    ensures var c := Line(ItemsToks(items));
      && c.Ok? && Line(ItemsToks(items) + ItemToks(i)) == match i
         case Arg(w) => Ok(WithWord(c.cmd, w), [])
         case From(f) => Ok(Redir(c.cmd, f, false), [])
         case Into(f) => Ok(Redir(c.cmd, f, true), [])
         case Onto(f) => Ok(Redir(c.cmd, f, true), [])
  {
    ItemLast(items, i);
    PlainLine(items);
    PlainLine(items + [i]);
    if i.Arg? {
      assert Files(items) + [] == Files(items);
      WordInside(Words(items), Files(items), i.w);
    } else {
      var files := Files(items);
      assert (files + [i])[..|files|] == files;
      assert Words(items + [i]) == Words(items) && Files(items + [i]) == files + [i];
      FilesAreFiles(items + [i]);
      assert Redirected(Exec(Words(items)), files + [i]) ==
             Redir(Redirected(Exec(Words(items)), files), i.file, !i.From?);
    }
  }

  lemma Alone<W>(s: Script<W>)
    requires ProperScript(s)
    ensures Line(ScriptToks(s)) == Ok(ScriptTree(s), [])
  {
    ScriptBack(s, []);
    assert ScriptToks(s) + [] == ScriptToks(s);
  }

  /** | and ; join what their sides are on their own, to the right of what comes after;
      & and parentheses take what stands before or between them. */
  lemma Operators<W>(p: Part<W>, c: Chain<W>, n: nat, s: Script<W>)
    requires Proper(p) && ProperChain(c) && ProperScript(s)
    ensures var x, y, z, job := PartToks(p), ChainToks(c), ScriptToks(s), ChainToks(c) + Amps(n);
      && Line(x).Ok? && Line(y).Ok? && Line(z).Ok? && Line(job).Ok?
      && Line(x + [Bar] + y) == Ok(Pipe(Line(x).cmd, Line(y).cmd), [])
      && Line(job + [Semi] + z) == Ok(List(Line(job).cmd, Line(z).cmd), [])
      && Line(job + [Amp]) == Ok(Back(Line(job).cmd), [])
      && Line([LPar] + z + [RPar]) == Ok(Line(z).cmd, [])
  {
    hide Line, ScriptTree, PartToks, ChainToks;
    OnItsOwn(p, c, n, s);
    OperatorForms(p, c, n, s);
    Alone(OfChain(Piped(p, c), 0));
    Alone(Then(Job(c, n), s));
    Alone(OfChain(c, n + 1));
    Alone(OfPart(Block(s, [])));
  }

  lemma OnItsOwn<W>(p: Part<W>, c: Chain<W>, n: nat, s: Script<W>)
    requires Proper(p) && ProperChain(c) && ProperScript(s)
    ensures Line(PartToks(p)) == Ok(PartTree(p), []) && Line(ChainToks(c)) == Ok(ChainTree(c), [])
    ensures Line(ChainToks(c) + Amps(n)) == Ok(JobTree(Job(c, n)), []) && Line(ScriptToks(s)) == Ok(ScriptTree(s), [])
  {
    hide Line;
    OfPartIs(p);
    OfChainIs(c, 0);
    OfChainIs(c, n);
    Alone(OfPart(p));
    Alone(OfChain(c, 0));
    Alone(OfChain(c, n));
    Alone(s);
  }

  lemma OperatorForms<W>(p: Part<W>, c: Chain<W>, n: nat, s: Script<W>)
    requires Proper(p) && ProperChain(c) && ProperScript(s)
    ensures var f := OfChain(Piped(p, c), 0);
      && ProperScript(f) && ScriptToks(f) == PartToks(p) + [Bar] + ChainToks(c)
      && ScriptTree(f) == Pipe(PartTree(p), ChainTree(c))
    ensures var f := Then(Job(c, n), s);
      && ProperScript(f) && ScriptToks(f) == ChainToks(c) + Amps(n) + [Semi] + ScriptToks(s)
      && ScriptTree(f) == List(JobTree(Job(c, n)), ScriptTree(s))
    ensures var f := OfChain(c, n + 1);
      && ProperScript(f) && ScriptToks(f) == ChainToks(c) + Amps(n) + [Amp] && ScriptTree(f) == Back(JobTree(Job(c, n)))
    ensures var f := OfPart(Block(s, []));
      && ProperScript(f) && ScriptToks(f) == [LPar] + ScriptToks(s) + [RPar] && ScriptTree(f) == ScriptTree(s)
  {
    AmpsLast<W>(n);
    Behind(ChainToks(c), Amps(n), [Amp]);
    OfChainIs(Piped(p, c), 0);
    OfChainIs(c, n + 1);
    OfPartIs(Block(s, []));
    assert PartToks(Block(s, [])) == [LPar] + ScriptToks(s) + [RPar] + ItemsToks<W>([]);
    assert Proper(Block(s, [])) && PartTree(Block(s, [])) == Redirected(ScriptTree(s), []);
  }

  lemma {:induction false} AmpsLast<W>(n: nat)
    ensures Amps<W>(n + 1) == Amps<W>(n) + [Amp]
  {
    if n > 0 {
      AmpsLast<W>(n - 1);
    }
  }

  // ----- every tree can be written -----

  /** A form of the tree with every operand in parentheses. */
  function FormOf<W>(c: Cmd<W>): Script<W> {
    match c
    case Exec(argv) => OfPart(Plain(AllArgs(argv)))
    case Redir(d, f, out) => OfPart(Block(FormOf(d), [if out then Into(f) else From(f)]))
    case Pipe(l, r) => OfChain(Piped(Block(FormOf(l), []), One(Block(FormOf(r), []))), 0)
    case List(l, r) => Then(Job(One(Block(FormOf(l), [])), 0), OfPart(Block(FormOf(r), [])))
    case Back(d) => OfChain(One(Block(FormOf(d), [])), 1)
  }

  function AllArgs<W>(argv: seq<W>): (items: seq<Item<W>>)
    ensures |items| == |argv| && forall i | 0 <= i < |argv| :: items[i] == Arg(argv[i])
  {
    seq(|argv|, i requires 0 <= i < |argv| => Arg(argv[i]))
  }

  /** Every simple command has fewer than MAXARGS words. */
  predicate Short<W>(c: Cmd<W>) {
    match c
    case Exec(argv) => |argv| < MAXARGS
    case Redir(d, _, _) => Short(d)
    case Pipe(l, r) => Short(l) && Short(r)
    case List(l, r) => Short(l) && Short(r)
    case Back(d) => Short(d)
  }

  lemma {:induction false} ArgsMean<W>(argv: seq<W>)
    ensures Words(AllArgs(argv)) == argv && Files(AllArgs(argv)) == []
  {
    if argv != [] {
      assert AllArgs(argv)[1..] == AllArgs(argv[1..]);
      ArgsMean(argv[1..]);
    }
  }

  /** The form of a tree means that tree. */
  lemma {:induction false} FormMeans<W>(c: Cmd<W>)
    requires Short(c)
    ensures ProperScript(FormOf(c)) && ScriptTree(FormOf(c)) == c
    decreases c, 0
  {
    match c {
      case Exec(argv) => {
        ArgsMean(argv);
        OfPartIs(Plain(AllArgs(argv)));
      }
      case Redir(d, f, out) => {
        FormMeans(d);
        var i := if out then Into(f) else From(f);
        OfPartIs(Block(FormOf(d), [i]));
        assert [i][..0] == [];
        assert Redirected(ScriptTree(FormOf(d)), [i]) == Redir(Redirected(d, []), f, out);
      }
      case Pipe(l, r) => {
        OperandMeans(l);
        OperandMeans(r);
        OfChainIs(Piped(Block(FormOf(l), []), One(Block(FormOf(r), []))), 0);
      }
      case List(l, r) => {
        OperandMeans(l);
        OperandMeans(r);
        OfPartIs(Block(FormOf(r), []));
      }
      case Back(d) => {
        OperandMeans(d);
        OfChainIs(One(Block(FormOf(d), [])), 1);
      }
    }
  }

  lemma {:induction false} OperandMeans<W>(c: Cmd<W>)
    requires Short(c)
    ensures var p := Block(FormOf(c), []);
      Proper(p) && PartTree(p) == c && ProperChain(One(p)) && ChainTree(One(p)) == c
    decreases c, 1
  {
    FormMeans(c);
    var p := Block(FormOf(c), []);
    assert PartTree(p) == Redirected(ScriptTree(FormOf(c)), []);
  }

  function Show<W>(c: Cmd<W>): seq<Tok<W>> {
    ScriptToks(FormOf(c))
  }

  /** What was printed is parsed back, and parsing stops right behind it. */
  lemma ShowBack<W>(c: Cmd<W>, rest: seq<Tok<W>>)
    requires Short(c) && Ends(rest)
    ensures Line(Show(c) + rest) == Ok(c, rest)
  {
    FormMeans(c);
    ScriptBack(FormOf(c), rest);
  }
}
