/** The shell's tokenizer and recursive-descent parser over a text buffer, and the
    zero-termination of the words it found. */
module Shell {
  import opened Blocks
  import opened ShellGrammar
  import opened ShellForms

  const NUL := '\0'

  /** A word of the text: from q up to, not including, eq. */
  datatype Span = Span(q: nat, eq: nat)

  predicate White(c: char) {
    c == ' ' || c == '\t' || c == '\r' || c == '\n' || c == '\U{00000B}'
  }

  predicate Symbol(c: char) {
    c == '<' || c == '|' || c == '>' || c == '&' || c == ';' || c == '(' || c == ')'
  }

  predicate WordChar(c: char) {
    !White(c) && !Symbol(c) && c != NUL
  }

  predicate Text(s: string) {
    forall i | 0 <= i < |s| :: s[i] != NUL
  }

  /** The character at p; the text is followed by a zero. */
  function At(s: string, p: nat): char {
    if p < |s| then s[p] else NUL
  }

  function Skip(s: string, p: nat): (r: nat)
    requires p <= |s|
    ensures p <= r <= |s| && (forall i | p <= i < r :: White(s[i])) && (r < |s| ==> !White(s[r]))
    decreases |s| - p
  {
    if p < |s| && White(s[p]) then Skip(s, p + 1) else p
  }

  function WordEnd(s: string, p: nat): (r: nat)
    requires p <= |s|
    ensures p <= r <= |s| && (forall i | p <= i < r :: WordChar(s[i])) && (r < |s| ==> !WordChar(s[r]))
    decreases |s| - p
  {
    if p < |s| && WordChar(s[p]) then WordEnd(s, p + 1) else p
  }

  /** The token that begins at p, and where it ends. */
  function TokenAt(s: string, p: nat): (r: (Tok<Span>, nat))
    requires p < |s| && !White(s[p]) && s[p] != NUL
    ensures p < r.1 <= |s|
  {
    match s[p]
    case '|' => (Bar, p + 1)
    case '(' => (LPar, p + 1)
    case ')' => (RPar, p + 1)
    case ';' => (Semi, p + 1)
    case '&' => (Amp, p + 1)
    case '<' => (Less, p + 1)
    case '>' => if At(s, p + 1) == '>' then (MoreMore, p + 2) else (More, p + 1)
    case _ => (Word(Span(p, WordEnd(s, p))), WordEnd(s, p))
  }

  /** The tokens of the text from p on. */
  function Lex(s: string, p: nat): seq<Tok<Span>>
    requires p <= |s| && Text(s)
    decreases |s| - p
  {
    var p1 := Skip(s, p);
    if p1 == |s| then [] else [TokenAt(s, p1).0] + Lex(s, TokenAt(s, p1).1)
  }

  lemma SkipIs(s: string, p: nat, r: nat)
    requires p <= r <= |s| && (forall i | p <= i < r :: White(s[i])) && (r < |s| ==> !White(s[r]))
    ensures Skip(s, p) == r
  {
  }

  lemma WordEndIs(s: string, p: nat, r: nat)
    requires p <= r <= |s| && (forall i | p <= i < r :: WordChar(s[i])) && (r < |s| ==> !WordChar(s[r]))
    ensures WordEnd(s, p) == r
  {
  }

  /** Leading white space does not matter. */
  lemma LexSkips(s: string, p: nat, r: nat)
    requires Text(s) && p <= r <= |s| && (forall i | p <= i < r :: White(s[i])) && (r < |s| ==> !White(s[r]))
    ensures Lex(s, p) == Lex(s, r) && (r == |s| <==> Lex(s, p) == [])
    ensures r < |s| ==> Lex(s, p) == [TokenAt(s, r).0] + Lex(s, TokenAt(s, r).1)
  {
    SkipIs(s, p, r);
    SkipIs(s, r, r);
  }

  /** gettoken's code for a token. */
  function Code(t: Tok<Span>): char {
    match t
    case Bar => '|'
    case LPar => '('
    case RPar => ')'
    case Semi => ';'
    case Amp => '&'
    case Less => '<'
    case More => '>'
    case MoreMore => '+'
    case Word(_) => 'a'
  }

  /** The character a symbol token begins with; peek tells >> by its first character. */
  function Head(t: Tok<Span>): char {
    if t.MoreMore? then '>' else Code(t)
  }

  class Parser {
    const s: string
    /** *ps */
    var p: nat

    ghost predicate Valid()
      reads this
    {
      p <= |s| && Text(s)
    }

    ghost function Rest(): seq<Tok<Span>>
      reads this
      requires Valid()
    {
      Lex(s, p)
    }

    constructor (s: string)
      requires Text(s)
      ensures Valid() && this.s == s && p == 0
    {
      this.s, p := s, 0;
    }

    /** The loop over white space that begins and ends the tokenizer's functions. */
    method SkipWhite(from: nat) returns (i: nat)
      requires Valid() && from <= |s|
      ensures i == Skip(s, from) && i <= |s| && Lex(s, i) == Lex(s, from) && (i == |s| <==> Lex(s, from) == [])
      ensures i < |s| ==> !White(s[i]) && Lex(s, from) == [TokenAt(s, i).0] + Lex(s, TokenAt(s, i).1)
    {
      i := from;
      while i < |s| && White(s[i])
        invariant from <= i <= |s| && forall k | from <= k < i :: White(s[k])
      {
        i := i + 1;
      }
      SkipIs(s, from, i);
      LexSkips(s, from, i);
    }

    /** gettoken's switch: the token at i and its end. */
    method Scan(from: nat) returns (tok: char, i: nat)
      requires Valid() && from < |s| && !White(s[from])
      ensures i == TokenAt(s, from).1 && i <= |s| && tok == Code(TokenAt(s, from).0)
    {
      i := from;
      tok := s[i];
      match tok {
        case '|' => i := i + 1;
        case '(' => i := i + 1;
        case ')' => i := i + 1;
        case ';' => i := i + 1;
        case '&' => i := i + 1;
        case '<' => i := i + 1;
        case '>' =>
          i := i + 1;
          if At(s, i) == '>' {
            tok := '+';
            i := i + 1;
          }
        case _ =>
          tok := 'a';
          while i < |s| && !White(s[i]) && !Symbol(s[i])
            invariant from <= i <= |s| && forall k | from <= k < i :: WordChar(s[k])
          {
            i := i + 1;
          }
          WordEndIs(s, from, i);
      }
    }

    /** gettoken: one token off the front, with its code and, for a word, its span. */
    method Gettoken() returns (tok: char, q: nat, eq: nat)
      requires Valid()
      modifies this`p
      ensures Valid()
      ensures old(Rest()) == [] ==> tok == NUL && Rest() == []
      ensures old(Rest()) != [] ==> tok == Code(old(Rest())[0]) && Rest() == old(Rest())[1..]
      ensures old(Rest()) != [] && tok == 'a' ==> old(Rest())[0] == Word(Span(q, eq))
    {
      q := SkipWhite(p);
      tok, eq := NUL, q;
      if At(s, q) != NUL {
        tok, eq := Scan(q);
      }
      p := SkipWhite(eq);
    }

    /** peek: whether the next token is a symbol that begins with one of the characters. */
    method Peek(toks: string) returns (b: bool)
      requires Valid() && forall i | 0 <= i < |toks| :: Symbol(toks[i])
      modifies this`p
      ensures Valid() && Rest() == old(Rest()) && (p == |s| <==> Rest() == [])
      ensures b <==> Rest() != [] && !Rest()[0].Word? && Head(Rest()[0]) in toks
    {
      p := SkipWhite(p);
      b := p < |s| && s[p] in toks;
    }

    /** peek(ps, es, "<>") */
    method PeekRedir() returns (b: bool)
      requires Valid()
      modifies this`p
      ensures Valid() && Rest() == old(Rest()) && (b <==> StartsRedir(Rest()))
    {
      b := Peek("<>");
    }

    /** peek(ps, es, "|)&;") */
    method PeekStop() returns (b: bool)
      requires Valid()
      modifies this`p
      ensures Valid() && Rest() == old(Rest()) && (b <==> StartsStop(Rest()))
    {
      b := Peek("|)&;");
    }

    /** parseredirs: the redirections that come next, in order; None is the panic about a missing file. */
    method Parseredirs() returns (r: Option<seq<(Span, bool)>>)
      requires Valid()
      modifies this`p
      ensures Valid()
      ensures RedirAnswers(r, RedirsOf(old(Rest())), Rest())
    {
      ghost var m := RedirsOf(Rest());
      var ws: seq<(Span, bool)> := [];
      var more := PeekRedir();
      while more
        invariant Valid() && (more <==> StartsRedir(Rest()))
        invariant m == Prefixed(ws, RedirsOf(Rest()))
        decreases |Rest()|
      {
        var ok;
        ok, ws := Parseredir(ws);
        if !ok {
          return None;
        }
        more := PeekRedir();
      }
      assert ws + [] == ws;
      return Some(ws);
    }

    /** One redirection and its file. */
    method Parseredir(ws: seq<(Span, bool)>) returns (ok: bool, ws': seq<(Span, bool)>)
      requires Valid() && StartsRedir(Rest())
      modifies this`p
      ensures Valid()
      ensures Prefixed(ws, RedirsOf(old(Rest()))) == if ok then Prefixed(ws', RedirsOf(Rest())) else NoFile
      ensures ok ==> |Rest()| < |old(Rest())|
    {
      ghost var now := Rest();
      RedirNext(now, ws);
      var tok, _, _ := Gettoken();
      var word, q, eq := Gettoken();
      assert |now| >= 2 ==> now[1..][0] == now[1] && now[1..][1..] == now[2..];
      if word != 'a' {
        return false, ws;
      }
      return true, ws + [(Span(q, eq), tok != '<')];
    }

    /** parseexec. */
    method Parseexec() returns (r: Option<Cmd<Span>>)
      requires Valid()
      modifies this`p
      ensures Valid() && Answers(r, Simple(old(Rest())), Rest())
      decreases |Rest()|, 1
    {
      ghost var ts := Rest();
      var block := Peek("(");
      if block {
        r := Parseblock();
        return;
      }
      var wraps := Parseredirs();
      if wraps.None? {
        return None;
      }
      r := Parseargs(wraps.value);
    }

    /** parseexec's loop over the words and what follows each. */
    method Parseargs(wraps: seq<(Span, bool)>) returns (r: Option<Cmd<Span>>)
      requires Valid()
      modifies this`p
      ensures Valid() && Answers(r, Args(old(Rest()), [], wraps), Rest())
    {
      ghost var m := Args(Rest(), [], wraps);
      var argv: seq<Span>, ret := [], wraps;
      var stop := PeekStop();
      while !stop
        invariant Valid() && (stop ==> Rest() == [] || StartsStop(Rest()))
        invariant !stop ==> !StartsStop(Rest())
        invariant m == Args(Rest(), argv, ret)
        decreases !stop, |Rest()|
      {
        var panicked;
        stop, panicked, argv, ret := Parsearg(argv, ret);
        if panicked {
          return None;
        }
        if !stop {
          stop := PeekStop();
        }
      }
      return Some(Wrap(Exec(argv), ret));
    }

    /** One word and the redirections behind it; stop at the end of the text. */
    method Parsearg(argv: seq<Span>, wraps: seq<(Span, bool)>)
      returns (stop: bool, panicked: bool, argv': seq<Span>, wraps': seq<(Span, bool)>)
      requires Valid() && !StartsStop(Rest())
      modifies this`p
      ensures Valid()
      ensures panicked ==> Args(old(Rest()), argv, wraps) == Panic
      ensures stop && !panicked ==> Rest() == []
      ensures !stop && !panicked ==> |Rest()| < |old(Rest())|
      ensures !panicked ==> Args(old(Rest()), argv, wraps) == Args(Rest(), argv', wraps')
    {
      stop, panicked, argv', wraps' := false, false, argv, wraps;
      ArgNext(Rest(), argv, wraps);
      var tok, q, eq := Gettoken();
      if tok == NUL {
        stop := true;
        return;
      }
      if tok != 'a' || |argv| + 1 >= MAXARGS {
        panicked := true;
        return;
      }
      argv' := argv + [Span(q, eq)];
      var more := Parseredirs();
      if more.None? {
        panicked := true;
        return;
      }
      wraps' := wraps + more.value;
    }

    /** parseblock. */
    method Parseblock() returns (r: Option<Cmd<Span>>)
      requires Valid() && StartsLPar(Rest())
      modifies this`p
      ensures Valid() && Answers(r, Parens(old(Rest())), Rest())
      decreases |Rest()|, 0
    {
      var _, _, _ := Gettoken();
      r := Parseline();
      if r.None? {
        return;
      }
      var close := Peek(")");
      if !close {
        return None;
      }
      var _, _, _ := Gettoken();
      var wraps := Parseredirs();
      return if wraps.None? then None else Some(Wrap(r.value, wraps.value));
    }

    /** parsepipe. */
    method Parsepipe() returns (r: Option<Cmd<Span>>)
      requires Valid()
      modifies this`p
      ensures Valid() && Answers(r, PipeLine(old(Rest())), Rest())
      decreases |Rest()|, 2
    {
      r := Parseexec();
      if r.None? {
        return;
      }
      var bar := Peek("|");
      if bar {
        var _, _, _ := Gettoken();
        var right := Parsepipe();
        return if right.None? then None else Some(Pipe(r.value, right.value));
      }
    }

    /** parseline's loop over ampersands. */
    method Parseamps(c: Cmd<Span>) returns (cmd: Cmd<Span>)
      requires Valid()
      modifies this`p
      ensures Valid() && (cmd, Rest()) == Backed(c, old(Rest()))
    {
      cmd := c;
      ghost var m := Backed(c, Rest());
      var amp := Peek("&");
      while amp
        invariant Valid() && (amp <==> StartsAmp(Rest())) && m == Backed(cmd, Rest())
        decreases |Rest()|
      {
        var _, _, _ := Gettoken();
        cmd := Back(cmd);
        amp := Peek("&");
      }
    }

    /** parseline. */
    method Parseline() returns (r: Option<Cmd<Span>>)
      requires Valid()
      modifies this`p
      ensures Valid() && Answers(r, Line(old(Rest())), Rest())
      decreases |Rest()|, 3
    {
      r := Parsepipe();
      if r.None? {
        return;
      }
      var cmd := Parseamps(r.value);
      var semi := Peek(";");
      if semi {
        var _, _, _ := Gettoken();
        var right := Parseline();
        return if right.None? then None else Some(List(cmd, right.value));
      }
      return Some(cmd);
    }

    /** parsecmd up to the check for leftovers: the tree of the whole text, or a panic. */
    method Parse() returns (r: Option<Cmd<Span>>)
      requires Valid()
      modifies this`p
      ensures r == match Line(old(Rest())) case Ok(c, rest) => if rest == [] then Some(c) else None case Panic => None
    {
      r := Parseline();
      if r.None? {
        return;
      }
      var _ := Peek("");
      if p != |s| {
        return None;
      }
    }
  }

  /** The method's result is the grammar's, and it has read what the grammar has. */
  ghost predicate Answers(r: Option<Cmd<Span>>, m: Res<Span>, rest: seq<Tok<Span>>) {
    match m
    case Panic => r.None?
    case Ok(c, after) => r == Some(c) && rest == after
  }

  ghost predicate RedirAnswers(r: Option<seq<(Span, bool)>>, m: Redirs<Span>, rest: seq<Tok<Span>>) {
    match m
    case NoFile => r.None?
    case Redirs(ws, after) => r == Some(ws) && rest == after
  }

  lemma PrefixTwice(ws: seq<(Span, bool)>, x: (Span, bool), r: Redirs<Span>)
    ensures Prefixed(ws, Prefixed([x], r)) == Prefixed(ws + [x], r)
  {
    if r.Redirs? {
      assert ws + ([x] + r.wraps) == ws + [x] + r.wraps;
    }
  }

  lemma RedirNext(ts: seq<Tok<Span>>, ws: seq<(Span, bool)>)
    requires StartsRedir(ts)
    ensures |ts| < 2 || !ts[1].Word? ==> RedirsOf(ts) == NoFile
    ensures |ts| >= 2 && ts[1].Word? ==>
      Prefixed(ws, RedirsOf(ts)) == Prefixed(ws + [(ts[1].w, !ts[0].Less?)], RedirsOf(ts[2..]))
  {
    if |ts| >= 2 && ts[1].Word? {
      PrefixTwice(ws, (ts[1].w, !ts[0].Less?), RedirsOf(ts[2..]));
    }
  }

  lemma ArgNext(ts: seq<Tok<Span>>, argv: seq<Span>, wraps: seq<(Span, bool)>)
    requires !StartsStop(ts)
    ensures ts == [] ==> Args(ts, argv, wraps) == Ok(Wrap(Exec(argv), wraps), ts)
    ensures ts != [] && (!ts[0].Word? || |argv| + 1 >= MAXARGS) ==> Args(ts, argv, wraps) == Panic
    ensures ts != [] && ts[0].Word? && |argv| + 1 < MAXARGS ==>
      Args(ts, argv, wraps) == AfterRedirs(argv + [ts[0].w], wraps, RedirsOf(ts[1..]))
  {
  }

  function AfterRedirs(argv: seq<Span>, wraps: seq<(Span, bool)>, r: Redirs<Span>): Res<Span> {
    match r
    case NoFile => Panic
    case Redirs(ws, rest) => Args(rest, argv, wraps + ws)
  }

  function Prefixed(ws: seq<(Span, bool)>, r: Redirs<Span>): Redirs<Span> {
    match r
    case NoFile => NoFile
    case Redirs(vs, rest) => Redirs(ws + vs, rest)
  }

  // ----- zero-termination -----

  /** Where nulterminate writes. */
  function EndsOf(c: Cmd<Span>): set<nat> {
    match c
    case Exec(argv) => set i | 0 <= i < |argv| :: argv[i].eq
    case Redir(d, f, _) => EndsOf(d) + {f.eq}
    case Pipe(l, r) => EndsOf(l) + EndsOf(r)
    case List(l, r) => EndsOf(l) + EndsOf(r)
    case Back(d) => EndsOf(d)
  }

  /** nulterminate: a zero behind every word, and nothing else changed. */
  method Nulterminate(buf: array<char>, c: Cmd<Span>)
    requires forall e | e in EndsOf(c) :: e < buf.Length
    modifies buf
    ensures forall i | 0 <= i < buf.Length :: buf[i] == if i in EndsOf(c) then NUL else old(buf[i])
    decreases c
  {
    match c
    case Exec(argv) =>
      var i := 0;
      while i < |argv|
        invariant 0 <= i <= |argv|
        invariant forall k | 0 <= k < buf.Length ::
          buf[k] == if exists j :: 0 <= j < i && argv[j].eq == k then NUL else old(buf[k])
      {
        assert argv[i].eq in EndsOf(c);
        buf[argv[i].eq] := NUL;
        i := i + 1;
      }
    case Redir(d, f, _) =>
      assert EndsOf(c) == EndsOf(d) + {f.eq} && f.eq in EndsOf(c);
      Nulterminate(buf, d);
      buf[f.eq] := NUL;
    case Pipe(l, r) =>
      assert EndsOf(c) == EndsOf(l) + EndsOf(r);
      Nulterminate(buf, l);
      Nulterminate(buf, r);
    case List(l, r) =>
      assert EndsOf(c) == EndsOf(l) + EndsOf(r);
      Nulterminate(buf, l);
      Nulterminate(buf, r);
    case Back(d) =>
      assert EndsOf(c) == EndsOf(d);
      Nulterminate(buf, d);
  }

  /** A whole word of the text: it cannot be made longer. */
  predicate IsWord(s: string, w: Span) {
    w.q < w.eq <= |s| && (forall i | w.q <= i < w.eq :: WordChar(s[i])) && (w.eq < |s| ==> !WordChar(s[w.eq]))
  }

  predicate WordsOf(s: string, c: Cmd<Span>) {
    match c
    case Exec(argv) => forall i | 0 <= i < |argv| :: IsWord(s, argv[i])
    case Redir(d, f, _) => WordsOf(s, d) && IsWord(s, f)
    case Pipe(l, r) => WordsOf(s, l) && WordsOf(s, r)
    case List(l, r) => WordsOf(s, l) && WordsOf(s, r)
    case Back(d) => WordsOf(s, d)
  }

  /** The string that begins at q and ends before the next zero. */
  function CString(b: seq<char>, q: nat): string
    decreases |b| - q
  {
    if q >= |b| || b[q] == NUL then "" else [b[q]] + CString(b, q + 1)
  }

  lemma {:induction false} CStringIs(b: seq<char>, q: nat, eq: nat)
    requires q <= eq < |b| && b[eq] == NUL && forall i | q <= i < eq :: b[i] != NUL
    ensures CString(b, q) == b[q..eq]
    decreases eq - q
  {
    if q < eq {
      CStringIs(b, q + 1, eq);
      assert b[q..eq] == [b[q]] + b[q + 1..eq];
    }
  }

  lemma {:induction false} EndsAreEnds(s: string, c: Cmd<Span>, e: nat)
    requires WordsOf(s, c) && e in EndsOf(c)
    ensures e <= |s| && (e < |s| ==> !WordChar(s[e]))
  {
    match c
    case Exec(argv) =>
    case Redir(d, f, _) => if e in EndsOf(d) { EndsAreEnds(s, d, e); }
    case Pipe(l, r) => if e in EndsOf(l) { EndsAreEnds(s, l, e); } else { EndsAreEnds(s, r, e); }
    case List(l, r) => if e in EndsOf(l) { EndsAreEnds(s, l, e); } else { EndsAreEnds(s, r, e); }
    case Back(d) => EndsAreEnds(s, d, e);
  }

  lemma NotAnEnd(s: string, c: Cmd<Span>, i: nat)
    requires WordsOf(s, c) && i < |s| && WordChar(s[i])
    ensures i !in EndsOf(c)
  {
    if i in EndsOf(c) {
      EndsAreEnds(s, c, i);
    }
  }

  /** After nulterminate every word of the tree, read as a C string, is exactly the word in the text. */
  lemma WordsAreStrings(s: string, c: Cmd<Span>, b: seq<char>, w: Span)
    requires Text(s) && WordsOf(s, c) && IsWord(s, w) && w.eq in EndsOf(c) && |b| == |s| + 1
    requires forall i | 0 <= i < |b| :: b[i] == if i in EndsOf(c) then NUL else At(s, i)
    ensures CString(b, w.q) == s[w.q..w.eq]
  {
    forall i | w.q <= i < w.eq ensures b[i] == s[i] && b[i] != NUL {
      NotAnEnd(s, c, i);
    }
    CStringIs(b, w.q, w.eq);
    assert b[w.q..w.eq] == s[w.q..w.eq];
  }

  // ----- every word found is a whole word -----

  lemma {:induction false} LexWords(s: string, p: nat, i: nat)
    requires p <= |s| && Text(s) && i < |Lex(s, p)| && Lex(s, p)[i].Word?
    ensures IsWord(s, Lex(s, p)[i].w)
    decreases |s| - p
  {
    var p1 := Skip(s, p);
    if i > 0 {
      LexWords(s, TokenAt(s, p1).1, i - 1);
    }
  }

  /** Leaves whole words alone and changes all others. */
  function Mark(s: string, w: Span): Span {
    if IsWord(s, w) then w else Span(w.q, w.eq + 1)
  }

  function Marker(s: string): Span -> Span {
    w => Mark(s, w)
  }

  lemma {:induction false} Unmarked(s: string, c: Cmd<Span>)
    requires MapCmd(Marker(s), c) == c
    ensures WordsOf(s, c)
  {
    var f := Marker(s);
    match c {
      case Exec(argv) => {
        assert MapWords(f, argv) == argv;
        forall i | 0 <= i < |argv| ensures IsWord(s, argv[i]) {
          assert Mark(s, argv[i]) == MapWords(f, argv)[i];
        }
      }
      case Redir(d, w, out) => {
        assert MapCmd(f, d) == d && Mark(s, w) == w;
        Unmarked(s, d);
      }
      case Pipe(l, r) => {
        Unmarked(s, l);
        Unmarked(s, r);
      }
      case List(l, r) => {
        Unmarked(s, l);
        Unmarked(s, r);
      }
      case Back(d) => Unmarked(s, d);
    }
  }

  /** Words of the tree are words of the text, because the parser does not look into words. */
  lemma ParsedWords(s: string)
    requires Text(s) && Line(Lex(s, 0)).Ok?
    ensures WordsOf(s, Line(Lex(s, 0)).cmd)
  {
    var ts, f := Lex(s, 0), Marker(s);
    forall i | 0 <= i < |ts| ensures MapToks(f, ts)[i] == ts[i] {
      if ts[i].Word? {
        LexWords(s, 0, i);
      }
    }
    assert MapToks(f, ts) == ts;
    MapLine(f, ts);
    Unmarked(s, Line(ts).cmd);
  }

  // ----- text and tokens -----

  predicate GoodWord(w: string) {
    w != "" && forall i | 0 <= i < |w| :: WordChar(w[i])
  }

  predicate GoodTok(t: Tok<string>) {
    t.Word? ==> GoodWord(t.w)
  }

  predicate AllGood(ts: seq<Tok<string>>) {
    forall i | 0 <= i < |ts| :: GoodTok(ts[i])
  }

  function Spelling(t: Tok<string>): string {
    match t
    case Word(w) => w
    case Bar => "|"
    case LPar => "("
    case RPar => ")"
    case Semi => ";"
    case Amp => "&"
    case Less => "<"
    case More => ">"
    case MoreMore => ">>"
  }

  predicate Gap(g: string) {
    forall i | 0 <= i < |g| :: White(g[i])
  }

  /** Without white space between them the two would be read as something else. */
  predicate Clash(t: Tok<string>, u: Tok<string>) {
    (t.Word? && u.Word?) || (t.More? && (u.More? || u.MoreMore?))
  }

  /** White space before each token and at the end, and some between tokens that clash. */
  predicate Apart(ts: seq<Tok<string>>, gaps: seq<string>) {
    && |gaps| == |ts| + 1 && (forall i | 0 <= i < |gaps| :: Gap(gaps[i]))
    && forall i | 0 < i < |ts| && Clash(ts[i - 1], ts[i]) :: gaps[i] != ""
  }

  /** The text of tokens with such white space. */
  function Written(ts: seq<Tok<string>>, gaps: seq<string>): string
    requires |gaps| == |ts| + 1
  {
    if ts == [] then gaps[0] else gaps[0] + Spelling(ts[0]) + Written(ts[1..], gaps[1..])
  }

  function Slice(s: string, w: Span): string {
    if w.q <= w.eq <= |s| then s[w.q..w.eq] else ""
  }

  function Slicer(s: string): Span -> string {
    w => Slice(s, w)
  }

  /** The character behind a token cannot be taken for a part of it. */
  predicate CutOff(t: Tok<string>, rest: string) {
    && (t.Word? ==> rest == "" || !WordChar(rest[0]))
    && (t.More? ==> rest == "" || rest[0] != '>')
  }

  lemma CutOffNext(t: Tok<string>, ts: seq<Tok<string>>, gaps: seq<string>)
    requires |gaps| == |ts| + 1 && Gap(gaps[0]) && AllGood(ts)
    requires ts != [] && Clash(t, ts[0]) ==> gaps[0] != ""
    ensures CutOff(t, Written(ts, gaps))
  {
    var rest := Written(ts, gaps);
    if gaps[0] != "" {
      assert rest[0] == gaps[0][0];
    } else if ts != [] {
      assert GoodTok(ts[0]) && rest[0] == Spelling(ts[0])[0];
    }
  }

  /** A spelled token at p is read back. */
  lemma ReadToken(s: string, p: nat, t: Tok<string>, rest: string)
    requires p <= |s| && Text(s) && GoodTok(t) && s[p..] == Spelling(t) + rest && CutOff(t, rest)
    ensures p < |s| && !White(s[p]) && p + |Spelling(t)| <= |s| && s[p + |Spelling(t)|..] == rest
    ensures MapTok(Slicer(s), TokenAt(s, p).0) == t && TokenAt(s, p).1 == p + |Spelling(t)|
  {
    var n := |Spelling(t)|;
    assert |s| == p + n + |rest| && s[p..p + n] == s[p..][..n] && s[p + n..] == s[p..][n..];
    forall i | 0 <= i < n ensures s[p + i] == Spelling(t)[i] {
      assert s[p..][i] == s[p + i];
    }
    assert rest != "" ==> s[p + n] == s[p..][n] == rest[0];
    if t.Word? {
      WordEndIs(s, p, p + n);
    }
  }

  lemma GapSkipped(s: string, p: nat, gap: string, rest: string)
    requires p <= |s| && Text(s) && s[p..] == gap + rest && Gap(gap) && (rest != "" ==> !White(rest[0]))
    ensures p + |gap| <= |s| && s[p + |gap|..] == rest && (rest == "" <==> Lex(s, p) == [])
    ensures rest != "" ==>
      var r := p + |gap|;
      !White(s[r]) && Lex(s, p) == [TokenAt(s, r).0] + Lex(s, TokenAt(s, r).1)
  {
    hide White, TokenAt, Lex, Text;
    var r := p + |gap|;
    assert s[r..] == s[p..][|gap|..];
    forall i | p <= i < r ensures White(s[i]) {
      assert s[p..][i - p] == s[i];
    }
    assert rest != "" ==> s[r] == rest[0];
    LexSkips(s, p, r);
  }

  /** The tokens of a text are those it was written with. */
  lemma {:induction false} ReadBack(s: string, p: nat, ts: seq<Tok<string>>, gaps: seq<string>)
    requires p <= |s| && Text(s) && |gaps| == |ts| + 1 && Apart(ts, gaps) && AllGood(ts) && s[p..] == Written(ts, gaps)
    ensures MapToks(Slicer(s), Lex(s, p)) == ts
    decreases |ts|
  {
    hide Lex, Text, MapTok, Slicer, Apart, AllGood, TokenAt, White, Spelling;
    if ts == [] {
      NothingToLex(s, p, gaps);
    } else {
      var t, more, after := ts[0], ts[1..], gaps[1..];
      var rest := Written(more, after);
      assert ts == [t] + more && gaps == [gaps[0]] + after;
      ReadFront(s, p, gaps[0], t, more, after);
      var at := p + |gaps[0]|;
      ReadBack(s, at + |Spelling(t)|, more, after);
      MapFront(Slicer(s), TokenAt(s, at).0, Lex(s, at + |Spelling(t)|), t, ts);
    }
  }

  lemma NothingToLex(s: string, p: nat, gaps: seq<string>)
    requires p <= |s| && Text(s) && Apart([], gaps) && s[p..] == gaps[0]
    ensures Lex(s, p) == []
  {
    assert s[p..] == gaps[0] + "";
    GapSkipped(s, p, gaps[0], "");
  }

  lemma ReadFront(s: string, p: nat, gap: string, t: Tok<string>, ts: seq<Tok<string>>, gaps: seq<string>)
    requires p <= |s| && Text(s) && Apart([t] + ts, [gap] + gaps) && AllGood([t] + ts)
    requires s[p..] == gap + Spelling(t) + Written(ts, gaps)
    ensures var at := p + |gap|; var end := at + |Spelling(t)|;
      && at < end <= |s| && !White(s[at]) && s[at] != NUL && s[end..] == Written(ts, gaps)
      && Lex(s, p) == [TokenAt(s, at).0] + Lex(s, end) && MapTok(Slicer(s), TokenAt(s, at).0) == t
    ensures Apart(ts, gaps) && AllGood(ts)
  {
    hide Lex, Spelling, GoodWord, Text, WordChar, White, MapTok, Written;
    ApartFront(t, ts, gap, gaps);
    GoodFront(t, ts);
    var rest, at := Written(ts, gaps), p + |gap|;
    CutOffNext(t, ts, gaps);
    assert gap + Spelling(t) + rest == gap + (Spelling(t) + rest);
    SpellingBegins(t);
    GapSkipped(s, p, gap, Spelling(t) + rest);
    ReadToken(s, at, t, rest);
  }

  lemma SpellingBegins(t: Tok<string>)
    requires GoodTok(t)
    ensures Spelling(t) != "" && !White(Spelling(t)[0]) && Spelling(t)[0] != NUL
  {
  }

  lemma ApartFront(t: Tok<string>, ts: seq<Tok<string>>, gap: string, gaps: seq<string>)
    ensures Apart([t] + ts, [gap] + gaps) <==>
      && Apart(ts, gaps) && Gap(gap) && (ts != [] && Clash(t, ts[0]) ==> gaps[0] != "")
  {
    var us, hs := [t] + ts, [gap] + gaps;
    assert forall i | 0 <= i < |ts| :: us[i + 1] == ts[i];
    assert forall i | 0 <= i < |gaps| :: hs[i + 1] == gaps[i];
    if Apart(us, hs) {
      forall i | 0 <= i < |gaps| ensures Gap(gaps[i]) {
        assert Gap(hs[i + 1]);
      }
      assert Gap(hs[0]);
      forall i | 0 < i < |ts| && Clash(ts[i - 1], ts[i]) ensures gaps[i] != "" {
        assert Clash(us[i + 1 - 1], us[i + 1]);
      }
      assert ts != [] ==> us[1 - 1] == t && us[1] == ts[0];
    }
    if Apart(ts, gaps) && Gap(gap) && (ts != [] && Clash(t, ts[0]) ==> gaps[0] != "") {
      forall i | 0 < i < |us| && Clash(us[i - 1], us[i]) ensures hs[i] != "" {
        assert i > 1 ==> us[i - 1] == ts[i - 2] && us[i] == ts[i - 1];
      }
    }
  }

  lemma GoodFront(t: Tok<string>, ts: seq<Tok<string>>)
    ensures AllGood([t] + ts) <==> GoodTok(t) && AllGood(ts)
  {
    var us := [t] + ts;
    assert forall i | 0 <= i < |ts| :: us[i + 1] == ts[i];
    if AllGood(us) {
      assert GoodTok(us[0]);
      forall i | 0 <= i < |ts| ensures GoodTok(ts[i]) {
        assert GoodTok(us[i + 1]);
      }
    }
  }

  /** And every text is its tokens written with the white space in it. */
  lemma {:induction false} WrittenBack(s: string, p: nat) returns (gaps: seq<string>)
    requires p <= |s| && Text(s)
    ensures var ts := MapToks(Slicer(s), Lex(s, p)); Apart(ts, gaps) && AllGood(ts) && s[p..] == Written(ts, gaps)
    decreases |s| - p
  {
    hide Text, White, Slicer, Lex, TokenAt, MapTok, GoodTok, Spelling, Clash, CutOff;
    var at := Skip(s, p);
    var gap := s[p..at];
    LexSkips(s, p, at);
    if at == |s| {
      gaps := [gap];
      assert s[p..] == gap;
    } else {
      var end := TokenOf(s, at);
      var t := MapTok(Slicer(s), TokenAt(s, at).0);
      var after := WrittenBack(s, end);
      var ts := MapToks(Slicer(s), Lex(s, end));
      gaps := [gap] + after;
      assert ([t] + ts)[1..] == ts && gaps[1..] == after;
      MapFront(Slicer(s), TokenAt(s, at).0, Lex(s, end), t, [t] + ts);
      NoClash(t, ts, after);
      ApartFront(t, ts, gap, after);
      GoodFront(t, ts);
      assert s[p..] == gap + s[at..] == gap + (Spelling(t) + s[end..]) == gap + Spelling(t) + s[end..];
    }
  }

  lemma TokenOf(s: string, at: nat) returns (end: nat)
    requires at < |s| && Text(s) && !White(s[at])
    ensures s[at] != NUL
    ensures var t := MapTok(Slicer(s), TokenAt(s, at).0);
      && end == TokenAt(s, at).1 && at < end <= |s| && GoodTok(t)
      && s[at..] == Spelling(t) + s[end..] && CutOff(t, s[end..])
  {
    end := TokenAt(s, at).1;
    var t := MapTok(Slicer(s), TokenAt(s, at).0);
    assert s[at..end] == Spelling(t);
    assert s[at..] == s[at..end] + s[end..];
  }

  lemma NoClash(t: Tok<string>, ts: seq<Tok<string>>, gaps: seq<string>)
    requires |gaps| == |ts| + 1 && AllGood(ts) && CutOff(t, Written(ts, gaps))
    ensures ts != [] && Clash(t, ts[0]) ==> gaps[0] != ""
  {
    if ts != [] && gaps[0] == "" {
      assert GoodTok(ts[0]) && Written(ts, gaps)[0] == Spelling(ts[0])[0];
    }
  }

  /** The text s is a line of form f: its words are words, and it has white space where it must. */
  ghost predicate IsLine(s: string, f: Script<string>, gaps: seq<string>) {
    var ts := ScriptToks(f);
    ProperScript(f) && AllGood(ts) && Apart(ts, gaps) && s == Written(ts, gaps)
  }

  /** The parser accepts exactly the texts that are lines of some form. */
  lemma AcceptsLines(s: string)
    requires Text(s)
    ensures var r := Line(Lex(s, 0)); (r.Ok? && r.rest == []) <==> exists f, gaps :: IsLine(s, f, gaps)
    ensures forall f, gaps | IsLine(s, f, gaps) ::
      var r := Line(Lex(s, 0)); r.Ok? && MapCmd(Slicer(s), r.cmd) == ScriptTree(f)
  {
    hide IsLine, Apart, AllGood, Slicer;
    var ts, us := Lex(s, 0), MapToks(Slicer(s), Lex(s, 0));
    MapLine(Slicer(s), ts);
    AcceptsForms(us);
    forall f, gaps | IsLine(s, f, gaps)
      ensures Line(ts).Ok? && Line(ts).rest == []
      ensures ProperScript(f) && MapCmd(Slicer(s), Line(ts).cmd) == ScriptTree(f)
    {
      LineToks(s, f, gaps);
    }
    if Line(ts).Ok? && Line(ts).rest == [] {
      var f :| ProperScript(f) && ScriptToks(f) == us;
      var gaps := LineOfToks(s, f);
    }
  }

  lemma LineToks(s: string, f: Script<string>, gaps: seq<string>)
    requires Text(s) && IsLine(s, f, gaps)
    ensures MapToks(Slicer(s), Lex(s, 0)) == ScriptToks(f) && ProperScript(f)
  {
    assert s[0..] == s;
    ReadBack(s, 0, ScriptToks(f), gaps);
  }

  lemma LineOfToks(s: string, f: Script<string>) returns (gaps: seq<string>)
    requires Text(s) && ProperScript(f) && MapToks(Slicer(s), Lex(s, 0)) == ScriptToks(f)
    ensures IsLine(s, f, gaps)
  {
    assert s[0..] == s;
    gaps := WrittenBack(s, 0);
  }

  /** Parsing a printed tree gives that tree: the same shape, and its spans slice out the same
      words, whatever white space stands between its tokens. */
  lemma RoundTrip(c: Cmd<string>, gaps: seq<string>)
    requires Short(c) && AllGood(Show(c)) && Apart(Show(c), gaps) && Text(Written(Show(c), gaps))
    ensures var s := Written(Show(c), gaps);
      Line(Lex(s, 0)).Ok? && Line(Lex(s, 0)).rest == [] && MapCmd(Slicer(s), Line(Lex(s, 0)).cmd) == c
  {
    FormMeans(c);
    var s := Written(Show(c), gaps);
    assert IsLine(s, FormOf(c), gaps);
    AcceptsLines(s);
  }


  lemma MapFront(f: Span -> string, t: Tok<Span>, rest: seq<Tok<Span>>, u: Tok<string>, us: seq<Tok<string>>)
    requires us != [] && MapTok(f, t) == u == us[0] && MapToks(f, rest) == us[1..]
    ensures MapToks(f, [t] + rest) == us
  {
    var m := MapToks(f, [t] + rest);
    forall i | 0 <= i < |m| ensures m[i] == us[i] {
      if i > 0 {
        assert m[i] == MapToks(f, rest)[i - 1] && us[1..][i - 1] == us[i];
      }
    }
  }

  /** Reads a word as exec and open will: as the C string at its start. */
  function Reader(b: seq<char>): Span -> string {
    (w: Span) => CString(b, w.q)
  }

  /** The whole tree read as C strings is the tree with the words of the text. */
  lemma {:induction false} TreeOfStrings(s: string, c: Cmd<Span>, b: seq<char>, part: Cmd<Span>)
    requires Text(s) && WordsOf(s, c) && WordsOf(s, part) && EndsOf(part) <= EndsOf(c) && |b| == |s| + 1
    requires forall i | 0 <= i < |b| :: b[i] == if i in EndsOf(c) then NUL else At(s, i)
    ensures MapCmd(Reader(b), part) == MapCmd(Slicer(s), part)
    decreases part
  {
    match part {
      case Exec(argv) => {
        forall i | 0 <= i < |argv| ensures MapWords(Reader(b), argv)[i] == MapWords(Slicer(s), argv)[i] {
          var w: Span := argv[i];
          assert w.eq in EndsOf(part);
          WordsAreStrings(s, c, b, w);
        }
        assert MapWords(Reader(b), argv) == MapWords(Slicer(s), argv);
      }
      case Redir(d, f, out) => {
        var file: Span := f;
        assert file.eq in EndsOf(part);
        WordsAreStrings(s, c, b, file);
        TreeOfStrings(s, c, b, d);
      }
      case Pipe(l, r) => {
        TreeOfStrings(s, c, b, l);
        TreeOfStrings(s, c, b, r);
      }
      case List(l, r) => {
        TreeOfStrings(s, c, b, l);
        TreeOfStrings(s, c, b, r);
      }
      case Back(d) => TreeOfStrings(s, c, b, d);
    }
  }

  /** parsecmd: the tree, and the buffer with every word zero-terminated; None is a syntax panic. */
  method Parsecmd(buf: array<char>, ghost s: string) returns (r: Option<Cmd<Span>>)
    requires Text(s) && buf.Length == |s| + 1 && buf[..] == s + [NUL]
    modifies buf
    ensures r == match Line(Lex(s, 0)) case Ok(c, rest) => if rest == [] then Some(c) else None case Panic => None
    ensures r.None? ==> buf[..] == s + [NUL]
    ensures r.Some? ==> WordsOf(s, r.value)
    ensures r.Some? ==> MapCmd(Reader(buf[..]), r.value) == MapCmd(Slicer(s), r.value)
    ensures r.Some? <==> exists f, gaps :: IsLine(s, f, gaps)
    ensures forall f, gaps | IsLine(s, f, gaps) :: r.Some? && MapCmd(Reader(buf[..]), r.value) == ScriptTree(f)
  {
    var text := buf[..buf.Length - 1];
    assert text == s;
    AcceptsLines(s);
    var parser := new Parser(text);
    r := parser.Parse();
    if r.Some? {
      ParsedWords(s);
      forall e | e in EndsOf(r.value) ensures e < buf.Length {
        EndsAreEnds(s, r.value, e);
      }
      ghost var before := buf[..];
      Nulterminate(buf, r.value);
      forall i | 0 <= i < buf.Length ensures buf[..][i] == if i in EndsOf(r.value) then NUL else At(s, i) {
        assert before[i] == At(s, i);
      }
      TreeOfStrings(s, r.value, buf[..], r.value);
    }
  }
}
