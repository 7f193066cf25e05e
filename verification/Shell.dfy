/** The shell's command parser (sh.c) on tokens, and how a command tree is written down.

    `ParseLine` and the functions below it follow the recursive descent of the code.  The
    printer puts parentheses only where a tree stands in a place that takes a tighter
    form. */
module Shell {
  datatype Mode = In | Out

  /** `W` is how a word is represented. */
  datatype Cmd<W> =
    | Exec(args: seq<W>)
    | Redir(cmd: Cmd<W>, file: W, mode: Mode)
    | Pipe(left: Cmd<W>, right: Cmd<W>)
    | Back(cmd: Cmd<W>)
    | List(left: Cmd<W>, right: Cmd<W>)

  /** The words of a command, as they stand on the line but for redirections before words. */
  function WordsOf<W>(t: Cmd<W>): seq<W> {
    match t {
      case Exec(args) => args
      case Redir(c, f, _) => WordsOf(c) + [f]
      case Pipe(l, r) => WordsOf(l) + WordsOf(r)
      case Back(c) => WordsOf(c)
      case List(l, r) => WordsOf(l) + WordsOf(r)
    }
  }

  /** The command with its words blotted out. */
  function Bare<W>(t: Cmd<W>): Cmd<nat> {
    match t {
      case Exec(args) => Exec(seq(|args|, _ => 0))
      case Redir(c, _, m) => Redir(Bare(c), 0, m)
      case Pipe(l, r) => Pipe(Bare(l), Bare(r))
      case Back(c) => Back(Bare(c))
      case List(l, r) => List(Bare(l), Bare(r))
    }
  }

  /** `Append` is ">>". */
  datatype Tok = Sym(c: char) | Append | Word(w: string)

  datatype Toks = End | More(tok: Tok, rest: Toks)

  /** Redirections in the order they are met. */
  datatype Redirs<W> = NoMore | Then(file: W, mode: Mode, rest: Redirs<W>)

  const MAXARGS := 10

  datatype Result<T> = Ok(value: T, rest: Toks) | Fail

  function Len(ts: Toks): nat {
    if ts.End? then 0 else 1 + Len(ts.rest)
  }

  // ----- The parser -----

  predicate At(ts: Toks, c: char) {
    ts.More? && ts.tok == Sym(c)
  }

  predicate AtRedir(ts: Toks) {
    At(ts, '<') || At(ts, '>') || (ts.More? && ts.tok.Append?)
  }

  /** Where parseexec stops taking words. */
  predicate AtEnd(ts: Toks) {
    ts.End? || At(ts, '|') || At(ts, ')') || At(ts, '&') || At(ts, ';')
  }

  /** parseredirs */
  function ParseRedirs(ts: Toks): (r: Result<Redirs<string>>)
    ensures r.Ok? ==> Len(r.rest) <= Len(ts) && !AtRedir(r.rest)
  {
    if !AtRedir(ts) then Ok(NoMore, ts)
    else if ts.rest.End? || !ts.rest.tok.Word? then Fail
    else
      var r := ParseRedirs(ts.rest.rest);
      if r.Fail? then Fail else Ok(Then(ts.rest.tok.w, if At(ts, '<') then In else Out, r.value), r.rest)
  }

  /** Redirections around a command, the first one innermost. */
  function Wrap<W>(c: Cmd<W>, rs: Redirs<W>): Cmd<W>
    decreases rs
  {
    if rs.NoMore? then c else Wrap(Redir(c, rs.file, rs.mode), rs.rest)
  }

  function Join<W>(a: Redirs<W>, b: Redirs<W>): Redirs<W> {
    if a.NoMore? then b else Then(a.file, a.mode, Join(a.rest, b))
  }

  lemma {:induction false} JoinOne<W>(a: Redirs<W>, f: W, m: Mode, b: Redirs<W>)
    ensures Join(Join(a, Then(f, m, NoMore)), b) == Join(a, Then(f, m, b))
  {
    if a.Then? {
      JoinOne(a.rest, f, m, b);
    }
  }

  lemma {:induction false} JoinNone<W>(a: Redirs<W>)
    ensures Join(a, NoMore) == a
  {
    if a.Then? {
      JoinNone(a.rest);
    }
  }

  /** The loop of parseexec, after `args` and `rs` have been read. */
  function ParseArgs(ts: Toks, args: seq<string>, rs: Redirs<string>): (r: Result<Cmd<string>>)
    ensures r.Ok? ==> Len(r.rest) <= Len(ts)
    decreases Len(ts)
  {
    if AtEnd(ts) then Ok(Wrap(Exec(args), rs), ts)
    else if !ts.tok.Word? || |args| + 1 >= MAXARGS then Fail
    else
      var r := ParseRedirs(ts.rest);
      if r.Fail? then Fail else ParseArgs(r.rest, args + [ts.tok.w], Join(rs, r.value))
  }

  /** parseexec and parseblock */
  function ParseExec(ts: Toks): (r: Result<Cmd<string>>)
    ensures r.Ok? ==> Len(r.rest) <= Len(ts)
    decreases Len(ts), 0
  {
    if At(ts, '(') then
      var r := ParseLine(ts.rest);
      if r.Fail? || !At(r.rest, ')') then Fail
      else
        var q := ParseRedirs(r.rest.rest);
        if q.Fail? then Fail else Ok(Wrap(r.value, q.value), q.rest)
    else
      var q := ParseRedirs(ts);
      if q.Fail? then Fail else ParseArgs(q.rest, [], q.value)
  }

  function ParsePipe(ts: Toks): (r: Result<Cmd<string>>)
    ensures r.Ok? ==> Len(r.rest) <= Len(ts)
    decreases Len(ts), 1
  {
    var r := ParseExec(ts);
    if r.Ok? && At(r.rest, '|') then
      var q := ParsePipe(r.rest.rest);
      if q.Fail? then Fail else Ok(Pipe(r.value, q.value), q.rest)
    else r
  }

  /** The loop over '&' in parseline. */
  function TakeAmps(c: Cmd<string>, ts: Toks): (r: Result<Cmd<string>>)
    ensures r.Ok? && Len(r.rest) <= Len(ts)
    decreases ts
  {
    if At(ts, '&') then TakeAmps(Back(c), ts.rest) else Ok(c, ts)
  }

  function ParseBack(ts: Toks): (r: Result<Cmd<string>>)
    ensures r.Ok? ==> Len(r.rest) <= Len(ts)
    decreases Len(ts), 2
  {
    var r := ParsePipe(ts);
    if r.Fail? then Fail else TakeAmps(r.value, r.rest)
  }

  function ParseLine(ts: Toks): (r: Result<Cmd<string>>)
    ensures r.Ok? ==> Len(r.rest) <= Len(ts)
    decreases Len(ts), 3
  {
    var r := ParseBack(ts);
    if r.Ok? && At(r.rest, ';') then
      var q := ParseLine(r.rest.rest);
      if q.Fail? then Fail else Ok(List(r.value, q.value), q.rest)
    else r
  }

  // ----- The printer -----

  /** How loosely a tree binds: as a command, a pipeline, a background job, a list. */
  function Level(t: Cmd<string>): nat {
    match t {
      case Exec(_) => 0
      case Redir(_, _, _) => 0
      case Pipe(_, _) => 1
      case Back(_) => 2
      case List(_, _) => 3
    }
  }

  function Words(args: seq<string>, i: nat, rest: Toks): Toks
    requires i <= |args|
    decreases |args| - i
  {
    if i == |args| then rest else More(Word(args[i]), Words(args, i + 1, rest))
  }

  function RedirToks(file: string, mode: Mode, rest: Toks): Toks {
    More(Sym(if mode.In? then '<' else '>'), More(Word(file), rest))
  }

  /** `t` where a tree of level `k` may stand, and then `rest`. */
  function Print(t: Cmd<string>, k: nat, rest: Toks): Toks
    decreases t, 1
  {
    if Level(t) <= k then Inner(t, rest) else More(Sym('('), Inner(t, More(Sym(')'), rest)))
  }

  function Inner(t: Cmd<string>, rest: Toks): Toks
    decreases t, 0
  {
    match t {
      case Exec(args) => Words(args, 0, rest)
      case Redir(c, f, m) => Print(c, 0, RedirToks(f, m, rest))
      case Pipe(l, r) => Print(l, 0, More(Sym('|'), Print(r, 1, rest)))
      case Back(c) => Print(c, 2, More(Sym('&'), rest))
      case List(l, r) => Print(l, 2, More(Sym(';'), Print(r, 3, rest)))
    }
  }

  /** Commands that fit execcmd: at most 9 words each. */
  predicate Fits(t: Cmd<string>) {
    match t {
      case Exec(args) => |args| < MAXARGS
      case Redir(c, _, _) => Fits(c)
      case Pipe(l, r) => Fits(l) && Fits(r)
      case Back(c) => Fits(c)
      case List(l, r) => Fits(l) && Fits(r)
    }
  }

  // ----- Printing and parsing back -----

  /** What may follow a tree printed at level `k`. */
  predicate Follows(k: nat, ts: Toks) {
    || ts.End? || At(ts, ')')
    || (k < 3 && At(ts, ';')) || (k < 2 && At(ts, '&')) || (k < 1 && At(ts, '|'))
  }

  function PrintRedirs(rs: Redirs<string>, rest: Toks): Toks {
    if rs.NoMore? then rest else RedirToks(rs.file, rs.mode, PrintRedirs(rs.rest, rest))
  }

  lemma {:induction false} RedirsBack(rs: Redirs<string>, rest: Toks)
    requires !AtRedir(rest)
    ensures ParseRedirs(PrintRedirs(rs, rest)) == Ok(rs, rest)
  {
    if rs.Then? {
      RedirsBack(rs.rest, rest);
    }
  }

  lemma {:induction false} ArgsBack(args: seq<string>, i: nat, rs: Redirs<string>, rest: Toks)
    requires i < |args| < MAXARGS && AtEnd(rest)
    ensures ParseArgs(Words(args, i, PrintRedirs(rs, rest)), args[..i], NoMore) == Ok(Wrap(Exec(args), rs), rest)
    decreases |args| - i
  {
    assert args[..i] + [args[i]] == args[..i + 1];
    if i + 1 == |args| {
      RedirsBack(rs, rest);
      assert args[..i + 1] == args;
    } else {
      ArgsBack(args, i + 1, rs, rest);
    }
  }

  lemma ExecBack(args: seq<string>, rs: Redirs<string>, rest: Toks)
    requires |args| < MAXARGS && Follows(0, rest)
    ensures ParseExec(Words(args, 0, PrintRedirs(rs, rest))) == Ok(Wrap(Exec(args), rs), rest)
  {
    if args == [] {
      RedirsBack(rs, rest);
    } else {
      ArgsBack(args, 0, rs, rest);
      assert args[..0] == [];
    }
  }

  function Amps(n: nat, rest: Toks): Toks {
    if n == 0 then rest else More(Sym('&'), Amps(n - 1, rest))
  }

  function Backs(t: Cmd<string>, n: nat): Cmd<string>
    decreases n
  {
    if n == 0 then t else Backs(Back(t), n - 1)
  }

  lemma {:induction false} AmpsBack(t: Cmd<string>, n: nat, rest: Toks)
    requires !At(rest, '&')
    ensures TakeAmps(t, Amps(n, rest)) == Ok(Backs(t, n), rest)
    decreases n
  {
    if n > 0 {
      AmpsBack(Back(t), n - 1, rest);
    }
  }

  /** A command or a block, with redirections. */
  lemma {:induction false} AtomBack(t: Cmd<string>, rs: Redirs<string>, rest: Toks)
    requires Fits(t) && Follows(0, rest)
    ensures ParseExec(Print(t, 0, PrintRedirs(rs, rest))) == Ok(Wrap(t, rs), rest)
    decreases t, 4
  {
    match t {
      case Exec(args) => ExecBack(args, rs, rest);
      case Redir(c, f, m) => AtomBack(c, Then(f, m, rs), rest);
      case _ =>
        LineBack(t, More(Sym(')'), PrintRedirs(rs, rest)));
        RedirsBack(rs, rest);
    }
  }

  lemma {:induction false} PipeBack(t: Cmd<string>, rest: Toks)
    requires Fits(t) && Follows(1, rest)
    ensures ParsePipe(Print(t, 1, rest)) == Ok(t, rest)
    decreases t, if t.Pipe? then 0 else 5
  {
    if t.Pipe? {
      AtomBack(t.left, NoMore, More(Sym('|'), Print(t.right, 1, rest)));
      PipeBack(t.right, rest);
    } else {
      AtomBack(t, NoMore, rest);
    }
  }

  lemma {:induction false} BackBack(t: Cmd<string>, n: nat, rest: Toks)
    requires Fits(t) && Follows(2, rest)
    ensures ParseBack(Print(t, 2, Amps(n, rest))) == Ok(Backs(t, n), rest)
    decreases t, if t.Back? then 1 else if t.Pipe? then 1 else 6
  {
    if t.Back? {
      BackBack(t.cmd, n + 1, rest);
    } else {
      PipeBack(t, Amps(n, rest));
      AmpsBack(t, n, rest);
    }
  }

  /** Every tree that fits is the tree its printed form parses to. */
  lemma {:induction false} LineBack(t: Cmd<string>, rest: Toks)
    requires Fits(t) && Follows(3, rest)
    ensures ParseLine(Print(t, 3, rest)) == Ok(t, rest)
    decreases t, if t.List? || t.Back? || t.Pipe? then 3 else 7
  {
    if t.List? {
      BackBack(t.left, 0, More(Sym(';'), Print(t.right, 3, rest)));
      LineBack(t.right, rest);
    } else {
      BackBack(t, 0, rest);
    }
  }
}
