/** The parser of sh.c as code: a cursor into the line, words as places in it. */
module ShellCode {
  import opened Shell
  import opened ShellText
  import opened Options
  import ShellGrammar

  /** The characters from `q` up to `eq`. */
  datatype Span = Span(q: nat, eq: nat)

  /** A span is a longest run of word characters. */
  predicate SpanOk(s: string, w: Span) {
    && w.q < w.eq <= |s| && (w.eq < |s| ==> !IsWordChar(s[w.eq]))
    && forall i :: w.q <= i < w.eq ==> IsWordChar(s[i])
  }

  predicate ArgsOk(s: string, args: seq<Span>) {
    forall i :: 0 <= i < |args| ==> SpanOk(s, args[i])
  }

  predicate RedirsOk(s: string, rs: Redirs<Span>) {
    rs.Then? ==> SpanOk(s, rs.file) && RedirsOk(s, rs.rest)
  }

  predicate TreeOk(s: string, t: Cmd<Span>) {
    match t {
      case Exec(args) => ArgsOk(s, args)
      case Redir(c, f, _) => TreeOk(s, c) && SpanOk(s, f)
      case Pipe(l, r) => TreeOk(s, l) && TreeOk(s, r)
      case Back(c) => TreeOk(s, c)
      case List(l, r) => TreeOk(s, l) && TreeOk(s, r)
    }
  }

  function SpanText(s: string, w: Span): string
    requires SpanOk(s, w)
  {
    s[w.q..w.eq]
  }

  function ArgsText(s: string, args: seq<Span>, n: nat): (r: seq<string>)
    requires ArgsOk(s, args) && n <= |args|
    ensures |r| == n && forall i :: 0 <= i < n ==> r[i] == SpanText(s, args[i])
  {
    if n == 0 then [] else ArgsText(s, args, n - 1) + [SpanText(s, args[n - 1])]
  }

  function RedirsText(s: string, rs: Redirs<Span>): Redirs<string>
    requires RedirsOk(s, rs)
  {
    if rs.NoMore? then NoMore else Then(SpanText(s, rs.file), rs.mode, RedirsText(s, rs.rest))
  }

  /** The tree with the words themselves. */
  function TreeText(s: string, t: Cmd<Span>): Cmd<string>
    requires TreeOk(s, t)
  {
    match t {
      case Exec(args) => Exec(ArgsText(s, args, |args|))
      case Redir(c, f, m) => Redir(TreeText(s, c), SpanText(s, f), m)
      case Pipe(l, r) => Pipe(TreeText(s, l), TreeText(s, r))
      case Back(c) => Back(TreeText(s, c))
      case List(l, r) => List(TreeText(s, l), TreeText(s, r))
    }
  }

  lemma {:induction false} ArgsTextMore(s: string, args: seq<Span>, w: Span, n: nat)
    requires ArgsOk(s, args) && SpanOk(s, w) && n <= |args|
    ensures ArgsOk(s, args + [w]) && ArgsText(s, args + [w], n) == ArgsText(s, args, n)
  {
    if n > 0 {
      ArgsTextMore(s, args, w, n - 1);
    }
  }

  /** It is the same tree, with each word in the place of its span. */
  lemma {:induction false} TextKeeps(s: string, t: Cmd<Span>)
    requires TreeOk(s, t)
    ensures ArgsOk(s, WordsOf(t)) && Bare(TreeText(s, t)) == Bare(t)
    ensures WordsOf(TreeText(s, t)) == ArgsText(s, WordsOf(t), |WordsOf(t)|)
  {
    match t {
      case Exec(args) =>
        assert Bare(TreeText(s, t)).args == Bare(t).args;
      case Redir(c, f, _) =>
        TextKeeps(s, c);
        TextJoin(s, WordsOf(c), [f]);
        assert ArgsText(s, [f], 1) == [SpanText(s, f)];
      case Pipe(l, r) =>
        TextKeeps(s, l);
        TextKeeps(s, r);
        TextJoin(s, WordsOf(l), WordsOf(r));
      case Back(c) => TextKeeps(s, c);
      case List(l, r) =>
        TextKeeps(s, l);
        TextKeeps(s, r);
        TextJoin(s, WordsOf(l), WordsOf(r));
    }
  }

  lemma TextJoin(s: string, a: seq<Span>, b: seq<Span>)
    requires ArgsOk(s, a) && ArgsOk(s, b)
    ensures ArgsOk(s, a + b)
    ensures ArgsText(s, a + b, |a + b|) == ArgsText(s, a, |a|) + ArgsText(s, b, |b|)
  {
    forall i | 0 <= i < |a + b| ensures SpanOk(s, (a + b)[i]) {
      assert (a + b)[i] == if i < |a| then a[i] else b[i - |a|];
    }
  }

  lemma {:induction false} WrapText(s: string, c: Cmd<Span>, rs: Redirs<Span>)
    requires TreeOk(s, c) && RedirsOk(s, rs)
    ensures TreeOk(s, Wrap(c, rs)) && TreeText(s, Wrap(c, rs)) == Wrap(TreeText(s, c), RedirsText(s, rs))
    decreases rs
  {
    if rs.Then? {
      WrapText(s, Redir(c, rs.file, rs.mode), rs.rest);
    }
  }

  lemma {:induction false} JoinText(s: string, a: Redirs<Span>, b: Redirs<Span>)
    requires RedirsOk(s, a) && RedirsOk(s, b)
    ensures RedirsOk(s, Join(a, b)) && RedirsText(s, Join(a, b)) == Join(RedirsText(s, a), RedirsText(s, b))
  {
    if a.Then? {
      JoinText(s, a.rest, b);
    }
  }

  // ----- Tokens -----

  method SkipSpace(s: string, ps: nat) returns (p: nat)
    requires ps <= |s|
    ensures ps <= p <= |s| && (p < |s| ==> !IsSpace(s[p])) && Lex(s[p..]) == Lex(s[ps..])
  {
    p := ps;
    while p < |s| && IsSpace(s[p])
      invariant ps <= p <= |s| && Lex(s[p..]) == Lex(s[ps..])
    {
      assert s[p..][1..] == s[p + 1..];
      p := p + 1;
    }
  }

  /** What the first character says about the first token. */
  lemma FirstTok(u: string)
    requires u != "" && !IsSpace(u[0])
    ensures Lex(u).More? && (AtRedir(Lex(u)) <==> u[0] == '<' || u[0] == '>')
    ensures forall c :: IsSymbol(c) && c != '>' ==> (At(Lex(u), c) <==> u[0] == c)
    ensures Lex(u).tok.Word? <==> IsWordChar(u[0])
  {
  }

  /** peek: is the next character one of `toks`? */
  method Peek(s: string, ps: nat, toks: string) returns (b: bool, p: nat)
    requires ps <= |s|
    ensures ps <= p <= |s| && (p < |s| ==> !IsSpace(s[p])) && Lex(s[p..]) == Lex(s[ps..])
    ensures b <==> p < |s| && s[p] in toks
  {
    p := SkipSpace(s, ps);
    b := p < |s| && s[p] in toks;
  }

  /** The loop of gettoken over a word. */
  method WordEnd(s: string, q: nat) returns (e: nat)
    requires q < |s| && IsWordChar(s[q])
    ensures SpanOk(s, Span(q, e)) && Lex(s[q..]) == More(Word(s[q..e]), Lex(s[e..]))
  {
    e := q;
    while e < |s| && IsWordChar(s[e])
      invariant q <= e <= |s| && WordLen(s[q..]) == e - q + WordLen(s[e..])
      invariant forall i :: q <= i < e ==> IsWordChar(s[i])
    {
      assert s[e..][1..] == s[e + 1..];
      e := e + 1;
    }
    assert WordLen(s[e..]) == 0 && s[q..][..e - q] == s[q..e] && s[q..][e - q..] == s[e..];
  }

  /** gettoken: None at the end of the line. */
  method GetToken(s: string, ps: nat) returns (t: Option<Tok>, w: Span, p: nat)
    requires ps <= |s|
    ensures ps <= p <= |s| && (t.None? <==> Lex(s[ps..]).End?)
    ensures t.Some? ==> ps < p && Lex(s[ps..]) == More(t.value, Lex(s[p..]))
    ensures t.Some? && t.value.Word? ==> SpanOk(s, w) && t.value.w == SpanText(s, w)
  {
    var q := SkipSpace(s, ps);
    var e := q;
    if q == |s| {
      return None, Span(q, q), q;
    } else if IsSymbol(s[q]) {
      e := q + 1;
      t := Some(Sym(s[q]));
      if s[q] == '>' && e < |s| && s[e] == '>' {
        e := e + 1;
        t := Some(Append);
        assert s[q..][2..] == s[e..];
      } else {
        assert s[q..][1..] == s[e..];
      }
    } else {
      e := WordEnd(s, q);
      t := Some(Word(s[q..e]));
    }
    w := Span(q, e);
    p := SkipSpace(s, e);
  }

  // ----- The parser -----

  /** A result of the code and what the parser on tokens gives.  None is a panic. */
  predicate Agrees(s: string, r: Option<Cmd<Span>>, ps: nat, p: nat, spec: Result<Cmd<string>>) {
    && (r.Some? <==> spec.Ok?)
    && (r.Some? ==>
          ps <= p <= |s| && TreeOk(s, r.value) && TreeText(s, r.value) == spec.value && Lex(s[p..]) == spec.rest)
  }

  method ParseRedirsCode(s: string, ps: nat) returns (r: Option<Redirs<Span>>, p: nat)
    requires ps <= |s|
    ensures ps <= p <= |s| && (r.Some? <==> ParseRedirs(Lex(s[ps..])).Ok?)
    ensures r.Some? ==> RedirsOk(s, r.value) && ParseRedirs(Lex(s[ps..])) == Ok(RedirsText(s, r.value), Lex(s[p..]))
  {
    var rs := NoMore;
    ghost var all := ParseRedirs(Lex(s[ps..]));
    var b;
    b, p := Peek(s, ps, "<>");
    while b
      invariant ps <= p <= |s| && RedirsOk(s, rs) && (p < |s| ==> !IsSpace(s[p])) && (b <==> p < |s| && s[p] in "<>")
      invariant var now := ParseRedirs(Lex(s[p..]));
                (all.Ok? <==> now.Ok?) && (all.Ok? ==> all == Ok(Join(RedirsText(s, rs), now.value), now.rest))
      decreases |s| - p
    {
      FirstTok(s[p..]);
      var t, w, p1 := GetToken(s, p);
      var f, w1, p2 := GetToken(s, p1);
      if f.None? || !f.value.Word? {
        return None, p2;
      }
      var mode := if t.value == Sym('<') then In else Out;
      JoinText(s, rs, Then(w1, mode, NoMore));
      ghost var now := ParseRedirs(Lex(s[p2..]));
      if now.Ok? {
        JoinOne(RedirsText(s, rs), SpanText(s, w1), mode, now.value);
      }
      rs := Join(rs, Then(w1, mode, NoMore));
      b, p := Peek(s, p2, "<>");
    }
    if p < |s| {
      FirstTok(s[p..]);
    }
    JoinNone(RedirsText(s, rs));
    return Some(rs), p;
  }

  datatype Turn = Stop | Panic | Go(args: seq<Span>, rs: Redirs<Span>)

  /** What the parser on tokens makes of the rest of a command. */
  function RestOf(s: string, p: nat, args: seq<Span>, rs: Redirs<Span>): Result<Cmd<string>>
    requires p <= |s| && ArgsOk(s, args) && RedirsOk(s, rs)
  {
    ParseArgs(Lex(s[p..]), ArgsText(s, args, |args|), RedirsText(s, rs))
  }

  /** One word and the redirections after it. */
  lemma OneWord(ts: Toks, args: seq<string>, rs: Redirs<string>, more: Redirs<string>, rest: Toks)
    requires ts.More? && ts.tok.Word? && |args| + 1 < MAXARGS && ParseRedirs(ts.rest) == Ok(more, rest)
    ensures ParseArgs(ts, args, rs) == ParseArgs(rest, args + [ts.tok.w], Join(rs, more))
  {
  }

  /** The test of the loop in parseexec and its gettoken. */
  method NextArg(s: string, ps: nat) returns (end: bool, t: Option<Tok>, w: Span, p: nat)
    requires ps <= |s|
    ensures ps <= p <= |s| && (end <==> AtEnd(Lex(s[ps..])))
    ensures end ==> Lex(s[p..]) == Lex(s[ps..])
    ensures !end ==> t.Some? && ps < p && Lex(s[ps..]) == More(t.value, Lex(s[p..]))
    ensures !end && t.value.Word? ==> SpanOk(s, w) && t.value.w == SpanText(s, w)
  {
    t, w := None, Span(0, 0);
    end, p := Peek(s, ps, "|)&;");
    if p < |s| {
      FirstTok(s[p..]);
    }
    if end {
      return;
    }
    var p1;
    t, w, p1 := GetToken(s, p);
    if t.None? {
      end := true;
    } else {
      p := p1;
    }
  }

  lemma MoreText(s: string, args: seq<Span>, w: Span)
    requires ArgsOk(s, args) && SpanOk(s, w)
    ensures ArgsOk(s, args + [w])
    ensures ArgsText(s, args + [w], |args + [w]|) == ArgsText(s, args, |args|) + [SpanText(s, w)]
  {
    ArgsTextMore(s, args, w, |args|);
  }

  /** One turn of the loop in parseexec. */
  method ArgsTurn(s: string, ps: nat, args: seq<Span>, rs: Redirs<Span>) returns (r: Turn, p: nat)
    requires ps <= |s| && ArgsOk(s, args) && RedirsOk(s, rs) && |args| < MAXARGS
    ensures ps <= p <= |s|
    ensures r.Stop? ==> AtEnd(Lex(s[p..])) && Lex(s[p..]) == Lex(s[ps..])
    ensures r.Panic? ==> RestOf(s, ps, args, rs) == Fail
    ensures r.Go? ==> ps < p && ArgsOk(s, r.args) && RedirsOk(s, r.rs) && |r.args| < MAXARGS
    ensures r.Go? ==> RestOf(s, ps, args, rs) == RestOf(s, p, r.args, r.rs)
  {
    var end, t, w, p1 := NextArg(s, ps);
    if end {
      return Stop, p1;
    }
    if !t.value.Word? || |args| + 1 >= MAXARGS {
      return Panic, p1;
    }
    var more, p2 := ParseRedirsCode(s, p1);
    if more.None? {
      return Panic, p2;
    }
    JoinText(s, rs, more.value);
    MoreText(s, args, w);
    OneWord(Lex(s[ps..]), ArgsText(s, args, |args|), RedirsText(s, rs), RedirsText(s, more.value), Lex(s[p2..]));
    return Go(args + [w], Join(rs, more.value)), p2;
  }

  /** The loop of parseexec. */
  method ParseArgsCode(s: string, ps: nat, rs0: Redirs<Span>) returns (r: Option<Cmd<Span>>, p: nat)
    requires ps <= |s| && RedirsOk(s, rs0)
    ensures Agrees(s, r, ps, p, ParseArgs(Lex(s[ps..]), [], RedirsText(s, rs0)))
  {
    var args, rs := [], rs0;
    p := ps;
    while true
      invariant ps <= p <= |s| && ArgsOk(s, args) && RedirsOk(s, rs) && |args| < MAXARGS
      invariant RestOf(s, ps, [], rs0) == RestOf(s, p, args, rs)
      decreases |s| - p
    {
      var turn, p1 := ArgsTurn(s, p, args, rs);
      match turn {
        case Panic => return None, p1;
        case Stop =>
          WrapText(s, Exec(args), rs);
          return Some(Wrap(Exec(args), rs)), p1;
        case Go(args1, rs1) => args, rs, p := args1, rs1, p1;
      }
    }
  }

  /** parseexec and parseblock */
  method ParseExecCode(s: string, ps: nat) returns (r: Option<Cmd<Span>>, p: nat)
    requires ps <= |s|
    ensures Agrees(s, r, ps, p, ParseExec(Lex(s[ps..])))
    decreases |s| - ps, 0
  {
    var b;
    b, p := Peek(s, ps, "(");
    if p < |s| {
      FirstTok(s[p..]);
    }
    if b {
      var t, w, p1 := GetToken(s, p);
      r, p := ParseLineCode(s, p1);
      if r.None? {
        return;
      }
      b, p := Peek(s, p, ")");
      if p < |s| {
        FirstTok(s[p..]);
      }
      if !b {
        return None, p;
      }
      t, w, p1 := GetToken(s, p);
      var rs;
      rs, p := ParseRedirsCode(s, p1);
      if rs.None? {
        return None, p;
      }
      WrapText(s, r.value, rs.value);
      return Some(Wrap(r.value, rs.value)), p;
    }
    var rs;
    rs, p := ParseRedirsCode(s, p);
    if rs.None? {
      return None, p;
    }
    r, p := ParseArgsCode(s, p, rs.value);
  }

  method ParsePipeCode(s: string, ps: nat) returns (r: Option<Cmd<Span>>, p: nat)
    requires ps <= |s|
    ensures Agrees(s, r, ps, p, ParsePipe(Lex(s[ps..])))
    decreases |s| - ps, 1
  {
    r, p := ParseExecCode(s, ps);
    if r.None? {
      return;
    }
    var b;
    b, p := Peek(s, p, "|");
    if p < |s| {
      FirstTok(s[p..]);
    }
    if b {
      var t, w, p1 := GetToken(s, p);
      var q;
      q, p := ParsePipeCode(s, p1);
      if q.None? {
        return None, p;
      }
      r := Some(Pipe(r.value, q.value));
    }
  }

  method ParseLineCode(s: string, ps: nat) returns (r: Option<Cmd<Span>>, p: nat)
    requires ps <= |s|
    ensures Agrees(s, r, ps, p, ParseLine(Lex(s[ps..])))
    decreases |s| - ps, 2
  {
    r, p := ParsePipeCode(s, ps);
    if r.None? {
      return;
    }
    var b;
    b, p := Peek(s, p, "&");
    while b
      invariant ps <= p <= |s| && r.Some? && TreeOk(s, r.value) && (p < |s| ==> !IsSpace(s[p]))
      invariant (b <==> p < |s| && s[p] == '&')
      invariant ParseBack(Lex(s[ps..])) == TakeAmps(TreeText(s, r.value), Lex(s[p..]))
      decreases |s| - p
    {
      FirstTok(s[p..]);
      var t, w, p1 := GetToken(s, p);
      r := Some(Back(r.value));
      b, p := Peek(s, p1, "&");
    }
    if p < |s| {
      FirstTok(s[p..]);
    }
    b, p := Peek(s, p, ";");
    if p < |s| {
      FirstTok(s[p..]);
    }
    if b {
      var t, w, p1 := GetToken(s, p);
      var q;
      q, p := ParseLineCode(s, p1);
      if q.None? {
        return None, p;
      }
      r := Some(List(r.value, q.value));
    }
  }

  /** parsecmd up to its call of nulterminate; None is a panic. */
  method ParseCmd(s: string) returns (r: Option<Cmd<Span>>)
    ensures r.Some? ==> TreeOk(s, r.value) && ParseLine(Lex(s)) == Ok(TreeText(s, r.value), End)
    ensures r.Some? ==> ShellGrammar.StandsFor(s, TreeText(s, r.value))
    ensures r.None? ==> ParseLine(Lex(s)).Fail? || ParseLine(Lex(s)).rest != End
    ensures r.None? ==> forall t :: !ShellGrammar.StandsFor(s, t)
  {
    forall t ensures ParseLine(Lex(s)) == Ok(t, End) <==> ShellGrammar.StandsFor(s, t) {
      ShellGrammar.LineIff(s, t);
    }
    assert s[0..] == s;
    var p;
    r, p := ParseLineCode(s, 0);
    if r.None? {
      return;
    }
    p := SkipSpace(s, p);
    if p != |s| {
      FirstTok(s[p..]);
      return None;
    }
  }

  // ----- nulterminate -----

  /** One of the words ends at `e`. */
  predicate HasEnd(ws: seq<Span>, e: nat) {
    exists i :: 0 <= i < |ws| && ws[i].eq == e
  }

  /** A word of the tree ends at `e`. */
  predicate EndsAt(t: Cmd<Span>, e: nat) {
    match t {
      case Exec(args) => HasEnd(args, e)
      case Redir(c, f, _) => EndsAt(c, e) || f.eq == e
      case Pipe(l, r) => EndsAt(l, e) || EndsAt(r, e)
      case Back(c) => EndsAt(c, e)
      case List(l, r) => EndsAt(l, e) || EndsAt(r, e)
    }
  }

  /** That is any word of the tree. */
  lemma {:induction false} EndsIff(t: Cmd<Span>, e: nat)
    ensures EndsAt(t, e) <==> HasEnd(WordsOf(t), e)
  {
    match t {
      case Exec(args) => assert WordsOf(t) == args;
      case Redir(c, f, _) =>
        EndsIff(c, e);
        assert HasEnd([f], e) <==> f.eq == e by {
          assert [f][0] == f;
        }
        EndsEither(WordsOf(c), [f], e);
      case Pipe(l, r) =>
        EndsIff(l, e);
        EndsIff(r, e);
        EndsEither(WordsOf(l), WordsOf(r), e);
      case Back(c) => EndsIff(c, e);
      case List(l, r) =>
        EndsIff(l, e);
        EndsIff(r, e);
        EndsEither(WordsOf(l), WordsOf(r), e);
    }
  }

  lemma EndsEither(a: seq<Span>, b: seq<Span>, e: nat)
    ensures HasEnd(a + b, e) <==> HasEnd(a, e) || HasEnd(b, e)
  {
    if i :| 0 <= i < |b| && b[i].eq == e {
      assert (a + b)[|a| + i].eq == e;
    }
    if i :| 0 <= i < |a| && a[i].eq == e {
      assert (a + b)[i].eq == e;
    }
  }

  /** An end of a word is never inside a word, so cutting there leaves all words whole. */
  lemma {:induction false} EndsOutside(s: string, t: Cmd<Span>, e: nat, w: Span)
    requires TreeOk(s, t) && EndsAt(t, e) && SpanOk(s, w)
    ensures e <= |s| && !(w.q <= e < w.eq)
  {
    match t {
      case Exec(args) =>
        var i :| 0 <= i < |args| && args[i].eq == e;
        assert SpanOk(s, args[i]);
      case Redir(c, f, _) =>
        if f.eq != e {
          EndsOutside(s, c, e, w);
        }
      case Pipe(l, r) =>
        if EndsAt(l, e) {
          EndsOutside(s, l, e, w);
        } else {
          EndsOutside(s, r, e, w);
        }
      case Back(c) => EndsOutside(s, c, e, w);
      case List(l, r) =>
        if EndsAt(l, e) {
          EndsOutside(s, l, e, w);
        } else {
          EndsOutside(s, r, e, w);
        }
    }
  }

  /** The NULs of the tree's words, and nothing else, have been put into the line. */
  ghost predicate CutAt(was: seq<char>, now: seq<char>, t: Cmd<Span>) {
    |now| == |was| && forall i :: 0 <= i < |now| ==> now[i] == if EndsAt(t, i) then '\0' else was[i]
  }

  /** nulterminate on the buffer that holds the line. */
  method NulTerminate(buf: array<char>, t: Cmd<Span>, ghost s: string)
    requires TreeOk(s, t) && buf.Length == |s| + 1
    modifies buf
    ensures CutAt(old(buf[..]), buf[..], t)
    decreases t
  {
    match t {
      case Exec(args) =>
        var i := 0;
        while i < |args|
          invariant 0 <= i <= |args|
          invariant forall j :: 0 <= j < buf.Length ==>
                      buf[j] == if exists k :: 0 <= k < i && args[k].eq == j then '\0' else old(buf[j])
        {
          assert SpanOk(s, args[i]);
          buf[args[i].eq] := '\0';
          i := i + 1;
        }
      case Redir(c, f, _) =>
        NulTerminate(buf, c, s);
        buf[f.eq] := '\0';
      case Pipe(l, r) =>
        NulTerminate(buf, l, s);
        NulTerminate(buf, r, s);
      case Back(c) =>
        NulTerminate(buf, c, s);
      case List(l, r) =>
        NulTerminate(buf, l, s);
        NulTerminate(buf, r, s);
    }
  }

  /** A C string in the buffer: the characters up to the next NUL. */
  predicate CString(buf: seq<char>, q: nat, w: string) {
    q + |w| < |buf| && buf[q..q + |w|] == w && buf[q + |w|] == '\0'
  }

  /** parsecmd: afterwards every word of the tree stands in the buffer as a C string. */
  method ParseAndCut(buf: array<char>, ghost s: string) returns (r: Option<Cmd<Span>>)
    requires buf[..] == s + ['\0'] && '\0' !in s
    modifies buf
    ensures r.Some? ==> TreeOk(s, r.value) && ParseLine(Lex(s)) == Ok(TreeText(s, r.value), End)
    ensures r.Some? ==> ShellGrammar.StandsFor(s, TreeText(s, r.value)) && CutAt(old(buf[..]), buf[..], r.value)
    ensures r.Some? ==> forall w: Span ::
                          SpanOk(s, w) && EndsAt(r.value, w.eq) ==> CString(buf[..], w.q, SpanText(s, w))
    ensures r.Some? ==> forall i :: 0 <= i < |WordsOf(r.value)| ==>
                          var w := WordsOf(r.value)[i]; SpanOk(s, w) && CString(buf[..], w.q, SpanText(s, w))
    ensures r.None? ==> (ParseLine(Lex(s)).Fail? || ParseLine(Lex(s)).rest != End) && buf[..] == old(buf[..])
    ensures r.None? ==> forall t :: !ShellGrammar.StandsFor(s, t)
  {
    var line := buf[..buf.Length - 1];
    assert line == s;
    r := ParseCmd(line);
    if r.Some? {
      NulTerminate(buf, r.value, s);
      forall w: Span | SpanOk(s, w) && EndsAt(r.value, w.eq) ensures CString(buf[..], w.q, SpanText(s, w)) {
        forall i | w.q <= i < w.eq ensures buf[i] == s[i] {
          if EndsAt(r.value, i) {
            EndsOutside(s, r.value, i, w);
          }
        }
      }
      TextKeeps(s, r.value);
      forall i | 0 <= i < |WordsOf(r.value)| ensures EndsAt(r.value, WordsOf(r.value)[i].eq) {
        EndsIff(r.value, WordsOf(r.value)[i].eq);
      }
    }
  }
}
