/** The shell's language: which token lists are commands, and what commands they are.

    The grammar says how a list is made up, from the outside in, without a parser in mind:

      line     = job | job ';' line
      job      = pipeline | job '&'
      pipeline = command | command '|' pipeline
      command  = words and redirections in any order | '(' line ')' redirections

    The parser finds for every list the one command it stands for, and fails on all others. */
module ShellGrammar {
  import opened Shell
  import opened ShellText

  // ----- The grammar -----

  predicate IsArrow(t: Tok) {
    t == Sym('<') || t == Sym('>') || t == Append
  }

  /** Words and redirections in any order: `args` are the words and `rs` the redirections, each in the
      order in which they stand.  Only '<' is for input. */
  predicate Items(xs: seq<Tok>, args: seq<string>, rs: Redirs<string>)
    decreases |xs|
  {
    if xs == [] then args == [] && rs == NoMore
    else if xs[0].Word? then args != [] && args[0] == xs[0].w && Items(xs[1..], args[1..], rs)
    else
      && IsArrow(xs[0]) && |xs| > 1 && xs[1].Word? && rs.Then? && rs.file == xs[1].w
      && (rs.mode == In <==> xs[0] == Sym('<')) && Items(xs[2..], args, rs.rest)
  }

  /** A command without parentheses. */
  ghost predicate IsSimple(xs: seq<Tok>, t: Cmd<string>) {
    exists args, rs :: Items(xs, args, rs) && |args| < MAXARGS && t == Wrap(Exec(args), rs)
  }

  /** A line in parentheses that ends before `i`, and redirections of all of it. */
  ghost predicate IsBlock(xs: seq<Tok>, t: Cmd<string>, i: nat)
    decreases |xs|, 0
  {
    && 0 < i < |xs| && xs[0] == Sym('(') && xs[i] == Sym(')')
    && exists c, rs :: IsLine(xs[1..i], c) && Items(xs[i + 1..], [], rs) && t == Wrap(c, rs)
  }

  ghost predicate IsCommand(xs: seq<Tok>, t: Cmd<string>)
    decreases |xs|, 1
  {
    IsSimple(xs, t) || exists i: nat :: IsBlock(xs, t, i)
  }

  ghost predicate IsPipeline(xs: seq<Tok>, t: Cmd<string>)
    decreases |xs|, 2
  {
    IsCommand(xs, t) || exists i: nat :: PipedAt(xs, t, i)
  }

  /** The '|' at `i` is the first of the pipeline. */
  ghost predicate PipedAt(xs: seq<Tok>, t: Cmd<string>, i: nat)
    decreases |xs|, 1
  {
    && i < |xs| && xs[i] == Sym('|') && t.Pipe?
    && IsCommand(xs[..i], t.left) && IsPipeline(xs[i + 1..], t.right)
  }

  ghost predicate IsJob(xs: seq<Tok>, t: Cmd<string>)
    decreases |xs|, 3
  {
    || IsPipeline(xs, t)
    || (xs != [] && xs[|xs| - 1] == Sym('&') && t.Back? && IsJob(xs[..|xs| - 1], t.cmd))
  }

  ghost predicate IsLine(xs: seq<Tok>, t: Cmd<string>)
    decreases |xs|, 5
  {
    IsJob(xs, t) || exists i: nat :: ListedAt(xs, t, i)
  }

  /** The ';' at `i` is the first of the line. */
  ghost predicate ListedAt(xs: seq<Tok>, t: Cmd<string>, i: nat)
    decreases |xs|, 4
  {
    i < |xs| && xs[i] == Sym(';') && t.List? && IsJob(xs[..i], t.left) && IsLine(xs[i + 1..], t.right)
  }

  // ----- Token lists -----

  /** The tokens `xs` and then `rest`. */
  function Cat(xs: seq<Tok>, rest: Toks): Toks
    decreases xs
  {
    if xs == [] then rest else More(xs[0], Cat(xs[1..], rest))
  }

  lemma {:induction false} CatTwo(xs: seq<Tok>, ys: seq<Tok>, rest: Toks)
    ensures Cat(xs + ys, rest) == Cat(xs, Cat(ys, rest))
    decreases xs
  {
    if xs == [] {
      assert xs + ys == ys;
    } else {
      assert (xs + ys)[1..] == xs[1..] + ys;
      CatTwo(xs[1..], ys, rest);
    }
  }

  /** A token in the middle. */
  lemma CatAt(xs: seq<Tok>, i: nat, rest: Toks)
    requires i < |xs|
    ensures Cat(xs, rest) == Cat(xs[..i], More(xs[i], Cat(xs[i + 1..], rest)))
  {
    assert xs == xs[..i] + ([xs[i]] + xs[i + 1..]);
    CatTwo(xs[..i], [xs[i]] + xs[i + 1..], rest);
    assert ([xs[i]] + xs[i + 1..])[1..] == xs[i + 1..];
  }

  /** All tokens of a list. */
  function Seq(ts: Toks): (xs: seq<Tok>)
    ensures Cat(xs, End) == ts
  {
    if ts.End? then [] else
      var xs := Seq(ts.rest);
      assert ([ts.tok] + xs)[1..] == xs;
      [ts.tok] + xs
  }

  lemma Assoc(xs: seq<Tok>, ys: seq<Tok>)
    requires xs != []
    ensures [xs[0]] + (xs[1..] + ys) == xs + ys
  {
  }

  lemma {:induction false} SeqCat(xs: seq<Tok>, rest: Toks)
    ensures Seq(Cat(xs, rest)) == xs + Seq(rest)
    decreases xs
  {
    if xs == [] {
      assert xs + Seq(rest) == Seq(rest);
    } else {
      SeqCat(xs[1..], rest);
      Assoc(xs, Seq(rest));
    }
  }

  // ----- Every command of the grammar is found -----

  /** parseredirs and then the loop of parseexec. */
  function ParseItems(ts: Toks, args: seq<string>, rs: Redirs<string>): Result<Cmd<string>> {
    var q := ParseRedirs(ts);
    if q.Fail? then Fail else ParseArgs(q.rest, args, Join(rs, q.value))
  }

  /** A redirection comes first. */
  lemma RedirFirst(ts: Toks, args: seq<string>, rs: Redirs<string>)
    requires AtRedir(ts) && ts.rest.More? && ts.rest.tok.Word?
    ensures var m := if ts.tok == Sym('<') then In else Out;
            ParseItems(ts, args, rs) == ParseItems(ts.rest.rest, args, Join(rs, Then(ts.rest.tok.w, m, NoMore)))
  {
    var q := ParseRedirs(ts.rest.rest);
    if q.Ok? {
      JoinOne(rs, ts.rest.tok.w, if ts.tok == Sym('<') then In else Out, q.value);
    }
  }

  /** A word comes first. */
  lemma WordFirst(ts: Toks, args: seq<string>, rs: Redirs<string>)
    requires ts.More? && ts.tok.Word?
    ensures ParseItems(ts, args, rs) ==
            if |args| + 1 >= MAXARGS then Fail else ParseItems(ts.rest, args + [ts.tok.w], rs)
  {
    assert ParseRedirs(ts) == Ok(NoMore, ts);
    JoinNone(rs);
  }

  lemma {:induction false} ItemsFound(xs: seq<Tok>, more: seq<string>, ms: Redirs<string>, args: seq<string>,
                                      rs: Redirs<string>, rest: Toks)
    requires Items(xs, more, ms) && AtEnd(rest) && |args| + |more| < MAXARGS
    ensures ParseItems(Cat(xs, rest), args, rs) == Ok(Wrap(Exec(args + more), Join(rs, ms)), rest)
    decreases |xs|
  {
    var ts := Cat(xs, rest);
    if xs == [] {
      JoinNone(rs);
      assert args + more == args;
    } else if xs[0].Word? {
      WordFirst(ts, args, rs);
      ItemsFound(xs[1..], more[1..], ms, args + [xs[0].w], rs, rest);
      assert (args + [xs[0].w]) + more[1..] == args + more;
    } else {
      assert ts.rest == Cat(xs[1..], rest) && xs[1..][1..] == xs[2..] && ts.rest.rest == Cat(xs[2..], rest);
      RedirFirst(ts, args, rs);
      var one := Join(rs, Then(ms.file, ms.mode, NoMore));
      ItemsFound(xs[2..], more, ms.rest, args, one, rest);
      JoinOne(rs, ms.file, ms.mode, ms.rest);
    }
  }

  lemma SimpleFound(xs: seq<Tok>, t: Cmd<string>, rest: Toks)
    requires IsSimple(xs, t) && Follows(0, rest)
    ensures ParseExec(Cat(xs, rest)) == Ok(t, rest)
  {
    var args, rs :| Items(xs, args, rs) && |args| < MAXARGS && t == Wrap(Exec(args), rs);
    ItemsFound(xs, args, rs, [], NoMore, rest);
    assert [] + args == args;
  }

  lemma {:induction false} RedirsFound(xs: seq<Tok>, rs: Redirs<string>, rest: Toks)
    requires Items(xs, [], rs) && !AtRedir(rest)
    ensures ParseRedirs(Cat(xs, rest)) == Ok(rs, rest)
    decreases |xs|
  {
    if xs != [] {
      assert Cat(xs, rest).rest == Cat(xs[1..], rest) && xs[1..][1..] == xs[2..];
      RedirsFound(xs[2..], rs.rest, rest);
    }
  }

  lemma {:induction false} BlockFound(xs: seq<Tok>, t: Cmd<string>, i: nat, rest: Toks)
    requires IsBlock(xs, t, i) && Follows(0, rest)
    ensures ParseExec(Cat(xs, rest)) == Ok(t, rest)
    decreases |xs|, 0
  {
    var c, rs :| IsLine(xs[1..i], c) && Items(xs[i + 1..], [], rs) && t == Wrap(c, rs);
    BlockCat(xs, i, rest);
    LineFound(xs[1..i], c, More(Sym(')'), Cat(xs[i + 1..], rest)));
    RedirsFound(xs[i + 1..], rs, rest);
  }

  lemma {:induction false} CommandFound(xs: seq<Tok>, t: Cmd<string>, rest: Toks)
    requires IsCommand(xs, t) && Follows(0, rest)
    ensures ParseExec(Cat(xs, rest)) == Ok(t, rest)
    decreases |xs|, 1
  {
    if IsSimple(xs, t) {
      SimpleFound(xs, t, rest);
    } else {
      var i: nat :| IsBlock(xs, t, i);
      BlockFound(xs, t, i, rest);
    }
  }

  lemma BlockCat(xs: seq<Tok>, i: nat, rest: Toks)
    requires 0 < i < |xs|
    ensures Cat(xs, rest) == More(xs[0], Cat(xs[1..i], More(xs[i], Cat(xs[i + 1..], rest))))
  {
    CatAt(xs[1..], i - 1, rest);
    assert xs[1..][..i - 1] == xs[1..i] && xs[1..][i - 1 + 1..] == xs[i + 1..];
  }

  lemma {:induction false} PipelineFound(xs: seq<Tok>, t: Cmd<string>, rest: Toks)
    requires IsPipeline(xs, t) && Follows(1, rest)
    ensures ParsePipe(Cat(xs, rest)) == Ok(t, rest)
    decreases |xs|, 2
  {
    if IsCommand(xs, t) {
      CommandFound(xs, t, rest);
    } else {
      var i: nat :| PipedAt(xs, t, i);
      CatAt(xs, i, rest);
      CommandFound(xs[..i], t.left, More(Sym('|'), Cat(xs[i + 1..], rest)));
      PipelineFound(xs[i + 1..], t.right, rest);
    }
  }

  lemma {:induction false} JobFound(xs: seq<Tok>, t: Cmd<string>, n: nat, rest: Toks)
    requires IsJob(xs, t) && Follows(2, rest)
    ensures ParseBack(Cat(xs, Amps(n, rest))) == Ok(Backs(t, n), rest)
    decreases |xs|, 3
  {
    if IsPipeline(xs, t) {
      PipelineFound(xs, t, Amps(n, rest));
      AmpsBack(t, n, rest);
    } else {
      CatAt(xs, |xs| - 1, Amps(n, rest));
      assert Cat(xs[|xs|..], Amps(n, rest)) == Amps(n, rest);
      JobFound(xs[..|xs| - 1], t.cmd, n + 1, rest);
    }
  }

  lemma {:induction false} LineFound(xs: seq<Tok>, t: Cmd<string>, rest: Toks)
    requires IsLine(xs, t) && Follows(3, rest)
    ensures ParseLine(Cat(xs, rest)) == Ok(t, rest)
    decreases |xs|, 4
  {
    if IsJob(xs, t) {
      JobFound(xs, t, 0, rest);
    } else {
      var i: nat :| ListedAt(xs, t, i);
      CatAt(xs, i, rest);
      JobFound(xs[..i], t.left, 0, More(Sym(';'), Cat(xs[i + 1..], rest)));
      LineFound(xs[i + 1..], t.right, rest);
    }
  }

  // ----- What is found is a command of the grammar -----

  lemma {:induction false} ItemsSound(ts: Toks, args: seq<string>, rs: Redirs<string>)
    returns (xs: seq<Tok>, more: seq<string>, ms: Redirs<string>)
    requires ParseItems(ts, args, rs).Ok? && |args| < MAXARGS
    ensures var r := ParseItems(ts, args, rs);
            && ts == Cat(xs, r.rest) && Items(xs, more, ms) && |args| + |more| < MAXARGS
            && r.value == Wrap(Exec(args + more), Join(rs, ms))
    decreases ts
  {
    if AtRedir(ts) {
      RedirFirst(ts, args, rs);
      var f, m := ts.rest.tok.w, if ts.tok == Sym('<') then In else Out;
      var xs1, ms1;
      xs1, more, ms1 := ItemsSound(ts.rest.rest, args, Join(rs, Then(f, m, NoMore)));
      JoinOne(rs, f, m, ms1);
      xs, ms := [ts.tok, ts.rest.tok] + xs1, Then(f, m, ms1);
      assert xs[2..] == xs1 && xs[1..] == [ts.rest.tok] + xs1 && xs[1..][1..] == xs1;
    } else if AtEnd(ts) {
      xs, more, ms := [], [], NoMore;
      JoinNone(rs);
      assert args + [] == args;
    } else {
      WordFirst(ts, args, rs);
      var xs1, more1;
      xs1, more1, ms := ItemsSound(ts.rest, args + [ts.tok.w], rs);
      xs, more := [ts.tok] + xs1, [ts.tok.w] + more1;
      assert xs[1..] == xs1 && more[1..] == more1 && (args + [ts.tok.w]) + more1 == args + more;
    }
  }

  lemma {:induction false} RedirsSound(ts: Toks) returns (xs: seq<Tok>)
    requires ParseRedirs(ts).Ok?
    ensures ts == Cat(xs, ParseRedirs(ts).rest) && Items(xs, [], ParseRedirs(ts).value)
    decreases ts
  {
    xs := [];
    if AtRedir(ts) {
      var xs1 := RedirsSound(ts.rest.rest);
      xs := [ts.tok, ts.rest.tok] + xs1;
      assert xs[2..] == xs1 && xs[1..] == [ts.rest.tok] + xs1 && xs[1..][1..] == xs1;
    }
  }

  lemma {:induction false} CommandSound(ts: Toks) returns (xs: seq<Tok>)
    requires ParseExec(ts).Ok?
    ensures ts == Cat(xs, ParseExec(ts).rest) && IsCommand(xs, ParseExec(ts).value)
    decreases Len(ts), 0
  {
    if At(ts, '(') {
      var r := ParseLine(ts.rest);
      var ys := LineSound(ts.rest);
      var zs := RedirsSound(r.rest.rest);
      xs := [Sym('(')] + ys + [Sym(')')] + zs;
      BlockMade(ys, r.value, zs, ParseRedirs(r.rest.rest).value, ParseExec(ts).rest);
    } else {
      var more, ms;
      xs, more, ms := ItemsSound(ts, [], NoMore);
      assert [] + more == more;
      assert IsSimple(xs, ParseExec(ts).value);
    }
  }

  lemma BlockMade(ys: seq<Tok>, c: Cmd<string>, zs: seq<Tok>, rs: Redirs<string>, rest: Toks)
    requires IsLine(ys, c) && Items(zs, [], rs)
    ensures var xs := [Sym('(')] + ys + [Sym(')')] + zs;
            && IsCommand(xs, Wrap(c, rs))
            && Cat(xs, rest) == More(Sym('('), Cat(ys, More(Sym(')'), Cat(zs, rest))))
  {
    var xs, i := [Sym('(')] + ys + [Sym(')')] + zs, |ys| + 1;
    assert xs[1..i] == ys && xs[i + 1..] == zs;
    assert IsBlock(xs, Wrap(c, rs), i);
    BlockCat(xs, i, rest);
  }

  lemma {:induction false} PipelineSound(ts: Toks) returns (xs: seq<Tok>)
    requires ParsePipe(ts).Ok?
    ensures ts == Cat(xs, ParsePipe(ts).rest) && IsPipeline(xs, ParsePipe(ts).value)
    decreases Len(ts), 1
  {
    var r := ParseExec(ts);
    xs := CommandSound(ts);
    if At(r.rest, '|') {
      var ys := PipelineSound(r.rest.rest);
      var all := xs + [Sym('|')] + ys;
      CatAt(all, |xs|, ParsePipe(ts).rest);
      assert all[..|xs|] == xs && all[|xs| + 1..] == ys;
      assert PipedAt(all, ParsePipe(ts).value, |xs|);
      xs := all;
    }
  }

  lemma {:induction false} AmpsSound(xs: seq<Tok>, c: Cmd<string>, ts: Toks) returns (ys: seq<Tok>)
    requires IsJob(xs, c)
    ensures var r := TakeAmps(c, ts); Cat(ys, r.rest) == Cat(xs, ts) && IsJob(ys, r.value)
    decreases ts
  {
    ys := xs;
    if At(ts, '&') {
      var more := xs + [Sym('&')];
      assert more[..|more| - 1] == xs;
      CatTwo(xs, [Sym('&')], ts.rest);
      assert [Sym('&')][1..] == [] && Cat([Sym('&')], ts.rest) == ts;
      ys := AmpsSound(more, Back(c), ts.rest);
    }
  }

  lemma {:induction false} LineSound(ts: Toks) returns (xs: seq<Tok>)
    requires ParseLine(ts).Ok?
    ensures ts == Cat(xs, ParseLine(ts).rest) && IsLine(xs, ParseLine(ts).value)
    decreases Len(ts), 3
  {
    var p, r := ParsePipe(ts), ParseBack(ts);
    xs := PipelineSound(ts);
    xs := AmpsSound(xs, p.value, p.rest);
    if At(r.rest, ';') {
      var ys := LineSound(r.rest.rest);
      var all := xs + [Sym(';')] + ys;
      CatAt(all, |xs|, ParseLine(ts).rest);
      assert all[..|xs|] == xs && all[|xs| + 1..] == ys;
      assert ListedAt(all, ParseLine(ts).value, |xs|);
      xs := all;
    }
  }

  /** The parser accepts exactly the lines of the grammar, and finds the commands they stand for; so a
      line stands for one command only. */
  lemma ParsesIff(ts: Toks, t: Cmd<string>)
    ensures ParseLine(ts) == Ok(t, End) <==> IsLine(Seq(ts), t)
  {
    if ParseLine(ts) == Ok(t, End) {
      var xs := LineSound(ts);
      SeqCat(xs, End);
      assert xs + [] == xs;
    }
    if IsLine(Seq(ts), t) {
      LineFound(Seq(ts), t, End);
    }
  }

  lemma OneMeaning(xs: seq<Tok>, t: Cmd<string>, u: Cmd<string>)
    requires IsLine(xs, t) && IsLine(xs, u)
    ensures t == u
  {
    LineFound(xs, t, End);
    LineFound(xs, u, End);
  }

  // ----- The text -----

  predicate Blank(s: string) {
    forall i :: 0 <= i < |s| ==> IsSpace(s[i])
  }

  /** The token may end where `after` begins: a word takes all it can, and '>' a '>' behind it. */
  predicate EndsBefore(t: Tok, after: string) {
    && GoodTok(t) && (t.Word? ==> after == "" || !IsWordChar(after[0]))
    && (t == Sym('>') ==> after == "" || after[0] != '>')
  }

  /** The text is the tokens with any white space between them. */
  ghost predicate Spells(s: string, xs: seq<Tok>)
    decreases |xs|, 1
  {
    if xs == [] then Blank(s) else exists i: nat :: SpellsAt(s, xs, i)
  }

  /** The first token starts at `i`. */
  ghost predicate SpellsAt(s: string, xs: seq<Tok>, i: nat)
    requires xs != []
    decreases |xs|, 0
  {
    var w := TextOf(xs[0]);
    && i + |w| <= |s| && Blank(s[..i]) && s[i..i + |w|] == w
    && EndsBefore(xs[0], s[i + |w|..]) && Spells(s[i + |w|..], xs[1..])
  }

  lemma TextStarts(t: Tok)
    requires GoodTok(t)
    ensures TextOf(t) != "" && !IsSpace(TextOf(t)[0])
  {
  }

  lemma BlankStarts(s: string, i: nat)
    requires 0 < i <= |s| && Blank(s[..i])
    ensures IsSpace(s[0])
  {
    assert s[..i][0] == s[0];
  }

  lemma LaterBy1(s: string, i: nat, n: nat)
    requires 0 < i && i + n <= |s|
    ensures s[1..][..i - 1] == s[..i][1..] && s[1..][i - 1..i - 1 + n] == s[i..i + n]
    ensures s[1..][i - 1 + n..] == s[i + n..]
  {
  }

  /** White space before the first token. */
  lemma SpaceAt(s: string, xs: seq<Tok>, i: nat)
    requires s != "" && IsSpace(s[0]) && xs != [] && 0 < i <= |s|
    ensures SpellsAt(s, xs, i) <==> SpellsAt(s[1..], xs, i - 1)
  {
    var n := |TextOf(xs[0])|;
    if i + n <= |s| {
      LaterBy1(s, i, n);
      assert s[..i] == [s[0]] + s[..i][1..];
    }
  }

  lemma NotAtSpace(s: string, xs: seq<Tok>)
    requires s != "" && IsSpace(s[0]) && xs != []
    ensures !SpellsAt(s, xs, 0)
  {
    if GoodTok(xs[0]) && |TextOf(xs[0])| <= |s| {
      TextStarts(xs[0]);
      assert s[0..|TextOf(xs[0])|][0] == s[0];
    }
  }

  lemma SpaceFirst(s: string, xs: seq<Tok>)
    requires s != "" && IsSpace(s[0])
    ensures Spells(s, xs) <==> Spells(s[1..], xs)
  {
    if xs == [] {
      assert s == [s[0]] + s[1..];
    } else {
      NotAtSpace(s, xs);
      if i: nat :| SpellsAt(s, xs, i) {
        SpaceAt(s, xs, i);
      }
      if i: nat :| SpellsAt(s[1..], xs, i) {
        SpaceAt(s, xs, i + 1);
      }
    }
  }

  /** A text that starts with a token. */
  lemma TokenFirst(s: string, xs: seq<Tok>)
    requires s != "" && !IsSpace(s[0]) && Spells(s, xs)
    ensures xs != [] && SpellsAt(s, xs, 0) && TextOf(xs[0]) != ""
  {
    assert xs != [];
    var i: nat :| SpellsAt(s, xs, i);
    if i > 0 {
      BlankStarts(s, i);
    }
    TextStarts(xs[0]);
  }

  /** The token that gettoken takes there. */
  lemma TakesIt(s: string, t: Tok)
    requires s != "" && |TextOf(t)| <= |s| && s[..|TextOf(t)|] == TextOf(t) && EndsBefore(t, s[|TextOf(t)|..])
    ensures Lex(s) == More(t, Lex(s[|TextOf(t)|..]))
  {
    var w := TextOf(t);
    assert s[0] == w[0];
    if t.Word? {
      WordLenOf(w, s[|w|..]);
      assert w + s[|w|..] == s;
    } else if t.Append? {
      assert s[1] == w[1];
    } else if |s| > 1 {
      assert s[1..][0] == s[1];
    }
  }

  /** Every text spells the tokens that gettoken finds in it, and no others. */
  lemma {:induction false} LexIff(s: string, xs: seq<Tok>)
    ensures Seq(Lex(s)) == xs <==> Spells(s, xs)
    decreases |s|
  {
    if s == "" {
      if xs != [] && GoodTok(xs[0]) {
        TextStarts(xs[0]);
      }
    } else if IsSpace(s[0]) {
      SpaceFirst(s, xs);
      LexIff(s[1..], xs);
    } else {
      if Spells(s, xs) {
        TokenFirst(s, xs);
        var n := |TextOf(xs[0])|;
        assert s[0..n] == s[..n];
        TakesIt(s, xs[0]);
        LexIff(s[n..], xs[1..]);
        assert xs == [xs[0]] + xs[1..];
      }
      if Seq(Lex(s)) == xs {
        FirstToken(s);
        var n := |TextOf(xs[0])|;
        assert xs[1..] == Seq(Lex(s[n..]));
        LexIff(s[n..], xs[1..]);
        assert s[0..n] == s[..n] && s[..0] == "" && s[0 + n..] == s[n..];
        assert SpellsAt(s, xs, 0);
      }
    }
  }

  lemma FirstToken(s: string)
    requires s != "" && !IsSpace(s[0])
    ensures Lex(s).More?
    ensures var t := Lex(s).tok; var n := |TextOf(t)|;
            && 0 < n <= |s| && s[..n] == TextOf(t) && EndsBefore(t, s[n..]) && Lex(s).rest == Lex(s[n..])
  {
    if s[0] == '>' && |s| > 1 && s[1] == '>' {
      assert s[..2] == ">>";
    } else if IsSymbol(s[0]) {
      assert s[..1] == [s[0]];
    } else {
      assert WordLen(s) > 0;
      forall i | 0 <= i < WordLen(s) ensures IsWordChar(s[..WordLen(s)][i]) {
      }
    }
  }

  /** The line is a line of the grammar, and stands for the command `t`. */
  ghost predicate StandsFor(s: string, t: Cmd<string>) {
    exists xs :: Spells(s, xs) && IsLine(xs, t)
  }

  /** What parsecmd makes of a line is what the line stands for. */
  lemma LineIff(s: string, t: Cmd<string>)
    ensures ParseLine(Lex(s)) == Ok(t, End) <==> StandsFor(s, t)
  {
    ParsesIff(Lex(s), t);
    LexIff(s, Seq(Lex(s)));
    if StandsFor(s, t) {
      var xs :| Spells(s, xs) && IsLine(xs, t);
      LexIff(s, xs);
    }
  }
}
