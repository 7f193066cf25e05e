/** Tokens as text: gettoken's reading of a command line, and the round trip. */
module ShellText {
  import opened Shell

  predicate IsSpace(c: char) {
    c == ' ' || c == '\t' || c == '\r' || c == '\n' || c == '\U{000B}'
  }

  predicate IsSymbol(c: char) {
    c == '<' || c == '|' || c == '>' || c == '&' || c == ';' || c == '(' || c == ')'
  }

  predicate IsWordChar(c: char) {
    !IsSpace(c) && !IsSymbol(c)
  }

  /** Length of the longest word at the start. */
  function WordLen(s: string): (n: nat)
    ensures n <= |s| && (n < |s| ==> !IsWordChar(s[n])) && forall i :: 0 <= i < n ==> IsWordChar(s[i])
  {
    if s == "" || !IsWordChar(s[0]) then 0 else 1 + WordLen(s[1..])
  }

  function Lex(s: string): Toks
    decreases |s|
  {
    if s == "" then End
    else if IsSpace(s[0]) then Lex(s[1..])
    else if s[0] == '>' && |s| > 1 && s[1] == '>' then More(Append, Lex(s[2..]))
    else if IsSymbol(s[0]) then More(Sym(s[0]), Lex(s[1..]))
    else More(Word(s[..WordLen(s)]), Lex(s[WordLen(s)..]))
  }

  predicate GoodWord(w: string) {
    w != "" && forall i :: 0 <= i < |w| ==> IsWordChar(w[i])
  }

  predicate GoodTok(t: Tok) {
    match t {
      case Sym(c) => IsSymbol(c)
      case Append => true
      case Word(w) => GoodWord(w)
    }
  }

  predicate GoodToks(ts: Toks) {
    ts.More? ==> GoodTok(ts.tok) && GoodToks(ts.rest)
  }

  function TextOf(t: Tok): string {
    match t {
      case Sym(c) => [c]
      case Append => ">>"
      case Word(w) => w
    }
  }

  /** Each token and a space. */
  function Show(ts: Toks): string {
    if ts.End? then "" else TextOf(ts.tok) + (" " + Show(ts.rest))
  }

  lemma {:induction false} WordLenOf(w: string, s: string)
    requires (forall i :: 0 <= i < |w| ==> IsWordChar(w[i])) && (s == "" || !IsWordChar(s[0]))
    ensures WordLen(w + s) == |w|
  {
    if w == "" {
      assert w + s == s;
    } else {
      assert (w + s)[1..] == w[1..] + s;
      WordLenOf(w[1..], s);
    }
  }

  lemma LexTok(t: Tok, s: string)
    requires GoodTok(t)
    ensures Lex(TextOf(t) + (" " + s)) == More(t, Lex(s))
  {
    var u := " " + s;
    assert u[1..] == s;
    match t {
      case Sym(c) => assert ([c] + u)[1..] == u;
      case Append => assert (">>" + u)[2..] == u;
      case Word(w) =>
        WordLenOf(w, u);
        assert (w + u)[..|w|] == w && (w + u)[|w|..] == u;
    }
  }

  lemma {:induction false} LexShow(ts: Toks)
    requires GoodToks(ts)
    ensures Lex(Show(ts)) == ts
  {
    if ts.More? {
      LexTok(ts.tok, Show(ts.rest));
      LexShow(ts.rest);
    }
  }

  /** Every word of the tree can be written. */
  predicate GoodWords(t: Cmd<string>) {
    match t {
      case Exec(args) => forall i :: 0 <= i < |args| ==> GoodWord(args[i])
      case Redir(c, f, _) => GoodWords(c) && GoodWord(f)
      case Pipe(l, r) => GoodWords(l) && GoodWords(r)
      case Back(c) => GoodWords(c)
      case List(l, r) => GoodWords(l) && GoodWords(r)
    }
  }

  lemma {:induction false} WordsGood(args: seq<string>, i: nat, rest: Toks)
    requires i <= |args| && GoodWords(Exec(args)) && GoodToks(rest)
    ensures GoodToks(Words(args, i, rest))
    decreases |args| - i
  {
    if i < |args| {
      WordsGood(args, i + 1, rest);
    }
  }

  lemma {:induction false} PrintGood(t: Cmd<string>, k: nat, rest: Toks)
    requires GoodWords(t) && GoodToks(rest)
    ensures GoodToks(Print(t, k, rest)) && GoodToks(Inner(t, rest))
    decreases t, Level(t) > k
  {
    if Level(t) > k {
      PrintGood(t, 3, More(Sym(')'), rest));
      PrintGood(t, 3, rest);
    } else {
      match t {
        case Exec(args) => WordsGood(args, 0, rest);
        case Redir(c, f, m) => PrintGood(c, 0, RedirToks(f, m, rest));
        case Pipe(l, r) =>
          PrintGood(r, 1, rest);
          PrintGood(l, 0, More(Sym('|'), Print(r, 1, rest)));
        case Back(c) => PrintGood(c, 2, More(Sym('&'), rest));
        case List(l, r) =>
          PrintGood(r, 3, rest);
          PrintGood(l, 2, More(Sym(';'), Print(r, 3, rest)));
      }
    }
  }

  /** Writing a command tree and reading it back gives the tree. */
  lemma RoundTrip(t: Cmd<string>)
    requires Fits(t) && GoodWords(t)
    ensures ParseLine(Lex(Show(Print(t, 3, End)))) == Ok(t, End)
  {
    PrintGood(t, 3, End);
    LexShow(Print(t, 3, End));
    LineBack(t, End);
  }

  /** Different trees are written differently. */
  lemma PrintInjective(t: Cmd<string>, u: Cmd<string>)
    requires Fits(t) && GoodWords(t) && Fits(u) && GoodWords(u) && Show(Print(t, 3, End)) == Show(Print(u, 3, End))
    ensures t == u
  {
    RoundTrip(t);
    RoundTrip(u);
  }
}
