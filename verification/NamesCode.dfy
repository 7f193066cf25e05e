/** skipelem, namex and filereadlink as code. */
module NamesCode {
  import opened Names
  import opened Options

  const MAX_SYMLINK_LOOPS := 16

  /** The loops of skipelem over slashes. */
  method SkipSlashes(path: string, b: nat) returns (i: nat)
    requires b <= |path|
    ensures b <= i <= |path| && path[i..] == Strip(path[b..])
  {
    i := b;
    while i < |path| && path[i] == '/'
      invariant b <= i <= |path| && Strip(path[b..]) == Strip(path[i..])
    {
      assert path[i..][1..] == path[i + 1..];
      i := i + 1;
    }
  }

  /** The loop of skipelem over an element. */
  method SkipName(path: string, s: nat) returns (i: nat)
    requires s <= |path|
    ensures s <= i <= |path| && i - s == NameLen(path[s..])
  {
    i := s;
    while i < |path| && path[i] != '/'
      invariant s <= i <= |path| && NameLen(path[s..]) == i - s + NameLen(path[i..])
    {
      assert path[i..][1..] == path[i + 1..];
      i := i + 1;
    }
  }

  /** skipelem: None when no element is left. */
  method SkipElem(path: string) returns (r: Option<(string, string)>)
    ensures r.None? <==> Elems(path) == []
    ensures r.Some? ==> var (name, rest) := r.value;
              && IsName(name) && Elems(path) == [name] + Elems(rest) && |rest| < |path|
              && (rest == "" <==> Elems(rest) == [])
  {
    var s := SkipSlashes(path, 0);
    assert path[0..] == path;
    if s == |path| {
      return None;
    }
    var e := SkipName(path, s);
    var i := SkipSlashes(path, e);
    var name, rest := path[s..e], path[i..];
    assert path[s..][..e - s] == name && path[s..][e - s..] == path[e..];
    FirstName(path[s..]);
    StripSlash(path[e..]);
    return Some((name, rest));
  }

  /** namex without nameiparent: what namei returns. */
  method Namei(fs: Tree, cwd: nat, path: string) returns (r: Option<nat>)
    ensures r == Lookup(fs, cwd, path)
  {
    var ip := StartOf(cwd, path);
    var left := path;
    while true
      invariant Walk(fs, ip, Elems(left)) == Lookup(fs, cwd, path)
      decreases |left|
    {
      var s := SkipElem(left);
      if s.None? {
        return Some(ip);
      }
      var (name, rest) := s.value;
      if !(ip in fs && fs[ip].Dir?) {
        return None;
      }
      if name !in fs[ip].entries {
        return None;
      }
      assert Elems(left)[1..] == Elems(rest);
      ip, left := fs[ip].entries[name], rest;
    }
  }

  /** The directory that all but the last element lead to, and the last element. */
  function Parent(fs: Tree, d: nat, es: seq<string>): Option<(nat, string)> {
    if es == [] then None
    else
      match Walk(fs, d, es[..|es| - 1])
      case None => None
      case Some(n) => if n in fs && fs[n].Dir? then Some((n, Last(es))) else None
  }

  /** One element less. */
  lemma ParentStep(fs: Tree, d: nat, es: seq<string>)
    requires |es| > 1
    ensures Parent(fs, d, es) ==
            if d in fs && fs[d].Dir? && es[0] in fs[d].entries then Parent(fs, fs[d].entries[es[0]], es[1..]) else None
  {
    assert es[..|es| - 1][1..] == es[1..][..|es[1..]| - 1] && es[..|es| - 1][0] == es[0];
  }

  /** A path names what its last element names in its parent. */
  lemma {:induction false} ParentLookup(fs: Tree, d: nat, es: seq<string>)
    requires es != []
    ensures var p := Parent(fs, d, es);
            Walk(fs, d, es) ==
            if p.Some? && p.value.1 in fs[p.value.0].entries then Some(fs[p.value.0].entries[p.value.1]) else None
    decreases |es|
  {
    if |es| == 1 {
      assert es[..0] == [] && es[1..] == [];
    } else {
      ParentStep(fs, d, es);
      if d in fs && fs[d].Dir? && es[0] in fs[d].entries {
        ParentLookup(fs, fs[d].entries[es[0]], es[1..]);
      }
    }
  }

  /** namex with nameiparent, which stops one level early. */
  method NameiParent(fs: Tree, cwd: nat, path: string) returns (r: Option<(nat, string)>)
    ensures r == Parent(fs, StartOf(cwd, path), Elems(path))
    ensures r.Some? <==>
              && Elems(path) != []
              && exists d :: d in fs && fs[d].Dir? &&
                             Walk(fs, StartOf(cwd, path), Elems(path)[..|Elems(path)| - 1]) == Some(d)
    ensures r.Some? ==> Walk(fs, StartOf(cwd, path), Elems(path)[..|Elems(path)| - 1]) == Some(r.value.0)
    ensures r.Some? ==> r.value.1 == Last(Elems(path))
  {
    var ip := StartOf(cwd, path);
    var left := path;
    while true
      invariant Parent(fs, ip, Elems(left)) == Parent(fs, StartOf(cwd, path), Elems(path))
      decreases |left|
    {
      var s := SkipElem(left);
      if s.None? {
        return None;
      }
      var (name, rest) := s.value;
      assert Elems(left)[1..] == Elems(rest);
      if !(ip in fs && fs[ip].Dir?) {
        assert |Elems(left)| > 1 ==> Elems(left)[..|Elems(left)| - 1] != [];
        return None;
      }
      if rest == "" {
        assert Elems(left) == [name] && Elems(left)[..0] == [];
        return Some((ip, name));
      }
      ParentStep(fs, ip, Elems(left));
      if name !in fs[ip].entries {
        return None;
      }
      ip, left := fs[ip].entries[name], rest;
    }
  }

  // ----- The path that is written -----

  /** What the result buffer holds after some elements: each with a slash behind it. */
  function Prefix(abs: bool, es: seq<string>): string {
    if es == [] then (if abs then "/" else "") else Prefix(abs, es[..|es| - 1]) + Last(es) + "/"
  }

  /** The elements of `t` with single slashes between them. */
  function Written(t: Dest): string {
    if t.elems == [] then Prefix(t.abs, []) else Prefix(t.abs, t.elems[..|t.elems| - 1]) + Last(t.elems)
  }

  lemma NoElems()
    ensures Elems("") == [] == Elems("/")
  {
  }

  lemma {:induction false} PrefixElems(abs: bool, es: seq<string>)
    requires AllNames(es)
    ensures Elems(Prefix(abs, es)) == es && IsPrefix(Prefix(abs, es))
  {
    NoElems();
    if es != [] {
      var most, e := es[..|es| - 1], Last(es);
      PrefixElems(abs, most);
      OneMoreElem(Prefix(abs, most), e);
      assert most + [e] == es;
    }
  }

  lemma {:induction false} PrefixLen(abs: bool, es: seq<string>)
    requires AllNames(es)
    ensures |Prefix(abs, es)| == TotalLen(es) + |es| + if abs then 1 else 0
    ensures es != [] || abs ==> IsAbs(Prefix(abs, es)) == abs
  {
    if es != [] {
      var most, e := es[..|es| - 1], Last(es);
      PrefixLen(abs, most);
      assert most + [e] == es;
      TotalLast(most, e);
      assert IsName(e);
    }
  }

  lemma OneMoreElem(pre: string, e: string)
    requires IsPrefix(pre) && IsName(e)
    ensures Elems(pre + e + "/") == Elems(pre) + [e] == Elems(pre + e)
  {
    assert pre + e + "/" == pre + (e + "/") && e + "" == e;
    ElemsConcat(pre, e + "/");
    ElemsConcat(pre, e);
    NameElems(e, "/");
    NameElems(e, "");
    assert Elems("/") == [] && Elems("") == [];
    assert [e] + [] == [e];
  }

  /** What is written has these elements. */
  lemma WrittenElems(t: Dest)
    requires AllNames(t.elems) && t.elems != []
    ensures Elems(Written(t)) == t.elems
  {
    var most, e := t.elems[..|t.elems| - 1], Last(t.elems);
    assert most + [e] == t.elems;
    PrefixElems(t.abs, most);
    OneMoreElem(Prefix(t.abs, most), e);
  }

  lemma WrittenLen(t: Dest)
    requires AllNames(t.elems) && t.elems != []
    ensures |Written(t)| == TotalLen(t.elems) + |t.elems| - 1 + if t.abs then 1 else 0
    ensures IsAbs(Written(t)) == t.abs
  {
    var most, e := t.elems[..|t.elems| - 1], Last(t.elems);
    assert most + [e] == t.elems && IsName(e);
    PrefixLen(t.abs, most);
    TotalLast(most, e);
  }

  /** No path with these elements is shorter. */
  lemma WrittenShortest(t: Dest)
    requires AllNames(t.elems) && t.elems != []
    ensures Elems(Written(t)) == t.elems && IsAbs(Written(t)) == t.abs && Shortest(Written(t))
  {
    WrittenElems(t);
    WrittenLen(t);
    forall q: string | Elems(q) == t.elems && IsAbs(q) == t.abs ensures |Written(t)| <= |q| {
      AtLeast(q);
    }
  }

  /** No other path with the same elements, from the same start, is shorter. */
  ghost predicate Shortest(p: string) {
    forall q: string :: Elems(q) == Elems(p) && IsAbs(q) == IsAbs(p) ==> |p| <= |q|
  }

  /** All but the last element of the path resolve to a directory. */
  predicate ParentResolves(fs: Tree, cwd: nat, p: string) {
    && Elems(p) != []
    && var d := Resolve(fs, StartOf(cwd, p), Elems(p)[..|Elems(p)| - 1], MAX_SYMLINK_LOOPS - 1);
       d.Some? && d.value in fs && fs[d.value].Dir?
  }

  /** What filereadlink answers is written like that. */
  lemma AnswerIs(fs: Tree, cwd: nat, p: string, links: nat, last: bool)
    ensures var t := Meaning(fs, cwd, p, links, last);
            t.Some? && t.value.elems != [] ==> Shortest(Written(t.value)) && Elems(Written(t.value)) == t.value.elems
  {
    ElemsAreNames(p);
    FollowNames(fs, StartOf(cwd, p), IsAbs(p), [], Elems(p), links, last);
    var t := Meaning(fs, cwd, p, links, last);
    if t.Some? && t.value.elems != [] {
      WrittenShortest(t.value);
    }
  }

  /** `q` reaches `n` through directories only, and `n` is no link. */
  predicate LinkFree(fs: Tree, cwd: nat, q: string, n: nat) {
    Elems(q) != [] && Plain(fs, StartOf(cwd, q), Elems(q), n) && n in fs && !fs[n].Symlink?
  }

  /** All but the last element of `q` reach the directory `n`, none of them by a link. */
  predicate LinkFreeParent(fs: Tree, cwd: nat, q: string, n: nat) {
    && Elems(q) != [] && Plain(fs, StartOf(cwd, q), Elems(q)[..|Elems(q)| - 1], n)
    && n in fs && fs[n].Dir?
  }

  // ----- One pass over the path -----

  /** The result buffer after some elements of `orig`: they are plain and lead to `d`. */
  ghost predicate Scanned(fs: Tree, cwd: nat, orig: string, pre: string, rest: string, d: nat) {
    && IsPrefix(pre) && Elems(orig) == Elems(pre) + Elems(rest) && pre == Prefix(IsAbs(orig), Elems(pre))
    && (forall x: string :: IsName(x) ==> IsAbs(pre + x) == IsAbs(orig))
    && Plain(fs, StartOf(cwd, orig), Elems(pre), d) && d in fs && fs[d].Dir?
  }

  /** Looking up one more element. */
  lemma LookupNext(fs: Tree, cwd: nat, orig: string, pre: string, rest: string, d: nat, name: string)
    requires Scanned(fs, cwd, orig, pre, rest, d) && IsName(name)
    ensures Elems(pre + name) == Elems(pre) + [name] && IsAbs(pre + name) == IsAbs(orig)
    ensures Lookup(fs, cwd, pre + name) == Walk(fs, d, [name])
  {
    ElemsConcat(pre, name);
    NameElems(name, "");
    assert name + "" == name;
    PlainWalk(fs, StartOf(cwd, orig), Elems(pre), d, [name]);
  }

  /** Where the scan stands, seen from the meaning of the whole path. */
  lemma MeaningHere(fs: Tree, cwd: nat, orig: string, pre: string, rest: string, d: nat, links: nat, last: bool)
    requires Scanned(fs, cwd, orig, pre, rest, d) && Elems(rest) != []
    ensures Meaning(fs, cwd, orig, links, last) == Follow(fs, d, IsAbs(orig), Elems(pre), Elems(rest), links, last)
  {
    PlainFollow(fs, StartOf(cwd, orig), IsAbs(orig), [], Elems(pre), d, Elems(rest), links, last);
    assert [] + Elems(pre) == Elems(pre);
  }

  /** The path filereadlink goes on with after meeting a link. */
  function Spliced(pre: string, target: string, rest: string): string {
    var tail := if rest == "" then target else target + "/" + rest;
    if IsAbs(target) then tail else pre + tail
  }

  lemma TailElems(target: string, rest: string)
    ensures Elems(if rest == "" then target else target + "/" + rest) == Elems(target) + Elems(rest)
  {
    if rest != "" {
      ElemsConcat(target, "/" + rest);
      StripSlash(rest);
      assert target + "/" + rest == target + ("/" + rest);
    }
  }

  lemma SameStart(fs: Tree, cwd: nat, orig: string, pre: string, rest: string, d: nat, tail: string)
    requires Scanned(fs, cwd, orig, pre, rest, d) && tail != "" && tail[0] != '/'
    ensures IsAbs(pre + tail) == IsAbs(orig)
  {
    assert IsName("x");
    assert IsAbs(pre + "x") == IsAbs(orig);
  }

  /** A link with a relative target: the new path continues where the link was. */
  lemma RelativeRewrite(fs: Tree, cwd: nat, orig: string, pre: string, rest: string, d: nat, t: string, after: string,
                        links: nat, last: bool)
    requires Scanned(fs, cwd, orig, pre, rest, d) && t != "" && !IsAbs(t)
    ensures Meaning(fs, cwd, Spliced(pre, t, after), links, last)
         == Follow(fs, d, IsAbs(orig), Elems(pre), Elems(t) + Elems(after), links, last)
  {
    var tail := if after == "" then t else t + "/" + after;
    TailElems(t, after);
    ElemsConcat(pre, tail);
    SameStart(fs, cwd, orig, pre, rest, d, tail);
    assert Elems(t) != [];
    PlainFollow(fs, StartOf(cwd, orig), IsAbs(orig), [], Elems(pre), d, Elems(tail), links, last);
    assert [] + Elems(pre) == Elems(pre);
  }

  /** Rewriting at a link keeps the meaning, for one link less. */
  lemma RewriteKeepsMeaning(fs: Tree, cwd: nat, orig: string, pre: string, rest: string, d: nat, name: string,
                            after: string, n: nat, links: nat, last: bool)
    requires Scanned(fs, cwd, orig, pre, rest, d) && Elems(rest) == [name] + Elems(after) && Proper(fs, cwd)
    requires Walk(fs, d, [name]) == Some(n) && n in fs && fs[n].Symlink? && (last || Elems(after) != [])
    ensures Meaning(fs, cwd, orig, 0, last) == None
    ensures Meaning(fs, cwd, orig, links + 1, last) == Meaning(fs, cwd, Spliced(pre, fs[n].target, after), links, last)
  {
    var t := fs[n].target;
    MeaningHere(fs, cwd, orig, pre, rest, d, 0, last);
    MeaningHere(fs, cwd, orig, pre, rest, d, links + 1, last);
    assert ([name] + Elems(after))[1..] == Elems(after);
    TailElems(t, after);
    if !IsAbs(t) {
      RelativeRewrite(fs, cwd, orig, pre, rest, d, t, after, links, last);
    }
  }

  lemma InTree(fs: Tree, cwd: nat, d: nat, name: string, n: nat)
    requires Proper(fs, cwd) && Walk(fs, d, [name]) == Some(n)
    ensures n in fs
  {
    assert [name][1..] == [];
  }

  /** Appending a directory to the result buffer. */
  lemma ScanOn(fs: Tree, cwd: nat, orig: string, pre: string, left: string, d: nat, name: string, rest: string, n: nat)
    requires Scanned(fs, cwd, orig, pre, left, d) && Elems(left) == [name] + Elems(rest) && IsName(name)
    requires Plain(fs, d, [name], n) && n in fs && fs[n].Dir?
    ensures Scanned(fs, cwd, orig, pre + name + "/", rest, n)
  {
    LookupNext(fs, cwd, orig, pre, left, d, name);
    ElemsConcat(pre + name, "/");
    assert Elems("/") == [];
    Assoc(Elems(pre), [name], Elems(rest));
    assert Elems(pre + name + "/") == Elems(pre) + [name];
    assert (Elems(pre) + [name])[..|Elems(pre)|] == Elems(pre);
    PlainExtend(fs, StartOf(cwd, orig), Elems(pre), d, name, n);
    assert IsAbs(pre + name) == IsAbs(orig);
  }

  /** However many links may be followed, the path leads to `r`. */
  ghost predicate Means(fs: Tree, cwd: nat, p: string, last: bool, r: Option<Dest>) {
    forall links: nat :: Meaning(fs, cwd, p, links, last) == r
  }

  /** `p` takes one link less to rewrite than `orig`. */
  ghost predicate LinkStep(fs: Tree, cwd: nat, orig: string, p: string, last: bool) {
    && Meaning(fs, cwd, orig, 0, last) == None
    && forall links: nat {:trigger Meaning(fs, cwd, p, links, last)} ::
         Meaning(fs, cwd, orig, links + 1, last) == Meaning(fs, cwd, p, links, last)
  }

  /** The next element is a link. */
  lemma NextLink(fs: Tree, cwd: nat, orig: string, pre: string, left: string, d: nat, name: string, rest: string,
                 n: nat,
                 last: bool)
    requires Scanned(fs, cwd, orig, pre, left, d) && Elems(left) == [name] + Elems(rest) && Proper(fs, cwd)
    requires Walk(fs, d, [name]) == Some(n) && n in fs && fs[n].Symlink? && (last || Elems(rest) != [])
    ensures var p := Spliced(pre, fs[n].target, rest); p != "" && LinkStep(fs, cwd, orig, p, last)
  {
    var p := Spliced(pre, fs[n].target, rest);
    RewriteKeepsMeaning(fs, cwd, orig, pre, left, d, name, rest, n, 0, last);
    forall links: nat ensures Meaning(fs, cwd, orig, links + 1, last) == Meaning(fs, cwd, p, links, last) {
      RewriteKeepsMeaning(fs, cwd, orig, pre, left, d, name, rest, n, links, last);
    }
  }

  /** The next element does not exist. */
  lemma NextMissing(fs: Tree, cwd: nat, orig: string, pre: string, left: string, d: nat, name: string, rest: string,
                    last: bool)
    requires Scanned(fs, cwd, orig, pre, left, d) && Elems(left) == [name] + Elems(rest)
    requires Walk(fs, d, [name]) == None && (last || Elems(rest) != [])
    ensures Means(fs, cwd, orig, last, None)
  {
    forall links: nat ensures Meaning(fs, cwd, orig, links, last) == None {
      MeaningHere(fs, cwd, orig, pre, left, d, links, last);
    }
  }

  /** The next element is no link: the end of the path, or an element that only a directory
      may stand before. */
  lemma NextPlain(fs: Tree, cwd: nat, orig: string, pre: string, left: string, d: nat, name: string, rest: string,
                  n: nat,
                  last: bool)
    requires Scanned(fs, cwd, orig, pre, left, d) && Elems(left) == [name] + Elems(rest)
    requires Walk(fs, d, [name]) == Some(n) && n in fs && !fs[n].Symlink? && (last || Elems(rest) != [])
    ensures Plain(fs, d, [name], n)
    ensures Elems(rest) == [] ==> Means(fs, cwd, orig, last, Some(Dest(IsAbs(orig), Elems(pre) + [name], n)))
    ensures Elems(rest) != [] && !fs[n].Dir? ==> Means(fs, cwd, orig, last, None)
  {
    assert [name][1..] == [] && ([name] + Elems(rest))[1..] == Elems(rest);
    forall links: nat
      ensures Meaning(fs, cwd, orig, links, last)
           == Follow(fs, n, IsAbs(orig), Elems(pre) + [name], Elems(rest), links, last)
    {
      MeaningHere(fs, cwd, orig, pre, left, d, links, last);
    }
  }

  /** filereadlinki stops before the last element. */
  lemma LastUnseen(fs: Tree, cwd: nat, orig: string, pre: string, left: string, d: nat, name: string)
    requires Scanned(fs, cwd, orig, pre, left, d) && Elems(left) == [name] && IsName(name)
    ensures Means(fs, cwd, orig, false, Some(Dest(IsAbs(orig), Elems(pre) + [name], d)))
    ensures LinkFreeParent(fs, cwd, pre + name, d)
  {
    LookupNext(fs, cwd, orig, pre, left, d, name);
    assert (Elems(pre) + [name])[..|Elems(pre)|] == Elems(pre);
    forall links: nat ensures Meaning(fs, cwd, orig, links, false) == Some(Dest(IsAbs(orig), Elems(pre) + [name], d)) {
      MeaningHere(fs, cwd, orig, pre, left, d, links, false);
    }
  }

  /** The scan has reached the end of the path. */
  lemma EndReached(fs: Tree, cwd: nat, orig: string, pre: string, left: string, d: nat, name: string, n: nat)
    requires Scanned(fs, cwd, orig, pre, left, d) && IsName(name)
    requires Plain(fs, d, [name], n) && n in fs && !fs[n].Symlink?
    ensures LinkFree(fs, cwd, pre + name, n)
  {
    LookupNext(fs, cwd, orig, pre, left, d, name);
    PlainExtend(fs, StartOf(cwd, orig), Elems(pre), d, name, n);
  }

  lemma WrittenIs(abs: bool, es: seq<string>, name: string, n: nat)
    ensures Written(Dest(abs, es + [name], n)) == Prefix(abs, es) + name
  {
    assert (es + [name])[..|es|] == es;
  }

  datatype Pass = Done(t: Dest, path: string) | Failed | Rewritten(path: string)

  /** What a pass may end with. */
  ghost predicate PassOk(fs: Tree, cwd: nat, orig: string, last: bool, r: Pass) {
    match r {
      case Done(t, q) =>
        && q == Written(t) && Means(fs, cwd, orig, last, Some(t))
        && (if last then LinkFree(fs, cwd, q, t.inum) else LinkFreeParent(fs, cwd, q, t.inum))
      case Failed => Means(fs, cwd, orig, last, None)
      case Rewritten(p) => p != "" && LinkStep(fs, cwd, orig, p, last)
    }
  }

  datatype Turn = Ends(pass: Pass) | Continues(pre: string, left: string, d: nat)

  /** One turn of the loop, at an element that is looked up. */
  method ScanElem(fs: Tree, cwd: nat, orig: string, pre: string, ghost left: string, ghost d: nat, name: string,
                  rest: string, last: bool) returns (r: Turn)
    requires Proper(fs, cwd) && Scanned(fs, cwd, orig, pre, left, d) && Elems(left) == [name] + Elems(rest)
    requires IsName(name) && (rest == "" <==> Elems(rest) == []) && (last || rest != "")
    ensures r.Ends? ==> PassOk(fs, cwd, orig, last, r.pass)
    ensures r.Continues? ==> r.left == rest && rest != "" && Scanned(fs, cwd, orig, r.pre, rest, r.d)
  {
    LookupNext(fs, cwd, orig, pre, left, d, name);
    var ip := Namei(fs, cwd, pre + name);
    if ip.None? {
      NextMissing(fs, cwd, orig, pre, left, d, name, rest, last);
      return Ends(Failed);
    }
    var n := ip.value;
    InTree(fs, cwd, d, name, n);
    if fs[n].Symlink? {
      NextLink(fs, cwd, orig, pre, left, d, name, rest, n, last);
      return Ends(Rewritten(Spliced(pre, fs[n].target, rest)));
    }
    NextPlain(fs, cwd, orig, pre, left, d, name, rest, n, last);
    if rest == "" {
      EndReached(fs, cwd, orig, pre, left, d, name, n);
      WrittenIs(IsAbs(orig), Elems(pre), name, n);
      return Ends(Done(Dest(IsAbs(orig), Elems(pre) + [name], n), pre + name));
    }
    if !fs[n].Dir? {
      return Ends(Failed);
    }
    ScanOn(fs, cwd, orig, pre, left, d, name, rest, n);
    return Continues(pre + name + "/", rest, n);
  }

  /** filereadlink, or filereadlinki when not `last`, from `restart` to the next `goto restart`
      or return. */
  method ReadPass(fs: Tree, cwd: nat, orig: string, last: bool) returns (r: Pass)
    requires Proper(fs, cwd) && orig != ""
    ensures PassOk(fs, cwd, orig, last, r)
  {
    var pre := if orig[0] == '/' then "/" else "";
    var left := orig;
    var d := StartOf(cwd, orig);
    assert Elems("/") == [] && Elems("") == [];
    while true
      invariant Scanned(fs, cwd, orig, pre, left, d) && (Elems(left) == [] ==> Elems(pre) == [])
      decreases |left|
    {
      var s := SkipElem(left);
      if s.None? {
        return Failed;
      }
      var (name, rest) := s.value;
      if rest == "" && !last {
        LastUnseen(fs, cwd, orig, pre, left, d, name);
        WrittenIs(IsAbs(orig), Elems(pre), name, d);
        return Done(Dest(IsAbs(orig), Elems(pre) + [name], d), pre + name);
      }
      var turn := ScanElem(fs, cwd, orig, pre, left, d, name, rest, last);
      if turn.Ends? {
        return turn.pass;
      }
      pre, left, d := turn.pre, turn.left, turn.d;
    }
  }

  /** What the caller gets for a path that leads to `t`. */
  function Answer(t: Option<Dest>, bufsiz: nat): Option<string> {
    if t.Some? && |Written(t.value)| < bufsiz then Some(Written(t.value)) else None
  }

  /** The loop of filereadlink over its passes; `last` is false for filereadlinki.  The answer
      is the path that the original one leads to with at most 15 links rewritten, when there is
      one and it fits the buffer, and a failure otherwise. */
  method ReadLinks(fs: Tree, cwd: nat, path: string, bufsiz: nat, last: bool) returns (r: Option<string>)
    requires Proper(fs, cwd)
    ensures r == if path == "/" then Some("/") else Answer(Meaning(fs, cwd, path, MAX_SYMLINK_LOOPS - 1, last), bufsiz)
    ensures path != "/" && r.Some? && last ==>
              LinkFree(fs, cwd, r.value, Meaning(fs, cwd, path, MAX_SYMLINK_LOOPS - 1, last).value.inum)
    ensures path != "/" && r.Some? && !last ==>
              LinkFreeParent(fs, cwd, r.value, Meaning(fs, cwd, path, MAX_SYMLINK_LOOPS - 1, last).value.inum)
  {
    if path == "" {
      return None;
    }
    if path == "/" {
      return Some("/");
    }
    var loopsLeft := MAX_SYMLINK_LOOPS;
    var orig := path;
    while true
      invariant 0 < loopsLeft <= MAX_SYMLINK_LOOPS && orig != ""
      invariant Meaning(fs, cwd, orig, loopsLeft - 1, last) == Meaning(fs, cwd, path, MAX_SYMLINK_LOOPS - 1, last)
      decreases loopsLeft
    {
      var pass := ReadPass(fs, cwd, orig, last);
      match pass {
        case Done(t, q) =>
          if bufsiz < |q| + 1 {
            return None;
          }
          return Some(q);
        case Failed =>
          return None;
        case Rewritten(p) =>
          loopsLeft := loopsLeft - 1;
          if loopsLeft == 0 {
            return None;
          }
          orig := p;
      }
    }
  }

  /** filereadlink: the answer has no link on it, and namei reaches from it the inode that the
      path resolves to.  Some answer is given exactly when the path resolves within 15 links,
      has an element, does not end bare, and the path written fits the buffer. */
  method FileReadlink(fs: Tree, cwd: nat, path: string, bufsiz: nat) returns (r: Option<string>)
    requires Proper(fs, cwd)
    ensures path == "/" ==> r == Some("/")
    ensures path != "/" ==> r == Answer(Meaning(fs, cwd, path, MAX_SYMLINK_LOOPS - 1, true), bufsiz)
    ensures path != "/" && r.Some? ==> exists n: nat ::
              && LinkFree(fs, cwd, r.value, n) && Lookup(fs, cwd, r.value) == Some(n)
              && Resolve(fs, StartOf(cwd, path), Elems(path), MAX_SYMLINK_LOOPS - 1) == Some(n)
    ensures path != "/" && r.Some? ==> |r.value| < bufsiz && Shortest(r.value)
    ensures path != "/" && r.None? ==>
              || Resolve(fs, StartOf(cwd, path), Elems(path), MAX_SYMLINK_LOOPS - 1) == None
              || Elems(path) == [] || EndsBare(fs, StartOf(cwd, path), Elems(path), MAX_SYMLINK_LOOPS - 1)
              || (var t := Meaning(fs, cwd, path, MAX_SYMLINK_LOOPS - 1, true);
                  t.Some? && bufsiz <= |Written(t.value)|)
  {
    r := ReadLinks(fs, cwd, path, bufsiz, true);
    AnswerIs(fs, cwd, path, MAX_SYMLINK_LOOPS - 1, true);
    MeaningAgrees(fs, cwd, path, MAX_SYMLINK_LOOPS - 1);
    if path != "/" && r.Some? {
      ghost var n := Meaning(fs, cwd, path, MAX_SYMLINK_LOOPS - 1, true).value.inum;
      PlainWalk(fs, StartOf(cwd, r.value), Elems(r.value), n, []);
      assert Elems(r.value) + [] == Elems(r.value);
    }
  }

  /** filereadlinki: the answer's last element, in the directory that the others lead to without
      a link, means what the path means. */
  method FileReadlinkI(fs: Tree, cwd: nat, path: string, bufsiz: nat) returns (r: Option<string>, ghost k: nat)
    requires Proper(fs, cwd)
    ensures path == "/" ==> r == Some("/")
    ensures path != "/" ==> r == Answer(Meaning(fs, cwd, path, MAX_SYMLINK_LOOPS - 1, false), bufsiz)
    ensures path != "/" && r.Some? ==>
              var t := Meaning(fs, cwd, path, MAX_SYMLINK_LOOPS - 1, false).value;
              && LinkFreeParent(fs, cwd, r.value, t.inum) && t.elems != [] && k < MAX_SYMLINK_LOOPS
              && Resolve(fs, StartOf(cwd, path), Elems(path), MAX_SYMLINK_LOOPS - 1)
                 == Resolve(fs, t.inum, [Last(t.elems)], k)
    ensures path != "/" && r.Some? ==> |r.value| < bufsiz && Shortest(r.value)
    ensures path != "/" && r.Some? ==> Last(Elems(r.value)) == Last(Elems(path))
    ensures path != "/" ==>
              (Meaning(fs, cwd, path, MAX_SYMLINK_LOOPS - 1, false).Some? <==> ParentResolves(fs, cwd, path))
  {
    r := ReadLinks(fs, cwd, path, bufsiz, false);
    k := 0;
    if Elems(path) != [] {
      ParentIff(fs, StartOf(cwd, path), IsAbs(path), [], Elems(path), MAX_SYMLINK_LOOPS - 1);
      AnswerIs(fs, cwd, path, MAX_SYMLINK_LOOPS - 1, false);
    }
    if path != "/" && r.Some? {
      k := ParentAgrees(fs, StartOf(cwd, path), IsAbs(path), [], Elems(path), MAX_SYMLINK_LOOPS - 1);
    }
  }
}
