/** Path names and symbolic links (fs.c: skipelem, namex, filereadlink).

    A path is a string; its elements are the maximal runs of characters other than '/'.
    `Walk` is what namex computes, which follows no links.  `Resolve` is the meaning of a
    path when links are followed, each one by splicing its target into the rest of the
    walk.  filereadlink rewrites the path string until no link is left on it. */
module Names {
  import opened Options

  datatype Node = Dir(entries: map<string, nat>) | File | Device | Symlink(target: string)

  type Tree = map<nat, Node>

  const ROOTINO := 1

  /** Walks start at directories, entries name existing inodes, a link's target is not empty. */
  predicate Proper(fs: Tree, cwd: nat) {
    && ROOTINO in fs && fs[ROOTINO].Dir? && cwd in fs && fs[cwd].Dir?
    && (forall i, e :: i in fs && fs[i].Dir? && e in fs[i].entries ==> fs[i].entries[e] in fs)
    && (forall i :: i in fs && fs[i].Symlink? ==> fs[i].target != "")
  }

  // ----- Strings -----

  function Strip(p: string): (r: string)
    ensures |r| <= |p| && (r != "" ==> r[0] != '/')
  {
    if p != "" && p[0] == '/' then Strip(p[1..]) else p
  }

  /** Length of the first element of a path without leading slashes. */
  function NameLen(p: string): (n: nat)
    ensures n <= |p| && (p != "" && p[0] != '/' ==> 0 < n)
  {
    if p == "" || p[0] == '/' then 0 else 1 + NameLen(p[1..])
  }

  function Elems(p: string): seq<string>
    decreases |p|
  {
    var s := Strip(p);
    if s == "" then [] else [s[..NameLen(s)]] + Elems(s[NameLen(s)..])
  }

  lemma StripSlash(p: string)
    ensures Elems("/" + p) == Elems(p) && Elems(Strip(p)) == Elems(p)
  {
    assert ("/" + p)[1..] == p;
    StripTwice(p);
  }

  lemma {:induction false} StripTwice(p: string)
    ensures Strip(Strip(p)) == Strip(p)
  {
    if p != "" && p[0] == '/' {
      StripTwice(p[1..]);
    }
  }

  /** A string that is one element. */
  predicate IsName(n: string) {
    n != "" && '/' !in n
  }

  lemma {:induction false} NameLenOfName(n: string, q: string)
    requires '/' !in n && (q == "" || q[0] == '/')
    ensures NameLen(n + q) == |n|
  {
    if n == "" {
      assert n + q == q;
    } else {
      assert (n + q)[1..] == n[1..] + q;
      NameLenOfName(n[1..], q);
    }
  }

  lemma {:induction false} FirstName(s: string)
    requires s != "" && s[0] != '/'
    ensures IsName(s[..NameLen(s)]) && (s[NameLen(s)..] == "" || s[NameLen(s)..][0] == '/')
  {
    assert 0 < NameLen(s);
    if s[1..] != "" && s[1] != '/' {
      FirstName(s[1..]);
      assert s[..NameLen(s)] == [s[0]] + s[1..][..NameLen(s[1..])];
      assert s[NameLen(s)..] == s[1..][NameLen(s[1..])..];
    } else {
      assert NameLen(s[1..]) == 0;
      assert s[..NameLen(s)] == [s[0]];
    }
  }

  lemma NameElems(n: string, q: string)
    requires IsName(n) && (q == "" || q[0] == '/')
    ensures Elems(n + q) == [n] + Elems(q)
  {
    NameLenOfName(n, q);
    assert (n + q)[..|n|] == n && (n + q)[|n|..] == q;
  }

  /** Nothing, or something that ends in a slash: what can stand before more elements. */
  predicate IsPrefix(p: string) {
    p == "" || p[|p| - 1] == '/'
  }

  lemma ConcatAfterSlash(p: string, q: string)
    requires Elems(p + q) == Elems(p) + Elems(q)
    ensures Elems(("/" + p) + q) == Elems("/" + p) + Elems(q)
  {
    assert ("/" + p) + q == "/" + (p + q);
    StripSlash(p);
    StripSlash(p + q);
  }

  lemma Assoc(a: seq<string>, b: seq<string>, c: seq<string>)
    ensures (a + b) + c == a + (b + c)
  {
  }

  lemma ConcatAfterName(n: string, r: string, q: string)
    requires IsName(n) && (r == "" || r[0] == '/') && (r + q == "" || (r + q)[0] == '/')
    requires Elems(r + q) == Elems(r) + Elems(q)
    ensures Elems((n + r) + q) == Elems(n + r) + Elems(q)
  {
    assert (n + r) + q == n + (r + q);
    NameElems(n, r + q);
    NameElems(n, r);
    Assoc([n], Elems(r), Elems(q));
  }

  /** Elements of a concatenation at a slash. */
  lemma {:induction false} ElemsConcat(p: string, q: string)
    requires IsPrefix(p) || q == "" || q[0] == '/'
    ensures Elems(p + q) == Elems(p) + Elems(q)
    decreases |p|
  {
    if p == "" {
      assert p + q == q;
    } else if p[0] == '/' {
      assert p == "/" + p[1..];
      ElemsConcat(p[1..], q);
      ConcatAfterSlash(p[1..], q);
    } else {
      FirstName(p);
      var n, r := p[..NameLen(p)], p[NameLen(p)..];
      assert p == n + r;
      if r == "" {
        assert p == n;
        assert r + q == q;
      } else {
        assert r[|r| - 1] == p[|p| - 1];
        ElemsConcat(r, q);
      }
      ConcatAfterName(n, r, q);
    }
  }

  predicate AllNames(es: seq<string>) {
    forall i :: 0 <= i < |es| ==> IsName(es[i])
  }

  lemma {:induction false} ElemsAreNames(p: string)
    ensures AllNames(Elems(p))
    decreases |p|
  {
    var s := Strip(p);
    if s != "" {
      FirstName(s);
      ElemsAreNames(s[NameLen(s)..]);
    }
  }

  /** The characters of all elements. */
  function TotalLen(es: seq<string>): nat {
    if es == [] then 0 else |es[0]| + TotalLen(es[1..])
  }

  lemma {:induction false} TotalLast(es: seq<string>, e: string)
    ensures TotalLen(es + [e]) == TotalLen(es) + |e|
  {
    if es == [] {
      assert [e][1..] == [] && es + [e] == [e];
    } else {
      assert (es + [e])[1..] == es[1..] + [e];
      TotalLast(es[1..], e);
    }
  }

  /** A path has its elements, a slash between any two, and one before them if it is absolute. */
  lemma {:induction false} AtLeast(p: string)
    requires Elems(p) != []
    ensures |p| >= TotalLen(Elems(p)) + |Elems(p)| - 1 + if IsAbs(p) then 1 else 0
    decreases |p|
  {
    if p[0] == '/' {
      assert p == "/" + p[1..];
      StripSlash(p[1..]);
      AtLeast(p[1..]);
    } else {
      FirstName(p);
      var n, r := p[..NameLen(p)], p[NameLen(p)..];
      assert Strip(p) == p && Elems(p) == [n] + Elems(r) && Elems(p)[1..] == Elems(r);
      if Elems(r) != [] {
        AtLeast(r);
      }
    }
  }

  // ----- Walking -----

  predicate IsAbs(p: string) {
    p != "" && p[0] == '/'
  }

  function StartOf(cwd: nat, p: string): nat {
    if IsAbs(p) then ROOTINO else cwd
  }

  /** namex on elements: directories only, no link is followed. */
  function Walk(fs: Tree, d: nat, es: seq<string>): Option<nat>
    decreases |es|
  {
    if es == [] then Some(d)
    else if d in fs && fs[d].Dir? && es[0] in fs[d].entries then Walk(fs, fs[d].entries[es[0]], es[1..])
    else None
  }

  /** namei(path) */
  function Lookup(fs: Tree, cwd: nat, p: string): Option<nat> {
    Walk(fs, StartOf(cwd, p), Elems(p))
  }

  /** The inode that `es` names from directory `d` when at most `links` links are followed. */
  function Resolve(fs: Tree, d: nat, es: seq<string>, links: nat): Option<nat>
    decreases links, |es|
  {
    if es == [] then Some(d)
    else if !(d in fs && fs[d].Dir? && es[0] in fs[d].entries) then None
    else
      var n := fs[d].entries[es[0]];
      if n in fs && fs[n].Symlink? then
        if links == 0 then None
        else Resolve(fs, StartOf(d, fs[n].target), Elems(fs[n].target) + es[1..], links - 1)
      else Resolve(fs, n, es[1..], links)
  }

  // ----- Where a path leads when links are rewritten -----

  /** A path without links: from the root or the working directory, these elements.  `inum`
      is the inode they lead to, or the directory of the last one when that was not looked
      at. */
  datatype Dest = Dest(abs: bool, elems: seq<string>, inum: nat)

  /** `done` has been walked and leads to `d`; `es` is still to go.  A link is replaced by its
      target: from the root when that is absolute, else from where the link is.  Nothing may
      be left without an element.  `last` says whether the last element is looked at. */
  function Follow(fs: Tree, d: nat, abs: bool, done: seq<string>, es: seq<string>, links: nat, last: bool): Option<Dest>
    decreases links, |es|
  {
    if es == [] then Some(Dest(abs, done, d))
    else if !(d in fs && fs[d].Dir?) then None
    else if !last && |es| == 1 then Some(Dest(abs, done + es, d))
    else if es[0] !in fs[d].entries then None
    else
      var n := fs[d].entries[es[0]];
      if n in fs && fs[n].Symlink? then
        var next := Elems(fs[n].target) + es[1..];
        if links == 0 || next == [] then None
        else if IsAbs(fs[n].target) then Follow(fs, ROOTINO, true, [], next, links - 1, last)
        else Follow(fs, d, abs, done, next, links - 1, last)
      else Follow(fs, n, abs, done + [es[0]], es[1..], links, last)
  }

  /** What a path means to filereadlink, or to filereadlinki when not `last`. */
  function Meaning(fs: Tree, cwd: nat, p: string, links: nat, last: bool): Option<Dest> {
    if Elems(p) == [] then None else Follow(fs, StartOf(cwd, p), IsAbs(p), [], Elems(p), links, last)
  }

  /** The last thing the walk meets is a link to nothing but slashes. */
  predicate EndsBare(fs: Tree, d: nat, es: seq<string>, links: nat)
    decreases links, |es|
  {
    && es != [] && d in fs && fs[d].Dir? && es[0] in fs[d].entries
    && var n := fs[d].entries[es[0]];
       if n in fs && fs[n].Symlink? then
         var next := Elems(fs[n].target) + es[1..];
         links > 0 && (next == [] || EndsBare(fs, StartOf(d, fs[n].target), next, links - 1))
       else EndsBare(fs, n, es[1..], links)
  }

  /** Rewriting leads where resolving leads, except on walks that end bare. */
  lemma {:induction false} FollowAgrees(fs: Tree, d: nat, abs: bool, done: seq<string>, es: seq<string>, links: nat)
    ensures var t := Follow(fs, d, abs, done, es, links, true);
            && (t.None? <==> Resolve(fs, d, es, links) == None || EndsBare(fs, d, es, links))
            && (t.Some? ==> Resolve(fs, d, es, links) == Some(t.value.inum))
    decreases links, |es|
  {
    if es != [] && d in fs && fs[d].Dir? && es[0] in fs[d].entries {
      var n := fs[d].entries[es[0]];
      if n in fs && fs[n].Symlink? {
        if links > 0 {
          var next := Elems(fs[n].target) + es[1..];
          if IsAbs(fs[n].target) {
            FollowAgrees(fs, ROOTINO, true, [], next, links - 1);
          } else {
            FollowAgrees(fs, d, abs, done, next, links - 1);
          }
        }
      } else {
        FollowAgrees(fs, n, abs, done + [es[0]], es[1..], links);
      }
    }
  }

  /** filereadlink fails to rewrite a path that resolves exactly when the path has no element
      or its walk ends bare. */
  lemma MeaningAgrees(fs: Tree, cwd: nat, p: string, links: nat)
    ensures var t := Meaning(fs, cwd, p, links, true); var n := Resolve(fs, StartOf(cwd, p), Elems(p), links);
            && (t.None? <==> n == None || Elems(p) == [] || EndsBare(fs, StartOf(cwd, p), Elems(p), links))
            && (t.Some? ==> n == Some(t.value.inum))
  {
    FollowAgrees(fs, StartOf(cwd, p), IsAbs(p), [], Elems(p), links);
  }

  function Last(es: seq<string>): string
    requires es != []
  {
    es[|es| - 1]
  }

  /** Without the last element: the path means what that element means in the directory
      reached, and when none is reached it means nothing. */
  lemma {:induction false} ParentAgrees(fs: Tree, d: nat, abs: bool, done: seq<string>, es: seq<string>, links: nat)
    returns (k: nat)
    requires es != []
    ensures k <= links
    ensures var t := Follow(fs, d, abs, done, es, links, false);
            && (t.None? ==> Resolve(fs, d, es, links) == None)
            && (t.Some? ==> t.value.elems != [] &&
                            Resolve(fs, d, es, links) == Resolve(fs, t.value.inum, [Last(t.value.elems)], k))
    decreases links, |es|
  {
    k := links;
    if d in fs && fs[d].Dir? {
      if |es| == 1 {
        assert es == [es[0]] && Last(done + es) == es[0];
      } else if es[0] in fs[d].entries {
        var n := fs[d].entries[es[0]];
        if n in fs && fs[n].Symlink? {
          if links > 0 {
            var next := Elems(fs[n].target) + es[1..];
            if IsAbs(fs[n].target) {
              k := ParentAgrees(fs, ROOTINO, true, [], next, links - 1);
            } else {
              k := ParentAgrees(fs, d, abs, done, next, links - 1);
            }
          }
        } else {
          k := ParentAgrees(fs, n, abs, done + [es[0]], es[1..], links);
        }
      }
    }
  }

  /** Without the last element, exactly: a directory is reached if and only if the other elements
      resolve to one, it is that one, and the last element stays. */
  lemma {:induction false} ParentIff(fs: Tree, d: nat, abs: bool, done: seq<string>, es: seq<string>, links: nat)
    requires es != []
    ensures var t, p := Follow(fs, d, abs, done, es, links, false), Resolve(fs, d, es[..|es| - 1], links);
            && (t.Some? <==> p.Some? && p.value in fs && fs[p.value].Dir?)
            && (t.Some? ==> t.value.inum == p.value && t.value.elems != [] && Last(t.value.elems) == Last(es))
    decreases links, |es|
  {
    var most := es[..|es| - 1];
    if |es| == 1 {
      assert most == [] && Last(done + es) == Last(es);
    } else if d in fs && fs[d].Dir? && es[0] in fs[d].entries {
      assert most[0] == es[0] && most[1..] == es[1..][..|es[1..]| - 1] && Last(es[1..]) == Last(es);
      var n := fs[d].entries[es[0]];
      if n in fs && fs[n].Symlink? {
        if links > 0 {
          var next := Elems(fs[n].target) + es[1..];
          assert next[..|next| - 1] == Elems(fs[n].target) + most[1..] && Last(next) == Last(es);
          if IsAbs(fs[n].target) {
            ParentIff(fs, ROOTINO, true, [], next, links - 1);
          } else {
            ParentIff(fs, d, abs, done, next, links - 1);
          }
        }
      } else {
        ParentIff(fs, n, abs, done + [es[0]], es[1..], links);
      }
    }
  }

  lemma {:induction false} FollowNames(fs: Tree, d: nat, abs: bool, done: seq<string>, es: seq<string>, links: nat,
                                       last: bool)
    requires AllNames(done) && AllNames(es)
    ensures var t := Follow(fs, d, abs, done, es, links, last); t.Some? ==> AllNames(t.value.elems)
    decreases links, |es|
  {
    if es != [] && d in fs && fs[d].Dir? && !(!last && |es| == 1) && es[0] in fs[d].entries {
      var n := fs[d].entries[es[0]];
      if n in fs && fs[n].Symlink? {
        if links > 0 {
          ElemsAreNames(fs[n].target);
          var next := Elems(fs[n].target) + es[1..];
          if IsAbs(fs[n].target) {
            FollowNames(fs, ROOTINO, true, [], next, links - 1, last);
          } else {
            FollowNames(fs, d, abs, done, next, links - 1, last);
          }
        }
      } else {
        FollowNames(fs, n, abs, done + [es[0]], es[1..], links, last);
      }
    }
  }

  /** Two paths that resolve to the root but not for filereadlink: one without an element, and
      one that ends in a link to "/". */
  lemma BarePaths() returns (fs: Tree)
    ensures Proper(fs, ROOTINO)
    ensures Resolve(fs, ROOTINO, Elems("//"), 1) == Some(ROOTINO) && Meaning(fs, ROOTINO, "//", 1, true) == None
    ensures Resolve(fs, ROOTINO, Elems("/l"), 1) == Some(ROOTINO) && Meaning(fs, ROOTINO, "/l", 1, true) == None
  {
    fs := map[ROOTINO := Dir(map["l" := 2]), 2 := Symlink("/")];
    assert "//"[1..] == "/" && "/"[1..] == "";
    assert Elems("/") == [] && Strip("//") == Strip("/");
    assert "/l" == "/" + "l" && "l" + "" == "l";
    StripSlash("l");
    NameElems("l", "");
    assert ["l"][1..] == [];
    assert Resolve(fs, ROOTINO, [], 0) == Some(ROOTINO);
  }

  /** `es` leads from `d` to `x` through directories, none of them reached by a link. */
  predicate Plain(fs: Tree, d: nat, es: seq<string>, x: nat)
    decreases |es|
  {
    if es == [] then d == x
    else
      && d in fs && fs[d].Dir? && es[0] in fs[d].entries
      && !(fs[d].entries[es[0]] in fs && fs[fs[d].entries[es[0]]].Symlink?)
      && Plain(fs, fs[d].entries[es[0]], es[1..], x)
  }

  /** namex walks over plain elements. */
  lemma {:induction false} PlainWalk(fs: Tree, d: nat, a: seq<string>, x: nat, b: seq<string>)
    requires Plain(fs, d, a, x)
    ensures Walk(fs, d, a + b) == Walk(fs, x, b)
    decreases |a|
  {
    if a == [] {
      assert a + b == b;
    } else {
      assert (a + b)[1..] == a[1..] + b;
      PlainWalk(fs, fs[d].entries[a[0]], a[1..], x, b);
    }
  }

  /** So does rewriting. */
  lemma {:induction false} PlainFollow(fs: Tree, d: nat, abs: bool, done: seq<string>, a: seq<string>, x: nat,
                                       b: seq<string>, links: nat, last: bool)
    requires Plain(fs, d, a, x) && b != []
    ensures Follow(fs, d, abs, done, a + b, links, last) == Follow(fs, x, abs, done + a, b, links, last)
    decreases |a|
  {
    if a == [] {
      assert a + b == b && done + a == done;
    } else {
      assert (a + b)[1..] == a[1..] + b && (done + [a[0]]) + a[1..] == done + a;
      PlainFollow(fs, fs[d].entries[a[0]], abs, done + [a[0]], a[1..], x, b, links, last);
    }
  }

  lemma {:induction false} PlainExtend(fs: Tree, d: nat, a: seq<string>, x: nat, e: string, y: nat)
    requires Plain(fs, d, a, x) && Plain(fs, x, [e], y)
    ensures Plain(fs, d, a + [e], y)
    decreases |a|
  {
    if a == [] {
      assert a + [e] == [e];
    } else {
      assert (a + [e])[1..] == a[1..] + [e];
      PlainExtend(fs, fs[d].entries[a[0]], a[1..], x, e, y);
    }
  }
}
