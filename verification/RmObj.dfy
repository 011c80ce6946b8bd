/** lib/rmobj.c: removing a file or a whole directory tree.

    The file system is the set of its directories and the set of its other entries.  Which
    calls fail is a parameter: entries that refuse to be removed, directories that open(2)
    fails on, and directories it opens but opendir(3) does not. */
module RmObj {

  type Path = seq<string>

  datatype FS = FS(dirs: set<Path>, files: set<Path>)
  datatype Denials = Denials(refused: set<Path>, closed: set<Path>, unlisted: set<Path>)

  function Entries(fs: FS): set<Path> { fs.dirs + fs.files }

  /** There is a root, and what an entry lies under is a directory. */
  ghost predicate WF(fs: FS) {
    [] in fs.dirs && fs.dirs !! fs.files && forall q, r :: q in Entries(fs) && r < q ==> r in fs.dirs
  }

  function Under(fs: FS, p: Path): set<Path> { set q | q in Entries(fs) && p <= q }

  function Kids(fs: FS, p: Path): set<Path> { set q | q in Entries(fs) && p <= q && |q| == |p| + 1 }

  // ---------------------------------------------------------------- what survives

  /** A directory whose contents cannot be reached. */
  predicate Barred(d: Denials, fs: FS, x: Path) {
    x in fs.dirs && (x in d.closed || (x in d.unlisted && Kids(fs, x) != {}))
  }

  predicate Cause(d: Denials, fs: FS, x: Path) { x in Entries(fs) && (x in d.refused || Barred(d, fs, x)) }

  /** x keeps q alive: x cannot be removed and lies under q, or q lies in x, which is barred. */
  predicate Keeps(d: Denials, fs: FS, x: Path, q: Path) { Cause(d, fs, x) && (q <= x || (x <= q && Barred(d, fs, x))) }

  ghost predicate Survives(d: Denials, fs: FS, p: Path, q: Path) { exists x :: x in Under(fs, p) && Keeps(d, fs, x, q) }

  /** The file system less what is removed under p. */
  ghost function Removed(d: Denials, fs: FS, p: Path): FS { Less(fs, Gone(d, fs, p)) }

  ghost function Gone(d: Denials, fs: FS, p: Path): set<Path> { set q | q in Under(fs, p) && !Survives(d, fs, p, q) }

  function Less(fs: FS, gone: set<Path>): FS { FS(fs.dirs - gone, fs.files - gone) }

  /** Nothing under p stands in the way. */
  ghost predicate Clear(d: Denials, fs: FS, p: Path) {
    p in Entries(fs) && forall x :: x in Under(fs, p) ==> !Cause(d, fs, x)
  }

  lemma Comparable(a: Path, b: Path, q: Path)
    requires a <= q && b <= q
    ensures a <= b || b <= a
  {
    if |a| <= |b| {
      assert a == q[..|a|] == b[..|a|];
    } else {
      assert b == q[..|b|] == a[..|b|];
    }
  }

  lemma Apart(c: Path, e: Path, q: Path)
    requires c <= q && |c| == |e| && c != e
    ensures !(e <= q)
  {
    assert c == q[..|c|];
  }

  lemma Proper(p: Path, q: Path)
    ensures p <= q ==> p == q || p < q
  {
    if |p| == |q| && p <= q { assert p == q[..|p|] == q; }
  }

  lemma SurvivesUp(d: Denials, fs: FS, p: Path, q: Path, r: Path)
    requires Survives(d, fs, p, q) && p <= r <= q
    ensures Survives(d, fs, p, r)
  {
    var x :| x in Under(fs, p) && Keeps(d, fs, x, q);
    if x <= q { Comparable(r, x, q); }
    assert Keeps(d, fs, x, r);
  }

  /** What remains is again a file system. */
  lemma RemovedWF(d: Denials, fs: FS, p: Path)
    requires WF(fs) && p != []
    ensures WF(Removed(d, fs, p))
  {
    var g := Removed(d, fs, p);
    assert [] !in Under(fs, p);
    forall q, r | q in Entries(g) && r < q ensures r in g.dirs {
      if p <= r {
        assert p <= q;
        SurvivesUp(d, fs, p, q, r);
      }
    }
  }

  /** Everything goes exactly when nothing stands in the way; p itself stays otherwise. */
  lemma GoneExactly(d: Denials, fs: FS, p: Path)
    requires WF(fs) && p in Entries(fs)
    ensures Clear(d, fs, p) <==> Under(Removed(d, fs, p), p) == {}
    ensures Clear(d, fs, p) <==> p !in Entries(Removed(d, fs, p))
  {
    var g := Removed(d, fs, p);
    if Clear(d, fs, p) {
      forall q | q in Under(fs, p) ensures !Survives(d, fs, p, q) {
      }
    } else {
      var x :| x in Under(fs, p) && Cause(d, fs, x);
      assert Keeps(d, fs, x, p);
      assert p in Under(g, p);
    }
  }

  // ---------------------------------------------------------------- one child after the other

  /** Two file systems agree from c down. */
  ghost predicate Agree(fs: FS, g: FS, c: Path) {
    forall q :: c <= q ==> (q in fs.dirs <==> q in g.dirs) && (q in fs.files <==> q in g.files)
  }

  lemma AgreeKids(fs: FS, g: FS, c: Path, x: Path)
    requires Agree(fs, g, c) && c <= x
    ensures Kids(fs, x) == Kids(g, x)
  {
    forall q ensures q in Kids(fs, x) <==> q in Kids(g, x) {
      if x <= q { assert c <= q; }
    }
  }

  lemma AgreeKeeps(d: Denials, fs: FS, g: FS, c: Path, x: Path, q: Path)
    requires Agree(fs, g, c) && c <= x
    ensures Keeps(d, fs, x, q) <==> Keeps(d, g, x, q)
    ensures Cause(d, fs, x) <==> Cause(d, g, x)
    ensures x in Under(fs, c) <==> x in Under(g, c)
  {
    AgreeKids(fs, g, c, x);
  }

  lemma AgreeSurvives(d: Denials, fs: FS, g: FS, c: Path, q: Path)
    requires Agree(fs, g, c)
    ensures Survives(d, fs, c, q) <==> Survives(d, g, c, q)
  {
    hide Keeps;
    if Survives(d, fs, c, q) {
      var x :| x in Under(fs, c) && Keeps(d, fs, x, q);
      AgreeKeeps(d, fs, g, c, x, q);
    }
    if Survives(d, g, c, q) {
      var x :| x in Under(g, c) && Keeps(d, g, x, q);
      AgreeKeeps(d, fs, g, c, x, q);
    }
  }

  lemma AgreeClear(d: Denials, fs: FS, g: FS, c: Path)
    requires Agree(fs, g, c)
    ensures Clear(d, fs, c) <==> Clear(d, g, c)
  {
    forall x | c <= x ensures (Cause(d, fs, x) <==> Cause(d, g, x)) && (x in Under(fs, c) <==> x in Under(g, c)) {
      AgreeKeeps(d, fs, g, c, x, x);
    }
  }

  /** What the removal of the children in done takes away. */
  ghost function GoneBelow(d: Denials, fs: FS, done: set<Path>): set<Path> {
    set c, q | c in done && q in Under(fs, c) && !Survives(d, fs, c, q) :: q
  }

  ghost predicate Siblings(done: set<Path>, n: nat) { forall c :: c in done ==> |c| == n }

  lemma UntouchedBelow(d: Denials, fs: FS, done: set<Path>, c: Path)
    requires Siblings(done, |c|) && c !in done
    ensures Agree(fs, Less(fs, GoneBelow(d, fs, done)), c)
  {
    hide Survives;
    forall q | c <= q ensures q !in GoneBelow(d, fs, done) {
      forall e | e in done ensures !(e <= q) { Apart(c, e, q); }
    }
  }

  /** Removing one more child. */
  lemma OneMore(d: Denials, fs: FS, done: set<Path>, c: Path)
    requires Siblings(done, |c|) && c !in done
    ensures var g := Less(fs, GoneBelow(d, fs, done));
      Removed(d, g, c) == Less(fs, GoneBelow(d, fs, done + {c}))
  {
    hide Survives;
    var g := Less(fs, GoneBelow(d, fs, done));
    UntouchedBelow(d, fs, done, c);
    var here := Gone(d, g, c);
    forall q ensures q in GoneBelow(d, fs, done + {c}) <==> q in GoneBelow(d, fs, done) || q in here {
      AgreeSurvives(d, fs, g, c, q);
      assert q in Under(fs, c) <==> q in Under(g, c);
    }
    assert Less(g, here) == Less(fs, GoneBelow(d, fs, done + {c}));
  }

  /** Below a directory that was listed, an entry survives as it does below its child. */
  lemma SurvivesBelow(d: Denials, fs: FS, p: Path, c: Path, q: Path)
    requires WF(fs) && !Barred(d, fs, p) && c in Kids(fs, p) && c <= q
    ensures Survives(d, fs, p, q) <==> Survives(d, fs, c, q)
  {
    if Survives(d, fs, c, q) {
      var x :| x in Under(fs, c) && Keeps(d, fs, x, q);
      assert x in Under(fs, p);
    }
    if Survives(d, fs, p, q) {
      var x :| x in Under(fs, p) && Keeps(d, fs, x, q);
      if x <= q {
        Comparable(c, x, q);
        if x <= c && x != c { ProperPrefix(p, x, c); }
      }
      assert x in Under(fs, c);
    }
  }

  lemma ProperPrefix(p: Path, x: Path, c: Path)
    requires p <= x <= c && x != c && |c| == |p| + 1
    ensures x == p
  {
    assert x == c[..|x|] && p == c[..|p|] && c == c[..|c|];
  }

  /** The child an entry below p lies in. */
  lemma ChildOf(fs: FS, p: Path, q: Path) returns (c: Path)
    requires WF(fs) && q in Under(fs, p) && q != p
    ensures c in Kids(fs, p) && c <= q
  {
    assert p == q[..|p|] && q == q[..|q|];
    c := q[..|p| + 1];
    assert p == q[..|p|] == c[..|p|];
    if c != q { assert c < q; }
  }

  /** When every child is done, all that may still go is the directory itself. */
  lemma AllBelow(d: Denials, fs: FS, p: Path)
    requires WF(fs) && p in fs.dirs && !Barred(d, fs, p)
    ensures var g := Less(fs, GoneBelow(d, fs, Kids(fs, p)));
      Removed(d, fs, p) == if Clear(d, fs, p) then Less(g, {p}) else g
  {
    hide Survives, Barred;
    var gone := GoneBelow(d, fs, Kids(fs, p));
    var all := Gone(d, fs, p);
    forall q | q != p ensures q in all <==> q in gone {
      BelowGone(d, fs, p, q);
    }
    assert p !in gone by { NotBelowItself(d, fs, p); }
    assert p in all <==> Clear(d, fs, p) by { GoneExactly(d, fs, p); }
    assert all == if Clear(d, fs, p) then gone + {p} else gone;
  }

  lemma NotBelowItself(d: Denials, fs: FS, p: Path)
    ensures p !in GoneBelow(d, fs, Kids(fs, p))
  {
  }

  lemma BelowGone(d: Denials, fs: FS, p: Path, q: Path)
    requires WF(fs) && !Barred(d, fs, p) && q != p
    ensures q in GoneBelow(d, fs, Kids(fs, p)) <==> q in Under(fs, p) && !Survives(d, fs, p, q)
  {
    hide Survives, Barred;
    if q in Under(fs, p) {
      var c := ChildOf(fs, p, q);
      SurvivesBelow(d, fs, p, c, q);
    }
    if q in GoneBelow(d, fs, Kids(fs, p)) {
      var c :| c in Kids(fs, p) && q in Under(fs, c) && !Survives(d, fs, c, q);
      SurvivesBelow(d, fs, p, c, q);
    }
  }

  /** A listed directory is clear if its children are and it does not refuse itself. */
  lemma ClearBelow(d: Denials, fs: FS, p: Path)
    requires WF(fs) && p in fs.dirs && !Barred(d, fs, p)
    ensures Clear(d, fs, p) <==> p !in d.refused && forall c :: c in Kids(fs, p) ==> Clear(d, fs, c)
  {
    if Clear(d, fs, p) {
      forall c | c in Kids(fs, p) ensures Clear(d, fs, c) {
        assert forall x :: x in Under(fs, c) ==> x in Under(fs, p);
      }
      assert p in Under(fs, p);
    }
    if p !in d.refused && forall c :: c in Kids(fs, p) ==> Clear(d, fs, c) {
      forall x | x in Under(fs, p) ensures !Cause(d, fs, x) {
        if x != p {
          var c := ChildOf(fs, p, x);
          assert Clear(d, fs, c) && x in Under(fs, c);
        }
      }
    }
  }

  // ---------------------------------------------------------------- the code

  class FileSystem {
    const d: Denials
    var fs: FS

    constructor (d: Denials, fs: FS)
      ensures this.d == d && this.fs == fs
    {
      this.d, this.fs := d, fs;
    }

    method Unlink(p: Path) returns (ret: int)
      modifies this
      ensures ret == 0 <==> p in old(fs).files && p !in d.refused
      ensures ret in {0, -1} && fs == if ret == 0 then Less(old(fs), {p}) else old(fs)
    {
      if p in fs.files && p !in d.refused {
        fs := Less(fs, {p});
        return 0;
      }
      return -1;
    }

    method Rmdir(p: Path) returns (ret: int)
      modifies this
      ensures ret == 0 <==> p in old(fs).dirs && p !in d.refused && Kids(old(fs), p) == {}
      ensures ret in {0, -1} && fs == if ret == 0 then Less(old(fs), {p}) else old(fs)
    {
      if p in fs.dirs && p !in d.refused && Kids(fs, p) == {} {
        fs := Less(fs, {p});
        return 0;
      }
      return -1;
    }

    /** `rmobj`: what can be removed under p is, nothing else is touched, and the result is 0
        exactly when there was something and all of it went.  The root is refused. */
    method Rmobj(p: Path) returns (ret: int)
      requires WF(fs)
      modifies this
      ensures WF(fs) && fs == if p == [] then old(fs) else Removed(d, old(fs), p)
      ensures ret in {0, -1} && (ret == 0 <==> p != [] && Clear(d, old(fs), p))
      decreases Under(fs, p)
    {
      hide Survives, Removed, Clear, WF;
      ghost var was := fs;
      RootIsDirectory(fs);
      if p != [] { RemovedWF(d, was, p); }
      if p in fs.dirs && p !in d.closed {
        if p == [] {
          return -1;
        }
        if p in d.unlisted {
          UnlistedCase(d, was, p);
          ret := Rmdir(p);
          return;
        }
        ret := RemoveKids(p);
        DirectoryCase(d, was, p);
        if ret == -1 {
          return;
        }
        ret := Rmdir(p);
      } else {
        PlainCase(d, was, p);
        ret := Unlink(p);
      }
    }

    /** The loop over the entries of a directory, in any order. */
    method RemoveKids(p: Path) returns (ret: int)
      requires WF(fs) && p in fs.dirs
      modifies this
      ensures WF(fs) && fs == Less(old(fs), GoneBelow(d, old(fs), Kids(old(fs), p)))
      ensures ret in {0, -1} && (ret == 0 <==> forall c :: c in Kids(old(fs), p) ==> Clear(d, old(fs), c))
      decreases Under(fs, p), 0
    {
      hide Survives, Removed, Clear, WF, GoneBelow;
      ghost var was, done := fs, {};
      var todo := Kids(fs, p);
      ret := 0;
      NoneDone(d, was);
      while todo != {}
        invariant WF(fs) && todo !! done && todo + done == Kids(was, p) && fs == Less(was, GoneBelow(d, was, done))
        invariant ret in {0, -1} && (ret == 0 <==> forall c :: c in done ==> Clear(d, was, c))
        decreases todo
      {
        var c :| c in todo;
        UntouchedBelow(d, was, done, c);
        SmallerBelow(was, fs, p, c);
        AgreeClear(d, was, fs, c);
        OneMore(d, was, done, c);
        var r := Rmobj(c);
        if r != 0 {
          ret := -1;
        }
        todo, done := todo - {c}, done + {c};
      }
    }
  }

  lemma RootIsDirectory(fs: FS)
    requires WF(fs)
    ensures [] in fs.dirs && [] !in fs.files
  {
  }

  lemma NoneDone(d: Denials, fs: FS)
    ensures Less(fs, GoneBelow(d, fs, {})) == fs
  {
  }

  lemma SmallerBelow(fs: FS, g: FS, p: Path, c: Path)
    requires Agree(fs, g, c) && c in Kids(fs, p) && p in Entries(fs)
    ensures Under(g, c) < Under(fs, p) && c != []
  {
    assert p in Under(fs, p) && p !in Under(g, c);
    assert forall q :: q in Under(g, c) ==> q in Under(fs, p);
  }

  /** A directory that cannot be listed goes only if it is empty. */
  lemma UnlistedCase(d: Denials, fs: FS, p: Path)
    requires WF(fs) && p in fs.dirs && p in d.unlisted
    ensures Clear(d, fs, p) <==> p !in d.refused && p !in d.closed && Kids(fs, p) == {}
    ensures Removed(d, fs, p) == if Clear(d, fs, p) then Less(fs, {p}) else fs
  {
    if p !in d.closed && Kids(fs, p) == {} {
      OnlyItself(d, fs, p);
    } else {
      BarredStays(d, fs, p);
    }
  }

  lemma BarredStays(d: Denials, fs: FS, p: Path)
    requires p in fs.dirs && Barred(d, fs, p)
    ensures !Clear(d, fs, p) && Removed(d, fs, p) == fs
  {
    hide Barred;
    assert p in Under(fs, p) && Cause(d, fs, p);
    forall q | q in Under(fs, p) ensures q !in Gone(d, fs, p) {
      assert Keeps(d, fs, p, q);
    }
    assert Gone(d, fs, p) == {};
  }

  lemma NothingBelow(fs: FS, p: Path)
    requires WF(fs) && p in Entries(fs) && Kids(fs, p) == {}
    ensures Under(fs, p) == {p}
  {
    forall q | q in Under(fs, p) ensures q == p {
      if q != p {
        var c := ChildOf(fs, p, q);
      }
    }
  }

  lemma OnlyItself(d: Denials, fs: FS, p: Path)
    requires WF(fs) && p in Entries(fs) && p !in d.closed && Kids(fs, p) == {}
    ensures Clear(d, fs, p) <==> p !in d.refused
    ensures Removed(d, fs, p) == if Clear(d, fs, p) then Less(fs, {p}) else fs
  {
    NothingBelow(fs, p);
    assert p in Under(fs, p);
    assert Survives(d, fs, p, p) <==> p in d.refused by {
      if p in d.refused { assert Keeps(d, fs, p, p); }
    }
  }

  lemma DirectoryCase(d: Denials, fs: FS, p: Path)
    requires WF(fs) && p in fs.dirs && p !in d.closed && p !in d.unlisted && p != []
    ensures var g := Less(fs, GoneBelow(d, fs, Kids(fs, p)));
      && (Clear(d, fs, p) <==> p !in d.refused && forall c :: c in Kids(fs, p) ==> Clear(d, fs, c))
      && Removed(d, fs, p) == (if Clear(d, fs, p) then Less(g, {p}) else g)
      && p in g.dirs && WF(Removed(d, fs, p))
      && ((forall c :: c in Kids(fs, p) ==> Clear(d, fs, c)) ==> Kids(g, p) == {})
  {
    hide Survives, WF;
    var g := Less(fs, GoneBelow(d, fs, Kids(fs, p)));
    AllBelow(d, fs, p);
    ClearBelow(d, fs, p);
    RemovedWF(d, fs, p);
    NotBelowItself(d, fs, p);
    if forall c :: c in Kids(fs, p) ==> Clear(d, fs, c) {
      forall c | c in Kids(fs, p) ensures c in GoneBelow(d, fs, Kids(fs, p)) {
        GoneWhenClear(d, fs, c);
      }
    }
  }

  lemma GoneWhenClear(d: Denials, fs: FS, c: Path)
    requires Clear(d, fs, c)
    ensures c in Under(fs, c) && !Survives(d, fs, c, c)
  {
  }

  /** Anything but a directory that opens: only unlink is tried. */
  lemma PlainCase(d: Denials, fs: FS, p: Path)
    requires WF(fs) && (p !in fs.dirs || p in d.closed)
    ensures Clear(d, fs, p) <==> p in fs.files && p !in d.refused
    ensures Removed(d, fs, p) == if Clear(d, fs, p) then Less(fs, {p}) else fs
  {
    if p in fs.dirs {
      BarredStays(d, fs, p);
    } else if p in fs.files {
      FileAlone(d, fs, p);
    } else {
      forall q | q in Entries(fs) ensures !(p <= q) { Proper(p, q); }
      assert Under(fs, p) == {};
    }
  }

  lemma FileAlone(d: Denials, fs: FS, p: Path)
    requires WF(fs) && p in fs.files
    ensures Clear(d, fs, p) <==> p !in d.refused
    ensures Removed(d, fs, p) == if Clear(d, fs, p) then Less(fs, {p}) else fs
  {
    forall q | q in Under(fs, p) ensures q == p { Proper(p, q); }
    assert p in Under(fs, p);
    assert Survives(d, fs, p, p) <==> p in d.refused by {
      if p in d.refused { assert Keeps(d, fs, p, p); }
    }
  }
}
