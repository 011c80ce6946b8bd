/** pan/symbol.c: the hierarchical symbol table in the heap.

    A header holds its list of (key, data) nodes; a data pointer may be another header.  The
    whole structure refines the tree of SymbolTree.dfy.  Every header carries, as a ghost, the
    path of keys that leads to it: that makes the structure a tree, so that changing one header
    cannot be seen along any other path. */
module SymbolTable {
  import opened SymbolTree
  import S = SplitStr

  datatype Data = Null | Leaf(v: string) | Table(t: Sym)
  datatype Entry = Entry(key: string, data: Data)
  datatype Cursor = NoCursor | At(t: Sym, i: nat)

  /** `struct symh` with its list of `struct sym`. */
  class Sym {
    var entries: seq<Entry>
    ghost var path: seq<string>

    /** `newsym`. */
    constructor (ghost p: seq<string>)
      ensures entries == [] && path == p
    {
      entries := [];
      path := p;
    }

    /** `add_key`: at the end of the list. */
    method AddKey(key: string, data: Data)
      modifies this`entries
      ensures entries == old(entries) + [Entry(key, data)]
    {
      entries := entries + [Entry(key, data)];
    }
  }

  // ---------------------------------------------------------------- what the heap stands for

  /** A set of headers, each with its path and its list, as a value. */
  type Heaplet = map<Sym, Cell>
  datatype Cell = Cell(path: seq<string>, entries: seq<Entry>)

  ghost function Snapshot(nodes: set<Sym>): Heaplet
    reads nodes
  {
    map x | x in nodes :: Cell(x.path, x.entries)
  }

  /** In m, header h, reached by path p, represents tree t. */
  ghost predicate Rep(m: Heaplet, h: Sym, p: seq<string>, t: Tree)
    decreases t
  {
    && h in m && m[h].path == p && |m[h].entries| == |t.items|
    && forall i :: 0 <= i < |t.items| ==> RepItem(m, m[h].entries[i], p, t.items[i])
  }

  ghost predicate RepItem(m: Heaplet, e: Entry, p: seq<string>, it: Item)
    decreases it
  {
    && e.key == it.key
    && match it.val
       case NullV => e.data == Null
       case LeafV(v) => e.data == Leaf(v)
       case TableV(sub) => e.data.Table? && Rep(m, e.data.t, p + [it.key], sub)
  }

  /** The data a caller passes in: NULL or a pointer of its own. */
  function Given(v: Val): Data
    requires !v.TableV?
  {
    match v case NullV => Null case LeafV(s) => Leaf(s)
  }

  function FindEntry(es: seq<Entry>, key: string): (i: nat)
    ensures i <= |es| && (i < |es| ==> es[i].key == key) && forall j :: 0 <= j < i ==> es[j].key != key
  {
    if es == [] || es[0].key == key then 0 else 1 + FindEntry(es[1..], key)
  }

  lemma FindEntryIs(es: seq<Entry>, key: string, k: nat)
    requires k <= |es| && (k < |es| ==> es[k].key == key) && forall j :: 0 <= j < k ==> es[j].key != key
    ensures FindEntry(es, key) == k
  {
    var f := FindEntry(es, key);
  }

  lemma FindAgrees(m: Heaplet, h: Sym, p: seq<string>, t: Tree, key: string)
    requires Rep(m, h, p, t)
    ensures FindEntry(m[h].entries, key) == Find(t.items, key)
  {
    hide Find, FindEntry;
    var k := Find(t.items, key);
    assert forall j :: 0 <= j < |t.items| ==> RepItem(m, m[h].entries[j], p, t.items[j]);
    FindEntryIs(m[h].entries, key, k);
  }

  /** Path ps leads from header h to header c. */
  ghost predicate Leads(m: Heaplet, h: Sym, ps: seq<string>, c: Sym)
    decreases |ps|
  {
    h in m &&
    if ps == [] then h == c else
      var i := FindEntry(m[h].entries, ps[0]);
      i < |m[h].entries| && m[h].entries[i].data.Table? && Leads(m, m[h].entries[i].data.t, ps[1..], c)
  }

  lemma {:induction false} LeadsStep(m: Heaplet, h: Sym, ps: seq<string>, c: Sym, key: string)
    requires Leads(m, h, ps, c) && c in m
    requires var i, es := FindEntry(m[c].entries, key), m[c].entries; i < |es| && es[i].data.Table? && es[i].data.t in m
    ensures Leads(m, h, ps + [key], m[c].entries[FindEntry(m[c].entries, key)].data.t)
    decreases |ps|
  {
    var longer := ps + [key];
    if ps == [] {
      assert longer[1..] == [];
    } else {
      assert longer[1..] == ps[1..] + [key];
      LeadsStep(m, m[h].entries[FindEntry(m[h].entries, ps[0])].data.t, ps[1..], c, key);
    }
  }

  // ---------------------------------------------------------------- changing one header

  /** Every header of m at or below path p is in n, unchanged. */
  ghost predicate KeptBelow(m: Heaplet, n: Heaplet, p: seq<string>) {
    forall x :: x in m && p <= m[x].path ==> x in n && n[x] == m[x]
  }

  lemma KeptFurther(m: Heaplet, n: Heaplet, p: seq<string>, key: string)
    requires KeptBelow(m, n, p)
    ensures KeptBelow(m, n, p + [key])
  {
    forall x | x in m && p + [key] <= m[x].path ensures x in n && n[x] == m[x] {
      assert p <= p + [key] && p <= m[x].path;
    }
  }

  /** A subtree none of whose headers changed. */
  lemma {:induction false} FrameTree(m: Heaplet, n: Heaplet, h: Sym, p: seq<string>, t: Tree)
    requires Rep(m, h, p, t) && KeptBelow(m, n, p)
    ensures Rep(n, h, p, t)
    decreases t
  {
    forall i | 0 <= i < |t.items| ensures RepItem(n, n[h].entries[i], p, t.items[i]) {
      KeptFurther(m, n, p, t.items[i].key);
      FrameItem(m, n, m[h].entries[i], p, t.items[i]);
    }
  }

  lemma {:induction false} FrameItem(m: Heaplet, n: Heaplet, e: Entry, p: seq<string>, it: Item)
    requires RepItem(m, e, p, it) && KeptBelow(m, n, p + [it.key])
    ensures RepItem(n, e, p, it)
    decreases it
  {
    if it.val.TableV? { FrameTree(m, n, e.data.t, p + [it.key], it.val.sub); }
  }

  /** From m to n only header c changed. */
  ghost predicate OnlyChanged(m: Heaplet, n: Heaplet, c: Sym) {
    forall x :: x in m ==> x in n && n[x].path == m[x].path && (x != c ==> n[x] == m[x])
  }

  /** A subtree at a path that does not lead to c. */
  lemma Sibling(m: Heaplet, n: Heaplet, c: Sym, p: seq<string>)
    requires OnlyChanged(m, n, c) && c in m && !(p <= m[c].path)
    ensures KeptBelow(m, n, p)
  {
  }

  /** Seen from a header on the way, a change of header c is the change of the subtree there. */
  lemma {:induction false} Lift(m: Heaplet, n: Heaplet, h: Sym, p: seq<string>, t: Tree,
                                ps: seq<string>, c: Sym, s: Tree)
    requires Rep(m, h, p, t) && Distinct(t) && Reaches(t, ps) && Leads(m, h, ps, c)
    requires c in m && m[c].path == p + ps && OnlyChanged(m, n, c) && Rep(n, c, p + ps, s)
    ensures Rep(n, h, p, ReplaceAt(t, ps, s))
    decreases |ps|
  {
    if ps == [] {
      assert p + ps == p;
    } else {
      FindAgrees(m, h, p, t, ps[0]);
      var i, q := Find(t.items, ps[0]), p + [ps[0]];
      assert RepItem(m, m[h].entries[i], p, t.items[i]);
      assert q + ps[1..] == p + ps;
      Lift(m, n, m[h].entries[i].data.t, q, t.items[i].val.sub, ps[1..], c, s);
      LiftOne(m, n, h, p, t, i, c, ReplaceAt(t.items[i].val.sub, ps[1..], s), ps);
    }
  }

  /** One level of it: child i changed, its siblings did not. */
  lemma LiftOne(m: Heaplet, n: Heaplet, h: Sym, p: seq<string>, t: Tree, i: nat, c: Sym, s: Tree, ps: seq<string>)
    requires Rep(m, h, p, t) && Distinct(t) && i < |t.items| && OnlyChanged(m, n, c)
    requires ps != [] && c in m && m[c].path == p + ps && t.items[i].key == ps[0] && m[h].entries[i].data.Table?
    requires Rep(n, m[h].entries[i].data.t, p + [ps[0]], s)
    ensures Rep(n, h, p, SetVal(t, i, TableV(s)))
  {
    hide Rep;
    assert Rep(m, h, p, t);
    var u := SetVal(t, i, TableV(s));
    RepParts(m, h, p, t);
    assert h != c;
    forall j | 0 <= j < |u.items| ensures RepItem(n, n[h].entries[j], p, u.items[j]) {
      assert RepItem(m, m[h].entries[j], p, t.items[j]);
      if j != i {
        assert t.items[j].key != ps[0];
        assert (p + [t.items[j].key])[|p|] == t.items[j].key && (p + ps)[|p|] == ps[0];
        Sibling(m, n, c, p + [t.items[j].key]);
        FrameItem(m, n, m[h].entries[j], p, t.items[j]);
      }
    }
    RepFrom(n, h, p, u);
  }

  lemma RepParts(m: Heaplet, h: Sym, p: seq<string>, t: Tree)
    requires Rep(m, h, p, t)
    ensures h in m && m[h].path == p && |m[h].entries| == |t.items|
    ensures forall i :: 0 <= i < |t.items| ==> RepItem(m, m[h].entries[i], p, t.items[i])
  {
  }

  lemma RepFrom(m: Heaplet, h: Sym, p: seq<string>, t: Tree)
    requires h in m && m[h].path == p && |m[h].entries| == |t.items|
    requires forall i :: 0 <= i < |t.items| ==> RepItem(m, m[h].entries[i], p, t.items[i])
    ensures Rep(m, h, p, t)
  {
  }

  /** The header itself: its own items stay what they were. */
  lemma OwnItems(m: Heaplet, n: Heaplet, c: Sym, t: Tree)
    requires c in m && Rep(m, c, m[c].path, t) && OnlyChanged(m, n, c)
    ensures forall i :: 0 <= i < |t.items| ==> RepItem(n, m[c].entries[i], m[c].path, t.items[i])
  {
    forall i | 0 <= i < |t.items| ensures RepItem(n, m[c].entries[i], m[c].path, t.items[i]) {
      assert RepItem(m, m[c].entries[i], m[c].path, t.items[i]);
      Sibling(m, n, c, m[c].path + [t.items[i].key]);
      FrameItem(m, n, m[c].entries[i], m[c].path, t.items[i]);
    }
  }

  lemma SnapshotGrows(m: Heaplet, n: Heaplet, p: seq<string>)
    requires forall x :: x in m ==> x in n && n[x] == m[x]
    ensures KeptBelow(m, n, p)
  {
  }

  /** A list with one more item. */
  lemma AppendRep(m: Heaplet, n: Heaplet, c: Sym, t: Tree, e: Entry, it: Item)
    requires c in m && Rep(m, c, m[c].path, t) && OnlyChanged(m, n, c) && n[c].entries == m[c].entries + [e]
    requires RepItem(n, e, m[c].path, it)
    ensures Rep(n, c, m[c].path, Tree(t.items + [it]))
  {
    OwnItems(m, n, c, t);
    hide Rep;
    RepParts(m, c, m[c].path, t);
    RepFrom(n, c, m[c].path, Tree(t.items + [it]));
  }

  /** A list with the data of one item replaced. */
  lemma SetRep(m: Heaplet, n: Heaplet, c: Sym, t: Tree, i: nat, d: Data, v: Val)
    requires c in m && Rep(m, c, m[c].path, t) && OnlyChanged(m, n, c) && i < |t.items|
    requires i < |m[c].entries| && n[c].entries == m[c].entries[i := m[c].entries[i].(data := d)]
    requires RepItem(n, Entry(t.items[i].key, d), m[c].path, Item(t.items[i].key, v))
    ensures Rep(n, c, m[c].path, SetVal(t, i, v))
  {
    OwnItems(m, n, c, t);
    hide Rep;
    RepParts(m, c, m[c].path, t);
    var u := SetVal(t, i, v);
    forall j | 0 <= j < |u.items| ensures RepItem(n, n[c].entries[j], m[c].path, u.items[j]) {
      assert RepItem(m, m[c].entries[j], m[c].path, t.items[j]);
      assert RepItem(n, m[c].entries[j], m[c].path, t.items[j]);
    }
    RepFrom(n, c, m[c].path, u);
  }

  // ---------------------------------------------------------------- a table moved below a path

  /** The same headers, all their paths longer by ps in front. */
  ghost predicate Moved(m: Heaplet, n: Heaplet, ps: seq<string>) {
    forall x :: x in m ==> x in n && n[x] == Cell(ps + m[x].path, m[x].entries)
  }

  lemma {:induction false} MovedRep(m: Heaplet, n: Heaplet, ps: seq<string>, h: Sym, p: seq<string>, t: Tree)
    requires Moved(m, n, ps) && Rep(m, h, p, t)
    ensures Rep(n, h, ps + p, t)
    decreases t
  {
    forall i | 0 <= i < |t.items| ensures RepItem(n, n[h].entries[i], ps + p, t.items[i]) {
      MovedItem(m, n, ps, m[h].entries[i], p, t.items[i]);
    }
  }

  lemma {:induction false} MovedItem(m: Heaplet, n: Heaplet, ps: seq<string>, e: Entry, p: seq<string>, it: Item)
    requires Moved(m, n, ps) && RepItem(m, e, p, it)
    ensures RepItem(n, e, ps + p, it)
    decreases it
  {
    if it.val.TableV? {
      assert ps + (p + [it.key]) == (ps + p) + [it.key];
      MovedRep(m, n, ps, e.data.t, p + [it.key], it.val.sub);
    }
  }

  // ---------------------------------------------------------------- operations

  /** `find_key1`. */
  method FindKey1(h: Sym, key: string) returns (i: nat)
    ensures i == FindEntry(h.entries, key)
  {
    i := 0;
    while i < |h.entries| && h.entries[i].key != key
      invariant i <= |h.entries| && forall j :: 0 <= j < i ==> h.entries[j].key != key
    {
      i := i + 1;
    }
    FindEntryIs(h.entries, key, i);
  }

  /** The loop at the end of `sym_put`, one key per call: the rest of the keys is added below
      csym, each but the last with a new table of its own.  The data d stands for v; if it is a
      table, its headers are those in below. */
  method AddKeys(csym: Sym, ks: seq<string>, d: Data, ghost v: Val, ghost below: set<Sym>) returns (ghost more: set<Sym>)
    requires ks != [] && csym !in below
    requires RepItem(Snapshot(below), Entry(ks[|ks| - 1], d), csym.path + ks[..|ks| - 1], Item(ks[|ks| - 1], v))
    modifies csym`entries
    ensures fresh(more - below) && below <= more && csym !in more
    ensures |csym.entries| == |old(csym.entries)| + 1 && csym.entries[..|old(csym.entries)|] == old(csym.entries)
    ensures RepItem(Snapshot(more), csym.entries[|old(csym.entries)|], csym.path, Item(ks[0], Chain(ks[1..], v)))
    decreases |ks|
  {
    if |ks| == 1 {
      assert csym.path + ks[..0] == csym.path;
      csym.AddKey(ks[0], d);
      more := below;
    } else {
      var ncsym := new Sym(csym.path + [ks[0]]);
      csym.AddKey(ks[0], Table(ncsym));
      var rest := ks[1..];
      assert ncsym.path + rest[..|rest| - 1] == csym.path + ks[..|ks| - 1];
      ghost var deeper := AddKeys(ncsym, rest, d, v, below);
      more := deeper + {ncsym};
      ghost var it := Item(ks[1], Chain(rest[1..], v));
      ghost var m, n := Snapshot(deeper), Snapshot(more);
      SnapshotGrows(m, n, ncsym.path + [ks[1]]);
      FrameItem(m, n, ncsym.entries[0], ncsym.path, it);
      assert n[ncsym].entries == [ncsym.entries[0]];
      RepFrom(n, ncsym, ncsym.path, Tree([it]));
      assert Chain(rest, v) == TableV(Tree([it]));
    }
  }

  /** How the walk down the keys ends, at key kk of table csym. */
  datatype End = Missing | NotTable | Complete

  class SymTab {
    const root: Sym
    var cursor: Cursor
    ghost var nodes: set<Sym>
    ghost var tree: Tree

    ghost predicate Valid()
      reads this`nodes, this`tree, nodes
    {
      Rep(Snapshot(nodes), root, [], tree) && Distinct(tree)
    }

    /** `sym_open`. */
    constructor ()
      ensures Valid() && fresh(nodes) && tree == Tree([]) && cursor == NoCursor
    {
      var r := new Sym([]);
      root := r;
      cursor := NoCursor;
      nodes := {r};
      tree := Tree([]);
    }

    /** The search loop of `sym_put` and `sym_get`. */
    method Walk(args: array<S.Ptr>, count: nat, ghost ks: seq<string>) returns (csym: Sym, kk: nat, i: nat, end: End)
      requires Valid() && count == |ks| > 0 && count <= args.Length && forall j :: 0 <= j < count ==> args[j] == S.Str(ks[j])
      ensures kk < count && Reaches(tree, ks[..kk]) && Leads(Snapshot(nodes), root, ks[..kk], csym)
      ensures csym in nodes && Rep(Snapshot(nodes), csym, ks[..kk], Sub(tree, ks[..kk]))
      ensures i == Find(Sub(tree, ks[..kk]).items, ks[kk])
      ensures end == Missing <==> i == |Sub(tree, ks[..kk]).items|
      ensures end == Complete ==> kk == count - 1
      ensures end == NotTable ==> kk < count - 1 && !Sub(tree, ks[..kk]).items[i].val.TableV?
    {
      hide Rep, Reaches, Leads, Sub, Find, FindEntry, Distinct;
      csym, kk := root, 0;
      ghost var m := Snapshot(nodes);
      WalkStart(m, root, tree, ks);
      while true
        invariant kk < count && Reaches(tree, ks[..kk]) && Leads(m, root, ks[..kk], csym)
        invariant csym in nodes && Rep(m, csym, ks[..kk], Sub(tree, ks[..kk]))
        decreases count - kk
      {
        i := FindKey1(csym, args[kk].s);
        ghost var sub := Sub(tree, ks[..kk]);
        FindAgrees(m, csym, ks[..kk], sub, ks[kk]);
        RepParts(m, csym, ks[..kk], sub);
        FoundAt(sub, ks[kk]);
        if i == |csym.entries| {
          return csym, kk, i, Missing;
        }
        if kk + 1 == count {
          return csym, kk, i, Complete;
        }
        assert RepItem(m, csym.entries[i], ks[..kk], sub.items[i]);
        var data := csym.entries[i].data;
        if !data.Table? {
          return csym, kk, i, NotTable;
        }
        assert ks[..kk + 1] == ks[..kk] + [ks[kk]];
        ReachesStep(tree, ks[..kk], ks[kk]);
        RepParts(m, data.t, ks[..kk + 1], sub.items[i].val.sub);
        LeadsStep(m, root, ks[..kk], csym, ks[kk]);
        csym, kk := data.t, kk + 1;
      }
    }

    /** After header csym at ks[..kk] came to represent s, the table represents the tree with
        s there. */
    ghost method Settle(m: Heaplet, csym: Sym, ps: seq<string>, s: Tree)
      requires Rep(m, root, [], tree) && Distinct(tree) && Reaches(tree, ps) && Leads(m, root, ps, csym)
      requires csym in m && m[csym].path == ps && OnlyChanged(m, Snapshot(nodes), csym) && Rep(Snapshot(nodes), csym, ps, s)
      requires Distinct(ReplaceAt(tree, ps, s))
      modifies this`tree
      ensures Valid() && tree == ReplaceAt(old(tree), ps, s)
    {
      hide Rep, Reaches, Leads, Distinct, ReplaceAt;
      assert [] + ps == ps;
      Lift(m, Snapshot(nodes), root, [], tree, ps, csym, s);
      tree := ReplaceAt(tree, ps, s);
    }

    /** Header csym stands for the table at ps. */
    ghost predicate Stands(csym: Sym, ps: seq<string>)
      reads this`nodes, this`tree, nodes
    {
      && Reaches(tree, ps) && Leads(Snapshot(nodes), root, ps, csym)
      && csym in nodes && Rep(Snapshot(nodes), csym, ps, Sub(tree, ps))
    }

    /** The end of a put that found the whole key. */
    method Replace(csym: Sym, i: nat, d: Data, ghost ps: seq<string>, ghost v: Val, ghost below: set<Sym>)
      requires Valid() && below !! nodes && Stands(csym, ps) && i < |Sub(tree, ps).items| && i < |csym.entries|
      requires var key := Sub(tree, ps).items[i].key; RepItem(Snapshot(below), Entry(key, d), ps, Item(key, v))
      requires Distinct(ReplaceAt(tree, ps, SetVal(Sub(tree, ps), i, v)))
      modifies this`nodes, this`tree, csym`entries
      ensures Valid() && nodes == old(nodes) + below
      ensures tree == ReplaceAt(old(tree), ps, SetVal(Sub(old(tree), ps), i, v))
    {
      hide Rep, Reaches, Leads, Sub, Find, FindEntry, Distinct, ReplaceAt;
      ghost var m, sub, low := Snapshot(nodes), Sub(tree, ps), Snapshot(below);
      RepParts(m, csym, ps, sub);
      csym.entries := csym.entries[i := csym.entries[i].(data := d)];
      nodes := nodes + below;
      ghost var n, key := Snapshot(nodes), sub.items[i].key;
      SnapshotGrows(low, n, ps + [key]);
      FrameItem(low, n, Entry(key, d), ps, Item(key, v));
      SetRep(m, n, csym, sub, i, d, v);
      Settle(m, csym, ps, SetVal(sub, i, v));
    }

    /** The end of a put that has keys left over. */
    method Extend(csym: Sym, todo: seq<string>, d: Data, ghost ps: seq<string>, ghost v: Val, ghost below: set<Sym>)
      requires Valid() && below !! nodes && Stands(csym, ps) && todo != []
      requires var last := todo[|todo| - 1]; RepItem(Snapshot(below), Entry(last, d), ps + todo[..|todo| - 1], Item(last, v))
      requires Distinct(ReplaceAt(tree, ps, AddItem(Sub(tree, ps), todo[0], Chain(todo[1..], v))))
      modifies this`nodes, this`tree, csym`entries
      ensures Valid() && old(nodes) + below <= nodes && fresh(nodes - old(nodes) - below)
      ensures tree == ReplaceAt(old(tree), ps, AddItem(Sub(old(tree), ps), todo[0], Chain(todo[1..], v)))
    {
      hide Rep, Reaches, Leads, Sub, Find, FindEntry, Distinct, ReplaceAt, Chain;
      ghost var m, sub := Snapshot(nodes), Sub(tree, ps);
      RepParts(m, csym, ps, sub);
      ghost var more := AddKeys(csym, todo, d, v, below);
      nodes := nodes + more;
      ghost var n := Snapshot(nodes);
      ghost var e, it := csym.entries[|m[csym].entries|], Item(todo[0], Chain(todo[1..], v));
      SnapshotGrows(Snapshot(more), n, ps + [it.key]);
      FrameItem(Snapshot(more), n, e, ps, it);
      AppendRep(m, n, csym, sub, e, it);
      Settle(m, csym, ps, AddItem(sub, todo[0], it.val));
    }

    /** `sym_put`, for data d that stands for v: the tree becomes, and the code is, what
        SymbolTree.Put says. */
    method PutData(key: string, d: Data, ghost v: Val, ghost below: set<Sym>, replace: bool) returns (code: Code)
      requires Valid() && DistinctVal(v) && below !! nodes && (replace ==> S.Tokens(key, {','}) != [])
      requires var ks := S.Tokens(key, {','});
        ks != [] && SymbolTree.Put(tree, ks, v, replace).1 == Done ==> DataAt(Snapshot(below), d, ks, v)
      modifies this`nodes, this`tree, nodes`entries
      ensures Valid() && old(nodes) <= nodes && fresh(nodes - old(nodes) - below)
      ensures var ks := S.Tokens(key, {','});
        (tree, code) == if ks == [] then (old(tree), Eexist) else SymbolTree.Put(old(tree), ks, v, replace)
    {
      hide Rep, Reaches, Leads, Sub, Find, FindEntry, Distinct, SymbolTree.Put, ReplaceAt, S.Tokens, Chain, DataAt,
        DistinctVal;
      var args, count := S.Splitstr(key, {','});
      ghost var ks := S.Tokens(key, {','});
      if count == 0 {
        return Eexist;
      }
      var csym, kk, i, end := Walk(args, count, ks);
      ghost var ps := ks[..kk];
      PutEnds(tree, ks, kk, v, replace);
      DataParts(Snapshot(below), d, ks, kk, v);
      RepParts(Snapshot(nodes), csym, ps, Sub(tree, ps));
      match end {
        case NotTable =>
          return Enotdir;
        case Complete =>
          if !replace {
            return Eexist;
          }
          FoundAt(Sub(tree, ps), ks[kk]);
          Replace(csym, i, d, ps, v, below);
          return Done;
        case Missing =>
          var todo := Rest(args, kk, count, ks);
          Extend(csym, todo, d, ps, v, below);
          return Done;
      }
    }

    /** `sym_put` of NULL or a caller's own pointer. */
    method Put(key: string, v: Val, replace: bool) returns (code: Code)
      requires Valid() && !v.TableV? && (replace ==> S.Tokens(key, {','}) != [])
      modifies this`nodes, this`tree, nodes`entries
      ensures Valid() && old(nodes) <= nodes && fresh(nodes - old(nodes))
      ensures var ks := S.Tokens(key, {','});
        (tree, code) == if ks == [] then (old(tree), Eexist) else SymbolTree.Put(old(tree), ks, v, replace)
    {
      hide SymbolTree.Put, S.Tokens, Valid;
      code := PutData(key, Given(v), v, {}, replace);
    }

    /** `sym_put` of another table: on success its headers become part of this one. */
    method PutTable(key: string, other: SymTab, replace: bool) returns (code: Code)
      requires Valid() && other.Valid() && other != this && nodes !! other.nodes
      requires replace ==> S.Tokens(key, {','}) != []
      modifies this`nodes, this`tree, nodes`entries, other.nodes`path
      ensures Valid() && old(nodes) <= nodes && fresh(nodes - old(nodes) - other.nodes)
      ensures code != Done ==> other.Valid()
      ensures other.nodes == old(other.nodes) && other.tree == old(other.tree)
      ensures var ks := S.Tokens(key, {','});
        (tree, code) == if ks == [] then (old(tree), Eexist) else SymbolTree.Put(old(tree), ks, TableV(other.tree), replace)
    {
      hide SymbolTree.Put, S.Tokens, Rep, Distinct;
      ghost var ks, m, v := S.Tokens(key, {','}), Snapshot(other.nodes), TableV(other.tree);
      ghost var done := ks != [] && SymbolTree.Put(tree, ks, v, replace).1 == Done;
      if done {
        forall x | x in other.nodes { x.path := ks + x.path; }
        MovedRep(m, Snapshot(other.nodes), ks, other.root, [], other.tree);
        assert ks + [] == ks;
      }
      code := PutData(key, Table(other.root), v, other.nodes, replace);
    }

    /** `sym_get`: the data found at the path, NULL if there is none. */
    method Get(key: string) returns (d: Data)
      requires Valid() && S.Tokens(key, {','}) != []
      ensures match SymbolTree.Get(tree, S.Tokens(key, {','}))
        case Found(NullV) => d == Null
        case Found(LeafV(v)) => d == Leaf(v)
        case Found(TableV(sub)) => d.Table? && Rep(Snapshot(nodes), d.t, S.Tokens(key, {','}), sub)
        case _ => d == Null
    {
      hide Rep, Reaches, Leads, Sub, Find, FindEntry, Distinct, SymbolTree.Get, ReplaceAt, S.Tokens;
      var args, count := S.Splitstr(key, {','});
      ghost var ks := S.Tokens(key, {','});
      var csym, kk, i, end := Walk(args, count, ks);
      ghost var ps, rest := ks[..kk], ks[kk..];
      ghost var sub := Sub(tree, ps);
      assert ps + rest == ks && rest[0] == ks[kk];
      FromBelow(tree, ps, rest, NullV, false);
      GetHere(sub, rest);
      RepParts(Snapshot(nodes), csym, ps, sub);
      if end == Complete {
        FoundAt(sub, rest[0]);
        assert RepItem(Snapshot(nodes), csym.entries[i], ps, sub.items[i]);
        assert ps + [rest[0]] == ks;
        return csym.entries[i].data;
      }
      return Null;
    }

    /** Pointing the cursor at node i of a list, or past its end. */
    method Point(t: Sym, i: nat) returns (code: int, node: Entry)
      modifies this`cursor
      ensures code == if i < |t.entries| then 0 else 1
      ensures code == 0 ==> cursor == At(t, i) && node == t.entries[i]
      ensures code == 1 ==> cursor == NoCursor
    {
      if i < |t.entries| {
        cursor := At(t, i);
        return 0, t.entries[i];
      }
      cursor := NoCursor;
      return 1, Entry("", Null);
    }

    /** `sym_seq` with R_FIRST. */
    method First() returns (code: int, node: Entry)
      modifies this`cursor
      ensures code == if |root.entries| > 0 then 0 else 1
      ensures code == 0 ==> cursor == At(root, 0) && node == root.entries[0]
    {
      code, node := Point(root, 0);
    }

    /** `sym_seq` with R_NEXT. */
    method Next() returns (code: int, node: Entry)
      modifies this`cursor
      ensures old(cursor) == NoCursor ==> code == 1 && cursor == NoCursor
      ensures old(cursor).At? ==> var t, i := old(cursor).t, old(cursor).i + 1;
        (code == if i < |t.entries| then 0 else 1) && (code == 0 ==> cursor == At(t, i) && node == t.entries[i])
    {
      if cursor == NoCursor {
        return 1, Entry("", Null);
      }
      code, node := Point(cursor.t, cursor.i + 1);
    }

    /** `sym_seq` with R_CURSOR: the first node of the table at the path; 2 if there is no table. */
    method SetCursor(key: string) returns (code: int, node: Entry)
      requires Valid() && S.Tokens(key, {','}) != []
      modifies this`cursor
      ensures code == 2 <==> !TableAt(tree, S.Tokens(key, {','})).TableV?
      ensures code == 1 ==> TableAt(tree, S.Tokens(key, {','})).sub.items == []
      ensures code == 0 ==> cursor.At? && cursor.i == 0 && |cursor.t.entries| > 0 && node == cursor.t.entries[0]
      ensures code == 0 ==> Rep(Snapshot(nodes), cursor.t, S.Tokens(key, {','}), TableAt(tree, S.Tokens(key, {','})).sub)
      ensures code in {0, 1, 2}
    {
      hide SymbolTree.Get, S.Tokens;
      var d := Get(key);
      if !d.Table? {
        return 2, Entry("", Null);
      }
      code, node := Point(d.t, 0);
    }

    /** NEXT until it fails, from the first node of a list: every key of it once, in order. */
    method ListFrom(t: Sym, first: Entry) returns (keys: seq<string>)
      requires cursor == At(t, 0) && |t.entries| > 0 && first == t.entries[0]
      modifies this`cursor
      ensures |keys| == |t.entries| && forall i :: 0 <= i < |keys| ==> keys[i] == t.entries[i].key
    {
      keys := [];
      var code, node := 0, first;
      while code == 0
        invariant code == 0 || code == 1
        invariant code == 0 ==> cursor == At(t, |keys|) && |keys| < |t.entries| && node == t.entries[|keys|]
        invariant code == 1 ==> |keys| == |t.entries|
        invariant |keys| <= |t.entries| && forall i :: 0 <= i < |keys| ==> keys[i] == t.entries[i].key
        decreases |t.entries| - |keys|, code == 0
      {
        keys := keys + [node.key];
        code, node := Next();
      }
    }

    /** R_CURSOR at a path, then NEXT until it fails, lists the table there: every key once, in
        insertion order; none if there is no table. */
    method ListKeysAt(key: string) returns (keys: seq<string>)
      requires Valid() && S.Tokens(key, {','}) != []
      modifies this`cursor
      ensures keys == LevelAt(tree, S.Tokens(key, {','})) && forall i, j :: 0 <= i < j < |keys| ==> keys[i] != keys[j]
    {
      hide Rep, S.Tokens, LevelAt, Distinct;
      ghost var ks := S.Tokens(key, {','});
      LevelOfTable(tree, ks);
      LevelDistinct(tree, ks);
      var code, node := SetCursor(key);
      if code != 0 {
        return [];
      }
      RepKeys(Snapshot(nodes), cursor.t, ks, TableAt(tree, ks).sub);
      keys := ListFrom(cursor.t, node);
    }

    /** FIRST, then NEXT until it fails, lists the level: every key once, in insertion order. */
    method ListKeys() returns (keys: seq<string>)
      requires Valid()
      modifies this`cursor
      ensures keys == Keys(tree) && forall i, j :: 0 <= i < j < |keys| ==> keys[i] != keys[j]
    {
      RepKeys(Snapshot(nodes), root, [], tree);
      var code, node := First();
      if code != 0 {
        return [];
      }
      keys := ListFrom(root, node);
    }
  }

  datatype KeyedPut = KeyedPut(key: string, v: Val, replace: bool)

  predicate PutsOk(puts: seq<KeyedPut>) {
    forall i :: 0 <= i < |puts| ==> !puts[i].v.TableV? && S.Tokens(puts[i].key, {','}) != []
  }

  function OpsOf(puts: seq<KeyedPut>): (ops: seq<PutOp>)
    requires PutsOk(puts)
    ensures |ops| == |puts| && OpsOk(ops)
    ensures forall i :: 0 <= i < |puts| ==> ops[i] == PutOp(S.Tokens(puts[i].key, {','}), puts[i].v, puts[i].replace)
  {
    seq(|puts|, i requires 0 <= i < |puts| => PutOp(S.Tokens(puts[i].key, {','}), puts[i].v, puts[i].replace))
  }

  /** Any sequence of puts into a new table. */
  method PutAll(puts: seq<KeyedPut>) returns (tab: SymTab)
    requires PutsOk(puts)
    ensures fresh(tab) && fresh(tab.nodes) && tab.Valid() && tab.tree == Run(OpsOf(puts))
  {
    hide SymTab.Valid, SymbolTree.Put, S.Tokens;
    tab := new SymTab();
    ghost var ops := OpsOf(puts);
    for i := 0 to |puts|
      invariant fresh(tab) && fresh(tab.nodes) && tab.Valid() && tab.tree == Run(ops[..i])
    {
      assert ops[..i + 1][..i] == ops[..i];
      var code := tab.Put(puts[i].key, puts[i].v, puts[i].replace);
    }
    assert ops[..|puts|] == ops;
  }

  lemma LevelOfTable(t: Tree, ks: seq<string>)
    requires ks != []
    ensures LevelAt(t, ks) == match TableAt(t, ks) case TableV(sub) => Keys(sub) case _ => []
    decreases |ks|
  {
    if Has(t, ks[0]) && Value(t, ks[0]).TableV? {
      var sub := Value(t, ks[0]).sub;
      assert LevelAt(t, ks) == LevelAt(sub, ks[1..]);
      if |ks| == 1 { assert ks[1..] == []; } else { LevelOfTable(sub, ks[1..]); }
    }
  }

  lemma RepKeys(m: Heaplet, h: Sym, p: seq<string>, t: Tree)
    requires Rep(m, h, p, t)
    ensures |m[h].entries| == |t.items| && forall i :: 0 <= i < |t.items| ==> m[h].entries[i].key == t.items[i].key
  {
    assert forall i :: 0 <= i < |t.items| ==> RepItem(m, m[h].entries[i], p, t.items[i]);
  }

  /** The table at a path, NullV if there is none. */
  function TableAt(t: Tree, ks: seq<string>): (v: Val)
    requires ks != []
  {
    match SymbolTree.Get(t, ks)
    case Found(TableV(sub)) => TableV(sub)
    case _ => NullV
  }

  /** The keys not yet found. */
  method Rest(args: array<S.Ptr>, kk: nat, count: nat, ghost ks: seq<string>) returns (todo: seq<string>)
    requires kk <= count == |ks| <= args.Length && forall j :: 0 <= j < count ==> args[j] == S.Str(ks[j])
    ensures todo == ks[kk..]
  {
    todo := [];
    for j := kk to count
      invariant todo == ks[kk..j]
    {
      todo := todo + [args[j].s];
    }
  }

  /** What a put comes to, once the walk has ended at key kk. */
  lemma PutEnds(t: Tree, ks: seq<string>, kk: nat, v: Val, replace: bool)
    requires kk < |ks| && Reaches(t, ks[..kk]) && Distinct(t) && DistinctVal(v)
    ensures Distinct(SymbolTree.Put(t, ks, v, replace).0)
    ensures var sub, todo := Sub(t, ks[..kk]), ks[kk..]; var i := Find(sub.items, ks[kk]);
      && todo[0] == ks[kk]
      && (i == |sub.items| ==>
           SymbolTree.Put(t, ks, v, replace) == (ReplaceAt(t, ks[..kk], AddItem(sub, todo[0], Chain(todo[1..], v))), Done))
      && (i < |sub.items| && kk == |ks| - 1 ==>
           SymbolTree.Put(t, ks, v, replace) ==
             if replace then (ReplaceAt(t, ks[..kk], SetVal(sub, i, v)), Done) else (t, Eexist))
      && (i < |sub.items| && kk < |ks| - 1 && !sub.items[i].val.TableV? ==>
           SymbolTree.Put(t, ks, v, replace) == (t, Enotdir))
  {
    hide Find, Sub, Reaches, ReplaceAt, Chain, SymbolTree.Put, Distinct;
    var ps, todo := ks[..kk], ks[kk..];
    assert ps + todo == ks;
    FromBelow(t, ps, todo, v, replace);
    PutHere(Sub(t, ps), todo, v, replace);
    ReplaceSame(t, ps);
    PutDistinct(t, ks, v, replace);
  }

  /** In m, data d at path ks stands for v. */
  ghost predicate DataAt(m: Heaplet, d: Data, ks: seq<string>, v: Val)
    requires ks != []
  {
    match v
    case NullV => d == Null
    case LeafV(s) => d == Leaf(s)
    case TableV(sub) => d.Table? && Rep(m, d.t, ks, sub)
  }

  lemma DataParts(m: Heaplet, d: Data, ks: seq<string>, kk: nat, v: Val)
    requires kk < |ks|
    ensures var last, ps, todo := ks[|ks| - 1], ks[..kk], ks[kk..];
      && todo != [] && todo[|todo| - 1] == last && (kk == |ks| - 1 ==> ps + todo[..|todo| - 1] == ps && ks[kk] == last)
      && (DataAt(m, d, ks, v) ==> RepItem(m, Entry(last, d), ps + todo[..|todo| - 1], Item(last, v)))
  {
    var ps, todo := ks[..kk], ks[kk..];
    assert ps + todo[..|todo| - 1] == ks[..|ks| - 1];
    assert ks[..|ks| - 1] + [ks[|ks| - 1]] == ks;
  }

  /** The last step of a put, in the table where the walk ended. */
  lemma PutHere(t: Tree, ks: seq<string>, v: Val, replace: bool)
    requires ks != []
    ensures var i := Find(t.items, ks[0]);
      && (i == |t.items| ==> SymbolTree.Put(t, ks, v, replace) == (AddItem(t, ks[0], Chain(ks[1..], v)), Done))
      && (i < |t.items| && |ks| == 1 ==>
            SymbolTree.Put(t, ks, v, replace) == if replace then (SetVal(t, i, v), Done) else (t, Eexist))
      && (i < |t.items| && |ks| > 1 && !t.items[i].val.TableV? ==> SymbolTree.Put(t, ks, v, replace) == (t, Enotdir))
  {
  }

  lemma GetHere(t: Tree, ks: seq<string>)
    requires ks != []
    ensures var i := Find(t.items, ks[0]);
      && (i == |t.items| ==> SymbolTree.Get(t, ks) == Absent)
      && (i < |t.items| && |ks| == 1 ==> SymbolTree.Get(t, ks) == Found(t.items[i].val))
      && (i < |t.items| && |ks| > 1 && !t.items[i].val.TableV? ==> SymbolTree.Get(t, ks) == Blocked)
  {
  }

  lemma {:induction false} ReplaceSame(t: Tree, ps: seq<string>)
    requires Reaches(t, ps)
    ensures ReplaceAt(t, ps, Sub(t, ps)) == t
    decreases |ps|
  {
    if ps != [] {
      ReplaceSame(Value(t, ps[0]).sub, ps[1..]);
      SetSame(t, Find(t.items, ps[0]));
    }
  }

  lemma WalkStart(m: Heaplet, root: Sym, t: Tree, ks: seq<string>)
    requires Rep(m, root, [], t)
    ensures Reaches(t, ks[..0]) && Leads(m, root, ks[..0], root) && Sub(t, ks[..0]) == t && root in m
  {
  }

  lemma FoundAt(t: Tree, key: string)
    ensures var i := Find(t.items, key);
      i <= |t.items| && (i < |t.items| ==> t.items[i].key == key && Has(t, key) && Value(t, key) == t.items[i].val)
  {
  }
}
