/** pan/tag_report.c: recording CUTS results in a symbol table and reporting the worst.

    A result line names a test (tcid), a test case and a status.  cuts_testcase keeps one
    status per (tcid, testcase) pair, the worst seen; cuts_report folds the table into one
    result and counts the numbered test cases. */
module TagReport {
  import opened SymbolTree
  import opened SymbolTable
  import S = SplitStr
  import Z = Zoo

  /** From worst to best. */
  const ORDER: seq<string> := ["FAIL", "BROK", "PASS", "CONF", "WARN", "INFO"]

  function IndexIn(order: seq<string>, s: string): (k: nat)
    ensures k <= |order| && (k < |order| ==> order[k] == s) && (k == |order| ==> s !in order)
  {
    if order == [] || order[0] == s then 0 else 1 + IndexIn(order[1..], s)
  }

  /** The place of a status in the table; unknown ones come last. */
  function Rank(s: string): (k: nat)
    ensures k <= |ORDER| && (k < |ORDER| ==> ORDER[k] == s)
  {
    IndexIn(ORDER, s)
  }

  predicate Known(s: string) { Rank(s) < |ORDER| }

  /** `worst_case`. */
  function WorstCase(a: string, b: string): (w: string) { if Rank(a) < Rank(b) then a else b }

  /** Two known statuses of the same rank are the same. */
  lemma RankInjective(a: string, b: string)
    requires Known(a) && Rank(a) == Rank(b)
    ensures a == b
  {
  }

  // ---------------------------------------------------------------- the stream of results

  datatype Line = Line(tcid: string, tc: string, status: string)

  predicate LineOk(l: Line) {
    && l.tcid != "" && l.tc != "" && l.tcid != "_keys"
    && (forall i :: 0 <= i < |l.tcid| ==> l.tcid[i] != ',') && forall i :: 0 <= i < |l.tc| ==> l.tc[i] != ','
  }

  /** One line's effect on the table. */
  function Step(t: Tree, l: Line): Tree { StepAt(t, [l.tcid, l.tc], l.status) }

  /** The status recorded at a path becomes the worse of the old one and the new. */
  function StepAt(t: Tree, ks: seq<string>, status: string): Tree
    requires ks != []
  {
    match Get(t, ks)
    case Found(LeafV(was)) => Put(t, ks, LeafV(WorstCase(was, status)), true).0
    case _ => Put(t, ks, LeafV(status), false).0
  }

  function Build(ls: seq<Line>): Tree {
    if ls == [] then Tree([]) else Step(Build(ls[..|ls| - 1]), ls[|ls| - 1])
  }

  /** Two levels: tests, then test cases with their status. */
  predicate TestItem(it: Item) {
    && it.key != "" && it.key != "_keys" && (forall i :: 0 <= i < |it.key| ==> it.key[i] != ',')
    && it.val.TableV? && it.val.sub.items != []
    && forall j :: 0 <= j < |it.val.sub.items| ==> it.val.sub.items[j].val.LeafV?
  }

  predicate TagTree(t: Tree) {
    Distinct(t) && forall i :: 0 <= i < |t.items| ==> TestItem(t.items[i])
  }

  /** Status recorded for a pair. */
  ghost predicate Recorded(t: Tree, a: string, b: string, s: string) { Get(t, [a, b]) == Found(LeafV(s)) }

  /** What the table knows of the stream: a recorded status occurred for that pair, and every
      line's pair has a recorded status at least as bad. */
  ghost predicate Summarises(t: Tree, ls: seq<Line>) {
    && (forall a, b, s :: Recorded(t, a, b, s) ==> Line(a, b, s) in ls)
    && (forall l :: l in ls ==> exists s :: Recorded(t, l.tcid, l.tc, s) && Rank(s) <= Rank(l.status))
  }

  // ---------------------------------------------------------------- recording

  lemma TwoKeys(a: string, b: string, c: string, d: string)
    ensures Related([a, b], [c, d]) <==> a == c && b == d
  {
    var x, y := [a, b], [c, d];
    if Related(x, y) { assert x[0] == y[0] && x[1] == y[1]; }
  }

  /** In a table of tests nothing stands in the way of a pair of keys. */
  lemma PairIsFree(t: Tree, a: string, b: string)
    requires TagTree(t)
    ensures match Get(t, [a, b]) case Absent => true case Found(v) => v.LeafV? case Blocked => false
  {
    var ks, rest := [a, b], [b];
    assert ks[0] == a && ks[1..] == rest && rest[0] == b;
    if Has(t, a) {
      var sub := Value(t, a).sub;
      assert Get(t, ks) == Get(sub, rest);
      assert Get(sub, rest) == if Has(sub, b) then Found(Value(sub, b)) else Absent;
    }
  }

  function NewStatus(t: Tree, l: Line): string {
    match Get(t, [l.tcid, l.tc])
    case Found(LeafV(was)) => WorstCase(was, l.status)
    case _ => l.status
  }

  /** A line changes what is recorded for its own pair and for no other. */
  lemma StepRecords(t: Tree, l: Line, a: string, b: string)
    requires TagTree(t)
    ensures Get(Step(t, l), [a, b]) ==
      if a == l.tcid && b == l.tc then Found(LeafV(NewStatus(t, l))) else Get(t, [a, b])
  {
    hide Get, Put, TagTree, WorstCase;
    var ks, v, replace := [l.tcid, l.tc], LeafV(NewStatus(t, l)), Get(t, [l.tcid, l.tc]).Found?;
    PairIsFree(t, l.tcid, l.tc);
    assert Step(t, l) == Put(t, ks, v, replace).0;
    PutCode(t, ks, v, replace);
    TwoKeys(a, b, l.tcid, l.tc);
    if a == l.tcid && b == l.tc {
      PutGet(t, ks, v, replace);
    } else {
      PutFrame(t, ks, v, replace, [a, b]);
    }
  }

  /** The status kept is the worse of the two. */
  lemma WorseOf(a: string, b: string)
    ensures var w := WorstCase(a, b); (w == a || w == b) && Rank(w) <= Rank(a) && Rank(w) <= Rank(b)
    ensures Rank(a) == |ORDER| ==> WorstCase(a, b) == b
  {
  }

  lemma StepSummarises(t: Tree, ls: seq<Line>, l: Line)
    requires TagTree(t) && Summarises(t, ls)
    ensures Summarises(Step(t, l), ls + [l])
  {
    var u := Step(t, l);
    forall a, b, s | Recorded(u, a, b, s) ensures Line(a, b, s) in ls + [l] {
      StepOrigin(t, ls, l, a, b, s);
    }
    forall k | k in ls + [l] ensures exists s :: Recorded(u, k.tcid, k.tc, s) && Rank(s) <= Rank(k.status) {
      var s := StepCovers(t, ls, l, k);
    }
  }

  lemma StepOrigin(t: Tree, ls: seq<Line>, l: Line, a: string, b: string, s: string)
    requires TagTree(t) && Summarises(t, ls) && Recorded(Step(t, l), a, b, s)
    ensures Line(a, b, s) in ls + [l]
  {
    hide TagTree, Step, Get, Rank;
    StepRecords(t, l, a, b);
    if a == l.tcid && b == l.tc {
      var g := Get(t, [a, b]);
      if g.Found? && g.val.LeafV? {
        WorseOf(g.val.v, l.status);
        assert Recorded(t, a, b, g.val.v);
        assert s == l.status ==> Line(a, b, s) == l;
      } else {
        assert Line(a, b, s) == l;
      }
    } else {
      assert Recorded(t, a, b, s);
    }
  }

  lemma StepCovers(t: Tree, ls: seq<Line>, l: Line, k: Line) returns (s: string)
    requires TagTree(t) && Summarises(t, ls) && k in ls + [l]
    ensures Recorded(Step(t, l), k.tcid, k.tc, s) && Rank(s) <= Rank(k.status)
  {
    hide TagTree, Step, Get, Rank;
    StepRecords(t, l, k.tcid, k.tc);
    if k in ls {
      s :| Recorded(t, k.tcid, k.tc, s) && Rank(s) <= Rank(k.status);
    } else {
      s := l.status;
    }
    if k.tcid == l.tcid && k.tc == l.tc {
      var g := Get(t, [l.tcid, l.tc]);
      if g.Found? && g.val.LeafV? { WorseOf(g.val.v, l.status); }
      s := NewStatus(t, l);
    }
  }

  predicate AllLeaves(s: Tree) { s.items != [] && forall j :: 0 <= j < |s.items| ==> s.items[j].val.LeafV? }

  lemma PutLeaf(s: Tree, key: string, v: string, replace: bool)
    requires s.items == [] || AllLeaves(s)
    ensures AllLeaves(Put(s, [key], LeafV(v), replace).0)
  {
    var ks := [key];
    assert ks[1..] == [];
  }

  lemma StepShape(t: Tree, l: Line)
    requires TagTree(t) && LineOk(l)
    ensures TagTree(Step(t, l))
  {
    var ks, v, replace := [l.tcid, l.tc], LeafV(NewStatus(t, l)), Get(t, [l.tcid, l.tc]).Found?;
    PairIsFree(t, l.tcid, l.tc);
    assert Step(t, l) == Put(t, ks, v, replace).0;
    PutDistinct(t, ks, v, replace);
    PutShape(t, l.tcid, l.tc, v.v, replace);
  }

  lemma PutShape(t: Tree, a: string, b: string, s: string, replace: bool)
    requires TagTree(t) && LineOk(Line(a, b, s))
    ensures forall i :: 0 <= i < |Put(t, [a, b], LeafV(s), replace).0.items| ==>
      TestItem(Put(t, [a, b], LeafV(s), replace).0.items[i])
  {
    var ks := [a, b];
    var u, i := Put(t, ks, LeafV(s), replace).0, Find(t.items, a);
    assert ks[1..] == [b] && ks[0] == a;
    if i == |t.items| {
      NewTest(b, s);
    } else {
      assert TestItem(t.items[i]);
      PutLeaf(t.items[i].val.sub, b, s, replace);
    }
  }

  lemma NewTest(b: string, s: string)
    ensures Chain([b], LeafV(s)) == TableV(Tree([Item(b, LeafV(s))]))
  {
    var ks := [b];
    assert ks[1..] == [];
  }

  lemma NothingRecorded()
    ensures TagTree(Tree([])) && Summarises(Tree([]), [])
  {
  }

  predicate Results(ls: seq<Line>) { forall i :: 0 <= i < |ls| ==> LineOk(ls[i]) }

  lemma BuildEnds(ls: seq<Line>)
    requires Results(ls) && ls != []
    ensures var init, l := ls[..|ls| - 1], ls[|ls| - 1];
      Results(init) && LineOk(l) && ls == init + [l] && Build(ls) == Step(Build(init), l)
  {
  }

  /** The table built from any stream of lines summarises it. */
  lemma {:induction false} BuildSummarises(ls: seq<Line>)
    requires Results(ls)
    ensures TagTree(Build(ls)) && Summarises(Build(ls), ls)
  {
    hide TagTree, Summarises, LineOk, Step, Results, Build;
    if ls == [] {
      NothingRecorded();
      assert Build([]) == Tree([]) by { BuildNone(); }
    } else {
      var init, l := ls[..|ls| - 1], ls[|ls| - 1];
      BuildEnds(ls);
      BuildSummarises(init);
      StepShape(Build(init), l);
      StepSummarises(Build(init), init, l);
    }
  }

  lemma BuildNone()
    ensures Build([]) == Tree([])
  {
  }

  // ---------------------------------------------------------------- the report, as folds

  /** The table cuts_report is given: tests, and the "_keys" entry of the tag. */
  predicate ReportTree(t: Tree) {
    && Distinct(t) && t.items != []
    && forall i :: 0 <= i < |t.items| ==> t.items[i].key == "_keys" || TestItem(t.items[i])
  }

  function Ids(items: seq<Item>, k: nat): seq<string>
    requires k <= |items|
    decreases |items| - k
  {
    if k == |items| then [] else (if items[k].key == "_keys" then [] else [items[k].key]) + Ids(items, k + 1)
  }

  predicate Cases(items: seq<Item>) { forall j :: 0 <= j < |items| ==> items[j].val.LeafV? }

  function Worst(items: seq<Item>, j: nat, acc: string): string
    requires j <= |items| && Cases(items)
    decreases |items| - j
  {
    if j == |items| then acc else Worst(items, j + 1, WorstCase(acc, items[j].val.v))
  }

  function Numbered(items: seq<Item>, j: nat): nat
    requires j <= |items|
    decreases |items| - j
  {
    if j == |items| then 0 else (if Z.Atoi(items[j].key) != 0 then 1 else 0) + Numbered(items, j + 1)
  }

  predicate TestId(t: Tree, id: string) { Has(t, id) && Value(t, id).TableV? && AllLeaves(Value(t, id).sub) }

  function CasesOf(t: Tree, id: string): (items: seq<Item>)
    ensures Cases(items)
  {
    if TestId(t, id) then Value(t, id).sub.items else []
  }

  function WorstOf(t: Tree, ids: seq<string>, k: nat, acc: string): string
    requires k <= |ids|
    decreases |ids| - k
  {
    if k == |ids| then acc else WorstOf(t, ids, k + 1, Worst(CasesOf(t, ids[k]), 0, acc))
  }

  function CountOf(t: Tree, ids: seq<string>, k: nat): nat
    requires k <= |ids|
    decreases |ids| - k
  {
    if k == |ids| then 0 else Numbered(CasesOf(t, ids[k]), 0) + CountOf(t, ids, k + 1)
  }

  function Verdict(t: Tree): string { WorstOf(t, Ids(t.items, 0), 0, "") }
  function Tally(t: Tree): nat { CountOf(t, Ids(t.items, 0), 0) }

  lemma {:induction false} IdsAre(items: seq<Item>, k: nat)
    requires k <= |items|
    ensures forall id :: id in Ids(items, k) <==> id != "_keys" && exists i :: k <= i < |items| && items[i].key == id
    decreases |items| - k
  {
    if k < |items| { IdsAre(items, k + 1); }
  }

  lemma {:induction false} IdsDistinct(items: seq<Item>, k: nat)
    requires k <= |items| && forall i, j :: 0 <= i < j < |items| ==> items[i].key != items[j].key
    ensures forall i, j :: 0 <= i < j < |Ids(items, k)| ==> Ids(items, k)[i] != Ids(items, k)[j]
    decreases |items| - k
  {
    if k < |items| {
      IdsDistinct(items, k + 1);
      IdsAre(items, k + 1);
      NewFirst(items[k].key, Ids(items, k + 1));
    }
  }

  lemma NewFirst(x: string, rest: seq<string>)
    requires x !in rest && forall i, j :: 0 <= i < j < |rest| ==> rest[i] != rest[j]
    ensures var all := [x] + rest; forall i, j :: 0 <= i < j < |all| ==> all[i] != all[j]
    ensures [] + rest == rest
  {
  }

  // ---------------------------------------------------------------- what the folds find

  lemma {:induction false} WorstIs(items: seq<Item>, j: nat, acc: string)
    requires j <= |items| && Cases(items)
    ensures var w := Worst(items, j, acc);
      && Rank(w) <= Rank(acc) && (forall i :: j <= i < |items| ==> Rank(w) <= Rank(items[i].val.v))
      && (w == acc || exists i :: j <= i < |items| && items[i].val.v == w)
    ensures Rank(acc) == |ORDER| && j < |items| ==> exists i :: j <= i < |items| && items[i].val.v == Worst(items, j, acc)
    decreases |items| - j
  {
    hide Rank, WorstCase;
    if j < |items| {
      WorseOf(acc, items[j].val.v);
      WorstIs(items, j + 1, WorstCase(acc, items[j].val.v));
    }
  }

  /** Some test has a case with this status. */
  predicate HasStatus(t: Tree, id: string, s: string) {
    exists i :: 0 <= i < |CasesOf(t, id)| && CasesOf(t, id)[i].val.v == s
  }

  lemma {:induction false} WorstOfIs(t: Tree, ids: seq<string>, k: nat, acc: string)
    requires k <= |ids|
    ensures var w := WorstOf(t, ids, k, acc);
      && Rank(w) <= Rank(acc)
      && (forall j, s :: k <= j < |ids| && HasStatus(t, ids[j], s) ==> Rank(w) <= Rank(s))
      && (w == acc || exists j :: k <= j < |ids| && HasStatus(t, ids[j], w))
    ensures Rank(acc) == |ORDER| && (exists j :: k <= j < |ids| && CasesOf(t, ids[j]) != []) ==>
      exists j :: k <= j < |ids| && HasStatus(t, ids[j], WorstOf(t, ids, k, acc))
    decreases |ids| - k
  {
    hide Rank, CasesOf;
    if k < |ids| {
      var mid := Worst(CasesOf(t, ids[k]), 0, acc);
      WorstIs(CasesOf(t, ids[k]), 0, acc);
      WorstOfIs(t, ids, k + 1, mid);
    }
  }

  function CaseSet(id: string, items: seq<Item>, j: nat): set<(string, string)>
    requires j <= |items|
    decreases |items| - j
  {
    if j == |items| then {}
    else (if Z.Atoi(items[j].key) != 0 then {(id, items[j].key)} else {}) + CaseSet(id, items, j + 1)
  }

  ghost predicate NumberedFrom(p: (string, string), id: string, items: seq<Item>, j: nat)
    requires j <= |items|
  {
    p.0 == id && Z.Atoi(p.1) != 0 && exists i :: j <= i < |items| && items[i].key == p.1
  }

  lemma {:induction false} CaseSetIs(id: string, items: seq<Item>, j: nat, p: (string, string))
    requires j <= |items|
    ensures p in CaseSet(id, items, j) <==> NumberedFrom(p, id, items, j)
    decreases |items| - j
  {
    hide Z.Atoi;
    if j < |items| { CaseSetIs(id, items, j + 1, p); }
  }

  lemma {:induction false} CaseSetSize(id: string, items: seq<Item>, j: nat)
    requires j <= |items| && forall i, k :: 0 <= i < k < |items| ==> items[i].key != items[k].key
    ensures |CaseSet(id, items, j)| == Numbered(items, j)
    decreases |items| - j
  {
    hide Z.Atoi;
    if j < |items| {
      CaseSetSize(id, items, j + 1);
      CaseSetIs(id, items, j + 1, (id, items[j].key));
    }
  }

  function PairSet(t: Tree, ids: seq<string>, k: nat): set<(string, string)>
    requires k <= |ids|
    decreases |ids| - k
  {
    if k == |ids| then {} else CaseSet(ids[k], CasesOf(t, ids[k]), 0) + PairSet(t, ids, k + 1)
  }

  predicate HasCase(t: Tree, id: string, tc: string) {
    exists i :: 0 <= i < |CasesOf(t, id)| && CasesOf(t, id)[i].key == tc
  }

  lemma {:induction false} PairSetIs(t: Tree, ids: seq<string>, k: nat, a: string, b: string)
    requires k <= |ids|
    ensures (a, b) in PairSet(t, ids, k) <==> Z.Atoi(b) != 0 && HasCase(t, a, b) && a in ids[k..]
    decreases |ids| - k
  {
    hide Z.Atoi, CasesOf, CaseSet;
    if k < |ids| {
      PairSetIs(t, ids, k + 1, a, b);
      CaseSetIs(ids[k], CasesOf(t, ids[k]), 0, (a, b));
      assert ids[k..] == [ids[k]] + ids[k + 1..];
    }
  }

  lemma {:induction false} PairSetSize(t: Tree, ids: seq<string>, k: nat)
    requires k <= |ids| && Distinct(t) && forall i, j :: 0 <= i < j < |ids| ==> ids[i] != ids[j]
    ensures |PairSet(t, ids, k)| == CountOf(t, ids, k)
    decreases |ids| - k
  {
    hide Z.Atoi, CasesOf, CaseSet, Numbered, NumberedFrom, HasCase, Distinct;
    if k < |ids| {
      var here, rest := CaseSet(ids[k], CasesOf(t, ids[k]), 0), PairSet(t, ids, k + 1);
      PairSetSize(t, ids, k + 1);
      CasesDistinct(t, ids[k]);
      CaseSetSize(ids[k], CasesOf(t, ids[k]), 0);
      forall p | p in here && p in rest ensures false {
        CaseSetIs(ids[k], CasesOf(t, ids[k]), 0, p);
        PairSetIs(t, ids, k + 1, p.0, p.1);
        FromOne(p, ids[k], CasesOf(t, ids[k]));
      }
      assert here !! rest;
    }
  }

  lemma FromOne(p: (string, string), id: string, items: seq<Item>)
    requires NumberedFrom(p, id, items, 0)
    ensures p == (id, p.1)
  {
  }

  lemma SubDistinct(t: Tree, id: string)
    requires Distinct(t) && Has(t, id) && Value(t, id).TableV?
    ensures var items := Value(t, id).sub.items; forall i, k :: 0 <= i < k < |items| ==> items[i].key != items[k].key
  {
    var i := Find(t.items, id);
    assert DistinctVal(t.items[i].val);
    assert Distinct(t.items[i].val.sub);
  }

  lemma CasesDistinct(t: Tree, id: string)
    requires Distinct(t)
    ensures forall i, k :: 0 <= i < k < |CasesOf(t, id)| ==> CasesOf(t, id)[i].key != CasesOf(t, id)[k].key
  {
    if TestId(t, id) { SubDistinct(t, id); }
  }

  // ---------------------------------------------------------------- from the table to the stream

  /** What is known of the tag itself, in a table of its own. */
  type TagKeys = t: Tree | Distinct(t) witness Tree([])

  /** The tag's table when the report is made: the results, then the "_keys" entry. */
  function Tagged(ls: seq<Line>, keys: TagKeys): Tree { Put(Build(ls), ["_keys"], TableV(keys), false).0 }

  /** What is recorded for a test case is what the table holds among the test's cases. */
  lemma RecordedIs(t: Tree, a: string, b: string, s: string)
    requires Distinct(t) && (Has(t, a) ==> TestId(t, a))
    ensures Recorded(t, a, b, s) <==> Item(b, LeafV(s)) in CasesOf(t, a)
  {
    var ks, rest := [a, b], [b];
    assert ks[0] == a && ks[1..] == rest && rest[0] == b;
    if Has(t, a) {
      var sub := Value(t, a).sub;
      assert Get(t, ks) == Get(sub, rest);
      assert Get(sub, rest) == if Has(sub, b) then Found(Value(sub, b)) else Absent;
      SubDistinct(t, a);
      if Item(b, LeafV(s)) in sub.items {
        var i :| 0 <= i < |sub.items| && sub.items[i] == Item(b, LeafV(s));
        FindIs(sub.items, b, i);
      }
    }
  }

  lemma NoKeysYet(t: Tree)
    requires TagTree(t)
    ensures !Has(t, "_keys")
  {
  }

  lemma TaggedIs(ls: seq<Line>, keys: TagKeys)
    requires Results(ls)
    ensures Tagged(ls, keys) == AddItem(Build(ls), "_keys", TableV(keys)) && ReportTree(Tagged(ls, keys))
  {
    hide Build, Results;
    BuildSummarises(ls);
    NoKeysYet(Build(ls));
    var ks := ["_keys"];
    assert ks[1..] == [];
    PutDistinct(Build(ls), ks, TableV(keys), false);
  }

  lemma TaggedRecords(ls: seq<Line>, keys: TagKeys, a: string, b: string, s: string)
    requires Results(ls) && a != "_keys"
    ensures Recorded(Tagged(ls, keys), a, b, s) <==> Recorded(Build(ls), a, b, s)
  {
    hide Build, Results, Put, Get;
    var ks, ps := ["_keys"], [a, b];
    assert ps[0] != ks[0];
    PutFrame(Build(ls), ks, TableV(keys), false, ps);
  }

  /** Every test of a report's table is a test, with its cases. */
  lemma ReportTests(t: Tree, a: string)
    requires ReportTree(t) && a != "_keys"
    ensures Has(t, a) ==> TestId(t, a)
    ensures Has(t, a) <==> a in Ids(t.items, 0)
  {
    IdsAre(t.items, 0);
    HasIff(t, a);
    if Has(t, a) { assert TestItem(t.items[Find(t.items, a)]); }
  }

  /** The table's cases against the stream, for one test case and status. */
  lemma CaseOfStream(ls: seq<Line>, keys: TagKeys, a: string, b: string, s: string)
    requires Results(ls) && a != "_keys"
    ensures var t := Tagged(ls, keys); Item(b, LeafV(s)) in CasesOf(t, a) <==> Recorded(Build(ls), a, b, s)
    ensures var t := Tagged(ls, keys); Item(b, LeafV(s)) in CasesOf(t, a) ==> a in Ids(t.items, 0)
  {
    hide Build, Results, Tagged, Recorded, ReportTree, Ids;
    var t := Tagged(ls, keys);
    TaggedIs(ls, keys);
    ReportTests(t, a);
    ReportDistinct(t);
    RecordedIs(t, a, b, s);
    TaggedRecords(ls, keys, a, b, s);
  }

  lemma ReportDistinct(t: Tree)
    requires ReportTree(t)
    ensures Distinct(t) && forall i, j :: 0 <= i < j < |t.items| ==> t.items[i].key != t.items[j].key
  {
  }

  ghost predicate IsWorst(w: string, ls: seq<Line>) {
    && (exists l :: l in ls && l.status == w)
    && (forall l :: l in ls ==> Rank(w) <= Rank(l.status))
  }

  /** The case that stands for a line in the table. */
  lemma CaseFor(ls: seq<Line>, keys: TagKeys, l: Line) returns (j: nat, s: string)
    requires Results(ls) && l in ls
    ensures var t := Tagged(ls, keys); j < |Ids(t.items, 0)| && HasStatus(t, Ids(t.items, 0)[j], s)
    ensures Rank(s) <= Rank(l.status)
  {
    hide Build, Results, Tagged, Recorded, Rank, CasesOf, TagTree, LineOk, Ids;
    var t := Tagged(ls, keys);
    StreamLine(ls, l);
    BuildSummarises(ls);
    s :| Recorded(Build(ls), l.tcid, l.tc, s) && Rank(s) <= Rank(l.status);
    CaseOfStream(ls, keys, l.tcid, l.tc, s);
    j :| 0 <= j < |Ids(t.items, 0)| && Ids(t.items, 0)[j] == l.tcid;
  }

  lemma VerdictCovers(ls: seq<Line>, keys: TagKeys, l: Line)
    requires Results(ls) && l in ls
    ensures Rank(Verdict(Tagged(ls, keys))) <= Rank(l.status)
  {
    hide Results, Tagged, Rank, HasStatus, WorstOf, Ids;
    var t := Tagged(ls, keys);
    var j, s := CaseFor(ls, keys, l);
    WorstOfIs(t, Ids(t.items, 0), 0, "");
  }

  lemma StreamLine(ls: seq<Line>, l: Line)
    requires Results(ls) && l in ls
    ensures LineOk(l) && l.tcid != "_keys"
  {
  }

  lemma VerdictOccurs(ls: seq<Line>, keys: TagKeys)
    requires Results(ls) && ls != []
    ensures exists l :: l in ls && l.status == Verdict(Tagged(ls, keys))
  {
    hide Build, Results, Tagged, Recorded, Rank, CasesOf, WorstOf, TagTree, LineOk, Ids;
    var t := Tagged(ls, keys);
    var ids, w := Ids(t.items, 0), Verdict(t);
    assert Rank("") == |ORDER| by { EmptyUnknown(); }
    var k, s := CaseFor(ls, keys, ls[0]);
    WorstOfIs(t, ids, 0, "");
    var j :| 0 <= j < |ids| && HasStatus(t, ids[j], w);
    var i :| 0 <= i < |CasesOf(t, ids[j])| && CasesOf(t, ids[j])[i].val.v == w;
    var a, b := ids[j], CasesOf(t, ids[j])[i].key;
    assert CasesOf(t, a)[i] == Item(b, LeafV(w));
    IdsAre(t.items, 0);
    assert a in ids;
    CaseOfStream(ls, keys, a, b, w);
    BuildSummarises(ls);
    assert Line(a, b, w) in ls;
  }

  /** Once a known status occurs anywhere, the report is the worst status of the whole stream,
      however the lines are ordered, repeated and spread over test cases. */
  lemma WorstReported(ls: seq<Line>, keys: TagKeys, l: Line)
    requires Results(ls) && l in ls && Known(l.status)
    ensures IsWorst(Verdict(Tagged(ls, keys)), ls)
  {
    hide Tagged, Results, Verdict, Rank;
    forall k | k in ls ensures Rank(Verdict(Tagged(ls, keys))) <= Rank(k.status) { VerdictCovers(ls, keys, k); }
    VerdictOccurs(ls, keys);
  }

  lemma EmptyUnknown()
    ensures Rank("") == |ORDER|
  {
  }

  function Statuses(ls: seq<Line>): set<string> { set l | l in ls :: l.status }

  /** So it depends on nothing but the set of statuses seen. */
  lemma OrderDoesNotMatter(ls: seq<Line>, ms: seq<Line>, keys: TagKeys, l: Line)
    requires Results(ls) && Results(ms) && l in ls && Known(l.status) && Statuses(ls) == Statuses(ms)
    ensures Verdict(Tagged(ls, keys)) == Verdict(Tagged(ms, keys))
  {
    hide Tagged, Results, Verdict, Rank;
    assert l.status in Statuses(ms);
    var m :| m in ms && m.status == l.status;
    WorstReported(ls, keys, l);
    WorstReported(ms, keys, m);
    var v, w := Verdict(Tagged(ls, keys)), Verdict(Tagged(ms, keys));
    assert v in Statuses(ls) && w in Statuses(ms);
    assert Rank(v) <= Rank(w) && Rank(w) <= Rank(v);
    RankInjective(v, w);
  }

  // ---------------------------------------------------------------- unknown statuses

  /** A case number of its own for every index. */
  function Tc(i: nat): (s: string)
    ensures |s| == i + 1
  {
    seq(i + 1, _ => 'x')
  }

  /** One test, one case per status. */
  function Spread(ss: seq<string>): (ls: seq<Line>)
    ensures |ls| == |ss| && forall i :: 0 <= i < |ss| ==> ls[i] == Line("a", Tc(i), ss[i])
  {
    seq(|ss|, i requires 0 <= i < |ss| => Line("a", Tc(i), ss[i]))
  }

  function CaseItems(ss: seq<string>): (items: seq<Item>)
    ensures |items| == |ss| && forall i :: 0 <= i < |ss| ==> items[i] == Item(Tc(i), LeafV(ss[i]))
  {
    seq(|ss|, i requires 0 <= i < |ss| => Item(Tc(i), LeafV(ss[i])))
  }

  function OneTest(ss: seq<string>): Tree { Tree([Item("a", TableV(Tree(CaseItems(ss))))]) }

  lemma NewCase(ss: seq<string>, x: string)
    requires ss != []
    ensures Step(OneTest(ss), Line("a", Tc(|ss|), x)) == OneTest(ss + [x])
  {
    var t, sub, tc := OneTest(ss), Tree(CaseItems(ss)), Tc(|ss|);
    var ks, rest := ["a", tc], [tc];
    assert ks[0] == "a" && ks[1..] == rest && rest[0] == tc && rest[1..] == [];
    FindIs(t.items, "a", 0);
    FindIs(sub.items, tc, |ss|);
    assert Get(t, ks) == Get(sub, rest) == Absent;
    assert Put(sub, rest, LeafV(x), false).0 == AddItem(sub, tc, LeafV(x));
    assert CaseItems(ss + [x]) == CaseItems(ss) + [Item(tc, LeafV(x))];
  }

  lemma FirstCase(x: string)
    ensures Step(Tree([]), Line("a", Tc(0), x)) == OneTest([x])
  {
    var ks, rest := ["a", Tc(0)], [Tc(0)];
    assert ks[0] == "a" && ks[1..] == rest;
    NewTest(Tc(0), x);
    assert CaseItems([x]) == [Item(Tc(0), LeafV(x))];
  }

  lemma {:induction false} SpreadBuilds(ss: seq<string>)
    requires ss != []
    ensures Build(Spread(ss)) == OneTest(ss) && Results(Spread(ss))
  {
    hide OneTest, Step;
    var n := |ss| - 1;
    assert Spread(ss)[..n] == Spread(ss[..n]) && ss == ss[..n] + [ss[n]];
    if n == 0 {
      FirstCase(ss[0]);
    } else {
      SpreadBuilds(ss[..n]);
      NewCase(ss[..n], ss[n]);
    }
  }

  lemma {:induction false} LastUnknownWins(items: seq<Item>, j: nat, acc: string)
    requires j <= |items| && Cases(items) && !Known(acc) && forall i :: 0 <= i < |items| ==> !Known(items[i].val.v)
    ensures Worst(items, j, acc) == if j == |items| then acc else items[|items| - 1].val.v
    decreases |items| - j
  {
    if j < |items| {
      WorseOf(acc, items[j].val.v);
      LastUnknownWins(items, j + 1, items[j].val.v);
    }
  }

  /** When every status is unknown the last case decides. */
  lemma SpreadVerdict(ss: seq<string>, keys: TagKeys)
    requires ss != [] && forall i :: 0 <= i < |ss| ==> !Known(ss[i])
    ensures Verdict(Tagged(Spread(ss), keys)) == ss[|ss| - 1]
  {
    var t := Tagged(Spread(ss), keys);
    var items := CaseItems(ss);
    assert t.items == [Item("a", TableV(Tree(items))), Item("_keys", TableV(keys))] by {
      SpreadBuilds(ss);
      TaggedIs(Spread(ss), keys);
    }
    assert Ids(t.items, 0) == ["a"] by { assert Ids(t.items, 1) == Ids(t.items, 2) == []; }
    FindIs(t.items, "a", 0);
    assert CasesOf(t, "a") == items;
    EmptyUnknown();
    LastUnknownWins(items, 0, "");
    OnlyTest(t, "a");
  }

  lemma OnlyTest(t: Tree, a: string)
    ensures WorstOf(t, [a], 0, "") == Worst(CasesOf(t, a), 0, "")
  {
    var ids := [a];
    assert WorstOf(t, ids, 1, Worst(CasesOf(t, ids[0]), 0, "")) == Worst(CasesOf(t, a), 0, "");
  }

  function StatusList(ls: seq<Line>): (ss: seq<string>)
    ensures |ss| == |ls| && forall i :: 0 <= i < |ls| ==> ss[i] == ls[i].status
  {
    seq(|ls|, i requires 0 <= i < |ls| => ls[i].status)
  }

  lemma StatusesIndexed(ls: seq<Line>, s: string)
    ensures s in Statuses(ls) <==> exists i :: 0 <= i < |ls| && ls[i].status == s
  {
    if s in Statuses(ls) {
      var l :| l in ls && l.status == s;
    }
  }

  /** The same statuses, reported differently. */
  lemma ReportsDifferently(ls: seq<Line>, keys: TagKeys, y: string) returns (ms: seq<Line>)
    requires Results(ls) && ls != [] && forall s :: s in Statuses(ls) ==> !Known(s)
    requires y in Statuses(ls)
    ensures Results(ms) && Statuses(ms) == Statuses(ls) && Verdict(Tagged(ms, keys)) == y
  {
    hide Tagged, Results, Verdict, Rank, Statuses, Tc;
    var ss := StatusList(ls) + [y];
    forall i | 0 <= i < |ls| ensures ls[i].status in Statuses(ls) { StatusesIndexed(ls, ls[i].status); }
    ms := Spread(ss);
    SpreadBuilds(ss);
    SpreadVerdict(ss, keys);
    forall s ensures s in Statuses(ms) <==> s in Statuses(ls) {
      StatusesIndexed(ls, s);
      StatusesIndexed(ms, s);
      SpreadHas(ls, y, s);
    }
  }

  lemma SpreadHas(ls: seq<Line>, y: string, s: string)
    ensures var ms := Spread(StatusList(ls) + [y]);
      (exists i :: 0 <= i < |ms| && ms[i].status == s) <==> s == y || exists i :: 0 <= i < |ls| && ls[i].status == s
  {
    var ms := Spread(StatusList(ls) + [y]);
    assert ms[|ls|].status == y;
    assert forall i :: 0 <= i < |ls| ==> ms[i].status == ls[i].status;
  }

  /** Every stream with the same statuses reports the same. */
  ghost predicate Determined(ls: seq<Line>, keys: TagKeys) {
    forall ms :: Results(ms) && Statuses(ms) == Statuses(ls) ==> Verdict(Tagged(ms, keys)) == Verdict(Tagged(ls, keys))
  }

  /** The report is decided by the statuses seen exactly when one of them is in the table or
      there is only one. */
  lemma DeterminedExactly(ls: seq<Line>, keys: TagKeys)
    requires Results(ls) && ls != []
    ensures Determined(ls, keys) <==>
      (exists l :: l in ls && Known(l.status)) || (forall k, l :: k in ls && l in ls ==> k.status == l.status)
  {
    hide Tagged, Results, Verdict, Rank;
    if l :| l in ls && Known(l.status) {
      forall ms | Results(ms) && Statuses(ms) == Statuses(ls)
        ensures Verdict(Tagged(ms, keys)) == Verdict(Tagged(ls, keys))
      {
        OrderDoesNotMatter(ls, ms, keys, l);
      }
    } else if forall k, l :: k in ls && l in ls ==> k.status == l.status {
      forall ms | Results(ms) && Statuses(ms) == Statuses(ls)
        ensures Verdict(Tagged(ms, keys)) == Verdict(Tagged(ls, keys))
      {
        assert ls[0].status in Statuses(ms);
        VerdictOccurs(ls, keys);
        VerdictOccurs(ms, keys);
        assert Verdict(Tagged(ms, keys)) in Statuses(ls);
      }
    } else {
      var k, l :| k in ls && l in ls && k.status != l.status;
      assert k.status in Statuses(ls) && l.status in Statuses(ls);
      var kk := ReportsDifferently(ls, keys, k.status);
      var ll := ReportsDifferently(ls, keys, l.status);
    }
  }

  /** The numbered test cases of a stream. */
  function NumberedPairs(ls: seq<Line>): set<(string, string)> {
    set l | l in ls && Z.Atoi(l.tc) != 0 :: (l.tcid, l.tc)
  }

  /** The count reported is the number of distinct numbered test cases in the stream. */
  lemma TallyIsDistinctCases(ls: seq<Line>, keys: TagKeys)
    requires Results(ls)
    ensures Tally(Tagged(ls, keys)) == |NumberedPairs(ls)|
  {
    hide Tagged, Results, Z.Atoi, CasesOf, CountOf, PairSet, HasCase, Ids;
    var t := Tagged(ls, keys);
    var ids := Ids(t.items, 0);
    TaggedIs(ls, keys);
    ReportDistinct(t);
    IdsDistinct(t.items, 0);
    PairSetSize(t, ids, 0);
    assert ids[0..] == ids;
    forall p: (string, string) ensures p in PairSet(t, ids, 0) <==> p in NumberedPairs(ls) {
      PairSetIs(t, ids, 0, p.0, p.1);
      PairOfStream(ls, keys, p.0, p.1);
      assert p == (p.0, p.1);
    }
    assert PairSet(t, ids, 0) == NumberedPairs(ls);
  }

  lemma PairOfStream(ls: seq<Line>, keys: TagKeys, a: string, b: string)
    requires Results(ls)
    ensures var t := Tagged(ls, keys);
      (HasCase(t, a, b) && a in Ids(t.items, 0)) <==> exists l :: l in ls && l.tcid == a && l.tc == b
  {
    hide Tagged, Results, CasesOf, Build, Recorded, TagTree, Ids, Rank;
    var t := Tagged(ls, keys);
    BuildSummarises(ls);
    IdsAre(t.items, 0);
    if HasCase(t, a, b) && a in Ids(t.items, 0) {
      var i :| 0 <= i < |CasesOf(t, a)| && CasesOf(t, a)[i].key == b;
      var s := CasesOf(t, a)[i].val.v;
      assert CasesOf(t, a)[i] == Item(b, LeafV(s));
      CaseOfStream(ls, keys, a, b, s);
      assert Line(a, b, s) in ls;
    }
    if l :| l in ls && l.tcid == a && l.tc == b {
      StreamLine(ls, l);
      var s :| Recorded(Build(ls), a, b, s) && Rank(s) <= Rank(l.status);
      CaseOfStream(ls, keys, a, b, s);
    }
  }

  // ---------------------------------------------------------------- the code

  /** The search of the status table in `worst_case`. */
  method PlaceOf(s: string) returns (w: nat)
    ensures w == Rank(s)
  {
    w := 0;
    while w < |ORDER| && s != ORDER[w]
      invariant w <= |ORDER| && forall k :: 0 <= k < w ==> ORDER[k] != s
    {
      w := w + 1;
    }
    IndexInIs(ORDER, s, w);
  }

  lemma {:induction false} IndexInIs(order: seq<string>, s: string, w: nat)
    requires w <= |order| && (w < |order| ==> order[w] == s) && forall k :: 0 <= k < w ==> order[k] != s
    ensures IndexIn(order, s) == w
  {
    if w > 0 {
      assert order[0] != s;
      IndexInIs(order[1..], s, w - 1);
    }
  }

  /** `worst_case`: the status with the smaller place, the second on a tie. */
  method Worse(t1: string, t2: string) returns (w: string)
    ensures w == WorstCase(t1, t2)
  {
    var w1 := PlaceOf(t1);
    var w2 := PlaceOf(t2);
    w := if w1 < w2 then t1 else t2;
  }

  /** The key cuts_testcase builds names the pair. */
  lemma PairKey(l: Line)
    requires LineOk(l)
    ensures S.Tokens(l.tcid + "," + l.tc, {','}) == [l.tcid, l.tc]
  {
    var ks := [l.tcid, l.tc];
    assert ks[1..] == [l.tc];
    assert S.Join([l.tc], ',') == l.tc;
    assert S.Join(ks, ',') == l.tcid + "," + l.tc;
    S.SplitUndoesJoin(ks, ',');
  }

  /** `cuts_testcase`: the status at the key made of test and case becomes the worse of the old one
      and the line's; in a table of tests that is what the line means.  The key may have more
      components, if the words contain commas, but a table at it would be read as a string. */
  method CutsTestcase(tags: SymTab, l: Line)
    requires tags.Valid() && S.Tokens(l.tcid + "," + l.tc, {','}) != []
    requires !TableAt(tags.tree, S.Tokens(l.tcid + "," + l.tc, {','})).TableV?
    modifies tags`nodes, tags`tree, tags.nodes`entries
    ensures tags.Valid() && tags.tree == StepAt(old(tags.tree), S.Tokens(l.tcid + "," + l.tc, {','}), l.status)
    ensures LineOk(l) && TagTree(old(tags.tree)) ==> tags.tree == Step(old(tags.tree), l) && TagTree(tags.tree)
    ensures old(tags.nodes) <= tags.nodes && fresh(tags.nodes - old(tags.nodes))
  {
    hide TagTree, LineOk, SymbolTree.Put, SymbolTree.Get, S.Tokens, SymTab.Valid, WorstCase;
    var key := l.tcid + "," + l.tc;
    ghost var t := tags.tree;
    var oldresult := tags.Get(key);
    if oldresult != Null {
      var newresult := Worse(oldresult.v, l.status);
      var code := tags.Put(key, LeafV(newresult), true);
    } else {
      var code := tags.Put(key, LeafV(l.status), false);
    }
    if LineOk(l) && TagTree(t) {
      PairKey(l);
      StepShape(t, l);
    }
  }

  lemma RootItems(tags: SymTab)
    requires tags.Valid()
    ensures |tags.root.entries| == |tags.tree.items|
    ensures forall i :: 0 <= i < |tags.tree.items| ==> tags.root.entries[i].key == tags.tree.items[i].key
  {
    RepKeys(Snapshot(tags.nodes), tags.root, [], tags.tree);
  }

  /** The first loop of `cuts_report`: the test ids, in the order they were first seen. */
  method ListTests(tags: SymTab) returns (ids: seq<string>)
    requires tags.Valid() && tags.tree.items != []
    modifies tags`cursor
    ensures ids == Ids(tags.tree.items, 0)
  {
    hide SymTab.Valid, Ids;
    RootItems(tags);
    ghost var items, k := tags.tree.items, 0;
    ids := [];
    var code, node := tags.First();
    while code == 0
      invariant code == 0 || code == 1
      invariant k <= |items| && ids + Ids(items, k) == Ids(items, 0)
      invariant code == 0 ==> k < |items| && tags.cursor == At(tags.root, k) && node.key == items[k].key
      invariant code == 1 ==> k == |items|
      decreases |items| - k
    {
      IdsStep(ids, items, k);
      if node.key != "_keys" {
        ids := ids + [node.key];
      }
      k := k + 1;
      code, node := tags.Next();
    }
    IdsEnd(items);
  }

  lemma IdsStep(ids: seq<string>, items: seq<Item>, k: nat)
    requires k < |items|
    ensures ids + Ids(items, k) == (if items[k].key == "_keys" then ids else ids + [items[k].key]) + Ids(items, k + 1)
  {
  }

  lemma IdsEnd(items: seq<Item>)
    ensures Ids(items, |items|) == []
  {
  }

  lemma OneKey(id: string)
    requires id != "" && forall i :: 0 <= i < |id| ==> id[i] != ','
    ensures S.Tokens(id, {','}) == [id]
  {
    assert S.Join([id], ',') == id;
    S.SplitUndoesJoin([id], ',');
  }

  /** The table of one test, as the cursor finds it. */
  lemma TestTable(t: Tree, id: string)
    requires ReportTree(t) && id in Ids(t.items, 0)
    ensures S.Tokens(id, {','}) == [id] && TableAt(t, [id]) == TableV(Tree(CasesOf(t, id))) && CasesOf(t, id) != []
  {
    IdsAre(t.items, 0);
    ReportTests(t, id);
    var i := Find(t.items, id);
    assert TestItem(t.items[i]);
    OneKey(id);
    var ks := [id];
    assert SymbolTree.Get(t, ks) == Found(Value(t, id));
  }

  lemma CaseEntries(m: Heaplet, h: Sym, p: seq<string>, items: seq<Item>)
    requires Rep(m, h, p, Tree(items)) && Cases(items)
    ensures h in m && |m[h].entries| == |items|
    ensures forall i :: 0 <= i < |items| ==> m[h].entries[i] == Entry(items[i].key, Leaf(items[i].val.v))
  {
    forall i | 0 <= i < |items| ensures m[h].entries[i] == Entry(items[i].key, Leaf(items[i].val.v)) {
      assert RepItem(m, m[h].entries[i], p, Tree(items).items[i]);
    }
  }

  /** The inner loop of `cuts_report`, over the cases of one test. */
  method ReportCases(tags: SymTab, id: string, was: string, count: nat) returns (result: string, tcnum: nat)
    requires tags.Valid() && ReportTree(tags.tree) && id in Ids(tags.tree.items, 0)
    modifies tags`cursor
    ensures result == Worst(CasesOf(tags.tree, id), 0, was)
    ensures tcnum == count + Numbered(CasesOf(tags.tree, id), 0)
  {
    hide SymTab.Valid, ReportTree, CasesOf, Ids, S.Tokens, TableAt, Rep, WorstCase, Z.Atoi;
    ghost var items, j := CasesOf(tags.tree, id), 0;
    TestTable(tags.tree, id);
    result, tcnum := was, count;
    var code, node := tags.SetCursor(id);
    ghost var t := tags.cursor.t;
    CaseEntries(Snapshot(tags.nodes), t, [id], items);
    while code == 0
      invariant code == 0 || code == 1
      invariant j <= |items| && Worst(items, j, result) == Worst(items, 0, was)
      invariant tcnum + Numbered(items, j) == count + Numbered(items, 0)
      invariant code == 0 ==> j < |items| && tags.cursor == At(t, j) && node == t.entries[j]
      invariant code == 1 ==> j == |items|
      decreases |items| - j
    {
      result := Worse(result, node.data.v);
      if Z.Atoi(node.key) != 0 {
        tcnum := tcnum + 1;
      }
      j := j + 1;
      code, node := tags.Next();
    }
  }

  /** `cuts_report`: the overall result, the number of numbered cases, and whether it differs
      from the count the analysis type announced. */
  method CutsReport(tags: SymTab, tccount: int) returns (result: string, tcnum: nat, wrong: bool)
    requires tags.Valid() && ReportTree(tags.tree)
    modifies tags`cursor
    ensures result == Verdict(tags.tree) && tcnum == Tally(tags.tree)
    ensures wrong <==> tccount != 0 && tccount != tcnum
  {
    hide SymTab.Valid, CasesOf, Ids, Worst, Numbered;
    var ids := ListTests(tags);
    result, tcnum := "", 0;
    var k := 0;
    while k < |ids|
      invariant k <= |ids| && WorstOf(tags.tree, ids, k, result) == Verdict(tags.tree)
      invariant tcnum + CountOf(tags.tree, ids, k) == Tally(tags.tree)
    {
      result, tcnum := ReportCases(tags, ids[k], result, tcnum);
      k := k + 1;
    }
    wrong := tccount != 0 && tccount != tcnum;
  }

  /** One tag from its first result line to its report, with the keys of the tag put last: the worst status
      of the stream and the number of distinct numbered cases. */
  method ReportTag(ls: seq<Line>, puts: seq<KeyedPut>, tccount: int) returns (result: string, tcnum: nat, wrong: bool)
    requires Results(ls) && PutsOk(puts)
    ensures (exists l :: l in ls && Known(l.status)) ==> IsWorst(result, ls)
    ensures tcnum == |NumberedPairs(ls)|
    ensures wrong <==> tccount != 0 && tccount != |NumberedPairs(ls)|
  {
    hide SymTab.Valid, TagTree, ReportTree, Step, LineOk, Verdict, Tally, NumberedPairs, IsWorst, Rank, S.Tokens,
      SymbolTree.Put;
    var tags: SymTab := new SymTab();
    NothingRecorded();
    BuildNone();
    var i := 0;
    assert ls[..0] == [];
    while i < |ls|
      invariant i <= |ls| && tags.Valid() && fresh(tags) && fresh(tags.nodes)
      invariant tags.tree == Build(ls[..i]) && TagTree(tags.tree)
    {
      BuildStep(ls, i);
      PairKey(ls[i]);
      NoTableThere(tags.tree, ls[i].tcid, ls[i].tc);
      CutsTestcase(tags, ls[i]);
      i := i + 1;
    }
    assert ls[..i] == ls;
    OneKey("_keys");
    var given := PutAll(puts);
    ghost var keys := TreeOf(given);
    var code := tags.PutTable("_keys", given, false);
    TaggedIs(ls, keys);
    result, tcnum, wrong := CutsReport(tags, tccount);
    TallyIsDistinctCases(ls, keys);
    if l :| l in ls && Known(l.status) {
      WorstReported(ls, keys, l);
    }
  }

  ghost function TreeOf(tab: SymTab): (t: TagKeys)
    requires tab.Valid()
    reads tab, tab.nodes
    ensures t == tab.tree
  {
    tab.tree
  }

  lemma NoTableThere(t: Tree, a: string, b: string)
    requires TagTree(t)
    ensures !TableAt(t, [a, b]).TableV?
  {
    PairIsFree(t, a, b);
  }

  lemma BuildStep(ls: seq<Line>, i: nat)
    requires i < |ls|
    ensures Build(ls[..i + 1]) == Step(Build(ls[..i]), ls[i])
  {
    var init := ls[..i + 1];
    assert init[..i] == ls[..i];
  }
}
