/** pan/symbol.c on values: a hierarchical table as a tree, and the path map it stands for.

    The table in the heap (SymbolTable.dfy) is proved to follow these functions; here they are
    proved to behave as a map from key paths to data. */
module SymbolTree {

  /** A node's data pointer: NULL, a caller's pointer, or a nested table. */
  datatype Val = NullV | LeafV(v: string) | TableV(sub: Tree)
  datatype Item = Item(key: string, val: Val)
  datatype Tree = Tree(items: seq<Item>)

  datatype Code = Done | Eexist | Enotdir

  /** `find_key1`: the first item with the key, or the number of items. */
  function Find(items: seq<Item>, key: string): (i: nat)
    ensures i <= |items| && (i < |items| ==> items[i].key == key) && forall j :: 0 <= j < i ==> items[j].key != key
  {
    if items == [] || items[0].key == key then 0 else 1 + Find(items[1..], key)
  }

  predicate Has(t: Tree, key: string) { Find(t.items, key) < |t.items| }

  function Value(t: Tree, key: string): Val
    requires Has(t, key)
  {
    t.items[Find(t.items, key)].val
  }

  /** The new keys of a path, nested one in the other. */
  function Chain(ks: seq<string>, v: Val): Val {
    if ks == [] then v else TableV(Tree([Item(ks[0], Chain(ks[1..], v))]))
  }

  function SetVal(t: Tree, i: nat, v: Val): Tree
    requires i < |t.items|
  {
    Tree(t.items[i := t.items[i].(val := v)])
  }

  function AddItem(t: Tree, key: string, v: Val): Tree { Tree(t.items + [Item(key, v)]) }

  /** `sym_put` on a tree. */
  function Put(t: Tree, ks: seq<string>, v: Val, replace: bool): (Tree, Code)
    requires ks != []
    decreases |ks|
  {
    var i := Find(t.items, ks[0]);
    if i == |t.items| then (AddItem(t, ks[0], Chain(ks[1..], v)), Done)
    else if |ks| == 1 then (if replace then (SetVal(t, i, v), Done) else (t, Eexist))
    else match t.items[i].val
      case TableV(sub) => var (s, c) := Put(sub, ks[1..], v, replace); (SetVal(t, i, TableV(s)), c)
      case _ => (t, Enotdir)
  }

  /** What stands at a path. */
  datatype Look = Absent | Blocked | Found(val: Val)

  /** The path map: `sym_get` returns the value found, and NULL for the other two. */
  function Get(t: Tree, ks: seq<string>): Look
    requires ks != []
    decreases |ks|
  {
    if !Has(t, ks[0]) then Absent
    else if |ks| == 1 then Found(Value(t, ks[0]))
    else match Value(t, ks[0])
      case TableV(sub) => Get(sub, ks[1..])
      case _ => Blocked
  }

  /** Sibling keys are distinct, at every level. */
  predicate Distinct(t: Tree) {
    && (forall i, j :: 0 <= i < j < |t.items| ==> t.items[i].key != t.items[j].key)
    && (forall i :: 0 <= i < |t.items| ==> DistinctVal(t.items[i].val))
  }

  predicate DistinctVal(v: Val) { v.TableV? ==> Distinct(v.sub) }

  // ---------------------------------------------------------------- finding

  lemma FindIs(items: seq<Item>, key: string, k: nat)
    requires k <= |items| && (k < |items| ==> items[k].key == key) && forall j :: 0 <= j < k ==> items[j].key != key
    ensures Find(items, key) == k
  {
    var f := Find(items, key);
  }

  lemma HasIff(t: Tree, key: string)
    ensures Has(t, key) <==> exists i :: 0 <= i < |t.items| && t.items[i].key == key
  {
    var f := Find(t.items, key);
  }

  /** Changing the value of one key. */
  lemma SetValFind(t: Tree, i: nat, v: Val, key: string)
    requires i < |t.items|
    ensures Find(SetVal(t, i, v).items, key) == Find(t.items, key)
  {
    FindIs(SetVal(t, i, v).items, key, Find(t.items, key));
  }

  lemma AddItemFind(t: Tree, key: string, v: Val, other: string)
    requires !Has(t, key)
    ensures Find(AddItem(t, key, v).items, other) ==
      if other == key then |t.items| else if Has(t, other) then Find(t.items, other) else |t.items| + 1
  {
    var u := AddItem(t, key, v);
    FindIs(u.items, other, if other == key then |t.items| else if Has(t, other) then Find(t.items, other) else |t.items| + 1);
  }

  // ---------------------------------------------------------------- the laws of the path map

  lemma {:induction false} ChainGet(ks: seq<string>, v: Val, ps: seq<string>)
    requires ks != [] && ps != []
    ensures var sub := Chain(ks, v).sub;
      Get(sub, ps) ==
        if ps == ks then Found(v)
        else if ps < ks then Found(Chain(ks[|ps|..], v))
        else if ks < ps then (match v case TableV(s) => Get(s, ps[|ks|..]) case _ => Blocked)
        else Absent
    decreases |ks|
  {
    var sub := Chain(ks, v).sub;
    FindIs(sub.items, ps[0], if ps[0] == ks[0] then 0 else 1);
    if ps[0] == ks[0] {
      assert ks == [ks[0]] + ks[1..] && ps == [ps[0]] + ps[1..];
      if |ks| > 1 && |ps| > 1 {
        ChainGet(ks[1..], v, ps[1..]);
        assert ps < ks ==> ks[1..][|ps[1..]|..] == ks[|ps|..];
        assert ks < ps ==> ps[1..][|ks[1..]|..] == ps[|ks|..];
      }
    }
  }

  /** What a put returns is decided by what stood at the path. */
  lemma {:induction false} PutCode(t: Tree, ks: seq<string>, v: Val, replace: bool)
    requires ks != []
    ensures Put(t, ks, v, replace).1 ==
      match Get(t, ks)
      case Absent => Done
      case Blocked => Enotdir
      case Found(_) => if replace then Done else Eexist
    decreases |ks|
  {
    if Has(t, ks[0]) && |ks| > 1 && Value(t, ks[0]).TableV? {
      PutCode(Value(t, ks[0]).sub, ks[1..], v, replace);
    }
  }

  lemma SetSame(t: Tree, i: nat)
    requires i < |t.items|
    ensures SetVal(t, i, t.items[i].val) == t
  {
    assert t.items[i := t.items[i].(val := t.items[i].val)] == t.items;
  }

  /** A put that fails changes nothing. */
  lemma {:induction false} PutFails(t: Tree, ks: seq<string>, v: Val, replace: bool)
    requires ks != [] && Put(t, ks, v, replace).1 != Done
    ensures Put(t, ks, v, replace).0 == t
    decreases |ks|
  {
    var i := Find(t.items, ks[0]);
    if |ks| > 1 && t.items[i].val.TableV? {
      PutFails(t.items[i].val.sub, ks[1..], v, replace);
      SetSame(t, i);
    }
  }

  predicate Related(ps: seq<string>, ks: seq<string>) { ps <= ks || ks <= ps }

  lemma RelatedTails(ps: seq<string>, ks: seq<string>)
    requires ps != [] && ks != [] && ps[0] == ks[0]
    ensures Related(ps, ks) <==> Related(ps[1..], ks[1..])
  {
    assert ps == [ps[0]] + ps[1..] && ks == [ks[0]] + ks[1..];
  }

  /** What a path finds below a value. */
  function GetIn(v: Val, ps: seq<string>): Look {
    if ps == [] then Found(v) else match v case TableV(sub) => Get(sub, ps) case _ => Blocked
  }

  /** Setting one value changes the paths through its key and no others. */
  lemma GetSet(t: Tree, i: nat, v: Val, ps: seq<string>)
    requires i < |t.items| && Find(t.items, t.items[i].key) == i && ps != []
    ensures Get(SetVal(t, i, v), ps) == if ps[0] == t.items[i].key then GetIn(v, ps[1..]) else Get(t, ps)
  {
    hide Find;
    SetValFind(t, i, v, ps[0]);
  }

  /** So does adding a key. */
  lemma GetAdd(t: Tree, key: string, v: Val, ps: seq<string>)
    requires !Has(t, key) && ps != []
    ensures Get(AddItem(t, key, v), ps) == if ps[0] == key then GetIn(v, ps[1..]) else Get(t, ps)
  {
    hide Find;
    AddItemFind(t, key, v, ps[0]);
  }

  /** After a successful put the path leads to the new data. */
  lemma {:induction false} PutGet(t: Tree, ks: seq<string>, v: Val, replace: bool)
    requires ks != [] && Put(t, ks, v, replace).1 == Done
    ensures Get(Put(t, ks, v, replace).0, ks) == Found(v)
    decreases |ks|
  {
    hide Find, Chain;
    var i := Find(t.items, ks[0]);
    if i == |t.items| {
      GetAdd(t, ks[0], Chain(ks[1..], v), ks);
      ChainNone(ks[1..], v);
      if |ks| > 1 { ChainGet(ks[1..], v, ks[1..]); }
    } else if |ks| == 1 {
      GetSet(t, i, v, ks);
    } else {
      var sub := t.items[i].val.sub;
      PutGet(sub, ks[1..], v, replace);
      GetSet(t, i, TableV(Put(sub, ks[1..], v, replace).0), ks);
    }
  }

  lemma ChainNone(ks: seq<string>, v: Val)
    ensures if ks == [] then Chain(ks, v) == v else Chain(ks, v).TableV?
  {
  }

  /** A put leaves every path alone that is neither a prefix nor an extension of its own. */
  lemma {:induction false} PutFrame(t: Tree, ks: seq<string>, v: Val, replace: bool, ps: seq<string>)
    requires ks != [] && ps != [] && !Related(ps, ks)
    ensures Get(Put(t, ks, v, replace).0, ps) == Get(t, ps)
    decreases |ks|
  {
    hide Find, Chain;
    var i := Find(t.items, ks[0]);
    if ps[0] == ks[0] { RelatedTails(ps, ks); }
    if i == |t.items| {
      GetAdd(t, ks[0], Chain(ks[1..], v), ps);
      ChainNone(ks[1..], v);
      if ps[0] == ks[0] { ChainGet(ks[1..], v, ps[1..]); }
    } else if |ks| == 1 {
      if replace { GetSet(t, i, v, ps); }
    } else if t.items[i].val.TableV? {
      var sub := t.items[i].val.sub;
      GetSet(t, i, TableV(Put(sub, ks[1..], v, replace).0), ps);
      if ps[0] == ks[0] { PutFrame(sub, ks[1..], v, replace, ps[1..]); }
    }
  }

  /** Prefixes of a path that was put lead to tables. */
  lemma {:induction false} PutPrefix(t: Tree, ks: seq<string>, v: Val, replace: bool, ps: seq<string>)
    requires ps != [] && ps < ks && Put(t, ks, v, replace).1 == Done
    ensures var g := Get(Put(t, ks, v, replace).0, ps); g.Found? && g.val.TableV?
    decreases |ks|
  {
    var i := Find(t.items, ks[0]);
    var u := Put(t, ks, v, replace).0;
    assert ps[0] == ks[0];
    if i == |t.items| {
      AddItemFind(t, ks[0], Chain(ks[1..], v), ks[0]);
      if |ps| > 1 { ChainGet(ks[1..], v, ps[1..]); }
    } else {
      SetValFind(t, i, u.items[i].val, ks[0]);
      if |ps| > 1 { PutPrefix(t.items[i].val.sub, ks[1..], v, replace, ps[1..]); }
    }
  }

  lemma {:induction false} ChainDistinct(ks: seq<string>, v: Val)
    requires DistinctVal(v)
    ensures DistinctVal(Chain(ks, v))
  {
    if ks != [] { ChainDistinct(ks[1..], v); }
  }

  lemma SetDistinct(t: Tree, i: nat, v: Val)
    requires Distinct(t) && i < |t.items| && DistinctVal(v)
    ensures Distinct(SetVal(t, i, v))
  {
  }

  lemma AddDistinct(t: Tree, key: string, v: Val)
    requires Distinct(t) && !Has(t, key) && DistinctVal(v)
    ensures Distinct(AddItem(t, key, v))
  {
    HasIff(t, key);
  }

  /** Sibling keys stay unique. */
  lemma {:induction false} PutDistinct(t: Tree, ks: seq<string>, v: Val, replace: bool)
    requires ks != [] && Distinct(t) && DistinctVal(v)
    ensures Distinct(Put(t, ks, v, replace).0)
    decreases |ks|
  {
    var i := Find(t.items, ks[0]);
    if i == |t.items| {
      ChainDistinct(ks[1..], v);
      AddDistinct(t, ks[0], Chain(ks[1..], v));
    } else if |ks| == 1 {
      if replace { SetDistinct(t, i, v); }
    } else if t.items[i].val.TableV? {
      assert DistinctVal(t.items[i].val);
      PutDistinct(t.items[i].val.sub, ks[1..], v, replace);
      SetDistinct(t, i, TableV(Put(t.items[i].val.sub, ks[1..], v, replace).0));
    }
  }

  /** The keys of a level in order, for enumeration. */
  function Keys(t: Tree): (r: seq<string>)
    ensures |r| == |t.items|
  {
    seq(|t.items|, i requires 0 <= i < |t.items| => t.items[i].key)
  }

  /** A put keeps the order of the keys of the level and adds at most one, at the end. */
  lemma PutOrder(t: Tree, ks: seq<string>, v: Val, replace: bool)
    requires ks != []
    ensures Keys(Put(t, ks, v, replace).0) == if Has(t, ks[0]) then Keys(t) else Keys(t) + [ks[0]]
  {
  }

  // ---------------------------------------------------------------- the way down

  /** ps leads through tables only. */
  predicate Reaches(t: Tree, ps: seq<string>)
    decreases |ps|
  {
    ps == [] || (Has(t, ps[0]) && Value(t, ps[0]).TableV? && Reaches(Value(t, ps[0]).sub, ps[1..]))
  }

  /** The table ps leads to. */
  function Sub(t: Tree, ps: seq<string>): Tree
    requires Reaches(t, ps)
    decreases |ps|
  {
    if ps == [] then t else Sub(Value(t, ps[0]).sub, ps[1..])
  }

  /** The tree with the table at ps replaced. */
  function ReplaceAt(t: Tree, ps: seq<string>, s: Tree): Tree
    requires Reaches(t, ps)
    decreases |ps|
  {
    if ps == [] then s
    else SetVal(t, Find(t.items, ps[0]), TableV(ReplaceAt(Value(t, ps[0]).sub, ps[1..], s)))
  }

  /** Putting and getting can be done from any table on the way. */
  lemma {:induction false} FromBelow(t: Tree, ps: seq<string>, ks: seq<string>, v: Val, replace: bool)
    requires Reaches(t, ps) && ks != []
    ensures Get(t, ps + ks) == Get(Sub(t, ps), ks)
    ensures var (s, c) := Put(Sub(t, ps), ks, v, replace); Put(t, ps + ks, v, replace) == (ReplaceAt(t, ps, s), c)
    decreases |ps|
  {
    if ps == [] {
      assert ps + ks == ks;
    } else {
      assert (ps + ks)[1..] == ps[1..] + ks;
      FromBelow(Value(t, ps[0]).sub, ps[1..], ks, v, replace);
    }
  }

  /** One step further down. */
  lemma {:induction false} ReachesStep(t: Tree, ps: seq<string>, key: string)
    requires Reaches(t, ps)
    ensures Reaches(t, ps + [key]) <==> Has(Sub(t, ps), key) && Value(Sub(t, ps), key).TableV?
    ensures Reaches(t, ps + [key]) ==> Sub(t, ps + [key]) == Value(Sub(t, ps), key).sub
    decreases |ps|
  {
    if ps == [] {
      var one := [key];
      assert one[1..] == [] && ps + [key] == one;
    } else {
      assert (ps + [key])[1..] == ps[1..] + [key];
      ReachesStep(Value(t, ps[0]).sub, ps[1..], key);
    }
  }

  // ---------------------------------------------------------------- the order of the keys

  /** The keys of the table at ps, in order; none if there is no table. */
  function LevelAt(t: Tree, ps: seq<string>): seq<string>
    decreases |ps|, 0
  {
    if ps == [] then Keys(t) else if Has(t, ps[0]) then LevelIn(Value(t, ps[0]), ps[1..]) else []
  }

  function LevelIn(v: Val, ps: seq<string>): seq<string>
    decreases |ps|, 1
  {
    match v case TableV(sub) => LevelAt(sub, ps) case _ => []
  }

  lemma {:induction false} LevelDistinct(t: Tree, ps: seq<string>)
    requires Distinct(t)
    ensures forall i, j :: 0 <= i < j < |LevelAt(t, ps)| ==> LevelAt(t, ps)[i] != LevelAt(t, ps)[j]
    decreases |ps|
  {
    if ps != [] && Has(t, ps[0]) && Value(t, ps[0]).TableV? {
      var sub := Value(t, ps[0]).sub;
      assert DistinctVal(t.items[Find(t.items, ps[0])].val);
      assert Distinct(sub);
      LevelDistinct(sub, ps[1..]);
      assert LevelAt(t, ps) == LevelAt(sub, ps[1..]);
    }
  }

  /** What a successful put at ks makes of the keys at ps: its key there comes last if it is new;
      a put at ps or above replaces the level. */
  function LevelPut(level: seq<string>, ps: seq<string>, ks: seq<string>, v: Val): seq<string> {
    if ps < ks then (if ks[|ps|] in level then level else level + [ks[|ps|]])
    else if ks <= ps then LevelIn(v, ps[|ks|..])
    else level
  }

  lemma LevelPutTails(level: seq<string>, ps: seq<string>, ks: seq<string>, v: Val)
    requires ps != [] && ks != []
    ensures ps[0] != ks[0] ==> LevelPut(level, ps, ks, v) == level
    ensures ps[0] == ks[0] ==> LevelPut(level, ps, ks, v) == LevelPut(level, ps[1..], ks[1..], v)
  {
    if ps[0] == ks[0] {
      assert ps == [ps[0]] + ps[1..] && ks == [ks[0]] + ks[1..];
      assert ks <= ps ==> ps[|ks|..] == ps[1..][|ks[1..]|..];
    }
  }

  lemma {:induction false} ChainLevel(ks: seq<string>, v: Val, ps: seq<string>)
    ensures LevelIn(Chain(ks, v), ps) == LevelPut([], ps, ks, v)
    decreases |ks|
  {
    if ks == [] {
      assert ps[0..] == ps;
    } else {
      var sub := Chain(ks, v).sub;
      assert Keys(sub) == [ks[0]];
      if ps != [] {
        FindIs(sub.items, ps[0], if ps[0] == ks[0] then 0 else 1);
        LevelPutTails([], ps, ks, v);
        if ps[0] == ks[0] { ChainLevel(ks[1..], v, ps[1..]); }
      }
    }
  }

  lemma KeyInKeys(t: Tree, key: string)
    ensures Has(t, key) <==> key in Keys(t)
  {
    HasIff(t, key);
    if key in Keys(t) {
      var i :| 0 <= i < |Keys(t)| && Keys(t)[i] == key;
      assert t.items[i].key == key;
    }
    if Has(t, key) { assert Keys(t)[Find(t.items, key)] == key; }
  }

  lemma LevelSet(t: Tree, i: nat, v: Val, ps: seq<string>)
    requires i < |t.items| && Find(t.items, t.items[i].key) == i && ps != []
    ensures LevelAt(SetVal(t, i, v), ps) == if ps[0] == t.items[i].key then LevelIn(v, ps[1..]) else LevelAt(t, ps)
  {
    SetValFind(t, i, v, ps[0]);
  }

  lemma LevelAdd(t: Tree, key: string, v: Val, ps: seq<string>)
    requires !Has(t, key) && ps != []
    ensures LevelAt(AddItem(t, key, v), ps) == if ps[0] == key then LevelIn(v, ps[1..]) else LevelAt(t, ps)
  {
    AddItemFind(t, key, v, ps[0]);
  }

  /** One put, seen at any level. */
  lemma {:induction false} PutLevel(t: Tree, ks: seq<string>, v: Val, replace: bool, ps: seq<string>)
    requires ks != [] && Put(t, ks, v, replace).1 == Done
    ensures LevelAt(Put(t, ks, v, replace).0, ps) == LevelPut(LevelAt(t, ps), ps, ks, v)
    decreases |ks|
  {
    hide Find, Chain, LevelPut, Keys;
    var i := Find(t.items, ks[0]);
    if ps == [] {
      PutOrder(t, ks, v, replace);
      KeyInKeys(t, ks[0]);
      LevelPutTop(Keys(t), ks, v);
    } else {
      LevelPutTails(LevelAt(t, ps), ps, ks, v);
      if i == |t.items| {
        LevelAdd(t, ks[0], Chain(ks[1..], v), ps);
        ChainLevel(ks[1..], v, ps[1..]);
      } else if |ks| == 1 {
        LevelSet(t, i, v, ps);
        LevelPutHere(LevelAt(t, ps), ps[1..], ks[1..], v);
      } else {
        var sub := t.items[i].val.sub;
        LevelSet(t, i, TableV(Put(sub, ks[1..], v, replace).0), ps);
        if ps[0] == ks[0] { PutLevel(sub, ks[1..], v, replace, ps[1..]); }
      }
    }
  }

  lemma LevelPutTop(level: seq<string>, ks: seq<string>, v: Val)
    requires ks != []
    ensures LevelPut(level, [], ks, v) == if ks[0] in level then level else level + [ks[0]]
  {
  }

  lemma LevelPutHere(level: seq<string>, ps: seq<string>, ks: seq<string>, v: Val)
    requires ks == []
    ensures LevelPut(level, ps, ks, v) == LevelIn(v, ps)
  {
    assert ps[0..] == ps;
  }

  datatype PutOp = PutOp(ks: seq<string>, v: Val, replace: bool)

  predicate OpsOk(ops: seq<PutOp>) { forall i :: 0 <= i < |ops| ==> ops[i].ks != [] }

  /** The table after a sequence of puts. */
  function Run(ops: seq<PutOp>): Tree
    requires OpsOk(ops)
  {
    if ops == [] then Tree([])
    else var op := ops[|ops| - 1]; Put(Run(ops[..|ops| - 1]), op.ks, op.v, op.replace).0
  }

  /** Put i succeeds. */
  predicate Succeeds(ops: seq<PutOp>, i: nat)
    requires OpsOk(ops) && i < |ops|
  {
    Put(Run(ops[..i]), ops[i].ks, ops[i].v, ops[i].replace).1 == Done
  }

  /** Put i succeeds and goes through this key of the table at ps. */
  predicate Hits(ops: seq<PutOp>, i: nat, ps: seq<string>, key: string)
    requires OpsOk(ops) && i < |ops|
  {
    Succeeds(ops, i) && ps < ops[i].ks && ops[i].ks[|ps|] == key
  }

  /** The first put from number `from` on that does; the number of puts if none does. */
  function FirstPut(ops: seq<PutOp>, from: nat, ps: seq<string>, key: string): (i: nat)
    requires OpsOk(ops) && from <= |ops|
    ensures from <= i <= |ops|
  {
    if |ops| == from then from
    else
      var n := |ops| - 1; var f := FirstPut(ops[..n], from, ps, key);
      if f < n || Hits(ops, n, ps, key) then f else n + 1
  }

  lemma {:induction false} FirstPutIs(ops: seq<PutOp>, from: nat, ps: seq<string>, key: string)
    requires OpsOk(ops) && from <= |ops|
    ensures var f := FirstPut(ops, from, ps, key);
      && (f < |ops| ==> Hits(ops, f, ps, key)) && forall i :: from <= i < f && i < |ops| ==> !Hits(ops, i, ps, key)
  {
    hide Succeeds;
    if |ops| > from {
      var n := |ops| - 1;
      FirstPutIs(ops[..n], from, ps, key);
      forall i | 0 <= i < n ensures Hits(ops[..n], i, ps, key) == Hits(ops, i, ps, key) { SameHits(ops, n, i, ps, key); }
    }
  }

  lemma SameHits(ops: seq<PutOp>, n: nat, i: nat, ps: seq<string>, key: string)
    requires OpsOk(ops) && i < n <= |ops|
    ensures Hits(ops[..n], i, ps, key) == Hits(ops, i, ps, key)
  {
    assert ops[..n][..i] == ops[..i];
  }

  /** How many puts there are up to the last successful one at ps or above, which gave the path a
      new meaning; 0 if there is none. */
  function Since(ops: seq<PutOp>, ps: seq<string>): (k: nat)
    requires OpsOk(ops)
    ensures k <= |ops|
  {
    if ops == [] then 0
    else var n := |ops| - 1; if Succeeds(ops, n) && ops[n].ks <= ps then n + 1 else Since(ops[..n], ps)
  }

  /** The keys of base, then those put since number `from`, in the order of their first successful
      put, and all of them. */
  ghost predicate InPutOrder(ops: seq<PutOp>, from: nat, ps: seq<string>, base: seq<string>, level: seq<string>)
    requires OpsOk(ops) && from <= |ops|
  {
    && base <= level
    && (forall key :: key in level <==> key in base || FirstPut(ops, from, ps, key) < |ops|)
    && (forall a :: |base| <= a < |level| ==> level[a] !in base)
    && (forall a, b :: |base| <= a < b < |level| ==> FirstPut(ops, from, ps, level[a]) < FirstPut(ops, from, ps, level[b]))
  }

  /** After any sequence of puts the keys of every level stand in the order of their first successful
      put since the last one at its path or above, behind the keys that put brought. */
  lemma {:induction false} LevelsInPutOrder(ops: seq<PutOp>, ps: seq<string>)
    requires OpsOk(ops)
    ensures var from := Since(ops, ps); InPutOrder(ops, from, ps, LevelAt(Run(ops[..from]), ps), LevelAt(Run(ops), ps))
  {
    hide Put, Succeeds, Hits, InPutOrder, LevelAt, LevelPut, FirstPut;
    var from := Since(ops, ps);
    var base := LevelAt(Run(ops[..from]), ps);
    if from == |ops| {
      assert ops[..from] == ops;
      NothingSince(ops, ps, base);
    } else {
      var n := |ops| - 1;
      LevelsInPutOrder(ops[..n], ps);
      assert ops[..n][..from] == ops[..from];
      var t, op := Run(ops[..n]), ops[n];
      LastPut(ops);
      if Succeeds(ops, n) {
        PutLevel(t, op.ks, op.v, op.replace, ps);
        HitOrder(ops, from, ps, base, LevelAt(t, ps));
      } else {
        PutFails(t, op.ks, op.v, op.replace);
        MissOrder(ops, from, ps, base, LevelAt(t, ps));
      }
    }
  }

  /** What that put brought: the keys below it if it was a table, none otherwise. */
  lemma LevelBase(ops: seq<PutOp>, ps: seq<string>)
    requires OpsOk(ops)
    ensures var from := Since(ops, ps);
      && (from == 0 ==> LevelAt(Run(ops[..from]), ps) == [])
      && (from > 0 ==> ops[from - 1].ks <= ps)
      && (from > 0 ==> LevelAt(Run(ops[..from]), ps) == LevelIn(ops[from - 1].v, ps[|ops[from - 1].ks|..]))
  {
    hide Put, LevelAt, LevelIn, Succeeds;
    var from := Since(ops, ps);
    if from == 0 {
      NoKeysYet(ps);
      assert ops[..0] == [];
    } else {
      SinceIs(ops, ps);
      var until := ops[..from];
      var op := ops[from - 1];
      assert until[..from - 1] == ops[..from - 1];
      LastPut(until);
      LastPut(ops[..from]);
      SucceedsIs(ops, from - 1);
      PutLevel(Run(ops[..from - 1]), op.ks, op.v, op.replace, ps);
    }
  }

  lemma {:induction false} SinceIs(ops: seq<PutOp>, ps: seq<string>)
    requires OpsOk(ops)
    ensures var from := Since(ops, ps); from > 0 ==> Succeeds(ops, from - 1) && ops[from - 1].ks <= ps
  {
    hide Succeeds;
    if ops != [] {
      var n := |ops| - 1;
      SinceIs(ops[..n], ps);
      var k := Since(ops[..n], ps);
      if k > 0 { SameSuccess(ops, n, k - 1); }
    }
  }

  lemma SameSuccess(ops: seq<PutOp>, n: nat, i: nat)
    requires OpsOk(ops) && i < n <= |ops|
    ensures Succeeds(ops[..n], i) == Succeeds(ops, i)
  {
    assert ops[..n][..i] == ops[..i];
  }

  lemma SucceedsIs(ops: seq<PutOp>, i: nat)
    requires OpsOk(ops) && i < |ops|
    ensures Succeeds(ops, i) <==> Put(Run(ops[..i]), ops[i].ks, ops[i].v, ops[i].replace).1 == Done
  {
  }

  lemma NoKeysYet(ps: seq<string>)
    ensures LevelAt(Run([]), ps) == []
  {
  }

  lemma NothingSince(ops: seq<PutOp>, ps: seq<string>, base: seq<string>)
    requires OpsOk(ops)
    ensures InPutOrder(ops, |ops|, ps, base, base)
  {
  }

  lemma LastPut(ops: seq<PutOp>)
    requires OpsOk(ops) && ops != []
    ensures var n := |ops| - 1; var (u, c) := Put(Run(ops[..n]), ops[n].ks, ops[n].v, ops[n].replace);
      Run(ops) == u && (Succeeds(ops, n) <==> c == Done)
  {
  }

  lemma FirstPutStep(ops: seq<PutOp>, from: nat, ps: seq<string>, key: string)
    requires OpsOk(ops) && from < |ops|
    ensures var n := |ops| - 1; var f := FirstPut(ops[..n], from, ps, key);
      f <= n && FirstPut(ops, from, ps, key) == if f < n || Hits(ops, n, ps, key) then f else n + 1
  {
  }

  lemma HitsNothing(ops: seq<PutOp>, i: nat, ps: seq<string>, key: string)
    requires OpsOk(ops) && i < |ops|
    ensures Hits(ops, i, ps, key) <==> Succeeds(ops, i) && ps < ops[i].ks && ops[i].ks[|ps|] == key
  {
  }

  lemma MissOrder(ops: seq<PutOp>, from: nat, ps: seq<string>, base: seq<string>, level: seq<string>)
    requires OpsOk(ops) && from < |ops| && InPutOrder(ops[..|ops| - 1], from, ps, base, level)
    requires Succeeds(ops, |ops| - 1) ==> !(ps < ops[|ops| - 1].ks)
    ensures InPutOrder(ops, from, ps, base, level)
  {
    hide Succeeds, Hits, FirstPut;
    var n := |ops| - 1;
    forall key ensures FirstPut(ops, from, ps, key) < |ops| <==> FirstPut(ops[..n], from, ps, key) < n
      ensures FirstPut(ops[..n], from, ps, key) < n ==> FirstPut(ops, from, ps, key) == FirstPut(ops[..n], from, ps, key)
    {
      FirstPutStep(ops, from, ps, key);
      HitsNothing(ops, n, ps, key);
    }
  }

  lemma HitOrder(ops: seq<PutOp>, from: nat, ps: seq<string>, base: seq<string>, level: seq<string>)
    requires OpsOk(ops) && from < |ops| && InPutOrder(ops[..|ops| - 1], from, ps, base, level)
    requires Succeeds(ops, |ops| - 1) && !(ops[|ops| - 1].ks <= ps)
    ensures InPutOrder(ops, from, ps, base, LevelPut(level, ps, ops[|ops| - 1].ks, ops[|ops| - 1].v))
  {
    hide Succeeds, Hits, FirstPut, InPutOrder;
    var n := |ops| - 1;
    var ks := ops[n].ks;
    if ps < ks {
      HitsNothing(ops, n, ps, ks[|ps|]);
      HitAppends(ops, from, ps, base, level, ks[|ps|]);
    } else {
      MissOrder(ops, from, ps, base, level);
    }
  }

  lemma FirstPutNext(ops: seq<PutOp>, from: nat, ps: seq<string>, key: string, other: string)
    requires OpsOk(ops) && from < |ops| && Hits(ops, |ops| - 1, ps, key)
    ensures var n := |ops| - 1; var f := FirstPut(ops[..n], from, ps, other);
      f <= n && FirstPut(ops, from, ps, other) == if f < n || other == key then f else n + 1
  {
    FirstPutStep(ops, from, ps, other);
    HitsNothing(ops, |ops| - 1, ps, other);
    HitsNothing(ops, |ops| - 1, ps, key);
  }

  lemma HitAppends(ops: seq<PutOp>, from: nat, ps: seq<string>, base: seq<string>, level: seq<string>, key: string)
    requires OpsOk(ops) && from < |ops| && Hits(ops, |ops| - 1, ps, key)
    requires InPutOrder(ops[..|ops| - 1], from, ps, base, level)
    ensures InPutOrder(ops, from, ps, base, if key in level then level else level + [key])
  {
    hide Succeeds, FirstPut, Hits, InPutOrder;
    if key in level {
      HitKnown(ops, from, ps, base, level, key);
    } else {
      HitNew(ops, from, ps, base, level, key);
    }
  }

  lemma HitKnown(ops: seq<PutOp>, from: nat, ps: seq<string>, base: seq<string>, level: seq<string>, key: string)
    requires OpsOk(ops) && from < |ops| && Hits(ops, |ops| - 1, ps, key) && key in level
    requires InPutOrder(ops[..|ops| - 1], from, ps, base, level)
    ensures InPutOrder(ops, from, ps, base, level)
  {
    hide Succeeds, FirstPut, Hits;
    forall other ensures other in level <==> other in base || FirstPut(ops, from, ps, other) < |ops| {
      FirstPutNext(ops, from, ps, key, other);
    }
    forall a, b | |base| <= a < b < |level|
      ensures FirstPut(ops, from, ps, level[a]) < FirstPut(ops, from, ps, level[b])
    {
      FirstPutNext(ops, from, ps, key, level[a]);
      FirstPutNext(ops, from, ps, key, level[b]);
      assert level[b] in level && level[b] !in base;
    }
  }

  lemma HitNew(ops: seq<PutOp>, from: nat, ps: seq<string>, base: seq<string>, level: seq<string>, key: string)
    requires OpsOk(ops) && from < |ops| && Hits(ops, |ops| - 1, ps, key) && key !in level
    requires InPutOrder(ops[..|ops| - 1], from, ps, base, level)
    ensures InPutOrder(ops, from, ps, base, level + [key])
  {
    hide Succeeds, FirstPut, Hits;
    var longer := level + [key];
    forall other ensures other in longer <==> other in base || FirstPut(ops, from, ps, other) < |ops| {
      FirstPutNext(ops, from, ps, key, other);
      assert other in longer <==> other in level || other == key;
    }
    forall a, b | |base| <= a < b < |longer|
      ensures FirstPut(ops, from, ps, longer[a]) < FirstPut(ops, from, ps, longer[b])
    {
      FirstPutNext(ops, from, ps, key, longer[a]);
      FirstPutNext(ops, from, ps, key, longer[b]);
      assert longer[a] == level[a] && level[a] in level && level[a] !in base;
      if b < |level| { assert level[b] in level && level[b] !in base; }
    }
    assert forall i :: 0 <= i < |base| ==> base[i] in level;
  }
}
