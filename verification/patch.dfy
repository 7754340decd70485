/** `patch(diffResult, destination)` (dictdiffer.js:14-100): the dispatch
    loop over a diff list, and the end-to-end vector of dictdiffer.js:106-117. */
module Patching {
  import opened Values
  import opened Text
  import opened Lookup
  import opened Operators

  /** One diff entry `[action, node, changes]`. */
  datatype Entry = Entry(action: string, node: Path, changes: seq<Node>)

  /** What `patch` leaves behind: the patched destination, or the index of
      the entry that threw, the failure, and the destination as the
      entries and pairs applied before the failure left it. */
  datatype Status = Patched(tree: Node) | Aborted(entry: nat, error: Failure, partial: Node)

  /** One entry: dispatch on the action name; unknown names do nothing. */
  function ApplyEntry(destination: Node, e: Entry): Outcome {
    if e.action == "add" then EachPair(Adding, destination, e.node, e.changes)
    else if e.action == "change" then
      (match Change(destination, e.node, e.changes)
       case Ok(t) => Done(t)
       case Err(x) => Failed(x, destination))
    else if e.action == "remove" then EachPair(Removing, destination, e.node, e.changes)
    else Done(destination)
  }

  function Later(s: Status, k: nat): Status {
    match s
    case Patched(t) => Patched(t)
    case Aborted(i, x, p) => Aborted(i + k, x, p)
  }

  /** The entries applied in list order from the first. */
  function Run(destination: Node, diff: seq<Entry>): Status
    decreases |diff|
  {
    if diff == [] then Patched(destination)
    else
      match ApplyEntry(destination, diff[0])
      case Failed(x, p) => Aborted(0, x, p)
      case Done(t) => Later(Run(t, diff[1..]), 1)
  }

  /** Running one more entry after a list is applying it to what the list
      produced: the entries are applied strictly in order. */
  lemma {:induction false} RunInOrder(destination: Node, diff: seq<Entry>, e: Entry)
    ensures Run(destination, diff + [e])
         == match Run(destination, diff)
            case Aborted(i, x, p) => Aborted(i, x, p)
            case Patched(t) =>
              (match ApplyEntry(t, e)
               case Done(t') => Patched(t')
               case Failed(x, p) => Aborted(|diff|, x, p))
    decreases |diff|
  {
    if diff == [] {
      assert [] + [e] == [e];
      assert [e][1..] == [];
    } else {
      assert (diff + [e])[0] == diff[0];
      assert (diff + [e])[1..] == diff[1..] + [e];
      match ApplyEntry(destination, diff[0]) {
        case Failed(x, p) =>
        case Done(t) => RunInOrder(t, diff[1..], e);
      }
    }
  }

  /** A failure stops the run at one entry, after every earlier entry was
      applied in full; nothing is rolled back. */
  lemma {:induction false} AbortedAfterPrefix(destination: Node, diff: seq<Entry>)
    requires Run(destination, diff).Aborted?
    ensures var s := Run(destination, diff);
      s.entry < |diff|
      && Run(destination, diff[..s.entry]).Patched?
      && ApplyEntry(Run(destination, diff[..s.entry]).tree, diff[s.entry]) == Failed(s.error, s.partial)
    decreases |diff|
  {
    match ApplyEntry(destination, diff[0]) {
      case Failed(x, p) =>
        assert diff[..0] == [];
      case Done(t) =>
        AbortedAfterPrefix(t, diff[1..]);
        var i := Run(t, diff[1..]).entry;
        assert diff[..i + 1] == [diff[0]] + diff[1..][..i];
        assert diff[..i + 1][1..] == diff[1..][..i];
    }
  }

  predicate Known(action: string) {
    action == "add" || action == "change" || action == "remove"
  }

  /** Entries with an unknown action are skipped without effect. */
  lemma {:induction false} UnknownIgnored(destination: Node, diff: seq<Entry>)
    requires forall i :: 0 <= i < |diff| ==> !Known(diff[i].action)
    ensures Run(destination, diff) == Patched(destination)
    decreases |diff|
  {
    if diff != [] {
      UnknownIgnored(destination, diff[1..]);
    }
  }

  /** An entry with an unknown action anywhere in the list is skipped: the
      list without it patches to the same tree, or aborts with the same
      failure and the same partial tree. */
  lemma {:induction false} UnknownSkipped(destination: Node, before: seq<Entry>, u: Entry, after: seq<Entry>)
    requires !Known(u.action)
    ensures Run(destination, before + [u] + after).Patched? == Run(destination, before + after).Patched?
    ensures Run(destination, before + [u] + after).Patched?
        ==> Run(destination, before + [u] + after).tree == Run(destination, before + after).tree
    ensures Run(destination, before + [u] + after).Aborted?
        ==> Run(destination, before + [u] + after).error == Run(destination, before + after).error
    ensures Run(destination, before + [u] + after).Aborted?
        ==> Run(destination, before + [u] + after).partial == Run(destination, before + after).partial
    decreases |before|
  {
    var whole := before + [u] + after;
    if before == [] {
      assert whole == [u] + after && whole[0] == u && whole[1..] == after;
      assert before + after == after;
    } else {
      assert whole[0] == before[0] && whole[1..] == before[1..] + [u] + after;
      assert (before + after)[0] == before[0] && (before + after)[1..] == before[1..] + after;
      match ApplyEntry(destination, before[0]) {
        case Failed(x, p) =>
        case Done(t) => UnknownSkipped(t, before[1..], u, after);
      }
    }
  }

  /** patch: the loop over the diff list. The destination it returns is the
      one it was given, with every entry applied. */
  method Patch(diffResult: seq<Entry>, destination: Node) returns (status: Status)
    ensures status == Run(destination, diffResult)
  {
    var tree := destination;
    var idx := 0;
    while idx < |diffResult|
      invariant 0 <= idx <= |diffResult|
      invariant Run(destination, diffResult[..idx]) == Patched(tree)
    {
      var e := diffResult[idx];
      var out: Outcome;
      if e.action == "add" {
        out := Add(tree, e.node, e.changes);
      } else if e.action == "change" {
        var r := Change(tree, e.node, e.changes);
        out := if r.Ok? then Done(r.value) else Failed(r.error, tree);
      } else if e.action == "remove" {
        out := Remove(tree, e.node, e.changes);
      } else {
        out := Done(tree);
      }
      RunInOrder(destination, diffResult[..idx], e);
      assert diffResult[..idx] + [e] == diffResult[..idx + 1];
      if out.Failed? {
        RunStopped(destination, diffResult, idx + 1);
        return Aborted(idx, out.error, out.partial);
      }
      tree := out.tree;
      idx := idx + 1;
    }
    assert diffResult[..idx] == diffResult;
    return Patched(tree);
  }

  /** Once a prefix of the list aborts, the whole list aborts the same way. */
  lemma {:induction false} RunStopped(destination: Node, diff: seq<Entry>, n: nat)
    requires n <= |diff|
    requires Run(destination, diff[..n]).Aborted?
    ensures Run(destination, diff) == Run(destination, diff[..n])
    decreases |diff| - n
  {
    if n < |diff| {
      RunInOrder(destination, diff[..n], diff[n]);
      assert diff[..n] + [diff[n]] == diff[..n + 1];
      RunStopped(destination, diff, n + 1);
    } else {
      assert diff[..n] == diff;
    }
  }

  /* ---------------------------------------------------------------------
     The vector of dictdiffer.js:106-117. */

  function N(n: int): Node { Leaf(Num(n)) }
  function S(s: string): Node { Leaf(Str(s)) }

  /** testObject1 */
  function Before(): Node {
    Obj(map[
      "a" := Obj(map["b" := Obj(map["c" := N(3), "list" := Arr([N(1), N(2)])])]),
      "y" := Arr([N(100), N(200), N(300)]),
      "remove_this" := S("blah")])
  }

  /** testObject2 */
  function After(): Node {
    Obj(map[
      "a" := Obj(map["b" := Obj(map["c" := N(1), "d" := N(2), "list" := Arr([N(3), N(4), N(5)])])]),
      "z" := N(1000),
      "y" := Arr([N(100), N(200)])])
  }

  /** diffList */
  function DiffList(): seq<Entry> {
    [ Entry("change", Tokens([Str("a"), Str("b"), Str("list"), Num(0)]), [N(1), N(3)]),
      Entry("change", Tokens([Str("a"), Str("b"), Str("list"), Num(1)]), [N(2), N(4)]),
      Entry("change", Dotted("a.b.c"), [N(3), N(1)]),
      Entry("add", Dotted("a.b.list"), [Arr([N(2), N(5)])]),
      Entry("add", Dotted("a.b"), [Arr([S("d"), N(2)])]),
      Entry("remove", Dotted("y"), [Arr([N(2), N(300)])]),
      Entry("add", Dotted(""), [Arr([S("z"), N(1000)])]),
      Entry("remove", Dotted(""), [Arr([S("remove_this"), S("blah")])]) ]
  }

  /** The numeric tokens of the vector, as keys and as indices. */
  lemma VectorIndices()
    ensures KeyString(Num(0)) == "0" && KeyString(Num(1)) == "1"
    ensures ParseIndex("0") == Some(0) && ParseIndex("1") == Some(1)
  {
    ParseRendered(0);
    ParseRendered(1);
  }

  /** The dotted paths of the vector split into their tokens. */
  lemma VectorSplits()
    ensures Split("a.b.c") == ["a", "b", "c"]
    ensures Split("a.b.list") == ["a", "b", "list"]
    ensures Split("a.b") == ["a", "b"]
  {
    assert Join(["a", "b", "c"]) == "a.b.c" by {
      assert ["a", "b", "c"][1..] == ["b", "c"] && ["b", "c"][1..] == ["c"];
    }
    SplitJoin(["a", "b", "c"]);
    assert Join(["a", "b", "list"]) == "a.b.list" by {
      assert ["a", "b", "list"][1..] == ["b", "list"] && ["b", "list"][1..] == ["list"];
    }
    SplitJoin(["a", "b", "list"]);
    assert Join(["a", "b"]) == "a.b" by { assert ["a", "b"][1..] == ["b"]; }
    SplitJoin(["a", "b"]);
  }

  /** The shape of the vector's destination at every stage: `b` is the
      mapping at `a.b`, `y` the sequence at `y`, `rest` the other top-level
      keys. */
  function Shape(b: map<string, Node>, y: seq<Node>, rest: map<string, Node>): Node {
    Obj(rest["a" := Obj(map["b" := Obj(b)])]["y" := Arr(y)])
  }

  lemma ShapeAtB(b: map<string, Node>, y: seq<Node>, rest: map<string, Node>, b': map<string, Node>)
    ensures Walk(Shape(b, y, rest), ["a", "b"]) == Ok(Obj(b))
    ensures Replace(Shape(b, y, rest), ["a", "b"], Obj(b')) == Shape(b', y, rest)
  {
    assert ["a", "b"][1..] == ["b"];
    var top := rest["a" := Obj(map["b" := Obj(b)])]["y" := Arr(y)];
    assert Replace(Obj(map["b" := Obj(b)]), ["b"], Obj(b')) == Obj(map["b" := Obj(b')]) by {
      assert map["b" := Obj(b)]["b" := Obj(b')] == map["b" := Obj(b')];
    }
    assert top["a" := Obj(map["b" := Obj(b')])] == rest["a" := Obj(map["b" := Obj(b')])]["y" := Arr(y)];
  }

  lemma ShapeAtList(b: map<string, Node>, y: seq<Node>, rest: map<string, Node>, m: Node)
    requires "list" in b
    ensures Walk(Shape(b, y, rest), ["a", "b", "list"]) == Ok(b["list"])
    ensures Replace(Shape(b, y, rest), ["a", "b", "list"], m) == Shape(b["list" := m], y, rest)
  {
    var abList := ["a", "b", "list"];
    assert abList[1..] == ["b", "list"] && abList[1..][1..] == ["list"];
    var top := rest["a" := Obj(map["b" := Obj(b)])]["y" := Arr(y)];
    assert Replace(Obj(map["b" := Obj(b)]), ["b", "list"], m) == Obj(map["b" := Obj(b["list" := m])]) by {
      assert Replace(Obj(b), ["list"], m) == Obj(b["list" := m]);
      assert map["b" := Obj(b)]["b" := Obj(b["list" := m])] == map["b" := Obj(b["list" := m])];
    }
    assert top["a" := Obj(map["b" := Obj(b["list" := m])])]
        == rest["a" := Obj(map["b" := Obj(b["list" := m])])]["y" := Arr(y)];
  }

  lemma ShapeAtY(b: map<string, Node>, y: seq<Node>, rest: map<string, Node>, y': seq<Node>)
    ensures Walk(Shape(b, y, rest), ["y"]) == Ok(Arr(y))
    ensures Replace(Shape(b, y, rest), ["y"], Arr(y')) == Shape(b, y', rest)
  {
  }

  lemma ChangeStep(t: Node, e: Entry, ks: seq<string>, last: string, container: Node, updated: Node)
    requires e.action == "change" && e.changes != []
    requires Route(e.node, true) == Ok(ks) && Walk(t, ks) == Ok(container) && LastKey(e.node) == Ok(last)
    requires Overwrite(container, last, e.changes[|e.changes| - 1]) == Ok(updated)
    ensures ApplyEntry(t, e) == Done(Replace(t, ks, updated))
  {
    assert Change(t, e.node, e.changes) == Ok(Replace(t, ks, updated));
  }

  lemma PairStep(op: PairOp, t: Node, e: Entry, ks: seq<string>, container: Node, updated: Node)
    requires e.action == (if op == Adding then "add" else "remove") && |e.changes| == 1
    requires Route(e.node, false) == Ok(ks) && Walk(t, ks) == Ok(container)
    requires (if op == Adding then Insert(container, e.changes[0]) else Delete(container, e.changes[0])) == Ok(updated)
    ensures ApplyEntry(t, e) == Done(Replace(t, ks, updated))
  {
    assert ApplyPair(op, t, e.node, e.changes[0]) == Ok(Replace(t, ks, updated));
    assert e.changes[1..] == [];
    assert EachPair(op, t, e.node, e.changes) == Done(Replace(t, ks, updated));
  }

  /** The mapping at `a.b` after the first k entries of diffList. */
  function B(k: nat): map<string, Node> {
    if k == 0 then map["c" := N(3), "list" := Arr([N(1), N(2)])]
    else if k == 1 then B(0)["list" := Arr([N(3), N(2)])]
    else if k == 2 then B(1)["list" := Arr([N(3), N(4)])]
    else if k == 3 then B(2)["c" := N(1)]
    else if k == 4 then B(3)["list" := Arr([N(3), N(4), N(5)])]
    else B(4)["d" := N(2)]
  }

  function Y(k: nat): seq<Node> {
    if k <= 5 then [N(100), N(200), N(300)] else [N(100), N(200)]
  }

  function Rest(k: nat): map<string, Node> {
    if k <= 6 then map["remove_this" := S("blah")]
    else if k == 7 then map["remove_this" := S("blah"), "z" := N(1000)]
    else map["z" := N(1000)]
  }

  /** The destination after the first k entries of diffList. */
  function Stage(k: nat): Node {
    Shape(B(k), Y(k), Rest(k))
  }

  /** The parent route and final token of an array path into `a.b.list`. */
  lemma ListSlot(t: Scalar, key: string)
    requires KeyString(t) == key
    ensures Route(Tokens([Str("a"), Str("b"), Str("list"), t]), true) == Ok(["a", "b", "list"])
    ensures LastKey(Tokens([Str("a"), Str("b"), Str("list"), t])) == Ok(key)
  {
    var p := Tokens([Str("a"), Str("b"), Str("list"), t]);
    assert Keys(p) == ["a", "b", "list", key];
    assert DropLast(["a", "b", "list", key]) == ["a", "b", "list"];
  }

  lemma OverwriteList(items: seq<Node>, i: nat, key: string, v: Node)
    requires i < |items| && ParseIndex(key) == Some(i)
    ensures Overwrite(Arr(items), key, v) == Ok(Arr(items[i := v]))
  {
  }

  lemma Entry0()
    ensures ApplyEntry(Stage(0), DiffList()[0]) == Done(Stage(1))
  {
    var e := DiffList()[0];
    var list, list' := Arr([N(1), N(2)]), Arr([N(3), N(2)]);
    assert e == Entry("change", Tokens([Str("a"), Str("b"), Str("list"), Num(0)]), [N(1), N(3)]);
    assert ParseIndex("0") == Some(0) && KeyString(Num(0)) == "0" by { VectorIndices(); }
    ListSlot(Num(0), "0");
    OverwriteList([N(1), N(2)], 0, "0", N(3));
    assert [N(1), N(2)][0 := N(3)] == [N(3), N(2)];
    ShapeAtList(B(0), Y(0), Rest(0), list');
    ChangeStep(Stage(0), e, ["a", "b", "list"], "0", list, list');
  }

  lemma Entry1()
    ensures ApplyEntry(Stage(1), DiffList()[1]) == Done(Stage(2))
  {
    var e := DiffList()[1];
    var list, list' := Arr([N(3), N(2)]), Arr([N(3), N(4)]);
    assert e == Entry("change", Tokens([Str("a"), Str("b"), Str("list"), Num(1)]), [N(2), N(4)]);
    assert ParseIndex("1") == Some(1) && KeyString(Num(1)) == "1" by { VectorIndices(); }
    ListSlot(Num(1), "1");
    OverwriteList([N(3), N(2)], 1, "1", N(4));
    assert [N(3), N(2)][1 := N(4)] == [N(3), N(4)];
    ShapeAtList(B(1), Y(1), Rest(1), list');
    ChangeStep(Stage(1), e, ["a", "b", "list"], "1", list, list');
  }

  /** The parent route and final token of the path `a.b.c`. */
  lemma FieldSlot()
    ensures Route(Dotted("a.b.c"), true) == Ok(["a", "b"]) && LastKey(Dotted("a.b.c")) == Ok("c")
  {
    assert Split("a.b.c") == ["a", "b", "c"] by { VectorSplits(); }
    assert !IsFalsy(Dotted("a.b.c"));
    assert DropLast(["a", "b", "c"]) == ["a", "b"];
  }

  lemma Entry2()
    ensures ApplyEntry(Stage(2), DiffList()[2]) == Done(Stage(3))
  {
    var e := DiffList()[2];
    assert e == Entry("change", Dotted("a.b.c"), [N(3), N(1)]);
    FieldSlot();
    assert Overwrite(Obj(B(2)), "c", N(1)) == Ok(Obj(B(3)));
    ShapeAtB(B(2), Y(2), Rest(2), B(3));
    assert Replace(Stage(2), ["a", "b"], Obj(B(3))) == Stage(3);
    ChangeStep(Stage(2), e, ["a", "b"], "c", Obj(B(2)), Obj(B(3)));
  }

  lemma InsertFive()
    ensures Insert(Arr([N(3), N(4)]), Arr([N(2), N(5)])) == Ok(Arr([N(3), N(4), N(5)]))
  {
    assert PairKey(Arr([N(2), N(5)])) == Ok(Num(2)) && PairValue(Arr([N(2), N(5)])) == Ok(N(5));
    assert SpliceStart(2, 2) == 2;
    assert InsertAt([N(3), N(4)], 2, N(5)) == [N(3), N(4), N(5)];
  }

  /** The route of the path `a.b.list`. */
  lemma ListRoute()
    ensures Route(Dotted("a.b.list"), false) == Ok(["a", "b", "list"])
  {
    assert Split("a.b.list") == ["a", "b", "list"] by { VectorSplits(); }
    assert !IsFalsy(Dotted("a.b.list"));
  }

  lemma Entry3()
    ensures ApplyEntry(Stage(3), DiffList()[3]) == Done(Stage(4))
  {
    var e := DiffList()[3];
    var list, list' := Arr([N(3), N(4)]), Arr([N(3), N(4), N(5)]);
    assert e == Entry("add", Dotted("a.b.list"), [Arr([N(2), N(5)])]);
    ListRoute();
    InsertFive();
    ShapeAtList(B(3), Y(3), Rest(3), list');
    PairStep(Adding, Stage(3), e, ["a", "b", "list"], list, list');
  }

  lemma InsertD()
    ensures Insert(Obj(B(4)), Arr([S("d"), N(2)])) == Ok(Obj(B(5)))
  {
    assert PairKey(Arr([S("d"), N(2)])) == Ok(Str("d")) && PairValue(Arr([S("d"), N(2)])) == Ok(N(2));
  }

  lemma Entry4()
    ensures ApplyEntry(Stage(4), DiffList()[4]) == Done(Stage(5))
  {
    var e := DiffList()[4];
    assert e == Entry("add", Dotted("a.b"), [Arr([S("d"), N(2)])]);
    assert Route(e.node, false) == Ok(["a", "b"]) by {
      assert Split("a.b") == ["a", "b"] by { VectorSplits(); }
      assert !IsFalsy(e.node);
    }
    InsertD();
    ShapeAtB(B(4), Y(4), Rest(4), B(5));
    PairStep(Adding, Stage(4), e, ["a", "b"], Obj(B(4)), Obj(B(5)));
  }

  lemma DeleteThird()
    ensures Delete(Arr(Y(5)), Arr([N(2), N(300)])) == Ok(Arr(Y(6)))
  {
    assert PairKey(Arr([N(2), N(300)])) == Ok(Num(2));
    assert SpliceStart(2, 3) == 2;
    assert DeleteAt(Y(5), 2) == Y(6);
  }

  lemma Entry5()
    ensures ApplyEntry(Stage(5), DiffList()[5]) == Done(Stage(6))
  {
    var e := DiffList()[5];
    assert e == Entry("remove", Dotted("y"), [Arr([N(2), N(300)])]);
    assert Route(e.node, false) == Ok(["y"]) by {
      SplitPlain("y");
      assert !IsFalsy(e.node);
    }
    DeleteThird();
    ShapeAtY(B(5), Y(5), Rest(5), Y(6));
    PairStep(Removing, Stage(5), e, ["y"], Arr(Y(5)), Arr(Y(6)));
  }

  lemma Entry6()
    ensures ApplyEntry(Stage(6), DiffList()[6]) == Done(Stage(7))
  {
    var e := DiffList()[6];
    assert Rest(6)["a" := Obj(map["b" := Obj(B(6))])]["y" := Arr(Y(6))]["z" := N(1000)]
        == Rest(7)["a" := Obj(map["b" := Obj(B(7))])]["y" := Arr(Y(7))];
    PairStep(Adding, Stage(6), e, [], Stage(6), Stage(7));
  }

  lemma Entry7()
    ensures ApplyEntry(Stage(7), DiffList()[7]) == Done(Stage(8))
  {
    var e := DiffList()[7];
    assert Rest(7)["a" := Obj(map["b" := Obj(B(7))])]["y" := Arr(Y(7))] - {"remove_this"}
        == Rest(8)["a" := Obj(map["b" := Obj(B(8))])]["y" := Arr(Y(8))];
    PairStep(Removing, Stage(7), e, [], Stage(7), Stage(8));
  }

  /** Running one entry more of a list extends the run by that entry. */
  lemma RunStep(destination: Node, diff: seq<Entry>, k: nat, t: Node, t': Node)
    requires k < |diff|
    requires Run(destination, diff[..k]) == Patched(t)
    requires ApplyEntry(t, diff[k]) == Done(t')
    ensures Run(destination, diff[..k + 1]) == Patched(t')
  {
    RunInOrder(destination, diff[..k], diff[k]);
    assert diff[..k] + [diff[k]] == diff[..k + 1];
  }

  lemma VectorEntry(k: nat)
    requires k < 8
    ensures ApplyEntry(Stage(k), DiffList()[k]) == Done(Stage(k + 1))
  {
    if k == 0 { Entry0(); }
    else if k == 1 { Entry1(); }
    else if k == 2 { Entry2(); }
    else if k == 3 { Entry3(); }
    else if k == 4 { Entry4(); }
    else if k == 5 { Entry5(); }
    else if k == 6 { Entry6(); }
    else { Entry7(); }
  }

  lemma {:induction false} VectorUpTo(k: nat)
    requires k <= 8
    ensures Run(Before(), DiffList()[..k]) == Patched(Stage(k))
  {
    if k == 0 {
      assert Stage(0) == Before();
      assert DiffList()[..0] == [];
    } else {
      VectorUpTo(k - 1);
      VectorEntry(k - 1);
      RunStep(Before(), DiffList(), k - 1, Stage(k - 1), Stage(k));
    }
  }

  lemma VectorFinal()
    ensures Stage(8) == After()
  {
    assert B(8) == map["c" := N(1), "d" := N(2), "list" := Arr([N(3), N(4), N(5)])];
  }

  /** Patching testObject1 with diffList yields testObject2. */
  lemma TestVector()
    ensures Run(Before(), DiffList()) == Patched(After())
  {
    VectorUpTo(8);
    assert DiffList()[..8] == DiffList();
    VectorFinal();
  }
}
