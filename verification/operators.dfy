/** The three mutation operators of `patch`: `add` (dictdiffer.js:45-56),
    `change` (dictdiffer.js:58-70) and `remove` (dictdiffer.js:72-82). Each
    finds its container with the resolver and writes the updated container
    back along the same path. */
module Operators {
  import opened Values
  import opened Text
  import opened Lookup

  /** Where `splice(start, ...)` starts for an integral `start` on a
      sequence of length `len`: negative values count from the end, and
      values past either end are clamped. */
  function SpliceStart(start: int, len: nat): (s: nat)
    ensures s <= len
    ensures 0 <= start <= len ==> s == start
  {
    if start < 0 then (if len + start < 0 then 0 else len + start)
    else if start > len then len
    else start
  }

  /** `xs.splice(i, 0, v)`. */
  function InsertAt(xs: seq<Node>, i: nat, v: Node): (r: seq<Node>)
    requires i <= |xs|
    ensures |r| == |xs| + 1
    ensures r[i] == v
    ensures forall j :: 0 <= j < i ==> r[j] == xs[j]
    ensures forall j :: i <= j < |xs| ==> r[j + 1] == xs[j]
  {
    xs[..i] + [v] + xs[i..]
  }

  /** `xs.splice(i, 1)` for an index inside the sequence. */
  function DeleteAt(xs: seq<Node>, i: nat): (r: seq<Node>)
    requires i < |xs|
    ensures |r| == |xs| - 1
    ensures forall j :: 0 <= j < i ==> r[j] == xs[j]
    ensures forall j :: i < j < |xs| ==> r[j - 1] == xs[j]
  {
    xs[..i] + xs[i + 1..]
  }

  /** `changes[idx][0]`: the key of a `[key, value]` change element. */
  function PairKey(c: Node): Result<Scalar> {
    if c.Arr? && |c.items| >= 1 && c.items[0].Leaf? then Ok(c.items[0].v) else Err(BadChange)
  }

  /** `changes[idx][1]`: the value of a `[key, value]` change element. */
  function PairValue(c: Node): Result<Node> {
    if c.Arr? && |c.items| >= 2 then Ok(c.items[1]) else Err(BadChange)
  }

  /** The integer `splice` takes from a key: a number, or a string of
      decimal digits. */
  function SpliceKey(k: Scalar): Result<int> {
    match k
    case Num(n) => Ok(n)
    case Str(s) => (match ParseIndex(s) case Some(i) => Ok(i) case None => Err(BadIndex))
    case _ => Err(BadIndex)
  }

  /** The body of one iteration of `add` on the container it resolved:
      insert into a sequence, set a key of a mapping. */
  function Insert(target: Node, c: Node): Result<Node> {
    var key :- PairKey(c);
    var v :- PairValue(c);
    match target
    case Arr(xs) =>
      var k :- SpliceKey(key);
      Ok(Arr(InsertAt(xs, SpliceStart(k, |xs|), v)))
    case Obj(fields) => Ok(Obj(fields[KeyString(key) := v]))
    case Leaf(_) => Err(NotContainer)
  }

  /** The own properties of a string primitive, which `delete` may not
      remove in strict mode: `length` and the canonical index of each of
      its characters. */
  predicate IsStringOwnKey(s: string, key: string) {
    key == "length" || (IsDigits(key) && DigitsValue(key) < |s| && NatToString(DigitsValue(key)) == key)
  }

  /** The body of one iteration of `remove` on the container it resolved:
      delete from a sequence (nothing when the clamped start is the end),
      delete a key of a mapping (nothing when it is absent). On a scalar,
      `delete` throws for `null` and for a string's own property, and
      otherwise deletes a property the primitive does not have: nothing. */
  function Delete(target: Node, c: Node): Result<Node> {
    var key :- PairKey(c);
    match target
    case Arr(xs) =>
      var k :- SpliceKey(key);
      var s := SpliceStart(k, |xs|);
      Ok(Arr(if s < |xs| then DeleteAt(xs, s) else xs))
    case Obj(fields) => Ok(Obj(fields - {KeyString(key)}))
    case Leaf(v) =>
      if v.Null? || (v.Str? && IsStringOwnKey(v.s, KeyString(key))) then Err(NotContainer) else Ok(target)
  }

  datatype PairOp = Adding | Removing

  /** One iteration of `add` or `remove` on the whole tree: resolve the
      container afresh, update it, write it back. */
  function ApplyPair(op: PairOp, root: Node, path: Path, c: Node): Result<Node> {
    var ks :- Route(path, false);
    var target :- Walk(root, ks);
    var updated :- if op == Adding then Insert(target, c) else Delete(target, c);
    Ok(Replace(root, ks, updated))
  }

  /** The state an operator leaves the destination in: applied in full, or
      stopped by a failure, with the changes made before it still in place. */
  datatype Outcome = Done(tree: Node) | Failed(error: Failure, partial: Node)

  /** The loop of `add` / `remove` over `changes`, in order. */
  function EachPair(op: PairOp, root: Node, path: Path, changes: seq<Node>): Outcome
    decreases |changes|
  {
    if changes == [] then Done(root)
    else
      match ApplyPair(op, root, path, changes[0])
      case Err(e) => Failed(e, root)
      case Ok(next) => EachPair(op, next, path, changes[1..])
  }

  /** add: for each `[key, value]` pair, in order, resolve the container
      against the current tree and insert or set. */
  method Add(destination: Node, node: Path, changes: seq<Node>) returns (out: Outcome)
    ensures out == EachPair(Adding, destination, node, changes)
  {
    var tree := destination;
    var idx := 0;
    while idx < |changes|
      invariant 0 <= idx <= |changes|
      invariant EachPair(Adding, tree, node, changes[idx..]) == EachPair(Adding, destination, node, changes)
    {
      assert changes[idx..][1..] == changes[idx + 1..];
      var dest := DotLookup(tree, node, false);
      if dest.Err? {
        return Failed(dest.error, tree);
      }
      var updated := Insert(dest.value, changes[idx]);
      if updated.Err? {
        return Failed(updated.error, tree);
      }
      tree := Replace(tree, Route(node, false).value, updated.value);
      idx := idx + 1;
    }
    return Done(tree);
  }

  /** remove: for each `[key, value]` pair, in order, resolve the container
      against the current tree and delete (the value is unused). */
  method Remove(destination: Node, node: Path, changes: seq<Node>) returns (out: Outcome)
    ensures out == EachPair(Removing, destination, node, changes)
  {
    var tree := destination;
    var idx := 0;
    while idx < |changes|
      invariant 0 <= idx <= |changes|
      invariant EachPair(Removing, tree, node, changes[idx..]) == EachPair(Removing, destination, node, changes)
    {
      assert changes[idx..][1..] == changes[idx + 1..];
      var dest := DotLookup(tree, node, false);
      if dest.Err? {
        return Failed(dest.error, tree);
      }
      var updated := Delete(dest.value, changes[idx]);
      if updated.Err? {
        return Failed(updated.error, tree);
      }
      tree := Replace(tree, Route(node, false).value, updated.value);
      idx := idx + 1;
    }
    return Done(tree);
  }

  /** The final path token `change` writes at: `node.pop()` for an array
      path (undefined, which becomes the key "undefined", when the array is
      empty), the last `.`-separated token for a string. Any other path has
      no `split`, so the call throws. */
  function LastKey(p: Path): Result<string> {
    match p
    case Dotted(s) => var parts := Split(s); Ok(parts[|parts| - 1])
    case Tokens(ts) => if ts == [] then Ok("undefined") else Ok(KeyString(ts[|ts| - 1]))
    case _ => Err(InvalidPath)
  }

  /** `dest[lastNode] = value`, with `lastNode` parsed as an integer when
      `dest` is a sequence. Writing one past the end of a sequence appends. */
  function Overwrite(container: Node, key: string, v: Node): Result<Node> {
    match container
    case Obj(fields) => Ok(Obj(fields[key := v]))
    case Arr(items) =>
      (match ParseIndex(key)
       case None => Err(BadIndex)
       case Some(i) =>
         if i < |items| then Ok(Arr(items[i := v]))
         else if i == |items| then Ok(Arr(items + [v]))
         else Err(OutOfRange))
    case Leaf(_) => Err(NotContainer)
  }

  /** change: resolve the parent, take the final token, and write the last
      element of `changes` (the new value) there. */
  function Change(destination: Node, node: Path, changes: seq<Node>): Result<Node> {
    var ks :- Route(node, true);
    var dest :- Walk(destination, ks);
    var lastNode :- LastKey(node);
    if changes == [] then Err(MissingValue)
    else
      var updated :- Overwrite(dest, lastNode, changes[|changes| - 1]);
      Ok(Replace(destination, ks, updated))
  }

  /* ---------------------------------------------------------------------
     What one iteration of add and remove does. */

  /** A `[key, value]` change element. */
  function PairOf(key: Scalar, v: Node): Node {
    Arr([Leaf(key), v])
  }

  /** After one iteration, the path resolves to the updated container. */
  lemma ResolveAfterPair(op: PairOp, root: Node, path: Path, c: Node)
    requires ApplyPair(op, root, path, c).Ok?
    ensures Resolve(root, path, false).Ok?
    ensures Resolve(ApplyPair(op, root, path, c).value, path, false)
         == (if op == Adding then Insert(Resolve(root, path, false).value, c)
             else Delete(Resolve(root, path, false).value, c))
  {
    var ks := Route(path, false).value;
    var updated := if op == Adding then Insert(Walk(root, ks).value, c) else Delete(Walk(root, ks).value, c);
    WalkReplace(root, ks, updated.value, []);
  }

  /** add on a sequence: the value lands at index `k`, earlier elements
      stay, later ones move one place right (InsertAt's contract). */
  lemma AddIntoSequence(root: Node, path: Path, xs: seq<Node>, k: nat, v: Node)
    requires Resolve(root, path, false) == Ok(Arr(xs))
    requires k <= |xs|
    ensures ApplyPair(Adding, root, path, PairOf(Num(k), v)).Ok?
    ensures Resolve(ApplyPair(Adding, root, path, PairOf(Num(k), v)).value, path, false)
         == Ok(Arr(InsertAt(xs, k, v)))
  {
    ResolveAfterPair(Adding, root, path, PairOf(Num(k), v));
  }

  /** add on a mapping: `key` maps to `value`, every other key is kept. */
  lemma AddIntoMapping(root: Node, path: Path, fields: map<string, Node>, key: Scalar, v: Node)
    requires Resolve(root, path, false) == Ok(Obj(fields))
    ensures ApplyPair(Adding, root, path, PairOf(key, v)).Ok?
    ensures Resolve(ApplyPair(Adding, root, path, PairOf(key, v)).value, path, false)
         == Ok(Obj(fields[KeyString(key) := v]))
  {
    ResolveAfterPair(Adding, root, path, PairOf(key, v));
  }

  /** remove on a sequence: the element at `k` is gone, earlier elements
      stay, later ones move one place left (DeleteAt's contract); a key at
      or past the end removes nothing, as `splice` clamps it. */
  lemma RemoveFromSequence(root: Node, path: Path, xs: seq<Node>, k: nat, v: Node)
    requires Resolve(root, path, false) == Ok(Arr(xs))
    ensures ApplyPair(Removing, root, path, PairOf(Num(k), v)).Ok?
    ensures Resolve(ApplyPair(Removing, root, path, PairOf(Num(k), v)).value, path, false)
         == Ok(Arr(if k < |xs| then DeleteAt(xs, k) else xs))
  {
    ResolveAfterPair(Removing, root, path, PairOf(Num(k), v));
  }

  /** remove on a mapping: `key` is absent afterwards, every other key is
      kept (deleting an absent key changes nothing). */
  lemma RemoveFromMapping(root: Node, path: Path, fields: map<string, Node>, key: Scalar, v: Node)
    requires Resolve(root, path, false) == Ok(Obj(fields))
    ensures ApplyPair(Removing, root, path, PairOf(key, v)).Ok?
    ensures Resolve(ApplyPair(Removing, root, path, PairOf(key, v)).value, path, false)
         == Ok(Obj(fields - {KeyString(key)}))
  {
    ResolveAfterPair(Removing, root, path, PairOf(key, v));
  }

  /** remove on a number, boolean or string leaf, with a key that is not
      one of the string's own properties, changes nothing and lets the loop
      go on; on `null` it fails. */
  lemma RemoveFromScalar(root: Node, path: Path, v: Scalar, key: Scalar, x: Node)
    requires Resolve(root, path, false) == Ok(Leaf(v))
    ensures v.Null? || (v.Str? && IsStringOwnKey(v.s, KeyString(key)))
        ==> ApplyPair(Removing, root, path, PairOf(key, x)) == Err(NotContainer)
    ensures !v.Null? && !(v.Str? && IsStringOwnKey(v.s, KeyString(key)))
        ==> ApplyPair(Removing, root, path, PairOf(key, x)) == Ok(root)
  {
    ReplaceSame(root, Route(path, false).value);
  }

  /** One iteration of add or remove changes nothing outside the container
      it resolved: a path that leaves the container's path by another slot
      reaches what it reached before. */
  lemma PairElsewhere(op: PairOp, root: Node, path: Path, c: Node, q: seq<string>, j: nat)
    requires ApplyPair(op, root, path, c).Ok?
    requires var ks := Route(path, false).value;
      j < |ks| && j < |q| && ks[..j] == q[..j] && Walk(root, ks[..j]).Ok?
      && SlotOf(Walk(root, ks[..j]).value, ks[j]) != SlotOf(Walk(root, ks[..j]).value, q[j])
    ensures Walk(ApplyPair(op, root, path, c).value, q) == Walk(root, q)
  {
    var ks := Route(path, false).value;
    var target := Walk(root, ks).value;
    var updated := if op == Adding then Insert(target, c) else Delete(target, c);
    ReplaceElsewhere(root, ks, updated.value, q, j);
  }

  /** On a mapping target, repeating an add or remove iteration changes
      nothing more. */
  lemma MappingPairIdempotent(op: PairOp, root: Node, path: Path, c: Node)
    requires Resolve(root, path, false).Ok? && Resolve(root, path, false).value.Obj?
    requires ApplyPair(op, root, path, c).Ok?
    ensures ApplyPair(op, ApplyPair(op, root, path, c).value, path, c) == ApplyPair(op, root, path, c)
  {
    var ks := Route(path, false).value;
    var fields := Walk(root, ks).value.fields;
    var updated := (if op == Adding then Insert(Obj(fields), c) else Delete(Obj(fields), c)).value;
    var r := Replace(root, ks, updated);
    WalkReplace(root, ks, updated, []);
    var key := PairKey(c).value;
    if op == Adding {
      assert updated.fields[KeyString(key) := PairValue(c).value] == updated.fields;
    } else {
      assert updated.fields - {KeyString(key)} == updated.fields;
    }
    ReplaceTwice(root, ks, updated, updated);
  }

  /* ---------------------------------------------------------------------
     What the whole loops of add and remove do. */

  /** add on a sequence grows it by one element per change. */
  lemma {:induction false} AddGrows(root: Node, path: Path, xs: seq<Node>, changes: seq<Node>)
    requires Resolve(root, path, false) == Ok(Arr(xs))
    requires EachPair(Adding, root, path, changes).Done?
    ensures Resolve(EachPair(Adding, root, path, changes).tree, path, false).Ok?
    ensures Resolve(EachPair(Adding, root, path, changes).tree, path, false).value.Arr?
    ensures |Resolve(EachPair(Adding, root, path, changes).tree, path, false).value.items| == |xs| + |changes|
    decreases |changes|
  {
    if changes != [] {
      var next := ApplyPair(Adding, root, path, changes[0]).value;
      ResolveAfterPair(Adding, root, path, changes[0]);
      var ys := Resolve(next, path, false).value.items;
      AddGrows(next, path, ys, changes[1..]);
    }
  }

  /** remove on a sequence shrinks it by at most one element per change
      (exactly one when the key is inside the current sequence). */
  lemma {:induction false} RemoveShrinks(root: Node, path: Path, xs: seq<Node>, changes: seq<Node>)
    requires Resolve(root, path, false) == Ok(Arr(xs))
    requires EachPair(Removing, root, path, changes).Done?
    ensures Resolve(EachPair(Removing, root, path, changes).tree, path, false).Ok?
    ensures Resolve(EachPair(Removing, root, path, changes).tree, path, false).value.Arr?
    ensures |xs| - |changes| <= |Resolve(EachPair(Removing, root, path, changes).tree, path, false).value.items| <= |xs|
    decreases |changes|
  {
    if changes != [] {
      var next := ApplyPair(Removing, root, path, changes[0]).value;
      ResolveAfterPair(Removing, root, path, changes[0]);
      var ys := Resolve(next, path, false).value.items;
      RemoveShrinks(next, path, ys, changes[1..]);
    }
  }

  /* ---------------------------------------------------------------------
     What change does. */

  /** The slot `change` wrote now holds the value it was given. */
  lemma StepOverwritten(container: Node, key: string, v: Node)
    requires Overwrite(container, key, v).Ok?
    ensures Step(Overwrite(container, key, v).value, key) == Ok(v)
  {
  }

  /** Every other slot of the parent is as it was. */
  lemma StepBesideOverwrite(container: Node, key: string, v: Node, t: string)
    requires Overwrite(container, key, v).Ok?
    requires SlotOf(container, key) != SlotOf(container, t)
    ensures Step(Overwrite(container, key, v).value, t) == Step(container, t)
  {
  }

  /** For a non-empty path, resolving it after `change` yields the new
      value, the last element of `changes`. */
  lemma ChangeWrites(destination: Node, node: Path, changes: seq<Node>)
    requires Change(destination, node, changes).Ok?
    requires (node.Dotted? || node.Tokens?) && !IsFalsy(node) && |Keys(node)| > 0
    ensures changes != []
    ensures Resolve(Change(destination, node, changes).value, node, false) == Ok(changes[|changes| - 1])
  {
    var ks := Route(node, true).value;
    var dest := Walk(destination, ks).value;
    var lastNode := LastKey(node).value;
    var updated := Overwrite(dest, lastNode, changes[|changes| - 1]).value;
    var all := Keys(node);
    assert all[|all| - 1] == lastNode;
    assert ks + [lastNode] == all;
    WalkReplace(destination, ks, updated, [lastNode]);
    StepOverwritten(dest, lastNode, changes[|changes| - 1]);
    assert [lastNode][1..] == [];
  }

  /** change under a mapping parent always succeeds and sets the final
      token to the new value, keeping the parent's other keys. */
  lemma ChangeIntoMapping(destination: Node, node: Path, fields: map<string, Node>, changes: seq<Node>)
    requires node.Dotted? || node.Tokens?
    requires Resolve(destination, node, true) == Ok(Obj(fields))
    requires changes != []
    ensures Change(destination, node, changes).Ok?
    ensures Resolve(Change(destination, node, changes).value, node, true)
         == Ok(Obj(fields[LastKey(node).value := changes[|changes| - 1]]))
  {
    var ks := Route(node, true).value;
    WalkReplace(destination, ks, Obj(fields[LastKey(node).value := changes[|changes| - 1]]), []);
  }

  /** change under a sequence parent parses the final token as an index
      and overwrites that element, keeping the others. */
  lemma ChangeIntoSequence(destination: Node, node: Path, xs: seq<Node>, i: nat, changes: seq<Node>)
    requires node.Dotted? || node.Tokens?
    requires Resolve(destination, node, true) == Ok(Arr(xs))
    requires ParseIndex(LastKey(node).value) == Some(i) && i < |xs|
    requires changes != []
    ensures Change(destination, node, changes).Ok?
    ensures Resolve(Change(destination, node, changes).value, node, true)
         == Ok(Arr(xs[i := changes[|changes| - 1]]))
  {
    var ks := Route(node, true).value;
    WalkReplace(destination, ks, Arr(xs[i := changes[|changes| - 1]]), []);
  }

  /** change alters nothing but the slot it writes: a path that leaves the
      written path (parent tokens, then the final token) by another slot
      reaches what it reached before. */
  lemma ChangeElsewhere(destination: Node, node: Path, changes: seq<Node>, q: seq<string>, j: nat)
    requires Change(destination, node, changes).Ok?
    requires var full := Route(node, true).value + [LastKey(node).value];
      j < |full| && j < |q| && full[..j] == q[..j] && Walk(destination, full[..j]).Ok?
      && SlotOf(Walk(destination, full[..j]).value, full[j]) != SlotOf(Walk(destination, full[..j]).value, q[j])
    ensures Walk(Change(destination, node, changes).value, q) == Walk(destination, q)
  {
    var ks := Route(node, true).value;
    var lastNode := LastKey(node).value;
    var full := ks + [lastNode];
    var dest := Walk(destination, ks).value;
    var v := changes[|changes| - 1];
    var updated := Overwrite(dest, lastNode, v).value;
    if j < |ks| {
      assert full[..j] == ks[..j] && full[j] == ks[j];
      ReplaceElsewhere(destination, ks, updated, q, j);
    } else {
      assert full[..j] == ks;
      assert q == ks + q[j..] by {
        assert q[..j] + q[j..] == q;
      }
      WalkReplace(destination, ks, updated, q[j..]);
      WalkAppend(destination, ks, q[j..]);
      StepBesideOverwrite(dest, lastNode, v, q[j]);
      assert q[j..][0] == q[j];
    }
  }

  /** Writing the same value at the same slot again changes nothing. */
  lemma OverwriteAgain(container: Node, key: string, v: Node)
    requires Overwrite(container, key, v).Ok?
    ensures Overwrite(Overwrite(container, key, v).value, key, v) == Overwrite(container, key, v)
  {
    var updated := Overwrite(container, key, v).value;
    if updated.Arr? {
      assert updated.items[ParseIndex(key).value := v] == updated.items;
    } else {
      assert updated.fields[key := v] == updated.fields;
    }
  }

  /** Applying the same change twice leaves what applying it once does. */
  lemma ChangeIdempotent(destination: Node, node: Path, changes: seq<Node>)
    requires Change(destination, node, changes).Ok?
    ensures Change(Change(destination, node, changes).value, node, changes) == Change(destination, node, changes)
  {
    var ks := Route(node, true).value;
    var dest := Walk(destination, ks).value;
    var lastNode := LastKey(node).value;
    var v := changes[|changes| - 1];
    var updated := Overwrite(dest, lastNode, v).value;
    WalkReplace(destination, ks, updated, []);
    OverwriteAgain(dest, lastNode, v);
    ReplaceTwice(destination, ks, updated, updated);
    assert Change(Replace(destination, ks, updated), node, changes)
        == Ok(Replace(Replace(destination, ks, updated), ks, updated));
  }
}
