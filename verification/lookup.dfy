/** The path resolver `dotLookup` (dictdiffer.js:15-43), the walk it
    performs, and the write-back along a path that stands for mutating a
    container in place. */
module Lookup {
  import opened Values
  import opened Text

  /** A path descriptor as it arrives in a diff entry: a `.`-separated
      string, an array of tokens, a falsy non-string value (undefined, null,
      0, false), or any other value. */
  datatype Path = Dotted(text: string) | Tokens(tokens: seq<Scalar>) | Missing | Invalid

  /** The paths for which `!lookup` holds: the resolver returns the root. */
  predicate IsFalsy(p: Path) {
    p.Missing? || p == Dotted("")
  }

  /** The tokens of an array path, as property keys. */
  function KeyStrings(ts: seq<Scalar>): seq<string> {
    seq(|ts|, i requires 0 <= i < |ts| => KeyString(ts[i]))
  }

  /** The normalised token list of a string or array path. */
  function Keys(p: Path): seq<string>
    requires p.Dotted? || p.Tokens?
  {
    if p.Dotted? then Split(p.text) else KeyStrings(p.tokens)
  }

  /** `keys.pop()`: drops the last token, if any. */
  function DropLast(ks: seq<string>): seq<string> {
    if ks == [] then [] else ks[..|ks| - 1]
  }

  /** The tokens the resolver actually walks for `p` in the given mode. */
  function Route(p: Path, parent: bool): Result<seq<string>> {
    if IsFalsy(p) then Ok([])
    else if p.Invalid? then Err(InvalidPath)
    else if parent then Ok(DropLast(Keys(p)))
    else Ok(Keys(p))
  }

  /** `value[key]` for one token: sequences are indexed by `parseInt(key)`,
      mappings by the literal key. */
  function Step(n: Node, key: string): Result<Node> {
    match n
    case Obj(fields) => if key in fields then Ok(fields[key]) else Err(PathNotFound)
    case Arr(items) =>
      (match ParseIndex(key)
       case None => Err(BadIndex)
       case Some(i) => if i < |items| then Ok(items[i]) else Err(PathNotFound))
    case Leaf(_) => Err(NotContainer)
  }

  /** Walks the tokens left to right from `n`. */
  function Walk(n: Node, ks: seq<string>): Result<Node>
    decreases |ks|
  {
    if ks == [] then Ok(n)
    else
      match Step(n, ks[0])
      case Err(e) => Err(e)
      case Ok(child) => Walk(child, ks[1..])
  }

  /** What `dotLookup(source, lookup, parent)` returns. */
  function Resolve(source: Node, lookup: Path, parent: bool): (r: Result<Node>)
    ensures IsFalsy(lookup) ==> r == Ok(source)
    ensures lookup.Invalid? ==> r == Err(InvalidPath)
  {
    match Route(lookup, parent)
    case Err(e) => Err(e)
    case Ok(ks) => Walk(source, ks)
  }

  /** dotLookup: copies or splits the path, pops the last token in parent
      mode, and then reassigns `value` token by token. */
  method DotLookup(source: Node, lookup: Path, parent: bool) returns (r: Result<Node>)
    ensures r == Resolve(source, lookup, parent)
  {
    if IsFalsy(lookup) {
      return Ok(source);
    }
    var keys: seq<string>;
    if lookup.Tokens? {
      keys := KeyStrings(lookup.tokens);
    } else if lookup.Dotted? {
      keys := Split(lookup.text);
    } else {
      return Err(InvalidPath);
    }
    if parent {
      keys := DropLast(keys);
    }
    var value := source;
    var i := 0;
    while i < |keys|
      invariant 0 <= i <= |keys|
      invariant Walk(value, keys[i..]) == Resolve(source, lookup, parent)
    {
      assert keys[i..][1..] == keys[i + 1..];
      match Step(value, keys[i]) {
        case Err(e) =>
          return Err(e);
        case Ok(child) =>
          value := child;
      }
      i := i + 1;
    }
    return Ok(value);
  }

  /** Replaces the node that `ks` reaches by `m`: the value-level form of
      assigning into a container found by the walk. Where the walk fails,
      the tree is left as it is. */
  function Replace(n: Node, ks: seq<string>, m: Node): Node
    decreases |ks|
  {
    if ks == [] then m
    else
      match n
      case Obj(fields) =>
        if ks[0] in fields then Obj(fields[ks[0] := Replace(fields[ks[0]], ks[1..], m)]) else n
      case Arr(items) =>
        (match ParseIndex(ks[0])
         case None => n
         case Some(i) => if i < |items| then Arr(items[i := Replace(items[i], ks[1..], m)]) else n)
      case Leaf(_) => n
  }

  /** Which entry of a container a token designates. */
  datatype Slot = Field(key: string) | Position(index: nat)

  function SlotOf(n: Node, key: string): Option<Slot> {
    match n
    case Obj(_) => Some(Field(key))
    case Arr(_) => (match ParseIndex(key) case None => None case Some(i) => Some(Position(i)))
    case Leaf(_) => None
  }

  /** Walking a concatenation is walking the first part, then the second. */
  lemma {:induction false} WalkAppend(n: Node, ks: seq<string>, us: seq<string>)
    ensures Walk(n, ks + us) == match Walk(n, ks) case Err(e) => Err(e) case Ok(m) => Walk(m, us)
    decreases |ks|
  {
    if ks != [] {
      assert (ks + us)[0] == ks[0] && (ks + us)[1..] == ks[1..] + us;
      match Step(n, ks[0]) {
        case Err(e) =>
        case Ok(child) => WalkAppend(child, ks[1..], us);
      }
    } else {
      assert ks + us == us;
    }
  }

  /** After replacing the node at `ks` by `m`, the path `ks` reaches `m`,
      and every path below it reaches what it reaches inside `m`. */
  lemma {:induction false} WalkReplace(n: Node, ks: seq<string>, m: Node, us: seq<string>)
    requires Walk(n, ks).Ok?
    ensures Walk(Replace(n, ks, m), ks) == Ok(m)
    ensures Walk(Replace(n, ks, m), ks + us) == Walk(m, us)
    decreases |ks|
  {
    WalkAppend(Replace(n, ks, m), ks, us);
    if ks != [] {
      var child := Step(n, ks[0]).value;
      WalkReplace(child, ks[1..], m, us);
      assert Step(Replace(n, ks, m), ks[0]) == Ok(Replace(child, ks[1..], m));
    }
  }

  /** Writing back the node a path already reaches changes nothing. */
  lemma {:induction false} ReplaceSame(n: Node, ks: seq<string>)
    requires Walk(n, ks).Ok?
    ensures Replace(n, ks, Walk(n, ks).value) == n
    decreases |ks|
  {
    if ks != [] {
      var child := Step(n, ks[0]).value;
      ReplaceSame(child, ks[1..]);
      match n {
        case Obj(fields) => assert fields[ks[0] := child] == fields;
        case Arr(items) => assert items[ParseIndex(ks[0]).value := child] == items;
      }
    }
  }

  /** Replacing the node at `ks` leaves every path that leaves `ks` by a
      different slot exactly as it was. */
  lemma {:induction false} ReplaceElsewhere(n: Node, ks: seq<string>, m: Node, q: seq<string>, j: nat)
    requires Walk(n, ks).Ok?
    requires j < |ks| && j < |q| && ks[..j] == q[..j]
    requires Walk(n, ks[..j]).Ok?
    requires SlotOf(Walk(n, ks[..j]).value, ks[j]) != SlotOf(Walk(n, ks[..j]).value, q[j])
    ensures Walk(Replace(n, ks, m), q) == Walk(n, q)
    decreases j
  {
    var child := Step(n, ks[0]).value;
    if j == 0 {
      assert Step(Replace(n, ks, m), q[0]) == Step(n, q[0]);
    } else {
      assert q[0] == ks[..j][0];
      assert Walk(n, ks[..j]) == Walk(child, ks[1..][..j - 1]) by {
        assert ks[..j][1..] == ks[1..][..j - 1];
      }
      assert ks[1..][..j - 1] == q[1..][..j - 1] by {
        assert ks[1..][..j - 1] == ks[..j][1..];
        assert q[1..][..j - 1] == q[..j][1..];
      }
      ReplaceElsewhere(child, ks[1..], m, q[1..], j - 1);
      assert Step(Replace(n, ks, m), q[0]) == Ok(Replace(child, ks[1..], m));
    }
  }

  /** Replacing twice at the same place keeps only the second. */
  lemma {:induction false} ReplaceTwice(n: Node, ks: seq<string>, m1: Node, m2: Node)
    requires Walk(n, ks).Ok?
    ensures Replace(Replace(n, ks, m1), ks, m2) == Replace(n, ks, m2)
    decreases |ks|
  {
    if ks != [] {
      var child := Step(n, ks[0]).value;
      ReplaceTwice(child, ks[1..], m1, m2);
    }
  }

  /** A dotted string and the array of its `.`-separated tokens resolve to
      the same node, in both modes. */
  lemma DottedAsTokens(source: Node, s: string, parent: bool)
    requires s != ""
    ensures Resolve(source, Dotted(s), parent)
         == Resolve(source, Tokens(seq(|Split(s)|, i requires 0 <= i < |Split(s)| => Str(Split(s)[i]))), parent)
  {
    var ts := seq(|Split(s)|, i requires 0 <= i < |Split(s)| => Str(Split(s)[i]));
    assert KeyStrings(ts) == Split(s);
  }

  /** An array of delimiter-free tokens and the string that joins them
      resolve to the same node (unless the joined string is empty, which
      the resolver treats as the root). */
  lemma TokensAsDotted(source: Node, parts: seq<string>, parent: bool)
    requires |parts| >= 1 && Join(parts) != ""
    requires forall i :: 0 <= i < |parts| ==> DELIMITER !in parts[i]
    ensures Resolve(source, Tokens(seq(|parts|, i requires 0 <= i < |parts| => Str(parts[i]))), parent)
         == Resolve(source, Dotted(Join(parts)), parent)
  {
    var ts := seq(|parts|, i requires 0 <= i < |parts| => Str(parts[i]));
    assert KeyStrings(ts) == parts by {
      forall i | 0 <= i < |parts| ensures KeyStrings(ts)[i] == parts[i] {
        assert ts[i] == Str(parts[i]);
      }
    }
    SplitJoin(parts);
    assert Keys(Dotted(Join(parts))) == parts;
  }

  /** Walking a non-empty path is walking all but its last token, then
      one more step. */
  lemma WalkLast(n: Node, ks: seq<string>)
    requires |ks| > 0
    ensures Walk(n, ks)
         == match Walk(n, DropLast(ks)) case Err(e) => Err(e) case Ok(c) => Step(c, ks[|ks| - 1])
  {
    var last := ks[|ks| - 1];
    assert DropLast(ks) + [last] == ks;
    WalkAppend(n, DropLast(ks), [last]);
    match Walk(n, DropLast(ks)) {
      case Err(e) =>
      case Ok(c) => assert [last][1..] == [];
    }
  }

  /** Parent mode finds the container that holds the target under the last
      token: resolving the path equals resolving its parent and taking one
      more step. A one-token path has the root as its parent. */
  lemma ParentHoldsTarget(source: Node, p: Path)
    requires (p.Dotted? || p.Tokens?) && !IsFalsy(p) && |Keys(p)| > 0
    ensures Resolve(source, p, false)
         == match Resolve(source, p, true) case Err(e) => Err(e) case Ok(c) => Step(c, Keys(p)[|Keys(p)| - 1])
    ensures |Keys(p)| == 1 ==> Resolve(source, p, true) == Ok(source)
  {
    var ks := Keys(p);
    assert Route(p, false) == Ok(ks) && Route(p, true) == Ok(DropLast(ks));
    WalkLast(source, ks);
  }
}
