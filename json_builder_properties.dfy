/**
 * What `put_value` promises, stated about its reference definition `Put`:
 * the value is reachable afterwards, nothing beside the path changes, a later
 * write to the same place wins, and a kind conflict is only ever found at a
 * node that was already in the tree.
 */
module JsonBuilderProperties {
  import opened Base
  import opened JsonBuilder

  /** A concrete step into a tree: a member name or an element position. */
  datatype Step = Member(key: string) | Element(index: nat)

  /** The node reached by following `steps` from `node`, if every step exists. */
  function Get(node: Json, steps: seq<Step>): Option<Json>
    decreases |steps|
  {
    if steps == [] then Some(node)
    else match steps[0]
      case Member(k) => if node.Object? && k in node.members then Get(node.members[k], steps[1..]) else None
      case Element(i) => if node.Array? && i < |node.elems| then Get(node.elems[i], steps[1..]) else None
  }

  /** The child a step reads: the member or element if present, otherwise `null`. */
  function Child(node: Json, s: Step): Json
  {
    match s
    case Member(k) => if node.Object? && k in node.members then node.members[k] else Null
    case Element(i) => if node.Array? && i < |node.elems| then node.elems[i] else Null
  }

  /**
   * The concrete steps `path` takes through `root` when written to: object keys
   * and indices stand for themselves, and `ArrayEnd` for the position the new
   * last element takes, which is the array's length at that moment.
   */
  function Resolve(root: Json, path: seq<PathAccess>): (steps: seq<Step>)
    ensures |steps| == |path|
    decreases |path|
  {
    if path == [] then []
    else
      var s := match path[0]
        case ObjectKey(k) => Member(k)
        case ArrayIndex(i) => Element(i)
        case ArrayEnd => Element(if root.Array? then |root.elems| else 0);
      [s] + Resolve(Child(root, s), path[1..])
  }

  /** Writing succeeded and reading the resolved path of the new tree gives the value back. */
  lemma {:induction false} PutReaches(root: Json, path: seq<PathAccess>, value: Json)
    requires Put(root, path, value).Ok?
    ensures Get(Put(root, path, value).value, Resolve(root, path)) == Some(value)
    decreases |path|
  {
    if path != [] {
      var steps := Resolve(root, path);
      var s := steps[0];
      PutReaches(Child(root, s), path[1..], value);
      match path[0]
      case ObjectKey(k) =>
      case ArrayIndex(i) =>
        var node := if root.Null? then Array([]) else root;
        if node.Array? && i >= |node.elems| {
          assert (node.elems + Nulls(i + 1 - |node.elems|))[i] == Null;
        }
      case ArrayEnd =>
    }
  }

  /** `ObjectKey(k)`: `null` becomes an object, `k` is added if missing, and every other member is left as it was. */
  lemma PutObjectKeyShape(root: Json, k: string, rest: seq<PathAccess>, value: Json)
    ensures var r := Put(root, [ObjectKey(k)] + rest, value);
      && (r.Err? ==> r.error == ExpectObjectRoot || (root.Object? && k in root.members))
      && (!root.Null? && !root.Object? ==> r == Err(ExpectObjectRoot))
      && (r.Ok? ==>
          && r.value.Object?
          && r.value.members.Keys == (if root.Object? then root.members.Keys else {}) + {k}
          && (forall k' :: k' != k && root.Object? && k' in root.members ==> r.value.members[k'] == root.members[k'])
          && Put(Child(root, Member(k)), rest, value) == Ok(r.value.members[k]))
  {
    assert ([ObjectKey(k)] + rest)[1..] == rest;
    assert Put(Null, rest, value).Ok?;
  }

  /** `ArrayIndex(i)`: `null` becomes an array, which grows with `null`s to length `i + 1` if shorter; every other element is left as it was. */
  lemma PutArrayIndexShape(root: Json, i: uint32, rest: seq<PathAccess>, value: Json)
    ensures var r := Put(root, [ArrayIndex(i)] + rest, value);
      var old_elems := if root.Array? then root.elems else [];
      && (r.Err? ==> r.error == ExpectArrayRoot || (root.Array? && i < |root.elems|))
      && (!root.Null? && !root.Array? ==> r == Err(ExpectArrayRoot))
      && (r.Ok? ==>
          && r.value.Array?
          && |r.value.elems| == (if i < |old_elems| then |old_elems| else i + 1)
          && (forall j :: 0 <= j < |old_elems| && j != i ==> r.value.elems[j] == old_elems[j])
          && (forall j :: |old_elems| <= j < i ==> r.value.elems[j] == Null)
          && Put(Child(root, Element(i)), rest, value) == Ok(r.value.elems[i]))
  {
    assert ([ArrayIndex(i)] + rest)[1..] == rest;
    assert Put(Null, rest, value).Ok?;
    var old_elems := if root.Array? then root.elems else [];
    if i >= |old_elems| {
      assert (old_elems + Nulls(i + 1 - |old_elems|))[i] == Null;
    }
  }

  /** `ArrayEnd`: `null` becomes an array, which grows by exactly one element; the earlier elements are left as they were. */
  lemma PutArrayEndShape(root: Json, rest: seq<PathAccess>, value: Json)
    ensures var r := Put(root, [ArrayEnd] + rest, value);
      var old_elems := if root.Array? then root.elems else [];
      && (r.Err? <==> !root.Null? && !root.Array?)
      && (r.Err? ==> r.error == ExpectArrayRoot)
      && (r.Ok? ==>
          && r.value.Array?
          && |r.value.elems| == |old_elems| + 1
          && r.value.elems[..|old_elems|] == old_elems
          && Put(Null, rest, value) == Ok(r.value.elems[|old_elems|]))
  {
    assert ([ArrayEnd] + rest)[1..] == rest;
    assert Put(Null, rest, value).Ok?;
  }

  predicate NoArrayEnd(path: seq<PathAccess>)
  {
    forall i :: 0 <= i < |path| ==> !path[i].ArrayEnd?
  }

  /**
   * Last write wins: writing again along a path without `ArrayEnd` gives the
   * same tree as if only the second write had happened.
   */
  lemma {:induction false} LastWriteWins(root: Json, path: seq<PathAccess>, first: Json, second: Json)
    requires NoArrayEnd(path)
    requires Put(root, path, first).Ok?
    ensures Put(Put(root, path, first).value, path, second) == Put(root, path, second)
    decreases |path|
  {
    if path != [] {
      var tail := path[1..];
      assert path == [path[0]] + tail;
      assert NoArrayEnd(tail);
      match path[0]
      case ObjectKey(k) =>
        var child := Child(root, Member(k));
        PutObjectKeyShape(root, k, tail, first);
        LastWriteWins(child, tail, first, second);
        LastWriteWinsAtKey(root, k, tail, first, second);
      case ArrayIndex(i) =>
        var child := Child(root, Element(i));
        PutArrayIndexShape(root, i, tail, first);
        LastWriteWins(child, tail, first, second);
        LastWriteWinsAtIndex(root, i, tail, first, second);
    }
  }

  /** The `ObjectKey` step of LastWriteWins, given the claim for the member below. */
  lemma LastWriteWinsAtKey(root: Json, k: string, tail: seq<PathAccess>, first: Json, second: Json)
    requires Put(root, [ObjectKey(k)] + tail, first).Ok?
    requires Put(Child(root, Member(k)), tail, first).Ok?
    requires Put(Put(Child(root, Member(k)), tail, first).value, tail, second) == Put(Child(root, Member(k)), tail, second)
    ensures Put(Put(root, [ObjectKey(k)] + tail, first).value, [ObjectKey(k)] + tail, second)
         == Put(root, [ObjectKey(k)] + tail, second)
  {
    var path := [ObjectKey(k)] + tail;
    assert path[0] == ObjectKey(k) && path[1..] == tail;
    var child := Child(root, Member(k));
    var members := if root.Object? then root.members else map[];
    var c1 := Put(child, tail, first).value;
    var mid := Object(members[k := c1]);
    assert Put(root, path, first) == Ok(mid);
    if Put(child, tail, second).Ok? {
      var c2 := Put(child, tail, second).value;
      assert members[k := c1][k := c2] == members[k := c2];
      assert Put(mid, path, second) == Ok(Object(members[k := c2]));
    }
  }

  /** The `ArrayIndex` step of LastWriteWins, given the claim for the element below. */
  lemma LastWriteWinsAtIndex(root: Json, i: uint32, tail: seq<PathAccess>, first: Json, second: Json)
    requires Put(root, [ArrayIndex(i)] + tail, first).Ok?
    requires Put(Child(root, Element(i)), tail, first).Ok?
    requires Put(Put(Child(root, Element(i)), tail, first).value, tail, second) == Put(Child(root, Element(i)), tail, second)
    ensures Put(Put(root, [ArrayIndex(i)] + tail, first).value, [ArrayIndex(i)] + tail, second)
         == Put(root, [ArrayIndex(i)] + tail, second)
  {
    var path := [ArrayIndex(i)] + tail;
    assert path[0] == ArrayIndex(i) && path[1..] == tail;
    var node := if root.Null? then Array([]) else root;
    var elems := if i < |node.elems| then node.elems else node.elems + Nulls(i + 1 - |node.elems|);
    assert elems[i] == Child(root, Element(i));
    var c1 := Put(elems[i], tail, first).value;
    assert Put(root, path, first) == Ok(Array(elems[i := c1]));
    PutIndexPadded(root, i, tail, second);
    PutIndexSame(elems, i, tail, c1, second);
  }

  /** Writing at an index of `null` or a short array is writing at it in the array padded with `null`s. */
  lemma PutIndexPadded(root: Json, i: uint32, tail: seq<PathAccess>, v: Json)
    requires root.Null? || root.Array?
    ensures var node := if root.Null? then Array([]) else root;
      var elems := if i < |node.elems| then node.elems else node.elems + Nulls(i + 1 - |node.elems|);
      Put(root, [ArrayIndex(i)] + tail, v) == Put(Array(elems), [ArrayIndex(i)] + tail, v)
  {
    assert ([ArrayIndex(i)] + tail)[1..] == tail;
  }

  /** Two element values that a write turns into the same node give the same array. */
  lemma PutIndexSame(elems: seq<Json>, i: uint32, tail: seq<PathAccess>, c1: Json, v: Json)
    requires i < |elems|
    requires Put(c1, tail, v) == Put(elems[i], tail, v)
    ensures Put(Array(elems[i := c1]), [ArrayIndex(i)] + tail, v) == Put(Array(elems), [ArrayIndex(i)] + tail, v)
  {
    var path := [ArrayIndex(i)] + tail;
    assert path[0] == ArrayIndex(i) && path[1..] == tail;
    if Put(c1, tail, v).Ok? {
      var c2 := Put(c1, tail, v).value;
      assert elems[i := c1][i := c2] == elems[i := c2];
    }
  }

  /** Repeating a write along a path without `ArrayEnd` changes nothing. */
  lemma PutIdempotent(root: Json, path: seq<PathAccess>, value: Json)
    requires NoArrayEnd(path)
    requires Put(root, path, value).Ok?
    ensures Put(Put(root, path, value).value, path, value) == Put(root, path, value)
  {
    LastWriteWins(root, path, value, value);
  }

  /** The node `n`, already in the tree, is of the wrong kind for the step `a`. */
  predicate Conflicts(n: Json, a: PathAccess)
  {
    !n.Null? && (if a.ObjectKey? then !n.Object? else !n.Array?)
  }

  /** The error a step reports when it meets a node of the wrong kind. */
  function Expected(a: PathAccess): PutError
  {
    if a.ObjectKey? then ExpectObjectRoot else ExpectArrayRoot
  }

  /** The node that step `j` of `path` meets was already in `root`, and is of the wrong kind for it. */
  predicate ConflictAt(root: Json, path: seq<PathAccess>, j: nat)
    requires j < |path|
  {
    var n := Get(root, Resolve(root, path)[..j]);
    n.Some? && Conflicts(n.value, path[j])
  }

  /**
   * A write fails exactly when some step meets a node that was already in the
   * tree and is neither `null` nor of the kind the step needs; the error names
   * the kind that step expected.
   */
  lemma {:induction false} PutFailsOnlyOnConflict(root: Json, path: seq<PathAccess>, value: Json)
    ensures Put(root, path, value).Err? <==> exists j :: 0 <= j < |path| && ConflictAt(root, path, j)
    ensures Put(root, path, value).Err? ==>
      exists j :: 0 <= j < |path| && ConflictAt(root, path, j) && Put(root, path, value).error == Expected(path[j])
    decreases |path|
  {
    if path != [] {
      var steps := Resolve(root, path);
      var s := steps[0];
      var child := Child(root, s);
      var tail := path[1..];
      assert steps[1..] == Resolve(child, tail);
      PutFailsOnlyOnConflict(child, tail, value);
      assert steps[..0] == [];
      if Conflicts(root, path[0]) {
        assert ConflictAt(root, path, 0);
      } else {
        // No conflict at the root: a conflict further down is one below `child`.
        assert !ConflictAt(root, path, 0);
        assert Put(root, path, value).Err? <==> Put(child, tail, value).Err? by {
          if path[0].ArrayIndex? {
            var i := path[0].index;
            var node := if root.Null? then Array([]) else root;
            if i >= |node.elems| {
              assert (node.elems + Nulls(i + 1 - |node.elems|))[i] == Null;
            }
          }
        }
        forall j | 1 <= j < |path|
          ensures ConflictAt(root, path, j) <==> ConflictAt(child, tail, j - 1)
        {
          assert steps[..j] == [s] + Resolve(child, tail)[..j - 1];
          GetCons(root, s, Resolve(child, tail)[..j - 1]);
        }
        if Put(root, path, value).Err? {
          var j :| 0 <= j < |tail| && ConflictAt(child, tail, j) && Put(child, tail, value).error == Expected(tail[j]);
          assert ConflictAt(root, path, j + 1);
        }
        if exists j :: 0 <= j < |path| && ConflictAt(root, path, j) {
          var j :| 0 <= j < |path| && ConflictAt(root, path, j);
          assert j != 0;
          assert ConflictAt(child, tail, j - 1);
        }
      }
    }
  }

  /** Reading one step and then the rest: a `null` child read through `Child` is not in the tree, so nothing below it is either. */
  lemma GetCons(root: Json, s: Step, rest: seq<Step>)
    ensures Get(root, [s] + rest) == if Get(root, [s]).Some? then Get(Child(root, s), rest) else None
  {
    assert ([s] + rest)[1..] == rest;
    assert ([s])[1..] == [];
  }

  /** `q` leaves `p` at some step: they agree up to a position where both go on and differ. */
  predicate Diverges(q: seq<Step>, p: seq<Step>)
    decreases |q|
  {
    |q| > 0 && |p| > 0 && (q[0] != p[0] || Diverges(q[1..], p[1..]))
  }

  /** Every node of the old tree off the written path is still there, unchanged. */
  lemma {:induction false} PutLeavesOthersUnchanged(root: Json, path: seq<PathAccess>, value: Json, q: seq<Step>)
    requires Put(root, path, value).Ok?
    requires Diverges(q, Resolve(root, path))
    requires Get(root, q).Some?
    ensures Get(Put(root, path, value).value, q) == Get(root, q)
    decreases |path|
  {
    var r := Put(root, path, value).value;
    var steps := Resolve(root, path);
    var s := steps[0];
    var tail := path[1..];
    assert steps[1..] == Resolve(Child(root, s), tail);
    assert path == [path[0]] + tail;
    GetCons(root, q[0], q[1..]);
    GetCons(r, q[0], q[1..]);
    assert q == [q[0]] + q[1..];
    match path[0]
    case ObjectKey(k) =>
      PutObjectKeyShape(root, k, tail, value);
      if q[0] == s {
        PutLeavesOthersUnchanged(Child(root, s), tail, value, q[1..]);
      }
    case ArrayIndex(i) =>
      PutArrayIndexShape(root, i, tail, value);
      if q[0] == s {
        PutLeavesOthersUnchanged(Child(root, s), tail, value, q[1..]);
      }
    case ArrayEnd =>
      PutArrayEndShape(root, tail, value);
      if q[0].Element? {
        assert q[0].index < |root.elems|;
        assert r.elems[q[0].index] == r.elems[..|root.elems|][q[0].index];
      }
  }

  /** `[1]=foo` on an empty document: the array is padded with `null` up to index 1. */
  lemma SparseArrayExample()
    ensures Put(Null, [ArrayIndex(1)], Str("foo")) == Ok(Array([Null, Str("foo")]))
  {
    var p := [ArrayIndex(1)];
    assert p[0] == ArrayIndex(1) && p[1..] == [];
    assert ([] + Nulls(2))[1 := Str("foo")] == [Null, Str("foo")];
  }

  /** `[][foo][bar][][1][baz]=qux` on an empty document. */
  lemma MixedNestingExample()
    ensures Put(Null, [ArrayEnd, ObjectKey("foo"), ObjectKey("bar"), ArrayEnd, ArrayIndex(1), ObjectKey("baz")], Str("qux"))
         == Ok(Array([Object(map["foo" := Object(map["bar" := Array([Array([Null, Object(map["baz" := Str("qux")])])])])])]))
  {
    var v := Str("qux");
    var p := [ArrayEnd, ObjectKey("foo"), ObjectKey("bar"), ArrayEnd, ArrayIndex(1), ObjectKey("baz")];
    var baz := Object(map["baz" := v]);
    var inner := Array([Null, baz]);
    var outer := Array([inner]);
    var bar := Object(map["bar" := outer]);
    var foo := Object(map["foo" := bar]);
    assert p[5..][1..] == [];
    assert Put(Null, p[5..], v) == Ok(baz);
    assert p[4..][1..] == p[5..];
    assert ([] + Nulls(2))[1 := baz] == [Null, baz];
    assert Put(Null, p[4..], v) == Ok(inner);
    assert p[3..][1..] == p[4..];
    assert [] + [inner] == [inner];
    assert Put(Null, p[3..], v) == Ok(outer);
    assert p[2..][1..] == p[3..];
    assert Put(Null, p[2..], v) == Ok(bar);
    assert p[1..][1..] == p[2..];
    assert Put(Null, p[1..], v) == Ok(foo);
    assert p[0] == ArrayEnd;
    assert [] + [foo] == [foo];
  }

  /** `a[f][]=g`, then `a[f][1]=h`, then `a[f][2][i]=j`: appends and indices fill the same array in turn. */
  lemma AppendThenIndexExample()
    ensures
      var t1 := Put(Null, [ObjectKey("a"), ObjectKey("f"), ArrayEnd], Str("g"));
      t1.Ok? &&
      var t2 := Put(t1.value, [ObjectKey("a"), ObjectKey("f"), ArrayIndex(1)], Str("h"));
      t2.Ok? &&
      var t3 := Put(t2.value, [ObjectKey("a"), ObjectKey("f"), ArrayIndex(2), ObjectKey("i")], Str("j"));
      t3 == Ok(Object(map["a" := Object(map["f" := Array([Str("g"), Str("h"), Object(map["i" := Str("j")])])])]))
  {
    AppendFirstWrite();
    AppendSecondWrite();
    AppendThirdWrite();
  }

  /** `a[f][]=g` on `null`. */
  lemma AppendFirstWrite()
    ensures Put(Null, [ObjectKey("a"), ObjectKey("f"), ArrayEnd], Str("g"))
         == Ok(Object(map["a" := Object(map["f" := Array([Str("g")])])]))
  {
    var p1 := [ObjectKey("a"), ObjectKey("f"), ArrayEnd];
    var f1 := Array([Str("g")]);
    assert p1[2..][1..] == [];
    assert [] + [Str("g")] == [Str("g")];
    assert Put(Null, p1[2..], Str("g")) == Ok(f1);
    assert p1[1..][1..] == p1[2..];
    assert Put(Null, p1[1..], Str("g")) == Ok(Object(map["f" := f1]));
  }

  /** `a[f][1]=h` after the first write. */
  lemma AppendSecondWrite()
    ensures Put(Object(map["a" := Object(map["f" := Array([Str("g")])])]),
                [ObjectKey("a"), ObjectKey("f"), ArrayIndex(1)], Str("h"))
         == Ok(Object(map["a" := Object(map["f" := Array([Str("g"), Str("h")])])]))
  {
    var p2 := [ObjectKey("a"), ObjectKey("f"), ArrayIndex(1)];
    var f1 := Array([Str("g")]);
    var f2 := Array([Str("g"), Str("h")]);
    assert p2[2..][1..] == [];
    assert ([Str("g")] + Nulls(1))[1 := Str("h")] == [Str("g"), Str("h")];
    assert Put(f1, p2[2..], Str("h")) == Ok(f2);
    assert p2[1..][1..] == p2[2..];
    assert map["f" := f1]["f" := f2] == map["f" := f2];
    assert Put(Object(map["f" := f1]), p2[1..], Str("h")) == Ok(Object(map["f" := f2]));
    assert map["a" := Object(map["f" := f1])]["a" := Object(map["f" := f2])] == map["a" := Object(map["f" := f2])];
  }

  /** `a[f][2][i]=j` after the second write. */
  lemma AppendThirdWrite()
    ensures Put(Object(map["a" := Object(map["f" := Array([Str("g"), Str("h")])])]),
                [ObjectKey("a"), ObjectKey("f"), ArrayIndex(2), ObjectKey("i")], Str("j"))
         == Ok(Object(map["a" := Object(map["f" := Array([Str("g"), Str("h"), Object(map["i" := Str("j")])])])]))
  {
    var p3 := [ObjectKey("a"), ObjectKey("f"), ArrayIndex(2), ObjectKey("i")];
    var f2 := Array([Str("g"), Str("h")]);
    var ij := Object(map["i" := Str("j")]);
    var f3 := Array([Str("g"), Str("h"), ij]);
    assert p3[3..][1..] == [];
    assert Put(Null, p3[3..], Str("j")) == Ok(ij);
    assert p3[2..][1..] == p3[3..];
    assert ([Str("g"), Str("h")] + Nulls(1))[2 := ij] == [Str("g"), Str("h"), ij];
    assert Put(f2, p3[2..], Str("j")) == Ok(f3);
    assert p3[1..][1..] == p3[2..];
    assert map["f" := f2]["f" := f3] == map["f" := f3];
    assert Put(Object(map["f" := f2]), p3[1..], Str("j")) == Ok(Object(map["f" := f3]));
    assert map["a" := Object(map["f" := f2])]["a" := Object(map["f" := f3])] == map["a" := Object(map["f" := f3])];
  }

  /** `a[b]=c`, then `a[b][]=e`: the member `b` already holds a string, so appending to it fails. */
  lemma TypeConflictExample()
    ensures
      var t1 := Put(Null, [ObjectKey("a"), ObjectKey("b")], Str("c"));
      t1.Ok? && Put(t1.value, [ObjectKey("a"), ObjectKey("b"), ArrayEnd], Str("e")) == Err(ExpectArrayRoot)
  {
    var p1 := [ObjectKey("a"), ObjectKey("b")];
    var p2 := [ObjectKey("a"), ObjectKey("b"), ArrayEnd];
    var t1 := Object(map["a" := Object(map["b" := Str("c")])]);
    assert p1[1..][1..] == [];
    assert Put(Null, p1[1..], Str("c")) == Ok(Object(map["b" := Str("c")]));
    assert Put(Null, p1, Str("c")) == Ok(t1);
    assert p2[2..] == [ArrayEnd];
    assert Put(Str("c"), p2[2..], Str("e")) == Err(ExpectArrayRoot);
    assert p2[1..][1..] == p2[2..];
    assert Put(Object(map["b" := Str("c")]), p2[1..], Str("e")) == Err(ExpectArrayRoot);
  }
}
