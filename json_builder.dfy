/**
 * The path-addressed JSON tree writer: `put_value` walks a path of accessors
 * into a JSON tree, creating what is missing on the way, and overwrites the
 * node the path ends at.
 *
 * `put_value` takes the tree as `&mut Value`. Rust's exclusive borrow means
 * nothing else can see the tree while it runs, so the method below receives
 * the node and hands back the node as it stands afterwards; the caller writes
 * it back in place of the old one, which is what the recursion on `&mut
 * arr[index]` and `entry(key)` does.
 */
module JsonBuilder {
  import opened Base

  /** One step of a body path: `ObjectKey`, `ArrayIndex`, or `ArrayEnd` (append). */
  datatype PathAccess = ObjectKey(key: string) | ArrayIndex(index: uint32) | ArrayEnd

  /**
   * A JSON value. Numbers are kept as their text, since the writer never looks
   * inside them; the order of object members is not modelled.
   */
  datatype Json =
    | Null
    | Bool(b: bool)
    | Number(text: string)
    | Str(s: string)
    | Array(elems: seq<Json>)
    | Object(members: map<string, Json>)

  /** The two ways a step can meet a node of the wrong kind. */
  datatype PutError = ExpectObjectRoot | ExpectArrayRoot

  /** `n` copies of `null`: what `resize` pads an array with. */
  function Nulls(n: nat): (r: seq<Json>)
    ensures |r| == n && forall i :: 0 <= i < n ==> r[i] == Null
  {
    seq(n, _ => Null)
  }

  /**
   * The tree that writing `value` at `path` into `root` produces, or the error
   * it stops with. This is the reference definition the method `PutValue` is
   * proved against; the lemmas in JsonBuilderProperties say what it means.
   * An empty path replaces the node; writing below `null` never fails, since
   * every node it creates starts `null` and is promoted to the kind the next
   * step needs; and a successful step leaves the container that step needs.
   */
  function Put(root: Json, path: seq<PathAccess>, value: Json): (r: Result<Json, PutError>)
    ensures path == [] ==> r == Ok(value)
    ensures root.Null? ==> r.Ok?
    ensures r.Ok? && path != [] ==> if path[0].ObjectKey? then r.value.Object? else r.value.Array?
    decreases |path|
  {
    if path == [] then Ok(value)
    else match path[0]
      case ObjectKey(k) =>
        var node := if root.Null? then Object(map[]) else root;
        if !node.Object? then Err(ExpectObjectRoot)
        else
          var child := if k in node.members then node.members[k] else Null;
          (match Put(child, path[1..], value)
           case Ok(c) => Ok(Object(node.members[k := c]))
           case Err(e) => Err(e))
      case ArrayIndex(i) =>
        var node := if root.Null? then Array([]) else root;
        if !node.Array? then Err(ExpectArrayRoot)
        else
          var elems := if i < |node.elems| then node.elems else node.elems + Nulls(i + 1 - |node.elems|);
          (match Put(elems[i], path[1..], value)
           case Ok(c) => Ok(Array(elems[i := c]))
           case Err(e) => Err(e))
      case ArrayEnd =>
        var node := if root.Null? then Array([]) else root;
        if !node.Array? then Err(ExpectArrayRoot)
        else
          (match Put(Null, path[1..], value)
           case Ok(c) => Ok(Array(node.elems + [c]))
           case Err(e) => Err(e))
  }

  /**
   * `put_value`, step by step: promote a `null` node, check its kind, insert the
   * missing member or pad / extend the array, write into the child, and put the
   * child back. On an error the node comes back exactly as it was: a node is
   * only ever changed on the way to a `null` child, below which nothing fails.
   * Each arm of the match on the first accessor is a method of its own below.
   */
  method PutValue(root: Json, path: seq<PathAccess>, value: Json) returns (node: Json, result: Outcome<PutError>)
    ensures result.Pass? <==> Put(root, path, value).Ok?
    ensures result.Pass? ==> node == Put(root, path, value).value
    ensures result.Fail? ==> node == root && result.error == Put(root, path, value).error
    decreases |path|, 1
  {
    if |path| == 0 {
      return value, Pass;
    }
    match path[0] {
      case ObjectKey(_) =>
        node, result := PutObjectKey(root, path, value);
      case ArrayIndex(_) =>
        node, result := PutArrayIndex(root, path, value);
      case ArrayEnd =>
        node, result := PutArrayEnd(root, path, value);
    }
  }

  /** The `ObjectKey` arm: promote `null` to `{}`, insert the member as `null` when missing, write into it. */
  method PutObjectKey(root: Json, path: seq<PathAccess>, value: Json) returns (node: Json, result: Outcome<PutError>)
    requires path != [] && path[0].ObjectKey?
    ensures result.Pass? <==> Put(root, path, value).Ok?
    ensures result.Pass? ==> node == Put(root, path, value).value
    ensures result.Fail? ==> node == root && result.error == Put(root, path, value).error
    decreases |path|, 0
  {
    var key := path[0].key;
    node := root;
    if node.Null? {
      node := Object(map[]);
    }
    if !node.Object? {
      return node, Fail(ExpectObjectRoot);
    }
    var members := node.members;
    if key !in members {
      members := members[key := Null];
      assert Put(Null, path[1..], value).Ok?;
    }
    var child, r := PutValue(members[key], path[1..], value);
    if r.Fail? {
      assert members[key := child] == members;
    }
    node := Object(members[key := child]);
    result := r;
  }

  /** The `ArrayIndex` arm: promote `null` to `[]`, pad with `null` up to the index, write into the element. */
  method PutArrayIndex(root: Json, path: seq<PathAccess>, value: Json) returns (node: Json, result: Outcome<PutError>)
    requires path != [] && path[0].ArrayIndex?
    ensures result.Pass? <==> Put(root, path, value).Ok?
    ensures result.Pass? ==> node == Put(root, path, value).value
    ensures result.Fail? ==> node == root && result.error == Put(root, path, value).error
    decreases |path|, 0
  {
    var i := path[0].index;
    node := root;
    if node.Null? {
      node := Array([]);
    }
    if !node.Array? {
      return node, Fail(ExpectArrayRoot);
    }
    var elems := node.elems;
    if i >= |elems| {
      elems := elems + Nulls(i + 1 - |elems|);
      assert Put(Null, path[1..], value).Ok?;
    }
    var child, r := PutValue(elems[i], path[1..], value);
    if r.Fail? {
      assert elems[i := child] == elems;
    }
    node := Array(elems[i := child]);
    result := r;
  }

  /** The `ArrayEnd` arm: promote `null` to `[]`, push a `null`, write into it. */
  method PutArrayEnd(root: Json, path: seq<PathAccess>, value: Json) returns (node: Json, result: Outcome<PutError>)
    requires path != [] && path[0].ArrayEnd?
    ensures result.Pass? <==> Put(root, path, value).Ok?
    ensures result.Pass? ==> node == Put(root, path, value).value
    ensures result.Fail? ==> node == root && result.error == Put(root, path, value).error
    decreases |path|, 0
  {
    node := root;
    if node.Null? {
      node := Array([]);
    }
    if !node.Array? {
      return node, Fail(ExpectArrayRoot);
    }
    var elems := node.elems + [Null];
    var last := |elems| - 1;
    assert Put(Null, path[1..], value).Ok?;
    var child, r := PutValue(elems[last], path[1..], value);
    node := Array(elems[last := child]);
    result := r;
  }
}
