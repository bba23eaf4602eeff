/** Redaction of personal data before a rejected payload is stored (src/shared/pii-redact.ts).

    A parsed JSON value is a tree of mutable objects.  Since no object of it is shared, an object is named
    by the keys that lead to it, and the tree is a table from such paths to nodes. */
module PiiRedact {
  import opened EmailScrubber

  type Path = seq<string>

  /** Arrays are objects too: their keys are their indices, and deleting one leaves a hole. */
  datatype Node = Scalar(text: string) | Object(keys: seq<string>) | Array(length: nat, keys: seq<string>)

  type Tree = map<Path, Node>

  predicate HasKey(node: Node, key: string) {
    !node.Scalar? && key in node.keys
  }

  /** The paths of a tree are exactly those that its objects lead to. */
  ghost predicate WellFormed(tree: Tree) {
    [] in tree && forall path: Path, key: string :: LeadsTo(tree, path, key)
  }

  predicate LeadsTo(tree: Tree, path: Path, key: string) {
    path + [key] in tree <==> path in tree && HasKey(tree[path], key)
  }

  // ----- Paths -----

  /** path.split(".") */
  function Split(path: string): (parts: Path)
    ensures |parts| >= 1
  {
    if path == "" then [""]
    else if path[0] == '.' then [""] + Split(path[1..])
    else
      var rest := Split(path[1..]);
      [[path[0]] + rest[0]] + rest[1..]
  }

  // ----- Deleting a path -----

  function WithoutKey(keys: seq<string>, key: string): (r: seq<string>)
    ensures forall k :: k in r <==> k in keys && k != key
  {
    if keys == [] then []
    else
      assert keys == [keys[0]] + keys[1..];
      (if keys[0] == key then [] else [keys[0]]) + WithoutKey(keys[1..], key)
  }

  /** delete node[key]: nothing happens to a value that is no object. */
  function Stripped(node: Node, key: string): Node {
    match node
    case Scalar(_) => node
    case Object(keys) => Object(WithoutKey(keys, key))
    case Array(length, keys) => Array(length, WithoutKey(keys, key))
  }

  function Parent(path: Path): Path
    requires path != []
  {
    path[..|path| - 1]
  }

  function Key(path: Path): string
    requires path != []
  {
    path[|path| - 1]
  }

  /** delete current[key], where current is the object at that path: the value and all below it leave the tree. */
  function Detached(tree: Tree, current: Path, key: string): Tree {
    map p | p in tree && !(current + [key] <= p) :: if p == current then Stripped(tree[p], key) else tree[p]
  }

  /** The tree without the value at the path; all other values and the order of the keys stay. */
  function Deleted(tree: Tree, path: Path): Tree
    requires path != []
  {
    Detached(tree, Parent(path), Key(path))
  }

  lemma DeletedIsWellFormed(tree: Tree, path: Path)
    requires WellFormed(tree) && path != []
    ensures WellFormed(Deleted(tree, path))
  {
    var later := Deleted(tree, path);
    assert Parent(path) + [Key(path)] == path;
    assert !(path <= []) && [] in later;
    forall p: Path, key: string ensures LeadsTo(later, p, key) {
      assert LeadsTo(tree, p, key);
      assert (p + [key])[..|p|] == p && (p + [key])[|p|] == key;
      if path <= p + [key] && !(path <= p) {
        assert path == p + [key];
      }
      if path <= p { assert path <= p + [key]; }
      assert p + [key] == path <==> p == Parent(path) && key == Key(path);
    }
  }

  class Document {
    var tree: Tree

    constructor (tree: Tree)
      requires WellFormed(tree)
      ensures this.tree == tree
    {
      this.tree := tree;
    }

    /** Walks down to the object that holds the last key; a missing or scalar value on the way ends the walk. */
    method DeleteNestedPath(path: string)
      requires WellFormed(tree)
      modifies this
      ensures WellFormed(tree)
      ensures tree == Deleted(old(tree), Split(path))
    {
      var parts := Split(path);
      var current: Path := [];
      DeletedIsWellFormed(tree, parts);
      for i := 0 to |parts| - 1
        invariant current == parts[..i] && current in tree && tree == old(tree)
      {
        var part := parts[i];
        assert LeadsTo(tree, current, part);
        assert parts[..i + 1] == parts[..i] + [part];
        if !HasKey(tree[current], part) {
          // The value is undefined, and the next test of the loop, or the last one, ends the walk.
          NothingToDelete(tree, parts, i + 1);
          return;
        }
        current := current + [part];
      }
      tree := Detached(tree, current, parts[|parts| - 1]);
    }
  }

  lemma {:induction false} PrefixesArePresent(tree: Tree, path: Path, n: nat)
    requires WellFormed(tree) && path in tree && n <= |path|
    ensures path[..n] in tree
    decreases |path| - n
  {
    if n < |path| {
      PrefixesArePresent(tree, path, n + 1);
      assert path[..n + 1] == path[..n] + [path[n]];
      assert LeadsTo(tree, path[..n], path[n]);
    } else {
      assert path[..n] == path;
    }
  }

  /** When the walk ends early there is nothing below the path. */
  lemma NothingToDelete(tree: Tree, path: Path, n: nat)
    requires WellFormed(tree) && path != [] && n <= |path| && path[..n] !in tree
    requires n < |path| || Parent(path) in tree
    ensures Deleted(tree, path) == tree
  {
    assert Parent(path) + [Key(path)] == path;
    forall p | p in tree ensures !(path <= p) {
      if path <= p { AbsentBelow(tree, path, n, p); }
    }
    if Parent(path) in tree {
      if n < |path| { AbsentBelow(tree, path, n, Parent(path)); }
      assert LeadsTo(tree, Parent(path), Key(path)) && path == Parent(path) + [Key(path)] && path[..|path|] == path;
      StrippingNothing(tree[Parent(path)], Key(path));
    }
  }

  lemma AbsentBelow(tree: Tree, path: Path, n: nat, p: Path)
    requires WellFormed(tree) && n <= |path| && path[..n] !in tree && path[..n] <= p
    ensures p !in tree
  {
    assert p[..n] == path[..n];
    if p in tree { PrefixesArePresent(tree, p, n); }
  }

  lemma StrippingNothing(node: Node, key: string)
    requires !HasKey(node, key)
    ensures Stripped(node, key) == node
  {
    if !node.Scalar? { NothingWithout(node.keys, key); }
  }

  // ----- What deletion does -----

  /** The value and everything below it are gone, all other values are still there, and they are unchanged
      but for the one key. */
  lemma DeletionIsExact(tree: Tree, path: Path)
    requires WellFormed(tree) && path != []
    ensures forall p: Path :: p in Deleted(tree, path) <==> p in tree && !(path <= p)
    ensures forall p: Path | p in Deleted(tree, path) ::
              if p == Parent(path) && HasKey(tree[p], Key(path))
              then Deleted(tree, path)[p] == Stripped(tree[p], Key(path))
              else Deleted(tree, path)[p] == tree[p]
  {
    assert Parent(path) + [Key(path)] == path;
    forall p: Path | p in tree && p == Parent(path) && !HasKey(tree[p], Key(path))
      ensures Stripped(tree[p], Key(path)) == tree[p]
    {
      StrippingNothing(tree[p], Key(path));
    }
  }

  lemma {:induction false} NothingWithout(keys: seq<string>, key: string)
    requires key !in keys
    ensures WithoutKey(keys, key) == keys
  {
    if keys != [] { NothingWithout(keys[1..], key); }
  }

  lemma {:induction false} WithoutKeysCommute(keys: seq<string>, a: string, b: string)
    ensures WithoutKey(WithoutKey(keys, a), b) == WithoutKey(WithoutKey(keys, b), a)
  {
    if keys != [] {
      var k, rest := keys[0], keys[1..];
      WithoutKeysCommute(rest, a, b);
      KeyInFront(k, WithoutKey(rest, a), b);
      KeyInFront(k, WithoutKey(rest, b), a);
    }
  }

  lemma KeyInFront(k: string, keys: seq<string>, key: string)
    ensures WithoutKey([k] + keys, key) == (if k == key then [] else [k]) + WithoutKey(keys, key)
    ensures WithoutKey([] + keys, key) == WithoutKey(keys, key)
  {
    assert ([k] + keys)[1..] == keys;
    assert [] + keys == keys;
  }

  lemma StrippingCommutes(node: Node, a: string, b: string)
    ensures Stripped(Stripped(node, a), b) == Stripped(Stripped(node, b), a)
  {
    if !node.Scalar? { WithoutKeysCommute(node.keys, a, b); }
  }

  /** The order of the deletions is irrelevant, even when one path lies below another. */
  lemma DeletionsCommute(tree: Tree, a: Path, b: Path)
    requires a != [] && b != []
    ensures Deleted(Deleted(tree, a), b) == Deleted(Deleted(tree, b), a)
  {
    assert Parent(a) + [Key(a)] == a && Parent(b) + [Key(b)] == b;
    hide Stripped;
    forall p | p in tree && p == Parent(a) == Parent(b)
      ensures Stripped(Stripped(tree[p], Key(a)), Key(b)) == Stripped(Stripped(tree[p], Key(b)), Key(a))
    {
      StrippingCommutes(tree[p], Key(a), Key(b));
    }
  }

  // ----- Redaction -----

  const BLOCKED_PATHS := ["player.email", "envelope.player.email", "user_token", "data.user_token"]

  function Redacted(tree: Tree, paths: seq<string>): Tree {
    if paths == [] then tree else Deleted(Redacted(tree, paths[..|paths| - 1]), Split(paths[|paths| - 1]))
  }

  /** The keys of the node at the path that do not lead to a blocked path, in their order. */
  function KeysLeft(keys: seq<string>, path: Path, blocked: seq<string>): seq<string> {
    if keys == [] then []
    else (if LeadsToBlocked(path + [keys[0]], blocked) then [] else [keys[0]]) + KeysLeft(keys[1..], path, blocked)
  }

  predicate LeadsToBlocked(path: Path, blocked: seq<string>) {
    exists b | b in blocked :: Split(b) == path
  }

  function NodeLeft(node: Node, path: Path, blocked: seq<string>): Node {
    match node
    case Scalar(_) => node
    case Object(keys) => Object(KeysLeft(keys, path, blocked))
    case Array(length, keys) => Array(length, KeysLeft(keys, path, blocked))
  }

  lemma {:induction false} AllKeysLeft(keys: seq<string>, path: Path)
    ensures KeysLeft(keys, path, []) == keys
  {
    if keys != [] { AllKeysLeft(keys[1..], path); }
  }

  /** One more blocked path takes one more key from its parent, and none from any other node. */
  lemma {:induction false} OneMoreBlocked(keys: seq<string>, path: Path, blocked: seq<string>, b: string)
    ensures KeysLeft(keys, path, blocked + [b])
         == if path == Parent(Split(b)) then WithoutKey(KeysLeft(keys, path, blocked), Key(Split(b)))
            else KeysLeft(keys, path, blocked)
  {
    if keys != [] {
      var k, parts := keys[0], Split(b);
      hide Split;
      OneMoreBlocked(keys[1..], path, blocked, b);
      assert Parent(parts) + [Key(parts)] == parts;
      assert (path + [k])[..|path|] == path && (path + [k])[|path|] == k;
      assert parts == path + [k] <==> path == Parent(parts) && k == Key(parts);
      assert forall x :: x in blocked + [b] <==> x in blocked || x == b;
      assert LeadsToBlocked(path + [k], blocked + [b]) <==> LeadsToBlocked(path + [k], blocked) || parts == path + [k];
      KeyInFront(k, KeysLeft(keys[1..], path, blocked), Key(parts));
    }
  }

  lemma OneMoreNode(node: Node, path: Path, blocked: seq<string>, b: string)
    ensures NodeLeft(node, path, blocked + [b])
         == if path == Parent(Split(b)) then Stripped(NodeLeft(node, path, blocked), Key(Split(b)))
            else NodeLeft(node, path, blocked)
  {
    if !node.Scalar? { OneMoreBlocked(node.keys, path, blocked, b); }
  }

  /** What is left after the deletions is exactly what lies at no blocked path.  Every scalar is unchanged, and
      every object and array has exactly its keys that do not lead to a blocked path, in their order. */
  lemma {:induction false} RedactionIsExact(tree: Tree, paths: seq<string>)
    ensures forall p: Path :: p in Redacted(tree, paths) <==>
              p in tree && forall blocked | blocked in paths :: !(Split(blocked) <= p)
    ensures forall p: Path | p in Redacted(tree, paths) :: Redacted(tree, paths)[p] == NodeLeft(tree[p], p, paths)
  {
    hide Split;
    if paths == [] {
      forall p | p in tree ensures NodeLeft(tree[p], p, []) == tree[p] {
        if !tree[p].Scalar? { AllKeysLeft(tree[p].keys, p); }
      }
    } else {
      var n := |paths| - 1;
      var before := Redacted(tree, paths[..n]);
      RedactionIsExact(tree, paths[..n]);
      var parts := Split(paths[n]);
      assert Parent(parts) + [Key(parts)] == parts;
      assert paths == paths[..n] + [paths[n]];
      assert forall path :: path in paths <==> path in paths[..n] || path == paths[n];
      hide NodeLeft, Stripped;
      forall p: Path | p in Redacted(tree, paths) ensures Redacted(tree, paths)[p] == NodeLeft(tree[p], p, paths) {
        OneMoreNode(tree[p], p, paths[..n], paths[n]);
      }
    }
  }

  /** The four blocked fields are gone, whatever they held, and every other scalar is still printed. */
  lemma BlockedPathsAreGone(tree: Tree)
    ensures var left := Redacted(tree, BLOCKED_PATHS);
            forall p: Path :: p in left <==>
              && p in tree
              && !(["player", "email"] <= p) && !(["envelope", "player", "email"] <= p)
              && !(["user_token"] <= p) && !(["data", "user_token"] <= p)
  {
    SplitBlockedPaths();
    hide Split, Redacted;
    RedactionIsExact(tree, BLOCKED_PATHS);
    var paths := BLOCKED_PATHS;
    assert paths[0] in paths && paths[1] in paths && paths[2] in paths && paths[3] in paths;
    assert forall path | path in paths :: path == paths[0] || path == paths[1] || path == paths[2] || path == paths[3];
  }

  lemma {:induction false} SplitPlain(name: string)
    requires '.' !in name
    ensures Split(name) == [name]
  {
    if name != "" {
      SplitPlain(name[1..]);
      assert [name[0]] + name[1..] == name;
    }
  }

  lemma {:induction false} SplitJoined(name: string, rest: string)
    requires '.' !in name
    ensures Split(name + "." + rest) == [name] + Split(rest)
  {
    var path := name + "." + rest;
    if name == "" {
      assert path == "." + rest && path[1..] == rest;
    } else {
      SplitJoined(name[1..], rest);
      assert path[1..] == name[1..] + "." + rest;
      assert [name[0]] + name[1..] == name;
    }
  }

  lemma SplitBlockedPaths()
    ensures Split(BLOCKED_PATHS[0]) == ["player", "email"]
    ensures Split(BLOCKED_PATHS[1]) == ["envelope", "player", "email"]
    ensures Split(BLOCKED_PATHS[2]) == ["user_token"]
    ensures Split(BLOCKED_PATHS[3]) == ["data", "user_token"]
  {
    hide Split;
    SplitPlain("email");
    SplitPlain("user_token");
    SplitJoined("player", "email");
    SplitJoined("envelope", "player.email");
    SplitJoined("data", "user_token");
    assert "player" + "." + "email" == BLOCKED_PATHS[0];
    assert "player" + "." + "email" == "player.email";
    assert "envelope" + "." + "player.email" == BLOCKED_PATHS[1];
    assert "data" + "." + "user_token" == BLOCKED_PATHS[3];
  }

  /** stringify is JSON.stringify; the payload itself is not touched. */
  method RedactPii(payload: Document, stringify: Tree -> string) returns (r: string)
    requires WellFormed(payload.tree)
    ensures r == Scrub(stringify(Redacted(payload.tree, BLOCKED_PATHS)))
    ensures !HasEmail(r)
  {
    hide Split, Deleted, Scrub, HasEmail, WellFormed;
    var clone := new Document(payload.tree);
    var paths := BLOCKED_PATHS;
    for i := 0 to |paths|
      invariant WellFormed(clone.tree) && clone.tree == Redacted(payload.tree, paths[..i])
      invariant fresh(clone)
    {
      assert paths[..i + 1][..i] == paths[..i];
      clone.DeleteNestedPath(paths[i]);
    }
    assert paths[..|paths|] == paths;
    var json := stringify(clone.tree);
    ScrubbedTextHasNoEmail(json);
    r := Scrub(json);
  }
}
