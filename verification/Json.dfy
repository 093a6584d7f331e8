/** Paths in a JSON tree.  Arrays, numbers, strings and so on are all `Scalar`: for these functions
    a value is an object or it is not. */
module Json {
  import opened Wrappers

  datatype Value = Null | Scalar(text: string) | Object(fields: map<string, Value>)

  type Path = p: seq<string> | p != [] witness [""]

  /** `as_object` throws on anything else. */
  datatype Error = NotAnObject

  function GetItem(json: Value, path: Path): Result<Option<Value>, Error>
    decreases |path|
  {
    if !json.Object? then Failure(NotAnObject)
    else if path[0] !in json.fields then Success(None)
    else if |path| > 1 then GetItem(json.fields[path[0]], path[1..])
    else Success(Some(json.fields[path[0]]))
  }

  /** An edit in place: the tree as it is left behind, also when the edit was cut short by an exception. */
  datatype Edit = Edit(tree: Value, ok: bool)

  function CreateItem(json: Value, path: Path): Edit
    decreases |path|
  {
    if !json.Object? then Edit(json, false)
    else
      var child := if path[0] in json.fields then json.fields[path[0]]
                   else if |path| > 1 then Object(map[]) else Null;
      if |path| > 1 then
        var rest := CreateItem(child, path[1..]);
        Edit(Object(json.fields[path[0] := rest.tree]), rest.ok)
      else Edit(Object(json.fields[path[0] := child]), true)
  }

  function EraseItem(json: Value, path: Path): Edit
    decreases |path|
  {
    if !json.Object? then Edit(json, false)
    else if |path| == 1 then Edit(Object(json.fields - {path[0]}), true)
    else if path[0] !in json.fields then Edit(json, true)
    else
      var rest := EraseItem(json.fields[path[0]], path[1..]);
      if rest.ok && rest.tree == Object(map[]) then Edit(Object(json.fields - {path[0]}), true)
      else Edit(Object(json.fields[path[0] := rest.tree]), rest.ok)
  }

  /** The reference: the node a path leads to, if the tree has one there. */
  ghost function Node(json: Value, path: seq<string>): Option<Value>
    decreases |path|
  {
    if path == [] then Some(json)
    else if json.Object? && path[0] in json.fields then Node(json.fields[path[0]], path[1..])
    else None
  }

  /** The nodes that exist on the way to `path` are objects. */
  ghost predicate Open(json: Value, path: Path) {
    forall k :: 0 <= k < |path| && Node(json, path[..k]).Some? ==> Node(json, path[..k]).value.Object?
  }

  /** No node on the way, other than the root, is an empty object. */
  ghost predicate NoneEmpty(json: Value, path: Path) {
    forall k :: 1 <= k < |path| ==> Node(json, path[..k]) != Some(Object(map[]))
  }

  /** Two paths that part ways. */
  ghost predicate Diverge(p: Path, q: Path) {
    exists k :: 0 <= k < |p| && k < |q| && p[..k] == q[..k] && p[k] != q[k]
  }

  lemma NodeStep(json: Value, path: Path, k: nat)
    requires json.Object? && path[0] in json.fields && 1 <= k <= |path|
    ensures Node(json, path[..k]) == Node(json.fields[path[0]], path[1..][..k - 1])
  {
    assert path[..k][1..] == path[1..][..k - 1];
  }

  lemma OpenStep(json: Value, path: Path)
    ensures Open(json, path) <==>
            json.Object? && (|path| > 1 && path[0] in json.fields ==> Open(json.fields[path[0]], path[1..]))
  {
    assert path[..0] == [];
    if json.Object? && |path| > 1 && path[0] in json.fields {
      var child, rest := json.fields[path[0]], path[1..];
      forall k | 1 <= k <= |path| ensures Node(json, path[..k]) == Node(child, rest[..k - 1]) {
        NodeStep(json, path, k);
      }
      assert Open(json, path) ==> forall k :: 0 <= k < |rest| ==> Node(child, rest[..k]) == Node(json, path[..k + 1]);
    } else if json.Object? {
      forall k | 1 <= k < |path| ensures Node(json, path[..k]).None? {
        assert path[..k][0] == path[0];
      }
    } else {
      assert Node(json, path[..0]) == Some(json);
    }
  }

  lemma NoneEmptyStep(json: Value, path: Path)
    requires json.Object? && |path| > 1
    ensures NoneEmpty(json, path) <==>
            (path[0] in json.fields ==> json.fields[path[0]] != Object(map[]) && NoneEmpty(json.fields[path[0]], path[1..]))
  {
    if path[0] in json.fields {
      var child, rest := json.fields[path[0]], path[1..];
      forall k | 1 <= k <= |path| ensures Node(json, path[..k]) == Node(child, rest[..k - 1]) {
        NodeStep(json, path, k);
      }
      assert Node(json, path[..1]) == Node(child, rest[..0]) == Some(child);
      assert NoneEmpty(json, path) ==> forall k :: 1 <= k < |rest| ==> Node(child, rest[..k]) == Node(json, path[..k + 1]);
    } else {
      forall k | 1 <= k < |path| ensures Node(json, path[..k]).None? {
        assert path[..k][0] == path[0];
      }
    }
  }

  /** Creating an item succeeds exactly on an open path, and a failure changes nothing. */
  lemma {:induction false} CreateSucceedsIffOpen(json: Value, path: Path)
    ensures CreateItem(json, path).ok <==> Open(json, path)
    ensures !CreateItem(json, path).ok ==> CreateItem(json, path).tree == json
    decreases |path|
  {
    OpenStep(json, path);
    if json.Object? && |path| > 1 {
      var child := if path[0] in json.fields then json.fields[path[0]] else Object(map[]);
      CreateSucceedsIffOpen(child, path[1..]);
      if path[0] !in json.fields {
        OpenStep(child, path[1..]);
      }
    }
  }

  /** The created item is found, as null if it is new and with its old value otherwise. */
  lemma {:induction false} GetAfterCreate(json: Value, path: Path)
    requires Open(json, path)
    ensures GetItem(CreateItem(json, path).tree, path) ==
            Success(Some(if Node(json, path).Some? then Node(json, path).value else Null))
    decreases |path|
  {
    OpenStep(json, path);
    if |path| > 1 {
      var child := if path[0] in json.fields then json.fields[path[0]] else Object(map[]);
      if path[0] !in json.fields {
        OpenStep(child, path[1..]);
      }
      GetAfterCreate(child, path[1..]);
    }
  }

  /** An item that exists already is left alone, with the whole tree. */
  lemma {:induction false} CreateExisting(json: Value, path: Path)
    requires Node(json, path).Some?
    ensures CreateItem(json, path) == Edit(json, true)
    decreases |path|
  {
    if |path| > 1 {
      CreateExisting(json.fields[path[0]], path[1..]);
    }
    assert json.fields[path[0] := json.fields[path[0]]] == json.fields;
  }

  lemma DivergeStep(p: Path, q: Path)
    requires Diverge(p, q) && p[0] == q[0]
    ensures |p| > 1 && |q| > 1 && Diverge(p[1..], q[1..])
  {
    var k :| 0 <= k < |p| && k < |q| && p[..k] == q[..k] && p[k] != q[k];
    assert p[1..][..k - 1] == p[..k][1..] == q[..k][1..] == q[1..][..k - 1];
    assert p[1..][k - 1] == p[k] && q[1..][k - 1] == q[k];
  }

  /** Neither edit can be seen from a path that parts ways with the edited one. */
  lemma {:induction false} EditsAreLocal(json: Value, path: Path, other: Path)
    requires Diverge(path, other)
    ensures GetItem(CreateItem(json, path).tree, other) == GetItem(json, other)
    ensures GetItem(EraseItem(json, path).tree, other) == GetItem(json, other)
    decreases |path|
  {
    if json.Object? && path[0] == other[0] {
      DivergeStep(path, other);
      EditsAreLocal(if path[0] in json.fields then json.fields[path[0]] else Object(map[]), path[1..], other[1..]);
    }
  }

  /** An erased item is not found any more. */
  lemma {:induction false} GetAfterErase(json: Value, path: Path)
    requires EraseItem(json, path).ok
    ensures GetItem(EraseItem(json, path).tree, path) == Success(None)
    decreases |path|
  {
    if |path| > 1 && path[0] in json.fields {
      GetAfterErase(json.fields[path[0]], path[1..]);
    }
  }

  /** Erasing what was just created restores the tree exactly when the item was absent and no
      object on the way, other than the root, was empty: an empty one is pruned. */
  lemma {:induction false} EraseUndoesCreateIff(json: Value, path: Path)
    requires Open(json, path)
    ensures EraseItem(CreateItem(json, path).tree, path).ok
    ensures EraseItem(CreateItem(json, path).tree, path).tree == json <==> Node(json, path).None? && NoneEmpty(json, path)
    decreases |path|
  {
    var created := CreateItem(json, path).tree;
    OpenStep(json, path);
    if |path| == 1 {
      assert (path[0] !in json.fields) ==> json.fields[path[0] := Null] - {path[0]} == json.fields;
      assert Node(json, path).Some? <==> path[0] in json.fields;
    } else {
      NoneEmptyStep(json, path);
      var child := if path[0] in json.fields then json.fields[path[0]] else Object(map[]);
      if path[0] !in json.fields {
        OpenStep(child, path[1..]);
        EraseAfterCreateInEmpty(path[1..]);
        assert json.fields[path[0] := CreateItem(child, path[1..]).tree] - {path[0]} == json.fields;
      } else {
        EraseUndoesCreateIff(child, path[1..]);
        OpenStep(child, path[1..]);
        if child == Object(map[]) {
          EraseAfterCreateInEmpty(path[1..]);
        }
        var erased := EraseItem(CreateItem(child, path[1..]).tree, path[1..]).tree;
        assert created.fields[path[0]] == CreateItem(child, path[1..]).tree;
        assert created.fields[path[0] := erased] == json.fields[path[0] := erased];
        assert json.fields[path[0] := erased] == json.fields <==> erased == child;
      }
    }
  }

  lemma {:induction false} EraseAfterCreateInEmpty(path: Path)
    ensures EraseItem(CreateItem(Object(map[]), path).tree, path) == Edit(Object(map[]), true)
    decreases |path|
  {
    if |path| > 1 {
      EraseAfterCreateInEmpty(path[1..]);
    }
  }

  /** An object that was empty: creating an item in it and erasing the item again removes it. */
  lemma EmptyObjectIsPruned(a: string, b: string)
    ensures var json := Object(map[a := Object(map[])]);
            && GetItem(json, [a]) == Success(Some(Object(map[])))
            && EraseItem(CreateItem(json, [a, b]).tree, [a, b]) == Edit(Object(map[]), true)
  {
    assert [a, b][1..] == [b];
    var child := Object(map[b := Null]);
    assert CreateItem(Object(map[]), [b]) == Edit(child, true);
    assert CreateItem(Object(map[a := Object(map[])]), [a, b]).tree == Object(map[a := child]);
    assert EraseItem(child, [b]) == Edit(Object(map[]), true);
  }

  /** An item is found exactly if the path is open and leads to a node, which is the one found. */
  lemma {:induction false} GetItemIsNode(json: Value, path: Path)
    ensures GetItem(json, path) == if Open(json, path) then Success(Node(json, path)) else Failure(NotAnObject)
    decreases |path|
  {
    OpenStep(json, path);
    if json.Object? && path[0] in json.fields {
      if |path| > 1 {
        GetItemIsNode(json.fields[path[0]], path[1..]);
      } else {
        assert path[1..] == [];
      }
    }
  }

  /** Erasing succeeds exactly on an open path, and a failure changes nothing. */
  lemma {:induction false} EraseSucceedsIffOpen(json: Value, path: Path)
    ensures EraseItem(json, path).ok <==> Open(json, path)
    ensures !EraseItem(json, path).ok ==> EraseItem(json, path).tree == json
    decreases |path|
  {
    OpenStep(json, path);
    if json.Object? && |path| > 1 && path[0] in json.fields {
      EraseSucceedsIffOpen(json.fields[path[0]], path[1..]);
    }
  }

  /** Erasing an item that is not there succeeds, and changes nothing exactly if no object on the way, other
      than the root, was empty. */
  lemma {:induction false} EraseAbsentIff(json: Value, path: Path)
    requires Open(json, path) && Node(json, path).None?
    ensures EraseItem(json, path).ok
    ensures EraseItem(json, path).tree == json <==> NoneEmpty(json, path)
    decreases |path|
  {
    OpenStep(json, path);
    EraseSucceedsIffOpen(json, path);
    if |path| == 1 {
      assert path[1..] == [];
      assert json.fields - {path[0]} == json.fields;
    } else {
      NoneEmptyStep(json, path);
      if path[0] in json.fields {
        var child := json.fields[path[0]];
        EraseAbsentIff(child, path[1..]);
        var rest := EraseItem(child, path[1..]);
        if rest.tree == Object(map[]) {
          assert path[0] !in EraseItem(json, path).tree.fields;
          assert child != Object(map[]) ==> rest.tree != child;
        } else {
          assert EraseItem(json, path).tree.fields[path[0]] == rest.tree;
          assert rest.tree == child ==> json.fields[path[0] := child] == json.fields;
        }
      }
    }
  }
}
