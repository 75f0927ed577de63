/**
 Adding and removing one field of a decoded object by its path (addField and removeField,
 controllers/util/util.go). A path is the dotted text taken apart.
 */
module ObjectPath {
  import opened Json
  import opened Uninstall

  /** name, or name[index]. */
  datatype Segment = Field(name: string) | Item(name: string, index: nat)

  type Fields = map<string, Json>

  /** The list under a key, an empty one where there is none. */
  function ListAt(f: Fields, name: string): seq<Json> {
    if name in f && f[name].Arr? then f[name].items else []
  }

  function ObjectAt(f: Fields, name: string): Fields {
    if name in f && f[name].Obj? then f[name].fields else map[]
  }

  /** addField; None is a panic: no segment left after an index, an index beyond the one new
      element, or an element that is no object. */
  function Add(f: Fields, path: seq<Segment>, value: Json): Option<Fields>
    decreases |path|
  {
    if path == [] then None
    else
      match path[0]
      case Item(name, index) =>
        var had := ListAt(f, name);
        var items := if index >= |had| then had + [Obj(map[])] else had;
        if index >= |items| || !items[index].Obj? then None
        else
          var sub := Add(items[index].fields, path[1..], value);
          if sub.None? then None else Some(f[name := Arr(items[index := Obj(sub.value)])])
      case Field(name) =>
        if |path| == 1 then Some(f[name := value])
        else
          var sub := Add(ObjectAt(f, name), path[1..], value);
          if sub.None? then None else Some(f[name := Obj(sub.value)])
  }

  /** removeField; a missing parent ends it quietly. */
  function Remove(f: Fields, path: seq<Segment>): Option<Fields>
    decreases |path|
  {
    if path == [] then None
    else
      match path[0]
      case Item(name, index) =>
        var items := ListAt(f, name);
        if index >= |items| then Some(f)
        else if !items[index].Obj? then None
        else
          var sub := Remove(items[index].fields, path[1..]);
          if sub.None? then None else Some(f[name := Arr(items[index := Obj(sub.value)])])
      case Field(name) =>
        if |path| == 1 then Some(f - {name})
        else if !(name in f && f[name].Obj?) then Some(f)
        else
          var sub := Remove(f[name].fields, path[1..]);
          if sub.None? then None else Some(f[name := Obj(sub.value)])
  }

  /** The value at a path, if there is one. */
  function Get(f: Fields, path: seq<Segment>): Option<Json>
    decreases |path|
  {
    if path == [] then None
    else
      match path[0]
      case Item(name, index) =>
        var items := ListAt(f, name);
        if index >= |items| then None
        else if |path| == 1 then Some(items[index])
        else if items[index].Obj? then Get(items[index].fields, path[1..])
        else None
      case Field(name) =>
        if name !in f then None
        else if |path| == 1 then Some(f[name])
        else if f[name].Obj? then Get(f[name].fields, path[1..])
        else None
  }

  // ---------------------------------------------------------------------------------------
  // Laws

  /** The parents of the last segment are all there. */
  predicate Parents(f: Fields, path: seq<Segment>)
    decreases |path|
  {
    path != [] &&
    match path[0]
    case Item(name, index) =>
      var items := ListAt(f, name);
      index < |items| && items[index].Obj? && Parents(items[index].fields, path[1..])
    case Field(name) =>
      |path| == 1 || (name in f && f[name].Obj? && Parents(f[name].fields, path[1..]))
  }

  /** The paths part at some segment: other names, or other elements of one list. */
  predicate Diverge(p: seq<Segment>, q: seq<Segment>)
    decreases |p|
  {
    p != [] && q != [] &&
    if p[0] == q[0] then Diverge(p[1..], q[1..])
    else p[0].name != q[0].name || (p[0].Item? && q[0].Item?)
  }

  /** The path ends with a name, and every element it indexes on the way is an object, or would be the
      next one of its list. */
  predicate Addable(f: Fields, path: seq<Segment>)
    decreases |path|
  {
    path != [] && path[|path| - 1].Field? &&
    match path[0]
    case Item(name, index) =>
      var items := ListAt(f, name);
      index <= |items| && (index < |items| ==> items[index].Obj?) &&
      Addable(if index < |items| then items[index].fields else map[], path[1..])
    case Field(name) => |path| == 1 || Addable(ObjectAt(f, name), path[1..])
  }

  /** addField goes through exactly then. */
  lemma {:induction false} AddedExactly(f: Fields, path: seq<Segment>, value: Json)
    ensures Add(f, path, value).Some? <==> Addable(f, path)
    decreases |path|
  {
    if path != [] {
      match path[0]
      case Item(name, index) =>
        var items := ListAt(f, name);
        if index < |items| && items[index].Obj? {
          AddedExactly(items[index].fields, path[1..], value);
        } else if index == |items| {
          AddedExactly(map[], path[1..], value);
        }
      case Field(name) =>
        if |path| > 1 { AddedExactly(ObjectAt(f, name), path[1..], value); }
    }
  }

  /** As far as the path is there, it ends with a name and the elements it indexes are objects. */
  predicate Removable(f: Fields, path: seq<Segment>)
    decreases |path|
  {
    path != [] &&
    match path[0]
    case Item(name, index) =>
      var items := ListAt(f, name);
      index < |items| ==> items[index].Obj? && Removable(items[index].fields, path[1..])
    case Field(name) => |path| == 1 || (name in f && f[name].Obj? ==> Removable(f[name].fields, path[1..]))
  }

  /** removeField goes through exactly then. */
  lemma {:induction false} RemovedExactly(f: Fields, path: seq<Segment>)
    ensures Remove(f, path).Some? <==> Removable(f, path)
    decreases |path|
  {
    if path != [] {
      match path[0]
      case Item(name, index) =>
        var items := ListAt(f, name);
        if index < |items| && items[index].Obj? { RemovedExactly(items[index].fields, path[1..]); }
      case Field(name) =>
        if |path| > 1 && name in f && f[name].Obj? { RemovedExactly(f[name].fields, path[1..]); }
    }
  }

  /** Reading gives what was added. */
  lemma {:induction false} ReadAfterAdd(f: Fields, path: seq<Segment>, value: Json)
    requires Add(f, path, value).Some?
    ensures Get(Add(f, path, value).value, path) == Some(value)
    decreases |path|
  {
    match path[0]
    case Item(name, index) =>
      var had := ListAt(f, name);
      var items := if index >= |had| then had + [Obj(map[])] else had;
      ReadAfterAdd(items[index].fields, path[1..], value);
    case Field(name) =>
      if |path| > 1 { ReadAfterAdd(ObjectAt(f, name), path[1..], value); }
  }

  /** Adding again changes nothing. */
  lemma {:induction false} AddTwice(f: Fields, path: seq<Segment>, value: Json)
    requires Add(f, path, value).Some?
    ensures Add(Add(f, path, value).value, path, value) == Add(f, path, value)
    decreases |path|
  {
    var g := Add(f, path, value).value;
    match path[0]
    case Item(name, index) =>
      var had := ListAt(f, name);
      var items := if index >= |had| then had + [Obj(map[])] else had;
      AddTwice(items[index].fields, path[1..], value);
      assert g[name].items[index := g[name].items[index]] == g[name].items;
      assert g[name := g[name]] == g;
    case Field(name) =>
      if |path| > 1 {
        var sub := Add(ObjectAt(f, name), path[1..], value).value;
        AddTwice(ObjectAt(f, name), path[1..], value);
        assert ObjectAt(g, name) == sub;
        assert g[name := Obj(sub)] == g;
      } else {
        assert g[name := value] == g;
      }
  }

  /** Adding leaves diverging paths alone. */
  lemma {:induction false} AddElsewhere(f: Fields, path: seq<Segment>, value: Json, other: seq<Segment>)
    requires Add(f, path, value).Some? && Diverge(path, other)
    ensures Get(Add(f, path, value).value, other) == Get(f, other)
    decreases |path|
  {
    if path[0] == other[0] {
      match path[0]
      case Item(name, index) =>
        var had := ListAt(f, name);
        var items := if index >= |had| then had + [Obj(map[])] else had;
        AddElsewhere(items[index].fields, path[1..], value, other[1..]);
        if index >= |had| { NothingThere(other[1..]); }
      case Field(name) =>
        AddElsewhere(ObjectAt(f, name), path[1..], value, other[1..]);
        if !(name in f && f[name].Obj?) { NothingThere(other[1..]); }
    }
  }

  lemma NothingThere(path: seq<Segment>)
    ensures Get(map[], path) == None
  {
  }

  /** Removing leaves diverging paths alone. */
  lemma {:induction false} RemoveElsewhere(f: Fields, path: seq<Segment>, other: seq<Segment>)
    requires Remove(f, path).Some? && Diverge(path, other)
    ensures Get(Remove(f, path).value, other) == Get(f, other)
    decreases |path|
  {
    if path[0] == other[0] {
      match path[0]
      case Item(name, index) =>
        var items := ListAt(f, name);
        if index < |items| { RemoveElsewhere(items[index].fields, path[1..], other[1..]); }
      case Field(name) =>
        if |path| > 1 && name in f && f[name].Obj? { RemoveElsewhere(f[name].fields, path[1..], other[1..]); }
    }
  }

  /** After removing there is nothing, and removing again changes nothing. */
  lemma {:induction false} NothingAfterRemove(f: Fields, path: seq<Segment>)
    requires Remove(f, path).Some?
    ensures Remove(Remove(f, path).value, path) == Remove(f, path)
    ensures path[|path| - 1].Field? ==> Get(Remove(f, path).value, path) == None
    decreases |path|
  {
    var g := Remove(f, path).value;
    match path[0]
    case Item(name, index) =>
      var items := ListAt(f, name);
      if index < |items| {
        NothingAfterRemove(items[index].fields, path[1..]);
        assert g[name].items[index := g[name].items[index]] == g[name].items;
        assert g[name := g[name]] == g;
      }
    case Field(name) =>
      if |path| > 1 && name in f && f[name].Obj? {
        var sub := Remove(f[name].fields, path[1..]).value;
        NothingAfterRemove(f[name].fields, path[1..]);
        assert g[name] == Obj(sub);
        assert g[name := Obj(sub)] == g;
      } else if |path| == 1 {
        assert g - {name} == g;
      }
  }

  lemma SameElementAfter(f: Fields, name: string, items: seq<Json>, index: nat, left: Fields, alone: Option<Fields>)
    requires index < |items|
    ensures alone.Some? && f[name := Arr(items[index := Obj(left)])] == f[name := Arr(items[index := Obj(alone.value)])] ==> alone == Some(left)
  {
    if alone.Some? && f[name := Arr(items[index := Obj(left)])] == f[name := Arr(items[index := Obj(alone.value)])] {
      assert f[name := Arr(items[index := Obj(left)])][name].items[index] == Obj(left);
      assert f[name := Arr(items[index := Obj(alone.value)])][name].items[index] == Obj(alone.value);
    }
  }

  /** Removing what was added gives what removing alone gives, exactly when the parents were
      there; otherwise the parents addField made stay. */
  lemma {:induction false} RemoveAfterAdd(f: Fields, path: seq<Segment>, value: Json)
    requires Add(f, path, value).Some?
    ensures Remove(Add(f, path, value).value, path).Some?
    ensures Remove(Add(f, path, value).value, path) == Remove(f, path) <==> Parents(f, path)
    decreases |path|
  {
    var g := Add(f, path, value).value;
    match path[0]
    case Item(name, index) =>
      var had := ListAt(f, name);
      var items := if index >= |had| then had + [Obj(map[])] else had;
      RemoveAfterAdd(items[index].fields, path[1..], value);
      var left := Remove(Add(items[index].fields, path[1..], value).value, path[1..]).value;
      assert g[name].items[index := Obj(left)] == items[index := Obj(left)];
      assert g[name := Arr(items[index := Obj(left)])] == f[name := Arr(items[index := Obj(left)])];
      if index >= |had| {
        assert |ListAt(Remove(g, path).value, name)| == |had| + 1;
      } else {
        SameElementAfter(f, name, items, index, left, Remove(items[index].fields, path[1..]));
      }
    case Field(name) =>
      if |path| > 1 {
        var sub := Add(ObjectAt(f, name), path[1..], value).value;
        RemoveAfterAdd(ObjectAt(f, name), path[1..], value);
        assert g[name] == Obj(sub);
        var r := Remove(g, path).value;
        assert r[name] == Obj(Remove(sub, path[1..]).value);
        assert g[name := r[name]] == f[name := r[name]];
      } else {
        assert f[name := value] - {name} == f - {name};
      }
  }
}
