/**
 That linking links: wherever a subschema repeats a definition the linked document holds a reference
 in its place, and nowhere else; hoisted titles included.
 */
module SchemaLinkerPlaces {
  import opened Options
  import opened SchemaLinker

  // ------------------------------------------------------------------------------------- places

  datatype Step = Item(i: nat) | Entry(key: string)

  /**
   What stands at a place below `n`. The map under `properties` is no schema itself, so a place goes on
   to one of its values; a title is no subschema.
   */
  function At(n: Node, path: seq<Step>): Option<Node>
    decreases |path|
  {
    if path == [] then Some(n)
    else
      match n
      case List(items) =>
        if path[0].Item? && path[0].i < |items| then At(items[path[0].i], path[1..]) else None
      case Dict(m) =>
        if !path[0].Entry? || path[0].key !in m || path[0].key == "title" then None
        else
          var v := m[path[0].key];
          if path[0].key == "properties" && v.Dict? then
            if |path| > 1 && path[1].Entry? && path[1].key in v.entries then At(v.entries[path[1].key], path[2..]) else None
          else At(v, path[1..])
      case _ => None
  }

  /** Two schemas have one body exactly when they agree under every key but the description. */
  lemma BodiesAgree(a: Entries, b: Entries)
    ensures Body(a) == Body(b) <==>
              forall key :: key != "description" ==> (key in a <==> key in b) && (key in a && key in b ==> a[key] == b[key])
  {
    if Body(a) == Body(b) {
      forall key | key != "description" ensures (key in a <==> key in b) && (key in a && key in b ==> a[key] == b[key]) {
        assert key in a <==> key in Body(a);
        assert key in b <==> key in Body(b);
        assert key in a && key in b ==> Body(a)[key] == a[key] && Body(b)[key] == b[key];
      }
    }
  }

  /** `name` is the first definition, in document order, whose schema has this body. */
  ghost predicate FirstWithBody(d: Defs, body: Entries, name: string)
    requires Complete(d)
  {
    exists i :: 0 <= i < |d.names| && d.names[i] == name && FirstAt(d, body, i)
  }

  predicate FirstAt(d: Defs, body: Entries, i: nat)
    requires Complete(d) && i < |d.names|
  {
    Body(d.schemas[d.names[i]]) == body && forall j :: 0 <= j < i ==> Body(d.schemas[d.names[j]]) != body
  }

  /** A subschema of `owner` that repeats another definition's body. */
  ghost predicate Repeats(d: Defs, n: Node, owner: string)
    requires Complete(d)
  {
    n.Dict? && exists name :: FirstWithBody(d, Body(n.entries), name) && name != owner
  }

  lemma {:induction false} IndexFindsFirst(names: seq<string>, schemas: map<string, Entries>, body: Entries, i: nat)
    requires (forall name <- names :: name in schemas) && i < |names|
    requires Body(schemas[names[i]]) == body && forall j :: 0 <= j < i ==> Body(schemas[names[j]]) != body
    ensures ByBody(names, schemas, body) == Some(names[i])
  {
    var init := names[..|names| - 1];
    if i < |init| {
      IndexFindsFirst(init, schemas, body, i);
    } else {
      assert forall j :: 0 <= j < |init| ==> init[j] == names[j];
    }
  }

  lemma {:induction false} IndexedIsFirst(names: seq<string>, schemas: map<string, Entries>, body: Entries) returns (i: nat)
    requires (forall name <- names :: name in schemas) && ByBody(names, schemas, body).Some?
    ensures i < |names| && ByBody(names, schemas, body) == Some(names[i])
    ensures Body(schemas[names[i]]) == body && forall j :: 0 <= j < i ==> Body(schemas[names[j]]) != body
  {
    var init := names[..|names| - 1];
    if ByBody(init, schemas, body).Some? {
      i := IndexedIsFirst(init, schemas, body);
    } else {
      i := |names| - 1;
      assert forall j :: 0 <= j < |init| ==> init[j] == names[j];
    }
  }

  /** The index built by `setdefault` knows a body exactly by its first definition. */
  lemma FirstIsIndexed(d: Defs, body: Entries, name: string)
    requires Complete(d)
    ensures ByBody(d.names, d.schemas, body) == Some(name) <==> FirstWithBody(d, body, name)
  {
    hide Body;
    if FirstWithBody(d, body, name) {
      var i :| 0 <= i < |d.names| && d.names[i] == name && FirstAt(d, body, i);
      IndexFindsFirst(d.names, d.schemas, body, i);
    }
    if ByBody(d.names, d.schemas, body) == Some(name) {
      var i := IndexedIsFirst(d.names, d.schemas, body);
      assert FirstAt(d, body, i);
    }
  }

  // --------------------------------------------------------------------------------- one pass

  /** No place on the way repeats a definition, so nothing above `path` was replaced. */
  ghost predicate Reached(d: Defs, n: Node, owner: string, path: seq<Step>, from: nat)
    requires Complete(d)
  {
    forall k :: from <= k < |path| ==> At(n, path[..k]).None? || !Repeats(d, At(n, path[..k]).value, owner)
  }

  /** One step down: where the rest of the path leads from the child is where the path leads. */
  lemma ItemBelow(n: Node, path: seq<Step>)
    requires n.List? && path != [] && path[0].Item? && path[0].i < |n.items|
    ensures forall k :: 1 <= k <= |path| ==> At(n, path[..k]) == At(n.items[path[0].i], path[1..k])
  {
    forall k | 1 <= k <= |path| ensures At(n, path[..k]) == At(n.items[path[0].i], path[1..k]) {
      assert path[..k][1..] == path[1..k] && path[..k][0] == path[0];
    }
  }

  lemma EntryBelow(n: Node, path: seq<Step>)
    requires n.Dict? && path != [] && path[0].Entry? && path[0].key in n.entries && path[0].key != "title"
    requires !(path[0].key == "properties" && n.entries[path[0].key].Dict?)
    ensures forall k :: 1 <= k <= |path| ==> At(n, path[..k]) == At(n.entries[path[0].key], path[1..k])
  {
    forall k | 1 <= k <= |path| ensures At(n, path[..k]) == At(n.entries[path[0].key], path[1..k]) {
      assert path[..k][1..] == path[1..k] && path[..k][0] == path[0];
    }
  }

  lemma PropertyBelow(n: Node, path: seq<Step>)
    requires n.Dict? && |path| > 1 && path[0] == Entry("properties") && "properties" in n.entries && n.entries["properties"].Dict?
    requires path[1].Entry? && path[1].key in n.entries["properties"].entries
    ensures forall k :: 2 <= k <= |path| ==> At(n, path[..k]) == At(n.entries["properties"].entries[path[1].key], path[2..k])
  {
    forall k | 2 <= k <= |path| ensures At(n, path[..k]) == At(n.entries["properties"].entries[path[1].key], path[2..k]) {
      assert path[..k][2..] == path[2..k] && path[..k][0] == path[0] && path[..k][1] == path[1];
    }
  }

  lemma ReachedBelow(d: Defs, n: Node, owner: string, path: seq<Step>, child: Node, used: nat)
    requires Complete(d) && Reached(d, n, owner, path, 1) && 1 <= used <= 2 && used <= |path|
    requires forall k :: used <= k <= |path| ==> At(n, path[..k]) == At(child, path[used..k])
    ensures Reached(d, child, owner, path[used..], 0) && At(n, path) == At(child, path[used..])
  {
    var rest := path[used..];
    assert path[..|path|] == path;
    forall k | 0 <= k < |rest| ensures At(child, rest[..k]).None? || !Repeats(d, At(child, rest[..k]).value, owner) {
      assert rest[..k] == path[used..k + used];
    }
  }

  lemma TitledKeeps(d: Defs, m: Entries, owner: string, hint: Option<string>, key: string)
    requires key in m && key != "title"
    ensures key in Titled(d, m, owner, hint) && Titled(d, m, owner, hint)[key] == m[key]
  {
  }

  /** The property a place describes, if only lists, combinators and `items` lie between; `hint` above the first. */
  function HintAt(n: Node, path: seq<Step>, hint: Option<string>): Option<string>
    requires At(n, path).Some?
    decreases |path|
  {
    if path == [] then hint
    else
      match n
      case List(items) => HintAt(items[path[0].i], path[1..], hint)
      case Dict(m) =>
        var v := m[path[0].key];
        if path[0].key == "properties" && v.Dict? then HintAt(v.entries[path[1].key], path[2..], Some(path[1].key))
        else HintAt(v, path[1..], if path[0].key in ["anyOf", "oneOf", "allOf", "items"] then hint else None)
  }

  /** What a pass makes of the place, if nothing above was replaced: the pass over what stood there. */
  lemma {:induction false} PlaceRewritten(d: Defs, n: Node, owner: string, hint: Option<string>, path: seq<Step>)
    returns (inner: Option<string>)
    requires Complete(d) && At(n, path).Some? && Reached(d, n, owner, path, 0)
    ensures At(Rewrite(d, n, owner, hint), path) == Some(Rewrite(d, At(n, path).value, owner, inner))
    ensures inner == HintAt(n, path, hint)
    decreases |path|
  {
    hide Titled, Repeats, Rewrite, At;
    if path == [] {
      inner := hint;
      AtHere(n);
      AtHere(Rewrite(d, n, owner, hint));
    } else {
      assert path[..0] == [];
      AtHere(n);
      ReachedLater(d, n, owner, path);
      AtMeans(n, path);
      if n.List? {
        inner := ItemRewritten(d, n, owner, hint, path);
      } else {
        NotReplaced(d, n, owner, hint);
        inner := EntriesRewritten(d, n, owner, hint, path);
      }
    }
  }

  lemma AtHere(n: Node)
    ensures At(n, []) == Some(n)
  {
  }

  lemma ReachedLater(d: Defs, n: Node, owner: string, path: seq<Step>)
    requires Complete(d) && Reached(d, n, owner, path, 0)
    ensures Reached(d, n, owner, path, 1)
  {
  }

  lemma AtMeans(n: Node, path: seq<Step>)
    requires path != [] && At(n, path).Some?
    ensures n.List? || n.Dict?
    ensures n.List? ==> path[0].Item? && path[0].i < |n.items|
    ensures n.Dict? ==> path[0].Entry? && path[0].key in n.entries && path[0].key != "title"
    ensures n.Dict? && path[0].key == "properties" && n.entries["properties"].Dict? ==>
              |path| > 1 && path[1].Entry? && path[1].key in n.entries["properties"].entries
  {
  }

  /** Only a repeated definition is replaced. */
  lemma NotReplaced(d: Defs, n: Node, owner: string, hint: Option<string>)
    requires Complete(d) && n.Dict? && !Repeats(d, n, owner)
    ensures Rewrite(d, n, owner, hint) == Dict(RewriteEntries(d, n, owner, hint))
  {
    hide RewriteEntries, Body;
    var referenced := ByBody(d.names, d.schemas, Body(n.entries));
    if referenced.Some? {
      FirstIsIndexed(d, Body(n.entries), referenced.value);
    }
  }

  lemma {:induction false} ItemRewritten(d: Defs, n: Node, owner: string, hint: Option<string>, path: seq<Step>)
    returns (inner: Option<string>)
    requires Complete(d) && n.List? && path != [] && At(n, path).Some? && Reached(d, n, owner, path, 1)
    requires path[0].Item? && path[0].i < |n.items|
    ensures At(Rewrite(d, n, owner, hint), path) == Some(Rewrite(d, At(n, path).value, owner, inner))
    ensures inner == HintAt(n, path, hint)
    decreases |path|, 0
  {
    hide Titled, Repeats, At, Reached;
    var child := n.items[path[0].i];
    ItemBelow(n, path);
    ReachedBelow(d, n, owner, path, child, 1);
    inner := PlaceRewritten(d, child, owner, hint, path[1..]);
    var out := Rewrite(d, n, owner, hint);
    assert out.List? && |out.items| == |n.items| && out.items[path[0].i] == Rewrite(d, child, owner, hint);
    ItemBelow(out, path);
    assert path[..|path|] == path;
  }

  lemma {:induction false} EntriesRewritten(d: Defs, n: Node, owner: string, hint: Option<string>, path: seq<Step>)
    returns (inner: Option<string>)
    requires Complete(d) && n.Dict? && path != [] && At(n, path).Some? && Reached(d, n, owner, path, 1)
    ensures At(Dict(RewriteEntries(d, n, owner, hint)), path) == Some(Rewrite(d, At(n, path).value, owner, inner))
    ensures inner == HintAt(n, path, hint)
    decreases |path|, 0
  {
    hide Titled, Repeats, At, Reached, Rewrite;
    AtMeans(n, path);
    var (key, out) := (path[0].key, Dict(RewriteEntries(d, n, owner, hint)));
    var v := n.entries[key];
    TitledKeeps(d, RewriteAll(d, n, owner, hint), owner, hint, key);
    assert out.entries[key] == RewriteUnder(d, key, v, owner, hint);
    assert path[..|path|] == path;
    if key == "properties" && v.Dict? {
      var child := v.entries[path[1].key];
      PropertyBelow(n, path);
      ReachedBelow(d, n, owner, path, child, 2);
      inner := PlaceRewritten(d, child, owner, Some(path[1].key), path[2..]);
      assert out.entries[key] == Dict(RewriteEach(d, v, owner));
      PropertyBelow(out, path);
    } else {
      EntryBelow(n, path);
      ReachedBelow(d, n, owner, path, v, 1);
      var under := if IsTransparent(key) then hint else None;
      inner := PlaceRewritten(d, v, owner, under, path[1..]);
      if key == "properties" {
        NoDictMade(d, v, owner, under);
      }
      EntryBelow(out, path);
    }
  }

  lemma NoDictMade(d: Defs, v: Node, owner: string, hint: Option<string>)
    requires Complete(d) && !v.Dict?
    ensures !Rewrite(d, v, owner, hint).Dict?
  {
  }

  /** The root of a definition is never replaced, and every place below it is passed over. */
  lemma PlaceLinked(d: Defs, owner: string, path: seq<Step>) returns (inner: Option<string>)
    requires Complete(d) && owner in d.schemas && path != []
    requires At(Dict(d.schemas[owner]), path).Some? && Reached(d, Dict(d.schemas[owner]), owner, path, 1)
    ensures At(Dict(Link(d).schemas[owner]), path) == Some(Rewrite(d, At(Dict(d.schemas[owner]), path).value, owner, inner))
    ensures inner == HintAt(Dict(d.schemas[owner]), path, None)
  {
    hide At, Reached, Rewrite, RewriteEntries;
    inner := EntriesRewritten(d, Dict(d.schemas[owner]), owner, None, path);
  }

  /** A reference to `name` and nothing else, with the description of `m` if that has one. */
  predicate RefersTo(out: Node, name: string, m: Entries) {
    && out.Dict? && out.entries.Keys == {"$ref"} + (if "description" in m then {"description"} else {})
    && out.entries["$ref"] == Str("#/$defs/" + name)
    && ("description" in m ==> out.entries["description"] == m["description"])
  }

  /**
   A pass replaces exactly what repeats another definition: below the root of `owner`, wherever nothing
   above was replaced, a subschema with the body of a definition becomes a reference to the first one
   with it, description kept; any other keeps its keys, but for a title that may be added.
   */
  lemma RepeatsAreLinked(d: Defs, owner: string, path: seq<Step>, m: Entries)
    requires Complete(d) && owner in d.schemas && path != []
    requires At(Dict(d.schemas[owner]), path) == Some(Dict(m)) && Reached(d, Dict(d.schemas[owner]), owner, path, 1)
    ensures At(Dict(Link(d).schemas[owner]), path).Some?
    ensures var out := At(Dict(Link(d).schemas[owner]), path).value;
            && (forall name :: FirstWithBody(d, Body(m), name) && name != owner ==> RefersTo(out, name, m))
            && (!Repeats(d, Dict(m), owner) ==> out.Dict? && m.Keys <= out.entries.Keys <= m.Keys + {"title"})
  {
    hide At, Reached, Link, RewriteAll, RewriteEach, RewriteUnder;
    var inner := PlaceLinked(d, owner, path);
    forall name | FirstWithBody(d, Body(m), name) && name != owner
      ensures RefersTo(Rewrite(d, Dict(m), owner, inner), name, m)
    {
      FirstIsIndexed(d, Body(m), name);
      ReferenceRefers(name, m);
    }
    if !Repeats(d, Dict(m), owner) {
      NotReplaced(d, Dict(m), owner, inner);
      KeysKept(d, Dict(m), owner, inner);
    }
  }

  lemma ReferenceRefers(name: string, m: Entries)
    ensures RefersTo(ReferenceTo(name, m), name, m)
  {
  }

  lemma KeysKept(d: Defs, n: Node, owner: string, hint: Option<string>)
    requires Complete(d) && n.Dict?
    ensures n.entries.Keys <= RewriteEntries(d, n, owner, hint).Keys <= n.entries.Keys + {"title"}
  {
    hide RewriteUnder;
  }

  // ------------------------------------------------------------------------------- hoisted titles

  lemma {:induction false} PlaceOccurs(n: Node, path: seq<Step>, title: string, m: Entries)
    requires At(n, path) == Some(Dict(m)) && "title" in m && m["title"] == Str(title)
    ensures Occurs(n, title, m)
    decreases |path|
  {
    if path != [] {
      AtMeans(n, path);
      if n.List? {
        PlaceOccurs(n.items[path[0].i], path[1..], title, m);
      } else if path[0].key == "properties" && n.entries["properties"].Dict? {
        var v := n.entries["properties"];
        PlaceOccurs(v.entries[path[1].key], path[2..], title, m);
        OccursBelow(v, path[1].key, title, m);
        OccursBelow(n, "properties", title, m);
      } else {
        PlaceOccurs(n.entries[path[0].key], path[1..], title, m);
        OccursBelow(n, path[0].key, title, m);
      }
    }
  }

  lemma OccursBelow(n: Node, key: string, title: string, m: Entries)
    requires n.Dict? && key in n.entries && Occurs(n.entries[key], title, m)
    ensures Occurs(n, title, m)
  {
  }

  lemma {:induction false} OccursWithin(n: Node, outer: string, f: Entries, title: string, m: Entries)
    requires Occurs(n, outer, f) && Occurs(Dict(f), title, m)
    ensures Occurs(n, title, m)
    decreases n
  {
    if n != Dict(f) {
      match n
      case List(items) =>
        var i :| 0 <= i < |items| && Occurs(items[i], outer, f);
        OccursWithin(items[i], outer, f, title, m);
      case Dict(entries) =>
        var k :| k in entries && Occurs(entries[k], outer, f);
        OccursWithin(entries[k], outer, f, title, m);
        OccursBelow(n, k, title, m);
    }
  }

  /** Whatever carries a hoisted title, in a linked definition or in a hoisted one, has the hoisted body. */
  lemma CarriesHoistedBody(linked: Defs, hoisted: map<string, Entries>, names: seq<string>, owner: string, path: seq<Step>,
                           title: string, m: Entries)
    requires SharedTitles(linked, hoisted) && title in hoisted
    requires owner in WithHoisted(linked, hoisted, names).schemas
    requires At(Dict(WithHoisted(linked, hoisted, names).schemas[owner]), path) == Some(Dict(m))
    requires "title" in m && m["title"] == Str(title)
    ensures Body(m) == Body(hoisted[title])
  {
    hide Body, At, Occurs;
    var root := WithHoisted(linked, hoisted, names).schemas[owner];
    PlaceOccurs(Dict(root), path, title, m);
    if owner in hoisted {
      var name :| name in linked.schemas && Occurs(Dict(linked.schemas[name]), owner, hoisted[owner]);
      OccursWithin(Dict(linked.schemas[name]), owner, hoisted[owner], title, m);
    }
    assert OccursInDefs(linked, title, m);
    assert OneBody(linked, title);
  }

  /** Some definition is the first with the body of a hoisted title. */
  lemma HoistedHasFirst(all: Defs, title: string) returns (name: string)
    requires Complete(all) && title in all.schemas
    ensures FirstWithBody(all, Body(all.schemas[title]), name) && name in all.schemas
  {
    hide Body;
    var found := ByBody(all.names, all.schemas, Body(all.schemas[title]));
    name := found.value;
    FirstIsIndexed(all, Body(all.schemas[title]), name);
  }

  /**
   Hoisting takes effect: in the combined document every occurrence of a hoisted title, below the root
   of a definition and wherever nothing above was replaced, is a reference to the first definition with
   the hoisted body, unless it stands in that very definition.
   */
  lemma HoistedAreLinked(linked: Defs, hoisted: map<string, Entries>, names: seq<string>, owner: string, path: seq<Step>,
                         title: string, m: Entries) returns (name: string)
    requires SharedTitles(linked, hoisted) && title in hoisted && Complete(WithHoisted(linked, hoisted, names))
    requires owner in WithHoisted(linked, hoisted, names).schemas && path != []
    requires var all := WithHoisted(linked, hoisted, names);
             At(Dict(all.schemas[owner]), path) == Some(Dict(m)) && Reached(all, Dict(all.schemas[owner]), owner, path, 1)
    requires "title" in m && m["title"] == Str(title)
    ensures var all := WithHoisted(linked, hoisted, names);
            && FirstWithBody(all, Body(hoisted[title]), name)
            && (name != owner ==>
                  At(Dict(Link(all).schemas[owner]), path).Some? && RefersTo(At(Dict(Link(all).schemas[owner]), path).value, name, m))
  {
    hide Body, At, Reached, Link, SharedTitles, FirstWithBody, RefersTo;
    var all := WithHoisted(linked, hoisted, names);
    CarriesHoistedBody(linked, hoisted, names, owner, path, title, m);
    assert all.schemas[title] == hoisted[title];
    name := HoistedHasFirst(all, title);
    RepeatsAreLinked(all, owner, path, m);
  }
}
