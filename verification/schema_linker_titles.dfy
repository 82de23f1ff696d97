/**
 What linking does to names: a nested title that is another definition's name is qualified with its
 owner, and when that keeps a contract name for the contract schema.
 */
module SchemaLinkerTitles {
  import opened Options
  import opened SchemaLinker
  import opened SchemaLinkerPlaces

  // -------------------------------------------------------------------------------- class names

  /** str.split("_"). */
  function Split(s: string): (parts: seq<string>)
    ensures parts != []
  {
    if s == "" then [""]
    else
      var rest := Split(s[1..]);
      if s[0] == '_' then [""] + rest else [[s[0]] + rest[0]] + rest[1..]
  }

  function Capitalised(part: string): string {
    if part == "" then "" else [Upper(part[0])] + part[1..]
  }

  function Joined(parts: seq<string>): string {
    if parts == [] then "" else Capitalised(parts[0]) + Joined(parts[1..])
  }

  /** A class name is the parts between underscores, each with its first letter raised. */
  lemma {:induction false} ClassNameIsCamelCase(key: string)
    ensures ClassName(key, true) == Joined(Split(key))
    ensures ClassName(key, false) == Split(key)[0] + Joined(Split(key)[1..])
  {
    if key != "" {
      var rest := Split(key[1..]);
      ClassNameIsCamelCase(key[1..]);
      if key[0] == '_' {
        assert Split(key)[1..] == rest;
      } else {
        assert Split(key)[1..] == rest[1..] && Split(key)[0] == [key[0]] + rest[0];
        assert Capitalised([key[0]] + rest[0]) == [Upper(key[0])] + rest[0];
      }
    }
  }

  // ------------------------------------------------------------------------------------- titles

  /** The name a subschema goes by: its title, or what a model would be called after its property. */
  predicate GoesBy(m: Entries, hint: Option<string>, name: string) {
    if "title" in m && m["title"].Str? then m["title"].s == name
    else hint.Some? && ("properties" in m || "enum" in m) && Joined(Split(hint.value)) == name
  }

  /** The name of a definition, and not of the one it stands in. */
  predicate Taken(d: Defs, owner: string, name: string) {
    name in d.schemas && name != owner
  }

  /** The title says the name of another definition. */
  predicate Clashes(d: Defs, owner: string, m: Entries) {
    "title" in m && m["title"].Str? && Taken(d, owner, m["title"].s)
  }

  lemma TitleOfRewritten(d: Defs, m: Entries, owner: string, hint: Option<string>)
    requires Complete(d)
    ensures var (out, before) := (RewriteEntries(d, Dict(m), owner, hint), RewriteAll(d, Dict(m), owner, hint));
            && before.Keys == m.Keys && out == Titled(d, before, owner, hint)
            && ("title" in m ==> before["title"].Str? == m["title"].Str?)
            && ("title" in m && m["title"].Str? ==> before["title"] == m["title"])
  {
    hide RewriteUnder, Rewrite;
    if "title" in m {
      TitleUnder(d, m["title"], owner, hint);
    }
  }

  lemma TitleUnder(d: Defs, v: Node, owner: string, hint: Option<string>)
    requires Complete(d)
    ensures var out := RewriteUnder(d, "title", v, owner, hint); out.Str? == v.Str? && (v.Str? ==> out == v)
  {
  }

  /** What a subschema that stays is titled: qualified if its name is taken, as it was otherwise. */
  lemma NamedAfter(d: Defs, m: Entries, owner: string, hint: Option<string>, name: string)
    requires Complete(d) && GoesBy(m, hint, name)
    ensures var out := RewriteEntries(d, Dict(m), owner, hint);
            && (Taken(d, owner, name) ==> "title" in out && out["title"] == Str(owner + name))
            && (!Taken(d, owner, name) && "title" in m && m["title"].Str? ==> "title" in out && out["title"] == Str(name))
            && (!Taken(d, owner, name) && !("title" in m && m["title"].Str?) ==> !("title" in out && out["title"].Str?))
  {
    hide RewriteEntries, RewriteAll, ClassName, Split;
    TitleOfRewritten(d, m, owner, hint);
    if hint.Some? {
      ClassNameIsCamelCase(hint.value);
    }
  }

  lemma Nameless(d: Defs, m: Entries, owner: string, hint: Option<string>)
    requires Complete(d) && forall name :: !GoesBy(m, hint, name)
    ensures var out := RewriteEntries(d, Dict(m), owner, hint); !("title" in out && out["title"].Str?)
  {
    hide RewriteEntries, RewriteAll, ClassName, Split, Joined;
    TitleOfRewritten(d, m, owner, hint);
    assert "title" in m && m["title"].Str? ==> GoesBy(m, hint, m["title"].s);
    if hint.Some? {
      assert "properties" in m || "enum" in m ==> ("title" in m && m["title"].Str?) || GoesBy(m, hint, Joined(Split(hint.value)));
    }
  }

  lemma PlaceKept(d: Defs, owner: string, path: seq<Step>, m: Entries)
    requires Complete(d) && owner in d.schemas && path != []
    requires At(Dict(d.schemas[owner]), path) == Some(Dict(m)) && Reached(d, Dict(d.schemas[owner]), owner, path, 1)
    requires !Repeats(d, Dict(m), owner)
    ensures At(Dict(Link(d).schemas[owner]), path)
         == Some(Dict(RewriteEntries(d, Dict(m), owner, HintAt(Dict(d.schemas[owner]), path, None))))
  {
    hide At, HintAt, Reached, Repeats, Rewrite, RewriteEntries, Link;
    var inner := PlaceLinked(d, owner, path);
    NotReplaced(d, Dict(m), owner, inner);
  }

  /**
   Below the root of a definition, a subschema that stays and whose name is that of another definition is
   titled with its owner's name in front; one that has its name to itself keeps its title, or its lack of one.
   */
  lemma TakenNamesAreQualified(d: Defs, owner: string, path: seq<Step>, m: Entries, name: string)
    requires Complete(d) && owner in d.schemas && path != []
    requires At(Dict(d.schemas[owner]), path) == Some(Dict(m)) && Reached(d, Dict(d.schemas[owner]), owner, path, 1)
    requires !Repeats(d, Dict(m), owner) && GoesBy(m, HintAt(Dict(d.schemas[owner]), path, None), name)
    ensures var out := At(Dict(Link(d).schemas[owner]), path);
            && out.Some? && out.value.Dict?
            && (Taken(d, owner, name) ==> "title" in out.value.entries && out.value.entries["title"] == Str(owner + name))
            && (!Taken(d, owner, name) && "title" in m && m["title"].Str? ==>
                  "title" in out.value.entries && out.value.entries["title"] == Str(name))
            && (!Taken(d, owner, name) && !("title" in m && m["title"].Str?) ==>
                  !("title" in out.value.entries && out.value.entries["title"].Str?))
  {
    hide At, HintAt, Reached, Repeats, Link, RewriteEntries, GoesBy, Taken;
    PlaceKept(d, owner, path, m);
    NamedAfter(d, m, owner, HintAt(Dict(d.schemas[owner]), path, None), name);
  }

  /**
   A contract name then means the contract schema, except where the qualified name is a contract name in
   its turn: a pass leaves a subschema under the name of another definition exactly when its own name was
   taken and its owner's name followed by it is taken as well.
   */
  lemma ClashesThatStay(d: Defs, owner: string, path: seq<Step>, m: Entries)
    requires Complete(d) && owner in d.schemas && path != []
    requires At(Dict(d.schemas[owner]), path) == Some(Dict(m)) && Reached(d, Dict(d.schemas[owner]), owner, path, 1)
    requires !Repeats(d, Dict(m), owner)
    ensures var (hint, out) := (HintAt(Dict(d.schemas[owner]), path, None), At(Dict(Link(d).schemas[owner]), path));
            && out.Some? && out.value.Dict?
            && (Clashes(d, owner, out.value.entries) <==>
                  exists name :: GoesBy(m, hint, name) && Taken(d, owner, name) && Taken(d, owner, owner + name))
  {
    hide At, HintAt, Reached, Repeats, Link, RewriteEntries, GoesBy;
    var hint := HintAt(Dict(d.schemas[owner]), path, None);
    PlaceKept(d, owner, path, m);
    if name :| GoesBy(m, hint, name) {
      NamedAfter(d, m, owner, hint, name);
      OneName(m, hint);
    } else {
      Nameless(d, m, owner, hint);
    }
  }

  lemma OneName(m: Entries, hint: Option<string>)
    ensures forall a, b :: GoesBy(m, hint, a) && GoesBy(m, hint, b) ==> a == b
  {
  }

  // --------------------------------------------------------------------- a clash that qualifying makes

  const TEXT: Entries := map["type" := Str("string"), "title" := Str("B")]

  /** A holds an inline look-alike of B; AB and AAB are definitions of their own. */
  const TAKEN := Defs(["A", "AAB", "AB", "B"], map[
    "A" := map["properties" := Dict(map["b" := Dict(TEXT)])],
    "AAB" := map["type" := Str("boolean")],
    "AB" := map["type" := Str("number")],
    "B" := map["type" := Str("integer")]])

  const TEXT_PLACE := [Entry("properties"), Entry("b")]

  lemma TakenNames()
    ensures Complete(TAKEN) && TAKEN.schemas.Keys == {"A", "AAB", "AB", "B"}
    ensures forall name <- TAKEN.schemas :: "title" !in TAKEN.schemas[name]
    ensures "A" + "B" == "AB" && "A" + "AB" == "AAB"
  {
    assert TAKEN.names[0] == "A" && TAKEN.names[1] == "AAB" && TAKEN.names[2] == "AB" && TAKEN.names[3] == "B";
  }

  lemma PlaceOfText()
    ensures At(Dict(TAKEN.schemas["A"]), TEXT_PLACE) == Some(Dict(TEXT))
  {
    assert TEXT_PLACE[2..] == [];
  }

  /** The map under `properties` is no schema. */
  lemma OnlyTheProperty(d: Defs, n: Node)
    requires Complete(d) && At(n, TEXT_PLACE).Some?
    ensures Reached(d, n, "A", TEXT_PLACE, 1)
  {
    assert TEXT_PLACE[..1] == [Entry("properties")] && TEXT_PLACE[1..] == [Entry("b")];
    if n.Dict? && "properties" in n.entries {
      assert n.entries["properties"].Dict?;
    }
  }

  lemma Untitled(name: string)
    requires name in TAKEN.schemas
    ensures Complete(TAKEN) && "title" !in Link(TAKEN).schemas[name]
  {
    hide RewriteAll, TAKEN;
    TakenNames();
    var m := TAKEN.schemas[name];
    TitleOfRewritten(TAKEN, m, name, None);
  }

  lemma NoLikeness(d: Defs, m: Entries)
    requires Complete(d) && "title" in m
    requires forall name <- d.schemas :: "title" in d.schemas[name] ==> d.schemas[name]["title"] != m["title"]
    ensures !Repeats(d, Dict(m), "A")
  {
    assert Body(m)["title"] == m["title"];
    forall i | 0 <= i < |d.names| ensures Body(d.schemas[d.names[i]]) != Body(m) {
      assert "title" in Body(d.schemas[d.names[i]]) ==> Body(d.schemas[d.names[i]])["title"] != m["title"];
    }
  }

  /** The first pass makes AB of the look-alike. */
  lemma FirstPass() returns (m: Entries)
    ensures Complete(TAKEN) && "A" in Link(TAKEN).schemas && At(Dict(Link(TAKEN).schemas["A"]), TEXT_PLACE) == Some(Dict(m))
    ensures "title" in m && m["title"] == Str("AB")
  {
    hide Link, Repeats, Reached, HintAt, At, TAKEN;
    TakenNames();
    SameNames(TAKEN);
    var n := Dict(TAKEN.schemas["A"]);
    PlaceOfText();
    OnlyTheProperty(TAKEN, n);
    NoLikeness(TAKEN, TEXT);
    TakenNamesAreQualified(TAKEN, "A", TEXT_PLACE, TEXT, "B");
    m := At(Dict(Link(TAKEN).schemas["A"]), TEXT_PLACE).value.entries;
  }

  lemma HoistedTitle(hoisted: map<string, Entries>, name: string)
    requires Complete(TAKEN) && SharedTitles(Link(TAKEN), hoisted) && name in hoisted
    ensures name !in TAKEN.schemas && "title" in hoisted[name] && hoisted[name]["title"] == Str(name)
  {
    hide OneBody, Link, TAKEN;
    assert Link(TAKEN).schemas.Keys == TAKEN.schemas.Keys by {
      SameNames(TAKEN);
    }
    assert OccursInDefs(Link(TAKEN), name, hoisted[name]);
    var owner :| owner in Link(TAKEN).schemas && Occurs(Dict(Link(TAKEN).schemas[owner]), name, hoisted[name]);
    TitledSo(Dict(Link(TAKEN).schemas[owner]), name, hoisted[name]);
  }

  lemma SameNames(d: Defs)
    requires Complete(d)
    ensures Link(d).schemas.Keys == d.schemas.Keys
  {
  }

  lemma {:induction false} TitledSo(n: Node, title: string, found: Entries)
    requires Occurs(n, title, found)
    ensures "title" in found && found["title"] == Str(title)
    decreases n
  {
    match n
    case List(items) =>
      var i :| 0 <= i < |items| && Occurs(items[i], title, found);
      TitledSo(items[i], title, found);
    case Dict(m) =>
      if !(m == found && "title" in m && m["title"] == Str(title)) {
        var k :| k in m && Occurs(m[k], title, found);
        TitledSo(m[k], title, found);
      }
    case _ => assert false;
  }

  /**
   A contract name does not always mean the contract schema: whatever is hoisted, the combined document of
   these four definitions holds, inside A, a subschema titled AAB that is not the definition AAB.
   */
  lemma ContractNameCanClash(hoisted: map<string, Entries>, names: seq<string>)
    requires Complete(TAKEN) && SharedTitles(Link(TAKEN), hoisted)
    requires Complete(WithHoisted(Link(TAKEN), hoisted, names))
    ensures var all := WithHoisted(Link(TAKEN), hoisted, names);
            && "A" in all.schemas
            && var out := At(Dict(Link(all).schemas["A"]), TEXT_PLACE);
               out.Some? && out.value.Dict? && Clashes(all, "A", out.value.entries)
  {
    hide Link, Repeats, Reached, HintAt, At, SharedTitles, GoesBy, TAKEN;
    TakenNames();
    var all := WithHoisted(Link(TAKEN), hoisted, names);
    var m := FirstPass();
    SameNames(TAKEN);
    forall name | name in all.schemas
      ensures "title" in all.schemas[name] ==> all.schemas[name]["title"] != m["title"]
      ensures name in TAKEN.schemas ==> name !in hoisted
    {
      if name in hoisted {
        HoistedTitle(hoisted, name);
      } else {
        Untitled(name);
      }
    }
    assert all.schemas["A"] == Link(TAKEN).schemas["A"];
    NoLikeness(all, m);
    OnlyTheProperty(all, Dict(all.schemas["A"]));
    ClashesThatStay(all, "A", TEXT_PLACE, m);
    GoesByTitle(m, HintAt(Dict(all.schemas["A"]), TEXT_PLACE, None));
    assert Taken(all, "A", "AB") && Taken(all, "A", "AAB");
  }

  lemma GoesByTitle(m: Entries, hint: Option<string>)
    requires "title" in m && m["title"] == Str("AB")
    ensures GoesBy(m, hint, "AB")
  {
  }
}
