/**
 packages/sdk-python/scripts/generate_models.py: linking the contract schemas into one document.
 A nested subschema that repeats a definition becomes a reference to it, a titled subschema with
 one shape everywhere is hoisted into a definition of its own, and the result is linked once more.

 A dict is a map: two bodies are compared by their text with sorted keys, so order never matters
 there, and which occurrence of a hoisted title is kept is left open.
 */
module SchemaLinker {
  import opened Options

  /** JSON as Python holds it; a scalar that is no string is its JSON text. */
  datatype Node = Scalar(text: string) | Str(s: string) | List(items: seq<Node>) | Dict(entries: Entries)

  type Entries = map<string, Node>

  /** The definitions in document order. */
  datatype Defs = Defs(names: seq<string>, schemas: map<string, Entries>)

  predicate Complete(d: Defs) {
    (forall name <- d.names :: name in d.schemas) && (forall name <- d.schemas :: name in d.names)
  }

  // ------------------------------------------------------------------------------------ bodies

  /** A schema without its own description. */
  function Body(m: Entries): Entries {
    m - {"description"}
  }

  /** by_body: the first definition with this body. */
  function ByBody(names: seq<string>, schemas: map<string, Entries>, body: Entries): (r: Option<string>)
    requires forall name <- names :: name in schemas
    ensures r.Some? ==> r.value in names && Body(schemas[r.value]) == body
    ensures r.None? ==> forall name <- names :: Body(schemas[name]) != body
  {
    if names == [] then None
    else
      var earlier := ByBody(names[..|names| - 1], schemas, body);
      if earlier.Some? then earlier
      else if Body(schemas[names[|names| - 1]]) == body then Some(names[|names| - 1]) else None
  }

  ghost predicate Indexed(d: Defs, byBody: map<Entries, string>)
    requires Complete(d)
  {
    forall body :: (if body in byBody then Some(byBody[body]) else None) == ByBody(d.names, d.schemas, body)
  }

  /** The index built by `setdefault`: a body keeps the first name it was given. */
  method IndexBodies(d: Defs) returns (byBody: map<Entries, string>)
    requires Complete(d)
    ensures Indexed(d, byBody)
  {
    byBody := map[];
    var i := 0;
    while i < |d.names|
      invariant 0 <= i <= |d.names|
      invariant forall body :: (if body in byBody then Some(byBody[body]) else None) == ByBody(d.names[..i], d.schemas, body)
    {
      assert d.names[..i + 1][..i] == d.names[..i];
      var body := Body(d.schemas[d.names[i]]);
      if body !in byBody {
        byBody := byBody[body := d.names[i]];
      }
      i := i + 1;
    }
    assert d.names[..i] == d.names;
  }

  // ---------------------------------------------------------------------------------- rewriting

  const REF_PREFIX := "#/$defs/"

  predicate IsReference(m: Entries) {
    "$ref" in m && m["$ref"].Str?
  }

  /** The definition a reference names. */
  function TargetOf(m: Entries): Option<string>
    requires IsReference(m)
  {
    var s := m["$ref"].s;
    if |s| >= |REF_PREFIX| && s[..|REF_PREFIX|] == REF_PREFIX then Some(s[|REF_PREFIX|..]) else None
  }

  /** The reference that stands in for `m`, which lends it its description. */
  function ReferenceTo(name: string, m: Entries): Node {
    var bare: Entries := map["$ref" := Str(REF_PREFIX + name)];
    Dict(if "description" in m then bare["description" := m["description"]] else bare)
  }

  function Upper(c: char): char {
    if 'a' <= c <= 'z' then ((c as int) - 32) as char else c
  }

  /** snake_case to CamelCase. */
  function ClassName(key: string, start: bool := true): string {
    if key == "" then ""
    else if key[0] == '_' then ClassName(key[1..], true)
    else [if start then Upper(key[0]) else key[0]] + ClassName(key[1..], false)
  }

  predicate IsTransparent(key: string) {
    key == "anyOf" || key == "oneOf" || key == "allOf" || key == "items"
  }

  /** A nested title that would collide with another definition is qualified with its owner. */
  function Titled(d: Defs, m: Entries, owner: string, hint: Option<string>): Entries {
    if "title" in m && m["title"].Str? then
      if m["title"].s in d.schemas && m["title"].s != owner then m["title" := Str(owner + m["title"].s)] else m
    else if hint.Some? && ("properties" in m || "enum" in m) then
      var derived := ClassName(hint.value);
      if derived in d.schemas && derived != owner then m["title" := Str(owner + derived)] else m
    else m
  }

  /** rewrite: any node but the root of a definition. */
  function Rewrite(d: Defs, n: Node, owner: string, hint: Option<string>): Node
    requires Complete(d)
    decreases n, 2
  {
    match n
    case List(items) => List(seq(|items|, i requires 0 <= i < |items| => Rewrite(d, items[i], owner, hint)))
    case Dict(m) =>
      var referenced := ByBody(d.names, d.schemas, Body(m));
      if referenced.Some? && referenced.value != owner then ReferenceTo(referenced.value, m)
      else Dict(RewriteEntries(d, n, owner, hint))
    case _ => n
  }

  function RewriteEntries(d: Defs, n: Node, owner: string, hint: Option<string>): Entries
    requires Complete(d) && n.Dict?
    decreases n, 1
  {
    Titled(d, RewriteAll(d, n, owner, hint), owner, hint)
  }

  function RewriteAll(d: Defs, n: Node, owner: string, hint: Option<string>): Entries
    requires Complete(d) && n.Dict?
    decreases n, 0
  {
    map k | k in n.entries :: RewriteUnder(d, k, n.entries[k], owner, hint)
  }

  function RewriteEach(d: Defs, v: Node, owner: string): Entries
    requires Complete(d) && v.Dict?
    decreases v, 1
  {
    map k | k in v.entries :: Rewrite(d, v.entries[k], owner, Some(k))
  }

  /** `properties` is a map of schemas, not itself one. */
  function RewriteUnder(d: Defs, key: string, v: Node, owner: string, hint: Option<string>): Node
    requires Complete(d)
    decreases v, 3
  {
    if key == "properties" && v.Dict? then Dict(RewriteEach(d, v, owner))
    else Rewrite(d, v, owner, if IsTransparent(key) then hint else None)
  }

  /** _link. */
  function Link(d: Defs): Defs
    requires Complete(d)
  {
    Defs(d.names, map name | name in d.schemas :: RewriteEntries(d, Dict(d.schemas[name]), name, None))
  }

  method RewriteNode(d: Defs, byBody: map<Entries, string>, n: Node, owner: string, hint: Option<string>) returns (r: Node)
    requires Complete(d) && Indexed(d, byBody)
    ensures r == Rewrite(d, n, owner, hint)
    decreases n, 1
  {
    match n
    case List(items) => r := RewriteItems(d, byBody, n, owner, hint);
    case Dict(m) =>
      if Body(m) in byBody && byBody[Body(m)] != owner {
        r := ReferenceTo(byBody[Body(m)], m);
      } else {
        var rewritten := RewriteDict(d, byBody, n, owner, hint);
        r := Dict(rewritten);
      }
    case _ => r := n;
  }

  method RewriteItems(d: Defs, byBody: map<Entries, string>, n: Node, owner: string, hint: Option<string>) returns (r: Node)
    requires Complete(d) && Indexed(d, byBody) && n.List?
    ensures r == Rewrite(d, n, owner, hint)
    decreases n, 0
  {
    var items: seq<Node> := [];
    while |items| < |n.items|
      invariant |items| <= |n.items|
      invariant forall i :: 0 <= i < |items| ==> items[i] == Rewrite(d, n.items[i], owner, hint)
    {
      var item := RewriteNode(d, byBody, n.items[|items|], owner, hint);
      items := items + [item];
    }
    r := List(items);
  }

  method RewriteDict(d: Defs, byBody: map<Entries, string>, n: Node, owner: string, hint: Option<string>) returns (r: Entries)
    requires Complete(d) && Indexed(d, byBody) && n.Dict?
    ensures r == RewriteEntries(d, n, owner, hint)
    decreases n, 0
  {
    var rewritten: Entries := map[];
    var keys := n.entries.Keys;
    while keys != {}
      invariant keys <= n.entries.Keys && rewritten.Keys == n.entries.Keys - keys
      invariant forall k <- rewritten :: rewritten[k] == RewriteUnder(d, k, n.entries[k], owner, hint)
      decreases |keys|
    {
      var key :| key in keys;
      keys := keys - {key};
      var value := n.entries[key];
      var under: Node;
      if key == "properties" && value.Dict? {
        under := RewriteProperties(d, byBody, value, owner);
      } else {
        under := RewriteNode(d, byBody, value, owner, if IsTransparent(key) then hint else None);
      }
      rewritten := rewritten[key := under];
    }
    assert rewritten == RewriteAll(d, n, owner, hint);
    r := Titled(d, rewritten, owner, hint);
  }

  method RewriteProperties(d: Defs, byBody: map<Entries, string>, n: Node, owner: string) returns (r: Node)
    requires Complete(d) && Indexed(d, byBody) && n.Dict?
    ensures r == Dict(RewriteEach(d, n, owner))
    decreases n, 0
  {
    var rewritten: Entries := map[];
    var keys := n.entries.Keys;
    while keys != {}
      invariant keys <= n.entries.Keys && rewritten.Keys == n.entries.Keys - keys
      invariant forall k <- rewritten :: rewritten[k] == Rewrite(d, n.entries[k], owner, Some(k))
      decreases |keys|
    {
      var key :| key in keys;
      keys := keys - {key};
      var under := RewriteNode(d, byBody, n.entries[key], owner, Some(key));
      rewritten := rewritten[key := under];
    }
    assert rewritten == RewriteEach(d, n, owner);
    r := Dict(rewritten);
  }

  method LinkDefs(d: Defs) returns (linked: Defs)
    requires Complete(d)
    ensures linked == Link(d)
  {
    var byBody := IndexBodies(d);
    var schemas: map<string, Entries> := map[];
    var i := 0;
    while i < |d.names|
      invariant 0 <= i <= |d.names|
      invariant forall name :: name in schemas <==> name in d.names[..i]
      invariant forall name <- schemas :: schemas[name] == RewriteEntries(d, Dict(d.schemas[name]), name, None)
    {
      var name := d.names[i];
      var root := RewriteDict(d, byBody, Dict(d.schemas[name]), name, None);
      schemas := schemas[name := root];
      i := i + 1;
    }
    assert d.names[..i] == d.names;
    assert schemas == Link(d).schemas;
    linked := Defs(d.names, schemas);
  }

  // ----------------------------------------------------------------------------------- hoisting

  /** `found` is a dict somewhere in `n` whose title is the string `title`. */
  ghost predicate Occurs(n: Node, title: string, found: Entries) {
    match n
    case List(items) => exists i :: 0 <= i < |items| && Occurs(items[i], title, found)
    case Dict(m) =>
      || (n == Dict(found) && "title" in m && m["title"] == Str(title))
      || exists k :: k in m && Occurs(m[k], title, found)
    case _ => false
  }

  ghost predicate OccursInDefs(d: Defs, title: string, found: Entries) {
    exists name :: name in d.schemas && Occurs(Dict(d.schemas[name]), title, found)
  }

  /** _shared_titles: new titles whose every occurrence has one body, each with one of those occurrences. */
  ghost predicate SharedTitles(d: Defs, hoisted: map<string, Entries>) {
    forall title ::
      (title in hoisted <==> title !in d.schemas && OneBody(d, title))
      && (title in hoisted ==> OccursInDefs(d, title, hoisted[title]))
  }

  ghost predicate OneBody(d: Defs, title: string) {
    && (exists a :: OccursInDefs(d, title, a))
    && (forall a, b :: OccursInDefs(d, title, a) && OccursInDefs(d, title, b) ==> Body(a) == Body(b))
  }

  function FetchAll(seen: map<string, seq<Entries>>, title: string): seq<Entries> {
    if title in seen then seen[title] else []
  }

  predicate NoneEmpty(seen: map<string, seq<Entries>>) {
    forall title <- seen :: seen[title] != []
  }

  /** `now` lists what `seen` lists and the occurrences in `n` of titles no definition has. */
  ghost predicate Extends(d: Defs, seen: map<string, seq<Entries>>, now: map<string, seq<Entries>>, n: Node) {
    forall title, found :: found in FetchAll(now, title) <==>
      found in FetchAll(seen, title) || (title !in d.schemas && Occurs(n, title, found))
  }

  /** walk: appends every occurrence of a title that no definition has. */
  method Walk(d: Defs, n: Node, seen: map<string, seq<Entries>>) returns (now: map<string, seq<Entries>>)
    requires NoneEmpty(seen)
    ensures Extends(d, seen, now, n) && NoneEmpty(now)
    decreases n, 1
  {
    match n
    case List(items) => now := WalkItems(d, n, seen);
    case Dict(m) =>
      var self := seen;
      if "title" in m && m["title"].Str? && m["title"].s !in d.schemas {
        self := seen[m["title"].s := FetchAll(seen, m["title"].s) + [m]];
      }
      now := WalkValues(d, n, self);
    case _ => now := seen;
  }

  method WalkItems(d: Defs, n: Node, seen: map<string, seq<Entries>>) returns (now: map<string, seq<Entries>>)
    requires NoneEmpty(seen) && n.List?
    ensures Extends(d, seen, now, n) && NoneEmpty(now)
    decreases n, 0
  {
    now := seen;
    var i := 0;
    while i < |n.items|
      invariant 0 <= i <= |n.items| && NoneEmpty(now)
      invariant forall title, found :: found in FetchAll(now, title) <==>
                  found in FetchAll(seen, title) || (title !in d.schemas && exists j :: 0 <= j < i && Occurs(n.items[j], title, found))
    {
      now := Walk(d, n.items[i], now);
      i := i + 1;
    }
  }

  method WalkValues(d: Defs, n: Node, seen: map<string, seq<Entries>>) returns (now: map<string, seq<Entries>>)
    requires NoneEmpty(seen) && n.Dict?
    ensures NoneEmpty(now)
    ensures forall title, found :: found in FetchAll(now, title) <==>
              found in FetchAll(seen, title)
              || (title !in d.schemas && exists k :: k in n.entries && Occurs(n.entries[k], title, found))
    decreases n, 0
  {
    now := seen;
    var m := n.entries;
    var keys := m.Keys;
    while keys != {}
      invariant keys <= m.Keys && NoneEmpty(now)
      invariant forall title, found :: found in FetchAll(now, title) <==>
                  found in FetchAll(seen, title)
                  || (title !in d.schemas && exists k :: k in m && k !in keys && Occurs(m[k], title, found))
      decreases |keys|
    {
      var key :| key in keys;
      keys := keys - {key};
      now := Walk(d, m[key], now);
    }
  }

  predicate SameBodies(occurrences: seq<Entries>) {
    forall i, j :: 0 <= i < j < |occurrences| ==> Body(occurrences[i]) == Body(occurrences[j])
  }

  method HoistTitles(d: Defs) returns (hoisted: map<string, Entries>)
    requires Complete(d)
    ensures SharedTitles(d, hoisted)
  {
    var seen: map<string, seq<Entries>> := map[];
    var i := 0;
    while i < |d.names|
      invariant 0 <= i <= |d.names| && NoneEmpty(seen)
      invariant forall title, found :: found in FetchAll(seen, title) <==>
                  title !in d.schemas && exists j :: 0 <= j < i && Occurs(Dict(d.schemas[d.names[j]]), title, found)
    {
      seen := Walk(d, Dict(d.schemas[d.names[i]]), seen);
      i := i + 1;
    }
    SeenAll(d, seen);
    hoisted := map title | title in seen && SameBodies(seen[title]) :: seen[title][0];
    forall title
      ensures title in hoisted <==> title !in d.schemas && OneBody(d, title)
      ensures title in hoisted ==> OccursInDefs(d, title, hoisted[title])
    {
      if title in seen {
        assert seen[title][0] in FetchAll(seen, title);
        OneBodySeen(d, title, seen[title]);
      } else {
        assert forall a :: a !in FetchAll(seen, title);
      }
    }
  }

  lemma SeenAll(d: Defs, seen: map<string, seq<Entries>>)
    requires Complete(d)
    requires forall title, found :: found in FetchAll(seen, title) <==>
               title !in d.schemas && exists j :: 0 <= j < |d.names| && Occurs(Dict(d.schemas[d.names[j]]), title, found)
    ensures forall title, found :: found in FetchAll(seen, title) <==> title !in d.schemas && OccursInDefs(d, title, found)
  {
    forall title, found | OccursInDefs(d, title, found)
      ensures exists j :: 0 <= j < |d.names| && Occurs(Dict(d.schemas[d.names[j]]), title, found)
    {
      var name :| name in d.schemas && Occurs(Dict(d.schemas[name]), title, found);
      var j :| 0 <= j < |d.names| && d.names[j] == name;
    }
  }

  lemma OneBodySeen(d: Defs, title: string, occurrences: seq<Entries>)
    requires occurrences != [] && title !in d.schemas
    requires forall found :: found in occurrences <==> OccursInDefs(d, title, found)
    ensures SameBodies(occurrences) <==> OneBody(d, title)
  {
    assert occurrences[0] in occurrences;
    if OneBody(d, title) {
      forall i, j | 0 <= i < j < |occurrences| ensures Body(occurrences[i]) == Body(occurrences[j]) {
        assert occurrences[i] in occurrences && occurrences[j] in occurrences;
      }
    }
    if SameBodies(occurrences) {
      forall a, b | OccursInDefs(d, title, a) && OccursInDefs(d, title, b) ensures Body(a) == Body(b) {
        assert a in occurrences && b in occurrences;
        var i :| 0 <= i < |occurrences| && occurrences[i] == a;
        var j :| 0 <= j < |occurrences| && occurrences[j] == b;
      }
    }
  }

  /** build_combined's second argument: the linked and the hoisted definitions, in any order of names. */
  function WithHoisted(linked: Defs, hoisted: map<string, Entries>, names: seq<string>): Defs {
    Defs(names, linked.schemas + hoisted)
  }

  /** build_combined: link, hoist, link again; `arrange` puts the names in the order of the document. */
  method BuildCombined(d: Defs, arrange: set<string> -> seq<string>) returns (combined: Defs, hoisted: map<string, Entries>)
    requires Complete(d)
    requires forall names {:trigger arrange(names)} :: forall name :: name in arrange(names) <==> name in names
    ensures SharedTitles(Link(d), hoisted)
    ensures var all := WithHoisted(Link(d), hoisted, arrange(Link(d).schemas.Keys + hoisted.Keys));
            Complete(all) && combined == Link(all)
  {
    var linked := LinkDefs(d);
    assert linked.schemas.Keys == d.schemas.Keys;
    hoisted := HoistTitles(linked);
    var all := WithHoisted(linked, hoisted, arrange(linked.schemas.Keys + hoisted.Keys));
    combined := LinkDefs(all);
  }
}
