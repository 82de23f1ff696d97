/**
 Linking preserves meaning: following every reference of the combined document ends, and gives back
 each contract schema up to titles and descriptions (section 8.2.3.1 of JSON Schema Core 2020-12
 says what a reference means; a description beside it is an annotation).
 */
module SchemaLinkerLaws {
  import opened Options
  import opened SchemaLinker

  // ---------------------------------------------------------------------------------- meanings

  predicate IsAnnotation(key: string, v: Node) {
    (key == "title" || key == "description") && v.Str?
  }

  /** Titles and descriptions left out, at every depth. */
  function Bare(n: Node): Node {
    match n
    case List(items) => List(seq(|items|, i requires 0 <= i < |items| => Bare(items[i])))
    case Dict(m) => Dict(map k | k in m && !IsAnnotation(k, m[k]) :: Bare(m[k]))
    case _ => n
  }

  /**
   What a schema says: every reference replaced by the definition it names, titles and descriptions
   left out. None once more than `fuel` references are nested, or when one names nothing.
   */
  function Meaning(defs: map<string, Entries>, n: Node, fuel: nat): Option<Node>
    decreases fuel, n
  {
    match n
    case List(items) =>
      if forall i :: 0 <= i < |items| ==> Meaning(defs, items[i], fuel).Some?
      then Some(List(seq(|items|, i requires 0 <= i < |items| => Meaning(defs, items[i], fuel).value)))
      else None
    case Dict(m) =>
      if IsReference(m) then
        var target := TargetOf(m);
        if fuel == 0 || target.None? || target.value !in defs then None
        else Meaning(defs, Dict(defs[target.value]), fuel - 1)
      else if forall k <- m | !IsAnnotation(k, m[k]) :: Meaning(defs, m[k], fuel).Some?
      then Some(Dict(map k | k in m && !IsAnnotation(k, m[k]) :: Meaning(defs, m[k], fuel).value))
      else None
    case _ => Some(n)
  }

  /** No deeper than `h`. */
  predicate Bounded(n: Node, h: nat) {
    match n
    case List(items) => forall i :: 0 <= i < |items| ==> h > 0 && Bounded(items[i], h - 1)
    case Dict(m) => forall k <- m :: h > 0 && Bounded(m[k], h - 1)
    case _ => true
  }

  /** A schema as the contract writes them: string titles, and references that name a definition. */
  predicate Proper(names: set<string>, n: Node) {
    match n
    case List(items) => forall i :: 0 <= i < |items| ==> Proper(names, items[i])
    case Dict(m) =>
      && ("title" in m ==> m["title"].Str?) && ("description" in m ==> m["description"].Str?)
      && ("$ref" in m ==> IsReference(m) && m.Keys <= {"$ref", "description"} && TargetOf(m).Some? && TargetOf(m).value in names)
      && (forall k <- m :: if k == "properties" && m[k].Dict? then ProperMap(names, m[k]) else Proper(names, m[k]))
    case _ => true
  }

  /** The value of `properties`: names to schemas, none of them a string. */
  predicate ProperMap(names: set<string>, n: Node)
    requires n.Dict?
  {
    forall k <- n.entries :: !n.entries[k].Str? && Proper(names, n.entries[k])
  }

  /** Every definition is proper and none is itself a reference. */
  predicate ProperDefs(d: Defs) {
    Complete(d) && forall name <- d.schemas :: Proper(d.schemas.Keys, Dict(d.schemas[name])) && !IsReference(d.schemas[name])
  }

  // --------------------------------------------------------------------------------- arithmetic

  lemma {:induction false} BoundedMore(n: Node, h: nat, more: nat)
    requires Bounded(n, h) && h <= more
    ensures Bounded(n, more)
  {
    match n
    case List(items) =>
      forall i | 0 <= i < |items| ensures more > 0 && Bounded(items[i], more - 1) {
        BoundedMore(items[i], h - 1, more - 1);
      }
    case Dict(m) =>
      forall k | k in m ensures more > 0 && Bounded(m[k], more - 1) {
        BoundedMore(m[k], h - 1, more - 1);
      }
    case _ =>
  }

  lemma {:induction false} ItemsBounded(items: seq<Node>) returns (h: nat)
    ensures forall i :: 0 <= i < |items| ==> Bounded(items[i], h)
    decreases items, 0
  {
    h := 0;
    var i := 0;
    while i < |items|
      invariant 0 <= i <= |items|
      invariant forall j :: 0 <= j < i ==> Bounded(items[j], h)
    {
      var next := HasBound(items[i]);
      var more := if next < h then h else next;
      forall j | 0 <= j <= i ensures Bounded(items[j], more) {
        BoundedMore(items[j], if j < i then h else next, more);
      }
      h := more;
      i := i + 1;
    }
  }

  lemma {:induction false} HasBound(n: Node) returns (h: nat)
    ensures Bounded(n, h)
    decreases n
  {
    h := 0;
    match n
    case List(items) =>
      var most := ItemsBounded(items);
      h := most + 1;
    case Dict(m) =>
      var most := 0;
      var keys := m.Keys;
      while keys != {}
        invariant keys <= m.Keys
        invariant forall k :: k in m && k !in keys ==> Bounded(m[k], most)
        decreases |keys|
      {
        var key :| key in keys;
        keys := keys - {key};
        var next := HasBound(m[key]);
        var more := if next < most then most else next;
        forall k | k in m && k !in keys ensures Bounded(m[k], more) {
          BoundedMore(m[k], if k == key then next else most, more);
        }
        most := more;
      }
      h := most + 1;
    case _ =>
  }

  // ---------------------------------------------------------------------------------- one pass

  lemma ReferenceTargets(name: string, m: Entries)
    ensures ReferenceTo(name, m).Dict?
    ensures var r := ReferenceTo(name, m).entries; IsReference(r) && TargetOf(r) == Some(name)
  {
    assert (REF_PREFIX + name)[..|REF_PREFIX|] == REF_PREFIX && (REF_PREFIX + name)[|REF_PREFIX|..] == name;
  }

  predicate Says(m: Entries, key: string) {
    key in m && !IsAnnotation(key, m[key])
  }

  /** Dicts that say the same under the same keys mean the same. */
  lemma SameEntries(defs: map<string, Entries>, a: Entries, f: nat, linked: map<string, Entries>, b: Entries, g: nat)
    requires !IsReference(a) && !IsReference(b) && Meaning(defs, Dict(a), f).Some?
    requires forall k :: Says(a, k) <==> Says(b, k)
    requires forall k | Says(a, k) && Says(b, k) :: Meaning(linked, b[k], g) == Meaning(defs, a[k], f)
    ensures Meaning(linked, Dict(b), g) == Meaning(defs, Dict(a), f)
  {
    forall k | Says(b, k) ensures Meaning(linked, b[k], g).Some? {
      assert Says(a, k);
    }
    var (x, y) := (Meaning(defs, Dict(a), f).value.entries, Meaning(linked, Dict(b), g).value.entries);
    assert forall k :: (k in x <==> Says(a, k)) && (k in y <==> Says(b, k));
    assert x == y;
  }

  lemma EntryBounded(defs: map<string, Entries>, m: Entries, f: nat, h: nat, k: string)
    requires !IsReference(m) && Meaning(defs, Dict(m), f).Some? && Bounded(Meaning(defs, Dict(m), f).value, h)
    requires Says(m, k)
    ensures h > 0 && Meaning(defs, m[k], f).Some? && Bounded(Meaning(defs, m[k], f).value, h - 1)
  {
    var full := Meaning(defs, Dict(m), f).value.entries;
    assert k in full && full[k] == Meaning(defs, m[k], f).value;
  }

  /** A schema and its body say the same under every key but the two annotations. */
  lemma ProperSays(names: set<string>, m: Entries, k: string)
    requires Proper(names, Dict(m))
    ensures Says(m, k) <==> k in m && k != "title" && k != "description"
  {
  }

  lemma NoTextUnder(d: Defs, m: Entries, owner: string, hint: Option<string>, k: string)
    requires Complete(d) && k in m && m[k].Str?
    ensures RewriteUnder(d, k, m[k], owner, hint) == m[k]
  {
  }

  lemma BodyTellsReference(a: Entries, b: Entries)
    ensures IsReference(a) && !IsReference(b) ==> Body(a) != Body(b)
  {
    if IsReference(a) && Body(a) == Body(b) {
      assert "$ref" in Body(a) && Body(a)["$ref"] == a["$ref"] && Body(b)["$ref"] == b["$ref"];
    }
  }

  /** A reference that is already there equals no definition's body. */
  lemma ReferenceIsNoBody(d: Defs, m: Entries)
    requires Complete(d) && IsReference(m)
    requires forall name <- d.schemas :: !IsReference(d.schemas[name])
    ensures ByBody(d.names, d.schemas, Body(m)).None?
  {
    forall name | name in d.schemas ensures Body(d.schemas[name]) != Body(m) {
      BodyTellsReference(m, d.schemas[name]);
    }
  }

  lemma ReferenceUnder(d: Defs, m: Entries, owner: string, hint: Option<string>)
    requires Complete(d) && Proper(d.schemas.Keys, Dict(m)) && IsReference(m)
    ensures RewriteEntries(d, Dict(m), owner, hint) == m
  {
    var under := RewriteAll(d, Dict(m), owner, hint);
    forall k | k in m ensures under[k] == m[k] {
      NoTextUnder(d, m, owner, hint, k);
    }
    assert under == m;
  }

  /** ... and survives the pass unchanged. */
  lemma ReferenceStays(d: Defs, m: Entries, owner: string, hint: Option<string>)
    requires ProperDefs(d) && Proper(d.schemas.Keys, Dict(m)) && IsReference(m)
    ensures Rewrite(d, Dict(m), owner, hint) == Dict(m)
  {
    ReferenceIsNoBody(d, m);
    ReferenceUnder(d, m, owner, hint);
  }

  /** Two schemas that differ in their own description say the same. */
  lemma BodiesMeanTheSame(names: set<string>, defs: map<string, Entries>, m: Entries, other: Entries, fuel: nat)
    requires Body(m) == Body(other) && !IsReference(m) && !IsReference(other)
    requires Proper(names, Dict(m)) && Proper(names, Dict(other)) && Meaning(defs, Dict(m), fuel).Some?
    ensures Meaning(defs, Dict(other), fuel) == Meaning(defs, Dict(m), fuel)
  {
    forall k ensures Says(m, k) <==> Says(other, k)
             ensures Says(m, k) ==> other[k] == m[k]
    {
      ProperSays(names, m, k);
      ProperSays(names, other, k);
      assert k != "description" ==> (k in m <==> k in Body(m)) && (k in other <==> k in Body(other));
      assert Says(m, k) ==> Body(m)[k] == m[k] && Body(other)[k] == other[k];
    }
    SameEntries(defs, m, fuel, defs, other, fuel);
  }

  lemma {:induction false} Preserved(d: Defs, n: Node, owner: string, hint: Option<string>, f: nat, h: nat, g: nat)
    requires ProperDefs(d) && Proper(d.schemas.Keys, n) && g > h
    requires Meaning(d.schemas, n, f).Some? && Bounded(Meaning(d.schemas, n, f).value, h)
    ensures Meaning(Link(d).schemas, Rewrite(d, n, owner, hint), g) == Meaning(d.schemas, n, f)
    decreases h, 4
  {
    match n
    case List(items) => ItemsPreserved(d, n, owner, hint, f, h, g);
    case Dict(m) =>
      if IsReference(m) {
        ReferencePreserved(d, m, owner, hint, f, h, g);
      } else {
        var r := ByBody(d.names, d.schemas, Body(m));
        if r.Some? && r.value != owner {
          RepeatPreserved(d, m, r.value, f, h, g);
        } else {
          EntriesPreserved(d, n, owner, hint, f, h, g);
        }
      }
    case _ =>
  }

  lemma {:induction false} ReferencePreserved(d: Defs, m: Entries, owner: string, hint: Option<string>, f: nat, h: nat, g: nat)
    requires ProperDefs(d) && Proper(d.schemas.Keys, Dict(m)) && g > h && IsReference(m)
    requires Meaning(d.schemas, Dict(m), f).Some? && Bounded(Meaning(d.schemas, Dict(m), f).value, h)
    ensures Meaning(Link(d).schemas, Rewrite(d, Dict(m), owner, hint), g) == Meaning(d.schemas, Dict(m), f)
    decreases h, 3
  {
    hide Proper, Bounded, Rewrite;
    ReferenceStays(d, m, owner, hint);
    ReferenceNames(d.schemas.Keys, m);
    RootPreserved(d, TargetOf(m).value, f - 1, h, g - 1);
    Followed(d.schemas, m, f);
    Followed(Link(d).schemas, m, g);
  }

  lemma ReferenceNames(names: set<string>, m: Entries)
    requires Proper(names, Dict(m)) && IsReference(m)
    ensures TargetOf(m).Some? && TargetOf(m).value in names
  {
  }

  lemma Followed(defs: map<string, Entries>, m: Entries, fuel: nat)
    requires IsReference(m) && TargetOf(m).Some? && TargetOf(m).value in defs && fuel > 0
    ensures Meaning(defs, Dict(m), fuel) == Meaning(defs, Dict(defs[TargetOf(m).value]), fuel - 1)
  {
  }

  lemma {:induction false} RepeatPreserved(d: Defs, m: Entries, name: string, f: nat, h: nat, g: nat)
    requires ProperDefs(d) && Proper(d.schemas.Keys, Dict(m)) && g > h && !IsReference(m)
    requires name in d.schemas && Body(d.schemas[name]) == Body(m)
    requires Meaning(d.schemas, Dict(m), f).Some? && Bounded(Meaning(d.schemas, Dict(m), f).value, h)
    ensures Meaning(Link(d).schemas, ReferenceTo(name, m), g) == Meaning(d.schemas, Dict(m), f)
    decreases h, 3
  {
    BodiesMeanTheSame(d.schemas.Keys, d.schemas, m, d.schemas[name], f);
    RootPreserved(d, name, f, h, g - 1);
    ReferenceTargets(name, m);
    Followed(Link(d).schemas, ReferenceTo(name, m).entries, g);
  }

  lemma {:induction false} ItemsPreserved(d: Defs, n: Node, owner: string, hint: Option<string>, f: nat, h: nat, g: nat)
    requires ProperDefs(d) && Proper(d.schemas.Keys, n) && g > h && n.List?
    requires Meaning(d.schemas, n, f).Some? && Bounded(Meaning(d.schemas, n, f).value, h)
    ensures Meaning(Link(d).schemas, Rewrite(d, n, owner, hint), g) == Meaning(d.schemas, n, f)
    decreases h, 0
  {
    var (items, defs) := (n.items, Link(d).schemas);
    var full := Meaning(d.schemas, n, f).value.items;
    var rewritten := Rewrite(d, n, owner, hint).items;
    forall i | 0 <= i < |items| ensures Meaning(defs, rewritten[i], g) == Some(full[i]) {
      assert full[i] == Meaning(d.schemas, items[i], f).value;
      Preserved(d, items[i], owner, hint, f, h - 1, g);
    }
    assert Meaning(defs, List(rewritten), g).value.items == full;
  }

  lemma {:induction false} RootPreserved(d: Defs, name: string, f: nat, h: nat, g: nat)
    requires ProperDefs(d) && name in d.schemas && g >= h
    requires Meaning(d.schemas, Dict(d.schemas[name]), f).Some?
    requires Bounded(Meaning(d.schemas, Dict(d.schemas[name]), f).value, h)
    ensures Meaning(Link(d).schemas, Dict(Link(d).schemas[name]), g) == Meaning(d.schemas, Dict(d.schemas[name]), f)
    decreases h, 2
  {
    EntriesPreserved(d, Dict(d.schemas[name]), name, None, f, h, g);
  }

  lemma TitledOnlyTitles(d: Defs, m: Entries, owner: string, hint: Option<string>, k: string)
    requires "title" in m ==> m["title"].Str?
    ensures var t := Titled(d, m, owner, hint);
            && (Says(t, k) <==> Says(m, k)) && (Says(m, k) ==> t[k] == m[k]) && (IsReference(t) <==> IsReference(m))
  {
  }

  lemma {:induction false} EntriesPreserved(d: Defs, n: Node, owner: string, hint: Option<string>, f: nat, h: nat, g: nat)
    requires ProperDefs(d) && Proper(d.schemas.Keys, n) && g >= h && n.Dict? && !IsReference(n.entries)
    requires Meaning(d.schemas, n, f).Some? && Bounded(Meaning(d.schemas, n, f).value, h)
    ensures Meaning(Link(d).schemas, Dict(RewriteEntries(d, n, owner, hint)), g) == Meaning(d.schemas, n, f)
    decreases h, 1
  {
    var (m, defs) := (n.entries, Link(d).schemas);
    var under := RewriteAll(d, n, owner, hint);
    if "title" in m {
      NoTextUnder(d, m, owner, hint, "title");
    }
    var titled := Titled(d, under, owner, hint);
    forall k ensures Says(titled, k) <==> Says(m, k)
             ensures Says(m, k) ==> Meaning(defs, titled[k], g) == Meaning(d.schemas, m[k], f)
             ensures IsReference(titled) <==> IsReference(under)
    {
      TitledOnlyTitles(d, under, owner, hint, k);
      if k in m {
        UnderSays(d, m, owner, hint, k);
        if Says(m, k) {
          EntryBounded(d.schemas, m, f, h, k);
          UnderPreserved(d, k, m[k], owner, hint, f, h, g);
        }
      }
    }
    RefKeyUnder(d, m, owner, hint);
    SameEntries(d.schemas, m, f, defs, titled, g);
  }

  lemma UnderSays(d: Defs, m: Entries, owner: string, hint: Option<string>, k: string)
    requires Complete(d) && Proper(d.schemas.Keys, Dict(m)) && k in m
    ensures IsAnnotation(k, RewriteUnder(d, k, m[k], owner, hint)) <==> IsAnnotation(k, m[k])
  {
    ProperSays(d.schemas.Keys, m, k);
  }

  lemma RefKeyUnder(d: Defs, m: Entries, owner: string, hint: Option<string>)
    requires Complete(d) && Proper(d.schemas.Keys, Dict(m)) && !IsReference(m)
    ensures "$ref" !in m
  {
  }

  lemma {:induction false} UnderPreserved(d: Defs, key: string, v: Node, owner: string, hint: Option<string>, f: nat, h: nat, g: nat)
    requires ProperDefs(d) && g >= h > 0
    requires if key == "properties" && v.Dict? then ProperMap(d.schemas.Keys, v) else Proper(d.schemas.Keys, v)
    requires Meaning(d.schemas, v, f).Some? && Bounded(Meaning(d.schemas, v, f).value, h - 1)
    ensures Meaning(Link(d).schemas, RewriteUnder(d, key, v, owner, hint), g) == Meaning(d.schemas, v, f)
    decreases h, 0, 1
  {
    if key == "properties" && v.Dict? {
      PropertiesPreserved(d, v, owner, f, h, g);
    } else {
      Preserved(d, v, owner, if IsTransparent(key) then hint else None, f, h - 1, g);
    }
  }

  /** Nothing under `properties` is a string, before or after, so nothing there is an annotation or a target. */
  lemma NoStrings(d: Defs, v: Node, owner: string)
    requires Complete(d) && v.Dict? && ProperMap(d.schemas.Keys, v)
    ensures var under := RewriteEach(d, v, owner);
            && !IsReference(v.entries) && !IsReference(under)
            && (forall k :: (Says(v.entries, k) <==> k in v.entries) && (Says(under, k) <==> k in v.entries))
  {
    forall k | k in v.entries ensures !Rewrite(d, v.entries[k], owner, Some(k)).Str? {
    }
  }

  lemma {:induction false} PropertiesPreserved(d: Defs, v: Node, owner: string, f: nat, h: nat, g: nat)
    requires ProperDefs(d) && g >= h > 0 && v.Dict? && ProperMap(d.schemas.Keys, v)
    requires Meaning(d.schemas, v, f).Some? && Bounded(Meaning(d.schemas, v, f).value, h - 1)
    ensures Meaning(Link(d).schemas, Dict(RewriteEach(d, v, owner)), g)
         == Meaning(d.schemas, v, f)
    decreases h, 0, 0
  {
    var (m, defs) := (v.entries, Link(d).schemas);
    var under := RewriteEach(d, v, owner);
    NoStrings(d, v, owner);
    forall k ensures Says(under, k) <==> Says(m, k)
             ensures Says(m, k) ==> Meaning(defs, under[k], g) == Meaning(d.schemas, m[k], f)
    {
      if Says(m, k) {
        EntryBounded(d.schemas, m, f, h - 1, k);
        Preserved(d, m[k], owner, Some(k), f, h - 2, g);
      }
    }
    SameEntries(d.schemas, m, f, defs, under, g);
  }

  // ------------------------------------------------------------------------- what a pass hands on

  lemma {:induction false} ProperMore(names: set<string>, more: set<string>, n: Node)
    requires Proper(names, n) && names <= more
    ensures Proper(more, n)
  {
    match n
    case List(items) =>
      forall i | 0 <= i < |items| ensures Proper(more, items[i]) {
        ProperMore(names, more, items[i]);
      }
    case Dict(m) =>
      forall k | k in m ensures if k == "properties" && m[k].Dict? then ProperMap(more, m[k]) else Proper(more, m[k]) {
        if k == "properties" && m[k].Dict? {
          forall p | p in m[k].entries ensures Proper(more, m[k].entries[p]) {
            ProperMore(names, more, m[k].entries[p]);
          }
        } else {
          ProperMore(names, more, m[k]);
        }
      }
    case _ =>
  }

  lemma ReferenceProper(names: set<string>, name: string, m: Entries)
    requires name in names && Proper(names, Dict(m))
    ensures Proper(names, ReferenceTo(name, m))
  {
    ReferenceTargets(name, m);
    var r := ReferenceTo(name, m).entries;
    assert r.Keys <= {"$ref", "description"} && "title" !in r && "properties" !in r;
    assert forall k <- r :: r[k].Str?;
  }

  lemma {:induction false} RewriteProper(d: Defs, n: Node, owner: string, hint: Option<string>)
    requires ProperDefs(d) && Proper(d.schemas.Keys, n)
    ensures Proper(d.schemas.Keys, Rewrite(d, n, owner, hint))
    decreases n, 1
  {
    match n
    case List(items) =>
      var rewritten := Rewrite(d, n, owner, hint).items;
      forall i | 0 <= i < |items| ensures Proper(d.schemas.Keys, rewritten[i]) {
        RewriteProper(d, items[i], owner, hint);
      }
    case Dict(m) =>
      var r := ByBody(d.names, d.schemas, Body(m));
      if r.Some? && r.value != owner {
        ReferenceProper(d.schemas.Keys, r.value, m);
      } else if IsReference(m) {
        ReferenceUnder(d, m, owner, hint);
      } else {
        EntriesProper(d, n, owner, hint);
      }
    case _ =>
  }

  predicate EntryProper(names: set<string>, k: string, v: Node) {
    if k == "properties" && v.Dict? then ProperMap(names, v) else Proper(names, v)
  }

  lemma ProperFromEntries(names: set<string>, m: Entries)
    requires "$ref" !in m
    requires "title" in m ==> m["title"].Str?
    requires "description" in m ==> m["description"].Str?
    requires forall k <- m :: EntryProper(names, k, m[k])
    ensures Proper(names, Dict(m)) && !IsReference(m)
  {
  }

  lemma ProperEntry(names: set<string>, m: Entries, k: string)
    requires Proper(names, Dict(m)) && k in m
    ensures EntryProper(names, k, m[k])
    ensures k == "title" || k == "description" ==> m[k].Str?
  {
  }

  lemma {:induction false} EntriesProper(d: Defs, n: Node, owner: string, hint: Option<string>)
    requires ProperDefs(d) && n.Dict? && Proper(d.schemas.Keys, n) && !IsReference(n.entries)
    ensures Proper(d.schemas.Keys, Dict(RewriteEntries(d, n, owner, hint))) && !IsReference(RewriteEntries(d, n, owner, hint))
    decreases n, 0
  {
    var (m, names) := (n.entries, d.schemas.Keys);
    var under := RewriteAll(d, n, owner, hint);
    forall k | k in m
      ensures EntryProper(names, k, under[k])
      ensures k == "title" || k == "description" ==> under[k].Str?
    {
      ProperEntry(names, m, k);
      UnderProper(d, k, m[k], owner, hint);
    }
    RefKeyUnder(d, m, owner, hint);
    TitleAdded(d, under, owner, hint);
    ProperFromEntries(names, Titled(d, under, owner, hint));
  }

  lemma TitleAdded(d: Defs, m: Entries, owner: string, hint: Option<string>)
    requires "title" in m ==> m["title"].Str?
    requires forall k <- m :: EntryProper(d.schemas.Keys, k, m[k])
    ensures var t := Titled(d, m, owner, hint);
            && m.Keys <= t.Keys <= m.Keys + {"title"} && ("title" in t ==> t["title"].Str?)
            && (forall k <- m | k != "title" :: t[k] == m[k])
            && (forall k <- t :: EntryProper(d.schemas.Keys, k, t[k]))
  {
  }

  lemma {:induction false} UnderProper(d: Defs, k: string, v: Node, owner: string, hint: Option<string>)
    requires ProperDefs(d) && EntryProper(d.schemas.Keys, k, v)
    ensures EntryProper(d.schemas.Keys, k, RewriteUnder(d, k, v, owner, hint))
    ensures v.Str? ==> RewriteUnder(d, k, v, owner, hint) == v
    decreases v, 2
  {
    if k == "properties" && v.Dict? {
      NoStrings(d, v, owner);
      var under := RewriteEach(d, v, owner);
      forall p | p in v.entries ensures !under[p].Str? && Proper(d.schemas.Keys, under[p]) {
        RewriteProper(d, v.entries[p], owner, Some(p));
      }
    } else {
      RewriteProper(d, v, owner, if IsTransparent(k) then hint else None);
    }
  }

  lemma LinkProper(d: Defs)
    requires ProperDefs(d)
    ensures ProperDefs(Link(d)) && Link(d).schemas.Keys == d.schemas.Keys
  {
    forall name | name in d.schemas
      ensures Proper(d.schemas.Keys, Dict(Link(d).schemas[name])) && !IsReference(Link(d).schemas[name])
    {
      EntriesProper(d, Dict(d.schemas[name]), name, None);
    }
    assert Link(d).schemas.Keys == d.schemas.Keys;
  }

  /** What a definition means does not depend on definitions it never reaches. */
  lemma {:induction false} MeaningMore(defs: map<string, Entries>, more: map<string, Entries>, n: Node, fuel: nat)
    requires Meaning(defs, n, fuel).Some?
    requires forall name <- defs :: name in more && more[name] == defs[name]
    ensures Meaning(more, n, fuel) == Meaning(defs, n, fuel)
    decreases fuel, n
  {
    match n
    case List(items) =>
      forall i | 0 <= i < |items| ensures Meaning(more, items[i], fuel) == Meaning(defs, items[i], fuel) {
        MeaningMore(defs, more, items[i], fuel);
      }
      assert Meaning(more, n, fuel).value.items == Meaning(defs, n, fuel).value.items;
    case Dict(m) =>
      if IsReference(m) {
        MeaningMore(defs, more, Dict(defs[TargetOf(m).value]), fuel - 1);
      } else {
        forall k | Says(m, k) ensures Meaning(more, m[k], fuel) == Meaning(defs, m[k], fuel) {
          MeaningMore(defs, more, m[k], fuel);
        }
        SameEntries(defs, m, fuel, more, m, fuel);
      }
    case _ =>
  }

  // --------------------------------------------------------------------------------- hoisting

  /** A titled subschema of a proper schema is proper, no reference, and means something whenever the schema does. */
  lemma {:induction false} OccurrenceProper(names: set<string>, n: Node, title: string, found: Entries)
    requires Proper(names, n) && Occurs(n, title, found)
    ensures Proper(names, Dict(found)) && !IsReference(found)
  {
    match n
    case List(items) =>
      var i :| 0 <= i < |items| && Occurs(items[i], title, found);
      OccurrenceProper(names, items[i], title, found);
    case Dict(m) =>
      if m != found || !("title" in m && m["title"] == Str(title)) {
        var k :| k in m && Occurs(m[k], title, found);
        ProperEntry(names, m, k);
        if k == "properties" && m[k].Dict? {
          assert !(m[k] == Dict(found) && "title" in found && found["title"].Str?);
          var p :| p in m[k].entries && Occurs(m[k].entries[p], title, found);
          OccurrenceProper(names, m[k].entries[p], title, found);
        } else {
          OccurrenceProper(names, m[k], title, found);
        }
      }
    case _ =>
  }

  lemma {:induction false} OccurrenceMeans(names: set<string>, defs: map<string, Entries>, n: Node, title: string, found: Entries, fuel: nat)
    requires Proper(names, n) && Occurs(n, title, found) && Meaning(defs, n, fuel).Some?
    ensures Meaning(defs, Dict(found), fuel).Some?
  {
    match n
    case List(items) =>
      var i :| 0 <= i < |items| && Occurs(items[i], title, found);
      OccurrenceMeans(names, defs, items[i], title, found, fuel);
    case Dict(m) =>
      if m != found || !("title" in m && m["title"] == Str(title)) {
        var k :| k in m && Occurs(m[k], title, found);
        ProperEntry(names, m, k);
        assert !m[k].Str? && "$ref" !in m;
        if k == "properties" && m[k].Dict? {
          assert !(m[k] == Dict(found) && "title" in found && found["title"].Str?);
          var p :| p in m[k].entries && Occurs(m[k].entries[p], title, found);
          assert Says(m, k) && Says(m[k].entries, p) && !IsReference(m[k].entries);
          OccurrenceMeans(names, defs, m[k].entries[p], title, found, fuel);
        } else {
          assert Says(m, k);
          OccurrenceMeans(names, defs, m[k], title, found, fuel);
        }
      }
    case _ =>
  }

  // ------------------------------------------------------------------------------- both passes

  /** The contract schemas as exported: proper, and without a single reference. */
  predicate Originals(d: Defs) {
    Complete(d) && forall name <- d.schemas :: Proper({}, Dict(d.schemas[name]))
  }

  lemma {:induction false} Unlinked(defs: map<string, Entries>, n: Node, fuel: nat)
    requires Proper({}, n)
    ensures Meaning(defs, n, fuel) == Some(Bare(n))
  {
    match n
    case List(items) =>
      forall i | 0 <= i < |items| ensures Meaning(defs, items[i], fuel) == Some(Bare(items[i])) {
        Unlinked(defs, items[i], fuel);
      }
      assert Meaning(defs, n, fuel).value.items == Bare(n).items;
    case Dict(m) =>
      forall k | Says(m, k) ensures Meaning(defs, m[k], fuel) == Some(Bare(m[k])) {
        ProperEntry({}, m, k);
        if k == "properties" && m[k].Dict? {
          UnlinkedMap(defs, m[k], fuel);
        } else {
          Unlinked(defs, m[k], fuel);
        }
      }
      assert Meaning(defs, n, fuel).value.entries == Bare(n).entries;
    case _ =>
  }

  lemma {:induction false} UnlinkedMap(defs: map<string, Entries>, v: Node, fuel: nat)
    requires v.Dict? && ProperMap({}, v)
    ensures Meaning(defs, v, fuel) == Some(Bare(v))
  {
    forall p | p in v.entries ensures Meaning(defs, v.entries[p], fuel) == Some(Bare(v.entries[p])) {
      Unlinked(defs, v.entries[p], fuel);
    }
    assert !IsReference(v.entries);
    assert Meaning(defs, v, fuel).value.entries == Bare(v).entries;
  }

  lemma OriginalsProper(d: Defs)
    requires Originals(d)
    ensures ProperDefs(d)
  {
    forall name | name in d.schemas ensures Proper(d.schemas.Keys, Dict(d.schemas[name])) && !IsReference(d.schemas[name]) {
      ProperMore({}, d.schemas.Keys, Dict(d.schemas[name]));
    }
  }

  lemma HoistedProper(linked: Defs, hoisted: map<string, Entries>, names: seq<string>)
    requires ProperDefs(linked) && SharedTitles(linked, hoisted) && Complete(WithHoisted(linked, hoisted, names))
    ensures ProperDefs(WithHoisted(linked, hoisted, names))
  {
    var all := WithHoisted(linked, hoisted, names);
    forall name | name in all.schemas ensures Proper(all.schemas.Keys, Dict(all.schemas[name])) && !IsReference(all.schemas[name]) {
      if name in hoisted {
        var from :| from in linked.schemas && Occurs(Dict(linked.schemas[from]), name, hoisted[name]);
        OccurrenceProper(linked.schemas.Keys, Dict(linked.schemas[from]), name, hoisted[name]);
      }
      ProperMore(linked.schemas.Keys, all.schemas.Keys, Dict(all.schemas[name]));
    }
  }

  /** After the first pass and the hoisting every schema still says what it said. */
  lemma FirstPass(d: Defs, hoisted: map<string, Entries>, names: seq<string>, name: string, h: nat)
    requires Originals(d) && SharedTitles(Link(d), hoisted) && name in d.schemas
    requires Bounded(Bare(Dict(d.schemas[name])), h)
    ensures Meaning(Link(d).schemas, Dict(Link(d).schemas[name]), h) == Some(Bare(Dict(d.schemas[name])))
    ensures var all := WithHoisted(Link(d), hoisted, names).schemas;
            name in all && Meaning(all, Dict(all[name]), h) == Some(Bare(Dict(d.schemas[name])))
  {
    OriginalsProper(d);
    LinkProper(d);
    Unlinked(d.schemas, Dict(d.schemas[name]), 0);
    RootPreserved(d, name, 0, h, h);
    var all := WithHoisted(Link(d), hoisted, names).schemas;
    MeaningMore(Link(d).schemas, all, Dict(Link(d).schemas[name]), h);
  }

  /**
   Linking preserves meaning: in the combined document each contract schema, with every reference
   followed, is the exported schema up to titles and descriptions. No more references nest than the
   exported schema is deep, so there is no cycle and no dangling name, the second pass included.
   */
  lemma LinkingPreservesMeaning(d: Defs, hoisted: map<string, Entries>, names: seq<string>, name: string, h: nat, fuel: nat)
    requires Originals(d) && SharedTitles(Link(d), hoisted) && Complete(WithHoisted(Link(d), hoisted, names))
    requires name in d.schemas && Bounded(Bare(Dict(d.schemas[name])), h) && fuel >= h
    ensures var combined := Link(WithHoisted(Link(d), hoisted, names)).schemas;
            name in combined && Meaning(combined, Dict(combined[name]), fuel) == Some(Bare(Dict(d.schemas[name])))
  {
    OriginalsProper(d);
    LinkProper(d);
    HoistedProper(Link(d), hoisted, names);
    FirstPass(d, hoisted, names, name, h);
    RootPreserved(WithHoisted(Link(d), hoisted, names), name, h, h, fuel);
  }

  /** What a hoisted title meant where it stood. */
  lemma OccurrenceMeaning(d: Defs, hoisted: map<string, Entries>, title: string) returns (from: string, fuel: nat)
    requires Originals(d) && SharedTitles(Link(d), hoisted) && title in hoisted
    ensures from in d.schemas && Occurs(Dict(Link(d).schemas[from]), title, hoisted[title])
    ensures Meaning(Link(d).schemas, Dict(hoisted[title]), fuel).Some?
  {
    var linked := Link(d);
    OriginalsProper(d);
    LinkProper(d);
    from :| from in linked.schemas && Occurs(Dict(linked.schemas[from]), title, hoisted[title]);
    fuel := HasBound(Bare(Dict(d.schemas[from])));
    FirstPass(d, hoisted, [], from, fuel);
    OccurrenceMeans(linked.schemas.Keys, linked.schemas, Dict(linked.schemas[from]), title, hoisted[title], fuel);
  }

  lemma SecondPass(linked: Defs, hoisted: map<string, Entries>, names: seq<string>, title: string, fuel: nat) returns (h: nat)
    requires ProperDefs(linked) && SharedTitles(linked, hoisted) && Complete(WithHoisted(linked, hoisted, names))
    requires title in hoisted && Meaning(linked.schemas, Dict(hoisted[title]), fuel).Some?
    ensures var combined := Link(WithHoisted(linked, hoisted, names)).schemas;
            title in combined && Meaning(combined, Dict(combined[title]), h) == Meaning(linked.schemas, Dict(hoisted[title]), fuel)
  {
    var all := WithHoisted(linked, hoisted, names);
    HoistedProper(linked, hoisted, names);
    MeaningMore(linked.schemas, all.schemas, Dict(hoisted[title]), fuel);
    h := HasBound(Meaning(all.schemas, Dict(hoisted[title]), fuel).value);
    RootPreserved(all, title, fuel, h, h);
  }

  /** A hoisted definition means what its occurrence meant where it stood. */
  lemma HoistingPreservesMeaning(d: Defs, hoisted: map<string, Entries>, names: seq<string>, title: string)
    returns (from: string, fuel: nat, h: nat)
    requires Originals(d) && SharedTitles(Link(d), hoisted) && Complete(WithHoisted(Link(d), hoisted, names))
    requires title in hoisted
    ensures from in d.schemas && Occurs(Dict(Link(d).schemas[from]), title, hoisted[title])
    ensures Meaning(Link(d).schemas, Dict(hoisted[title]), fuel).Some?
    ensures var combined := Link(WithHoisted(Link(d), hoisted, names)).schemas;
            title in combined && Meaning(combined, Dict(combined[title]), h) == Meaning(Link(d).schemas, Dict(hoisted[title]), fuel)
  {
    from, fuel := OccurrenceMeaning(d, hoisted, title);
    OriginalsProper(d);
    LinkProper(d);
    h := SecondPass(Link(d), hoisted, names, title, fuel);
  }
}
