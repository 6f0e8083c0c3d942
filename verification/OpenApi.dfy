/** Cutting an OpenAPI document down to what the public clients use. */
module OpenApi {
  import opened Options
  import opened Text
  import opened JsonValues

  /** What to leave out. `show` is Python's `str` of a value that is not a string. */
  datatype Settings = Settings(tags: set<string>, prefixes: seq<string>, prune: bool, show: Json -> string)

  const HTTP_METHODS := {"get", "put", "post", "delete", "options", "head", "patch", "trace"}
  const SCHEMAS := "#/components/schemas/"

  /** `str.lower`, on ASCII. */
  function Lower(s: string): string {
    seq(|s|, i requires 0 <= i < |s| => if 'A' <= s[i] <= 'Z' then ((s[i] as int) + 32) as char else s[i])
  }

  predicate IsMethod(key: string) {
    Lower(key) in HTTP_METHODS
  }

  // ---- Excluded operations

  /** The strings a `for tag in` over the value goes through; some values cannot be gone through. */
  function TagTexts(tags: Json, show: Json -> string): Option<set<string>> {
    match tags
    case Text(s) => Some(set c | c in s :: [c])
    case List(items) => Some(set item | item in items :: if item.Text? then item.s else show(item))
    case Object(members) => Some(members.Keys)
    case _ => None
  }

  function TagsOf(operation: map<string, Json>, show: Json -> string): Option<set<string>> {
    if "tags" in operation then TagTexts(operation["tags"], show) else Some({})
  }

  predicate HasExcludedTag(operation: map<string, Json>, settings: Settings) {
    var tags := TagsOf(operation, settings.show);
    tags.Some? && exists tag | tag in tags.value :: Lower(tag) in settings.tags
  }

  predicate HasExcludedPrefix(path: string, settings: Settings) {
    exists prefix | prefix in settings.prefixes :: prefix <= path
  }

  /** The member is an operation of the path and one of those to leave out. */
  predicate IsDropped(path: string, key: string, value: Json, settings: Settings) {
    && IsMethod(key) && value.Object?
    && (HasExcludedTag(value.members, settings) || HasExcludedPrefix(path, settings))
  }

  /** No operation has tags that cannot be gone through, which would raise. */
  predicate ItemReadable(item: map<string, Json>, settings: Settings) {
    forall key | key in item && IsMethod(key) && item[key].Object? :: TagsOf(item[key].members, settings.show).Some?
  }

  predicate PathsReadable(paths: map<string, Json>, settings: Settings) {
    forall path | path in paths && paths[path].Object? :: ItemReadable(paths[path].members, settings)
  }

  predicate Readable(document: map<string, Json>, settings: Settings) {
    "paths" in document && document["paths"].Object? ==> PathsReadable(document["paths"].members, settings)
  }

  function KeptOperations(path: string, item: map<string, Json>, settings: Settings): map<string, Json> {
    map key | key in item && !IsDropped(path, key, item[key], settings) :: item[key]
  }

  predicate HasOperation(item: map<string, Json>) {
    exists key | key in item :: IsMethod(key)
  }

  /** What is left of one path; none when no operation is. */
  function KeptItem(path: string, item: Json, settings: Settings): Option<Json> {
    if !item.Object? then Some(item)
    else
      var operations := KeptOperations(path, item.members, settings);
      if HasOperation(operations) then Some(Object(operations)) else None
  }

  function KeptPaths(paths: map<string, Json>, settings: Settings): map<string, Json> {
    map path | path in paths && KeptItem(path, paths[path], settings).Some? ::
      KeptItem(path, paths[path], settings).value
  }

  // ---- References

  /** `ref.rsplit("/", 1)[-1]`. */
  function LastSegment(ref: string): string {
    if '/' !in ref then ref
    else
      assert '/' in ref[1..] || ref[0] == '/';
      LastSegment(ref[IndexOf(ref, '/') + 1..])
  }

  function OwnRef(members: map<string, Json>): set<string> {
    if "$ref" in members && members["$ref"].Text? && SCHEMAS <= members["$ref"].s
    then {LastSegment(members["$ref"].s)} else {}
  }

  /** The schema names a value refers to, at any depth. */
  function Refs(value: Json): set<string> {
    match value
    case Object(members) => OwnRef(members) + set key, name | key in members && name in Refs(members[key]) :: name
    case List(items) => set i: nat, name | i < |items| && name in Refs(items[i]) :: name
    case _ => {}
  }

  function MemberRefs(members: map<string, Json>, keys: set<string>): set<string>
    requires keys <= members.Keys
  {
    set key, name | key in keys && name in Refs(members[key]) :: name
  }

  function ItemRefs(items: seq<Json>, n: nat): set<string>
    requires n <= |items|
  {
    set i: nat, name | i < n && name in Refs(items[i]) :: name
  }

  /** A Python set that is added to in place. */
  class RefSet {
    var names: set<string>

    constructor ()
      ensures names == {}
    {
      names := {};
    }

    /** `_collect_schema_refs`. */
    method Collect(value: Json)
      modifies this
      ensures names == old(names) + Refs(value)
      decreases value, 1
    {
      match value
      case Object(members) =>
        if "$ref" in members && members["$ref"].Text? && SCHEMAS <= members["$ref"].s {
          names := names + {LastSegment(members["$ref"].s)};
        }
        CollectMembers(members);
      case List(items) =>
        for i := 0 to |items|
          invariant names == old(names) + ItemRefs(items, i)
        {
          Collect(items[i]);
        }
      case _ =>
    }

    /** The loop over a dictionary's values. */
    method CollectMembers(members: map<string, Json>)
      modifies this
      ensures names == old(names) + MemberRefs(members, members.Keys)
      decreases Object(members), 0
    {
      var keys := members.Keys;
      while keys != {}
        invariant keys <= members.Keys
        invariant names == old(names) + MemberRefs(members, members.Keys - keys)
        decreases |keys|
      {
        var key :| key in keys;
        Collect(members[key]);
        keys := keys - {key};
      }
      assert members.Keys - keys == members.Keys;
    }
  }

  // ---- Schemas that are referred to, directly or through others

  predicate Step(schemas: map<string, Json>, a: string, b: string) {
    a in schemas && b in Refs(schemas[a])
  }

  ghost predicate Chain(schemas: map<string, Json>, roots: set<string>, chain: seq<string>) {
    && chain != [] && chain[0] in roots
    && forall i: nat | i + 1 < |chain| :: Step(schemas, chain[i], chain[i + 1])
  }

  /** There is a chain of references to the name from one of the roots. */
  ghost predicate Reachable(schemas: map<string, Json>, roots: set<string>, name: string) {
    exists chain :: Chain(schemas, roots, chain) && chain[|chain| - 1] == name
  }

  lemma ReachRoot(schemas: map<string, Json>, roots: set<string>, name: string)
    requires name in roots
    ensures Reachable(schemas, roots, name)
  {
    assert Chain(schemas, roots, [name]);
    assert [name][|[name]| - 1] == name;
  }

  lemma ReachStep(schemas: map<string, Json>, roots: set<string>, a: string, b: string)
    requires Reachable(schemas, roots, a) && Step(schemas, a, b)
    ensures Reachable(schemas, roots, b)
  {
    var chain :| Chain(schemas, roots, chain) && chain[|chain| - 1] == a;
    var longer := chain + [b];
    assert Chain(schemas, roots, longer);
    assert longer[|longer| - 1] == b;
  }

  /** Everything a name in the set refers to is in the set. */
  predicate Closed(schemas: map<string, Json>, names: set<string>) {
    forall name | name in names && name in schemas :: Refs(schemas[name]) <= names
  }

  lemma {:induction false} ChainStays(schemas: map<string, Json>, roots: set<string>, names: set<string>, chain: seq<string>)
    requires roots <= names && Closed(schemas, names) && Chain(schemas, roots, chain)
    ensures chain[|chain| - 1] in names
    decreases |chain|
  {
    if |chain| > 1 {
      var shorter := chain[..|chain| - 1];
      ChainStays(schemas, roots, names, shorter);
      assert Step(schemas, chain[|chain| - 2], chain[|chain| - 2 + 1]);
    }
  }

  /** A closed set that has the roots has everything reachable. */
  lemma ClosedHasReachable(schemas: map<string, Json>, roots: set<string>, names: set<string>)
    requires roots <= names && Closed(schemas, names)
    ensures forall name | Reachable(schemas, roots, name) :: name in names
  {
    forall name | Reachable(schemas, roots, name) ensures name in names {
      var chain :| Chain(schemas, roots, chain) && chain[|chain| - 1] == name;
      ChainStays(schemas, roots, names, chain);
    }
  }

  ghost function KeptSchemas(schemas: map<string, Json>, roots: set<string>): map<string, Json> {
    map name | name in schemas && Reachable(schemas, roots, name) :: schemas[name]
  }

  ghost predicate AllReachable(schemas: map<string, Json>, roots: set<string>, names: set<string>) {
    forall name | name in names :: Reachable(schemas, roots, name)
  }

  lemma ReachMore(schemas: map<string, Json>, roots: set<string>, names: set<string>, name: string)
    requires AllReachable(schemas, roots, names) && Reachable(schemas, roots, name) && name in schemas
    ensures AllReachable(schemas, roots, names + Refs(schemas[name]))
  {
    forall b | b in Refs(schemas[name]) ensures Reachable(schemas, roots, b) {
      ReachStep(schemas, roots, name, b);
    }
  }

  lemma Smaller(small: set<string>, large: set<string>)
    requires small < large
    ensures |small| < |large|
  {
    var extra :| extra in large && extra !in small;
    assert large == small + (large - small);
  }

  lemma SameSize(small: set<string>, large: set<string>)
    requires small <= large && |small| == |large|
    ensures small == large
  {
    if small != large {
      Smaller(small, large);
    }
  }

  /** What one pass over the names in `all` keeps, when those in `todo` are still to come. */
  ghost predicate PassKeeps(schemas: map<string, Json>, roots: set<string>, all: set<string>, todo: set<string>,
                            names: set<string>, changed: bool) {
    && todo <= all <= names && AllReachable(schemas, roots, names)
    && names <= all + MemberRefs(schemas, schemas.Keys)
    && (changed ==> all < names)
    && (!changed ==> names == all && forall name | name in all - todo && name in schemas :: Refs(schemas[name]) <= all)
  }

  function RefsOf(schemas: map<string, Json>, name: string): set<string> {
    if name in schemas then Refs(schemas[name]) else Refs(Null)
  }

  lemma PassStep(schemas: map<string, Json>, roots: set<string>, all: set<string>, todo: set<string>,
                 names: set<string>, changed: bool, name: string, names': set<string>)
    requires PassKeeps(schemas, roots, all, todo, names, changed) && name in todo
    requires names' == names + RefsOf(schemas, name)
    ensures PassKeeps(schemas, roots, all, todo - {name}, names', changed || |names'| != |names|)
  {
    var refs := RefsOf(schemas, name);
    if name in schemas {
      ReachMore(schemas, roots, names, name);
    }
    assert AllReachable(schemas, roots, names');
    RefsWithin(schemas, name);
    Grows(names, refs, all, MemberRefs(schemas, schemas.Keys));
    if !changed && |names'| == |names| {
      forall other | other in all - (todo - {name}) && other in schemas ensures Refs(schemas[other]) <= all {
        if other == name {
          assert refs <= all;
        }
      }
    }
  }

  lemma RefsWithin(schemas: map<string, Json>, name: string)
    ensures RefsOf(schemas, name) <= MemberRefs(schemas, schemas.Keys)
  {
  }

  lemma Grows(names: set<string>, refs: set<string>, all: set<string>, bound: set<string>)
    requires all <= names <= all + bound && refs <= bound
    ensures all <= names + refs <= all + bound
    ensures |names + refs| == |names| ==> refs <= names
    ensures |names + refs| != |names| ==> names < names + refs
  {
    if |names + refs| == |names| {
      SameSize(names, names + refs);
    } else {
      assert names != names + refs;
    }
  }

  /** One round of the fixed point's loop: `changed` is false only once nothing is missing. */
  method Pass(schemas: map<string, Json>, referenced: RefSet, ghost roots: set<string>) returns (changed: bool)
    requires AllReachable(schemas, roots, referenced.names)
    modifies referenced
    ensures PassKeeps(schemas, roots, old(referenced.names), {}, referenced.names, changed)
  {
    changed := false;
    var all := referenced.names;
    var todo := all;
    while todo != {}
      invariant PassKeeps(schemas, roots, all, todo, referenced.names, changed)
      decreases |todo|
    {
      var name :| name in todo;
      var before := |referenced.names|;
      ghost var was := referenced.names;
      var model := if name in schemas then schemas[name] else Null;
      referenced.Collect(model);
      PassStep(schemas, roots, all, todo, was, changed, name, referenced.names);
      changed := changed || |referenced.names| != before;
      todo := todo - {name};
    }
  }

  /** What the rounds keep: the last, which changed nothing, has left the set closed. */
  ghost predicate RoundKeeps(schemas: map<string, Json>, roots: set<string>, names: set<string>, changed: bool) {
    && roots <= names <= roots + MemberRefs(schemas, schemas.Keys)
    && AllReachable(schemas, roots, names)
    && (!changed ==> Closed(schemas, names))
  }

  ghost function Missing(schemas: map<string, Json>, roots: set<string>, names: set<string>): nat {
    |roots + MemberRefs(schemas, schemas.Keys) - names|
  }

  lemma RoundStep(schemas: map<string, Json>, roots: set<string>, names: set<string>, names': set<string>, changed: bool)
    requires RoundKeeps(schemas, roots, names, true) && PassKeeps(schemas, roots, names, {}, names', changed)
    ensures RoundKeeps(schemas, roots, names', changed)
    ensures Missing(schemas, roots, names') < Missing(schemas, roots, names) || (!changed && names' == names)
  {
    if changed {
      var universe := roots + MemberRefs(schemas, schemas.Keys);
      Smaller(universe - names', universe - names);
    }
  }

  lemma RoundsStart(schemas: map<string, Json>, roots: set<string>)
    ensures RoundKeeps(schemas, roots, roots, true)
  {
    forall name | name in roots ensures Reachable(schemas, roots, name) {
      ReachRoot(schemas, roots, name);
    }
  }

  lemma RoundsEnd(schemas: map<string, Json>, roots: set<string>, names: set<string>)
    requires RoundKeeps(schemas, roots, names, false)
    ensures forall name :: name in names <==> Reachable(schemas, roots, name)
  {
    ClosedHasReachable(schemas, roots, names);
  }

  /** The names that end up referenced are exactly the reachable ones. */
  method Referenced(schemas: map<string, Json>, paths: Json) returns (names: set<string>)
    ensures forall name :: name in names <==> Reachable(schemas, Refs(paths), name)
  {
    var referenced := new RefSet();
    referenced.Collect(paths);
    ghost var roots := Refs(paths);
    assert referenced.names == roots;
    RoundsStart(schemas, roots);
    var changed := true;
    while changed
      invariant RoundKeeps(schemas, roots, referenced.names, changed)
      decreases Missing(schemas, roots, referenced.names), changed
    {
      ghost var was := referenced.names;
      changed := Pass(schemas, referenced, roots);
      RoundStep(schemas, roots, was, referenced.names, changed);
    }
    names := referenced.names;
    RoundsEnd(schemas, roots, names);
  }

  function Only(schemas: map<string, Json>, names: set<string>): map<string, Json> {
    map name | name in schemas && name in names :: schemas[name]
  }

  /** The loop that pops the schemas not referenced. */
  method DropOthers(schemas: map<string, Json>, names: set<string>) returns (kept: map<string, Json>)
    ensures kept == Only(schemas, names)
  {
    var todo := schemas.Keys;
    kept := schemas;
    while todo != {}
      invariant todo <= schemas.Keys && kept == Only(schemas, names + todo)
      decreases |todo|
    {
      var name :| name in todo;
      if name !in names {
        kept := kept - {name};
      }
      todo := todo - {name};
    }
    assert names + todo == names;
  }

  lemma SameSchemas(schemas: map<string, Json>, roots: set<string>, names: set<string>)
    requires forall name :: name in names <==> Reachable(schemas, roots, name)
    ensures Only(schemas, names) == KeptSchemas(schemas, roots)
  {
  }

  // ---- The whole document

  function PathsOf(document: map<string, Json>): Json {
    if "paths" in document then document["paths"] else Object(map[])
  }

  predicate HasSchemas(document: map<string, Json>) {
    && "components" in document && document["components"].Object?
    && "schemas" in document["components"].members && document["components"].members["schemas"].Object?
  }

  function SchemasOf(document: map<string, Json>): map<string, Json> {
    if HasSchemas(document) then document["components"].members["schemas"].members else map[]
  }

  function SetSchemas(document: map<string, Json>, schemas: map<string, Json>): map<string, Json>
    requires HasSchemas(document)
  {
    document["components" := Object(document["components"].members["schemas" := Object(schemas)])]
  }

  ghost function Retained(document: map<string, Json>): map<string, Json> {
    if HasSchemas(document) then SetSchemas(document, KeptSchemas(SchemasOf(document), Refs(PathsOf(document))))
    else document
  }

  function Filtered(document: map<string, Json>, settings: Settings): map<string, Json> {
    if "paths" in document && document["paths"].Object?
    then document["paths" := Object(KeptPaths(document["paths"].members, settings))] else document
  }

  ghost function Prepared(document: map<string, Json>, settings: Settings): map<string, Json> {
    var filtered := Filtered(document, settings);
    if settings.prune then Retained(filtered) else filtered
  }

  /** The paths when those in `todo` are still as they were. */
  function PathsSoFar(paths: map<string, Json>, todo: set<string>, settings: Settings): map<string, Json> {
    map path | path in paths && (path in todo || KeptItem(path, paths[path], settings).Some?) ::
      if path in todo then paths[path] else KeptItem(path, paths[path], settings).value
  }

  function ItemSoFar(path: string, item: map<string, Json>, todo: set<string>, settings: Settings): map<string, Json> {
    map key | key in item && (key in todo || !IsDropped(path, key, item[key], settings)) :: item[key]
  }

  /** The loop over one path's members; `ok` is false where going through the tags raises. */
  method FilterItem(path: string, item: map<string, Json>, settings: Settings)
    returns (ok: bool, kept: map<string, Json>)
    ensures ok == ItemReadable(item, settings)
    ensures ok ==> kept == KeptOperations(path, item, settings)
  {
    kept := item;
    var todo := item.Keys;
    while todo != {}
      invariant todo <= item.Keys && kept == ItemSoFar(path, item, todo, settings)
      invariant forall key | key in item.Keys - todo && IsMethod(key) && item[key].Object? ::
                  TagsOf(item[key].members, settings.show).Some?
      decreases |todo|
    {
      var key :| key in todo;
      todo := todo - {key};
      if !IsMethod(key) {
        continue;
      }
      var operation := item[key];
      if operation.Object? {
        if TagsOf(operation.members, settings.show).None? {
          return false, kept;
        }
        if HasExcludedTag(operation.members, settings) || HasExcludedPrefix(path, settings) {
          kept := kept - {key};
        }
      }
    }
    ok := true;
  }

  /** A document that is cut down in place. */
  class Document {
    var members: map<string, Json>

    constructor (members: map<string, Json>)
      ensures this.members == members
    {
      this.members := members;
    }

    /** `_retain_referenced_schemas`. */
    method RetainReferenced()
      modifies this
      ensures members == Retained(old(members))
    {
      if !("components" in members && members["components"].Object?) {
        return;
      }
      var components := members["components"].members;
      if !("schemas" in components && components["schemas"].Object?) {
        return;
      }
      var schemas := components["schemas"].members;
      var names := Referenced(schemas, PathsOf(members));
      var kept := DropOthers(schemas, names);
      SameSchemas(schemas, Refs(PathsOf(members)), names);
      members := SetSchemas(members, kept);
    }

    /** The loop over the paths. */
    method FilterPaths(settings: Settings) returns (ok: bool)
      requires "paths" in members && members["paths"].Object?
      modifies this
      ensures ok == PathsReadable(old(members)["paths"].members, settings)
      ensures ok ==> members == Filtered(old(members), settings)
    {
      var paths := members["paths"].members;
      var todo := paths.Keys;
      assert PathsSoFar(paths, todo, settings) == paths;
      assert members["paths" := members["paths"]] == members;
      while todo != {}
        invariant todo <= paths.Keys
        invariant members == old(members)["paths" := Object(PathsSoFar(paths, todo, settings))]
        invariant forall path | path in paths.Keys - todo && paths[path].Object? ::
                    ItemReadable(paths[path].members, settings)
        decreases |todo|
      {
        var path :| path in todo;
        todo := todo - {path};
        var left := members["paths"].members;
        if paths[path].Object? {
          var readable, kept := FilterItem(path, paths[path].members, settings);
          if !readable {
            return false;
          }
          left := if HasOperation(kept) then left[path := Object(kept)] else left - {path};
        }
        assert left == PathsSoFar(paths, todo, settings);
        members := members["paths" := Object(left)];
      }
      assert PathsSoFar(paths, {}, settings) == KeptPaths(paths, settings);
      ok := true;
    }

    /** `prepare_client_openapi`. */
    method Prepare(settings: Settings) returns (ok: bool)
      modifies this
      ensures ok == Readable(old(members), settings)
      ensures ok ==> members == Prepared(old(members), settings)
    {
      if "paths" in members && members["paths"].Object? {
        ok := FilterPaths(settings);
        if !ok {
          return;
        }
      }
      if settings.prune {
        RetainReferenced();
      }
      ok := true;
    }
  }
}
