/** What a cut-down document has kept. */
module OpenApiTheorems {
  // And that cutting it down again changes nothing.

  import opened Options
  import opened Text
  import opened JsonValues
  import opened OpenApi

  // ---- The schemas kept are a least fixed point

  /** The set has every schema the roots refer to, and every schema one of its own refers to. */
  ghost predicate Complete(schemas: map<string, Json>, roots: set<string>, names: set<string>) {
    && (forall name | name in roots && name in schemas :: name in names)
    && (forall a, b | a in names && Step(schemas, a, b) && b in schemas :: b in names)
  }

  lemma {:induction false} ChainWithin(schemas: map<string, Json>, roots: set<string>, names: set<string>, chain: seq<string>)
    requires Complete(schemas, roots, names) && Chain(schemas, roots, chain) && chain[|chain| - 1] in schemas
    ensures chain[|chain| - 1] in names
    decreases |chain|
  {
    if |chain| > 1 {
      var shorter := chain[..|chain| - 1];
      assert Step(schemas, chain[|chain| - 2], chain[|chain| - 2 + 1]);
      ChainWithin(schemas, roots, names, shorter);
    }
  }

  /** The schemas kept are complete, and no smaller set of schemas is. */
  lemma KeptIsLeastComplete(schemas: map<string, Json>, roots: set<string>, names: set<string>)
    ensures Complete(schemas, roots, KeptSchemas(schemas, roots).Keys)
    ensures Complete(schemas, roots, names) ==> KeptSchemas(schemas, roots).Keys <= names
  {
    forall name | name in roots ensures Reachable(schemas, roots, name) {
      ReachRoot(schemas, roots, name);
    }
    forall a, b | Reachable(schemas, roots, a) && Step(schemas, a, b) ensures Reachable(schemas, roots, b) {
      ReachStep(schemas, roots, a, b);
    }
    if Complete(schemas, roots, names) {
      forall name | name in KeptSchemas(schemas, roots) ensures name in names {
        var chain :| Chain(schemas, roots, chain) && chain[|chain| - 1] == name;
        ChainWithin(schemas, roots, names, chain);
      }
    }
  }

  /** The part of the document is its paths or one of its schemas. */
  ghost predicate IsPart(document: map<string, Json>, part: Json) {
    part == PathsOf(document) || exists name :: name in SchemasOf(document) && part == SchemasOf(document)[name]
  }

  /** No part kept refers to a schema that was there before and is gone, and those kept are unchanged. */
  lemma NothingDangles(document: map<string, Json>, settings: Settings, part: Json, name: string)
    requires IsPart(Prepared(document, settings), part) && name in Refs(part) && name in SchemasOf(document)
    ensures name in SchemasOf(Prepared(document, settings))
    ensures SchemasOf(Prepared(document, settings))[name] == SchemasOf(document)[name]
  {
    AfterPruning(document, settings);
    var schemas, roots := SchemasOf(document), Refs(PathsOf(Filtered(document, settings)));
    if settings.prune && HasSchemas(document) {
      if part == PathsOf(Prepared(document, settings)) {
        ReachRoot(schemas, roots, name);
      } else {
        var a :| a in KeptSchemas(schemas, roots) && part == schemas[a];
        ReachStep(schemas, roots, a, name);
      }
    }
  }

  lemma AfterPruning(document: map<string, Json>, settings: Settings)
    ensures var filtered, after := Filtered(document, settings), Prepared(document, settings);
            && PathsOf(after) == PathsOf(filtered)
            && SchemasOf(after) ==
               if settings.prune && HasSchemas(document)
               then KeptSchemas(SchemasOf(document), Refs(PathsOf(filtered))) else SchemasOf(document)
  {
    assert SchemasOf(Filtered(document, settings)) == SchemasOf(document);
  }

  // ---- Operations

  predicate HasMember(paths: map<string, Json>, path: string, key: string) {
    path in paths && paths[path].Object? && key in paths[path].members
  }

  /** The text in lower case, as far as it is ASCII. */
  predicate LowerCased(text: string, low: string) {
    && |low| == |text|
    && forall i | 0 <= i < |text| ::
         low[i] == if 'A' <= text[i] <= 'Z' then text[i] - 'A' + 'a' else text[i]
  }

  ghost predicate IsOperation(key: string) {
    exists name | name in {"get", "put", "post", "delete", "options", "head", "patch", "trace"} :: LowerCased(key, name)
  }

  /** The tag is one that a loop over the operation's tags comes to. */
  ghost predicate HasTag(operation: map<string, Json>, show: Json -> string, tag: string) {
    && "tags" in operation
    && match operation["tags"]
       case Text(s) => |tag| == 1 && tag[0] in s
       case List(items) => exists item | item in items :: tag == if item.Text? then item.s else show(item)
       case Object(members) => tag in members
       case _ => false
  }

  /** A loop over the operation's tags raises. */
  predicate TagsRaise(operation: map<string, Json>) {
    "tags" in operation && !operation["tags"].Text? && !operation["tags"].List? && !operation["tags"].Object?
  }

  /** The operation has a tag that is left out, whatever its case, or the path begins with a prefix that is. */
  ghost predicate Excluded(path: string, value: Json, settings: Settings) {
    && value.Object?
    && (|| (exists tag, low :: HasTag(value.members, settings.show, tag) && LowerCased(tag, low) && low in settings.tags)
        || (exists prefix | prefix in settings.prefixes :: |prefix| <= |path| && path[..|prefix|] == prefix))
  }

  lemma LowerIs(text: string)
    ensures forall low :: LowerCased(text, low) <==> low == Lower(text)
  {
    assert LowerCased(text, Lower(text));
  }

  lemma OperationIff(key: string)
    ensures IsOperation(key) <==> IsMethod(key)
  {
    LowerIs(key);
    assert LowerCased(key, Lower(key));
  }

  lemma TagIff(operation: map<string, Json>, show: Json -> string, tag: string)
    ensures HasTag(operation, show, tag) <==> TagsOf(operation, show).Some? && tag in TagsOf(operation, show).value
  {
    if "tags" in operation && operation["tags"].Text? {
      assert |tag| == 1 ==> tag == [tag[0]];
    }
  }

  lemma DroppedIff(path: string, key: string, value: Json, settings: Settings)
    ensures IsDropped(path, key, value, settings) <==> IsOperation(key) && Excluded(path, value, settings)
  {
    OperationIff(key);
    if value.Object? {
      forall tag ensures HasTag(value.members, settings.show, tag) <==>
          TagsOf(value.members, settings.show).Some? && tag in TagsOf(value.members, settings.show).value
      {
        TagIff(value.members, settings.show, tag);
        LowerIs(tag);
      }
      ExcludedTagIff(value.members, settings);
    }
  }

  lemma ExcludedTagIff(operation: map<string, Json>, settings: Settings)
    ensures HasExcludedTag(operation, settings) <==>
            exists tag, low :: HasTag(operation, settings.show, tag) && LowerCased(tag, low) && low in settings.tags
  {
    if HasExcludedTag(operation, settings) {
      var tag :| tag in TagsOf(operation, settings.show).value && Lower(tag) in settings.tags;
      TagIff(operation, settings.show, tag);
      LowerIs(tag);
      assert LowerCased(tag, Lower(tag));
    }
    if tag, low :| HasTag(operation, settings.show, tag) && LowerCased(tag, low) && low in settings.tags {
      TagIff(operation, settings.show, tag);
      LowerIs(tag);
    }
  }

  /** Filtering raises if and only if some operation's tags cannot be gone through. */
  lemma RaisesIff(document: map<string, Json>, settings: Settings)
    ensures !Readable(document, settings) <==>
      && "paths" in document && document["paths"].Object?
      && exists path, key :: HasMember(document["paths"].members, path, key) && IsOperation(key)
           && document["paths"].members[path].members[key].Object?
           && TagsRaise(document["paths"].members[path].members[key].members)
  {
    if "paths" in document && document["paths"].Object? {
      var paths := document["paths"].members;
      forall path, key | HasMember(paths, path, key) ensures IsOperation(key) <==> IsMethod(key) {
        OperationIff(key);
      }
      if !PathsReadable(paths, settings) {
        var path :| path in paths && paths[path].Object? && !ItemReadable(paths[path].members, settings);
        var key :| key in paths[path].members && IsMethod(key) && paths[path].members[key].Object?
                   && TagsOf(paths[path].members[key].members, settings.show).None?;
        assert HasMember(paths, path, key);
      }
    }
  }

  /** An operation is kept exactly when it was there and is not excluded; a path's other members stay
      with it; and a path goes exactly when it is left with no operation. */
  lemma OperationsKept(paths: map<string, Json>, settings: Settings, path: string, key: string)
    ensures var kept := KeptPaths(paths, settings);
            && (HasMember(kept, path, key) && IsOperation(key) <==>
                HasMember(paths, path, key) && IsOperation(key) && !Excluded(path, paths[path].members[key], settings))
            && (HasMember(kept, path, key) ==>
                HasMember(paths, path, key) && kept[path].members[key] == paths[path].members[key])
            && (HasMember(paths, path, key) && !IsOperation(key) ==> (HasMember(kept, path, key) <==> path in kept))
            && (path in paths && path !in kept <==>
                path in paths && paths[path].Object?
                && forall k | k in paths[path].members && IsOperation(k) :: Excluded(path, paths[path].members[k], settings))
            && (path in paths && !paths[path].Object? ==> path in kept && kept[path] == paths[path])
  {
    OperationIff(key);
    if path in paths && paths[path].Object? {
      var item := paths[path].members;
      forall k | k in item
        ensures IsOperation(k) <==> IsMethod(k)
        ensures IsDropped(path, k, item[k], settings) <==> IsOperation(k) && Excluded(path, item[k], settings)
      {
        OperationIff(k);
        DroppedIff(path, k, item[k], settings);
      }
      var operations := KeptOperations(path, item, settings);
      assert key in operations && IsMethod(key) ==> HasOperation(operations);
    }
  }

  /** Nothing but the paths and the schemas is touched. */
  lemma RestUntouched(document: map<string, Json>, settings: Settings, key: string)
    requires key != "paths"
    ensures key in Prepared(document, settings) <==> key in document
    ensures key in document && key != "components" ==> Prepared(document, settings)[key] == document[key]
    ensures key == "components" && key in document && document[key].Object? ==>
              && Prepared(document, settings)[key].Object?
              && forall part | part != "schemas" ::
                   && (part in Prepared(document, settings)[key].members <==> part in document[key].members)
                   && (part in document[key].members ==>
                       Prepared(document, settings)[key].members[part] == document[key].members[part])
  {
    assert HasSchemas(Filtered(document, settings)) == HasSchemas(document);
  }

  // ---- Once is enough

  lemma OperationsTwice(path: string, item: map<string, Json>, settings: Settings)
    ensures KeptOperations(path, KeptOperations(path, item, settings), settings) == KeptOperations(path, item, settings)
  {
  }

  lemma PathsTwice(paths: map<string, Json>, settings: Settings)
    ensures KeptPaths(KeptPaths(paths, settings), settings) == KeptPaths(paths, settings)
    ensures PathsReadable(paths, settings) ==> PathsReadable(KeptPaths(paths, settings), settings)
  {
    var kept := KeptPaths(paths, settings);
    forall path | path in kept ensures KeptItem(path, kept[path], settings) == Some(kept[path]) {
      if paths[path].Object? {
        OperationsTwice(path, paths[path].members, settings);
      }
    }
  }

  lemma {:induction false} ChainKept(schemas: map<string, Json>, roots: set<string>, chain: seq<string>)
    requires Chain(schemas, roots, chain)
    ensures Chain(KeptSchemas(schemas, roots), roots, chain)
  {
    forall i: nat | i + 1 < |chain| ensures Step(KeptSchemas(schemas, roots), chain[i], chain[i + 1]) {
      var prefix := chain[..i + 1];
      assert Chain(schemas, roots, prefix) && prefix[|prefix| - 1] == chain[i];
      assert Step(schemas, chain[i], chain[i + 1]);
    }
  }

  lemma SchemasTwice(schemas: map<string, Json>, roots: set<string>)
    ensures KeptSchemas(KeptSchemas(schemas, roots), roots) == KeptSchemas(schemas, roots)
  {
    var kept := KeptSchemas(schemas, roots);
    forall name | name in kept ensures Reachable(kept, roots, name) {
      var chain :| Chain(schemas, roots, chain) && chain[|chain| - 1] == name;
      ChainKept(schemas, roots, chain);
    }
  }

  lemma FilteredTwice(document: map<string, Json>, settings: Settings)
    ensures Filtered(Filtered(document, settings), settings) == Filtered(document, settings)
    ensures Readable(document, settings) ==> Readable(Filtered(document, settings), settings)
  {
    if "paths" in document && document["paths"].Object? {
      PathsTwice(document["paths"].members, settings);
    }
  }

  lemma SetSchemasAgain(document: map<string, Json>)
    requires HasSchemas(document)
    ensures SetSchemas(document, SchemasOf(document)) == document
  {
    var components := document["components"].members;
    assert components["schemas" := components["schemas"]] == components;
    assert document["components" := document["components"]] == document;
  }

  lemma RetainedTwice(document: map<string, Json>)
    ensures Retained(Retained(document)) == Retained(document)
    ensures "paths" in Retained(document) <==> "paths" in document
    ensures PathsOf(Retained(document)) == PathsOf(document)
  {
    if HasSchemas(document) {
      var schemas, roots := SchemasOf(document), Refs(PathsOf(document));
      SchemasTwice(schemas, roots);
      var kept := Retained(document);
      assert SchemasOf(kept) == KeptSchemas(schemas, roots);
      SetSchemasAgain(kept);
    }
  }

  /** Preparing a prepared document never raises and changes nothing. */
  lemma PreparedTwice(document: map<string, Json>, settings: Settings)
    requires Readable(document, settings)
    ensures Readable(Prepared(document, settings), settings)
    ensures Prepared(Prepared(document, settings), settings) == Prepared(document, settings)
  {
    var filtered := Filtered(document, settings);
    FilteredTwice(document, settings);
    RetainedTwice(filtered);
    if settings.prune {
      var kept := Retained(filtered);
      StaysFiltered(filtered, kept, settings);
    }
  }

  /** Being filtered depends on the paths alone. */
  lemma StaysFiltered(a: map<string, Json>, b: map<string, Json>, settings: Settings)
    requires Filtered(a, settings) == a && Readable(a, settings)
    requires ("paths" in b <==> "paths" in a) && PathsOf(b) == PathsOf(a)
    ensures Filtered(b, settings) == b && Readable(b, settings)
  {
    if "paths" in b && b["paths"].Object? {
      assert a["paths"] == b["paths"];
      assert Filtered(a, settings)["paths"] == a["paths"];
    }
  }

  // ---- References that go below a schema

  lemma {:induction false} LastSegmentAfter(head: string, rest: string)
    requires head != [] && head[|head| - 1] == '/'
    ensures LastSegment(head + rest) == LastSegment(rest)
    decreases |head|
  {
    var ref := head + rest;
    assert ref[|head| - 1] == '/';
    var n := IndexOf(ref, '/');
    assert ref[n + 1..] == head[n + 1..] + rest;
    if n + 1 < |head| {
      LastSegmentAfter(head[n + 1..], rest);
    } else {
      assert head[n + 1..] + rest == rest;
    }
  }

  lemma {:induction false} LastSegmentShorter(ref: string)
    ensures '/' !in LastSegment(ref)
    decreases |ref|
  {
    if '/' in ref {
      LastSegmentShorter(ref[IndexOf(ref, '/') + 1..]);
    }
  }

  // ---- What is a reference, and where

  /** One step into a value: by a member's key or by an element's place. */
  datatype Move = Member(key: string) | Element(index: nat)

  /** What stands where the way leads. */
  function At(value: Json, way: seq<Move>): Option<Json>
    decreases |way|
  {
    if way == [] then Some(value)
    else
      match way[0]
      case Member(key) =>
        if value.Object? && key in value.members then At(value.members[key], way[1..]) else None
      case Element(index) =>
        if value.List? && index < |value.items| then At(value.items[index], way[1..]) else None
  }

  /** The text begins like a reference to a schema and ends, behind its last slash, in the name. */
  predicate EndsIn(text: string, name: string) {
    "#/components/schemas/" <= text && IsBehindLastSlash(text, name)
  }

  predicate IsBehindLastSlash(text: string, name: string) {
    '/' !in name && |name| < |text| && text[|text| - |name| - 1] == '/' && text[|text| - |name|..] == name
  }

  predicate IsRefTo(value: Json, name: string) {
    value.Object? && "$ref" in value.members && value.members["$ref"].Text? && EndsIn(value.members["$ref"].s, name)
  }

  ghost predicate RefersAt(value: Json, way: seq<Move>, name: string) {
    At(value, way).Some? && IsRefTo(At(value, way).value, name)
  }

  lemma {:induction false} LastSegmentEnds(ref: string)
    requires '/' in ref
    ensures var name := LastSegment(ref);
            |name| < |ref| && ref[|ref| - |name| - 1] == '/' && ref[|ref| - |name|..] == name
    decreases |ref|
  {
    var n := IndexOf(ref, '/');
    var rest := ref[n + 1..];
    assert LastSegment(ref) == LastSegment(rest) && |rest| == |ref| - (n + 1);
    if '/' in rest {
      LastSegmentEnds(rest);
      EndsLater(ref, n + 1, LastSegment(rest));
    } else {
      assert LastSegment(rest) == rest;
    }
  }

  lemma EndsLater(ref: string, n: nat, name: string)
    requires n <= |ref| && |name| < |ref[n..]|
    ensures ref[|ref| - |name| - 1] == ref[n..][|ref[n..]| - |name| - 1]
    ensures ref[|ref| - |name|..] == ref[n..][|ref[n..]| - |name|..]
  {
  }

  lemma LastSegmentIff(text: string, name: string)
    requires '/' in text
    ensures LastSegment(text) == name <==> IsBehindLastSlash(text, name)
  {
    LastSegmentEnds(text);
    LastSegmentShorter(text);
    if IsBehindLastSlash(text, name) {
      var head := text[..|text| - |name|];
      assert text == head + name;
      LastSegmentAfter(head, name);
    }
  }

  lemma OwnRefIff(members: map<string, Json>, name: string)
    ensures name in OwnRef(members) <==> IsRefTo(Object(members), name)
  {
    if "$ref" in members && members["$ref"].Text? && SCHEMAS <= members["$ref"].s {
      var text := members["$ref"].s;
      assert text[|SCHEMAS| - 1] == SCHEMAS[|SCHEMAS| - 1] == '/';
      LastSegmentIff(text, name);
    }
  }

  lemma {:induction false} RefsFound(value: Json, name: string) returns (way: seq<Move>)
    requires name in Refs(value)
    ensures RefersAt(value, way, name)
    decreases value
  {
    match value
    case Object(members) =>
      if name in OwnRef(members) {
        OwnRefIff(members, name);
        way := [];
      } else {
        var key :| key in members && name in Refs(members[key]);
        var rest := RefsFound(members[key], name);
        way := [Member(key)] + rest;
        assert way[1..] == rest;
      }
    case List(items) =>
      var i: nat :| i < |items| && name in Refs(items[i]);
      var rest := RefsFound(items[i], name);
      way := [Element(i)] + rest;
      assert way[1..] == rest;
  }

  lemma {:induction false} FoundRefs(value: Json, way: seq<Move>, name: string)
    requires RefersAt(value, way, name)
    ensures name in Refs(value)
    decreases |way|
  {
    if way == [] {
      OwnRefIff(value.members, name);
    } else if value.Object? {
      FoundRefs(value.members[way[0].key], way[1..], name);
    } else {
      FoundRefs(value.items[way[0].index], way[1..], name);
    }
  }

  /** A name is collected if and only if somewhere in the value, at any depth of objects and lists, stands a reference
      to a schema that ends in it. */
  lemma RefsIff(value: Json, name: string)
    ensures name in Refs(value) <==> exists way :: RefersAt(value, way, name)
  {
    if name in Refs(value) {
      var way := RefsFound(value, name);
    }
    forall way | RefersAt(value, way, name) ensures name in Refs(value) {
      FoundRefs(value, way, name);
    }
  }

  /** A reference is taken for the name it gives if and only if the name has no slash: one to a part of
      a schema is taken for the name of the part. */
  lemma NamesDirectReferencesOnly(name: string)
    ensures OwnRef(map["$ref" := Text(SCHEMAS + name)]) == {name} <==> '/' !in name
  {
    LastSegmentAfter(SCHEMAS, name);
    LastSegmentShorter(name);
    assert (SCHEMAS + name)[..|SCHEMAS|] == SCHEMAS;
  }

  // A component's name has no character that a pointer escapes, so what a reference points into is the segment after
  // `#/components/schemas/`, whatever comes below.

  function FirstSegment(ref: string): string {
    ref[..IndexOf(ref, '/')]
  }

  function OwnTarget(members: map<string, Json>): set<string> {
    if "$ref" in members && members["$ref"].Text? && SCHEMAS <= members["$ref"].s
    then {FirstSegment(members["$ref"].s[|SCHEMAS|..])} else {}
  }

  /** The schemas a value points into, at any depth. */
  function Targets(value: Json): set<string> {
    match value
    case Object(members) => OwnTarget(members) + set key, name | key in members && name in Targets(members[key]) :: name
    case List(items) => set i: nat, name | i < |items| && name in Targets(items[i]) :: name
    case _ => {}
  }

  /** The schemas the value points into are among those it is taken to refer to. */
  predicate NamesTargets(value: Json) {
    Targets(value) <= Refs(value)
  }

  ghost predicate TargetsKept(schemas: map<string, Json>, kept: map<string, Json>, part: Json) {
    forall name | name in Targets(part) && name in schemas :: name in kept
  }

  /** No part that is kept points into a schema that is dropped. */
  ghost predicate KeepsTargets(schemas: map<string, Json>, paths: Json) {
    var kept := KeptSchemas(schemas, Refs(paths));
    TargetsKept(schemas, kept, paths) && forall name | name in kept :: TargetsKept(schemas, kept, schemas[name])
  }

  lemma NamedTargetsKept(schemas: map<string, Json>, paths: Json)
    requires NamesTargets(paths) && forall name | name in schemas :: NamesTargets(schemas[name])
    ensures KeepsTargets(schemas, paths)
  {
    var roots := Refs(paths);
    forall name | name in Targets(paths) && name in schemas ensures name in KeptSchemas(schemas, roots) {
      ReachRoot(schemas, roots, name);
    }
    forall name | name in KeptSchemas(schemas, roots) ensures TargetsKept(schemas, KeptSchemas(schemas, roots), schemas[name]) {
      NamedByKept(schemas, roots, name);
    }
  }

  lemma NamedByKept(schemas: map<string, Json>, roots: set<string>, a: string)
    requires a in KeptSchemas(schemas, roots) && NamesTargets(schemas[a])
    ensures TargetsKept(schemas, KeptSchemas(schemas, roots), schemas[a])
  {
    forall b | b in Targets(schemas[a]) && b in schemas ensures b in KeptSchemas(schemas, roots) {
      ReachStep(schemas, roots, a, b);
    }
  }

  /** A schema without references leads nowhere. */
  lemma LeafDropped(name: string, roots: set<string>)
    requires name !in roots
    ensures name !in KeptSchemas(map[name := Null], roots)
  {
    KeptIsLeastComplete(map[name := Null], roots, {});
  }

  lemma UnnamedDropped(paths: Json, name: string)
    requires name in Targets(paths) && name !in Refs(paths)
    ensures !KeepsTargets(map[name := Null], paths)
  {
    LeafDropped(name, Refs(paths));
  }

  /** Whatever the schemas, as long as they name what they point into themselves, no kept part points into a dropped
      one if and only if the paths name every schema they point into. */
  lemma PointedIntoKeptIff(paths: Json)
    ensures (forall schemas | (forall name | name in schemas :: NamesTargets(schemas[name])) :: KeepsTargets(schemas, paths))
            <==> NamesTargets(paths)
  {
    if NamesTargets(paths) {
      forall schemas: map<string, Json> | forall name | name in schemas :: NamesTargets(schemas[name])
        ensures KeepsTargets(schemas, paths)
      {
        NamedTargetsKept(schemas, paths);
      }
    } else {
      var name :| name in Targets(paths) && name !in Refs(paths);
      UnnamedDropped(paths, name);
      assert NamesTargets(Null);
    }
  }

  function RefTo(text: string): Json {
    Object(map["$ref" := Text(text)])
  }

  /** A document with one operation, which refers to the text, and one schema. */
  function OneRefDocument(path: string, key: string, text: string, schema: string): map<string, Json> {
    map["paths" := Object(map[path := Object(map[key := RefTo(text)])]),
        "components" := Object(map["schemas" := Object(map[schema := Null])])]
  }

  lemma FirstSegmentOf(schema: string, below: string)
    requires '/' !in schema
    ensures FirstSegment(schema + "/" + below) == schema
  {
    var text := schema + "/" + below;
    assert text[|schema|] == '/';
    assert forall i | 0 <= i < |schema| :: text[i] == schema[i] && schema[i] in schema;
    assert text[..|schema|] == schema;
  }

  lemma TextReads(text: string, rest: string)
    requires text == SCHEMAS + rest
    ensures Targets(RefTo(text)) == {FirstSegment(rest)} && Refs(RefTo(text)) == {LastSegment(text)}
  {
    var members := map["$ref" := Text(text)];
    assert text[..|SCHEMAS|] == SCHEMAS && text[|SCHEMAS|..] == rest;
    assert OwnTarget(members) == {FirstSegment(rest)} && OwnRef(members) == {LastSegment(text)};
    assert forall key | key in members :: Refs(members[key]) == {} && Targets(members[key]) == {};
  }

  lemma BelowReads(schema: string, below: string)
    requires '/' !in schema
    ensures Targets(RefTo(SCHEMAS + schema + "/" + below)) == {schema}
    ensures Refs(RefTo(SCHEMAS + schema + "/" + below)) == {LastSegment(below)}
  {
    var text, rest := SCHEMAS + schema + "/" + below, schema + "/" + below;
    assert text == SCHEMAS + rest;
    TextReads(text, rest);
    FirstSegmentOf(schema, below);
    LastSegmentAfter(SCHEMAS + schema + "/", below);
  }

  lemma WrappedReads(key: string, value: Json)
    requires key != "$ref"
    ensures Refs(Object(map[key := value])) == Refs(value) && Targets(Object(map[key := value])) == Targets(value)
  {
    var members := map[key := value];
    assert OwnRef(members) == {} && OwnTarget(members) == {};
    assert key in members && members[key] == value;
  }

  lemma OneRefFiltered(path: string, key: string, text: string, schema: string, settings: Settings)
    requires IsMethod(key) && !HasExcludedPrefix(path, settings)
    ensures Filtered(OneRefDocument(path, key, text, schema), settings) == OneRefDocument(path, key, text, schema)
    ensures Readable(OneRefDocument(path, key, text, schema), settings)
  {
    var document := OneRefDocument(path, key, text, schema);
    var item := map[key := RefTo(text)];
    assert KeptOperations(path, item, settings) == item;
    assert KeptPaths(map[path := Object(item)], settings) == map[path := Object(item)];
  }

  /** Wherever an operation points below a schema to a part of another name, the schema it points into is dropped. */
  lemma PointedIntoIsDropped(path: string, key: string, schema: string, below: string, settings: Settings)
    requires '/' !in schema && LastSegment(below) != schema && path != "$ref" && key != "$ref"
    requires settings.prune && IsMethod(key) && !HasExcludedPrefix(path, settings)
    ensures var document := OneRefDocument(path, key, SCHEMAS + schema + "/" + below, schema);
            && schema in SchemasOf(document) && Readable(document, settings)
            && schema in Targets(PathsOf(Prepared(document, settings)))
            && schema !in SchemasOf(Prepared(document, settings))
  {
    var text := SCHEMAS + schema + "/" + below;
    BelowReads(schema, below);
    WrappedReads(key, RefTo(text));
    WrappedReads(path, Object(map[key := RefTo(text)]));
    OneRefFiltered(path, key, text, schema, settings);
    LeafDropped(schema, {LastSegment(below)});
    AfterPruning(OneRefDocument(path, key, text, schema), settings);
  }
}
