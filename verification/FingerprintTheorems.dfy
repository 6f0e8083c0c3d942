/** The files a fingerprint counts. */
module FingerprintTheorems {
  // All of them, in an order that is not the file system's.

  import opened Options
  import opened Sorting
  import opened Text
  import opened JsonValues
  import opened Fingerprints

  // ---- Where the files found are

  /** Nothing below is a link or a special file, at which the search raises. */
  predicate OnlyFiles(node: Node) {
    match node
    case File(_, _) => true
    case Dir(children) => forall name | name in children :: OnlyFiles(children[name])
    case _ => false
  }

  /** A path at or below `top` where a file is. */
  ghost predicate HasFile(node: Node, top: Path, e: Entry) {
    top <= e.path && At(node, e.path[|top|..]) == Some(File(e.executable, e.content))
  }

  ghost predicate Below(node: Node, path: Path, names: seq<string>, e: Entry) {
    && |path| < |e.path| && path <= e.path && e.path[|path|] in names
    && At(node, e.path[|path|..]) == Some(File(e.executable, e.content))
  }

  lemma TwiceInMultiset(s: seq<string>, i: nat, j: nat)
    requires i < j < |s| && s[i] == s[j]
    ensures multiset(s)[s[i]] >= 2
  {
    assert s == s[..j] + [s[j]] + s[j + 1..];
    assert s[..j][i] == s[i];
    assert s[i] in multiset(s[..j]);
  }

  /** A directory's names, sorted: each once, in strictly rising order. */
  lemma NamesRise(order: seq<string>, keys: set<string>)
    requires multiset(order) == multiset(keys)
    ensures var names := Sort(order, StringLe);
            && (forall name :: name in names <==> name in keys)
            && forall i, j | 0 <= i < j < |names| :: names[i] != names[j] && StringLe(names[i], names[j])
  {
    StringOrder();
    SortCorrect(order, StringLe);
    var names := Sort(order, StringLe);
    forall name ensures name in names <==> name in keys {
      assert name in order <==> name in multiset(order);
    }
    forall i, j | 0 <= i < j < |names| ensures names[i] != names[j] {
      if names[i] == names[j] {
        TwiceInMultiset(names, i, j);
      }
    }
  }

  lemma StepDown(node: Node, path: Path, e: Entry)
    requires node.Dir? && |path| < |e.path| && path <= e.path && e.path[|path|] in node.children
    ensures var name := e.path[|path|];
            HasFile(node.children[name], path + [name], e) <==>
            At(node, e.path[|path|..]) == Some(File(e.executable, e.content))
  {
    var name := e.path[|path|];
    assert path + [name] <= e.path;
    assert e.path[|path|..][1..] == e.path[|path + [name]|..];
  }

  /** The search raises exactly where something is not a file or directory, and otherwise finds every
      file below once with its mode and content, and nothing else. */
  lemma {:induction false} FilesFound(path: Path, node: Node, listing: Listing)
    requires Proper(listing, path, node)
    ensures FilesUnder(path, node, listing).Some? <==> OnlyFiles(node)
    ensures FilesUnder(path, node, listing).Some? ==>
              forall e :: e in FilesUnder(path, node, listing).value <==> HasFile(node, path, e)
    decreases node, 1
  {
    match node
    case File(executable, content) =>
      forall e ensures e in FilesUnder(path, node, listing).value <==> HasFile(node, path, e) {
        if HasFile(node, path, e) {
          assert e.path == path + e.path[|path|..];
          assert e == Entry(executable, content, path);
        }
      }
    case Dir(children) =>
      var names := Sort(listing(path), StringLe);
      NamesRise(listing(path), children.Keys);
      FilesFoundIn(path, children, names, listing);
      if FilesUnder(path, node, listing).Some? {
        forall e ensures Below(node, path, names, e) <==> HasFile(node, path, e) {
          assert path == e.path ==> e.path[|path|..] == [];
        }
      }
    case _ =>
  }

  lemma {:induction false} FilesFoundIn(path: Path, children: map<string, Node>, names: seq<string>, listing: Listing)
    requires Proper(listing, path, Dir(children)) && forall name | name in names :: name in children
    ensures FilesIn(path, children, names, listing).Some? <==> forall name | name in names :: OnlyFiles(children[name])
    ensures FilesIn(path, children, names, listing).Some? ==>
              forall e :: e in FilesIn(path, children, names, listing).value <==> Below(Dir(children), path, names, e)
    decreases Dir(children), 0, |names|
  {
    if names != [] {
      var name, rest := names[0], names[1..];
      assert name in names;
      assert forall n :: n in names <==> n == name || n in rest;
      FilesFound(path + [name], children[name], listing);
      FilesFoundIn(path, children, rest, listing);
      if FilesIn(path, children, names, listing).Some? {
        forall e ensures Below(Dir(children), path, [name], e) <==> HasFile(children[name], path + [name], e) {
          if Below(Dir(children), path, [name], e) || HasFile(children[name], path + [name], e) {
            assert HasFile(children[name], path + [name], e) ==> e.path[|path|] == (path + [name])[|path|];
            assert HasFile(children[name], path + [name], e) ==> path <= e.path by {
              assert HasFile(children[name], path + [name], e) ==> path + [name] <= e.path;
              assert path <= path + [name];
            }
            StepDown(Dir(children), path, e);
          }
        }
        FirstAndRest(path, children, name, rest, names);
      }
    }
  }

  lemma FirstAndRest(path: Path, children: map<string, Node>, name: string, rest: seq<string>, names: seq<string>)
    requires names == [name] + rest
    ensures forall e :: Below(Dir(children), path, names, e) <==>
              Below(Dir(children), path, [name], e) || Below(Dir(children), path, rest, e)
  {
  }

  // ---- In what order they are found

  predicate PathLess(a: Path, b: Path) {
    && b != []
    && (a == [] || (a[0] != b[0] && StringLe(a[0], b[0])) || (a[0] == b[0] && PathLess(a[1..], b[1..])))
  }

  lemma {:induction false} PathLessStrict(a: Path, b: Path)
    ensures !(PathLess(a, b) && PathLess(b, a))
    decreases |a|
  {
    if a != [] && b != [] {
      StringOrder();
      PathLessStrict(a[1..], b[1..]);
    }
  }

  lemma {:induction false} LessAtFork(path: Path, m: string, n: string, a: Path, b: Path)
    requires m != n && StringLe(m, n) && path + [m] <= a && path + [n] <= b
    ensures PathLess(a, b)
    decreases |path|
  {
    assert a[|path|] == (path + [m])[|path|] && b[|path|] == (path + [n])[|path|];
    if path != [] {
      assert a[0] == (path + [m])[0] && b[0] == (path + [n])[0];
      assert path[1..] + [m] == (path + [m])[1..] && path[1..] + [n] == (path + [n])[1..];
      LessAtFork(path[1..], m, n, a[1..], b[1..]);
    }
  }

  ghost predicate Rising(entries: seq<Entry>) {
    forall i, j | 0 <= i < j < |entries| :: PathLess(entries[i].path, entries[j].path)
  }

  lemma {:induction false} FoundInOrder(path: Path, node: Node, listing: Listing)
    requires Proper(listing, path, node) && FilesUnder(path, node, listing).Some?
    ensures Rising(FilesUnder(path, node, listing).value)
    decreases node, 1
  {
    if node.Dir? {
      NamesRise(listing(path), node.children.Keys);
      FoundInOrderIn(path, node.children, Sort(listing(path), StringLe), listing);
    }
  }

  lemma {:induction false} FoundInOrderIn(path: Path, children: map<string, Node>, names: seq<string>, listing: Listing)
    requires Proper(listing, path, Dir(children)) && (forall name | name in names :: name in children)
    requires forall i, j | 0 <= i < j < |names| :: names[i] != names[j] && StringLe(names[i], names[j])
    requires FilesIn(path, children, names, listing).Some?
    ensures Rising(FilesIn(path, children, names, listing).value)
    decreases Dir(children), 0, |names|
  {
    if names != [] {
      var name, rest := names[0], names[1..];
      assert name in names;
      FoundInOrder(path + [name], children[name], listing);
      FoundInOrderIn(path, children, rest, listing);
      FilesFound(path + [name], children[name], listing);
      FilesFoundIn(path, children, rest, listing);
      var first, others := FilesUnder(path + [name], children[name], listing).value,
                           FilesIn(path, children, rest, listing).value;
      forall a, b | a in first && b in others ensures PathLess(a.path, b.path) {
        var k :| 0 <= k < |rest| && rest[k] == b.path[|path|];
        assert names[0] != names[k + 1] && StringLe(names[0], names[k + 1]);
        assert path + [rest[k]] <= b.path;
        LessAtFork(path, name, rest[k], a.path, b.path);
      }
      JoinedRise(first, others);
    }
  }

  lemma JoinedRise(a: seq<Entry>, b: seq<Entry>)
    requires Rising(a) && Rising(b) && forall x, y | x in a && y in b :: PathLess(x.path, y.path)
    ensures Rising(a + b)
  {
  }

  lemma {:induction false} RisingUnique(a: seq<Entry>, b: seq<Entry>)
    requires Rising(a) && Rising(b) && forall e :: e in a <==> e in b
    ensures a == b
  {
    if a == [] {
      assert forall i | 0 <= i < |b| :: b[i] in b;
    } else {
      assert a[0] in a && a[0] in b;
      assert b[0] in b && b[0] in a;
      PathLessStrict(a[0].path, b[0].path);
      assert a[0] == b[0];
      TailsAgree(a, b);
      RisingUnique(a[1..], b[1..]);
      assert a == [a[0]] + a[1..] && b == [b[0]] + b[1..];
    }
  }

  lemma TailsAgree(a: seq<Entry>, b: seq<Entry>)
    requires Rising(a) && Rising(b) && (forall e :: e in a <==> e in b) && a != [] && b != [] && a[0] == b[0]
    ensures forall e :: e in a[1..] <==> e in b[1..]
  {
    PathLessStrict(a[0].path, a[0].path);
    forall e ensures e in a[1..] <==> e in b[1..] {
      assert a == [a[0]] + a[1..] && b == [b[0]] + b[1..];
      assert e in a <==> e == a[0] || e in a[1..];
      assert e in b <==> e == b[0] || e in b[1..];
      assert a[0] !in a[1..] && b[0] !in b[1..];
    }
  }

  /** However the file system lists directories, the same files are found in the same order. */
  lemma OrderDoesNotMatter(path: Path, node: Node, one: Listing, other: Listing)
    requires Proper(one, path, node) && Proper(other, path, node)
    ensures FilesUnder(path, node, one) == FilesUnder(path, node, other)
  {
    FilesFound(path, node, one);
    FilesFound(path, node, other);
    if OnlyFiles(node) {
      FoundInOrder(path, node, one);
      FoundInOrder(path, node, other);
      RisingUnique(FilesUnder(path, node, one).value, FilesUnder(path, node, other).value);
    }
  }

  // ---- Published archives

  /** What stands below the keys, one after the other. */
  function Under(members: map<string, Json>, keys: seq<string>): Option<Json>
    requires keys != []
    decreases |keys|
  {
    if keys[0] !in members then None
    else if |keys| == 1 then Some(members[keys[0]])
    else if members[keys[0]].Object? then Under(members[keys[0]].members, keys[1..])
    else None
  }

  /** The manifest states the fingerprint for the target's guest, and the digest and size of its archive. */
  predicate Publishes(manifest: map<string, Json>, target: string, fingerprint: string, sha256: string, size: int) {
    && Under(manifest, ["input_fingerprints", "guest_runtimes", target]) == Some(JsonValues.Text(fingerprint))
    && Under(manifest, ["guest_runtimes", target, "sha256"]) == Some(JsonValues.Text(sha256))
    && Under(manifest, ["guest_runtimes", target, "size"]) == Some(Int(size))
    && |sha256| == 64 && (forall c | c in sha256 :: c in "0123456789abcdef") && size >= 1
  }

  lemma UnderOne(members: map<string, Json>, key: string)
    ensures Under(members, [key]) == if key in members then Some(members[key]) else None
  {
  }

  lemma UnderThree(members: map<string, Json>, a: string, b: string, c: string)
    ensures Under(members, [a, b, c]) == None ==> Dig(Dig(Get(members, a), b), c) == Null
    ensures Under(members, [a, b, c]).Some? ==> Dig(Dig(Get(members, a), b), c) == Under(members, [a, b, c]).value
  {
    assert [a, b, c][1..] == [b, c] && [b, c][1..] == [c];
    if a in members && members[a].Object? {
      assert Under(members, [a, b, c]) == Under(members[a].members, [b, c]);
      if b in members[a].members && members[a].members[b].Object? {
        UnderOne(members[a].members[b].members, c);
      }
    }
  }

  lemma HexIff(s: string)
    ensures IsHex(s) <==> forall c | c in s :: c in "0123456789abcdef"
  {
  }

  /** A release offers the guest if and only if its manifest publishes it, as what is stated. */
  lemma OffersIff(release: Release, target: string, fingerprint: string, sha256: string, size: int)
    ensures Offers(release.manifest, target, fingerprint) && Offered(release, target) == Reusable(release.tag, sha256, size)
            <==> Publishes(release.manifest, target, fingerprint, sha256, size)
  {
    UnderThree(release.manifest, "input_fingerprints", "guest_runtimes", target);
    UnderThree(release.manifest, "guest_runtimes", target, "sha256");
    UnderThree(release.manifest, "guest_runtimes", target, "size");
    HexIff(sha256);
  }
}
