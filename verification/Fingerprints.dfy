/** The text whose digest stands for everything that decides a runtime archive's content. */
module Fingerprints {
  import opened Options
  import opened Text
  import opened JsonValues
  import opened Sorting

  datatype Node = File(executable: bool, content: string) | Dir(children: map<string, Node>) | Link | Special

  type Path = seq<string>

  /** A file that counts, and where it is. */
  datatype Entry = Entry(executable: bool, content: string, path: Path)

  /** The order in which the file system lists each directory. */
  type Listing = Path -> seq<string>

  /** The listing gives each directory's names once each, in some order. */
  ghost predicate Proper(listing: Listing, path: Path, node: Node)
    decreases node
  {
    node.Dir? ==>
      && multiset(listing(path)) == multiset(node.children.Keys)
      && forall name | name in node.children :: Proper(listing, path + [name], node.children[name])
  }

  /** `_files_under`; no answer is its error. */
  function FilesUnder(path: Path, node: Node, listing: Listing): Option<seq<Entry>>
    decreases node, 1
  {
    match node
    case File(executable, content) => Some([Entry(executable, content, path)])
    case Dir(children) => FilesIn(path, children, Sort(listing(path), StringLe), listing)
    case _ => None
  }

  function FilesIn(path: Path, children: map<string, Node>, names: seq<string>, listing: Listing): Option<seq<Entry>>
    decreases Dir(children), 0, |names|
  {
    if names == [] then Some([])
    else if names[0] !in children then None
    else
      match FilesUnder(path + [names[0]], children[names[0]], listing)
      case None => None
      case Some(first) =>
        match FilesIn(path, children, names[1..], listing)
        case None => None
        case Some(rest) => Some(first + rest)
  }

  /** What is at a path below a node. */
  function At(node: Node, path: Path): Option<Node>
    decreases |path|
  {
    if path == [] then Some(node)
    else if node.Dir? && path[0] in node.children then At(node.children[path[0]], path[1..])
    else None
  }

  function EntriesOf(root: Node, inputs: seq<Path>, listing: Listing): Option<seq<Entry>>
    decreases |inputs|
  {
    if inputs == [] then Some([])
    else
      match At(root, inputs[0])
      case None => None
      case Some(node) =>
        match FilesUnder(inputs[0], node, listing)
        case None => None
        case Some(first) =>
          match EntriesOf(root, inputs[1..], listing)
          case None => None
          case Some(rest) => Some(first + rest)
  }

  function FileLine(e: Entry, digest: string -> string): string {
    "file " + (if e.executable then "x" else "-") + " " + digest(e.content) + " " + Join(e.path, "/")
  }

  function FileLines(entries: seq<Entry>, digest: string -> string): seq<string> {
    if entries == [] then [] else [FileLine(entries[0], digest)] + FileLines(entries[1..], digest)
  }

  const GUEST_SCHEMA := "lemma-guest-runtime-fingerprint/1"
  const IMAGE_SCHEMA := "lemma-workspace-image-fingerprint/1"

  /** What a guest fingerprint is computed from. */
  datatype Guest = Guest(target: string, epoch: string, root: Node, inputs: seq<Path>, guestd: string)

  function GuestLines(g: Guest, entries: seq<Entry>, digest: string -> string): seq<string> {
    [GUEST_SCHEMA, "target " + g.target, "package-epoch " + g.epoch] + FileLines(entries, digest)
    + ["guestd " + digest(g.guestd)]
  }

  /** The text that is hashed; no answer is an error. */
  function GuestText(g: Guest, listing: Listing, digest: string -> string): Option<string> {
    if g.target == "" || g.epoch == "" then None
    else
      match EntriesOf(g.root, g.inputs, listing)
      case None => None
      case Some(entries) => Some(Join(GuestLines(g, entries, digest), "\n"))
  }

  predicate IsMonth(epoch: string) {
    && |epoch| == 7 && epoch[4] == '-'
    && (forall i | 0 <= i < 7 && i != 4 :: '0' <= epoch[i] <= '9')
    && (if epoch[5] == '0' then epoch[6] != '0' else epoch[5] == '1' && epoch[6] <= '2')
  }

  function ImageText(epoch: string, root: Node, inputs: seq<Path>, listing: Listing, digest: string -> string): Option<string> {
    if !IsMonth(epoch) then None
    else
      match EntriesOf(root, inputs, listing)
      case None => None
      case Some(entries) => Some(Join([IMAGE_SCHEMA, "package-epoch " + epoch] + FileLines(entries, digest), "\n"))
  }

  // ---- The loops

  lemma {:induction false} LinesOfMore(a: seq<Entry>, b: seq<Entry>, digest: string -> string)
    ensures FileLines(a + b, digest) == FileLines(a, digest) + FileLines(b, digest)
  {
    if a == [] {
      assert a + b == b;
    } else {
      assert (a + b)[1..] == a[1..] + b;
      LinesOfMore(a[1..], b, digest);
    }
  }

  method InputLines(root: Node, inputs: seq<Path>, listing: Listing, digest: string -> string)
    returns (lines: Option<seq<string>>)
    ensures match EntriesOf(root, inputs, listing)
            case None => lines == None
            case Some(entries) => lines == Some(FileLines(entries, digest))
  {
    var built: seq<string> := [];
    ghost var done: seq<Entry> := [];
    assert inputs[0..] == inputs;
    AfterLaws([], [], EntriesOf(root, inputs, listing));
    for i := 0 to |inputs|
      invariant built == FileLines(done, digest)
      invariant EntriesOf(root, inputs, listing) == After(done, EntriesOf(root, inputs[i..], listing))
    {
      assert inputs[i..][1..] == inputs[i + 1..];
      var node := At(root, inputs[i]);
      if node.None? {
        return None;
      }
      var files := FilesUnder(inputs[i], node.value, listing);
      if files.None? {
        return None;
      }
      built := AddLines(built, files.value, digest);
      LinesOfMore(done, files.value, digest);
      AfterLaws(done, files.value, EntriesOf(root, inputs[i + 1..], listing));
      done := done + files.value;
    }
    AfterLaws(done, [], None);
    lines := Some(built);
  }

  /** Entries already found, and those still to be found. */
  function After(done: seq<Entry>, rest: Option<seq<Entry>>): Option<seq<Entry>> {
    if rest.None? then None else Some(done + rest.value)
  }

  lemma AfterLaws(a: seq<Entry>, b: seq<Entry>, rest: Option<seq<Entry>>)
    ensures After([], rest) == rest && After(a, Some([])) == Some(a)
    ensures After(a + b, rest) == After(a, After(b, rest))
  {
    assert a + [] == a;
    if rest.Some? {
      assert [] + rest.value == rest.value;
      assert a + b + rest.value == a + (b + rest.value);
    }
  }

  method AddLines(lines: seq<string>, files: seq<Entry>, digest: string -> string) returns (longer: seq<string>)
    ensures longer == lines + FileLines(files, digest)
  {
    longer := lines;
    for i := 0 to |files|
      invariant longer + FileLines(files[i..], digest) == lines + FileLines(files, digest)
    {
      assert files[i..][1..] == files[i + 1..];
      longer := longer + [FileLine(files[i], digest)];
    }
  }

  method GuestFingerprint(g: Guest, listing: Listing, digest: string -> string) returns (r: Option<string>)
    ensures match GuestText(g, listing, digest)
            case None => r == None
            case Some(text) => r == Some(digest(text))
  {
    if g.target == "" || g.epoch == "" {
      return None;
    }
    var lines := [GUEST_SCHEMA, "target " + g.target, "package-epoch " + g.epoch];
    var files := InputLines(g.root, g.inputs, listing, digest);
    if files.None? {
      return None;
    }
    lines := lines + files.value;
    lines := lines + ["guestd " + digest(g.guestd)];
    r := Some(digest(Join(lines, "\n")));
  }

  method WorkspaceImageFingerprint(epoch: string, root: Node, inputs: seq<Path>, listing: Listing, digest: string -> string)
    returns (r: Option<string>)
    ensures match ImageText(epoch, root, inputs, listing, digest)
            case None => r == None
            case Some(text) => r == Some(digest(text))
  {
    if epoch == "" || !IsMonth(epoch) {
      return None;
    }
    var lines := [IMAGE_SCHEMA, "package-epoch " + epoch];
    var files := InputLines(root, inputs, listing, digest);
    if files.None? {
      return None;
    }
    r := Some(digest(Join(lines + files.value, "\n")));
  }

  // ---- Reusing a published archive

  /** `value.get(key)` where the value must be a dictionary. */
  function Dig(value: Json, key: string): Json {
    if value.Object? then Get(value.members, key) else Null
  }

  /** The manifest says it built this target's guest with this fingerprint, and how its archive is. */
  predicate Offers(manifest: map<string, Json>, target: string, fingerprint: string) {
    var entry := Dig(Get(manifest, "guest_runtimes"), target);
    && Dig(Dig(Get(manifest, "input_fingerprints"), "guest_runtimes"), target) == JsonValues.Text(fingerprint)
    && Dig(entry, "sha256").Text? && |Dig(entry, "sha256").s| == 64 && IsHex(Dig(entry, "sha256").s)
    && Dig(entry, "size").Int? && Dig(entry, "size").n > 0
  }

  datatype Release = Release(tag: string, manifest: map<string, Json>)

  datatype Reusable = Reusable(tag: string, sha256: string, size: int)

  function Offered(release: Release, target: string): Reusable
    requires exists fingerprint :: Offers(release.manifest, target, fingerprint)
  {
    var entry := Dig(Get(release.manifest, "guest_runtimes"), target);
    Reusable(release.tag, Dig(entry, "sha256").s, Dig(entry, "size").n)
  }

  /** The release is the newest one that offers the guest. */
  predicate IsFirstOffer(releases: seq<Release>, i: nat, target: string, fingerprint: string) {
    && i < |releases| && Offers(releases[i].manifest, target, fingerprint)
    && forall j: nat | j < i :: !Offers(releases[j].manifest, target, fingerprint)
  }

  /** The first release, newest first, that offers the guest. */
  method ReusableGuest(releases: seq<Release>, target: string, fingerprint: string) returns (r: Option<Reusable>)
    ensures r.None? <==> forall i: nat | i < |releases| :: !Offers(releases[i].manifest, target, fingerprint)
    ensures forall i: nat | IsFirstOffer(releases, i, target, fingerprint) :: r == Some(Offered(releases[i], target))
    ensures r.Some? ==> exists i: nat :: IsFirstOffer(releases, i, target, fingerprint)
  {
    for k := 0 to |releases|
      invariant forall j: nat | j < k :: !Offers(releases[j].manifest, target, fingerprint)
    {
      var manifest := releases[k].manifest;
      var fingerprints := Get(manifest, "input_fingerprints");
      if !fingerprints.Object? {
        continue;
      }
      var guests := Get(fingerprints.members, "guest_runtimes");
      if !guests.Object? || Get(guests.members, target) != JsonValues.Text(fingerprint) {
        continue;
      }
      var entry := Dig(Get(manifest, "guest_runtimes"), target);
      if !entry.Object? {
        continue;
      }
      var sha256, size := Get(entry.members, "sha256"), Get(entry.members, "size");
      if sha256.Text? && |sha256.s| == 64 && IsHex(sha256.s) && size.Int? && size.n > 0 {
        assert IsFirstOffer(releases, k, target, fingerprint);
        return Some(Reusable(releases[k].tag, sha256.s, size.n));
      }
    }
    r := None;
  }

  /** What a release's archive downloads as is what its manifest says. */
  predicate Fits(fetched: Option<string>, offered: Reusable, digest: string -> string) {
    fetched.Some? && |fetched.value| == offered.size && digest(fetched.value) == offered.sha256
  }

  /** The place the archive is put at. */
  class Output {
    var archive: Option<string>

    constructor ()
      ensures archive == None
    {
      archive := None;
    }

    /** `reuse_published_guest`: `download` gives what a release's archive downloads as, if it does. The
        newest release that offers the guest is used if its archive is as it says, and no other one. */
    method Reuse(releases: seq<Release>, target: string, fingerprint: string, digest: string -> string,
                 download: string -> Option<string>)
      returns (tag: Option<string>)
      modifies this
      ensures forall i: nat | IsFirstOffer(releases, i, target, fingerprint) ::
        if Fits(download(releases[i].tag), Offered(releases[i], target), digest)
        then tag == Some(releases[i].tag) && archive == download(releases[i].tag)
        else tag == None && archive == old(archive)
      ensures (forall i: nat :: !IsFirstOffer(releases, i, target, fingerprint)) ==> tag == None && archive == old(archive)
    {
      var found := ReusableGuest(releases, target, fingerprint);
      if found.None? {
        return None;
      }
      var fetched := download(found.value.tag);
      if fetched.None? {
        return None;
      }
      if |fetched.value| != found.value.size || digest(fetched.value) != found.value.sha256 {
        return None;
      }
      archive := fetched;
      tag := Some(found.value.tag);
    }
  }
}
