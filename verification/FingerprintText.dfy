/** A fingerprint's text says which files count, and no more. */
module FingerprintText {
  // With their modes and digests, and nothing else.

  import opened Options
  import opened Text
  import opened Sorting
  import opened Numbers
  import opened Fingerprints
  import opened FingerprintTheorems

  /** The shape of a SHA-256 in hex. */
  ghost predicate IsDigest(digest: string -> string) {
    forall s :: |digest(s)| == 64 && '\n' !in digest(s)
  }

  predicate PlainName(s: string) {
    '\n' !in s && '/' !in s
  }

  /** An entry with the digest in the place of the content: what the text says of a file. */
  function Record(e: Entry, digest: string -> string): Entry {
    e.(content := digest(e.content))
  }

  function Records(entries: seq<Entry>, digest: string -> string): seq<Entry> {
    seq(|entries|, i requires 0 <= i < |entries| => Record(entries[i], digest))
  }

  /** The record is that of a file at or below one of the inputs. */
  ghost predicate Counts(root: Node, inputs: seq<Path>, digest: string -> string, r: Entry) {
    exists input | input in inputs :: CountsUnder(root, input, digest, r)
  }

  ghost predicate CountsUnder(root: Node, input: Path, digest: string -> string, r: Entry) {
    && input <= r.path
    && exists content :: At(root, r.path) == Some(File(r.executable, content)) && r.content == digest(content)
  }

  // ---- The records are those of the files that count

  lemma {:induction false} AtThrough(node: Node, a: Path, b: Path)
    ensures At(node, a + b) == match At(node, a) { case None => None case Some(mid) => At(mid, b) }
    decreases |a|
  {
    if a == [] {
      assert a + b == b;
    } else if node.Dir? && a[0] in node.children {
      assert (a + b)[1..] == a[1..] + b;
      AtThrough(node.children[a[0]], a[1..], b);
    }
  }

  lemma {:induction false} ProperAt(listing: Listing, top: Path, node: Node, path: Path)
    requires Proper(listing, top, node) && At(node, path).Some?
    ensures Proper(listing, top + path, At(node, path).value)
    decreases |path|
  {
    if path == [] {
      assert top + path == top;
    } else {
      ProperAt(listing, top + [path[0]], node.children[path[0]], path[1..]);
      assert top + [path[0]] + path[1..] == top + path;
    }
  }

  lemma RecordOfMember(entries: seq<Entry>, digest: string -> string, r: Entry)
    ensures r in Records(entries, digest) <==> exists e :: e in entries && Record(e, digest) == r
  {
    var records := Records(entries, digest);
    if r in records {
      var i :| 0 <= i < |records| && records[i] == r;
      assert entries[i] in entries;
    }
    if e :| e in entries && Record(e, digest) == r {
      var i :| 0 <= i < |entries| && entries[i] == e;
      assert records[i] == r;
    }
  }

  lemma RecordsOfMore(a: seq<Entry>, b: seq<Entry>, digest: string -> string)
    ensures Records(a + b, digest) == Records(a, digest) + Records(b, digest)
  {
  }

  /** One input's records. */
  lemma InputRecords(root: Node, input: Path, listing: Listing, digest: string -> string)
    requires Proper(listing, [], root) && At(root, input).Some?
    requires FilesUnder(input, At(root, input).value, listing).Some?
    ensures var records := Records(FilesUnder(input, At(root, input).value, listing).value, digest);
            && Rising(records)
            && forall r :: r in records <==> CountsUnder(root, input, digest, r)
  {
    var node := At(root, input).value;
    assert [] + input == input;
    ProperAt(listing, [], root, input);
    FilesFound(input, node, listing);
    FoundInOrder(input, node, listing);
    var files := FilesUnder(input, node, listing).value;
    forall r ensures r in Records(files, digest) <==> CountsUnder(root, input, digest, r) {
      RecordOfMember(files, digest, r);
      RecordOfFile(root, input, node, digest, r);
    }
  }

  /** Looking from the root and looking from the input is the same. */
  lemma FileFromRoot(root: Node, input: Path, node: Node, e: Entry)
    requires At(root, input) == Some(node)
    ensures HasFile(node, input, e) <==> input <= e.path && At(root, e.path) == Some(File(e.executable, e.content))
  {
    if input <= e.path {
      assert e.path == input + e.path[|input|..];
      AtThrough(root, input, e.path[|input|..]);
    }
  }

  lemma RecordOfFile(root: Node, input: Path, node: Node, digest: string -> string, r: Entry)
    requires At(root, input) == Some(node)
    ensures (exists e :: HasFile(node, input, e) && Record(e, digest) == r) <==> CountsUnder(root, input, digest, r)
  {
    if e :| HasFile(node, input, e) && Record(e, digest) == r {
      FileFromRoot(root, input, node, e);
    }
    if CountsUnder(root, input, digest, r) {
      var content :| At(root, r.path) == Some(File(r.executable, content)) && r.content == digest(content);
      var e := Entry(r.executable, content, r.path);
      FileFromRoot(root, input, node, e);
      assert HasFile(node, input, e) && Record(e, digest) == r;
    }
  }

  lemma {:induction false} RecordsCount(root: Node, inputs: seq<Path>, listing: Listing, digest: string -> string)
    requires Proper(listing, [], root) && EntriesOf(root, inputs, listing).Some?
    ensures forall r :: r in Records(EntriesOf(root, inputs, listing).value, digest) <==> Counts(root, inputs, digest, r)
    decreases |inputs|
  {
    if inputs != [] {
      var first, rest := FilesUnder(inputs[0], At(root, inputs[0]).value, listing).value,
                         EntriesOf(root, inputs[1..], listing).value;
      InputRecords(root, inputs[0], listing, digest);
      RecordsCount(root, inputs[1..], listing, digest);
      RecordsOfMore(first, rest, digest);
      forall r ensures Counts(root, inputs, digest, r) <==>
                       CountsUnder(root, inputs[0], digest, r) || Counts(root, inputs[1..], digest, r) {
        assert inputs == [inputs[0]] + inputs[1..];
      }
    }
  }

  ghost predicate SameFiles(root: Node, other: Node, inputs: seq<Path>, digest: string -> string) {
    forall r :: Counts(root, inputs, digest, r) <==> Counts(other, inputs, digest, r)
  }

  lemma CountsAlike(root: Node, other: Node, inputs: seq<Path>, input: Path, digest: string -> string, r: Entry)
    requires SameFiles(root, other, inputs, digest) && input in inputs
    ensures CountsUnder(root, input, digest, r) <==> CountsUnder(other, input, digest, r)
  {
    assert Counts(root, inputs, digest, r) <==> Counts(other, inputs, digest, r);
  }

  lemma {:induction false} SameFilesSameRecords(root: Node, other: Node, all: seq<Path>, inputs: seq<Path>,
                                                one: Listing, two: Listing, digest: string -> string)
    requires Proper(one, [], root) && Proper(two, [], other) && SameFiles(root, other, all, digest)
    requires (forall input | input in inputs :: input in all)
    requires EntriesOf(root, inputs, one).Some? && EntriesOf(other, inputs, two).Some?
    ensures Records(EntriesOf(root, inputs, one).value, digest) == Records(EntriesOf(other, inputs, two).value, digest)
    decreases |inputs|
  {
    if inputs != [] {
      var input, rest := inputs[0], inputs[1..];
      assert input in inputs;
      InputRecords(root, input, one, digest);
      InputRecords(other, input, two, digest);
      var a, b := FilesUnder(input, At(root, input).value, one).value, FilesUnder(input, At(other, input).value, two).value;
      forall r ensures r in Records(a, digest) <==> r in Records(b, digest) {
        CountsAlike(root, other, all, input, digest, r);
      }
      RisingUnique(Records(a, digest), Records(b, digest));
      SameFilesSameRecords(root, other, all, rest, one, two, digest);
      RecordsOfMore(a, EntriesOf(root, rest, one).value, digest);
      RecordsOfMore(b, EntriesOf(other, rest, two).value, digest);
    }
  }

  // ---- The text says the records, and nothing else

  lemma {:induction false} SplitUndoesJoin(parts: seq<string>, c: char)
    requires parts != [] && forall p | p in parts :: c !in p
    ensures SplitOn(Join(parts, [c]), c) == parts
  {
    assert parts[0] in parts;
    if |parts| == 1 {
      SplitOnLast(parts[0], c);
    } else {
      SplitUndoesJoin(parts[1..], c);
      SplitOnStep(parts[0], Join(parts[1..], [c]), c);
      assert parts == [parts[0]] + parts[1..];
    }
  }

  lemma JoinInjective(a: seq<string>, b: seq<string>, c: char)
    requires a != [] && b != [] && (forall p | p in a :: c !in p) && (forall p | p in b :: c !in p)
    requires Join(a, [c]) == Join(b, [c])
    ensures a == b
  {
    SplitUndoesJoin(a, c);
    SplitUndoesJoin(b, c);
  }

  predicate PlainPath(path: Path) {
    path != [] && forall name | name in path :: PlainName(name)
  }

  predicate PlainEntries(entries: seq<Entry>) {
    forall e | e in entries :: PlainPath(e.path)
  }

  lemma {:induction false} JoinPlain(path: Path, separator: string)
    requires (forall name | name in path :: '\n' !in name) && '\n' !in separator
    ensures '\n' !in Join(path, separator)
  {
    if |path| == 1 {
      assert path[0] in path;
    } else if path != [] {
      assert path[0] in path;
      JoinPlain(path[1..], separator);
    }
  }

  lemma {:induction false} FileLinesPlain(entries: seq<Entry>, digest: string -> string)
    requires IsDigest(digest) && PlainEntries(entries)
    ensures |FileLines(entries, digest)| == |entries|
    ensures forall line | line in FileLines(entries, digest) :: '\n' !in line
  {
    if entries != [] {
      assert entries[0] in entries;
      JoinPlain(entries[0].path, "/");
      FileLinesPlain(entries[1..], digest);
    }
  }

  function LineOf(mode: char, sum: string, path: string): string {
    "file " + [mode] + " " + sum + " " + path
  }

  lemma LineParts(mode: char, sum: string, path: string)
    requires |sum| == 64
    ensures var line := LineOf(mode, sum, path); |line| >= 72 && line[5] == mode && line[7..71] == sum && line[72..] == path
  {
  }

  lemma FileLineInjective(a: Entry, b: Entry, digest: string -> string)
    requires IsDigest(digest) && PlainPath(a.path) && PlainPath(b.path) && FileLine(a, digest) == FileLine(b, digest)
    ensures Record(a, digest) == Record(b, digest)
  {
    LineParts(if a.executable then 'x' else '-', digest(a.content), Join(a.path, "/"));
    LineParts(if b.executable then 'x' else '-', digest(b.content), Join(b.path, "/"));
    assert FileLine(a, digest) == LineOf(if a.executable then 'x' else '-', digest(a.content), Join(a.path, "/"));
    assert FileLine(b, digest) == LineOf(if b.executable then 'x' else '-', digest(b.content), Join(b.path, "/"));
    JoinInjective(a.path, b.path, '/');
  }

  lemma RecordsFirst(entries: seq<Entry>, digest: string -> string)
    requires entries != []
    ensures Records(entries, digest) == [Record(entries[0], digest)] + Records(entries[1..], digest)
  {
  }

  lemma FirstsAndRests<T>(x: T, xs: seq<T>, y: T, ys: seq<T>)
    ensures [x] + xs == [y] + ys <==> x == y && xs == ys
  {
    assert ([x] + xs)[0] == x && ([x] + xs)[1..] == xs && ([y] + ys)[0] == y && ([y] + ys)[1..] == ys;
  }

  lemma {:induction false} FileLinesIff(a: seq<Entry>, b: seq<Entry>, digest: string -> string)
    requires IsDigest(digest) && PlainEntries(a) && PlainEntries(b)
    ensures FileLines(a, digest) == FileLines(b, digest) <==> Records(a, digest) == Records(b, digest)
  {
    if a != [] && b != [] {
      assert a[0] in a && b[0] in b;
      FileLinesIff(a[1..], b[1..], digest);
      if FileLine(a[0], digest) == FileLine(b[0], digest) {
        FileLineInjective(a[0], b[0], digest);
      }
      RecordsFirst(a, digest);
      RecordsFirst(b, digest);
      FirstsAndRests(Record(a[0], digest), Records(a[1..], digest), Record(b[0], digest), Records(b[1..], digest));
      FirstsAndRests(FileLine(a[0], digest), FileLines(a[1..], digest), FileLine(b[0], digest), FileLines(b[1..], digest));
    }
  }

  lemma GuestLinesPlain(g: Guest, entries: seq<Entry>, digest: string -> string)
    requires IsDigest(digest) && PlainEntries(entries) && '\n' !in g.target && '\n' !in g.epoch
    ensures forall line | line in GuestLines(g, entries, digest) :: '\n' !in line
  {
    FileLinesPlain(entries, digest);
  }

  lemma GuestLinesIff(g: Guest, h: Guest, a: seq<Entry>, b: seq<Entry>, digest: string -> string)
    requires IsDigest(digest) && PlainEntries(a) && PlainEntries(b)
    ensures GuestLines(g, a, digest) == GuestLines(h, b, digest) <==>
            && g.target == h.target && g.epoch == h.epoch && digest(g.guestd) == digest(h.guestd)
            && Records(a, digest) == Records(b, digest)
  {
    FileLinesIff(a, b, digest);
    FileLinesPlain(a, digest);
    FileLinesPlain(b, digest);
    if GuestLines(g, a, digest) == GuestLines(h, b, digest) {
      Frame(GUEST_SCHEMA, "target " + g.target, "package-epoch " + g.epoch, FileLines(a, digest), "guestd " + digest(g.guestd),
            "target " + h.target, "package-epoch " + h.epoch, FileLines(b, digest), "guestd " + digest(h.guestd));
      SamePrefix("target ", g.target, h.target);
      SamePrefix("package-epoch ", g.epoch, h.epoch);
      SamePrefix("guestd ", digest(g.guestd), digest(h.guestd));
    }
  }

  lemma SamePrefix(prefix: string, a: string, b: string)
    requires prefix + a == prefix + b
    ensures a == b
  {
    assert a == (prefix + a)[|prefix|..] && b == (prefix + b)[|prefix|..];
  }

  lemma Frame(schema: string, t: string, e: string, files: seq<string>, d: string,
              t': string, e': string, files': seq<string>, d': string)
    requires [schema, t, e] + files + [d] == [schema, t', e'] + files' + [d']
    ensures t == t' && e == e' && files == files' && d == d'
  {
    var all, all' := [schema, t, e] + files + [d], [schema, t', e'] + files' + [d'];
    assert all[1] == t && all'[1] == t' && all[2] == e && all'[2] == e';
    assert all[|all| - 1] == d && all'[|all'| - 1] == d';
    assert all[3..|all| - 1] == files && all'[3..|all'| - 1] == files';
  }

  /** The files at or below the inputs can be found, and their paths have no newline in them. */
  ghost predicate PlainFiles(root: Node, inputs: seq<Path>, listing: Listing) {
    Proper(listing, [], root) && EntriesOf(root, inputs, listing).Some? && PlainEntries(EntriesOf(root, inputs, listing).value)
  }

  ghost predicate Sound(g: Guest, listing: Listing) {
    && PlainFiles(g.root, g.inputs, listing)
    && '\n' !in g.target && '\n' !in g.epoch && g.target != "" && g.epoch != ""
  }

  lemma GuestTextIff(g: Guest, h: Guest, one: Listing, two: Listing, digest: string -> string)
    requires IsDigest(digest) && Sound(g, one) && Sound(h, two)
    ensures GuestText(g, one, digest) == GuestText(h, two, digest) <==>
            && g.target == h.target && g.epoch == h.epoch && digest(g.guestd) == digest(h.guestd)
            && Records(EntriesOf(g.root, g.inputs, one).value, digest) == Records(EntriesOf(h.root, h.inputs, two).value, digest)
  {
    var a, b := EntriesOf(g.root, g.inputs, one).value, EntriesOf(h.root, h.inputs, two).value;
    GuestLinesPlain(g, a, digest);
    GuestLinesPlain(h, b, digest);
    GuestLinesIff(g, h, a, b, digest);
    if GuestText(g, one, digest) == GuestText(h, two, digest) {
      JoinInjective(GuestLines(g, a, digest), GuestLines(h, b, digest), '\n');
    }
  }

  /** Two builds of the same inputs have the same text if and only if they agree on the target, the
      epoch, the guest daemon's digest, and on which files are at or below the inputs, with which modes
      and digests: however each file system listed its directories. */
  lemma SameTextIffSameFiles(g: Guest, h: Guest, one: Listing, two: Listing, digest: string -> string)
    requires IsDigest(digest) && Sound(g, one) && Sound(h, two) && g.inputs == h.inputs
    ensures GuestText(g, one, digest) == GuestText(h, two, digest) <==>
            && g.target == h.target && g.epoch == h.epoch && digest(g.guestd) == digest(h.guestd)
            && SameFiles(g.root, h.root, g.inputs, digest)
  {
    GuestTextIff(g, h, one, two, digest);
    RecordsCount(g.root, g.inputs, one, digest);
    RecordsCount(h.root, h.inputs, two, digest);
    if SameFiles(g.root, h.root, g.inputs, digest) {
      SameFilesSameRecords(g.root, h.root, g.inputs, g.inputs, one, two, digest);
    }
  }

  // ---- When there is a text at all

  /** Something is at the input's place, and there are nothing but files and directories in it. */
  ghost predicate CanCount(root: Node, input: Path) {
    At(root, input).Some? && OnlyFiles(At(root, input).value)
  }

  lemma {:induction false} EntriesIff(root: Node, inputs: seq<Path>, listing: Listing)
    requires Proper(listing, [], root)
    ensures EntriesOf(root, inputs, listing).Some? <==> forall input | input in inputs :: CanCount(root, input)
    decreases |inputs|
  {
    if inputs != [] {
      var input := inputs[0];
      assert inputs == [input] + inputs[1..];
      EntriesIff(root, inputs[1..], listing);
      if At(root, input).Some? {
        assert [] + input == input;
        ProperAt(listing, [], root, input);
        FilesFound(input, At(root, input).value, listing);
      }
      assert (forall x | x in inputs :: CanCount(root, x)) <==>
             CanCount(root, input) && forall x | x in inputs[1..] :: CanCount(root, x);
    }
  }

  /** A guest has a text if and only if its target and epoch are given and every input is there, with no link in it. */
  lemma GuestTextGiven(g: Guest, listing: Listing, digest: string -> string)
    requires Proper(listing, [], g.root)
    ensures GuestText(g, listing, digest).Some? <==>
            g.target != "" && g.epoch != "" && forall input | input in g.inputs :: CanCount(g.root, input)
  {
    EntriesIff(g.root, g.inputs, listing);
  }

  /** An image has one if and only if its epoch is a month and every input is there, with no link in it. */
  lemma ImageTextGiven(epoch: string, root: Node, inputs: seq<Path>, listing: Listing, digest: string -> string)
    requires Proper(listing, [], root)
    ensures ImageText(epoch, root, inputs, listing, digest).Some? <==>
            (exists year, month :: YearMonth(epoch, year, month)) && forall input | input in inputs :: CanCount(root, input)
  {
    MonthIff(epoch);
    EntriesIff(root, inputs, listing);
  }

  // ---- The workspace image's text

  function TwoDigits(n: nat): string
    requires n < 100
  {
    [Digit(n / 10), Digit(n % 10)]
  }

  lemma ReadTwo(a: char, b: char)
    requires IsDigit(a) && IsDigit(b)
    ensures var n := 10 * DigitValue(a) + DigitValue(b); n < 100 && TwoDigits(n) == [a, b]
  {
    var x, y := DigitValue(a), DigitValue(b);
    assert (10 * x + y) / 10 == x && (10 * x + y) % 10 == y;
  }

  lemma MonthDigits(month: nat)
    requires month < 100
    ensures 1 <= month <= 12 <==>
            var m := TwoDigits(month); if m[0] == '0' then m[1] != '0' else m[0] == '1' && m[1] <= '2'
  {
  }

  /** A year of four digits and a month. */
  ghost predicate YearMonth(epoch: string, year: nat, month: nat) {
    && year < 10000 && 1 <= month <= 12
    && epoch == TwoDigits(year / 100) + TwoDigits(year % 100) + "-" + TwoDigits(month)
  }

  /** An epoch is accepted if and only if it is a year and a month. */
  lemma MonthIff(epoch: string)
    ensures IsMonth(epoch) <==> exists year, month :: YearMonth(epoch, year, month)
  {
    if IsMonth(epoch) {
      ReadTwo(epoch[0], epoch[1]);
      ReadTwo(epoch[2], epoch[3]);
      ReadTwo(epoch[5], epoch[6]);
      var century := 10 * DigitValue(epoch[0]) + DigitValue(epoch[1]);
      var rest, month := 10 * DigitValue(epoch[2]) + DigitValue(epoch[3]), 10 * DigitValue(epoch[5]) + DigitValue(epoch[6]);
      var year := 100 * century + rest;
      assert year / 100 == century && year % 100 == rest;
      MonthDigits(month);
      assert YearMonth(epoch, year, month);
    }
    forall year, month | YearMonth(epoch, year, month) ensures IsMonth(epoch) {
      MonthDigits(month);
    }
  }

  function ImageLines(epoch: string, entries: seq<Entry>, digest: string -> string): seq<string> {
    [IMAGE_SCHEMA, "package-epoch " + epoch] + FileLines(entries, digest)
  }

  lemma ImageLinesPlain(epoch: string, entries: seq<Entry>, digest: string -> string)
    requires IsDigest(digest) && PlainEntries(entries) && IsMonth(epoch)
    ensures forall line | line in ImageLines(epoch, entries, digest) :: '\n' !in line
  {
    FileLinesPlain(entries, digest);
    assert '\n' !in epoch by {
      forall i | 0 <= i < |epoch| ensures epoch[i] != '\n' {
      }
    }
  }

  lemma ImageLinesIff(epoch: string, epoch': string, a: seq<Entry>, b: seq<Entry>, digest: string -> string)
    requires IsDigest(digest) && PlainEntries(a) && PlainEntries(b)
    ensures ImageLines(epoch, a, digest) == ImageLines(epoch', b, digest) <==>
            epoch == epoch' && Records(a, digest) == Records(b, digest)
  {
    FileLinesIff(a, b, digest);
    var x, y := ImageLines(epoch, a, digest), ImageLines(epoch', b, digest);
    assert x[1] == "package-epoch " + epoch && y[1] == "package-epoch " + epoch';
    assert x[2..] == FileLines(a, digest) && y[2..] == FileLines(b, digest);
    if x == y {
      SamePrefix("package-epoch ", epoch, epoch');
    }
  }

  /** Two workspace images with one list of inputs have one text if and only if they agree on the month and
      on which files are at or below the inputs, with which modes and digests. */
  lemma SameImageTextIffSameFiles(epoch: string, epoch': string, root: Node, other: Node, inputs: seq<Path>,
                                  one: Listing, two: Listing, digest: string -> string)
    requires IsDigest(digest) && IsMonth(epoch) && IsMonth(epoch')
    requires PlainFiles(root, inputs, one) && PlainFiles(other, inputs, two)
    ensures ImageText(epoch, root, inputs, one, digest) == ImageText(epoch', other, inputs, two, digest) <==>
            epoch == epoch' && SameFiles(root, other, inputs, digest)
  {
    var a, b := EntriesOf(root, inputs, one).value, EntriesOf(other, inputs, two).value;
    ImageLinesPlain(epoch, a, digest);
    ImageLinesPlain(epoch', b, digest);
    ImageLinesIff(epoch, epoch', a, b, digest);
    if ImageText(epoch, root, inputs, one, digest) == ImageText(epoch', other, inputs, two, digest) {
      JoinInjective(ImageLines(epoch, a, digest), ImageLines(epoch', b, digest), '\n');
    }
    RecordsCount(root, inputs, one, digest);
    RecordsCount(other, inputs, two, digest);
    if SameFiles(root, other, inputs, digest) {
      SameFilesSameRecords(root, other, inputs, inputs, one, two, digest);
    }
  }

  // ---- Without plain names the text is ambiguous

  const EMPTY := File(false, "")

  function Outer(inner: Node): Node {
    Dir(map["d" := inner])
  }

  const PLAIN := Dir(map["a" := EMPTY, "b" := EMPTY])

  /** The name of a directory that passes for the end of one line and the start of another. */
  function Forged(digest: string -> string): string {
    "a\nfile - " + digest("") + " d"
  }

  function Forgery(name: string): Node {
    Dir(map[name := Dir(map["b" := EMPTY])])
  }

  function ListPlain(path: Path): seq<string> {
    if path == [] then ["d"] else ["a", "b"]
  }

  function ListForgery(name: string): Listing {
    (path: Path) => if path == [] then ["d"] else if |path| == 1 then [name] else ["b"]
  }

  lemma OneName(listing: Listing, path: Path, name: string, child: Node)
    requires listing(path) == [name] && Proper(listing, path + [name], child)
    ensures Proper(listing, path, Dir(map[name := child]))
    ensures FilesUnder(path, Dir(map[name := child]), listing) == FilesUnder(path + [name], child, listing)
  {
    var children := map[name := child];
    assert children.Keys == {name} && multiset([name]) == multiset({name});
    assert Sort([name], StringLe) == [name];
    OneFound(listing, path, name, child);
    assert FilesUnder(path, Dir(children), listing) == FilesIn(path, children, [name], listing);
  }

  lemma OneFound(listing: Listing, path: Path, name: string, child: Node)
    ensures FilesIn(path, map[name := child], [name], listing) == FilesUnder(path + [name], child, listing)
  {
    var found := FilesUnder(path + [name], child, listing);
    assert [name][1..] == [] && FilesIn(path, map[name := child], [], listing) == Some([]);
    assert found.Some? ==> found.value + [] == found.value;
  }

  lemma TwoNames(listing: Listing, path: Path, a: string, b: string)
    requires listing(path) == [a, b] && a != b && StringLe(a, b)
    ensures Proper(listing, path, Dir(map[a := EMPTY, b := EMPTY]))
    ensures FilesUnder(path, Dir(map[a := EMPTY, b := EMPTY]), listing) ==
            Some([Entry(false, "", path + [a]), Entry(false, "", path + [b])])
  {
    var children := map[a := EMPTY, b := EMPTY];
    assert children.Keys == {a, b} && multiset([a, b]) == multiset({a, b});
    assert [a, b][1..] == [b] && [b][1..] == [];
    assert Sort([b], StringLe) == [b];
    assert Sort([a, b], StringLe) == [a] + [b] == [a, b];
    var x, y := Entry(false, "", path + [a]), Entry(false, "", path + [b]);
    assert FilesIn(path, children, [], listing) == Some([]);
    assert FilesIn(path, children, [b], listing) == Some([y] + []);
    assert FilesIn(path, children, [a, b], listing) == Some([x] + ([y] + []));
    assert FilesUnder(path, Dir(children), listing) == FilesIn(path, children, [a, b], listing);
    assert [x] + ([y] + []) == [x, y];
    assert Proper(listing, path + [a], EMPTY) && Proper(listing, path + [b], EMPTY);
  }

  lemma PlainFound()
    ensures Proper(ListPlain, [], Outer(PLAIN))
    ensures FilesUnder(["d"], PLAIN, ListPlain) == Some([Entry(false, "", ["d", "a"]), Entry(false, "", ["d", "b"])])
  {
    assert "a"[0] == 'a' && "b"[0] == 'b';
    TwoNames(ListPlain, ["d"], "a", "b");
    assert [] + ["d"] == ["d"];
    OneName(ListPlain, [], "d", PLAIN);
    assert ["d"] + ["a"] == ["d", "a"] && ["d"] + ["b"] == ["d", "b"];
  }

  lemma ForgeryFound(name: string)
    ensures Proper(ListForgery(name), [], Outer(Forgery(name)))
    ensures FilesUnder(["d"], Forgery(name), ListForgery(name)) == Some([Entry(false, "", ["d", name, "b"])])
  {
    var listing := ListForgery(name);
    assert [] + ["d"] == ["d"] && ["d"] + [name] == ["d", name] && ["d", name] + ["b"] == ["d", name, "b"];
    OneName(listing, ["d", name], "b", EMPTY);
    OneName(listing, ["d"], name, Dir(map["b" := EMPTY]));
    OneName(listing, [], "d", Forgery(name));
  }

  lemma OneInput(inner: Node, listing: Listing, files: seq<Entry>)
    requires FilesUnder(["d"], inner, listing) == Some(files)
    ensures EntriesOf(Outer(inner), [["d"]], listing) == Some(files)
  {
    assert [["d"]][1..] == [] && ["d"][1..] == [];
    assert At(Outer(inner), ["d"]) == Some(inner);
    assert files + [] == files;
  }

  lemma Joined(first: string, rest: seq<string>, separator: string)
    requires rest != []
    ensures Join([first] + rest, separator) == first + separator + Join(rest, separator)
  {
    assert ([first] + rest)[1..] == rest;
  }

  /** Two lines or one line with a newline in it: joined, there is no difference. */
  lemma {:induction false} LinesMerge(before: seq<string>, x: string, y: string, d: string)
    ensures Join(before + ([x] + ([y] + [d])), "\n") == Join(before + ([x + "\n" + y] + [d]), "\n")
  {
    if before == [] {
      Joined(y, [d], "\n");
      Joined(x, [y] + [d], "\n");
      Joined(x + "\n" + y, [d], "\n");
      assert [] + ([x] + ([y] + [d])) == [x] + ([y] + [d]) && [] + ([x + "\n" + y] + [d]) == [x + "\n" + y] + [d];
      assert x + "\n" + (y + "\n" + d) == x + "\n" + y + "\n" + d;
    } else {
      var first, rest := before[0], before[1..];
      LinesMerge(rest, x, y, d);
      assert before + ([x] + ([y] + [d])) == [first] + (rest + ([x] + ([y] + [d])));
      assert before + ([x + "\n" + y] + [d]) == [first] + (rest + ([x + "\n" + y] + [d]));
      Joined(first, rest + ([x] + ([y] + [d])), "\n");
      Joined(first, rest + ([x + "\n" + y] + [d]), "\n");
    }
  }

  lemma ForgedLine(digest: string -> string)
    ensures FileLine(Entry(false, "", ["d", Forged(digest), "b"]), digest) ==
            FileLine(Entry(false, "", ["d", "a"]), digest) + "\n" + FileLine(Entry(false, "", ["d", "b"]), digest)
  {
    var name := Forged(digest);
    assert ["d", name, "b"] == ["d"] + ([name] + ["b"]) && ["d", "a"] == ["d"] + ["a"] && ["d", "b"] == ["d"] + ["b"];
    Joined(name, ["b"], "/");
    Joined("d", [name] + ["b"], "/");
    Joined("d", ["a"], "/");
    Joined("d", ["b"], "/");
    ForgedPieces(digest(""));
  }

  lemma ForgedPieces(sum: string)
    ensures "file " + "-" + " " + sum + " " + ("d" + "/" + (("a\nfile - " + sum + " d") + "/" + "b")) ==
            ("file " + "-" + " " + sum + " " + ("d" + "/" + "a")) + "\n" + ("file " + "-" + " " + sum + " " + ("d" + "/" + "b"))
  {
    assert "a\nfile - " == "a" + "\n" + "file " + "-" + " ";
  }

  lemma OnlyPlainHasA(digest: string -> string)
    ensures !SameFiles(Outer(PLAIN), Outer(Forgery(Forged(digest))), [["d"]], digest)
  {
    var r := Entry(false, digest(""), ["d", "a"]);
    assert ["d", "a"][1..] == ["a"] && ["a"][1..] == [];
    assert At(Outer(PLAIN), ["d", "a"]) == Some(EMPTY);
    assert CountsUnder(Outer(PLAIN), ["d"], digest, r);
    assert |Forged(digest)| > 1;
    assert At(Outer(Forgery(Forged(digest))), ["d", "a"]) == None;
    assert Counts(Outer(PLAIN), [["d"]], digest, r) && !Counts(Outer(Forgery(Forged(digest))), [["d"]], digest, r);
  }

  lemma BothFound(name: string)
    ensures Proper(ListPlain, [], Outer(PLAIN)) && Proper(ListForgery(name), [], Outer(Forgery(name)))
    ensures EntriesOf(Outer(PLAIN), [["d"]], ListPlain) ==
            Some([Entry(false, "", ["d", "a"]), Entry(false, "", ["d", "b"])])
    ensures EntriesOf(Outer(Forgery(name)), [["d"]], ListForgery(name)) == Some([Entry(false, "", ["d", name, "b"])])
  {
    PlainFound();
    ForgeryFound(name);
    OneInput(PLAIN, ListPlain, [Entry(false, "", ["d", "a"]), Entry(false, "", ["d", "b"])]);
    OneInput(Forgery(name), ListForgery(name), [Entry(false, "", ["d", name, "b"])]);
  }

  /** With a newline in a name, two trees that differ have one text. */
  lemma NewlineIsAmbiguous(digest: string -> string)
    ensures var name := Forged(digest);
            var a, b := Outer(PLAIN), Outer(Forgery(name));
            var g, h := Guest("t", "e", a, [["d"]], ""), Guest("t", "e", b, [["d"]], "");
            && Proper(ListPlain, [], a) && Proper(ListForgery(name), [], b)
            && !SameFiles(a, b, [["d"]], digest)
            && GuestText(g, ListPlain, digest).Some?
            && GuestText(g, ListPlain, digest) == GuestText(h, ListForgery(name), digest)
  {
    var name := Forged(digest);
    var x, y, z := Entry(false, "", ["d", "a"]), Entry(false, "", ["d", "b"]), Entry(false, "", ["d", name, "b"]);
    BothFound(name);
    OnlyPlainHasA(digest);
    ForgedLine(digest);
    var g, h := Guest("t", "e", Outer(PLAIN), [["d"]], ""), Guest("t", "e", Outer(Forgery(name)), [["d"]], "");
    TextOf(g, ListPlain, [x, y], digest);
    TextOf(h, ListForgery(name), [z], digest);
    ForgedText(g, h, x, y, z, digest);
  }

  lemma TextOf(g: Guest, listing: Listing, entries: seq<Entry>, digest: string -> string)
    requires g.target != "" && g.epoch != "" && EntriesOf(g.root, g.inputs, listing) == Some(entries)
    ensures GuestText(g, listing, digest) == Some(Join(GuestLines(g, entries, digest), "\n"))
  {
  }

  lemma ForgedText(g: Guest, h: Guest, x: Entry, y: Entry, z: Entry, digest: string -> string)
    requires g.target == h.target && g.epoch == h.epoch && g.guestd == h.guestd
    requires FileLine(z, digest) == FileLine(x, digest) + "\n" + FileLine(y, digest)
    ensures Join(GuestLines(g, [x, y], digest), "\n") == Join(GuestLines(h, [z], digest), "\n")
  {
    var t, e, d := "target " + g.target, "package-epoch " + g.epoch, "guestd " + digest(g.guestd);
    var p, q := FileLine(x, digest), FileLine(y, digest);
    assert [x, y][1..] == [y] && [y][1..] == [] && [z][1..] == [];
    assert FileLines([y], digest) == [q] && FileLines([x, y], digest) == [p, q];
    assert GuestLines(g, [x, y], digest) == [GUEST_SCHEMA, t, e] + ([p] + ([q] + [d]));
    assert GuestLines(h, [z], digest) == [GUEST_SCHEMA, t, e] + ([p + "\n" + q] + [d]);
    LinesMerge([GUEST_SCHEMA, t, e], p, q, d);
  }
}
