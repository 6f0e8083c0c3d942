/** Assembling the nightly feed. */
module NightlyFeed {
  // And every history of feeds published one after another.

  import opened Options
  import opened Text
  import opened JsonValues
  import opened NightlyVersions

  /** What one build staged: the fragments as they parse, the signature files and the payloads, by name. */
  datatype Staged = Staged(fragments: map<string, Json>, signatures: map<string, string>, payloads: map<string, string>)

  /** The repository, SHA-256 as a hex digest, and Python's equality of JSON values. */
  datatype Setup = Setup(repository: string, digest: string -> string, same: (Json, Json) -> bool)

  const MAC := "darwin-aarch64"
  const WINDOWS := "windows-x86_64"
  const TARGETS := [MAC, WINDOWS]

  function Suffix(target: string): string {
    if target == MAC then "aarch64.app.tar.gz" else "x64-setup.exe"
  }

  /** `object_field`, where no answer is its error. */
  function ObjectField(members: map<string, Json>, key: string): Option<map<string, Json>> {
    if Get(members, key).Object? then Some(Get(members, key).members) else None
  }

  predicate IsPositive(value: Json) {
    value.Int? && value.n > 0
  }

  function PayloadName(version: string, target: string): string {
    "Lemma_" + version + "_" + Suffix(target)
  }

  function Url(setup: Setup, name: string): string {
    "https://github.com/" + setup.repository + "/releases/download/desktop-nightly/" + name
  }

  /** The payload is there and is the one the fragment's entry names, signs and digests. */
  predicate Genuine(fragment: map<string, Json>, entry: map<string, Json>, name: string, staged: Staged, setup: Setup) {
    && name in staged.signatures && name in staged.payloads
    && Trim(staged.signatures[name]) != "" && staged.payloads[name] != ""
    && Get(entry, "signature") == Text(Trim(staged.signatures[name]))
    && Get(entry, "url") == Text(Url(setup, name))
    && Get(fragment, "sha256") == Text(setup.digest(staged.payloads[name]))
  }

  datatype Platform = Platform(entry: map<string, Json>, metadata: map<string, Json>)

  /** One platform's part of the feed; no answer is an error. */
  function Checked(fragment: map<string, Json>, target: string, version: string, staged: Staged, setup: Setup): Option<Platform> {
    if Get(fragment, "platform") != Text(target) then None
    else
      match ObjectField(fragment, "entry")
      case None => None
      case Some(entry) =>
        if !Genuine(fragment, entry, PayloadName(version, target), staged, setup) then None
        else
          match ObjectField(fragment, "lemma")
          case None => None
          case Some(metadata) =>
            if IsPositive(Get(metadata, "postgres_major")) && IsPositive(Get(metadata, "runtime_download_bytes"))
            then Some(Platform(entry, metadata)) else None
  }

  /** `read_object` of every target's fragment. */
  function Fragment(staged: Staged, target: string): Option<map<string, Json>> {
    ObjectField(staged.fragments, target)
  }

  /** The one version of all fragments. */
  function CommonVersion(staged: Staged): Option<string> {
    match Fragment(staged, MAC)
    case None => None
    case Some(mac) =>
      match Fragment(staged, WINDOWS)
      case None => None
      case Some(windows) =>
        if Get(mac, "version").Text? && Get(windows, "version") == Get(mac, "version")
        then Some(Get(mac, "version").s) else None
  }

  function CheckedTarget(staged: Staged, target: string, version: string, setup: Setup): Option<Platform> {
    match Fragment(staged, target)
    case None => None
    case Some(fragment) => Checked(fragment, target, version, staged, setup)
  }

  predicate AllChecked(staged: Staged, version: string, setup: Setup, n: nat)
    requires n <= |TARGETS|
  {
    forall i: nat | i < n :: CheckedTarget(staged, TARGETS[i], version, setup).Some?
  }

  function Entries(staged: Staged, version: string, setup: Setup, n: nat): map<string, Json>
    requires n <= |TARGETS| && AllChecked(staged, version, setup, n)
  {
    map target | target in TARGETS[..n] && CheckedTarget(staged, target, version, setup).Some? ::
      Object(CheckedTarget(staged, target, version, setup).value.entry)
  }

  function Metadata(staged: Staged, version: string, setup: Setup, n: nat): map<string, Json>
    requires n <= |TARGETS| && AllChecked(staged, version, setup, n)
  {
    map target | target in TARGETS[..n] && CheckedTarget(staged, target, version, setup).Some? ::
      Object(CheckedTarget(staged, target, version, setup).value.metadata)
  }

  function FeedOf(version: string, now: string, legacy: map<string, Json>, platforms: map<string, Json>,
                  metadata: map<string, Json>): map<string, Json> {
    map[
      "version" := Text(version),
      "pub_date" := Text(now),
      "notes" := Text("Lemma Desktop nightly " + version),
      "platforms" := Object(platforms),
      "lemma" := Object(legacy["platforms" := Object(metadata)])
    ]
  }

  /** The top-level block older clients read: the Mac's. */
  function Legacy(staged: Staged): map<string, Json> {
    match Fragment(staged, MAC)
    case None => map[]
    case Some(mac) => if ObjectField(mac, "lemma").Some? then ObjectField(mac, "lemma").value else map[]
  }

  /** The feed a build would make if there were none. */
  function Fresh(staged: Staged, now: string, setup: Setup): Option<map<string, Json>> {
    match CommonVersion(staged)
    case None => None
    case Some(version) =>
      if VersionOrder(version).None? || !AllChecked(staged, version, setup, |TARGETS|) then None
      else
        Some(FeedOf(version, now, Legacy(staged), Entries(staged, version, setup, |TARGETS|),
                    Metadata(staged, version, setup, |TARGETS|)))
  }

  /** The order of a feed's version, when it has one. */
  function FeedOrder(feed: map<string, Json>): Option<Order> {
    if Get(feed, "version").Text? then VersionOrder(Get(feed, "version").s) else None
  }

  /** What a new feed may replace the current one with: itself if newer, the current one if it is the
      same build, and nothing otherwise. */
  function Replacement(previous: map<string, Json>, feed: map<string, Json>, order: Order, setup: Setup): Option<map<string, Json>> {
    match FeedOrder(previous)
    case None => None
    case Some(oldOrder) =>
      if Less(order, oldOrder) then None
      else if oldOrder != order then Some(feed)
      else if setup.same(Get(previous, "platforms"), Get(feed, "platforms"))
        && setup.same(Get(previous, "lemma"), Get(feed, "lemma")) then Some(previous)
      else None
  }

  /** `assemble`; no answer is an error. The current feed is none on the first publish. */
  function Assembled(staged: Staged, now: string, current: Option<Json>, setup: Setup): Option<map<string, Json>> {
    match Fresh(staged, now, setup)
    case None => None
    case Some(feed) =>
      if current.None? then Some(feed)
      else if !current.value.Object? then None
      else Replacement(current.value.members, feed, FeedOrder(feed).value, setup)
  }

  // ---- The loop over the platforms

  lemma OneTargetMore(i: nat)
    requires i < |TARGETS|
    ensures forall target :: target in TARGETS[..i + 1] <==> target in TARGETS[..i] || target == TARGETS[i]
  {
    assert TARGETS[..i + 1] == TARGETS[..i] + [TARGETS[i]];
  }

  lemma OneEntryMore(staged: Staged, version: string, setup: Setup, i: nat)
    requires i < |TARGETS| && AllChecked(staged, version, setup, i) && AllChecked(staged, version, setup, i + 1)
    requires CheckedTarget(staged, TARGETS[i], version, setup).Some?
    ensures Entries(staged, version, setup, i + 1) ==
            Entries(staged, version, setup, i)[TARGETS[i] := Object(CheckedTarget(staged, TARGETS[i], version, setup).value.entry)]
  {
    OneTargetMore(i);
  }

  lemma OneBlockMore(staged: Staged, version: string, setup: Setup, i: nat)
    requires i < |TARGETS| && AllChecked(staged, version, setup, i) && AllChecked(staged, version, setup, i + 1)
    requires CheckedTarget(staged, TARGETS[i], version, setup).Some?
    ensures Metadata(staged, version, setup, i + 1) ==
            Metadata(staged, version, setup, i)[TARGETS[i] := Object(CheckedTarget(staged, TARGETS[i], version, setup).value.metadata)]
  {
    OneTargetMore(i);
  }

  lemma OneMore(staged: Staged, version: string, setup: Setup, i: nat)
    requires i < |TARGETS| && AllChecked(staged, version, setup, i)
    requires CheckedTarget(staged, TARGETS[i], version, setup).Some?
    ensures AllChecked(staged, version, setup, i + 1)
    ensures var platform := CheckedTarget(staged, TARGETS[i], version, setup).value;
            && Entries(staged, version, setup, i + 1) ==
               Entries(staged, version, setup, i)[TARGETS[i] := Object(platform.entry)]
            && Metadata(staged, version, setup, i + 1) ==
               Metadata(staged, version, setup, i)[TARGETS[i] := Object(platform.metadata)]
  {
    OneTargetMore(i);
    OneEntryMore(staged, version, setup, i);
    OneBlockMore(staged, version, setup, i);
  }

  /** One platform after the other, the first failing one stops. */
  method Collect(staged: Staged, version: string, setup: Setup)
    returns (ok: bool, platforms: map<string, Json>, metadata: map<string, Json>)
    ensures ok == AllChecked(staged, version, setup, |TARGETS|)
    ensures ok ==> platforms == Entries(staged, version, setup, |TARGETS|)
    ensures ok ==> metadata == Metadata(staged, version, setup, |TARGETS|)
  {
    platforms, metadata := map[], map[];
    for i := 0 to |TARGETS|
      invariant AllChecked(staged, version, setup, i)
      invariant platforms == Entries(staged, version, setup, i)
      invariant metadata == Metadata(staged, version, setup, i)
    {
      var target := TARGETS[i];
      var platform := CheckedTarget(staged, target, version, setup);
      if platform.None? {
        return false, platforms, metadata;
      }
      OneMore(staged, version, setup, i);
      platforms := platforms[target := Object(platform.value.entry)];
      metadata := metadata[target := Object(platform.value.metadata)];
    }
    ok := true;
  }

  /** The part of `assemble` before it looks at the current feed. */
  method MakeFresh(staged: Staged, now: string, setup: Setup) returns (r: Option<map<string, Json>>)
    ensures r == Fresh(staged, now, setup)
  {
    var common := CommonVersion(staged);
    if common.None? || VersionOrder(common.value).None? {
      return None;
    }
    var ok, platforms, metadata := Collect(staged, common.value, setup);
    if !ok {
      return None;
    }
    r := Some(FeedOf(common.value, now, Legacy(staged), platforms, metadata));
  }

  method Assemble(staged: Staged, now: string, current: Option<Json>, setup: Setup) returns (r: Option<map<string, Json>>)
    ensures r == Assembled(staged, now, current, setup)
  {
    r := MakeFresh(staged, now, setup);
    if r.None? || current.None? {
      return;
    }
    FreshHasOrder(staged, now, setup);
    var feed, order := r.value, FeedOrder(r.value).value;
    if !current.value.Object? {
      return None;
    }
    var previous := current.value.members;
    var oldOrder := FeedOrder(previous);
    if oldOrder.None? || Less(order, oldOrder.value) {
      return None;
    }
    if oldOrder.value == order {
      if !setup.same(Get(previous, "platforms"), Get(feed, "platforms"))
         || !setup.same(Get(previous, "lemma"), Get(feed, "lemma")) {
        return None;
      }
      return Some(previous);
    }
  }

  // ---- Publishing again and again

  datatype Attempt = Attempt(staged: Staged, now: string)

  /** The feed after an attempt: a refused one leaves it alone. */
  function Publish(current: Option<Json>, attempt: Attempt, setup: Setup): Option<Json> {
    match Assembled(attempt.staged, attempt.now, current, setup)
    case None => current
    case Some(feed) => Some(Object(feed))
  }

  function PublishAll(current: Option<Json>, attempts: seq<Attempt>, setup: Setup): Option<Json>
    decreases |attempts|
  {
    if attempts == [] then current else PublishAll(Publish(current, attempts[0], setup), attempts[1..], setup)
  }

  function OrderOf(feed: Json): Option<Order> {
    if feed.Object? then FeedOrder(feed.members) else None
  }

  /** The later feed is the earlier one, or has a strictly later version. */
  predicate NotBehind(earlier: Json, later: Json) {
    || later == earlier
    || (OrderOf(earlier).Some? && OrderOf(later).Some? && Less(OrderOf(earlier).value, OrderOf(later).value))
  }

  lemma FreshHasOrder(staged: Staged, now: string, setup: Setup)
    requires Fresh(staged, now, setup).Some?
    ensures FeedOrder(Fresh(staged, now, setup).value) == VersionOrder(CommonVersion(staged).value)
    ensures VersionOrder(CommonVersion(staged).value).Some?
  {
  }

  /** The date is all that making the feed at another time changes. */
  lemma FreshAgain(staged: Staged, before: string, now: string, setup: Setup)
    requires Fresh(staged, before, setup).Some?
    ensures Fresh(staged, now, setup).Some?
    ensures Fresh(staged, now, setup).value == Fresh(staged, before, setup).value["pub_date" := Text(now)]
  {
    var version := CommonVersion(staged).value;
    FeedOfAgain(version, before, now, Legacy(staged), Entries(staged, version, setup, |TARGETS|),
                Metadata(staged, version, setup, |TARGETS|));
  }

  lemma FeedOfAgain(version: string, before: string, now: string, legacy: map<string, Json>,
                    platforms: map<string, Json>, metadata: map<string, Json>)
    ensures FeedOf(version, now, legacy, platforms, metadata) ==
            FeedOf(version, before, legacy, platforms, metadata)["pub_date" := Text(now)]
  {
  }

  lemma OnePublish(current: Json, attempt: Attempt, setup: Setup)
    ensures var next := Publish(Some(current), attempt, setup); next.Some? && NotBehind(current, next.value)
  {
    if Assembled(attempt.staged, attempt.now, Some(current), setup).Some? {
      FreshHasOrder(attempt.staged, attempt.now, setup);
      var order := FeedOrder(Fresh(attempt.staged, attempt.now, setup).value).value;
      LessIsTotalOrder(order, OrderOf(current).value, order);
    }
  }

  /** From any feed, whatever is published after it, by builds in any order and any number of times,
      leaves that feed or one with a strictly later version. */
  lemma {:induction false} NeverGoesBack(current: Json, attempts: seq<Attempt>, setup: Setup)
    ensures var end := PublishAll(Some(current), attempts, setup); end.Some? && NotBehind(current, end.value)
    decreases |attempts|
  {
    if attempts != [] {
      OnePublish(current, attempts[0], setup);
      var next := Publish(Some(current), attempts[0], setup).value;
      NeverGoesBack(next, attempts[1..], setup);
      var end := PublishAll(Some(current), attempts, setup).value;
      if next != current && end != next {
        LessIsTotalOrder(OrderOf(current).value, OrderOf(next).value, OrderOf(end).value);
      }
    }
  }

  lemma {:induction false} PublishedInTurn(current: Option<Json>, a: seq<Attempt>, b: seq<Attempt>, setup: Setup)
    ensures PublishAll(current, a + b, setup) == PublishAll(PublishAll(current, a, setup), b, setup)
    decreases |a|
  {
    if a == [] {
      assert a + b == b;
    } else {
      assert (a + b)[1..] == a[1..] + b;
      PublishedInTurn(Publish(current, a[0], setup), a[1..], b, setup);
    }
  }

  /** Over any history, from no feed or any feed: of two feeds the later is the same as the earlier or
      has a later version in the sense of Semantic Versioning, so feeds of one version are identical. */
  lemma HistoryMovesForward(current: Option<Json>, attempts: seq<Attempt>, i: nat, j: nat, setup: Setup)
    requires i <= j <= |attempts| && PublishAll(current, attempts[..i], setup).Some?
    ensures PublishAll(current, attempts[..j], setup).Some?
    ensures var earlier := PublishAll(current, attempts[..i], setup).value;
            var later := PublishAll(current, attempts[..j], setup).value;
            || later == earlier
            || (&& earlier.Object? && Get(earlier.members, "version").Text?
                && later.Object? && Get(later.members, "version").Text?
                && Precedes(Get(earlier.members, "version").s, Get(later.members, "version").s)
                && !Precedes(Get(later.members, "version").s, Get(earlier.members, "version").s)
                && Get(earlier.members, "version") != Get(later.members, "version"))
  {
    assert attempts[..j] == attempts[..i] + attempts[i..j];
    PublishedInTurn(current, attempts[..i], attempts[i..j], setup);
    var earlier := PublishAll(current, attempts[..i], setup).value;
    NeverGoesBack(earlier, attempts[i..j], setup);
    var later := PublishAll(current, attempts[..j], setup).value;
    if later != earlier {
      var a, b := Get(earlier.members, "version").s, Get(later.members, "version").s;
      OrderIsPrecedence(a, b);
      OrderIsPrecedence(b, a);
      LessIsTotalOrder(VersionOrder(a).value, VersionOrder(b).value, VersionOrder(a).value);
    }
  }

  /** The values that are compared are equal to themselves: there is no NaN in them. */
  predicate SameAsItself(feed: map<string, Json>, setup: Setup) {
    && setup.same(Get(feed, "platforms"), Get(feed, "platforms"))
    && setup.same(Get(feed, "lemma"), Get(feed, "lemma"))
  }

  /** Publishing what is published, at any later time, succeeds and gives the existing feed back, if and only if that
      is no newly made feed with a NaN in it. */
  lemma RepublishKeepsFeed(staged: Staged, before: string, now: string, current: Option<Json>, setup: Setup)
    requires Assembled(staged, before, current, setup).Some?
    ensures var feed := Assembled(staged, before, current, setup).value;
            Assembled(staged, now, Some(Object(feed)), setup) == Some(feed) <==>
            (Fresh(staged, before, setup) == Some(feed) ==> SameAsItself(feed, setup))
  {
    var feed := Assembled(staged, before, current, setup).value;
    FreshHasOrder(staged, before, setup);
    FreshHasOrder(staged, now, setup);
    FreshAgain(staged, before, now, setup);
    SameAgain(Fresh(staged, before, setup).value, now, current, feed, setup);
  }

  lemma SameAgain(first: map<string, Json>, now: string, current: Option<Json>, feed: map<string, Json>, setup: Setup)
    requires FeedOrder(first).Some?
    requires current.None? ==> feed == first
    requires current.Some? ==>
               && current.value.Object?
               && Replacement(current.value.members, first, FeedOrder(first).value, setup) == Some(feed)
    ensures var again := first["pub_date" := Text(now)];
            && FeedOrder(again) == FeedOrder(first)
            && (Replacement(feed, again, FeedOrder(first).value, setup) == Some(feed) <==>
                (feed == first ==> SameAsItself(feed, setup)))
  {
    DateDoesNotCount(first, now);
    var order := FeedOrder(first).value;
    LessIsTotalOrder(order, order, order);
  }

  lemma DateDoesNotCount(feed: map<string, Json>, now: string)
    ensures var again := feed["pub_date" := Text(now)];
            && FeedOrder(again) == FeedOrder(feed)
            && Get(again, "platforms") == Get(feed, "platforms") && Get(again, "lemma") == Get(feed, "lemma")
  {
  }

  /** A build is refused exactly when it is no complete build, when the current feed has no nightly
      version, when it is older, or when it has the feed's version and other artifacts. */
  lemma RefusedExactlyWhen(staged: Staged, now: string, current: Json, setup: Setup)
    requires Fresh(staged, now, setup).Some?
    ensures var feed := Fresh(staged, now, setup).value;
            var order := FeedOrder(feed);
            Assembled(staged, now, Some(current), setup).None? <==>
            || OrderOf(current).None?
            || Less(order.value, OrderOf(current).value)
            || (order == OrderOf(current)
                && !(setup.same(Get(current.members, "platforms"), feed["platforms"])
                     && setup.same(Get(current.members, "lemma"), feed["lemma"])))
  {
    FreshHasOrder(staged, now, setup);
  }

  // ---- What a new feed is made of

  predicate Says(members: map<string, Json>, key: string, value: Json) {
    key in members && members[key] == value
  }

  predicate SaysPositive(members: map<string, Json>, key: string) {
    key in members && members[key].Int? && members[key].n >= 1
  }

  /** The payload was staged with a signature, and the fragment's entry names, signs and digests it. */
  ghost predicate StagedPayload(staged: Staged, setup: Setup, name: string, fragment: map<string, Json>, entry: map<string, Json>) {
    && name in staged.payloads && staged.payloads[name] != ""
    && name in staged.signatures && Trim(staged.signatures[name]) != ""
    && Says(entry, "signature", Text(Trim(staged.signatures[name])))
    && Says(entry, "url", Text("https://github.com/" + setup.repository + "/releases/download/desktop-nightly/" + name))
    && Says(fragment, "sha256", Text(setup.digest(staged.payloads[name])))
  }

  /** One platform's fragment is of the version and the platform, with the entry for its payload and a block of
      metadata with two positive numbers. */
  ghost predicate StagedFor(staged: Staged, setup: Setup, version: string, target: string, suffix: string,
                            entry: map<string, Json>, block: map<string, Json>) {
    && target in staged.fragments && staged.fragments[target].Object?
    && var fragment := staged.fragments[target].members;
    && Says(fragment, "version", Text(version)) && Says(fragment, "platform", Text(target))
    && Says(fragment, "entry", Object(entry)) && Says(fragment, "lemma", Object(block))
    && StagedPayload(staged, setup, "Lemma_" + version + "_" + suffix, fragment, entry)
    && SaysPositive(block, "postgres_major") && SaysPositive(block, "runtime_download_bytes")
  }

  predicate IsChecked(staged: Staged, setup: Setup, version: string, target: string, entry: map<string, Json>, block: map<string, Json>) {
    && Fragment(staged, target).Some? && Get(Fragment(staged, target).value, "version") == Text(version)
    && CheckedTarget(staged, target, version, setup) == Some(Platform(entry, block))
  }

  lemma CheckedIff(staged: Staged, setup: Setup, version: string, target: string, suffix: string,
                   entry: map<string, Json>, block: map<string, Json>)
    requires (target == "darwin-aarch64" && suffix == "aarch64.app.tar.gz")
             || (target == "windows-x86_64" && suffix == "x64-setup.exe")
    ensures StagedFor(staged, setup, version, target, suffix, entry, block) <==>
            IsChecked(staged, setup, version, target, entry, block)
  {
    GenuineIff(staged, setup, version, target, suffix, entry);
    if Fragment(staged, target).Some? {
      PlatformIff(Fragment(staged, target).value, target, version, staged, setup, entry, block);
    }
  }

  lemma PlatformIff(fragment: map<string, Json>, target: string, version: string, staged: Staged, setup: Setup,
                    entry: map<string, Json>, block: map<string, Json>)
    ensures Checked(fragment, target, version, staged, setup) == Some(Platform(entry, block)) <==>
            && Says(fragment, "platform", Text(target)) && Says(fragment, "entry", Object(entry))
            && Says(fragment, "lemma", Object(block)) && Genuine(fragment, entry, PayloadName(version, target), staged, setup)
            && SaysPositive(block, "postgres_major") && SaysPositive(block, "runtime_download_bytes")
  {
  }

  lemma GenuineIff(staged: Staged, setup: Setup, version: string, target: string, suffix: string, entry: map<string, Json>)
    requires (target == "darwin-aarch64" && suffix == "aarch64.app.tar.gz")
             || (target == "windows-x86_64" && suffix == "x64-setup.exe")
    ensures Fragment(staged, target).Some? ==>
              (StagedPayload(staged, setup, "Lemma_" + version + "_" + suffix, Fragment(staged, target).value, entry)
               <==> Genuine(Fragment(staged, target).value, entry, PayloadName(version, target), staged, setup))
  {
    assert PayloadName(version, target) == "Lemma_" + version + "_" + suffix;
  }

  /** The feed of the two platforms, whose older readers get the Mac's block. */
  function FeedFrom(version: string, now: string, macEntry: map<string, Json>, macBlock: map<string, Json>,
                    windowsEntry: map<string, Json>, windowsBlock: map<string, Json>): map<string, Json> {
    map[
      "version" := Text(version), "pub_date" := Text(now), "notes" := Text("Lemma Desktop nightly " + version),
      "platforms" := Object(map["darwin-aarch64" := Object(macEntry), "windows-x86_64" := Object(windowsEntry)]),
      "lemma" := Object(macBlock["platforms" :=
        Object(map["darwin-aarch64" := Object(macBlock), "windows-x86_64" := Object(windowsBlock)])])
    ]
  }

  ghost predicate MadeFrom(staged: Staged, now: string, setup: Setup, feed: map<string, Json>, version: string,
                           macEntry: map<string, Json>, macBlock: map<string, Json>,
                           windowsEntry: map<string, Json>, windowsBlock: map<string, Json>) {
    && VersionOrder(version).Some?
    && StagedFor(staged, setup, version, "darwin-aarch64", "aarch64.app.tar.gz", macEntry, macBlock)
    && StagedFor(staged, setup, version, "windows-x86_64", "x64-setup.exe", windowsEntry, windowsBlock)
    && feed == FeedFrom(version, now, macEntry, macBlock, windowsEntry, windowsBlock)
  }

  /** A feed is made from scratch if and only if both platforms were staged in full at one nightly version, and then it
      has each platform's own entry and block under its name, with the Mac's block for readers that know no other. */
  lemma FreshIsComplete(staged: Staged, now: string, setup: Setup, feed: map<string, Json>)
    ensures Fresh(staged, now, setup) == Some(feed) <==>
      exists version, macEntry, macBlock, windowsEntry, windowsBlock ::
        MadeFrom(staged, now, setup, feed, version, macEntry, macBlock, windowsEntry, windowsBlock)
  {
    if Fresh(staged, now, setup) == Some(feed) {
      var version := CommonVersion(staged).value;
      assert CheckedTarget(staged, TARGETS[0], version, setup).Some? && CheckedTarget(staged, TARGETS[1], version, setup).Some?;
      var mac, windows := CheckedTarget(staged, MAC, version, setup).value, CheckedTarget(staged, WINDOWS, version, setup).value;
      CheckedIff(staged, setup, version, MAC, "aarch64.app.tar.gz", mac.entry, mac.metadata);
      CheckedIff(staged, setup, version, WINDOWS, "x64-setup.exe", windows.entry, windows.metadata);
      FreshFrom(staged, now, setup, version, mac.entry, mac.metadata, windows.entry, windows.metadata);
      assert MadeFrom(staged, now, setup, feed, version, mac.entry, mac.metadata, windows.entry, windows.metadata);
    }
    forall version, macEntry, macBlock, windowsEntry, windowsBlock |
      MadeFrom(staged, now, setup, feed, version, macEntry, macBlock, windowsEntry, windowsBlock)
      ensures Fresh(staged, now, setup) == Some(feed)
    {
      CheckedIff(staged, setup, version, MAC, "aarch64.app.tar.gz", macEntry, macBlock);
      CheckedIff(staged, setup, version, WINDOWS, "x64-setup.exe", windowsEntry, windowsBlock);
      FreshFrom(staged, now, setup, version, macEntry, macBlock, windowsEntry, windowsBlock);
    }
  }

  lemma FreshFrom(staged: Staged, now: string, setup: Setup, version: string, macEntry: map<string, Json>,
                  macBlock: map<string, Json>, windowsEntry: map<string, Json>, windowsBlock: map<string, Json>)
    requires VersionOrder(version).Some?
    requires IsChecked(staged, setup, version, MAC, macEntry, macBlock)
    requires IsChecked(staged, setup, version, WINDOWS, windowsEntry, windowsBlock)
    ensures Fresh(staged, now, setup) == Some(FeedFrom(version, now, macEntry, macBlock, windowsEntry, windowsBlock))
  {
    BothTargets(staged, setup, version, macEntry, macBlock, windowsEntry, windowsBlock);
    assert Legacy(staged) == macBlock;
  }

  lemma BothTargets(staged: Staged, setup: Setup, version: string, macEntry: map<string, Json>,
                    macBlock: map<string, Json>, windowsEntry: map<string, Json>, windowsBlock: map<string, Json>)
    requires CheckedTarget(staged, MAC, version, setup) == Some(Platform(macEntry, macBlock))
    requires CheckedTarget(staged, WINDOWS, version, setup) == Some(Platform(windowsEntry, windowsBlock))
    ensures AllChecked(staged, version, setup, |TARGETS|)
    ensures Entries(staged, version, setup, |TARGETS|) == map[MAC := Object(macEntry), WINDOWS := Object(windowsEntry)]
    ensures Metadata(staged, version, setup, |TARGETS|) == map[MAC := Object(macBlock), WINDOWS := Object(windowsBlock)]
  {
    TargetsAre();
    assert AllChecked(staged, version, setup, |TARGETS|);
    BothEntries(staged, setup, version, macEntry, windowsEntry);
    BothBlocks(staged, setup, version, macBlock, windowsBlock);
  }

  lemma TargetsAre()
    ensures forall target :: target in TARGETS[..|TARGETS|] <==> target == MAC || target == WINDOWS
    ensures forall i: nat | i < |TARGETS| :: TARGETS[i] == MAC || TARGETS[i] == WINDOWS
  {
    assert TARGETS[..|TARGETS|] == TARGETS;
  }

  lemma BothEntries(staged: Staged, setup: Setup, version: string, macEntry: map<string, Json>, windowsEntry: map<string, Json>)
    requires AllChecked(staged, version, setup, |TARGETS|)
    requires CheckedTarget(staged, MAC, version, setup).Some? && CheckedTarget(staged, MAC, version, setup).value.entry == macEntry
    requires CheckedTarget(staged, WINDOWS, version, setup).Some?
    requires CheckedTarget(staged, WINDOWS, version, setup).value.entry == windowsEntry
    ensures Entries(staged, version, setup, |TARGETS|) == map[MAC := Object(macEntry), WINDOWS := Object(windowsEntry)]
  {
    TargetsAre();
  }

  lemma BothBlocks(staged: Staged, setup: Setup, version: string, macBlock: map<string, Json>, windowsBlock: map<string, Json>)
    requires AllChecked(staged, version, setup, |TARGETS|)
    requires CheckedTarget(staged, MAC, version, setup).Some? && CheckedTarget(staged, MAC, version, setup).value.metadata == macBlock
    requires CheckedTarget(staged, WINDOWS, version, setup).Some?
    requires CheckedTarget(staged, WINDOWS, version, setup).value.metadata == windowsBlock
    ensures Metadata(staged, version, setup, |TARGETS|) == map[MAC := Object(macBlock), WINDOWS := Object(windowsBlock)]
  {
    TargetsAre();
  }
}
