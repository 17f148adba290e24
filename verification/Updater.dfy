/**
 * The firmware cache and the release selection of src/firmware/github-updater.js: what a restart finds after any
 * interrupted installation, and which release a refresh installs.
 */
module Updater {
  import opened Prelude
  import opened Semver

  // ---- The cache ----

  /** The files of one release share a name of version and digest. */
  datatype Key = Key(version: Version, sha256: Bytes)

  datatype Release = Release(version: Version, size: nat, sha256: Bytes)

  function KeyOf(r: Release): Key {
    Key(r.version, r.sha256)
  }

  /** What a record file holds: metadata that validates, or anything else. */
  datatype Record = Metadata(release: Release) | Junk

  datatype Disk = Disk(binaries: map<Key, Bytes>, records: map<Key, Record>)

  /** `verifyFirmware`: size, digest, signature, structure and identity of an image. */
  type Check = (Release, Bytes) -> bool

  /** A verified image has the size it claims, and no two verified images share a digest. */
  ghost predicate Binding(check: Check) {
    && (forall r, b :: check(r, b) ==> r.size == |b|)
    && (forall r, b, r', b' :: check(r, b) && check(r', b') && r.sha256 == r'.sha256 ==> b == b')
  }

  type Releases = map<Version, Release>

  /** A record that names itself, with an image that verifies. */
  predicate Intact(disk: Disk, key: Key, check: Check) {
    && key in disk.records && disk.records[key].Metadata? && KeyOf(disk.records[key].release) == key
    && key in disk.binaries && check(disk.records[key].release, disk.binaries[key])
  }

  /** The directory listing, newest version first; the order within one version is the file system's. */
  ghost predicate Listing(names: seq<Key>, disk: Disk) {
    && (forall key :: key in names <==> key in disk.records)
    && (forall i, j :: 0 <= i < j < |names| ==> names[i] != names[j])
    && (forall i, j :: 0 <= i < j < |names| ==> AtMost(names[j].version, names[i].version))
  }

  const LOADED: nat := 64

  function First(names: seq<Key>): seq<Key> {
    names[..if |names| < LOADED then |names| else LOADED]
  }

  /** The releases published after reading the records in order; a later one replaces an earlier of its version. */
  function Loaded(disk: Disk, names: seq<Key>, check: Check): Releases {
    if names == [] then map[]
    else
      var rest, key := Loaded(disk, names[..|names| - 1], check), names[|names| - 1];
      if Intact(disk, key, check) then rest[key.version := disk.records[key].release] else rest
  }

  function Load(disk: Disk, names: seq<Key>, check: Check): Releases {
    Loaded(disk, First(names), check)
  }

  /** The newest release. */
  predicate IsLatest(releases: Releases, r: Release) {
    r.version in releases && releases[r.version] == r && forall v :: v in releases ==> AtMost(v, r.version)
  }

  /** Releases are filed under their own version. */
  predicate Filed(releases: Releases) {
    forall v :: v in releases ==> releases[v].version == v
  }

  lemma LatestUnique(releases: Releases, a: Release, b: Release)
    requires IsLatest(releases, a) && IsLatest(releases, b)
    ensures a == b
  {
    OlderOrder(a.version, b.version, a.version);
  }

  lemma {:induction false} LatestExists(releases: Releases)
    requires releases != map[] && Filed(releases)
    ensures exists r :: IsLatest(releases, r)
    decreases |releases|
  {
    var v :| v in releases;
    var rest := map w | w in releases && w != v :: releases[w];
    assert rest.Keys == releases.Keys - {v};
    if rest == map[] {
      assert rest.Keys == {} && releases.Keys == {v} + rest.Keys;
      assert IsLatest(releases, releases[v]);
    } else {
      assert |rest.Keys| < |releases.Keys|;
      LatestExists(rest);
      var r :| IsLatest(rest, r);
      OlderOrder(v, r.version, v);
      if Older(v, r.version) {
        assert IsLatest(releases, r);
      } else {
        forall w | w in releases ensures AtMost(w, v) {
          if w != v {
            assert w in rest;
            OlderOrder(w, r.version, v);
          }
        }
        assert IsLatest(releases, releases[v]);
      }
    }
  }

  // ---- What a restart publishes ----

  /** A release is published exactly if its record is read, intact, and no later one read is of its version. */
  lemma {:induction false} LoadedExactly(disk: Disk, names: seq<Key>, check: Check, r: Release)
    requires forall i, j :: 0 <= i < j < |names| ==> names[i] != names[j]
    ensures Filed(Loaded(disk, names, check))
    ensures r.version in Loaded(disk, names, check) && Loaded(disk, names, check)[r.version] == r
            <==> exists i :: PublishedAt(disk, names, check, r, i)
  {
    if names != [] {
      var front, key := names[..|names| - 1], names[|names| - 1];
      LoadedExactly(disk, front, check, r);
      PublishedNext(disk, names, check, r);
    }
  }

  /** What the last record read does to what is published. */
  lemma PublishedNext(disk: Disk, names: seq<Key>, check: Check, r: Release)
    requires names != [] && forall i, j :: 0 <= i < j < |names| ==> names[i] != names[j]
    ensures var front, key := names[..|names| - 1], names[|names| - 1];
            (exists i :: PublishedAt(disk, names, check, r, i)) <==>
            if Intact(disk, key, check) && key.version == r.version then disk.records[key] == Metadata(r)
            else exists i :: PublishedAt(disk, front, check, r, i)
  {
    var front, key, last := names[..|names| - 1], names[|names| - 1], |names| - 1;
    if Intact(disk, key, check) && key.version == r.version {
      if disk.records[key] == Metadata(r) {
        assert PublishedAt(disk, names, check, r, last);
      }
    } else {
      if i :| PublishedAt(disk, front, check, r, i) {
        assert PublishedAt(disk, names, check, r, i);
      }
      if i :| PublishedAt(disk, names, check, r, i) {
        assert PublishedAt(disk, front, check, r, i);
      }
    }
  }

  /** Entry `i` is the intact record of `r`, and no intact one of its version follows. */
  predicate PublishedAt(disk: Disk, names: seq<Key>, check: Check, r: Release, i: int) {
    && 0 <= i < |names| && Intact(disk, names[i], check) && disk.records[names[i]] == Metadata(r)
       && names[i] == KeyOf(r)
    && forall j :: i < j < |names| && names[j].version == r.version ==> !Intact(disk, names[j], check)
  }

  /** A version is published exactly if an intact record of it is read. */
  lemma {:induction false} LoadedVersions(disk: Disk, names: seq<Key>, check: Check, v: Version)
    ensures v in Loaded(disk, names, check) <==> exists i :: ReadIntact(disk, names, check, v, i)
  {
    hide Intact;
    if names != [] {
      var front, key := names[..|names| - 1], names[|names| - 1];
      LoadedVersions(disk, front, check, v);
      if i :| ReadIntact(disk, front, check, v, i) {
        assert ReadIntact(disk, names, check, v, i);
      }
      if i :| ReadIntact(disk, names, check, v, i) {
        assert i < |front| ==> ReadIntact(disk, front, check, v, i);
      }
      if Intact(disk, key, check) && key.version == v {
        assert ReadIntact(disk, names, check, v, |front|);
      }
    }
  }

  predicate ReadIntact(disk: Disk, names: seq<Key>, check: Check, v: Version, i: int) {
    0 <= i < |names| && names[i].version == v && Intact(disk, names[i], check)
  }

  /** Only releases whose image on disk verifies are published. */
  lemma PublishedVerify(disk: Disk, names: seq<Key>, check: Check, v: Version)
    requires Listing(names, disk) && v in Load(disk, names, check)
    ensures var r := Load(disk, names, check)[v];
            && r.version == v && KeyOf(r) in disk.binaries && check(r, disk.binaries[KeyOf(r)])
            && KeyOf(r) in disk.records && disk.records[KeyOf(r)] == Metadata(r)
  {
    var r := Load(disk, names, check)[v];
    LoadedExactly(disk, First(names), check, r);
    var i :| PublishedAt(disk, First(names), check, r, i);
  }

  /** No newer intact record is among those read. */
  predicate Unsurpassed(disk: Disk, names: seq<Key>, check: Check, r: Release) {
    forall j :: 0 <= j < |names| && Intact(disk, names[j], check) ==> AtMost(names[j].version, r.version)
  }

  /**
   * The latest release after a restart is `r` exactly if its record is intact among the 64 newest records, no newer
   * one among them is intact, and no intact one of its own version is read after it.
   */
  lemma LatestAfterRestart(disk: Disk, names: seq<Key>, check: Check, r: Release)
    requires Listing(names, disk)
    ensures IsLatest(Load(disk, names, check), r) <==>
            (exists i :: PublishedAt(disk, First(names), check, r, i)) && Unsurpassed(disk, First(names), check, r)
  {
    hide Intact, AtMost;
    var read := First(names);
    LoadedExactly(disk, read, check, r);
    if IsLatest(Load(disk, names, check), r) {
      forall j | 0 <= j < |read| && Intact(disk, read[j], check) ensures AtMost(read[j].version, r.version) {
        LoadedVersions(disk, read, check, read[j].version);
        assert ReadIntact(disk, read, check, read[j].version, j);
      }
    }
    if Unsurpassed(disk, read, check, r) {
      forall v | v in Load(disk, names, check) ensures AtMost(v, r.version) {
        LoadedVersions(disk, read, check, v);
        var i :| ReadIntact(disk, read, check, v, i);
      }
    }
  }

  // ---- Interrupted installations ----

  /** Which of the two renames of an installation survive a crash. */
  datatype Cut = Nothing | BinaryOnly | RecordOnly | Both

  /** Where an installation throws, if it does: before its image, before its record, or at the directory sync. */
  datatype Fault = NoFault | AtImage | AtRecord | AtSync

  /** What it has written by then. */
  function Written(fault: Fault): Cut {
    match fault
    case AtImage => Nothing
    case AtRecord => BinaryOnly
    case _ => Both
  }

  /** The files after an installation that was cut; the temporary file is never listed. */
  function Install(disk: Disk, r: Release, bytes: Bytes, cut: Cut): Disk {
    Disk(if cut.BinaryOnly? || cut.Both? then disk.binaries[KeyOf(r) := bytes] else disk.binaries,
         if cut.RecordOnly? || cut.Both? then disk.records[KeyOf(r) := Metadata(r)] else disk.records)
  }

  /** An installation, however it is cut, leaves every intact release as it was. */
  lemma KeepsIntact(disk: Disk, r: Release, bytes: Bytes, cut: Cut, check: Check, key: Key)
    requires Binding(check) && check(r, bytes) && Intact(disk, key, check)
    ensures var after := Install(disk, r, bytes, cut);
            Intact(after, key, check) && after.records[key] == disk.records[key]
  {
    var was := disk.records[key].release;
    assert check(was, disk.binaries[key]);
    if key == KeyOf(r) {
      assert disk.binaries[key] == bytes && was == r;
    }
  }

  /** It adds at most the release it installs, and does add it when it completes. */
  lemma AddsOnlyItself(disk: Disk, r: Release, bytes: Bytes, cut: Cut, check: Check, key: Key)
    requires Binding(check) && check(r, bytes)
    ensures Intact(Install(disk, r, bytes, cut), key, check) && !Intact(disk, key, check) ==>
              key == KeyOf(r) && Install(disk, r, bytes, cut).records[key] == Metadata(r)
    ensures cut.Both? ==> Intact(Install(disk, r, bytes, cut), KeyOf(r), check)
  {
    var after := Install(disk, r, bytes, cut);
    if Intact(after, key, check) && !Intact(disk, key, check) && cut.BinaryOnly? {
      var found := disk.records[key].release;
      assert check(found, bytes) && found.sha256 == r.sha256 && found.version == r.version;
      assert found.size == |bytes| && r.size == |bytes|;
    }
  }

  /**
   * After any cut, an earlier intact release whose record is among the 64 newest stays published, exactly unless an
   * intact record of its own version is read after it.
   */
  lemma StaysPublished(disk: Disk, r: Release, bytes: Bytes, cut: Cut, names: seq<Key>, check: Check, i: nat)
    requires Binding(check) && check(r, bytes) && Listing(names, Install(disk, r, bytes, cut))
    requires i < |First(names)| && Intact(disk, names[i], check)
    ensures var after, key := Install(disk, r, bytes, cut), names[i];
            Publishes(Load(after, names, check), disk.records[key].release) <==>
                !Replaced(after, First(names), check, i)
  {
    hide Binding, Intact, Install;
    var after, key := Install(disk, r, bytes, cut), names[i];
    IntactRecord(disk, key, check);
    var was := disk.records[key].release;
    KeepsIntact(disk, r, bytes, cut, check, key);
    LoadedExactly(after, First(names), check, was);
    assert First(names)[i] == key;
    if j :| PublishedAt(after, First(names), check, was, j) {
      assert First(names)[j] == key && j == i;
    }
    assert !Replaced(after, First(names), check, i) ==> PublishedAt(after, First(names), check, was, i);
  }

  /** An intact record of the same version is read after entry `i`. */
  predicate Replaced(disk: Disk, names: seq<Key>, check: Check, i: nat)
    requires i < |names|
  {
    exists j :: i < j < |names| && names[j].version == names[i].version && Intact(disk, names[j], check)
  }

  predicate Publishes(releases: Releases, r: Release) {
    r.version in releases && releases[r.version] == r
  }

  // ---- A restart is a no-op ----

  /** One record per version, few enough to be read. */
  ghost predicate Tidy(disk: Disk) {
    && (forall a, b :: a in disk.records && b in disk.records && a.version == b.version ==> a == b)
    && |disk.records| <= 64
  }

  lemma {:induction false} ListingSize(names: seq<Key>, keys: set<Key>)
    requires forall i, j :: 0 <= i < j < |names| ==> names[i] != names[j]
    requires forall key :: key in names <==> key in keys
    ensures |names| == |keys|
  {
    if names == [] {
      assert keys == {};
    } else {
      var front, last := names[..|names| - 1], names[|names| - 1];
      assert forall key :: key in front <==> key in keys - {last};
      ListingSize(front, keys - {last});
    }
  }

  /** A tidy cache publishes exactly its intact releases. */
  lemma TidyLoads(disk: Disk, names: seq<Key>, check: Check, r: Release)
    requires Tidy(disk) && Listing(names, disk)
    ensures r.version in Load(disk, names, check) && Load(disk, names, check)[r.version] == r
            <==> Intact(disk, KeyOf(r), check) && disk.records[KeyOf(r)] == Metadata(r)
  {
    ListingSize(names, disk.records.Keys);
    assert |disk.records.Keys| == |disk.records|;
    assert First(names) == names;
    LoadedExactly(disk, names, check, r);
    if Intact(disk, KeyOf(r), check) && disk.records[KeyOf(r)] == Metadata(r) {
      var i :| 0 <= i < |names| && names[i] == KeyOf(r);
      assert PublishedAt(disk, names, check, r, i);
    }
  }

  /**
   * Crash safety: with tidy caches, a restart after an installation that was cut anywhere publishes what was
   * published before, or that and the new release; after a completed installation it publishes the latter.
   */
  lemma InstallIsAtomic(disk: Disk, r: Release, bytes: Bytes, cut: Cut, before: seq<Key>, after: seq<Key>, check: Check)
    requires Binding(check) && check(r, bytes) && Tidy(disk) && Listing(before, disk)
    requires Tidy(Install(disk, r, bytes, cut)) && Listing(after, Install(disk, r, bytes, cut))
    requires forall key :: key in disk.records && key.version == r.version ==> key == KeyOf(r)
    ensures var was, now := Load(disk, before, check), Load(Install(disk, r, bytes, cut), after, check);
            (now == was || now == was[r.version := r]) && (cut.Both? ==> now == was[r.version := r])
  {
    hide Binding, Tidy, Listing, Load, Intact, Install;
    var next := Install(disk, r, bytes, cut);
    var was, now := Load(disk, before, check), Load(next, after, check);
    var target := if Intact(next, KeyOf(r), check) then was[r.version := r] else was;
    forall x: Release ensures Publishes(now, x) <==> Publishes(target, x) {
      InstallPublishes(disk, r, bytes, cut, before, after, check, x);
    }
    FiledLoad(disk, before, check);
    FiledLoad(next, after, check);
    SameReleases(now, target);
    AddsOnlyItself(disk, r, bytes, cut, check, KeyOf(r));
  }

  lemma FiledLoad(disk: Disk, names: seq<Key>, check: Check)
    requires Listing(names, disk)
    ensures Filed(Load(disk, names, check))
  {
    hide Intact, Loaded;
    LoadedExactly(disk, First(names), check, Release(Version(0, 0, 0), 0, []));
  }

  lemma SameReleases(a: Releases, b: Releases)
    requires Filed(a) && Filed(b) && forall x: Release :: Publishes(a, x) <==> Publishes(b, x)
    ensures a == b
  {
    assert forall v :: v in a ==> Publishes(a, a[v]);
    assert forall v :: v in b ==> Publishes(b, b[v]);
  }

  lemma InstallPublishes(
      disk: Disk, r: Release, bytes: Bytes, cut: Cut, before: seq<Key>, after: seq<Key>, check: Check, x: Release)
    requires Binding(check) && check(r, bytes) && Tidy(disk) && Listing(before, disk)
    requires Tidy(Install(disk, r, bytes, cut)) && Listing(after, Install(disk, r, bytes, cut))
    requires forall key :: key in disk.records && key.version == r.version ==> key == KeyOf(r)
    ensures var next := Install(disk, r, bytes, cut);
            var was := Load(disk, before, check);
            Publishes(Load(next, after, check), x) <==>
            Publishes(if Intact(next, KeyOf(r), check) then was[r.version := r] else was, x)
  {
    hide Tidy, Listing, Load;
    var next := Install(disk, r, bytes, cut);
    TidyLoads(next, after, check, x);
    TidyLoads(disk, before, check, x);
    AddsOnlyItself(disk, r, bytes, cut, check, KeyOf(x));
    if Intact(disk, KeyOf(x), check) {
      KeepsIntact(disk, r, bytes, cut, check, KeyOf(x));
    }
    if Intact(disk, KeyOf(r), check) {
      KeepsIntact(disk, r, bytes, cut, check, KeyOf(r));
    }
    RecordIsItself(next, r, bytes, check);
  }

  /** An intact record under the name of a verified release is that release's. */
  lemma RecordIsItself(disk: Disk, r: Release, bytes: Bytes, check: Check)
    requires Binding(check) && check(r, bytes)
    ensures Intact(disk, KeyOf(r), check) ==> disk.records[KeyOf(r)] == Metadata(r)
  {}

  // ---- When a restart does lose the latest release ----

  lemma {:induction false} ElementsBound(names: seq<Key>, keys: set<Key>)
    requires forall key :: key in keys ==> key in names
    ensures |keys| <= |names|
  {
    if names == [] {
      assert keys == {};
    } else {
      var front, last := names[..|names| - 1], names[|names| - 1];
      assert forall key :: key in names <==> key in front || key == last;
      ElementsBound(front, keys - {last});
      assert |keys| <= |keys - {last}| + 1 by {
        assert keys <= (keys - {last}) + {last};
        if last !in keys { assert keys - {last} == keys; }
      }
    }
  }

  /** Record `i` is that of `r`, every other intact one read is of an older version, or of this one and read before. */
  predicate ReadAsLatest(disk: Disk, names: seq<Key>, check: Check, r: Release, i: int) {
    && 0 <= i < |names| && names[i] == KeyOf(r)
    && forall j :: 0 <= j < |names| && j != i && Intact(disk, names[j], check) ==>
         Older(names[j].version, r.version) || (names[j].version == r.version && j < i)
  }

  /**
   * A completely installed release is the latest after a restart if and only if its record is among the 64 newest and
   * no other intact one among them, of those there were before, is newer or of its version and read after it.
   */
  lemma InstalledIsLatest(disk: Disk, r: Release, bytes: Bytes, names: seq<Key>, check: Check)
    requires Binding(check) && check(r, bytes) && Listing(names, Install(disk, r, bytes, Both))
    ensures IsLatest(Load(Install(disk, r, bytes, Both), names, check), r) <==>
            exists i :: ReadAsLatest(disk, First(names), check, r, i)
  {
    hide Load;
    var after, read := Install(disk, r, bytes, Both), First(names);
    LatestAfterRestart(after, names, check, r);
    AddsOnlyItself(disk, r, bytes, Both, check, KeyOf(r));
    forall key | key != KeyOf(r) ensures Intact(after, key, check) <==> Intact(disk, key, check) {
      AddsOnlyItself(disk, r, bytes, Both, check, key);
    }
    assert forall i, j :: 0 <= i < |read| && 0 <= j < |read| && read[i] == read[j] ==> i == j;
    hide Intact, Install, Binding, Listing;
    if i :| PublishedAt(after, read, check, r, i) && Unsurpassed(after, read, check, r) {
      forall j | 0 <= j < |read| && j != i && Intact(disk, read[j], check)
        ensures Older(read[j].version, r.version) || (read[j].version == r.version && j < i)
      {
        OlderOrder(read[j].version, r.version, r.version);
      }
      assert ReadAsLatest(disk, read, check, r, i);
    }
    if i :| ReadAsLatest(disk, read, check, r, i) {
      forall j | 0 <= j < |read| && Intact(after, read[j], check)
        ensures AtMost(read[j].version, r.version) && (i < j ==> read[j].version != r.version)
      {
        if j != i {
          OlderOrder(read[j].version, r.version, r.version);
        }
      }
      InstalledRecord(disk, r, bytes);
      assert PublishedAt(after, read, check, r, i);
    }
  }

  lemma InstalledRecord(disk: Disk, r: Release, bytes: Bytes)
    ensures var after := Install(disk, r, bytes, Both);
            KeyOf(r) in after.records && after.records[KeyOf(r)] == Metadata(r)
  {}

  /** Records of newer versions, intact or not, crowd a release out: from 64 of them on it is not read at all. */
  lemma CrowdedOut(disk: Disk, names: seq<Key>, check: Check, r: Release, newer: set<Key>)
    requires Listing(names, disk) && |newer| >= 64
    requires forall key :: key in newer ==> key in disk.records && Older(r.version, key.version)
    ensures !IsLatest(Load(disk, names, check), r)
  {
    hide Loaded, Intact;
    var read := First(names);
    if i :| PublishedAt(disk, read, check, r, i) {
      forall key | key in newer ensures key in names[..i] {
        var j :| 0 <= j < |names| && names[j] == key;
        OlderOrder(r.version, key.version, r.version);
      }
      ElementsBound(names[..i], newer);
    }
    LatestAfterRestart(disk, names, check, r);
  }

  /** Sixty-four unreadable records of newer versions, newest first, and one release. */
  function Crowd(r: Release): seq<Key> {
    seq(64, i requires 0 <= i < 64 => Key(Version(2, 0, LOADED - i), [])) + [KeyOf(r)]
  }

  function Crowded(r: Release, bytes: Bytes): Disk {
    Disk(map[KeyOf(r) := bytes], map key | key in Crowd(r) :: if key == KeyOf(r) then Metadata(r) else Junk)
  }

  /** For instance, an intact and only release of version 1.0.0 is not found after a restart behind them. */
  lemma CrowdedExample(check: Check, r: Release, bytes: Bytes)
    requires check(r, bytes) && r.version == Version(1, 0, 0)
    ensures Listing(Crowd(r), Crowded(r, bytes)) && Intact(Crowded(r, bytes), KeyOf(r), check)
    ensures !IsLatest(Load(Crowded(r, bytes), Crowd(r), check), r)
  {
    var names := Crowd(r);
    var disk := Crowded(r, bytes);
    assert names[LOADED] == KeyOf(r);
    assert forall i :: 0 <= i < LOADED ==> names[i] == Key(Version(2, 0, LOADED - i), []);
    hide Crowd, Load, Loaded;
    LatestAfterRestart(disk, names, check, r);
    assert forall i :: 0 <= i < |First(names)| ==> First(names)[i] != KeyOf(r);
  }

  // ---- Discovering releases ----

  /**
   * What trying a candidate comes to: its archive verifies, and its installation then throws somewhere or not; it is
   * refused; or the refresh stops altogether.
   */
  datatype Outcome = Verified(release: Release, fault: Fault) | Refused | Stopped

  datatype Candidate = Candidate(version: Version, outcome: Outcome)

  const PAGE: nat := 100
  const PAGES: nat := 5

  /** The entries of a page that name a stable release with one matching archive; the others are `None`. */
  type Page = seq<Option<Candidate>>

  function Offered(page: Page): seq<Candidate> {
    if page == [] then []
    else Offered(page[..|page| - 1]) + match page[|page| - 1] case Some(candidate) => [candidate] case None => []
  }

  function OfferedBy(pages: seq<Page>): seq<Candidate> {
    if pages == [] then [] else OfferedBy(pages[..|pages| - 1]) + Offered(pages[|pages| - 1])
  }

  /** The listing ends with its first short page, which is at most the fifth. */
  predicate EndsAt(pages: seq<Page>, n: int) {
    1 <= n <= 5 && n <= |pages| && |pages[n - 1]| < 100 && forall i :: 0 <= i < n - 1 ==> |pages[i]| == 100
  }

  /** The library's sort, newest first: an entry stays before later ones of its version. */
  function NewestFirst(candidates: seq<Candidate>): seq<Candidate> {
    if candidates == [] then [] else Inserted(candidates[0], NewestFirst(candidates[1..]))
  }

  function Inserted(c: Candidate, rest: seq<Candidate>): seq<Candidate> {
    if rest == [] || AtMost(rest[0].version, c.version) then [c] + rest else [rest[0]] + Inserted(c, rest[1..])
  }

  predicate Falling(candidates: seq<Candidate>) {
    forall i, j :: 0 <= i < j < |candidates| ==> AtMost(candidates[j].version, candidates[i].version)
  }

  function OfVersion(candidates: seq<Candidate>, v: Version): seq<Candidate> {
    if candidates == [] then []
    else (if candidates[0].version == v then [candidates[0]] else []) + OfVersion(candidates[1..], v)
  }

  lemma {:induction false} InsertedKeeps(c: Candidate, rest: seq<Candidate>)
    ensures multiset(Inserted(c, rest)) == multiset(rest)[c := multiset(rest)[c] + 1]
  {
    hide AtMost;
    assert multiset([c] + rest) == multiset(rest)[c := multiset(rest)[c] + 1];
    if rest != [] && !AtMost(rest[0].version, c.version) {
      InsertedKeeps(c, rest[1..]);
      assert rest == [rest[0]] + rest[1..];
    }
  }

  lemma {:induction false} InsertedFalls(c: Candidate, rest: seq<Candidate>)
    requires Falling(rest)
    ensures Falling(Inserted(c, rest))
  {
    if rest != [] && !AtMost(rest[0].version, c.version) {
      var tail := Inserted(c, rest[1..]);
      InsertedFalls(c, rest[1..]);
      InsertedKeeps(c, rest[1..]);
      forall j | 0 <= j < |tail| ensures AtMost(tail[j].version, rest[0].version) {
        assert tail[j] in multiset(tail);
        OlderOrder(tail[j].version, rest[0].version, c.version);
      }
    } else {
      forall j | 0 <= j < |rest| ensures AtMost(rest[j].version, c.version) {
        OlderOrder(rest[j].version, rest[0].version, c.version);
      }
    }
  }

  lemma {:induction false} InsertedOrder(c: Candidate, rest: seq<Candidate>, v: Version)
    ensures OfVersion(Inserted(c, rest), v) == (if c.version == v then [c] else []) + OfVersion(rest, v)
  {
    assert ([c] + rest)[1..] == rest;
    if rest != [] && !AtMost(rest[0].version, c.version) {
      InsertedOrder(c, rest[1..], v);
      assert ([rest[0]] + Inserted(c, rest[1..]))[1..] == Inserted(c, rest[1..]);
      OlderOrder(rest[0].version, c.version, v);
    }
  }

  /** The sort neither loses nor adds an entry, puts newer ones first and keeps the order within a version. */
  lemma {:induction false} NewestFirstSorts(candidates: seq<Candidate>, v: Version)
    ensures var r := NewestFirst(candidates);
            Falling(r) && multiset(r) == multiset(candidates) && OfVersion(r, v) == OfVersion(candidates, v)
  {
    hide Inserted, AtMost;
    if candidates != [] {
      NewestFirstSorts(candidates[1..], v);
      InsertedKeeps(candidates[0], NewestFirst(candidates[1..]));
      InsertedFalls(candidates[0], NewestFirst(candidates[1..]));
      InsertedOrder(candidates[0], NewestFirst(candidates[1..]), v);
      assert candidates == [candidates[0]] + candidates[1..];
    }
  }

  /** The candidates of a listing that ends in time, newest first. */
  ghost function Discovered(pages: seq<Page>): Option<seq<Candidate>> {
    if n :| EndsAt(pages, n) then Some(NewestFirst(OfferedBy(pages[..n]))) else None
  }

  lemma DiscoveredAt(pages: seq<Page>, n: int)
    requires EndsAt(pages, n)
    ensures Discovered(pages) == Some(NewestFirst(OfferedBy(pages[..n])))
  {
    hide NewestFirst, OfferedBy;
    forall m | EndsAt(pages, m) ensures m == n {
    }
  }

  /**
   * What is found is exactly what the pages up to the first short one offer, which must be among the first five: newer
   * ones first, and in the listing's order within a version.
   */
  lemma DiscoveredExactly(pages: seq<Page>, v: Version)
    ensures Discovered(pages).Some? <==> exists n :: EndsAt(pages, n)
    ensures forall n :: EndsAt(pages, n) ==>
              var found, offered := Discovered(pages).value, OfferedBy(pages[..n]);
              Falling(found) && multiset(found) == multiset(offered) && OfVersion(found, v) == OfVersion(offered, v)
  {
    hide NewestFirst, OfferedBy;
    forall n | EndsAt(pages, n)
      ensures Discovered(pages).Some?
      ensures var found, offered := Discovered(pages).value, OfferedBy(pages[..n]);
              Falling(found) && multiset(found) == multiset(offered) && OfVersion(found, v) == OfVersion(offered, v)
    {
      DiscoveredAt(pages, n);
      NewestFirstSorts(OfferedBy(pages[..n]), v);
    }
  }

  /** Reads the listing page by page; `pages` holds the pages that can be fetched. */
  method Discover(pages: seq<Page>) returns (found: Option<seq<Candidate>>)
    ensures found == Discovered(pages)
  {
    var candidates: seq<Candidate> := [];
    for page := 0 to PAGES
      invariant page <= |pages| && candidates == OfferedBy(pages[..page])
      invariant forall i :: 0 <= i < page ==> |pages[i]| == PAGE
    {
      if page >= |pages| || |pages[page]| > PAGE {
        return None;
      }
      var items := pages[page];
      assert pages[..page + 1][..page] == pages[..page];
      ghost var start := candidates;
      for i := 0 to |items|
        invariant candidates == start + Offered(items[..i])
      {
        assert items[..i + 1][..i] == items[..i];
        if items[i].Some? {
          candidates := candidates + [items[i].value];
        }
      }
      assert items[..|items|] == items;
      if |items| < PAGE {
        assert EndsAt(pages, page + 1);
        DiscoveredAt(pages, page + 1);
        return Some(NewestFirst(candidates));
      }
    }
    return None;
  }

  // ---- Choosing a release ----

  const TRIED: nat := 10

  datatype Refreshed = Installed(release: Release) | UpToDate | Failure

  /**
   * A verified archive is of the version asked for, and has an image, which the installation checks once more.
   */
  predicate Imaged(candidates: seq<Candidate>, images: map<Release, Bytes>, check: Check) {
    forall c :: c in candidates && c.outcome.Verified? ==>
      && c.outcome.release.version == c.version
      && c.outcome.release in images && check(c.outcome.release, images[c.outcome.release])
  }

  /** The published releases after a refresh: the same, or one more that is newer than all. */
  ghost predicate Advances(before: Releases, after: Releases) {
    after == before || exists r: Release :: Newer(before, r.version) && after == before[r.version := r]
  }

  /** Strictly newer than everything published. */
  predicate Newer(releases: Releases, v: Version) {
    forall w :: w in releases ==> Older(w, v)
  }

  /** Candidate `i` is among those tried, is an advance, verifies, and can be installed. */
  predicate Installable(releases: Releases, candidates: seq<Candidate>, i: int) {
    && 0 <= i < |candidates| && i < 10 && Newer(releases, candidates[i].version)
    && candidates[i].outcome.Verified? && candidates[i].outcome.fault.NoFault?
  }

  /** The newest installable candidate is installed; without a stop there is none only if nothing was installed. */
  ghost predicate Chooses(releases: Releases, candidates: seq<Candidate>, result: Refreshed) {
    if result.Installed? then
      && (exists i :: Installable(releases, candidates, i) && candidates[i].outcome.release == result.release)
      && forall j :: Installable(releases, candidates, j) ==> AtMost(candidates[j].version, result.release.version)
    else
      (forall i :: 0 <= i < |candidates| && i < 10 ==> !candidates[i].outcome.Stopped?) ==>
        forall i :: !Installable(releases, candidates, i)
  }

  lemma NewerLatest(releases: Releases, r: Release, v: Version)
    requires IsLatest(releases, r)
    ensures Newer(releases, v) <==> Older(r.version, v)
  {
    forall w | w in releases && Older(r.version, v) ensures Older(w, v) {
      OlderOrder(w, r.version, v);
    }
  }

  class GithubUpdater {
    const check: Check
    var releases: Releases
    var disk: Disk

    constructor (check: Check, disk: Disk, names: seq<Key>)
      requires Listing(names, disk)
      ensures this.check == check && this.disk == disk && releases == Load(disk, names, check) && Filed(releases)
    {
      this.check, this.disk, releases := check, disk, map[];
      new;
      ReadRecords(names);
      FiledLoad(disk, names, check);
    }

    /** The loop over the 64 newest records. */
    method ReadRecords(names: seq<Key>)
      requires Listing(names, disk) && releases == map[]
      modifies this`releases
      ensures releases == Load(disk, names, check)
    {
      hide Intact, Listing;
      var read := First(names);
      for i := 0 to |read|
        invariant releases == Loaded(disk, read[..i], check)
      {
        var key := read[i];
        assert read[..i + 1][..i] == read[..i];
        if Intact(disk, key, check) {
          IntactRecord(disk, key, check);
          releases := releases[key.version := disk.records[key].release];
        }
      }
      assert read[..|read|] == read;
    }

    method Get(v: Version) returns (release: Option<Release>)
      ensures release.Some? <==> v in releases
      ensures release.Some? ==> release.value == releases[v]
    {
      release := if v in releases then Some(releases[v]) else None;
    }

    method Latest() returns (release: Option<Release>)
      requires Filed(releases)
      ensures release.None? <==> releases == map[]
      ensures release.Some? ==> IsLatest(releases, release.value)
    {
      release := None;
      var rest := releases.Keys;
      while rest != {}
        invariant rest <= releases.Keys
        invariant release.None? <==> rest == releases.Keys
        invariant release.Some? ==>
                    release.value.version in releases && releases[release.value.version] == release.value
        invariant release.Some? ==> forall v :: v in releases && v !in rest ==> AtMost(v, release.value.version)
        decreases rest
      {
        var v :| v in rest;
        if release.None? || Older(release.value.version, v) {
          if release.Some? {
            forall w | w in releases && w !in rest ensures AtMost(w, v) {
              OlderOrder(w, release.value.version, v);
            }
          }
          release := Some(releases[v]);
        } else {
          OlderOrder(v, release.value.version, v);
        }
        rest := rest - {v};
      }
      assert release.None? ==> releases == map[] by {
        if release.None? { assert releases.Keys == {}; }
      }
    }

    /** An installation: the image, then its record, then the directory; published last, and only if nothing throws. */
    method InstallRelease(r: Release, bytes: Bytes, fault: Fault) returns (ok: bool)
      requires check(r, bytes)
      modifies this
      ensures ok <==> fault.NoFault?
      ensures disk == Install(old(disk), r, bytes, Written(fault))
      ensures releases == if ok then old(releases)[r.version := r] else old(releases)
    {
      if fault.AtImage? {
        return false;
      }
      disk := disk.(binaries := disk.binaries[KeyOf(r) := bytes]);
      if fault.AtRecord? {
        return false;
      }
      disk := disk.(records := disk.records[KeyOf(r) := Metadata(r)]);
      if fault.AtSync? {
        return false;
      }
      releases := releases[r.version := r];
      return true;
    }

    /**
     * Discovers the candidates and tries the ten newest in turn. What it installs is the first, so the newest, that is
     * an advance and verifies; it fails or finds nothing only if there is none, unless it was stopped.
     */
    method Refresh(pages: seq<Page>, images: map<Release, Bytes>) returns (result: Refreshed)
      requires Filed(releases)
      requires forall page :: page in pages ==> Imaged(Offered(page), images, check)
      modifies this
      ensures Filed(releases) && Advances(old(releases), releases)
      ensures Binding(check) ==> forall key :: Intact(old(disk), key, check) ==> Intact(disk, key, check)
      ensures Discovered(pages).None? ==> result == Failure && disk == old(disk)
      ensures result.Installed? ==> releases == old(releases)[result.release.version := result.release]
      ensures !result.Installed? ==> releases == old(releases)
      ensures Discovered(pages).Some? ==> Chooses(old(releases), Discovered(pages).value, result)
    {
      hide Imaged, Discovered, Offered, Intact, Installable, Chooses;
      var found := Discover(pages);
      if found.None? {
        return Failure;
      }
      DiscoveredImaged(pages, images, check);
      result := Try(found.value, images);
    }

    /** The loop over the candidates. */
    method Try(candidates: seq<Candidate>, images: map<Release, Bytes>) returns (result: Refreshed)
      requires Filed(releases) && Falling(candidates) && Imaged(candidates, images, check)
      modifies this
      ensures Filed(releases) && Advances(old(releases), releases)
      ensures Binding(check) ==> forall key :: Intact(old(disk), key, check) ==> Intact(disk, key, check)
      ensures result.Installed? ==> releases == old(releases)[result.release.version := result.release]
      ensures !result.Installed? ==> releases == old(releases)
      ensures Chooses(old(releases), candidates, result)
    {
      hide Imaged;
      result := UpToDate;
      var count := if |candidates| < TRIED then |candidates| else TRIED;
      for i := 0 to count
        invariant releases == old(releases) && !result.Installed?
        invariant Binding(check) ==> forall key :: Intact(old(disk), key, check) ==> Intact(disk, key, check)
        invariant forall j :: 0 <= j < i ==> !Installable(releases, candidates, j)
      {
        var candidate := candidates[i];
        var current := Latest();
        if current.Some? {
          NewerLatest(releases, current.value, candidate.version);
          OlderOrder(current.value.version, candidate.version, candidate.version);
        }
        if current.Some? && !Older(current.value.version, candidate.version) {
          forall j | i <= j < |candidates| ensures !Installable(releases, candidates, j) {
            NewerLatest(releases, current.value, candidates[j].version);
            OlderOrder(current.value.version, candidates[j].version, candidate.version);
          }
          return;
        }
        match candidate.outcome {
          case Verified(release, fault) =>
            ImagedOne(candidates, images, check, i);
            assert fault.NoFault? ==> Installable(releases, candidates, i);
            KeepsAll(disk, release, images[release], Written(fault), check);
            var ok := InstallRelease(release, images[release], fault);
            if ok {
              return Installed(release);
            }
            result := Failure;
          case Refused => result := Failure;
          case Stopped => return Failure;
        }
      }
    }
  }

  lemma ImagedOne(candidates: seq<Candidate>, images: map<Release, Bytes>, check: Check, i: nat)
    requires Imaged(candidates, images, check) && i < |candidates| && candidates[i].outcome.Verified?
    ensures var release := candidates[i].outcome.release;
            release.version == candidates[i].version && release in images && check(release, images[release])
  {
    assert candidates[i] in candidates;
  }

  lemma {:induction false} OfferedImaged(pages: seq<Page>, images: map<Release, Bytes>, check: Check)
    requires forall page :: page in pages ==> Imaged(Offered(page), images, check)
    ensures Imaged(OfferedBy(pages), images, check)
  {
    if pages != [] {
      assert pages[|pages| - 1] in pages && forall page :: page in pages[..|pages| - 1] ==> page in pages;
      OfferedImaged(pages[..|pages| - 1], images, check);
    }
  }

  lemma DiscoveredImaged(pages: seq<Page>, images: map<Release, Bytes>, check: Check)
    requires forall page :: page in pages ==> Imaged(Offered(page), images, check)
    ensures Discovered(pages).Some? ==>
              Imaged(Discovered(pages).value, images, check) && Falling(Discovered(pages).value)
  {
    if Discovered(pages).Some? {
      var n :| EndsAt(pages, n) && Discovered(pages) == Some(NewestFirst(OfferedBy(pages[..n])));
      var candidates := OfferedBy(pages[..n]);
      OfferedImaged(pages[..n], images, check);
      NewestFirstSorts(candidates, Version(0, 0, 0));
      forall c | c in NewestFirst(candidates) ensures c in candidates {
        assert c in multiset(candidates);
      }
    }
  }

  lemma IntactRecord(disk: Disk, key: Key, check: Check)
    requires Intact(disk, key, check)
    ensures key in disk.records && disk.records[key].Metadata? && KeyOf(disk.records[key].release) == key
  {}

  lemma KeepsAll(disk: Disk, r: Release, bytes: Bytes, cut: Cut, check: Check)
    requires check(r, bytes)
    ensures Binding(check) ==> forall key :: Intact(disk, key, check) ==>
              Intact(Install(disk, r, bytes, cut), key, check)
  {
    if Binding(check) {
      forall key | Intact(disk, key, check) ensures Intact(Install(disk, r, bytes, cut), key, check) {
        KeepsIntact(disk, r, bytes, cut, check, key);
      }
    }
  }

  /** A refresh never lowers the latest version, and what it installs becomes the latest. */
  lemma AdvanceRaises(before: Releases, after: Releases, was: Release, now: Release)
    requires Filed(before) && Advances(before, after) && IsLatest(before, was) && IsLatest(after, now)
    ensures AtMost(was.version, now.version) && (after != before ==> Older(was.version, now.version))
  {
    if after == before {
      LatestUnique(before, was, now);
    } else {
      var r: Release :| Newer(before, r.version) && after == before[r.version := r];
      assert r.version in after;
      OlderOrder(now.version, r.version, was.version);
    }
  }

  /** Over any sequence of refreshes the latest version never goes down. */
  lemma {:induction false} LatestNeverFalls(history: seq<Releases>, was: Release, now: Release)
    requires |history| > 0 && (forall i :: 0 <= i < |history| ==> Filed(history[i]))
    requires forall i :: 0 < i < |history| ==> Advances(history[i - 1], history[i])
    requires IsLatest(history[0], was) && IsLatest(history[|history| - 1], now)
    ensures AtMost(was.version, now.version)
    decreases |history|
  {
    hide Advances, Filed, IsLatest;
    if |history| == 1 {
      LatestUnique(history[0], was, now);
    } else {
      var front, last := history[..|history| - 1], |history| - 1;
      NonEmptyStays(history, was);
      LatestExists(history[last - 1]);
      var middle :| IsLatest(history[last - 1], middle);
      LatestNeverFalls(front, was, middle);
      AdvanceRaises(history[last - 1], history[last], middle, now);
      OlderOrder(was.version, middle.version, now.version);
    }
  }

  lemma {:induction false} NonEmptyStays(history: seq<Releases>, was: Release)
    requires |history| > 1 && IsLatest(history[0], was)
    requires forall i :: 0 < i < |history| ==> Advances(history[i - 1], history[i])
    ensures history[|history| - 2] != map[]
    decreases |history|
  {
    if |history| > 2 {
      NonEmptyStays(history[..|history| - 1], was);
      var last := |history| - 2;
      assert Advances(history[last - 1], history[last]);
      assert history[..|history| - 1][|history| - 3] == history[last - 1];
      if history[last] != history[last - 1] {
        var r: Release :| Newer(history[last - 1], r.version) && history[last] == history[last - 1][r.version := r];
        assert r.version in history[last];
      }
    }
  }
}
