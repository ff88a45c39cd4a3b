/** The pool of downloaded binaries: which file goes when records are deleted. */
module BinaryPool {
  import opened Text

  /** What the name of a file is made from. Different keys are different files. */
  datatype Key = Key(name: string, checksum: string)

  datatype Manifest = Manifest(id: nat, name: string, checksum: string)

  /** A version of the software of one manifest, whose name it shares. */
  datatype Version = Version(id: nat, manifest: nat, checksum: string)

  // ---- Records and their files ----

  function NameOf(manifests: seq<Manifest>, id: nat): string {
    if manifests == [] then "" else if manifests[0].id == id then manifests[0].name else NameOf(manifests[1..], id)
  }

  function ManifestKey(m: Manifest): Key { Key(m.name, m.checksum) }

  function VersionKey(manifests: seq<Manifest>, v: Version): Key { Key(NameOf(manifests, v.manifest), v.checksum) }

  predicate Named(k: Key) { k.name != "" && k.checksum != "" }

  function ManifestRefs(rows: seq<Manifest>, k: Key): nat {
    if rows == [] then 0 else (if ManifestKey(rows[0]) == k then 1 else 0) + ManifestRefs(rows[1..], k)
  }

  function VersionRefs(manifests: seq<Manifest>, rows: seq<Version>, k: Key): nat {
    if rows == [] then 0
    else (if VersionKey(manifests, rows[0]) == k then 1 else 0) + VersionRefs(manifests, rows[1..], k)
  }

  function KeepManifests(rows: seq<Manifest>, gone: set<nat>): seq<Manifest> {
    if rows == [] then [] else (if rows[0].id in gone then [] else [rows[0]]) + KeepManifests(rows[1..], gone)
  }

  function TakeManifests(rows: seq<Manifest>, ids: set<nat>): seq<Manifest> {
    if rows == [] then [] else (if rows[0].id in ids then [rows[0]] else []) + TakeManifests(rows[1..], ids)
  }

  function KeepVersions(rows: seq<Version>, gone: set<nat>): seq<Version> {
    if rows == [] then [] else (if rows[0].id in gone then [] else [rows[0]]) + KeepVersions(rows[1..], gone)
  }

  function TakeVersions(rows: seq<Version>, ids: set<nat>): seq<Version> {
    if rows == [] then [] else (if rows[0].id in ids then [rows[0]] else []) + TakeVersions(rows[1..], ids)
  }

  /** The versions that go with their manifests, and those that stay. */
  function Orphaned(rows: seq<Version>, manifests: set<nat>): seq<Version> {
    if rows == [] then []
    else (if rows[0].manifest in manifests then [rows[0]] else []) + Orphaned(rows[1..], manifests)
  }

  function Unorphaned(rows: seq<Version>, manifests: set<nat>): seq<Version> {
    if rows == [] then []
    else (if rows[0].manifest in manifests then [] else [rows[0]]) + Unorphaned(rows[1..], manifests)
  }

  // ---- The operations ----

  type Counter = map<Key, nat>

  function Tally(c: Counter, k: Key): nat { if k in c then c[k] else 0 }

  class Pool {
    var manifests: seq<Manifest>
    var versions: seq<Version>
    var files: set<Key>

    constructor (manifests: seq<Manifest>, versions: seq<Version>, files: set<Key>)
      ensures this.manifests == manifests && this.versions == versions && this.files == files
    {
      this.manifests, this.versions, this.files := manifests, versions, files;
    }

    /** `_count_binary_file_references`. */
    method CountReferences(keys: seq<Key>) returns (counts: Counter)
      ensures forall k :: k in keys && Named(k) ==>
                Tally(counts, k) == ManifestRefs(manifests, k) + VersionRefs(manifests, versions, k)
    {
      counts := map[];
      var checksums := set k | k in keys && Named(k) :: k.checksum;
      assert manifests[0..] == manifests && versions[0..] == versions;
      for i := 0 to |manifests|
        invariant forall k :: k in keys && Named(k) ==>
                    Tally(counts, k) + ManifestRefs(manifests[i..], k) == ManifestRefs(manifests, k)
      {
        Rest(manifests, i);
        var m := manifests[i];
        if m.checksum in checksums {
          counts := counts[ManifestKey(m) := Tally(counts, ManifestKey(m)) + 1];
        }
      }
      assert manifests[|manifests|..] == [];
      for i := 0 to |versions|
        invariant forall k :: k in keys && Named(k) ==>
                    Tally(counts, k) + VersionRefs(manifests, versions[i..], k) ==
                    ManifestRefs(manifests, k) + VersionRefs(manifests, versions, k)
      {
        Rest(versions, i);
        var v := versions[i];
        if v.checksum in checksums {
          counts := counts[VersionKey(manifests, v) := Tally(counts, VersionKey(manifests, v)) + 1];
        }
      }
      assert versions[|versions|..] == [];
    }

    /** The file part of both `unlink`s: a file goes if all references to it are among `keys`. */
    method RemoveFiles(keys: seq<Key>)
      modifies this`files
      ensures forall k :: k in files <==>
                k in old(files) &&
                !(k in keys && Named(k) &&
                  ManifestRefs(manifests, k) + VersionRefs(manifests, versions, k) <= Occurrences(keys, k))
    {
      var counts := CountReferences(keys);
      var own := Occurring(keys);
      for i := 0 to |keys|
        invariant forall k :: k in files <==>
                    k in old(files) &&
                    !(k in keys[..i] && Named(k) &&
                      ManifestRefs(manifests, k) + VersionRefs(manifests, versions, k) <= Occurrences(keys, k))
      {
        var key := keys[i];
        assert keys[..i + 1] == keys[..i] + [key];
        if Named(key) && Tally(counts, key) - Tally(own, key) <= 0 {
          files := files - {key};
        }
      }
      assert keys[..|keys|] == keys;
    }

    /** `binary.version.unlink`. */
    method UnlinkVersions(ids: set<nat>)
      modifies this`files, this`versions
      ensures versions == KeepVersions(old(versions), ids)
      ensures forall k :: k in files <==> k in old(files) && !VersionsFree(manifests, old(versions), ids, k)
    {
      var keys := VersionKeys(manifests, TakeVersions(versions, ids));
      forall k
        ensures (k in keys && Named(k)
                 && ManifestRefs(manifests, k) + VersionRefs(manifests, versions, k) <= Occurrences(keys, k))
                <==> VersionsFree(manifests, versions, ids, k)
      {
        VersionCounts(manifests, versions, ids, k);
      }
      RemoveFiles(keys);
      versions := KeepVersions(versions, ids);
    }

    /** `binary.manifest.unlink`: the database deletes the versions of the manifests with them. */
    method UnlinkManifests(ids: set<nat>)
      modifies this
      ensures manifests == KeepManifests(old(manifests), ids) && versions == Unorphaned(old(versions), ids)
      ensures forall k :: k in files <==> k in old(files) && !ManifestsFree(old(manifests), old(versions), ids, k)
    {
      var keys := ManifestKeys(TakeManifests(manifests, ids));
      forall k
        ensures (k in keys && Named(k)
                 && ManifestRefs(manifests, k) + VersionRefs(manifests, versions, k) <= Occurrences(keys, k))
                <==> ManifestsFree(manifests, versions, ids, k)
      {
        ManifestCounts(manifests, ids, k);
      }
      RemoveFiles(keys);
      manifests, versions := KeepManifests(manifests, ids), Unorphaned(versions, ids);
    }
  }

  function Occurrences(keys: seq<Key>, k: Key): nat {
    if keys == [] then 0 else (if keys[0] == k then 1 else 0) + Occurrences(keys[1..], k)
  }

  /** `Counter(keys)`. */
  method Occurring(keys: seq<Key>) returns (c: Counter)
    ensures forall k :: Tally(c, k) == Occurrences(keys, k)
  {
    c := map[];
    assert keys[0..] == keys;
    for i := 0 to |keys|
      invariant forall k :: Tally(c, k) + Occurrences(keys[i..], k) == Occurrences(keys, k)
    {
      Rest(keys, i);
      c := c[keys[i] := Tally(c, keys[i]) + 1];
    }
    assert keys[|keys|..] == [];
  }

  function ManifestKeys(rows: seq<Manifest>): seq<Key> {
    if rows == [] then [] else [ManifestKey(rows[0])] + ManifestKeys(rows[1..])
  }

  function VersionKeys(manifests: seq<Manifest>, rows: seq<Version>): seq<Key> {
    if rows == [] then [] else [VersionKey(manifests, rows[0])] + VersionKeys(manifests, rows[1..])
  }

  // ---- What the counts mean ----

  /** Some of the deleted versions map to `k`, and no other record does. */
  ghost predicate VersionsFree(manifests: seq<Manifest>, versions: seq<Version>, ids: set<nat>, k: Key) {
    && Named(k)
    && VersionRefs(manifests, TakeVersions(versions, ids), k) > 0
    && ManifestRefs(manifests, k) == 0
    && VersionRefs(manifests, KeepVersions(versions, ids), k) == 0
  }

  /** Some of the deleted manifests map to `k`, and no other record does, not even a version that goes with them. */
  ghost predicate ManifestsFree(manifests: seq<Manifest>, versions: seq<Version>, ids: set<nat>, k: Key) {
    && Named(k)
    && ManifestRefs(TakeManifests(manifests, ids), k) > 0
    && ManifestRefs(KeepManifests(manifests, ids), k) == 0
    && VersionRefs(manifests, versions, k) == 0
  }

  lemma OccurrencesFirst(first: Key, rest: seq<Key>, k: Key)
    ensures Occurrences([first] + rest, k) == (if first == k then 1 else 0) + Occurrences(rest, k)
    ensures k in [first] + rest <==> first == k || k in rest
  {
    assert ([first] + rest)[1..] == rest;
  }

  lemma VersionFirst(manifests: seq<Manifest>, first: Version, rest: seq<Version>, k: Key)
    ensures VersionRefs(manifests, [first] + rest, k) ==
            (if VersionKey(manifests, first) == k then 1 else 0) + VersionRefs(manifests, rest, k)
    ensures VersionKeys(manifests, [first] + rest) == [VersionKey(manifests, first)] + VersionKeys(manifests, rest)
  {
    assert ([first] + rest)[1..] == rest;
  }

  lemma ManifestFirst(first: Manifest, rest: seq<Manifest>, k: Key)
    ensures ManifestRefs([first] + rest, k) == (if ManifestKey(first) == k then 1 else 0) + ManifestRefs(rest, k)
    ensures ManifestKeys([first] + rest) == [ManifestKey(first)] + ManifestKeys(rest)
  {
    assert ([first] + rest)[1..] == rest;
  }

  lemma {:induction false} VersionCounts(manifests: seq<Manifest>, rows: seq<Version>, ids: set<nat>, k: Key)
    ensures var own := VersionKeys(manifests, TakeVersions(rows, ids));
            && Occurrences(own, k) == VersionRefs(manifests, TakeVersions(rows, ids), k)
            && (k in own <==> Occurrences(own, k) > 0)
            && VersionRefs(manifests, rows, k)
               == Occurrences(own, k) + VersionRefs(manifests, KeepVersions(rows, ids), k)
  {
    hide VersionKey, Occurrences, VersionKeys;
    if rows == [] {
      assert VersionKeys(manifests, []) == [] && Occurrences([], k) == 0 by { NoKeys(manifests, k); }
    } else {
      var first, rest, kept := rows[0], TakeVersions(rows[1..], ids), KeepVersions(rows[1..], ids);
      VersionCounts(manifests, rows[1..], ids, k);
      if first.id in ids {
        assert TakeVersions(rows, ids) == [first] + rest && KeepVersions(rows, ids) == [] + kept == kept;
        VersionFirst(manifests, first, rest, k);
        OccurrencesFirst(VersionKey(manifests, first), VersionKeys(manifests, rest), k);
      } else {
        assert TakeVersions(rows, ids) == [] + rest == rest && KeepVersions(rows, ids) == [first] + kept;
        VersionFirst(manifests, first, kept, k);
      }
    }
  }

  lemma NoKeys(manifests: seq<Manifest>, k: Key)
    ensures VersionKeys(manifests, []) == [] == ManifestKeys([]) && Occurrences([], k) == 0
  {
  }

  lemma {:induction false} ManifestCounts(rows: seq<Manifest>, ids: set<nat>, k: Key)
    ensures var own := ManifestKeys(TakeManifests(rows, ids));
            && Occurrences(own, k) == ManifestRefs(TakeManifests(rows, ids), k)
            && (k in own <==> Occurrences(own, k) > 0)
            && ManifestRefs(rows, k) == Occurrences(own, k) + ManifestRefs(KeepManifests(rows, ids), k)
  {
    hide ManifestKey, Occurrences, ManifestKeys;
    if rows == [] {
      assert ManifestKeys([]) == [] && Occurrences([], k) == 0 by { NoKeys([], k); }
    } else {
      var first, rest, kept := rows[0], TakeManifests(rows[1..], ids), KeepManifests(rows[1..], ids);
      ManifestCounts(rows[1..], ids, k);
      if first.id in ids {
        assert TakeManifests(rows, ids) == [first] + rest && KeepManifests(rows, ids) == [] + kept == kept;
        ManifestFirst(first, rest, k);
        OccurrencesFirst(ManifestKey(first), ManifestKeys(rest), k);
      } else {
        assert TakeManifests(rows, ids) == [] + rest == rest && KeepManifests(rows, ids) == [first] + kept;
        ManifestFirst(first, kept, k);
      }
    }
  }

  // ---- What deletions leave ----

  /** The records and the files, as values. */
  datatype Store = Store(manifests: seq<Manifest>, versions: seq<Version>, files: set<Key>)

  datatype Deletion = DeleteVersions(ids: set<nat>) | DeleteManifests(ids: set<nat>)

  ghost function Delete(s: Store, d: Deletion): Store {
    match d
    case DeleteVersions(ids) =>
      Store(s.manifests, KeepVersions(s.versions, ids),
            set k | k in s.files && !VersionsFree(s.manifests, s.versions, ids, k))
    case DeleteManifests(ids) =>
      Store(KeepManifests(s.manifests, ids), Unorphaned(s.versions, ids),
            set k | k in s.files && !ManifestsFree(s.manifests, s.versions, ids, k))
  }

  ghost function DeleteAll(s: Store, ds: seq<Deletion>): Store
    decreases |ds|
  {
    if ds == [] then s else DeleteAll(Delete(s, ds[0]), ds[1..])
  }

  /** A record maps to the file. */
  predicate Needed(s: Store, k: Key) {
    Named(k) && ManifestRefs(s.manifests, k) + VersionRefs(s.manifests, s.versions, k) > 0
  }

  /** Every version has its manifest, and no two manifests have the same id. */
  predicate WellKeyed(s: Store) {
    DistinctIds(s.manifests) && AllKnown(s.manifests, s.versions)
  }

  predicate HasId(rows: seq<Manifest>, id: nat) {
    rows != [] && (rows[0].id == id || HasId(rows[1..], id))
  }

  predicate DistinctIds(rows: seq<Manifest>) {
    rows != [] ==> !HasId(rows[1..], rows[0].id) && DistinctIds(rows[1..])
  }

  predicate AllKnown(manifests: seq<Manifest>, rows: seq<Version>) {
    rows != [] ==> HasId(manifests, rows[0].manifest) && AllKnown(manifests, rows[1..])
  }

  lemma {:induction false} NameKept(rows: seq<Manifest>, gone: set<nat>, id: nat)
    requires id !in gone
    ensures NameOf(KeepManifests(rows, gone), id) == NameOf(rows, id)
    ensures HasId(KeepManifests(rows, gone), id) <==> HasId(rows, id)
  {
    if rows != [] {
      NameKept(rows[1..], gone, id);
      var kept := KeepManifests(rows[1..], gone);
      assert ([rows[0]] + kept)[1..] == kept && [] + kept == kept;
    }
  }

  /** The versions that stay map to the same files after their neighbours' manifests are gone. */
  lemma {:induction false} VersionsSplit(manifests: seq<Manifest>, rows: seq<Version>, gone: set<nat>, k: Key)
    ensures VersionRefs(KeepManifests(manifests, gone), Unorphaned(rows, gone), k)
            == VersionRefs(manifests, Unorphaned(rows, gone), k)
    ensures VersionRefs(manifests, rows, k) ==
            VersionRefs(manifests, Unorphaned(rows, gone), k) + VersionRefs(manifests, Orphaned(rows, gone), k)
  {
    hide NameOf;
    if rows != [] {
      var first, rest, kept := rows[0], Orphaned(rows[1..], gone), Unorphaned(rows[1..], gone);
      VersionsSplit(manifests, rows[1..], gone, k);
      assert [] + rest == rest && [] + kept == kept;
      if first.manifest in gone {
        VersionFirst(manifests, first, rest, k);
      } else {
        NameKept(manifests, gone, first.manifest);
        VersionFirst(manifests, first, kept, k);
        VersionFirst(KeepManifests(manifests, gone), first, kept, k);
      }
    }
  }

  /** Deleting versions removes exactly the files that a deleted version maps to and no record that stays does; so a
      file that a record needs never goes, and none stays for a deleted version alone. */
  lemma VersionsExactly(s: Store, ids: set<nat>, k: Key)
    requires k in s.files
    ensures var r := Delete(s, DeleteVersions(ids));
            k !in r.files <==>
            Named(k) && VersionRefs(s.manifests, TakeVersions(s.versions, ids), k) > 0 && !Needed(r, k)
  {
  }

  /** Deleting manifests removes exactly the files that a deleted manifest maps to, no record that stays does, and no
      version that goes with the manifests does. */
  lemma ManifestsExactly(s: Store, ids: set<nat>, k: Key)
    requires k in s.files
    ensures var r := Delete(s, DeleteManifests(ids));
            k !in r.files <==>
            && Named(k) && ManifestRefs(TakeManifests(s.manifests, ids), k) > 0 && !Needed(r, k)
            && VersionRefs(s.manifests, Orphaned(s.versions, ids), k) == 0
  {
    VersionsSplit(s.manifests, s.versions, ids, k);
  }

  /** A record without a name or a checksum has no file, and no deletion removes one for it. */
  lemma UnnamedStays(s: Store, d: Deletion, k: Key)
    requires k in s.files && (k.name == "" || k.checksum == "")
    ensures k in Delete(s, d).files
  {
  }

  /** Which records are deleted: those with the ids, and the versions of the deleted manifests. */
  lemma RecordsExactly(s: Store, d: Deletion)
    ensures var r := Delete(s, d);
            && (forall m :: m in r.manifests <==> m in s.manifests && (d.DeleteManifests? ==> m.id !in d.ids))
            && (forall v :: v in r.versions <==>
                  v in s.versions && (if d.DeleteManifests? then v.manifest !in d.ids else v.id !in d.ids))
  {
    match d
    case DeleteVersions(ids) => VersionsKept(s.versions, ids);
    case DeleteManifests(ids) =>
      ManifestsKept(s.manifests, ids);
      OthersKept(s.versions, ids);
  }

  lemma {:induction false} VersionsKept(rows: seq<Version>, gone: set<nat>)
    ensures forall v :: v in KeepVersions(rows, gone) <==> v in rows && v.id !in gone
  {
    if rows != [] {
      VersionsKept(rows[1..], gone);
    }
  }

  lemma {:induction false} ManifestsKept(rows: seq<Manifest>, gone: set<nat>)
    ensures forall m :: m in KeepManifests(rows, gone) <==> m in rows && m.id !in gone
  {
    if rows != [] {
      ManifestsKept(rows[1..], gone);
    }
  }

  lemma {:induction false} OthersKept(rows: seq<Version>, manifests: set<nat>)
    ensures forall v :: v in Unorphaned(rows, manifests) <==> v in rows && v.manifest !in manifests
  {
    if rows != [] {
      OthersKept(rows[1..], manifests);
    }
  }

  /** Over any deletions, a file that a record still needs at the end is never removed. */
  lemma {:induction false} NeededStays(s: Store, ds: seq<Deletion>, k: Key)
    requires k in s.files && Needed(DeleteAll(s, ds), k)
    ensures k in DeleteAll(s, ds).files && Needed(s, k)
    decreases |ds|
  {
    hide Needed, Delete;
    if ds != [] {
      var r := Delete(s, ds[0]);
      NeededBefore(DeleteAll(r, ds[1..]), r, ds[1..], k);
      StepKeepsNeeded(s, ds[0], k);
      NeededStays(r, ds[1..], k);
    }
  }

  /** A file that is needed after some deletions was needed before them. */
  lemma {:induction false} NeededBefore(last: Store, s: Store, ds: seq<Deletion>, k: Key)
    requires last == DeleteAll(s, ds) && Needed(last, k)
    ensures Needed(s, k)
    decreases |ds|
  {
    hide Needed, Delete;
    if ds != [] {
      NeededBefore(last, Delete(s, ds[0]), ds[1..], k);
      StepKeepsNeeded(s, ds[0], k);
    }
  }

  lemma StepKeepsNeeded(s: Store, d: Deletion, k: Key)
    requires Needed(Delete(s, d), k)
    ensures Needed(s, k) && (k in s.files ==> k in Delete(s, d).files)
  {
    match d
    case DeleteVersions(ids) => VersionCounts(s.manifests, s.versions, ids, k);
    case DeleteManifests(ids) =>
      ManifestCounts(s.manifests, ids, k);
      VersionsSplit(s.manifests, s.versions, ids, k);
  }

  /** Every file of the pool has a record. */
  ghost predicate Tidy(s: Store) { forall k :: k in s.files ==> Needed(s, k) }

  /** A tidy pool stays tidy when versions are deleted; and when manifests are, if and only if each file of a version
      that goes with them is still needed by a record that stays. */
  lemma TidyExactly(s: Store, d: Deletion)
    requires Tidy(s)
    ensures Tidy(Delete(s, d)) <==>
            (d.DeleteManifests? ==>
               forall k :: k in s.files && VersionRefs(s.manifests, Orphaned(s.versions, d.ids), k) > 0 ==>
                 ManifestRefs(KeepManifests(s.manifests, d.ids), k)
                 + VersionRefs(s.manifests, Unorphaned(s.versions, d.ids), k) > 0)
  {
    var r := Delete(s, d);
    forall k | k in s.files
      ensures k in r.files ==>
                (Needed(r, k) <==>
                 (d.DeleteManifests? ==>
                    VersionRefs(s.manifests, Orphaned(s.versions, d.ids), k) > 0 ==>
                      ManifestRefs(KeepManifests(s.manifests, d.ids), k)
                      + VersionRefs(s.manifests, Unorphaned(s.versions, d.ids), k) > 0))
      ensures k !in r.files && d.DeleteManifests? ==> VersionRefs(s.manifests, Orphaned(s.versions, d.ids), k) == 0
    {
      TidyFile(s, d, k);
    }
  }

  lemma TidyFile(s: Store, d: Deletion, k: Key)
    requires k in s.files && Needed(s, k)
    ensures var r := Delete(s, d);
            && (k in r.files ==>
                  (Needed(r, k) <==>
                   (d.DeleteManifests? ==>
                      VersionRefs(s.manifests, Orphaned(s.versions, d.ids), k) > 0 ==>
                        ManifestRefs(KeepManifests(s.manifests, d.ids), k)
                        + VersionRefs(s.manifests, Unorphaned(s.versions, d.ids), k) > 0)))
            && (k !in r.files && d.DeleteManifests? ==> VersionRefs(s.manifests, Orphaned(s.versions, d.ids), k) == 0)
  {
    match d
    case DeleteVersions(ids) => VersionCounts(s.manifests, s.versions, ids, k);
    case DeleteManifests(ids) =>
      ManifestCounts(s.manifests, ids, k);
      VersionsSplit(s.manifests, s.versions, ids, k);
  }

  /** Deleting a manifest leaves the file of its version behind: nothing maps to it any more. */
  lemma VersionFileLeft()
    ensures var k := Key("tool", "b");
            var s := Store([Manifest(1, "tool", "a")], [Version(1, 1, "b")], {k});
            var r := Delete(s, DeleteManifests({1}));
            Tidy(s) && WellKeyed(s) && k in r.files && !Needed(r, k)
  {
    var m := Manifest(1, "tool", "a");
    var v := Version(1, 1, "b");
    var k := Key("tool", "b");
    var s := Store([m], [v], {k});
    assert [m][1..] == [] && [v][1..] == [];
    assert VersionRefs([m], [v], k) == 1 by { assert VersionKey([m], v) == k; }
    assert Unorphaned([v], {1}) == [] && KeepManifests([m], {1}) == [];
  }
}
