/** What the installation report proves to whoever checks the build attestations. */
module WheelAttestation {
  import opened Text
  import opened ReleasePaths
  import opened ReleaseScan
  import opened ReleaseManifest
  import opened WheelInstall
  import opened WheelVerify

  /** The locked wheels as `_validate_candidate_build_attestations` wants them. */
  predicate BareNames(locks: seq<WheelLock>) {
    forall i | 0 <= i < |locks| :: Name(locks[i].filename) == locks[i].filename
  }

  /** One line of the report against its lock. */
  predicate ReportLineOk(w: WheelReport, lock: WheelLock) {
    w.filename == lock.filename && w.archiveSha256 == lock.sha256
    && IsSha256(w.sourceRecordSha256) && IsSha256(w.installedRecordSha256) && w.installedFiles == w.sourceFiles + 3
  }

  /** The wheel part of `_validate_candidate_build_attestations`. */
  predicate ValidAttestation(lib: Library, enc: Encoders, r: Report, locks: seq<WheelLock>) {
    && BareNames(locks) && (forall i | 0 <= i < |locks| :: IsSha256(locks[i].sha256))
    && r.wheelCount == |r.wheels| == |locks|
    && IsSha256(r.lockedWheelsSha256) && IsSha256(r.installedTreeSha256)
      && r.lockedWheelsSha256 == lib.sha256(enc.locks(locks))
    && (forall i | 0 <= i < |locks| :: ReportLineOk(r.wheels[i], locks[i]))
    && r.sourceFiles == SourceFiles(r.wheels) && r.installedFiles == InstalledFiles(r.wheels)
    && r.generatedFiles == 2 * |r.wheels|
  }

  /** A report of the verification passes the attestation check whenever the lock itself has bare file names. */
  lemma ReportAttests(lib: Library, enc: Encoders, walk: seq<Visit>, wheelhouse: map<Str, Wheel>, locks: seq<WheelLock>,
          facts: seq<Facts>, r: Report)
    requires HexDigests(lib) && Explained(lib, enc, walk, wheelhouse, locks, facts)
    requires AllReports(lib, locks, facts, r.wheels) && Counted(r, Union(facts)) && Hashed(lib, enc, walk, locks, r)
    ensures ValidAttestation(lib, enc, r, locks) <==> BareNames(locks)
  {
    hide Scan, AllFiles, WheelOk, Union, UnionRows, SameListing, Disjoint, IsSha256, SourceFiles, InstalledFiles;
    forall i | 0 <= i < |locks| ensures ReportLineOk(r.wheels[i], locks[i]) && IsSha256(locks[i].sha256) {
      PathCount(lib, enc, AllFiles(walk), locks[i], wheelhouse[locks[i].filename], facts[i]);
      LockIsHash(lib, enc, AllFiles(walk), locks[i], wheelhouse[locks[i].filename], facts[i]);
    }
  }

  /**
   An attestation that passes names the locked wheels in their order with their digests, accounts for three
   files more than the archive's with each, and adds up.
   */
  lemma AttestedMeans(lib: Library, enc: Encoders, r: Report, locks: seq<WheelLock>)
    requires ValidAttestation(lib, enc, r, locks)
    ensures |r.wheels| == |locks| == r.wheelCount && r.lockedWheelsSha256 == lib.sha256(enc.locks(locks))
    ensures forall i | 0 <= i < |locks| ::
      && r.wheels[i].filename == locks[i].filename && r.wheels[i].archiveSha256 == locks[i].sha256
      && r.wheels[i].installedFiles == r.wheels[i].sourceFiles + 3
      && IsSha256(r.wheels[i].archiveSha256) && IsSha256(r.wheels[i].sourceRecordSha256)
      && IsSha256(r.wheels[i].installedRecordSha256)
    ensures IsSha256(r.installedTreeSha256) && r.sourceFiles == SourceFiles(r.wheels)
    ensures r.installedFiles == r.sourceFiles + 3 * r.wheelCount && r.generatedFiles == 2 * r.wheelCount
  {
    assert forall i | 0 <= i < |locks| :: ReportLineOk(r.wheels[i], locks[i]);
    ThreeEach(r.wheels);
  }

  lemma {:induction false} ThreeEach(wheels: seq<WheelReport>)
    requires forall i | 0 <= i < |wheels| :: wheels[i].installedFiles == wheels[i].sourceFiles + 3
    ensures InstalledFiles(wheels) == SourceFiles(wheels) + 3 * |wheels|
    decreases |wheels|
  {
    if wheels != [] { ThreeEach(wheels[..|wheels| - 1]); }
  }

  lemma LockIsHash(lib: Library, enc: Encoders, files: seq<Listed>, lock: WheelLock, wheel: Wheel, f: Facts)
    requires HexDigests(lib) && WheelOk(lib, enc, files, lock, wheel, f)
    ensures IsSha256(lock.sha256)
  {
    hide RecordOk, FilesOk;
  }

  /** Every file found in the installation comes from exactly one locked wheel. */
  lemma EveryFileHasOneWheel(lib: Library, enc: Encoders, walk: seq<Visit>, wheelhouse: map<Str, Wheel>,
          locks: seq<WheelLock>, facts: seq<Facts>, k: nat)
    returns (i: nat)
    requires Explained(lib, enc, walk, wheelhouse, locks, facts) && k < |Scan(lib, walk, false).value|
    ensures i < |locks| && Scan(lib, walk, false).value[k].path in facts[i].paths
    ensures forall j | 0 <= j < |locks| && Scan(lib, walk, false).value[k].path in facts[j].paths :: j == i
  {
    hide Scan, AllFiles, WheelOk, Union, UnionRows;
    var rows := Scan(lib, walk, false).value;
    assert rows[k].path in set n | 0 <= n < |rows| :: rows[n].path;
    i := UnionAt(facts, rows[k].path);
  }
}
