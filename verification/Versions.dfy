/** Versions, the edits that turn one into the next, and the version set with its manifest and snapshot list. */
module Versions {
  import opened ByteStrings
  import opened InternalKeys
  import opened Manifest
  import opened Wal

  const NUM_LEVELS: nat := 7

  /** The files of each level: level 0 oldest first, with overlapping ranges; deeper levels disjoint. */
  datatype Version = Version(files: seq<seq<FileMeta>>) {
    predicate Valid() {
      |files| == NUM_LEVELS
    }
  }

  const EmptyVersion := Version([[], [], [], [], [], [], []])

  function Lo(f: FileMeta): Bytes { f.smallest.userKey }
  function Hi(f: FileMeta): Bytes { f.largest.userKey }

  /** `user_key_overlap`: the file's range meets [lo, hi]. */
  predicate Overlaps(f: FileMeta, lo: Bytes, hi: Bytes) {
    !Before(Hi(f), lo) && !Before(hi, Lo(f))
  }

  function Overlapping(files: seq<FileMeta>, lo: Bytes, hi: Bytes): (r: seq<FileMeta>)
    ensures forall f :: f in r <==> f in files && Overlaps(f, lo, hi)
  {
    if files == [] then []
    else (if Overlaps(files[0], lo, hi) then [files[0]] else []) + Overlapping(files[1..], lo, hi)
  }

  /** What overlaps comes in the order of the level. */
  lemma {:induction false} OverlappingInOrder(a: seq<FileMeta>, b: seq<FileMeta>, lo: Bytes, hi: Bytes)
    ensures Overlapping(a + b, lo, hi) == Overlapping(a, lo, hi) + Overlapping(b, lo, hi)
  {
    if a == [] {
      assert a + b == b;
    } else {
      assert (a + b)[1..] == a[1..] + b;
      OverlappingInOrder(a[1..], b, lo, hi);
    }
  }

  function GetOverlaps(v: Version, level: nat, lo: Bytes, hi: Bytes): seq<FileMeta>
    requires v.Valid() && level < NUM_LEVELS
  {
    Overlapping(v.files[level], lo, hi)
  }

  function TotalSize(files: seq<FileMeta>): nat {
    if files == [] then 0 else files[0].size + TotalSize(files[1..])
  }

  /** The files other than the one numbered `number`, in order. */
  function Retain(files: seq<FileMeta>, number: nat): (r: seq<FileMeta>)
    ensures forall f :: f in r <==> f in files && f.number != number
  {
    if files == [] then []
    else (if files[0].number != number then [files[0]] else []) + Retain(files[1..], number)
  }

  function ApplyDeletes(v: Version, ds: seq<DeletedFile>): (r: Result<Version>)
    requires v.Valid()
    ensures r.Ok? ==> r.value.Valid()
    decreases |ds|
  {
    if ds == [] then Ok(v)
    else if ds[0].level >= NUM_LEVELS then Corrupted
    else ApplyDeletes(Version(v.files[ds[0].level := Retain(v.files[ds[0].level], ds[0].number)]), ds[1..])
  }

  function ApplyAdds(v: Version, fs: seq<NewFile>): (r: Result<Version>)
    requires v.Valid()
    ensures r.Ok? ==> r.value.Valid()
    decreases |fs|
  {
    if fs == [] then Ok(v)
    else if fs[0].level >= NUM_LEVELS then Corrupted
    else ApplyAdds(Version(v.files[fs[0].level := v.files[fs[0].level] + [fs[0].meta]]), fs[1..])
  }

  /** `apply_edit`: deletions first, then additions; a level out of range is corruption. */
  function ApplyEdit(base: Version, e: VersionEdit): (r: Result<Version>)
    requires base.Valid()
    ensures r.Ok? ==> r.value.Valid()
  {
    var v :- ApplyDeletes(base, e.deletedFiles);
    ApplyAdds(v, e.newFiles)
  }

  // ----- the state a manifest describes -------------------------------------------------------

  datatype VersionState = VersionState(
    current: Version,
    logNumber: nat,
    prevLogNumber: nat,
    nextFileNumber: nat,
    lastSequence: nat,
    compactPointers: seq<Bytes>)
  {
    predicate Valid() {
      current.Valid() && |compactPointers| == NUM_LEVELS
    }
  }

  const InitialState := VersionState(EmptyVersion, 0, 0, 0, 0, [[], [], [], [], [], [], []])

  function Or(o: Option<nat>, default: nat): nat {
    if o.Some? then o.value else default
  }

  function SetPointers(pointers: seq<Bytes>, ps: seq<Pointer>): (r: seq<Bytes>)
    ensures |r| == |pointers|
    decreases |ps|
  {
    if ps == [] then pointers
    else SetPointers(if ps[0].level < |pointers| then pointers[ps[0].level := ps[0].key] else pointers, ps[1..])
  }

  /** The state after one edit: the new version, and every scalar the edit carries. */
  function Advance(st: VersionState, e: VersionEdit): (r: Result<VersionState>)
    requires st.Valid()
    ensures r.Ok? ==> r.value.Valid()
  {
    var v :- ApplyEdit(st.current, e);
    Ok(VersionState(v, Or(e.logNumber, st.logNumber), Or(e.prevLogNumber, st.prevLogNumber),
                    Or(e.nextFileNumber, st.nextFileNumber), Or(e.lastSequence, st.lastSequence),
                    SetPointers(st.compactPointers, e.compactPointers)))
  }

  function Replay(st: VersionState, edits: seq<VersionEdit>): (r: Result<VersionState>)
    requires st.Valid()
    ensures r.Ok? ==> r.value.Valid()
    decreases |edits|
  {
    if edits == [] then Ok(st)
    else
      var next :- Advance(st, edits[0]);
      Replay(next, edits[1..])
  }

  function DecodeEdits(records: seq<Bytes>): Result<seq<VersionEdit>> {
    if records == [] then Ok([])
    else
      var e :- Manifest.Decode(records[0]);
      var rest :- DecodeEdits(records[1..]);
      Ok([e] + rest)
  }

  /** `recover_manifest` and `VersionSet::recover`: the state described by the manifest's bytes. */
  function RecoverState(manifest: Bytes): (r: Result<VersionState>)
    ensures r.Ok? ==> r.value.Valid()
  {
    var edits :- DecodeEdits(ReadRecords(manifest));
    Replay(InitialState, edits)
  }

  // ----- snapshots ----------------------------------------------------------------------------

  function Smallest(s: seq<nat>): (m: nat)
    requires s != []
    ensures m in s && forall x :: x in s ==> m <= x
  {
    if |s| == 1 then s[0]
    else
      var m := Smallest(s[1..]);
      assert s == [s[0]] + s[1..];
      if s[0] < m then s[0] else m
  }

  /** `oldest_snapshot_seq`: no live snapshot means everything old may go. */
  function OldestSnapshot(snapshots: seq<nat>): nat {
    if snapshots == [] then MAX_SEQUENCE else Smallest(snapshots)
  }

  /** `release_snapshot`: every entry equal to `s` leaves the list. */
  function Released(snapshots: seq<nat>, s: nat): (r: seq<nat>)
    ensures forall x :: x in r <==> x in snapshots && x != s
  {
    if snapshots == [] then []
    else (if snapshots[0] != s then [snapshots[0]] else []) + Released(snapshots[1..], s)
  }

  lemma {:induction false} ReleasedCount(snapshots: seq<nat>, s: nat)
    ensures multiset(Released(snapshots, s)) == multiset(snapshots)[s := 0]
  {
    if snapshots != [] {
      ReleasedCount(snapshots[1..], s);
      assert snapshots == [snapshots[0]] + snapshots[1..];
    }
  }

  /** Releasing a snapshot gives up exactly one reader's protection if and only if no two live snapshots share its number. */
  lemma ReleaseIsOneReadersIff(snapshots: seq<nat>, s: nat)
    ensures multiset(Released(snapshots, s)) == multiset(snapshots) - multiset{s} <==> multiset(snapshots)[s] <= 1
  {
    ReleasedCount(snapshots, s);
    var after := multiset(snapshots) - multiset{s};
    if multiset(snapshots)[s] <= 1 {
      assert after == multiset(snapshots)[s := 0];
    } else {
      assert after[s] > 0;
    }
  }

  // ----- the version set ----------------------------------------------------------------------

  predicate FileLevelsInRange(e: VersionEdit) {
    && (forall i :: 0 <= i < |e.deletedFiles| ==> e.deletedFiles[i].level < NUM_LEVELS)
    && (forall i :: 0 <= i < |e.newFiles| ==> e.newFiles[i].level < NUM_LEVELS)
  }

  /** A live edit indexes the compact pointers without a check. */
  predicate PointerLevelsInRange(e: VersionEdit) {
    forall i :: 0 <= i < |e.compactPointers| ==> e.compactPointers[i].level < NUM_LEVELS
  }

  lemma DecodeOneMore(records: seq<Bytes>, i: nat)
    requires i < |records|
    ensures DecodeEdits(records[i..])
         == match Manifest.Decode(records[i])
            case Corrupted => Corrupted
            case Ok(e) => Prepend([e], DecodeEdits(records[i + 1..]))
  {
    hide Manifest.Decode;
    assert records[i..][1..] == records[i + 1..];
  }

  /** `recover_manifest`: every record that was written completely must decode. */
  method RecoverEdits(bytes: Bytes) returns (r: Result<seq<VersionEdit>>)
    ensures r == DecodeEdits(ReadRecords(bytes))
  {
    hide Manifest.Decode, ReadRecords, DecodeEdits, Prepend;
    var records := ReadAll(bytes);
    var edits: seq<VersionEdit> := [];
    var i := 0;
    assert records[0..] == records;
    PrependMore([], EmptyEdit, DecodeEdits(records));
    while i < |records|
      invariant i <= |records| && Prepend(edits, DecodeEdits(records[i..])) == DecodeEdits(records)
    {
      DecodeOneMore(records, i);
      var e := DecodeEdit(records[i]);
      if e.Corrupted? {
        NothingPrepended(edits);
        return Corrupted;
      }
      PrependMore(edits, e.value, DecodeEdits(records[i + 1..]));
      edits := edits + [e.value];
      i := i + 1;
    }
    assert records[i..] == [];
    NoEdits();
    PrependMore(edits, EmptyEdit, Ok([]));
    return Ok(edits);
  }

  lemma NothingPrepended(edits: seq<VersionEdit>)
    ensures Prepend(edits, Corrupted) == Corrupted
  {
  }

  lemma NoEdits()
    ensures DecodeEdits([]) == Ok([])
  {
  }

  /** The pointers of one edit; a level out of range is skipped on replay. */
  method ReplayPointers(pointers: seq<Bytes>, ps: seq<Pointer>) returns (r: seq<Bytes>)
    ensures r == SetPointers(pointers, ps)
  {
    r := pointers;
    var i := 0;
    assert ps[0..] == ps;
    while i < |ps|
      invariant i <= |ps| && SetPointers(r, ps[i..]) == SetPointers(pointers, ps)
    {
      assert ps[i..][1..] == ps[i + 1..];
      if ps[i].level < |r| {
        r := r[ps[i].level := ps[i].key];
      }
      i := i + 1;
    }
  }

  lemma ReplayOneMore(st: VersionState, edits: seq<VersionEdit>, i: nat)
    requires st.Valid() && i < |edits|
    ensures Replay(st, edits[i..]) == match Advance(st, edits[i]) case Corrupted => Corrupted case Ok(next) => Replay(next, edits[i + 1..])
  {
    hide Advance;
    assert edits[i..][1..] == edits[i + 1..];
  }

  /** The loop of `recover`: each edit's files, then whatever scalars and pointers it carries. */
  method ReplayEdits(edits: seq<VersionEdit>) returns (r: Result<VersionState>)
    ensures r == Replay(InitialState, edits)
  {
    hide Replay, ApplyEdit, SetPointers;
    var st := InitialState;
    var i := 0;
    assert edits[0..] == edits;
    while i < |edits|
      invariant i <= |edits| && st.Valid() && Replay(st, edits[i..]) == Replay(InitialState, edits)
    {
      var e := edits[i];
      ReplayOneMore(st, edits, i);
      var v := ApplyEdit(st.current, e);
      if v.Corrupted? {
        return Corrupted;
      }
      ghost var before := st;
      st := st.(current := v.value);
      if e.logNumber.Some? { st := st.(logNumber := e.logNumber.value); }
      if e.prevLogNumber.Some? { st := st.(prevLogNumber := e.prevLogNumber.value); }
      if e.nextFileNumber.Some? { st := st.(nextFileNumber := e.nextFileNumber.value); }
      if e.lastSequence.Some? { st := st.(lastSequence := e.lastSequence.value); }
      var pointers := ReplayPointers(st.compactPointers, e.compactPointers);
      st := st.(compactPointers := pointers);
      assert Advance(before, e) == Ok(st);
      i := i + 1;
    }
    assert edits[i..] == [];
    NothingToReplay(st);
    return Ok(st);
  }

  lemma NothingToReplay(st: VersionState)
    requires st.Valid()
    ensures Replay(st, []) == Ok(st)
  {
  }

  class VersionSet {
    var state: VersionState
    var snapshots: seq<nat>
    const manifest: WalWriter

    ghost predicate Valid()
      reads this, manifest
    {
      state.Valid() && manifest.Valid()
    }

    /** `new_pending`: an empty state over a fresh manifest. */
    constructor NewPending()
      ensures Valid() && fresh(manifest)
      ensures state == InitialState && snapshots == [] && manifest.file == []
    {
      state, snapshots := InitialState, [];
      manifest := new WalWriter([]);
    }

    /** A replayed state, with the manifest reopened for appending as it is. */
    constructor Reopen(bytes: Bytes, replayed: VersionState)
      requires replayed.Valid()
      ensures Valid() && fresh(manifest)
      ensures state == replayed && snapshots == [] && manifest.file == bytes
    {
      state, snapshots := replayed, [];
      manifest := new WalWriter(bytes);
    }

    /** `recover`: the manifest's records are decoded and applied one after the other. */
    static method Recover(bytes: Bytes) returns (r: Result<VersionSet>)
      ensures r.Ok? <==> RecoverState(bytes).Ok?
      ensures r.Ok? ==>
                && r.value.Valid() && fresh(r.value) && fresh(r.value.manifest)
                && r.value.state == RecoverState(bytes).value && r.value.snapshots == [] && r.value.manifest.file == bytes
    {
      var edits :- RecoverEdits(bytes);
      var replayed := ReplayEdits(edits);
      if replayed.Corrupted? {
        return Corrupted;
      }
      var versionSet := new VersionSet.Reopen(bytes, replayed.value);
      return Ok(versionSet);
    }

    /** The edit is logged first; only then is it applied, and may be rejected. */
    method WriteNewVersion(e: VersionEdit) returns (r: Result<()>)
      requires Valid() && PointerLevelsInRange(e)
      modifies this, manifest
      ensures Valid() && snapshots == old(snapshots)
      ensures manifest.file == WithRecord(old(manifest.file), Manifest.Encode(e))
      ensures r.Ok? <==> FileLevelsInRange(e)
      ensures if r.Ok? then Ok(state) == Advance(old(state), e) else state == old(state)
    {
      var bytes := EncodeTo(e, []);
      assert bytes == Manifest.Encode(e);
      manifest.AddRecord(bytes);
      AppliesIffInRange(state.current, e);
      var v := ApplyEdit(state.current, e);
      if v.Corrupted? {
        return Corrupted;
      }
      state := Advance(state, e).value;
      return Ok(());
    }

    /** A write or a log replay moves the last sequence on. */
    method SetLastSequence(s: nat)
      requires Valid()
      modifies this
      ensures Valid() && snapshots == old(snapshots) && state == old(state).(lastSequence := s)
    {
      state := state.(lastSequence := s);
    }

    method AcquireSnapshot(s: nat)
      modifies this
      ensures snapshots == old(snapshots) + [s] && state == old(state)
    {
      snapshots := snapshots + [s];
    }

    method ReleaseSnapshot(s: nat)
      modifies this
      ensures snapshots == Released(old(snapshots), s) && state == old(state)
    {
      snapshots := Released(snapshots, s);
    }
  }

  // ----- replay equals live state -------------------------------------------------------------

  lemma {:induction false} DeletesApplyIff(v: Version, ds: seq<DeletedFile>)
    requires v.Valid()
    ensures ApplyDeletes(v, ds).Ok? <==> forall i :: 0 <= i < |ds| ==> ds[i].level < NUM_LEVELS
    decreases |ds|
  {
    if ds != [] && ds[0].level < NUM_LEVELS {
      DeletesApplyIff(Version(v.files[ds[0].level := Retain(v.files[ds[0].level], ds[0].number)]), ds[1..]);
      assert forall i :: 1 <= i < |ds| ==> ds[i] == ds[1..][i - 1];
    }
  }

  lemma {:induction false} AddsApplyIff(v: Version, fs: seq<NewFile>)
    requires v.Valid()
    ensures ApplyAdds(v, fs).Ok? <==> forall i :: 0 <= i < |fs| ==> fs[i].level < NUM_LEVELS
    decreases |fs|
  {
    if fs != [] && fs[0].level < NUM_LEVELS {
      AddsApplyIff(Version(v.files[fs[0].level := v.files[fs[0].level] + [fs[0].meta]]), fs[1..]);
      assert forall i :: 1 <= i < |fs| ==> fs[i] == fs[1..][i - 1];
    }
  }

  /** An edit applies to a version exactly when it names only existing levels. */
  lemma AppliesIffInRange(v: Version, e: VersionEdit)
    requires v.Valid()
    ensures ApplyEdit(v, e).Ok? <==> FileLevelsInRange(e)
  {
    hide ApplyDeletes, ApplyAdds;
    DeletesApplyIff(v, e.deletedFiles);
    if ApplyDeletes(v, e.deletedFiles).Ok? {
      AddsApplyIff(ApplyDeletes(v, e.deletedFiles).value, e.newFiles);
    }
  }

  predicate Names(ds: seq<DeletedFile>, level: nat, number: nat) {
    exists i :: 0 <= i < |ds| && ds[i] == DeletedFile(level, number)
  }

  /** The files of one level that none of the deletions names, in order. */
  function Kept(files: seq<FileMeta>, ds: seq<DeletedFile>, level: nat): seq<FileMeta> {
    if files == [] then []
    else (if Names(ds, level, files[0].number) then [] else [files[0]]) + Kept(files[1..], ds, level)
  }

  /** The files added to one level, in order. */
  function AddedTo(fs: seq<NewFile>, level: nat): seq<FileMeta> {
    if fs == [] then [] else (if fs[0].level == level then [fs[0].meta] else []) + AddedTo(fs[1..], level)
  }

  lemma KeptPush(f: FileMeta, files: seq<FileMeta>, ds: seq<DeletedFile>, level: nat)
    ensures Kept([f] + files, ds, level) == (if Names(ds, level, f.number) then [] else [f]) + Kept(files, ds, level)
  {
    assert ([f] + files)[1..] == files;
  }

  lemma {:induction false} KeptIsRetained(files: seq<FileMeta>, d: DeletedFile, ds: seq<DeletedFile>, level: nat)
    ensures Kept(files, [d] + ds, level) == Kept(if d.level == level then Retain(files, d.number) else files, ds, level)
  {
    if files == [] {
      assert Kept(files, [d] + ds, level) == [] == Kept(files, ds, level);
    } else {
      var f, rest := files[0], files[1..];
      var retained := if d.level == level then Retain(rest, d.number) else rest;
      assert files == [f] + rest;
      assert d.level == level ==> Retain(files, d.number) == if f.number != d.number then [f] + retained else retained;
      hide Kept, Names, Retain;
      KeptIsRetained(rest, d, ds, level);
      NamesFirst(d, ds, level, f.number);
      KeptPush(f, rest, [d] + ds, level);
      KeptPush(f, retained, ds, level);
    }
  }

  lemma NamesFirst(d: DeletedFile, ds: seq<DeletedFile>, level: nat, number: nat)
    ensures Names([d] + ds, level, number) <==> d == DeletedFile(level, number) || Names(ds, level, number)
  {
    if i :| 0 <= i < |ds| && ds[i] == DeletedFile(level, number) {
      assert ([d] + ds)[i + 1] == ds[i];
    }
    if d == DeletedFile(level, number) {
      assert ([d] + ds)[0] == d;
    }
  }

  lemma {:induction false} NoneNamed(files: seq<FileMeta>, level: nat)
    ensures Kept(files, [], level) == files
  {
    if files != [] {
      NoneNamed(files[1..], level);
    }
  }

  lemma {:induction false} DeletesKeep(v: Version, ds: seq<DeletedFile>, level: nat)
    requires v.Valid() && level < NUM_LEVELS && ApplyDeletes(v, ds).Ok?
    ensures ApplyDeletes(v, ds).value.files[level] == Kept(v.files[level], ds, level)
    decreases |ds|
  {
    hide Kept, Retain;
    if ds == [] {
      NoneNamed(v.files[level], level);
    } else {
      DeletesKeep(Version(v.files[ds[0].level := Retain(v.files[ds[0].level], ds[0].number)]), ds[1..], level);
      assert ds == [ds[0]] + ds[1..];
      KeptIsRetained(v.files[level], ds[0], ds[1..], level);
    }
  }

  lemma {:induction false} AddsAppend(v: Version, fs: seq<NewFile>, level: nat)
    requires v.Valid() && level < NUM_LEVELS && ApplyAdds(v, fs).Ok?
    ensures ApplyAdds(v, fs).value.files[level] == v.files[level] + AddedTo(fs, level)
    decreases |fs|
  {
    if fs != [] {
      AddsAppend(Version(v.files[fs[0].level := v.files[fs[0].level] + [fs[0].meta]]), fs[1..], level);
    }
  }

  /** The last of the pointers for this level, if there is one. */
  function PointerAt(ps: seq<Pointer>, level: nat, before: Bytes): Bytes {
    if ps == [] then before
    else if ps[|ps| - 1].level == level then ps[|ps| - 1].key
    else PointerAt(ps[..|ps| - 1], level, before)
  }

  lemma {:induction false} PointersSet(pointers: seq<Bytes>, ps: seq<Pointer>, level: nat)
    requires level < |pointers|
    ensures SetPointers(pointers, ps)[level] == PointerAt(ps, level, pointers[level])
    decreases |ps|
  {
    if ps != [] {
      var first := if ps[0].level < |pointers| then pointers[ps[0].level := ps[0].key] else pointers;
      PointersSet(first, ps[1..], level);
      FirstPointer(ps, level, pointers[level]);
    }
  }

  lemma {:induction false} FirstPointer(ps: seq<Pointer>, level: nat, before: Bytes)
    requires ps != []
    ensures PointerAt(ps, level, before) == PointerAt(ps[1..], level, if ps[0].level == level then ps[0].key else before)
    decreases |ps|
  {
    if |ps| > 1 && ps[|ps| - 1].level != level {
      FirstPointer(ps[..|ps| - 1], level, before);
      assert ps[..|ps| - 1][1..] == ps[1..][..|ps| - 2];
    }
  }

  /**
   * What an edit makes of a state: each level keeps its files the edit does not delete, in order, and gains the
   * added ones behind them; of several pointers for a level the last one counts; a number the edit does not
   * carry stays as it is.
   */
  lemma EditTakesEffect(st: VersionState, e: VersionEdit, level: nat)
    requires st.Valid() && level < NUM_LEVELS && Advance(st, e).Ok?
    ensures var r := Advance(st, e).value;
            && r.current.files[level] == Kept(st.current.files[level], e.deletedFiles, level) + AddedTo(e.newFiles, level)
            && r.compactPointers[level] == PointerAt(e.compactPointers, level, st.compactPointers[level])
            && (e.logNumber == Some(r.logNumber) || (e.logNumber == None && r.logNumber == st.logNumber))
            && (e.prevLogNumber == Some(r.prevLogNumber) || (e.prevLogNumber == None && r.prevLogNumber == st.prevLogNumber))
            && (e.nextFileNumber == Some(r.nextFileNumber) || (e.nextFileNumber == None && r.nextFileNumber == st.nextFileNumber))
            && (e.lastSequence == Some(r.lastSequence) || (e.lastSequence == None && r.lastSequence == st.lastSequence))
  {
    hide ApplyDeletes, ApplyAdds, SetPointers, Kept, AddedTo, PointerAt;
    DeletesKeep(st.current, e.deletedFiles, level);
    AddsAppend(ApplyDeletes(st.current, e.deletedFiles).value, e.newFiles, level);
    PointersSet(st.compactPointers, e.compactPointers, level);
  }

  /** The manifest that logs a list of edits. */
  function ManifestOf(edits: seq<VersionEdit>): Bytes {
    WithRecords([], EncodeEdits(edits))
  }

  function EncodeEdits(edits: seq<VersionEdit>): (r: seq<Bytes>)
    ensures |r| == |edits|
  {
    seq(|edits|, i requires 0 <= i < |edits| => Manifest.Encode(edits[i]))
  }

  ghost predicate AllFit(edits: seq<VersionEdit>) {
    forall i :: 0 <= i < |edits| ==> Fits(edits[i])
  }

  lemma {:induction false} DecodeEditsRoundTrip(edits: seq<VersionEdit>)
    requires AllFit(edits)
    ensures DecodeEdits(EncodeEdits(edits)) == Ok(edits)
  {
    hide Fits, Manifest.Encode;
    if edits != [] {
      EditRoundTrip(edits[0]);
      assert EncodeEdits(edits)[1..] == EncodeEdits(edits[1..]);
      DecodeEditsRoundTrip(edits[1..]);
      assert [edits[0]] + edits[1..] == edits;
    }
  }

  lemma {:induction false} ReplayAppend(st: VersionState, edits: seq<VersionEdit>, e: VersionEdit)
    requires st.Valid()
    ensures Replay(st, edits + [e])
         == match Replay(st, edits) case Corrupted => Corrupted case Ok(s) => Advance(s, e)
    decreases |edits|
  {
    if edits == [] {
      assert edits + [e] == [e] && [e][1..] == [];
    } else {
      assert (edits + [e])[0] == edits[0] && (edits + [e])[1..] == edits[1..] + [e];
      var next := Advance(st, edits[0]);
      if next.Ok? {
        ReplayAppend(next.value, edits[1..], e);
      }
    }
  }

  /**
   * Replay equals live state: recovering the manifest of any list of edits that fit gives exactly the
   * state reached by applying them live, one after the other.
   */
  lemma ReplayEqualsLiveState(edits: seq<VersionEdit>)
    requires AllFit(edits)
    ensures RecoverState(ManifestOf(edits)) == Replay(InitialState, edits)
  {
    ReadsBackEverything(EncodeEdits(edits));
    DecodeEditsRoundTrip(edits);
  }

  /** Logging one more edit: a torn append recovers the old state, a complete one the new state. */
  lemma RecoverAfterTornEdit(edits: seq<VersionEdit>, e: VersionEdit, n: nat)
    requires AllFit(edits) && Fits(e)
    requires |ManifestOf(edits)| <= n <= |ManifestOf(edits + [e])|
    ensures ManifestOf(edits + [e]) == WithRecord(ManifestOf(edits), Manifest.Encode(e))
    ensures RecoverState(ManifestOf(edits + [e])[..n])
         == Replay(InitialState, if n == |ManifestOf(edits + [e])| then edits + [e] else edits)
  {
    hide Fits, Manifest.Encode, ReadRecords, WithRecord, WithRecords;
    var records := EncodeEdits(edits);
    assert EncodeEdits(edits + [e]) == records + [Manifest.Encode(e)];
    ReadsAfterTornAppend(records, Manifest.Encode(e), n);
    DecodeEditsRoundTrip(edits);
    DecodeEditsRoundTrip(edits + [e]);
  }

  /**
   * An edit that is rejected live was logged before it was rejected: after it, the manifest recovers
   * exactly when the edit was accepted.
   */
  lemma RejectedEditBreaksRecovery(edits: seq<VersionEdit>, e: VersionEdit)
    requires AllFit(edits) && Fits(e) && Replay(InitialState, edits).Ok?
    ensures RecoverState(WithRecord(ManifestOf(edits), Manifest.Encode(e))).Ok? <==> FileLevelsInRange(e)
  {
    hide Fits, Manifest.Encode, RecoverState, ApplyEdit;
    assert EncodeEdits(edits + [e]) == EncodeEdits(edits) + [Manifest.Encode(e)];
    AddRecordsAppend([], EncodeEdits(edits), [Manifest.Encode(e)]);
    ReplayEqualsLiveState(edits + [e]);
    ReplayAppend(InitialState, edits, e);
    AppliesIffInRange(Replay(InitialState, edits).value.current, e);
  }
}
