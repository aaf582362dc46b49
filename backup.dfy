/** One backup run: whether a differential job has a full backup to build on
    and which kind of backup it makes, which entries of the snapshot go into
    the archive and the new manifest, and the order in which the run is
    wound up and its manifest published. */
module Backup {
  import opened Wrappers
  import opened Text
  import M = Manifests
  import S = Source
  import P = Pipeline

  datatype TargetType = Full | Differential

  /** Which backup an upload belongs to. Times are instants on one scale. */
  datatype TargetDescriptor = TargetDescriptor(host: string, job: string, timestamp: int, kind: TargetType)

  /** A parsed cron schedule, reduced to `after(t).nth(0)`: the first
      scheduled instant after `t`. */
  datatype Schedule = Schedule(nextAfter: int -> int)

  datatype JobType = FullJob | DifferentialJob(fullBackupSchedule: string)

  datatype Job = Job(name: string, typ: JobType)

  datatype BackupError =
    | ScheduleError(schedule: string)     // the full-backup schedule does not parse
    | DestinationError(message: string)   // the destination refused a request
    | ManifestError(cause: M.Error)       // the base backup's manifest does not parse
    | SnapshotError(message: string)      // the snapshot could not be made or read
    | WalkFailed(walk: S.WalkError)       // the file enumerator reported a failure
    | NoModifiedTime(path: S.Path)        // the platform cannot report a modification time
    | TargetError(message: string)        // the upload could not be completed

  // ---------------------------------------------------------------------------
  // Choosing the base full backup
  // ---------------------------------------------------------------------------

  /** `filter(|x| x.kind() == TargetType::Full)`, keeping the order. */
  function FullBackups(backups: seq<TargetDescriptor>): (r: seq<TargetDescriptor>)
    ensures forall d :: d in r <==> d in backups && d.kind == Full
    ensures |r| <= |backups|
  {
    if backups == [] then []
    else (if backups[0].kind == Full then [backups[0]] else []) + FullBackups(backups[1..])
  }

  ghost predicate SortedByTime(s: seq<TargetDescriptor>) {
    forall i, j :: 0 <= i < j < |s| ==> s[i].timestamp <= s[j].timestamp
  }

  /** Puts `d` into the time-sorted `t` after everything not later than it. */
  function InsertByTime(t: seq<TargetDescriptor>, d: TargetDescriptor): (r: seq<TargetDescriptor>)
    ensures |r| == |t| + 1
  {
    if t == [] || t[|t| - 1].timestamp <= d.timestamp then t + [d]
    else InsertByTime(t[..|t| - 1], d) + [t[|t| - 1]]
  }

  /** `sort_by` on the timestamps: a stable insertion sort. */
  function SortByTime(s: seq<TargetDescriptor>): (r: seq<TargetDescriptor>)
    ensures |r| == |s|
  {
    if s == [] then [] else InsertByTime(SortByTime(s[..|s| - 1]), s[|s| - 1])
  }

  lemma {:induction false} InsertByTimeSorted(t: seq<TargetDescriptor>, d: TargetDescriptor)
    requires SortedByTime(t)
    ensures SortedByTime(InsertByTime(t, d))
    ensures multiset(InsertByTime(t, d)) == multiset(t) + multiset{d}
  {
    if t != [] && t[|t| - 1].timestamp > d.timestamp {
      var init := t[..|t| - 1];
      var last := t[|t| - 1];
      assert t == init + [last];
      assert SortedByTime(init);
      InsertByTimeSorted(init, d);
      var head := InsertByTime(init, d);
      assert forall x :: x in init ==> x.timestamp <= last.timestamp;
      NotLaterThan(head, init, d, last);
    }
  }

  /** A sorted sequence of the elements of `init` and `d`, all not later than `last`, stays sorted with `last` after it. */
  lemma NotLaterThan(head: seq<TargetDescriptor>, init: seq<TargetDescriptor>, d: TargetDescriptor, last: TargetDescriptor)
    requires SortedByTime(head) && multiset(head) == multiset(init) + multiset{d}
    requires forall x :: x in init ==> x.timestamp <= last.timestamp
    requires d.timestamp <= last.timestamp
    ensures SortedByTime(head + [last])
  {
    forall i | 0 <= i < |head|
      ensures head[i].timestamp <= last.timestamp
    {
      assert head[i] in multiset(head);
    }
  }

  /** The sort orders by time and only reorders. */
  lemma {:induction false} SortByTimeSorted(s: seq<TargetDescriptor>)
    ensures SortedByTime(SortByTime(s))
    ensures multiset(SortByTime(s)) == multiset(s)
  {
    if s != [] {
      SortByTimeSorted(s[..|s| - 1]);
      InsertByTimeSorted(SortByTime(s[..|s| - 1]), s[|s| - 1]);
      assert s == s[..|s| - 1] + [s[|s| - 1]];
    }
  }

  /** The latest backup, and of several equally late ones the last listed. */
  function Latest(s: seq<TargetDescriptor>): (r: TargetDescriptor)
    requires s != []
    ensures r in s
    ensures forall d :: d in s ==> d.timestamp <= r.timestamp
  {
    if |s| == 1 then s[0]
    else
      var init := s[..|s| - 1];
      var m := Latest(init);
      assert s == init + [s[|s| - 1]];
      if m.timestamp <= s[|s| - 1].timestamp then s[|s| - 1] else m
  }

  /** Everything listed after the latest backup is strictly earlier. */
  lemma {:induction false} LatestIsLastOfLatest(s: seq<TargetDescriptor>) returns (i: nat)
    requires s != []
    ensures i < |s| && s[i] == Latest(s)
    ensures forall j :: i < j < |s| ==> s[j].timestamp < Latest(s).timestamp
  {
    if |s| == 1 {
      i := 0;
    } else {
      var init := s[..|s| - 1];
      if Latest(init).timestamp <= s[|s| - 1].timestamp {
        i := |s| - 1;
      } else {
        i := LatestIsLastOfLatest(init);
        assert forall j :: i < j < |s| - 1 ==> s[j] == init[j];
      }
    }
  }

  /** `pop` after the stable sort takes the latest backup, the last listed among equals. */
  lemma {:induction false} SortedLast(s: seq<TargetDescriptor>)
    requires s != []
    ensures SortByTime(s)[|s| - 1] == Latest(s)
  {
    var init := s[..|s| - 1];
    var x := s[|s| - 1];
    if init != [] {
      SortedLast(init);
      var t := SortByTime(init);
      if t[|t| - 1].timestamp > x.timestamp {
        assert SortByTime(s) == InsertByTime(t[..|t| - 1], x) + [t[|t| - 1]];
      }
    }
  }

  /** The base of a run (`backup` up to the choice of `last_full_backup`):
      none for a full job; for a differential job the latest full backup,
      provided the schedule's next full backup after it is still to come. */
  function LastFullBackup(job: Job, parse: string -> Option<Schedule>,
                          listing: Result<seq<TargetDescriptor>, string>, now: int): (r: Result<Option<TargetDescriptor>, BackupError>)
    ensures job.typ.FullJob? ==> r == Success(None)
    ensures job.typ.DifferentialJob? && parse(job.typ.fullBackupSchedule).None? ==>
      r == Failure(ScheduleError(job.typ.fullBackupSchedule))
    ensures job.typ.DifferentialJob? && parse(job.typ.fullBackupSchedule).Some? && listing.Failure? ==>
      r == Failure(DestinationError(listing.error))
  {
    match job.typ
    case FullJob => Success(None)
    case DifferentialJob(text) =>
      match parse(text)
      case None => Failure(ScheduleError(text))
      case Some(schedule) =>
        if listing.Failure? then Failure(DestinationError(listing.error))
        else
        var backups := SortByTime(FullBackups(listing.value));
        if backups == [] then Success(None)
        else
          var backup := backups[|backups| - 1];
          if schedule.nextAfter(backup.timestamp) > now then Success(Some(backup)) else Success(None)
  }

  /** A chosen base is a full backup of the listing with the greatest
      timestamp, and the schedule's next full backup after it is still to come. */
  lemma BaseIsLatestFull(job: Job, parse: string -> Option<Schedule>,
                         listing: Result<seq<TargetDescriptor>, string>, now: int)
    requires LastFullBackup(job, parse, listing, now).Success?
    requires LastFullBackup(job, parse, listing, now).value.Some?
    ensures var b := LastFullBackup(job, parse, listing, now).value.value;
      && job.typ.DifferentialJob? && listing.Success?
      && b in listing.value && b.kind == Full
      && (forall d :: d in listing.value && d.kind == Full ==> d.timestamp <= b.timestamp)
      && parse(job.typ.fullBackupSchedule).Some?
      && parse(job.typ.fullBackupSchedule).value.nextAfter(b.timestamp) > now
  {
    var fulls := FullBackups(listing.value);
    SortedLast(fulls);
  }

  /** A differential job with no full backup to build on makes a full backup. */
  lemma NoFullNoBase(job: Job, parse: string -> Option<Schedule>,
                     listing: Result<seq<TargetDescriptor>, string>, now: int)
    requires job.typ.DifferentialJob? && parse(job.typ.fullBackupSchedule).Some? && listing.Success?
    requires forall d :: d in listing.value ==> d.kind != Full
    ensures LastFullBackup(job, parse, listing, now) == Success(None)
    ensures TargetKind(job.typ, None) == Full
  {
  }

  /** The latest full backup is the base exactly when the schedule's next full
      backup after it is later than now; otherwise the run is a full backup. */
  lemma BaseIffScheduleAhead(job: Job, parse: string -> Option<Schedule>,
                             listing: Result<seq<TargetDescriptor>, string>, now: int)
    requires job.typ.DifferentialJob? && parse(job.typ.fullBackupSchedule).Some? && listing.Success?
    requires FullBackups(listing.value) != []
    ensures var latest := Latest(FullBackups(listing.value));
      var next := parse(job.typ.fullBackupSchedule).value.nextAfter(latest.timestamp);
      LastFullBackup(job, parse, listing, now) == Success(if next > now then Some(latest) else None)
  {
    SortedLast(FullBackups(listing.value));
  }

  /** `target_kind`: a differential backup exactly when the job is
      differential and a base was chosen. */
  function TargetKind(job: JobType, base: Option<TargetDescriptor>): (r: TargetType)
    ensures r == Differential <==> job.DifferentialJob? && base.Some?
  {
    match (job, base)
    case (FullJob, _) => Full
    case (DifferentialJob(_), None) => Full
    case (DifferentialJob(_), Some(_)) => Differential
  }

  /** The kind of a run from the listing: differential exactly when the job is
      differential, the listing holds a full backup, and the schedule's next
      full backup after the latest one is later than now. */
  lemma RunKind(job: Job, parse: string -> Option<Schedule>,
                listing: Result<seq<TargetDescriptor>, string>, now: int)
    requires LastFullBackup(job, parse, listing, now).Success?
    ensures var base := LastFullBackup(job, parse, listing, now).value;
      TargetKind(job.typ, base) == Differential <==>
        && job.typ.DifferentialJob?
        && FullBackups(listing.value) != []
        && parse(job.typ.fullBackupSchedule).value.nextAfter(Latest(FullBackups(listing.value)).timestamp) > now
  {
    if job.typ.DifferentialJob? && FullBackups(listing.value) != [] {
      BaseIffScheduleAhead(job, parse, listing, now);
    }
  }

  // ---------------------------------------------------------------------------
  // Which entries go into the archive
  // ---------------------------------------------------------------------------

  /** What the archive records of an entry: its path and kind. The tar
      headers and contents themselves are not part of this model. */
  datatype Record = Record(path: S.Path, kind: S.FileType)

  /** The archive so far and the new manifest. */
  datatype Progress = Progress(records: seq<Record>, manifest: M.ManifestData)

  /** `Entry::new` from the entry's path and metadata. */
  function EntryOf(path: S.Path, meta: S.Metadata): M.Entry
    requires meta.modified.Some?
  {
    M.Entry(path, meta.modified.value, meta.uid, meta.gid, meta.mode)
  }

  /** An item that ends the upload: a failure of the walk, or an entry without
      a modification time. */
  predicate Bad(item: S.Item) {
    item.Failure? || item.value.1.modified.None?
  }

  /** Some item of the walk ends the upload. */
  predicate HasBad(items: seq<S.Item>) {
    exists i :: 0 <= i < |items| && Bad(items[i])
  }

  predicate Archivable(kind: S.FileType) {
    kind == S.Directory || kind == S.RegularFile || kind == S.Symlink
  }

  /** The entry is already in the base manifest. */
  predicate Filtered(item: S.Item, filter: Option<M.ManifestData>, kdf: M.KeyDerivation)
    requires !Bad(item)
  {
    filter.Some? && filter.value.Contains(kdf, EntryOf(item.value.0, item.value.1))
  }

  /** The item is archived and its entry inserted into the new manifest. */
  predicate Archived(item: S.Item, filter: Option<M.ManifestData>, kdf: M.KeyDerivation) {
    !Bad(item) && !Filtered(item, filter, kdf) && Archivable(item.value.1.fileType)
  }

  /** One pass of the loop of `upload_archive`: a bad item ends the upload
      with its error; an archived item adds its record and its key; any other
      item changes nothing. */
  function Step(item: S.Item, filter: Option<M.ManifestData>, kdf: M.KeyDerivation, acc: Progress): (r: Result<Progress, BackupError>)
    ensures r.Failure? <==> Bad(item)
    ensures item.Failure? ==> r == Failure(WalkFailed(item.error))
    ensures item.Success? && item.value.1.modified.None? ==> r == Failure(NoModifiedTime(item.value.0))
    ensures r.Success? && Archived(item, filter, kdf) ==>
      r.value == Progress(acc.records + [Record(item.value.0, item.value.1.fileType)],
                          acc.manifest.Insert(kdf, EntryOf(item.value.0, item.value.1)))
    ensures r.Success? && !Archived(item, filter, kdf) ==> r.value == acc
  {
    match item
    case Failure(e) => Failure(WalkFailed(e))
    case Success((path, meta)) =>
      if meta.modified.None? then Failure(NoModifiedTime(path))
      else
        var e := EntryOf(path, meta);
        if filter.Some? && filter.value.Contains(kdf, e) then Success(acc)
        else if Archivable(meta.fileType) then
          Success(Progress(acc.records + [Record(path, meta.fileType)], acc.manifest.Insert(kdf, e)))
        else Success(acc)
  }

  /** The loop of `upload_archive` over the items of the walk: records are
      only appended, keys only added, and nothing else of the manifest
      changes; a failure is the error of a bad item. */
  function Upload(items: seq<S.Item>, filter: Option<M.ManifestData>, kdf: M.KeyDerivation, acc: Progress): (r: Result<Progress, BackupError>)
    ensures r.Success? ==> acc.records <= r.value.records
    ensures r.Success? ==> r.value.manifest == acc.manifest.(keys := r.value.manifest.keys)
    ensures r.Success? ==> acc.manifest.keys <= r.value.manifest.keys
    ensures r.Failure? ==> r.error.WalkFailed? || r.error.NoModifiedTime?
  {
    if items == [] then Success(acc)
    else
      var next :- Step(items[0], filter, kdf, acc);
      Upload(items[1..], filter, kdf, next)
  }

  /** The records of the archived items, in walk order. */
  function ArchivedRecords(items: seq<S.Item>, filter: Option<M.ManifestData>, kdf: M.KeyDerivation): seq<Record> {
    if items == [] then []
    else
      (if Archived(items[0], filter, kdf) then [Record(items[0].value.0, items[0].value.1.fileType)] else [])
        + ArchivedRecords(items[1..], filter, kdf)
  }

  /** The keys, under the manifest `d`, of the archived items. */
  function ArchivedKeys(items: seq<S.Item>, filter: Option<M.ManifestData>, kdf: M.KeyDerivation, d: M.ManifestData): set<M.Key> {
    if items == [] then {}
    else
      (if Archived(items[0], filter, kdf) then {d.GenKey(kdf, EntryOf(items[0].value.0, items[0].value.1))} else {})
        + ArchivedKeys(items[1..], filter, kdf, d)
  }

  /** The upload fails exactly when some item is bad. */
  lemma {:induction false} UploadFails(items: seq<S.Item>, filter: Option<M.ManifestData>, kdf: M.KeyDerivation, acc: Progress)
    ensures Upload(items, filter, kdf, acc).Failure? <==> HasBad(items)
  {
    if items != [] {
      var step := Step(items[0], filter, kdf, acc);
      if step.Success? {
        UploadFails(items[1..], filter, kdf, step.value);
        assert forall i :: 0 < i < |items| ==> items[i] == items[1..][i - 1];
        assert forall i :: 0 <= i < |items[1..]| ==> items[1..][i] == items[i + 1];
      }
    }
  }

  /** When the upload succeeds, the archive gains the records of the archived
      items, in order, and the manifest their keys; nothing else of the
      manifest changes. */
  lemma {:induction false} UploadOutcome(items: seq<S.Item>, filter: Option<M.ManifestData>, kdf: M.KeyDerivation, acc: Progress)
    requires Upload(items, filter, kdf, acc).Success?
    ensures Upload(items, filter, kdf, acc).value == Progress(
      acc.records + ArchivedRecords(items, filter, kdf),
      acc.manifest.(keys := acc.manifest.keys + ArchivedKeys(items, filter, kdf, acc.manifest)))
  {
    if items != [] {
      var next := Step(items[0], filter, kdf, acc).value;
      UploadOutcome(items[1..], filter, kdf, next);
      KeysUnderSameSalt(items[1..], filter, kdf, acc.manifest, next.manifest);
    }
  }

  lemma {:induction false} KeysUnderSameSalt(items: seq<S.Item>, filter: Option<M.ManifestData>, kdf: M.KeyDerivation, d: M.ManifestData, d': M.ManifestData)
    requires d' == d.(keys := d'.keys)
    ensures ArchivedKeys(items, filter, kdf, d') == ArchivedKeys(items, filter, kdf, d)
  {
    if items != [] {
      KeysUnderSameSalt(items[1..], filter, kdf, d, d');
    }
  }

  /** Archived records come from archived items: nothing filtered, bad or of
      another kind is recorded. */
  lemma {:induction false} RecordsFromArchived(items: seq<S.Item>, filter: Option<M.ManifestData>, kdf: M.KeyDerivation, rec: Record)
    requires rec in ArchivedRecords(items, filter, kdf)
    ensures exists i :: (0 <= i < |items| && Archived(items[i], filter, kdf)
                         && items[i].value.0 == rec.path && items[i].value.1.fileType == rec.kind)
  {
    if !(Archived(items[0], filter, kdf) && rec == Record(items[0].value.0, items[0].value.1.fileType)) {
      RecordsFromArchived(items[1..], filter, kdf, rec);
      var i :| 0 <= i < |items[1..]| && Archived(items[1..][i], filter, kdf)
        && items[1..][i].value.0 == rec.path && items[1..][i].value.1.fileType == rec.kind;
      assert items[i + 1] == items[1..][i];
    }
  }

  /** Every archived item is recorded, and its key is in the new manifest. */
  lemma {:induction false} ArchivedRecorded(items: seq<S.Item>, filter: Option<M.ManifestData>, kdf: M.KeyDerivation, d: M.ManifestData, i: nat)
    requires i < |items| && Archived(items[i], filter, kdf)
    ensures Record(items[i].value.0, items[i].value.1.fileType) in ArchivedRecords(items, filter, kdf)
    ensures d.GenKey(kdf, EntryOf(items[i].value.0, items[i].value.1)) in ArchivedKeys(items, filter, kdf, d)
  {
    if i > 0 {
      assert items[1..][i - 1] == items[i];
      ArchivedRecorded(items[1..], filter, kdf, d, i - 1);
    }
  }

  /** With distinct paths (as the walk of a real tree has), an entry that the
      base manifest contains is not archived. */
  lemma FilteredNotArchived(items: seq<S.Item>, filter: Option<M.ManifestData>, kdf: M.KeyDerivation, j: nat, kind: S.FileType)
    requires S.DistinctPaths(items)
    requires j < |items| && !Bad(items[j]) && Filtered(items[j], filter, kdf)
    ensures Record(items[j].value.0, kind) !in ArchivedRecords(items, filter, kdf)
  {
    var rec := Record(items[j].value.0, kind);
    if rec in ArchivedRecords(items, filter, kdf) {
      RecordsFromArchived(items, filter, kdf, rec);
    }
  }

  // ---------------------------------------------------------------------------
  // The collaborators of a run
  // ---------------------------------------------------------------------------

  /** A snapshot of the source: its base directory tree, its size hint, and
      whether tearing it down fails. The volume managers behind it are not
      part of this model. */
  class Snapshot {
    const root: S.Listing
    const hint: Result<nat, string>
    const destroyFails: bool
    var destroyed: bool

    constructor (root: S.Listing, hint: Result<nat, string>, destroyFails: bool)
      ensures this.root == root && this.hint == hint && this.destroyFails == destroyFails
      ensures !destroyed
    {
      this.root := root;
      this.hint := hint;
      this.destroyFails := destroyFails;
      destroyed := false;
    }

    method Files() returns (r: Result<S.Files, BackupError>)
      ensures root.Unlistable? ==> r == Failure(WalkFailed(S.ReadDirError([])))
      ensures root.Listed? ==> r.Success? && fresh(r.value) && r.value.Remaining() == S.WalkSeq([], root.children)
    {
      var files := S.Files.Open(root);
      if files.Failure? {
        return Failure(WalkFailed(files.error));
      }
      return Success(files.value);
    }

    method Destroy() returns (r: Outcome<string>)
      modifies this`destroyed
      ensures destroyed
      ensures r.Pass? <==> !destroyFails
    {
      destroyed := true;
      return if destroyFails then Fail("snapshot could not be torn down") else Pass;
    }
  }

  const RefusedTarget := "destination refused to allocate a target"
  const RefusedManifest := "destination refused the manifest"

  /** The destination, reduced to its answers: the listing of earlier
      backups, the manifests it stores, and whether it refuses to allocate a
      target or to take a manifest. The storage back ends are not part of
      this model. */
  class Destination {
    const listing: Result<seq<TargetDescriptor>, string>
    const stored: map<TargetDescriptor, string>
    const refuseTarget: bool
    const brokenTarget: bool
    const refuseUpload: bool
    ghost var targets: seq<P.Target>
    var uploaded: seq<(TargetDescriptor, string)>

    constructor (listing: Result<seq<TargetDescriptor>, string>, stored: map<TargetDescriptor, string>,
                 refuseTarget: bool, brokenTarget: bool, refuseUpload: bool)
      ensures this.listing == listing && this.stored == stored
      ensures this.refuseTarget == refuseTarget && this.brokenTarget == brokenTarget && this.refuseUpload == refuseUpload
      ensures targets == [] && uploaded == []
    {
      this.listing := listing;
      this.stored := stored;
      this.refuseTarget := refuseTarget;
      this.brokenTarget := brokenTarget;
      this.refuseUpload := refuseUpload;
      targets := [];
      uploaded := [];
    }

    function FetchManifest(d: TargetDescriptor): (r: Result<string, string>)
      ensures r.Success? <==> d in stored
    {
      if d in stored then Success(stored[d]) else Failure("no manifest stored for this backup")
    }

    method Allocate(desc: TargetDescriptor, sizeHint: nat) returns (r: Result<P.Target, string>)
      modifies this`targets
      ensures r.Failure? <==> refuseTarget
      ensures r.Failure? ==> r.error == RefusedTarget && targets == old(targets)
      ensures r.Success? ==> (fresh(r.value) && r.value.log == [] && !r.value.finalized
                              && r.value.broken == brokenTarget && targets == old(targets) + [r.value])
    {
      if refuseTarget {
        return Failure(RefusedTarget);
      }
      var target := new P.Target(brokenTarget);
      targets := targets + [target];
      return Success(target);
    }

    method UploadManifest(desc: TargetDescriptor, text: string) returns (r: Outcome<string>)
      modifies this`uploaded
      ensures r == if refuseUpload then Fail(RefusedManifest) else Pass
      ensures uploaded == old(uploaded) + (if r.Pass? then [(desc, text)] else [])
    {
      if refuseUpload {
        return Fail(RefusedManifest);
      }
      uploaded := uploaded + [(desc, text)];
      return Pass;
    }
  }

  // ---------------------------------------------------------------------------
  // The run
  // ---------------------------------------------------------------------------

  /** `upload_archive`: walks the snapshot and archives, into the fresh
      manifest made from `randomSalt`, every entry of a kind it archives that
      `filter` does not contain. The base manifest is only read. */
  method UploadArchive(snapshot: Snapshot, target: P.IdentityCompressor, filter: Option<M.Manifest>,
                       kdf: M.KeyDerivation, randomSalt: M.Key)
    returns (r: Result<(P.IdentityCompressor, M.Manifest), BackupError>, ghost archived: seq<Record>)
    ensures snapshot.root.Unlistable? ==> r == Failure(WalkFailed(S.ReadDirError([])))
    ensures snapshot.root.Listed? ==>
      var base := if filter.Some? then Some(filter.value.Data()) else None;
      var spec := Upload(S.WalkSeq([], snapshot.root.children), base, kdf, Progress([], FreshManifest(randomSalt)));
      && (r.Failure? <==> spec.Failure?)
      && (r.Failure? ==> r.error == spec.error)
      && (r.Success? ==> r.value.0 == target && fresh(r.value.1)
                         && r.value.1.Data() == spec.value.manifest && archived == spec.value.records)
  {
    archived := [];
    var manifest := new M.Manifest.New(randomSalt);
    var listed := snapshot.Files();
    if listed.Failure? {
      return Failure(listed.error), archived;
    }
    var files := listed.value;
    ghost var base := if filter.Some? then Some(filter.value.Data()) else None;
    ghost var spec := Upload(files.Remaining(), base, kdf, Progress([], manifest.Data()));
    while true
      invariant fresh(files) && fresh(manifest)
      invariant Upload(files.Remaining(), base, kdf, Progress(archived, manifest.Data())) == spec
      decreases |files.Remaining()|
    {
      var next := files.Next();
      if next.None? {
        break;
      }
      var item := next.value;
      if item.Failure? {
        return Failure(WalkFailed(item.error)), archived;
      }
      var (path, meta) := item.value;
      if meta.modified.None? {
        return Failure(NoModifiedTime(path)), archived;
      }
      var e := EntryOf(path, meta);
      if filter.Some? && filter.value.Contains(kdf, e) {
        continue;
      }
      if meta.fileType == S.Directory {
        archived := archived + [Record(path, S.Directory)];
        manifest.Insert(kdf, e);
      }
      if meta.fileType == S.RegularFile {
        archived := archived + [Record(path, S.RegularFile)];
        manifest.Insert(kdf, e);
      }
      if meta.fileType == S.Symlink {
        archived := archived + [Record(path, S.Symlink)];
        manifest.Insert(kdf, e);
      }
    }
    return Success((target, manifest)), archived;
  }

  /** The manifest `Manifest::new` makes. */
  function FreshManifest(salt: M.Key): (d: M.ManifestData)
    ensures d.keys == {} && d.salt == salt
  {
    M.ManifestData(salt, {}, M.DefaultParallelism, M.DefaultMemCost, M.DefaultTimeCost, M.Argon2i, M.Version13)
  }

  /** The end of a run: the snapshot is torn down whatever happened, and a
      failure to tear it down is not reported; the pipeline is finalized
      layer by layer; only when every layer and the target have completed is
      the manifest serialized and uploaded. */
  method Conclude(result: Result<(P.IdentityCompressor, M.Manifest), BackupError>, snapshot: Snapshot,
                  dest: Destination, desc: TargetDescriptor)
    returns (r: Outcome<BackupError>)
    modifies snapshot`destroyed, dest`uploaded
    modifies if result.Success? then {result.value.0.inner.inner} else {}
    ensures snapshot.destroyed
    ensures result.Failure? ==> r == Fail(result.error)
    ensures result.Success? && result.value.0.inner.inner.broken ==> r == Fail(TargetError(P.Unfinished))
    ensures result.Success? && !result.value.0.inner.inner.broken && dest.refuseUpload ==>
      r == Fail(DestinationError(RefusedManifest))
    ensures r.Pass? <==> result.Success? && !result.value.0.inner.inner.broken && !dest.refuseUpload
    ensures result.Success? ==> result.value.0.inner.inner.finalized == (old(result.value.0.inner.inner.finalized) || !result.value.0.inner.inner.broken)
    ensures dest.uploaded == old(dest.uploaded) + (if r.Pass? then [(desc, M.Serialized(old(result.value.1.Data())))] else [])
  {
    var _ := snapshot.Destroy();
    if result.Failure? {
      return Fail(result.error);
    }
    var (compressor, manifest) := result.value;
    // The identity layers' `finalize` cannot fail: each hands back the writer below.
    var cryptor := compressor.Finalize();
    var target := cryptor.value.Finalize();
    var done := target.value.Finalize();
    if done.Fail? {
      return Fail(TargetError(done.error));
    }
    var text := manifest.Serialize();
    var uploaded := dest.UploadManifest(desc, text);
    if uploaded.Fail? {
      return Fail(DestinationError(uploaded.error));
    }
    return Pass;
  }

  /** The base of a run and the parsed manifest of that base, as `backup`
      obtains them before the snapshot is taken: the choice of base, then,
      when there is one, the fetch and the parse of its manifest. */
  function Prepare(job: Job, now: int, parse: string -> Option<Schedule>, dest: Destination)
    : (r: Result<(Option<TargetDescriptor>, Option<M.ManifestData>), BackupError>)
    ensures var base := LastFullBackup(job, parse, dest.listing, now);
      && (base.Failure? ==> r == Failure(base.error))
      && (base == Success(None) ==> r == Success((None, None)))
      && (r.Success? ==> base == Success(r.value.0) && (r.value.1.Some? <==> r.value.0.Some?))
      && (r.Success? && r.value.0.Some? ==>
            r.value.0.value in dest.stored && M.Parse(dest.stored[r.value.0.value]) == Success(r.value.1.value))
      && (base.Success? && base.value.Some? && base.value.value !in dest.stored ==> r.Failure? && r.error.DestinationError?)
      && (base.Success? && base.value.Some? && base.value.value in dest.stored && M.Parse(dest.stored[base.value.value]).Failure? ==>
            r == Failure(ManifestError(M.Parse(dest.stored[base.value.value]).error)))
  {
    var base :- LastFullBackup(job, parse, dest.listing, now);
    if base.None? then Success((None, None))
    else
      match dest.FetchManifest(base.value)
      case Failure(e) => Failure(DestinationError(e))
      case Success(text) =>
        match M.Parse(text)
        case Failure(e) => Failure(ManifestError(e))
        case Success(d) => Success((base, Some(d)))
  }

  /** The base of the run and its manifest: the chosen full backup's
      manifest is fetched and parsed; a failure of either ends the run. */
  method FetchBase(job: Job, now: int, parse: string -> Option<Schedule>, dest: Destination)
    returns (r: Result<(Option<TargetDescriptor>, Option<M.Manifest>), BackupError>)
    ensures var spec := Prepare(job, now, parse, dest);
      && (r.Failure? <==> spec.Failure?)
      && (r.Failure? ==> r.error == spec.error)
      && (r.Success? ==> r.value.0 == spec.value.0 && (r.value.1.Some? <==> spec.value.1.Some?))
      && (r.Success? && r.value.1.Some? ==> fresh(r.value.1.value) && r.value.1.value.Data() == spec.value.1.value)
  {
    var base := LastFullBackup(job, parse, dest.listing, now);
    if base.Failure? {
      return Failure(base.error);
    }
    if base.value.None? {
      return Success((None, None));
    }
    var data := dest.FetchManifest(base.value.value);
    if data.Failure? {
      return Failure(DestinationError(data.error));
    }
    var parsed := M.Manifest.Deserialize(data.value);
    if parsed.Failure? {
      return Failure(ManifestError(parsed.error));
    }
    return Success((base.value, Some(parsed.value)));
  }

  /** The value of the base manifest, if any. */
  function BaseData(m: Option<M.Manifest>): Option<M.ManifestData>
    reads if m.Some? then {m.value} else {}
  {
    if m.Some? then Some(m.value.Data()) else None
  }

  /** What the transfer comes to: the size hint, the target, the listing of
      the snapshot's base directory, then the upload of the walk's items into
      a fresh manifest. */
  function Transferred(hint: Result<nat, string>, refuseTarget: bool, root: S.Listing, base: Option<M.ManifestData>,
                       kdf: M.KeyDerivation, salt: M.Key): (r: Result<Progress, BackupError>)
    ensures hint.Failure? ==> r == Failure(SnapshotError(hint.error))
    ensures hint.Success? && refuseTarget ==> r == Failure(DestinationError(RefusedTarget))
    ensures hint.Success? && !refuseTarget && root.Unlistable? ==> r == Failure(WalkFailed(S.ReadDirError([])))
  {
    if hint.Failure? then Failure(SnapshotError(hint.error))
    else if refuseTarget then Failure(DestinationError(RefusedTarget))
    else if root.Unlistable? then Failure(WalkFailed(S.ReadDirError([])))
    else Upload(S.WalkSeq([], root.children), base, kdf, Progress([], FreshManifest(salt)))
  }

  /** The transfer fails exactly on a missing size hint, a refused target, an
      unlistable snapshot or a bad item of the walk; otherwise it yields the
      records of the archived entries, in walk order, and a fresh manifest
      holding exactly their keys. */
  lemma TransferOutcome(hint: Result<nat, string>, refuseTarget: bool, root: S.Listing, base: Option<M.ManifestData>,
                        kdf: M.KeyDerivation, salt: M.Key)
    ensures var r := Transferred(hint, refuseTarget, root, base, kdf, salt);
      r.Failure? <==>
        || hint.Failure? || refuseTarget || root.Unlistable?
        || (root.Listed? && HasBad(S.WalkSeq([], root.children)))
    ensures var r := Transferred(hint, refuseTarget, root, base, kdf, salt);
      r.Success? ==> root.Listed? && r.value == Progress(
        ArchivedRecords(S.WalkSeq([], root.children), base, kdf),
        FreshManifest(salt).(keys := ArchivedKeys(S.WalkSeq([], root.children), base, kdf, FreshManifest(salt))))
  {
    if hint.Success? && !refuseTarget && root.Listed? {
      var items := S.WalkSeq([], root.children);
      var start := Progress([], FreshManifest(salt));
      var r := Transferred(hint, refuseTarget, root, base, kdf, salt);
      assert r == Upload(items, base, kdf, start);
      UploadFails(items, base, kdf, start);
      if r.Success? {
        UploadOutcome(items, base, kdf, start);
      }
    }
  }

  /** The size hint, then a target and the pipeline over it, then the upload
      of the archive; the first failure is the result. */
  method Transfer(snap: Snapshot, dest: Destination, desc: TargetDescriptor, fullManifest: Option<M.Manifest>,
                  kdf: M.KeyDerivation, randomSalt: M.Key)
    returns (result: Result<(P.IdentityCompressor, M.Manifest), BackupError>, ghost archived: seq<Record>)
    modifies dest`targets
    ensures var spec := Transferred(snap.hint, dest.refuseTarget, snap.root, old(BaseData(fullManifest)), kdf, randomSalt);
      && (result.Failure? <==> spec.Failure?)
      && (result.Failure? ==> result.error == spec.error)
      && (result.Success? ==> result.value.1.Data() == spec.value.manifest && archived == spec.value.records)
    ensures result.Success? ==>
      && dest.targets == old(dest.targets) + [result.value.0.Sink()]
      && result.value.0.Sink().broken == dest.brokenTarget
      && fresh(result.value.0.Sink()) && fresh(result.value.1)
    ensures snap.hint.Failure? || dest.refuseTarget ==> dest.targets == old(dest.targets)
  {
    archived := [];
    if snap.hint.Failure? {
      return Failure(SnapshotError(snap.hint.error)), archived;
    }
    var target := dest.Allocate(desc, snap.hint.value);
    if target.Failure? {
      return Failure(DestinationError(target.error)), archived;
    }
    var compressor := P.CreatePipeline(target.value);
    result, archived := UploadArchive(snap, compressor, fullManifest, kdf, randomSalt);
  }

  /** How a run that took its snapshot ends, given what the transfer came
      to: with the transfer's failure; else with the target's failure to
      complete the upload; else with the destination's refusal of the
      manifest; else it passes. */
  function Concluded(transfer: Result<Progress, BackupError>, brokenTarget: bool, refuseUpload: bool): (r: Outcome<BackupError>)
    ensures r.Pass? <==> transfer.Success? && !brokenTarget && !refuseUpload
    ensures transfer.Failure? ==> r == Fail(transfer.error)
    ensures r.Fail? && transfer.Success? ==> (r.error.TargetError? <==> brokenTarget)
  {
    if transfer.Failure? then Fail(transfer.error)
    else if brokenTarget then Fail(TargetError(P.Unfinished))
    else if refuseUpload then Fail(DestinationError(RefusedManifest))
    else Pass
  }

  /** A run that took its snapshot ended as `Concluded` says and published,
      exactly when it passed, the manifest the transfer produced. */
  ghost predicate Ended(r: Outcome<BackupError>, t: Result<Progress, BackupError>, brokenTarget: bool, refuseUpload: bool,
                        desc: TargetDescriptor, uploaded: seq<(TargetDescriptor, string)>, before: seq<(TargetDescriptor, string)>)
  {
    && r == Concluded(t, brokenTarget, refuseUpload)
    && uploaded == before + (if r.Pass? then [(desc, M.Serialized(t.value.manifest))] else [])
  }

  /** The wind-up of a run whose transfer came to `t` and, on success,
      allocated the last of the destination's targets: `Conclude`, stated
      against the value of the transfer rather than its objects. */
  method WindUp(result: Result<(P.IdentityCompressor, M.Manifest), BackupError>, snap: Snapshot,
                dest: Destination, desc: TargetDescriptor, ghost t: Result<Progress, BackupError>,
                ghost before: seq<P.Target>)
    returns (r: Outcome<BackupError>)
    requires result.Failure? <==> t.Failure?
    requires result.Failure? ==> result.error == t.error
    requires result.Success? ==>
      && result.value.1.Data() == t.value.manifest
      && result.value.0.Sink().broken == dest.brokenTarget
      && dest.targets == before + [result.value.0.Sink()]
    modifies snap`destroyed, dest`uploaded
    modifies if result.Success? then {result.value.0.Sink()} else {}
    ensures snap.destroyed
    ensures Ended(r, t, dest.brokenTarget, dest.refuseUpload, desc, dest.uploaded, old(dest.uploaded))
    ensures r.Pass? ==> |dest.targets| == |before| + 1 && dest.targets[|before|].finalized
  {
    r := Conclude(result, snap, dest, desc);
  }

  /** The part of `backup` that runs once the snapshot is taken: the
      transfer, then the wind-up. The snapshot is torn down whatever happens,
      and the manifest of the archived entries is published exactly when the
      transfer succeeds, the target completes and the destination accepts it. */
  method WithSnapshot(snap: Snapshot, dest: Destination, desc: TargetDescriptor, fullManifest: Option<M.Manifest>,
                      kdf: M.KeyDerivation, randomSalt: M.Key)
    returns (r: Outcome<BackupError>)
    modifies snap`destroyed, dest`targets, dest`uploaded
    ensures snap.destroyed
    ensures var t := Transferred(snap.hint, dest.refuseTarget, snap.root, old(BaseData(fullManifest)), kdf, randomSalt);
      Ended(r, t, dest.brokenTarget, dest.refuseUpload, desc, dest.uploaded, old(dest.uploaded))
    ensures r.Pass? ==> |dest.targets| == |old(dest.targets)| + 1 && dest.targets[|old(dest.targets)|].finalized
  {
    ghost var t := Transferred(snap.hint, dest.refuseTarget, snap.root, BaseData(fullManifest), kdf, randomSalt);
    ghost var before := dest.targets;
    var result, archived := Transfer(snap, dest, desc, fullManifest, kdf, randomSalt);
    r := WindUp(result, snap, dest, desc, t, before);
  }

  /** `backup`: the whole run, from the choice of base to the published
      manifest. The clock, the host name, the schedule parser, the key
      derivation, the random salt and the outcome of taking the snapshot are
      parameters. `started` records that the snapshot was taken; from then on
      it is always torn down. A run passes exactly when the base could be
      prepared, the snapshot taken, the archive transferred, the target
      completed and the manifest accepted; it then publishes the manifest of
      the archived entries under the run's descriptor. */
  method Run(job: Job, host: string, now: int, parse: string -> Option<Schedule>, kdf: M.KeyDerivation,
             randomSalt: M.Key, dest: Destination, snapshot: Result<Snapshot, string>)
    returns (r: Outcome<BackupError>, ghost started: bool)
    modifies dest`targets, dest`uploaded
    modifies if snapshot.Success? then {snapshot.value} else {}
    ensures var prep := Prepare(job, now, parse, dest);
      && (started <==> prep.Success? && snapshot.Success?)
      && (started ==> snapshot.value.destroyed)
      && (prep.Failure? ==> r == Fail(prep.error))
      && (prep.Success? && snapshot.Failure? ==> r == Fail(SnapshotError(snapshot.error)))
    ensures started ==>
      var prep := Prepare(job, now, parse, dest).value;
      var desc := TargetDescriptor(host, job.name, now, TargetKind(job.typ, prep.0));
      var t := Transferred(snapshot.value.hint, dest.refuseTarget, snapshot.value.root, prep.1, kdf, randomSalt);
      && r == Concluded(t, dest.brokenTarget, dest.refuseUpload)
      && (r.Pass? ==> dest.uploaded == old(dest.uploaded) + [(desc, M.Serialized(t.value.manifest))]
                      && |dest.targets| == |old(dest.targets)| + 1
                      && dest.targets[|old(dest.targets)|].finalized)
    ensures r.Fail? ==> dest.uploaded == old(dest.uploaded)
    ensures !started ==>
      && dest.targets == old(dest.targets)
      && (snapshot.Success? ==> snapshot.value.destroyed == old(snapshot.value.destroyed))
  {
    started := false;
    var prepared := FetchBase(job, now, parse, dest);
    if prepared.Failure? {
      return Fail(prepared.error), started;
    }
    var (base, fullManifest) := prepared.value;
    var desc := TargetDescriptor(host, job.name, now, TargetKind(job.typ, base));
    if snapshot.Failure? {
      return Fail(SnapshotError(snapshot.error)), started;
    }
    var snap := snapshot.value;
    started := true;
    assert BaseData(fullManifest) == Prepare(job, now, parse, dest).value.1;
    r := WithSnapshot(snap, dest, desc, fullManifest, kdf, randomSalt);
  }
}
