/** The transcription queue listing: media files waiting in the watch folder
    ("ready", or "processing" while a `.model` sidecar is beside them) merged
    with finished transcripts from its `transcriptions` sub-folder, a
    transcript being hidden while a media file with the same stem is still
    waiting; newest first. */
module TranscribeFiles {
  import opened Wrappers
  import opened Strings
  import opened Paths
  import opened Sorting

  const WatchFolder: string := "/Volumes/ME Backup02/BryTranscribe"

  const MediaExts: set<string> := {".mp4", ".mov", ".mkv", ".avi", ".mp3", ".wav", ".m4a"}
  const TranscriptExts: set<string> := {".txt", ".srt", ".vtt"}

  /** What `stat` reports: the size and the modification time in milliseconds. */
  datatype Stat = Stat(size: nat, mtime: int)

  /** A directory entry; `stat` is None when `stat` throws for it. */
  datatype Dirent = Dirent(name: string, stat: Option<Stat>)

  /** What `existsSync` and `readdir` report for a folder. */
  datatype Folder = Missing | Unreadable | Listed(entries: seq<Dirent>)

  datatype Status = Ready | Processing | Completed

  datatype FileInfo = FileInfo(name: string, size: nat, uploadedAt: int, status: Status, transcriptPath: Option<string>)

  datatype Reply = Files(files: seq<FileInfo>) | Failed(status: nat, error: string)

  predicate IsMedia(name: string) {
    Lower(Extname(name)) in MediaExts
  }

  predicate IsTranscript(name: string) {
    Lower(Extname(name)) in TranscriptExts
  }

  /** `path.parse(name).name`: the name without its extension. */
  function Stem(name: string): string {
    Basename(name, Extname(name))
  }

  /** The comparator `b.uploadedAt - a.uploadedAt`: newest first. */
  function NewestFirst(f: FileInfo): seq<int> {
    [-f.uploadedAt]
  }

  // ---- listings built one directory entry at a time ----

  /** The entries `each` gives for the directory entries, in directory order. */
  function Collect<T>(ds: seq<Dirent>, each: Dirent -> seq<T>): seq<T> {
    if ds == [] then [] else Collect(ds[..|ds| - 1], each) + each(ds[|ds| - 1])
  }

  /** Something is collected exactly when some directory entry gives it. */
  lemma {:induction false} CollectMembers<T>(ds: seq<Dirent>, each: Dirent -> seq<T>, x: T)
    ensures x in Collect(ds, each) <==> exists k :: 0 <= k < |ds| && x in each(ds[k])
  {
    if ds != [] {
      var n := |ds| - 1;
      var init := ds[..n];
      CollectMembers(init, each, x);
      if x in Collect(init, each) {
        var k :| 0 <= k < |init| && x in each(init[k]);
        assert ds[k] == init[k];
      }
      if exists k :: 0 <= k < |ds| && x in each(ds[k]) {
        var k :| 0 <= k < |ds| && x in each(ds[k]);
        if k < n {
          assert init[k] == ds[k];
        }
      }
    }
  }

  /** The union of the sets `each` gives for the directory entries. */
  function CollectSet<T>(ds: seq<Dirent>, each: Dirent -> set<T>): set<T> {
    if ds == [] then {} else CollectSet(ds[..|ds| - 1], each) + each(ds[|ds| - 1])
  }

  lemma {:induction false} CollectSetMembers<T>(ds: seq<Dirent>, each: Dirent -> set<T>, x: T)
    ensures x in CollectSet(ds, each) <==> exists k :: 0 <= k < |ds| && x in each(ds[k])
  {
    if ds != [] {
      var n := |ds| - 1;
      var init := ds[..n];
      CollectSetMembers(init, each, x);
      if x in CollectSet(init, each) {
        var k :| 0 <= k < |init| && x in each(init[k]);
        assert ds[k] == init[k];
      }
      if exists k :: 0 <= k < |ds| && x in each(ds[k]) {
        var k :| 0 <= k < |ds| && x in each(ds[k]);
        if k < n {
          assert init[k] == ds[k];
        }
      }
    }
  }

  // ---- the watch folder ----

  /** How a watch-folder entry appears in the listing: as "processing" when
      its sidecar exists and as "ready" otherwise. */
  predicate ListedMedia(d: Dirent, sidecars: set<string>, f: FileInfo) {
    IsMedia(d.name) && d.stat.Some? &&
    f == FileInfo(d.name, d.stat.value.size, d.stat.value.mtime,
                  if d.name + ".model" in sidecars then Processing else Ready, None)
  }

  /** The listing entry for one watch-folder entry, if it gets one. */
  function MediaEntry(sidecars: set<string>): Dirent -> seq<FileInfo> {
    (d: Dirent) =>
      if IsMedia(d.name) && d.stat.Some? then
        [FileInfo(d.name, d.stat.value.size, d.stat.value.mtime,
                  if d.name + ".model" in sidecars then Processing else Ready, None)]
      else []
  }

  /** The watch-folder entries in directory order. */
  function WatchEntries(ds: seq<Dirent>, sidecars: set<string>): seq<FileInfo> {
    Collect(ds, MediaEntry(sidecars))
  }

  /** The stem a watch-folder entry records, if it records one. */
  function MediaStem(d: Dirent): set<string> {
    if IsMedia(d.name) && d.stat.Some? then {Stem(d.name)} else {}
  }

  /** The stems of the media files that were listed. */
  function WatchStems(ds: seq<Dirent>): set<string> {
    CollectSet(ds, MediaStem)
  }

  /** A watch-folder entry is listed exactly when it is a media file that
      could be stat'ed. */
  lemma WatchEntriesMembers(ds: seq<Dirent>, sidecars: set<string>, f: FileInfo)
    ensures f in WatchEntries(ds, sidecars) <==> exists k :: 0 <= k < |ds| && ListedMedia(ds[k], sidecars, f)
  {
    CollectMembers(ds, MediaEntry(sidecars), f);
    forall k | 0 <= k < |ds| ensures f in MediaEntry(sidecars)(ds[k]) <==> ListedMedia(ds[k], sidecars, f) {
    }
  }

  /** A stem is recorded exactly for the media files that were listed. */
  lemma WatchStemsMembers(ds: seq<Dirent>, s: string)
    ensures s in WatchStems(ds) <==>
      exists k :: 0 <= k < |ds| && IsMedia(ds[k].name) && ds[k].stat.Some? && Stem(ds[k].name) == s
  {
    CollectSetMembers(ds, MediaStem, s);
  }

  // ---- the transcriptions folder ----

  /** How a transcript appears in the listing: under its stem, as completed,
      pointing at the transcript file. */
  predicate ListedTranscript(d: Dirent, stems: set<string>, f: FileInfo) {
    IsTranscript(d.name) && Stem(d.name) !in stems && d.stat.Some? &&
    f == FileInfo(Stem(d.name), d.stat.value.size, d.stat.value.mtime, Completed, Some(d.name))
  }

  /** The listing entry for one transcript, if it gets one. */
  function TranscriptEntry(stems: set<string>): Dirent -> seq<FileInfo> {
    (d: Dirent) =>
      if IsTranscript(d.name) && Stem(d.name) !in stems && d.stat.Some? then
        [FileInfo(Stem(d.name), d.stat.value.size, d.stat.value.mtime, Completed, Some(d.name))]
      else []
  }

  function TranscriptEntries(ds: seq<Dirent>, stems: set<string>): seq<FileInfo> {
    Collect(ds, TranscriptEntry(stems))
  }

  /** A transcript is listed exactly when it has a transcript extension, no
      waiting media file shares its stem, and it could be stat'ed. */
  lemma TranscriptEntriesMembers(ds: seq<Dirent>, stems: set<string>, f: FileInfo)
    ensures f in TranscriptEntries(ds, stems) <==> exists k :: 0 <= k < |ds| && ListedTranscript(ds[k], stems, f)
  {
    CollectMembers(ds, TranscriptEntry(stems), f);
    forall k | 0 <= k < |ds| ensures f in TranscriptEntry(stems)(ds[k]) <==> ListedTranscript(ds[k], stems, f) {
    }
  }

  /** Media files are never listed as completed. */
  lemma WatchEntriesNotCompleted(ds: seq<Dirent>, sidecars: set<string>)
    ensures forall f :: f in WatchEntries(ds, sidecars) ==> !f.status.Completed? && f.transcriptPath.None?
  {
    forall f | f in WatchEntries(ds, sidecars) ensures !f.status.Completed? && f.transcriptPath.None? {
      CollectMembers(ds, MediaEntry(sidecars), f);
    }
  }

  /** Transcripts are listed as completed, never under a hidden stem. */
  lemma TranscriptEntriesCompleted(ds: seq<Dirent>, stems: set<string>)
    ensures forall f :: f in TranscriptEntries(ds, stems) ==> f.status.Completed? && f.name !in stems
  {
    forall f | f in TranscriptEntries(ds, stems) ensures f.status.Completed? && f.name !in stems {
      CollectMembers(ds, TranscriptEntry(stems), f);
    }
  }

  /** The entries of both folders, before sorting. */
  function Merged(watch: Folder, sidecars: set<string>, transcripts: Folder): seq<FileInfo>
    requires !watch.Unreadable? && !transcripts.Unreadable?
  {
    var ws := if watch.Listed? then WatchEntries(watch.entries, sidecars) else [];
    var stems := if watch.Listed? then WatchStems(watch.entries) else {};
    ws + (if transcripts.Listed? then TranscriptEntries(transcripts.entries, stems) else [])
  }

  /** One more watch-folder entry: what it adds to the entries and the stems. */
  lemma WatchStep(ds: seq<Dirent>, k: nat, sidecars: set<string>)
    requires k < |ds|
    ensures var d := ds[k];
      && (IsMedia(d.name) && d.stat.Some? ==>
            && WatchEntries(ds[..k + 1], sidecars) == WatchEntries(ds[..k], sidecars) +
                 [FileInfo(d.name, d.stat.value.size, d.stat.value.mtime,
                           if d.name + ".model" in sidecars then Processing else Ready, None)]
            && WatchStems(ds[..k + 1]) == WatchStems(ds[..k]) + {Stem(d.name)})
      && (!(IsMedia(d.name) && d.stat.Some?) ==>
            WatchEntries(ds[..k + 1], sidecars) == WatchEntries(ds[..k], sidecars) &&
            WatchStems(ds[..k + 1]) == WatchStems(ds[..k]))
  {
    assert ds[..k + 1][..k] == ds[..k];
  }

  /** The loop over the watch folder: pushes each media file that can be
      stat'ed and records its stem. */
  method ScanWatch(ds: seq<Dirent>, sidecars: set<string>) returns (files: seq<FileInfo>, stems: set<string>)
    ensures files == WatchEntries(ds, sidecars) && stems == WatchStems(ds)
  {
    files := [];
    stems := {};
    for k := 0 to |ds|
      invariant files == WatchEntries(ds[..k], sidecars)
      invariant stems == WatchStems(ds[..k])
    {
      var d := ds[k];
      WatchStep(ds, k, sidecars);
      if !IsMedia(d.name) {
        continue;
      }
      if d.stat.None? {
        continue;
      }
      stems := stems + {Stem(d.name)};
      var status := if d.name + ".model" in sidecars then Processing else Ready;
      files := files + [FileInfo(d.name, d.stat.value.size, d.stat.value.mtime, status, None)];
    }
    assert ds[..|ds|] == ds;
  }

  /** The loop over the transcriptions folder: pushes each transcript whose
      stem is not waiting and that can be stat'ed. */
  method ScanTranscripts(ds: seq<Dirent>, stems: set<string>) returns (files: seq<FileInfo>)
    ensures files == TranscriptEntries(ds, stems)
  {
    files := [];
    for k := 0 to |ds|
      invariant files == TranscriptEntries(ds[..k], stems)
    {
      var d := ds[k];
      assert ds[..k + 1][..k] == ds[..k];
      var ext := Lower(Extname(d.name));
      if ext !in TranscriptExts {
        continue;
      }
      var stem := Stem(d.name);
      if stem in stems {
        continue;
      }
      if d.stat.None? {
        continue;
      }
      files := files + [FileInfo(stem, d.stat.value.size, d.stat.value.mtime, Completed, Some(d.name))];
    }
    assert ds[..|ds|] == ds;
  }

  /** `GET /api/transcribe/files`. `sidecars` holds the names in the watch
      folder for which `existsSync` finds a file; a folder that exists but
      cannot be read fails the whole request. */
  method List(watch: Folder, sidecars: set<string>, transcripts: Folder) returns (reply: Reply)
    ensures reply.Failed? <==> (watch.Unreadable? || transcripts.Unreadable?)
    ensures reply.Failed? ==> reply == Failed(500, "Failed to list files")
    ensures reply.Files? ==> (
      && SortedBy(reply.files, NewestFirst)
      && multiset(reply.files) == multiset(Merged(watch, sidecars, transcripts))
      && (forall k :: WithKey(reply.files, NewestFirst, k) == WithKey(Merged(watch, sidecars, transcripts), NewestFirst, k))
      && (watch.Missing? ==> forall f :: f in reply.files ==> f.status.Completed?)
      && (transcripts.Missing? ==> forall f :: f in reply.files ==> !f.status.Completed?)
      && forall f :: f in reply.files && f.status.Completed? ==>
           f.name !in (if watch.Listed? then WatchStems(watch.entries) else {}))
  {
    var files: seq<FileInfo> := [];
    var stems: set<string> := {};
    if watch.Unreadable? {
      return Failed(500, "Failed to list files");
    }
    if watch.Listed? {
      files, stems := ScanWatch(watch.entries, sidecars);
      WatchEntriesNotCompleted(watch.entries, sidecars);
    }
    if transcripts.Unreadable? {
      return Failed(500, "Failed to list files");
    }
    var done: seq<FileInfo> := [];
    if transcripts.Listed? {
      done := ScanTranscripts(transcripts.entries, stems);
      TranscriptEntriesCompleted(transcripts.entries, stems);
    }
    files := files + done;
    assert files == Merged(watch, sidecars, transcripts);
    SortedPermutation(files, NewestFirst);
    reply := Files(SortBy(files, NewestFirst));
    forall k ensures WithKey(reply.files, NewestFirst, k) == WithKey(files, NewestFirst, k) {
      SortStable(files, NewestFirst, k);
    }
    assert forall f :: f in reply.files ==> f in files by {
      forall f | f in reply.files ensures f in files {
        assert f in multiset(reply.files);
      }
    }
  }
}
