/** The "send to Scribe" endpoint: copies a media file from a download folder
    into the transcription watch folder, under its own name when that is free
    and otherwise under the first free `base_i.ext`. */
module SendToScribe {
  import opened Wrappers
  import opened Strings
  import opened Paths

  const DumpDir: string := "/Volumes/ME Backup02/_Dump"
  const ScribeDir: string := "/Volumes/ME Backup02/BryTranscribe"

  const AllowedExts: set<string> := {".mp4", ".mkv", ".webm", ".mov", ".avi", ".wav", ".mp3", ".m4a", ".flac", ".aac"}

  /** The `i`-th alternative name. */
  function Candidate(base: string, ext: string, i: nat): string {
    base + "_" + NatToString(i) + ext
  }

  /** Different numbers give different names. */
  lemma CandidateInjective(base: string, ext: string, i: nat, j: nat)
    requires Candidate(base, ext, i) == Candidate(base, ext, j)
    ensures i == j
  {
    var a := Candidate(base, ext, i);
    var n := |base| + 1;
    assert |NatToString(i)| == |NatToString(j)|;
    assert a[n..n + |NatToString(i)|] == NatToString(i);
    assert Candidate(base, ext, j)[n..n + |NatToString(j)|] == NatToString(j);
    NatToStringInjective(i, j);
  }

  function Candidates(base: string, ext: string, n: nat): set<string> {
    set i | 1 <= i <= n :: Candidate(base, ext, i)
  }

  /** The first `n` alternatives are `n` different names. */
  lemma {:induction false} CandidatesCount(base: string, ext: string, n: nat)
    ensures |Candidates(base, ext, n)| == n
  {
    if n == 0 {
      assert Candidates(base, ext, 0) == {};
    } else {
      CandidatesCount(base, ext, n - 1);
      assert Candidates(base, ext, n) == Candidates(base, ext, n - 1) + {Candidate(base, ext, n)};
      if Candidate(base, ext, n) in Candidates(base, ext, n - 1) {
        var i :| 1 <= i <= n - 1 && Candidate(base, ext, i) == Candidate(base, ext, n);
        CandidateInjective(base, ext, i, n);
      }
    }
  }

  lemma {:induction false} SubsetCount(a: set<string>, b: set<string>)
    requires a <= b
    ensures |a| <= |b|
  {
    if a != {} {
      var x :| x in a;
      SubsetCount(a - {x}, b - {x});
    }
  }

  // ---- where the copy lands ----

  /** The two roots, as path segments. */
  const DumpSegments: seq<string> := ["Volumes", "ME Backup02", "_Dump"]
  const ScribeSegments: seq<string> := ["Volumes", "ME Backup02", "BryTranscribe"]

  /** The resolved source path `path.join(DUMP_DIR, folder, file)`, with the two
      parameters given as segments. */
  function SourceOf(folder: seq<string>, file: seq<string>): seq<string> {
    Normalize(DumpSegments + folder + file)
  }

  /** The destination as the route computes it, `path.join(SCRIBE_DIR, file)`,
      before any `_i` suffix. */
  function DestinationOf(file: seq<string>): seq<string> {
    Normalize(ScribeSegments + file)
  }

  /** The guard looks at the source only. With folder "f/g" and file
      "../h.mp4" the source is `_Dump/f/h.mp4`, inside the download root, but
      the copy goes to `ME Backup02/h.mp4`, outside the watch folder. */
  lemma DestinationEscapes()
    ensures Within(SourceOf(["f", "g"], ["..", "h.mp4"]), DumpSegments)
    ensures DestinationOf(["..", "h.mp4"]) == ["Volumes", "ME Backup02", "h.mp4"]
    ensures !Within(DestinationOf(["..", "h.mp4"]), ScribeSegments)
  {
    var src := DumpSegments + ["f", "g"];
    NormalizePlain(src);
    assert (src + [".."])[..|src|] == src;
    assert Normalize(src + [".."]) == DumpSegments + ["f"];
    assert (src + [".."] + ["h.mp4"])[..|src| + 1] == src + [".."];
    assert Normalize(src + [".."] + ["h.mp4"]) == DumpSegments + ["f", "h.mp4"];
    assert DumpSegments + ["f", "g"] + ["..", "h.mp4"] == src + [".."] + ["h.mp4"];
    NormalizePlain(ScribeSegments);
    assert (ScribeSegments + [".."])[..3] == ScribeSegments;
    assert Normalize(ScribeSegments + [".."]) == ["Volumes", "ME Backup02"];
    assert (ScribeSegments + [".."] + ["h.mp4"])[..4] == ScribeSegments + [".."];
    assert ScribeSegments + ["..", "h.mp4"] == ScribeSegments + [".."] + ["h.mp4"];
  }

  /** The destination as evidently intended: the file's own name, directly in
      the watch folder; nothing when the file parameter names no entry. */
  function IntendedDestinationOf(file: seq<string>): (r: Option<seq<string>>)
    ensures r.Some? ==> Within(r.value, ScribeSegments) && |r.value| == |ScribeSegments| + 1
    ensures r.Some? ==> Normalize(r.value) == r.value
    ensures r.None? <==> Normalize(file) == []
  {
    var n := Normalize(file);
    if n == [] then None
    else
      var d := ScribeSegments + [n[|n| - 1]];
      assert forall k :: 0 <= k < |d| ==> Plain(d[k]);
      NormalizePlain(d);
      Some(d)
  }

  /** For a plain file name, which is what the file browser sends, the intended
      destination is the one the route computes. */
  lemma IntendedAgrees(name: string)
    requires Plain(name)
    ensures IntendedDestinationOf([name]) == Some(DestinationOf([name]))
  {
    NormalizePlain([name]);
    NormalizePlain(ScribeSegments + [name]);
  }

  datatype Reply = Sent(filename: string) | Refused(status: nat, error: string)

  /** The watch folder, as the names of the files in it. */
  class ScribeFolder {
    var names: set<string>

    constructor(names0: set<string>)
      ensures names == names0
    {
      names := names0;
    }

    /** The destination name: `name` when it is free, otherwise `base_i.ext`
        for the least `i >= 1` that is free. */
    method FreeName(name: string, base: string, ext: string) returns (dest: string)
      ensures dest !in names
      ensures name !in names ==> dest == name
      ensures name in names ==> exists i :: (1 <= i && dest == Candidate(base, ext, i) &&
        forall j :: 1 <= j < i ==> Candidate(base, ext, j) in names)
    {
      dest := name;
      if dest in names {
        var i: nat := 1;
        while dest in names
          invariant i >= 1
          invariant dest == (if i == 1 then name else Candidate(base, ext, i - 1))
          invariant forall j :: 1 <= j < i - 1 ==> Candidate(base, ext, j) in names
          invariant i == 1 ==> name in names
          decreases |names| + 2 - i
        {
          if i > 1 {
            assert Candidates(base, ext, i - 1) <= names;
            CandidatesCount(base, ext, i - 1);
            SubsetCount(Candidates(base, ext, i - 1), names);
          } else {
            assert {name} <= names;
            SubsetCount({name}, names);
          }
          dest := Candidate(base, ext, i);
          i := i + 1;
        }
        assert dest == Candidate(base, ext, i - 1);
      }
    }

    /** `POST /api/files/send-to-scribe`. `srcExists` is whether the source file
        exists, and `copied` whether `copyFileSync` succeeds (it throws when the
        destination's directory is missing, as for "sub/x.mp4" without a "sub"
        folder, or when the source is a directory). Checks run in order: both
        fields present, the path guard, the source's existence, the extension
        allowlist; then the name is chosen and the copy added, or the thrown copy
        answers 500. */
    method Send(folder: Option<string>, file: Option<string>, resolve: string -> string, srcExists: bool, copied: bool)
      returns (reply: Reply, ghost chosen: string)
      modifies this
      ensures (folder.None? || folder.value == "" || file.None? || file.value == "") ==>
        reply == Refused(400, "folder and file required")
      ensures reply.Sent? <==> (folder.Some? && folder.value != "" && file.Some? && file.value != ""
                              && StartsWith(resolve(JoinPath(JoinPath(DumpDir, folder.value), file.value)), resolve(DumpDir))
                              && srcExists && Lower(Extname(file.value)) in AllowedExts && copied)
      ensures folder.Some? && folder.value != "" && file.Some? && file.value != "" ==>
        var guard := StartsWith(resolve(JoinPath(JoinPath(DumpDir, folder.value), file.value)), resolve(DumpDir));
        && (!guard ==> reply == Refused(400, "Invalid path"))
        && (guard && !srcExists ==> reply == Refused(404, "File not found"))
        && (guard && srcExists && Lower(Extname(file.value)) !in AllowedExts ==>
              reply == Refused(400, "Only video/audio files can be sent to Scribe"))
        && (guard && srcExists && Lower(Extname(file.value)) in AllowedExts && !copied ==>
              reply == Refused(500, "Failed to send to Scribe"))
      ensures reply.Refused? ==> names == old(names)
      ensures reply.Sent? ==>
        var ext := Lower(Extname(file.value));
        var base := Basename(file.value, ext);
        && chosen !in old(names) && names == old(names) + {chosen}
        && reply.filename == LastSegment(JoinPath(ScribeDir, chosen))
        && (file.value !in old(names) ==> chosen == file.value)
        && (file.value in old(names) ==> exists i :: (1 <= i && chosen == Candidate(base, ext, i) &&
              forall j :: 1 <= j < i ==> Candidate(base, ext, j) in old(names)))
    {
      chosen := "";
      if folder.None? || folder.value == "" || file.None? || file.value == "" {
        return Refused(400, "folder and file required"), chosen;
      }
      var name := file.value;
      if !StartsWith(resolve(JoinPath(JoinPath(DumpDir, folder.value), name)), resolve(DumpDir)) {
        return Refused(400, "Invalid path"), chosen;
      }
      if !srcExists {
        return Refused(404, "File not found"), chosen;
      }
      var ext := Lower(Extname(name));
      if ext !in AllowedExts {
        return Refused(400, "Only video/audio files can be sent to Scribe"), chosen;
      }
      var dest := FreeName(name, Basename(name, ext), ext);
      if !copied {
        return Refused(500, "Failed to send to Scribe"), chosen;
      }
      chosen := dest;
      names := names + {dest};
      reply := Sent(LastSegment(JoinPath(ScribeDir, dest)));
    }
  }
}
