/** The mode step of `postProcess` in lib/downloader.ts: what happens to the
    files of a finished download's folder before its size is taken. A 'full'
    download gets a proxy of its master video, then a cleaned transcript of its
    first caption file; a 'text' download gets a cleaned transcript of every
    caption file; a 'wav' download has its audio converted in place. The folder
    is a map from file name to content, listed in `readdir` order; each ffmpeg
    run is an oracle: how it ended and what it left in its output file. */
module PostSteps {
  import opened Wrappers
  import opened Strings
  import opened Paths
  import SrtCleaner

  /** A folder: file name to content. */
  type Files = map<string, string>

  /** How an ffmpeg run ended: it exited with a code (null when killed by a
      signal), or it could not be started. */
  datatype FfmpegEnd = Exit(code: Option<int>) | SpawnFailed

  /** One ffmpeg run: how it ended and what it wrote to its output file, if it
      wrote anything. */
  datatype Ffmpeg = Ffmpeg(end: FfmpegEnd, output: Option<string>)

  /** The three file tests of the mode steps. */
  datatype Kind = Master | Caption | AudioWav

  predicate Is(k: Kind, f: string) {
    match k
    case Master => IsMaster(f)
    case Caption => IsSrt(f)
    case AudioWav => IsAudioWav(f)
  }

  /** `names.find(...)` with the test of kind `k`: the first such name. */
  function Find(names: seq<string>, k: Kind): (r: Option<string>)
    ensures r.Some? ==> r.value in names && Is(k, r.value)
    ensures r.Some? ==> exists i :: (0 <= i < |names| && names[i] == r.value &&
      forall j :: 0 <= j < i ==> !Is(k, names[j]))
    ensures r.None? ==> forall j :: 0 <= j < |names| ==> !Is(k, names[j])
  {
    if names == [] then None
    else if Is(k, names[0]) then Some(names[0])
    else Find(names[1..], k)
  }

  /** `f.startsWith('MASTER_') && f.endsWith('.mp4')` */
  predicate IsMaster(f: string) {
    StartsWith(f, "MASTER_") && EndsWith(f, ".mp4")
  }

  /** `master.replace('MASTER_', 'PROXY_')`: the name starts with the word, so its
      first occurrence is the prefix. */
  function ProxyName(master: string): (r: string)
    requires IsMaster(master)
    ensures EndsWith(r, ".mp4") && r != master
  {
    assert master[..7] == "MASTER_";
    var r := "PROXY_" + master[7..];
    assert r[|r| - 4..] == master[|master| - 4..];
    assert r[0] != master[0];
    r
  }

  /** `f.endsWith('.en.srt') \|\| f.endsWith('.srt')`, which is the second test alone. */
  predicate IsSrt(f: string) {
    EndsWith(f, ".srt")
  }

  /** `srtPath.replace(/\.srt$/, '.txt')` */
  function TxtName(f: string): (r: string)
    requires IsSrt(f)
    ensures EndsWith(r, ".txt") && !IsSrt(r)
  {
    var r := f[..|f| - 4] + ".txt";
    assert r[|r| - 4..] == ".txt";
    r
  }

  /** `f.startsWith('AUDIO_') && f.endsWith('.wav')` */
  predicate IsAudioWav(f: string) {
    StartsWith(f, "AUDIO_") && EndsWith(f, ".wav")
  }

  /** `wavPath + '.tmp.wav'` */
  function TmpName(wav: string): (r: string)
    ensures |r| > |wav|
  {
    wav + ".tmp.wav"
  }

  /** The folder after ffmpeg wrote `output` to file `name` (or wrote nothing). */
  function Wrote(files: Files, name: string, output: Option<string>): Files {
    if output.Some? then files[name := output.value] else files
  }

  /** `cleanSrtFile(srtPath, url)` written to the caption's .txt name; a caption
      file that cannot be read throws instead, and nothing is written. */
  function CleanTo(files: Files, srt: string, url: string): Files
    requires IsSrt(srt)
  {
    if srt in files then files[TxtName(srt) := SrtCleaner.Cleaned(files[srt], Some(url))] else files
  }

  /** The caption part of the 'full' step: the first caption file listed. */
  function FirstCaptionStep(names: seq<string>, files: Files, url: string): Files {
    match Find(names, Caption)
    case Some(srt) => CleanTo(files, srt, url)
    case None => files
  }

  /** The 'full' step. The proxy is made from the first master listed; when its
      ffmpeg fails the promise rejects, so the caption part is skipped. */
  function FullStep(names: seq<string>, files: Files, url: string, ff: Ffmpeg): Files {
    match Find(names, Master)
    case Some(master) =>
      var made := Wrote(files, ProxyName(master), ff.output);
      if ff.end == Exit(Some(0)) then FirstCaptionStep(names, made, url) else made
    case None => FirstCaptionStep(names, files, url)
  }

  /** Every caption file in `names` can be read: none names a directory or a
      file that is gone. */
  predicate Readable(names: seq<string>, files: Files) {
    forall k :: 0 <= k < |names| && IsSrt(names[k]) ==> names[k] in files
  }

  /** The 'text' step: every listed caption file, in listing order. Reading a
      caption that is not a file throws, which ends the step: no later caption
      is cleaned. */
  function TextStep(names: seq<string>, files: Files, url: string): Files {
    if names == [] then files
    else
      var init := names[..|names| - 1];
      var before := TextStep(init, files, url);
      var f := names[|names| - 1];
      if IsSrt(f) && Readable(init, files) then CleanTo(before, f, url) else before
  }

  /** The wav conversion: on exit 0 the original is unlinked and the converted
      temporary file renamed over it; on any other exit the temporary file is
      removed; when ffmpeg could not start nothing changes. */
  function WavStep(files: Files, wav: string, tmp: string, end: FfmpegEnd): Files {
    match end
    case Exit(code) =>
      if code == Some(0) then
        var m := files - {wav};
        if tmp in m then (m - {tmp})[wav := m[tmp]] else m
      else files - {tmp}
    case SpawnFailed => files
  }

  /** The 'wav' step: the first `AUDIO_*.wav` listed is converted through its
      temporary file. */
  function WavModeStep(names: seq<string>, files: Files, ff: Ffmpeg): Files {
    match Find(names, AudioWav)
    case Some(wav) => WavStep(Wrote(files, TmpName(wav), ff.output), wav, TmpName(wav), ff.end)
    case None => files
  }

  /** The mode step of `postProcess`; an unknown mode does nothing. `ff` is the
      ffmpeg run of the 'full' or 'wav' step. */
  function ModeStep(mode: string, names: seq<string>, files: Files, url: string, ff: Ffmpeg): Files {
    if mode == "full" then FullStep(names, files, url, ff)
    else if mode == "text" then TextStep(names, files, url)
    else if mode == "wav" then WavModeStep(names, files, ff)
    else files
  }

  /** `for (const f of files) if (f.endsWith('.srt')) ...` of the 'text' step. */
  /** The loop stops at the first caption that cannot be read, as the throw of
      `cleanSrtFile` does. */
  method CleanAllCaptions(names: seq<string>, files: Files, url: string) returns (out: Files)
    ensures out == TextStep(names, files, url)
  {
    out := files;
    var i := 0;
    while i < |names|
      invariant 0 <= i <= |names|
      invariant out == TextStep(names[..i], files, url)
      invariant Readable(names[..i], files)
    {
      var f := names[i];
      if IsSrt(f) {
        CaptionUntouched(names[..i], files, url, f);
        if f !in out {
          TextStepHalts(names, files, url, i);
          return;
        }
      }
      TextStepNext(names, files, url, i);
      if IsSrt(f) {
        out := CleanTo(out, f, url);
      }
      i := i + 1;
    }
    assert names[..|names|] == names;
  }

  /** One more readable entry of the listing: a caption is cleaned, anything
      else is passed over. */
  lemma TextStepNext(names: seq<string>, files: Files, url: string, i: nat)
    requires i < |names| && Readable(names[..i], files)
    requires IsSrt(names[i]) ==> names[i] in files
    ensures Readable(names[..i + 1], files)
    ensures TextStep(names[..i + 1], files, url) ==
      if IsSrt(names[i]) then CleanTo(TextStep(names[..i], files, url), names[i], url)
      else TextStep(names[..i], files, url)
  {
    assert names[..i + 1][..i] == names[..i];
  }

  /** Once a listed caption cannot be read, the rest of the listing changes
      nothing: the step's result is what it had written before that caption. */
  lemma {:induction false} TextStepHalts(names: seq<string>, files: Files, url: string, i: nat)
    requires i < |names| && IsSrt(names[i]) && names[i] !in files
    ensures TextStep(names, files, url) == TextStep(names[..i], files, url)
  {
    var init := names[..|names| - 1];
    if |names| - 1 == i {
      assert init == names[..i];
      CaptionUntouched(init, files, url, names[i]);
    } else {
      assert init[i] == names[i];
      assert !Readable(init, files);
      TextStepHalts(init, files, url, i);
      assert init[..i] == names[..i];
    }
  }

  /** `x` is the transcript name of a listed caption file. */
  predicate Transcript(names: seq<string>, x: string) {
    exists k :: 0 <= k < |names| && IsSrt(names[k]) && TxtName(names[k]) == x
  }

  /** `f` agrees on name `x` in `a` and `b`. */
  predicate Same(a: Files, b: Files, x: string) {
    (x in a <==> x in b) && (x in a ==> a[x] == b[x])
  }

  /** Writing transcripts never changes a caption file. */
  lemma TranscriptNotCaption(f: string, x: string)
    requires IsSrt(f) && IsSrt(x)
    ensures TxtName(f) != x
  {
  }

  /** The 'text' step changes no file other than the transcripts of listed
      caption files. */
  lemma {:induction false} TextStepKeeps(names: seq<string>, files: Files, url: string, x: string)
    requires !Transcript(names, x)
    ensures Same(TextStep(names, files, url), files, x)
  {
    if names != [] {
      var init := names[..|names| - 1];
      var f := names[|names| - 1];
      TranscriptOfPrefix(names, init, x);
      TextStepKeeps(init, files, url, x);
      if IsSrt(f) {
        assert TxtName(names[|names| - 1]) != x;
      }
    }
  }

  /** A transcript of a listing prefix is a transcript of the listing. */
  lemma TranscriptOfPrefix(names: seq<string>, init: seq<string>, x: string)
    requires init <= names
    ensures Transcript(init, x) ==> Transcript(names, x)
  {
    if Transcript(init, x) {
      var k :| 0 <= k < |init| && IsSrt(init[k]) && TxtName(init[k]) == x;
      assert names[k] == init[k];
    }
  }

  /** Two caption files with the same transcript name are the same file. */
  lemma TxtNameInjective(f: string, g: string)
    requires IsSrt(f) && IsSrt(g) && TxtName(f) == TxtName(g)
    ensures f == g
  {
    assert f[..|f| - 4] == TxtName(f)[..|TxtName(f)| - 4];
    assert g[..|g| - 4] == TxtName(g)[..|TxtName(g)| - 4];
    assert f == f[..|f| - 4] + ".srt";
    assert g == g[..|g| - 4] + ".srt";
  }

  /** The 'text' step never changes a caption file. */
  lemma CaptionUntouched(names: seq<string>, files: Files, url: string, f: string)
    requires IsSrt(f)
    ensures Same(TextStep(names, files, url), files, f)
  {
    TextStepKeeps(names, files, url, f);
  }

  /** The 'text' step writes, for every listed caption file, its cleaned text under
      its .txt name; the caption is read as it was listed. */
  lemma {:induction false} TextStepWrites(names: seq<string>, files: Files, url: string, k: nat)
    requires forall j :: 0 <= j < |names| ==> names[j] in files
    requires k < |names| && IsSrt(names[k])
    ensures TxtName(names[k]) in TextStep(names, files, url)
    ensures TextStep(names, files, url)[TxtName(names[k])] == SrtCleaner.Cleaned(files[names[k]], Some(url))
  {
    var n := |names| - 1;
    var init := names[..n];
    var f := names[n];
    PrefixListed(names, files, n);
    TextStepNext(names, files, url, n);
    assert names[..n + 1] == names;
    var before := TextStep(init, files, url);
    var t := TxtName(names[k]);
    if IsSrt(f) && TxtName(f) == t {
      TxtNameInjective(f, names[k]);
      CaptionUntouched(init, files, url, f);
    } else {
      assert init[k] == names[k];
      TextStepWrites(init, files, url, k);
    }
  }

  /** A prefix of a listing whose names are all files is one too, and readable. */
  lemma PrefixListed(names: seq<string>, files: Files, n: nat)
    requires forall j :: 0 <= j < |names| ==> names[j] in files
    requires n <= |names|
    ensures forall j :: 0 <= j < n ==> names[..n][j] in files
    ensures Readable(names[..n], files)
  {
  }

  /** The caption part of the 'full' step writes the cleaned text of the first
      listed caption file under its .txt name and changes nothing else. */
  lemma FirstCaptionWrites(names: seq<string>, files: Files, url: string, srt: string)
    requires forall k :: 0 <= k < |names| ==> names[k] in files
    requires Find(names, Caption) == Some(srt)
    ensures var r := FirstCaptionStep(names, files, url);
      && TxtName(srt) in r && r[TxtName(srt)] == SrtCleaner.Cleaned(files[srt], Some(url))
      && forall x :: x != TxtName(srt) ==> Same(r, files, x)
  {
    var r := FirstCaptionStep(names, files, url);
    assert srt in files;
    assert r == files[TxtName(srt) := SrtCleaner.Cleaned(files[srt], Some(url))];
    forall x | x != TxtName(srt)
      ensures Same(r, files, x)
    {
    }
  }

  /** The 'full' step with a master: ffmpeg's output is left under the proxy
      name; if ffmpeg exited 0 the first caption file is then cleaned as well,
      and otherwise no transcript is written. */
  lemma FullStepCases(names: seq<string>, files: Files, url: string, ff: Ffmpeg, master: string)
    requires Find(names, Master) == Some(master)
    ensures var r := FullStep(names, files, url, ff);
      && (ff.output.Some? ==> ProxyName(master) in r && r[ProxyName(master)] == ff.output.value)
      && (ff.end != Exit(Some(0)) ==> r == Wrote(files, ProxyName(master), ff.output))
      && (ff.end == Exit(Some(0)) ==> r == FirstCaptionStep(names, Wrote(files, ProxyName(master), ff.output), url))
  {
    if ff.end == Exit(Some(0)) && ff.output.Some? {
      match Find(names, Caption)
      case None =>
      case Some(srt) =>
        assert TxtName(srt) != ProxyName(master) by {
          assert !EndsWith(TxtName(srt), ".mp4");
        }
    }
  }

  /** The original wav is replaced only by a successful conversion: otherwise it
      is kept as it was and no temporary file is left behind by an exit. No other
      file changes. */
  lemma WavStepSafe(files: Files, wav: string, tmp: string, end: FfmpegEnd)
    requires wav in files && wav != tmp
    ensures var r := WavStep(files, wav, tmp, end);
      && (forall x :: x != wav && x != tmp ==> Same(r, files, x))
      && (end == Exit(Some(0)) && tmp in files ==> wav in r && r[wav] == files[tmp] && tmp !in r)
      && (end != Exit(Some(0)) ==> wav in r && r[wav] == files[wav])
      && (end.Exit? && end.code != Some(0) ==> tmp !in r)
  {
  }

  /** The 'wav' step: the first listed `AUDIO_*.wav` takes the converted audio
      only when ffmpeg exited 0 having written it; otherwise it keeps its content,
      and an exited ffmpeg leaves no temporary file. No other file changes. */
  lemma WavModeCases(names: seq<string>, files: Files, ff: Ffmpeg, wav: string)
    requires forall k :: 0 <= k < |names| ==> names[k] in files
    requires Find(names, AudioWav) == Some(wav)
    ensures var r := WavModeStep(names, files, ff);
      && (forall x :: x != wav && x != TmpName(wav) ==> Same(r, files, x))
      && (ff.end == Exit(Some(0)) && ff.output.Some? ==> wav in r && r[wav] == ff.output.value && TmpName(wav) !in r)
      && (ff.end != Exit(Some(0)) ==> wav in r && r[wav] == files[wav])
      && (ff.end.Exit? ==> TmpName(wav) !in r)
  {
    var tmp := TmpName(wav);
    var made := Wrote(files, tmp, ff.output);
    var r := WavStep(made, wav, tmp, ff.end);
    assert wav in made;
    WavStepSafe(made, wav, tmp, ff.end);
    forall x | x != wav && x != tmp
      ensures Same(r, files, x)
    {
      assert Same(r, made, x);
      assert Same(made, files, x);
    }
  }

  /** A mode other than full, text and wav leaves the folder alone. */
  lemma OtherModeKeeps(mode: string, names: seq<string>, files: Files, url: string, ff: Ffmpeg)
    requires mode != "full" && mode != "text" && mode != "wav"
    ensures ModeStep(mode, names, files, url, ff) == files
  {
  }
}
