/** The parts of the downloader that only compute: the yt-dlp command line for a
    mode, the parser for yt-dlp's progress lines, the splitter that turns output
    chunks into lines, and the row changes one output line asks for. */
module Ytdlp {
  import opened Wrappers
  import opened Strings
  import opened Regex
  import opened Paths
  import opened Db

  /** The download root. */
  const DumpDir: string := "/Volumes/ME Backup02/_Dump"

  /** At most this many rows are 'downloading' at once. */
  const MaxConcurrent: nat := 2

  // ---- The command line ----

  const BaseArgs: seq<string> := ["--no-colors", "--newline", "--restrict-filenames"]

  const SubArgs: seq<string> := ["--write-auto-sub", "--write-sub", "--sub-lang", "en", "--convert-subs", "srt"]

  const FullTemplate: string :=
    "%(extractor_key)s_%(upload_date>%m_%d_%y)s_%(channel)s_%(title)s_%(id)s/MASTER_%(extractor_key)s_%(upload_date>%m_%d_%y)s_%(channel)s_%(title)s_%(id)s.%(ext)s"

  const TextTemplate: string :=
    "%(channel)s/%(extractor_key)s_%(upload_date>%m_%d_%y)s_%(channel)s_%(title)s_%(id)s.%(ext)s"

  const WavTemplate: string :=
    "%(extractor_key)s_%(upload_date>%m_%d_%y)s_%(channel)s_%(title)s_%(id)s/AUDIO_%(extractor_key)s_%(upload_date>%m_%d_%y)s_%(channel)s_%(title)s_%(id)s.%(ext)s"

  /** `getYtdlpArgs`: the arguments for yt-dlp in each mode; an unknown mode gets
      the base flags and the URL alone. */
  function YtdlpArgs(url: string, mode: string): seq<string> {
    if mode == "full" then
      BaseArgs
      + ["--js-runtimes", "node", "--extractor-args", "youtube:player_client=android",
         "-f", "bv*+ba/b", "--merge-output-format", "mp4"]
      + SubArgs
      + ["--embed-thumbnail", "--write-thumbnail", "--add-metadata", "--write-description",
         "-o", JoinPath(DumpDir, FullTemplate), url]
    else if mode == "text" then
      BaseArgs + ["--skip-download"] + SubArgs + ["-o", JoinPath(DumpDir, TextTemplate), url]
    else if mode == "wav" then
      BaseArgs
      + ["--js-runtimes", "node", "--extractor-args", "youtube:player_client=android",
         "-f", "ba/b", "-x", "--audio-format", "wav", "--audio-quality", "0",
         "--write-thumbnail", "--write-description",
         "-o", JoinPath(DumpDir, WavTemplate), url]
    else
      BaseArgs + [url]
  }

  /** The `n` elements of `xs` from index `i` on. */
  function Window(xs: seq<string>, i: nat, n: nat): seq<string>
    requires i + n <= |xs|
  {
    xs[i..i + n]
  }

  /** `xs` holds `ys` as consecutive elements. */
  predicate HasRun(xs: seq<string>, ys: seq<string>) {
    exists i: nat :: i + |ys| <= |xs| && Window(xs, i, |ys|) == ys
  }

  /** Every command line starts with the base flags and ends with the URL; 'text'
      skips the media, 'wav' extracts WAV audio, 'full' merges into MP4, and any
      other mode gets nothing but the base flags and the URL. */
  lemma YtdlpArgsShape(url: string, mode: string)
    ensures var r := YtdlpArgs(url, mode);
      |r| >= 4 && r[..3] == BaseArgs && r[|r| - 1] == url
    ensures mode == "text" ==> "--skip-download" in YtdlpArgs(url, mode)
    ensures mode == "wav" ==> HasRun(YtdlpArgs(url, mode), ["-x", "--audio-format", "wav"])
    ensures mode == "full" ==> HasRun(YtdlpArgs(url, mode), ["--merge-output-format", "mp4"])
    ensures mode != "full" && mode != "text" && mode != "wav" ==> YtdlpArgs(url, mode) == BaseArgs + [url]
  {
    var r := YtdlpArgs(url, mode);
    if mode == "wav" {
      assert Window(r, 9, 3) == ["-x", "--audio-format", "wav"];
    } else if mode == "full" {
      assert Window(r, 9, 2) == ["--merge-output-format", "mp4"];
    }
  }

  // ---- Progress lines ----

  /** `\s+` */
  const Gap: Pattern := [Plus(Space)]

  /** `\S+` */
  const Token: Pattern := [Plus(NonSpace)]

  /** `(\S+)` */
  const Grab: Pattern := [Open, Plus(NonSpace), Close]

  /** `(\d+)` */
  const Count: Pattern := [Open, Plus(Digit), Close]

  /** `(\d+\.?\d*)` */
  const Number: Pattern := [Open, Plus(Digit), Opt(Lit('.')), Star(Digit), Close]

  /** `\s+(\d+\.?\d*)` */
  const GapNumber: Pattern := Gap + Number

  /** `%\s+` */
  const PercentGap: Pattern := Text("%") + Gap

  /** `\s+(\d+\.?\d*)%\s+` after the "[download]" tag. */
  const PercentPart: Pattern := GapNumber + PercentGap

  /** `\S+\s+` */
  const TokenGap: Pattern := Token + Gap

  /** `of\s+\S+\s+`: the total size. */
  const OfToken: Pattern := (Text("of") + Gap) + TokenGap

  /** `in\s+\S+\s+`: the elapsed time of a finished download. */
  const InToken: Pattern := (Text("in") + Gap) + TokenGap

  /** `at\s+(\S+)`: the speed. */
  const AtGrab: Pattern := (Text("at") + Gap) + Grab

  /** `\s+(\S+)` */
  const GapGrab: Pattern := Gap + Grab

  /** `\s+ETA\s+(\S+)`: the time left. */
  const EtaGrab: Pattern := (Gap + Text("ETA")) + GapGrab

  /** `\s+(\d+\.?\d*)%\s+of\s+\S+\s+`: the part both download patterns share. */
  const SizePart: Pattern := PercentPart + OfToken

  /** The rest of PROGRESS_RE: `of\s+\S+\s+at\s+(\S+)\s+ETA\s+(\S+)`. */
  const EtaRest: Pattern := SizePart + (AtGrab + EtaGrab)

  /** The rest of PROGRESS_RE2: `of\s+\S+\s+in\s+\S+\s+at\s+(\S+)`. */
  const DoneRest: Pattern := SizePart + (InToken + AtGrab)

  /** `\s+(\d+)` */
  const GapCount: Pattern := Gap + Count

  /** `\s+Downloading\s+(?:fragment|video)` */
  const DownloadingWord: Pattern := (Gap + Text("Downloading")) + (Gap + [Alt(["fragment", "video"])])

  /** `\s+(\d+)\s+of\s+(\d+)` */
  const CountOfCount: Pattern := GapCount + ((Gap + Text("of")) + GapCount)

  /** The rest of FRAGMENT_RE: `\s+Downloading\s+(?:fragment|video)\s+(\d+)\s+of\s+(\d+)`. */
  const FragmentRest: Pattern := DownloadingWord + CountOfCount

  const Tag: string := "[download]"

  const ProgressEta: Pattern := Text(Tag) + EtaRest
  const ProgressDone: Pattern := Text(Tag) + DoneRest
  const FragmentLine: Pattern := Text(Tag) + FragmentRest

  /** What `parseProgress` reports: the percent is always present, speed and ETA
      only for the patterns that capture them. */
  datatype Progress = Progress(percent: Percent, speed: Option<string>, eta: Option<string>)

  /** Capture group `k` of a match ("" when the pattern has fewer groups). */
  function Group(f: Found, k: nat): string {
    if k < |f.groups| then f.groups[k] else ""
  }

  /** The digits after a '.' at the head of `s`, if `s` starts with one. */
  function Fraction(s: string): (r: string)
    ensures AllDigits(r)
  {
    if |s| > 0 && s[0] == '.' then DigitPrefix(s[1..]) else ""
  }

  /** `parseFloat` on text of the form the percent group captures, `\d+\.?\d*`:
      the integer digits plus the fraction digits over their power of ten. A text
      with no digit at all is NaN. */
  function ParseFloat(s: string): (r: Percent)
    ensures r.Finite? ==> r.value >= 0.0
  {
    var whole := DigitPrefix(s);
    var frac := Fraction(s[|whole|..]);
    if whole == [] && frac == [] then NotFinite else Finite(DecimalReal(whole, frac))
  }

  /** The number written with the given integer and fraction digits. */
  function DecimalReal(whole: string, frac: string): (r: real)
    requires AllDigits(whole) && AllDigits(frac)
    ensures r >= 0.0
  {
    DecimalValue(whole) as real + DecimalValue(frac) as real / Pow10(|frac|) as real
  }

  /** `Math.round((current / total) * 100)` with `parseInt` of both numbers: a
      zero total (or an unreadable number) gives a non-finite value. */
  function FragmentPercent(current: string, total: string): Percent {
    match (ParseInt(current), ParseInt(total))
    case (Some(n), Some(m)) =>
      if m == 0 then NotFinite else Finite(Round(n as real / m as real * 100.0) as real)
    case _ => NotFinite
  }

  /** `parseProgress`: the three patterns in order, the first that matches wins. */
  function ParseProgress(line: string): Option<Progress> {
    FirstProgress(Exec(ProgressEta, line), Exec(ProgressDone, line), Exec(FragmentLine, line))
  }

  /** The report of the first of the three matches that succeeded. */
  function FirstProgress(eta: Option<Found>, done: Option<Found>, fragment: Option<Found>): Option<Progress> {
    match eta
    case Some(f) => Some(Progress(ParseFloat(Group(f, 0)), Some(Group(f, 1)), Some(Group(f, 2))))
    case None =>
      match done
      case Some(f) => Some(Progress(ParseFloat(Group(f, 0)), Some(Group(f, 1)), None))
      case None =>
        match fragment
        case Some(f) => Some(Progress(FragmentPercent(Group(f, 0), Group(f, 1)), None, None))
        case None => None
  }

  lemma FirstProgressOrder(eta: Option<Found>, done: Option<Found>, fragment: Option<Found>)
    ensures var r := FirstProgress(eta, done, fragment);
      && ((r.Some? && r.value.eta.Some?) <==> eta.Some?)
      && ((r.Some? && r.value.eta.None? && r.value.speed.Some?) <==> eta.None? && done.Some?)
      && ((r.Some? && r.value.speed.None?) <==> eta.None? && done.None? && fragment.Some?)
      && (r.None? <==> eta.None? && done.None? && fragment.None?)
  {
  }

  /** A line without the "[download]" tag is never a progress line. */
  lemma ParseProgressNeedsTag(line: string)
    requires ParseProgress(line).Some?
    ensures Contains(line, Tag)
  {
    if Exec(ProgressEta, line).Some? {
      ExecNeedsText(Tag, EtaRest, line);
    } else if Exec(ProgressDone, line).Some? {
      ExecNeedsText(Tag, DoneRest, line);
    } else {
      ExecNeedsText(Tag, FragmentRest, line);
    }
  }

  /** The patterns are tried in priority order: the ETA form reports an ETA, the
      finished form a speed but no ETA, the fragment form neither, and a line no
      pattern matches is not a progress line. */
  lemma ParseProgressOrder(line: string)
    ensures var r := ParseProgress(line);
      (r.Some? && r.value.eta.Some?) <==> Test(ProgressEta, line)
    ensures var r := ParseProgress(line);
      (r.Some? && r.value.eta.None? && r.value.speed.Some?) <==>
        !Test(ProgressEta, line) && Test(ProgressDone, line)
    ensures var r := ParseProgress(line);
      (r.Some? && r.value.speed.None?) <==>
        !Test(ProgressEta, line) && !Test(ProgressDone, line) && Test(FragmentLine, line)
    ensures ParseProgress(line).None? <==>
      !Test(ProgressEta, line) && !Test(ProgressDone, line) && !Test(FragmentLine, line)
  {
    FirstProgressOrder(Exec(ProgressEta, line), Exec(ProgressDone, line), Exec(FragmentLine, line));
  }

  /** The fragment percent of two counters yt-dlp prints: 100·N/M rounded, and
      not finite when M is 0. */
  lemma FragmentPercentOf(n: nat, m: nat)
    ensures FragmentPercent(NatToString(n), NatToString(m)) ==
      if m == 0 then NotFinite else Finite(Round(n as real / m as real * 100.0) as real)
  {
    ParseIntNat(n);
    ParseIntNat(m);
  }

  lemma ParseIntNat(n: nat)
    ensures ParseInt(NatToString(n)) == Some(n as int)
  {
    ParseIntToString(n);
    assert IntToString(n) == NatToString(n);
  }

  /** While N ≤ M the rounded fragment percent lies between 0 and 100. */
  lemma RoundPercentBounds(n: nat, m: nat)
    requires 0 < m && n <= m
    ensures 0 <= Round(n as real / m as real * 100.0) <= 100
  {
    var q := n as real / m as real;
    assert q * m as real == n as real;
    assert 0.0 <= q <= 1.0;
    var x := q * 100.0;
    assert 0.5 <= x + 0.5 < 101.0;
  }

  /** `parseFloat` of digits, optionally followed by a fraction part: the whole
      part plus the fraction over its power of ten. */
  lemma ParseFloatDigits(w: string, rest: string)
    requires w != [] && AllDigits(w) && (rest == [] || rest[0] == '.')
    ensures ParseFloat(w + rest) == Finite(DecimalReal(w, Fraction(rest)))
  {
    DigitPrefixConcat(w, rest);
    assert (w + rest)[|w|..] == rest;
  }

  /** `parseFloat` reads back a whole number. */
  lemma ParseFloatWhole(n: nat)
    ensures ParseFloat(NatToString(n)) == Finite(n as real)
  {
    var w := NatToString(n);
    NatToStringValue(n);
    ParseFloatDigits(w, "");
    assert w + "" == w;
    assert Fraction("") == "";
    assert DecimalValue("") == 0 && Pow10(0) == 1;
  }

  /** `parseFloat` reads back a whole number followed by a fraction part. */
  lemma ParseFloatFraction(n: nat, ds: string)
    requires AllDigits(ds)
    ensures ParseFloat(NatToString(n) + ("." + ds)) == Finite(DecimalReal(NatToString(n), ds))
    ensures DecimalReal(NatToString(n), ds) == n as real + DecimalValue(ds) as real / Pow10(|ds|) as real
  {
    var w := NatToString(n);
    NatToStringValue(n);
    ParseFloatDigits(w, "." + ds);
    assert Fraction("." + ds) == ds by {
      assert ("." + ds)[1..] == ds;
      DigitPrefixAll(ds);
    }
  }

  /** The digit prefix of digits followed by a non-digit is those digits. */
  lemma {:induction false} DigitPrefixConcat(w: string, rest: string)
    requires AllDigits(w) && (rest == [] || !IsDigit(rest[0]))
    ensures DigitPrefix(w + rest) == w
  {
    if w != [] {
      assert (w + rest)[1..] == w[1..] + rest;
      DigitPrefixConcat(w[1..], rest);
    } else {
      assert w + rest == rest;
    }
  }

  // ---- Output chunks to lines ----

  /** One 'data' event on a stream: the carry and the chunk are split at '\n'; every
      piece but the last is a complete line, and the last becomes the new carry. */
  function Feed(carry: string, chunk: string): (r: (seq<string>, string))
    ensures '\n' !in r.1
    ensures forall k :: 0 <= k < |r.0| ==> '\n' !in r.0[k]
  {
    var pieces := Split(carry + chunk, '\n');
    (pieces[..|pieces| - 1], pieces[|pieces| - 1])
  }

  /** The dispatched lines and the carry give back the carry and the chunk. */
  lemma FeedRebuilds(carry: string, chunk: string)
    ensures var r := Feed(carry, chunk); Join(r.0 + [r.1], "\n") == carry + chunk
  {
    var pieces := Split(carry + chunk, '\n');
    SplitJoin(carry + chunk, '\n');
    assert pieces[..|pieces| - 1] + [pieces[|pieces| - 1]] == pieces;
  }

  /** The lines dispatched and the carry left after a sequence of chunks. */
  function FeedAll(chunks: seq<string>): (r: (seq<string>, string))
    ensures '\n' !in r.1
    ensures forall k :: 0 <= k < |r.0| ==> '\n' !in r.0[k]
  {
    if chunks == [] then ([], "")
    else
      var before := FeedAll(chunks[..|chunks| - 1]);
      var step := Feed(before.1, chunks[|chunks| - 1]);
      (before.0 + step.0, step.1)
  }

  function Concat(chunks: seq<string>): string {
    if chunks == [] then "" else Concat(chunks[..|chunks| - 1]) + chunks[|chunks| - 1]
  }

  /** Every line dispatched so far, joined by '\n' and followed by the carry, is
      exactly the text received so far. */
  lemma {:induction false} FeedAllRebuilds(chunks: seq<string>)
    ensures var r := FeedAll(chunks); Join(r.0 + [r.1], "\n") == Concat(chunks)
  {
    if chunks != [] {
      var init := chunks[..|chunks| - 1];
      var x := chunks[|chunks| - 1];
      FeedAllRebuilds(init);
      var before := FeedAll(init);
      var step := Feed(before.1, x);
      FeedRebuilds(before.1, x);
      FeedStep(before.0, before.1, step.0, step.1, x);
    }
  }

  /** Adding one chunk's lines to those already dispatched. */
  lemma FeedStep(done: seq<string>, carry: string, lines: seq<string>, carry2: string, x: string)
    requires Join(lines + [carry2], "\n") == carry + x
    ensures Join(done + lines + [carry2], "\n") == Join(done + [carry], "\n") + x
  {
    if done != [] {
      assert done + lines + [carry2] == done + (lines + [carry2]);
      JoinAppend(done, lines + [carry2], "\n");
      JoinSingle(done, carry, "\n");
    } else {
      assert done + lines + [carry2] == lines + [carry2];
      assert done + [carry] == [carry];
    }
  }

  // ---- What one output line changes ----

  /** `\[download\] Destination: (.+)`. */
  const DestinationLine: Pattern := Text("[download] Destination: ") + [Open, Plus(Dot), Close]

  /** `\[Merger\] Merging formats into "(.+)"`. */
  const MergerLine: Pattern := Text("[Merger] Merging formats into \"") + [Open, Plus(Dot), Close, One(Lit('"'))]

  /** The row updates one line asks for, in order, and the run's remembered output
      folder afterwards. */
  datatype LineEffect = LineEffect(updates: seq<seq<Field>>, lastOutputDir: string)

  /** A destination or merger path: its folder becomes the output folder, unless
      it is the download root itself. */
  function FolderUpdate(path: Option<string>, last: string): (seq<seq<Field>>, string) {
    match path
    case Some(p) =>
      var dir := Dirname(p);
      if dir != DumpDir then ([[SetOutputDir(Some(dir))]], dir) else ([], last)
    case None => ([], last)
  }

  /** The columns a progress report writes: always the percent, and the speed and
      the ETA when they are non-empty. */
  function ProgressFields(pr: Progress): seq<Field> {
    [SetProgress(pr.percent)]
    + (if pr.speed.Some? && pr.speed.value != "" then [SetSpeed(pr.speed)] else [])
    + (if pr.eta.Some? && pr.eta.value != "" then [SetEta(pr.eta)] else [])
  }

  /** The updates for a line whose destination path, merger path and progress
      report are given. */
  function EffectOf(dest: Option<string>, merge: Option<string>, prog: Option<Progress>, last: string): LineEffect {
    var (u1, last1) := FolderUpdate(dest, last);
    var (u2, last2) := FolderUpdate(merge, last1);
    var u3 := match prog case Some(pr) => [ProgressFields(pr)] case None => [];
    LineEffect(u1 + u2 + u3, last2)
  }

  /** What `handleLine` reads off one line: the destination path, the merger path
      and the progress report, each when the line has one. */
  datatype LineParts = LineParts(dest: Option<string>, merge: Option<string>, prog: Option<Progress>)
  {
    /** The updates these parts ask for, and the remembered folder after them. */
    function Effect(last: string): LineEffect {
      EffectOf(dest, merge, prog, last)
    }
  }

  /** The three matches `handleLine` tries on a line. */
  function Scan(line: string): LineParts {
    LineParts(Capture(DestinationLine, line, 0), Capture(MergerLine, line, 0), ParseProgress(line))
  }

  /** The part of `handleLine` after the cancellation check. */
  function HandleLineEffect(line: string, last: string): LineEffect {
    Scan(line).Effect(last)
  }

  /** The columns an output line may write. */
  predicate LineColumn(c: Column) {
    c == OutputDirCol || c == ProgressCol || c == SpeedCol || c == EtaCol
  }

  /** The updates are non-empty, write only the output folder and the progress
      columns, never name the download root as output folder, and leave the
      remembered folder as it was or at the last folder written. */
  predicate Tame(e: LineEffect, last: string) {
    && TameUpdates(e.updates)
    && (e.lastOutputDir == last || e.lastOutputDir != DumpDir)
  }

  /** Each update is non-empty and writes only the output folder and the
      progress columns, never with the download root as output folder. */
  predicate TameUpdates(us: seq<seq<Field>>) {
    && (forall a, b :: 0 <= a < |us| && 0 <= b < |us[a]| ==> LineColumn(us[a][b].Col()))
    && (forall a :: 0 <= a < |us| ==> us[a] != [])
    && (forall a, b :: 0 <= a < |us| && 0 <= b < |us[a]| && us[a][b].SetOutputDir? ==>
          us[a][b].outputDir.Some? && us[a][b].outputDir.value != DumpDir)
  }

  lemma TameUpdatesConcat(u: seq<seq<Field>>, v: seq<seq<Field>>)
    requires TameUpdates(u) && TameUpdates(v)
    ensures TameUpdates(u + v)
  {
    var w := u + v;
    forall a | 0 <= a < |w| ensures w[a] == if a < |u| then u[a] else v[a - |u|] {
    }
  }

  lemma FolderUpdateTame(path: Option<string>, last: string)
    ensures TameUpdates(FolderUpdate(path, last).0)
    ensures var l := FolderUpdate(path, last).1; l == last || l != DumpDir
  {
  }

  lemma ProgressFieldsTame(prog: Option<Progress>)
    ensures TameUpdates(match prog case Some(pr) => [ProgressFields(pr)] case None => [])
  {
    if prog.Some? {
      var fs := ProgressFields(prog.value);
      assert fs[0].SetProgress?;
      forall b | 0 <= b < |fs| ensures LineColumn(fs[b].Col()) && !fs[b].SetOutputDir? {
      }
    }
  }

  lemma EffectOfTame(dest: Option<string>, merge: Option<string>, prog: Option<Progress>, last: string)
    ensures Tame(EffectOf(dest, merge, prog, last), last)
  {
    var (u1, last1) := FolderUpdate(dest, last);
    var (u2, last2) := FolderUpdate(merge, last1);
    var u3 := match prog case Some(pr) => [ProgressFields(pr)] case None => [];
    FolderUpdateTame(dest, last);
    FolderUpdateTame(merge, last1);
    ProgressFieldsTame(prog);
    TameUpdatesConcat(u1, u2);
    TameUpdatesConcat(u1 + u2, u3);
    assert EffectOf(dest, merge, prog, last) == LineEffect(u1 + u2 + u3, last2);
  }

  /** An output line writes only the output folder and the progress columns (never
      the status), never names the download root as the output folder, and the
      remembered folder is the old one or the last folder it wrote. */
  lemma HandleLineEffectTame(line: string, last: string)
    ensures Tame(HandleLineEffect(line, last), last)
  {
    EffectOfTame(Capture(DestinationLine, line, 0), Capture(MergerLine, line, 0), ParseProgress(line), last);
  }

  /** A line that is neither a destination, a merger nor a progress line changes
      nothing. */
  lemma QuietLine(line: string, last: string)
    requires Capture(DestinationLine, line, 0).None? && Capture(MergerLine, line, 0).None?
    requires ParseProgress(line).None?
    ensures HandleLineEffect(line, last) == LineEffect([], last)
  {
    NoEffect(last);
  }

  /** No destination, no merger and no progress: no update. */
  lemma NoEffect(last: string)
    ensures EffectOf(None, None, None, last) == LineEffect([], last)
  {
    assert EffectOf(None, None, None, last).updates == [] + [] + [];
  }

  /** A file written directly into the download root does not move the output
      folder; one written into a sub-folder of it does. */
  lemma FolderOfDestination(path: string, name: string)
    requires name != "" && '/' !in name
    ensures Dirname(DumpDir + "/" + name) == DumpDir
    ensures path != "" && path[|path| - 1] != '/' && path != DumpDir ==>
      Dirname(path + "/" + name) != DumpDir
  {
    DirnameOfChild(DumpDir, name);
    if path != "" && path[|path| - 1] != '/' {
      DirnameOfChild(path, name);
    }
  }
}
