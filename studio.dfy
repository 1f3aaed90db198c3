/** `GET /api/services/studio`: one SSH session prints a series of
    `===NAME===` headers, each followed by a command's output; the route
    splits that text into named sections and reads a few metrics out of them. */
module Studio {
  import opened Wrappers
  import opened Strings

  // ---- the section splitter ----

  predicate AllWord(s: string) {
    forall i :: 0 <= i < |s| ==> IsWordChar(s[i])
  }

  /** `line.match(/^===(\w+)===$/)`: the section name a header line opens.
      `\w` never matches `=`, so the name is exactly what lies between the
      two runs of three equals signs. */
  function HeaderName(line: string): (r: Option<string>)
    ensures r.Some? ==> r.value != [] && AllWord(r.value)
  {
    if |line| > 6 && line[..3] == "===" && line[|line| - 3..] == "===" && AllWord(line[3..|line| - 3])
    then Some(line[3..|line| - 3])
    else None
  }

  /** A line is a header for `w` exactly when it is `w` between `===` marks
      and `w` is a non-empty run of word characters. */
  lemma HeaderNameIff(line: string, w: string)
    ensures HeaderName(line) == Some(w) <==> (line == "===" + w + "===" && w != [] && AllWord(w))
  {
    if line == "===" + w + "===" && w != [] && AllWord(w) {
      assert line[..3] == "===" && line[|line| - 3..] == "===";
      assert line[3..|line| - 3] == w;
    }
  }

  /** The loop's variables: the sections found so far and `currentKey`,
      which is "" until the first header. */
  datatype Splitter = Splitter(sections: map<string, string>, current: string)

  const Start := Splitter(map[], "")

  /** The current section, once there is one, has an entry. */
  predicate Coherent(st: Splitter) {
    st.current == "" || st.current in st.sections
  }

  /** Appending a line to a section: a '\n' separates it from earlier
      content, and nothing separates it from empty content. */
  function Append(acc: string, line: string): (r: string)
    ensures acc == "" ==> r == line
    ensures acc != "" ==> r == acc + "\n" + line
  {
    if acc != "" then acc + "\n" + line else line
  }

  /** One pass of the loop body. */
  function Step(st: Splitter, line: string): (r: Splitter)
    requires Coherent(st)
    ensures Coherent(r)
  {
    match HeaderName(line)
    case Some(w) => Splitter(st.sections[w := ""], w)
    case None =>
      if st.current == "" then st
      else Splitter(st.sections[st.current := Append(st.sections[st.current], line)], st.current)
  }

  /** The loop over `lines`, from state `st`. */
  function Run(st: Splitter, lines: seq<string>): (r: Splitter)
    requires Coherent(st)
    ensures Coherent(r)
    decreases |lines|
  {
    if lines == [] then st else Run(Step(st, lines[0]), lines[1..])
  }

  /** The sections of the session's output. */
  function Sections(raw: string): map<string, string> {
    Run(Start, Split(raw, '\n')).sections
  }

  /** The splitting loop of the handler. */
  method SplitSections(raw: string) returns (sections: map<string, string>)
    ensures sections == Sections(raw)
  {
    var lines := Split(raw, '\n');
    sections := map[];
    var currentKey := "";
    var i := 0;
    while i < |lines|
      invariant 0 <= i <= |lines|
      invariant Coherent(Splitter(sections, currentKey))
      invariant Run(Splitter(sections, currentKey), lines[i..]) == Run(Start, lines)
    {
      assert lines[i..][1..] == lines[i + 1..];
      var line := lines[i];
      var header := HeaderName(line);
      if header.Some? {
        currentKey := header.value;
        sections := sections[currentKey := ""];
      } else if currentKey != "" {
        sections := sections[currentKey := Append(sections[currentKey], line)];
      }
      i := i + 1;
    }
  }

  predicate NoHeader(lines: seq<string>) {
    forall j :: 0 <= j < |lines| ==> HeaderName(lines[j]).None?
  }

  predicate NoHeaderFor(lines: seq<string>, w: string) {
    forall j :: 0 <= j < |lines| ==> HeaderName(lines[j]) != Some(w)
  }

  lemma {:induction false} RunAppend(st: Splitter, a: seq<string>, b: seq<string>)
    requires Coherent(st)
    ensures Run(st, a + b) == Run(Run(st, a), b)
    decreases |a|
  {
    if a != [] {
      assert (a + b)[0] == a[0] && (a + b)[1..] == a[1..] + b;
      RunAppend(Step(st, a[0]), a[1..], b);
    } else {
      assert a + b == b;
    }
  }

  /** Lines before the first header are discarded. */
  lemma {:induction false} PreambleDropped(pre: seq<string>, rest: seq<string>)
    requires NoHeader(pre)
    ensures Run(Start, pre + rest) == Run(Start, rest)
    decreases |pre|
  {
    if pre != [] {
      assert HeaderName(pre[0]).None?;
      assert (pre + rest)[0] == pre[0] && (pre + rest)[1..] == pre[1..] + rest;
      assert NoHeader(pre[1..]) by {
        forall j | 0 <= j < |pre[1..]| ensures HeaderName(pre[1..][j]).None? {
          assert pre[1..][j] == pre[j + 1];
        }
      }
      PreambleDropped(pre[1..], rest);
    } else {
      assert pre + rest == rest;
    }
  }

  /** The section names are exactly the names some header line carries. */
  lemma {:induction false} SectionKeys(st: Splitter, lines: seq<string>, w: string)
    requires Coherent(st)
    ensures (w in Run(st, lines).sections) <==>
      (w in st.sections || exists j :: 0 <= j < |lines| && HeaderName(lines[j]) == Some(w))
    decreases |lines|
  {
    if lines != [] {
      SectionKeys(Step(st, lines[0]), lines[1..], w);
      if exists j :: 0 <= j < |lines[1..]| && HeaderName(lines[1..][j]) == Some(w) {
        var j :| 0 <= j < |lines[1..]| && HeaderName(lines[1..][j]) == Some(w);
        assert HeaderName(lines[j + 1]) == Some(w);
      }
      if exists j :: 0 <= j < |lines| && HeaderName(lines[j]) == Some(w) {
        var j :| 0 <= j < |lines| && HeaderName(lines[j]) == Some(w);
        if j > 0 {
          assert HeaderName(lines[1..][j - 1]) == Some(w);
        }
      }
    }
  }

  /** The lines of a section after its leading empty lines. */
  function DropBlank(body: seq<string>): (r: seq<string>)
    ensures r == [] || r[0] != ""
    ensures |r| <= |body| && r == body[|body| - |r|..]
  {
    if body != [] && body[0] == "" then DropBlank(body[1..]) else body
  }

  /** What a section holds once its body lines are appended: the lines
      joined by '\n', leading empty lines left out. */
  function Content(body: seq<string>): string {
    Join(DropBlank(body), "\n")
  }

  /** The appends of a section body, one line at a time. */
  function Accum(acc: string, body: seq<string>): string
    decreases |body|
  {
    if body == [] then acc else Accum(Append(acc, body[0]), body[1..])
  }

  lemma {:induction false} AccumJoin(acc: string, body: seq<string>)
    requires acc != ""
    ensures Accum(acc, body) == Join([acc] + body, "\n")
    decreases |body|
  {
    if body != [] {
      var acc' := acc + "\n" + body[0];
      AccumJoin(acc', body[1..]);
      JoinAppend([acc], body, "\n");
      if |body| > 1 {
        JoinAppend([acc'], body[1..], "\n");
        JoinAppend([body[0]], body[1..], "\n");
        assert body == [body[0]] + body[1..];
      }
    }
  }

  /** Appending a body to an empty section gives its content. */
  lemma {:induction false} AccumContent(body: seq<string>)
    ensures Accum("", body) == Content(body)
  {
    if body != [] {
      if body[0] == "" {
        AccumContent(body[1..]);
      } else {
        AccumJoin(body[0], body[1..]);
        assert [body[0]] + body[1..] == body;
      }
    }
  }

  lemma {:induction false} BodyRun(m: map<string, string>, w: string, acc: string, body: seq<string>)
    requires w != "" && NoHeader(body)
    ensures Run(Splitter(m[w := acc], w), body) == Splitter(m[w := Accum(acc, body)], w)
    decreases |body|
  {
    if body != [] {
      assert HeaderName(body[0]).None?;
      var acc' := Append(acc, body[0]);
      assert m[w := acc][w := acc'] == m[w := acc'];
      assert NoHeader(body[1..]) by {
        forall j | 0 <= j < |body[1..]| ensures HeaderName(body[1..][j]).None? {
          assert body[1..][j] == body[j + 1];
        }
      }
      BodyRun(m, w, acc', body[1..]);
    }
  }

  /** A header followed by header-free lines sets that section to their
      content and makes it the current one. */
  lemma OpenSection(st: Splitter, h: string, w: string, body: seq<string>)
    requires Coherent(st) && HeaderName(h) == Some(w) && NoHeader(body)
    ensures Run(st, [h] + body) == Splitter(st.sections[w := Content(body)], w)
  {
    assert ([h] + body)[0] == h && ([h] + body)[1..] == body;
    BodyRun(st.sections, w, "", body);
    AccumContent(body);
  }

  /** While another section is current and no header names `w`, section `w`
      keeps its content. */
  lemma {:induction false} Untouched(st: Splitter, lines: seq<string>, w: string)
    requires Coherent(st) && w != "" && st.current != w && w in st.sections && NoHeaderFor(lines, w)
    ensures var r := Run(st, lines); r.current != w && w in r.sections && r.sections[w] == st.sections[w]
    decreases |lines|
  {
    if lines != [] {
      assert HeaderName(lines[0]) != Some(w);
      assert NoHeaderFor(lines[1..], w) by {
        forall j | 0 <= j < |lines[1..]| ensures HeaderName(lines[1..][j]) != Some(w) {
          assert lines[1..][j] == lines[j + 1];
        }
      }
      Untouched(Step(st, lines[0]), lines[1..], w);
    }
  }

  /** Once a later header makes another section current, section `w` keeps
      what it holds as long as no header names it again. */
  lemma Closed(mid: Splitter, rest: seq<string>, w: string)
    requires Coherent(mid) && mid.current == w && w != "" && w in mid.sections
    requires rest != [] && HeaderName(rest[0]).Some? && NoHeaderFor(rest, w)
    ensures w in Run(mid, rest).sections && Run(mid, rest).sections[w] == mid.sections[w]
  {
    var next := Step(mid, rest[0]);
    assert next.current != w && w in next.sections && next.sections[w] == mid.sections[w];
    assert NoHeaderFor(rest[1..], w) by {
      forall i | 0 <= i < |rest[1..]| ensures HeaderName(rest[1..][i]) != Some(w) {
        assert rest[1..][i] == rest[i + 1];
      }
    }
    Untouched(next, rest[1..], w);
  }

  /** The run up to the end of a section's last body. */
  lemma UpToSection(lines: seq<string>, j: nat, k: nat, w: string)
    requires j < k <= |lines| && HeaderName(lines[j]) == Some(w)
    requires NoHeader(lines[j + 1..k])
    ensures var mid := Run(Start, lines[..k]);
      mid.current == w && w in mid.sections && mid.sections[w] == Content(lines[j + 1..k])
  {
    var pre := lines[..j];
    var body := lines[j + 1..k];
    assert lines[..k] == pre + ([lines[j]] + body);
    RunAppend(Start, pre, [lines[j]] + body);
    OpenSection(Run(Start, pre), lines[j], w, body);
  }

  lemma Halves<T>(s: seq<T>, k: nat)
    requires k <= |s|
    ensures s == s[..k] + s[k..]
  {
  }

  /** What a section holds: the content of the lines between the last header
      that names it and the next header (or the end). */
  lemma SectionContent(lines: seq<string>, j: nat, k: nat, w: string)
    requires j < k <= |lines| && HeaderName(lines[j]) == Some(w)
    requires NoHeader(lines[j + 1..k])
    requires k == |lines| || HeaderName(lines[k]).Some?
    requires NoHeaderFor(lines[k..], w)
    ensures w in Run(Start, lines).sections && Run(Start, lines).sections[w] == Content(lines[j + 1..k])
  {
    UpToSection(lines, j, k, w);
    Halves(lines, k);
    RunAppend(Start, lines[..k], lines[k..]);
    if k < |lines| {
      Closed(Run(Start, lines[..k]), lines[k..], w);
    } else {
      assert lines[k..] == [];
    }
  }

  // ---- metrics ----

  /** `sections.KEY || ''`: a missing section reads as empty. */
  function Section(sections: map<string, string>, key: string): (s: string)
    ensures key !in sections ==> s == ""
    ensures key in sections ==> s == sections[key]
  {
    if key in sections then sections[key] else ""
  }

  /** Where `label` followed by the digits of `label(\d+)` (or, when `spaced`,
      of `label\s+(\d+)`) matches at `i`. White space and digits are disjoint,
      so the match is the tag, its whole white-space run and then a digit. */
  predicate LabelAt(text: string, tag: string, spaced: bool, i: nat) {
    i + |tag| <= |text| && text[i..i + |tag|] == tag &&
    var gap := if spaced then SpaceRun(text[i + |tag|..]) else 0;
    (spaced ==> gap > 0) && i + |tag| + gap < |text| && IsDigit(text[i + |tag| + gap])
  }

  /** The leftmost match at or after `from`. */
  function FirstLabel(text: string, tag: string, spaced: bool, from: nat): (r: Option<nat>)
    ensures r.Some? ==> from <= r.value && LabelAt(text, tag, spaced, r.value)
    ensures r.Some? ==> forall j :: from <= j < r.value ==> !LabelAt(text, tag, spaced, j)
    ensures r.None? ==> forall j :: from <= j ==> !LabelAt(text, tag, spaced, j)
    decreases |text| - from
  {
    if from + |tag| >= |text| then None
    else if LabelAt(text, tag, spaced, from) then Some(from)
    else FirstLabel(text, tag, spaced, from + 1)
  }

  /** `parseInt(text.match(...)?.[1] || '0')`: the captured digit run (the
      whole run, as `\d+` is greedy), or 0 without a match. */
  function LabelNumber(text: string, tag: string, spaced: bool): (n: nat)
    ensures FirstLabel(text, tag, spaced, 0).None? ==> n == 0
  {
    match FirstLabel(text, tag, spaced, 0)
    case None => 0
    case Some(i) => NumberAfter(text, i + |tag|, spaced)
  }

  /** The digit run after position `k`, past the white space there when `spaced`. */
  function NumberAfter(text: string, k: nat, spaced: bool): nat
    requires k <= |text|
  {
    var gap := if spaced then SpaceRun(text[k..]) else 0;
    DecimalValue(DigitPrefix(text[k + gap..]))
  }

  /** A label, white space and a printed count at the start of the text read
      back as that count. */
  lemma LabelNumberReads(tag: string, ws: string, n: nat, rest: string)
    requires |ws| > 0 && forall i :: 0 <= i < |ws| ==> IsSpace(ws[i])
    requires rest == [] || !IsDigit(rest[0])
    ensures LabelNumber(tag + ws + NatToString(n) + rest, tag, true) == n
  {
    LabelDigits(tag, ws, NatToString(n), rest);
    NatToStringValue(n);
  }

  lemma LabelDigits(tag: string, ws: string, d: string, rest: string)
    requires |ws| > 0 && forall i :: 0 <= i < |ws| ==> IsSpace(ws[i])
    requires d != [] && AllDigits(d) && (rest == [] || !IsDigit(rest[0]))
    ensures LabelNumber(tag + ws + d + rest, tag, true) == DecimalValue(d)
  {
    var text := tag + ws + d + rest;
    LabelMatch(tag, ws, d, rest);
    DigitRunOf(d, rest);
    ReadBack(text, tag, |ws|, d + rest, d);
  }

  /** A label at the very start, `gap` white-space characters and then a text
      whose digit run is `d`: the number read is the value of `d`. */
  lemma ReadBack(text: string, tag: string, gap: nat, after: string, d: string)
    requires LabelAt(text, tag, true, 0) && SpaceRun(text[|tag|..]) == gap
    requires |tag| + gap <= |text| && text[|tag| + gap..] == after && DigitPrefix(after) == d
    ensures LabelNumber(text, tag, true) == DecimalValue(d)
  {
    LabelFirst(text, tag, true);
    NumberAfterGap(text, |tag|, gap);
  }

  /** A label at the very start is the one read. */
  lemma LabelFirst(text: string, tag: string, spaced: bool)
    requires LabelAt(text, tag, spaced, 0)
    ensures LabelNumber(text, tag, spaced) == NumberAfter(text, |tag|, spaced)
  {
    assert FirstLabel(text, tag, spaced, 0) == Some(0);
  }

  /** The number after a white-space run of known length. */
  lemma NumberAfterGap(text: string, k: nat, gap: nat)
    requires k <= |text| && SpaceRun(text[k..]) == gap
    ensures NumberAfter(text, k, true) == DecimalValue(DigitPrefix(text[k + gap..]))
  {
    var run := DigitPrefix(text[k + gap..]);
    assert NumberAfter(text, k, true) == DecimalValue(run);
  }

  lemma LabelMatch(tag: string, ws: string, d: string, rest: string)
    requires |ws| > 0 && forall i :: 0 <= i < |ws| ==> IsSpace(ws[i])
    requires d != [] && AllDigits(d)
    ensures var text := tag + ws + d + rest;
      LabelAt(text, tag, true, 0) && SpaceRun(text[|tag|..]) == |ws| && text[|tag| + |ws|..] == d + rest
  {
    var text := tag + ws + d + rest;
    assert text[0..|tag|] == tag;
    assert text[|tag|..] == ws + (d + rest);
    assert !IsSpace((d + rest)[0]);
    SpaceRunOf(ws, d + rest);
    assert text[|tag| + |ws|..] == d + rest;
  }

  lemma {:induction false} SpaceRunOf(ws: string, t: string)
    requires forall i :: 0 <= i < |ws| ==> IsSpace(ws[i])
    requires t != [] && !IsSpace(t[0])
    ensures SpaceRun(ws + t) == |ws|
  {
    if ws != [] {
      assert (ws + t)[1..] == ws[1..] + t;
      SpaceRunOf(ws[1..], t);
    } else {
      assert ws + t == t;
    }
  }

  lemma {:induction false} DigitRunOf(d: string, rest: string)
    requires AllDigits(d) && (rest == [] || !IsDigit(rest[0]))
    ensures DigitPrefix(d + rest) == d
  {
    if d != [] {
      assert (d + rest)[1..] == d[1..] + rest;
      DigitRunOf(d[1..], rest);
    } else {
      assert d + rest == rest;
    }
  }

  const PageSize: nat := 16384

  /** The bytes in `n` pages. */
  function PagesBytes(n: nat): nat {
    n * PageSize
  }

  datatype Memory = Memory(used: nat, total: Option<int>, percent: int)

  /** The used memory (active, wired and compressed pages) and its share of
      `hw.memsize`; a size that is 0 or does not parse gives 0 %. */
  function MemoryOf(memRaw: string, memSize: string): (m: Memory)
    ensures m.total == ParseInt(if memSize == "" then "0" else memSize)
    ensures (m.total.None? || m.total.value <= 0) ==> m.percent == 0
    ensures m.total.Some? && m.total.value > 0 ==> m.percent == Percent(m.used, m.total.value)
    ensures m.total.Some? && 0 < m.total.value && m.used <= m.total.value ==> 0 <= m.percent <= 100
  {
    var total := ParseInt(if memSize == "" then "0" else memSize);
    var used := UsedBytes(memRaw);
    var percent := if total.Some? && total.value > 0 then Percent(used, total.value) else 0;
    Memory(used, total, percent)
  }

  /** The bytes in active, wired and compressed pages. */
  function UsedBytes(memRaw: string): nat {
    var active := PagesBytes(LabelNumber(memRaw, "Pages active:", true));
    var wired := PagesBytes(LabelNumber(memRaw, "Pages wired down:", true));
    var compressed := PagesBytes(LabelNumber(memRaw, "Pages occupied by compressor:", true));
    active + wired + compressed
  }

  /** `Math.round((used / total) * 100)`, on exact rationals: a share of at
      most the whole is between 0 and 100. */
  function Percent(used: nat, total: int): (p: int)
    requires total > 0
    ensures p == Round(used as real * 100.0 / total as real)
    ensures used <= total ==> 0 <= p <= 100
  {
    var x := used as real / total as real;
    assert x * 100.0 == used as real * 100.0 / total as real;
    assert used <= total ==> x <= 1.0;
    Round(x * 100.0)
  }

  datatype Gpu = Gpu(device: nat, renderer: nat, tiler: nat)

  function GpuOf(gpuRaw: string): (g: Gpu)
    ensures g.device == LabelNumber(gpuRaw, "\"Device Utilization %\"=", false)
    ensures g.renderer == LabelNumber(gpuRaw, "\"Renderer Utilization %\"=", false)
    ensures g.tiler == LabelNumber(gpuRaw, "\"Tiler Utilization %\"=", false)
  {
    Gpu(LabelNumber(gpuRaw, "\"Device Utilization %\"=", false),
        LabelNumber(gpuRaw, "\"Renderer Utilization %\"=", false),
        LabelNumber(gpuRaw, "\"Tiler Utilization %\"=", false))
  }

  datatype Disk = Disk(total: string, used: string, avail: string, percent: nat)

  /** A token that starts with digits followed by '%'. */
  predicate PercentToken(t: string) {
    var d := DigitPrefix(t);
    d != [] && |d| < |t| && t[|d|] == '%'
  }

  /** Where `\S+\s+(\S+)\s+(\S+)\s+(\S+)\s+(\d+)%` matches, counted in the
      white-space separated tokens of the text: a match starting inside a
      token needs the next three tokens whole and a fourth that starts with a
      percentage, and the leftmost match starts at the first such token. */
  predicate DiskAt(toks: seq<string>, k: nat) {
    k + 4 < |toks| && toks[k] != "" && toks[k + 1] != "" && toks[k + 2] != "" && toks[k + 3] != ""
    && PercentToken(toks[k + 4])
  }

  function FirstDisk(toks: seq<string>, from: nat): (r: Option<nat>)
    ensures r.Some? ==> from <= r.value && DiskAt(toks, r.value)
    ensures r.Some? ==> forall j :: from <= j < r.value ==> !DiskAt(toks, j)
    ensures r.None? ==> forall j :: from <= j ==> !DiskAt(toks, j)
    decreases |toks| - from
  {
    if from + 4 >= |toks| then None
    else if DiskAt(toks, from) then Some(from)
    else FirstDisk(toks, from + 1)
  }

  /** The `df` line's size, used, available and percentage fields; `null`
      when the pattern does not match. */
  function DiskOf(diskRaw: string): (d: Option<Disk>)
    ensures d.None? ==> forall k: nat :: !DiskAt(SplitWs(diskRaw), k)
    ensures d.Some? ==> exists k: nat :: (DiskAt(SplitWs(diskRaw), k) &&
      d.value == Disk(SplitWs(diskRaw)[k + 1], SplitWs(diskRaw)[k + 2], SplitWs(diskRaw)[k + 3],
                      DecimalValue(DigitPrefix(SplitWs(diskRaw)[k + 4]))))
  {
    var toks := SplitWs(diskRaw);
    var first := FirstDisk(toks, 0);
    if first.None? then None
    else
      var k := first.value;
      assert DiskAt(toks, k);
      Some(Disk(toks[k + 1], toks[k + 2], toks[k + 3], DecimalValue(DigitPrefix(toks[k + 4]))))
  }

  /** The fields of a `df` line read back as printed. */
  lemma DiskReads(fs: string, size: string, used: string, avail: string, p: nat, rest: seq<string>)
    requires fs != "" && size != "" && used != "" && avail != ""
    ensures var toks := [fs, size, used, avail, NatToString(p) + "%"] + rest;
      FirstDisk(toks, 0) == Some(0) &&
      DiskAt(toks, 0) && DecimalValue(DigitPrefix(toks[4])) == p
  {
    var d := NatToString(p);
    DigitRunOf(d, "%");
    NatToStringValue(p);
    var toks := [fs, size, used, avail, d + "%"] + rest;
    assert toks[4] == d + "%";
    assert (d + "%")[|d|] == '%';
  }

  datatype Reply =
    | Unreachable(error: string)
    | Report(mem: Memory, gpu: Gpu, disk: Option<Disk>, cores: Option<int>, chip: string)

  /** The report read out of the sections. */
  function ReportOf(sections: map<string, string>): (r: Reply)
    ensures r.Report?
    ensures r.disk == DiskOf(Section(sections, "DISK"))
    ensures r.mem == MemoryOf(Section(sections, "MEM"), Section(sections, "MEMSIZE"))
    ensures r.gpu == GpuOf(Section(sections, "GPU"))
    ensures Section(sections, "CPUBRAND") == "" ==> r.chip == "Unknown"
    ensures Section(sections, "CPUBRAND") != "" ==> r.chip == sections["CPUBRAND"]
  {
    var ncpu := Section(sections, "NCPU");
    var brand := Section(sections, "CPUBRAND");
    Report(MemoryOf(Section(sections, "MEM"), Section(sections, "MEMSIZE")),
           GpuOf(Section(sections, "GPU")),
           DiskOf(Section(sections, "DISK")),
           ParseInt(if ncpu == "" then "0" else ncpu),
           if brand == "" then "Unknown" else brand)
  }

  /** The handler, given the trimmed output of the SSH session (empty when
      the session failed): empty output is reported as unreachable and
      nothing is parsed. */
  method Get(raw: string) returns (reply: Reply)
    ensures raw == "" <==> reply == Unreachable("Studio unreachable")
    ensures raw != "" ==> reply == ReportOf(Sections(raw))
  {
    if raw == "" {
      return Unreachable("Studio unreachable");
    }
    var sections := SplitSections(raw);
    reply := ReportOf(sections);
  }
}
