/** The caption cleaner of lib/srt-cleaner.ts: SubRip caption blocks are parsed into
    timestamped entries, rolling captions (each cue repeating and extending the one
    before) are collapsed in one left-to-right pass, and the result is rendered as
    `[HH:MM:SS] text` lines. */
module SrtCleaner {
  import opened Wrappers
  import opened Strings
  import opened Regex

  datatype SubEntry = SubEntry(timestamp: string, text: string)

  // ---- Parsing ----

  /** `/\n\s*\n/`: the blank line between two blocks. */
  const BlockSeparator: Pattern := [One(Lit('\n')), Star(Space), One(Lit('\n'))]

  /** `/(\d{2}):(\d{2}):(\d{2})/`: hours, minutes and seconds of a cue time. */
  const ClockPattern: Pattern := [
    Open, One(Digit), One(Digit), Close, One(Lit(':')),
    Open, One(Digit), One(Digit), Close, One(Lit(':')),
    Open, One(Digit), One(Digit), Close]

  /** `/<[^>]+>/g`: a markup tag such as `<i>` or `<font color="x">`. */
  const TagPattern: Pattern := [One(Lit('<')), Plus(Not('>')), One(Lit('>'))]

  /** Two digits, a colon, two digits, a colon and two digits start at `i`. */
  predicate ClockAt(s: string, i: nat) {
    && i + 8 <= |s|
    && IsDigit(s[i]) && IsDigit(s[i + 1]) && s[i + 2] == ':'
    && IsDigit(s[i + 3]) && IsDigit(s[i + 4]) && s[i + 5] == ':'
    && IsDigit(s[i + 6]) && IsDigit(s[i + 7])
  }

  /** A whole `HH:MM:SS` string. */
  predicate IsClock(t: string) {
    |t| == 8 && ClockAt(t, 0)
  }

  /** A capture group of two digits, `(\d{2})`, starting at node `j`. */
  lemma PairGroupAt(p: Pattern, j: nat, s: string, i: nat, marks: seq<nat>)
    requires j + 4 <= |p| && i <= |s|
    requires p[j] == Open && p[j + 1] == One(Digit) && p[j + 2] == One(Digit) && p[j + 3] == Close
    ensures Match(p[j..], s, i, marks) ==
      if i + 2 <= |s| && IsDigit(s[i]) && IsDigit(s[i + 1])
      then Match(p[j + 4..], s, i + 2, marks + [i, i + 2]) else None
  {
    MatchMarkAt(p, j, s, i, marks);
    MatchOneAt(p, j + 1, s, i, marks + [i]);
    if i < |s| && IsDigit(s[i]) {
      MatchOneAt(p, j + 2, s, i + 1, marks + [i]);
      if i + 1 < |s| && IsDigit(s[i + 1]) {
        MatchMarkAt(p, j + 3, s, i + 2, marks + [i]);
        assert marks + [i] + [i + 2] == marks + [i, i + 2];
      }
    }
  }

  /** `:(\d{2})` followed by the rest of the pattern from node `j + 5`. */
  lemma ColonPairAt(p: Pattern, j: nat, s: string, i: nat, marks: seq<nat>)
    requires j + 5 <= |p| && i <= |s|
    requires p[j] == One(Lit(':')) && p[j + 1] == Open && p[j + 2] == One(Digit)
    requires p[j + 3] == One(Digit) && p[j + 4] == Close
    ensures Match(p[j..], s, i, marks) ==
      if i + 3 <= |s| && s[i] == ':' && IsDigit(s[i + 1]) && IsDigit(s[i + 2])
      then Match(p[j + 5..], s, i + 3, marks + [i + 1, i + 3]) else None
  {
    MatchOneAt(p, j, s, i, marks);
    if i < |s| && s[i] == ':' {
      PairGroupAt(p, j + 1, s, i + 1, marks);
    }
  }

  /** The shape of `(\d{2}):(\d{2}):(\d{2})` as a node sequence. */
  predicate IsClockPattern(p: Pattern) {
    && |p| == 14
    && p[0] == Open && p[1] == One(Digit) && p[2] == One(Digit) && p[3] == Close
    && p[4] == One(Lit(':')) && p[5] == Open && p[6] == One(Digit) && p[7] == One(Digit) && p[8] == Close
    && p[9] == One(Lit(':')) && p[10] == Open && p[11] == One(Digit) && p[12] == One(Digit) && p[13] == Close
  }

  lemma ClockPatternShape()
    ensures IsClockPattern(ClockPattern)
  {
  }

  lemma ClockMatchFound(p: Pattern, s: string, i: nat)
    requires IsClockPattern(p) && ClockAt(s, i)
    ensures Match(p[0..], s, i, []) == Some((i + 8, [i, i + 2, i + 3, i + 5, i + 6, i + 8]))
  {
    var m0: seq<nat> := [];
    var m1 := m0 + [i, i + 2];
    var m2 := m1 + [i + 3, i + 5];
    var m3 := m2 + [i + 6, i + 8];
    PairGroupAt(p, 0, s, i, m0);
    ColonPairAt(p, 4, s, i + 2, m1);
    ColonPairAt(p, 9, s, i + 5, m2);
    assert p[14..] == [];
    assert m3 == [i, i + 2, i + 3, i + 5, i + 6, i + 8];
  }

  lemma ClockMatchMissing(p: Pattern, s: string, i: nat)
    requires IsClockPattern(p) && i <= |s| && !ClockAt(s, i)
    ensures Match(p[0..], s, i, []).None?
  {
    var m0: seq<nat> := [];
    var m1 := m0 + [i, i + 2];
    var m2 := m1 + [i + 3, i + 5];
    PairGroupAt(p, 0, s, i, m0);
    if i + 2 <= |s| {
      ColonPairAt(p, 4, s, i + 2, m1);
      if i + 5 <= |s| {
        ColonPairAt(p, 9, s, i + 5, m2);
      }
    }
  }

  /** The clock pattern matches at `i` exactly when a clock starts there, and its
      three groups are the two-digit fields. */
  lemma ClockMatch(s: string, i: nat)
    requires i <= |s|
    ensures Match(ClockPattern, s, i, []) ==
      if ClockAt(s, i) then Some((i + 8, [i, i + 2, i + 3, i + 5, i + 6, i + 8])) else None
  {
    ClockPatternShape();
    assert ClockPattern[0..] == ClockPattern;
    if ClockAt(s, i) {
      ClockMatchFound(ClockPattern, s, i);
    } else {
      ClockMatchMissing(ClockPattern, s, i);
    }
  }

  /** The first position at or after `from` where a clock starts. */
  function FirstClock(s: string, from: nat): (r: Option<nat>)
    requires from <= |s|
    ensures r.Some? ==> from <= r.value && ClockAt(s, r.value)
    ensures r.Some? ==> forall j :: from <= j < r.value ==> !ClockAt(s, j)
    ensures r.None? ==> forall j :: from <= j <= |s| ==> !ClockAt(s, j)
    decreases |s| - from
  {
    if from == |s| then None
    else if ClockAt(s, from) then Some(from)
    else FirstClock(s, from + 1)
  }

  /** A match found at `i` means Search cannot come back empty. */
  lemma {:induction false} SearchMisses(p: Pattern, s: string, from: nat, i: nat)
    requires from <= i <= |s| && Match(p, s, i, []).Some?
    ensures Search(p, s, from).Some?
    decreases i - from
  {
    if Match(p, s, from, []).None? {
      SearchMisses(p, s, from + 1, i);
    }
  }

  /** `line.match(ClockPattern)` finds the first clock on the line, and its three
      groups are the two-digit fields of that clock. */
  lemma ClockSearch(line: string)
    ensures var m := Exec(ClockPattern, line);
      match FirstClock(line, 0)
      case None => m.None?
      case Some(k) =>
        (m.Some? && m.value.start == k
         && m.value.groups == [line[k..k + 2], line[k + 3..k + 5], line[k + 6..k + 8]])
  {
    var m := Exec(ClockPattern, line);
    match FirstClock(line, 0)
    case None =>
      if m.Some? {
        ClockMatch(line, m.value.start);
      }
    case Some(k) =>
      ClockMatch(line, k);
      SearchMisses(ClockPattern, line, 0, k);
      var i := m.value.start;
      ClockMatch(line, i);
      assert i == k;
      GroupsOfThree(line, k, k + 2, k + 3, k + 5, k + 6, k + 8);
  }

  /** The start time of a timing line: the first `HH:MM:SS` on it, if any. The
      source reads it with `line.match(ClockPattern)` and the template
      `${m[1]}:${m[2]}:${m[3]}`; ClockSearch shows the two agree. */
  function Timestamp(line: string): Option<string> {
    match FirstClock(line, 0)
    case Some(k) => Some(line[k..k + 8])
    case None => None
  }

  /** The caption text of a block: its lines from the third on, joined by spaces,
      with every tag removed and the ends trimmed. */
  function CueText(textLines: seq<string>): string {
    Trim(ReplaceAll(TagPattern, Join(textLines, " "), 0))
  }

  /** One block: fewer than three lines, or no clock on the second line, gives no
      entry; so does a caption that is empty once cleaned. */
  function ParseBlock(block: string): Option<SubEntry> {
    var lines := Split(Trim(block), '\n');
    if |lines| < 3 then None
    else match Timestamp(lines[1])
      case None => None
      case Some(timestamp) =>
        var text := CueText(lines[2..]);
        if text == "" then None else Some(SubEntry(timestamp, text))
  }

  /** The blocks of a caption file: the trimmed content cut at blank lines. */
  function Blocks(content: string): seq<string> {
    SplitBy(BlockSeparator, Trim(content))
  }

  /** The entries of the blocks, in order. */
  function ParsedEntries(blocks: seq<string>): seq<SubEntry> {
    if blocks == [] then []
    else
      ParsedEntries(blocks[..|blocks| - 1])
      + (match ParseBlock(blocks[|blocks| - 1]) case Some(e) => [e] case None => [])
  }

  lemma ClockFields(s: string, k: nat)
    requires ClockAt(s, k)
    ensures s[k..k + 2] + ":" + s[k + 3..k + 5] + ":" + s[k + 6..k + 8] == s[k..k + 8]
  {
    assert s[k..k + 8] == s[k..k + 2] + s[k + 2..k + 3] + s[k + 3..k + 5] + s[k + 5..k + 6] + s[k + 6..k + 8];
  }

  /** The clock match on a timing line, `timeLine.match(ClockPattern)`, and the
      `${m[1]}:${m[2]}:${m[3]}` template applied to its groups. */
  method MatchTimestamp(timeLine: string) returns (timestamp: Option<string>)
    ensures timestamp == Timestamp(timeLine)
  {
    var m := Exec(ClockPattern, timeLine);
    if m.None? {
      ClockSearch(timeLine);
      return None;
    }
    ClockSearch(timeLine);
    var k := m.value.start;
    timestamp := Some(m.value.groups[0] + ":" + m.value.groups[1] + ":" + m.value.groups[2]);
    ClockFields(timeLine, k);
  }

  /** `parseSrt`. */
  method ParseSrt(content: string) returns (entries: seq<SubEntry>)
    ensures entries == ParsedEntries(Blocks(content))
  {
    entries := [];
    var blocks := Blocks(content);
    for i := 0 to |blocks|
      invariant entries == ParsedEntries(blocks[..i])
    {
      assert blocks[..i + 1][..i] == blocks[..i];
      var lines := Split(Trim(blocks[i]), '\n');
      if |lines| < 3 {
        continue;
      }
      var timestamp := MatchTimestamp(lines[1]);
      if timestamp.None? {
        continue;
      }
      var text := Trim(ReplaceAll(TagPattern, Join(lines[2..], " "), 0));
      if text != "" {
        entries := entries + [SubEntry(timestamp.value, text)];
      }
    }
    assert blocks[..|blocks|] == blocks;
  }

  /** What every parsed entry satisfies: an `HH:MM:SS` timestamp and a non-empty,
      trimmed caption on a single line. */
  predicate WellFormed(e: SubEntry) {
    IsClock(e.timestamp) && e.text != "" && IsTrimmed(e.text) && '\n' !in e.text
  }

  lemma CueTextShape(textLines: seq<string>)
    ensures IsTrimmed(CueText(textLines))
    ensures (forall k :: 0 <= k < |textLines| ==> '\n' !in textLines[k]) ==> '\n' !in CueText(textLines)
  {
    if forall k :: 0 <= k < |textLines| ==> '\n' !in textLines[k] {
      var joined := Join(textLines, " ");
      JoinKeepsOut(textLines, " ", '\n');
      ReplaceAllKeepsOut(TagPattern, joined, 0, '\n');
    }
    TrimFacts(ReplaceAll(TagPattern, Join(textLines, " "), 0));
  }

  lemma ParseBlockWellFormed(block: string)
    ensures ParseBlock(block).Some? ==> WellFormed(ParseBlock(block).value)
  {
    var lines := Split(Trim(block), '\n');
    if |lines| >= 3 {
      CueTextShape(lines[2..]);
    }
  }

  /** Joining pieces that lack a character with a separator that lacks it gives a
      text that lacks it. */
  lemma {:induction false} JoinKeepsOut(parts: seq<string>, sep: string, c: char)
    requires c !in sep && forall k :: 0 <= k < |parts| ==> c !in parts[k]
    ensures c !in Join(parts, sep)
  {
    if |parts| > 1 {
      JoinKeepsOut(parts[1..], sep, c);
    }
  }

  /** Every entry parsed from any content is well formed. */
  lemma {:induction false} ParsedEntriesWellFormed(blocks: seq<string>)
    ensures forall e :: e in ParsedEntries(blocks) ==> WellFormed(e)
  {
    if blocks != [] {
      ParsedEntriesWellFormed(blocks[..|blocks| - 1]);
      ParseBlockWellFormed(blocks[|blocks| - 1]);
    }
  }

  /** A SubRip block: a numeric index line, a timing line that begins with the start
      time, and one caption line. */
  function RenderBlock(index: string, start: string, timingRest: string, caption: string): string {
    index + "\n" + start + timingRest + "\n" + caption
  }

  /** Parsing a well-formed block gives back its start time and caption. */
  lemma ParseRenderedBlock(index: string, start: string, timingRest: string, caption: string)
    requires |index| >= 1 && AllDigits(index)
    requires IsClock(start) && '\n' !in timingRest
    requires caption != "" && IsTrimmed(caption) && '\n' !in caption && '<' !in caption
    ensures ParseBlock(RenderBlock(index, start, timingRest, caption)) == Some(SubEntry(start, caption))
  {
    var timing := start + timingRest;
    var block := RenderBlock(index, start, timingRest, caption);
    assert block[0] == index[0];
    assert block[|block| - 1] == caption[|caption| - 1];
    assert !IsSpace(index[0]);
    TrimTrimmed(block);
    assert '\n' !in index;
    assert '\n' !in start;
    assert '\n' !in timing;
    var lines := [index, timing, caption];
    assert lines[1..] == [timing, caption];
    assert [timing, caption][1..] == [caption];
    assert Join([timing, caption], "\n") == timing + "\n" + caption;
    assert Join(lines, "\n") == index + "\n" + (timing + "\n" + caption);
    assert Join(lines, "\n") == block;
    JoinSplit(lines, '\n');
    assert Split(Trim(block), '\n') == lines;
    assert ClockAt(timing, 0);
    assert FirstClock(timing, 0) == Some(0);
    assert timing[0..8] == start;
    assert lines[2..] == [caption];
    assert Join([caption], " ") == caption;
    forall j | 0 <= j <= |caption|
      ensures Match(TagPattern, caption, j, []).None?
    {
      assert TagPattern[0..] == TagPattern;
      MatchOneAt(TagPattern, 0, caption, j, []);
      if j < |caption| {
        assert caption[j] in caption;
      }
    }
    SearchNone(TagPattern, caption, 0);
    ReplaceAllNoMatch(TagPattern, caption);
    TrimTrimmed(caption);
  }

  // ---- Rolling-caption deduplication ----

  /** The comparison key of an entry in `deduplicateRolling`: its text lowercased,
      then trimmed. */
  function Key(e: SubEntry): string {
    Trim(Lower(e.text))
  }

  /** The left-to-right pass of `deduplicateRolling` from entry `i` on, with the
      entries kept so far in `acc` and the last accepted key in `last`. The pass is
      stated for any comparison key; the source's is Key. */
  function DedupFrom(key: SubEntry -> string, entries: seq<SubEntry>, i: nat, acc: seq<SubEntry>, last: string): seq<SubEntry>
    requires i <= |entries|
    requires last != "" ==> acc != []
    decreases |entries| - i
  {
    if i == |entries| then acc
    else
      var e := entries[i];
      var cleaned := key(e);
      if cleaned == last then DedupFrom(key, entries, i + 1, acc, last)
      else if last != "" && last <= cleaned then DedupFrom(key, entries, i + 1, acc[..|acc| - 1] + [e], cleaned)
      else if last != "" && cleaned <= last then DedupFrom(key, entries, i + 1, acc, last)
      else DedupFrom(key, entries, i + 1, acc + [e], cleaned)
  }

  function DedupBy(key: SubEntry -> string, entries: seq<SubEntry>): seq<SubEntry> {
    DedupFrom(key, entries, 0, [], "")
  }

  function Dedup(entries: seq<SubEntry>): seq<SubEntry> {
    DedupBy(Key, entries)
  }

  /** `deduplicateRolling`. */
  method DeduplicateRolling(entries: seq<SubEntry>) returns (result: seq<SubEntry>)
    ensures result == Dedup(entries)
  {
    if |entries| == 0 {
      return [];
    }
    result := [];
    var lastText := "";
    for i := 0 to |entries|
      invariant lastText != "" ==> result != []
      invariant DedupFrom(Key, entries, i, result, lastText) == Dedup(entries)
    {
      var entry := entries[i];
      var cleaned := Trim(Lower(entry.text));
      assert cleaned == Key(entry);
      if cleaned == lastText {
        continue;
      }
      if lastText != "" && lastText <= cleaned {
        result := result[..|result| - 1] + [entry];
        lastText := cleaned;
        continue;
      }
      if lastText != "" && cleaned <= lastText {
        continue;
      }
      result := result + [entry];
      lastText := cleaned;
    }
  }

  /** Neither key is a prefix of the other (so in particular they differ). */
  predicate Incomparable(a: string, b: string) {
    !(a <= b) && !(b <= a)
  }

  /** The shape of a deduplicated list: no empty keys, and each key neither equals,
      extends nor is extended by its predecessor's. */
  predicate Collapsed(key: SubEntry -> string, r: seq<SubEntry>) {
    && (forall j :: 0 <= j < |r| ==> key(r[j]) != "")
    && (forall j :: 0 < j < |r| ==> Incomparable(key(r[j - 1]), key(r[j])))
  }

  /** `last` is the key of the last kept entry, and "" exactly when none is kept. */
  predicate Tracks(key: SubEntry -> string, acc: seq<SubEntry>, last: string) {
    (acc == [] <==> last == "") && (acc != [] ==> last == key(acc[|acc| - 1]))
  }

  /** Two prefixes of the same text are comparable. */
  lemma PrefixesComparable(a: string, b: string, c: string)
    requires a <= c && b <= c
    ensures a <= b || b <= a
  {
    if |a| <= |b| {
      assert a == c[..|a|] == b[..|a|];
    } else {
      assert b == c[..|b|] == a[..|b|];
    }
  }

  /** Overwriting the last kept entry with an extension of it keeps the shape. */
  lemma ReplaceLastCollapsed(key: SubEntry -> string, acc: seq<SubEntry>, last: string, e: SubEntry)
    requires Collapsed(key, acc) && Tracks(key, acc, last)
    requires last != "" && last <= key(e) && last != key(e)
    ensures Collapsed(key, acc[..|acc| - 1] + [e]) && Tracks(key, acc[..|acc| - 1] + [e], key(e))
  {
    var acc' := acc[..|acc| - 1] + [e];
    if |acc| >= 2 {
      var prev := key(acc[|acc| - 2]);
      assert Incomparable(prev, last);
      if prev <= key(e) {
        PrefixesComparable(prev, last, key(e));
      }
      assert Incomparable(prev, key(e));
    }
    assert forall j :: 0 <= j < |acc| - 1 ==> acc'[j] == acc[j];
  }

  /** Appending an entry whose key is incomparable with the last keeps the shape. */
  lemma AppendCollapsed(key: SubEntry -> string, acc: seq<SubEntry>, last: string, e: SubEntry)
    requires Collapsed(key, acc) && Tracks(key, acc, last) && key(e) != ""
    requires last != "" ==> Incomparable(last, key(e))
    ensures Collapsed(key, acc + [e]) && Tracks(key, acc + [e], key(e))
  {
  }

  lemma {:induction false} DedupFromCollapsed(key: SubEntry -> string, entries: seq<SubEntry>, i: nat, acc: seq<SubEntry>, last: string)
    requires i <= |entries| && Collapsed(key, acc) && Tracks(key, acc, last)
    ensures Collapsed(key, DedupFrom(key, entries, i, acc, last))
    decreases |entries| - i
  {
    if i < |entries| {
      var e := entries[i];
      var c := key(e);
      if c == last {
        DedupFromCollapsed(key, entries, i + 1, acc, last);
      } else if last != "" && last <= c {
        ReplaceLastCollapsed(key, acc, last, e);
        DedupFromCollapsed(key, entries, i + 1, acc[..|acc| - 1] + [e], c);
      } else if last != "" && c <= last {
        DedupFromCollapsed(key, entries, i + 1, acc, last);
      } else {
        AppendCollapsed(key, acc, last, e);
        DedupFromCollapsed(key, entries, i + 1, acc + [e], c);
      }
    }
  }

  /** Consecutive output entries are prefix-incomparable and have non-empty keys. */
  lemma DedupCollapsed(key: SubEntry -> string, entries: seq<SubEntry>)
    ensures Collapsed(key, DedupBy(key, entries))
  {
    DedupFromCollapsed(key, entries, 0, [], "");
  }

  lemma {:induction false} DedupFromFixes(key: SubEntry -> string, r: seq<SubEntry>, i: nat)
    requires Collapsed(key, r) && 0 < i <= |r|
    ensures DedupFrom(key, r, i, r[..i], key(r[i - 1])) == r
    decreases |r| - i
  {
    if i < |r| {
      assert Incomparable(key(r[i - 1]), key(r[i]));
      assert r[..i + 1] == r[..i] + [r[i]];
      DedupFromFixes(key, r, i + 1);
    } else {
      assert r[..i] == r;
    }
  }

  /** A list already in collapsed shape is left unchanged. */
  lemma DedupKeepsCollapsed(key: SubEntry -> string, r: seq<SubEntry>)
    requires Collapsed(key, r)
    ensures DedupBy(key, r) == r
  {
    if r != [] {
      assert r[..1] == [] + [r[0]];
      DedupFromFixes(key, r, 1);
    }
  }

  /** Deduplication is idempotent. */
  lemma DedupIdempotent(entries: seq<SubEntry>)
    ensures Dedup(Dedup(entries)) == Dedup(entries)
  {
    DedupCollapsed(Key, entries);
    DedupKeepsCollapsed(Key, Dedup(entries));
  }

  /** `r` is obtained from `s` by deleting entries: `idx` says where each entry of
      `r` sits in `s`, in strictly increasing order. */
  predicate SubsequenceBy(r: seq<SubEntry>, s: seq<SubEntry>, idx: seq<nat>) {
    && |idx| == |r|
    && (forall j :: 0 <= j < |idx| ==> idx[j] < |s| && r[j] == s[idx[j]])
    && (forall j, k :: 0 <= j < k < |idx| ==> idx[j] < idx[k])
  }

  lemma {:induction false} DedupFromSubsequence(key: SubEntry -> string, entries: seq<SubEntry>, i: nat,
                                                acc: seq<SubEntry>, last: string, idx: seq<nat>)
      returns (idx': seq<nat>)
    requires i <= |entries| && (last != "" ==> acc != [])
    requires SubsequenceBy(acc, entries, idx) && forall j :: 0 <= j < |idx| ==> idx[j] < i
    ensures SubsequenceBy(DedupFrom(key, entries, i, acc, last), entries, idx')
    ensures |DedupFrom(key, entries, i, acc, last)| <= |acc| + |entries| - i
    decreases |entries| - i
  {
    if i == |entries| {
      idx' := idx;
    } else {
      var e := entries[i];
      var c := key(e);
      if c == last {
        idx' := DedupFromSubsequence(key, entries, i + 1, acc, last, idx);
      } else if last != "" && last <= c {
        idx' := DedupFromSubsequence(key, entries, i + 1, acc[..|acc| - 1] + [e], c, idx[..|idx| - 1] + [i]);
      } else if last != "" && c <= last {
        idx' := DedupFromSubsequence(key, entries, i + 1, acc, last, idx);
      } else {
        idx' := DedupFromSubsequence(key, entries, i + 1, acc + [e], c, idx + [i]);
      }
    }
  }

  /** The output keeps input entries only, in input order, and is never longer. */
  lemma DedupSubsequence(entries: seq<SubEntry>) returns (idx: seq<nat>)
    ensures SubsequenceBy(Dedup(entries), entries, idx)
    ensures |Dedup(entries)| <= |entries|
  {
    idx := DedupFromSubsequence(Key, entries, 0, [], "", []);
  }

  lemma {:induction false} DedupFromFirst(key: SubEntry -> string, entries: seq<SubEntry>, i: nat,
                                          acc: seq<SubEntry>, last: string, first: string)
    requires i <= |entries| && Tracks(key, acc, last) && acc != [] && first <= key(acc[0])
    ensures var r := DedupFrom(key, entries, i, acc, last); r != [] && first <= key(r[0])
    decreases |entries| - i
  {
    if i < |entries| {
      var e := entries[i];
      var c := key(e);
      if c == last {
        DedupFromFirst(key, entries, i + 1, acc, last, first);
      } else if last != "" && last <= c {
        var acc' := acc[..|acc| - 1] + [e];
        if |acc| == 1 {
          assert first <= last;
        } else {
          assert acc'[0] == acc[0];
        }
        DedupFromFirst(key, entries, i + 1, acc', c, first);
      } else if last != "" && c <= last {
        DedupFromFirst(key, entries, i + 1, acc, last, first);
      } else {
        DedupFromFirst(key, entries, i + 1, acc + [e], c, first);
      }
    }
  }

  /** The first entry is always kept: the output is non-empty and starts with the
      first entry or a later cue that extends it. */
  lemma DedupKeepsFirst(entries: seq<SubEntry>)
    requires entries != [] && Key(entries[0]) != ""
    ensures Dedup(entries) != [] && Key(entries[0]) <= Key(Dedup(entries)[0])
  {
    var k0 := Key(entries[0]);
    assert DedupBy(Key, entries) == DedupFrom(Key, entries, 0, [], "");
    assert [] + [entries[0]] == [entries[0]];
    assert DedupBy(Key, entries) == DedupFrom(Key, entries, 1, [entries[0]], k0);
    DedupFromFirst(Key, entries, 1, [entries[0]], k0, k0);
  }

  lemma LowerPlain(s: string)
    requires forall i :: 0 <= i < |s| ==> !('A' <= s[i] <= 'Z')
    ensures Lower(s) == s
  {
  }

  /** An entry whose text is already lower-case and trimmed is its own key. */
  lemma KeyPlain(e: SubEntry)
    requires IsTrimmed(e.text)
    requires forall i :: 0 <= i < |e.text| ==> !('A' <= e.text[i] <= 'Z')
    ensures Key(e) == e.text
  {
    LowerPlain(e.text);
    TrimTrimmed(e.text);
  }

  /** The worked example: a rolling cue replaces its predecessor and keeps its own,
      later, timestamp. */
  lemma DedupExample()
    ensures Dedup([SubEntry("00:00:01", "hello"), SubEntry("00:00:02", "hello world"),
                   SubEntry("00:00:03", "world"), SubEntry("00:00:05", "goodbye")])
      == [SubEntry("00:00:02", "hello world"), SubEntry("00:00:03", "world"),
          SubEntry("00:00:05", "goodbye")]
  {
    var a, b, c, d := SubEntry("00:00:01", "hello"), SubEntry("00:00:02", "hello world"),
                      SubEntry("00:00:03", "world"), SubEntry("00:00:05", "goodbye");
    KeyPlain(a);
    KeyPlain(b);
    KeyPlain(c);
    KeyPlain(d);
    assert "hello" <= "hello world";
    assert "hello world"[0] != "world"[0] && "world"[0] != "goodbye"[0];
    DedupRolling([a, b, c, d]);
  }

  /** Neither key is a prefix of the other. */
  predicate Unrelated(x: string, y: string) {
    !(x <= y) && !(y <= x)
  }

  /** Four cues: a non-empty first key that the second extends, and then two
      cues unrelated to their predecessors. The second replaces the first, and the
      last two are kept. */
  lemma DedupRolling(xs: seq<SubEntry>)
    requires |xs| == 4 && Key(xs[0]) != "" && Key(xs[0]) != Key(xs[1]) && Key(xs[0]) <= Key(xs[1])
    requires Unrelated(Key(xs[1]), Key(xs[2])) && Unrelated(Key(xs[2]), Key(xs[3]))
    ensures Dedup(xs) == xs[1..]
  {
    DedupKeeps(Key, xs, 0, 1, [], "");
    DedupRolls(Key, xs, 1, 2, [xs[0]], Key(xs[0]));
    assert [xs[0]][..0] + [xs[1]] == [xs[1]];
    DedupKeeps(Key, xs, 2, 3, [xs[1]], Key(xs[1]));
    DedupKeeps(Key, xs, 3, 4, [xs[1]] + [xs[2]], Key(xs[2]));
    assert [xs[1]] + [xs[2]] + [xs[3]] == xs[1..];
  }

  /** A cue whose key is unrelated to the last accepted one is kept. */
  lemma DedupKeeps(key: SubEntry -> string, xs: seq<SubEntry>, i: nat, i1: nat, acc: seq<SubEntry>, last: string)
    requires i < |xs| && i1 == i + 1 && (last != "" ==> acc != [])
    requires key(xs[i]) != last && (last == "" || Unrelated(last, key(xs[i])))
    ensures DedupFrom(key, xs, i, acc, last) == DedupFrom(key, xs, i1, acc + [xs[i]], key(xs[i]))
  {
  }

  /** A cue whose key extends the last accepted one replaces the last kept cue. */
  lemma DedupRolls(key: SubEntry -> string, xs: seq<SubEntry>, i: nat, i1: nat, acc: seq<SubEntry>, last: string)
    requires i < |xs| && i1 == i + 1 && acc != [] && last != ""
    requires key(xs[i]) != last && last <= key(xs[i])
    ensures DedupFrom(key, xs, i, acc, last) == DedupFrom(key, xs, i1, acc[..|acc| - 1] + [xs[i]], key(xs[i]))
  {
  }

  // ---- Rendering ----

  /** One output line, `[HH:MM:SS] text`. */
  function Render(e: SubEntry): string {
    "[" + e.timestamp + "] " + e.text
  }

  /** The "Source:" header and its blank line, present only for a non-empty URL. */
  function Header(sourceUrl: Option<string>): seq<string> {
    if sourceUrl.Some? && sourceUrl.value != "" then ["Source: " + sourceUrl.value, ""] else []
  }

  function RenderAll(es: seq<SubEntry>): (lines: seq<string>)
    ensures |lines| == |es| && forall j :: 0 <= j < |es| ==> lines[j] == Render(es[j])
  {
    if es == [] then [] else RenderAll(es[..|es| - 1]) + [Render(es[|es| - 1])]
  }

  /** The output for the entries kept: the header, then one line per entry,
      joined by newlines. */
  function Output(kept: seq<SubEntry>, sourceUrl: Option<string>): string {
    Join(Header(sourceUrl) + RenderAll(kept), "\n")
  }

  /** The cleaned text made from parsed entries. */
  function CleanedFrom(entries: seq<SubEntry>, sourceUrl: Option<string>): string {
    Output(Dedup(entries), sourceUrl)
  }

  /** The cleaned text of a caption file. */
  function Cleaned(content: string, sourceUrl: Option<string>): string {
    CleanedFrom(ParsedEntries(Blocks(content)), sourceUrl)
  }

  /** `cleanSrt`. */
  method CleanSrt(srtContent: string, sourceUrl: Option<string>) returns (out: string)
    ensures out == Cleaned(srtContent, sourceUrl)
  {
    var entries := ParseSrt(srtContent);
    var deduped := DeduplicateRolling(entries);
    out := WriteOutput(deduped, sourceUrl);
  }

  /** The output-building half of `cleanSrt`: header lines, then one line per entry. */
  method WriteOutput(deduped: seq<SubEntry>, sourceUrl: Option<string>) returns (out: string)
    ensures out == Output(deduped, sourceUrl)
  {
    var lines: seq<string> := [];
    if sourceUrl.Some? && sourceUrl.value != "" {
      lines := lines + ["Source: " + sourceUrl.value];
      lines := lines + [""];
    }
    var header := lines;
    assert header == Header(sourceUrl);
    for i := 0 to |deduped|
      invariant lines == header + RenderAll(deduped[..i])
    {
      assert deduped[..i + 1][..i] == deduped[..i];
      lines := lines + ["[" + deduped[i].timestamp + "] " + deduped[i].text];
    }
    assert deduped[..|deduped|] == deduped;
    out := Join(lines, "\n");
  }

  /** Every rendered line of well-formed entries is free of newlines, so cutting
      the cleaned text at '\n' gives back exactly the header and those lines. */
  lemma CleanedFromLines(entries: seq<SubEntry>, sourceUrl: Option<string>)
    requires sourceUrl.Some? ==> '\n' !in sourceUrl.value
    requires forall k :: 0 <= k < |entries| ==> WellFormed(entries[k])
    ensures var lines := Header(sourceUrl) + RenderAll(Dedup(entries));
      Split(CleanedFrom(entries, sourceUrl), '\n') == if lines == [] then [""] else lines
  {
    var kept := Dedup(entries);
    KeptWellFormed(entries);
    RenderedPlain(kept);
    var h, r := Header(sourceUrl), RenderAll(kept);
    var lines := h + r;
    forall k | 0 <= k < |lines|
      ensures '\n' !in lines[k]
    {
      if k >= |h| {
        assert lines[k] == r[k - |h|];
      }
    }
    if lines != [] {
      JoinSplit(lines, '\n');
    } else {
      assert CleanedFrom(entries, sourceUrl) == "";
    }
  }

  /** The kept entries of well-formed entries are well-formed. */
  lemma KeptWellFormed(entries: seq<SubEntry>)
    requires forall k :: 0 <= k < |entries| ==> WellFormed(entries[k])
    ensures forall j :: 0 <= j < |Dedup(entries)| ==> WellFormed(Dedup(entries)[j])
  {
    var kept := Dedup(entries);
    var idx := DedupSubsequence(entries);
    forall j | 0 <= j < |kept| ensures WellFormed(kept[j]) {
      assert kept[j] == entries[idx[j]];
    }
  }

  /** Rendering well-formed entries gives lines without newlines. */
  lemma RenderedPlain(es: seq<SubEntry>)
    requires forall j :: 0 <= j < |es| ==> WellFormed(es[j])
    ensures forall j :: 0 <= j < |RenderAll(es)| ==> '\n' !in RenderAll(es)[j]
  {
    forall j | 0 <= j < |es| ensures '\n' !in Render(es[j]) {
      assert Render(es[j]) == "[" + es[j].timestamp + "] " + es[j].text;
      assert IsClock(es[j].timestamp);
    }
  }

  /** The cleaned text has one line per kept entry after the optional two-line header,
      with no trailing newline: cutting it at '\n' gives back exactly those lines
      (or the single empty line when there are none). */
  lemma CleanedLines(content: string, sourceUrl: Option<string>)
    requires sourceUrl.Some? ==> '\n' !in sourceUrl.value
    ensures var lines := Header(sourceUrl) + RenderAll(Dedup(ParsedEntries(Blocks(content))));
      Split(Cleaned(content, sourceUrl), '\n') == if lines == [] then [""] else lines
  {
    var parsed := ParsedEntries(Blocks(content));
    ParsedEntriesWellFormed(Blocks(content));
    CleanedFromLines(parsed, sourceUrl);
  }
}
