/** The fragment of JavaScript regular expressions that the system's parsers use:
    single characters from a class, greedy `?`, `*` and `+` over a class, an
    alternation of literal words `(?:a|b)`, capture groups that do not nest, and the
    anchors `^` and `$` (without the `m` flag). Matching backtracks exactly as the
    ECMAScript engine does for this fragment: a greedy repetition first tries its
    longest run and gives back one character at a time, and alternatives are tried
    left to right. */
module Regex {
  import opened Wrappers
  import opened Strings

  /** Characters that `.` does not match. */
  predicate IsLineTerminator(c: char) {
    c == '\n' || c == '\r' || c == '\U{2028}' || c == '\U{2029}'
  }

  datatype Class =
    | Lit(c: char)                  // a literal character, e.g. `\[`
    | Space                         // `\s`
    | NonSpace                      // `\S` or `[^\s]`
    | Digit                         // `\d`
    | Word                          // `\w`
    | Dot                           // `.`
    | Not(c: char)                  // `[^c]`
    | Ranges(rs: seq<(char, char)>) // `[a-z...]`, one pair per range or character

  predicate InClass(c: char, k: Class) {
    match k
    case Lit(d) => c == d
    case Space => IsSpace(c)
    case NonSpace => !IsSpace(c)
    case Digit => IsDigit(c)
    case Word => IsWordChar(c)
    case Dot => !IsLineTerminator(c)
    case Not(d) => c != d
    case Ranges(rs) => exists r :: r in rs && r.0 <= c <= r.1
  }

  datatype Node =
    | One(k: Class)            // exactly one character of the class
    | Opt(k: Class)            // `k?`
    | Star(k: Class)           // `k*`
    | Plus(k: Class)           // `k+`
    | Alt(words: seq<string>)  // `(?:w1|w2|...)`
    | Open                     // `(` of a capture group
    | Close                    // `)` of a capture group
    | Begin                    // `^`
    | End                      // `$`

  type Pattern = seq<Node>

  /** A pattern made of literal characters only. */
  function Text(w: string): (p: Pattern)
    ensures |p| == |w| && forall j :: 0 <= j < |w| ==> p[j] == One(Lit(w[j]))
  {
    if w == [] then [] else [One(Lit(w[0]))] + Text(w[1..])
  }

  /** The length of the longest run of class characters starting at `i`. */
  function Run(s: string, i: nat, k: Class): (n: nat)
    requires i <= |s|
    ensures i + n <= |s|
    ensures forall j :: i <= j < i + n ==> InClass(s[j], k)
    ensures i + n == |s| || !InClass(s[i + n], k)
    decreases |s| - i
  {
    if i < |s| && InClass(s[i], k) then 1 + Run(s, i + 1, k) else 0
  }

  /** Matches `p` at position `i`; on success returns the end of the match and the
      positions of the group boundaries met so far (one per Open and per Close, in
      pattern order). */
  function Match(p: Pattern, s: string, i: nat, marks: seq<nat>): (r: Option<(nat, seq<nat>)>)
    requires i <= |s|
    ensures r.Some? ==> i <= r.value.0 <= |s|
    decreases |p|, 1, 0
  {
    if p == [] then Some((i, marks))
    else match p[0]
      case One(k) =>
        if i < |s| && InClass(s[i], k) then Match(p[1..], s, i + 1, marks) else None
      case Opt(k) => Repeat(p, s, i, marks, if i < |s| && InClass(s[i], k) then 1 else 0, 0)
      case Star(k) => Repeat(p, s, i, marks, Run(s, i, k), 0)
      case Plus(k) => Repeat(p, s, i, marks, Run(s, i, k), 1)
      case Alt(ws) => TryWords(p, s, i, marks, ws)
      case Open => Match(p[1..], s, i, marks + [i])
      case Close => Match(p[1..], s, i, marks + [i])
      case Begin => if i == 0 then Match(p[1..], s, i, marks) else None
      case End => if i == |s| then Match(p[1..], s, i, marks) else None
  }

  /** Greedy repetition: `k` characters first, then one fewer, down to `min`. */
  function Repeat(p: Pattern, s: string, i: nat, marks: seq<nat>, k: nat, min: nat): (r: Option<(nat, seq<nat>)>)
    requires p != [] && i + k <= |s|
    ensures r.Some? ==> i <= r.value.0 <= |s|
    decreases |p|, 0, k
  {
    if k < min then None
    else match Match(p[1..], s, i + k, marks)
      case Some(res) => Some(res)
      case None => if k == min then None else Repeat(p, s, i, marks, k - 1, min)
  }

  /** Alternation of literal words, tried in order. */
  function TryWords(p: Pattern, s: string, i: nat, marks: seq<nat>, ws: seq<string>): (r: Option<(nat, seq<nat>)>)
    requires p != [] && i <= |s|
    ensures r.Some? ==> i <= r.value.0 <= |s|
    decreases |p|, 0, |ws|
  {
    if ws == [] then None
    else
      var w := ws[0];
      var tried := if i + |w| <= |s| && s[i..i + |w|] == w then Match(p[1..], s, i + |w|, marks) else None;
      if tried.Some? then tried else TryWords(p, s, i, marks, ws[1..])
  }

  datatype Found = Found(start: nat, end: nat, groups: seq<string>)

  /** The substring between two marks; marks out of order give "". */
  function Slice(s: string, a: nat, b: nat): string {
    if a <= b <= |s| then s[a..b] else ""
  }

  function Groups(s: string, marks: seq<nat>): (g: seq<string>)
    ensures |g| == |marks| / 2
  {
    seq(|marks| / 2, j requires 0 <= j < |marks| / 2 => Slice(s, marks[2 * j], marks[2 * j + 1]))
  }

  /** The leftmost match starting at or after `from` (`RegExp.prototype.exec` with
      `lastIndex` = `from`). */
  function Search(p: Pattern, s: string, from: nat): (r: Option<Found>)
    requires from <= |s|
    ensures r.Some? ==> from <= r.value.start <= r.value.end <= |s|
    ensures r.Some? ==> Match(p, s, r.value.start, []).Some?
    ensures r.Some? ==> var m := Match(p, s, r.value.start, []).value;
      r.value.end == m.0 && r.value.groups == Groups(s, m.1)
    ensures r.Some? ==> forall j :: from <= j < r.value.start ==> Match(p, s, j, []).None?
    decreases |s| - from
  {
    match Match(p, s, from, [])
    case Some(res) => Some(Found(from, res.0, Groups(s, res.1)))
    case None => if from == |s| then None else Search(p, s, from + 1)
  }

  /** `s.match(re)` / `re.exec(s)` for a regex without the `g` flag. */
  function Exec(p: Pattern, s: string): Option<Found> {
    Search(p, s, 0)
  }

  /** `re.test(s)`. */
  predicate Test(p: Pattern, s: string) {
    Exec(p, s).Some?
  }

  /** The text of capture group `g` of the first match, if there is a match. */
  function Capture(p: Pattern, s: string, g: nat): Option<string> {
    match Exec(p, s)
    case Some(f) => if g < |f.groups| then Some(f.groups[g]) else None
    case None => None
  }

  /** `s.replace(re, '')` for a regex with the `g` flag: every match, found left to
      right without overlap, is removed. */
  function ReplaceAll(p: Pattern, s: string, from: nat): string
    requires from <= |s|
    decreases |s| - from
  {
    match Search(p, s, from)
    case None => s[from..]
    case Some(f) =>
      if f.end > f.start then s[from..f.start] + ReplaceAll(p, s, f.end)
      else if f.start < |s| then s[from..f.start + 1] + ReplaceAll(p, s, f.start + 1)
      else s[from..]
  }

  /** `s.replace(re, '')` without the `g` flag: only the first match is removed. */
  function ReplaceFirst(p: Pattern, s: string): string {
    match Exec(p, s)
    case None => s
    case Some(f) => s[..f.start] + s[f.end..]
  }

  /** `s.split(re)` for a regex without capture groups, following the splitting
      algorithm of ECMA-262: a match is tried at every position below |s|, an empty
      match at the start of the current piece is skipped, and the text after the last
      match is the final piece. */
  function SplitBy(p: Pattern, s: string): (r: seq<string>)
  {
    if |s| == 0 then (if Match(p, s, 0, []).Some? then [] else [s])
    else SplitFrom(p, s, 0, 0)
  }

  function SplitFrom(p: Pattern, s: string, start: nat, q: nat): (r: seq<string>)
    requires start <= q <= |s|
    ensures |r| >= 1
    decreases |s| - q, if start == q then 0 else 1
  {
    if q == |s| then [s[start..]]
    else match Match(p, s, q, [])
      case None => SplitFrom(p, s, start, q + 1)
      case Some(res) =>
        if res.0 == start then SplitFrom(p, s, start, q + 1)
        else [s[start..q]] + SplitFrom(p, s, res.0, res.0)
  }

  // ---- Facts about matching used by the parsers' lemmas ----

  lemma SearchFirst(p: Pattern, s: string, from: nat)
    requires from <= |s| && Match(p, s, from, []).Some?
    ensures Search(p, s, from).Some? && Search(p, s, from).value.start == from
  {
  }

  /** The groups of two capture groups. */
  lemma GroupsOfTwo(s: string, a: nat, b: nat, c: nat, d: nat)
    requires a <= b <= |s| && c <= d <= |s|
    ensures Groups(s, [a, b, c, d]) == [s[a..b], s[c..d]]
  {
    var g := Groups(s, [a, b, c, d]);
    assert |g| == 2;
    assert g[0] == s[a..b] && g[1] == s[c..d];
  }

  /** The groups of three capture groups. */
  lemma GroupsOfThree(s: string, a: nat, b: nat, c: nat, d: nat, e: nat, f: nat)
    requires a <= b <= |s| && c <= d <= |s| && e <= f <= |s|
    ensures Groups(s, [a, b, c, d, e, f]) == [s[a..b], s[c..d], s[e..f]]
  {
    var g := Groups(s, [a, b, c, d, e, f]);
    assert |g| == 3;
    assert g[0] == s[a..b] && g[1] == s[c..d] && g[2] == s[e..f];
  }

  /** A pattern that fails at every position has no match. */
  lemma {:induction false} SearchNone(p: Pattern, s: string, from: nat)
    requires from <= |s|
    requires forall j :: from <= j <= |s| ==> Match(p, s, j, []).None?
    ensures Search(p, s, from).None?
    decreases |s| - from
  {
    if from < |s| {
      SearchNone(p, s, from + 1);
    }
  }

  /** Literal text at `i` is consumed character by character. */
  lemma {:induction false} MatchText(w: string, p: Pattern, s: string, i: nat, marks: seq<nat>)
    requires i + |w| <= |s| && s[i..i + |w|] == w
    ensures Match(Text(w) + p, s, i, marks) == Match(p, s, i + |w|, marks)
    decreases |w|
  {
    if w != [] {
      var q := Text(w) + p;
      assert q[0] == One(Lit(w[0]));
      assert q[1..] == Text(w[1..]) + p;
      assert s[i] == w[0];
      assert Match(q, s, i, marks) == Match(q[1..], s, i + 1, marks);
      assert s[i + 1..i + 1 + |w[1..]|] == w[1..];
      MatchText(w[1..], p, s, i + 1, marks);
    } else {
      assert Text(w) + p == p;
    }
  }

  /** A pattern that starts with literal text matches only where the text is. */
  lemma {:induction false} MatchTextAt(w: string, p: Pattern, s: string, i: nat, marks: seq<nat>)
    requires i <= |s| && Match(Text(w) + p, s, i, marks).Some?
    ensures i + |w| <= |s| && s[i..i + |w|] == w
    decreases |w|
  {
    if w != [] {
      var q := Text(w) + p;
      assert q[0] == One(Lit(w[0]));
      assert q[1..] == Text(w[1..]) + p;
      MatchTextAt(w[1..], p, s, i + 1, marks);
      assert s[i..i + |w|] == [s[i]] + s[i + 1..i + 1 + |w[1..]|];
    }
  }

  /** A pattern that starts with literal text finds a match only in a string that
      contains the text. */
  lemma ExecNeedsText(w: string, p: Pattern, s: string)
    requires Exec(Text(w) + p, s).Some?
    ensures Contains(s, w)
  {
    var f := Exec(Text(w) + p, s).value;
    MatchTextAt(w, p, s, f.start, []);
    ContainsAt(s, w, f.start);
  }

  /** Literal text that is not at `i` fails. */
  lemma MatchTextFails(w: string, p: Pattern, s: string, i: nat, marks: seq<nat>, j: nat)
    requires i + j <= |s| && j < |w| && s[i..i + j] == w[..j]
    requires i + j >= |s| || s[i + j] != w[j]
    ensures Match(Text(w) + p, s, i, marks).None?
    decreases j
  {
    var q := Text(w) + p;
    assert q[0] == One(Lit(w[0]));
    assert q[1..] == Text(w[1..]) + p;
    if j > 0 {
      assert s[i..i + j][0] == w[..j][0];
      assert Match(q, s, i, marks) == Match(q[1..], s, i + 1, marks);
      assert s[i + 1..i + 1 + (j - 1)] == w[1..][..j - 1];
      MatchTextFails(w[1..], p, s, i + 1, marks, j - 1);
    }
  }

  /** When the run of a repeated class is maximal and the rest of the pattern cannot
      start with a class character, a greedy repetition takes the whole run. */
  lemma RepeatWhole(p: Pattern, s: string, i: nat, marks: seq<nat>, n: nat, min: nat)
    requires p != [] && i + n <= |s| && min <= n
    requires Match(p[1..], s, i + n, marks).Some?
    ensures Repeat(p, s, i, marks, n, min) == Match(p[1..], s, i + n, marks)
  {
  }

  /** One matching step on the suffix of a pattern that starts at a single-character
      node. */
  lemma MatchOneAt(p: Pattern, j: nat, s: string, i: nat, marks: seq<nat>)
    requires j < |p| && i <= |s| && p[j].One?
    ensures Match(p[j..], s, i, marks) ==
      (if i < |s| && InClass(s[i], p[j].k) then Match(p[j + 1..], s, i + 1, marks) else None)
  {
    assert p[j..][0] == p[j];
    assert p[j..][1..] == p[j + 1..];
  }

  /** A group boundary records the current position. */
  lemma MatchMarkAt(p: Pattern, j: nat, s: string, i: nat, marks: seq<nat>)
    requires j < |p| && i <= |s| && (p[j].Open? || p[j].Close?)
    ensures Match(p[j..], s, i, marks) == Match(p[j + 1..], s, i, marks + [i])
  {
    assert p[j..][0] == p[j];
    assert p[j..][1..] == p[j + 1..];
  }

  /** `$` holds only at the end of the text. */
  lemma MatchEndAt(p: Pattern, j: nat, s: string, i: nat, marks: seq<nat>)
    requires j < |p| && i <= |s| && p[j].End?
    ensures Match(p[j..], s, i, marks) == (if i == |s| then Match(p[j + 1..], s, i, marks) else None)
  {
    assert p[j..][0] == p[j];
    assert p[j..][1..] == p[j + 1..];
  }

  /** `^` holds only at the start of the text. */
  lemma MatchBeginAt(p: Pattern, j: nat, s: string, i: nat, marks: seq<nat>)
    requires j < |p| && i <= |s| && p[j].Begin?
    ensures Match(p[j..], s, i, marks) == (if i == 0 then Match(p[j + 1..], s, i, marks) else None)
  {
    assert p[j..][0] == p[j];
    assert p[j..][1..] == p[j + 1..];
  }

  /** A greedy `+` or `*` whose maximal run is followed by a successful match of the
      rest of the pattern takes the whole run. */
  lemma MatchGreedy(p: Pattern, j: nat, s: string, i: nat, marks: seq<nat>)
    requires j < |p| && i <= |s| && (p[j].Plus? || p[j].Star?)
    requires p[j].Plus? ==> Run(s, i, p[j].k) >= 1
    requires Match(p[j + 1..], s, i + Run(s, i, p[j].k), marks).Some?
    ensures Match(p[j..], s, i, marks) == Match(p[j + 1..], s, i + Run(s, i, p[j].k), marks)
  {
    assert p[j..][0] == p[j];
    assert p[j..][1..] == p[j + 1..];
  }

  /** A greedy `?` whose character is present and followed by a successful match of
      the rest takes the character; when the character is absent it takes nothing. */
  lemma MatchOptional(p: Pattern, j: nat, s: string, i: nat, marks: seq<nat>)
    requires j < |p| && i <= |s| && p[j].Opt?
    ensures (i < |s| && InClass(s[i], p[j].k) && Match(p[j + 1..], s, i + 1, marks).Some?) ==>
      Match(p[j..], s, i, marks) == Match(p[j + 1..], s, i + 1, marks)
    ensures !(i < |s| && InClass(s[i], p[j].k)) ==>
      Match(p[j..], s, i, marks) == Match(p[j + 1..], s, i, marks)
  {
    assert p[j..][0] == p[j];
    assert p[j..][1..] == p[j + 1..];
  }

  /** A `+` over a class fails when the position does not hold a class character. */
  lemma MatchPlusFails(p: Pattern, j: nat, s: string, i: nat, marks: seq<nat>)
    requires j < |p| && i <= |s| && p[j].Plus?
    requires i == |s| || !InClass(s[i], p[j].k)
    ensures Match(p[j..], s, i, marks).None?
  {
    assert p[j..][0] == p[j];
  }

  /** Removing matches never introduces a character. */
  lemma {:induction false} ReplaceAllKeepsOut(p: Pattern, s: string, from: nat, c: char)
    requires from <= |s| && c !in s
    ensures c !in ReplaceAll(p, s, from)
    decreases |s| - from
  {
    match Search(p, s, from)
    case None =>
    case Some(f) =>
      if f.end > f.start {
        ReplaceAllKeepsOut(p, s, f.end, c);
        assert c !in s[from..f.start];
      } else if f.start < |s| {
        ReplaceAllKeepsOut(p, s, f.start + 1, c);
        assert c !in s[from..f.start + 1];
      }
  }

  /** A pattern with no match leaves the text unchanged under global removal. */
  lemma ReplaceAllNoMatch(p: Pattern, s: string)
    requires Search(p, s, 0).None?
    ensures ReplaceAll(p, s, 0) == s
  {
  }

  // ---- Matching without backtracking ----

  /** The first word of `ws` that is written at `i`. */
  function FirstWord(ws: seq<string>, s: string, i: nat): (r: Option<string>)
    requires i <= |s|
    ensures r.Some? ==> r.value in ws && i + |r.value| <= |s| && s[i..i + |r.value|] == r.value
  {
    if ws == [] then None
    else if i + |ws[0]| <= |s| && s[i..i + |ws[0]|] == ws[0] then Some(ws[0])
    else FirstWord(ws[1..], s, i)
  }

  /** Matching that never backtracks: every repetition takes its longest run and an
      alternation the first word present. Where it succeeds the backtracking matcher
      finds the same match (GreedyMatch), so a match of a concrete line can be
      built piece by piece (GreedyConcat). The position is part of the termination
      measure so that the verifier unfolds a constant pattern one node at a time
      instead of all at once. */
  function Greedy(p: Pattern, s: string, i: nat, marks: seq<nat>): (r: Option<(nat, seq<nat>)>)
    requires i <= |s|
    ensures r.Some? ==> i <= r.value.0 <= |s|
    decreases |p|, i
  {
    if p == [] then Some((i, marks))
    else match p[0]
      case One(k) => if i < |s| && InClass(s[i], k) then Greedy(p[1..], s, i + 1, marks) else None
      case Opt(k) => Greedy(p[1..], s, i + (if i < |s| && InClass(s[i], k) then 1 else 0), marks)
      case Star(k) => Greedy(p[1..], s, i + Run(s, i, k), marks)
      case Plus(k) => if Run(s, i, k) >= 1 then Greedy(p[1..], s, i + Run(s, i, k), marks) else None
      case Alt(ws) =>
        (match FirstWord(ws, s, i)
         case Some(w) => Greedy(p[1..], s, i + |w|, marks)
         case None => None)
      case Open => Greedy(p[1..], s, i, marks + [i])
      case Close => Greedy(p[1..], s, i, marks + [i])
      case Begin => if i == 0 then Greedy(p[1..], s, i, marks) else None
      case End => if i == |s| then Greedy(p[1..], s, i, marks) else None
  }

  /** A match found without backtracking is the match the engine reports: the
      engine's first choice at every repetition and alternation already succeeds. */
  lemma {:induction false} GreedyMatch(p: Pattern, s: string, i: nat, marks: seq<nat>)
    requires i <= |s| && Greedy(p, s, i, marks).Some?
    ensures Match(p, s, i, marks) == Greedy(p, s, i, marks)
    decreases |p|, 1
  {
    if p != [] {
      match p[0]
      case One(k) => GreedyMatch(p[1..], s, i + 1, marks);
      case Opt(k) => GreedyRepeat(p, s, i, marks);
      case Star(k) => GreedyRepeat(p, s, i, marks);
      case Plus(k) => GreedyRepeat(p, s, i, marks);
      case Alt(ws) =>
        var w := FirstWord(ws, s, i).value;
        GreedyMatch(p[1..], s, i + |w|, marks);
        TryWordsFirst(p, s, i, marks, ws, w);
      case Open => GreedyMatch(p[1..], s, i, marks + [i]);
      case Close => GreedyMatch(p[1..], s, i, marks + [i]);
      case Begin => GreedyMatch(p[1..], s, i, marks);
      case End => GreedyMatch(p[1..], s, i, marks);
    }
  }

  /** GreedyMatch for a repetition: the engine tries the longest run first, and
      the rest of the pattern already matches after it. */
  lemma {:induction false} GreedyRepeat(p: Pattern, s: string, i: nat, marks: seq<nat>)
    requires i <= |s| && p != [] && (p[0].Opt? || p[0].Star? || p[0].Plus?)
    requires Greedy(p, s, i, marks).Some?
    ensures Match(p, s, i, marks) == Greedy(p, s, i, marks)
    decreases |p|, 0
  {
    match p[0]
    case Opt(k) =>
      var n := if i < |s| && InClass(s[i], k) then 1 else 0;
      GreedyMatch(p[1..], s, i + n, marks);
    case Star(k) => GreedyMatch(p[1..], s, i + Run(s, i, k), marks);
    case Plus(k) => GreedyMatch(p[1..], s, i + Run(s, i, k), marks);
  }

  /** The words before the first one present fail outright, so the alternation
      continues with the first word present. */
  lemma {:induction false} TryWordsFirst(p: Pattern, s: string, i: nat, marks: seq<nat>, ws: seq<string>, w: string)
    requires p != [] && i <= |s| && FirstWord(ws, s, i) == Some(w)
    requires Match(p[1..], s, i + |w|, marks).Some?
    ensures TryWords(p, s, i, marks, ws) == Match(p[1..], s, i + |w|, marks)
    decreases |ws|
  {
    if !(i + |ws[0]| <= |s| && s[i..i + |ws[0]|] == ws[0]) {
      TryWordsFirst(p, s, i, marks, ws[1..], w);
    }
  }

  /** Where the greedy matcher stands after one node, if the node matches. */
  function Advance(n: Node, s: string, i: nat, marks: seq<nat>): (r: Option<(nat, seq<nat>)>)
    requires i <= |s|
    ensures r.Some? ==> i <= r.value.0 <= |s|
  {
    match n
    case One(k) => if i < |s| && InClass(s[i], k) then Some((i + 1, marks)) else None
    case Opt(k) => Some((i + (if i < |s| && InClass(s[i], k) then 1 else 0), marks))
    case Star(k) => Some((i + Run(s, i, k), marks))
    case Plus(k) => if Run(s, i, k) >= 1 then Some((i + Run(s, i, k), marks)) else None
    case Alt(ws) =>
      (match FirstWord(ws, s, i)
       case Some(w) => Some((i + |w|, marks))
       case None => None)
    case Open => Some((i, marks + [i]))
    case Close => Some((i, marks + [i]))
    case Begin => if i == 0 then Some((i, marks)) else None
    case End => if i == |s| then Some((i, marks)) else None
  }

  /** The greedy matcher takes the first node and continues from there. */
  lemma GreedyAdvance(p: Pattern, s: string, i: nat, marks: seq<nat>)
    requires i <= |s| && p != []
    ensures Greedy(p, s, i, marks) ==
      match Advance(p[0], s, i, marks)
      case None => None
      case Some(st) => Greedy(p[1..], s, st.0, st.1)
  {
  }

  lemma {:induction false} GreedyConcat(p1: Pattern, p2: Pattern, s: string, i: nat, marks: seq<nat>, j: nat, marks1: seq<nat>)
    requires i <= |s| && Greedy(p1, s, i, marks) == Some((j, marks1))
    ensures Greedy(p1 + p2, s, i, marks) == Greedy(p2, s, j, marks1)
    decreases |p1|
  {
    if p1 == [] {
      assert p1 + p2 == p2;
    } else {
      assert (p1 + p2)[0] == p1[0];
      assert (p1 + p2)[1..] == p1[1..] + p2;
      GreedyAdvance(p1, s, i, marks);
      GreedyAdvance(p1 + p2, s, i, marks);
      var st := Advance(p1[0], s, i, marks).value;
      GreedyConcat(p1[1..], p2, s, st.0, st.1, j, marks1);
    }
  }

  /** Two parts matched one after the other. */
  lemma Chain(p1: Pattern, p2: Pattern, s: string, i: nat, marks: seq<nat>, j: nat, marks1: seq<nat>, k: nat, marks2: seq<nat>)
    requires i <= |s| && Greedy(p1, s, i, marks) == Some((j, marks1))
    requires j <= |s| && Greedy(p2, s, j, marks1) == Some((k, marks2))
    ensures Greedy(p1 + p2, s, i, marks) == Some((k, marks2))
  {
    GreedyConcat(p1, p2, s, i, marks, j, marks1);
  }

  /** Every character of `x` is in the class. */
  predicate AllIn(x: string, k: Class) {
    forall j :: 0 <= j < |x| ==> InClass(x[j], k)
  }

  /** `t` does not continue a run of the class. */
  predicate StopsRun(t: string, k: Class) {
    t == [] || !InClass(t[0], k)
  }

  /** Where the text goes on with `x` and then `t`, the text after `x` is `t`. */
  lemma Skip(s: string, i: nat, x: string, t: string)
    requires i <= |s| && s[i..] == x + t
    ensures i + |x| <= |s| && s[i..i + |x|] == x && s[i + |x|..] == t
  {
    assert s[i + |x|..] == s[i..][|x|..];
    assert s[i..i + |x|] == s[i..][..|x|];
  }

  /** The run of a class at `i` is exactly the class characters written there. */
  lemma {:induction false} RunOf(s: string, i: nat, x: string, t: string, k: Class)
    requires i <= |s| && s[i..] == x + t && AllIn(x, k) && StopsRun(t, k)
    ensures Run(s, i, k) == |x|
    decreases |x|
  {
    if x == [] {
      assert s[i..] == t;
      if i < |s| {
        assert s[i] == s[i..][0];
      }
    } else {
      assert s[i] == s[i..][0] == x[0];
      assert s[i + 1..] == x[1..] + t by {
        assert s[i + 1..] == s[i..][1..];
      }
      assert AllIn(x[1..], k) by {
        forall j | 0 <= j < |x[1..]| ensures InClass(x[1..][j], k) {
          assert x[1..][j] == x[j + 1];
        }
      }
      RunOf(s, i + 1, x[1..], t, k);
    }
  }

  /** Literal text written at `i` is matched and passed over. */
  lemma {:induction false} GreedyTextOf(w: string, s: string, i: nat, marks: seq<nat>, t: string)
    requires i <= |s| && s[i..] == w + t
    ensures Greedy(Text(w), s, i, marks) == Some((i + |w|, marks))
    decreases |w|
  {
    if w != [] {
      assert s[i] == s[i..][0] == w[0];
      assert Text(w)[1..] == Text(w[1..]);
      assert s[i + 1..] == w[1..] + t by {
        assert s[i + 1..] == s[i..][1..];
      }
      GreedyTextOf(w[1..], s, i + 1, marks, t);
      GreedyAdvance(Text(w), s, i, marks);
    } else {
      Skip(s, i, w, t);
    }
  }

  /** `k+` over the class characters `x` written at `i`. */
  lemma GreedyPlusOf(k: Class, s: string, i: nat, marks: seq<nat>, x: string, t: string)
    requires i <= |s| && s[i..] == x + t && x != [] && AllIn(x, k) && StopsRun(t, k)
    ensures Greedy([Plus(k)], s, i, marks) == Some((i + |x|, marks))
  {
    RunOf(s, i, x, t, k);
    Skip(s, i, x, t);
    assert [Plus(k)][1..] == [];
  }

  /** `k*` over the class characters `x` (possibly none) written at `i`. */
  lemma GreedyStarOf(k: Class, s: string, i: nat, marks: seq<nat>, x: string, t: string)
    requires i <= |s| && s[i..] == x + t && AllIn(x, k) && StopsRun(t, k)
    ensures Greedy([Star(k)], s, i, marks) == Some((i + |x|, marks))
  {
    RunOf(s, i, x, t, k);
    Skip(s, i, x, t);
    assert [Star(k)][1..] == [];
  }

  /** `c?` where the text at `i` holds `c` (x == [c]) or does not (x == []). */
  lemma GreedyOptOf(c: char, s: string, i: nat, marks: seq<nat>, x: string, t: string)
    requires i <= |s| && s[i..] == x + t
    requires x == [c] || (x == [] && (t == [] || t[0] != c))
    ensures Greedy([Opt(Lit(c))], s, i, marks) == Some((i + |x|, marks))
  {
    Skip(s, i, x, t);
    if i < |s| {
      assert s[i] == s[i..][0];
    }
    assert [Opt(Lit(c))][1..] == [];
  }

  /** A group boundary records the position. */
  lemma GreedyMarkOf(n: Node, s: string, i: nat, marks: seq<nat>)
    requires i <= |s| && (n.Open? || n.Close?)
    ensures Greedy([n], s, i, marks) == Some((i, marks + [i]))
  {
    assert [n][1..] == [];
  }

  /** `(k+)` over the class characters `x` written at `i`: the group spans `x`. */
  lemma GreedyGroupOf(k: Class, s: string, i: nat, marks: seq<nat>, x: string, t: string)
    requires i <= |s| && s[i..] == x + t && x != [] && AllIn(x, k) && StopsRun(t, k)
    ensures Greedy([Open, Plus(k), Close], s, i, marks) == Some((i + |x|, marks + [i, i + |x|]))
  {
    Skip(s, i, x, t);
    GreedyMarkOf(Open, s, i, marks);
    GreedyPlusOf(k, s, i, marks + [i], x, t);
    Chain([Open], [Plus(k)], s, i, marks, i, marks + [i], i + |x|, marks + [i]);
    GreedyMarkOf(Close, s, i + |x|, marks + [i]);
    Chain([Open, Plus(k)], [Close], s, i, marks, i + |x|, marks + [i], i + |x|, marks + [i] + [i + |x|]);
    assert [Open] + [Plus(k)] == [Open, Plus(k)];
    assert [Open, Plus(k)] + [Close] == [Open, Plus(k), Close];
    assert marks + [i] + [i + |x|] == marks + [i, i + |x|];
  }

  // ---- Patterns that need a character the text lacks ----

  /** A pattern with a literal character fails on text without that character. */
  lemma {:induction false} MatchLacksLit(p: Pattern, s: string, i: nat, marks: seq<nat>, c: char)
    requires i <= |s| && One(Lit(c)) in p && c !in s[i..]
    ensures Match(p, s, i, marks).None?
    decreases |p|, 1, 0
  {
    if i < |s| {
      assert s[i] == s[i..][0];
      assert s[i + 1..] == s[i..][1..];
    }
    assert p == [p[0]] + p[1..];
    match p[0]
    case One(k) =>
      if p[0] != One(Lit(c)) && i < |s| && InClass(s[i], k) {
        MatchLacksLit(p[1..], s, i + 1, marks, c);
      }
    case Opt(k) => RepeatLacksLit(p, s, i, marks, if i < |s| && InClass(s[i], k) then 1 else 0, 0, c);
    case Star(k) => RepeatLacksLit(p, s, i, marks, Run(s, i, k), 0, c);
    case Plus(k) => RepeatLacksLit(p, s, i, marks, Run(s, i, k), 1, c);
    case Alt(ws) => WordsLackLit(p, s, i, marks, ws, c);
    case Open => MatchLacksLit(p[1..], s, i, marks + [i], c);
    case Close => MatchLacksLit(p[1..], s, i, marks + [i], c);
    case Begin => MatchLacksLit(p[1..], s, i, marks, c);
    case End => MatchLacksLit(p[1..], s, i, marks, c);
  }

  lemma {:induction false} RepeatLacksLit(p: Pattern, s: string, i: nat, marks: seq<nat>, k: nat, min: nat, c: char)
    requires p != [] && i + k <= |s| && One(Lit(c)) in p[1..] && c !in s[i..]
    ensures Repeat(p, s, i, marks, k, min).None?
    decreases |p|, 0, k
  {
    if k >= min {
      assert s[i + k..] == s[i..][k..];
      MatchLacksLit(p[1..], s, i + k, marks, c);
      if k > min {
        RepeatLacksLit(p, s, i, marks, k - 1, min, c);
      }
    }
  }

  lemma {:induction false} WordsLackLit(p: Pattern, s: string, i: nat, marks: seq<nat>, ws: seq<string>, c: char)
    requires p != [] && i <= |s| && One(Lit(c)) in p[1..] && c !in s[i..]
    ensures TryWords(p, s, i, marks, ws).None?
    decreases |p|, 0, |ws|
  {
    if ws != [] {
      var w := ws[0];
      if i + |w| <= |s| && s[i..i + |w|] == w {
        assert s[i + |w|..] == s[i..][|w|..];
        MatchLacksLit(p[1..], s, i + |w|, marks, c);
      }
      WordsLackLit(p, s, i, marks, ws[1..], c);
    }
  }

  /** `exec` finds nothing in a text that lacks one of the pattern's literal
      characters. */
  lemma ExecLacksLit(p: Pattern, s: string, c: char)
    requires One(Lit(c)) in p && c !in s
    ensures Exec(p, s).None?
  {
    forall j | 0 <= j <= |s| ensures Match(p, s, j, []).None? {
      assert c !in s[j..] by {
        assert forall n :: 0 <= n < |s[j..]| ==> s[j..][n] == s[j + n];
      }
      MatchLacksLit(p, s, j, [], c);
    }
    SearchNone(p, s, 0);
  }
}
