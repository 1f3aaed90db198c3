/** What `parseProgress` reports for the three kinds of progress line yt-dlp
    prints. Each pattern of the parser is matched piece by piece over a line built
    from its parts (Regex.Greedy, chained with Regex.Chain); the match found that
    way is the one `exec` reports (Regex.GreedyMatch), which gives the capture
    groups. The patterns tried before the one that matches are ruled out by a
    literal character the line lacks (Regex.ExecLacksLit).

    Every lemma here takes the positions where its pieces end as parameters, so
    that the positions its callers and callees speak of are the same terms. */
module ProgressLines {
  import opened Wrappers
  import opened Strings
  import opened Regex
  import opened Db
  import opened Ytdlp

  /** The part of `s` from `i` on is `t`. */
  predicate At(s: string, i: nat, t: string) {
    i <= |s| && s[i..] == t
  }

  /** A word of non-space characters, as `\S+` takes it. */
  predicate IsToken(x: string) {
    x != [] && AllIn(x, NonSpace)
  }

  /** Padding made of space characters, as yt-dlp aligns its columns. */
  predicate Blanks(pad: string) {
    pad != [] && forall j :: 0 <= j < |pad| ==> pad[j] == ' '
  }

  lemma BlanksIn(pad: string)
    requires Blanks(pad)
    ensures AllIn(pad, Space)
  {
  }

  lemma OneSpace()
    ensures AllIn(" ", Space)
  {
    assert " "[0] == ' ';
  }

  lemma DigitsIn(x: string)
    requires AllDigits(x)
    ensures AllIn(x, Digit)
  {
  }

  /** Digits do not continue a run of white space. */
  lemma DigitStopsSpace(w: string, x: string)
    requires w != [] && AllDigits(w)
    ensures StopsRun(w + x, Space)
  {
    assert (w + x)[0] == w[0];
  }

  /** A token does not continue a run of white space. */
  lemma TokenStopsSpace(x: string, t: string)
    requires IsToken(x)
    ensures StopsRun(x + t, Space)
  {
    assert (x + t)[0] == x[0];
  }

  /** A lower-case letter does not continue a run of white space. */
  lemma LetterStopsSpace(x: string)
    requires x != [] && 'a' <= x[0] <= 'z'
    ensures StopsRun(x, Space)
  {
  }

  lemma MarksJoin(m: seq<nat>, a: nat, b: nat)
    ensures m + [a] + [b] == m + [a, b]
  {
  }

  lemma MarksJoin2(m: seq<nat>, a: nat, b: nat, c: nat, e: nat)
    ensures m + [a, b] + [c, e] == m + [a, b, c, e]
  {
  }

  // ---- Single pieces ----

  lemma TextAt(w: string, s: string, i: nat, m: seq<nat>, t: string, e: nat)
    requires At(s, i, w + t) && e == i + |w|
    ensures Greedy(Text(w), s, i, m) == Some((e, m)) && At(s, e, t)
  {
    GreedyTextOf(w, s, i, m, t);
    Skip(s, i, w, t);
  }

  lemma GapAt(s: string, i: nat, m: seq<nat>, g: string, t: string, e: nat)
    requires At(s, i, g + t) && g != [] && AllIn(g, Space) && StopsRun(t, Space) && e == i + |g|
    ensures Greedy(Gap, s, i, m) == Some((e, m)) && At(s, e, t)
  {
    GreedyPlusOf(Space, s, i, m, g, t);
    Skip(s, i, g, t);
  }

  /** One space before a text that does not start with a space. */
  lemma SpaceAt(s: string, i: nat, m: seq<nat>, t: string, e: nat)
    requires At(s, i, " " + t) && StopsRun(t, Space) && e == i + 1
    ensures Greedy(Gap, s, i, m) == Some((e, m)) && At(s, e, t)
  {
    OneSpace();
    GapAt(s, i, m, " ", t, e);
  }

  lemma TokenAt(s: string, i: nat, m: seq<nat>, x: string, t: string, e: nat)
    requires At(s, i, x + t) && IsToken(x) && StopsRun(t, NonSpace) && e == i + |x|
    ensures Greedy(Token, s, i, m) == Some((e, m)) && At(s, e, t)
  {
    GreedyPlusOf(NonSpace, s, i, m, x, t);
    Skip(s, i, x, t);
  }

  lemma GrabAt(s: string, i: nat, m: seq<nat>, x: string, t: string, e: nat)
    requires At(s, i, x + t) && IsToken(x) && StopsRun(t, NonSpace) && e == i + |x|
    ensures Greedy(Grab, s, i, m) == Some((e, m + [i, e])) && At(s, e, t) && s[i..e] == x
  {
    GreedyGroupOf(NonSpace, s, i, m, x, t);
    Skip(s, i, x, t);
  }

  lemma CountAt(s: string, i: nat, m: seq<nat>, x: string, t: string, e: nat)
    requires At(s, i, x + t) && x != [] && AllDigits(x) && StopsRun(t, Digit) && e == i + |x|
    ensures Greedy(Count, s, i, m) == Some((e, m + [i, e])) && At(s, e, t) && s[i..e] == x
  {
    DigitsIn(x);
    GreedyGroupOf(Digit, s, i, m, x, t);
    Skip(s, i, x, t);
  }

  // ---- The percent ----

  /** A percent as yt-dlp prints it and `\d+\.?\d*` reads it: integer digits `w`,
      then either nothing or a '.' (`d`) followed by fraction digits `f`. */
  predicate Decimal(w: string, d: string, f: string) {
    w != [] && AllDigits(w) && AllDigits(f) && (d == "." || (d == "" && f == ""))
  }

  /** `(\d+` over the integer digits. */
  lemma WholeAt(s: string, i: nat, m: seq<nat>, w: string, t: string, e: nat)
    requires At(s, i, w + t) && w != [] && AllDigits(w) && StopsRun(t, Digit) && e == i + |w|
    ensures Greedy([Open, Plus(Digit)], s, i, m) == Some((e, m + [i])) && At(s, e, t)
  {
    DigitsIn(w);
    GreedyMarkOf(Open, s, i, m);
    GreedyPlusOf(Digit, s, i, m + [i], w, t);
    Skip(s, i, w, t);
    Chain([Open], [Plus(Digit)], s, i, m, i, m + [i], e, m + [i]);
    assert [Open] + [Plus(Digit)] == [Open, Plus(Digit)];
  }

  /** `\.?` over the '.' of the percent, or over nothing before the '%'. */
  lemma DotAt(s: string, i: nat, m: seq<nat>, d: string, t: string, e: nat)
    requires At(s, i, d + t) && (d == "." || (d == "" && t != [] && t[0] == '%')) && e == i + |d|
    ensures Greedy([Opt(Lit('.'))], s, i, m) == Some((e, m)) && At(s, e, t)
  {
    GreedyOptOf('.', s, i, m, d, t);
    Skip(s, i, d, t);
  }

  /** `\d*)` over the fraction digits, followed by '%'. */
  lemma DecimalsAt(s: string, i: nat, m: seq<nat>, f: string, t: string, e: nat)
    requires At(s, i, f + t) && AllDigits(f) && t != [] && t[0] == '%' && e == i + |f|
    ensures Greedy([Star(Digit), Close], s, i, m) == Some((e, m + [e])) && At(s, e, t)
  {
    DigitsIn(f);
    GreedyStarOf(Digit, s, i, m, f, t);
    Skip(s, i, f, t);
    GreedyMarkOf(Close, s, e, m);
    Chain([Star(Digit)], [Close], s, i, m, e, m, e, m + [e]);
    assert [Star(Digit)] + [Close] == [Star(Digit), Close];
  }

  /** `\.?\d*)` over the '.' and the digits after it, followed by '%'. */
  lemma FractionAt(s: string, i: nat, m: seq<nat>, d: string, f: string, t: string, e: nat)
    requires At(s, i, d + (f + t)) && AllDigits(f) && (d == "." || (d == "" && f == ""))
    requires t != [] && t[0] == '%' && e == i + |d| + |f|
    ensures Greedy([Opt(Lit('.')), Star(Digit), Close], s, i, m) == Some((e, m + [e])) && At(s, e, t)
  {
    var j := i + |d|;
    DotAt(s, i, m, d, f + t, j);
    DecimalsAt(s, j, m, f, t, e);
    Chain([Opt(Lit('.'))], [Star(Digit), Close], s, i, m, j, m, e, m + [e]);
    assert [Opt(Lit('.'))] + [Star(Digit), Close] == [Opt(Lit('.')), Star(Digit), Close];
  }

  /** What follows the integer digits of a percent is not a digit. */
  lemma AfterWhole(d: string, f: string, t: string)
    requires (d == "." || (d == "" && f == "")) && t != [] && t[0] == '%'
    ensures StopsRun(d + (f + t), Digit)
  {
    if d == "" {
      assert d + (f + t) == t;
    }
  }

  /** The group of a percent is its digits and then its fraction. */
  lemma NumberJoin(s: string, i: nat, m: seq<nat>, j: nat, e: nat)
    requires i <= |s| && j <= |s|
    requires Greedy([Open, Plus(Digit)], s, i, m) == Some((j, m + [i]))
    requires Greedy([Opt(Lit('.')), Star(Digit), Close], s, j, m + [i]) == Some((e, m + [i] + [e]))
    ensures Greedy(Number, s, i, m) == Some((e, m + [i, e]))
  {
    Chain([Open, Plus(Digit)], [Opt(Lit('.')), Star(Digit), Close], s, i, m, j, m + [i], e, m + [i] + [e]);
    assert [Open, Plus(Digit)] + [Opt(Lit('.')), Star(Digit), Close] == Number;
    MarksJoin(m, i, e);
  }

  /** `(\d+\.?\d*)` over a percent followed by '%': the group spans it. */
  lemma NumberAt(s: string, i: nat, m: seq<nat>, w: string, d: string, f: string, t: string, e: nat)
    requires At(s, i, w + (d + (f + t))) && Decimal(w, d, f) && t != [] && t[0] == '%'
    requires e == i + |w| + |d| + |f|
    ensures Greedy(Number, s, i, m) == Some((e, m + [i, e])) && At(s, e, t)
  {
    var j := i + |w|;
    assert Greedy([Open, Plus(Digit)], s, i, m) == Some((j, m + [i])) && At(s, j, d + (f + t)) by {
      AfterWhole(d, f, t);
      WholeAt(s, i, m, w, d + (f + t), j);
    }
    assert Greedy([Opt(Lit('.')), Star(Digit), Close], s, j, m + [i]) == Some((e, m + [i] + [e])) && At(s, e, t) by {
      FractionAt(s, j, m + [i], d, f, t, e);
    }
    NumberJoin(s, i, m, j, e);
  }

  /** `\s+(\d+\.?\d*)` over the padding and the percent. */
  lemma GapNumberAt(s: string, i: nat, m: seq<nat>, pad: string, w: string, d: string, f: string, t: string, j: nat, k: nat)
    requires At(s, i, pad + (w + (d + (f + t)))) && Blanks(pad) && Decimal(w, d, f) && t != [] && t[0] == '%'
    requires j == i + |pad| && k == j + |w| + |d| + |f|
    ensures Greedy(GapNumber, s, i, m) == Some((k, m + [j, k])) && At(s, k, t)
  {
    var x := w + (d + (f + t));
    assert Greedy(Gap, s, i, m) == Some((j, m)) && At(s, j, x) by {
      BlanksIn(pad);
      DigitStopsSpace(w, d + (f + t));
      GapAt(s, i, m, pad, x, j);
    }
    assert Greedy(Number, s, j, m) == Some((k, m + [j, k])) && At(s, k, t) by {
      NumberAt(s, j, m, w, d, f, t, k);
    }
    Chain(Gap, Number, s, i, m, j, m, k, m + [j, k]);
  }

  /** `%\s+` over '%' and one space. */
  lemma PercentGapAt(s: string, i: nat, m: seq<nat>, t: string, e: nat)
    requires At(s, i, "%" + (" " + t)) && StopsRun(t, Space) && e == i + 2
    ensures Greedy(PercentGap, s, i, m) == Some((e, m)) && At(s, e, t)
  {
    var j := i + 1;
    TextAt("%", s, i, m, " " + t, j);
    SpaceAt(s, j, m, t, e);
    Chain(Text("%"), Gap, s, i, m, j, m, e, m);
  }

  /** The text after the tag of a percent line: padding, the percent, '%', one
      space and then `rest`. */
  function PercentText(pad: string, w: string, d: string, f: string, rest: string): string {
    pad + (w + (d + (f + ("%" + (" " + rest)))))
  }

  /** `\s+(\d+\.?\d*)%\s+` over the padding, a percent, '%' and one space. */
  lemma PercentPartAt(s: string, i: nat, m: seq<nat>, pad: string, w: string, d: string, f: string, t: string,
                      j: nat, k: nat, e: nat)
    requires At(s, i, PercentText(pad, w, d, f, t)) && Blanks(pad) && Decimal(w, d, f) && StopsRun(t, Space)
    requires j == i + |pad| && k == j + |w| + |d| + |f| && e == k + 2
    ensures Greedy(PercentPart, s, i, m) == Some((e, m + [j, k])) && At(s, e, t)
  {
    var m2 := m + [j, k];
    assert Greedy(GapNumber, s, i, m) == Some((k, m2)) && At(s, k, "%" + (" " + t)) by {
      GapNumberAt(s, i, m, pad, w, d, f, "%" + (" " + t), j, k);
    }
    assert Greedy(PercentGap, s, k, m2) == Some((e, m2)) && At(s, e, t) by {
      PercentGapAt(s, k, m2, t, e);
    }
    Chain(GapNumber, PercentGap, s, i, m, k, m2, e, m2);
  }

  /** The text a percent group spans. */
  lemma PercentSlice(s: string, i: nat, pad: string, w: string, d: string, f: string, t: string, j: nat, k: nat)
    requires At(s, i, PercentText(pad, w, d, f, t)) && j == i + |pad| && k == j + |w| + |d| + |f|
    ensures k <= |s| && s[j..k] == w + d + f
  {
    var rest := "%" + (" " + t);
    assert PercentText(pad, w, d, f, t) == (pad + (w + d + f)) + rest;
    Skip(s, i, pad + (w + d + f), rest);
    assert s[j..k] == s[i..i + |pad + (w + d + f)|][|pad|..];
  }

  // ---- Words and tokens ----

  /** `of\s+`, `in\s+` or `at\s+` over the word and one space. */
  lemma LeadAt(lead: string, s: string, i: nat, m: seq<nat>, t: string, e: nat)
    requires |lead| == 2 && At(s, i, lead + (" " + t)) && StopsRun(t, Space) && e == i + 3
    ensures Greedy(Text(lead) + Gap, s, i, m) == Some((e, m)) && At(s, e, t)
  {
    var j := i + 2;
    TextAt(lead, s, i, m, " " + t, j);
    SpaceAt(s, j, m, t, e);
    Chain(Text(lead), Gap, s, i, m, j, m, e, m);
  }

  /** `\S+\s+` over a token and one space. */
  lemma TokenGapAt(s: string, i: nat, m: seq<nat>, x: string, t: string, e: nat)
    requires At(s, i, x + (" " + t)) && IsToken(x) && StopsRun(t, Space) && e == i + |x| + 1
    ensures Greedy(TokenGap, s, i, m) == Some((e, m)) && At(s, e, t)
  {
    var j := i + |x|;
    assert StopsRun(" " + t, NonSpace);
    TokenAt(s, i, m, x, " " + t, j);
    SpaceAt(s, j, m, t, e);
    Chain(Token, Gap, s, i, m, j, m, e, m);
  }

  /** `of\s+\S+\s+` (or `in\s+\S+\s+`) over the word, a space, a token and a space. */
  lemma LeadTokenAt(lead: string, s: string, i: nat, m: seq<nat>, x: string, t: string, e: nat)
    requires |lead| == 2 && At(s, i, lead + (" " + (x + (" " + t)))) && IsToken(x) && StopsRun(t, Space)
    requires e == i + 4 + |x|
    ensures Greedy((Text(lead) + Gap) + TokenGap, s, i, m) == Some((e, m)) && At(s, e, t)
  {
    var j := i + 3;
    assert Greedy(Text(lead) + Gap, s, i, m) == Some((j, m)) && At(s, j, x + (" " + t)) by {
      TokenStopsSpace(x, " " + t);
      LeadAt(lead, s, i, m, x + (" " + t), j);
    }
    assert Greedy(TokenGap, s, j, m) == Some((e, m)) && At(s, e, t) by {
      TokenGapAt(s, j, m, x, t, e);
    }
    Chain(Text(lead) + Gap, TokenGap, s, i, m, j, m, e, m);
  }

  /** `at\s+(\S+)` over "at", a space and the speed. */
  lemma AtGrabAt(s: string, i: nat, m: seq<nat>, speed: string, t: string, a: nat, b: nat)
    requires At(s, i, "at" + (" " + (speed + t))) && IsToken(speed) && StopsRun(t, NonSpace)
    requires a == i + 3 && b == a + |speed|
    ensures Greedy(AtGrab, s, i, m) == Some((b, m + [a, b])) && At(s, b, t) && s[a..b] == speed
  {
    assert Greedy(Text("at") + Gap, s, i, m) == Some((a, m)) && At(s, a, speed + t) by {
      TokenStopsSpace(speed, t);
      LeadAt("at", s, i, m, speed + t, a);
    }
    assert Greedy(Grab, s, a, m) == Some((b, m + [a, b])) && At(s, b, t) && s[a..b] == speed by {
      GrabAt(s, a, m, speed, t, b);
    }
    Chain(Text("at") + Gap, Grab, s, i, m, a, m, b, m + [a, b]);
  }

  /** `\s+(\S+)` over one space and a token that ends the line. */
  lemma GapGrabAt(s: string, i: nat, m: seq<nat>, x: string, a: nat)
    requires At(s, i, " " + x) && IsToken(x) && a == i + 1
    ensures Greedy(GapGrab, s, i, m) == Some((|s|, m + [a, |s|])) && |s| == a + |x| && s[a..] == x
  {
    assert Greedy(Gap, s, i, m) == Some((a, m)) && At(s, a, x + "") by {
      assert x + "" == x;
      TokenStopsSpace(x, "");
      SpaceAt(s, i, m, x, a);
    }
    assert Greedy(Grab, s, a, m) == Some((|s|, m + [a, |s|])) && s[a..|s|] == x by {
      GrabAt(s, a, m, x, "", |s|);
    }
    Chain(Gap, Grab, s, i, m, a, m, |s|, m + [a, |s|]);
  }

  /** `\s+ETA` over " ETA". */
  lemma GapEtaAt(s: string, i: nat, m: seq<nat>, t: string, e: nat)
    requires At(s, i, " " + ("ETA" + t)) && e == i + 4
    ensures Greedy(Gap + Text("ETA"), s, i, m) == Some((e, m)) && At(s, e, t)
  {
    var j := i + 1;
    assert StopsRun("ETA" + t, Space);
    SpaceAt(s, i, m, "ETA" + t, j);
    TextAt("ETA", s, j, m, t, e);
    Chain(Gap, Text("ETA"), s, i, m, j, m, e, m);
  }

  /** `\s+ETA\s+(\S+)` over " ETA " and the time left, at the end of the line. */
  lemma EtaGrabAt(s: string, i: nat, m: seq<nat>, eta: string, c: nat)
    requires At(s, i, " " + ("ETA" + (" " + eta))) && IsToken(eta) && c == i + 5
    ensures Greedy(EtaGrab, s, i, m) == Some((|s|, m + [c, |s|])) && |s| == c + |eta| && s[c..] == eta
  {
    var j := i + 4;
    assert Greedy(Gap + Text("ETA"), s, i, m) == Some((j, m)) && At(s, j, " " + eta) by {
      GapEtaAt(s, i, m, " " + eta, j);
    }
    assert Greedy(GapGrab, s, j, m) == Some((|s|, m + [c, |s|])) && |s| == c + |eta| && s[c..] == eta by {
      GapGrabAt(s, j, m, eta, c);
    }
    Chain(Gap + Text("ETA"), GapGrab, s, i, m, j, m, |s|, m + [c, |s|]);
  }

  // ---- The parts of a line after the tag ----

  /** "of SIZE " and then `rest`. */
  function OfText(size: string, rest: string): string {
    "of" + (" " + (size + (" " + rest)))
  }

  /** "at SPEED ETA T", the end of a line that reports the time left. */
  function SpeedEtaText(speed: string, eta: string): string {
    "at" + (" " + (speed + (" " + ("ETA" + (" " + eta)))))
  }

  /** "in TIME at SPEED", the end of the line of a finished download. */
  function TimeSpeedText(time: string, speed: string): string {
    "in" + (" " + (time + (" " + ("at" + (" " + speed)))))
  }

  /** `\s+(\d+\.?\d*)%\s+of\s+\S+\s+` over the percent and the size. */
  lemma SizePartAt(s: string, i: nat, m: seq<nat>, pad: string, w: string, d: string, f: string, size: string,
                   t: string, j: nat, k: nat, e: nat)
    requires At(s, i, PercentText(pad, w, d, f, OfText(size, t)))
    requires Blanks(pad) && Decimal(w, d, f) && IsToken(size) && StopsRun(t, Space)
    requires j == i + |pad| && k == j + |w| + |d| + |f| && e == k + 6 + |size|
    ensures Greedy(SizePart, s, i, m) == Some((e, m + [j, k])) && At(s, e, t)
  {
    var c := k + 2;
    var m2 := m + [j, k];
    var rest := OfText(size, t);
    assert Greedy(PercentPart, s, i, m) == Some((c, m2)) && At(s, c, rest) by {
      LetterStopsSpace(rest);
      PercentPartAt(s, i, m, pad, w, d, f, rest, j, k, c);
    }
    assert Greedy(OfToken, s, c, m2) == Some((e, m2)) && At(s, e, t) by {
      LeadTokenAt("of", s, c, m2, size, t, e);
    }
    Chain(PercentPart, OfToken, s, i, m, c, m2, e, m2);
  }

  /** `at\s+(\S+)\s+ETA\s+(\S+)` over the speed and the time left, at the end of
      the line. */
  lemma SpeedEtaAt(s: string, i: nat, m: seq<nat>, speed: string, eta: string, a: nat, b: nat, c: nat)
    requires At(s, i, SpeedEtaText(speed, eta)) && IsToken(speed) && IsToken(eta)
    requires a == i + 3 && b == a + |speed| && c == b + 5
    ensures Greedy(AtGrab + EtaGrab, s, i, m) == Some((|s|, m + [a, b, c, |s|]))
    ensures |s| == c + |eta| && s[a..b] == speed && s[c..] == eta
  {
    var m2 := m + [a, b];
    assert Greedy(AtGrab, s, i, m) == Some((b, m2)) && At(s, b, " " + ("ETA" + (" " + eta))) && s[a..b] == speed by {
      AtGrabAt(s, i, m, speed, " " + ("ETA" + (" " + eta)), a, b);
    }
    assert Greedy(EtaGrab, s, b, m2) == Some((|s|, m2 + [c, |s|])) && |s| == c + |eta| && s[c..] == eta by {
      EtaGrabAt(s, b, m2, eta, c);
    }
    Chain(AtGrab, EtaGrab, s, i, m, b, m2, |s|, m2 + [c, |s|]);
    MarksJoin2(m, a, b, c, |s|);
  }

  /** `in\s+\S+\s+at\s+(\S+)` over the time taken and the speed, at the end of
      the line. */
  lemma TimeSpeedAt(s: string, i: nat, m: seq<nat>, time: string, speed: string, a: nat)
    requires At(s, i, TimeSpeedText(time, speed)) && IsToken(time) && IsToken(speed)
    requires a == i + 7 + |time|
    ensures Greedy(InToken + AtGrab, s, i, m) == Some((|s|, m + [a, |s|])) && |s| == a + |speed| && s[a..] == speed
  {
    var c := i + 4 + |time|;
    var rest := "at" + (" " + speed);
    assert Greedy(InToken, s, i, m) == Some((c, m)) && At(s, c, rest) by {
      LetterStopsSpace(rest);
      LeadTokenAt("in", s, i, m, time, rest, c);
    }
    assert Greedy(AtGrab, s, c, m) == Some((|s|, m + [a, |s|])) && s[a..|s|] == speed by {
      assert speed + "" == speed;
      AtGrabAt(s, c, m, speed, "", a, |s|);
    }
    Chain(InToken, AtGrab, s, i, m, c, m, |s|, m + [a, |s|]);
  }

  /** `\s+(\d+\.?\d*)%\s+of\s+\S+\s+at\s+(\S+)\s+ETA\s+(\S+)` over a line's text
      after the tag. */
  lemma EtaRestAt(s: string, i: nat, m: seq<nat>, pad: string, w: string, d: string, f: string,
                  size: string, speed: string, eta: string, j: nat, k: nat, a: nat, b: nat, c: nat)
    requires At(s, i, PercentText(pad, w, d, f, OfText(size, SpeedEtaText(speed, eta))))
    requires Blanks(pad) && Decimal(w, d, f) && IsToken(size) && IsToken(speed) && IsToken(eta)
    requires j == i + |pad| && k == j + |w| + |d| + |f| && a == k + 9 + |size| && b == a + |speed| && c == b + 5
    ensures Greedy(EtaRest, s, i, m) == Some((|s|, m + [j, k] + [a, b, c, |s|]))
    ensures s[a..b] == speed && s[c..] == eta
  {
    var e := k + 6 + |size|;
    var m2 := m + [j, k];
    var rest := SpeedEtaText(speed, eta);
    assert Greedy(SizePart, s, i, m) == Some((e, m2)) && At(s, e, rest) by {
      LetterStopsSpace(rest);
      SizePartAt(s, i, m, pad, w, d, f, size, rest, j, k, e);
    }
    assert Greedy(AtGrab + EtaGrab, s, e, m2) == Some((|s|, m2 + [a, b, c, |s|])) && s[a..b] == speed && s[c..] == eta by {
      SpeedEtaAt(s, e, m2, speed, eta, a, b, c);
    }
    Chain(SizePart, AtGrab + EtaGrab, s, i, m, e, m2, |s|, m2 + [a, b, c, |s|]);
  }

  /** `\s+(\d+\.?\d*)%\s+of\s+\S+\s+in\s+\S+\s+at\s+(\S+)` over a line's text after
      the tag. */
  lemma DoneRestAt(s: string, i: nat, m: seq<nat>, pad: string, w: string, d: string, f: string,
                   size: string, time: string, speed: string, j: nat, k: nat, a: nat)
    requires At(s, i, PercentText(pad, w, d, f, OfText(size, TimeSpeedText(time, speed))))
    requires Blanks(pad) && Decimal(w, d, f) && IsToken(size) && IsToken(time) && IsToken(speed)
    requires j == i + |pad| && k == j + |w| + |d| + |f| && a == k + 13 + |size| + |time|
    ensures Greedy(DoneRest, s, i, m) == Some((|s|, m + [j, k] + [a, |s|])) && s[a..] == speed
  {
    var e := k + 6 + |size|;
    var m2 := m + [j, k];
    var rest := TimeSpeedText(time, speed);
    assert Greedy(SizePart, s, i, m) == Some((e, m2)) && At(s, e, rest) by {
      LetterStopsSpace(rest);
      SizePartAt(s, i, m, pad, w, d, f, size, rest, j, k, e);
    }
    assert Greedy(InToken + AtGrab, s, e, m2) == Some((|s|, m2 + [a, |s|])) && s[a..] == speed by {
      TimeSpeedAt(s, e, m2, time, speed, a);
    }
    Chain(SizePart, InToken + AtGrab, s, i, m, e, m2, |s|, m2 + [a, |s|]);
  }

  // ---- Whole lines ----

  /** "[download]", padding, "W.F% of SIZE at SPEED ETA T": a download under way. */
  function EtaLine(pad: string, w: string, d: string, f: string, size: string, speed: string, eta: string): string {
    Tag + PercentText(pad, w, d, f, OfText(size, SpeedEtaText(speed, eta)))
  }

  /** "[download]", padding, "W.F% of SIZE in TIME at SPEED": a finished download. */
  function DoneLine(pad: string, w: string, d: string, f: string, size: string, time: string, speed: string): string {
    Tag + PercentText(pad, w, d, f, OfText(size, TimeSpeedText(time, speed)))
  }

  /** A match from the start of the text found without backtracking is what `exec`
      reports. */
  lemma ExecFromStart(p: Pattern, s: string, e: nat, marks: seq<nat>)
    requires Greedy(p, s, 0, []) == Some((e, marks))
    ensures Exec(p, s) == Some(Found(0, e, Groups(s, marks)))
  {
    GreedyMatch(p, s, 0, []);
  }

  /** The tag at the head of a line. */
  lemma TagAt(s: string, rest: string)
    requires s == Tag + rest
    ensures Greedy(Text(Tag), s, 0, []) == Some((|Tag|, [])) && At(s, |Tag|, rest)
  {
    assert s[0..] == s;
    TextAt(Tag, s, 0, [], rest, |Tag|);
  }

  /** The percent text reads as its decimal value. */
  lemma PercentValue(w: string, d: string, f: string)
    requires Decimal(w, d, f)
    ensures ParseFloat(w + d + f) == Finite(DecimalReal(w, f))
  {
    assert w + d + f == w + (d + f);
    ParseFloatDigits(w, d + f);
    if d == "." {
      assert ("." + f)[1..] == f;
      DigitPrefixAll(f);
    } else {
      assert d + f == "";
    }
  }

  lemma MarksOfThree(j: nat, k: nat, a: nat, b: nat, c: nat, e: nat)
    ensures [] + [j, k] + [a, b, c, e] == [j, k, a, b, c, e]
  {
  }

  /** The pattern with an ETA over a line of a download under way, group by group. */
  lemma EtaLineGreedy(s: string, pad: string, w: string, d: string, f: string, size: string, speed: string, eta: string,
                      j: nat, k: nat, a: nat, b: nat, c: nat)
    requires s == EtaLine(pad, w, d, f, size, speed, eta)
    requires Blanks(pad) && Decimal(w, d, f) && IsToken(size) && IsToken(speed) && IsToken(eta)
    requires j == |Tag| + |pad| && k == j + |w| + |d| + |f| && a == k + 9 + |size| && b == a + |speed| && c == b + 5
    ensures Greedy(ProgressEta, s, 0, []) == Some((|s|, [j, k, a, b, c, |s|]))
    ensures s[j..k] == w + d + f && s[a..b] == speed && s[c..] == eta
  {
    var rest := PercentText(pad, w, d, f, OfText(size, SpeedEtaText(speed, eta)));
    var i := |Tag|;
    var marks := [] + [j, k] + [a, b, c, |s|];
    assert Greedy(Text(Tag), s, 0, []) == Some((i, [])) && At(s, i, rest) by {
      TagAt(s, rest);
    }
    assert Greedy(EtaRest, s, i, []) == Some((|s|, marks)) && s[a..b] == speed && s[c..] == eta by {
      EtaRestAt(s, i, [], pad, w, d, f, size, speed, eta, j, k, a, b, c);
    }
    Chain(Text(Tag), EtaRest, s, 0, [], i, [], |s|, marks);
    PercentSlice(s, i, pad, w, d, f, OfText(size, SpeedEtaText(speed, eta)), j, k);
    MarksOfThree(j, k, a, b, c, |s|);
  }

  /** A match of the whole text with three groups, as `exec` reports it. */
  lemma ExecThree(p: Pattern, s: string, j: nat, k: nat, a: nat, b: nat, c: nat, x: string, y: string, z: string)
    requires Greedy(p, s, 0, []) == Some((|s|, [j, k, a, b, c, |s|]))
    requires j <= k <= |s| && a <= b <= |s| && c <= |s|
    requires s[j..k] == x && s[a..b] == y && s[c..] == z
    ensures Exec(p, s) == Some(Found(0, |s|, [x, y, z]))
  {
    ExecFromStart(p, s, |s|, [j, k, a, b, c, |s|]);
    GroupsOfThree(s, j, k, a, b, c, |s|);
    assert s[c..|s|] == s[c..];
  }

  /** The pattern with an ETA matches a line of a download under way; its groups are
      the percent, the speed and the time left. */
  lemma EtaLineMatch(s: string, pad: string, w: string, d: string, f: string, size: string, speed: string, eta: string)
    requires s == EtaLine(pad, w, d, f, size, speed, eta)
    requires Blanks(pad) && Decimal(w, d, f) && IsToken(size) && IsToken(speed) && IsToken(eta)
    ensures Exec(ProgressEta, s) == Some(Found(0, |s|, [w + d + f, speed, eta]))
  {
    var j := |Tag| + |pad|;
    var k := j + |w| + |d| + |f|;
    var a := k + 9 + |size|;
    var b := a + |speed|;
    var c := b + 5;
    EtaLineGreedy(s, pad, w, d, f, size, speed, eta, j, k, a, b, c);
    ExecThree(ProgressEta, s, j, k, a, b, c, w + d + f, speed, eta);
  }

  /** `parseProgress` of a line of a download under way: the percent as a number,
      the speed and the time left, as printed. */
  lemma ParseEtaLine(pad: string, w: string, d: string, f: string, size: string, speed: string, eta: string)
    requires Blanks(pad) && Decimal(w, d, f) && IsToken(size) && IsToken(speed) && IsToken(eta)
    ensures ParseProgress(EtaLine(pad, w, d, f, size, speed, eta)) ==
      Some(Progress(Finite(DecimalReal(w, f)), Some(speed), Some(eta)))
  {
    var s := EtaLine(pad, w, d, f, size, speed, eta);
    assert Exec(ProgressEta, s) == Some(Found(0, |s|, [w + d + f, speed, eta])) by {
      EtaLineMatch(s, pad, w, d, f, size, speed, eta);
    }
    ParseOfEta(s, w + d + f, speed, eta);
    PercentValue(w, d, f);
  }

  /** What `parseProgress` reports for a line the ETA pattern matches whole. */
  lemma ParseOfEta(s: string, x: string, y: string, z: string)
    requires Exec(ProgressEta, s) == Some(Found(0, |s|, [x, y, z]))
    ensures ParseProgress(s) == Some(Progress(ParseFloat(x), Some(y), Some(z)))
  {
  }

  lemma MarksOfTwo(j: nat, k: nat, a: nat, e: nat)
    ensures [] + [j, k] + [a, e] == [j, k, a, e]
  {
  }

  /** The pattern of a finished download over its line, group by group. */
  lemma DoneLineGreedy(s: string, pad: string, w: string, d: string, f: string, size: string, time: string, speed: string,
                       j: nat, k: nat, a: nat)
    requires s == DoneLine(pad, w, d, f, size, time, speed)
    requires Blanks(pad) && Decimal(w, d, f) && IsToken(size) && IsToken(time) && IsToken(speed)
    requires j == |Tag| + |pad| && k == j + |w| + |d| + |f| && a == k + 13 + |size| + |time|
    ensures Greedy(ProgressDone, s, 0, []) == Some((|s|, [j, k, a, |s|]))
    ensures s[j..k] == w + d + f && s[a..] == speed
  {
    var rest := PercentText(pad, w, d, f, OfText(size, TimeSpeedText(time, speed)));
    var i := |Tag|;
    var marks := [] + [j, k] + [a, |s|];
    assert Greedy(Text(Tag), s, 0, []) == Some((i, [])) && At(s, i, rest) by {
      TagAt(s, rest);
    }
    assert Greedy(DoneRest, s, i, []) == Some((|s|, marks)) && s[a..] == speed by {
      DoneRestAt(s, i, [], pad, w, d, f, size, time, speed, j, k, a);
    }
    Chain(Text(Tag), DoneRest, s, 0, [], i, [], |s|, marks);
    PercentSlice(s, i, pad, w, d, f, OfText(size, TimeSpeedText(time, speed)), j, k);
    MarksOfTwo(j, k, a, |s|);
  }

  /** A match of the whole text with two groups, as `exec` reports it. */
  lemma ExecTwo(p: Pattern, s: string, j: nat, k: nat, a: nat, x: string, y: string)
    requires Greedy(p, s, 0, []) == Some((|s|, [j, k, a, |s|]))
    requires j <= k <= |s| && a <= |s| && s[j..k] == x && s[a..] == y
    ensures Exec(p, s) == Some(Found(0, |s|, [x, y]))
  {
    ExecFromStart(p, s, |s|, [j, k, a, |s|]);
    GroupsOfTwo(s, j, k, a, |s|);
    assert s[a..|s|] == s[a..];
  }

  /** The ETA pattern needs an 'E'. */
  lemma EtaNeedsE()
    ensures One(Lit('E')) in ProgressEta
  {
    assert Text("ETA")[0] == One(Lit('E'));
    assert One(Lit('E')) in Gap + Text("ETA");
    assert One(Lit('E')) in EtaGrab;
    assert One(Lit('E')) in AtGrab + EtaGrab;
    assert One(Lit('E')) in EtaRest;
  }

  /** Both percent patterns need a '%'. */
  lemma PercentNeedsSign()
    ensures One(Lit('%')) in ProgressEta && One(Lit('%')) in ProgressDone
  {
    assert Text("%")[0] == One(Lit('%'));
    assert One(Lit('%')) in PercentGap;
    assert One(Lit('%')) in PercentPart;
    assert One(Lit('%')) in SizePart;
    assert One(Lit('%')) in EtaRest && One(Lit('%')) in DoneRest;
  }

  lemma DigitsLack(c: char, x: string)
    requires AllDigits(x) && !IsDigit(c)
    ensures c !in x
  {
  }

  lemma BlanksLack(c: char, pad: string)
    requires Blanks(pad) && c != ' '
    ensures c !in pad
  {
  }

  /** Digits, padding and the fixed words of a finished line hold no 'E'. */
  lemma DoneLacksE(pad: string, w: string, d: string, f: string, size: string, time: string, speed: string)
    requires Blanks(pad) && Decimal(w, d, f) && 'E' !in size && 'E' !in time && 'E' !in speed
    ensures 'E' !in DoneLine(pad, w, d, f, size, time, speed)
  {
    BlanksLack('E', pad);
    DigitsLack('E', w);
    DigitsLack('E', f);
    var rest := OfText(size, TimeSpeedText(time, speed));
    assert 'E' !in rest;
    assert 'E' !in PercentText(pad, w, d, f, rest);
  }

  /** `parseProgress` of the line of a finished download: the ETA pattern finds no
      "ETA", so the second pattern reports the percent and the speed, and no time
      left. */
  lemma ParseDoneLine(pad: string, w: string, d: string, f: string, size: string, time: string, speed: string)
    requires Blanks(pad) && Decimal(w, d, f) && IsToken(size) && IsToken(time) && IsToken(speed)
    requires 'E' !in size && 'E' !in time && 'E' !in speed
    ensures ParseProgress(DoneLine(pad, w, d, f, size, time, speed)) ==
      Some(Progress(Finite(DecimalReal(w, f)), Some(speed), None))
  {
    var s := DoneLine(pad, w, d, f, size, time, speed);
    var j := |Tag| + |pad|;
    var k := j + |w| + |d| + |f|;
    var a := k + 13 + |size| + |time|;
    DoneLacksE(pad, w, d, f, size, time, speed);
    EtaNeedsE();
    ExecLacksLit(ProgressEta, s, 'E');
    DoneLineGreedy(s, pad, w, d, f, size, time, speed, j, k, a);
    ExecTwo(ProgressDone, s, j, k, a, w + d + f, speed);
    PercentValue(w, d, f);
  }

  // ---- Fragment and playlist counters ----

  /** The text after the tag of a counter line: padding, "Downloading", the kind
      ("fragment" or "video"), "N of M". */
  function CountText(pad: string, kind: string, n: string, total: string): string {
    pad + ("Downloading" + (" " + (kind + (" " + (n + (" " + ("of" + (" " + total))))))))
  }

  /** "[download] Downloading fragment N of M" (or "video"), padding included. */
  function CountLine(pad: string, kind: string, n: string, total: string): string {
    Tag + CountText(pad, kind, n, total)
  }

  predicate IsKind(kind: string) {
    kind == "fragment" || kind == "video"
  }

  /** `(?:fragment|video)` over the kind written at `i`. */
  lemma KindAt(s: string, i: nat, m: seq<nat>, kind: string, t: string, e: nat)
    requires At(s, i, kind + t) && IsKind(kind) && e == i + |kind|
    ensures Greedy([Alt(["fragment", "video"])], s, i, m) == Some((e, m)) && At(s, e, t)
  {
    Skip(s, i, kind, t);
    if kind == "video" {
      assert s[i] == 'v' by {
        assert s[i] == s[i..i + |kind|][0];
      }
      if i + 8 <= |s| {
        assert s[i..i + 8][0] == 'v';
      }
    }
    assert FirstWord(["fragment", "video"], s, i) == Some(kind);
    assert [Alt(["fragment", "video"])][1..] == [];
  }

  /** `\s+Downloading` over the padding and the word. */
  lemma DownloadingAt(s: string, i: nat, m: seq<nat>, pad: string, t: string, e: nat)
    requires At(s, i, pad + ("Downloading" + t)) && Blanks(pad) && e == i + |pad| + 11
    ensures Greedy(Gap + Text("Downloading"), s, i, m) == Some((e, m)) && At(s, e, t)
  {
    var j := i + |pad|;
    assert Greedy(Gap, s, i, m) == Some((j, m)) && At(s, j, "Downloading" + t) by {
      BlanksIn(pad);
      assert StopsRun("Downloading" + t, Space);
      GapAt(s, i, m, pad, "Downloading" + t, j);
    }
    assert Greedy(Text("Downloading"), s, j, m) == Some((e, m)) && At(s, e, t) by {
      TextAt("Downloading", s, j, m, t, e);
    }
    Chain(Gap, Text("Downloading"), s, i, m, j, m, e, m);
  }

  /** `\s+(?:fragment|video)` over one space and the kind. */
  lemma GapKindAt(s: string, i: nat, m: seq<nat>, kind: string, t: string, e: nat)
    requires At(s, i, " " + (kind + t)) && IsKind(kind) && e == i + 1 + |kind|
    ensures Greedy(Gap + [Alt(["fragment", "video"])], s, i, m) == Some((e, m)) && At(s, e, t)
  {
    var j := i + 1;
    assert (kind + t)[0] == kind[0];
    SpaceAt(s, i, m, kind + t, j);
    KindAt(s, j, m, kind, t, e);
    Chain(Gap, [Alt(["fragment", "video"])], s, i, m, j, m, e, m);
  }

  /** `\s+Downloading\s+(?:fragment|video)` over the padding, the word and the kind. */
  lemma DownloadingWordAt(s: string, i: nat, m: seq<nat>, pad: string, kind: string, t: string, e: nat)
    requires At(s, i, pad + ("Downloading" + (" " + (kind + t)))) && Blanks(pad) && IsKind(kind)
    requires e == i + |pad| + 12 + |kind|
    ensures Greedy(DownloadingWord, s, i, m) == Some((e, m)) && At(s, e, t)
  {
    var j := i + |pad| + 11;
    assert Greedy(Gap + Text("Downloading"), s, i, m) == Some((j, m)) && At(s, j, " " + (kind + t)) by {
      DownloadingAt(s, i, m, pad, " " + (kind + t), j);
    }
    assert Greedy(Gap + [Alt(["fragment", "video"])], s, j, m) == Some((e, m)) && At(s, e, t) by {
      GapKindAt(s, j, m, kind, t, e);
    }
    Chain(Gap + Text("Downloading"), Gap + [Alt(["fragment", "video"])], s, i, m, j, m, e, m);
  }

  /** `\s+(\d+)` over one space and a counter. */
  lemma GapCountAt(s: string, i: nat, m: seq<nat>, n: string, t: string, a: nat, e: nat)
    requires At(s, i, " " + (n + t)) && n != [] && AllDigits(n) && StopsRun(t, Digit)
    requires a == i + 1 && e == a + |n|
    ensures Greedy(GapCount, s, i, m) == Some((e, m + [a, e])) && At(s, e, t) && s[a..e] == n
  {
    assert Greedy(Gap, s, i, m) == Some((a, m)) && At(s, a, n + t) by {
      DigitStopsSpace(n, t);
      SpaceAt(s, i, m, n + t, a);
    }
    assert Greedy(Count, s, a, m) == Some((e, m + [a, e])) && At(s, e, t) && s[a..e] == n by {
      CountAt(s, a, m, n, t, e);
    }
    Chain(Gap, Count, s, i, m, a, m, e, m + [a, e]);
  }

  /** `\s+of` over one space and the word. */
  lemma GapOfAt(s: string, i: nat, m: seq<nat>, t: string, e: nat)
    requires At(s, i, " " + ("of" + t)) && e == i + 3
    ensures Greedy(Gap + Text("of"), s, i, m) == Some((e, m)) && At(s, e, t)
  {
    var j := i + 1;
    LetterStopsSpace("of" + t);
    SpaceAt(s, i, m, "of" + t, j);
    TextAt("of", s, j, m, t, e);
    Chain(Gap, Text("of"), s, i, m, j, m, e, m);
  }

  /** `\s+of\s+(\d+)` over " of " and the total, at the end of the line. */
  lemma OfCountAt(s: string, i: nat, m: seq<nat>, total: string, c: nat)
    requires At(s, i, " " + ("of" + (" " + total))) && total != [] && AllDigits(total) && c == i + 4
    ensures Greedy((Gap + Text("of")) + GapCount, s, i, m) == Some((|s|, m + [c, |s|])) && s[c..] == total
  {
    var j := i + 3;
    assert Greedy(Gap + Text("of"), s, i, m) == Some((j, m)) && At(s, j, " " + total) by {
      GapOfAt(s, i, m, " " + total, j);
    }
    assert Greedy(GapCount, s, j, m) == Some((|s|, m + [c, |s|])) && s[c..|s|] == total by {
      assert total + "" == total;
      GapCountAt(s, j, m, total, "", c, |s|);
    }
    Chain(Gap + Text("of"), GapCount, s, i, m, j, m, |s|, m + [c, |s|]);
  }

  /** `\s+(\d+)\s+of\s+(\d+)` over "N of M" at the end of the line. */
  lemma CountOfCountAt(s: string, i: nat, m: seq<nat>, n: string, total: string, a: nat, b: nat, c: nat)
    requires At(s, i, " " + (n + (" " + ("of" + (" " + total)))))
    requires n != [] && AllDigits(n) && total != [] && AllDigits(total)
    requires a == i + 1 && b == a + |n| && c == b + 4
    ensures Greedy(CountOfCount, s, i, m) == Some((|s|, m + [a, b] + [c, |s|])) && s[a..b] == n && s[c..] == total
  {
    var m2 := m + [a, b];
    var rest := " " + ("of" + (" " + total));
    assert Greedy(GapCount, s, i, m) == Some((b, m2)) && At(s, b, rest) && s[a..b] == n by {
      GapCountAt(s, i, m, n, rest, a, b);
    }
    assert Greedy((Gap + Text("of")) + GapCount, s, b, m2) == Some((|s|, m2 + [c, |s|])) && s[c..] == total by {
      OfCountAt(s, b, m2, total, c);
    }
    Chain(GapCount, (Gap + Text("of")) + GapCount, s, i, m, b, m2, |s|, m2 + [c, |s|]);
  }

  /** The counter pattern over its line, group by group. */
  lemma CountLineGreedy(s: string, pad: string, kind: string, n: string, total: string, a: nat, b: nat, c: nat)
    requires s == CountLine(pad, kind, n, total)
    requires Blanks(pad) && IsKind(kind) && n != [] && AllDigits(n) && total != [] && AllDigits(total)
    requires a == |Tag| + |pad| + 13 + |kind| && b == a + |n| && c == b + 4
    ensures Greedy(FragmentLine, s, 0, []) == Some((|s|, [a, b, c, |s|])) && s[a..b] == n && s[c..] == total
  {
    var i := |Tag|;
    var e := i + |pad| + 12 + |kind|;
    var tail := " " + (n + (" " + ("of" + (" " + total))));
    var marks := [] + [a, b] + [c, |s|];
    assert Greedy(Text(Tag), s, 0, []) == Some((i, [])) && At(s, i, CountText(pad, kind, n, total)) by {
      TagAt(s, CountText(pad, kind, n, total));
    }
    assert Greedy(DownloadingWord, s, i, []) == Some((e, [])) && At(s, e, tail) by {
      DownloadingWordAt(s, i, [], pad, kind, tail, e);
    }
    assert Greedy(CountOfCount, s, e, []) == Some((|s|, marks)) && s[a..b] == n && s[c..] == total by {
      CountOfCountAt(s, e, [], n, total, a, b, c);
    }
    Chain(DownloadingWord, CountOfCount, s, i, [], e, [], |s|, marks);
    Chain(Text(Tag), FragmentRest, s, 0, [], i, [], |s|, marks);
    MarksOfTwo(a, b, c, |s|);
  }

  lemma CountLacksSign(pad: string, kind: string, n: string, total: string)
    requires Blanks(pad) && IsKind(kind) && AllDigits(n) && AllDigits(total)
    ensures '%' !in CountLine(pad, kind, n, total)
  {
    BlanksLack('%', pad);
    DigitsLack('%', n);
    DigitsLack('%', total);
    assert '%' !in CountText(pad, kind, n, total);
  }

  /** `parseProgress` of a fragment or playlist counter line: neither percent
      pattern finds a '%', so the third pattern reports the rounded share N/M. */
  lemma ParseCountLine(pad: string, kind: string, n: string, total: string)
    requires Blanks(pad) && IsKind(kind) && n != [] && AllDigits(n) && total != [] && AllDigits(total)
    ensures ParseProgress(CountLine(pad, kind, n, total)) == Some(Progress(FragmentPercent(n, total), None, None))
  {
    var s := CountLine(pad, kind, n, total);
    var a := |Tag| + |pad| + 13 + |kind|;
    var b := a + |n|;
    var c := b + 4;
    CountLacksSign(pad, kind, n, total);
    PercentNeedsSign();
    ExecLacksLit(ProgressEta, s, '%');
    ExecLacksLit(ProgressDone, s, '%');
    CountLineGreedy(s, pad, kind, n, total, a, b, c);
    ExecTwo(FragmentLine, s, a, b, c, n, total);
  }

  /** A counter line yt-dlp prints for N of M parts reports 100·N/M rounded,
      between 0 and 100 while N ≤ M, and a non-finite percent for M = 0. */
  lemma ParseCountNumbers(pad: string, kind: string, n: nat, m: nat)
    requires Blanks(pad) && IsKind(kind)
    ensures var r := ParseProgress(CountLine(pad, kind, NatToString(n), NatToString(m)));
      r.Some? && r.value.speed.None? && r.value.eta.None? &&
      r.value.percent == if m == 0 then NotFinite else Finite(Round(n as real / m as real * 100.0) as real)
    ensures 0 < m && n <= m ==>
      0.0 <= ParseProgress(CountLine(pad, kind, NatToString(n), NatToString(m))).value.percent.value <= 100.0
  {
    ParseCountLine(pad, kind, NatToString(n), NatToString(m));
    FragmentPercentOf(n, m);
    if 0 < m && n <= m {
      RoundPercentBounds(n, m);
    }
  }

  /** "[download] Downloading fragment 3 of 12" is a quarter of the way. */
  lemma ParseCountExample()
    ensures ParseProgress(CountLine(" ", "fragment", "3", "12")) == Some(Progress(Finite(25.0), None, None))
  {
    assert NatToString(3) == "3";
    assert NatToString(12) == "12" by {
      assert NatToString(1) == "1";
    }
    assert Round(3 as real / 12 as real * 100.0) == 25 by {
      assert 3 as real / 12 as real * 100.0 == 25.0;
    }
    ParseCountNumbers(" ", "fragment", 3, 12);
  }
}
