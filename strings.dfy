/** Text helpers shared by the TypeScript and Python parts of the model.
    Strings are sequences of Unicode scalar values (`string` is `seq<char>`); case mapping
    covers ASCII letters only. */
module Strings {
  import opened Wrappers

  /** The characters that JavaScript's `trim()` and the regex class `\s` treat as
      white space (WhiteSpace and LineTerminator of ECMA-262). */
  predicate IsSpace(c: char) {
    || c == ' ' || c == '\t' || c == '\n' || c == '\r' || c == '\U{000B}' || c == '\U{000C}'
    || c == '\U{00A0}' || c == '\U{FEFF}' || c == '\U{1680}'
    || ('\U{2000}' <= c <= '\U{200A}')
    || c == '\U{2028}' || c == '\U{2029}' || c == '\U{202F}' || c == '\U{205F}' || c == '\U{3000}'
  }

  predicate IsDigit(c: char) {
    '0' <= c <= '9'
  }

  predicate IsHexDigit(c: char) {
    IsDigit(c) || 'a' <= c <= 'f' || 'A' <= c <= 'F'
  }

  /** The regex class `\w`. */
  predicate IsWordChar(c: char) {
    'a' <= c <= 'z' || 'A' <= c <= 'Z' || IsDigit(c) || c == '_'
  }

  function LowerChar(c: char): char {
    if 'A' <= c <= 'Z' then (c as int + 32) as char else c
  }

  /** `toLowerCase()` / `str.lower()` on ASCII letters. */
  function Lower(s: string): string {
    seq(|s|, i requires 0 <= i < |s| => LowerChar(s[i]))
  }

  predicate IsTrimmed(s: string) {
    s == [] || (!IsSpace(s[0]) && !IsSpace(s[|s| - 1]))
  }

  /** Drops leading white space. */
  function TrimStart(s: string): string {
    if |s| > 0 && IsSpace(s[0]) then TrimStart(s[1..]) else s
  }

  /** Drops trailing white space. */
  function TrimEnd(s: string): string {
    if |s| > 0 && IsSpace(s[|s| - 1]) then TrimEnd(s[..|s| - 1]) else s
  }

  /** `trim()`. */
  function Trim(s: string): string {
    TrimEnd(TrimStart(s))
  }

  /** What is dropped is white space, and what is kept is a suffix that does not
      start with it. */
  lemma {:induction false} TrimStartFacts(s: string)
    ensures var r := TrimStart(s);
      && |r| <= |s| && r == s[|s| - |r|..]
      && (r == [] || !IsSpace(r[0]))
      && (forall i :: 0 <= i < |s| - |r| ==> IsSpace(s[i]))
  {
    if |s| > 0 && IsSpace(s[0]) {
      TrimStartFacts(s[1..]);
    }
  }

  lemma {:induction false} TrimEndFacts(s: string)
    ensures var r := TrimEnd(s);
      && |r| <= |s| && r == s[..|r|]
      && (r == [] || !IsSpace(r[|r| - 1]))
      && (forall i :: |r| <= i < |s| ==> IsSpace(s[i]))
  {
    if |s| > 0 && IsSpace(s[|s| - 1]) {
      TrimEndFacts(s[..|s| - 1]);
    }
  }

  /** `trim()` leaves a slice of its input with no white space at either end. */
  lemma TrimFacts(s: string)
    ensures IsTrimmed(Trim(s)) && |Trim(s)| <= |s|
    ensures forall c :: c in Trim(s) ==> c in s
  {
    var t := TrimStart(s);
    TrimStartFacts(s);
    TrimEndFacts(t);
    assert forall c :: c in t ==> c in s;
  }

  lemma TrimTrimmed(s: string)
    requires IsTrimmed(s)
    ensures Trim(s) == s
  {
  }

  predicate EndsWith(s: string, suffix: string) {
    |suffix| <= |s| && s[|s| - |suffix|..] == suffix
  }

  /** `s.includes(sub)`: `sub` occurs somewhere in `s`. */
  predicate Contains(s: string, sub: string)
    decreases |s|
  {
    sub <= s || (|s| > 0 && Contains(s[1..], sub))
  }

  lemma {:induction false} ContainsAt(s: string, sub: string, i: nat)
    requires i + |sub| <= |s| && s[i..i + |sub|] == sub
    ensures Contains(s, sub)
    decreases i
  {
    if i > 0 {
      assert s[1..][i - 1..i - 1 + |sub|] == sub;
      ContainsAt(s[1..], sub, i - 1);
    }
  }

  /** `s.split(sep)` for a one-character separator: every separator ends one piece. */
  function Split(s: string, sep: char): (r: seq<string>)
    ensures |r| >= 1
    ensures forall k :: 0 <= k < |r| ==> sep !in r[k]
  {
    if s == [] then [[]]
    else
      var rest := Split(s[1..], sep);
      if s[0] == sep then [[]] + rest else [[s[0]] + rest[0]] + rest[1..]
  }

  /** `parts.join(sep)`. */
  function Join(parts: seq<string>, sep: string): string {
    if |parts| == 0 then []
    else if |parts| == 1 then parts[0]
    else parts[0] + sep + Join(parts[1..], sep)
  }

  /** Joining the pieces of a split with the separator gives back the input. */
  lemma {:induction false} SplitJoin(s: string, sep: char)
    ensures Join(Split(s, sep), [sep]) == s
  {
    if s != [] {
      var rest := Split(s[1..], sep);
      SplitJoin(s[1..], sep);
      if s[0] != sep && |rest| > 1 {
        assert Join(rest, [sep]) == rest[0] + [sep] + Join(rest[1..], [sep]);
      }
    }
  }

  lemma {:induction false} SplitNoSep(a: string, sep: char)
    requires sep !in a
    ensures Split(a, sep) == [a]
  {
    if a != [] {
      assert a[0] in a && a == [a[0]] + a[1..];
      SplitNoSep(a[1..], sep);
    }
  }

  lemma {:induction false} SplitConcat(a: string, sep: char, b: string)
    requires sep !in a
    ensures Split(a + [sep] + b, sep) == [a] + Split(b, sep)
  {
    if a != [] {
      assert a[0] in a && a == [a[0]] + a[1..];
      assert (a + [sep] + b)[0] == a[0];
      assert (a + [sep] + b)[1..] == a[1..] + [sep] + b;
      SplitConcat(a[1..], sep, b);
    }
  }

  /** Splitting a join of separator-free pieces gives back the pieces. */
  lemma {:induction false} JoinSplit(parts: seq<string>, sep: char)
    requires |parts| >= 1
    requires forall k :: 0 <= k < |parts| ==> sep !in parts[k]
    ensures Split(Join(parts, [sep]), sep) == parts
  {
    if |parts| == 1 {
      SplitNoSep(parts[0], sep);
    } else {
      JoinSplit(parts[1..], sep);
      SplitConcat(parts[0], sep, Join(parts[1..], [sep]));
    }
  }

  lemma {:induction false} JoinAppend(a: seq<string>, b: seq<string>, sep: string)
    requires |a| >= 1 && |b| >= 1
    ensures Join(a + b, sep) == Join(a, sep) + sep + Join(b, sep)
  {
    if |a| > 1 {
      assert (a + b)[1..] == a[1..] + b;
      JoinAppend(a[1..], b, sep);
    }
  }

  lemma JoinSingle(a: seq<string>, x: string, sep: string)
    requires |a| >= 1
    ensures Join(a + [x], sep) == Join(a, sep) + sep + x
  {
    JoinAppend(a, [x], sep);
  }

  /** The JavaScript split `s.split(/\s+/)`: cuts at every maximal run of white space. */
  function SplitWs(s: string): (r: seq<string>)
    ensures |r| >= 1
    decreases |s|
  {
    var i := FirstSpace(s);
    if i == |s| then [s] else [s[..i]] + SplitWs(s[i + SpaceRun(s[i..])..])
  }

  predicate NoSpace(a: string) {
    forall i :: 0 <= i < |a| ==> !IsSpace(a[i])
  }

  /** A field without white space is not cut before its end. */
  lemma {:induction false} FirstSpaceOfField(a: string, rest: string)
    requires NoSpace(a) && (rest == [] || IsSpace(rest[0]))
    ensures FirstSpace(a + rest) == |a|
  {
    if a == [] {
      assert a + rest == rest;
    } else {
      assert !IsSpace(a[0]);
      assert NoSpace(a[1..]) by {
        forall i | 0 <= i < |a[1..]| ensures !IsSpace(a[1..][i]) {
          assert a[1..][i] == a[i + 1];
        }
      }
      FirstSpaceOfField(a[1..], rest);
      assert (a + rest)[1..] == a[1..] + rest;
    }
  }

  /** A field, one white-space character, then text that starts with none. */
  lemma SplitWsField(a: string, c: char, rest: string)
    requires NoSpace(a) && IsSpace(c) && (rest == [] || !IsSpace(rest[0]))
    ensures SplitWs(a + [c] + rest) == [a] + SplitWs(rest)
  {
    var s := a + [c] + rest;
    FirstSpaceOfField(a, [c] + rest);
    assert s == a + ([c] + rest);
    assert s[|a|..] == [c] + rest;
    assert SpaceRun([c] + rest) == 1 by {
      assert ([c] + rest)[1..] == rest;
    }
    assert s[|a| + 1..] == rest;
  }

  /** Text without white space is one field. */
  lemma SplitWsWhole(a: string)
    requires NoSpace(a)
    ensures SplitWs(a) == [a]
  {
    FirstSpaceOfField(a, "");
    assert a + "" == a;
  }

  /** The index of the first white-space character, or |s| if none. */
  function FirstSpace(s: string): (i: nat)
    ensures i <= |s| && (i < |s| ==> IsSpace(s[i]))
    ensures forall k :: 0 <= k < i ==> !IsSpace(s[k])
  {
    if s == [] then 0 else if IsSpace(s[0]) then 0 else 1 + FirstSpace(s[1..])
  }

  /** The length of the white-space run that starts `s`. */
  function SpaceRun(s: string): (n: nat)
    ensures n <= |s| && (n < |s| ==> !IsSpace(s[n]))
    ensures forall k :: 0 <= k < n ==> IsSpace(s[k])
    ensures |s| > 0 && IsSpace(s[0]) ==> n > 0
  {
    if |s| > 0 && IsSpace(s[0]) then 1 + SpaceRun(s[1..]) else 0
  }

  predicate AllDigits(s: string) {
    forall i :: 0 <= i < |s| ==> IsDigit(s[i])
  }

  function DigitChar(d: nat): (c: char)
    requires d < 10
    ensures IsDigit(c)
  {
    ('0' as int + d) as char
  }

  function DigitValue(c: char): nat
    requires IsHexDigit(c)
  {
    if IsDigit(c) then c as int - '0' as int
    else if 'a' <= c <= 'f' then c as int - 'a' as int + 10
    else c as int - 'A' as int + 10
  }

  /** The value of a run of digits in the given base (the empty run is 0). */
  function DigitsValue(s: string, base: nat): nat
    requires forall i :: 0 <= i < |s| ==> IsHexDigit(s[i])
  {
    if s == [] then 0 else base * DigitsValue(s[..|s| - 1], base) + DigitValue(s[|s| - 1])
  }

  function DecimalValue(s: string): nat
    requires AllDigits(s)
  {
    DigitsValue(s, 10)
  }

  function Pow10(k: nat): (p: nat)
    ensures p >= 1
  {
    if k == 0 then 1 else 10 * Pow10(k - 1)
  }

  /** Decimal rendering of a natural number, as template literals and `str()` print it. */
  function NatToString(n: nat): (r: string)
    ensures |r| >= 1 && AllDigits(r)
  {
    if n < 10 then [DigitChar(n)] else NatToString(n / 10) + [DigitChar(n % 10)]
  }

  function IntToString(i: int): string {
    if i < 0 then "-" + NatToString(-i) else NatToString(i)
  }

  /** Reading back the decimal rendering gives the number. */
  lemma {:induction false} NatToStringValue(n: nat)
    ensures DecimalValue(NatToString(n)) == n
  {
    var s := NatToString(n);
    if n < 10 {
      assert s[..|s| - 1] == [];
    } else {
      assert s[..|s| - 1] == NatToString(n / 10);
      NatToStringValue(n / 10);
    }
    assert DigitValue(s[|s| - 1]) == n % 10;
    assert DecimalValue(s) == 10 * DecimalValue(s[..|s| - 1]) + DigitValue(s[|s| - 1]);
  }

  lemma NatToStringInjective(a: nat, b: nat)
    requires NatToString(a) == NatToString(b)
    ensures a == b
  {
    NatToStringValue(a);
    NatToStringValue(b);
  }

  /** The longest prefix of `s` made of characters satisfying the digit class. */
  function DigitPrefix(s: string): (r: string)
    ensures r <= s && AllDigits(r)
    ensures |r| == |s| || !IsDigit(s[|r|])
  {
    if |s| > 0 && IsDigit(s[0]) then [s[0]] + DigitPrefix(s[1..]) else []
  }

  function HexPrefix(s: string): (r: string)
    ensures r <= s && forall i :: 0 <= i < |r| ==> IsHexDigit(r[i])
  {
    if |s| > 0 && IsHexDigit(s[0]) then [s[0]] + HexPrefix(s[1..]) else []
  }

  lemma {:induction false} DigitPrefixAll(s: string)
    requires AllDigits(s)
    ensures DigitPrefix(s) == s
  {
    if s != [] {
      DigitPrefixAll(s[1..]);
    }
  }

  /** Leading white space and an optional sign, as `parseInt` skips them. */
  function SignAndBody(s: string): (bool, string) {
    var t := TrimStart(s);
    if |t| > 0 && (t[0] == '-' || t[0] == '+') then (t[0] == '-', t[1..]) else (false, t)
  }

  /** `parseInt(s, 10)`: white space, an optional sign, then the longest run of decimal
      digits; None stands for NaN (no digit at all). */
  function ParseInt10(s: string): (r: Option<int>)
    ensures r.None? <==> DigitPrefix(SignAndBody(s).1) == []
  {
    var (neg, body) := SignAndBody(s);
    var ds := DigitPrefix(body);
    if ds == [] then None
    else
      var v: int := DecimalValue(ds);
      Some(if neg then -v else v)
  }

  /** `parseInt(s)` with no radix: as ParseInt10, except that a `0x`/`0X` prefix after
      the sign switches to hexadecimal. */
  function ParseInt(s: string): (r: Option<int>) {
    var (neg, body) := SignAndBody(s);
    if |body| >= 2 && body[0] == '0' && (body[1] == 'x' || body[1] == 'X') then
      var hs := HexPrefix(body[2..]);
      if hs == [] then None
      else
        var v: int := DigitsValue(hs, 16);
        Some(if neg then -v else v)
    else ParseInt10(s)
  }

  lemma SignAndBodyOfDigits(ds: string)
    requires |ds| >= 1 && AllDigits(ds)
    ensures SignAndBody(ds) == (false, ds)
    ensures SignAndBody("-" + ds) == (true, ds)
  {
    assert !IsSpace(ds[0]);
    assert ("-" + ds)[1..] == ds;
  }

  lemma ParseIntDigits(s: string, neg: bool, ds: string)
    requires |ds| >= 1 && AllDigits(ds) && SignAndBody(s) == (neg, ds)
    ensures var v: int := DecimalValue(ds);
      ParseInt10(s) == Some(if neg then -v else v) && ParseInt(s) == Some(if neg then -v else v)
  {
    DigitPrefixAll(ds);
    assert !(|ds| >= 2 && ds[0] == '0' && (ds[1] == 'x' || ds[1] == 'X')) by {
      if |ds| >= 2 {
        assert IsDigit(ds[1]);
      }
    }
  }

  /** `parseInt` reads back what `String(n)` writes, for every integer. */
  lemma ParseIntToString(i: int)
    ensures ParseInt10(IntToString(i)) == Some(i)
    ensures ParseInt(IntToString(i)) == Some(i)
  {
    var n: nat := if i < 0 then -i else i;
    var ds := NatToString(n);
    NatToStringValue(n);
    SignAndBodyOfDigits(ds);
    ParseIntDigits(IntToString(i), i < 0, ds);
  }

  /** `Math.round` on a rational: the nearest integer, halves rounded up. */
  function Round(x: real): int {
    (x + 0.5).Floor
  }

  // ---- distinct sequences ----

  /** No value occurs twice. */
  predicate Distinct(ids: seq<string>) {
    forall a, b :: 0 <= a < b < |ids| ==> ids[a] != ids[b]
  }

  /** Appending keeps a sequence distinct exactly when the new value is new. */
  lemma DistinctSnoc(ids: seq<string>, x: string)
    ensures Distinct(ids + [x]) <==> Distinct(ids) && x !in ids
  {
    var s := ids + [x];
    if Distinct(ids) && x !in ids {
      forall a, b | 0 <= a < b < |s| ensures s[a] != s[b] {
        if b == |ids| {
          assert s[a] == ids[a];
        }
      }
    }
    if Distinct(s) {
      forall a, b | 0 <= a < b < |ids| ensures ids[a] != ids[b] {
        assert s[a] == ids[a] && s[b] == ids[b];
      }
      forall k | 0 <= k < |ids| ensures ids[k] != x {
        assert s[k] == ids[k] && s[|ids|] == x;
      }
    }
  }

  lemma {:induction false} DistinctCount(ss: seq<string>, x: string)
    requires Distinct(ss)
    ensures multiset(ss)[x] <= 1
  {
    if ss != [] {
      var init := ss[..|ss| - 1];
      assert ss == init + [ss[|ss| - 1]];
      DistinctSnoc(init, ss[|ss| - 1]);
      DistinctCount(init, x);
    }
  }

  lemma {:induction false} ConstantCount(ss: seq<string>, v: string)
    requires forall k :: 0 <= k < |ss| ==> ss[k] == v
    ensures multiset(ss)[v] == |ss|
  {
    if ss != [] {
      var init := ss[..|ss| - 1];
      assert ss == init + [ss[|ss| - 1]];
      ConstantCount(init, v);
    }
  }

  /** A distinct sequence holding a single value has at most one element. */
  lemma DistinctConstant(ss: seq<string>, v: string)
    requires Distinct(ss) && forall k :: 0 <= k < |ss| ==> ss[k] == v
    ensures |ss| <= 1
  {
    DistinctCount(ss, v);
    ConstantCount(ss, v);
  }
}
