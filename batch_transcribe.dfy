/** The pieces of the Whisper batch worker that decide things: how subtitle
    timestamps are printed, where a transcript goes when one already exists,
    when a job counts as cancelled, which model a job uses, and which files in
    the watch folder a polling pass submits. The file system is a set of
    existing paths that the operations read and delete from. */
module BatchTranscribe {
  import opened Wrappers
  import opened Strings
  import opened Paths

  // ---- timestamps ----

  /** `f"{n:0w}"`: at least `w` digits, zero-padded on the left. */
  function Pad(n: nat, w: nat): (r: string)
    ensures AllDigits(r) && DecimalValue(r) == n
    ensures |r| == if |NatToString(n)| < w then w else |NatToString(n)|
  {
    var d := NatToString(n);
    NatToStringValue(n);
    ZerosValue(if |d| < w then w - |d| else 0, d);
    if |d| < w then Zeros(w - |d|) + d else d
  }

  function Zeros(k: nat): (r: string)
    ensures |r| == k && AllDigits(r)
  {
    if k == 0 then [] else "0" + Zeros(k - 1)
  }

  /** Leading zeros do not change a decimal value. */
  lemma {:induction false} ZerosValue(k: nat, d: string)
    requires AllDigits(d)
    ensures DecimalValue(Zeros(k) + d) == DecimalValue(d)
    decreases k
  {
    if k > 0 {
      ZerosValue(k - 1, d);
      LeadingZero(Zeros(k - 1) + d);
      assert Zeros(k) + d == "0" + (Zeros(k - 1) + d);
    } else {
      assert Zeros(k) + d == d;
    }
  }

  lemma {:induction false} LeadingZero(s: string)
    requires AllDigits(s)
    ensures DecimalValue("0" + s) == DecimalValue(s)
    decreases |s|
  {
    if s != [] {
      var t := "0" + s;
      assert t[..|t| - 1] == "0" + s[..|s| - 1];
      LeadingZero(s[..|s| - 1]);
    } else {
      assert ("0" + s)[..0] == [];
    }
  }

  /** `HH:MM:SS,mmm`. */
  function Timestamp(h: nat, m: nat, s: nat, ms: nat): string {
    Pad(h, 2) + Clock(m, s, ms)
  }

  /** The `:MM:SS,mmm` part. */
  function Clock(m: nat, s: nat, ms: nat): string {
    ":" + Pad(m, 2) + ":" + Pad(s, 2) + "," + Pad(ms, 3)
  }

  /** `format_timestamp`, given the offset in microseconds (the resolution of
      the `timedelta` it builds): whole seconds split into hours, minutes and
      seconds, and the milliseconds of the fraction. */
  function FormatTimestamp(micros: nat): string {
    var total := micros / 1000000;
    Timestamp(total / 3600, total % 3600 / 60, total % 60, micros % 1000000 / 1000)
  }

  /** The printed fields are the unique split of the offset: minutes and
      seconds below 60, milliseconds below 1000, and hours that keep counting
      past 24. */
  lemma FormatTimestampFields(micros: nat, h: nat, m: nat, s: nat, ms: nat)
    requires m < 60 && s < 60 && ms < 1000
    requires micros / 1000 == ((h * 60 + m) * 60 + s) * 1000 + ms
    ensures FormatTimestamp(micros) == Timestamp(h, m, s, ms)
  {
    var t := (h * 60 + m) * 60 + s;
    var q := micros / 1000;
    var total := micros / 1000000;
    assert total == q / 1000;
    assert q / 1000 == t && q % 1000 == ms;
    assert micros % 1000000 / 1000 == ms;
    assert t / 3600 == h && t % 3600 / 60 == m && t % 60 == s;
  }

  /** The fields read back from the printed timestamp: the last twelve
      characters are `:MM:SS,mmm` after the hours. */
  lemma TimestampReads(h: nat, m: nat, s: nat, ms: nat)
    requires m < 60 && s < 60 && ms < 1000
    ensures var t := Timestamp(h, m, s, ms); var n := |t|;
      && n >= 12 && t[n - 10] == ':' && t[n - 7] == ':' && t[n - 4] == ','
      && t[..n - 10] == Pad(h, 2) && t[n - 9..n - 7] == Pad(m, 2)
      && t[n - 6..n - 4] == Pad(s, 2) && t[n - 3..] == Pad(ms, 3)
      && DecimalValue(t[..n - 10]) == h && |t[..n - 10]| >= 2
      && DecimalValue(t[n - 9..n - 7]) == m && DecimalValue(t[n - 6..n - 4]) == s
      && DecimalValue(t[n - 3..]) == ms
  {
    PadWidth(m, 2);
    PadWidth(s, 2);
    PadWidth(ms, 3);
    Fields(Pad(h, 2), Pad(m, 2), Pad(s, 2), Pad(ms, 3));
  }

  /** Where the fields sit in `a:b:c,d` when the last three have their
      fixed widths. */
  lemma Fields(a: string, b: string, c: string, d: string)
    requires |b| == 2 && |c| == 2 && |d| == 3
    ensures var t := a + (":" + b + ":" + c + "," + d); var n := |t|;
      && n == |a| + 10 && t[n - 10] == ':' && t[n - 7] == ':' && t[n - 4] == ','
      && t[..n - 10] == a && t[n - 9..n - 7] == b && t[n - 6..n - 4] == c && t[n - 3..] == d
  {
    var r := ":" + b + ":" + c + "," + d;
    var t := a + r;
    assert t[|a|..] == r;
    assert r[1..3] == b && r[4..6] == c && r[7..] == d;
  }

  /** A value with at most `w` digits is padded to exactly `w`. */
  lemma PadWidth(n: nat, w: nat)
    requires w >= 1 && n < Pow10(w)
    ensures |Pad(n, w)| == w
  {
    NatToStringLength(n, w);
  }

  lemma {:induction false} NatToStringLength(n: nat, w: nat)
    requires w >= 1 && n < Pow10(w)
    ensures |NatToString(n)| <= w
    decreases w
  {
    if n >= 10 {
      assert w >= 2;
      assert n / 10 < Pow10(w - 1);
      NatToStringLength(n / 10, w - 1);
    }
  }

  // ---- paths ----

  /** `os.path.splitext`: the extension starts at the last '.' of the last
      segment, unless only dots precede it in that segment. */
  function Splitext(p: string): (r: (string, string))
    ensures r.0 + r.1 == p
    ensures r.1 == "" || r.1[0] == '.'
    ensures '/' !in r.1 && (r.1 != "" ==> '.' !in r.1[1..])
    ensures r.1 != "" <==> exists j, k :: SegmentStart(p) <= j < k < |p| && p[j] != '.' && p[k] == '.'
  {
    var start := SegmentStart(p);
    var dot := LastDot(p);
    if dot >= start && exists j :: start <= j < dot && p[j] != '.' then (p[..dot], p[dot..])
    else (p, "")
  }

  /** `f"{base}_v{version}{ext}"`. */
  function Versioned(p: string, version: nat): string {
    var (base, ext) := Splitext(p);
    base + "_v" + NatToString(version) + ext
  }

  /** Different version numbers give different names. */
  lemma VersionedInjective(p: string, a: nat, b: nat)
    requires Versioned(p, a) == Versioned(p, b)
    ensures a == b
  {
    var (base, ext) := Splitext(p);
    var x := base + "_v";
    var da, db := NatToString(a), NatToString(b);
    assert Versioned(p, a) == x + da + ext && Versioned(p, b) == x + db + ext;
    assert |da| == |db|;
    assert da == (x + da + ext)[|x|..|x| + |da|];
    assert db == (x + db + ext)[|x|..|x| + |db|];
    NatToStringInjective(a, b);
  }

  // ---- the model sidecar ----

  /** The JSON values a sidecar can hold. */
  datatype Json = Null | Bool(b: bool) | Num(n: int) | Str(s: string) | Arr(items: seq<Json>) | Obj(fields: map<string, Json>)

  /** Python's truth value of the decoded value. */
  predicate Truthy(j: Json) {
    match j
    case Null => false
    case Bool(b) => b
    case Num(n) => n != 0
    case Str(s) => s != ""
    case Arr(items) => items != []
    case Obj(fields) => |fields| != 0
  }

  /** Lists and dicts cannot be dictionary keys. */
  predicate Hashable(j: Json) {
    !j.Arr? && !j.Obj?
  }

  /** `MODEL_MAP`. */
  function ModelMap(preset: string): (r: Option<string>)
    ensures r.Some? <==> preset in {"turbo", "fast", "balanced", "quality"}
  {
    if preset == "turbo" then Some("large-v3-turbo")
    else if preset == "fast" then Some("base")
    else if preset == "balanced" then Some("medium")
    else if preset == "quality" then Some("large-v3")
    else None
  }

  /** `dict.get(key, default)`. */
  function Lookup(fields: map<string, Json>, key: string, default: Json): Json {
    if key in fields then fields[key] else default
  }

  /** What a decoded sidecar names as the model: `whisperModel`, else the
      preset's entry (the preset defaulting to "quality"), else "large-v3".
      A value that is not an object, or a preset that is a list or an object,
      raises and gives None; the preset's lookup is made even when
      `whisperModel` is present. */
  function SidecarModel(data: Json): (r: Option<Json>)
    ensures !data.Obj? ==> r.None?
    ensures data.Obj? && "preset" in data.fields && !Hashable(data.fields["preset"]) ==> r.None?
    ensures data.Obj? && "preset" !in data.fields ==>
      r == Some(Lookup(data.fields, "whisperModel", Str("large-v3")))
    ensures data.Obj? && "preset" in data.fields && Hashable(data.fields["preset"]) ==>
      r.Some? && ("whisperModel" in data.fields ==> r.value == data.fields["whisperModel"])
    ensures data.Obj? && "whisperModel" !in data.fields && "preset" in data.fields && data.fields["preset"].Str? ==>
      var p := data.fields["preset"].s;
      r == Some(Str(if ModelMap(p).Some? then ModelMap(p).value else "large-v3"))
  {
    if !data.Obj? then None
    else
      var preset := Lookup(data.fields, "preset", Str("quality"));
      if !Hashable(preset) then None
      else
        var mapped := if preset.Str? && ModelMap(preset.s).Some? then ModelMap(preset.s).value else "large-v3";
        Some(Lookup(data.fields, "whisperModel", Str(mapped)))
  }

  /** `read_model_sidecar(input) or fallback`: a missing, unreadable or
      falsy sidecar model gives the fallback. */
  function ChooseModel(sidecar: Option<Json>, fallback: string): (r: Json)
    ensures sidecar.None? ==> r == Str(fallback)
    ensures sidecar.Some? && Truthy(sidecar.value) ==> r == sidecar.value
    ensures sidecar.Some? && !Truthy(sidecar.value) ==> r == Str(fallback)
  {
    if sidecar.Some? && Truthy(sidecar.value) then sidecar.value else Str(fallback)
  }

  /** A sidecar with only a known preset picks that preset's model; one
      with neither field picks "large-v3" (the model of "quality"). */
  lemma PresetModels(p: string)
    ensures var r := SidecarModel(Obj(map["preset" := Str(p)]));
      ModelMap(p).Some? ==> r == Some(Str(ModelMap(p).value))
    ensures SidecarModel(Obj(map[])) == Some(Str("large-v3")) && ModelMap("quality") == Some("large-v3")
  {
    var f := map["preset" := Str(p)];
    assert "whisperModel" !in f;
  }

  // ---- model choice on the command line ----

  /** The interactive menu's table; anything else picks entry "4". */
  function MenuModel(choice: string): (r: (string, string))
    ensures choice !in {"1", "2", "3", "4"} ==> r == ("large-v3", "AUTO")
  {
    if choice == "1" then ("large-v3-turbo", "TURBO")
    else if choice == "2" then ("large-v3", "LARGE")
    else if choice == "3" then ("medium", "MEDIUM")
    else ("large-v3", "AUTO")
  }

  /** The command-line table: the menu's digits plus a word for each; an
      unrecognised argument picks entry "4". */
  function ArgModel(arg: string): (r: (string, string))
    ensures arg !in {"1", "2", "3", "4", "turbo", "large", "medium", "auto"} ==> r == ("large-v3", "AUTO")
  {
    if arg == "1" || arg == "turbo" then ("large-v3-turbo", "TURBO")
    else if arg == "2" || arg == "large" then ("large-v3", "LARGE")
    else if arg == "3" || arg == "medium" then ("medium", "MEDIUM")
    else ("large-v3", "AUTO")
  }

  /** Each word is an alias of its digit, and apart from the words the
      command line picks what the menu picks. */
  lemma ArgMatchesMenu(arg: string)
    ensures arg !in {"turbo", "large", "medium", "auto"} ==> ArgModel(arg) == MenuModel(arg)
    ensures ArgModel("turbo") == ArgModel("1") && ArgModel("large") == ArgModel("2")
    ensures ArgModel("medium") == ArgModel("3") && ArgModel("auto") == ArgModel("4")
  {
  }

  // ---- the file system ----

  const WatchFolder := "/Volumes/ME Backup02/BryTranscribe"

  const MediaExts: set<string> := {".mp4", ".mov", ".mkv", ".avi", ".mp3", ".wav", ".m4a"}

  /** `Path(name).suffix` of a directory entry: from the last '.', when that
      dot is neither the first nor the last character. */
  function PySuffix(name: string): (r: string)
    ensures r == "" || (r[0] == '.' && |r| >= 2)
    ensures r == "" <==> !(0 < LastDot(name) < |name| - 1)
    ensures r != "" ==> '.' !in r[1..] && EndsWith(name, r)
  {
    var i := LastDot(name);
    if 0 < i < |name| - 1 then name[i..] else ""
  }

  predicate IsMediaName(name: string) {
    Lower(PySuffix(name)) in MediaExts
  }

  function Full(name: string): string {
    JoinPath(WatchFolder, name)
  }

  function Cancel(name: string): string {
    Full(name) + ".cancel"
  }

  /** The paths that exist. */
  class Volume {
    var files: set<string>

    constructor(files0: set<string>)
      ensures files == files0
    {
      files := files0;
    }

    /** `check_cancelled`: a cancel marker is consumed and cancels; an input
        that is gone cancels too. */
    method CheckCancelled(input: string) returns (cancelled: bool)
      modifies this
      ensures cancelled <==> (input + ".cancel" in old(files) || input !in old(files))
      ensures files == old(files) - {input + ".cancel"}
    {
      var cancelPath := input + ".cancel";
      if cancelPath in files {
        files := files - {cancelPath};
        return true;
      }
      if input !in files {
        return true;
      }
      return false;
    }

    /** `read_model_sidecar`, given what decoding the sidecar gives (None
        when it cannot be read or is not JSON). A decoded sidecar is deleted
        before its fields are looked at. */
    method ReadModelSidecar(input: string, decoded: Option<Json>) returns (model: Option<Json>)
      modifies this
      ensures input + ".model" !in old(files) || decoded.None? ==> model.None? && files == old(files)
      ensures input + ".model" in old(files) && decoded.Some? ==>
        model == SidecarModel(decoded.value) && files == old(files) - {input + ".model"}
    {
      var sidecarPath := input + ".model";
      if sidecarPath !in files || decoded.None? {
        return None;
      }
      files := files - {sidecarPath};
      model := SidecarModel(decoded.value);
    }

    /** `get_versioned_path`: the path itself when it is free, otherwise
        `base_vN.ext` for the least N from 2 up that is free. */
    method VersionedPath(p: string) returns (r: string)
      ensures r !in files
      ensures p !in files ==> r == p
      ensures p in files ==> exists n: nat :: (n >= 2 && r == Versioned(p, n) &&
        forall v: nat :: 2 <= v < n ==> Versioned(p, v) in files)
    {
      if p !in files {
        return p;
      }
      var version: nat := 2;
      ghost var tried: set<string> := {};
      while Versioned(p, version) in files
        invariant version >= 2
        invariant tried == set v: nat | 2 <= v < version :: Versioned(p, v)
        invariant tried <= files
        decreases files - tried
      {
        if Versioned(p, version) in tried {
          var v: nat :| 2 <= v < version && Versioned(p, v) == Versioned(p, version);
          VersionedInjective(p, v, version);
          assert false;
        }
        tried := tried + {Versioned(p, version)};
        version := version + 1;
      }
      r := Versioned(p, version);
      assert forall v: nat :: 2 <= v < version ==> Versioned(p, v) in tried;
    }
  }

  // ---- the watcher ----

  /** The media entries of a listing, in listing order. */
  function Eligible(listing: seq<string>): (r: seq<string>)
    ensures forall k :: 0 <= k < |r| ==> IsMediaName(r[k])
    ensures forall x :: x in r <==> x in listing && IsMediaName(x)
  {
    if listing == [] then []
    else (if IsMediaName(listing[0]) then [listing[0]] else []) + Eligible(listing[1..])
  }

  lemma {:induction false} EligibleDistinct(listing: seq<string>)
    requires Distinct(listing)
    ensures Distinct(Eligible(listing))
  {
    if listing != [] {
      var rest := listing[1..];
      assert Distinct(rest) by {
        forall a, b | 0 <= a < b < |rest| ensures rest[a] != rest[b] {
          assert rest[a] == listing[a + 1] && rest[b] == listing[b + 1];
        }
      }
      EligibleDistinct(rest);
      assert listing[0] !in rest by {
        forall k | 0 <= k < |rest| ensures rest[k] != listing[0] {
          assert rest[k] == listing[k + 1];
        }
      }
      var e := Eligible(rest);
      if IsMediaName(listing[0]) {
        assert listing[0] !in e;
        DistinctCons(listing[0], e);
        assert Eligible(listing) == [listing[0]] + e;
      } else {
        assert Eligible(listing) == e;
      }
    }
  }

  lemma DistinctCons(x: string, e: seq<string>)
    requires Distinct(e) && x !in e
    ensures Distinct([x] + e)
  {
    var s := [x] + e;
    forall a, b | 0 <= a < b < |s| ensures s[a] != s[b] {
      assert s[b] == e[b - 1];
      if a > 0 {
        assert s[a] == e[a - 1];
      }
    }
  }

  /** The watcher's variables during one pass. */
  datatype Pass = Pass(active: set<string>, files: set<string>, submitted: seq<string>)

  /** One eligible entry: skipped while active; a cancel marker deletes the
      marker and the file; otherwise a non-empty file (by `getsize`, whose
      failure skips it) is marked active and submitted. */
  function Admit(st: Pass, name: string, sizes: map<string, nat>): Pass {
    if name in st.active then st
    else if Cancel(name) in st.files then st.(files := st.files - {Cancel(name), Full(name)})
    else if Full(name) in sizes && sizes[Full(name)] > 0 then
      st.(active := st.active + {name}, submitted := st.submitted + [name])
    else st
  }

  function AdmitAll(st: Pass, names: seq<string>, sizes: map<string, nat>): Pass
    decreases |names|
  {
    if names == [] then st else AdmitAll(Admit(st, names[0], sizes), names[1..], sizes)
  }

  /** The conditions for a file to be submitted, read in the state before
      the pass. */
  predicate Admissible(name: string, active: set<string>, files: set<string>, sizes: map<string, nat>) {
    name !in active && Cancel(name) !in files && Full(name) in sizes && sizes[Full(name)] > 0
  }

  class Watcher {
    var active: set<string>

    constructor()
      ensures active == {}
    {
      active := {};
    }

    /** One polling pass over a listing of the watch folder; `sizes` holds
        what `getsize` reports for each path it can read, and `submitted`
        lists the files handed to the executor, in order. */
    method Poll(vol: Volume, listing: seq<string>, sizes: map<string, nat>) returns (submitted: seq<string>)
      modifies this, vol
      ensures Pass(active, vol.files, submitted) ==
        AdmitAll(Pass(old(active), old(vol.files), []), Eligible(listing), sizes)
    {
      var eligible := Eligible(listing);
      submitted := [];
      var i := 0;
      while i < |eligible|
        invariant 0 <= i <= |eligible|
        invariant AdmitAll(Pass(active, vol.files, submitted), eligible[i..], sizes) ==
          AdmitAll(Pass(old(active), old(vol.files), []), eligible, sizes)
      {
        assert eligible[i..][1..] == eligible[i + 1..];
        var filename := eligible[i];
        var fullPath := Full(filename);
        if filename !in active {
          var cancelPath := fullPath + ".cancel";
          if cancelPath in vol.files {
            vol.files := vol.files - {cancelPath, fullPath};
          } else if fullPath in sizes && sizes[fullPath] > 0 {
            active := active + {filename};
            submitted := submitted + [filename];
          }
        }
        i := i + 1;
      }
    }

    /** The done-callback: a finished job leaves the active set. */
    method Done(name: string)
      modifies this
      ensures active == old(active) - {name}
    {
      active := active - {name};
    }
  }

  // ---- properties of a pass ----

  /** A marker's name is never a media name. */
  lemma CancelNotMedia(name: string)
    ensures !IsMediaName(name + ".cancel")
  {
    var s := name + ".cancel";
    var i := LastDot(s);
    assert s[|name|] == '.';
    assert i >= |name|;
    forall j | |name| < j < |s| ensures s[j] != '.' {
      assert s[j] == ".cancel"[j - |name|];
    }
    assert i == |name|;
    var suffix := PySuffix(s);
    assert suffix == "" || |suffix| == 7;
    assert |Lower(suffix)| == |suffix|;
  }

  lemma SameHead(x: string, y: string, tail: string)
    requires x + tail == y + tail
    ensures x == y
  {
    assert x == (x + tail)[..|x|];
    assert y == (y + tail)[..|y|];
  }

  lemma SameTail(a: string, x: string, y: string)
    requires a + x == a + y
    ensures x == y
  {
    assert x == (a + x)[|a|..];
    assert y == (a + y)[|a|..];
  }

  /** The marker of one entry is neither another entry's marker nor, for a
      media entry, that entry's path. */
  lemma CancelDistinct(f: string, g: string)
    requires f != g && IsMediaName(g)
    ensures Cancel(f) != Cancel(g) && Cancel(f) != Full(g)
  {
    var root := WatchFolder + "/";
    assert Cancel(f) == root + (f + ".cancel") && Cancel(g) == root + (g + ".cancel") && Full(g) == root + g;
    if Cancel(f) == Cancel(g) {
      SameTail(root, f + ".cancel", g + ".cancel");
      SameHead(f, g, ".cancel");
    }
    if Cancel(f) == Full(g) {
      SameTail(root, f + ".cancel", g);
      CancelNotMedia(f);
    }
  }

  /** Admitting one media name leaves every other media name's standing as
      it was. */
  lemma AdmitOthers(st: Pass, g: string, f: string, sizes: map<string, nat>)
    requires f != g && IsMediaName(g)
    ensures var st1 := Admit(st, g, sizes);
      && (Admissible(f, st1.active, st1.files, sizes) <==> Admissible(f, st.active, st.files, sizes))
      && (f in st1.submitted <==> f in st.submitted)
      && (f in st1.active <==> f in st.active)
  {
    CancelDistinct(f, g);
  }

  /** Over a pass, a name ends up submitted exactly when it already was, or
      it is one of the pass's names and was admissible at the start. */
  lemma {:induction false} AdmitAllMembers(st: Pass, names: seq<string>, sizes: map<string, nat>, f: string)
    requires Distinct(names) && forall k :: 0 <= k < |names| ==> IsMediaName(names[k])
    ensures (f in AdmitAll(st, names, sizes).submitted) <==>
      (f in st.submitted || (f in names && Admissible(f, st.active, st.files, sizes)))
    decreases |names|
  {
    if names != [] {
      var g := names[0];
      var rest := names[1..];
      var st1 := Admit(st, g, sizes);
      assert Distinct(rest) by {
        forall a, b | 0 <= a < b < |rest| ensures rest[a] != rest[b] {
          assert rest[a] == names[a + 1] && rest[b] == names[b + 1];
        }
      }
      assert forall k :: 0 <= k < |rest| ==> IsMediaName(rest[k]) by {
        forall k | 0 <= k < |rest| ensures IsMediaName(rest[k]) {
          assert rest[k] == names[k + 1];
        }
      }
      AdmitAllMembers(st1, rest, sizes, f);
      assert f in names <==> f == g || f in rest;
      if f == g {
        assert f !in rest by {
          forall k | 0 <= k < |rest| ensures rest[k] != g {
            assert rest[k] == names[k + 1];
          }
        }
      } else {
        AdmitOthers(st, g, f, sizes);
      }
    }
  }

  /** The watcher submits a file in a pass exactly when it is in the listing,
      has a media suffix, is not active, has no cancel marker and is not
      empty. */
  lemma PollAdmission(active: set<string>, files: set<string>, listing: seq<string>, sizes: map<string, nat>, f: string)
    requires Distinct(listing)
    ensures (f in AdmitAll(Pass(active, files, []), Eligible(listing), sizes).submitted) <==>
      (f in listing && IsMediaName(f) && Admissible(f, active, files, sizes))
  {
    EligibleDistinct(listing);
    AdmitAllMembers(Pass(active, files, []), Eligible(listing), sizes, f);
  }

  /** A pass only deletes, and never submits a file twice or one that was
      already active; the active set grows by exactly what it submits. */
  lemma {:induction false} AdmitAllKeeps(active0: set<string>, st: Pass, names: seq<string>, sizes: map<string, nat>)
    requires Distinct(st.submitted)
    requires forall x :: x in st.submitted ==> x !in active0
    requires forall x :: x in st.active <==> x in active0 || x in st.submitted
    ensures var r := AdmitAll(st, names, sizes);
      && r.files <= st.files
      && Distinct(r.submitted)
      && (forall x :: x in r.submitted ==> x !in active0)
      && (forall x :: x in r.active <==> x in active0 || x in r.submitted)
    decreases |names|
  {
    if names != [] {
      var st1 := Admit(st, names[0], sizes);
      if st1.submitted != st.submitted {
        DistinctSnoc(st.submitted, names[0]);
      }
      AdmitAllKeeps(active0, st1, names[1..], sizes);
    }
  }

  /** A media file with a cancel marker that is not active loses both the
      marker and itself in the pass. */
  lemma {:induction false} CancelledRemoved(st: Pass, names: seq<string>, sizes: map<string, nat>, f: string)
    requires f in names && f !in st.active && Cancel(f) in st.files
    requires Distinct(names) && forall k :: 0 <= k < |names| ==> IsMediaName(names[k])
    ensures var r := AdmitAll(st, names, sizes); Cancel(f) !in r.files && Full(f) !in r.files
    decreases |names|
  {
    var g := names[0];
    var rest := names[1..];
    var st1 := Admit(st, g, sizes);
    if f == g {
      AdmitAllKeeps(st1.active, st1.(submitted := []), rest, sizes);
      AdmitAllFiles(st1, rest, sizes);
    } else {
      AdmitOthers(st, g, f, sizes);
      CancelDistinct(f, g);
      assert Cancel(f) in st1.files;
      assert f in rest;
      assert Distinct(rest) by {
        forall a, b | 0 <= a < b < |rest| ensures rest[a] != rest[b] {
          assert rest[a] == names[a + 1] && rest[b] == names[b + 1];
        }
      }
      assert forall k :: 0 <= k < |rest| ==> IsMediaName(rest[k]) by {
        forall k | 0 <= k < |rest| ensures IsMediaName(rest[k]) {
          assert rest[k] == names[k + 1];
        }
      }
      CancelledRemoved(st1, rest, sizes, f);
    }
  }

  /** A pass never adds a path. */
  lemma {:induction false} AdmitAllFiles(st: Pass, names: seq<string>, sizes: map<string, nat>)
    ensures AdmitAll(st, names, sizes).files <= st.files
    decreases |names|
  {
    if names != [] {
      AdmitAllFiles(Admit(st, names[0], sizes), names[1..], sizes);
    }
  }
}
