/** The file endpoint of the file browser: the content type from the
    extension, a forced download with `dl=1`, and byte ranges for audio and
    video. The range arithmetic is a subset of the byte-range form of section
    2.1 of RFC 7233 (no suffix ranges, no validation) with the Content-Range
    header of section 4.2. */
module FilesServe {
  import opened Wrappers
  import opened Strings
  import opened Paths

  const DumpDir: string := "/Volumes/ME Backup02/_Dump"
  const OctetStream: string := "application/octet-stream"

  /** The largest chunk an open-ended range is answered with: 5 MiB. */
  const ChunkLimit: nat := 5 * 1024 * 1024

  /** The `MIME_TYPES` table. */
  function MimeFor(ext: string): Option<string> {
    if ext == ".mp4" then Some("video/mp4")
    else if ext == ".mkv" then Some("video/x-matroska")
    else if ext == ".webm" then Some("video/webm")
    else if ext == ".mov" then Some("video/quicktime")
    else if ext == ".wav" then Some("audio/wav")
    else if ext == ".mp3" then Some("audio/mpeg")
    else if ext == ".webp" then Some("image/webp")
    else if ext == ".jpg" || ext == ".jpeg" then Some("image/jpeg")
    else if ext == ".png" then Some("image/png")
    else if ext == ".gif" then Some("image/gif")
    else if ext == ".srt" || ext == ".txt" || ext == ".description" then Some("text/plain; charset=utf-8")
    else if ext == ".json" then Some("application/json")
    else None
  }

  /** The type for a file name: by its lowercased extension, octet-stream otherwise. */
  function MimeOf(file: string): (m: string)
    ensures MimeFor(Lower(Extname(file))).Some? ==> m == MimeFor(Lower(Extname(file))).value
    ensures MimeFor(Lower(Extname(file))).None? ==> m == OctetStream
  {
    MimeFor(Lower(Extname(file))).GetOr(OctetStream)
  }

  /** Range requests are honoured for these types only. */
  predicate Streamable(mime: string) {
    StartsWith(mime, "video/") || StartsWith(mime, "audio/")
  }

  predicate IsText(mime: string) {
    StartsWith(mime, "text/") || mime == "application/json"
  }

  /** Exactly the four video and two audio extensions of the table stream. */
  lemma StreamableExtensions(ext: string)
    ensures Streamable(MimeFor(ext).GetOr(OctetStream)) <==> ext in {".mp4", ".mkv", ".webm", ".mov", ".wav", ".mp3"}
  {
    var m := MimeFor(ext).GetOr(OctetStream);
    if ext !in {".mp4", ".mkv", ".webm", ".mov", ".wav", ".mp3"} {
      assert m in {"image/webp", "image/jpeg", "image/png", "image/gif", "text/plain; charset=utf-8",
                   "application/json", OctetStream};
      assert m[0] in {'i', 't', 'a'} && (m[0] == 'a' ==> m[1] == 'p');
    }
  }

  /** `w` occurs in `s` at index `j`. */
  predicate OccursAt(s: string, w: string, j: int) {
    0 <= j && j + |w| <= |s| && s[j..j + |w|] == w
  }

  /** The first index at or after `from` where `w` occurs, or -1. */
  function IndexOf(s: string, w: string, from: nat): (i: int)
    ensures i == -1 || (from <= i && OccursAt(s, w, i))
    ensures forall j :: from <= j < (if i == -1 then |s| else i) ==> !OccursAt(s, w, j)
    decreases |s| - from
  {
    if from + |w| > |s| then -1
    else if s[from..from + |w|] == w then from
    else
      assert !OccursAt(s, w, from);
      IndexOf(s, w, from + 1)
  }

  /** `s.replace(/bytes=/, '')`: the first occurrence removed. */
  function RemoveFirst(s: string, w: string): string {
    var i := IndexOf(s, w, 0);
    if i < 0 then s else s[..i] + s[i + |w|..]
  }

  /** The start and end the route reads from a Range header for a file of
      `size` bytes: the part before the first '-' is the start; the part after it
      is the end when it is non-empty, and otherwise the end is at most
      `ChunkLimit - 1` bytes past the start and at most the last byte. None where
      `parseInt` gives NaN. */
  function ParseRange(header: string, size: nat): (r: Option<(int, int)>)
    ensures r.Some? ==> var parts := Split(RemoveFirst(header, "bytes="), '-');
      && ParseInt10(parts[0]) == Some(r.value.0)
      && (if |parts| > 1 && parts[1] != "" then ParseInt10(parts[1]) == Some(r.value.1)
          else r.value.1 == Min(r.value.0 + ChunkLimit - 1, size - 1))
  {
    var parts := Split(RemoveFirst(header, "bytes="), '-');
    var start := ParseInt10(parts[0]);
    if start.None? then None
    else if |parts| > 1 && parts[1] != "" then
      var end := ParseInt10(parts[1]);
      if end.None? then None else Some((start.value, end.value))
    else Some((start.value, Min(start.value + ChunkLimit - 1, size - 1)))
  }

  function Min(a: int, b: int): int {
    if a <= b then a else b
  }

  /** What `existsSync` and `statSync` report for the requested path. */
  datatype Target = Missing | RegularFile(size: nat) | Directory

  datatype ServeReply =
    | Refused(status: nat, error: string)
    | Attachment(size: nat, filename: string)
    | Partial(contentRange: string, length: nat, contentType: string)
    | TextBody(contentType: string)
    | Whole(contentType: string, length: nat)

  /** The Content-Range value of section 4.2 of RFC 7233. */
  function ContentRange(start: int, end: int, size: nat): string {
    "bytes " + IntToString(start) + "-" + IntToString(end) + "/" + NatToString(size)
  }

  /** The characters `encodeURIComponent` leaves as they are. */
  predicate Unreserved(c: char) {
    ('A' <= c <= 'Z') || ('a' <= c <= 'z') || ('0' <= c <= '9') ||
    c == '-' || c == '_' || c == '.' || c == '!' || c == '~' || c == '*' || c == '\'' || c == '(' || c == ')'
  }

  /** The UTF-8 bytes of one character (a Unicode scalar value). */
  function Utf8(c: char): (bs: seq<nat>)
    ensures 1 <= |bs| <= 4
    ensures forall k :: 0 <= k < |bs| ==> bs[k] < 256
    ensures (c as int < 0x80) <==> |bs| == 1
    ensures |bs| == 1 ==> bs[0] == c as int
  {
    var n := c as int;
    if n < 0x80 then [n]
    else if n < 0x800 then [0xC0 + n / 0x40, 0x80 + n % 0x40]
    else if n < 0x1_0000 then [0xE0 + n / 0x1000, 0x80 + (n / 0x40) % 0x40, 0x80 + n % 0x40]
    else [0xF0 + n / 0x4_0000, 0x80 + (n / 0x1000) % 0x40, 0x80 + (n / 0x40) % 0x40, 0x80 + n % 0x40]
  }

  function HexUpper(d: nat): (c: char)
    requires d < 16
    ensures ('0' <= c <= '9') || ('A' <= c <= 'F')
  {
    if d < 10 then ('0' as int + d) as char else ('A' as int + d - 10) as char
  }

  /** "%XX" for the bytes, two upper-case hex digits each. */
  function Escapes(bs: seq<nat>): (r: string)
    requires forall k :: 0 <= k < |bs| ==> bs[k] < 256
    ensures |r| == 3 * |bs|
    ensures forall k :: 0 <= k < |r| ==> r[k] == '%' || Unreserved(r[k])
  {
    if bs == [] then [] else ['%', HexUpper(bs[0] / 16), HexUpper(bs[0] % 16)] + Escapes(bs[1..])
  }

  function EncodeChar(c: char): string {
    if Unreserved(c) then [c] else Escapes(Utf8(c))
  }

  /** `encodeURIComponent`: unreserved characters stay, every other character
      becomes the "%XX" escapes of its UTF-8 bytes. */
  function EncodeUriComponent(s: string): string {
    if s == [] then [] else EncodeChar(s[0]) + EncodeUriComponent(s[1..])
  }

  /** The encoded name is made of unreserved characters and '%' only, so it
      cannot close the quoted `filename` parameter or break the header line;
      it is never shorter than the name, and it is the name itself exactly when
      every character of the name is unreserved. */
  lemma {:induction false} EncodeUriSafe(s: string)
    ensures var r := EncodeUriComponent(s);
      && (forall k :: 0 <= k < |r| ==> r[k] == '%' || Unreserved(r[k]))
      && |r| >= |s|
      && (r == s <==> forall k :: 0 <= k < |s| ==> Unreserved(s[k]))
  {
    if s != [] {
      EncodeUriSafe(s[1..]);
      var e := EncodeChar(s[0]);
      var t := EncodeUriComponent(s[1..]);
      assert EncodeUriComponent(s) == e + t;
      assert forall k :: 0 <= k < |e| ==> e[k] == '%' || Unreserved(e[k]);
      if !Unreserved(s[0]) {
        assert |e| >= 3;
        assert |e + t| > |s|;
      } else {
        assert e == [s[0]];
        if forall k :: 0 <= k < |s| ==> Unreserved(s[k]) {
          assert forall k :: 0 <= k < |s[1..]| ==> Unreserved(s[1..][k]) by {
            forall k | 0 <= k < |s[1..]| ensures Unreserved(s[1..][k]) {
              assert s[1..][k] == s[k + 1];
            }
          }
          assert s == [s[0]] + s[1..];
        } else {
          var k :| 0 <= k < |s| && !Unreserved(s[k]);
          assert s[1..][k - 1] == s[k];
        }
      }
    }
  }

  /** Encoding works character by character. */
  lemma {:induction false} EncodeUriConcat(x: string, y: string)
    ensures EncodeUriComponent(x + y) == EncodeUriComponent(x) + EncodeUriComponent(y)
  {
    if x == [] {
      assert x + y == y;
    } else {
      assert (x + y)[1..] == x[1..] + y;
      EncodeUriConcat(x[1..], y);
    }
  }

  /** A space is sent as "%20". */
  lemma EncodeUriSpace()
    ensures EncodeUriComponent(" ") == "%20"
  {
    assert Utf8(' ') == [32];
    assert Escapes([32]) == ['%', HexUpper(2), HexUpper(0)] + Escapes([]);
  }

  /** A space between two unreserved runs is sent as "%20". */
  lemma EncodeUriSpaceBetween(a: string, b: string)
    requires forall k :: 0 <= k < |a| ==> Unreserved(a[k])
    requires forall k :: 0 <= k < |b| ==> Unreserved(b[k])
    ensures EncodeUriComponent(a + " " + b) == a + "%20" + b
  {
    EncodeUriSafe(a);
    EncodeUriSafe(b);
    EncodeUriSpace();
    EncodeUriConcat(a + " ", b);
    EncodeUriConcat(a, " ");
  }

  /** "a b.mp4" is sent as "a%20b.mp4". */
  lemma EncodeUriExample()
    ensures EncodeUriComponent("a b.mp4") == "a%20b.mp4"
  {
    EncodeUriSpaceBetween("a", "b.mp4");
    assert "a" + " " + "b.mp4" == "a b.mp4";
  }

  /** A non-ASCII letter is sent as the escapes of its two UTF-8 bytes. */
  lemma EncodeUriAccent()
    ensures EncodeUriComponent("\U{e9}") == "%C3%A9"
  {
    assert Utf8('\U{e9}') == [0xC3, 0xA9];
    assert Escapes([0xC3, 0xA9]) == "%C3" + Escapes([0xA9]);
    assert Escapes([0xA9]) == "%A9" + Escapes([]);
  }

  /** The path guard of the route: the resolved path starts with the resolved
      download root. */
  predicate Guarded(folder: string, file: string, resolve: string -> string) {
    StartsWith(resolve(JoinPath(JoinPath(DumpDir, folder), file)), resolve(DumpDir))
  }

  /** `GET /api/files/serve?folder=...&file=...&dl=...` with the request's Range
      header. Reading a directory throws and answers 500; so does a range whose
      length is NaN or negative (`Buffer.alloc` refuses it). */
  function Serve(folder: Option<string>, file: Option<string>, dl: Option<string>, range: Option<string>,
                 resolve: string -> string, target: Target): (r: ServeReply)
    ensures (folder.None? || folder.value == "" || file.None? || file.value == "") ==>
      r == Refused(400, "folder and file params required")
    ensures folder.Some? && folder.value != "" && file.Some? && file.value != "" ==>
      var mime := MimeOf(file.value);
      var ranged := dl != Some("1") && range.Some? && range.value != "" && Streamable(mime);
      && (!Guarded(folder.value, file.value, resolve) ==> r == Refused(400, "Invalid path"))
      && (Guarded(folder.value, file.value, resolve) ==>
          && (target.Missing? ==> r == Refused(404, "File not found"))
          && (target.Directory? ==> r == Refused(500, "Failed to serve file"))
          && (target.RegularFile? && dl == Some("1") ==>
                r == Attachment(target.size, EncodeUriComponent(file.value)))
          && (target.RegularFile? && ranged ==>
                match ParseRange(range.value, target.size)
                case None => r == Refused(500, "Failed to serve file")
                case Some((start, end)) =>
                  if end - start + 1 < 0 then r == Refused(500, "Failed to serve file")
                  else r == Partial(ContentRange(start, end, target.size), end - start + 1, mime))
          && (target.RegularFile? && dl != Some("1") && !ranged && IsText(mime) ==> r == TextBody(mime))
          && (target.RegularFile? && dl != Some("1") && !ranged && !IsText(mime) ==> r == Whole(mime, target.size)))
    ensures r.Attachment? || r.Partial? || r.TextBody? || r.Whole? ==> target.RegularFile?
  {
    if folder.None? || folder.value == "" || file.None? || file.value == "" then
      Refused(400, "folder and file params required")
    else if !Guarded(folder.value, file.value, resolve) then
      Refused(400, "Invalid path")
    else if target.Missing? then Refused(404, "File not found")
    else if target.Directory? then Refused(500, "Failed to serve file")
    else
      var size := target.size;
      var mime := MimeOf(file.value);
      if dl == Some("1") then Attachment(size, EncodeUriComponent(file.value))
      else if range.Some? && range.value != "" && Streamable(mime) then
        match ParseRange(range.value, size)
        case None => Refused(500, "Failed to serve file")
        case Some((start, end)) =>
          if end - start + 1 < 0 then Refused(500, "Failed to serve file")
          else Partial(ContentRange(start, end, size), end - start + 1, mime)
      else if IsText(mime) then TextBody(mime)
      else Whole(mime, size)
  }

  /** Streaming a video or audio file from a byte inside it, with no end given,
      answers 206 with between one byte and 5 MiB, ending at or before the last
      byte of the file. */
  lemma ServeOpenEnded(folder: string, file: string, resolve: string -> string, s: nat, size: nat)
    requires folder != "" && file != "" && Guarded(folder, file, resolve)
    requires Streamable(MimeOf(file)) && s < size
    ensures var r := Serve(Some(folder), Some(file), None, Some("bytes=" + NatToString(s) + "-"), resolve, RegularFile(size));
      var end := Min(s + ChunkLimit - 1, size - 1);
      && r.Partial? && 1 <= r.length <= ChunkLimit && s + r.length - 1 == end && end < size
      && r.contentRange == ContentRange(s, end, size)
  {
    OpenEndedRange(s, size);
  }

  /** An open-ended range "bytes=S-" is answered with at most `ChunkLimit` bytes
      and never past the last byte; from inside the file it is never empty. */
  lemma OpenEndedRange(s: nat, size: nat)
    ensures ParseRange("bytes=" + NatToString(s) + "-", size) == Some((s, Min(s + ChunkLimit - 1, size - 1)))
    ensures var (start, end) := (s, Min(s + ChunkLimit - 1, size - 1));
      end - start + 1 <= ChunkLimit && end <= size - 1 && (s < size ==> end - start + 1 >= 1)
  {
    var ds := NatToString(s);
    RangeText(ds, "");
    assert "bytes=" + ds + "-" + "" == "bytes=" + ds + "-";
    ParseIntToString(s);
  }

  /** An explicit range "bytes=S-E" is taken as written: neither clamped to the
      file nor checked for order. */
  lemma ExplicitRange(s: nat, e: nat, size: nat)
    ensures ParseRange("bytes=" + NatToString(s) + "-" + NatToString(e), size) == Some((s, e))
  {
    RangeText(NatToString(s), NatToString(e));
    ParseIntToString(s);
    ParseIntToString(e);
  }

  /** How the route cuts "bytes=A-B" for digit runs A and B. */
  lemma RangeText(a: string, b: string)
    requires |a| >= 1 && AllDigits(a) && AllDigits(b)
    ensures Split(RemoveFirst("bytes=" + a + "-" + b, "bytes="), '-') == [a, b]
  {
    var h := "bytes=" + a + "-" + b;
    assert h[0..6] == "bytes=";
    assert IndexOf(h, "bytes=", 0) == 0;
    assert RemoveFirst(h, "bytes=") == a + ['-'] + b;
    assert '-' !in a by {
      forall i | 0 <= i < |a| ensures a[i] != '-' {
        assert IsDigit(a[i]);
      }
    }
    assert '-' !in b by {
      forall i | 0 <= i < |b| ensures b[i] != '-' {
        assert IsDigit(b[i]);
      }
    }
    SplitConcat(a, '-', b);
    SplitNoSep(b, '-');
  }
}
