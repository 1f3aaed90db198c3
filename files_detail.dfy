/** The folder-detail endpoint of the file browser: `GET` lists one download
    folder with its files classified and ordered and a preview chosen, `DELETE`
    removes one file (and the folder once nothing but `info.json` is left) or the
    whole folder. `path.resolve` is a parameter; the guard is the route's plain
    string-prefix test. */
module FilesDetail {
  import opened Wrappers
  import opened Strings
  import opened Paths
  import opened Sorting

  const DumpDir: string := "/Volumes/ME Backup02/_Dump"

  datatype Kind = Video | Audio | Subtitle | Text | Image | Data

  const VideoExts: set<string> := {".mp4", ".mkv", ".webm", ".avi", ".mov"}
  const AudioExts: set<string> := {".wav", ".mp3", ".flac", ".aac", ".m4a"}
  const SubtitleExts: set<string> := {".srt", ".vtt", ".ass"}
  const TextExts: set<string> := {".txt", ".description", ".json"}
  const ImageExts: set<string> := {".webp", ".jpg", ".jpeg", ".png", ".gif"}

  /** `classifyFile`: the first list holding the lowercased extension decides. */
  function Classify(name: string): (k: Kind)
    ensures var e := Lower(Extname(name));
      && (k == Video <==> e in VideoExts)
      && (k == Audio <==> e in AudioExts)
      && (k == Subtitle <==> e in SubtitleExts)
      && (k == Text <==> e in TextExts)
      && (k == Image <==> e in ImageExts)
      && (k == Data <==> e !in VideoExts + AudioExts + SubtitleExts + TextExts + ImageExts)
  {
    var e := Lower(Extname(name));
    if e in VideoExts then Video
    else if e in AudioExts then Audio
    else if e in SubtitleExts then Subtitle
    else if e in TextExts then Text
    else if e in ImageExts then Image
    else Data
  }

  /** A directory entry as `readdirSync` and `statSync` report it; `broken`
      marks an entry `statSync` cannot follow (a link whose target is gone), which
      `existsSync` also reports as absent. */
  datatype Dirent = Dirent(name: string, size: nat, isDir: bool, broken: bool)

  datatype FileEntry = FileEntry(name: string, size: nat, ext: string, kind: Kind, isProxy: bool)

  predicate Hidden(name: string) {
    StartsWith(name, ".")
  }

  predicate IsProxyName(name: string) {
    Contains(Lower(name), "_proxy") || Contains(Lower(name), "proxy_")
  }

  /** The extension without its dot (`replace('.', '')` removes the first dot,
      which is the extension's leading one). */
  function BareExt(name: string): (x: string)
    ensures Lower(Extname(name)) != "" ==> Lower(Extname(name)) == "." + x
    ensures Lower(Extname(name)) == "" ==> x == ""
  {
    var e := Lower(Extname(name));
    if e == "" then ""
    else
      assert e[0] == LowerChar(Extname(name)[0]) == '.';
      assert "." + e[1..] == e;
      e[1..]
  }

  function EntryOf(d: Dirent): FileEntry {
    FileEntry(d.name, d.size, BareExt(d.name), Classify(d.name), IsProxyName(d.name))
  }

  /** The entries of a folder that are listed, in directory order. */
  function Visible(ds: seq<Dirent>): (vs: seq<FileEntry>)
    ensures forall e :: e in vs <==> exists d :: d in ds && !Hidden(d.name) && e == EntryOf(d)
  {
    if ds == [] then []
    else (if Hidden(ds[0].name) then [] else [EntryOf(ds[0])]) + Visible(ds[1..])
  }

  function Rank(k: Kind): int {
    match k
    case Video => 0
    case Audio => 1
    case Subtitle => 2
    case Text => 3
    case Image => 4
    case Data => 5
  }

  function Codes(s: string): seq<int> {
    seq(|s|, i requires 0 <= i < |s| => s[i] as int)
  }

  /** The comparator of `GET`: type rank, then proxies first, then name. */
  function Key(e: FileEntry): seq<int> {
    [Rank(e.kind), if e.isProxy then 0 else 1] + Codes(e.name)
  }

  /** The listed entries in the order `GET` returns them. */
  function Listing(ds: seq<Dirent>): seq<FileEntry> {
    SortBy(Visible(ds), Key)
  }

  /** The listing is ordered by the comparator and holds every visible entry once. */
  lemma ListingOrdered(ds: seq<Dirent>)
    ensures SortedBy(Listing(ds), Key) && multiset(Listing(ds)) == multiset(Visible(ds))
    ensures forall k :: WithKey(Listing(ds), Key, k) == WithKey(Visible(ds), Key, k)
  {
    SortedPermutation(Visible(ds), Key);
    forall k ensures WithKey(Listing(ds), Key, k) == WithKey(Visible(ds), Key, k) {
      SortStable(Visible(ds), Key, k);
    }
  }

  /** An entry of the given kind, and of the given proxy flag when one is given. */
  predicate Wanted(e: FileEntry, kind: Kind, proxy: Option<bool>) {
    e.kind == kind && (proxy.None? || e.isProxy == proxy.value)
  }

  /** `entries.find(...)`: the first wanted entry. */
  function Find(es: seq<FileEntry>, kind: Kind, proxy: Option<bool>): (r: Option<FileEntry>)
    ensures r.None? <==> forall i :: 0 <= i < |es| ==> !Wanted(es[i], kind, proxy)
    ensures r.Some? ==> exists i :: (0 <= i < |es| && es[i] == r.value && Wanted(es[i], kind, proxy) &&
      forall j :: 0 <= j < i ==> !Wanted(es[j], kind, proxy))
  {
    if es == [] then None
    else if Wanted(es[0], kind, proxy) then Some(es[0])
    else
      var r := Find(es[1..], kind, proxy);
      assert forall i :: 1 <= i < |es| ==> es[i] == es[1..][i - 1];
      r
  }

  /** `x?.name || null`: a missing entry or an empty name gives null. */
  function NameOf(e: Option<FileEntry>): Option<string> {
    if e.Some? && e.value.name != "" then Some(e.value.name) else None
  }

  /** `previewVideo`: the first proxy video, else the first other video. */
  function Preview(es: seq<FileEntry>): Option<string> {
    var proxy := Find(es, Video, Some(true));
    NameOf(if proxy.Some? then proxy else Find(es, Video, Some(false)))
  }

  /** `thumbnail`: the first image. */
  function Thumbnail(es: seq<FileEntry>): Option<string> {
    NameOf(Find(es, Image, None))
  }

  /** Because the listing puts videos first and proxies first among them, the
      preview is the head of an ordered listing when that is a video, and there
      is none otherwise. */
  lemma PreviewIsHead(es: seq<FileEntry>)
    requires SortedBy(es, Key)
    ensures Preview(es) == NameOf(if es != [] && es[0].kind == Video then Some(es[0]) else None)
  {
    if es != [] {
      var h := es[0];
      forall j | 0 < j < |es| && es[j].kind == Video
        ensures h.kind == Video && (es[j].isProxy ==> h.isProxy)
      {
        assert LexLe(Key(h), Key(es[j]));
        var t := Codes(h.name);
        var u := Codes(es[j].name);
        LexCons(Rank(h.kind), [if h.isProxy then 0 else 1] + t, Rank(es[j].kind), [if es[j].isProxy then 0 else 1] + u);
        assert Key(h) == [Rank(h.kind)] + ([if h.isProxy then 0 else 1] + t);
        assert Key(es[j]) == [Rank(es[j].kind)] + ([if es[j].isProxy then 0 else 1] + u);
        if h.kind == Video {
          LexCons(if h.isProxy then 0 else 1, t, if es[j].isProxy then 0 else 1, u);
        }
      }
      if h.kind == Video && !h.isProxy {
        assert !Wanted(es[0], Video, Some(true));
        assert Find(es, Video, Some(true)).None?;
      }
    }
  }

  /** The guard of both routes: the resolved path starts with the resolved base. */
  predicate Inside(resolved: string, base: string) {
    StartsWith(resolved, base)
  }

  /** The guard is a string-prefix test, not a containment test: any name that
      extends the dump folder's own name passes it, a sibling folder included. */
  lemma GuardAdmitsSiblings(suffix: string)
    ensures Inside(DumpDir + suffix, DumpDir)
    ensures Inside("/Volumes/ME Backup02/_DumpX", DumpDir)
  {
    assert "/Volumes/ME Backup02/_DumpX" == DumpDir + "X";
  }

  datatype DetailReply =
    | Detail(folder: string, files: seq<FileEntry>, previewVideo: Option<string>, thumbnail: Option<string>)
    | Rejected(status: nat, error: string)

  datatype DeleteReply =
    | Deleted(deleted: string, folderRemoved: bool)
    | Refused(status: nat, error: string)

  /** The names `readdirSync(...).filter(f => !f.startsWith('.'))` returns. */
  function VisibleNames(ds: seq<Dirent>): (ns: seq<string>)
    ensures forall n :: n in ns <==> exists d :: d in ds && !Hidden(d.name) && n == d.name
  {
    if ds == [] then []
    else (if Hidden(ds[0].name) then [] else [ds[0].name]) + VisibleNames(ds[1..])
  }

  /** The folder is removed after a file deletion when nothing is listed in it
      any more, or only `info.json`. */
  predicate Prunable(rest: seq<Dirent>) {
    var ns := VisibleNames(rest);
    ns == [] || ns == ["info.json"]
  }

  predicate DistinctNames(ds: seq<Dirent>) {
    forall i, j :: 0 <= i < j < |ds| ==> ds[i].name != ds[j].name
  }

  /** In a folder whose names are distinct, the pruning rule removes the folder
      exactly when every entry left is hidden or is `info.json`. */
  lemma {:induction false} PrunableMeans(rest: seq<Dirent>)
    requires DistinctNames(rest)
    ensures Prunable(rest) <==> forall i :: 0 <= i < |rest| ==> Hidden(rest[i].name) || rest[i].name == "info.json"
  {
    var ns := VisibleNames(rest);
    if forall i :: 0 <= i < |rest| ==> Hidden(rest[i].name) || rest[i].name == "info.json" {
      VisibleNamesDistinct(rest);
      forall n | n in ns ensures n == "info.json" {
        var d :| d in rest && !Hidden(d.name) && n == d.name;
      }
      forall k | 0 <= k < |ns| ensures ns[k] == "info.json" {
        assert ns[k] in ns;
      }
      DistinctConstant(ns, "info.json");
      assert |ns| == 1 ==> ns[0] in ns;
    } else {
      var i :| 0 <= i < |rest| && !Hidden(rest[i].name) && rest[i].name != "info.json";
      assert rest[i] in rest;
      assert rest[i].name in ns;
    }
  }

  lemma {:induction false} VisibleNamesDistinct(ds: seq<Dirent>)
    requires DistinctNames(ds)
    ensures Distinct(VisibleNames(ds))
  {
    if ds != [] {
      var tail := ds[1..];
      assert DistinctNames(tail) by {
        forall i, j | 0 <= i < j < |tail| ensures tail[i].name != tail[j].name {
          assert tail[i] == ds[i + 1] && tail[j] == ds[j + 1];
        }
      }
      VisibleNamesDistinct(tail);
      if !Hidden(ds[0].name) {
        var ns := VisibleNames(ds);
        var rs := VisibleNames(tail);
        assert ns == [ds[0].name] + rs;
        forall k | 0 <= k < |rs| ensures rs[k] != ds[0].name {
          assert rs[k] in rs;
          var d :| d in tail && !Hidden(d.name) && rs[k] == d.name;
          var m :| 0 <= m < |tail| && tail[m] == d;
          assert ds[m + 1] == d;
        }
      }
    }
  }

  /** The folder without the entry of that name. */
  function Without(ds: seq<Dirent>, name: string): (r: seq<Dirent>)
    ensures forall d :: d in r <==> d in ds && d.name != name
  {
    if ds == [] then []
    else (if ds[0].name == name then [] else [ds[0]]) + Without(ds[1..], name)
  }

  function Lookup(ds: seq<Dirent>, name: string): (r: Option<Dirent>)
    ensures r.Some? ==> r.value in ds && r.value.name == name
    ensures r.None? ==> forall d :: d in ds ==> d.name != name
  {
    if ds == [] then None
    else if ds[0].name == name then Some(ds[0])
    else Lookup(ds[1..], name)
  }

  /** Some visible entry cannot be stat'ed. */
  predicate Unstatable(ds: seq<Dirent>) {
    exists d :: d in ds && !Hidden(d.name) && d.broken
  }

  /** The download folder: each sub-folder's entries in directory order, and the
      names that exist there but are no directory (`plain`). Keys are the
      `folder` parameter as the routes receive it. */
  class Dump {
    var folders: map<string, seq<Dirent>>
    var plain: set<string>

    constructor(folders0: map<string, seq<Dirent>>, plain0: set<string>)
      ensures folders == folders0 && plain == plain0
    {
      folders := folders0;
      plain := plain0;
    }

    /** `GET /api/files/detail?folder=...`: a missing parameter, a path the guard
        refuses and a path that does not exist are refused in that order; a path
        that is no directory makes `readdirSync` throw, and an entry `statSync`
        cannot follow makes it throw, both answering 500. */
    function Get(folder: Option<string>, resolve: string -> string): (r: DetailReply)
      reads this
      ensures (folder.None? || folder.value == "") ==> r == Rejected(400, "folder param required")
      ensures folder.Some? && folder.value != "" && !Inside(resolve(JoinPath(DumpDir, folder.value)), resolve(DumpDir)) ==>
        r == Rejected(400, "Invalid path")
      ensures folder.Some? && folder.value != "" && Inside(resolve(JoinPath(DumpDir, folder.value)), resolve(DumpDir)) ==>
        && (r == Rejected(404, "Folder not found") <==> folder.value !in folders && folder.value !in plain)
        && (r == Rejected(500, "Failed to read folder") <==>
              if folder.value in folders then Unstatable(folders[folder.value]) else folder.value in plain)
      ensures r.Detail? <==> (folder.Some? && folder.value != "" &&
        Inside(resolve(JoinPath(DumpDir, folder.value)), resolve(DumpDir)) && folder.value in folders &&
        !Unstatable(folders[folder.value]))
      ensures r.Detail? ==>
        && r.folder == folder.value
        && SortedBy(r.files, Key) && multiset(r.files) == multiset(Visible(folders[folder.value]))
        && (forall k :: WithKey(r.files, Key, k) == WithKey(Visible(folders[folder.value]), Key, k))
        && r.previewVideo == NameOf(if r.files != [] && r.files[0].kind == Video then Some(r.files[0]) else None)
        && r.thumbnail == Thumbnail(r.files)
    {
      if folder.None? || folder.value == "" then Rejected(400, "folder param required")
      else if !Inside(resolve(JoinPath(DumpDir, folder.value)), resolve(DumpDir)) then Rejected(400, "Invalid path")
      else if folder.value !in folders && folder.value !in plain then Rejected(404, "Folder not found")
      else if folder.value !in folders || Unstatable(folders[folder.value]) then Rejected(500, "Failed to read folder")
      else
        var es := Listing(folders[folder.value]);
        ListingOrdered(folders[folder.value]);
        PreviewIsHead(es);
        Detail(folder.value, es, Preview(es), Thumbnail(es))
    }

    /** `DELETE /api/files/detail`. With a file: unlink it, then remove the folder
        when `Prunable`. Without one: remove the whole folder, or the plain file
        the parameter names. Unlinking a directory fails and answers 500; below a
        plain file, or at a broken link, `existsSync` finds no file. */
    method Delete(folder: Option<string>, file: Option<string>, resolve: string -> string) returns (reply: DeleteReply)
      modifies this
      ensures (folder.None? || folder.value == "") ==>
        reply == Refused(400, "folder required") && folders == old(folders) && plain == old(plain)
      ensures folder.Some? && folder.value != "" && !Inside(resolve(JoinPath(DumpDir, folder.value)), resolve(DumpDir)) ==>
        reply == Refused(400, "Invalid path") && folders == old(folders) && plain == old(plain)
      ensures folder.Some? && folder.value != "" && Inside(resolve(JoinPath(DumpDir, folder.value)), resolve(DumpDir)) ==>
        var f := folder.value;
        var path := JoinPath(DumpDir, f);
        if f !in old(folders) && f !in old(plain) then
          reply == Refused(404, "Not found") && folders == old(folders) && plain == old(plain)
        else if file.None? || file.value == "" then
          && reply == Deleted(f, true)
          && if f in old(folders) then folders == old(folders) - {f} && plain == old(plain)
             else folders == old(folders) && plain == old(plain) - {f}
        else
          var name := file.value;
          if !Inside(resolve(JoinPath(path, name)), resolve(path)) then
            reply == Refused(400, "Invalid path") && folders == old(folders) && plain == old(plain)
          else if f !in old(folders) then
            reply == Refused(404, "File not found") && folders == old(folders) && plain == old(plain)
          else
            var entry := Lookup(old(folders)[f], name);
            if entry.None? || entry.value.broken then
              reply == Refused(404, "File not found") && folders == old(folders) && plain == old(plain)
            else if entry.value.isDir then
              reply == Refused(500, "Failed to delete") && folders == old(folders) && plain == old(plain)
            else
              var rest := Without(old(folders)[f], name);
              && plain == old(plain)
              && if Prunable(rest) then reply == Deleted(name, true) && folders == old(folders) - {f}
                 else reply == Deleted(name, false) && folders == old(folders)[f := rest]
    {
      if folder.None? || folder.value == "" {
        return Refused(400, "folder required");
      }
      var f := folder.value;
      var path := JoinPath(DumpDir, f);
      var resolved := resolve(path);
      if !Inside(resolved, resolve(DumpDir)) {
        return Refused(400, "Invalid path");
      }
      if f !in folders && f !in plain {
        return Refused(404, "Not found");
      }
      if file.Some? && file.value != "" {
        var name := file.value;
        if !Inside(resolve(JoinPath(path, name)), resolved) {
          return Refused(400, "Invalid path");
        }
        if f !in folders {
          return Refused(404, "File not found");
        }
        var entry := Lookup(folders[f], name);
        if entry.None? || entry.value.broken {
          return Refused(404, "File not found");
        }
        if entry.value.isDir {
          return Refused(500, "Failed to delete");
        }
        var rest := Without(folders[f], name);
        folders := folders[f := rest];
        if Prunable(rest) {
          folders := folders - {f};
          return Deleted(name, true);
        }
        return Deleted(name, false);
      } else {
        if f in folders {
          folders := folders - {f};
        } else {
          plain := plain - {f};
        }
        return Deleted(f, true);
      }
    }
  }
}
