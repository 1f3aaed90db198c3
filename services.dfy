/** The service panel: the registry of managed services, their status read
    from `launchctl`, `lsof`, `ps`, `curl` and the Tailscale serve status, and
    the start/stop/restart/funnel actions. Every shell command is modelled by
    its command line and by an oracle `shell` that gives its trimmed output
    ("" when the command fails or times out). */
module Services {
  import opened Wrappers
  import opened Strings

  datatype Remote = Remote(host: string, sshUser: string)

  datatype ServiceDef = ServiceDef(
    id: string, title: string, plist: string, port: Option<int>, kind: string,
    description: string, funnelable: bool, remote: Option<Remote>)

  /** The registry. */
  const Registry: seq<ServiceDef> := [
    ServiceDef("brytools", "BryTools", "com.bryanrowland.brytools", Some(3002), "Node.js",
               "Unified personal toolbox", true, None),
    ServiceDef("skinwalker-archive", "Skinwalker Archive", "com.bryan.skinwalker-archive", Some(5001), "Node.js",
               "Canon Vault editorial system", true, None),
    ServiceDef("ollama", "Ollama", "homebrew.mxcl.ollama", Some(11434), "Mac Studio",
               "AI inference engine", false, Some(Remote("100.100.179.121", "bryan")))
  ]

  datatype Status = Running | Stopped | Errored

  /** A number as JavaScript holds it after `parseInt`: null, NaN, or a value. */
  datatype JsNum = Null | NaN | Val(n: int)

  function ParseNum(s: string): (r: JsNum)
    ensures r != Null
    ensures r == NaN <==> ParseInt(s).None?
  {
    match ParseInt(s)
    case None => NaN
    case Some(v) => Val(v)
  }

  /** Truthiness of a number: neither null, NaN nor zero. */
  predicate Truthy(x: JsNum) {
    x.Val? && x.n != 0
  }

  // ---- command lines ----

  function LaunchctlList(plist: string): string {
    "launchctl list 2>/dev/null | grep \"" + plist + "\""
  }

  function Lsof(port: int): string {
    "lsof -iTCP:" + IntToString(port) + " -sTCP:LISTEN -P -n 2>/dev/null | grep -c LISTEN"
  }

  function Ps(pid: int): string {
    "ps -p " + IntToString(pid) + " -o etime= 2>/dev/null"
  }

  function Curl(host: string, port: int): string {
    "curl -s -o /dev/null -w '%{http_code}' --connect-timeout 2 --max-time 3 http://" + host + ":" + IntToString(port) + "/ 2>/dev/null"
  }

  const Tailscale: string := "/Applications/Tailscale.app/Contents/MacOS/Tailscale"

  const ServeStatus: string := Tailscale + " serve status 2>/dev/null || tailscale serve status 2>/dev/null"

  /** A command the actions run; `CommandLine` gives its exact text. */
  datatype Command =
    | Load(plistPath: string)
    | Start(plist: string)
    | Unload(plistPath: string)
    | Brew(sshUser: string, host: string, verb: string)
    | FunnelOff
    | ServeBg(port: int)
    | FunnelOn

  function CommandLine(c: Command): string {
    match c
    case Load(path) => "launchctl load \"" + path + "\" 2>&1"
    case Start(plist) => "launchctl start \"" + plist + "\" 2>&1"
    case Unload(path) => "launchctl unload \"" + path + "\" 2>&1"
    case Brew(user, host, verb) =>
      "ssh -o BatchMode=yes -o ConnectTimeout=5 " + user + "@" + host +
      " \"/opt/homebrew/bin/brew services " + verb + " ollama\" 2>&1"
    case FunnelOff => Tailscale + " funnel off 2>/dev/null || tailscale funnel off 2>/dev/null"
    case ServeBg(port) =>
      Tailscale + " serve --bg " + IntToString(port) + " 2>/dev/null || tailscale serve --bg " + IntToString(port) + " 2>/dev/null"
    case FunnelOn => Tailscale + " funnel on 2>/dev/null || tailscale funnel on 2>/dev/null"
  }

  // ---- getServiceStatus ----

  datatype Launchd = Launchd(status: Status, pid: JsNum, exitCode: JsNum)

  /** `getServiceStatus` on the line `launchctl list` prints for the service
      (pid or "-", last exit code, job): running with a positive pid; else
      errored when an exit code was read and is not 0; else stopped. Only a
      running service reports its pid. */
  function ServiceStatus(line: string): (r: Launchd)
    ensures line == "" ==> r == Launchd(Stopped, Null, Null)
    ensures r.status == Running <==> line != "" && r.pid.Val? && r.pid.n > 0
    ensures r.status == Errored <==> line != "" && r.status != Running && r.exitCode != Null && r.exitCode != Val(0)
    ensures r.status != Running ==> r.pid == Null
  {
    if line == "" then Launchd(Stopped, Null, Null)
    else
      var parts := SplitWs(line);
      var pidStr := parts[0];
      var exitStr := if |parts| > 1 then parts[1] else "";
      var pid := if pidStr != "" && pidStr != "-" then ParseNum(pidStr) else Null;
      var exitCode := if exitStr != "" then ParseNum(exitStr) else Null;
      if Truthy(pid) && pid.n > 0 then Launchd(Running, pid, exitCode)
      else if exitCode != Null && exitCode != Val(0) then Launchd(Errored, Null, exitCode)
      else Launchd(Stopped, Null, exitCode)
  }

  /** The `launchctl list` line of a loaded job. */
  function LaunchctlLine(pid: string, exit: int, job: string): string {
    pid + "\t" + IntToString(exit) + "\t" + job
  }

  /** A job with a process is running, with that pid and its last exit code. */
  lemma RunningLine(pid: nat, exit: int, job: string)
    requires pid > 0 && job != "" && NoSpace(job)
    ensures ServiceStatus(LaunchctlLine(NatToString(pid), exit, job)) == Launchd(Running, Val(pid), Val(exit))
  {
    ParseIntToString(pid);
    ParseIntToString(exit);
    IntToStringField(exit);
    IntToStringField(pid);
    LineFields(NatToString(pid), IntToString(exit), job);
    NatToStringValue(pid);
    assert NatToString(pid) != "-" by {
      assert IsDigit(NatToString(pid)[0]);
    }
  }

  /** A job without a process is stopped after a clean exit and errored after
      any other exit code. */
  lemma IdleLine(exit: int, job: string)
    requires job != "" && NoSpace(job)
    ensures ServiceStatus(LaunchctlLine("-", exit, job)) ==
      Launchd(if exit == 0 then Stopped else Errored, Null, Val(exit))
  {
    IntToStringField(exit);
    LineFields("-", IntToString(exit), job);
    ParseIntToString(exit);
  }

  /** How a line of three fields separated by tabs splits. */
  lemma LineFields(pid: string, e: string, job: string)
    requires pid != "" && NoSpace(pid) && e != "" && NoSpace(e) && job != "" && NoSpace(job)
    ensures SplitWs(pid + "\t" + e + "\t" + job) == [pid, e, job]
  {
    TwoFields(e, job);
    SplitWsField(pid, '\t', e + ['\t'] + job);
    TabsShape(pid, e, job);
  }

  lemma TwoFields(e: string, job: string)
    requires e != "" && NoSpace(e) && job != "" && NoSpace(job)
    ensures SplitWs(e + ['\t'] + job) == [e, job]
    ensures !IsSpace((e + ['\t'] + job)[0])
  {
    assert !IsSpace(job[0]);
    SplitWsField(e, '\t', job);
    SplitWsWhole(job);
  }

  lemma TabsShape(pid: string, e: string, job: string)
    ensures pid + "\t" + e + "\t" + job == pid + ['\t'] + (e + ['\t'] + job)
  {
  }

  /** A printed integer is one field that starts with no white space. */
  lemma IntToStringField(exit: int)
    ensures var e := IntToString(exit); NoSpace(e) && e != "" && !IsSpace(e[0])
  {
    var e := IntToString(exit);
    var n: nat := if exit < 0 then -exit else exit;
    NatToStringValue(n);
    forall i | 0 <= i < |e| ensures !IsSpace(e[i]) {
      if exit < 0 && i > 0 {
        assert e[i] == NatToString(n)[i - 1];
      } else if exit >= 0 {
        assert IsDigit(NatToString(n)[i]);
      }
    }
  }

  // ---- getTailscaleFunnel ----

  /** The regex `https:\/\/[^\s]+` matches at `i`. */
  predicate UrlAt(s: string, i: nat) {
    i + 9 <= |s| && s[i..i + 8] == "https://" && !IsSpace(s[i + 8])
  }

  /** The leftmost match at or after `from`. */
  function FirstUrl(s: string, from: nat): (r: Option<nat>)
    ensures r.Some? ==> from <= r.value && UrlAt(s, r.value) && forall j :: from <= j < r.value ==> !UrlAt(s, j)
    ensures r.None? ==> forall j :: from <= j ==> !UrlAt(s, j)
    decreases |s| - from
  {
    if from + 9 > |s| then None
    else if UrlAt(s, from) then Some(from)
    else FirstUrl(s, from + 1)
  }

  /** The text the URL regex matches at `i`: the scheme and every following
      character up to white space or the end. */
  function UrlText(s: string, i: nat): (u: string)
    requires UrlAt(s, i)
    ensures |u| > 8 && u[..8] == "https://" && NoSpace(u[8..])
    ensures i + |u| == |s| || (i + |u| < |s| && IsSpace(s[i + |u|]))
  {
    var run := FirstSpace(s[i + 8..]);
    assert s[i + 8..][..run] == s[i + 8..i + 8 + run];
    s[i..i + 8 + run]
  }

  const ProxyHead: string := "http://127.0.0.1:"

  /** Where the proxy target starts after "proxy" at `i`: the white-space run
      after the word is taken whole (the next character, 'h', is not white
      space, so backtracking into the run cannot help). */
  function ProxyTarget(s: string, i: nat): nat
    requires i + 5 <= |s|
  {
    i + 5 + SpaceRun(s[i + 5..])
  }

  /** The regex `proxy\s+http:\/\/127\.0\.0\.1:(\d+)` matches at `i`. */
  predicate ProxyAt(s: string, i: nat) {
    i + 6 <= |s| && s[i..i + 5] == "proxy" && IsSpace(s[i + 5]) &&
    var k := ProxyTarget(s, i);
    k + |ProxyHead| < |s| && s[k..k + |ProxyHead|] == ProxyHead && IsDigit(s[k + |ProxyHead|])
  }

  function FirstProxy(s: string, from: nat): (r: Option<nat>)
    ensures r.Some? ==> from <= r.value && ProxyAt(s, r.value) && forall j :: from <= j < r.value ==> !ProxyAt(s, j)
    ensures r.None? ==> forall j :: from <= j ==> !ProxyAt(s, j)
    decreases |s| - from
  {
    if from + 6 > |s| then None
    else if ProxyAt(s, from) then Some(from)
    else FirstProxy(s, from + 1)
  }

  /** The captured port digits: the whole digit run (`\d+` is greedy and
      nothing follows it). */
  function ProxyDigits(s: string, i: nat): (d: string)
    requires ProxyAt(s, i)
    ensures d != [] && AllDigits(d)
  {
    var k := ProxyTarget(s, i) + |ProxyHead|;
    DigitPrefix(s[k..])
  }

  datatype Funnel = Funnel(active: bool, port: Option<int>, url: Option<string>)

  /** `getTailscaleFunnel` on the serve-status text: inactive unless it says
      "Funnel on"; then the first https URL and the local proxy port, each
      null when absent. */
  function FunnelOf(status: string): (f: Funnel)
    ensures f.active <==> Contains(status, "Funnel on")
    ensures !f.active ==> f == Funnel(false, None, None)
    ensures f.active ==> (f.url.None? <==> forall j :: 0 <= j ==> !UrlAt(status, j))
    ensures f.active ==> (f.port.None? <==> forall j :: 0 <= j ==> !ProxyAt(status, j))
    ensures f.url.Some? ==> |f.url.value| > 8 && f.url.value[..8] == "https://" && NoSpace(f.url.value[8..])
    ensures f.port.Some? ==> f.port.value >= 0
  {
    if status == "" || !Contains(status, "Funnel on") then Funnel(false, None, None)
    else
      var url := match FirstUrl(status, 0) case None => None case Some(i) => Some(UrlText(status, i));
      var port := match FirstProxy(status, 0) case None => None case Some(i) => Some(DecimalValue(ProxyDigits(status, i)));
      Funnel(true, port, url)
  }

  /** The port a proxy line names is read back as printed. */
  lemma ProxyPortReads(ws: string, port: nat, rest: string)
    requires ws != "" && AllSpace(ws) && (rest == [] || !IsDigit(rest[0]))
    ensures var s := "proxy" + ws + ProxyHead + NatToString(port) + rest;
      ProxyAt(s, 0) && DecimalValue(ProxyDigits(s, 0)) == port
  {
    var d := NatToString(port);
    var tail := ProxyHead + d + rest;
    ProxyTail(d, rest);
    ProxyWord(ws, tail);
    ProxyShape(ws, d, rest);
    PortDigits(port, rest);
  }

  /** After "proxy" and its white space comes the target text. */
  lemma ProxyWord(ws: string, tail: string)
    requires ws != "" && AllSpace(ws) && tail != [] && tail[0] == 'h'
    ensures var s := "proxy" + (ws + tail);
      s[..5] == "proxy" && IsSpace(s[5]) && ProxyTarget(s, 0) == 5 + |ws| && s[5 + |ws|..] == tail
  {
    var s := "proxy" + (ws + tail);
    assert s[5..] == ws + tail;
    SpaceRunOf(ws, tail);
  }

  lemma ProxyShape(ws: string, d: string, rest: string)
    ensures "proxy" + ws + ProxyHead + d + rest == "proxy" + (ws + (ProxyHead + d + rest))
  {
  }

  /** A printed port is a maximal digit run with its value. */
  lemma PortDigits(port: nat, rest: string)
    requires rest == [] || !IsDigit(rest[0])
    ensures var d := NatToString(port); d != [] && IsDigit(d[0]) && DigitPrefix(d + rest) == d && DecimalValue(d) == port
  {
    NatToStringValue(port);
    DigitPrefixOf(NatToString(port), rest);
  }

  /** The target text after the white space. */
  lemma ProxyTail(d: string, rest: string)
    ensures var tail := ProxyHead + d + rest;
      tail[..|ProxyHead|] == ProxyHead && tail[|ProxyHead|..] == d + rest && tail[0] == 'h'
  {
  }

  /** Every character is white space. */
  predicate AllSpace(ws: string) {
    forall i :: 0 <= i < |ws| ==> IsSpace(ws[i])
  }

  lemma {:induction false} SpaceRunOf(ws: string, rest: string)
    requires AllSpace(ws) && (rest == [] || rest[0] == 'h')
    ensures SpaceRun(ws + rest) == |ws|
  {
    if ws == [] {
      assert ws + rest == rest;
    } else {
      assert (ws + rest)[1..] == ws[1..] + rest;
      SpaceRunOf(ws[1..], rest);
    }
  }

  lemma {:induction false} DigitPrefixOf(d: string, rest: string)
    requires AllDigits(d) && (rest == [] || !IsDigit(rest[0]))
    ensures DigitPrefix(d + rest) == d
  {
    if d == [] {
      assert d + rest == rest;
    } else {
      assert (d + rest)[1..] == d[1..] + rest;
      DigitPrefixOf(d[1..], rest);
    }
  }

  // ---- checkRemoteHealth, isPortListening, getProcessUptime ----

  /** `checkRemoteHealth` on the HTTP code curl prints: up exactly on "200". */
  function RemoteHealth(code: string): (r: (Status, bool))
    ensures r.0 == Running <==> code == "200"
    ensures r.1 <==> code == "200"
    ensures r.0 != Errored
  {
    if code == "200" then (Running, true) else (Stopped, false)
  }

  /** `isPortListening` on the count of LISTEN lines: a positive number. */
  predicate PortListening(count: string) {
    ParseInt(count).Some? && ParseInt(count).value > 0
  }

  /** `getProcessUptime`: the elapsed time `ps` prints, or null when it prints nothing. */
  function Uptime(out: string): (r: Option<string>)
    ensures r.None? <==> out == ""
  {
    if out == "" then None else Some(out)
  }

  // ---- GET ----

  datatype View = View(def: ServiceDef, status: Status, pid: JsNum, exitCode: JsNum, portOpen: bool,
                       uptime: Option<string>, isFunneled: bool)

  /** A local service: launchd's view, upgraded to running when its port is
      listening. */
  function LocalView(svc: ServiceDef, shell: string -> string, funnel: Funnel): (v: View)
    ensures var ld := ServiceStatus(shell(LaunchctlList(svc.plist)));
      && (v.portOpen ==> v.status == Running)
      && (!v.portOpen ==> v.status == ld.status)
      && v.pid == ld.pid && v.exitCode == ld.exitCode
      && (v.uptime.Some? ==> v.pid.Val? && v.pid.n > 0)
    ensures v.portOpen <==> svc.port.Some? && svc.port.value != 0 && PortListening(shell(Lsof(svc.port.value)))
    ensures v.isFunneled <==> funnel.active && funnel.port == svc.port
    ensures v.def == svc
  {
    var ld := ServiceStatus(shell(LaunchctlList(svc.plist)));
    var portOpen := if svc.port.Some? && svc.port.value != 0 then PortListening(shell(Lsof(svc.port.value))) else false;
    var uptime := if Truthy(ld.pid) then Uptime(shell(Ps(ld.pid.n))) else None;
    var status := if portOpen && ld.status != Running then Running else ld.status;
    View(svc, status, ld.pid, ld.exitCode, portOpen, uptime, funnel.active && funnel.port == svc.port)
  }

  /** A remote service: up exactly when its HTTP check answers 200. */
  function RemoteView(svc: ServiceDef, shell: string -> string, funnel: Funnel): (v: View)
    requires svc.remote.Some? && svc.port.Some?
    ensures v.status == Running <==> shell(Curl(svc.remote.value.host, svc.port.value)) == "200"
    ensures v.portOpen <==> v.status == Running
    ensures v.status != Errored && v.pid == Null && v.exitCode == Null && v.uptime.None?
    ensures v.isFunneled <==> funnel.active && funnel.port == svc.port
    ensures v.def == svc
  {
    var (status, portOpen) := RemoteHealth(shell(Curl(svc.remote.value.host, svc.port.value)));
    View(svc, status, Null, Null, portOpen, None, funnel.active && funnel.port == svc.port)
  }

  /** Every remote service in the registry has a port. */
  predicate WellFormed(svc: ServiceDef) {
    svc.remote.Some? ==> svc.port.Some?
  }

  function ViewOf(svc: ServiceDef, shell: string -> string, funnel: Funnel): (v: View)
    requires WellFormed(svc)
    ensures v.def == svc
    ensures v.isFunneled <==> funnel.active && funnel.port == svc.port
  {
    if svc.remote.Some? then RemoteView(svc, shell, funnel) else LocalView(svc, shell, funnel)
  }

  /** Three services, and the remote one has a port. */
  lemma RegistryFacts()
    ensures |Registry| == 3 && forall i :: 0 <= i < |Registry| ==> WellFormed(Registry[i])
  {
  }

  datatype Overview = Overview(services: seq<View>, funnel: Funnel)

  /** `GET /api/services`: one view per registered service, in registry order,
      all compared against one reading of the funnel. */
  function Get(shell: string -> string): (r: Overview)
    ensures r.funnel == FunnelOf(shell(ServeStatus))
    ensures |r.services| == |Registry|
    ensures forall i :: 0 <= i < |Registry| ==>
      r.services[i].def == Registry[i] &&
      (r.services[i].isFunneled <==> r.funnel.active && r.funnel.port == Registry[i].port)
  {
    var funnel := FunnelOf(shell(ServeStatus));
    RegistryFacts();
    Overview(seq(|Registry|, i requires 0 <= i < |Registry| => ViewOf(Registry[i], shell, funnel)), funnel)
  }

  // ---- POST ----

  /** `find`: the first service in `rs` with this id. */
  function FindIn(rs: seq<ServiceDef>, id: string): (r: Option<ServiceDef>)
    ensures r.Some? ==> r.value in rs && r.value.id == id
    ensures r.None? <==> forall i :: 0 <= i < |rs| ==> rs[i].id != id
  {
    if rs == [] then None
    else if rs[0].id == id then Some(rs[0])
    else FindIn(rs[1..], id)
  }

  /** The registered service with this id. */
  function Find(id: string): (r: Option<ServiceDef>)
    ensures r.Some? ==> WellFormed(r.value)
  {
    RegistryFacts();
    FindIn(Registry, id)
  }

  predicate IsLifecycle(action: string) {
    action == "start" || action == "stop" || action == "restart"
  }

  /** The launch agent's file under the user's home directory. */
  function PlistPath(svc: ServiceDef, home: string): string {
    home + "/Library/LaunchAgents/" + svc.plist + ".plist"
  }

  /** The commands the first switch runs; a restart waits 1.5 s between
      unloading and loading. A remote service gets one brew command with the
      action as its verb; a local one unloads its agent to stop, and loads and
      then starts it to start. */
  function ActionCommands(svc: ServiceDef, action: string, home: string): (cmds: seq<Command>)
    ensures IsLifecycle(action) <==> cmds != []
    ensures svc.remote.Some? && IsLifecycle(action) ==>
      cmds == [Brew(svc.remote.value.sshUser, svc.remote.value.host, action)]
    ensures svc.remote.None? && action == "stop" ==> cmds == [Unload(PlistPath(svc, home))]
    ensures svc.remote.None? && (action == "start" || action == "restart") ==>
      |cmds| >= 2 && cmds[|cmds| - 2..] == [Load(PlistPath(svc, home)), Start(svc.plist)]
  {
    var plistPath := PlistPath(svc, home);
    if !IsLifecycle(action) then []
    else if svc.remote.Some? then [Brew(svc.remote.value.sshUser, svc.remote.value.host, action)]
    else if action == "start" then [Load(plistPath), Start(svc.plist)]
    else if action == "stop" then [Unload(plistPath)]
    else [Unload(plistPath), Load(plistPath), Start(svc.plist)]
  }

  /** A local restart is a stop followed by a start. */
  lemma RestartIsStopThenStart(svc: ServiceDef, home: string)
    requires svc.remote.None?
    ensures ActionCommands(svc, "restart", home) ==
      ActionCommands(svc, "stop", home) + ActionCommands(svc, "start", home)
  {
  }

  datatype PostReply = Error(code: nat, error: string) | Fresh(view: View, funnel: Funnel)

  /** The fresh status a successful action answers with. Unlike the listing,
      a local service keeps launchd's status even when its port is open, and
      a remote service is always reported as not funneled. */
  function FreshView(svc: ServiceDef, shell: string -> string, funnel: Funnel): (v: View)
    requires WellFormed(svc)
    ensures svc.remote.Some? ==> !v.isFunneled
    ensures svc.remote.Some? ==> v == RemoteView(svc, shell, funnel).(isFunneled := false)
    ensures svc.remote.None? ==> var ld := ServiceStatus(shell(LaunchctlList(svc.plist)));
      && v.status == ld.status && v.pid == ld.pid && v.exitCode == ld.exitCode
      && (v.portOpen <==> svc.port.Some? && svc.port.value != 0 && PortListening(shell(Lsof(svc.port.value))))
      && (v.isFunneled <==> funnel.active && funnel.port == svc.port)
      && (v.uptime.Some? ==> v.pid.Val? && v.pid.n > 0)
    ensures svc.remote.None? ==> var l := ViewOf(svc, shell, funnel);
      && v.(status := l.status) == l
      && (v.status != l.status <==> l.portOpen && v.status != Running)
    ensures v.def == svc
  {
    if svc.remote.Some? then RemoteView(svc, shell, funnel).(isFunneled := false)
    else
      var lv := LocalView(svc, shell, funnel);
      lv.(status := ServiceStatus(shell(LaunchctlList(svc.plist))).status)
  }

  /** What the funnel actions answer and run for a known service: funnel-on
      needs a usable port and a funnelable service and then turns the funnel
      off, serves the port in the background and turns the funnel on;
      funnel-off only turns it off; both then answer with the fresh view and
      funnel state. Anything else is an unknown action that runs nothing. */
  predicate Dispatched(svc: ServiceDef, action: string, after: string -> string, reply: PostReply, ran: seq<Command>)
    requires WellFormed(svc)
  {
    var funnel := FunnelOf(after(ServeStatus));
    if action == "funnel-on" then
      if svc.port.Some? && svc.port.value != 0 && svc.funnelable then
        ran == [FunnelOff, ServeBg(svc.port.value), FunnelOn] && reply == Fresh(FreshView(svc, after, funnel), funnel)
      else reply == Error(400, "Service cannot be funneled") && ran == []
    else if action == "funnel-off" then
      ran == [FunnelOff] && reply == Fresh(FreshView(svc, after, funnel), funnel)
    else reply == Error(400, "Unknown action") && ran == []
  }

  /** The second switch of the action handler and the fresh status after it:
      only the funnel actions get that far. */
  method Dispatch(svc: ServiceDef, action: string, after: string -> string) returns (reply: PostReply, ran: seq<Command>)
    requires WellFormed(svc)
    ensures Dispatched(svc, action, after, reply, ran)
    ensures reply.Fresh? <==> (action == "funnel-off" ||
      (action == "funnel-on" && svc.port.Some? && svc.port.value != 0 && svc.funnelable))
  {
    ran := [];
    if action == "funnel-on" {
      if svc.port.None? || svc.port.value == 0 || !svc.funnelable {
        return Error(400, "Service cannot be funneled"), ran;
      }
      ran := ran + [FunnelOff];
      ran := ran + [ServeBg(svc.port.value)];
      ran := ran + [FunnelOn];
    } else if action == "funnel-off" {
      ran := ran + [FunnelOff];
    } else {
      return Error(400, "Unknown action"), ran;
    }
    var funnel := FunnelOf(after(ServeStatus));
    reply := Fresh(FreshView(svc, after, funnel), funnel);
  }

  /** `POST /api/services` with `{id, action}`. `ran` lists the commands
      run, in order; `after` gives the outputs of the status commands run
      after the settle delay. An unknown id is refused before anything runs;
      start, stop and restart run their commands and then fall through to
      the "Unknown action" answer. */
  method Post(id: string, action: string, home: string, after: string -> string)
    returns (reply: PostReply, ran: seq<Command>)
    ensures Find(id).None? ==> reply == Error(404, "Unknown service") && ran == []
    ensures Find(id).Some? && IsLifecycle(action) ==>
      reply == Error(400, "Unknown action") && ran == ActionCommands(Find(id).value, action, home) && ran != []
    ensures Find(id).Some? && !IsLifecycle(action) ==> Dispatched(Find(id).value, action, after, reply, ran)
  {
    var found := Find(id);
    if found.None? {
      return Error(404, "Unknown service"), [];
    }
    var svc := found.value;
    var first := ActionCommands(svc, action, home);
    var second;
    reply, second := Dispatch(svc, action, after);
    ran := first + second;
  }
}
