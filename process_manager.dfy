/**
 * The host's table of running module backends: starting a module (reusing a
 * live process, relaunching an exited one), stopping it, and the helpers
 * that choose the program, template the arguments and wait for the health
 * endpoint. Everything the operating system decides (whether a child is
 * still running, whether the module directory exists, whether spawning and
 * killing succeed, what each health probe reads back) arrives as a parameter.
 */
module ProcessManager {
  import opened Wrappers
  import opened Text

  type Port = p: int | 0 <= p < 0x1_0000
  type Pid = p: int | 0 <= p < 0x1_0000_0000

  /** The manifest fields this file reads. */
  datatype Backend = Backend(enabled: bool, language: string, entrypoint: string, args: seq<string>, healthCheck: Option<string>)
  datatype Manifest = Manifest(id: string, backend: Backend)

  /** A table entry: the child (identified by its pid) and the port it was started on. */
  datatype ManagedProcess = ManagedProcess(pid: Pid, port: Port)

  type Table = map<string, ManagedProcess>

  // ------------------------------------------------------------------ health path

  const DefaultHealthPath: string := "/health"

  /** `normalize_health_path`: trimmed, `/health` when absent or blank, a leading `/` added when missing. */
  function NormalizeHealthPath(raw: Option<string>): string {
    var path := if raw.Some? && TrimRust(raw.value) != "" then TrimRust(raw.value) else DefaultHealthPath;
    if StartsWith(path, "/") then path else "/" + path
  }

  lemma NormalizedStartsWithSlash(raw: Option<string>)
    ensures StartsWith(NormalizeHealthPath(raw), "/")
  {
  }

  lemma BlankIsDefault(raw: Option<string>)
    requires raw.None? || TrimRust(raw.value) == ""
    ensures NormalizeHealthPath(raw) == "/health"
  {
  }

  /** A path that is already trimmed and begins with `/` is kept as it is. */
  lemma SlashPathUnchanged(path: string)
    requires StartsWith(path, "/") && !IsRustSpace(path[|path| - 1])
    ensures NormalizeHealthPath(Some(path)) == path
  {
    assert path[0] == '/';
    TrimOfTrimmed(path, IsRustSpace);
  }

  /** A path without the leading slash gets exactly one. */
  lemma MissingSlashAdded(path: string)
    requires path != [] && path[0] != '/' && !IsRustSpace(path[0]) && !IsRustSpace(path[|path| - 1])
    ensures NormalizeHealthPath(Some(path)) == "/" + path
  {
    TrimOfTrimmed(path, IsRustSpace);
  }

  lemma NormalizeIdempotent(raw: Option<string>)
    ensures NormalizeHealthPath(Some(NormalizeHealthPath(raw))) == NormalizeHealthPath(raw)
  {
    var r := NormalizeHealthPath(raw);
    NormalizedStartsWithSlash(raw);
    if raw.Some? && TrimRust(raw.value) != "" {
      var path := TrimRust(raw.value);
      assert !IsRustSpace(path[|path| - 1]);
      assert r[|r| - 1] == path[|path| - 1];
    } else {
      assert r == DefaultHealthPath;
      assert r[|r| - 1] == 'h';
    }
    SlashPathUnchanged(r);
  }

  // ------------------------------------------------------------------ program and arguments

  predicate IsAsciiUpper(c: char) {
    'A' <= c <= 'Z'
  }

  /** One character lowercased: `A`-`Z` become `a`-`z`. */
  function LowerAscii(c: char): char {
    if IsAsciiUpper(c) then (c as int + 32) as char else c
  }

  /** `to_lowercase` on every character: no ASCII capital is left, and every other character stays. */
  function ToLowerAscii(s: string): (r: string)
    ensures |r| == |s|
    ensures forall i :: 0 <= i < |r| ==> !IsAsciiUpper(r[i])
    ensures forall i :: 0 <= i < |s| && !IsAsciiUpper(s[i]) ==> r[i] == s[i]
  {
    seq(|s|, i requires 0 <= i < |s| => LowerAscii(s[i]))
  }

  const UnsupportedLanguagePrefix: string := "不支持的后端语言: "

  /** The program for a backend language, matched after lowercasing. */
  function SelectProgram(language: string): (r: Result<string>)
    ensures r.Ok? ==> r.value in {"python", "node", "java"}
    ensures r.Err? <==> ToLowerAscii(language) !in {"python", "node", "javascript", "java"}
    ensures r.Err? ==> r.message == UnsupportedLanguagePrefix + ToLowerAscii(language)
  {
    var lang := ToLowerAscii(language);
    if lang == "python" then Ok("python")
    else if lang == "node" || lang == "javascript" then Ok("node")
    else if lang == "java" then Ok("java")
    else Err(UnsupportedLanguagePrefix + lang)
  }

  /** Lowercasing twice is lowercasing once, so the choice ignores case entirely. */
  lemma SelectIgnoresCase(language: string)
    ensures ToLowerAscii(ToLowerAscii(language)) == ToLowerAscii(language)
    ensures SelectProgram(ToLowerAscii(language)) == SelectProgram(language)
  {
    assert ToLowerAscii(ToLowerAscii(language)) == ToLowerAscii(language);
  }

  /** Matching ignores case: `Python` runs python. */
  lemma MixedCasePython()
    ensures SelectProgram("Python") == Ok("python")
  {
    var l := ToLowerAscii("Python");
    assert l[0] == 'p';
    assert l == "python";
  }

  /** `JavaScript` runs node, like `node`. */
  lemma JavaScriptRunsNode()
    ensures SelectProgram("JavaScript") == Ok("node") && SelectProgram("node") == Ok("node")
  {
    LowerJavaScript();
    assert ToLowerAscii("node") == "node";
  }

  /** `JavaScript` lowercased, character by character. */
  lemma LowerJavaScript()
    ensures ToLowerAscii("JavaScript") == "javascript"
  {
    var l := ToLowerAscii("JavaScript");
    assert l[0] == 'j' && l[1] == 'a' && l[2] == 'v' && l[3] == 'a' && l[4] == 's';
    assert l[5] == 'c' && l[6] == 'r' && l[7] == 'i' && l[8] == 'p' && l[9] == 't';
  }

  /** An unsupported language is named, lowercased, in the error. */
  lemma UnsupportedNamed()
    ensures SelectProgram("Go") == Err("不支持的后端语言: go")
  {
    var l := ToLowerAscii("Go");
    assert l[0] == 'g';
    assert l == "go";
  }

  const PortPlaceholder: string := "{PORT}"

  /** `[entrypoint] ++ args.map(|a| a.replace("{PORT}", port))`: the entrypoint itself is not templated. */
  function FinalArgs(entrypoint: string, args: seq<string>, port: Port): (r: seq<string>)
    ensures |r| == |args| + 1 && r[0] == entrypoint
  {
    [entrypoint] + seq(|args|, i requires 0 <= i < |args| => ReplaceAll(args[i], PortPlaceholder, NatToString(port)))
  }

  /** Every templated argument is free of the placeholder; one without it is passed on unchanged. */
  lemma ArgsTemplated(entrypoint: string, args: seq<string>, port: Port, i: nat)
    requires i < |args|
    ensures !Contains(FinalArgs(entrypoint, args, port)[i + 1], PortPlaceholder)
    ensures !Contains(args[i], PortPlaceholder) ==> FinalArgs(entrypoint, args, port)[i + 1] == args[i]
  {
    var digits := NatToString(port);
    assert Disjoint(PortPlaceholder, digits) by {
      forall a, b | 0 <= a < |PortPlaceholder| && 0 <= b < |digits| ensures PortPlaceholder[a] != digits[b] {
        assert IsDigit(digits[b]);
      }
    }
    ReplaceLeavesNone(args[i], PortPlaceholder, digits);
    if !Contains(args[i], PortPlaceholder) {
      ReplaceAbsent(args[i], PortPlaceholder, digits);
    }
  }

  lemma PortArgExample()
    ensures FinalArgs("main.py", ["{PORT}"], 8080) == ["main.py", "8080"]
  {
    assert NatToString(8080) == "8080";
    var arg := ReplaceAll("{PORT}", PortPlaceholder, "8080");
    assert "{PORT}"[..|PortPlaceholder|] == PortPlaceholder;
    assert "{PORT}"[|PortPlaceholder|..] == "";
    assert arg == "8080" + ReplaceAll("", PortPlaceholder, "8080");
    assert arg == "8080";
    var r := FinalArgs("main.py", ["{PORT}"], 8080);
    assert r[1] == arg;
  }

  // ------------------------------------------------------------------ health check

  const HealthRetryCount: nat := 20

  /** `check_health_endpoint` on what the probe read back; `None` when connecting, writing or reading failed. */
  function HealthResponseOk(response: Option<string>): bool {
    response.Some? && (StartsWith(response.value, "HTTP/1.1 2") || StartsWith(response.value, "HTTP/1.0 2"))
  }

  lemma StatusLineExamples()
    ensures HealthResponseOk(Some("HTTP/1.1 200 OK"))
    ensures HealthResponseOk(Some("HTTP/1.0 204 No Content"))
    ensures !HealthResponseOk(Some("HTTP/1.1 404 Not Found"))
    ensures !HealthResponseOk(Some("HTTP/2 200"))
    ensures !HealthResponseOk(None)
  {
    assert "HTTP/1.1 200 OK"[..10] == "HTTP/1.1 2";
    assert "HTTP/1.0 204 No Content"[..10] == "HTTP/1.0 2";
    assert "HTTP/1.1 404 Not Found"[..10][9] != "HTTP/1.1 2"[9];
    assert "HTTP/1.1 404 Not Found"[..10][7] != "HTTP/1.0 2"[7];
    assert "HTTP/2 200"[..10][5] != "HTTP/1.1 2"[5];
    assert "HTTP/2 200"[..10][5] != "HTTP/1.0 2"[5];
  }

  /** Some attempt among the first `n` probes succeeds. */
  predicate SucceedsWithin(probe: nat -> Option<string>, n: nat) {
    exists i :: 0 <= i < n && HealthResponseOk(probe(i))
  }

  function HealthFailure(port: Port, path: string): string {
    "重试 " + NatToString(HealthRetryCount) + " 次后仍无法访问健康检查端点: http://127.0.0.1:" + NatToString(port) + path
  }

  /** What `wait_for_health` returns for the probe results of its attempts. */
  function WaitForHealthResult(port: Port, path: string, probe: nat -> Option<string>): Result<()> {
    if SucceedsWithin(probe, HealthRetryCount) then Ok(()) else Err(HealthFailure(port, path))
  }

  /** The retry loop: stops at the first successful probe and gives up after 20 attempts. */
  method WaitForHealth(port: Port, path: string, probe: nat -> Option<string>) returns (r: Result<()>, attempts: nat)
    ensures r == WaitForHealthResult(port, path, probe)
    ensures 1 <= attempts <= HealthRetryCount
    ensures r.Ok? ==> HealthResponseOk(probe(attempts - 1)) && forall j :: 0 <= j < attempts - 1 ==> !HealthResponseOk(probe(j))
    ensures r.Err? ==> attempts == HealthRetryCount
  {
    var i := 0;
    while i < HealthRetryCount
      invariant 0 <= i <= HealthRetryCount
      invariant forall j :: 0 <= j < i ==> !HealthResponseOk(probe(j))
    {
      if HealthResponseOk(probe(i)) {
        return Ok(()), i + 1;
      }
      i := i + 1;
    }
    return Err(HealthFailure(port, path)), HealthRetryCount;
  }

  // ------------------------------------------------------------------ the table

  /** What `try_wait` reports for a tabled child. */
  datatype Liveness = Running | Exited | StatusError(message: string)

  /** The operating system's answers during one `start_module` call. */
  datatype World = World(
    liveness: Liveness,               // try_wait on the existing child, if there is one
    dirExists: bool,                  // the module directory exists
    modulePath: string,               // the directory as the error message prints it
    spawn: Result<Pid>,               // spawning the command
    probe: nat -> Option<string>)     // what the i-th health probe reads back

  /** The command handed to the operating system. */
  datatype Command = Command(program: string, args: seq<string>, cwd: string)

  /** Everything `start_module` produces: its result, the new table, what it spawned and whether it killed the child again. */
  datatype StartOutcome = StartOutcome(result: Result<(Pid, Port)>, table: Table, spawned: Option<Command>, killed: bool)

  const DisabledMessage: string := "模块后端未启用"

  function StartModuleSpec(table: Table, m: Manifest, port: Port, waitHealth: bool, w: World): StartOutcome {
    if !m.backend.enabled then StartOutcome(Err(DisabledMessage), table, None, false)
    else if m.id in table && w.liveness.Running? then
      StartOutcome(Ok((table[m.id].pid, table[m.id].port)), table, None, false)
    else if m.id in table && w.liveness.StatusError? then
      StartOutcome(Err("检查进程状态失败: " + w.liveness.message), table, None, false)
    else
      var cleared := table - {m.id};
      match SelectProgram(m.backend.language)
      case Err(e) => StartOutcome(Err(e), cleared, None, false)
      case Ok(program) =>
        if !w.dirExists then StartOutcome(Err("模块目录不存在: " + w.modulePath), cleared, None, false)
        else
          var command := Command(program, FinalArgs(m.backend.entrypoint, m.backend.args, port), w.modulePath);
          match w.spawn
          case Err(e) => StartOutcome(Err("启动进程失败: " + e), cleared, Some(command), false)
          case Ok(pid) =>
            var health := if waitHealth then WaitForHealthResult(port, NormalizeHealthPath(m.backend.healthCheck), w.probe) else Ok(());
            if health.Err? then
              StartOutcome(Err("模块 " + m.id + " 健康检查失败: " + health.message), cleared, Some(command), true)
            else
              StartOutcome(Ok((pid, port)), cleared[m.id := ManagedProcess(pid, port)], Some(command), false)
  }

  /** A disabled backend fails before the table is read or changed, and nothing is spawned. */
  lemma DisabledTouchesNothing(table: Table, m: Manifest, port: Port, waitHealth: bool, w: World)
    requires !m.backend.enabled
    ensures StartModuleSpec(table, m, port, waitHealth, w) == StartOutcome(Err("模块后端未启用"), table, None, false)
  {
  }

  /** A live entry is reused: its own pid and port are returned whatever port was asked for. */
  lemma RunningEntryReused(table: Table, m: Manifest, port: Port, otherPort: Port, waitHealth: bool, w: World)
    requires m.backend.enabled && m.id in table && w.liveness.Running?
    ensures StartModuleSpec(table, m, port, waitHealth, w) == StartOutcome(Ok((table[m.id].pid, table[m.id].port)), table, None, false)
    ensures StartModuleSpec(table, m, port, waitHealth, w) == StartModuleSpec(table, m, otherPort, waitHealth, w)
  {
  }

  /**
   * Whatever happens, only the module's own entry can change; an exited or
   * absent entry is gone afterwards unless a new process with the requested
   * port took its place.
   */
  lemma StartChangesOnlyOwnEntry(table: Table, m: Manifest, port: Port, waitHealth: bool, w: World)
    ensures var o := StartModuleSpec(table, m, port, waitHealth, w);
      && (forall k :: k != m.id ==> (k in o.table <==> k in table) && (k in table ==> o.table[k] == table[k]))
      && ((m.id in table && !w.liveness.Exited?) || !m.backend.enabled ==> o.table == table)
      && (m.backend.enabled && (m.id !in table || w.liveness.Exited?) ==>
            if o.result.Ok? then m.id in o.table && o.table[m.id] == ManagedProcess(o.result.value.0, port)
            else m.id !in o.table)
  {
  }

  /** After a successful launch the tabled process is the spawned one on the requested port. */
  lemma LaunchInserts(table: Table, m: Manifest, port: Port, waitHealth: bool, w: World, pid: Pid)
    requires m.backend.enabled && (m.id !in table || w.liveness.Exited?)
    requires SelectProgram(m.backend.language).Ok? && w.dirExists && w.spawn == Ok(pid)
    requires waitHealth ==> SucceedsWithin(w.probe, HealthRetryCount)
    ensures StartModuleSpec(table, m, port, waitHealth, w).result == Ok((pid, port))
    ensures StartModuleSpec(table, m, port, waitHealth, w).table == table[m.id := ManagedProcess(pid, port)]
  {
    assert (table - {m.id})[m.id := ManagedProcess(pid, port)] == table[m.id := ManagedProcess(pid, port)];
  }

  /** A failed health check kills the child, inserts nothing, and names the module in the error. */
  lemma HealthFailureKills(table: Table, m: Manifest, port: Port, w: World, pid: Pid)
    requires m.backend.enabled && (m.id !in table || w.liveness.Exited?)
    requires SelectProgram(m.backend.language).Ok? && w.dirExists && w.spawn == Ok(pid)
    requires !SucceedsWithin(w.probe, HealthRetryCount)
    ensures var o := StartModuleSpec(table, m, port, true, w);
      && o.killed && m.id !in o.table && o.result.Err?
      && StartsWith(o.result.message, "模块 " + m.id + " 健康检查失败: ")
  {
    var o := StartModuleSpec(table, m, port, true, w);
    var prefix := "模块 " + m.id + " 健康检查失败: ";
    assert o.result.message == prefix + HealthFailure(port, NormalizeHealthPath(m.backend.healthCheck));
    assert o.result.message[..|prefix|] == prefix;
  }

  /** The spawned command runs the chosen program on the templated arguments inside the module directory. */
  lemma SpawnedCommand(table: Table, m: Manifest, port: Port, waitHealth: bool, w: World)
    requires m.backend.enabled && (m.id !in table || w.liveness.Exited?)
    requires SelectProgram(m.backend.language).Ok? && w.dirExists
    ensures StartModuleSpec(table, m, port, waitHealth, w).spawned
      == Some(Command(SelectProgram(m.backend.language).value, FinalArgs(m.backend.entrypoint, m.backend.args, port), w.modulePath))
  {
  }

  /** What `stop_module` returns: the entry is always removed; the kill result decides the message. */
  function StopResult(present: bool, id: string, killError: Option<string>): Result<string> {
    if !present then Err("未找到运行中的模块: " + id)
    else match killError
      case None => Ok("模块 " + id + " 已停止")
      case Some(e) => Err("停止模块 " + id + " 失败: " + e)
  }

  class ProcessTable {
    var processes: Table

    constructor()
      ensures processes == map[]
    {
      processes := map[];
    }

    method StartModule(m: Manifest, port: Port, waitHealth: bool, w: World)
      returns (r: Result<(Pid, Port)>, spawned: Option<Command>, killed: bool)
      modifies this
      ensures StartOutcome(r, processes, spawned, killed) == StartModuleSpec(old(processes), m, port, waitHealth, w)
    {
      spawned, killed := None, false;
      if !m.backend.enabled {
        return Err(DisabledMessage), spawned, killed;
      }
      if m.id in processes {
        match w.liveness {
          case Running =>
            var existing := processes[m.id];
            return Ok((existing.pid, existing.port)), spawned, killed;
          case Exited =>
          case StatusError(e) =>
            return Err("检查进程状态失败: " + e), spawned, killed;
        }
      }
      processes := processes - {m.id};

      var program := SelectProgram(m.backend.language);
      if program.Err? {
        return Err(program.message), spawned, killed;
      }
      var finalArgs := FinalArgs(m.backend.entrypoint, m.backend.args, port);
      if !w.dirExists {
        return Err("模块目录不存在: " + w.modulePath), spawned, killed;
      }
      spawned := Some(Command(program.value, finalArgs, w.modulePath));
      if w.spawn.Err? {
        return Err("启动进程失败: " + w.spawn.message), spawned, killed;
      }
      var pid := w.spawn.value;
      if waitHealth {
        var health, _ := WaitForHealth(port, NormalizeHealthPath(m.backend.healthCheck), w.probe);
        if health.Err? {
          killed := true;
          return Err("模块 " + m.id + " 健康检查失败: " + health.message), spawned, killed;
        }
      }
      processes := processes[m.id := ManagedProcess(pid, port)];
      return Ok((pid, port)), spawned, killed;
    }

    /** The entry is removed whether or not the kill succeeds; an unknown id leaves the table as it was. */
    method StopModule(id: string, killError: Option<string>) returns (r: Result<string>)
      modifies this
      ensures processes == old(processes) - {id}
      ensures id !in old(processes) ==> processes == old(processes)
      ensures r == StopResult(id in old(processes), id, killError)
    {
      if id in processes {
        processes := processes - {id};
        match killError {
          case None => return Ok("模块 " + id + " 已停止");
          case Some(e) => return Err("停止模块 " + id + " 失败: " + e);
        }
      }
      return Err("未找到运行中的模块: " + id);
    }
  }

  /** Starting a module, starting it again while it runs, and stopping it: the second start reuses the first process. */
  method StartTwiceThenStop(m: Manifest, w: World, pid: Pid) returns (first: Result<(Pid, Port)>, second: Result<(Pid, Port)>, stopped: Result<string>, left: Table)
    requires m.backend.enabled && SelectProgram(m.backend.language).Ok? && w.dirExists && w.spawn == Ok(pid)
    requires w.liveness.Running?
    ensures first == Ok((pid, 8000)) && second == Ok((pid, 8000))
    ensures stopped == Ok("模块 " + m.id + " 已停止") && left == map[]
  {
    var t := new ProcessTable();
    var s1, k1;
    first, s1, k1 := t.StartModule(m, 8000, false, w);
    second, s1, k1 := t.StartModule(m, 9000, false, w);
    stopped := t.StopModule(m.id, None);
    left := t.processes;
  }
}
