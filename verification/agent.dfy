/**
 * The agent's lifecycle (src/agent.cpp): option parsing, the JVMTI calls
 * that switch event notifications on and off, and the attach/shutdown
 * singleton over `_vm`, `_jvmti` and `attach_count`.
 *
 * The JVMTI environment is an object that records the calls made on it;
 * what the runtime answers to the n-th call is a function fixed when the
 * environment is created. The host (JNI availability, which paths can be
 * opened, the process id, the phase, the thread snapshot) is a parameter.
 */
module Agent {
  import opened Wrappers
  import opened Utils
  import opened Events
  import opened Threads

  // ---------------------------------------------------------------------------
  // Option tokens
  // ---------------------------------------------------------------------------

  /** What the option string asks for. */
  datatype Options = Options(shutdown: bool, force: bool, eventsFile: string, logFile: string)

  const NoOptions: Options := Options(false, false, "", "")

  const EventsFilePrefix: string := "events_file="
  const LogFilePrefix: string := "log_file="

  /** The effect of one token: a file name after its prefix, or one of the
      two shutdown commands; anything else is ignored. */
  function ApplyToken(o: Options, arg: string): Options
  {
    if StartsWith(arg, EventsFilePrefix) then o.(eventsFile := arg[|EventsFilePrefix|..])
    else if StartsWith(arg, LogFilePrefix) then o.(logFile := arg[|LogFilePrefix|..])
    else if arg == "shutdown" then o.(shutdown := true)
    else if arg == "forceshutdown" then o.(shutdown := true, force := true)
    else o
  }

  /** The options the tokens `args` set, read from left to right. */
  function Parse(args: seq<string>): Options
  {
    if args == [] then NoOptions else ApplyToken(Parse(args[..|args| - 1]), args[|args| - 1])
  }

  /** The tokens of the option string: none when the agent gets none. */
  function Tokens(options: Option<string>): seq<string>
  {
    match options
    case None => []
    case Some(s) => Split(s, ',')
  }

  lemma ParseSnoc(args: seq<string>, i: nat)
    requires i < |args|
    ensures Parse(args[..i + 1]) == ApplyToken(Parse(args[..i]), args[i])
  {
    assert args[..i + 1][..i] == args[..i];
  }

  /** `agent_main`'s token loop. */
  method ParseOptions(options: Option<string>) returns (o: Options)
    ensures o == Parse(Tokens(options))
  {
    var args: seq<string> := [];
    if options.Some? {
      args := SplitString(options.value, ',');
    }
    o := NoOptions;
    for i := 0 to |args|
      invariant o == Parse(args[..i])
    {
      var arg := args[i];
      if StartsWith(arg, EventsFilePrefix) {
        o := o.(eventsFile := arg[|EventsFilePrefix|..]);
      } else if StartsWith(arg, LogFilePrefix) {
        o := o.(logFile := arg[|LogFilePrefix|..]);
      } else if arg == "shutdown" {
        o := o.(shutdown := true);
      } else if arg == "forceshutdown" {
        o := o.(shutdown := true, force := true);
      }
      ParseSnoc(args, i);
    }
    assert args[..|args|] == args;
  }

  /** The index of the last token starting with `prefix`, or -1. */
  function LastWith(args: seq<string>, prefix: string): (r: int)
    ensures -1 <= r < |args|
    ensures r >= 0 ==> prefix <= args[r]
    ensures forall l :: r < l < |args| ==> !(prefix <= args[l])
  {
    if args == [] then -1
    else if prefix <= args[|args| - 1] then |args| - 1
    else LastWith(args[..|args| - 1], prefix)
  }

  /** The last `events_file=` token names the events file; without one the
      name is empty. */
  lemma {:induction false} EventsFileIsLast(args: seq<string>)
    ensures var r := LastWith(args, EventsFilePrefix);
      Parse(args).eventsFile == if r < 0 then "" else args[r][|EventsFilePrefix|..]
  {
    if args != [] {
      var init := args[..|args| - 1];
      EventsFileIsLast(init);
      if !(EventsFilePrefix <= args[|args| - 1]) {
        assert LastWith(args, EventsFilePrefix) == LastWith(init, EventsFilePrefix);
      }
    }
  }

  /** The last `log_file=` token names the log file; without one the name is
      empty. */
  lemma {:induction false} LogFileIsLast(args: seq<string>)
    ensures var r := LastWith(args, LogFilePrefix);
      Parse(args).logFile == if r < 0 then "" else args[r][|LogFilePrefix|..]
  {
    if args != [] {
      var init := args[..|args| - 1];
      var last := args[|args| - 1];
      LogFileIsLast(init);
      if EventsFilePrefix <= last {
        assert last[0] == 'e';
        assert !(LogFilePrefix <= last);
      }
      if !(LogFilePrefix <= last) {
        assert LastWith(args, LogFilePrefix) == LastWith(init, LogFilePrefix);
      }
    }
  }

  /** A shutdown is requested exactly when a `shutdown` or `forceshutdown`
      token is present, and forced exactly when `forceshutdown` is. */
  lemma {:induction false} ShutdownTokens(args: seq<string>)
    ensures Parse(args).shutdown <==> "shutdown" in args || "forceshutdown" in args
    ensures Parse(args).force <==> "forceshutdown" in args
  {
    if args != [] {
      var init := args[..|args| - 1];
      var last := args[|args| - 1];
      ShutdownTokens(init);
      assert args == init + [last];
      if EventsFilePrefix <= last {
        assert last[0] == 'e';
      } else if LogFilePrefix <= last {
        assert last[0] == 'l';
      }
    }
  }

  /** A token is one `agent_main` acts on. */
  predicate Recognized(arg: string)
  {
    EventsFilePrefix <= arg || LogFilePrefix <= arg || arg == "shutdown" || arg == "forceshutdown"
  }

  /** An unrecognized token, wherever it stands, changes nothing. */
  lemma {:induction false} UnknownTokenIgnored(front: seq<string>, u: string, back: seq<string>)
    requires !Recognized(u)
    ensures Parse(front + [u] + back) == Parse(front + back)
    decreases |back|
  {
    if back == [] {
      assert (front + [u] + back)[..|front| + 1 - 1] == front;
      assert front + back == front;
    } else {
      var init := back[..|back| - 1];
      var last := back[|back| - 1];
      UnknownTokenIgnored(front, u, init);
      assert (front + [u] + back)[..|front + [u] + back| - 1] == front + [u] + init;
      assert (front + back)[..|front + back| - 1] == front + init;
    }
  }

  // ---------------------------------------------------------------------------
  // The JVMTI environment
  // ---------------------------------------------------------------------------

  /** The events the agent may switch on. */
  datatype EventKind =
    | CompiledMethodLoad | CompiledMethodUnload | DynamicCodeGenerated
    | ThreadStart | ThreadEnd | VmDeath | VmInit

  /** `EVENTS_LISTEN_TO`, in its order. */
  const ListenedEvents: seq<EventKind> :=
    [CompiledMethodLoad, CompiledMethodUnload, DynamicCodeGenerated, ThreadStart, ThreadEnd, VmDeath]

  /** The JVMTI calls the agent makes. */
  datatype Call =
    | SetNotification(enable: bool, event: EventKind)
    | GenerateEvents(kind: EventKind)
    | AddCapabilities
    | SetEventCallbacks
    | GetPhase
    | RunAgentThread
    | DisposeEnvironment

  /** A `jvmtiError`. */
  type ErrorCode = int

  /** `JVMTI_ERROR_NONE`. */
  const NONE: ErrorCode := 0

  /** A JVMTI environment: the calls made on it so far, and what the runtime
      answers to the call made at each position. */
  class Jvmti {
    var calls: seq<Call>
    const answer: (int, Call) -> ErrorCode

    constructor (answer: (int, Call) -> ErrorCode)
      ensures calls == [] && this.answer == answer
    {
      calls := [];
      this.answer := answer;
    }

    /** One call into the runtime. */
    method Request(c: Call) returns (err: ErrorCode)
      modifies this
      ensures calls == old(calls) + [c]
      ensures err == answer(|old(calls)|, c)
    {
      err := answer(|calls|, c);
      calls := calls + [c];
    }
  }

  /** The outcome of issuing calls until one fails: the calls issued and
      the error code of the last one (NONE when all succeeded). */
  datatype Outcome = Outcome(issued: seq<Call>, err: ErrorCode)

  /** Issues `calls[k..]` in order, the first at trace position `at`,
      stopping after the first call the runtime does not answer NONE. */
  function FailFastFrom(answer: (int, Call) -> ErrorCode, at: int, calls: seq<Call>, k: nat): Outcome
    requires k <= |calls|
    decreases |calls| - k
  {
    if k == |calls| then Outcome([], NONE)
    else if answer(at, calls[k]) != NONE then Outcome([calls[k]], answer(at, calls[k]))
    else
      var rest := FailFastFrom(answer, at + 1, calls, k + 1);
      Outcome([calls[k]] + rest.issued, rest.err)
  }

  function FailFast(answer: (int, Call) -> ErrorCode, at: int, calls: seq<Call>): Outcome
  {
    FailFastFrom(answer, at, calls, 0)
  }

  /** Fail-fast, stated outright: the calls issued are a prefix of `calls`;
      every one but the last succeeded; the error code is the last one's
      answer; and it is NONE exactly when every call was issued and
      succeeded. */
  lemma {:induction false} FailFastFromStops(answer: (int, Call) -> ErrorCode, at: int, calls: seq<Call>, k: nat)
    requires k <= |calls|
    ensures var out := FailFastFrom(answer, at, calls, k);
      && out.issued <= calls[k..]
      && (forall j :: 0 <= j < |out.issued| - 1 ==> answer(at + j, out.issued[j]) == NONE)
      && (out.issued != [] ==> out.err == answer(at + |out.issued| - 1, out.issued[|out.issued| - 1]))
      && (out.err == NONE <==> out.issued == calls[k..] && forall j :: 0 <= j < |out.issued| ==> answer(at + j, out.issued[j]) == NONE)
    decreases |calls| - k
  {
    if k < |calls| && answer(at, calls[k]) == NONE {
      FailFastFromStops(answer, at + 1, calls, k + 1);
      var rest := FailFastFrom(answer, at + 1, calls, k + 1);
      var out := FailFastFrom(answer, at, calls, k);
      assert out.issued == [calls[k]] + rest.issued;
      assert calls[k..] == [calls[k]] + calls[k + 1..];
      forall j | 0 <= j < |out.issued| && (j < |out.issued| - 1 || out.err == NONE)
        ensures answer(at + j, out.issued[j]) == NONE
      {
        if j > 0 {
          assert out.issued[j] == rest.issued[j - 1];
        }
      }
      if rest.issued != [] {
        assert out.issued[|out.issued| - 1] == rest.issued[|rest.issued| - 1];
      }
    }
  }

  lemma FailFastStops(answer: (int, Call) -> ErrorCode, at: int, calls: seq<Call>)
    ensures var out := FailFast(answer, at, calls);
      && out.issued <= calls
      && (forall j :: 0 <= j < |out.issued| - 1 ==> answer(at + j, out.issued[j]) == NONE)
      && (out.issued != [] ==> out.err == answer(at + |out.issued| - 1, out.issued[|out.issued| - 1]))
      && (out.err == NONE <==> out.issued == calls && forall j :: 0 <= j < |out.issued| ==> answer(at + j, out.issued[j]) == NONE)
  {
    FailFastFromStops(answer, at, calls, 0);
    assert calls[0..] == calls;
  }

  /** `x`, and then `y` unless `x` failed. */
  function AndThen(x: Outcome, y: Outcome): Outcome
  {
    if x.err != NONE then x else Outcome(x.issued + y.issued, y.err)
  }

  lemma {:induction false} FailFastShift(answer: (int, Call) -> ErrorCode, at: int, a: seq<Call>, b: seq<Call>, j: nat)
    requires j <= |b|
    ensures FailFastFrom(answer, at, a + b, |a| + j) == FailFastFrom(answer, at, b, j)
    decreases |b| - j
  {
    if j < |b| {
      assert (a + b)[|a| + j] == b[j];
      FailFastShift(answer, at + 1, a, b, j + 1);
    }
  }

  lemma {:induction false} FailFastFromAppend(answer: (int, Call) -> ErrorCode, at: int, a: seq<Call>, b: seq<Call>, k: nat)
    requires k <= |a|
    ensures FailFastFrom(answer, at, a + b, k) == AndThen(FailFastFrom(answer, at, a, k), FailFast(answer, at + |a| - k, b))
    decreases |a| - k
  {
    if k == |a| {
      FailFastShift(answer, at, a, b, 0);
    } else {
      assert (a + b)[k] == a[k];
      if answer(at, a[k]) == NONE {
        FailFastFromAppend(answer, at + 1, a, b, k + 1);
      }
    }
  }

  /** Issuing `a + b` fail-fast is issuing `a`, then `b` unless `a` failed. */
  lemma FailFastAppend(answer: (int, Call) -> ErrorCode, at: int, a: seq<Call>, b: seq<Call>)
    ensures FailFast(answer, at, a + b) == AndThen(FailFast(answer, at, a), FailFast(answer, at + |a|, b))
  {
    FailFastFromAppend(answer, at, a, b, 0);
    assert FailFast(answer, at, a + b) == FailFastFrom(answer, at, a + b, 0);
    assert FailFast(answer, at, a) == FailFastFrom(answer, at, a, 0);
  }

  /** A single call: issued, with its answer. */
  lemma FailFastSingle(answer: (int, Call) -> ErrorCode, at: int, c: Call)
    ensures FailFast(answer, at, [c]) == Outcome([c], answer(at, c))
  {
    assert FailFastFrom(answer, at + 1, [c], 1) == Outcome([], NONE);
    assert [c] + [] == [c];
  }

  /** After `i` calls that all succeeded, what is left is issued from
      position `at + i`. */
  lemma {:induction false} FailFastPrefix(answer: (int, Call) -> ErrorCode, at: int, calls: seq<Call>, i: nat)
    requires i <= |calls|
    requires forall j :: 0 <= j < i ==> answer(at + j, calls[j]) == NONE
    ensures FailFast(answer, at, calls) == AndThen(Outcome(calls[..i], NONE), FailFastFrom(answer, at + i, calls, i))
  {
    if i > 0 {
      FailFastPrefix(answer, at, calls, i - 1);
      var rest := FailFastFrom(answer, at + i, calls, i);
      assert FailFastFrom(answer, at + i - 1, calls, i - 1) == Outcome([calls[i - 1]] + rest.issued, rest.err);
      assert calls[..i - 1] + ([calls[i - 1]] + rest.issued) == calls[..i] + rest.issued;
    }
  }

  /** The first failure ends the calls. */
  lemma FailFastStopsAt(answer: (int, Call) -> ErrorCode, at: int, calls: seq<Call>, i: nat)
    requires i < |calls|
    requires forall j :: 0 <= j < i ==> answer(at + j, calls[j]) == NONE
    requires answer(at + i, calls[i]) != NONE
    ensures FailFast(answer, at, calls) == Outcome(calls[..i + 1], answer(at + i, calls[i]))
  {
    FailFastPrefix(answer, at, calls, i);
    assert calls[..i] + [calls[i]] == calls[..i + 1];
  }

  /** Without a failure every call is issued. */
  lemma FailFastAllSucceed(answer: (int, Call) -> ErrorCode, at: int, calls: seq<Call>)
    requires forall j :: 0 <= j < |calls| ==> answer(at + j, calls[j]) == NONE
    ensures FailFast(answer, at, calls) == Outcome(calls, NONE)
  {
    FailFastPrefix(answer, at, calls, |calls|);
    assert calls[..|calls|] == calls;
  }

  /** Switching every listened event on or off, in order. */
  function Toggles(enable: bool): seq<Call>
  {
    seq(|ListenedEvents|, k requires 0 <= k < |ListenedEvents| => SetNotification(enable, ListenedEvents[k]))
  }

  /** `enable_notifications`: switches the events on in order and stops at
      the first failure, returning its code. */
  method EnableNotifications(env: Jvmti) returns (err: ErrorCode)
    modifies env
    ensures var out := FailFast(env.answer, |old(env.calls)|, Toggles(true));
      env.calls == old(env.calls) + out.issued && err == out.err
  {
    ghost var before := env.calls;
    ghost var at := |env.calls|;
    ghost var all := Toggles(true);
    var i := 0;
    while i < |ListenedEvents|
      invariant 0 <= i <= |ListenedEvents|
      invariant env.calls == before + all[..i]
      invariant forall j :: 0 <= j < i ==> env.answer(at + j, all[j]) == NONE
    {
      var e := env.Request(SetNotification(true, ListenedEvents[i]));
      assert all[..i] + [all[i]] == all[..i + 1];
      if e != NONE {
        FailFastStopsAt(env.answer, at, all, i);
        return e;
      }
      i := i + 1;
    }
    FailFastAllSucceed(env.answer, at, all);
    assert all[..i] == all;
    return NONE;
  }

  /** `disable_notifications`: tries to switch every event off, whatever
      the runtime answers. */
  method DisableNotifications(env: Jvmti)
    modifies env
    ensures env.calls == old(env.calls) + Toggles(false)
  {
    ghost var before := env.calls;
    for i := 0 to |ListenedEvents|
      invariant env.calls == before + Toggles(false)[..i]
    {
      var _ := env.Request(SetNotification(false, ListenedEvents[i]));
      assert Toggles(false)[..i + 1] == Toggles(false)[..i] + [Toggles(false)[i]];
    }
    assert Toggles(false)[..|ListenedEvents|] == Toggles(false);
  }

  /** The replay of earlier events, in the order `load_previous_events`
      asks for them. */
  const ReplayCalls: seq<Call> := [GenerateEvents(CompiledMethodLoad), GenerateEvents(DynamicCodeGenerated)]

  /** `load_previous_events`: replays the compiled methods, then (unless
      that failed) the dynamic code, returning the first failure. */
  method LoadPreviousEvents(env: Jvmti) returns (err: ErrorCode)
    modifies env
    ensures var out := FailFast(env.answer, |old(env.calls)|, ReplayCalls);
      env.calls == old(env.calls) + out.issued && err == out.err
  {
    ghost var at := |env.calls|;
    assert ReplayCalls == [ReplayCalls[0]] + [ReplayCalls[1]];
    FailFastAppend(env.answer, at, [ReplayCalls[0]], [ReplayCalls[1]]);
    FailFastSingle(env.answer, at, ReplayCalls[0]);
    FailFastSingle(env.answer, at + 1, ReplayCalls[1]);
    err := env.Request(GenerateEvents(CompiledMethodLoad));
    if err != NONE {
      return;
    }
    err := env.Request(GenerateEvents(DynamicCodeGenerated));
  }

  /** What `agent_main` asks for after the capabilities and the callbacks:
      the notifications and the replay thread when attached to a live VM,
      the VMInit notification when loaded at startup. */
  function StartCalls(alreadyLive: bool): seq<Call>
  {
    if alreadyLive then Toggles(true) + [RunAgentThread] else [SetNotification(true, VmInit)]
  }

  /** The calls `agent_main` makes once the events file is open. */
  function SetupCalls(alreadyLive: bool): seq<Call>
  {
    [AddCapabilities] + ([SetEventCallbacks] + StartCalls(alreadyLive))
  }

  /** Switching the notifications on, then starting the replay thread:
      `request_previous_events` runs only when every event was switched on. */
  method EnableAndReplay(env: Jvmti) returns (err: ErrorCode)
    modifies env
    ensures var out := FailFast(env.answer, |old(env.calls)|, Toggles(true) + [RunAgentThread]);
      env.calls == old(env.calls) + out.issued && err == out.err
  {
    ghost var at := |env.calls|;
    FailFastAppend(env.answer, at, Toggles(true), [RunAgentThread]);
    FailFastStops(env.answer, at, Toggles(true));
    FailFastSingle(env.answer, at + |Toggles(true)|, RunAgentThread);
    err := EnableNotifications(env);
    if err != NONE {
      return;
    }
    err := env.Request(RunAgentThread);
  }

  /** `agent_main` from `enable_capabilities` on, stopping at the first
      failure. */
  method Setup(env: Jvmti, alreadyLive: bool) returns (err: ErrorCode)
    modifies env
    ensures var out := FailFast(env.answer, |old(env.calls)|, SetupCalls(alreadyLive));
      env.calls == old(env.calls) + out.issued && err == out.err
  {
    ghost var at := |env.calls|;
    FailFastAppend(env.answer, at, [AddCapabilities], [SetEventCallbacks] + StartCalls(alreadyLive));
    FailFastAppend(env.answer, at + 1, [SetEventCallbacks], StartCalls(alreadyLive));
    FailFastSingle(env.answer, at, AddCapabilities);
    FailFastSingle(env.answer, at + 1, SetEventCallbacks);
    err := env.Request(AddCapabilities);
    if err != NONE {
      return;
    }
    err := env.Request(SetEventCallbacks);
    if err != NONE {
      return;
    }
    if alreadyLive {
      err := EnableAndReplay(env);
    } else {
      FailFastSingle(env.answer, at + 2, SetNotification(true, VmInit));
      err := env.Request(SetNotification(true, VmInit));
    }
  }

  // ---------------------------------------------------------------------------
  // The agent singleton
  // ---------------------------------------------------------------------------

  /** An output stream: closed, or open on a path. */
  datatype FileState = Closed | Open(path: string)

  /** `ofstream::open`: a stream that is already open stays open on its
      path; otherwise it opens when the host can open the path. */
  function OpenStream(f: FileState, path: string, canOpen: string -> bool): FileState
  {
    if f.Open? then f else if canOpen(path) then Open(path) else Closed
  }

  /** The fallback events file, `/tmp/perf-<pid>.map`. */
  function PerfMapPath(pid: int): string
  {
    "/tmp/perf-" + Signed(pid) + ".map"
  }

  /** What the host answers: whether the current thread has a JNI
      environment, which paths can be opened for writing, the process id,
      whether the runtime reports the live phase, and the inputs of a thread
      snapshot. */
  datatype Host = Host(
    jniOk: bool,
    canOpen: string -> bool,
    pid: int,
    livePhase: bool,
    javaThreads: map<int, string>,
    threads: seq<OsThread>,
    now: int)

  /** The calls `shutdown` makes on an environment: the phase query, the
      notifications off (unless the VM is dying) and the disposal. */
  function ShutdownCalls(vmDeath: bool): seq<Call>
  {
    [GetPhase] + (if vmDeath then [] else Toggles(false)) + [DisposeEnvironment]
  }

  /** What `get_JNI(_vm)` does as written: it calls through `_vm` whether or
      not the agent holds a VM. */
  datatype JniLookup = NullDereference | Jni(present: bool)

  function GetJniAsWritten(vm: Option<int>, jniOk: bool): JniLookup
  {
    if vm.None? then NullDereference else Jni(jniOk)
  }

  /** A shutdown request sent to an agent that never attached reaches
      `get_JNI` with a null `_vm`. */
  lemma ShutdownBeforeAttachDereferencesNull(jniOk: bool)
    ensures Parse(Tokens(Some("shutdown"))).shutdown
    ensures GetJniAsWritten(None, jniOk) == NullDereference
  {
    IndexOfAbsent("shutdown", ',');
    assert Split("shutdown", ',') == ["shutdown"];
    assert ["shutdown"][..0] == [];
  }

  /** `get_JNI` guarded by the VM: without a VM there is no JNI environment
      and nothing is called; with one it agrees with `get_JNI`. */
  function GetJni(vm: Option<int>, jniOk: bool): (present: bool)
    ensures present ==> vm.Some?
    ensures vm.Some? ==> GetJniAsWritten(vm, jniOk) == Jni(present)
  {
    vm.Some? && jniOk
  }

  class Agent {
    /** `_vm`: the VM the agent is attached to. */
    var vm: Option<int>
    /** `_jvmti`: the agent's JVMTI environment. */
    var jvmti: Jvmti?
    /** `attach_count`. */
    var attachCount: int
    /** `events_file`. */
    var eventsFile: FileState
    /** The records written to the events file. */
    const log: EventLog

    /** The VM and the environment are set together. */
    predicate Valid()
      reads this
    {
      (vm.Some? <==> jvmti != null) && attachCount >= 0
    }

    predicate Attached()
      reads this
    {
      vm.Some? && jvmti != null
    }

    predicate Detached()
      reads this
    {
      vm.None? && jvmti == null
    }

    constructor (log: EventLog)
      ensures Valid() && Detached() && attachCount == 0 && eventsFile == Closed && this.log == log
    {
      vm := None;
      jvmti := null;
      attachCount := 0;
      eventsFile := Closed;
      this.log := log;
    }

    /** `shutdown`: snapshots the threads when the VM is live and a JNI
        environment is at hand, switches the notifications off unless the VM
        is dying, disposes of the environment, closes the events file and
        forgets the VM and the environment. `force` has no effect. */
    method Shutdown(env: Jvmti?, jni: bool, force: bool, vmDeath: bool, host: Host)
      requires Valid()
      modifies this, env, log
      ensures Valid() && Detached()
      ensures attachCount == old(attachCount) && eventsFile == Closed
      ensures env == null ==> log.records == old(log.records)
      ensures env != null ==>
        var live := env.answer(|old(env.calls)|, GetPhase) == NONE && host.livePhase;
        && env.calls == old(env.calls) + ShutdownCalls(vmDeath)
        && log.records == old(log.records) + (if live && jni then Snapshot(host.javaThreads, host.threads, host.now) else [])
    {
      if env != null {
        var phaseErr := env.Request(GetPhase);
        var live := phaseErr == NONE && host.livePhase;
        if live && jni {
          PrintAllVmThreads(log, host.javaThreads, host.threads, host.now);
        }
        if !vmDeath {
          DisableNotifications(env);
        }
        var _ := env.Request(DisposeEnvironment);
      }
      eventsFile := Closed;
      vm := None;
      jvmti := null;
    }

    /** The shutdown branch of `agent_main` as written, up to its first
        call: after the token loop, a shutdown request looks the JNI
        environment up through `_vm` before anything checks that the agent
        holds a VM. Returns that lookup, or nothing when no shutdown is
        requested. */
    method ShutdownLookupAsWritten(options: Option<string>, host: Host) returns (lookup: Option<JniLookup>)
      ensures lookup.Some? <==> Parse(Tokens(options)).shutdown
      ensures lookup.Some? ==> (lookup.value == NullDereference <==> vm.None?)
      ensures lookup.Some? && vm.Some? ==> lookup.value == Jni(host.jniOk)
    {
      var o := ParseOptions(options);
      if o.shutdown {
        return Some(GetJniAsWritten(vm, host.jniOk));
      }
      return None;
    }

    /** `agent_main`, with the runtime's answers as parameters: `obtained`
        is the environment `GetEnv` hands out when `getEnvOk`. Returns 0 on
        success, 1001 when an agent is already attached, 1 when no events
        file can be opened and 2 when a JVMTI call fails. A shutdown request
        made while detached asks no JNI environment of a VM the agent does
        not have. */
    method AgentMain(options: Option<string>, vmArg: int, alreadyLive: bool, obtained: Jvmti, getEnvOk: bool, host: Host)
      returns (code: int)
      requires Valid()
      modifies this, log, obtained, jvmti
      ensures Valid()
      ensures Parse(Tokens(options)).shutdown ==>
        code == 0 && Detached() && eventsFile == Closed && attachCount == old(attachCount)
      ensures Parse(Tokens(options)).shutdown && old(Detached()) ==>
        log.records == old(log.records) && obtained.calls == old(obtained.calls)
      ensures Parse(Tokens(options)).shutdown && old(Attached()) ==>
        && old(jvmti).calls == old(jvmti.calls) + ShutdownCalls(false)
        && log.records == old(log.records)
             + (if old(jvmti).answer(|old(jvmti.calls)|, GetPhase) == NONE && host.livePhase && host.jniOk
                then Snapshot(host.javaThreads, host.threads, host.now) else [])
      ensures !Parse(Tokens(options)).shutdown ==> log.records == old(log.records)
      ensures !Parse(Tokens(options)).shutdown && old(Attached()) ==>
        code == 1001 && vm == old(vm) && jvmti == old(jvmti) && attachCount == old(attachCount)
        && eventsFile == old(eventsFile) && obtained.calls == old(obtained.calls)
        && old(jvmti).calls == old(jvmti.calls)
      ensures !Parse(Tokens(options)).shutdown && !old(Attached()) && !getEnvOk ==>
        code == 2 && Detached() && attachCount == old(attachCount) && obtained.calls == old(obtained.calls)
        && eventsFile == OpenStream(old(eventsFile), Parse(Tokens(options)).eventsFile, host.canOpen)
      ensures !Parse(Tokens(options)).shutdown && !old(Attached()) && getEnvOk ==>
        && vm == Some(vmArg) && jvmti == obtained && attachCount == old(attachCount) + 1
        && eventsFile == OpenStream(OpenStream(old(eventsFile), Parse(Tokens(options)).eventsFile, host.canOpen), PerfMapPath(host.pid), host.canOpen)
        && (eventsFile == Closed ==> code == 1 && obtained.calls == old(obtained.calls))
        && (eventsFile != Closed ==>
              var out := FailFast(obtained.answer, |old(obtained.calls)|, SetupCalls(alreadyLive));
              obtained.calls == old(obtained.calls) + out.issued && code == (if out.err == NONE then 0 else 2))
    {
      var o := ParseOptions(options);
      if o.shutdown {
        var jni := GetJni(vm, host.jniOk);
        Shutdown(jvmti, jni, o.force, false, host);
        return 0;
      }
      if vm.Some? && jvmti != null {
        return 1001;
      }
      eventsFile := OpenStream(eventsFile, o.eventsFile, host.canOpen);
      if !getEnvOk {
        jvmti := null;
        return 2;
      }
      jvmti := obtained;
      vm := Some(vmArg);
      attachCount := attachCount + 1;
      if eventsFile == Closed {
        eventsFile := OpenStream(eventsFile, PerfMapPath(host.pid), host.canOpen);
      }
      if eventsFile == Closed {
        return 1;
      }
      var err := Setup(obtained, alreadyLive);
      code := if err != NONE then 2 else 0;
    }

    /** `cbVMInit`: switches the notifications on and starts the replay
        thread, shutting down (forced) when either fails. */
    method VmInitialized(env: Jvmti, host: Host)
      requires Valid()
      modifies this, env, log
      ensures Valid()
      ensures var out := FailFast(env.answer, |old(env.calls)|, Toggles(true) + [RunAgentThread]);
        if out.err == NONE then
          && env.calls == old(env.calls) + out.issued
          && vm == old(vm) && jvmti == old(jvmti) && attachCount == old(attachCount) && eventsFile == old(eventsFile)
          && log.records == old(log.records)
        else
          && env.calls == old(env.calls) + out.issued + ShutdownCalls(false)
          && Detached() && eventsFile == Closed && attachCount == old(attachCount)
          && log.records == old(log.records)
               + (if env.answer(|old(env.calls)| + |out.issued|, GetPhase) == NONE && host.livePhase
                  then Snapshot(host.javaThreads, host.threads, host.now) else [])
    {
      var err := EnableAndReplay(env);
      if err != NONE {
        Shutdown(env, true, true, false, host);
      }
    }

    /** `cbVMDeath`: a forced shutdown that leaves the notifications alone. */
    method VmDied(env: Jvmti, host: Host)
      requires Valid()
      modifies this, env, log
      ensures Valid() && Detached() && eventsFile == Closed && attachCount == old(attachCount)
      ensures env.calls == old(env.calls) + [GetPhase, DisposeEnvironment]
      ensures log.records == old(log.records)
        + (if env.answer(|old(env.calls)|, GetPhase) == NONE && host.livePhase
           then Snapshot(host.javaThreads, host.threads, host.now) else [])
    {
      Shutdown(env, true, true, true, host);
      assert ShutdownCalls(true) == [GetPhase, DisposeEnvironment];
    }
  }
}
