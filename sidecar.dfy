/**
 * The sidecar supervisor (`SidecarState`): it owns at most one child process and
 * the port that child announced, and exposes `start`, `stop` and `get_port`.
 * Everything the outside world decides during a call (the resource lookup, the
 * spawn, the child's output, the timing of the port announcement, the health
 * probes, the kill) is an explicit input.
 */
module Sidecar {
  import opened Wrappers
  import opened Sentinel
  import opened PortDiscovery
  import opened HealthPoller

  /** How long `start` waits for the reader to send the port. */
  const PORT_PARSE_TIMEOUT_MS := 10000

  /** The identity of a spawned child process. */
  type ChildId = nat

  /** The supervisor's two slots. */
  datatype State = State(child: Option<ChildId>, port: Option<U16>)

  const IDLE := State(None, None)

  /** The outcomes the environment supplies to one `start`, in the order the source meets them. */
  datatype Environment = Environment(
    resourceDir: Result<string>,  // the application's resource directory, or why it cannot be resolved
    bundleExists: bool,           // whether the server bundle exists under it
    command: Result<()>,          // creating the `bun` sidecar command
    pathIsUnicode: bool,          // whether the bundle path converts to a string
    spawn: Result<ChildId>,       // spawning the command: the new child, or why it failed
    output: seq<CommandEvent>,    // the events the child's output stream delivers
    portInTime: bool,             // whether the reader's send arrives within PORT_PARSE_TIMEOUT_MS
    probes: seq<Probe>)           // the outcomes of the successive health probes

  /** The state after a call, and what the call returned. */
  datatype Transition<T> = Transition(state: State, result: Result<T>)

  const RUNNING_PORT_UNKNOWN := "Server running but port unknown"
  const PORT_TIMEOUT := "Timeout waiting for server to report port"
  const PORT_NOT_RECEIVED := "Failed to receive port from server"
  const INVALID_PATH_ENCODING := "Invalid resource path encoding"

  /** Where the server bundle lives inside the resource directory. */
  function BundlePath(resourceDir: string): string {
    resourceDir + "/binaries/server.js"
  }

  /**
   * The bounded wait on the one-shot port channel. It yields the port when the reader
   * sent one and the send arrived before the deadline; a receive error when the sender
   * was dropped unsent before the deadline; a timeout otherwise.
   */
  function AwaitPort(sent: Option<U16>, senderDropped: bool, inTime: bool): Result<U16> {
    if !inTime then Err(PORT_TIMEOUT)
    else if sent.Some? then Ok(sent.value)
    else if senderDropped then Err(PORT_NOT_RECEIVED)
    else Err(PORT_TIMEOUT)
  }

  /**
   * While the sender stays alive, the wait yields exactly the sent port when it arrives
   * in time, and otherwise always the timeout, never the receive error.
   */
  lemma AwaitPortWithLiveSender(sent: Option<U16>, inTime: bool, p: U16)
    ensures AwaitPort(sent, false, inTime) == Ok(p) <==> sent == Some(p) && inTime
    ensures AwaitPort(sent, false, inTime).Err? ==> AwaitPort(sent, false, inTime).error == PORT_TIMEOUT
  {
  }

  /** Whether a `start` from state `s` gets as far as spawning a child. */
  predicate SpawnsChild(s: State, env: Environment) {
    && s.child.None?
    && env.resourceDir.Ok? && env.bundleExists && env.command.Ok? && env.pathIsUnicode
    && env.spawn.Ok?
  }

  /**
   * `start` as a function of the state before it. A held child short-circuits
   * everything. Otherwise each failure before the spawn returns its error and changes
   * nothing; after the spawn the child is stored first, then the port once it is
   * received, then the health check runs, so each later failure leaves what was
   * already stored.
   */
  function StartStep(s: State, env: Environment): Transition<U16> {
    if s.child.Some? then
      Transition(s, if s.port.Some? then Ok(s.port.value) else Err(RUNNING_PORT_UNKNOWN))
    else if env.resourceDir.Err? then
      Transition(s, Err(env.resourceDir.error))
    else if !env.bundleExists then
      Transition(s, Err("Server bundle not found at: " + BundlePath(env.resourceDir.value)))
    else if env.command.Err? then
      Transition(s, Err("Failed to create sidecar command: " + env.command.error))
    else if !env.pathIsUnicode then
      Transition(s, Err(INVALID_PATH_ENCODING))
    else if env.spawn.Err? then
      Transition(s, Err("Failed to spawn sidecar: " + env.spawn.error))
    else
      var spawned := State(Some(env.spawn.value), s.port);
      var received := AwaitPort(FirstAnnouncement(env.output), false, env.portInTime);
      if received.Err? then
        Transition(spawned, Err(received.error))
      else
        var announced := State(spawned.child, Some(received.value));
        if ReadyAttempt(env.probes).None? then Transition(announced, Err(HEALTH_TIMEOUT_MESSAGE))
        else Transition(announced, Ok(received.value))
  }

  /**
   * `stop` as a function of the state before it: with no child nothing happens;
   * otherwise the child is taken out of its slot before the kill, and the port is
   * cleared only after a successful kill.
   */
  function StopStep(s: State, kill: Result<()>): Transition<()> {
    if s.child.None? then Transition(s, Ok(()))
    else if kill.Err? then Transition(State(None, s.port), Err(kill.error))
    else Transition(IDLE, Ok(()))
  }

  /** The supervisor's shared state: the child handle and the discovered port. */
  class SidecarState {
    var child: Option<ChildId>
    var port: Option<U16>

    /** `SidecarState::new`: no child, no port. */
    constructor ()
      ensures Snapshot() == IDLE
    {
      child, port := None, None;
    }

    function Snapshot(): State
      reads this
    {
      State(child, port)
    }

    /** `get_port`: the stored port, whatever the child slot holds. */
    method GetPort() returns (p: Option<U16>)
      ensures p == port
    {
      p := port;
    }

    /** `start`: bring the server up, or report the port of the one already held. */
    method Start(env: Environment) returns (r: Result<U16>)
      modifies this
      ensures Transition(Snapshot(), r) == StartStep(old(Snapshot()), env)
    {
      if child.Some? {
        if port.Some? {
          return Ok(port.value);
        }
        return Err(RUNNING_PORT_UNKNOWN);
      }
      if env.resourceDir.Err? {
        return Err(env.resourceDir.error);
      }
      var resourcePath := BundlePath(env.resourceDir.value);
      if !env.bundleExists {
        return Err("Server bundle not found at: " + resourcePath);
      }
      if env.command.Err? {
        return Err("Failed to create sidecar command: " + env.command.error);
      }
      if !env.pathIsUnicode {
        return Err(INVALID_PATH_ENCODING);
      }
      if env.spawn.Err? {
        return Err("Failed to spawn sidecar: " + env.spawn.error);
      }
      child := Some(env.spawn.value);
      var sent, _, _ := ReadOutput(env.output);
      // `start` keeps its own handle on the sender's slot until it returns, so the
      // sender is never dropped while the wait is pending.
      var received := AwaitPort(sent, false, env.portInTime);
      if received.Err? {
        return Err(received.error);
      }
      port := Some(received.value);
      var health, _, _ := WaitForReady(env.probes);
      if health.Err? {
        return Err(health.error);
      }
      return Ok(received.value);
    }

    /** `stop`: kill the held child, if any. */
    method Stop(kill: Result<()>) returns (r: Result<()>)
      modifies this
      ensures Transition(Snapshot(), r) == StopStep(old(Snapshot()), kill)
    {
      if child.Some? {
        child := None;
        if kill.Err? {
          return Err(kill.error);
        }
        port := None;
      }
      return Ok(());
    }
  }

  // ---------------------------------------------------------------------------
  // Properties of `start`
  // ---------------------------------------------------------------------------

  /** With a child held, `start` spawns nothing, changes nothing, and returns the stored port or an error. */
  lemma StartWhileRunning(s: State, env: Environment)
    requires s.child.Some?
    ensures StartStep(s, env).state == s
    ensures StartStep(s, env).result
            == if s.port.Some? then Ok(s.port.value) else Err(RUNNING_PORT_UNKNOWN)
  {
  }

  /** A `start` that fails before the spawn (missing resource, bundle, command, path or spawn) changes nothing. */
  lemma StartFailsBeforeSpawn(s: State, env: Environment)
    requires s.child.None? && !SpawnsChild(s, env)
    ensures StartStep(s, env).state == s && StartStep(s, env).result.Err?
  {
  }

  /**
   * Once spawned, the child stays stored whatever happens next; the port slot gets the
   * announced port when it arrives in time and is otherwise left as it was; the call
   * succeeds exactly when, in addition, a health probe succeeds.
   */
  lemma StartAfterSpawn(s: State, env: Environment)
    requires SpawnsChild(s, env)
    ensures StartStep(s, env).state.child == Some(env.spawn.value)
    ensures var sent := FirstAnnouncement(env.output);
            StartStep(s, env).state.port == if sent.Some? && env.portInTime then sent else s.port
    ensures (FirstAnnouncement(env.output).None? || !env.portInTime) ==> StartStep(s, env).result == Err(PORT_TIMEOUT)
    ensures StartStep(s, env).result.Ok? <==>
              FirstAnnouncement(env.output).Some? && env.portInTime && ReadyAttempt(env.probes).Some?
  {
  }

  /**
   * A `start` returns port `p` exactly when a child was already held with `p` stored,
   * or it spawned one whose output announced `p` (before terminating, in time) and
   * that then answered a health probe.
   */
  lemma StartReturnsPort(s: State, env: Environment, p: U16)
    ensures StartStep(s, env).result == Ok(p) <==>
              (s.child.Some? && s.port == Some(p))
              || (SpawnsChild(s, env) && FirstAnnouncement(env.output) == Some(p) && env.portInTime
                  && ReadyAttempt(env.probes).Some?)
  {
  }

  /** From a fresh supervisor, a discovery timeout leaves the child held and no port, so `get_port` says `None`. */
  lemma DiscoveryTimeoutFromIdle(env: Environment)
    requires SpawnsChild(IDLE, env)
    requires FirstAnnouncement(env.output).None? || !env.portInTime
    ensures StartStep(IDLE, env) == Transition(State(Some(env.spawn.value), None), Err(PORT_TIMEOUT))
  {
  }

  /** A failed health check leaves both the child and the announced port stored. */
  lemma HealthFailureKeepsChildAndPort(s: State, env: Environment, p: U16)
    requires SpawnsChild(s, env) && FirstAnnouncement(env.output) == Some(p) && env.portInTime
    requires ReadyAttempt(env.probes).None?
    ensures StartStep(s, env) == Transition(State(Some(env.spawn.value), Some(p)), Err(HEALTH_TIMEOUT_MESSAGE))
  {
  }

  /** A second `start` spawns nothing once the first stored a child, and returns the same port when the first succeeded. */
  lemma StartTwiceSpawnsOnce(s: State, first: Environment, second: Environment)
    ensures var t := StartStep(s, first);
            t.state.child.Some? ==> StartStep(t.state, second).state == t.state
    ensures var t := StartStep(s, first);
            t.result.Ok? ==> StartStep(t.state, second).result == t.result
  {
  }

  // ---------------------------------------------------------------------------
  // Properties of `stop`
  // ---------------------------------------------------------------------------

  /** With no child, `stop` succeeds and changes nothing. */
  lemma StopWithoutChild(s: State, kill: Result<()>)
    requires s.child.None?
    ensures StopStep(s, kill) == Transition(s, Ok(()))
  {
  }

  /** A successful kill clears both slots; a failed one has already emptied the child slot but keeps the port. */
  lemma StopWithChild(s: State, kill: Result<()>)
    requires s.child.Some?
    ensures kill.Ok? ==> StopStep(s, kill) == Transition(IDLE, Ok(()))
    ensures kill.Err? ==> StopStep(s, kill) == Transition(State(None, s.port), Err(kill.error))
  {
  }

  // ---------------------------------------------------------------------------
  // The invariant "a stored port implies a held child"
  // ---------------------------------------------------------------------------

  predicate PortImpliesChild(s: State) {
    s.port.Some? ==> s.child.Some?
  }

  /** `start` keeps the invariant, and so does `stop` unless its kill fails while a port is stored. */
  lemma PortImpliesChildPreserved(s: State, env: Environment, kill: Result<()>)
    requires PortImpliesChild(s)
    ensures PortImpliesChild(StartStep(s, env).state)
    ensures kill.Ok? ==> PortImpliesChild(StopStep(s, kill).state)
  {
  }

  /** A failed kill breaks the invariant: the port outlives the child. */
  lemma FailedKillLeavesStalePort(id: ChildId, p: U16, why: string)
    ensures var t := StopStep(State(Some(id), Some(p)), Err(why));
            t.state.child.None? && t.state.port == Some(p) && !PortImpliesChild(t.state)
  {
  }

  /**
   * After a failed kill, a new `start` spawns a child while the old port is still
   * stored; if that child never announces in time, `get_port` keeps returning the old
   * port for a server that has not announced itself.
   */
  lemma StalePortSurvivesRestart(id: ChildId, p: U16, why: string, env: Environment)
    requires SpawnsChild(State(None, Some(p)), env)
    requires FirstAnnouncement(env.output).None?
    ensures var stopped := StopStep(State(Some(id), Some(p)), Err(why)).state;
            StartStep(stopped, env) == Transition(State(Some(env.spawn.value), Some(p)), Err(PORT_TIMEOUT))
  {
  }

  // ---------------------------------------------------------------------------
  // Whole lifecycles
  // ---------------------------------------------------------------------------

  /**
   * From a fresh supervisor: a successful `start`, then a `stop` whose kill succeeds,
   * brings it back to idle; the next `start` spawns the new child and may discover a
   * different port.
   */
  lemma RestartSpawnsNewChild(first: Environment, kill: Result<()>, second: Environment, q: U16)
    requires StartStep(IDLE, first).result.Ok? && kill.Ok?
    requires SpawnsChild(IDLE, second)
    requires FirstAnnouncement(second.output) == Some(q) && second.portInTime
    ensures StopStep(StartStep(IDLE, first).state, kill) == Transition(IDLE, Ok(()))
    ensures StartStep(IDLE, second).state == State(Some(second.spawn.value), Some(q))
  {
  }
}
