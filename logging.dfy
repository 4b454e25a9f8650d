/** `EngineLogging`: the engine's log calls, and the bounded queue through which
    they reach the editor's console. spdlog's console and file sinks are
    output only and are not modelled; what they add to the GUI queue is. */
module EngineLogging {
  import opened Wrappers

  datatype LogLevel = Trace | Debug | Info | Warn | Error | Critical

  /** `LogMessage`: the text, its level and the clock reading at construction. */
  datatype LogMessage = LogMessage(text: string, level: LogLevel, timestamp: real)

  const MAX_QUEUE_SIZE: nat := 1000

  /** The last `n` elements of `s`, or all of `s` when it is no longer. */
  function LastN<T>(s: seq<T>, n: nat): (r: seq<T>)
    ensures |r| == if |s| <= n then |s| else n
    ensures r == s[|s| - |r|..]
  {
    if |s| <= n then s else s[|s| - n..]
  }

  /** The queue after `Push`: the message appended and the oldest dropped
      beyond the cap. */
  function Pushed(queue: seq<LogMessage>, message: LogMessage): (r: seq<LogMessage>)
    ensures |r| <= MAX_QUEUE_SIZE && r != [] && r[|r| - 1] == message
    ensures |queue| < MAX_QUEUE_SIZE ==> r == queue + [message]
    ensures |queue| >= MAX_QUEUE_SIZE ==> |r| == MAX_QUEUE_SIZE && r[..|r| - 1] == queue[|queue| - (MAX_QUEUE_SIZE - 1)..]
  {
    LastN(queue + [message], MAX_QUEUE_SIZE)
  }

  /** Below the cap the queue is first in, first out: what was queued first
      comes out first, and the pushed message comes out last. */
  lemma PushedIsFifo(queue: seq<LogMessage>, message: LogMessage)
    requires |queue| < MAX_QUEUE_SIZE
    ensures queue != [] ==> Pushed(queue, message)[0] == queue[0] && Pushed(queue, message)[1..] == Pushed(queue[1..], message)
    ensures queue == [] ==> Pushed(queue, message) == [message]
  {
  }

  /** `GuiLogQueue`: a `std::queue` of messages behind a mutex; the lock adds
      nothing to a sequential model. */
  class GuiLogQueue {
    var queue: seq<LogMessage>

    ghost predicate Valid()
      reads this
    {
      |queue| <= MAX_QUEUE_SIZE
    }

    constructor ()
      ensures Valid() && queue == []
    {
      queue := [];
    }

    /** Pops from the front while full, then appends. */
    method Push(message: LogMessage)
      requires Valid()
      modifies this
      ensures Valid()
      ensures queue == Pushed(old(queue), message)
    {
      var q := queue;
      while |q| >= MAX_QUEUE_SIZE
        invariant |q| <= |queue| && q == queue[|queue| - |q|..]
        invariant |queue| >= MAX_QUEUE_SIZE ==> |q| >= MAX_QUEUE_SIZE - 1
        invariant |queue| < MAX_QUEUE_SIZE ==> q == queue
        decreases |q|
      {
        q := q[1..];
      }
      queue := q + [message];
      assert queue == (old(queue) + [message])[|old(queue) + [message]| - |queue|..];
    }

    /** Removes and returns the front message, or reports an empty queue. */
    method TryPop() returns (popped: Option<LogMessage>)
      requires Valid()
      modifies this
      ensures Valid()
      ensures old(queue) == [] ==> popped.None? && queue == []
      ensures old(queue) != [] ==> popped == Some(old(queue)[0]) && queue == old(queue)[1..]
    {
      if |queue| == 0 {
        return None;
      }
      popped := Some(queue[0]);
      queue := queue[1..];
    }

    method Clear()
      modifies this
      ensures Valid() && queue == []
    {
      queue := [];
    }

    function Size(): (n: nat)
      reads this
      ensures n == |queue|
    {
      |queue|
    }
  }

  /** The logging system's statics: the GUI queue, `s_Initialized`, and whether
      `s_Logger` is set. `spdlogAvailable` is the compile-time
      `SPDLOG_AVAILABLE`; with it every message also reaches the queue a second
      time through the GUI sink. */
  class LoggingSystem {
    const guiLogQueue: GuiLogQueue
    const spdlogAvailable: bool
    var initialized: bool
    var hasLogger: bool

    ghost predicate Valid()
      reads this, guiLogQueue
    {
      && guiLogQueue.Valid()
      && (hasLogger ==> spdlogAvailable)
    }

    /** The queue after one `LogInternal` call in the current state. */
    ghost function Logged(queue: seq<LogMessage>, level: LogLevel, message: string, now: real): seq<LogMessage>
      reads this
    {
      if !initialized then queue
      else if hasLogger then Pushed(Pushed(queue, LogMessage(message, level, now)), LogMessage(message, level, now))
      else Pushed(queue, LogMessage(message, level, now))
    }

    constructor (spdlogAvailable: bool)
      ensures Valid() && fresh(guiLogQueue)
      ensures this.spdlogAvailable == spdlogAvailable
      ensures !initialized && !hasLogger && guiLogQueue.queue == []
    {
      guiLogQueue := new GuiLogQueue();
      this.spdlogAvailable := spdlogAvailable;
      initialized := false;
      hasLogger := false;
    }

    /** A second call succeeds at once. `setupThrows` stands for a failure while
        creating the log directory or the sinks: the flag is set anyway and the
        call fails. Otherwise the logger is installed and a first message logged. */
    method Initialize(setupThrows: bool, now: real) returns (ok: bool)
      requires Valid()
      modifies this, guiLogQueue
      ensures Valid() && initialized
      ensures old(initialized) ==> ok && hasLogger == old(hasLogger) && guiLogQueue.queue == old(guiLogQueue.queue)
      ensures !old(initialized) && setupThrows ==>
        !ok && hasLogger == old(hasLogger) && guiLogQueue.queue == old(guiLogQueue.queue)
      ensures !old(initialized) && !setupThrows ==>
        && ok && hasLogger == spdlogAvailable
        && guiLogQueue.queue == Logged(old(guiLogQueue.queue), Info, INITIALIZED_MESSAGE, now)
    {
      if initialized {
        return true;
      }
      if setupThrows {
        initialized := true;
        return false;
      }
      if spdlogAvailable {
        hasLogger := true;
      }
      initialized := true;
      LogInfo(INITIALIZED_MESSAGE, now);
      ok := true;
    }

    /** Logs a farewell, drops the logger, empties the queue and clears the flag;
        nothing happens when not initialised. */
    method Shutdown(now: real)
      requires Valid()
      modifies this, guiLogQueue
      ensures Valid()
      ensures !old(initialized) ==> !initialized && hasLogger == old(hasLogger) && guiLogQueue.queue == old(guiLogQueue.queue)
      ensures old(initialized) ==> !initialized && !hasLogger && guiLogQueue.queue == []
    {
      if !initialized {
        return;
      }
      LogInfo(SHUTDOWN_MESSAGE, now);
      hasLogger := false;
      guiLogQueue.Clear();
      initialized := false;
    }

    /** `GetGuiLogQueue`. */
    function GetGuiLogQueue(): (q: GuiLogQueue)
      ensures q == guiLogQueue
    {
      guiLogQueue
    }

    /** Pushes the message to the GUI queue, and once more through spdlog's GUI
        sink when the logger is set; a no-op before `Initialize`. */
    method LogInternal(level: LogLevel, message: string, now: real)
      requires Valid()
      modifies guiLogQueue
      ensures Valid()
      ensures guiLogQueue.queue == Logged(old(guiLogQueue.queue), level, message, now)
    {
      if !initialized {
        return;
      }
      guiLogQueue.Push(LogMessage(message, level, now));
      if hasLogger {
        guiLogQueue.Push(LogMessage(message, level, now));
      }
    }

    method LogTrace(message: string, now: real)
      requires Valid()
      modifies guiLogQueue
      ensures Valid() && guiLogQueue.queue == Logged(old(guiLogQueue.queue), Trace, message, now)
    {
      LogInternal(Trace, message, now);
    }

    method LogDebug(message: string, now: real)
      requires Valid()
      modifies guiLogQueue
      ensures Valid() && guiLogQueue.queue == Logged(old(guiLogQueue.queue), Debug, message, now)
    {
      LogInternal(Debug, message, now);
    }

    method LogInfo(message: string, now: real)
      requires Valid()
      modifies guiLogQueue
      ensures Valid() && guiLogQueue.queue == Logged(old(guiLogQueue.queue), Info, message, now)
    {
      LogInternal(Info, message, now);
    }

    method LogWarn(message: string, now: real)
      requires Valid()
      modifies guiLogQueue
      ensures Valid() && guiLogQueue.queue == Logged(old(guiLogQueue.queue), Warn, message, now)
    {
      LogInternal(Warn, message, now);
    }

    method LogError(message: string, now: real)
      requires Valid()
      modifies guiLogQueue
      ensures Valid() && guiLogQueue.queue == Logged(old(guiLogQueue.queue), Error, message, now)
    {
      LogInternal(Error, message, now);
    }

    method LogCritical(message: string, now: real)
      requires Valid()
      modifies guiLogQueue
      ensures Valid() && guiLogQueue.queue == Logged(old(guiLogQueue.queue), Critical, message, now)
    {
      LogInternal(Critical, message, now);
    }
  }

  const INITIALIZED_MESSAGE := "Engine logging system initialized"
  const SHUTDOWN_MESSAGE := "Shutting down logging system"

  /** A log call while initialised adds one copy of the message at the back,
      or two when spdlog is compiled in, and keeps the queue within its cap. */
  lemma LogAddsCopies(queue: seq<LogMessage>, m: LogMessage)
    requires |queue| + 2 <= MAX_QUEUE_SIZE
    ensures Pushed(queue, m) == queue + [m]
    ensures Pushed(Pushed(queue, m), m) == queue + [m, m]
  {
  }
}
