/** `ConsolePanel`: the editor panel that shows the engine's log. Each frame
    it drains the engine's GUI log queue into a bounded list of entries, then
    shows the entries whose level passes the filter checkboxes. */
module ConsolePanels {
  import opened Wrappers
  import opened EngineLogging
  import opened PanelManagers

  /** An entry: the text, the console level (0 info, 1 warning, 2 error; any
      other value can be passed to `AddLog`) and a timestamp in seconds. */
  datatype LogEntry = LogEntry(message: string, level: int, timestamp: real)

  /** One line of the scrolling region: `[timestamp] tag message`. */
  datatype ConsoleLine = ConsoleLine(timestamp: real, levelTag: string, message: string)

  const CONSOLE_NAME := "Console"
  const COMMAND_PREFIX := "Command: "

  /** Trace, Debug and Info count as info, Warn as a warning, Error and
      Critical as errors. */
  function ConvertEngineLogLevel(level: LogLevel): (r: int)
    ensures 0 <= r <= 2
    ensures r == 1 <==> level == Warn
    ensures r == 2 <==> level == Error || level == Critical
  {
    match level
    case Trace | Debug | Info => 0
    case Warn => 1
    case Error | Critical => 2
  }

  /** The entry made from an engine message: its text, its converted level
      and the engine's own timestamp. */
  function ToEntry(m: LogMessage): (e: LogEntry)
    ensures e.message == m.text && e.timestamp == m.timestamp
    ensures e.level == ConvertEngineLogLevel(m.level)
  {
    LogEntry(m.text, ConvertEngineLogLevel(m.level), m.timestamp)
  }

  /** The entries after one push: the new entry at the back and, when that
      passes the cap, the front entry erased. */
  function Appended(entries: seq<LogEntry>, e: LogEntry, maxEntries: nat): seq<LogEntry>
  {
    if |entries + [e]| > maxEntries then (entries + [e])[1..] else entries + [e]
  }

  /** Within the cap, one push keeps exactly the last `maxEntries` entries. */
  lemma AppendedKeepsLatest(entries: seq<LogEntry>, e: LogEntry, maxEntries: nat)
    requires |entries| <= maxEntries
    ensures Appended(entries, e, maxEntries) == LastN(entries + [e], maxEntries)
    ensures |Appended(entries, e, maxEntries)| <= maxEntries
  {
  }

  /** The entries after appending each message in turn. */
  function Drained(entries: seq<LogEntry>, messages: seq<LogMessage>, maxEntries: nat): seq<LogEntry>
    decreases |messages|
  {
    if messages == [] then entries
    else Drained(Appended(entries, ToEntry(messages[0]), maxEntries), messages[1..], maxEntries)
  }

  /** The entries made from a list of messages, in order. */
  function Converted(messages: seq<LogMessage>): (r: seq<LogEntry>)
    ensures |r| == |messages|
    ensures forall i :: 0 <= i < |r| ==> r[i] == ToEntry(messages[i])
  {
    if messages == [] then [] else [ToEntry(messages[0])] + Converted(messages[1..])
  }

  /** Taking the last `n` of a list and then of it with one more element is
      the same as taking the last `n` of the longer list. */
  lemma LastNOfLastN(s: seq<LogEntry>, e: LogEntry, n: nat)
    ensures LastN(LastN(s, n) + [e], n) == LastN(s + [e], n)
  {
    if |s| > n {
      var t := LastN(s, n);
      if n > 0 {
        assert (t + [e])[|t + [e]| - n..] == (s + [e])[|s + [e]| - n..];
      }
    }
  }

  /** One push followed by more entries keeps the same newest entries as
      taking them all at once. */
  lemma AppendedThenMore(entries: seq<LogEntry>, e: LogEntry, tail: seq<LogEntry>, maxEntries: nat)
    requires |entries| <= maxEntries
    ensures LastN(Appended(entries, e, maxEntries) + tail, maxEntries) == LastN(entries + ([e] + tail), maxEntries)
  {
    AppendedKeepsLatest(entries, e, maxEntries);
    LastNOfLastNAppend(entries + [e], tail, maxEntries);
    assert (entries + [e]) + tail == entries + ([e] + tail);
  }

  /** `LastNOfLastN` for any suffix. */
  lemma LastNOfLastNAppend(s: seq<LogEntry>, tail: seq<LogEntry>, n: nat)
    ensures LastN(LastN(s, n) + tail, n) == LastN(s + tail, n)
  {
    if |s| > n {
      var t := LastN(s, n);
      assert |t + tail| == n + |tail|;
      assert (t + tail)[|t + tail| - n..] == (s + tail)[|s + tail| - n..];
    }
  }

  /** Draining keeps the newest `maxEntries` of the old entries followed by
      the converted messages, oldest first. */
  lemma {:induction false} DrainedKeepsLatest(entries: seq<LogEntry>, messages: seq<LogMessage>, maxEntries: nat)
    requires |entries| <= maxEntries
    ensures Drained(entries, messages, maxEntries) == LastN(entries + Converted(messages), maxEntries)
    decreases |messages|
  {
    if messages == [] {
      assert entries + Converted(messages) == entries;
    } else {
      var e := ToEntry(messages[0]);
      AppendedKeepsLatest(entries, e, maxEntries);
      DrainedKeepsLatest(Appended(entries, e, maxEntries), messages[1..], maxEntries);
      AppendedThenMore(entries, e, Converted(messages[1..]), maxEntries);
    }
  }

  /** The three entries the panel starts with, stamped `now`. */
  function StartupEntries(now: real): (r: seq<LogEntry>)
    ensures |r| == 3
    ensures r[0].level == 0 && r[1].level == 0 && r[2].level == 1
  {
    [ LogEntry("Editor initialized successfully", 0, now),
      LogEntry("Loading assets...", 0, now),
      LogEntry("Some non-critical warning", 1, now) ]
  }

  /** Three pushes onto an empty list keep the newest of the three. */
  lemma StartupKeepsLatest(a: LogEntry, b: LogEntry, c: LogEntry, maxEntries: nat)
    ensures Appended(Appended(Appended([], a, maxEntries), b, maxEntries), c, maxEntries) == LastN([a, b, c], maxEntries)
  {
    var e1 := Appended([], a, maxEntries);
    var e2 := Appended(e1, b, maxEntries);
    if maxEntries == 0 {
      assert e1 == [] && e2 == [];
    } else if maxEntries == 1 {
      assert e1 == [a] && e2 == [b];
    } else if maxEntries == 2 {
      assert e1 == [a] && e2 == [a, b];
      assert [a, b] + [c] == [a, b, c];
      assert [a, b, c][1..] == [b, c];
    } else {
      assert e1 == [a] && e2 == [a, b];
      assert [a, b] + [c] == [a, b, c];
    }
  }

  /** Whether an entry is shown: levels 0, 1 and 2 follow their checkbox, any
      other level is never shown. */
  function IsShown(e: LogEntry, showInfo: bool, showWarnings: bool, showErrors: bool): (b: bool)
    ensures e.level !in {0, 1, 2} ==> !b
    ensures showInfo && showWarnings && showErrors ==> (b <==> e.level in {0, 1, 2})
    ensures !showInfo && !showWarnings && !showErrors ==> !b
  {
    if e.level == 0 then showInfo
    else if e.level == 1 then showWarnings
    else if e.level == 2 then showErrors
    else false
  }

  /** The prefix printed before a shown entry. */
  function LevelLabel(level: int): (tag: string)
    ensures level == 0 ==> tag == "[INFO]"
    ensures level == 1 ==> tag == "[WARN]"
    ensures level != 0 && level != 1 ==> tag == "[ERROR]"
  {
    if level == 0 then "[INFO]" else if level == 1 then "[WARN]" else "[ERROR]"
  }

  /** The lines shown for a list of entries, in list order. */
  function Displayed(entries: seq<LogEntry>, showInfo: bool, showWarnings: bool, showErrors: bool): (lines: seq<ConsoleLine>)
    ensures |lines| <= |entries|
    ensures !showInfo && !showWarnings && !showErrors ==> lines == []
  {
    if entries == [] then []
    else
      var rest := Displayed(entries[1..], showInfo, showWarnings, showErrors);
      var e := entries[0];
      if IsShown(e, showInfo, showWarnings, showErrors) then [ConsoleLine(e.timestamp, LevelLabel(e.level), e.message)] + rest
      else rest
  }

  /** With every box ticked, each entry of level 0, 1 or 2 is shown, and in order. */
  lemma {:induction false} AllBoxesShowEverything(entries: seq<LogEntry>)
    requires forall i :: 0 <= i < |entries| ==> entries[i].level in {0, 1, 2}
    ensures |Displayed(entries, true, true, true)| == |entries|
    ensures forall i :: 0 <= i < |entries| ==>
      Displayed(entries, true, true, true)[i] == ConsoleLine(entries[i].timestamp, LevelLabel(entries[i].level), entries[i].message)
  {
    if entries != [] {
      AllBoxesShowEverything(entries[1..]);
    }
  }

  /** What the user does with the panel in one frame: whether the window's
      body is drawn, whether its close button is hit, the checkbox values
      after the frame, whether Clear is pressed, and the command line text
      submitted with Enter or Send ("" when nothing). */
  datatype ConsoleFrame = ConsoleFrame(
    visible: bool, closed: bool,
    showInfo: bool, showWarnings: bool, showErrors: bool, autoScroll: bool,
    clearClicked: bool, submitted: string)

  class ConsolePanel {
    const panel: EditorPanel
    const maxLogEntries: nat
    var logEntries: seq<LogEntry>
    var showInfo: bool
    var showWarnings: bool
    var showErrors: bool
    var autoScroll: bool

    ghost predicate Valid()
      reads this
    {
      |logEntries| <= maxLogEntries
    }

    /** A panel named "Console", open, with every box ticked and three
        starting entries. `now` is the clock reading for them. */
    constructor (maxLogEntries: nat, now: real)
      ensures Valid() && fresh(panel)
      ensures panel.name == CONSOLE_NAME && panel.isOpen
      ensures this.maxLogEntries == maxLogEntries
      ensures showInfo && showWarnings && showErrors && autoScroll
      ensures logEntries == LastN(StartupEntries(now), maxLogEntries)
    {
      panel := new EditorPanel(CONSOLE_NAME, true);
      this.maxLogEntries := maxLogEntries;
      showInfo, showWarnings, showErrors, autoScroll := true, true, true, true;
      var startup := StartupEntries(now);
      StartupKeepsLatest(startup[0], startup[1], startup[2], maxLogEntries);
      var entries := Appended([], startup[0], maxLogEntries);
      entries := Appended(entries, startup[1], maxLogEntries);
      logEntries := Appended(entries, startup[2], maxLogEntries);
    }

    /** Appends an entry stamped `now`, erasing the oldest beyond the cap. */
    method AddLog(message: string, level: int, now: real)
      requires Valid()
      modifies this
      ensures Valid()
      ensures logEntries == LastN(old(logEntries) + [LogEntry(message, level, now)], maxLogEntries)
      ensures showInfo == old(showInfo) && showWarnings == old(showWarnings)
      ensures showErrors == old(showErrors) && autoScroll == old(autoScroll)
    {
      AppendedKeepsLatest(logEntries, LogEntry(message, level, now), maxLogEntries);
      logEntries := Appended(logEntries, LogEntry(message, level, now), maxLogEntries);
    }

    method Clear()
      modifies this
      ensures Valid() && logEntries == []
      ensures showInfo == old(showInfo) && showWarnings == old(showWarnings)
      ensures showErrors == old(showErrors) && autoScroll == old(autoScroll)
    {
      logEntries := [];
    }

    /** Pops every message from the engine's queue into the entries, oldest
        first, keeping only the newest `maxLogEntries`. */
    method DrainEngineLogQueue(logQueue: GuiLogQueue)
      requires Valid() && logQueue.Valid()
      modifies this, logQueue
      ensures Valid() && logQueue.Valid() && logQueue.queue == []
      ensures logEntries == LastN(old(logEntries) + Converted(old(logQueue.queue)), maxLogEntries)
      ensures showInfo == old(showInfo) && showWarnings == old(showWarnings)
      ensures showErrors == old(showErrors) && autoScroll == old(autoScroll)
    {
      DrainedKeepsLatest(logEntries, logQueue.queue, maxLogEntries);
      var popped := logQueue.TryPop();
      while popped.Some?
        invariant Valid() && logQueue.Valid()
        invariant popped.None? ==> logQueue.queue == []
        invariant popped.Some? ==> Drained(Appended(logEntries, ToEntry(popped.value), maxLogEntries), logQueue.queue, maxLogEntries)
                                   == Drained(old(logEntries), old(logQueue.queue), maxLogEntries)
        invariant popped.None? ==> logEntries == Drained(old(logEntries), old(logQueue.queue), maxLogEntries)
        invariant showInfo == old(showInfo) && showWarnings == old(showWarnings)
        invariant showErrors == old(showErrors) && autoScroll == old(autoScroll)
        decreases |logQueue.queue|, popped.Some?
      {
        AppendedKeepsLatest(logEntries, ToEntry(popped.value), maxLogEntries);
        logEntries := Appended(logEntries, ToEntry(popped.value), maxLogEntries);
        popped := logQueue.TryPop();
      }
    }

    /** The window's body: take the checkbox values, clear on request,
        produce the shown lines, then log a non-empty submitted command. */
    method RenderBody(frame: ConsoleFrame, now: real) returns (lines: seq<ConsoleLine>)
      requires Valid()
      modifies this
      ensures Valid()
      ensures showInfo == frame.showInfo && showWarnings == frame.showWarnings
      ensures showErrors == frame.showErrors && autoScroll == frame.autoScroll
      ensures lines == Displayed(ClearedBy(old(logEntries), frame), frame.showInfo, frame.showWarnings, frame.showErrors)
      ensures logEntries == CommandLogged(ClearedBy(old(logEntries), frame), frame, now, maxLogEntries)
    {
      showInfo, showWarnings, showErrors, autoScroll := frame.showInfo, frame.showWarnings, frame.showErrors, frame.autoScroll;
      if frame.clearClicked {
        Clear();
      }
      lines := Displayed(logEntries, showInfo, showWarnings, showErrors);
      if |frame.submitted| > 0 {
        AddLog(COMMAND_PREFIX + frame.submitted, 0, now);
      }
    }

    /** One frame: drain the queue first, then draw the body when the window
        is visible. The close button closes the panel. */
    method OnImGuiRender(logQueue: GuiLogQueue, frame: ConsoleFrame, now: real) returns (lines: seq<ConsoleLine>)
      requires Valid() && logQueue.Valid()
      modifies this, logQueue, panel
      ensures Valid() && logQueue.Valid() && logQueue.queue == []
      ensures panel.isOpen == (old(panel.isOpen) && !frame.closed)
      ensures !frame.visible ==>
        && lines == [] && logEntries == LastN(old(logEntries) + Converted(old(logQueue.queue)), maxLogEntries)
        && showInfo == old(showInfo) && showWarnings == old(showWarnings)
        && showErrors == old(showErrors) && autoScroll == old(autoScroll)
      ensures frame.visible ==>
        var shown := ClearedBy(LastN(old(logEntries) + Converted(old(logQueue.queue)), maxLogEntries), frame);
        && showInfo == frame.showInfo && showWarnings == frame.showWarnings
        && showErrors == frame.showErrors && autoScroll == frame.autoScroll
        && lines == Displayed(shown, frame.showInfo, frame.showWarnings, frame.showErrors)
        && logEntries == CommandLogged(shown, frame, now, maxLogEntries)
    {
      DrainEngineLogQueue(logQueue);
      if frame.closed {
        panel.SetOpen(false);
      }
      if !frame.visible {
        return [];
      }
      lines := RenderBody(frame, now);
    }
  }

  /** The entries shown in a frame: none once Clear is pressed. */
  function ClearedBy(entries: seq<LogEntry>, frame: ConsoleFrame): (r: seq<LogEntry>)
    ensures frame.clearClicked ==> r == []
    ensures !frame.clearClicked ==> r == entries
  {
    if frame.clearClicked then [] else entries
  }

  /** The entries after a frame's command line: a non-empty command is logged
      at info level with the "Command: " prefix. */
  function CommandLogged(entries: seq<LogEntry>, frame: ConsoleFrame, now: real, maxEntries: nat): (r: seq<LogEntry>)
    ensures frame.submitted == [] ==> r == entries
    ensures frame.submitted != [] ==> r == LastN(entries + [LogEntry(COMMAND_PREFIX + frame.submitted, 0, now)], maxEntries)
  {
    if frame.submitted == [] then entries
    else LastN(entries + [LogEntry(COMMAND_PREFIX + frame.submitted, 0, now)], maxEntries)
  }

  /** Draining an empty queue changes nothing; draining below the cap appends
      every message. */
  lemma DrainBelowCapAppends(entries: seq<LogEntry>, messages: seq<LogMessage>, maxEntries: nat)
    requires |entries| + |messages| <= maxEntries
    ensures Drained(entries, messages, maxEntries) == entries + Converted(messages)
  {
    DrainedKeepsLatest(entries, messages, maxEntries);
  }
}
