/**
 * The session state of the terminal interface: whether the event loop keeps
 * running, the viewer, and the selected tab.  Commands change only `running`
 * and `tab`; the tab cycles through the two tabs, wrapping at both ends.
 */
module TuiState {
  import opened Wrappers
  import opened Commands
  import opened App
  import opened Ui

  /** `usize::checked_sub`: `None` when the difference would be negative. */
  function CheckedSub(a: nat, b: nat): (r: Option<nat>)
    ensures r.Some? <==> b <= a
    ensures r.Some? ==> r.value + b == a
  {
    if b <= a then Some(a - b) else None
  }

  /** The tab after a `Next` command: one index up, back to 0 past `N_TABS`. */
  function NextTab(t: Tab): (r: Tab)
    ensures TabIndex(r) == (TabIndex(t) + 1) % |Headers()|
  {
    var newTab := TabIndex(t) + 1;
    if newTab > NTabs() then TabFromIndex(0) else TabFromIndex(newTab)
  }

  /** The tab after a `Previous` command: one index down, `N_TABS` below 0. */
  function PreviousTab(t: Tab): (r: Tab)
    ensures TabIndex(r) == (TabIndex(t) + |Headers()| - 1) % |Headers()|
  {
    TabFromIndex(UnwrapOr(CheckedSub(TabIndex(t), 1), NTabs()))
  }

  /** `Next` and `Previous` each swap the two tabs, wrapping at both ends. */
  lemma TabCycle()
    ensures NextTab(Data) == Metadata && NextTab(Metadata) == Data
    ensures PreviousTab(Data) == Metadata && PreviousTab(Metadata) == Data
  {
  }

  lemma NextPreviousInverse(t: Tab)
    ensures PreviousTab(NextTab(t)) == t
    ensures NextTab(PreviousTab(t)) == t
  {
  }

  lemma NextTwiceIsIdentity(t: Tab)
    ensures NextTab(NextTab(t)) == t
  {
  }

  /** Running state and tab after one command; the scroll kind of `Next` and `Previous` is ignored. */
  function Transition(running: bool, tab: Tab, command: Command): (r: (bool, Tab))
    ensures r.0 <==> running && !command.Exit?
    ensures TabIndex(r.1) == (TabIndex(tab) + NetTabMoves([command])) % |Headers()|
  {
    match command
    case Exit => (false, tab)
    case Next(_) => (running, NextTab(tab))
    case Previous(_) => (running, PreviousTab(tab))
    case Nothing => (running, tab)
  }

  /**
   * Running state and tab after the event loop has read `commands`: while the
   * session is running it runs the next command; once stopped, nothing more
   * is run.
   */
  function RunAll(running: bool, tab: Tab, commands: seq<Command>): (r: (bool, Tab))
    ensures commands == [] || !running ==> r == (running, tab)
    ensures Exit in commands ==> !r.0
    decreases |commands|
  {
    if commands == [] || !running then (running, tab)
    else
      var (running', tab') := Transition(running, tab, commands[0]);
      assert commands[0] != Exit ==> (Exit in commands <==> Exit in commands[1..]) by {
        assert commands == [commands[0]] + commands[1..];
      }
      RunAll(running', tab', commands[1..])
  }

  /** The commands before the first `Exit`: the ones a running loop acts on. */
  function BeforeExit(commands: seq<Command>): (prefix: seq<Command>)
    ensures prefix <= commands && Exit !in prefix
    ensures |prefix| < |commands| ==> commands[|prefix|] == Exit
    decreases |commands|
  {
    if commands == [] || commands[0] == Exit then []
    else [commands[0]] + BeforeExit(commands[1..])
  }

  /** The number of `Next` commands less the number of `Previous` commands. */
  function NetTabMoves(commands: seq<Command>): int
  {
    if commands == [] then 0
    else
      (match commands[0]
       case Next(_) => 1
       case Previous(_) => -1
       case _ => 0) + NetTabMoves(commands[1..])
  }

  /**
   * From a running session, the tab index after the loop is the start index
   * plus the net number of moves before the first `Exit`, modulo the tab count.
   */
  lemma {:induction false} RunAllTab(tab: Tab, commands: seq<Command>)
    ensures TabIndex(RunAll(true, tab, commands).1) == (TabIndex(tab) + NetTabMoves(BeforeExit(commands))) % |Headers()|
    decreases |commands|
  {
    if commands != [] && commands[0] != Exit {
      var tab' := Transition(true, tab, commands[0]).1;
      RunAllTab(tab', commands[1..]);
      assert ([commands[0]] + BeforeExit(commands[1..]))[1..] == BeforeExit(commands[1..]);
    }
  }

  /** The loop keeps running exactly as long as it was running and no `Exit` came. */
  lemma {:induction false} RunAllRunning(running: bool, tab: Tab, commands: seq<Command>)
    ensures RunAll(running, tab, commands).0 <==> running && Exit !in commands
    decreases |commands|
  {
    if commands != [] && running {
      var (running', tab') := Transition(running, tab, commands[0]);
      RunAllRunning(running', tab', commands[1..]);
      assert commands == [commands[0]] + commands[1..];
    }
  }

  class State {
    var running: bool
    var viewer: Viewer
    var tab: Tab

    /** `State::new`: running, on the default tab. */
    constructor (viewer: Viewer)
      ensures running && tab == DefaultTab() && this.viewer == viewer
    {
      this.running := true;
      this.viewer := viewer;
      this.tab := DefaultTab();
    }

    /**
     * `State::run_command`.  The command type carries a scroll kind on `Next`
     * and `Previous`; the tab moves on either, whatever the kind.
     */
    method RunCommand(command: Command)
      modifies this
      ensures (running, tab) == Transition(old(running), old(tab), command)
      ensures running == (old(running) && !command.Exit?)
      ensures viewer == old(viewer)
    {
      match command {
        case Exit =>
          running := false;
        case Next(_) =>
          var newTab := TabIndex(tab) + 1;
          if newTab > NTabs() {
            tab := TabFromIndex(0);
          } else {
            tab := TabFromIndex(newTab);
          }
        case Previous(_) =>
          tab := TabFromIndex(UnwrapOr(CheckedSub(TabIndex(tab), 1), NTabs()));
        case Nothing =>
      }
    }

    /**
     * The loop of `start_tui`: while the session is running, run the command
     * of the next key event.  Other events carry no command.
     */
    method RunCommands(commands: seq<Command>)
      modifies this
      ensures (running, tab) == RunAll(old(running), old(tab), commands)
      ensures viewer == old(viewer)
    {
      var i := 0;
      while running && i < |commands|
        invariant 0 <= i <= |commands|
        invariant RunAll(running, tab, commands[i..]) == RunAll(old(running), old(tab), commands)
        invariant viewer == old(viewer)
        decreases |commands| - i
      {
        assert commands[i..][1..] == commands[i + 1..];
        RunCommand(commands[i]);
        i := i + 1;
      }
    }
  }
}
