/**
 * The mapping from a key press to an abstract command.  It is total: every
 * key the terminal can report yields some command, and it reads only the key
 * code, never the modifiers or the kind of the event.
 */
module Commands {

  /** The key codes the terminal library reports; media and modifier keys are each folded into one code. */
  datatype KeyCode =
    | Backspace | Enter | Left | Right | Up | Down | Home | End | PageUp | PageDown
    | Tab | BackTab | Delete | Insert | F(n: nat) | Char(c: char) | Null | Esc
    | CapsLock | ScrollLock | NumLock | PrintScreen | Pause | Menu | KeypadBegin
    | Media | Modifier

  datatype KeyModifier = Shift | Control | Alt | Super | Hyper | Meta

  datatype KeyEventKind = Press | Repeat | Release

  datatype KeyEvent = KeyEvent(code: KeyCode, modifiers: set<KeyModifier>, kind: KeyEventKind)

  /** What a `Next` or `Previous` command moves through. */
  datatype ScrollType = Tab | Table | Chunk

  datatype Command = Exit | Nothing | Next(scroll: ScrollType) | Previous(scroll: ScrollType)

  /** The keys that are bound to a command other than `Nothing`. */
  function BoundKeys(): set<KeyCode>
  {
    {KeyCode.Esc, KeyCode.Char('q'), KeyCode.BackTab, KeyCode.Tab,
     KeyCode.Char('j'), KeyCode.Char('k'), KeyCode.Char('l'), KeyCode.Char('h')}
  }

  /** `impl From<KeyEvent> for Command`. */
  function FromKeyEvent(event: KeyEvent): (command: Command)
    ensures command == Exit <==> event.code == KeyCode.Esc || event.code == KeyCode.Char('q')
    ensures command == Next(ScrollType.Tab) <==> event.code == KeyCode.Tab
    ensures command == Previous(ScrollType.Tab) <==> event.code == KeyCode.BackTab
    ensures command == Next(Table) <==> event.code == KeyCode.Char('j')
    ensures command == Previous(Table) <==> event.code == KeyCode.Char('k')
    ensures command == Next(Chunk) <==> event.code == KeyCode.Char('l')
    ensures command == Previous(Chunk) <==> event.code == KeyCode.Char('h')
    ensures command == Nothing <==> event.code !in BoundKeys()
  {
    match event.code
    case Esc => Exit
    case Char('q') => Exit
    case BackTab => Previous(ScrollType.Tab)
    case Tab => Next(ScrollType.Tab)
    case Char('j') => Next(Table)
    case Char('k') => Previous(Table)
    case Char('l') => Next(Chunk)
    case Char('h') => Previous(Chunk)
    case _ => Nothing
  }

  /** Two events with the same key code give the same command, whatever their modifiers and kind. */
  lemma FromKeyEventReadsOnlyCode(a: KeyEvent, b: KeyEvent)
    requires a.code == b.code
    ensures FromKeyEvent(a) == FromKeyEvent(b)
  {
  }
}
