/**
 * The CommandHistory interface (src/core/history/CommandHistory.java) and its
 * two implementations. A history reference is one of the two classes; the
 * `BoundedHistory` capability, which only InMemoryHistory has, is the tag
 * `InMemoryRef`. Whatever the class, `Elements()` is the stack seen from
 * outside: oldest entry first, the top last.
 */
module History {

  import opened Commands
  import opened InMemory
  import opened Persistent

  datatype HistoryRef = InMemoryRef(mem: InMemoryHistory) | PersistentRef(per: PersistentHistory)
  {
    /** The object that holds this history's state. */
    function Obj(): object
    {
      match this
      case InMemoryRef(m) => m
      case PersistentRef(p) => p
    }

    /** The history supports `pushWithLimit`. */
    predicate Bounded()
    {
      InMemoryRef?
    }

    /** The commands in the history, oldest first, the top last. */
    function Elements(): seq<Command>
      reads Obj()
    {
      match this
      case InMemoryRef(m) => m.stack
      case PersistentRef(p) => Reversed(p.deque)
    }

    /** The persistence hooks called so far (an InMemoryHistory has none). */
    ghost function Hooks(): seq<Hook>
      reads Obj()
    {
      match this
      case InMemoryRef(_) => []
      case PersistentRef(p) => p.hookLog
    }

    /** The hook calls that a plain push of `c` makes on this history. */
    function PushHooksOf(c: Command): seq<Hook>
    {
      if PersistentRef? then PushHooks(c) else []
    }

    /** The hook calls that `clear()` makes on this history. */
    function ClearHooksOf(): seq<Hook>
    {
      if PersistentRef? then [ClearedPersistence] else []
    }

    method Push(command: Command)
      modifies Obj()
      ensures Elements() == old(Elements()) + [command]
      ensures Hooks() == old(Hooks()) + PushHooksOf(command)
    {
      match this
      case InMemoryRef(m) =>
        m.Push(command);
      case PersistentRef(p) =>
        p.Push(command);
    }

    method Pop() returns (command: Command)
      requires Elements() != []
      modifies Obj()
      ensures command == Top(old(Elements())) && Elements() == Popped(old(Elements()))
      ensures Hooks() == old(Hooks())
    {
      match this
      case InMemoryRef(m) =>
        command := m.Pop();
      case PersistentRef(p) =>
        command := p.Pop();
    }

    method IsEmpty() returns (empty: bool)
      ensures empty <==> |Elements()| == 0
    {
      match this
      case InMemoryRef(m) =>
        empty := m.IsEmpty();
      case PersistentRef(p) =>
        ReversedLength(p.deque);
        empty := p.IsEmpty();
    }

    method Clear()
      modifies Obj()
      ensures Elements() == []
      ensures Hooks() == old(Hooks()) + ClearHooksOf()
    {
      match this
      case InMemoryRef(m) =>
        m.Clear();
      case PersistentRef(p) =>
        p.Clear();
    }
  }

  /** Push then pop returns the pushed command and restores the stack (LIFO). */
  method PushThenPop(history: HistoryRef, command: Command) returns (popped: Command)
    modifies history.Obj()
    ensures popped == command
    ensures history.Elements() == old(history.Elements())
    ensures history.Hooks() == old(history.Hooks()) + history.PushHooksOf(command)
  {
    history.Push(command);
    popped := history.Pop();
  }
}
