/**
 * UndoRedoManager (src/core/manager/UndoRedoManager.java), with the command
 * executor (src/core/manager/CommandExecutor.java) folded in.
 *
 * The manager holds two histories. The pure functions below say what one
 * call does to the pair of stacks, which commands it invokes and which
 * error it raises; the class's methods are proved to follow them; the
 * lemmas state the manager's properties about the functions, one call at a
 * time and over whole sequences of calls.
 */
module Manager {

  import opened Options
  import opened Commands
  import opened Errors
  import opened Persistent
  import opened History

  /** The two stacks, each oldest first with its top last. */
  datatype Histories = Histories(undo: seq<Command>, redo: seq<Command>)

  /** A call the manager makes into a command's own code. */
  datatype Invocation = Executed(command: Command) | Undone(command: Command) | Redone(command: Command)

  /** What one manager call does: the new stacks, the command calls it made, the error it raised. */
  datatype Outcome = Outcome(next: Histories, invoked: seq<Invocation>, error: Option<ManagerError>)

  /** `execute`: the executor runs the command; an Undoable one is pushed and the redo stack cleared. */
  function ExecuteStep(h: Histories, c: Command): Outcome
  {
    if c.undoable then Outcome(Histories(h.undo + [c], []), [Executed(c)], None)
    else Outcome(h, [Executed(c)], None)
  }

  /** `undo`: fails on an empty stack; otherwise pops, and drops a popped command that is not Undoable. */
  function UndoStep(h: Histories): Outcome
  {
    if h.undo == [] then
      Outcome(h, [], Some(UndoNotSupportedError(NoCommandToUndo)))
    else
      var c := Top(h.undo);
      if !c.undoable then
        Outcome(Histories(Popped(h.undo), h.redo), [], Some(UndoNotSupportedError(CommandNotUndoable)))
      else
        Outcome(Histories(Popped(h.undo), h.redo + [c]), [Undone(c)], None)
  }

  /** `redo`: fails on an empty stack; otherwise moves the top back, with no capability check. */
  function RedoStep(h: Histories): Outcome
  {
    if h.redo == [] then
      Outcome(h, [], Some(RedoNotSupportedError(NoCommandToRedo)))
    else
      var c := Top(h.redo);
      Outcome(Histories(h.undo + [c], Popped(h.redo)), [Redone(c)], None)
  }

  /** `clearHistory`. */
  function ClearStep(h: Histories): Outcome
  {
    Outcome(Histories([], []), [], None)
  }

  /** One call a client makes on the manager. */
  datatype Op = ExecuteOp(command: Command) | UndoOp | RedoOp | ClearHistoryOp

  function Step(h: Histories, op: Op): Outcome
  {
    match op
    case ExecuteOp(c) => ExecuteStep(h, c)
    case UndoOp => UndoStep(h)
    case RedoOp => RedoStep(h)
    case ClearHistoryOp => ClearStep(h)
  }

  /** The stacks after the calls `ops`, first call first; a failing call leaves what it left. */
  function Run(h: Histories, ops: seq<Op>): Histories
    decreases |ops|
  {
    if ops == [] then h else Run(Step(h, ops[0]).next, ops[1..])
  }

  /** Every command in either stack, counted with multiplicity. */
  ghost function Members(h: Histories): multiset<Command>
  {
    multiset(h.undo) + multiset(h.redo)
  }

  /** No command sits twice in one stack or once in each. */
  ghost predicate NoDuplicates(h: Histories)
  {
    forall c :: Members(h)[c] <= 1
  }

  /** Every command in either stack is Undoable. */
  ghost predicate AllUndoable(h: Histories)
  {
    (forall c :: c in h.undo ==> c.undoable) && (forall c :: c in h.redo ==> c.undoable)
  }

  /** Each command that `ops` executes is new: not in `h` and not executed twice. */
  ghost predicate FreshExecutes(h: Histories, ops: seq<Op>)
  {
    (forall i :: 0 <= i < |ops| && ops[i].ExecuteOp? ==> ops[i].command !in Members(h)) &&
    (forall i, j :: 0 <= i < j < |ops| && ops[i].ExecuteOp? && ops[j].ExecuteOp? ==> ops[i].command != ops[j].command)
  }

  lemma ExecuteUndoablePushesAndClearsRedo(h: Histories, c: Command)
    requires c.undoable
    ensures var o := ExecuteStep(h, c);
            o.next.undo == h.undo + [c] && Top(o.next.undo) == c && o.next.redo == [] &&
            o.invoked == [Executed(c)] && o.error == None
  {
  }

  lemma ExecuteNonUndoableLeavesHistories(h: Histories, c: Command)
    requires !c.undoable
    ensures var o := ExecuteStep(h, c);
            o.next == h && o.invoked == [Executed(c)] && o.error == None
  {
  }

  lemma UndoOnEmptyFails(h: Histories)
    requires h.undo == []
    ensures var o := UndoStep(h);
            o.next == h && o.invoked == [] && o.error == Some(UndoNotSupportedError("No command to undo"))
  {
  }

  lemma UndoMovesTopToRedo(h: Histories)
    requires h.undo != [] && Top(h.undo).undoable
    ensures var o := UndoStep(h);
            o.next.undo == Popped(h.undo) && o.next.redo == h.redo + [Top(h.undo)] &&
            o.invoked == [Undone(Top(h.undo))] && o.error == None
  {
  }

  lemma UndoDropsNonUndoable(h: Histories)
    requires h.undo != [] && !Top(h.undo).undoable
    ensures var o := UndoStep(h);
            o.next.undo == Popped(h.undo) && o.next.redo == h.redo && o.invoked == [] &&
            o.error == Some(UndoNotSupportedError("Command is not undoable"))
  {
  }

  lemma RedoOnEmptyFails(h: Histories)
    requires h.redo == []
    ensures var o := RedoStep(h);
            o.next == h && o.invoked == [] && o.error == Some(RedoNotSupportedError("No command to redo"))
  {
  }

  lemma RedoMovesTopToUndo(h: Histories)
    requires h.redo != []
    ensures var o := RedoStep(h);
            o.next.undo == h.undo + [Top(h.redo)] && o.next.redo == Popped(h.redo) &&
            o.invoked == [Redone(Top(h.redo))] && o.error == None
  {
  }

  /** A successful undo followed by redo restores both stacks exactly. */
  lemma UndoThenRedoRestores(h: Histories)
    requires h.undo != [] && Top(h.undo).undoable
    ensures var u := UndoStep(h);
            var r := RedoStep(u.next);
            r.next == h && r.error == None && u.invoked + r.invoked == [Undone(Top(h.undo)), Redone(Top(h.undo))]
  {
  }

  /** A redo followed by undo restores both stacks exactly when the command is Undoable. */
  lemma RedoThenUndoRestores(h: Histories)
    requires h.redo != [] && Top(h.redo).undoable
    ensures var r := RedoStep(h);
            var u := UndoStep(r.next);
            u.next == h && u.error == None && r.invoked + u.invoked == [Redone(Top(h.redo)), Undone(Top(h.redo))]
  {
  }

  /** A successful undo or redo moves one command: nothing is lost or duplicated. */
  lemma MovesPreserveMembers(h: Histories)
    ensures UndoStep(h).error == None ==> Members(UndoStep(h).next) == Members(h)
    ensures RedoStep(h).error == None ==> Members(RedoStep(h).next) == Members(h)
  {
    if h.undo != [] {
      PopSplitsMultiset(h.undo);
    }
    if h.redo != [] {
      PopSplitsMultiset(h.redo);
    }
  }

  lemma ClearEmptiesBoth(h: Histories)
    ensures ClearStep(h).next == Histories([], []) && ClearStep(h).error == None
  {
  }

  /** One call adds to the stacks at most the command it executes. */
  lemma StepMembers(h: Histories, op: Op)
    ensures Members(Step(h, op).next) <= Members(h) + (if op.ExecuteOp? then multiset{op.command} else multiset{})
  {
    MovesPreserveMembers(h);
    if op.UndoOp? && h.undo != [] {
      PopSplitsMultiset(h.undo);
    }
  }

  /** One call keeps the stacks free of duplicates when what it executes is new. */
  lemma StepKeepsNoDuplicates(h: Histories, op: Op)
    requires NoDuplicates(h)
    requires op.ExecuteOp? ==> op.command !in Members(h)
    ensures NoDuplicates(Step(h, op).next)
  {
    StepMembers(h, op);
    var m := Members(h) + (if op.ExecuteOp? then multiset{op.command} else multiset{});
    forall c
      ensures Members(Step(h, op).next)[c] <= 1
    {
      assert m[c] <= 1;
    }
  }

  /**
   * The single-owner invariant: over any sequence of calls that executes only
   * new commands, no command is ever in the two stacks more than once.
   */
  lemma {:induction false} RunKeepsNoDuplicates(h: Histories, ops: seq<Op>)
    requires NoDuplicates(h) && FreshExecutes(h, ops)
    ensures NoDuplicates(Run(h, ops))
    decreases |ops|
  {
    if ops != [] {
      var next := Step(h, ops[0]).next;
      StepKeepsNoDuplicates(h, ops[0]);
      StepMembers(h, ops[0]);
      assert FreshExecutes(next, ops[1..]) by {
        forall i | 0 <= i < |ops[1..]| && ops[1..][i].ExecuteOp?
          ensures ops[1..][i].command !in Members(next)
        {
          assert ops[i + 1].command !in Members(h);
          assert ops[0].ExecuteOp? ==> ops[0].command != ops[i + 1].command;
        }
      }
      RunKeepsNoDuplicates(next, ops[1..]);
    }
  }

  lemma StepKeepsAllUndoable(h: Histories, op: Op)
    requires AllUndoable(h)
    ensures AllUndoable(Step(h, op).next)
  {
  }

  /** Only Undoable commands ever enter a stack, over any sequence of calls. */
  lemma {:induction false} RunKeepsAllUndoable(h: Histories, ops: seq<Op>)
    requires AllUndoable(h)
    ensures AllUndoable(Run(h, ops))
    decreases |ops|
  {
    if ops != [] {
      StepKeepsAllUndoable(h, ops[0]);
      RunKeepsAllUndoable(Step(h, ops[0]).next, ops[1..]);
    }
  }

  /**
   * On stacks that only the manager has filled, starting empty, `undo` never
   * raises "Command is not undoable": that branch guards against outside
   * tampering only.
   */
  lemma NotUndoableNeverRaised(ops: seq<Op>)
    ensures UndoStep(Run(Histories([], []), ops)).error != Some(UndoNotSupportedError(CommandNotUndoable))
  {
    RunKeepsAllUndoable(Histories([], []), ops);
    var h := Run(Histories([], []), ops);
    if h.undo != [] {
      assert Top(h.undo) in h.undo;
    }
  }

  class UndoRedoManager {

    const undoHistory: HistoryRef
    const redoHistory: HistoryRef

    /** The calls made into commands' own code so far, oldest first. */
    ghost var invoked: seq<Invocation>

    /** The two histories are separate objects. */
    ghost predicate Valid()
    {
      undoHistory.Obj() != redoHistory.Obj()
    }

    constructor (undoHistory: HistoryRef, redoHistory: HistoryRef)
      requires undoHistory.Obj() != redoHistory.Obj()
      ensures Valid() && this.undoHistory == undoHistory && this.redoHistory == redoHistory
      ensures invoked == []
    {
      this.undoHistory := undoHistory;
      this.redoHistory := redoHistory;
      invoked := [];
    }

    function State(): Histories
      reads undoHistory.Obj(), redoHistory.Obj()
    {
      Histories(undoHistory.Elements(), redoHistory.Elements())
    }

    method Execute(command: Command)
      requires Valid()
      modifies this, undoHistory.Obj(), redoHistory.Obj()
      ensures State() == ExecuteStep(old(State()), command).next
      ensures invoked == old(invoked) + ExecuteStep(old(State()), command).invoked
      ensures undoHistory.Hooks() == old(undoHistory.Hooks()) + (if command.undoable then undoHistory.PushHooksOf(command) else [])
      ensures redoHistory.Hooks() == old(redoHistory.Hooks()) + (if command.undoable then redoHistory.ClearHooksOf() else [])
    {
      invoked := invoked + [Executed(command)];
      if command.undoable {
        undoHistory.Push(command);
        redoHistory.Clear();
      }
    }

    method Undo() returns (error: Option<ManagerError>)
      requires Valid()
      modifies this, undoHistory.Obj(), redoHistory.Obj()
      ensures State() == UndoStep(old(State())).next
      ensures error == UndoStep(old(State())).error
      ensures invoked == old(invoked) + UndoStep(old(State())).invoked
      ensures undoHistory.Hooks() == old(undoHistory.Hooks())
      ensures redoHistory.Hooks() == old(redoHistory.Hooks()) +
                (if error == None then redoHistory.PushHooksOf(Top(old(State()).undo)) else [])
    {
      var empty := undoHistory.IsEmpty();
      if empty {
        return Some(UndoNotSupportedError(NoCommandToUndo));
      }
      var command := undoHistory.Pop();
      if !command.undoable {
        return Some(UndoNotSupportedError(CommandNotUndoable));
      }
      invoked := invoked + [Undone(command)];
      redoHistory.Push(command);
      error := None;
    }

    method Redo() returns (error: Option<ManagerError>)
      requires Valid()
      modifies this, undoHistory.Obj(), redoHistory.Obj()
      ensures State() == RedoStep(old(State())).next
      ensures error == RedoStep(old(State())).error
      ensures invoked == old(invoked) + RedoStep(old(State())).invoked
      ensures undoHistory.Hooks() == old(undoHistory.Hooks()) +
                (if error == None then undoHistory.PushHooksOf(Top(old(State()).redo)) else [])
      ensures redoHistory.Hooks() == old(redoHistory.Hooks())
    {
      var empty := redoHistory.IsEmpty();
      if empty {
        return Some(RedoNotSupportedError(NoCommandToRedo));
      }
      var command := redoHistory.Pop();
      invoked := invoked + [Redone(command)];
      undoHistory.Push(command);
      error := None;
    }

    method ClearHistory()
      requires Valid()
      modifies undoHistory.Obj(), redoHistory.Obj()
      ensures State() == ClearStep(old(State())).next
      ensures undoHistory.Hooks() == old(undoHistory.Hooks()) + undoHistory.ClearHooksOf()
      ensures redoHistory.Hooks() == old(redoHistory.Hooks()) + redoHistory.ClearHooksOf()
    {
      undoHistory.Clear();
      redoHistory.Clear();
    }
  }
}
