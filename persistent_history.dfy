/**
 * PersistentHistory (src/core/history/PersistentHistory.java): a history kept
 * in a `java.util.ArrayDeque` used as a stack, so `push` inserts at the head
 * and `pop` removes the head. Two persistence hooks are extension points
 * whose bodies are empty; the model records each call to them in a ghost log
 * and proves that they leave the commands alone.
 */
module Persistent {

  import opened Commands

  /** A call of one of the two persistence hooks. */
  datatype Hook = Persisted(command: Command) | ClearedPersistence

  /** The hook calls that pushing `c` makes: `persist` exactly for Serializable commands. */
  function PushHooks(c: Command): seq<Hook>
  {
    if c.serializable then [Persisted(c)] else []
  }

  /** The entries of `s` in the opposite order. */
  function Reversed(s: seq<Command>): seq<Command>
  {
    if s == [] then [] else Reversed(s[1..]) + [s[0]]
  }

  lemma {:induction false} ReversedLength(s: seq<Command>)
    ensures |Reversed(s)| == |s|
  {
    if s != [] {
      ReversedLength(s[1..]);
    }
  }

  /** Entry `k` of the reversal is entry `|s| - 1 - k` of `s`. */
  lemma {:induction false} ReversedAt(s: seq<Command>, k: nat)
    requires k < |s|
    ensures |Reversed(s)| == |s| && Reversed(s)[k] == s[|s| - 1 - k]
  {
    ReversedLength(s);
    if k < |s| - 1 {
      ReversedAt(s[1..], k);
    }
  }

  /** Reversing twice gives back the deque: the stack view loses nothing. */
  lemma {:induction false} ReversedInvolutive(s: seq<Command>)
    ensures Reversed(Reversed(s)) == s
  {
    ReversedLength(s);
    ReversedLength(Reversed(s));
    forall k | 0 <= k < |s|
      ensures Reversed(Reversed(s))[k] == s[k]
    {
      ReversedAt(Reversed(s), k);
      ReversedAt(s, |s| - 1 - k);
    }
  }

  class PersistentHistory {

    /** The deque: element 0 is the head, where `push` inserts and `pop` removes. */
    var deque: seq<Command>

    /** Every call made so far to `persist` and `clearPersistence`, oldest first. */
    ghost var hookLog: seq<Hook>

    constructor ()
      ensures deque == [] && hookLog == []
    {
      deque := [];
      hookLog := [];
    }

    method Push(command: Command)
      modifies this
      ensures deque == [command] + old(deque)
      ensures hookLog == old(hookLog) + PushHooks(command)
    {
      deque := [command] + deque;
      if command.serializable {
        Persist(command);
      }
    }

    method Clear()
      modifies this
      ensures deque == []
      ensures hookLog == old(hookLog) + [ClearedPersistence]
    {
      deque := [];
      ClearPersistence();
    }

    /** `ArrayDeque.pop` throws on an empty deque, so callers must check first. */
    method Pop() returns (command: Command)
      requires deque != []
      modifies this
      ensures command == old(deque)[0] && deque == old(deque)[1..]
      ensures hookLog == old(hookLog)
    {
      command := deque[0];
      deque := deque[1..];
    }

    method IsEmpty() returns (empty: bool)
      ensures empty <==> |deque| == 0
    {
      empty := deque == [];
    }

    /** The persistence hook; it takes only Serializable commands and does nothing to the deque. */
    method Persist(command: Command)
      requires command.serializable
      modifies this
      ensures deque == old(deque)
      ensures hookLog == old(hookLog) + [Persisted(command)]
    {
      hookLog := hookLog + [Persisted(command)];
    }

    /** The clear-persistence hook; it does nothing to the deque. */
    method ClearPersistence()
      modifies this
      ensures deque == old(deque)
      ensures hookLog == old(hookLog) + [ClearedPersistence]
    {
      hookLog := hookLog + [ClearedPersistence];
    }
  }
}
