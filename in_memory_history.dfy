/**
 * InMemoryHistory (src/core/history/InMemoryHistory.java): a history kept in
 * a `java.util.Stack`, whose bottom is element 0 and whose top is the last
 * element. It is the one bounded history: `pushWithLimit` evicts from the
 * bottom until there is room below the limit.
 */
module InMemory {

  import opened Commands

  /** The `n` most recent entries of `s`, oldest first; all of `s` when it holds fewer. */
  function Newest(s: seq<Command>, n: nat): seq<Command>
  {
    if |s| <= n then s else s[|s| - n..]
  }

  /** The stack `s` after `pushWithLimit(c, maxLimit)`. */
  function BoundedPush(s: seq<Command>, c: Command, maxLimit: int): seq<Command>
    requires maxLimit >= 1
  {
    Newest(s, maxLimit - 1) + [c]
  }

  /** `t` is what is left of `s` after removing some entries from its bottom. */
  predicate IsSuffix(t: seq<Command>, s: seq<Command>)
  {
    |t| <= |s| && t == s[|s| - |t|..]
  }

  /** After a bounded push the stack holds at most `maxLimit` entries and `c` is on top. */
  lemma BoundedPushWithinLimit(s: seq<Command>, c: Command, maxLimit: int)
    requires maxLimit >= 1
    ensures |BoundedPush(s, c, maxLimit)| <= maxLimit
    ensures Top(BoundedPush(s, c, maxLimit)) == c
  {
  }

  /**
   * A bounded push only evicts from the bottom: below the new top lies the
   * longest run of the most recent old entries, in their old order, that
   * leaves room for `c`.
   */
  lemma BoundedPushEvictsOldest(s: seq<Command>, c: Command, maxLimit: int)
    requires maxLimit >= 1
    ensures var r := BoundedPush(s, c, maxLimit);
            IsSuffix(Popped(r), s) &&
            |Popped(r)| == (if |s| < maxLimit then |s| else maxLimit - 1)
  {
  }

  /** Below the limit a bounded push is a plain push. */
  lemma BoundedPushBelowLimitIsPush(s: seq<Command>, c: Command, maxLimit: int)
    requires maxLimit >= 1 && |s| < maxLimit
    ensures BoundedPush(s, c, maxLimit) == s + [c]
  {
  }

  /** On a full stack a bounded push evicts exactly the single oldest entry. */
  lemma BoundedPushOnFullEvictsOne(s: seq<Command>, c: Command, maxLimit: int)
    requires maxLimit >= 1 && |s| == maxLimit
    ensures BoundedPush(s, c, maxLimit) == s[1..] + [c]
  {
  }

  /** Repeated bounded pushes keep the size invariant `size <= maxLimit`. */
  lemma {:induction false} BoundedPushesStayWithinLimit(s: seq<Command>, cs: seq<Command>, maxLimit: int)
    requires maxLimit >= 1 && |s| <= maxLimit
    ensures |BoundedPushAll(s, cs, maxLimit)| <= maxLimit
    decreases |cs|
  {
    if cs != [] {
      BoundedPushesStayWithinLimit(BoundedPush(s, cs[0], maxLimit), cs[1..], maxLimit);
    }
  }

  /** Bounded-pushes `cs`, first element first. */
  function BoundedPushAll(s: seq<Command>, cs: seq<Command>, maxLimit: int): seq<Command>
    requires maxLimit >= 1
    decreases |cs|
  {
    if cs == [] then s else BoundedPushAll(BoundedPush(s, cs[0], maxLimit), cs[1..], maxLimit)
  }

  class InMemoryHistory {

    /** The stack: element 0 is the bottom (oldest), the last element the top. */
    var stack: seq<Command>

    constructor ()
      ensures stack == []
    {
      stack := [];
    }

    /** Evicts from the bottom while the stack is full, then pushes. */
    method PushWithLimit(command: Command, maxLimit: int)
      requires maxLimit >= 1
      modifies this
      ensures stack == BoundedPush(old(stack), command, maxLimit)
    {
      ghost var before, evicted := stack, 0;
      while |stack| >= maxLimit
        invariant 0 <= evicted <= |before| && stack == before[evicted..]
        invariant |stack| >= if |before| < maxLimit then |before| else maxLimit - 1
        decreases |stack|
      {
        stack := stack[1..];
        evicted := evicted + 1;
      }
      assert stack == Newest(before, maxLimit - 1);
      stack := stack + [command];
    }

    method Push(command: Command)
      modifies this
      ensures stack == old(stack) + [command]
    {
      stack := stack + [command];
    }

    /** `java.util.Stack.pop` throws on an empty stack, so callers must check first. */
    method Pop() returns (command: Command)
      requires stack != []
      modifies this
      ensures command == Top(old(stack)) && stack == Popped(old(stack))
    {
      command := Top(stack);
      stack := Popped(stack);
    }

    method IsEmpty() returns (empty: bool)
      ensures empty <==> |stack| == 0
    {
      empty := stack == [];
    }

    method Clear()
      modifies this
      ensures stack == []
    {
      stack := [];
    }
  }
}
