/**
 * HistoryLimiter (src/core/utils/HistoryLimiter.java): a size policy applied
 * from outside a history. A bounded history gets `pushWithLimit` with the
 * configured limit, any other history a plain push.
 */
module Limiter {

  import opened Commands
  import opened InMemory
  import opened History

  class HistoryLimiter {

    /** Fixed at construction; nothing assigns it afterwards. */
    const limit: int

    constructor (limit: int)
      ensures this.limit == limit
    {
      this.limit := limit;
    }

    /**
     * On a bounded history a limit below one would make the eviction loop
     * remove from an empty stack, which throws; so that case needs `limit >= 1`.
     */
    method Push(history: HistoryRef, command: Command)
      requires history.Bounded() ==> limit >= 1
      modifies history.Obj()
      ensures history.Bounded() ==> history.Elements() == BoundedPush(old(history.Elements()), command, limit)
      ensures !history.Bounded() ==> history.Elements() == old(history.Elements()) + [command]
      ensures history.Hooks() == old(history.Hooks()) + history.PushHooksOf(command)
      ensures history.Elements() != [] && Top(history.Elements()) == command
      ensures history.Bounded() ==> |history.Elements()| <= limit
    {
      match history
      case InMemoryRef(m) =>
        m.PushWithLimit(command, limit);
        BoundedPushWithinLimit(old(m.stack), command, limit);
      case PersistentRef(_) =>
        history.Push(command);
    }
  }
}
