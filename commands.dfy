/**
 * The command abstraction (src/core/interfaces/Command.java) with its two
 * capability markers. The source asks `command instanceof Undoable` and
 * `command instanceof Serializable`; here a command carries both answers as
 * flags, next to an identity that tells two command objects apart.
 */
module Commands {

  /**
   * `id` is the object's identity. A Java object's class fixes both flags,
   * so two commands with the same `id` are the same value, and comparing
   * whole `Command` values compares identities.
   */
  datatype Command = Command(id: nat, undoable: bool, serializable: bool)

  /** The top of a history whose most recent entry is at the end. */
  function Top(s: seq<Command>): Command
    requires s != []
  {
    s[|s| - 1]
  }

  /** A history whose most recent entry is at the end, without that entry. */
  function Popped(s: seq<Command>): seq<Command>
    requires s != []
  {
    s[..|s| - 1]
  }

  /** Pushing and then popping gives back the pushed command and the old history. */
  lemma PushPopRoundTrip(s: seq<Command>, c: Command)
    ensures Top(s + [c]) == c && Popped(s + [c]) == s
  {
  }

  /** Popping and pushing the popped command back restores the history. */
  lemma PopPushRoundTrip(s: seq<Command>)
    requires s != []
    ensures Popped(s) + [Top(s)] == s
  {
  }

  /** Popping splits the commands of a history into the rest and the top. */
  lemma PopSplitsMultiset(s: seq<Command>)
    requires s != []
    ensures multiset(s) == multiset(Popped(s)) + multiset{Top(s)}
  {
    PopPushRoundTrip(s);
    assert multiset(Popped(s) + [Top(s)]) == multiset(Popped(s)) + multiset{Top(s)};
  }
}
