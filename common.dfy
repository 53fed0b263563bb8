/** Shared vocabulary of the engine: optional values, key codes, the opaque
    callbacks a level registers, and the trace of callback firings. */
module Common {

  datatype Option<+T> = None | Some(value: T)

  /** A pygame key code, as used to index the key-state table. */
  type Key = int

  /** An opaque user callback. Its body is not modelled: calling it is
      recorded as an `Event` in the world's log. */
  type Command = nat

  /** One callback firing, in the order the engine makes the calls. */
  datatype Event =
    | Collided(block: nat)               // `oncollide` of the block at this index
    | Clicked(block: nat)                // `onclick` of the block at this index
    | KeyPressed(key: Key, cmd: Command) // an edge-triggered key-down command
    | KeyHeld(key: Key, cmd: Command)    // a held-key (repeat) command
    | DeathCommand(cmd: Command)         // a `playerdeath` command

  /** Every event of `s` is a collision callback. */
  ghost predicate OnlyCollisions(s: seq<Event>) {
    forall k :: 0 <= k < |s| ==> s[k].Collided?
  }
}
