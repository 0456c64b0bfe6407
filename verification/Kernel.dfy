/** The kernel descriptors that the library takes and gives back. */
module Kernel {
  import opened Wrappers

  datatype Event = Dupped(fd: int) | Closed(fd: int)

  /** The descriptors held after a history; none if it took one that was held or closed one that was not. */
  ghost function Held(log: seq<Event>): Option<set<int>> {
    if log == [] then Some({})
    else
      match Held(log[..|log| - 1])
      case None => None
      case Some(held) =>
        match Last(log)
        case Dupped(fd) => if fd in held then None else Some(held + {fd})
        case Closed(fd) => if fd in held then Some(held - {fd}) else None
  }

  function Count(log: seq<Event>, e: Event): nat {
    if log == [] then 0 else Count(log[..|log| - 1], e) + (if Last(log) == e then 1 else 0)
  }

  lemma HeldNext(log: seq<Event>, e: Event)
    ensures Held(log + [e]) ==
            match Held(log)
            case None => None
            case Some(held) =>
              match e
              case Dupped(fd) => if fd in held then None else Some(held + {fd})
              case Closed(fd) => if fd in held then Some(held - {fd}) else None
  {
    assert (log + [e])[..|log + [e]| - 1] == log;
  }

  /** In an orderly history every descriptor has been closed as often as it was taken, but for the ones
      still held. */
  lemma {:induction false} ClosedOnce(log: seq<Event>, fd: int)
    requires Held(log).Some?
    ensures Count(log, Dupped(fd)) == Count(log, Closed(fd)) + if fd in Held(log).value then 1 else 0
    decreases |log|
  {
    if log == [] {
    } else {
      ClosedOnce(log[..|log| - 1], fd);
    }
  }
}
