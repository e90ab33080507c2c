/** The specification machine of a notification's life (lifecycle/state_machine.rs). */
module StateMachine {
  import opened Common

  datatype State = Unseen | Unread | Read | Snoozed | Archived | Expired

  datatype Transition = MarkSeen | MarkRead | MarkUnread | Snooze | Wake | Archive | Unarchive | Expire

  datatype InvalidTransition = InvalidTransition(from: State, to: State)

  function ValidTransitions(s: State): seq<Transition> {
    match s
    case Unseen => [MarkSeen, Snooze, Archive, Expire]
    case Unread => [MarkRead, Snooze, Archive, Expire]
    case Read => [MarkUnread, Archive, Expire]
    case Snoozed => [Wake, Expire]
    case Archived => [Unarchive]
    case Expired => [Archive]
  }

  function Target(t: Transition): State {
    match t
    case MarkSeen => Unread
    case MarkRead => Read
    case MarkUnread => Unread
    case Snooze => Snoozed
    case Wake => Unread
    case Archive => Archived
    case Unarchive => Read
    case Expire => Expired
  }

  function Apply(s: State, t: Transition): Result<State, InvalidTransition> {
    if t in ValidTransitions(s) then Ok(Target(t)) else Err(InvalidTransition(s, Target(t)))
  }

  predicate CanTransitionTo(s: State, target: State) {
    exists t | t in ValidTransitions(s) :: Target(t) == target
  }

  /** What each transition is for: the states it leaves from and the state it leads to; from any other
      state it is refused, naming both. */
  lemma ApplyExactly(s: State, t: Transition)
    ensures match t
            case MarkSeen => Apply(s, t) == if s == Unseen then Ok(Unread) else Err(InvalidTransition(s, Unread))
            case MarkRead => Apply(s, t) == if s == Unread then Ok(Read) else Err(InvalidTransition(s, Read))
            case MarkUnread => Apply(s, t) == if s == Read then Ok(Unread) else Err(InvalidTransition(s, Unread))
            case Snooze =>
              Apply(s, t) == if s in {Unseen, Unread} then Ok(Snoozed) else Err(InvalidTransition(s, Snoozed))
            case Wake => Apply(s, t) == if s == Snoozed then Ok(Unread) else Err(InvalidTransition(s, Unread))
            case Archive =>
              Apply(s, t) == if s in {Unseen, Unread, Read, Expired} then Ok(Archived)
                             else Err(InvalidTransition(s, Archived))
            case Unarchive => Apply(s, t) == if s == Archived then Ok(Read) else Err(InvalidTransition(s, Read))
            case Expire =>
              Apply(s, t) == if s in {Unseen, Unread, Read, Snoozed} then Ok(Expired)
                             else Err(InvalidTransition(s, Expired))
  {
  }

  /** `can_transition_to` is exactly "some transition applied here succeeds with that state";
      nothing re-enters `Unseen`, and no state steps to itself. */
  lemma CanTransitionIsApply(s: State, target: State)
    ensures CanTransitionTo(s, target) <==> exists t :: Apply(s, t) == Ok(target)
    ensures !CanTransitionTo(s, Unseen) && !CanTransitionTo(s, s)
  {
    if CanTransitionTo(s, target) {
      var t :| t in ValidTransitions(s) && Target(t) == target;
      assert Apply(s, t) == Ok(target);
    }
    if t :| Apply(s, t) == Ok(target) {
      assert t in ValidTransitions(s) && Target(t) == target;
    }
  }

  /** The states reachable in one accepted transition, spelled out. */
  function Successors(s: State): set<State> {
    match s
    case Unseen => {Unread, Snoozed, Archived, Expired}
    case Unread => {Read, Snoozed, Archived, Expired}
    case Read => {Unread, Archived, Expired}
    case Snoozed => {Unread, Expired}
    case Archived => {Read}
    case Expired => {Archived}
  }

  lemma CanTransitionIsSuccessor(s: State, target: State)
    ensures CanTransitionTo(s, target) <==> target in Successors(s)
  {
    if target in Successors(s) {
      var t := if target == Snoozed then Snooze else if target == Expired then Expire
               else if target == Archived then Archive
               else if target == Read then (if s == Unread then MarkRead else Unarchive)
               else if s == Unseen then MarkSeen else if s == Read then MarkUnread else Wake;
      assert t in ValidTransitions(s) && Target(t) == target;
    }
  }
}
