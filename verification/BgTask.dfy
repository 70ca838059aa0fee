/** Stopping a background task. The stopper stores a flag and then wakes whoever is
waiting; the task checks the flag, waits for its trigger or the wakeup, checks the
flag again and runs one cycle. Every interleaving of the two is a run. */
module BgTask {

  /** Where the task is: at the top of its loop, past the first check, waiting, back
      from the wait, past the second check, in a cycle, or finished. */
  datatype Place = Top | Ready | Waiting | Back(stoppedNow: bool) | Go | Running | Stopped

  datatype State = State(
    flag: bool, notified: bool, place: Place,
    woken: bool,     // the wakeup reached the current wait
    fired: bool,     // the trigger of the current wait is ready
    late: nat,       // cycles started after the flag was stored
    consumed: nat)   // waits ended by a trigger after the flag was stored

  datatype Event =
    | StoreFlag | Notify            // the stopper, in this order
    | Fire                          // the trigger of the current wait
    | Check | Park | Poll | Recheck | Start | Finish  // the task
  {
    predicate OfTask() {
      Check? || Park? || Poll? || Recheck? || Start? || Finish?
    }
  }

  const INITIAL := State(false, false, Top, false, false, 0, 0)

  ghost predicate Enabled(s: State, e: Event) {
    match e
    case StoreFlag => !s.flag
    case Notify => s.flag && !s.notified
    case Fire => s.place == Waiting && !s.fired
    case Check => s.place == Top
    case Park => s.place == Ready
    case Poll => s.place == Waiting && (s.woken || s.fired)
    case Recheck => s.place.Back?
    case Start => s.place == Go
    case Finish => s.place == Running
  }

  /** Waking reaches only a wait that already exists; when both are ready the wakeup
      is taken before the trigger. */
  ghost function Next(s: State, e: Event): State
    requires Enabled(s, e)
  {
    match e
    case StoreFlag => s.(flag := true)
    case Notify => s.(notified := true, woken := s.woken || s.place == Waiting)
    case Fire => s.(fired := true)
    case Check => s.(place := if s.flag then Stopped else Ready)
    case Park => s.(place := Waiting, woken := false, fired := false)
    case Poll =>
      s.(place := Back(s.woken), consumed := if s.flag && !s.woken then s.consumed + 1 else s.consumed)
    case Recheck => s.(place := if s.place.stoppedNow || s.flag then Stopped else Go)
    case Start => s.(place := Running, late := if s.flag then s.late + 1 else s.late)
    case Finish => s.(place := Top)
  }

  ghost predicate Legal(s: State, es: seq<Event>)
    decreases |es|
  {
    es == [] || (Enabled(s, es[0]) && Legal(Next(s, es[0]), es[1..]))
  }

  ghost function Run(s: State, es: seq<Event>): State
    requires Legal(s, es)
    decreases |es|
  {
    if es == [] then s else Run(Next(s, es[0]), es[1..])
  }

  // ---- At most one more cycle, at most one more trigger ---------------

  ghost predicate Inv(s: State) {
    && (!s.flag ==> s.late == 0 && s.consumed == 0 && !s.notified)
    && (s.woken ==> s.notified)
    && (s.flag && s.late > 0 ==> s.late == 1 && s.place in {Running, Top, Stopped})
    && (s.flag && s.consumed > 0 ==> s.consumed == 1 && (s.place.Back? || s.place == Stopped))
    && s.late + s.consumed <= 1
    && (s.place == Back(true) || s.place == Stopped ==> s.flag)
  }

  lemma NextKeepsInv(s: State, e: Event)
    requires Inv(s) && Enabled(s, e)
    ensures Inv(Next(s, e))
  {}

  /** In every interleaving at most one cycle starts after the flag is stored, at most
      one wait is ended by a trigger after it, and never both. */
  lemma {:induction false} AtMostOneMore(s: State, es: seq<Event>)
    requires Inv(s) && Legal(s, es)
    ensures Inv(Run(s, es)) && Run(s, es).late + Run(s, es).consumed <= 1
    decreases |es|
  {
    if es != [] {
      NextKeepsInv(s, es[0]);
      AtMostOneMore(Next(s, es[0]), es[1..]);
    }
  }

  /** In no interleaving does the task end before the flag is stored, or start a cycle
      late without it. */
  lemma StopsOnlyAfterFlag(es: seq<Event>)
    requires Legal(INITIAL, es)
    ensures !Run(INITIAL, es).flag ==> Run(INITIAL, es).place != Stopped && Run(INITIAL, es).late == 0
  {
    AtMostOneMore(INITIAL, es);
  }

  /** Until the flag is stored, a wait whose trigger has fired is followed by one cycle
      and the next wait. */
  lemma TriggerRunsCycle(s: State)
    requires Inv(s) && !s.flag && s.place == Waiting && s.fired
    ensures var es := [Poll, Recheck, Start]; Legal(s, es) && Run(s, es).place == Running
    ensures var es := [Poll, Recheck, Start, Finish, Check, Park];
      Legal(s, es) && Run(s, es) == s.(place := Waiting, woken := false, fired := false)
  {
    var a := Next(s, Poll);
    var b := Next(a, Recheck);
    var c := Next(b, Start);
    var d := Next(c, Finish);
    var e := Next(d, Check);
    var f := Next(e, Park);
    assert Legal(c, []) && Run(c, []) == c;
    Prefixed(b, Start, []);
    Prefixed(a, Recheck, [Start]);
    Prefixed(s, Poll, [Recheck, Start]);
    assert Legal(f, []) && Run(f, []) == f;
    Prefixed(e, Park, []);
    Prefixed(d, Check, [Park]);
    Prefixed(c, Finish, [Check, Park]);
    Prefixed(b, Start, [Finish, Check, Park]);
    Prefixed(a, Recheck, [Start, Finish, Check, Park]);
    Prefixed(s, Poll, [Recheck, Start, Finish, Check, Park]);
  }

  /** The wakeup reaches only a wait that already exists, and is taken before the
      trigger: the task then ends, with no trigger used up. */
  lemma WakeupGoesFirst(s: State)
    ensures Enabled(s, Notify) ==> (Next(s, Notify).woken <==> s.woken || s.place == Waiting)
    ensures Enabled(s, Poll) && s.woken ==>
      && Next(s, Poll).consumed == s.consumed
      && Enabled(Next(s, Poll), Recheck) && Next(Next(s, Poll), Recheck).place == Stopped
  {
  }

  lemma Prefixed(s: State, e: Event, es: seq<Event>)
    requires Enabled(s, e) && Legal(Next(s, e), es)
    ensures Legal(s, [e] + es) && Run(s, [e] + es) == Run(Next(s, e), es)
  {
    assert ([e] + es)[1..] == es;
  }

  // ---- The task does stop ---------------------------------------------

  /** Task steps left once the flag is stored. */
  ghost function Rank(p: Place): nat {
    match p
    case Stopped => 0
    case Top => 1
    case Back(_) => 1
    case Running => 2
    case Waiting => 2
    case Ready => 3
    case Go => 3
  }

  ghost function TaskSteps(es: seq<Event>): nat {
    if es == [] then 0 else (if es[0].OfTask() then 1 else 0) + TaskSteps(es[1..])
  }

  /** With the flag stored, every step of the task brings it nearer to its end, and
      no other step moves it away: three steps always suffice. */
  lemma {:induction false} StepsUseUpRank(s: State, es: seq<Event>)
    requires s.flag && Legal(s, es)
    ensures Rank(Run(s, es).place) + TaskSteps(es) == Rank(s.place) && Rank(s.place) <= 3
    decreases |es|
  {
    if es != [] {
      StepsUseUpRank(Next(s, es[0]), es[1..]);
    }
  }

  /** The step the task can take, if any. */
  ghost function Able(s: State): set<Event> {
    set e | e in {Check, Park, Poll, Recheck, Start, Finish} && Enabled(s, e)
  }

  /** A task that has not stopped can always step, except in a wait that neither the
      trigger nor the wakeup has reached. */
  lemma BlockedOnlyInWait(s: State)
    requires Able(s) == {}
    ensures s.place == Stopped || (s.place == Waiting && !s.woken && !s.fired)
  {
    assert s.place == Top ==> Check in Able(s);
    assert s.place == Ready ==> Park in Able(s);
    assert s.place == Waiting && (s.woken || s.fired) ==> Poll in Able(s);
    assert s.place.Back? ==> Recheck in Able(s);
    assert s.place == Go ==> Start in Able(s);
    assert s.place == Running ==> Finish in Able(s);
  }

  /** The state once the task, its flag stored, has taken every step it can without
      a further trigger. */
  ghost function Settled(s: State): (r: State)
    requires s.flag
    ensures r.flag
    decreases Rank(s.place)
  {
    match s.place
    case Stopped => s
    case Top => Settled(Next(s, Check))
    case Ready => Settled(Next(s, Park))
    case Waiting => if s.woken || s.fired then Settled(Next(s, Poll)) else s
    case Back(_) => Settled(Next(s, Recheck))
    case Go => Settled(Next(s, Start))
    case Running => Settled(Next(s, Finish))
  }

  /** Once both halves of the stop are done, the task stops without any further
      trigger exactly when the wakeup did not land between its first check and its
      wait. */
  lemma StopsUnaidedIff(s: State)
    requires Inv(s) && Enabled(s, Notify)
    ensures Settled(Next(s, Notify)).place == Stopped <==> s.place != Ready
  {
    var t := Next(s, Notify);
    match s.place {
      case Ready =>
        assert Settled(Next(t, Park)) == Next(t, Park);
      case Waiting =>
        StopsFromBack(Next(t, Poll));
      case Go =>
        StopsFromTop(Next(Next(t, Start), Finish));
        assert Settled(t) == Settled(Next(t, Start)) == Settled(Next(Next(t, Start), Finish));
      case Running =>
        StopsFromTop(Next(t, Finish));
      case Top =>
        StopsFromTop(t);
      case Back(_) =>
        StopsFromBack(t);
      case Stopped =>
    }
  }

  lemma StopsFromTop(s: State)
    requires s.flag && s.place == Top
    ensures Settled(s).place == Stopped
  {
    assert Settled(s) == Settled(Next(s, Check));
  }

  lemma StopsFromBack(s: State)
    requires s.flag && s.place.Back?
    ensures Settled(s).place == Stopped
  {
    assert Settled(s) == Settled(Next(s, Recheck));
  }

  /** Even then one trigger is enough. */
  lemma OneTriggerSuffices(s: State)
    requires s.flag
    ensures Settled(s).place == Stopped ||
            (Settled(s).place == Waiting && Enabled(Settled(s), Fire) &&
             Settled(Next(Settled(s), Fire)).place == Stopped)
    decreases Rank(s.place)
  {
    match s.place {
      case Stopped =>
      case Top => OneTriggerSuffices(Next(s, Check));
      case Ready => OneTriggerSuffices(Next(s, Park));
      case Waiting =>
        if s.woken || s.fired {
          OneTriggerSuffices(Next(s, Poll));
        } else {
          StopsFromBack(Next(Next(s, Fire), Poll));
        }
      case Back(_) => OneTriggerSuffices(Next(s, Recheck));
      case Go => OneTriggerSuffices(Next(s, Start));
      case Running => OneTriggerSuffices(Next(s, Finish));
    }
  }

  /** The wakeup can be lost: both halves of the stop land after the first check, and
      the task then waits until its trigger fires. */
  lemma WakeupLost()
    ensures Legal(INITIAL, [Check, StoreFlag, Notify, Park])
    ensures var s := Run(INITIAL, [Check, StoreFlag, Notify, Park]);
      s.flag && s.notified && s.place == Waiting && Able(s) == {}
  {
    var a := Next(INITIAL, Check);
    var b := Next(a, StoreFlag);
    var c := Next(b, Notify);
    var d := Next(c, Park);
    var es := [Check, StoreFlag, Notify, Park];
    assert es[1..] == [StoreFlag, Notify, Park] && es[1..][1..] == [Notify, Park] && es[1..][1..][1..] == [Park];
    assert [Park][1..] == [];
    assert Legal(d, []) && Run(d, []) == d;
    assert Legal(c, [Park]) && Run(c, [Park]) == d;
    assert Legal(b, [Notify, Park]) && Run(b, [Notify, Park]) == d;
    assert Legal(a, [StoreFlag, Notify, Park]) && Run(a, [StoreFlag, Notify, Park]) == d;
  }
}
