/** Request retrieval of les/retrieve.go: one loop, many attempts and a channel of events between them. */
module Retrievals {
  import opened Basics

  type Peer = nat

  datatype Event =
    | Sent(to: Option<Peer>)
    | SoftTimeout(peer: Peer)
    | HardTimeout(peer: Peer)
    | Delivered(peer: Peer, valid: bool)

  datatype LoopState = Requesting | NoMorePeers | Stopped | Finished

  datatype Error = NoPeers | Cancelled | InvalidResponse | UnexpectedResponse

  /** Where an attempt is, once it has a peer. */
  datatype Phase = Assigned | Waiting | Late | Ended

  /** `mail` is the verdict on the reply that the attempt has not taken yet. */
  datatype Attempt = Attempt(phase: Phase, delivered: bool, mail: Option<bool>)

  /** What the loop knows of the attempts: one not sent yet, the one before its soft timeout, those after it. */
  datatype View = View(queued: bool, last: Option<Peer>, late: set<Peer>) {
    ghost predicate Valid() {
      && (queued ==> last == None)
      && (last.Some? ==> last.value !in late)
    }

    /** There is nothing to wait for. */
    predicate Idle() {
      !queued && last == None && late == {}
    }

    /** How an event changes the view. */
    function Update(e: Event): View {
      match e
      case Sent(to) => View(false, to, late)
      case SoftTimeout(p) => View(queued, None, late + {p})
      case HardTimeout(p) => View(queued, last, late - {p})
      case Delivered(p, _) => if last == Some(p) then View(queued, None, late) else View(queued, last, late - {p})
    }

    /** The event can come from the attempts the view knows of. */
    predicate Allows(e: Event) {
      match e
      case Sent(to) => queued && (to.Some? ==> to.value !in late)
      case SoftTimeout(p) => last == Some(p)
      case HardTimeout(p) => p in late
      case Delivered(p, _) => last == Some(p) || p in late
    }
  }

  /** Every event in the channel is allowed when its turn comes. */
  predicate Orderly(v: View, events: seq<Event>)
    decreases |events|
  {
    events == [] || (v.Allows(events[0]) && Orderly(v.Update(events[0]), events[1..]))
  }

  /** The view once all events in the channel are taken. */
  function Outcome(v: View, events: seq<Event>): View
    decreases |events|
  {
    if events == [] then v else Outcome(v.Update(events[0]), events[1..])
  }

  lemma {:induction false} Emit(v: View, events: seq<Event>, e: Event)
    requires Orderly(v, events) && Outcome(v, events).Allows(e)
    ensures Orderly(v, events + [e]) && Outcome(v, events + [e]) == Outcome(v, events).Update(e)
    decreases |events|
  {
    if events != [] {
      assert (events + [e])[0] == events[0] && (events + [e])[1..] == events[1..] + [e];
      Emit(v.Update(events[0]), events[1..], e);
    }
  }

  /** With nothing queued and nothing before its soft timeout, only late attempts have events in the channel,
      and a new attempt can be queued without disturbing them. */
  lemma {:induction false} Queue(v: View, events: seq<Event>)
    requires Orderly(v, events) && !v.queued && v.last == None
    ensures Orderly(v.(queued := true), events)
    ensures Outcome(v.(queued := true), events) == Outcome(v, events).(queued := true)
    ensures !Outcome(v, events).queued && Outcome(v, events).last == None
    decreases |events|
  {
    if events != [] {
      var e := events[0];
      assert v.(queued := true).Update(e) == v.Update(e).(queued := true);
      Queue(v.Update(e), events[1..]);
    }
  }

  lemma {:induction false} OutcomeIsValid(v: View, events: seq<Event>)
    requires v.Valid() && Orderly(v, events)
    ensures Outcome(v, events).Valid()
    decreases |events|
  {
    if events != [] {
      OutcomeIsValid(v.Update(events[0]), events[1..]);
    }
  }

  type Attempts = map<Peer, Attempt>

  ghost predicate In(sentTo: Attempts, p: Peer, phase: Phase) {
    p in sentTo && sentTo[p].phase == phase
  }

  /** The attempts are those of the view; `holder` has been assigned a peer but has not reported it. */
  ghost predicate MatchesInFull(v: View, inQueue: nat, holder: Option<Peer>, sentTo: Attempts) {
    && inQueue <= 1 && (v.queued <==> inQueue == 1 || holder.Some?) && !(inQueue == 1 && holder.Some?)
    && (forall p: Peer :: In(sentTo, p, Assigned) <==> holder == Some(p))
    && (forall p: Peer :: In(sentTo, p, Waiting) <==> v.last == Some(p))
    && (forall p: Peer :: In(sentTo, p, Late) <==> p in v.late)
  }

  ghost predicate Matches(v: View, inQueue: nat, holder: Option<Peer>, sentTo: Attempts) {
    forall k {:trigger Open(k)} :: Open(k) ==> MatchesInFull(v, inQueue, holder, sentTo)
  }

  function Times(m: map<Peer, nat>, p: Peer): nat {
    if p in m then m[p] else 0
  }

  /** Valid replies come from peers that were asked. */
  ghost predicate HeardInFull(events: seq<Event>, sentTo: Attempts, validated: set<Peer>, asked: map<Peer, nat>) {
    && (forall p :: Delivered(p, true) in events ==> p in validated)
    && (forall p :: p in sentTo ==> 0 < Times(asked, p) && (sentTo[p].mail == Some(true) ==> p in validated))
    && (forall p :: p in validated ==> 0 < Times(asked, p))
  }

  ghost predicate Heard(events: seq<Event>, sentTo: Attempts, validated: set<Peer>, asked: map<Peer, nat>) {
    forall k {:trigger Open(k)} :: Open(k) ==> HeardInFull(events, sentTo, validated, asked)
  }

  /** A peer's attempts have each reported one end, but for the one that is under way. */
  ghost predicate EndOnceInFull(sentTo: Attempts, asked: map<Peer, nat>, ended: map<Peer, nat>) {
    forall p :: Times(asked, p) == Times(ended, p) + if p in sentTo && sentTo[p].phase != Ended then 1 else 0
  }

  ghost predicate EndOnce(sentTo: Attempts, asked: map<Peer, nat>, ended: map<Peer, nat>) {
    forall k {:trigger Open(k)} :: Open(k) ==> EndOnceInFull(sentTo, asked, ended)
  }

  function More(m: map<Peer, nat>, p: Peer): map<Peer, nat> {
    m[p := Times(m, p) + 1]
  }

  lemma Rephase(sentTo: Attempts, p: Peer, a: Attempt, sentTo': Attempts)
    requires sentTo' == sentTo[p := a]
    ensures forall r: Peer, phase ::
              In(sentTo', r, phase) <==> if r == p then a.phase == phase else In(sentTo, r, phase)
  {
  }

  /** An attempt on `p` goes from one phase to the next with event `e`. */
  predicate Moves(from: Phase, to: Phase, p: Peer, e: Event) {
    match e
    case Sent(r) => r == Some(p) && from == Assigned && to == Waiting
    case SoftTimeout(r) => r == p && from == Waiting && to == Late
    case HardTimeout(r) => r == p && from == Late && to == Ended
    case Delivered(r, _) => r == p && (from == Waiting || from == Late) && to == Ended
  }

  /** What an attempt does next is allowed, and after its event the attempts match the new view. */
  lemma MatchesAfter(v: View, inQueue: nat, holder: Option<Peer>, sentTo: Attempts, p: Peer, a: Attempt, e: Event,
                     sentTo': Attempts)
    requires v.Valid() && Matches(v, inQueue, holder, sentTo) && p in sentTo && Moves(sentTo[p].phase, a.phase, p, e)
    requires sentTo' == sentTo[p := a]
    ensures v.Allows(e) && Matches(v.Update(e), inQueue, if e.Sent? then None else holder, sentTo')
  {
    assert Open(0);
    assert In(sentTo, p, sentTo[p].phase);
    Rephase(sentTo, p, a, sentTo');
    assert In(sentTo', p, a.phase);
    forall r: Peer | r != p ensures In(sentTo', r, Late) <==> r in v.Update(e).late {
      assert In(sentTo', r, Late) <==> In(sentTo, r, Late);
    }
  }

  lemma HearMore(events: seq<Event>, sentTo: Attempts, validated: set<Peer>, asked: map<Peer, nat>,
                 e: Event, p: Peer, a: Attempt, sentTo': Attempts, events': seq<Event>)
    requires Heard(events, sentTo, validated, asked) && p in sentTo && sentTo' == sentTo[p := a] && events' == events + [e]
    requires a.mail == Some(true) || (e.Delivered? && e.valid) ==> sentTo[p].mail == Some(true)
    requires e.Delivered? ==> e.peer == p
    ensures Heard(events', sentTo', validated, asked)
  {
    assert Open(0);
    forall r | Delivered(r, true) in events' ensures r in validated {
      assert Delivered(r, true) in events || Delivered(r, true) == e;
    }
  }

  /** The attempt in the queue learns that there is no peer. */
  lemma LeaveQueue(v: View, inQueue: nat, holder: Option<Peer>, sentTo: Attempts,
                   events: seq<Event>, validated: set<Peer>, asked: map<Peer, nat>, events': seq<Event>)
    requires Matches(v, inQueue, holder, sentTo) && v.Valid() && inQueue == 1
    requires Heard(events, sentTo, validated, asked) && events' == events + [Sent(None)]
    ensures v.Allows(Sent(None)) && Matches(v.Update(Sent(None)), 0, holder, sentTo)
    ensures Heard(events', sentTo, validated, asked)
  {
    assert Open(0);
  }

  lemma HearLess(events: seq<Event>, sentTo: Attempts, validated: set<Peer>, asked: map<Peer, nat>, events': seq<Event>)
    requires Heard(events, sentTo, validated, asked) && events != [] && events' == events[1..]
    ensures Heard(events', sentTo, validated, asked)
    ensures events[0].Delivered? && events[0].valid ==> validated != {}
  {
    assert Open(0);
    var e := events[0];
    assert e.Delivered? && e.valid ==> e == Delivered(e.peer, true) && e in events;
  }

  lemma QueueOne(v: View, inQueue: nat, holder: Option<Peer>, sentTo: Attempts)
    requires Matches(v, inQueue, holder, sentTo) && !v.queued
    ensures inQueue == 0 && Matches(v.(queued := true), 1, holder, sentTo)
  {
    assert Open(0);
  }

  /** The attempt in the queue is given peer `p`. */
  lemma AssignMatches(v: View, inQueue: nat, holder: Option<Peer>, sentTo: Attempts, p: Peer, a: Attempt, sentTo': Attempts)
    requires Matches(v, inQueue, holder, sentTo) && v.Valid() && inQueue == 1
    requires p !in sentTo && a == Attempt(Assigned, false, None) && sentTo' == sentTo[p := a]
    ensures Matches(v, 0, Some(p), sentTo')
  {
    assert Open(0);
    assert forall phase :: !In(sentTo, p, phase);
    Rephase(sentTo, p, a, sentTo');
  }

  lemma EndLater(sentTo: Attempts, asked: map<Peer, nat>, ended: map<Peer, nat>, p: Peer, a: Attempt, sentTo': Attempts)
    requires EndOnce(sentTo, asked, ended) && p in sentTo && (sentTo[p].phase == Ended <==> a.phase == Ended)
    requires sentTo' == sentTo[p := a]
    ensures EndOnce(sentTo', asked, ended)
  {
    assert Open(0);
  }

  /** A reply is put into the mailbox of the attempt. */
  lemma TakeReply(v: View, inQueue: nat, holder: Option<Peer>, sentTo: Attempts, events: seq<Event>,
                  validated: set<Peer>, asked: map<Peer, nat>, ended: map<Peer, nat>,
                  p: Peer, valid: bool, sentTo': Attempts, validated': set<Peer>)
    requires Matches(v, inQueue, holder, sentTo) && Heard(events, sentTo, validated, asked) && EndOnce(sentTo, asked, ended)
    requires p in sentTo && sentTo' == sentTo[p := Attempt(sentTo[p].phase, true, Some(valid))]
    requires validated' == if valid then validated + {p} else validated
    ensures Matches(v, inQueue, holder, sentTo') && Heard(events, sentTo', validated', asked) && EndOnce(sentTo', asked, ended)
  {
    assert Open(0);
    var a := Attempt(sentTo[p].phase, true, Some(valid));
    Rephase(sentTo, p, a, sentTo');
    assert In(sentTo, p, sentTo[p].phase);
    EndLater(sentTo, asked, ended, p, a, sentTo');
  }

  lemma DropEnded(v: View, inQueue: nat, holder: Option<Peer>, sentTo: Attempts, events: seq<Event>,
                  validated: set<Peer>, asked: map<Peer, nat>, ended: map<Peer, nat>, p: Peer, sentTo': Attempts)
    requires Matches(v, inQueue, holder, sentTo) && Heard(events, sentTo, validated, asked) && EndOnce(sentTo, asked, ended)
    requires In(sentTo, p, Ended) && sentTo' == sentTo - {p}
    ensures Matches(v, inQueue, holder, sentTo') && Heard(events, sentTo', validated, asked) && EndOnce(sentTo', asked, ended)
  {
    assert Open(0);
    assert forall r: Peer, phase :: In(sentTo', r, phase) <==> r != p && In(sentTo, r, phase);
    assert !In(sentTo, p, Assigned) && !In(sentTo, p, Waiting) && !In(sentTo, p, Late);
  }

  lemma EndStep(sentTo: Attempts, asked: map<Peer, nat>, ended: map<Peer, nat>, p: Peer, a: Attempt, sentTo': Attempts,
                ended': map<Peer, nat>)
    requires EndOnce(sentTo, asked, ended) && p in sentTo && sentTo[p].phase != Ended && sentTo' == sentTo[p := a]
    requires ended' == if a.phase == Ended then More(ended, p) else ended
    ensures EndOnce(sentTo', asked, ended')
  {
    assert Open(0);
  }

  lemma Ask(events: seq<Event>, sentTo: Attempts, validated: set<Peer>, asked: map<Peer, nat>, ended: map<Peer, nat>,
            p: Peer, a: Attempt, sentTo': Attempts)
    requires Heard(events, sentTo, validated, asked) && EndOnce(sentTo, asked, ended)
    requires p !in sentTo && a == Attempt(Assigned, false, None) && sentTo' == sentTo[p := a]
    ensures Heard(events, sentTo', validated, More(asked, p)) && EndOnce(sentTo', More(asked, p), ended)
  {
    assert Open(0);
  }

  datatype Action =
    | Pick(p: Peer) | PickNone | Tell(p: Peer) | Soft(p: Peer) | Hard(p: Peer) | Verdict(p: Peer) | Clear(p: Peer)
    | Reply(p: Peer, valid: bool) | Cancel | Loop | Timer | Notice

  /** `p` was asked by one of the first `n` actions. */
  ghost predicate WasAsked(actions: seq<Action>, n: nat, p: Peer) {
    exists i :: 0 <= i < n && i < |actions| && actions[i] == Pick(p)
  }

  /** `p` was asked, and a valid reply of it came later, within the first `n` actions. */
  ghost predicate Confirmed(actions: seq<Action>, n: nat, p: Peer) {
    exists j :: 0 <= j < n && j < |actions| && actions[j] == Reply(p, true) && WasAsked(actions, j, p)
  }

  /** How many events an attempt has still to report, and then some. */
  function Weight(phase: Phase): nat {
    match phase
    case Assigned => 6
    case Waiting => 4
    case Late => 2
    case Ended => 0
  }

  ghost function WorkOf(sentTo: Attempts, s: set<Peer>): nat {
    if s == {} then 0
    else var p :| p in s; (if p in sentTo then Weight(sentTo[p].phase) else 0) + WorkOf(sentTo, s - {p})
  }

  lemma {:induction false} WorkOfWithout(sentTo: Attempts, s: set<Peer>, p: Peer)
    requires p in s
    ensures WorkOf(sentTo, s) == (if p in sentTo then Weight(sentTo[p].phase) else 0) + WorkOf(sentTo, s - {p})
  {
    var first :| first in s
      && WorkOf(sentTo, s) == (if first in sentTo then Weight(sentTo[first].phase) else 0) + WorkOf(sentTo, s - {first});
    if first != p {
      WorkOfWithout(sentTo, s - {first}, p);
      WorkOfWithout(sentTo, s - {p}, first);
      assert s - {first} - {p} == s - {p} - {first};
    }
  }

  lemma {:induction false} SameWork(sentTo: Attempts, sentTo': Attempts, s: set<Peer>)
    requires forall p :: p in s ==> p in sentTo && p in sentTo' && sentTo[p].phase == sentTo'[p].phase
    ensures WorkOf(sentTo, s) == WorkOf(sentTo', s)
  {
    if s != {} {
      var p :| p in s;
      WorkOfWithout(sentTo, s, p);
      WorkOfWithout(sentTo', s, p);
      SameWork(sentTo, sentTo', s - {p});
    }
  }

  ghost function Work(sentTo: Attempts): nat {
    WorkOf(sentTo, set p | p in sentTo)
  }

  lemma WorkChanges(sentTo: Attempts, p: Peer, a: Attempt)
    ensures Work(sentTo[p := a]) ==
            Work(sentTo) - (if p in sentTo then Weight(sentTo[p].phase) else 0) + Weight(a.phase)
  {
    var sentTo' := sentTo[p := a];
    var s, s' := set r | r in sentTo, set r | r in sentTo';
    assert s' == s + {p} && s' - {p} == s - {p};
    WorkOfWithout(sentTo', s', p);
    SameWork(sentTo, sentTo', s - {p});
    if p in s {
      WorkOfWithout(sentTo, s, p);
    } else {
      assert s - {p} == s;
    }
  }

  /** A peer that is not being asked. */
  method AnyPeer(sentTo: Attempts) returns (p: Peer)
    ensures p !in sentTo
  {
    p := 0;
    var left := set r | r in sentTo;
    while p in sentTo
      invariant forall r :: r in sentTo && p <= r ==> r in left
      decreases left
    {
      left := left - {p};
      p := p + 1;
    }
  }

  class SentReq {
    var lastReqQueued: bool
    var lastReqSentTo: Option<Peer>
    var reqSrtoCount: int
    var state: LoopState
    var stopped: bool
    var err: Option<Error>
    var events: seq<Event>
    var inQueue: nat
    var sentTo: map<Peer, Attempt>
    ghost var late: set<Peer>
    ghost var holder: Option<Peer>
    ghost var validated: set<Peer>
    ghost var asked: map<Peer, nat>
    ghost var ended: map<Peer, nat>

    ghost function Now(): View
      reads this
    {
      View(lastReqQueued, lastReqSentTo, late)
    }

    /** Counters and channel agree with the attempts. */
    ghost predicate Counted()
      reads this
    {
      && |late| == reqSrtoCount && Now().Valid() && Orderly(Now(), events)
      && Matches(Outcome(Now(), events), inQueue, holder, sentTo)
    }

    /** What each state of the loop relies on. */
    ghost predicate InState()
      reads this
    {
      && (state == Requesting ==> lastReqQueued != lastReqSentTo.Some?)
      && (state == NoMorePeers ==> !lastReqQueued && lastReqSentTo == None)
      && (state == Finished ==> Now().Idle())
      && (state == Stopped || state == Finished ==> stopped)
    }

    ghost predicate Answered()
      reads this
    {
      && Heard(events, sentTo, validated, asked) && EndOnce(sentTo, asked, ended)
      && (stopped && err == None ==> validated != {})
    }

    ghost predicate Valid()
      reads this
    {
      Counted() && InState() && Answered()
    }

    constructor ()
      ensures Valid() && state == Requesting && !stopped && validated == {} && asked == map[]
    {
      lastReqQueued, lastReqSentTo, reqSrtoCount, state := true, None, 0, Requesting;
      stopped, err, events, inQueue, sentTo := false, None, [], 1, map[];
      late, holder, validated, asked, ended := {}, None, {}, map[], map[];
    }

    predicate IsWaiting()
      reads this
    {
      lastReqQueued || lastReqSentTo.Some? || reqSrtoCount > 0
    }

    /** The loop waits exactly while an attempt is under way or has left an event. */
    lemma WaitingMeansOutstanding()
      requires Counted()
      ensures IsWaiting() <==>
              events != [] || 0 < inQueue || exists p :: p in sentTo && sentTo[p].phase != Ended
    {
      assert Open(0);
      if !IsWaiting() {
        assert late == {} && events == [];
        forall p | p in sentTo ensures sentTo[p].phase == Ended {
          assert !In(sentTo, p, Assigned) && !In(sentTo, p, Waiting) && !In(sentTo, p, Late);
        }
      } else if events == [] && inQueue == 0 {
        if lastReqQueued {
          assert In(sentTo, holder.value, Assigned);
        } else if lastReqSentTo.Some? {
          assert In(sentTo, lastReqSentTo.value, Waiting);
        } else {
          var p :| p in late;
          assert In(sentTo, p, Late);
        }
      }
    }

    /** Puts an event into the channel that the attempts give rise to. */
    lemma CanEmit(e: Event, events': seq<Event>)
      requires Counted() && Outcome(Now(), events).Allows(e) && events' == events + [e]
      ensures Orderly(Now(), events') && Outcome(Now(), events') == Outcome(Now(), events).Update(e)
      ensures Outcome(Now(), events).Valid()
    {
      Emit(Now(), events, e);
      OutcomeIsValid(Now(), events);
    }

    /** The distributor picks a peer that is not being asked already. */
    method Assign(p: Peer)
      requires Valid() && inQueue == 1 && p !in sentTo
      modifies this`inQueue, this`sentTo, this`holder, this`asked
      ensures Valid() && inQueue == 0 && sentTo == old(sentTo)[p := Attempt(Assigned, false, None)]
      ensures asked == More(old(asked), p)
    {
      var a := Attempt(Assigned, false, None);
      OutcomeIsValid(Now(), events);
      AssignMatches(Outcome(Now(), events), inQueue, holder, sentTo, p, a, sentTo[p := a]);
      Ask(events, sentTo, validated, asked, ended, p, a, sentTo[p := a]);
      inQueue, sentTo := 0, sentTo[p := a];
      holder, asked := Some(p), More(asked, p);
    }

    /** The distributor has no peer to offer, or the request was cancelled. */
    method NoPeer()
      requires Valid() && inQueue == 1
      modifies this`inQueue, this`events
      ensures Valid() && inQueue == 0 && events == old(events) + [Sent(None)]
    {
      OutcomeIsValid(Now(), events);
      LeaveQueue(Outcome(Now(), events), inQueue, holder, sentTo, events, validated, asked, events + [Sent(None)]);
      CanEmit(Sent(None), events + [Sent(None)]);
      inQueue, events := 0, events + [Sent(None)];
    }

    lemma ReportKeeps(p: Peer, e: Event, a: Attempt, sentTo': Attempts, events': seq<Event>, ended': map<Peer, nat>)
      requires Valid() && p in sentTo && Moves(sentTo[p].phase, a.phase, p, e)
      requires a.mail == Some(true) || (e.Delivered? && e.valid) ==> sentTo[p].mail == Some(true)
      requires sentTo' == sentTo[p := a] && events' == events + [e]
      requires ended' == if a.phase == Ended then More(ended, p) else ended
      ensures Orderly(Now(), events')
      ensures Matches(Outcome(Now(), events'), inQueue, if e.Sent? then None else holder, sentTo')
      ensures Heard(events', sentTo', validated, asked) && EndOnce(sentTo', asked, ended')
    {
      OutcomeIsValid(Now(), events);
      MatchesAfter(Outcome(Now(), events), inQueue, holder, sentTo, p, a, e, sentTo');
      CanEmit(e, events');
      HearMore(events, sentTo, validated, asked, e, p, a, sentTo', events');
      EndStep(sentTo, asked, ended, p, a, sentTo', ended');
    }

    /** An attempt on `p` puts an event into the channel and becomes `a`. */
    method Report(p: Peer, e: Event, a: Attempt)
      requires Valid() && p in sentTo && Moves(sentTo[p].phase, a.phase, p, e)
      requires a.mail == Some(true) || (e.Delivered? && e.valid) ==> sentTo[p].mail == Some(true)
      modifies this`sentTo, this`events, this`holder, this`ended
      ensures Valid() && sentTo == old(sentTo)[p := a] && events == old(events) + [e]
    {
      ghost var ended' := if a.phase == Ended then More(ended, p) else ended;
      ReportKeeps(p, e, a, sentTo[p := a], events + [e], ended');
      ghost var now := Now();
      holder, ended := if e.Sent? then None else holder, ended';
      sentTo, events := sentTo[p := a], events + [e];
      assert Now() == now;
    }

    method ReportSent(p: Peer)
      requires Valid() && In(sentTo, p, Assigned)
      modifies this`sentTo, this`events, this`holder, this`ended
      ensures Valid() && sentTo == old(sentTo)[p := old(sentTo)[p].(phase := Waiting)]
      ensures events == old(events) + [Sent(Some(p))]
    {
      Report(p, Sent(Some(p)), sentTo[p].(phase := Waiting));
    }

    method TimeOutSoft(p: Peer)
      requires Valid() && In(sentTo, p, Waiting)
      modifies this`sentTo, this`events, this`holder, this`ended
      ensures Valid() && sentTo == old(sentTo)[p := old(sentTo)[p].(phase := Late)]
      ensures events == old(events) + [SoftTimeout(p)]
    {
      Report(p, SoftTimeout(p), sentTo[p].(phase := Late));
    }

    method TimeOutHard(p: Peer)
      requires Valid() && In(sentTo, p, Late)
      modifies this`sentTo, this`events, this`holder, this`ended
      ensures Valid() && sentTo == old(sentTo)[p := old(sentTo)[p].(phase := Ended)]
      ensures events == old(events) + [HardTimeout(p)]
    {
      Report(p, HardTimeout(p), sentTo[p].(phase := Ended));
    }

    /** The attempt takes the verdict on the reply, reports it and ends. */
    method ReportDelivery(p: Peer)
      requires Valid() && (In(sentTo, p, Waiting) || In(sentTo, p, Late)) && sentTo[p].mail.Some?
      modifies this`sentTo, this`events, this`holder, this`ended
      ensures Valid() && sentTo == old(sentTo)[p := old(sentTo)[p].(phase := Ended, mail := None)]
      ensures events == old(events) + [Delivered(p, old(sentTo)[p].mail.value)]
    {
      Report(p, Delivered(p, sentTo[p].mail.value), sentTo[p].(phase := Ended, mail := None));
    }

    /** The attempt has ended: the peer can be asked again. */
    method Forget(p: Peer)
      requires Valid() && In(sentTo, p, Ended)
      modifies this`sentTo
      ensures Valid() && sentTo == old(sentTo) - {p}
    {
      DropEnded(Outcome(Now(), events), inQueue, holder, sentTo, events, validated, asked, ended, p, sentTo - {p});
      sentTo := sentTo - {p};
    }

    /** A reply arrives: it is taken once from a peer that is being asked, and from no other. */
    method Deliver(p: Peer, valid: bool) returns (e: Option<Error>)
      requires Valid()
      modifies this`sentTo, this`validated
      ensures Valid()
      ensures e == Some(UnexpectedResponse) <==> p !in old(sentTo) || old(sentTo)[p].delivered
      ensures e == Some(UnexpectedResponse) ==> sentTo == old(sentTo) && validated == old(validated)
      ensures e != Some(UnexpectedResponse) ==>
                && e == (if valid then None else Some(InvalidResponse))
                && sentTo == old(sentTo)[p := Attempt(old(sentTo)[p].phase, true, Some(valid))]
                && validated == if valid then old(validated) + {p} else old(validated)
    {
      if p !in sentTo || sentTo[p].delivered {
        return Some(UnexpectedResponse);
      }
      var sentTo' := sentTo[p := Attempt(sentTo[p].phase, true, Some(valid))];
      ghost var validated' := if valid then validated + {p} else validated;
      TakeReply(Outcome(Now(), events), inQueue, holder, sentTo, events, validated, asked, ended, p, valid, sentTo',
                validated');
      sentTo, validated := sentTo', validated';
      return if valid then None else Some(InvalidResponse);
    }

    /** Stops the request; only the first call decides the result. */
    method Stop(e: Option<Error>)
      requires Answered() && (e == None ==> validated != {})
      modifies this`stopped, this`err
      ensures Answered() && stopped && err == if old(stopped) then old(err) else e
    {
      if !stopped {
        stopped, err := true, e;
      }
    }

    /** The loop takes an event. */
    method Update(e: Event)
      requires |late| == reqSrtoCount && Now().Valid() && Now().Allows(e)
      modifies this`lastReqQueued, this`lastReqSentTo, this`reqSrtoCount, this`late
      ensures |late| == reqSrtoCount && Now() == old(Now()).Update(e) && Now().Valid()
    {
      match e
      case Sent(to) =>
        lastReqQueued, lastReqSentTo := false, to;
      case SoftTimeout(p) =>
        lastReqSentTo, reqSrtoCount := None, reqSrtoCount + 1;
        late := late + {p};
      case HardTimeout(p) =>
        reqSrtoCount := reqSrtoCount - 1;
        late := late - {p};
      case Delivered(p, _) =>
        if lastReqSentTo == Some(p) {
          lastReqSentTo := None;
        } else {
          reqSrtoCount := reqSrtoCount - 1;
          late := late - {p};
        }
    }

    /** The loop starts another attempt, when none is queued or before its soft timeout. */
    method TryAgain()
      requires Counted() && Answered() && !lastReqQueued && lastReqSentTo == None
      modifies this`inQueue, this`lastReqQueued
      ensures Counted() && Answered() && lastReqQueued && inQueue == 1 && old(inQueue) == 0
    {
      Queue(Now(), events);
      QueueOne(Outcome(Now(), events), inQueue, holder, sentTo);
      inQueue, lastReqQueued := inQueue + 1, true;
    }

    method TakeEvent() returns (e: Event)
      requires Counted() && Answered() && events != []
      modifies this`events, this`lastReqQueued, this`lastReqSentTo, this`reqSrtoCount, this`late
      ensures Counted() && Answered() && e == old(events)[0] && events == old(events)[1..]
      ensures old(Now()).Allows(e) && Now() == old(Now()).Update(e)
      ensures e.Delivered? && e.valid ==> validated != {}
    {
      e := events[0];
      HearLess(events, sentTo, validated, asked, events[1..]);
      Update(e);
      events := events[1..];
    }

    /** There is no peer to ask: late replies are the last hope. */
    method StopUnlessWaiting()
      requires Counted() && Answered() && !lastReqQueued && lastReqSentTo == None
      modifies this`state, this`stopped, this`err
      ensures Valid() && state == if Now().Idle() then Finished else NoMorePeers
      ensures (stopped, err) ==
                if old(stopped) || state == NoMorePeers then (old(stopped), old(err)) else (true, Some(NoPeers))
    {
      if IsWaiting() {
        state := NoMorePeers;
      } else {
        Stop(Some(NoPeers));
        state := Finished;
      }
    }

    /** One event in `stateRequesting`. */
    method StepRequesting()
      requires Valid() && state == Requesting && events != []
      modifies this`state, this`stopped, this`err, this`events, this`inQueue
      modifies this`lastReqQueued, this`lastReqSentTo, this`reqSrtoCount, this`late
      ensures Valid() && events == old(events)[1..]
      ensures var e := old(events)[0];
              state == if e.Delivered? && e.valid then Stopped
                       else if e == Sent(None) then (if old(Now()).Update(e).Idle() then Finished else NoMorePeers)
                       else Requesting
      ensures inQueue == 1 && old(inQueue) == 0 <==>
                var e := old(events)[0];
                e.SoftTimeout? || (e.Delivered? && !e.valid && old(Now()).last == Some(e.peer))
      ensures (stopped, err) ==
                if old(stopped) || state == Requesting || state == NoMorePeers then (old(stopped), old(err))
                else (true, if state == Stopped then None else Some(NoPeers))
    {
      var e := TakeEvent();
      match e
      case Sent(to) =>
        if to == None {
          StopUnlessWaiting();
        }
      case SoftTimeout(_) => TryAgain();
      case HardTimeout(_) =>
      case Delivered(_, valid) =>
        if valid {
          Stop(None);
          state := Stopped;
        } else if !lastReqQueued && lastReqSentTo == None {
          TryAgain();
        }
    }

    /** One event in `stateNoMorePeers`. */
    method StepNoMorePeers()
      requires Valid() && state == NoMorePeers && events != []
      modifies this`state, this`stopped, this`err, this`events
      modifies this`lastReqQueued, this`lastReqSentTo, this`reqSrtoCount, this`late
      ensures Valid() && events == old(events)[1..]
      ensures var e := old(events)[0];
              state == if e.Delivered? && e.valid then Stopped
                       else if old(Now()).Update(e).Idle() then Finished else NoMorePeers
      ensures (stopped, err) ==
                if old(stopped) || state == NoMorePeers then (old(stopped), old(err))
                else (true, if state == Stopped then None else Some(NoPeers))
    {
      var e := TakeEvent();
      if e.Delivered? && e.valid {
        Stop(None);
        state := Stopped;
      } else {
        StopUnlessWaiting();
      }
    }

    /** The retry timer of `stateNoMorePeers`. */
    method Retry()
      requires Valid() && state == NoMorePeers
      modifies this`state, this`inQueue, this`lastReqQueued
      ensures Valid() && state == Requesting
    {
      TryAgain();
      state := Requesting;
    }

    /** A round of `stateStopped`: it ends when nothing is outstanding, and until then events keep coming. */
    method Drain()
      requires Valid() && state == Stopped && (IsWaiting() ==> events != [])
      modifies this`state, this`events, this`lastReqQueued, this`lastReqSentTo, this`reqSrtoCount, this`late
      ensures Valid() && state == if old(IsWaiting()) then Stopped else Finished
      ensures old(IsWaiting()) ==> events == old(events)[1..]
      ensures state == Finished ==> events == [] && inQueue == 0 && forall p :: p in sentTo ==> sentTo[p].phase == Ended
    {
      if IsWaiting() {
        var e := TakeEvent();
      } else {
        WaitingMeansOutstanding();
        state := Finished;
      }
    }

    /** The loop notices that the request was stopped from outside. */
    method NoticeStop()
      requires Valid() && stopped && (state == Requesting || state == NoMorePeers)
      modifies this`state
      ensures Valid() && state == Stopped
    {
      state := Stopped;
    }

    /** What is left to happen before nothing is outstanding. */
    ghost function Outstanding(): nat
      reads this
    {
      |events| + 7 * inQueue + Work(sentTo)
    }

    /** An attempt reports its next event. */
    method Proceed(p: Peer)
      requires Valid() && p in sentTo && sentTo[p].phase != Ended
      modifies this`sentTo, this`holder, this`events, this`ended
      ensures Valid() && Outstanding() < old(Outstanding())
    {
      if
      case sentTo[p].phase == Assigned =>
        WorkChanges(sentTo, p, sentTo[p].(phase := Waiting));
        ReportSent(p);
      case sentTo[p].phase == Waiting =>
        WorkChanges(sentTo, p, sentTo[p].(phase := Late));
        TimeOutSoft(p);
      case sentTo[p].phase == Late =>
        WorkChanges(sentTo, p, sentTo[p].(phase := Ended));
        TimeOutHard(p);
      case (sentTo[p].phase == Waiting || sentTo[p].phase == Late) && sentTo[p].mail.Some? =>
        WorkChanges(sentTo, p, sentTo[p].(phase := Ended, mail := None));
        ReportDelivery(p);
    }

    /** One of the attempts goes on: it gets a peer or none, or reports its next event. */
    method Advance()
      requires Valid() && (inQueue == 1 || exists p :: p in sentTo && sentTo[p].phase != Ended)
      modifies this`inQueue, this`sentTo, this`holder, this`asked, this`events, this`ended
      ensures Valid() && Outstanding() < old(Outstanding())
    {
      if
      case inQueue == 1 =>
        NoPeer();
      case inQueue == 1 =>
        var p := AnyPeer(sentTo);
        WorkChanges(sentTo, p, Attempt(Assigned, false, None));
        Assign(p);
      case exists p :: p in sentTo && sentTo[p].phase != Ended =>
        var p :| p in sentTo && sentTo[p].phase != Ended;
        Proceed(p);
    }

    lemma AtMostOneQueued()
      requires Counted()
      ensures inQueue <= 1
    {
      assert Open(0);
    }

    /** A stopped request comes to its end, in whatever order the attempts that are under way go on. */
    method Settle()
      requires Valid() && state == Stopped
      modifies this
      ensures Valid() && state == Finished && stopped && err == old(err)
      ensures events == [] && inQueue == 0 && forall p :: p in sentTo ==> sentTo[p].phase == Ended
    {
      while state != Finished
        invariant Valid() && (state == Stopped || state == Finished) && err == old(err)
        invariant state == Finished ==> events == [] && inQueue == 0 && forall p :: p in sentTo ==> sentTo[p].phase == Ended
        decreases Outstanding(), if state == Finished then 0 else 1
      {
        WaitingMeansOutstanding();
        AtMostOneQueued();
        if
        case !IsWaiting() || events != [] => Drain();
        case inQueue == 1 || exists p :: p in sentTo && sentTo[p].phase != Ended => Advance();
      }
    }

    method TakeOne(p: Peer, valid: bool)
      requires Valid()
      modifies this`sentTo, this`validated
      ensures Valid()
      ensures forall r :: r in validated ==> r in old(validated) || (r == p && valid && 0 < Times(asked, p))
    {
      assert Open(0);
      var e := Deliver(p, valid);
    }

    /** One turn of the loop. */
    method Turn()
      requires Valid()
      modifies this`state, this`stopped, this`err, this`events, this`inQueue
      modifies this`lastReqQueued, this`lastReqSentTo, this`reqSrtoCount, this`late
      ensures Valid()
    {
      if state == Requesting && events != [] {
        StepRequesting();
      } else if state == NoMorePeers && events != [] {
        StepNoMorePeers();
      } else if state == Stopped && (!IsWaiting() || events != []) {
        Drain();
      }
    }

    /** One action, if it is possible now. Only picking a peer asks it, and only its valid reply confirms it. */
    method Step(action: Action)
      requires Valid()
      modifies this
      ensures Valid()
      ensures forall p :: 0 < Times(asked, p) ==> 0 < Times(old(asked), p) || action == Pick(p)
      ensures forall p :: p in validated ==> p in old(validated) || (action == Reply(p, true) && 0 < Times(old(asked), p))
    {
      match action
      case Pick(p) => if inQueue == 1 && p !in sentTo { Assign(p); }
      case PickNone => if inQueue == 1 { NoPeer(); }
      case Tell(p) => if p in sentTo && sentTo[p].phase == Assigned { ReportSent(p); }
      case Soft(p) => if p in sentTo && sentTo[p].phase == Waiting { TimeOutSoft(p); }
      case Hard(p) => if p in sentTo && sentTo[p].phase == Late { TimeOutHard(p); }
      case Verdict(p) =>
        if p in sentTo && (sentTo[p].phase == Waiting || sentTo[p].phase == Late) && sentTo[p].mail.Some? {
          ReportDelivery(p);
        }
      case Clear(p) => if p in sentTo && sentTo[p].phase == Ended { Forget(p); }
      case Reply(p, valid) => TakeOne(p, valid);
      case Cancel => Stop(Some(Cancelled));
      case Loop => Turn();
      case Timer => if state == NoMorePeers { Retry(); }
      case Notice => if stopped && (state == Requesting || state == NoMorePeers) { NoticeStop(); }
    }

    /** Every interleaving of loop, attempts, replies and cancellation keeps the counters right, and the result is
        no error only after a valid reply from a peer that was asked before. */
    static method Retrieve(actions: seq<Action>) returns (r: SentReq)
      ensures r.Valid()
      ensures r.stopped && r.err == None ==> exists p :: Confirmed(actions, |actions|, p)
    {
      r := new SentReq();
      for i := 0 to |actions|
        invariant r.Valid() && fresh(r)
        invariant forall p :: 0 < Times(r.asked, p) ==> WasAsked(actions, i, p)
        invariant forall p :: p in r.validated ==> Confirmed(actions, i, p)
      {
        ghost var asked, validated := r.asked, r.validated;
        r.Step(actions[i]);
        forall p | 0 < Times(r.asked, p) ensures WasAsked(actions, i + 1, p) {
          if 0 < Times(asked, p) {
            var j :| 0 <= j < i && actions[j] == Pick(p);
          }
        }
        forall p | p in r.validated ensures Confirmed(actions, i + 1, p) {
          if p in validated {
            var j :| 0 <= j < i && actions[j] == Reply(p, true) && WasAsked(actions, j, p);
          }
        }
      }
    }
  }
}
