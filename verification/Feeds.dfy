/** The event feed of event/feed.go: one array of cases, seen through two slices while a value is sent. */
module Feeds {
  import opened Basics

  type Channel = nat
  type Value = nat

  datatype Case = RemoveSub | Sub(channel: Channel)

  /** Slot 0 receives removals, all others are subscribers. */
  ghost predicate Slots(s: seq<Case>) {
    0 < |s| && s[0] == RemoveSub && forall i :: 0 < i < |s| ==> s[i].Sub?
  }

  function Delete(s: seq<Case>, i: nat): seq<Case>
    requires i < |s|
  {
    s[..i] + s[i + 1..]
  }

  /** Swaps slot `i` with the last one of the first `m`. */
  function Deactivate(s: seq<Case>, i: nat, m: nat): seq<Case>
    requires i < m <= |s|
  {
    s[i := s[m - 1]][m - 1 := s[i]]
  }

  lemma Parts(s: seq<Case>, i: nat, m: nat)
    requires 0 < i < m - 1 && m <= |s|
    ensures s[1..m] == s[1..i] + ([s[i]] + (s[i + 1..m - 1] + [s[m - 1]]))
  {
    assert s[1..m] == s[1..i] + s[i..m] && s[i..m] == [s[i]] + s[i + 1..m];
    assert s[i + 1..m] == s[i + 1..m - 1] + [s[m - 1]];
  }

  lemma SwappedParts(s: seq<Case>, i: nat, m: nat, t: seq<Case>)
    requires 0 < i < m - 1 && m <= |s| && t == Deactivate(s, i, m)
    ensures t[1..m - 1] == s[1..i] + ([s[m - 1]] + s[i + 1..m - 1])
  {
    var parts := s[1..i] + ([s[m - 1]] + s[i + 1..m - 1]);
    forall k | 0 <= k < m - 2 ensures t[1..m - 1][k] == parts[k] {
      assert t[k + 1] == if k + 1 == i then s[m - 1] else s[k + 1];
    }
  }

  /** Deactivating moves one case out of the first `m - 1`. */
  lemma DeactivateTakes(s: seq<Case>, i: nat, m: nat, t: seq<Case>)
    requires 0 < i < m <= |s| && t == Deactivate(s, i, m)
    ensures multiset(t[1..m - 1]) == multiset(s[1..m]) - multiset{s[i]}
  {
    if i == m - 1 {
      assert s[1..m] == s[1..i] + [s[i]];
      assert t[1..m - 1] == s[1..i];
    } else {
      Parts(s, i, m);
      SwappedParts(s, i, m, t);
    }
  }

  /** Deactivating loses no case. */
  lemma DeactivateKeeps(s: seq<Case>, i: nat, m: nat, t: seq<Case>)
    requires 0 < i < m <= |s| && t == Deactivate(s, i, m)
    ensures multiset(t[m - 1..]) == multiset(s[m..]) + multiset{s[i]} && (Slots(s) ==> Slots(t))
  {
    assert t[m - 1..] == [s[i]] + s[m..];
  }

  /** Deleting a slot of the first `m` takes it from these. */
  lemma DeleteEarly(s: seq<Case>, i: nat, m: nat, t: seq<Case>)
    requires 0 < i < m <= |s| && t == Delete(s, i)
    ensures multiset(t[1..m - 1]) == multiset(s[1..m]) - multiset{s[i]} && t[m - 1..] == s[m..]
  {
    assert s[1..m] == s[1..i] + ([s[i]] + s[i + 1..m]);
    assert t[1..m - 1] == s[1..i] + s[i + 1..m];
  }

  /** Deleting any other slot takes it from the others. */
  lemma DeleteLate(s: seq<Case>, i: nat, m: nat, t: seq<Case>)
    requires 0 < m <= i < |s| && t == Delete(s, i)
    ensures t[1..m] == s[1..m] && multiset(t[m..]) == multiset(s[m..]) - multiset{s[i]}
  {
    assert s[m..] == s[m..i] + ([s[i]] + s[i + 1..]);
    assert t[m..] == s[m..i] + s[i + 1..];
  }

  lemma DeleteKeepsSlots(s: seq<Case>, i: nat, t: seq<Case>)
    requires 0 < i < |s| && t == Delete(s, i) && Slots(s)
    ensures Slots(t)
  {
  }

  /** A value put on a channel. */
  datatype Delivery = Delivery(channel: Channel, value: Value)

  /** Of the subscribers, those in `delivered` have got the value, those in `dropped` left before they did and those
      in `late` after. */
  datatype Tally = Tally(delivered: multiset<Case>, dropped: multiset<Case>, late: multiset<Case>)

  ghost predicate SendingInFull(s: seq<Case>, m: nat, subs: multiset<Case>, t: Tally) {
    && Slots(s) && 0 < m <= |s|
    && multiset(s[1..m]) + t.delivered + t.dropped == subs
    && multiset(s[m..]) + t.late == t.delivered
  }

  /** Of the subscribers `subs`, the first `m` cases have not got the value yet, all others have; guarded by `Open`. */
  ghost predicate Sending(s: seq<Case>, m: nat, subs: multiset<Case>, t: Tally) {
    forall k {:trigger Open(k)} :: Open(k) ==> SendingInFull(s, m, subs, t)
  }

  lemma StartSending(s: seq<Case>, subs: multiset<Case>)
    requires Slots(s) && subs == multiset(s[1..])
    ensures Sending(s, |s|, subs, Tally(multiset{}, multiset{}, multiset{}))
  {
    assert s[1..|s|] == s[1..] && s[|s|..] == [];
  }

  lemma EndSending(s: seq<Case>, subs: multiset<Case>, t: Tally)
    requires 0 < |s| && Sending(s, 1, subs, t)
    ensures t.delivered + t.dropped == subs && multiset(s[1..]) + t.dropped + t.late == subs
  {
    assert Open(0);
    assert s[1..1] == [];
  }

  lemma Deliver(s: seq<Case>, m: nat, subs: multiset<Case>, t: Tally, i: nat, s': seq<Case>)
    requires Sending(s, m, subs, t) && 0 < i < m <= |s| && s' == Deactivate(s, i, m)
    ensures Sending(s', m - 1, subs, t.(delivered := t.delivered + multiset{s[i]}))
  {
    assert Open(0);
    DeactivateTakes(s, i, m, s');
    DeactivateKeeps(s, i, m, s');
    assert s[i] in s[1..m] by { assert s[1..m][i - 1] == s[i]; }
  }

  lemma Leave(s: seq<Case>, m: nat, subs: multiset<Case>, t: Tally, i: nat, s': seq<Case>)
    requires Sending(s, m, subs, t) && 0 < i < |s| && s' == Delete(s, i)
    ensures if i < m then Sending(s', m - 1, subs, t.(dropped := t.dropped + multiset{s[i]}))
            else Sending(s', m, subs, t.(late := t.late + multiset{s[i]}))
  {
    assert Open(0);
    DeleteKeepsSlots(s, i, s');
    if i < m {
      DeleteEarly(s, i, m, s');
      assert s[i] in s[1..m] by { assert s[1..m][i - 1] == s[i]; }
    } else {
      DeleteLate(s, i, m, s');
      assert s[i] in s[m..] by { assert s[m..][i - m] == s[i]; }
    }
  }

  /** The cases that took a value. */
  function Receivers(log: seq<Delivery>): seq<Case> {
    seq(|log|, i requires 0 <= i < |log| => Sub(log[i].channel))
  }

  function Subs(channels: seq<Channel>): seq<Case> {
    seq(|channels|, i requires 0 <= i < |channels| => Sub(channels[i]))
  }

  ghost predicate TalliedInFull(t: Tally, value: Value, sent0: seq<Delivery>, sent: seq<Delivery>,
                                removed0: seq<Channel>, removed: seq<Channel>) {
    && sent0 <= sent && removed0 <= removed && (forall i :: |sent0| <= i < |sent| ==> sent[i].value == value)
    && t.delivered == multiset(Receivers(sent[|sent0|..])) && t.dropped + t.late == multiset(Subs(removed[|removed0|..]))
  }

  /** The tally counts what the logs of deliveries and removals gained; guarded by `Open`. */
  ghost predicate Tallied(t: Tally, value: Value, sent0: seq<Delivery>, sent: seq<Delivery>, removed0: seq<Channel>,
                          removed: seq<Channel>) {
    forall k {:trigger Open(k)} :: Open(k) ==> TalliedInFull(t, value, sent0, sent, removed0, removed)
  }

  lemma StartTally(value: Value, sent0: seq<Delivery>, removed0: seq<Channel>)
    ensures Tallied(Tally(multiset{}, multiset{}, multiset{}), value, sent0, sent0, removed0, removed0)
  {
    assert Receivers(sent0[|sent0|..]) == [] && Subs(removed0[|removed0|..]) == [];
  }

  lemma TallyDelivery(t: Tally, value: Value, sent0: seq<Delivery>, sent: seq<Delivery>, removed0: seq<Channel>,
                      removed: seq<Channel>, channel: Channel)
    requires Tallied(t, value, sent0, sent, removed0, removed)
    ensures Tallied(t.(delivered := t.delivered + multiset{Sub(channel)}), value, sent0,
                    sent + [Delivery(channel, value)], removed0, removed)
  {
    assert Open(0);
    var sent' := sent + [Delivery(channel, value)];
    assert sent'[|sent0|..] == sent[|sent0|..] + [Delivery(channel, value)];
    assert Receivers(sent'[|sent0|..]) == Receivers(sent[|sent0|..]) + [Sub(channel)];
  }

  lemma TallyRemoval(t: Tally, value: Value, sent0: seq<Delivery>, sent: seq<Delivery>, removed0: seq<Channel>,
                     removed: seq<Channel>, channel: Channel, t': Tally)
    requires Tallied(t, value, sent0, sent, removed0, removed)
    requires t' == t.(dropped := t.dropped + multiset{Sub(channel)}) || t' == t.(late := t.late + multiset{Sub(channel)})
    ensures Tallied(t', value, sent0, sent, removed0, removed + [channel])
  {
    assert Open(0);
    var removed' := removed + [channel];
    assert removed'[|removed0|..] == removed[|removed0|..] + [channel];
    assert Subs(removed'[|removed0|..]) == Subs(removed[|removed0|..]) + [Sub(channel)];
  }

  /** Every one of the subscribers `subs` got the value exactly once, but for some of those that left; `left` stay. */
  ghost predicate Served(value: Value, subs: multiset<Case>, left: multiset<Case>, sent0: seq<Delivery>,
                         sent: seq<Delivery>, removed0: seq<Channel>, removed: seq<Channel>) {
    && sent0 <= sent && removed0 <= removed && (forall i :: |sent0| <= i < |sent| ==> sent[i].value == value)
    && var got, gone := multiset(Receivers(sent[|sent0|..])), multiset(Subs(removed[|removed0|..]));
       got <= subs && subs - got <= gone && left + gone == subs
  }

  /** Once no case is left to serve, the logs account for every subscriber. */
  lemma EndTally(t: Tally, value: Value, sent0: seq<Delivery>, sent: seq<Delivery>, removed0: seq<Channel>,
                 removed: seq<Channel>, subs: multiset<Case>, left: multiset<Case>)
    requires Tallied(t, value, sent0, sent, removed0, removed)
    requires t.delivered + t.dropped == subs && left + t.dropped + t.late == subs
    ensures Served(value, subs, left, sent0, sent, removed0, removed)
  {
    assert Open(0);
    assert subs - t.delivered == t.dropped;
  }

  lemma IsCase(s: seq<Case>, inbox: seq<Channel>, channel: Channel)
    requires Slots(s) && channel !in inbox && Sub(channel) in multiset(s[1..]) + multiset(Subs(inbox))
    ensures Sub(channel) in s
  {
    assert Sub(channel) !in Subs(inbox);
    assert Sub(channel) in s[1..];
  }

  lemma CaseRemoved(s: seq<Case>, i: nat, t: seq<Case>, inbox: seq<Channel>)
    requires Slots(s) && 0 < i < |s| && t == Delete(s, i)
    ensures multiset(t[1..]) + multiset(Subs(inbox)) == multiset(s[1..]) + multiset(Subs(inbox)) - multiset{s[i]}
  {
    DeleteEarly(s, i, |s|, t);
    assert s[1..|s|] == s[1..] && t[1..|s| - 1] == t[1..];
    assert s[i] in s[1..] by { assert s[1..][i - 1] == s[i]; }
  }

  lemma SubsWithout(channels: seq<Channel>, i: nat)
    requires i < |channels|
    ensures multiset(Subs(channels[..i] + channels[i + 1..])) == multiset(Subs(channels)) - multiset{Sub(channels[i])}
  {
    var s := Subs(channels);
    assert s == s[..i] + ([s[i]] + s[i + 1..]);
    assert Subs(channels[..i] + channels[i + 1..]) == s[..i] + s[i + 1..];
  }

  class Feed {
    var buffer: array<Case>
    var len: nat
    var inbox: seq<Channel>

    /** What has been put on channels, and who has left during a `Send`. */
    var sent: seq<Delivery>
    var removed: seq<Channel>

    ghost predicate Valid()
      reads this, buffer
    {
      len <= buffer.Length && Slots(buffer[..len])
    }

    /** The cases of `f.sendCases`. */
    ghost function Cases(): seq<Case>
      reads this, buffer
      requires len <= buffer.Length
    {
      buffer[..len]
    }

    ghost function Subscribers(): multiset<Case>
      reads this, buffer
      requires Valid()
    {
      multiset(Cases()[1..]) + multiset(Subs(inbox))
    }

    constructor ()
      ensures Valid() && fresh(buffer) && Subscribers() == multiset{}
    {
      buffer := new Case[][RemoveSub];
      len, inbox, sent, removed := 1, [], [], [];
      new;
      assert Cases()[1..] == [];
    }

    method Subscribe(channel: Channel)
      requires Valid()
      modifies this`inbox
      ensures Valid() && Subscribers() == old(Subscribers()) + multiset{Sub(channel)}
    {
      inbox := inbox + [channel];
      assert Subs(inbox) == Subs(old(inbox)) + [Sub(channel)];
    }

    /** The first slot of the channel, or -1. */
    method Find(channel: Channel) returns (index: int)
      requires Valid()
      ensures -1 <= index < len && (index == -1 <==> Sub(channel) !in Cases())
      ensures index != -1 ==> 0 < index && buffer[index] == Sub(channel) && Sub(channel) !in buffer[..index]
    {
      for i := 0 to len
        invariant Sub(channel) !in buffer[..i]
      {
        if buffer[i] == Sub(channel) {
          assert buffer[i] in Cases() by { assert Cases()[i] == buffer[i]; }
          return i;
        }
      }
      return -1;
    }

    /** Deletes a slot by moving those behind it one to the left. */
    method DeleteAt(index: nat)
      requires Valid() && 0 < index < len
      modifies this`len, buffer
      ensures Valid() && len == old(len) - 1 && Cases() == Delete(old(Cases()), index)
    {
      ghost var s := Cases();
      var i := index;
      while i + 1 < len
        modifies buffer
        invariant index <= i < len
        invariant forall j :: 0 <= j < index ==> buffer[j] == s[j]
        invariant forall j :: index <= j < i ==> buffer[j] == s[j + 1]
        invariant forall j :: i < j < len ==> buffer[j] == s[j]
      {
        buffer[i] := buffer[i + 1];
        i := i + 1;
      }
      len := len - 1;
      assert Cases() == Delete(s, index);
      DeleteKeepsSlots(s, index, Cases());
    }

    /** Moves a slot behind the first `m`. */
    method DeactivateAt(i: nat, m: nat)
      requires Valid() && 0 < i < m <= len
      modifies buffer
      ensures Valid() && Cases() == Deactivate(old(Cases()), i, m)
    {
      ghost var s := Cases();
      buffer[i], buffer[m - 1] := buffer[m - 1], buffer[i];
      assert Cases() == Deactivate(s, i, m);
      DeactivateKeeps(s, i, m, Cases());
    }

    method RemoveCase(channel: Channel)
      requires Valid() && Sub(channel) in Subscribers() && channel !in inbox
      modifies this`len, buffer
      ensures Valid() && Subscribers() == old(Subscribers()) - multiset{Sub(channel)}
    {
      ghost var s := Cases();
      IsCase(s, inbox, channel);
      var index := Find(channel);
      DeleteAt(index);
      CaseRemoved(s, index, Cases(), inbox);
    }

    /** Removes a subscription while nothing is being sent. */
    method Remove(channel: Channel)
      requires Valid() && Sub(channel) in Subscribers()
      modifies this`inbox, this`len, buffer
      ensures Valid() && Subscribers() == old(Subscribers()) - multiset{Sub(channel)}
    {
      var i := 0;
      while i < |inbox| && inbox[i] != channel
        invariant i <= |inbox| && channel !in inbox[..i]
      {
        i := i + 1;
      }
      if i < |inbox| {
        SubsWithout(inbox, i);
        inbox := inbox[..i] + inbox[i + 1..];
      } else {
        RemoveCase(channel);
      }
    }

    /** Moves the inbox to the cases. */
    method Merge()
      requires Valid()
      modifies this`buffer, this`len, this`inbox
      ensures Valid() && inbox == [] && fresh(buffer) && Cases() == old(Cases()) + Subs(old(inbox))
      ensures multiset(Cases()[1..]) == old(Subscribers()) == Subscribers()
    {
      ghost var s, subs := Cases(), Subs(inbox);
      var n := len + |inbox|;
      var merged := new Case[n](i requires 0 <= i < n reads this, buffer =>
        if i < len && i < buffer.Length then buffer[i] else if 0 <= i - len < |inbox| then Sub(inbox[i - len]) else RemoveSub);
      buffer, len, inbox := merged, n, [];
      assert Cases() == s + subs;
      assert Cases()[1..] == s[1..] + subs;
    }

    /** An active case takes the value. */
    method SendTo(value: Value, i: nat, m: nat, ghost subs: multiset<Case>, ghost t: Tally, ghost sent0: seq<Delivery>,
                  ghost removed0: seq<Channel>)
      returns (m': nat, ghost t': Tally)
      requires Valid() && 0 < i < m <= len
      requires Sending(Cases(), m, subs, t) && Tallied(t, value, sent0, sent, removed0, removed)
      modifies buffer, this`sent
      ensures Valid() && m' == m - 1 && sent == old(sent) + [Delivery(old(buffer[i]).channel, value)]
      ensures Sending(Cases(), m', subs, t') && Tallied(t', value, sent0, sent, removed0, removed)
    {
      ghost var s := Cases();
      var channel := buffer[i].channel;
      DeactivateAt(i, m);
      Deliver(s, m, subs, t, i, Cases());
      TallyDelivery(t, value, sent0, sent, removed0, removed, channel);
      sent := sent + [Delivery(channel, value)];
      m', t' := m - 1, t.(delivered := t.delivered + multiset{Sub(channel)});
    }

    /** One pass over the active cases; any of them may or may not take the value at once. */
    method TrySends(value: Value, m: nat, nsent: nat, ghost subs: multiset<Case>, ghost t: Tally,
                    ghost sent0: seq<Delivery>, ghost removed0: seq<Channel>)
      returns (m': nat, nsent': nat, ghost t': Tally)
      requires Valid() && 0 < m <= len && Sending(Cases(), m, subs, t) && Tallied(t, value, sent0, sent, removed0, removed)
      requires nsent == |sent| - |sent0|
      modifies buffer, this`sent
      ensures Valid() && 0 < m' <= m && nsent' == |sent| - |sent0|
      ensures Sending(Cases(), m', subs, t') && Tallied(t', value, sent0, sent, removed0, removed)
    {
      m', nsent', t' := m, nsent, t;
      var i := 1;
      while i < m'
        invariant 1 <= i && 0 < m' <= m && Valid() && nsent' == |sent| - |sent0|
        invariant Sending(Cases(), m', subs, t') && Tallied(t', value, sent0, sent, removed0, removed)
        decreases m' - i
      {
        if * {
          m', t' := SendTo(value, i, m', subs, t', sent0, removed0);
          nsent' := nsent' + 1;
        } else {
          i := i + 1;
        }
      }
    }

    /** Any of the subscribers, with its place. */
    method PickAny() returns (channel: Channel, index: nat)
      requires Valid() && 1 < len
      ensures 0 < index < len && Cases()[index] == Sub(channel)
    {
      assert buffer[..len][1] == Sub(buffer[1].channel);
      channel :| Sub(channel) in buffer[..len];
      index := Find(channel);
    }

    /** The case of a subscriber that leaves goes, from the active ones if it is one of them. */
    method TakeOut(index: nat, ghost channel: Channel, m: nat, ghost subs: multiset<Case>, ghost t: Tally)
      returns (m': nat, ghost t': Tally)
      requires Valid() && 1 < m <= len && 0 < index < len && Cases()[index] == Sub(channel) && Sending(Cases(), m, subs, t)
      modifies this`len, buffer
      ensures Valid() && len == old(len) - 1 && 0 < m' <= m && m' <= len && Sending(Cases(), m', subs, t')
      ensures t' == t.(dropped := t.dropped + multiset{Sub(channel)}) || t' == t.(late := t.late + multiset{Sub(channel)})
    {
      ghost var s := Cases();
      Leave(s, m, subs, t, index, Delete(s, index));
      DeleteAt(index);
      if index < m {
        m', t' := m - 1, t.(dropped := t.dropped + multiset{s[index]});
      } else {
        m', t' := m, t.(late := t.late + multiset{s[index]});
      }
    }

    /** A subscriber, any of them, asks to leave. */
    method TakeRemoval(ghost value: Value, m: nat, ghost subs: multiset<Case>, ghost t: Tally, ghost sent0: seq<Delivery>,
                       ghost removed0: seq<Channel>)
      returns (m': nat, ghost t': Tally)
      requires Valid() && 1 < m <= len
      requires Sending(Cases(), m, subs, t) && Tallied(t, value, sent0, sent, removed0, removed)
      modifies this`len, this`removed, buffer
      ensures Valid() && 0 < m' <= m && len < old(len) && m' <= len
      ensures |removed| == |old(removed)| + 1 && removed[..|old(removed)|] == old(removed)
      ensures Sub(removed[|old(removed)|]) in old(Cases())
      ensures Sending(Cases(), m', subs, t') && Tallied(t', value, sent0, sent, removed0, removed)
    {
      var channel, index := PickAny();
      m', t' := TakeOut(index, channel, m, subs, t);
      TallyRemoval(t, value, sent0, sent, removed0, removed, channel, t');
      removed := removed + [channel];
    }

    /** Waits until one more subscriber takes the value or leaves. */
    method Await(value: Value, m: nat, nsent: nat, ghost subs: multiset<Case>, ghost t: Tally, ghost sent0: seq<Delivery>,
                 ghost removed0: seq<Channel>)
      returns (m': nat, nsent': nat, ghost t': Tally)
      requires Valid() && 1 < m <= len && Sending(Cases(), m, subs, t) && Tallied(t, value, sent0, sent, removed0, removed)
      requires nsent == |sent| - |sent0|
      modifies this`len, this`removed, this`sent, buffer
      ensures Valid() && 0 < m' <= len && nsent' == |sent| - |sent0| && len + m' < old(len) + m
      ensures Sending(Cases(), m', subs, t') && Tallied(t', value, sent0, sent, removed0, removed)
    {
      var chosen :| 0 <= chosen < m;
      if chosen == 0 {
        nsent' := nsent;
        m', t' := TakeRemoval(value, m, subs, t, sent0, removed0);
      } else {
        m', t' := SendTo(value, chosen, m, subs, t, sent0, removed0);
        nsent' := nsent + 1;
      }
    }

    /** Sends a value: every subscriber gets it exactly once, but for those that leave before. */
    method Send(value: Value) returns (nsent: nat)
      requires Valid()
      modifies this, buffer
      ensures Valid() && inbox == [] && nsent == |sent| - |old(sent)|
      ensures Served(value, old(Subscribers()), Subscribers(), old(sent), sent, old(removed), removed)
    {
      ghost var sent0, removed0 := sent, removed;
      Merge();
      ghost var subs := Subscribers();
      ghost var t := Tally(multiset{}, multiset{}, multiset{});
      nsent := 0;
      var m: nat := len;
      StartSending(Cases(), subs);
      StartTally(value, sent, removed);
      while true
        invariant Valid() && inbox == [] && fresh(buffer) && 0 < m <= len && nsent == |sent| - |sent0|
        invariant Sending(Cases(), m, subs, t) && Tallied(t, value, sent0, sent, removed0, removed)
        decreases len + m
      {
        m, nsent, t := TrySends(value, m, nsent, subs, t, sent0, removed0);
        if m == 1 {
          break;
        }
        m, nsent, t := Await(value, m, nsent, subs, t, sent0, removed0);
      }
      EndSending(Cases(), subs, t);
      assert Subs(inbox) == [];
      EndTally(t, value, sent0, sent, removed0, removed, subs, Subscribers());
    }
  }
}
