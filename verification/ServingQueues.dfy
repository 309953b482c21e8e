/** The serving queue of les/servingqueue.go: tasks by priority, and the load they stand for. */
module ServingQueues {
  import opened Basics
  import Heap

  type Peer = nat

  datatype Task = Task(id: nat, peer: Peer, expTime: nat, priority: int)

  predicate Higher(x: Task, y: Task) {
    x.priority > y.priority
  }

  /** The expected serving time of some tasks. */
  function Sum(tasks: seq<Task>): nat {
    if tasks == [] then 0 else tasks[0].expTime + Sum(tasks[1..])
  }

  lemma {:induction false} SumJoin(s: seq<Task>, t: seq<Task>)
    ensures Sum(s + t) == Sum(s) + Sum(t)
  {
    if s == [] {
      assert s + t == t;
    } else {
      assert (s + t)[1..] == s[1..] + t;
      SumJoin(s[1..], t);
    }
  }

  lemma TakeOut<T>(s: seq<T>, j: nat, rest: seq<T>)
    requires j < |s| && rest == s[..j] + s[j + 1..]
    ensures multiset(s) == multiset(rest) + multiset{s[j]}
  {
    assert s == s[..j] + ([s[j]] + s[j + 1..]);
  }

  lemma Cancel<T>(a: multiset<T>, b: multiset<T>, x: T)
    requires a + multiset{x} == b + multiset{x}
    ensures a == b
  {
    assert (a + multiset{x}) - multiset{x} == a && (b + multiset{x}) - multiset{x} == b;
  }

  lemma SumWithout(s: seq<Task>, j: nat, rest: seq<Task>)
    requires j < |s| && rest == s[..j] + s[j + 1..]
    ensures Sum(s) == Sum(rest) + s[j].expTime
  {
    assert s == s[..j] + ([s[j]] + s[j + 1..]);
    SumJoin(s[..j], [s[j]] + s[j + 1..]);
    SumJoin([s[j]], s[j + 1..]);
    SumJoin(s[..j], s[j + 1..]);
  }

  lemma {:induction false} SumPermuted(s: seq<Task>, t: seq<Task>)
    requires multiset(s) == multiset(t)
    ensures Sum(s) == Sum(t)
  {
    if s == [] {
      assert |multiset(t)| == 0;
    } else {
      assert s[0] in multiset(t);
      var j :| 0 <= j < |t| && t[j] == s[0];
      var rest := t[..j] + t[j + 1..];
      TakeOut(t, j, rest);
      TakeOut(s, 0, s[1..]);
      Cancel(multiset(s[1..]), multiset(rest), s[0]);
      SumPermuted(s[1..], rest);
      SumWithout(t, j, rest);
    }
  }

  lemma SumAdds(s: seq<Task>, x: Task, t: seq<Task>)
    requires multiset(t) == multiset(s) + multiset{x}
    ensures Sum(t) == Sum(s) + x.expTime
  {
    SumPermuted(t, s + [x]);
    SumJoin(s, [x]);
  }

  type Groups = map<Peer, seq<Task>>

  /** Every list of a group holds tasks of its peer. */
  ghost predicate Own(lists: Groups) {
    forall p, i :: p in lists && 0 <= i < |lists[p]| ==> lists[p][i].peer == p
  }

  ghost predicate Distinct(order: seq<Peer>) {
    forall p :: multiset(order)[p] <= 1
  }

  ghost predicate Listed(order: seq<Peer>, lists: Groups) {
    Own(lists) && Distinct(order) && forall p :: p in order ==> p in lists
  }

  /** All tasks of the peers, in order. */
  function Tasks(order: seq<Peer>, lists: Groups): seq<Task>
    requires forall p :: p in order ==> p in lists
  {
    if order == [] then [] else lists[order[0]] + Tasks(order[1..], lists)
  }

  lemma FirstOut(order: seq<Peer>)
    requires order != [] && Distinct(order)
    ensures Distinct(order[1..]) && order[0] !in order[1..]
  {
    var first, rest := order[0], order[1..];
    TakeOut(order, 0, rest);
    forall p ensures multiset(rest)[p] <= 1 {
      assert multiset(order)[p] <= 1;
    }
    assert multiset(order)[first] == multiset(rest)[first] + 1 <= 1;
    assert first !in multiset(rest);
  }

  lemma {:induction false} CountTasks(order: seq<Peer>, lists: Groups, t: Task)
    requires Listed(order, lists)
    ensures multiset(Tasks(order, lists))[t] == if t.peer in order then multiset(lists[t.peer])[t] else 0
  {
    if order != [] {
      var p, rest := order[0], order[1..];
      FirstOut(order);
      CountTasks(rest, lists, t);
      if t.peer != p {
        assert t !in lists[p];
      }
    }
  }

  lemma SameTasks(order: seq<Peer>, order': seq<Peer>, lists: Groups)
    requires Listed(order, lists) && multiset(order) == multiset(order')
    ensures Listed(order', lists) && multiset(Tasks(order, lists)) == multiset(Tasks(order', lists))
  {
    forall p ensures p in order <==> p in order' {
      assert p in multiset(order) <==> p in multiset(order');
    }
    forall t ensures multiset(Tasks(order, lists))[t] == multiset(Tasks(order', lists))[t] {
      CountTasks(order, lists, t);
      CountTasks(order', lists, t);
    }
  }

  /** Those tasks whose peers are not in `gone`. */
  function Without(tasks: seq<Task>, gone: seq<Peer>): seq<Task> {
    if tasks == [] then []
    else (if tasks[0].peer in gone then [] else [tasks[0]]) + Without(tasks[1..], gone)
  }

  lemma {:induction false} CountWithout(tasks: seq<Task>, gone: seq<Peer>, t: Task)
    ensures multiset(Without(tasks, gone))[t] == if t.peer in gone then 0 else multiset(tasks)[t]
  {
    if tasks != [] {
      CountWithout(tasks[1..], gone, t);
      TakeOut(tasks, 0, tasks[1..]);
    }
  }

  lemma SplitOrder(order: seq<Peer>, j: nat)
    requires Distinct(order) && j <= |order|
    ensures Distinct(order[j..])
    ensures forall p :: p in order <==> p in order[..j] || p in order[j..]
    ensures forall p :: !(p in order[..j] && p in order[j..])
  {
    assert order == order[..j] + order[j..];
    assert multiset(order) == multiset(order[..j]) + multiset(order[j..]);
    forall p ensures multiset(order)[p] == multiset(order[..j])[p] + multiset(order[j..])[p] {
    }
    forall p | p in order[..j] ensures p !in order[j..] {
      assert multiset(order[..j])[p] >= 1 && multiset(order)[p] <= 1;
    }
  }

  /** Dropping the groups of the first `j` peers drops all their tasks and no other. */
  lemma DropPeers(order: seq<Peer>, lists: Groups, tasks: seq<Task>, j: nat)
    requires Listed(order, lists) && j <= |order| && multiset(Tasks(order, lists)) == multiset(tasks)
    ensures Listed(order[j..], lists)
    ensures multiset(Tasks(order[j..], lists)) == multiset(Without(tasks, order[..j]))
    ensures Sum(Tasks(order[j..], lists)) == Sum(Without(tasks, order[..j]))
  {
    SplitOrder(order, j);
    forall t ensures multiset(Tasks(order[j..], lists))[t] == multiset(Without(tasks, order[..j]))[t] {
      CountTasks(order, lists, t);
      CountTasks(order[j..], lists, t);
      CountWithout(tasks, order[..j], t);
    }
    SumPermuted(Tasks(order[j..], lists), Without(tasks, order[..j]));
  }

  lemma OneMorePeer(order: seq<Peer>, p: Peer, order': seq<Peer>)
    requires Distinct(order) && order' == if p in order then order else order + [p]
    ensures Distinct(order') && forall q :: q in order' <==> q in order || q == p
  {
    if p !in order {
      assert multiset(order') == multiset(order) + multiset{p};
      assert multiset(order)[p] == 0;
    }
  }

  lemma GroupCount(lists: Groups, t: Task, lists': Groups, u: Task)
    requires lists' == lists[t.peer := (if t.peer in lists then lists[t.peer] else []) + [t]]
    ensures u.peer in lists' <==> u.peer in lists || u.peer == t.peer
    ensures u.peer in lists' ==>
              multiset(lists'[u.peer])[u] ==
              (if u.peer in lists then multiset(lists[u.peer])[u] else 0) + if u == t then 1 else 0
  {
  }

  lemma GroupTaskCount(order: seq<Peer>, lists: Groups, t: Task, order': seq<Peer>, lists': Groups, u: Task)
    requires Listed(order, lists) && (t.peer in order <==> t.peer in lists) && Listed(order', lists')
    requires forall q :: q in order' <==> q in order || q == t.peer
    requires lists' == lists[t.peer := (if t.peer in lists then lists[t.peer] else []) + [t]]
    ensures multiset(Tasks(order', lists'))[u] == (multiset(Tasks(order, lists)) + multiset{t})[u]
  {
    CountTasks(order, lists, u);
    CountTasks(order', lists', u);
    GroupCount(lists, t, lists', u);
  }

  /** One more task in the group of its peer. */
  lemma GroupTask(order: seq<Peer>, lists: Groups, t: Task, order': seq<Peer>, lists': Groups)
    requires Listed(order, lists) && (t.peer in order <==> t.peer in lists)
    requires order' == if t.peer in order then order else order + [t.peer]
    requires lists' == lists[t.peer := (if t.peer in lists then lists[t.peer] else []) + [t]]
    ensures Listed(order', lists') && multiset(Tasks(order', lists')) == multiset(Tasks(order, lists)) + multiset{t}
  {
    OneMorePeer(order, t.peer, order');
    assert Own(lists');
    forall u ensures multiset(Tasks(order', lists'))[u] == (multiset(Tasks(order, lists)) + multiset{t})[u] {
      GroupTaskCount(order, lists, t, order', lists', u);
    }
  }

  /** The fill of a client's request buffer. */
  datatype Buffer = Buffer(value: nat, limit: nat) {
    function Ratio(): real {
      value as real / (if limit < 1 then 1 else limit) as real
    }
  }

  function Emptier(status: Peer -> Buffer): (Peer, Peer) -> bool {
    (p: Peer, q: Peer) => status(p).Ratio() < status(q).Ratio()
  }

  lemma Orders(status: Peer -> Buffer)
    ensures Heap.StrictWeakOrder(Emptier(status)) && Heap.StrictWeakOrder(Higher)
  {
  }

  /** Empties the heap into one group per peer. */
  method GroupAll(queue: seq<Task>, ghost status: Peer -> Buffer) returns (order: seq<Peer>, lists: Groups)
    requires Heap.IsHeap(queue, Higher)
    ensures Listed(order, lists) && multiset(Tasks(order, lists)) == multiset(queue)
    ensures forall p :: p in order ==> lists[p] != []
  {
    Orders(status);
    order, lists := [], map[];
    var left := queue;
    while left != []
      invariant Heap.IsHeap(left, Higher)
      invariant Listed(order, lists) && forall p :: p in lists ==> p in order && lists[p] != []
      invariant multiset(Tasks(order, lists)) + multiset(left) == multiset(queue)
      decreases |multiset(left)|
    {
      var task;
      task, left := Heap.Pop(left, Higher);
      var order' := if task.peer in order then order else order + [task.peer];
      var lists' := lists[task.peer := (if task.peer in lists then lists[task.peer] else []) + [task]];
      GroupTask(order, lists, task, order', lists');
      order, lists := order', lists';
    }
  }

  ghost predicate HasTask(tasks: seq<Task>, p: Peer) {
    exists i :: 0 <= i < |tasks| && tasks[i].peer == p
  }

  /** Of `tasks`, exactly those of the first `k` peers by buffer fill are dropped: the fewest that bring the load
      down to `limit`, but at least one. */
  ghost predicate DropsPrefix(tasks: seq<Task>, left: seq<Task>, order: seq<Peer>, k: nat, recent: nat, limit: nat,
                              status: Peer -> Buffer)
  {
    && k <= |order| && Distinct(order) && Heap.Sorted(order, Emptier(status))
    && (forall p :: p in order <==> HasTask(tasks, p))
    && multiset(left) == multiset(Without(tasks, order[..k]))
    && (order != [] ==> 0 < k)
    && (forall j :: 0 < j < k ==> limit < recent + Sum(Without(tasks, order[..j])))
    && (k < |order| ==> recent + Sum(left) <= limit)
  }

  lemma CrossMultiply(a: nat, b: nat, c: nat, d: nat)
    requires 0 < b && 0 < d && a as real / b as real <= c as real / d as real
    ensures a * d <= c * b
  {
    var x, y := a as real / b as real, c as real / d as real;
    assert x * b as real == a as real && y * d as real == c as real;
    assert b as real * d as real > 0.0;
    assert x * (b as real * d as real) <= y * (b as real * d as real);
    assert x * (b as real * d as real) == (x * b as real) * d as real;
    assert y * (b as real * d as real) == (y * d as real) * b as real;
    assert (a * d) as real == a as real * d as real && (c * b) as real == c as real * b as real;
  }

  /** No peer that is frozen has a fuller request buffer, relative to its limit, than one that is not. */
  lemma FrozenAreEmptier(tasks: seq<Task>, left: seq<Task>, order: seq<Peer>, k: nat, recent: nat, limit: nat,
                         status: Peer -> Buffer, p: Peer, q: Peer)
    requires DropsPrefix(tasks, left, order, k, recent, limit, status)
    requires p in order[..k] && q in order[k..] && 0 < status(p).limit && 0 < status(q).limit
    ensures status(p).value * status(q).limit <= status(q).value * status(p).limit
  {
    var i :| 0 <= i < k && order[i] == p;
    var j :| k <= j < |order| && order[j] == q;
    assert !Emptier(status)(order[j], order[i]);
    CrossMultiply(status(p).value, status(p).limit, status(q).value, status(q).limit);
  }

  function First(order: seq<Peer>, k: nat): set<Peer>
    requires k <= |order|
  {
    set p | p in order[..k]
  }

  /** The load of the peers from place `j` on. */
  function Load(order: seq<Peer>, lists: Groups, j: nat): nat
    requires j <= |order| && forall p :: p in order ==> p in lists
  {
    Sum(Tasks(order[j..], lists))
  }

  /** After `i` peers: the first `k` are dropped, all others have their tasks back in the queue. */
  ghost predicate DroppingInFull(order: seq<Peer>, lists: Groups, i: nat, k: nat, drop: bool, queue: seq<Task>, queued: nat,
                                 recent: nat, limit: nat)
  {
    && i <= |order| && Listed(order, lists)
    && (if drop then k == i && queue == [] else 0 < k <= i && recent + queued <= limit)
    && queued == Load(order, lists, k)
    && multiset(queue) + multiset(Tasks(order[i..], lists)) == multiset(Tasks(order[k..], lists))
    && (forall j :: 0 < j < k || (j == k && drop && 0 < k) ==> limit < recent + Load(order, lists, j))
  }

  ghost predicate Dropping(order: seq<Peer>, lists: Groups, i: nat, k: nat, drop: bool, queue: seq<Task>, queued: nat,
                           recent: nat, limit: nat)
  {
    forall n {:trigger Open(n)} :: Open(n) ==> DroppingInFull(order, lists, i, k, drop, queue, queued, recent, limit)
  }

  lemma StartDropping(order: seq<Peer>, lists: Groups, tasks: seq<Task>, recent: nat, limit: nat)
    requires Listed(order, lists) && multiset(Tasks(order, lists)) == multiset(tasks)
    ensures Dropping(order, lists, 0, 0, true, [], Sum(tasks), recent, limit)
  {
    assert order[0..] == order;
    SumPermuted(Tasks(order, lists), tasks);
  }

  lemma NextLoad(order: seq<Peer>, lists: Groups, i: nat)
    requires i < |order| && forall p :: p in order ==> p in lists
    ensures Load(order, lists, i) == Sum(lists[order[i]]) + Load(order, lists, i + 1)
    ensures Tasks(order[i..], lists) == lists[order[i]] + Tasks(order[i + 1..], lists)
  {
    assert order[i..][0] == order[i] && order[i..][1..] == order[i + 1..];
    SumJoin(lists[order[i]], Tasks(order[i + 1..], lists));
  }

  lemma CanDrop(order: seq<Peer>, lists: Groups, i: nat, k: nat, queue: seq<Task>, queued: nat, recent: nat, limit: nat)
    requires Dropping(order, lists, i, k, true, queue, queued, recent, limit) && i < |order|
    ensures k == i && queue == [] && order[i] in lists && Sum(lists[order[i]]) <= queued
  {
    assert Open(0);
    NextLoad(order, lists, i);
  }

  lemma FirstNext(order: seq<Peer>, i: nat)
    requires i < |order|
    ensures First(order, i + 1) == First(order, i) + {order[i]}
  {
    assert order[..i + 1] == order[..i] + [order[i]];
  }

  lemma DroppedNext(order: seq<Peer>, lists: Groups, i: nat, queued: nat, recent: nat, limit: nat, drop': bool, queued': nat)
    requires Dropping(order, lists, i, i, true, [], queued, recent, limit) && i < |order| && order[i] in lists
    requires forall p :: p in order ==> p in lists
    requires Load(order, lists, i) == Sum(lists[order[i]]) + Load(order, lists, i + 1)
    requires queued' == queued - Sum(lists[order[i]]) && drop' == (recent + queued' > limit)
    ensures Dropping(order, lists, i + 1, i + 1, drop', [], queued', recent, limit)
  {
    assert Open(0);
  }

  lemma DropNext(order: seq<Peer>, lists: Groups, i: nat, k: nat, queue: seq<Task>, queued: nat, recent: nat, limit: nat,
                 k': nat, drop': bool, queued': nat)
    requires Dropping(order, lists, i, k, true, queue, queued, recent, limit) && i < |order| && order[i] in lists
    requires k' == k + 1 && queued' == queued - Sum(lists[order[i]]) && drop' == (recent + queued' > limit)
    ensures Dropping(order, lists, i + 1, k', drop', queue, queued', recent, limit)
    ensures k <= i && First(order, k') == First(order, k) + {order[i]}
  {
    assert k == i && queue == [] && Listed(order, lists) by {
      assert Open(0);
    }
    NextLoad(order, lists, i);
    FirstNext(order, i);
    DroppedNext(order, lists, i, queued, recent, limit, drop', queued');
  }

  lemma KeepNext(order: seq<Peer>, lists: Groups, i: nat, k: nat, queue: seq<Task>, queue': seq<Task>, queued: nat,
                 recent: nat, limit: nat)
    requires Listed(order, lists) && Dropping(order, lists, i, k, false, queue, queued, recent, limit) && i < |order|
    requires multiset(queue') == multiset(queue) + multiset(lists[order[i]])
    ensures Dropping(order, lists, i + 1, k, false, queue', queued, recent, limit)
  {
    assert Open(0);
    NextLoad(order, lists, i);
  }

  lemma EndDropping(order: seq<Peer>, lists: Groups, tasks: seq<Task>, k: nat, drop: bool, queue: seq<Task>, queued: nat,
                    recent: nat, limit: nat)
    requires Listed(order, lists) && Dropping(order, lists, |order|, k, drop, queue, queued, recent, limit)
    requires multiset(Tasks(order, lists)) == multiset(tasks)
    ensures queued == Sum(queue) && k <= |order| && (order != [] ==> 0 < k)
    ensures multiset(queue) == multiset(Without(tasks, order[..k]))
    ensures forall j :: 0 < j < k ==> limit < recent + Sum(Without(tasks, order[..j]))
    ensures k < |order| ==> recent + queued <= limit
  {
    assert Open(0);
    forall j | 0 < j < k ensures Load(order, lists, j) == Sum(Without(tasks, order[..j])) {
      DropPeers(order, lists, tasks, j);
    }
    DropPeers(order, lists, tasks, k);
    assert order[|order|..] == [];
    SumPermuted(queue, Tasks(order[k..], lists));
  }

  /** The times of a task that is served: what is still expected, and what was served, now and when it was last
      added.  While it is served, the clock at its start is taken off the time served. */
  datatype Meter = Meter(expTime: nat, servingTime: int, timeAdded: int) {
    function Start(now: int): Meter {
      this.(servingTime := servingTime - now)
    }

    /** The time since it was last added, in 64 bits. */
    function Spent(now: int): nat {
      (servingTime + now - timeAdded) % TWO_64
    }

    /** What is left of the expected time. */
    function Unused(now: int): nat {
      if Spent(now) < expTime then expTime - Spent(now) else 0
    }
  }

  /** A task that is started and stopped is charged the time in between, up to the time expected. */
  lemma ChargedForTime(m: Meter, from: int, to: int)
    requires m.servingTime == m.timeAdded && from <= to < from + TWO_64
    ensures var time := to - from; m.expTime - m.Start(from).Unused(to) == if time < m.expTime then time else m.expTime
  {
    assert m.Start(from).Spent(to) == to - from;
  }

  datatype Step = Add(task: Task, now: int, status: Peer -> Buffer) | Take(now: int) | Stop(meter: Meter, now: int)

  /** When every peer is dropped nothing is queued; otherwise the load is down to the limit. */
  lemma LoadFalls(tasks: seq<Task>, left: seq<Task>, order: seq<Peer>, k: nat, recent: nat, limit: nat,
                  status: Peer -> Buffer)
    requires DropsPrefix(tasks, left, order, k, recent, limit, status)
    ensures recent + Sum(left) <= limit || Sum(left) == 0
  {
    if k == |order| {
      assert order[..k] == order;
      forall t ensures multiset(left)[t] == 0 {
        CountWithout(tasks, order, t);
        if t in multiset(tasks) {
          var i :| 0 <= i < |tasks| && tasks[i] == t;
          assert HasTask(tasks, t.peer);
        }
      }
      assert multiset(left) == multiset{};
      assert left == [];
    }
  }

  lemma AllInOrder(order: seq<Peer>, lists: Groups, tasks: seq<Task>)
    requires Listed(order, lists) && multiset(Tasks(order, lists)) == multiset(tasks)
    requires forall p :: p in order ==> lists[p] != []
    ensures forall p :: p in order <==> HasTask(tasks, p)
  {
    forall p | HasTask(tasks, p) ensures p in order {
      var i :| 0 <= i < |tasks| && tasks[i].peer == p;
      CountTasks(order, lists, tasks[i]);
      assert tasks[i] in multiset(tasks);
    }
    forall p | p in order ensures HasTask(tasks, p) {
      var t := lists[p][0];
      CountTasks(order, lists, t);
      assert t in multiset(lists[p]) && t in multiset(tasks);
      var i :| 0 <= i < |tasks| && tasks[i] == t;
    }
  }

  const BUF_LIMIT_RATIO: real := 6000.0

  function Monus(a: nat, b: nat): nat {
    if b < a then a - b else 0
  }

  /** The share of the time `dt` that counts as served. */
  function Decay(dt: int, rate: real): nat
    requires 0.0 <= rate
  {
    if dt <= 0 then 0 else (dt as real * rate).Floor
  }

  /** In the time `dt` the recent load `before` falls to `after`: by what was given back and by the decay, but not below
      zero; guarded by `Open`. */
  ghost predicate Passes(before: nat, back: nat, dt: int, rate: real, after: nat)
    requires 0.0 <= rate
  {
    forall k {:trigger Open(k)} :: Open(k) ==> after == Monus(before, back + Decay(dt, rate))
  }

  /** What is left is what was given back and the share `rate` of the time below what there was, rounded up, and never
      less than nothing; time does not run backwards. */
  lemma PassesMeans(before: nat, back: nat, dt: int, rate: real, after: nat)
    requires 0.0 <= rate && Passes(before, back, dt, rate, after)
    ensures var left := (before - back) as real - if dt <= 0 then 0.0 else dt as real * rate;
            if left <= 0.0 then after == 0 else left <= after as real < left + 1.0
  {
    assert Open(0);
  }

  /** Updating in between never takes off more: rounding only loses. */
  lemma DecayInParts(a: nat, b: nat, rate: real)
    requires 0.0 <= rate
    ensures Decay(a, rate) + Decay(b, rate) <= Decay(a + b, rate) <= Decay(a, rate) + Decay(b, rate) + 1
  {
    assert (a + b) as real * rate == a as real * rate + b as real * rate;
  }

  lemma LimitsGrow(x: real)
    requires 0.0 <= x
    ensures 0 <= (x * 1000000.0).Floor <= (x * 1200000.0).Floor
  {
  }

  lemma SamePeers(s: seq<Task>, t: seq<Task>)
    requires multiset(s) == multiset(t)
    ensures forall p :: HasTask(s, p) <==> HasTask(t, p)
  {
    forall p | HasTask(s, p) ensures HasTask(t, p) {
      var i :| 0 <= i < |s| && s[i].peer == p;
      assert s[i] in multiset(t);
    }
    forall p | HasTask(t, p) ensures HasTask(s, p) {
      var i :| 0 <= i < |t| && t[i].peer == p;
      assert t[i] in multiset(s);
    }
  }

  /** The groups of the tasks in a heap, the peer with the emptiest buffer first. */
  method SortGroups(queue: seq<Task>, status: Peer -> Buffer) returns (order: seq<Peer>, lists: Groups)
    requires Heap.IsHeap(queue, Higher)
    ensures Listed(order, lists) && multiset(Tasks(order, lists)) == multiset(queue)
    ensures Heap.Sorted(order, Emptier(status)) && forall p :: p in order <==> HasTask(queue, p)
  {
    Orders(status);
    var groups;
    groups, lists := GroupAll(queue, status);
    order := Heap.Sort(groups, Emptier(status));
    SameTasks(groups, order, lists);
    forall p | p in order ensures lists[p] != [] {
      assert p in multiset(order) && p in multiset(groups);
    }
    AllInOrder(order, lists, queue);
  }

  class ServingQueue {
    const burstLimit: nat
    const burstDropLimit: nat
    const burstDecRate: real
    var servingTimeDiff: nat
    var lastUpdate: int
    var recentTime: nat
    var queuedTime: nat
    var queue: seq<Task>
    var best: Option<Task>
    var frozen: set<Peer>

    function All(): seq<Task>
      reads `queue, `best
    {
      if best == None then queue else queue + [best.value]
    }

    /** `best` has the highest priority, and the queued time is that of all tasks. */
    ghost predicate Ranked()
      reads `queue, `best, `queuedTime
    {
      && Heap.IsHeap(queue, Higher) && (best == None ==> queue == [])
      && (forall t :: t in queue ==> best.Some? && t.priority <= best.value.priority)
      && queuedTime == Sum(All())
    }

    ghost predicate Valid()
      reads `queue, `best, `queuedTime, `recentTime
    {
      Ranked() && burstDropLimit <= burstLimit && 0.0 <= burstDecRate && recentTime + queuedTime <= burstLimit
    }

    /** The limits follow from the share of time to serve for. */
    constructor (target: real, now: int)
      requires 0.0 <= target
      ensures Valid() && All() == [] && frozen == {} && recentTime == servingTimeDiff == 0 && lastUpdate == now
      ensures burstLimit as real <= target * 7200000000.0 < burstLimit as real + 1.0
      ensures burstDropLimit as real <= target * 6000000000.0 < burstDropLimit as real + 1.0 && burstDecRate == target
    {
      LimitsGrow(target * BUF_LIMIT_RATIO);
      burstLimit := (target * BUF_LIMIT_RATIO * 1200000.0).Floor;
      burstDropLimit := (target * BUF_LIMIT_RATIO * 1000000.0).Floor;
      burstDecRate, servingTimeDiff, lastUpdate := target, 0, now;
      recentTime, queuedTime, queue, best, frozen := 0, 0, [], None, {};
    }

    /** A task that stops gives back what is left of its expected time. */
    method Done(meter: Meter, now: int) returns (meter': Meter)
      modifies this`servingTimeDiff
      ensures meter' == Meter(meter.Unused(now), meter.servingTime + now, meter.servingTime + now)
      ensures servingTimeDiff == old(servingTimeDiff) + meter.Unused(now)
    {
      var servingTime := meter.servingTime + now;
      var diff := (servingTime - meter.timeAdded) % TWO_64;
      if meter.expTime > diff {
        meter' := Meter(meter.expTime - diff, servingTime, servingTime);
        servingTimeDiff := servingTimeDiff + meter'.expTime;
      } else {
        meter' := Meter(0, servingTime, servingTime);
      }
    }

    /** The recent time falls by what was given back and by a share of the time that has passed, down to nothing. */
    method UpdateRecentTime(now: int)
      requires 0.0 <= burstDecRate
      modifies this`recentTime, this`servingTimeDiff, this`lastUpdate
      ensures Passes(old(recentTime), old(servingTimeDiff), now - old(lastUpdate), burstDecRate, recentTime)
      ensures servingTimeDiff == 0 && lastUpdate == now && recentTime <= old(recentTime)
    {
      var subTime := servingTimeDiff;
      servingTimeDiff := 0;
      var dt := now - lastUpdate;
      lastUpdate := now;
      if dt > 0 {
        subTime := subTime + Decay(dt, burstDecRate);
      }
      if recentTime > subTime {
        recentTime := recentTime - subTime;
      } else {
        recentTime := 0;
      }
    }

    method Push(task: Task)
      requires Heap.IsHeap(queue, Higher)
      modifies this`queue
      ensures Heap.IsHeap(queue, Higher) && multiset(queue) == multiset(old(queue)) + multiset{task}
      ensures Sum(queue) == Sum(old(queue)) + task.expTime
    {
      Orders(p => Buffer(0, 0));
      ghost var q := queue;
      queue := Heap.Push(queue, Higher, task);
      SumAdds(q, task, queue);
    }

    /** Takes a task with the highest priority from the queue, if there is one. */
    method PopBest()
      requires Heap.IsHeap(queue, Higher) && queuedTime == Sum(queue)
      modifies this`queue, this`best
      ensures Ranked() && multiset(All()) == multiset(old(queue))
    {
      Orders(p => Buffer(0, 0));
      if queue == [] {
        best := None;
      } else {
        ghost var q := queue;
        forall t | t in queue ensures t.priority <= queue[0].priority {
          var k: nat :| k < |queue| && queue[k] == t;
          Heap.RootIsLeast(queue, Higher, k);
        }
        var task;
        task, queue := Heap.Pop(queue, Higher);
        best := Some(task);
        forall t | t in queue ensures t in q {
          assert t in multiset(queue) && t in multiset(q);
        }
        SumPermuted(q, All());
      }
    }

    /** Puts `best` back into the queue. */
    method TakeBack()
      requires Ranked()
      modifies this`queue, this`best
      ensures best == None && Heap.IsHeap(queue, Higher) && multiset(queue) == multiset(old(All()))
    {
      if best.Some? {
        Push(best.value);
      }
      best := None;
    }

    /** Freezes the next peer; is the load still too high? */
    method DropOne(order: seq<Peer>, lists: Groups, i: nat, k: nat) returns (drop: bool, k': nat)
      requires Listed(order, lists) && i < |order|
      requires Dropping(order, lists, i, k, true, queue, queuedTime, recentTime, burstDropLimit)
      modifies this`queuedTime, this`frozen
      ensures Dropping(order, lists, i + 1, k', drop, queue, queuedTime, recentTime, burstDropLimit)
      ensures k' == k + 1 == i + 1 && First(order, k') == First(order, k) + {order[i]} && frozen == old(frozen) + {order[i]}
    {
      ghost var t0 := queuedTime;
      CanDrop(order, lists, i, k, queue, queuedTime, recentTime, burstDropLimit);
      k' := k + 1;
      frozen := frozen + {order[i]};
      queuedTime := queuedTime - Sum(lists[order[i]]);
      drop := recentTime + queuedTime > burstDropLimit;
      DropNext(order, lists, i, k, queue, t0, recentTime, burstDropLimit, k', drop, queuedTime);
    }

    method PushAll(tasks: seq<Task>)
      requires Heap.IsHeap(queue, Higher)
      modifies this`queue
      ensures Heap.IsHeap(queue, Higher) && multiset(queue) == multiset(old(queue)) + multiset(tasks)
    {
      for i := 0 to |tasks|
        invariant Heap.IsHeap(queue, Higher) && multiset(queue) == multiset(old(queue)) + multiset(tasks[..i])
      {
        Push(tasks[i]);
        assert tasks[..i + 1] == tasks[..i] + [tasks[i]];
      }
      assert tasks[..|tasks|] == tasks;
    }

    method KeepOne(order: seq<Peer>, lists: Groups, i: nat, ghost k: nat)
      requires Heap.IsHeap(queue, Higher) && Listed(order, lists) && i < |order|
      requires Dropping(order, lists, i, k, false, queue, queuedTime, recentTime, burstDropLimit)
      modifies this`queue
      ensures Heap.IsHeap(queue, Higher)
      ensures Dropping(order, lists, i + 1, k, false, queue, queuedTime, recentTime, burstDropLimit)
    {
      ghost var q0 := queue;
      PushAll(lists[order[i]]);
      KeepNext(order, lists, i, k, q0, queue, queuedTime, recentTime, burstDropLimit);
    }

    method VisitGroups(order: seq<Peer>, lists: Groups) returns (k: nat, drop: bool)
      requires Listed(order, lists) && Dropping(order, lists, 0, 0, true, [], queuedTime, recentTime, burstDropLimit)
      modifies this`queue, this`queuedTime, this`frozen
      ensures Heap.IsHeap(queue, Higher) && k <= |order| && frozen == old(frozen) + First(order, k)
      ensures Dropping(order, lists, |order|, k, drop, queue, queuedTime, recentTime, burstDropLimit)
    {
      queue, k, drop := [], 0, true;
      var i := 0;
      while i < |order|
        invariant Heap.IsHeap(queue, Higher) && k <= i <= |order|
        invariant Dropping(order, lists, i, k, drop, queue, queuedTime, recentTime, burstDropLimit)
        invariant frozen == old(frozen) + First(order, k)
      {
        if drop {
          drop, k := DropOne(order, lists, i, k);
        } else {
          KeepOne(order, lists, i, k);
        }
        i := i + 1;
      }
    }

    /** Goes through the peers: the first ones lose their tasks, the others get them back into the queue. */
    method DropGroups(order: seq<Peer>, lists: Groups, ghost tasks: seq<Task>) returns (k: nat)
      requires Listed(order, lists) && multiset(Tasks(order, lists)) == multiset(tasks) && queuedTime == Sum(tasks)
      modifies this`queue, this`queuedTime, this`frozen
      ensures Heap.IsHeap(queue, Higher) && queuedTime == Sum(queue) && k <= |order| && (order != [] ==> 0 < k)
      ensures multiset(queue) == multiset(Without(tasks, order[..k]))
      ensures forall j :: 0 < j < k ==> burstDropLimit < recentTime + Sum(Without(tasks, order[..j]))
      ensures k < |order| ==> recentTime + queuedTime <= burstDropLimit
      ensures frozen == old(frozen) + First(order, k)
    {
      StartDropping(order, lists, tasks, recentTime, burstDropLimit);
      var drop;
      k, drop := VisitGroups(order, lists);
      EndDropping(order, lists, tasks, k, drop, queue, queuedTime, recentTime, burstDropLimit);
    }

    /** Drops tasks of clients with empty buffers first, until the load is low enough. */
    method FreezePeers(status: Peer -> Buffer) returns (ghost order: seq<Peer>, ghost k: nat)
      requires Ranked()
      modifies this`queue, this`best, this`queuedTime, this`frozen
      ensures Ranked() && DropsPrefix(old(All()), All(), order, k, recentTime, burstDropLimit, status)
      ensures frozen == old(frozen) + First(order, k)
    {
      ghost var tasks := All();
      TakeBack();
      SamePeers(queue, tasks);
      Orders(status);
      var sorted, lists := SortGroups(queue, status);
      order := sorted;
      k := DropGroups(sorted, lists, tasks);
      ghost var left := queue;
      PopBest();
      SumPermuted(left, All());
    }

    /** Files a task by priority. */
    method Insert(task: Task)
      requires Ranked()
      modifies this`queue, this`best, this`queuedTime
      ensures Ranked() && multiset(All()) == multiset(old(All())) + multiset{task}
      ensures queuedTime == old(queuedTime) + task.expTime
    {
      ghost var tasks := All();
      if best == None {
        best := Some(task);
      } else if best.value.priority < task.priority {
        Push(best.value);
        best := Some(task);
      } else {
        Push(task);
      }
      queuedTime := queuedTime + task.expTime;
      SumAdds(tasks, task, All());
      forall t | t in queue ensures t in tasks || t == task {
        assert t in multiset(queue);
      }
    }

    /** A load above the burst limit freezes peers. */
    method Shed(ghost tasks: seq<Task>, status: Peer -> Buffer) returns (ghost order: seq<Peer>, ghost k: nat)
      requires Ranked() && tasks == All() && burstDropLimit <= burstLimit && 0.0 <= burstDecRate && recentTime <= burstLimit
      modifies this`queue, this`best, this`queuedTime, this`frozen
      ensures Valid()
      ensures recentTime + old(queuedTime) <= burstLimit ==> frozen == old(frozen) && All() == tasks
      ensures burstLimit < recentTime + old(queuedTime) ==>
                && DropsPrefix(tasks, All(), order, k, recentTime, burstDropLimit, status)
                && k <= |order| && frozen == old(frozen) + First(order, k)
    {
      order, k := [], 0;
      if recentTime + queuedTime > burstLimit {
        order, k := FreezePeers(status);
        LoadFalls(tasks, All(), order, k, recentTime, burstDropLimit, status);
      }
    }

    method FileTask(task: Task, now: int)
      requires Valid()
      modifies this`queue, this`best, this`queuedTime, this`recentTime, this`servingTimeDiff, this`lastUpdate
      ensures Ranked() && burstDropLimit <= burstLimit && recentTime <= burstLimit
      ensures multiset(All()) == multiset(old(All())) + multiset{task} && queuedTime == old(queuedTime) + task.expTime
      ensures Passes(old(recentTime), old(servingTimeDiff), now - old(lastUpdate), burstDecRate, recentTime)
      ensures servingTimeDiff == 0 && lastUpdate == now
    {
      Insert(task);
      UpdateRecentTime(now);
    }

    /** Adds a task; a load above the burst limit freezes peers. `tasks` are all tasks with the new one. */
    method AddTask(task: Task, now: int, status: Peer -> Buffer)
      returns (ghost tasks: seq<Task>, ghost order: seq<Peer>, ghost k: nat)
      requires Valid()
      modifies this`queue, this`best, this`queuedTime, this`recentTime, this`servingTimeDiff, this`lastUpdate, this`frozen
      ensures Valid() && multiset(tasks) == multiset(old(All())) + multiset{task}
      ensures Passes(old(recentTime), old(servingTimeDiff), now - old(lastUpdate), burstDecRate, recentTime)
      ensures recentTime + old(queuedTime) + task.expTime <= burstLimit ==> frozen == old(frozen) && All() == tasks
      ensures burstLimit < recentTime + old(queuedTime) + task.expTime ==>
                && DropsPrefix(tasks, All(), order, k, recentTime, burstDropLimit, status)
                && k <= |order| && frozen == old(frozen) + First(order, k)
      ensures servingTimeDiff == 0 && lastUpdate == now
    {
      FileTask(task, now);
      tasks := All();
      order, k := Shed(tasks, status);
    }

    /** Hands the best task to a serving thread. */
    method Serve(now: int) returns (task: Task)
      requires Valid() && best.Some?
      modifies this`queue, this`best, this`queuedTime, this`recentTime, this`servingTimeDiff, this`lastUpdate
      ensures Valid() && multiset(All()) + multiset{task} == multiset(old(All()))
      ensures forall t :: t in old(All()) ==> t.priority <= task.priority
      ensures task.expTime <= recentTime
      ensures Passes(old(recentTime), old(servingTimeDiff), now - old(lastUpdate), burstDecRate, recentTime - task.expTime)
      ensures servingTimeDiff == 0 && lastUpdate == now && queuedTime == old(queuedTime) - task.expTime
    {
      task := best.value;
      SumJoin(queue, [task]);
      UpdateRecentTime(now);
      queuedTime := queuedTime - task.expTime;
      recentTime := recentTime + task.expTime;
      PopBest();
    }

    /** Over every run of additions and servings the load stays within the burst limit. */
    method Run(steps: seq<Step>)
      requires Valid()
      modifies this
      ensures Valid()
    {
      for i := 0 to |steps|
        invariant Valid()
      {
        match steps[i]
        case Add(task, now, status) =>
          ghost var tasks, order, k;
          tasks, order, k := AddTask(task, now, status);
        case Take(now) =>
          if best.Some? {
            var task := Serve(now);
          }
        case Stop(meter, now) =>
          var stopped := Done(meter, now);
      }
    }
  }
}
