/** Where the processes are: the run list, the queues of sleepers and waiters and the blocked reader, as
    sequences, and what the steps of sys/timer.c, sys/syscall.c and sys/kbd.c do to them. */
module Queues {

  /** The scheduling fields of struct PCB. */
  class Pcb {
    var next: Pcb?
    var prev: Pcb?
    var processID: int
    var parentProcessID: int
    var sleepTimeLeft: nat
    var waitPID: int

    constructor (processID: int, parentProcessID: int)
      ensures next == null && prev == null && this.processID == processID && this.parentProcessID == parentProcessID
    {
      this.processID, this.parentProcessID := processID, parentProcessID;
      next, prev, sleepTimeLeft, waitPID := null, null, 0, -2;
    }
  }

  datatype Queues = Queues(run: seq<Pcb>, sleeping: seq<Pcb>, waiting: seq<Pcb>, blocked: seq<Pcb>, current: Pcb)

  predicate Distinct(s: seq<Pcb>) { forall i, j :: 0 <= i < j < |s| ==> s[i] != s[j] }

  predicate Apart(a: seq<Pcb>, b: seq<Pcb>) { forall i, j :: 0 <= i < |a| && 0 <= j < |b| ==> a[i] != b[j] }

  /** Every process is on one queue, once, and the current process is on the run list. */
  predicate QueuesOk(q: Queues) {
    && Distinct(q.run) && Distinct(q.sleeping) && Distinct(q.waiting) && |q.blocked| <= 1
    && Apart(q.run, q.sleeping) && Apart(q.run, q.waiting) && Apart(q.run, q.blocked)
    && Apart(q.sleeping, q.waiting) && Apart(q.sleeping, q.blocked) && Apart(q.waiting, q.blocked)
    && q.current in q.run
  }

  ghost function Elements(s: seq<Pcb>): set<Pcb> { set p | p in s }

  /** All processes. */
  ghost function Members(q: Queues): set<Pcb> {
    Elements(q.run) + Elements(q.sleeping) + Elements(q.waiting) + Elements(q.blocked)
  }

  function Removed(s: seq<Pcb>, i: nat): (r: seq<Pcb>)
    requires i < |s|
    ensures |r| == |s| - 1
  {
    s[..i] + s[i + 1..]
  }

  /** The next process after position `i`, around the end of the list. */
  function After(s: seq<Pcb>, i: nat): Pcb
    requires i < |s|
  {
    if i + 1 < |s| then s[i + 1] else s[0]
  }

  ghost function Index(s: seq<Pcb>, p: Pcb): (i: nat)
    requires p in s
    ensures i < |s| && s[i] == p
  {
    var i :| 0 <= i < |s| && s[i] == p; i
  }

  lemma IndexIs(s: seq<Pcb>, i: nat)
    requires Distinct(s) && i < |s|
    ensures Index(s, s[i]) == i
  {
  }

  lemma RemovedAt(s: seq<Pcb>, i: nat, k: nat)
    requires i < |s| && k < |s| - 1
    ensures Removed(s, i)[k] == if k < i then s[k] else s[k + 1]
  {
  }

  lemma RemovedDistinct(s: seq<Pcb>, i: nat)
    requires Distinct(s) && i < |s|
    ensures Distinct(Removed(s, i)) && s[i] !in Removed(s, i)
    ensures Elements(Removed(s, i)) == Elements(s) - {s[i]}
    ensures forall p :: p in Removed(s, i) <==> p in s && p != s[i]
  {
    forall p | p in s && p != s[i] ensures p in Removed(s, i) {
      var k :| 0 <= k < |s| && s[k] == p;
      RemovedAt(s, i, if k < i then k else k - 1);
    }
  }

  // ---------- steps ----------

  /** The current process leaves the run list. */
  ghost function Left(q: Queues): Queues
    requires q.current in q.run
  {
    var i := Index(q.run, q.current);
    q.(run := Removed(q.run, i), current := After(q.run, i))
  }

  ghost function Slept(q: Queues): Queues
    requires q.current in q.run
  {
    Left(q).(sleeping := q.sleeping + [q.current])
  }

  ghost function Waited(q: Queues): Queues
    requires q.current in q.run
  {
    Left(q).(waiting := q.waiting + [q.current])
  }

  ghost function Blocked(q: Queues): Queues
    requires q.current in q.run
  {
    Left(q).(blocked := [q.current])
  }

  ghost function Unblocked(q: Queues): Queues { q.(run := q.run + q.blocked, blocked := []) }

  ghost function Spawned(q: Queues, p: Pcb): Queues { q.(run := q.run + [p]) }

  /** A process goes away. */
  ghost function Exited(q: Queues, p: Pcb): Queues
    requires q.current in q.run
  {
    if p == q.current then Left(q)
    else if p in q.run then q.(run := Removed(q.run, Index(q.run, p)))
    else if p in q.sleeping then q.(sleeping := Removed(q.sleeping, Index(q.sleeping, p)))
    else if p in q.waiting then q.(waiting := Removed(q.waiting, Index(q.waiting, p)))
    else q
  }

  predicate BehindHead(s: seq<Pcb>, p: Pcb) { p in s && p != s[0] }

  /** The processes that deleteNode can take out: it writes no head variable. */
  predicate MayExit(q: Queues, p: Pcb) { BehindHead(q.run, p) || BehindHead(q.sleeping, p) || BehindHead(q.waiting, p) }

  /** The end of a time slice. */
  ghost function Switched(q: Queues): Queues
    requires q.current in q.run
  {
    q.(current := After(q.run, Index(q.run, q.current)))
  }

  /** The processes of a queue that are due, and those that are not. */
  function Due(s: seq<Pcb>, due: seq<bool>): seq<Pcb>
    requires |s| == |due|
  {
    if s == [] then []
    else Due(s[..|s| - 1], due[..|s| - 1]) + if due[|s| - 1] then [s[|s| - 1]] else []
  }

  function NotDue(s: seq<Pcb>, due: seq<bool>): seq<Pcb>
    requires |s| == |due|
  {
    if s == [] then []
    else NotDue(s[..|s| - 1], due[..|s| - 1]) + if due[|s| - 1] then [] else [s[|s| - 1]]
  }

  /** The queue's head stays, or nothing does. */
  predicate HeadStays(s: seq<Pcb>, due: seq<bool>)
    requires |s| == |due|
  {
    s == [] || !due[0] || forall k :: 0 <= k < |due| ==> due[k]
  }

  ghost function SleepersWoken(q: Queues, due: seq<bool>): Queues
    requires |due| == |q.sleeping|
  {
    q.(run := q.run + Due(q.sleeping, due), sleeping := NotDue(q.sleeping, due))
  }

  ghost function WaitersWoken(q: Queues, due: seq<bool>): Queues
    requires |due| == |q.waiting|
  {
    q.(run := q.run + Due(q.waiting, due), waiting := NotDue(q.waiting, due))
  }

  /** The waiting parent of a background process runs next. */
  ghost function ParentWoken(q: Queues, p: Pcb): Queues
    requires q.current in q.run && p in q.waiting
  {
    var i := Index(q.run, q.current);
    q.(run := q.run[..i + 1] + [p] + q.run[i + 1..], waiting := Removed(q.waiting, Index(q.waiting, p)), current := p)
  }

  /** What leaving does to the run list, and who runs next: the process behind in the list, or the first. */
  lemma LeaveIs(q: Queues, i: nat)
    requires QueuesOk(q) && |q.run| >= 2 && i < |q.run| && q.run[i] == q.current
    ensures Left(q).current == Switched(q).current == q.run[(i + 1) % |q.run|]
    ensures Left(q).run == q.run[..i] + q.run[i + 1..] && Switched(q).run == q.run
    ensures Slept(q) == Left(q).(sleeping := q.sleeping + [q.current])
    ensures Waited(q) == Left(q).(waiting := q.waiting + [q.current])
    ensures Blocked(q) == Left(q).(blocked := [q.current])
  {
    IndexIs(q.run, i);
  }

  /** A parent that is woken for its turn goes behind the current process and runs. */
  lemma ParentWokenIs(q: Queues, i: nat, p: Pcb)
    requires QueuesOk(q) && i < |q.run| && q.run[i] == q.current && p in q.waiting
    ensures var q' := ParentWoken(q, p);
      && q'.run == q.run[..i + 1] + [p] + q.run[i + 1..] && q'.current == p
      && q'.sleeping == q.sleeping && q'.blocked == q.blocked
      && forall x :: x in q'.waiting <==> x in q.waiting && x != p
  {
    IndexIs(q.run, i);
    RemovedDistinct(q.waiting, Index(q.waiting, p));
  }

  /** A process that exits leaves its list and no other moves; after the current one the next in the list runs. */
  lemma ExitedLists(q: Queues, i: nat, p: Pcb)
    requires QueuesOk(q) && i < |q.run| && q.run[i] == q.current
    ensures var q' := Exited(q, p);
      && (forall x :: x in q'.run <==> x in q.run && x != p) && q'.blocked == q.blocked
      && (forall x :: x in q'.sleeping <==> x in q.sleeping && x != p)
      && (forall x :: x in q'.waiting <==> x in q.waiting && x != p)
      && q'.current == if p == q.current then q.run[(i + 1) % |q.run|] else q.current
  {
    hide QueuesOk, Removed, Distinct;
    OnOneQueue(q, p);
    IndexIs(q.run, i);
    if p in q.run {
      RemovedDistinct(q.run, Index(q.run, p));
    } else if p in q.sleeping {
      RemovedDistinct(q.sleeping, Index(q.sleeping, p));
    } else if p in q.waiting {
      RemovedDistinct(q.waiting, Index(q.waiting, p));
    }
  }

  lemma OnOneQueue(q: Queues, p: Pcb)
    requires QueuesOk(q)
    ensures Distinct(q.run) && Distinct(q.sleeping) && Distinct(q.waiting)
    ensures p in q.run ==> p !in q.sleeping && p !in q.waiting
    ensures p in q.sleeping ==> p !in q.waiting
  {
  }

  // ---------- conservation ----------

  lemma AppendDistinct(a: seq<Pcb>, b: seq<Pcb>)
    requires Distinct(a) && Distinct(b) && Apart(a, b)
    ensures Distinct(a + b) && Elements(a + b) == Elements(a) + Elements(b)
  {
  }

  /** Moving the current process to another queue. */
  lemma LeftKeeps(q: Queues)
    requires QueuesOk(q) && |q.run| >= 2
    ensures QueuesOk(Left(q)) && q.current !in Members(Left(q)) && Members(Left(q)) == Members(q) - {q.current}
  {
    var i := Index(q.run, q.current);
    RemovedDistinct(q.run, i);
    assert After(q.run, i) != q.current;
    forall j | 0 <= j < |Removed(q.run, i)| ensures Removed(q.run, i)[j] in q.run {
      RemovedAt(q.run, i, j);
    }
  }

  lemma SleepKeeps(q: Queues)
    requires QueuesOk(q) && |q.run| >= 2
    ensures QueuesOk(Slept(q)) && Members(Slept(q)) == Members(q)
  {
    LeftKeeps(q);
    hide Left;
    AddedTo(Left(q), q.current);
    AppendDistinct(q.sleeping, [q.current]);
  }

  lemma WaitKeeps(q: Queues)
    requires QueuesOk(q) && |q.run| >= 2
    ensures QueuesOk(Waited(q)) && Members(Waited(q)) == Members(q)
  {
    LeftKeeps(q);
    hide Left;
    AddedTo(Left(q), q.current);
    AppendDistinct(q.waiting, [q.current]);
  }

  lemma BlockKeeps(q: Queues)
    requires QueuesOk(q) && |q.run| >= 2 && q.blocked == []
    ensures QueuesOk(Blocked(q)) && Members(Blocked(q)) == Members(q)
  {
    LeftKeeps(q);
    hide Left;
    AddedTo(Left(q), q.current);
  }

  /** A process outside all queues is apart from each. */
  lemma AddedTo(q: Queues, p: Pcb)
    requires p !in Members(q)
    ensures p !in q.run && p !in q.sleeping && p !in q.waiting && p !in q.blocked
    ensures Apart(q.run, [p]) && Apart(q.sleeping, [p]) && Apart(q.waiting, [p]) && Apart(q.blocked, [p])
    ensures Apart([p], q.waiting) && Apart([p], q.blocked)
  {
  }

  lemma UnblockKeeps(q: Queues)
    requires QueuesOk(q)
    ensures QueuesOk(Unblocked(q)) && Members(Unblocked(q)) == Members(q)
  {
    AppendDistinct(q.run, q.blocked);
  }

  lemma SpawnKeeps(q: Queues, p: Pcb)
    requires QueuesOk(q) && p !in Members(q)
    ensures QueuesOk(Spawned(q, p)) && Members(Spawned(q, p)) == Members(q) + {p}
  {
    AddedTo(q, p);
    AppendDistinct(q.run, [p]);
  }

  lemma ExitKeeps(q: Queues, p: Pcb)
    requires QueuesOk(q) && MayExit(q, p)
    ensures QueuesOk(Exited(q, p)) && Members(Exited(q, p)) == Members(q) - {p}
  {
    if p == q.current {
      LeftKeeps(q);
    } else if p in q.run {
      TakenOut(q.run, p, q.sleeping, q.waiting, q.blocked);
    } else if p in q.sleeping {
      ApartSymmetric(q.run, q.sleeping);
      TakenOut(q.sleeping, p, q.run, q.waiting, q.blocked);
      ApartSymmetric(Removed(q.sleeping, Index(q.sleeping, p)), q.run);
    } else {
      ApartSymmetric(q.run, q.waiting);
      ApartSymmetric(q.sleeping, q.waiting);
      TakenOut(q.waiting, p, q.run, q.sleeping, q.blocked);
      ApartSymmetric(Removed(q.waiting, Index(q.waiting, p)), q.run);
      ApartSymmetric(Removed(q.waiting, Index(q.waiting, p)), q.sleeping);
    }
  }

  /** Taking a process out of one list, seen from three others. */
  lemma TakenOut(s: seq<Pcb>, p: Pcb, a: seq<Pcb>, b: seq<Pcb>, c: seq<Pcb>)
    requires Distinct(s) && p in s && Apart(s, a) && Apart(s, b) && Apart(s, c)
    ensures var r := Removed(s, Index(s, p));
      Distinct(r) && Apart(r, a) && Apart(r, b) && Apart(r, c) && Elements(r) == Elements(s) - {p} &&
        (forall x :: x in r <==> x in s && x != p)
    ensures p !in a && p !in b && p !in c
  {
    var i := Index(s, p);
    RemovedDistinct(s, i);
    forall j | 0 <= j < |s| - 1 ensures Removed(s, i)[j] in s {
      RemovedAt(s, i, j);
    }
  }

  lemma SwitchKeeps(q: Queues)
    requires QueuesOk(q)
    ensures QueuesOk(Switched(q)) && Members(Switched(q)) == Members(q)
  {
  }

  /** The due and the others are a division of the queue. */
  lemma {:induction false} DueDivides(s: seq<Pcb>, due: seq<bool>)
    requires |s| == |due| && Distinct(s)
    ensures Distinct(Due(s, due)) && Distinct(NotDue(s, due)) && Apart(Due(s, due), NotDue(s, due))
    ensures Elements(Due(s, due)) + Elements(NotDue(s, due)) == Elements(s)
    ensures |Due(s, due)| + |NotDue(s, due)| == |s|
  {
    if s != [] {
      var n := |s| - 1;
      var a, b := Due(s[..n], due[..n]), NotDue(s[..n], due[..n]);
      DueDivides(s[..n], due[..n]);
      LastDistinct(s);
      hide Due, NotDue;
      DueLast(s, due);
      OneMoreDivided(s[..n], a, b, s[n]);
    }
  }

  lemma LastDistinct(s: seq<Pcb>)
    requires s != [] && Distinct(s)
    ensures var n := |s| - 1; Distinct(s[..n]) && s[n] !in s[..n] && s == s[..n] + [s[n]]
  {
  }

  lemma DueLast(s: seq<Pcb>, due: seq<bool>)
    requires |s| == |due| && s != []
    ensures var n := |s| - 1; Due(s, due) == Due(s[..n], due[..n]) + if due[n] then [s[n]] else []
    ensures var n := |s| - 1; NotDue(s, due) == NotDue(s[..n], due[..n]) + if due[n] then [] else [s[n]]
  {
  }

  /** Exactly the due ones of a queue join the run list, the others stay. */
  lemma {:induction false} JoinedIff(run: seq<Pcb>, s: seq<Pcb>, due: seq<bool>)
    requires |s| == |due| && Distinct(s) && Apart(run, s)
    ensures forall k :: 0 <= k < |s| ==> (s[k] in run + Due(s, due) <==> due[k])
    ensures forall k :: 0 <= k < |s| ==> (s[k] in NotDue(s, due) <==> !due[k])
  {
    if s != [] {
      var n := |s| - 1;
      JoinedIff(run, s[..n], due[..n]);
      DueWithinFront(s[..n], due[..n], s[n]);
      assert forall k :: 0 <= k < n ==> s[..n][k] == s[k] && due[..n][k] == due[k];
      DueLast(s, due);
    }
  }

  lemma DueWithinFront(s: seq<Pcb>, due: seq<bool>, p: Pcb)
    requires |s| == |due| && Distinct(s) && p !in s
    ensures p !in Due(s, due) && p !in NotDue(s, due)
  {
    DueDivides(s, due);
    assert p !in Elements(s);
    assert forall x :: x in Due(s, due) ==> x in Elements(Due(s, due));
    assert forall x :: x in NotDue(s, due) ==> x in Elements(NotDue(s, due));
  }

  ghost predicate Before(s: seq<Pcb>, p: Pcb, q: Pcb) { exists x, y :: 0 <= x < y < |s| && s[x] == p && s[y] == q }

  lemma BeforeMore(s: seq<Pcb>, more: seq<Pcb>, p: Pcb, q: Pcb)
    ensures Before(s, p, q) ==> Before(s + more, p, q)
    ensures p in s && q in more ==> Before(s + more, p, q)
  {
    if Before(s, p, q) {
      var x, y :| 0 <= x < y < |s| && s[x] == p && s[y] == q;
      assert (s + more)[x] == p && (s + more)[y] == q;
    }
    if p in s && q in more {
      var x, y :| 0 <= x < |s| && s[x] == p && 0 <= y < |more| && more[y] == q;
      assert (s + more)[x] == p && (s + more)[|s| + y] == q;
    }
  }

  /** Both those that join and those that stay keep their order. */
  lemma {:induction false} PassKeepsOrder(s: seq<Pcb>, due: seq<bool>, j: nat, k: nat)
    requires |s| == |due| && Distinct(s) && j < k < |s| && due[j] == due[k]
    ensures Before(if due[k] then Due(s, due) else NotDue(s, due), s[j], s[k])
  {
    var n := |s| - 1;
    DueLast(s, due);
    JoinedIff([], s[..n], due[..n]);
    hide Due, NotDue, Before;
    var a, b := Due(s[..n], due[..n]), NotDue(s[..n], due[..n]);
    BeforeMore(a, if due[n] then [s[n]] else [], s[j], s[k]);
    BeforeMore(b, if due[n] then [] else [s[n]], s[j], s[k]);
    assert s[..n][j] == s[j];
    if k < n {
      PassKeepsOrder(s[..n], due[..n], j, k);
    }
  }

  lemma OneMoreDivided(s: seq<Pcb>, a: seq<Pcb>, b: seq<Pcb>, p: Pcb)
    requires Distinct(a) && Distinct(b) && Apart(a, b) && Elements(a) + Elements(b) == Elements(s) && p !in s
    ensures Distinct(a + [p]) && Distinct(b + [p]) && Apart(a + [p], b) && Apart(a, b + [p])
    ensures Elements(a + [p]) + Elements(b) == Elements(s + [p])
    ensures Elements(a) + Elements(b + [p]) == Elements(s + [p])
  {
    assert p !in Elements(s);
    assert p !in Elements(a) && p !in Elements(b);
    assert p !in a && p !in b;
    AppendDistinct(a, [p]);
    AppendDistinct(b, [p]);
    AppendElements(s, p);
  }

  lemma AppendElements(s: seq<Pcb>, p: Pcb)
    ensures Elements(s + [p]) == Elements(s) + {p}
  {
  }

  lemma ApartFrom(a: seq<Pcb>, b: seq<Pcb>, c: seq<Pcb>)
    requires Apart(a, b) && Elements(c) <= Elements(b)
    ensures Apart(a, c) && Apart(c, a)
  {
    forall i, j | 0 <= i < |a| && 0 <= j < |c| ensures a[i] != c[j] {
      assert c[j] in Elements(c);
      assert c[j] in Elements(b);
    }
    forall i, j | 0 <= i < |c| && 0 <= j < |a| ensures c[i] != a[j] {
      assert c[i] in Elements(c);
      assert c[i] in Elements(b);
    }
  }

  /** What a queue and a division of it have in common. */
  lemma DueApart(s: seq<Pcb>, due: seq<bool>, other: seq<Pcb>)
    requires |s| == |due| && Distinct(s) && Apart(other, s)
    ensures Apart(other, Due(s, due)) && Apart(other, NotDue(s, due))
    ensures Apart(Due(s, due), other) && Apart(NotDue(s, due), other)
  {
    DueDivides(s, due);
    hide Due, NotDue, Distinct;
    ApartFrom(other, s, Due(s, due));
    ApartFrom(other, s, NotDue(s, due));
  }

  lemma ApartSymmetric(a: seq<Pcb>, b: seq<Pcb>)
    requires Apart(a, b)
    ensures Apart(b, a)
  {
  }

  lemma ApartSum(a: seq<Pcb>, b: seq<Pcb>, c: seq<Pcb>)
    requires Apart(a, c) && Apart(b, c)
    ensures Apart(a + b, c)
  {
  }

  lemma WakeSleepersKeeps(q: Queues, due: seq<bool>)
    requires QueuesOk(q) && |due| == |q.sleeping|
    ensures QueuesOk(SleepersWoken(q, due)) && Members(SleepersWoken(q, due)) == Members(q)
  {
    DueDivides(q.sleeping, due);
    DueApart(q.sleeping, due, q.run);
    ApartSymmetric(q.sleeping, q.waiting);
    DueApart(q.sleeping, due, q.waiting);
    ApartSymmetric(q.sleeping, q.blocked);
    DueApart(q.sleeping, due, q.blocked);
    hide Due, NotDue, Distinct, Apart;
    var a, b := Due(q.sleeping, due), NotDue(q.sleeping, due);
    AppendDistinct(q.run, a);
    ApartSum(q.run, a, b);
    ApartSum(q.run, a, q.waiting);
    ApartSum(q.run, a, q.blocked);
  }

  lemma WakeWaitersKeeps(q: Queues, due: seq<bool>)
    requires QueuesOk(q) && |due| == |q.waiting|
    ensures QueuesOk(WaitersWoken(q, due)) && Members(WaitersWoken(q, due)) == Members(q)
  {
    DueDivides(q.waiting, due);
    DueApart(q.waiting, due, q.run);
    DueApart(q.waiting, due, q.sleeping);
    ApartSymmetric(q.waiting, q.blocked);
    DueApart(q.waiting, due, q.blocked);
    hide Due, NotDue, Distinct, Apart;
    var a, b := Due(q.waiting, due), NotDue(q.waiting, due);
    AppendDistinct(q.run, a);
    ApartSum(q.run, a, q.sleeping);
    ApartSum(q.run, a, b);
    ApartSum(q.run, a, q.blocked);
  }

  lemma ParentKeeps(q: Queues, p: Pcb)
    requires QueuesOk(q) && p in q.waiting
    ensures QueuesOk(ParentWoken(q, p)) && Members(ParentWoken(q, p)) == Members(q)
  {
    var i, j := Index(q.run, q.current), Index(q.waiting, p);
    var rest, run := Removed(q.waiting, j), q.run[..i + 1] + [p] + q.run[i + 1..];
    RemovedDistinct(q.waiting, j);
    InsertedDistinct(q.run, i + 1, p);
    ApartWithin(q.run, run, q.waiting, rest, p);
    ApartSame(q.run, run, q.sleeping, p);
    ApartSame(q.run, run, q.blocked, p);
    ApartSymmetric(q.waiting, q.blocked);
    hide Removed, Distinct, Apart;
    ApartFrom(q.sleeping, q.waiting, rest);
    ApartFrom(q.blocked, q.waiting, rest);
    assert p in run;
    assert Elements(run) == Elements(q.run) + {p};
  }

  lemma InsertedDistinct(s: seq<Pcb>, k: nat, p: Pcb)
    requires Distinct(s) && k <= |s| && p !in s
    ensures Distinct(s[..k] + [p] + s[k..])
    ensures forall x :: x in s[..k] + [p] + s[k..] <==> x in s || x == p
  {
    assert s == s[..k] + s[k..];
  }

  lemma ApartWithin(a: seq<Pcb>, a': seq<Pcb>, b: seq<Pcb>, b': seq<Pcb>, p: Pcb)
    requires Apart(a, b) && (forall x :: x in a' <==> x in a || x == p) && forall x :: x in b' <==> x in b && x != p
    ensures Apart(a', b')
  {
    forall i, j | 0 <= i < |a'| && 0 <= j < |b'| ensures a'[i] != b'[j] {
      assert a'[i] in a' && b'[j] in b';
    }
  }

  lemma ApartSame(a: seq<Pcb>, a': seq<Pcb>, b: seq<Pcb>, p: Pcb)
    requires Apart(a, b) && (forall x :: x in a' <==> x in a || x == p) && p !in b
    ensures Apart(a', b)
  {
    forall i, j | 0 <= i < |a'| && 0 <= j < |b| ensures a'[i] != b[j] {
      assert a'[i] in a' && b[j] in b;
    }
  }

  // ---------- whose turn it is ----------

  /** How many switches until it is p's turn. */
  ghost function Distance(q: Queues, p: Pcb): (d: nat)
    requires q.current in q.run && p in q.run
    ensures d < |q.run|
  {
    var i, j := Index(q.run, q.current), Index(q.run, p);
    if j < i then j - i + |q.run| else j - i
  }

  lemma DistanceIs(q: Queues, i: nat, j: nat)
    requires Distinct(q.run) && i < |q.run| && j < |q.run| && q.current == q.run[i]
    ensures Distance(q, q.run[j]) == if j < i then j - i + |q.run| else j - i
  {
    IndexIs(q.run, i);
    IndexIs(q.run, j);
  }

  /** A time slice brings every other process one switch closer to its turn. */
  lemma SwitchApproaches(q: Queues, p: Pcb)
    requires QueuesOk(q) && p in q.run && p != q.current
    ensures Distance(Switched(q), p) == Distance(q, p) - 1
  {
    hide Distance;
    var i, j := Index(q.run, q.current), Index(q.run, p);
    DistanceIs(q, i, j);
    DistanceIs(Switched(q), if i + 1 < |q.run| then i + 1 else 0, j);
  }

  /** So does a current process that sleeps, waits, blocks or exits. */
  lemma LeaveApproaches(q: Queues, p: Pcb)
    requires QueuesOk(q) && |q.run| >= 2 && p in q.run && p != q.current
    ensures p in Left(q).run && Left(q).current in Left(q).run
    ensures Distance(Left(q), p) == Distance(q, p) - 1
  {
    hide Distance;
    var i, j := Index(q.run, q.current), Index(q.run, p);
    var n, q' := |q.run|, Left(q);
    var i', j' := if i + 1 < n then i else 0, if j < i then j else j - 1;
    RemovedDistinct(q.run, i);
    RemovedAt(q.run, i, i');
    RemovedAt(q.run, i, j');
    DistanceIs(q, i, j);
    DistanceIs(q', i', j');
  }

  /** Processes that join at the tail do not pass those that are already between p and its turn. */
  lemma ArrivalsJoinBehind(q: Queues, q': Queues, more: seq<Pcb>, p: Pcb)
    requires QueuesOk(q) && Distinct(q.run + more) && q'.run == q.run + more && q'.current == q.current && p in q.run
    ensures p in q'.run && q'.current in q'.run
    ensures Distance(q', p) == Distance(q, p) + if Index(q.run, p) < Index(q.run, q.current) then |more| else 0
  {
    hide Distance;
    var i, j := Index(q.run, q.current), Index(q.run, p);
    assert q'.run[i] == q.current && q'.run[j] == p;
    DistanceIs(q, i, j);
    DistanceIs(q', i, j);
  }

  /** The queues after k time slices without arrivals. */
  ghost function Slices(q: Queues, k: nat): Queues
    requires q.current in q.run
    decreases k
  {
    if k == 0 then q
    else
      var i := Index(q.run, q.current);
      Slices(q.(current := After(q.run, i)), k - 1)
  }

  /** Position `a`, counted around the end of a list of n. */
  function Around(a: nat, n: nat): int { if a < n then a else a - n }

  /** Slice k runs the process k places on. */
  lemma {:induction false} SlicesAt(q: Queues, i: nat, k: nat)
    requires Distinct(q.run) && i < |q.run| && q.current == q.run[i] && k <= |q.run|
    ensures Around(i + k, |q.run|) < |q.run|
    ensures Slices(q, k) == q.(current := q.run[Around(i + k, |q.run|)])
    decreases k
  {
    if k > 0 {
      IndexIs(q.run, i);
      var i' := Around(i + 1, |q.run|);
      SlicesAt(q.(current := q.run[i']), i', k - 1);
    }
  }

  /** A process runs after exactly as many slices as its distance. */
  lemma TurnComes(q: Queues, p: Pcb)
    requires QueuesOk(q) && p in q.run
    ensures Slices(q, Distance(q, p)).current == p
  {
    SlicesAt(q, Index(q.run, q.current), Distance(q, p));
  }

  lemma SlicesDiffer(q: Queues, a: nat, b: nat)
    requires QueuesOk(q) && a < b < |q.run|
    ensures Slices(q, a).current != Slices(q, b).current
  {
    SlicesAt(q, Index(q.run, q.current), a);
    SlicesAt(q, Index(q.run, q.current), b);
  }

  /** p runs in slice k. */
  ghost predicate RunsIn(q: Queues, p: Pcb, k: nat)
    requires q.current in q.run
  {
    k < |q.run| && Slices(q, k).current == p
  }

  /** n slices over n processes run each of them exactly once and come back to the first. */
  lemma RoundRobin(q: Queues)
    requires QueuesOk(q)
    ensures Slices(q, |q.run|) == q
    ensures forall p :: p in q.run ==> RunsIn(q, p, Distance(q, p))
    ensures forall p, k: nat :: p in q.run && RunsIn(q, p, k) ==> k == Distance(q, p)
  {
    SlicesAt(q, Index(q.run, q.current), |q.run|);
    forall p | p in q.run ensures RunsIn(q, p, Distance(q, p)) {
      TurnComes(q, p);
    }
    forall p, k: nat | p in q.run && RunsIn(q, p, k) ensures k == Distance(q, p) {
      TurnComes(q, p);
      if k < Distance(q, p) {
        SlicesDiffer(q, k, Distance(q, p));
      } else if Distance(q, p) < k {
        SlicesDiffer(q, Distance(q, p), k);
      }
    }
  }

  /** A switch: the slice ends, or the current process leaves the run list. */
  ghost predicate IsSwitch(q: Queues, q': Queues)
    requires QueuesOk(q)
  {
    QueuesOk(q') && (q' == Switched(q) || (|q.run| >= 2 && q'.run == Left(q).run && q'.current == Left(q).current))
  }

  /** Whatever the switches are, a runnable process gets its turn after as many as its distance. */
  lemma {:induction false} TurnAfterSwitches(qs: seq<Queues>, p: Pcb, i: nat)
    requires i < |qs| && (forall k :: 0 <= k < |qs| ==> QueuesOk(qs[k])) && QueuesOk(qs[0]) && p in qs[0].run
    requires forall k :: 0 <= k < |qs| - 1 ==> IsSwitch(qs[k], qs[k + 1])
    requires i <= Distance(qs[0], p)
    ensures qs[i].current in qs[i].run && p in qs[i].run
    ensures Distance(qs[i], p) == Distance(qs[0], p) - i
    ensures i == Distance(qs[0], p) ==> qs[i].current == p
  {
    if i > 0 {
      TurnAfterSwitches(qs, p, i - 1);
      var k := i - 1;
      assert IsSwitch(qs[k], qs[k + 1]);
      hide QueuesOk;
      Approaches(qs[k], qs[k + 1], p);
    }
  }

  lemma Approaches(q: Queues, q': Queues, p: Pcb)
    requires QueuesOk(q) && IsSwitch(q, q') && p in q.run
    ensures p != q.current ==> p in q'.run && Distance(q', p) == Distance(q, p) - 1
    ensures p == q.current <==> Distance(q, p) == 0
  {
    if p != q.current {
      if q' == Switched(q) {
        SwitchApproaches(q, p);
      } else {
        LeaveApproaches(q, p);
      }
    }
  }

  // ---------- runs ----------

  datatype Step = Sleep | Wait | Block | Unblock | Spawn(p: Pcb) | Exit(p: Pcb) | Slice
    | WakeSleepers(due: seq<bool>) | WakeWaiters(due: seq<bool>) | WakeParent(p: Pcb)

  /** The steps after which the code's lists are in order: a pass that wakes the head of a queue wakes all of
      it, no head exits, and the current process leaves company behind. */
  ghost predicate CanDo(q: Queues, step: Step) {
    match step
    case Sleep | Wait => |q.run| >= 2
    case Block => |q.run| >= 2 && q.blocked == []
    case Unblock | Slice => true
    case Spawn(p) => p !in Members(q)
    case Exit(p) => MayExit(q, p)
    case WakeSleepers(due) => |due| == |q.sleeping| && HeadStays(q.sleeping, due)
    case WakeWaiters(due) => |due| == |q.waiting| && HeadStays(q.waiting, due)
    case WakeParent(p) => p in q.waiting
  }

  ghost function Do(q: Queues, step: Step): Queues
    requires QueuesOk(q) && CanDo(q, step)
  {
    match step
    case Sleep => Slept(q)
    case Wait => Waited(q)
    case Block => Blocked(q)
    case Unblock => Unblocked(q)
    case Spawn(p) => Spawned(q, p)
    case Exit(p) => Exited(q, p)
    case Slice => Switched(q)
    case WakeSleepers(due) => SleepersWoken(q, due)
    case WakeWaiters(due) => WaitersWoken(q, due)
    case WakeParent(p) => ParentWoken(q, p)
  }

  /** The processes alive after some steps: those that were spawned and have not exited since. */
  ghost function Alive(first: set<Pcb>, steps: seq<Step>): set<Pcb> {
    if steps == [] then first
    else
      var before := Alive(first, steps[..|steps| - 1]);
      match steps[|steps| - 1]
      case Spawn(p) => before + {p}
      case Exit(p) => before - {p}
      case _ => before
  }

  lemma StepConserves(q: Queues, step: Step)
    requires QueuesOk(q) && CanDo(q, step)
    ensures QueuesOk(Do(q, step))
    ensures Members(Do(q, step)) ==
      match step case Spawn(p) => Members(q) + {p} case Exit(p) => Members(q) - {p} case _ => Members(q)
  {
    match step
    case Sleep => SleepKeeps(q);
    case Wait => WaitKeeps(q);
    case Block => BlockKeeps(q);
    case Unblock => UnblockKeeps(q);
    case Spawn(p) => SpawnKeeps(q, p);
    case Exit(p) => ExitKeeps(q, p);
    case Slice => SwitchKeeps(q);
    case WakeSleepers(due) => WakeSleepersKeeps(q, due);
    case WakeWaiters(due) => WakeWaitersKeeps(q, due);
    case WakeParent(p) => ParentKeeps(q, p);
  }

  ghost predicate IsRun(qs: seq<Queues>, steps: seq<Step>) {
    && |qs| == |steps| + 1 && QueuesOk(qs[0])
    && forall i :: 0 <= i < |steps| ==> Follows(qs[i], steps[i], qs[i + 1])
  }

  ghost predicate Follows(q: Queues, step: Step, q': Queues) {
    QueuesOk(q) ==> CanDo(q, step) && q' == Do(q, step)
  }

  /** Over any steps every process that is alive is on exactly one queue, and nothing else is. */
  lemma {:induction false} Conservation(qs: seq<Queues>, steps: seq<Step>)
    requires IsRun(qs, steps)
    ensures QueuesOk(qs[|steps|]) && Members(qs[|steps|]) == Alive(Members(qs[0]), steps)
  {
    if steps != [] {
      var n := |steps| - 1;
      var qs', steps' := qs[..n + 1], steps[..n];
      Conservation(qs', steps');
      assert Follows(qs[n], steps[n], qs[n + 1]);
      hide QueuesOk, Members, Do, CanDo;
      StepConserves(qs[n], steps[n]);
    }
  }
}
