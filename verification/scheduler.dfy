/** The linked queues of the scheduler and the code that moves processes between them: sys/timer.c,
    sleepPlease, waitPlease, deleteNode, sys_exit and the blocking read of sys/syscall.c, and the
    wake-up of sys/kbd.c. */
module Scheduling {
  import opened Limits
  import opened Queues

  const TICKS: nat := 240

  ghost predicate NodeOk(s: seq<Pcb>, i: nat)
    requires i < |s|
    reads s
  {
    && s[i].next == (if i + 1 < |s| then s[i + 1] else null)
    && s[i].prev == (if i > 0 then s[i - 1] else null)
  }

  ghost predicate Chained(s: seq<Pcb>)
    reads s
  {
    forall i :: 0 <= i < |s| ==> NodeOk(s, i)
  }

  function HeadOf(s: seq<Pcb>): Pcb? { if s == [] then null else s[0] }

  /** The list that starts at `head` and follows next is `s`, and prev runs backwards along it. */
  ghost predicate Listed(head: Pcb?, s: seq<Pcb>)
    reads s
  {
    head == HeadOf(s) && Chained(s)
  }

  /** The last node of a list. */
  method Last(head: Pcb, ghost s: seq<Pcb>) returns (tail: Pcb)
    requires Listed(head, s)
    ensures s != [] && tail == s[|s| - 1]
  {
    tail := head;
    ghost var i := 0;
    while tail.next != null
      invariant 0 <= i < |s| && tail == s[i]
      decreases |s| - i
    {
      assert NodeOk(s, i);
      tail := tail.next;
      i := i + 1;
    }
    assert NodeOk(s, i);
  }

  /** Neighbours close the gap; the node's own links stay. */
  method Unlink(node: Pcb, ghost s: seq<Pcb>, ghost i: nat)
    requires Distinct(s) && Chained(s) && i < |s| && s[i] == node
    modifies s`next, s`prev
    ensures node.next == old(node.next) && node.prev == old(node.prev)
    ensures Chained(Removed(s, i)) && Bypassed(node, Removed(s, i))
  {
    assert NodeOk(s, i);
    assert i + 1 < |s| ==> Removed(s, i)[i] == s[i + 1];
    if node.next != null {
      node.next.prev := node.prev;
    }
    if node.prev != null {
      node.prev.next := node.next;
    }
    forall k | 0 <= k < |s| - 1 ensures NodeOk(Removed(s, i), k) {
      assert old(NodeOk(s, if k < i then k else k + 1));
      RemovedAt(s, i, k);
      if k > 0 { RemovedAt(s, i, k - 1); }
      if k + 1 < |s| - 1 { RemovedAt(s, i, k + 1); }
    }
  }

  /** The node becomes the last one. */
  method Append(tail: Pcb, node: Pcb, ghost s: seq<Pcb>)
    requires Distinct(s) && Chained(s) && s != [] && tail == s[|s| - 1] && node !in s
    modifies tail`next, node`next, node`prev
    ensures Chained(s + [node])
  {
    tail.next := node;
    node.prev := tail;
    node.next := null;
    forall k | 0 <= k < |s + [node]| ensures NodeOk(s + [node], k) {
      if k < |s| {
        assert old(NodeOk(s, k));
      }
    }
  }

  class Scheduler {
    var pcbHead: Pcb?
    var sleepHead: Pcb?
    var waitHead: Pcb?
    var blockHead: Pcb?
    var current: Pcb
    var ticks: nat
    ghost var run: seq<Pcb>
    ghost var sleeping: seq<Pcb>
    ghost var waiting: seq<Pcb>

    ghost function Q(): Queues
      reads this
    {
      Queues(run, sleeping, waiting, if blockHead == null then [] else [blockHead], current)
    }

    ghost predicate Valid()
      reads this, run, sleeping, waiting, blockHead
    {
      && QueuesOk(Q())
      && Listed(pcbHead, run) && Listed(sleepHead, sleeping) && Listed(waitHead, waiting)
      && (blockHead != null ==> blockHead.next == null && blockHead.prev == null)
    }

    /** Everything but the variable for the head of the sleep list is in order. */
    ghost predicate ButSleepHead()
      reads this, run, sleeping, waiting, blockHead
    {
      && QueuesOk(Q())
      && Listed(pcbHead, run) && Chained(sleeping) && Listed(waitHead, waiting)
      && (blockHead != null ==> blockHead.next == null && blockHead.prev == null)
    }

    /** The variable for the head of the wait list names a process that a pass has moved to the run list. */
    ghost predicate WaitHeadLost()
      reads this
    {
      waiting != [] && waitHead != null && BehindHead(run, waitHead)
    }

    /** The lists are in order, or all but that variable. */
    ghost predicate ReadyForExit()
      reads this, run, sleeping, waiting, blockHead
    {
      && QueuesOk(Q())
      && Listed(pcbHead, run) && Listed(sleepHead, sleeping) && Chained(waiting)
      && (blockHead != null ==> blockHead.next == null && blockHead.prev == null)
      && (waitHead == HeadOf(waiting) || WaitHeadLost())
    }

    /** Only the idle process runs. */
    constructor (idle: Pcb)
      requires idle.next == null && idle.prev == null
      ensures Valid() && run == [idle] && current == idle && sleeping == [] && waiting == [] && blockHead == null
    {
      pcbHead, sleepHead, waitHead, blockHead, current, ticks := idle, null, null, null, idle, 0;
      run, sleeping, waiting := [idle], [], [];
    }

    /** The current process is taken off the run list; the result is the one that runs next. */
    method LeaveRun() returns (next: Pcb)
      requires Distinct(run) && current in run && |run| >= 2 && Listed(pcbHead, run)
      modifies this`pcbHead, this`run, run`next, run`prev
      ensures run == Left(old(Q())).run && next == Left(old(Q())).current
      ensures Listed(pcbHead, run)
    {
      ghost var i := Index(run, current);
      IndexIs(run, i);
      HeadAfter(run, i);
      hide Distinct, Removed;
      assert NodeOk(run, i);
      if current == pcbHead && current.next != null {
        pcbHead := current.next;
      }
      next := if current.next == null then pcbHead else current.next;
      Unlink(current, run, i);
      run := Removed(run, i);
    }

    /** A process goes to the end of the sleep list. */
    method JoinSleepers(p: Pcb, time: nat)
      requires Listed(sleepHead, sleeping) && Distinct(sleeping) && p !in sleeping
      modifies this`sleepHead, this`sleeping, sleeping`next, p`sleepTimeLeft, p`next, p`prev
      ensures Listed(sleepHead, sleeping) && sleeping == old(sleeping) + [p] && p.sleepTimeLeft == time
    {
      hide Distinct, Listed;
      p.sleepTimeLeft := time;
      assert Listed(sleepHead, sleeping);
      sleepHead := PutLast(sleepHead, p, sleeping);
      sleeping := sleeping + [p];
    }

    /** sleepPlease. */
    method SleepPlease(time: nat)
      requires Valid() && |run| >= 2
      modifies this, run, sleeping
      ensures Valid() && Q() == Slept(old(Q())) && old(current).sleepTimeLeft == time
      ensures Follows(old(Q()), Sleep, Q())
    {
      hide QueuesOk, Distinct, Apart, Listed, Left, Members;
      ghost var q := Q();
      SleepKeeps(q);
      LeftApart(q);
      assert blockHead != null ==> q.blocked[0] == blockHead;
      var cur := current;
      var next := LeaveRun();
      assert Listed(sleepHead, sleeping) && Listed(waitHead, waiting);
      JoinSleepers(cur, time);
      assert Listed(waitHead, waiting) && Listed(pcbHead, run);
      current := next;
    }

    /** Is there a process with this id, or with this parent, on a list? */
    method Search(head: Pcb?, ghost s: seq<Pcb>, pid: int, asParent: bool) returns (found: bool)
      requires Listed(head, s)
      ensures found == Has(s, pid, asParent)
    {
      var temp := head;
      ghost var i := 0;
      while temp != null
        invariant 0 <= i <= |s| && temp == (if i < |s| then s[i] else null)
        invariant forall k :: 0 <= k < i ==> (if asParent then s[k].parentProcessID else s[k].processID) != pid
        decreases |s| - i
      {
        assert NodeOk(s, i);
        if (if asParent then temp.parentProcessID else temp.processID) == pid {
          return true;
        }
        temp := temp.next;
        i := i + 1;
      }
      return false;
    }

    /** The process, or for -1 a child of the current one, that waitPlease looks for on all lists. */
    ghost predicate CanWaitFor(pid: int)
      reads this, run, sleeping, waiting, blockHead, current
    {
      var id, asParent := if pid == -1 then current.processID else pid, pid == -1;
      Has(run, id, asParent) || Has(sleeping, id, asParent) || Has(waiting, id, asParent) ||
        Has(Q().blocked, id, asParent)
    }

    /** A list walk over all four lists. */
    method SearchAll(id: int, asParent: bool) returns (found: bool)
      requires Valid()
      ensures found == (Has(run, id, asParent) || Has(sleeping, id, asParent) || Has(waiting, id, asParent) ||
        Has(Q().blocked, id, asParent))
    {
      hide QueuesOk, Has;
      found := Search(waitHead, waiting, id, asParent);
      if !found {
        found := Search(sleepHead, sleeping, id, asParent);
      }
      if !found {
        found := Search(pcbHead, run, id, asParent);
      }
      if !found {
        found := Search(blockHead, Q().blocked, id, asParent);
      }
    }

    /** waitPlease. */
    method WaitPlease(pid: int) returns (waits: bool)
      requires Valid() && |run| >= 2
      modifies this, run, waiting
      ensures Valid() && waits == old(current.processID != pid && CanWaitFor(pid))
      ensures Q() == if waits then Waited(old(Q())) else old(Q())
      ensures var all, id := old(Members(Q())), old(current.processID);
        && (pid != -1 ==> (waits <==> id != pid && exists p :: p in all && old(p.processID) == pid))
        && (pid == -1 ==> (waits <==> id != pid && exists p :: p in all && old(p.parentProcessID) == id))
      ensures waits ==> old(current).waitPID == pid && Follows(old(Q()), Wait, Q())
    {
      SomeOneWaitedFor(this, pid);
      if current.processID == pid {
        return false;
      }
      var id, asParent := if pid == -1 then current.processID else pid, pid == -1;
      waits := SearchAll(id, asParent);
      if waits {
        StartWaiting(pid);
      }
    }

    /** A process goes to the end of the wait list. */
    method JoinWaiters(p: Pcb, pid: int)
      requires Listed(waitHead, waiting) && Distinct(waiting) && p !in waiting
      modifies this`waitHead, this`waiting, waiting`next, p`waitPID, p`next, p`prev
      ensures Listed(waitHead, waiting) && waiting == old(waiting) + [p] && p.waitPID == pid
    {
      hide Distinct, Listed;
      p.waitPID := pid;
      assert Listed(waitHead, waiting);
      waitHead := PutLast(waitHead, p, waiting);
      waiting := waiting + [p];
    }

    /** The queue movement of waitPlease. */
    method StartWaiting(pid: int)
      requires Valid() && |run| >= 2
      modifies this, run, waiting
      ensures Valid() && Q() == Waited(old(Q())) && old(current).waitPID == pid
    {
      hide QueuesOk, Distinct, Apart, Listed, Left, Members;
      ghost var q := Q();
      WaitKeeps(q);
      LeftApart(q);
      assert blockHead != null ==> q.blocked[0] == blockHead;
      var cur := current;
      var next := LeaveRun();
      assert Listed(sleepHead, sleeping) && Listed(waitHead, waiting);
      JoinWaiters(cur, pid);
      assert Listed(sleepHead, sleeping) && Listed(pcbHead, run);
      current := next;
    }

    /** The part of sys_read that blocks the reader of the keyboard. When somebody is blocked already the source
        prints a message and goes on: the lists stay in order, but the process is on none of them. */
    method BlockReader()
      requires Valid() && |run| >= 2
      modifies this`pcbHead, this`blockHead, this`current, this`run, run, blockHead
      ensures Valid()
      ensures old(blockHead) == null ==> Q() == Blocked(old(Q())) && Follows(old(Q()), Block, Q())
      ensures old(blockHead) != null ==> Q() == Left(old(Q())) && old(current) !in Members(Q())
    {
      hide QueuesOk, Distinct, Apart, Left, Members, Listed;
      ghost var q := Q();
      LeftKeeps(q);
      LeftApart(q);
      if blockHead == null {
        BlockKeeps(q);
      }
      assert blockHead != null ==> q.blocked[0] == blockHead;
      var cur := current;
      var next := LeaveRun();
      assert Listed(sleepHead, sleeping) && Listed(waitHead, waiting);
      current := next;
      if blockHead == null {
        blockHead := cur;
      }
      blockHead.next := null;
      blockHead.prev := null;
      assert Listed(sleepHead, sleeping) && Listed(waitHead, waiting) && Listed(pcbHead, run);
    }

    /** The wake-up of keyboard_handler. */
    method WakeReader()
      requires Valid()
      modifies this`pcbHead, this`blockHead, this`run, run, blockHead
      ensures Valid() && Q() == Unblocked(old(Q())) && Follows(old(Q()), Unblock, Q())
      ensures blockHead == null && run == if old(blockHead) == null then old(run) else old(run) + [old(blockHead)]
    {
      hide QueuesOk, Distinct, Apart, Members, Listed;
      ghost var q := Q();
      UnblockKeeps(q);
      if blockHead != null {
        AllApart(q);
        assert q.blocked[0] == blockHead;
        HeadNotNull(pcbHead, run, current);
        var node := blockHead;
        pcbHead := PutLast(pcbHead, node, run);
        assert Listed(sleepHead, sleeping) && Listed(waitHead, waiting);
        run := run + [node];
        blockHead := null;
      } else {
        assert q.run + q.blocked == q.run;
      }
    }

    /** A new process joins the run list. */
    method Spawn(p: Pcb)
      requires Valid() && p !in Members(Q())
      modifies this`run, this`pcbHead, run, p
      ensures Valid() && Q() == Spawned(old(Q()), p) && Follows(old(Q()), Step.Spawn(p), Q())
      ensures run == old(run) + [p] && current == old(current)
    {
      hide QueuesOk, Distinct, Apart, Listed;
      ghost var q := Q();
      SpawnKeeps(q, p);
      AddedTo(q, p);
      AllApart(q);
      assert blockHead != null ==> q.blocked[0] == blockHead;
      HeadNotNull(pcbHead, run, current);
      pcbHead := PutLast(pcbHead, p, run);
      assert Listed(sleepHead, sleeping) && Listed(waitHead, waiting);
      run := run + [p];
    }

    /** The end of a time slice in timer_handler. */
    method NextSlice()
      requires ButSleepHead()
      modifies this`current
      ensures ButSleepHead() && Q() == Switched(old(Q())) && Follows(old(Q()), Slice, Q())
    {
      ghost var i := Index(run, current);
      assert NodeOk(run, i);
      if current.next == null {
        current := pcbHead;
      } else {
        current := current.next;
      }
    }

    /** deleteNode on all four lists. Its assignments to a list's head are local: the lists are in order
        afterwards exactly when they were before and the process was not the head of its list. A blocked process
        stays in its slot, and so does a waiting one in its queue when the head of that is lost. */
    method DeleteNode(node: Pcb)
      requires ReadyForExit() && node in Members(Q())
      modifies this`current, this`run, this`sleeping, this`waiting
      modifies run`next, run`prev, sleeping`next, sleeping`prev, waiting`next, waiting`prev
      ensures Q() == if old(Valid()) || node !in old(waiting) then Exited(old(Q()), node) else old(Q())
      ensures Valid() <==> old(Valid() && (MayExit(Q(), node) || node == blockHead))
      ensures old(Valid() && MayExit(Q(), node)) ==> Follows(old(Q()), Exit(node), Q())
    {
      hide QueuesOk, Distinct, Apart, Members, Listed, Removed, MayExit, Left, Chained, ListLeft, Exited, BehindHead;
      ghost var q, lost := Q(), waitHead != HeadOf(waiting);
      AllApart(q);
      ListedIs(waitHead, waiting);
      NextRun(pcbHead, run, current);
      ExitedIs(q, node);
      if node == current {
        // the same check of the other three calls changes nothing: the process is no longer current, or alone
        current := if current.next != null then current.next else pcbHead;
      }
      assert blockHead != null ==> q.blocked[0] == blockHead;
      DeleteLinks(node, q);
      TakeOut(node, q, lost);
    }

    /** The queues without the process: what it means for the order of the lists. */
    ghost method TakeOut(node: Pcb, q: Queues, lost: bool)
      requires QueuesOk(q) && node in Members(q) && Q() == q.(current := Exited(q, node).current)
      requires ListLeft(pcbHead, q.run, node) && ListLeft(sleepHead, q.sleeping, node)
      requires if lost then waitHead != HeadOf(q.waiting) else ListLeft(waitHead, q.waiting, node)
      requires blockHead != null ==> blockHead.next == null && blockHead.prev == null
      modifies this`run, this`sleeping, this`waiting
      ensures Q() == if !lost || node !in q.waiting then Exited(q, node) else q
      ensures Valid() <==> !lost && (MayExit(q, node) || node in q.blocked)
      ensures MayExit(q, node) ==> node !in q.blocked && Follows(q, Exit(node), Exited(q, node))
    {
      hide QueuesOk, Members, Listed, Removed, MayExit, Chained, ListLeft, Exited, Follows;
      ExitCases(q, node);
      ExitedIs(q, node);
      if node in run {
        run := Removed(run, Index(run, node));
      } else if node in sleeping {
        sleeping := Removed(sleeping, Index(sleeping, node));
      } else if node in waiting && !lost {
        waiting := Removed(waiting, Index(waiting, node));
      }
      ExitOrder(this, q, node, lost);
    }

    /** The list walks. The one along the block list changes nothing: a node there has no neighbours. The one along
        the wait list goes along the end of the run list when its head is lost, and changes nothing either. */
    method DeleteLinks(node: Pcb, ghost q: Queues)
      requires run == q.run && sleeping == q.sleeping && waiting == q.waiting && QueuesOk(q)
      requires Listed(pcbHead, run) && Listed(sleepHead, sleeping) && Chained(waiting)
      requires waitHead == HeadOf(waiting) || WaitHeadLost()
      modifies run`next, run`prev, sleeping`next, sleeping`prev, waiting`next, waiting`prev
      ensures ListLeft(pcbHead, run, node) && ListLeft(sleepHead, sleeping, node)
      ensures waitHead == HeadOf(waiting) ==> ListLeft(waitHead, waiting, node)
    {
      hide QueuesOk, Distinct, Apart, Listed, Removed, Chained, ListLeft, BehindHead, Bypassed;
      AllApart(q);
      LeftWithin(run, node, waitHead);
      ghost var lost, left := waitHead != HeadOf(waiting), Without(run, node);
      DeleteRunning(node, q);
      assert Chained(waiting);
      LeftIs(pcbHead, run, node);
      DeleteFrom(waitHead, node, if lost then left else waiting, lost);
      assert ListLeft(sleepHead, sleeping, node);
      LeftIs(pcbHead, run, node);
    }

    /** The walks along the run list and the sleep list. */
    method DeleteRunning(node: Pcb, ghost q: Queues)
      requires run == q.run && sleeping == q.sleeping && waiting == q.waiting && QueuesOk(q)
      requires Listed(pcbHead, run) && Listed(sleepHead, sleeping)
      modifies run`next, run`prev, sleeping`next, sleeping`prev
      ensures ListLeft(pcbHead, run, node) && ListLeft(sleepHead, sleeping, node)
      ensures node in run ==> Bypassed(node, Without(run, node))
    {
      hide QueuesOk, Distinct, Apart, Listed, Removed, Chained, ListLeft, Bypassed;
      AllApart(q);
      ListedIs(pcbHead, run);
      LeftWithin(run, node, null);
      DeleteFrom(pcbHead, node, run, false);
      assert Listed(sleepHead, sleeping);
      ListedIs(sleepHead, sleeping);
      DeleteFrom(sleepHead, node, sleeping, false);
      assert ListLeft(pcbHead, run, node);
    }

    /** The passes over the sleepers, or over the waiters when a process's turn comes or it exits. The head
        of the queue is only written when its last process leaves: the lists are in order afterwards exactly
        when the head did not wake, or everything did. */
    method WakeSleepers() returns (ghost due: seq<bool>)
      requires Valid()
      modifies this`sleepHead, this`run, this`sleeping, run, sleeping
      ensures |due| == |old(sleeping)| && forall k :: 0 <= k < |due| ==> due[k] == old(IsDue(Second, sleeping[k]))
      ensures Q() == SleepersWoken(old(Q()), due)
      ensures forall k :: 0 <= k < |due| ==>
        old(sleeping)[k].sleepTimeLeft == NewTime(Second, old(sleeping[k].sleepTimeLeft), due[k])
      ensures forall k :: 0 <= k < |old(sleeping)| ==>
        (old(sleeping)[k] in run <==> old(sleeping[k].sleepTimeLeft) % TWO64 == 1)
      ensures ButSleepHead() && (Valid() <==> HeadStays(old(sleeping), due))
      ensures Valid() ==> Follows(old(Q()), Step.WakeSleepers(due), Q())
    {
      hide QueuesOk, Distinct, Apart, Listed, Due, NotDue, IsDue, HeadStays, Members, NewTime, Follows;
      hide HeadLeft, Chained;
      ghost var q := Q();
      due := DueNow(Second, sleeping);
      DueIff(sleeping);
      WakeSleepersKeeps(q, due);
      SleepersJoin(q, due);
      AllApart(q);
      PassParts(q.run, q.sleeping, pcbHead, sleepHead, q.current);
      assert blockHead != null ==> q.blocked[0] == blockHead;
      sleepHead := WakeDue(Second, sleepHead, pcbHead, sleeping, run, due);
      run, sleeping := run + Due(sleeping, due), NotDue(sleeping, due);
      assert Listed(waitHead, waiting);
      StaysIff(q.sleeping, due);
      PassFollows(q, due);
      ListedIs(pcbHead, run);
      ListedIs(sleepHead, sleeping);
    }

    method WakeWaiters(cause: Cause) returns (ghost due: seq<bool>)
      requires ButSleepHead() && cause != Second
      modifies this`waitHead, this`run, this`waiting
      modifies run`next, waiting`next, waiting`prev, waiting`sleepTimeLeft, waiting`waitPID
      ensures |due| == |old(waiting)| && forall k :: 0 <= k < |due| ==> due[k] == old(IsDue(cause, waiting[k]))
      ensures Q() == WaitersWoken(old(Q()), due)
      ensures forall k :: 0 <= k < |due| ==>
        old(waiting)[k].waitPID == if cause.ExitOf? && due[k] then -2 else old(waiting[k].waitPID)
      ensures cause.ExitOf? ==> forall k :: 0 <= k < |old(waiting)| ==>
        (old(waiting)[k] in run <==> old(waiting[k].waitPID == cause.pid ||
          (waiting[k].waitPID == -1 && waiting[k].processID == cause.parent)))
      ensures cause.TurnOf? ==> forall k :: 0 <= k < |old(waiting)| ==>
        (old(waiting)[k] in run <==> old(waiting[k].waitPID) == cause.pid)
      ensures Valid() <==> HeadStays(old(waiting), due) && sleepHead == HeadOf(sleeping)
      ensures HeadStays(old(waiting), due) ==> ButSleepHead() && Follows(old(Q()), Step.WakeWaiters(due), Q())
      ensures sleepHead == HeadOf(sleeping) ==> ReadyForExit()
    {
      hide QueuesOk, Distinct, Apart, Listed, Due, NotDue, IsDue, HeadStays, Members, Follows;
      hide HeadLeft, Chained, BehindHead;
      ghost var q := Q();
      due := DueNow(cause, waiting);
      DueIff(waiting);
      AllApart(q);
      WaitersJoin(q, due);
      PassParts(q.run, q.waiting, pcbHead, waitHead, q.current);
      assert blockHead != null ==> q.blocked[0] == blockHead;
      waitHead := WakeDue(cause, waitHead, pcbHead, waiting, run, due);
      run, waiting := run + Due(waiting, due), NotDue(waiting, due);
      assert Chained(sleeping);
      WaitersOrder(this, q, due);
    }

    /** sys_exit: the waiters of a process wake, then it is deleted. When the pass wakes the head of the waiters and
        leaves others behind, a waiting process that exits stays in its queue. */
    method SysExit(p: Pcb) returns (ghost due: seq<bool>)
      requires Valid() && p in Members(Q())
      modifies this, run, sleeping, waiting, blockHead
      ensures |due| == |old(waiting)|
      ensures forall k :: 0 <= k < |due| ==> due[k] == old(IsDue(ExitOf(p.processID, p.parentProcessID), waiting[k]))
      ensures var q1 := WaitersWoken(old(Q()), due);
        && Q() == (if HeadStays(old(waiting), due) || p !in q1.waiting then Exited(q1, p) else q1)
        && (Valid() <==> HeadStays(old(waiting), due) && (MayExit(q1, p) || p == old(blockHead)))
        && (HeadStays(old(waiting), due) ==> Follows(old(Q()), Step.WakeWaiters(due), q1))
        && (HeadStays(old(waiting), due) && MayExit(q1, p) ==> Follows(q1, Exit(p), Q()))
      ensures forall k :: 0 <= k < |old(waiting)| && old(waiting)[k] != p ==>
        (old(waiting)[k] in run <==> old(waiting[k].waitPID == p.processID ||
          (waiting[k].waitPID == -1 && waiting[k].processID == p.parentProcessID)))
    {
      hide QueuesOk, IsDue, HeadStays, Listed, Members, Distinct, MayExit, Exited, Chained, BehindHead, Follows, Due,
        NotDue;
      AllApart(Q());
      ListedIs(sleepHead, sleeping);
      ghost var q := Q();
      due := WakeWaiters(ExitOf(p.processID, p.parentProcessID));
      WakeWaitersKeeps(q, due);
      WokenWithin(q, due);
      ghost var q1 := Q();
      OthersStay(q1, p);
      DeleteNode(p);
    }

    /** The end of a time slice, with the wake-up of those that wait for the next process. */
    method EndSlice() returns (ghost due: seq<bool>)
      requires ButSleepHead()
      modifies this`waitHead, this`current, this`run, this`waiting, run, waiting
      ensures |due| == |old(waiting)| && QueuesOk(old(Q()))
      ensures var pid := current.processID; due == old(DueNow(TurnOf(pid), waiting))
      ensures Q() == WaitersWoken(Switched(old(Q())), due)
      ensures Valid() <==> HeadStays(old(waiting), due) && old(sleepHead == HeadOf(sleeping))
      ensures HeadStays(old(waiting), due) ==>
        Follows(old(Q()), Slice, Switched(old(Q()))) && Follows(Switched(old(Q())), Step.WakeWaiters(due), Q())
    {
      hide IsDue, HeadStays, Listed, Members, Due, NotDue;
      NextSlice();
      var pid := current.processID;
      due := WakeWaiters(TurnOf(pid));
      ghost var now := old(DueNow(TurnOf(pid), waiting));
      assert forall k :: 0 <= k < |due| ==> due[k] == now[k];
      assert due == now;
    }

    /** The wake-up of the sleepers, once a second. */
    method EndSecond() returns (ghost due: seq<bool>)
      requires Valid()
      modifies this`sleepHead, this`run, this`sleeping, run, sleeping
      ensures |due| == |old(sleeping)| && ButSleepHead() && Q() == AfterSecond(old(Q()), ticks, due)
      ensures forall k :: 0 <= k < |due| ==> due[k] == old(IsDue(Second, sleeping[k]))
      ensures ticks % 100 == 0 ==>
        forall k :: 0 <= k < |due| ==>
          old(sleeping)[k].sleepTimeLeft == NewTime(Second, old(sleeping[k].sleepTimeLeft), due[k])
      ensures forall k :: 0 <= k < |run| ==> run[k] in old(run) || run[k] in old(sleeping)
      ensures forall pid :: DueNow(TurnOf(pid), waiting) == old(DueNow(TurnOf(pid), waiting))
      ensures sleepHead == HeadOf(sleeping) <==> (ticks % 100 == 0 ==> HeadStays(old(sleeping), due))
      ensures ticks % 100 == 0 && HeadStays(old(sleeping), due) ==> Follows(old(Q()), Step.WakeSleepers(due), Q())
    {
      hide IsDue, HeadStays, Members, Due, NotDue, QueuesOk, Chained, NewTime, Distinct;
      AllApart(Q());
      due := DueNow(Second, sleeping);
      if ticks % 100 == 0 {
        DueWithin(sleeping, due);
        ghost var now := due;
        due := WakeSleepers();
        assert due == now;
      }
    }

    /** timer_handler. The process whose turn it is wakes those that wait for it. */
    method TimerHandler() returns (ghost sleepersDue: seq<bool>, ghost waitersDue: seq<bool>)
      requires Valid()
      modifies this, run, sleeping, waiting
      ensures ticks == old(ticks) + 1 && |sleepersDue| == |old(sleeping)| && |waitersDue| == |old(waiting)|
      ensures forall k :: 0 <= k < |sleepersDue| ==> sleepersDue[k] == old(IsDue(Second, sleeping[k]))
      ensures ticks % TICKS == 0 ==> var pid := current.processID; waitersDue == old(DueNow(TurnOf(pid), waiting))
      ensures QueuesOk(AfterSecond(old(Q()), ticks, sleepersDue))
      ensures Q() == AfterSlice(AfterSecond(old(Q()), ticks, sleepersDue), ticks, waitersDue)
      ensures ticks % 100 == 0 ==> forall k :: 0 <= k < |old(sleeping)| ==>
        (old(sleeping)[k] in run <==> old(sleeping[k].sleepTimeLeft) % TWO64 == 1)
      ensures ticks % 100 != 0 ==> sleeping == old(sleeping)
      ensures ticks % 240 == 0 ==> forall k :: 0 <= k < |old(waiting)| ==>
        (old(waiting)[k] in run <==> old(waiting[k].waitPID) == current.processID)
      ensures ticks % 240 != 0 ==> waiting == old(waiting) && current == old(current)
      ensures Valid() <==> (ticks % 100 == 0 ==> HeadStays(old(sleeping), sleepersDue))
                           && (ticks % TICKS == 0 ==> HeadStays(old(waiting), waitersDue))
    {
      hide QueuesOk, IsDue, HeadStays, Listed, Members, Due, NotDue, Distinct, Apart, Follows, NewTime;
      AllApart(Q());
      DueIff(sleeping);
      DueIff(waiting);
      ghost var q := Q();
      ticks := ticks + 1;
      sleepersDue := EndSecond();
      waitersDue := DueNow(TurnOf(0), waiting);
      ListedIs(sleepHead, sleeping);
      if ticks % TICKS == 0 {
        waitersDue := EndSlice();
      }
      TickJoins(q, ticks, sleepersDue, waitersDue);
    }

    /** The part of execve_handler that lets the waiting parent of a background process run at once. */
    method WakeParent(parent: Pcb)
      requires Valid()
      modifies this`waitHead, this`current, this`run, this`waiting, run, waiting
      ensures Valid() && Q() == if parent in old(waiting) then ParentWoken(old(Q()), parent) else old(Q())
      ensures parent in old(waiting) ==> Follows(old(Q()), Step.WakeParent(parent), Q())
    {
      var found, i := Find(waitHead, waiting, parent);
      if found {
        RunParent(parent, i);
      }
    }

    method RunParent(parent: Pcb, ghost i: nat)
      requires Valid() && i < |waiting| && waiting[i] == parent
      modifies this`waitHead, this`current, this`run, this`waiting, run, waiting
      ensures Valid() && Q() == ParentWoken(old(Q()), parent)
    {
      hide QueuesOk, Members, Listed, Removed, Distinct, Apart, Chained;
      ghost var q := Q();
      ParentKeeps(q, parent);
      AllApart(q);
      OthersApart(q, i);
      IndexIs(waiting, i);
      assert blockHead != null ==> q.blocked[0] == blockHead;
      PassParts(run, waiting, pcbHead, waitHead, current);
      TakeWaiter(parent, i);
      assert Listed(sleepHead, sleeping) && Listed(pcbHead, run);
      JoinRun(parent);
      assert Listed(sleepHead, sleeping) && Listed(waitHead, waiting);
    }

    /** A process joins the run list behind the current one and runs. */
    method JoinRun(p: Pcb)
      requires Listed(pcbHead, run) && Distinct(run) && current in run && p !in run
      modifies this`run, this`current, run`next, run`prev, p`next, p`prev
      ensures var j := old(Index(run, current)); run == old(run)[..j + 1] + [p] + old(run)[j + 1..]
      ensures current == p && Listed(pcbHead, run)
    {
      ghost var j := Index(run, current);
      InsertAfter(current, p, run, j);
      run := run[..j + 1] + [p] + run[j + 1..];
      current := p;
    }

    /** A waiter leaves its queue. */
    method TakeWaiter(p: Pcb, ghost i: nat)
      requires Listed(waitHead, waiting) && Distinct(waiting) && i < |waiting| && waiting[i] == p
      modifies this`waitHead, this`waiting, waiting`next, waiting`prev
      ensures waiting == Removed(old(waiting), i) && Listed(waitHead, waiting)
    {
      assert NodeOk(waiting, i);
      FirstRemoved(waiting, i);
      if p == waitHead {
        waitHead := if p.next != null then p.next else null;
      }
      Unlink(p, waiting, i);
      waiting := Removed(waiting, i);
    }
  }

  /** The queues after the second's pass of a tick, and after the slice's. */
  ghost function AfterSecond(q: Queues, ticks: nat, due: seq<bool>): Queues
    requires |due| == |q.sleeping|
  {
    if ticks % 100 == 0 then SleepersWoken(q, due) else q
  }

  ghost function AfterSlice(q: Queues, ticks: nat, due: seq<bool>): Queues
    requires q.current in q.run && |due| == |q.waiting|
  {
    if ticks % TICKS == 0 then WaitersWoken(Switched(q), due) else q
  }

  lemma SleepersJoin(q: Queues, due: seq<bool>)
    requires QueuesOk(q) && |due| == |q.sleeping|
    ensures forall k :: 0 <= k < |due| ==> (q.sleeping[k] in SleepersWoken(q, due).run <==> due[k])
  {
    JoinedIff(q.run, q.sleeping, due);
  }

  lemma WaitersJoin(q: Queues, due: seq<bool>)
    requires QueuesOk(q) && |due| == |q.waiting|
    ensures forall k :: 0 <= k < |due| ==> (q.waiting[k] in WaitersWoken(q, due).run <==> due[k])
  {
    JoinedIff(q.run, q.waiting, due);
  }

  /** An exit takes one process off the run list. */
  lemma OthersStay(q: Queues, p: Pcb)
    requires QueuesOk(q) && p in Members(q)
    ensures forall x :: x != p ==> (x in Exited(q, p).run <==> x in q.run)
  {
    ExitedIs(q, p);
    AllApart(q);
    if p in q.run {
      RemovedDistinct(q.run, Index(q.run, p));
    }
  }

  /** Who is on the run list after a tick. */
  lemma TickJoins(q: Queues, ticks: nat, d1: seq<bool>, d2: seq<bool>)
    requires QueuesOk(q) && |d1| == |q.sleeping| && |d2| == |q.waiting|
    requires QueuesOk(AfterSecond(q, ticks, d1))
    ensures var run := AfterSlice(AfterSecond(q, ticks, d1), ticks, d2).run;
      && (ticks % 100 == 0 ==> forall k :: 0 <= k < |d1| ==> (q.sleeping[k] in run <==> d1[k]))
      && (ticks % 240 == 0 ==> forall k :: 0 <= k < |d2| ==> (q.waiting[k] in run <==> d2[k]))
  {
    var q1 := AfterSecond(q, ticks, d1);
    AllApart(q);
    if ticks % 100 == 0 {
      SleepersJoin(q, d1);
    }
    if ticks % 240 == 0 {
      WaitersJoin(q1, d2);
      WokenWithin(q1, d2);
    }
  }

  /** A tick as steps of a run. */
  function TickSteps(ticks: nat, sleepersDue: seq<bool>, waitersDue: seq<bool>): seq<Step> {
    (if ticks % 100 == 0 then [Step.WakeSleepers(sleepersDue)] else [])
    + if ticks % TICKS == 0 then [Slice, Step.WakeWaiters(waitersDue)] else []
  }

  /** A tick after which the lists are in order is a run of the steps above. */
  lemma TickIsRun(q: Queues, ticks: nat, d1: seq<bool>, d2: seq<bool>) returns (qs: seq<Queues>)
    requires QueuesOk(q) && |d1| == |q.sleeping| && |d2| == |q.waiting|
    requires ticks % 100 == 0 ==> HeadStays(q.sleeping, d1)
    requires ticks % TICKS == 0 ==> HeadStays(q.waiting, d2)
    ensures QueuesOk(AfterSecond(q, ticks, d1))
    ensures IsRun(qs, TickSteps(ticks, d1, d2)) && qs[0] == q &&
      qs[|qs| - 1] == AfterSlice(AfterSecond(q, ticks, d1), ticks, d2)
  {
    if ticks % 100 == 0 {
      WakeSleepersKeeps(q, d1);
    }
    hide QueuesOk, HeadStays, Due, NotDue;
    var q1 := AfterSecond(q, ticks, d1);
    assert q1.waiting == q.waiting;
    qs := if ticks % 100 == 0 then [q, q1] else [q];
    PassFollows(q, d1);
    if ticks % TICKS == 0 {
      SwitchKeeps(q1);
      PassFollows(Switched(q1), d2);
      qs := qs + [Switched(q1), WaitersWoken(Switched(q1), d2)];
    }
  }

  /** Where a process is on a list. */
  method Find(head: Pcb?, ghost s: seq<Pcb>, p: Pcb) returns (found: bool, ghost i: nat)
    requires Listed(head, s)
    ensures found == (p in s) && (found ==> i < |s| && s[i] == p)
  {
    var temp := head;
    i := 0;
    while temp != null && temp != p
      invariant 0 <= i <= |s| && temp == (if i < |s| then s[i] else null) && p !in s[..i]
      decreases |s| - i
    {
      assert NodeOk(s, i);
      temp := temp.next;
      i := i + 1;
    }
    found := temp != null;
    assert temp == null ==> s[..i] == s;
  }

  /** A node goes behind another. */
  method InsertAfter(before: Pcb, node: Pcb, ghost s: seq<Pcb>, ghost j: nat)
    requires Distinct(s) && Chained(s) && j < |s| && s[j] == before && node !in s
    modifies s`next, s`prev, node`next, node`prev
    ensures Chained(s[..j + 1] + [node] + s[j + 1..])
  {
    assert NodeOk(s, j);
    node.next := before.next;
    node.prev := before;
    before.next := node;
    if node.next != null {
      node.next.prev := node;
    }
    ghost var s' := s[..j + 1] + [node] + s[j + 1..];
    forall k | 0 <= k < |s'| ensures NodeOk(s', k) {
      if k <= j {
        assert old(NodeOk(s, k));
      } else if k > j + 1 {
        assert old(NodeOk(s, k - 1));
      }
    }
  }

  lemma FirstRemoved(s: seq<Pcb>, i: nat)
    requires i < |s| && Distinct(s)
    ensures HeadOf(Removed(s, i)) == if i == 0 then (if |s| > 1 then s[1] else null) else s[0]
    ensures s[i] == s[0] <==> i == 0
  {
  }

  lemma OthersApart(q: Queues, i: nat)
    requires QueuesOk(q) && i < |q.waiting|
    ensures forall k :: 0 <= k < |Removed(q.waiting, i)| ==>
      Removed(q.waiting, i)[k] !in q.run && Removed(q.waiting, i)[k] != q.waiting[i]
    ensures q.waiting[i] !in q.run && q.waiting[i] !in q.sleeping && q.waiting[i] !in q.blocked
  {
    RemovedDistinct(q.waiting, i);
    AllApart(q);
    forall k | 0 <= k < |Removed(q.waiting, i)| ensures Removed(q.waiting, i)[k] in q.waiting &&
      Removed(q.waiting, i)[k] != q.waiting[i] {
      assert Removed(q.waiting, i)[k] in Removed(q.waiting, i);
    }
  }

  lemma DueWithin(s: seq<Pcb>, due: seq<bool>)
    requires |s| == |due| && Distinct(s)
    ensures forall k :: 0 <= k < |Due(s, due)| ==> Due(s, due)[k] in s
  {
    DueDivides(s, due);
    hide Due, NotDue;
    var a := Due(s, due);
    forall k | 0 <= k < |a| ensures a[k] in s {
      assert a[k] in Elements(a);
      assert a[k] in Elements(s);
    }
  }

  /** Why a pass wakes processes: a second has passed, a process's turn has come, or it exits. */
  datatype Cause = Second | TurnOf(pid: int) | ExitOf(pid: int, parent: int)

  /** Whom a pass wakes, by the fields it looks at. */
  lemma DueIff(s: seq<Pcb>)
    ensures forall k :: 0 <= k < |s| ==> (IsDue(Second, s[k]) <==> s[k].sleepTimeLeft % TWO64 == 1)
    ensures forall pid, k :: 0 <= k < |s| ==> (IsDue(TurnOf(pid), s[k]) <==> s[k].waitPID == pid)
    ensures forall pid, parent, k :: 0 <= k < |s| ==>
      (IsDue(ExitOf(pid, parent), s[k]) <==>
        s[k].waitPID == pid || (s[k].waitPID == -1 && s[k].processID == parent))
  {
  }

  ghost predicate IsDue(cause: Cause, p: Pcb)
    reads p`sleepTimeLeft, p`waitPID, p`processID
  {
    match cause
    case Second => (p.sleepTimeLeft - 1) % TWO64 == 0
    case TurnOf(pid) => p.waitPID == pid
    case ExitOf(pid, parent) => p.waitPID == pid || (p.waitPID == -1 && p.processID == parent)
  }

  /** What a pass leaves in a process's remaining time and in the id it waits for. */
  function NewTime(cause: Cause, time: nat, due: bool): nat {
    match cause
    case Second => if due then 0 else (time - 1) % TWO64
    case TurnOf(_) => if due then 0 else time
    case ExitOf(_, _) => time
  }

  function NewWait(cause: Cause, waitPID: int, due: bool): int {
    if cause.ExitOf? && due then -2 else waitPID
  }

  /** The remaining time after n passes that did not wake the sleeper. */
  function TimeLeft(time: nat, n: nat): nat {
    if n == 0 then time else (TimeLeft(time, n - 1) - 1) % TWO64
  }

  /** A sleeper wakes at exactly the pass its time says; a time of 0 counts as 2^64. */
  lemma {:induction false} SleepsFor(time: nat, n: nat)
    requires time < TWO64 && n < (if time == 0 then TWO64 else time)
    ensures (TimeLeft(time, n) - 1) % TWO64 == 0 <==> n + 1 == if time == 0 then TWO64 else time
    ensures TimeLeft(time, n) == if time == 0 && n > 0 then TWO64 - n else time - n
    ensures NewTime(Second, TimeLeft(time, n), TimeLeft(time, n) % TWO64 == 1) == (TimeLeft(time, n) - 1) % TWO64
  {
    if n > 0 {
      SleepsFor(time, n - 1);
    }
  }

  ghost function DueNow(cause: Cause, s: seq<Pcb>): (due: seq<bool>)
    reads s
    ensures |due| == |s| && forall k :: 0 <= k < |s| ==> due[k] == IsDue(cause, s[k])
  {
    seq(|s|, k requires 0 <= k < |s| reads s => IsDue(cause, s[k]))
  }

  /** What the head variable of the queue is after a pass. */
  function HeadLeft(s: seq<Pcb>, left: seq<Pcb>): Pcb? { if left == [] then null else HeadOf(s) }

  lemma PassParts(run: seq<Pcb>, queue: seq<Pcb>, runHead: Pcb?, head: Pcb?, current: Pcb)
    requires Listed(runHead, run) && Listed(head, queue) && current in run
    ensures runHead != null && run != [] && Chained(run) && Chained(queue) && runHead == HeadOf(run) &&
      head == HeadOf(queue)
  {
  }

  /** The decision for one process; the sleeper's time counts down, and wraps around at zero. */
  method CheckDue(cause: Cause, p: Pcb, ghost s: seq<Pcb>, ghost r: seq<Pcb>) returns (due: bool)
    requires Chained(s) && Chained(r)
    modifies p`sleepTimeLeft
    ensures due == old(IsDue(cause, p))
    ensures p.sleepTimeLeft == if cause.Second? then (old(p.sleepTimeLeft) - 1) % TWO64 else old(p.sleepTimeLeft)
    ensures Chained(s) && Chained(r)
  {
    match cause
    case Second =>
      p.sleepTimeLeft := (p.sleepTimeLeft - 1) % TWO64;
      due := p.sleepTimeLeft <= 0;
      assert forall k :: 0 <= k < |s| && old(NodeOk(s, k)) ==> NodeOk(s, k);
      assert forall k :: 0 <= k < |r| && old(NodeOk(r, k)) ==> NodeOk(r, k);
    case TurnOf(pid) =>
      due := p.waitPID == pid;
    case ExitOf(pid, parent) =>
      due := p.waitPID == pid || (p.waitPID == -1 && p.processID == parent);
  }

  /** The fields that waking resets. */
  method Reset(cause: Cause, p: Pcb, ghost s: seq<Pcb>, ghost r: seq<Pcb>)
    requires Chained(s) && Chained(r)
    modifies p`sleepTimeLeft, p`waitPID
    ensures p.sleepTimeLeft == (if cause.ExitOf? then old(p.sleepTimeLeft) else 0)
    ensures p.waitPID == if cause.ExitOf? then -2 else old(p.waitPID)
    ensures Chained(s) && Chained(r)
  {
    if cause.ExitOf? {
      p.waitPID := -2;
    } else {
      p.sleepTimeLeft := 0;
    }
    assert forall k :: 0 <= k < |s| && old(NodeOk(s, k)) ==> NodeOk(s, k);
    assert forall k :: 0 <= k < |r| && old(NodeOk(r, k)) ==> NodeOk(r, k);
  }

  /** A node moves from one list to the end of another. */
  method Move(node: Pcb, tail: Pcb, ghost s: seq<Pcb>, ghost i: nat, ghost r: seq<Pcb>)
    requires Distinct(s) && Distinct(r) && Chained(s) && Chained(r) && i < |s| && s[i] == node
    requires r != [] && tail == r[|r| - 1] && forall j :: 0 <= j < |r| ==> r[j] !in s
    modifies s`next, s`prev, tail`next
    ensures Chained(Removed(s, i)) && Chained(r + [node])
  {
    RemovedDistinct(s, i);
    hide Distinct, Removed, Chained;
    Unlink(node, s, i);
    assert forall j :: 0 <= j < |Removed(s, i)| ==> Removed(s, i)[j] in Removed(s, i);
    Append(tail, node, r);
  }

  // ---------- the state in the middle of a pass ----------

  /** The queue after the first k processes have been looked at. */
  function Remaining(s: seq<Pcb>, due: seq<bool>, k: nat): seq<Pcb>
    requires |s| == |due| && k <= |s|
  {
    NotDue(s[..k], due[..k]) + s[k..]
  }

  function Grown(run: seq<Pcb>, s: seq<Pcb>, due: seq<bool>, k: nat): seq<Pcb>
    requires |s| == |due| && k <= |s|
  {
    run + Due(s[..k], due[..k])
  }

  lemma PassStart(run: seq<Pcb>, s: seq<Pcb>, due: seq<bool>)
    requires |s| == |due|
    ensures Remaining(s, due, 0) == s && Grown(run, s, due, 0) == run
    ensures Remaining(s, due, |s|) == NotDue(s, due) && Grown(run, s, due, |s|) == run + Due(s, due)
  {
    assert s[..|s|] == s && due[..|s|] == due;
  }

  lemma PassStep(run: seq<Pcb>, s: seq<Pcb>, due: seq<bool>, k: nat)
    requires |s| == |due| && k < |s|
    ensures var i := |NotDue(s[..k], due[..k])|;
      i < |Remaining(s, due, k)| && Remaining(s, due, k)[i] == s[k]
      && (if due[k] then Remaining(s, due, k + 1) == Removed(Remaining(s, due, k), i) &&
        Grown(run, s, due, k + 1) == Grown(run, s, due, k) + [s[k]]
          else Remaining(s, due, k + 1) == Remaining(s, due, k) && Grown(run, s, due, k + 1) == Grown(run, s, due, k))
    ensures k + 1 < |s| ==> |Remaining(s, due, k)| > |NotDue(s[..k], due[..k])| + 1
    ensures k + 1 < |s| ==> Remaining(s, due, k)[|NotDue(s[..k], due[..k])| + 1] == s[k + 1]
    ensures k + 1 == |s| ==> |Remaining(s, due, k)| == |NotDue(s[..k], due[..k])| + 1
  {
    DueLast(s[..k + 1], due[..k + 1]);
    assert s[..k + 1][..k] == s[..k] && due[..k + 1][..k] == due[..k];
    assert s[k..] == [s[k]] + s[k + 1..];
    hide Due, NotDue;
    var a, i := NotDue(s[..k], due[..k]), |NotDue(s[..k], due[..k])|;
    if due[k] {
      assert Removed(a + s[k..], i) == a + s[k + 1..];
    }
  }

  lemma PassDistinct(run: seq<Pcb>, s: seq<Pcb>, due: seq<bool>, k: nat)
    requires |s| == |due| && k <= |s| && Distinct(run) && Distinct(s) && Apart(run, s)
    ensures Distinct(Remaining(s, due, k)) && Distinct(Grown(run, s, due, k))
    ensures forall j :: 0 <= j < |Remaining(s, due, k)| ==> Remaining(s, due, k)[j] !in Grown(run, s, due, k)
    ensures forall j :: 0 <= j < |Grown(run, s, due, k)| ==> Grown(run, s, due, k)[j] !in Remaining(s, due, k)
  {
    var front, back := s[..k], s[k..];
    DueDivides(front, due[..k]);
    ApartPrefix(run, s, k);
    DueApart(front, due[..k], run);
    DueApart(front, due[..k], back);
    hide Due, NotDue;
    var a, b := Due(front, due[..k]), NotDue(front, due[..k]);
    AppendDistinct(b, back);
    AppendDistinct(run, a);
    ApartSymmetric(run, back);
    ApartSymmetric(run, b);
    ApartSymmetric(back, a);
    ApartSum(b, back, run);
    ApartSum(b, back, a);
    ApartSymmetric(b + back, run);
    ApartSymmetric(b + back, a);
    ApartSum(run, a, b + back);
  }

  /** A pass touches nodes of the two lists only, and each process of the queue once. */
  lemma PassWithin(run: seq<Pcb>, s: seq<Pcb>, due: seq<bool>, k: nat)
    requires |s| == |due| && k < |s| && Distinct(s)
    ensures forall j :: 0 <= j < |Remaining(s, due, k)| ==> Remaining(s, due, k)[j] in s
    ensures forall j :: 0 <= j < |Grown(run, s, due, k)| ==>
      Grown(run, s, due, k)[j] in run || Grown(run, s, due, k)[j] in s
    ensures forall j :: 0 <= j < |s| && j != k ==> s[j] != s[k]
  {
    var front := s[..k];
    DueDivides(front, due[..k]);
    hide Due, NotDue;
    var a, b := Due(front, due[..k]), NotDue(front, due[..k]);
    forall j | 0 <= j < |a| ensures a[j] in s {
      assert a[j] in Elements(a) + Elements(b);
      assert a[j] in front;
    }
    forall j | 0 <= j < |b| ensures b[j] in s {
      assert b[j] in Elements(a) + Elements(b);
      assert b[j] in front;
    }
    assert forall j :: 0 <= j < |s[k..]| ==> s[k..][j] in s;
  }

  lemma ApartPrefix(run: seq<Pcb>, s: seq<Pcb>, k: nat)
    requires k <= |s| && Distinct(s) && Apart(run, s)
    ensures Distinct(s[..k]) && Distinct(s[k..]) && Apart(run, s[..k]) && Apart(run, s[k..]) && Apart(s[k..], s[..k])
  {
  }

  /** One pass: the processes that are due move, in order, to the end of the run list. */
  method WakeDue(cause: Cause, head: Pcb?, runHead: Pcb, ghost queue: seq<Pcb>, ghost run: seq<Pcb>,
      ghost due: seq<bool>) returns (head': Pcb?)
    requires Distinct(run) && Distinct(queue) && Apart(run, queue) && Listed(runHead, run) && Listed(head, queue)
    requires |due| == |queue| && forall k :: 0 <= k < |queue| ==> due[k] == IsDue(cause, queue[k])
    modifies run`next, queue`next, queue`prev, queue`sleepTimeLeft, queue`waitPID
    ensures Chained(run + Due(queue, due)) && Chained(NotDue(queue, due))
    ensures head' == HeadLeft(queue, NotDue(queue, due))
    ensures forall j :: 0 <= j < |queue| ==>
      queue[j].sleepTimeLeft == NewTime(cause, old(queue[j].sleepTimeLeft), due[j])
    ensures forall j :: 0 <= j < |queue| ==> queue[j].waitPID == NewWait(cause, old(queue[j].waitPID), due[j])
  {
    hide Distinct, Apart, Due, NotDue, Removed, Remaining, Grown, IsDue, Chained, NewTime, NewWait;
    head' := head;
    PassStart(run, queue, due);
    ListedIs(head, queue);
    ListedIs(runHead, run);
    var temp := head;
    var tail := Last(runHead, run);
    ghost var k := 0;
    while temp != null
      invariant 0 <= k <= |queue| && temp == (if k < |queue| then queue[k] else null)
      invariant Chained(Remaining(queue, due, k)) && Chained(Grown(run, queue, due, k))
      invariant Grown(run, queue, due, k) != [] && tail == Grown(run, queue, due, k)[|Grown(run, queue, due, k)| - 1]
      invariant head' == HeadLeft(queue, Remaining(queue, due, k))
      invariant forall j :: k <= j < |queue| ==> due[j] == IsDue(cause, queue[j])
      invariant forall j :: k <= j < |queue| ==> queue[j].sleepTimeLeft == old(queue[j].sleepTimeLeft)
      invariant forall j :: k <= j < |queue| ==> queue[j].waitPID == old(queue[j].waitPID)
      invariant forall j :: 0 <= j < k ==> queue[j].sleepTimeLeft == NewTime(cause, old(queue[j].sleepTimeLeft), due[j])
      invariant forall j :: 0 <= j < k ==> queue[j].waitPID == NewWait(cause, old(queue[j].waitPID), due[j])
      decreases |queue| - k
    {
      PassWithin(run, queue, due, k);
      head', tail, temp := WakeOne(cause, head', tail, temp, queue, run, due, k);
      k := k + 1;
    }
  }

  ghost predicate Has(s: seq<Pcb>, pid: int, asParent: bool)
    reads s
  {
    exists k :: 0 <= k < |s| && (if asParent then s[k].parentProcessID else s[k].processID) == pid
  }

  /** Whom waitPlease can find, among all processes. */
  lemma SomeOneWaitedFor(s: Scheduler, pid: int)
    ensures pid != -1 ==> (s.CanWaitFor(pid) <==> exists p :: p in Members(s.Q()) && p.processID == pid)
    ensures pid == -1 ==>
      (s.CanWaitFor(pid) <==> exists p :: p in Members(s.Q()) && p.parentProcessID == s.current.processID)
  {
    var id, asParent := if pid == -1 then s.current.processID else pid, pid == -1;
    HasIff(s.run, id, asParent);
    HasIff(s.sleeping, id, asParent);
    HasIff(s.waiting, id, asParent);
    HasIff(s.Q().blocked, id, asParent);
  }

  lemma HasIff(s: seq<Pcb>, id: int, asParent: bool)
    ensures Has(s, id, asParent) <==>
      exists p :: p in Elements(s) && if asParent then p.parentProcessID == id else p.processID == id
  {
    if Has(s, id, asParent) {
      var k :| 0 <= k < |s| && (if asParent then s[k].parentProcessID else s[k].processID) == id;
      assert s[k] in Elements(s);
    }
  }

  lemma ListedIs(head: Pcb?, s: seq<Pcb>)
    ensures Listed(head, s) <==> head == HeadOf(s) && Chained(s)
  {
  }

  lemma HeadNotNull(head: Pcb?, s: seq<Pcb>, p: Pcb)
    requires Listed(head, s) && p in s
    ensures s != [] && head == s[0]
  {
  }

  lemma AllApart(q: Queues)
    requires QueuesOk(q)
    ensures Distinct(q.run) && Distinct(q.sleeping) && Distinct(q.waiting) && q.current in q.run
    ensures Apart(q.run, q.sleeping) && Apart(q.run, q.waiting)
    ensures forall k :: 0 <= k < |q.sleeping| ==>
      q.sleeping[k] !in q.run && q.sleeping[k] !in q.waiting && q.sleeping[k] !in q.blocked
    ensures forall k :: 0 <= k < |q.waiting| ==>
      q.waiting[k] !in q.run && q.waiting[k] !in q.sleeping && q.waiting[k] !in q.blocked
    ensures forall k :: 0 <= k < |q.blocked| ==>
      q.blocked[k] !in q.run && q.blocked[k] !in q.sleeping && q.blocked[k] !in q.waiting
    ensures forall k :: 0 <= k < |q.run| ==> q.run[k] !in q.blocked && q.run[k] !in q.sleeping && q.run[k] !in q.waiting
  {
  }

  /** What is apart when the current process has left the run list. */
  lemma LeftApart(q: Queues)
    requires QueuesOk(q) && |q.run| >= 2
    ensures Distinct(q.run) && Distinct(q.sleeping) && Distinct(q.waiting) && q.current in q.run
    ensures forall k :: 0 <= k < |q.sleeping| ==>
      q.sleeping[k] !in q.run && q.sleeping[k] !in q.waiting && q.sleeping[k] !in q.blocked
    ensures forall k :: 0 <= k < |q.waiting| ==>
      q.waiting[k] !in q.run && q.waiting[k] !in q.sleeping && q.waiting[k] !in q.blocked
    ensures forall k :: 0 <= k < |q.blocked| ==>
      q.blocked[k] !in q.run && q.blocked[k] !in q.sleeping && q.blocked[k] !in q.waiting
    ensures forall k :: 0 <= k < |Left(q).run| ==>
      Left(q).run[k] != q.current && Left(q).run[k] !in q.sleeping && Left(q).run[k] !in q.waiting
    ensures q.current !in q.sleeping && q.current !in q.waiting && q.current !in q.blocked
    ensures Left(q) == q.(run := Left(q).run, current := Left(q).current)
  {
    var i := Index(q.run, q.current);
    RemovedDistinct(q.run, i);
    assert forall k :: 0 <= k < |Left(q).run| ==> Left(q).run[k] in Left(q).run;
  }

  /** A node behind the last one of a list. */
  method PutLast(head: Pcb?, node: Pcb, ghost s: seq<Pcb>) returns (head': Pcb?)
    requires Listed(head, s) && Distinct(s) && node !in s
    modifies s`next, node`next, node`prev
    ensures Listed(head', s + [node])
  {
    if head != null {
      var tail := Last(head, s);
      Append(tail, node, s);
      head' := head;
    } else {
      head' := node;
      node.next, node.prev := null, null;
    }
  }

  /** What deleting a process means for the lists. */
  lemma ExitCases(q: Queues, p: Pcb)
    requires QueuesOk(q) && p in Members(q)
    ensures p in q.run || p in q.sleeping || p in q.waiting || p in q.blocked
    ensures p in q.run ==> p !in q.sleeping && p !in q.waiting && p !in q.blocked
    ensures p in q.sleeping ==> p !in q.run && p !in q.waiting && p !in q.blocked
    ensures p in q.waiting ==> p !in q.run && p !in q.sleeping && p !in q.blocked
    ensures p in q.blocked ==> p !in q.run && p !in q.sleeping && p !in q.waiting && !MayExit(q, p)
    ensures MayExit(q, p) ==> QueuesOk(Exited(q, p))
    ensures p in q.run ==> (HeadOf(Removed(q.run, Index(q.run, p))) == HeadOf(q.run) <==> MayExit(q, p))
    ensures p in q.sleeping ==> (HeadOf(Removed(q.sleeping, Index(q.sleeping, p))) == HeadOf(q.sleeping) <==>
      MayExit(q, p))
    ensures p in q.waiting ==> (HeadOf(Removed(q.waiting, Index(q.waiting, p))) == HeadOf(q.waiting) <==> MayExit(q, p))
  {
    AllApart(q);
    if MayExit(q, p) {
      ExitKeeps(q, p);
    }
    if p in q.run {
      HeadKept(q.run, p);
    } else if p in q.sleeping {
      HeadKept(q.sleeping, p);
    } else if p in q.waiting {
      HeadKept(q.waiting, p);
    }
  }

  /** A list after deleteNode's walk along it. */
  ghost predicate ListLeft(head: Pcb?, s: seq<Pcb>, p: Pcb)
    reads s
  {
    if p in s then head == HeadOf(s) && Chained(Removed(s, Index(s, p))) else Listed(head, s)
  }

  ghost function Without(s: seq<Pcb>, p: Pcb): seq<Pcb> { if p in s then Removed(s, Index(s, p)) else s }

  /** What a walk leaves, as a list without the process. */
  lemma LeftIs(head: Pcb?, s: seq<Pcb>, p: Pcb)
    ensures ListLeft(head, s, p) <==>
      head == HeadOf(s) && Chained(Without(s, p))
  {
  }

  lemma LeftWithin(s: seq<Pcb>, p: Pcb, other: Pcb?)
    requires Distinct(s)
    ensures var left := Without(s, p);
      Distinct(left) && p !in left && (forall k :: 0 <= k < |left| ==> left[k] in s)
      && (other != null && BehindHead(s, other) && other != p ==> other in left)
    ensures other != null && BehindHead(s, other) ==> other in s
  {
    if p in s {
      RemovedDistinct(s, Index(s, p));
      var left := Removed(s, Index(s, p));
      assert forall k :: 0 <= k < |left| ==> left[k] in left;
    }
  }

  /** Which lists are in order when the process has been taken out. */
  lemma ExitLists(q: Queues, p: Pcb, runHead: Pcb?, sleepHead: Pcb?, waitHead: Pcb?)
    requires QueuesOk(q) && p in Members(q)
    requires ListLeft(runHead, q.run, p) && ListLeft(sleepHead, q.sleeping, p) && ListLeft(waitHead, q.waiting, p)
    ensures var e := Exited(q, p);
      Listed(runHead, e.run) && Listed(sleepHead, e.sleeping) && Listed(waitHead, e.waiting) <==>
        MayExit(q, p) || p in q.blocked
  {
    ExitCases(q, p);
    ExitedIs(q, p);
    hide QueuesOk, Removed, MayExit, Members, Chained, Exited;
  }

  /** When the scheduler is in order after an exit: it was before, and the process was no head. */
  lemma ExitOrder(s: Scheduler, q: Queues, p: Pcb, lost: bool)
    requires QueuesOk(q) && p in Members(q)
    requires ListLeft(s.pcbHead, q.run, p) && ListLeft(s.sleepHead, q.sleeping, p)
    requires lost ==> s.waiting == q.waiting && s.waitHead != HeadOf(q.waiting)
    requires !lost ==> s.Q() == Exited(q, p) && ListLeft(s.waitHead, q.waiting, p)
    requires s.blockHead != null ==> s.blockHead.next == null && s.blockHead.prev == null
    ensures s.Valid() <==> !lost && (MayExit(q, p) || p in q.blocked)
    ensures MayExit(q, p) ==> p !in q.blocked && Follows(q, Exit(p), Exited(q, p))
  {
    ListedIs(s.waitHead, s.waiting);
    ExitCases(q, p);
    ExitedIs(q, p);
    hide QueuesOk, Removed, MayExit, Members, Chained, Exited, Listed, ListLeft;
    if !lost {
      ExitLists(q, p, s.pcbHead, s.sleepHead, s.waitHead);
    }
  }

  lemma ExitedIs(q: Queues, p: Pcb)
    requires QueuesOk(q) && p in Members(q)
    ensures var e := Exited(q, p);
      && e.run == (if p in q.run then Removed(q.run, Index(q.run, p)) else q.run)
      && e.sleeping == (if p in q.sleeping then Removed(q.sleeping, Index(q.sleeping, p)) else q.sleeping)
      && e.waiting == (if p in q.waiting then Removed(q.waiting, Index(q.waiting, p)) else q.waiting)
      && e.blocked == q.blocked
      && e.current == if p == q.current then After(q.run, Index(q.run, p)) else q.current
    ensures p in q.blocked ==> Exited(q, p) == q
  {
    ExitCases(q, p);
  }

  lemma HeadKept(s: seq<Pcb>, p: Pcb)
    requires Distinct(s) && p in s
    ensures HeadOf(Removed(s, Index(s, p))) == HeadOf(s) <==> BehindHead(s, p)
  {
    FirstRemoved(s, Index(s, p));
  }

  /** The process after the current one, as the links have it. */
  lemma NextRun(head: Pcb?, s: seq<Pcb>, p: Pcb)
    requires Listed(head, s) && Distinct(s) && p in s
    ensures head != null && (if p.next != null then p.next else head) == After(s, Index(s, p))
  {
    assert NodeOk(s, Index(s, p));
  }

  /** The node's neighbours are linked past it. */
  ghost predicate Bypassed(node: Pcb, s: seq<Pcb>)
    reads node, s
  {
    node.next != null ==> node.next in s && node.next.prev == node.prev
  }

  /** The list part of deleteNode. A walk from the head of a list takes the node out; a walk that begins further on
      in a list, which the node has left before (`again`), changes nothing. */
  method DeleteFrom(head: Pcb?, node: Pcb, ghost s: seq<Pcb>, ghost again: bool)
    requires Distinct(s) && Chained(s) && (again ==> node !in s && (head == node ==> Bypassed(node, s)))
    requires if again then head != null && (head == node || head in s) else head == HeadOf(s)
    modifies s`next, s`prev
    ensures if again then Chained(s) else ListLeft(head, s, node)
    ensures !again && node in s ==> Bypassed(node, Removed(s, Index(s, node)))
    ensures node.next == old(node.next) && node.prev == old(node.prev)
  {
    if head == node {
      assert !again ==> NodeOk(s, 0);
      if node.next != null {
        node.next.prev := node.prev;
      }
      if again {
        assert forall k :: 0 <= k < |s| && old(NodeOk(s, k)) ==> NodeOk(s, k);
      } else {
        IndexIs(s, 0);
        forall k | 0 <= k < |s| - 1 ensures NodeOk(Removed(s, 0), k) {
          assert old(NodeOk(s, k + 1));
        }
        assert 1 < |s| ==> Removed(s, 0)[0] == s[1];
      }
    } else {
      var temp := head;
      ghost var i := if again then Index(s, head) else 0;
      while temp != null && temp != node
        invariant 0 <= i <= |s| && temp == (if i < |s| then s[i] else null)
        invariant !again ==> node !in s[..i]
        decreases |s| - i
      {
        assert NodeOk(s, i);
        temp := temp.next;
        i := i + 1;
      }
      if temp != null {
        IndexIs(s, i);
        Unlink(node, s, i);
      }
    }
  }

  /** A pass is a step of a run when the head stays or everything wakes. */
  lemma PassFollows(q: Queues, due: seq<bool>)
    ensures |due| == |q.sleeping| && HeadStays(q.sleeping, due) ==>
      Follows(q, Step.WakeSleepers(due), SleepersWoken(q, due))
    ensures |due| == |q.waiting| && HeadStays(q.waiting, due) ==>
      Follows(q, Step.WakeWaiters(due), WaitersWoken(q, due))
  {
  }

  /** What is in order after a pass over the waiters. */
  lemma WaitersOrder(s: Scheduler, q: Queues, due: seq<bool>)
    requires QueuesOk(q) && |due| == |q.waiting| && s.Q() == WaitersWoken(q, due)
    requires Chained(s.run) && Chained(s.sleeping) && Chained(s.waiting)
    requires q.run != [] && s.pcbHead == HeadOf(q.run) && s.waitHead == HeadLeft(q.waiting, s.waiting)
    requires s.blockHead != null ==> s.blockHead.next == null && s.blockHead.prev == null
    ensures s.Valid() <==> HeadStays(q.waiting, due) && s.sleepHead == HeadOf(s.sleeping)
    ensures HeadStays(q.waiting, due) ==> s.ButSleepHead() && Follows(q, Step.WakeWaiters(due), s.Q())
    ensures s.sleepHead == HeadOf(s.sleeping) ==> s.ReadyForExit()
  {
    WaitHeadAfter(q, due);
    WakeWaitersKeeps(q, due);
    AllApart(q);
    hide QueuesOk, Distinct, Apart, Due, NotDue, HeadStays, Follows, HeadLeft, Chained, BehindHead;
    StaysIff(q.waiting, due);
    PassFollows(q, due);
  }

  /** A pass over the waiters touches no other list. */
  lemma WokenWithin(q: Queues, due: seq<bool>)
    requires QueuesOk(q) && |due| == |q.waiting|
    ensures var q' := WaitersWoken(q, due);
      (forall k :: 0 <= k < |q'.run| ==> q'.run[k] in q.run || q'.run[k] in q.waiting)
      && (forall k :: 0 <= k < |q'.waiting| ==> q'.waiting[k] in q.waiting)
  {
    DueDivides(q.waiting, due);
    hide Due, NotDue;
    var a, b := Due(q.waiting, due), NotDue(q.waiting, due);
    forall k | 0 <= k < |a| ensures a[k] in q.waiting {
      assert a[k] in Elements(a) + Elements(b);
    }
    forall k | 0 <= k < |b| ensures b[k] in q.waiting {
      assert b[k] in Elements(a) + Elements(b);
    }
  }

  /** Which process heads the list, and which follows, when one is taken out. */
  lemma HeadAfter(s: seq<Pcb>, i: nat)
    requires Distinct(s) && i < |s| && |s| >= 2
    ensures HeadOf(Removed(s, i)) == if i == 0 then s[1] else s[0]
  {
  }

  /** One process of a pass. */
  method WakeOne(cause: Cause, head: Pcb?, tail: Pcb, node: Pcb, ghost queue: seq<Pcb>, ghost run: seq<Pcb>,
      ghost due: seq<bool>, ghost k: nat)
      returns (head': Pcb?, tail': Pcb, next: Pcb?)
    requires Distinct(run) && Distinct(queue) && Apart(run, queue)
    requires k < |queue| == |due| && node == queue[k] && due[k] == IsDue(cause, node)
    requires Chained(Remaining(queue, due, k)) && Chained(Grown(run, queue, due, k))
    requires Grown(run, queue, due, k) != [] && tail == Grown(run, queue, due, k)[|Grown(run, queue, due, k)| - 1]
    requires head == HeadLeft(queue, Remaining(queue, due, k))
    modifies Remaining(queue, due, k)`next, Remaining(queue, due, k)`prev, tail`next, node`sleepTimeLeft, node`waitPID
    ensures Chained(Remaining(queue, due, k + 1)) && Chained(Grown(run, queue, due, k + 1))
    ensures Grown(run, queue, due, k + 1) != [] &&
      tail' == Grown(run, queue, due, k + 1)[|Grown(run, queue, due, k + 1)| - 1]
    ensures head' == HeadLeft(queue, Remaining(queue, due, k + 1))
    ensures next == (if k + 1 < |queue| then queue[k + 1] else null)
    ensures node.sleepTimeLeft == NewTime(cause, old(node.sleepTimeLeft), due[k])
    ensures node.waitPID == NewWait(cause, old(node.waitPID), due[k])
  {
    hide Distinct, Apart, Due, NotDue, Removed, Remaining, Grown, IsDue, Chained, HeadLeft;
    ghost var s, r, i := Remaining(queue, due, k), Grown(run, queue, due, k), |NotDue(queue[..k], due[..k])|;
    PassStep(run, queue, due, k);
    PassDistinct(run, queue, due, k);
    ChainedAt(s, i);
    HeadLeftIs(queue, s, i);
    next := node.next;
    head', tail' := head, tail;
    var wakes := CheckDue(cause, node, s, r);
    if wakes {
      if node.next == null && node.prev == null {
        head' := null;
      }
      Reset(cause, node, s, r);
      Move(node, tail, s, i, r);
      tail' := node;
    }
  }

  lemma ChainedAt(s: seq<Pcb>, i: nat)
    requires Chained(s) && i < |s|
    ensures s[i].next == (if i + 1 < |s| then s[i + 1] else null)
    ensures s[i].next == null && s[i].prev == null <==> |s| == 1
  {
    assert NodeOk(s, i);
  }

  /** What the head variable has to be when one process of the queue leaves. */
  lemma HeadLeftIs(queue: seq<Pcb>, s: seq<Pcb>, i: nat)
    requires i < |s|
    ensures HeadLeft(queue, Removed(s, i)) == if |s| == 1 then null else HeadLeft(queue, s)
  {
  }

  /** The variable for the head of the wait list after a pass: the head, or a process that has joined the run list. */
  lemma WaitHeadAfter(q: Queues, due: seq<bool>)
    requires QueuesOk(q) && |due| == |q.waiting|
    ensures var q', head := WaitersWoken(q, due), HeadLeft(q.waiting, NotDue(q.waiting, due));
      head == HeadOf(q'.waiting) || (q'.waiting != [] && head != null && BehindHead(q'.run, head))
  {
    AllApart(q);
    hide Due, NotDue, QueuesOk;
    if q.waiting != [] {
      FirstLeft(q.waiting, due);
      if due[0] {
        FirstDue(q.waiting, due);
      }
    }
  }

  lemma {:induction false} FirstDue(s: seq<Pcb>, due: seq<bool>)
    requires |s| == |due| && s != [] && due[0]
    ensures s[0] in Due(s, due)
  {
    var n := |s| - 1;
    if n > 0 {
      FirstDue(s[..n], due[..n]);
    }
  }

  /** The queue's variable is its head exactly when the head stays or nothing does. */
  lemma StaysIff(s: seq<Pcb>, due: seq<bool>)
    requires |s| == |due| && Distinct(s)
    ensures HeadLeft(s, NotDue(s, due)) == HeadOf(NotDue(s, due)) <==> HeadStays(s, due)
  {
    if s != [] {
      FirstLeft(s, due);
    }
  }

  lemma {:induction false} FirstLeft(s: seq<Pcb>, due: seq<bool>)
    requires |s| == |due| && Distinct(s) && s != []
    ensures NotDue(s, due) == [] <==> forall k :: 0 <= k < |due| ==> due[k]
    ensures NotDue(s, due) != [] ==> (NotDue(s, due)[0] == s[0] <==> !due[0]) && NotDue(s, due)[0] in s
  {
    var n := |s| - 1;
    DueLast(s, due);
    if n > 0 {
      FirstLeft(s[..n], due[..n]);
      assert due == due[..n] + [due[n]];
    } else {
      assert NotDue(s[..0], due[..0]) == [];
    }
  }
}
