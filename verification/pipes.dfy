/** The pipe branches of sys_read and sys_write in sys/syscall.c. */
module Pipes {

  const SIZE: nat := 20480

  newtype Byte = x: int | 0 <= x < 256

  /** r is the next index to read, w the last one written; an empty pipe is (0, -1). */
  datatype Cursors = Cursors(r: int, w: int)

  const EMPTY: Cursors := Cursors(0, -1)

  /** A position, counted around the end of the buffer. */
  function Slot(i: int): (k: nat)
    ensures k < SIZE
  {
    i % SIZE
  }

  predicate CursorsOk(c: Cursors) {
    c == EMPTY || (0 <= c.r < SIZE && 0 <= c.w < SIZE)
  }

  /** How many bytes the cursors say are in the pipe. */
  function Len(c: Cursors): (n: nat)
    ensures n <= SIZE
    ensures CursorsOk(c) ==> (n == 0 <==> c == EMPTY)
  {
    if c == EMPTY then 0 else (c.w - c.r) % SIZE + 1
  }

  predicate Full(c: Cursors) { (c.r - c.w == 1 && c.w != -1) || (c.w == SIZE - 1 && c.r == 0) }

  /** The encoding is one to one: the length and the read cursor determine the write cursor. */
  lemma LenDetermines(c: Cursors, d: Cursors)
    requires CursorsOk(c) && CursorsOk(d) && c.r == d.r && Len(c) == Len(d)
    ensures c == d
  {
    if c != EMPTY {
      assert (c.w - c.r) % SIZE == (d.w - c.r) % SIZE;
    }
  }

  lemma FullIs(c: Cursors)
    requires CursorsOk(c)
    ensures Full(c) <==> Len(c) == SIZE
  {
  }

  // ---------- contents ----------

  /** The bytes in the pipe, oldest first; the buffer begins at `base`. */
  function Queue(m: seq<Byte>, base: nat, c: Cursors): (q: seq<Byte>)
    requires base + SIZE <= |m|
    ensures |q| == Len(c)
  {
    seq(Len(c), k => m[base + Slot(c.r + k)])
  }

  /** memcpy on memory as a whole. */
  function Copied(m: seq<Byte>, to: nat, from: nat, n: nat): (r: seq<Byte>)
    requires to + n <= |m| && from + n <= |m|
    ensures |r| == |m|
  {
    m[..to] + m[from..from + n] + m[to + n..]
  }

  lemma CopiedAt(m: seq<Byte>, to: nat, from: nat, n: nat, k: nat)
    requires to + n <= |m| && from + n <= |m| && k < |m|
    ensures Copied(m, to, from, n)[k] == if to <= k < to + n then m[from + (k - to)] else m[k]
  {
  }

  lemma CopiedMore(m: seq<Byte>, to: nat, from: nat, n: nat)
    requires to + n < |m| && from + n < |m| && (to + n <= from || from + n < to)
    ensures Copied(m, to, from, n)[from + n] == m[from + n]
    ensures Copied(m, to, from, n)[to + n := m[from + n]] == Copied(m, to, from, n + 1)
  {
    CopiedAt(m, to, from, n, from + n);
    var a, b := Copied(m, to, from, n)[to + n := m[from + n]], Copied(m, to, from, n + 1);
    forall k: nat | k < |m| ensures a[k] == b[k] {
      CopiedAt(m, to, from, n, k);
      CopiedAt(m, to, from, n + 1, k);
    }
    hide Copied;
    assert a == b;
  }

  // ---------- what reads and writes do to the cursors ----------

  /** NoReturn: a copy whose unsigned length wraps around below zero. */
  datatype Outcome = Returned(n: int) | NoReturn

  function Min(a: nat, b: nat): nat { if a < b then a else b }

  /** Taking n bytes out. */
  ghost predicate Taken(c: Cursors, n: nat, c': Cursors) {
    CursorsOk(c') && n <= Len(c) && Len(c') == Len(c) - n && (c' != EMPTY ==> c'.r == Slot(c.r + n))
  }

  /** Putting n bytes in. */
  ghost predicate Put(c: Cursors, n: nat, c': Cursors) {
    CursorsOk(c') && Len(c') == Len(c) + n && c'.r == c.r
  }

  predicate Crosses(c: Cursors, n: nat) { c.r + n > SIZE }

  /** The one copy of a read takes bytes that lie one behind the other, or does not stop at the end of the buffer. */
  predicate CopiesExactly(c: Cursors, n: nat) { c != EMPTY && (Full(c) || !Crosses(c, n)) }

  /** What a read does to the cursors and returns. */
  ghost predicate ReadSpec(c: Cursors, closed: bool, count: nat, c': Cursors, out: Outcome) {
    var n := Min(count, Len(c));
    if c == EMPTY && !closed then out == Returned(Min(count, SIZE)) &&
      c' == Cursors(if count < SIZE then count else 0, -1)
    else if c == EMPTY || Full(c) || !Crosses(c, n) then out == Returned(n) && Taken(c, n, c')
    else if n == Len(c) then out == Returned(SIZE + c.w + 1) && Taken(c, n, c')
    else out == NoReturn
  }

  /** A write of n bytes goes past the end of the buffer. */
  predicate WriteCrosses(c: Cursors, n: nat) { c.r <= c.w && c.w + n >= SIZE }

  /** What a write that fits does to the cursors and returns. */
  ghost predicate WriteSpec(c: Cursors, n: nat, c': Cursors, out: Outcome) {
    if WriteCrosses(c, n) then out == NoReturn else out == Returned(n) && c' == Cursors(c.r, (c.w + n) % SIZE)
  }

  /** The length, without the remainder. */
  lemma LenIs(c: Cursors)
    requires CursorsOk(c)
    ensures c == EMPTY <==> c.r == 0 && c.w == -1
    ensures c == EMPTY <==> Len(c) == 0
    ensures c != EMPTY && c.r <= c.w ==> Len(c) == c.w - c.r + 1 && 0 <= c.r && c.w < SIZE
    ensures c != EMPTY && c.r > c.w ==> Len(c) == SIZE - c.r + c.w + 1 && 0 <= c.w && c.r < SIZE
  {
  }

  lemma TakenAll(c: Cursors)
    requires CursorsOk(c)
    ensures Taken(c, Len(c), EMPTY)
  {
  }

  lemma TakenNothing(c: Cursors)
    requires c == EMPTY
    ensures Taken(c, 0, c) && Len(c) == 0 && !Full(c)
  {
  }

  lemma TakenSome(c: Cursors, n: nat)
    requires CursorsOk(c) && c != EMPTY && n < Len(c)
    ensures Taken(c, n, Cursors((c.r + n) % SIZE, c.w))
    ensures c.r <= c.w ==> (c.r + n) % SIZE == c.r + n
  {
    LenIs(c);
    LenIs(Cursors((c.r + n) % SIZE, c.w));
  }

  lemma PutIn(c: Cursors, n: nat)
    requires CursorsOk(c) && 0 < n <= SIZE - Len(c)
    ensures Put(c, n, Cursors(c.r, (c.w + n) % SIZE))
    ensures c.w < c.r && c != EMPTY ==> (c.w + n) % SIZE == c.w + n
    ensures c.w < c.r ==> (c.w + 1) % SIZE == c.w + 1
  {
    LenIs(c);
    LenIs(Cursors(c.r, (c.w + n) % SIZE));
  }

  /** What a read leaves in memory: `start` is overwritten before the second copy of bytes that go around the
      end, so that its bytes land SIZE bytes behind the first ones. */
  ghost predicate ReadCopies(m: seq<Byte>, m': seq<Byte>, base: nat, c: Cursors, closed: bool, count: nat, buf: nat)
    requires CursorsOk(c) && base + 2 * SIZE <= |m| && buf + 2 * SIZE <= |m|
  {
    var n := Min(count, Len(c));
    if c == EMPTY then m' == if closed then m else Copied(m, buf, base, Min(count, SIZE))
    else if CopiesExactly(c, n) then m' == Copied(m, buf, base + c.r, n)
    else
      var first := Copied(m, buf, base + c.r, SIZE - c.r);
      m' == if n == Len(c) then Copied(first, buf + SIZE, base, c.w + 1) else first
  }

  lemma CopyNothing(m: seq<Byte>, to: nat, from: nat)
    requires to <= |m| && from <= |m|
    ensures Copied(m, to, from, 0) == m
  {
  }

  class Pipe {
    var r: int
    var w: int
    var isWriteClosed: bool
    const base: nat
    const memory: array<Byte>

    ghost function C(): Cursors
      reads this
    {
      Cursors(r, w)
    }

    /** The buffer is in memory, and so is everything behind it that a read past its end can reach. */
    ghost predicate Valid()
      reads this
    {
      base + 2 * SIZE <= memory.Length && CursorsOk(C())
    }

    ghost function Contents(): seq<Byte>
      requires Valid()
      reads this, memory
    {
      Queue(memory[..], base, C())
    }

    /** The caller's buffer, with the room behind it that the code can write to. */
    ghost predicate Apart(buf: nat, n: nat)
      reads this
    {
      buf + n <= memory.Length && (buf + n <= base || base + 2 * SIZE <= buf)
    }

    constructor (memory: array<Byte>, base: nat)
      requires base + 2 * SIZE <= memory.Length
      ensures Valid() && C() == EMPTY && !isWriteClosed && this.memory == memory && this.base == base
    {
      this.memory, this.base := memory, base;
      r, w, isWriteClosed := 0, -1, false;
    }

    method Memcpy(to: nat, from: nat, n: nat)
      requires to + n <= memory.Length && from + n <= memory.Length
      requires to + n <= from || from + n <= to
      modifies memory
      ensures memory[..] == Copied(old(memory[..]), to, from, n)
    {
      var i := 0;
      ghost var m := memory[..];
      while i < n
        invariant 0 <= i <= n && memory[..] == Copied(m, to, from, i)
      {
        CopiedMore(m, to, from, i);
        assert memory[from + i] == memory[..][from + i];
        memory[to + i] := memory[from + i];
        i := i + 1;
      }
    }

    /** A read. A pipe that is empty with its writer open is not waited for. */
    method Read(buf: nat, count: nat) returns (out: Outcome)
      requires Valid() && Apart(buf, 2 * SIZE)
      modifies this`r, this`w, memory
      ensures ReadSpec(old(C()), isWriteClosed, count, C(), out)
      ensures ReadCopies(old(memory[..]), memory[..], base, old(C()), isWriteClosed, count, buf)
      ensures var c := old(C()); var n := if count < Len(c) then count else Len(c);
        Len(c) > 0 && (forall i :: c.r <= i < c.r + n ==> Slot(i) == i) ==>
        Valid() && out == Returned(n) && memory[..][buf..buf + n] == old(Contents())[..n] &&
          Contents() == old(Contents())[n..]
    {
      hide Slot, Len, Copied, Queue;
      ghost var c, m := C(), memory[..];
      LenIs(c);
      CrossesIff(c, Min(count, Len(c)));
      out := ReadBranches(buf, count);
      if c != EMPTY && !Crosses(c, Min(count, Len(c))) {
        ReadTakesFront(m, memory[..], base, c, C(), Min(count, Len(c)), buf);
      }
    }

    /** The branches of a read. */
    method ReadBranches(buf: nat, count: nat) returns (out: Outcome)
      requires Valid() && Apart(buf, 2 * SIZE)
      modifies this`r, this`w, memory
      ensures ReadSpec(old(C()), isWriteClosed, count, C(), out)
      ensures ReadCopies(old(memory[..]), memory[..], base, old(C()), isWriteClosed, count, buf)
    {
      hide Len, Taken, Copied;
      ghost var c := C();
      FullIs(c);
      LenIs(c);
      TakenAll(c);
      var start, last := r, w;
      if start == 0 && last == -1 {
        if isWriteClosed {
          TakenNothing(c);
          return Returned(0);
        }
        TakenNothing(c);
      }
      if (start - last == 1 && last != -1) || (last == SIZE - 1 && start == 0) {
        if count >= SIZE {
          Memcpy(buf, base + start, SIZE);
          r, w := 0, -1;
          return Returned(SIZE);
        }
        Memcpy(buf, base + start, count);
        TakenSome(c, count);
        r := (r + count) % SIZE;
        return Returned(count);
      }
      if start <= last {
        if count >= last - start + 1 {
          Memcpy(buf, base + start, last - start + 1);
          r, w := 0, -1;
          return Returned(last - start + 1);
        }
        Memcpy(buf, base + start, count);
        TakenSome(c, count);
        r := r + count;
        return Returned(count);
      }
      out := ReadWrapped(buf, count);
    }

    /** The branch of a read whose bytes go around the end of the buffer; also taken when the pipe is empty. */
    method ReadWrapped(buf: nat, count: nat) returns (out: Outcome)
      requires Valid() && Apart(buf, 2 * SIZE) && r > w && !Full(C()) && (C() == EMPTY ==> !isWriteClosed)
      modifies this`r, this`w, memory
      ensures ReadSpec(old(C()), isWriteClosed, count, C(), out)
      ensures ReadCopies(old(memory[..]), memory[..], base, old(C()), isWriteClosed, count, buf)
    {
      hide Len, Taken, Copied;
      ghost var c := C();
      LenIs(c);
      TakenAll(c);
      var start, last := r, w;
      if count >= SIZE - start + last + 1 {
        CopyNothing(Copied(memory[..], buf, base + start, SIZE - start), buf + SIZE, base);
        Memcpy(buf, base + start, SIZE - start);
        start := 0;
        Memcpy(buf + SIZE - start, base + start, last + 1);
        r, w := 0, -1;
        return Returned(SIZE - start + last + 1);
      }
      if count <= SIZE - start {
        Memcpy(buf, base + start, count);
        if c != EMPTY {
          TakenSome(c, count);
        }
        r := (r + count) % SIZE;
        return Returned(count);
      }
      // start is set to 0 between the two copies, and the length of the second, count - SIZE, wraps around
      Memcpy(buf, base + start, SIZE - start);
      return NoReturn;
    }

    /** A write that fits. It returns exactly when its bytes lie one behind the other up to the end of the buffer. */
    method Write(buf: nat, n: nat) returns (out: Outcome)
      requires Valid() && Apart(buf, n) && 0 < n <= SIZE - Len(C())
      modifies this`w, memory
      ensures WriteSpec(old(C()), n, C(), out)
      ensures out == Returned(n) <==> forall i :: old(w) < i <= old(w) + n ==> Slot(i) == i
      ensures out != Returned(n) <==> out == NoReturn
      ensures out != NoReturn ==> Put(old(C()), n, C())
      ensures out != NoReturn ==> memory[..] == Copied(old(memory[..]), base + (old(w) + 1) % SIZE, buf, n)
      ensures out == NoReturn ==> memory[..] == Copied(old(memory[..]), base + old(w) + 1, buf, SIZE - old(w) - 1)
      ensures out != NoReturn ==> Valid() && Contents() == old(Contents()) + old(memory[..])[buf..buf + n]
    {
      hide Slot, Len, Put, Copied, Queue, WriteCrosses;
      ghost var c, m := C(), memory[..];
      out := WriteBranches(buf, n);
      WriteReturnsIff(c, n, C(), out);
      if out != NoReturn {
        WriteAppends(m, memory[..], base, c, C(), n, buf);
      }
    }

    /** The branches of a write. */
    method WriteBranches(buf: nat, n: nat) returns (out: Outcome)
      requires Valid() && Apart(buf, n) && 0 < n <= SIZE - Len(C())
      modifies this`w, memory
      ensures WriteSpec(old(C()), n, C(), out)
      ensures out != NoReturn ==> Put(old(C()), n, C())
      ensures out != NoReturn ==> memory[..] == Copied(old(memory[..]), base + (old(w) + 1) % SIZE, buf, n)
      ensures out == NoReturn ==> memory[..] == Copied(old(memory[..]), base + old(w) + 1, buf, SIZE - old(w) - 1)
    {
      hide Len, Put, Copied;
      ghost var c := C();
      LenIs(c);
      PutIn(c, n);
      var last := w;
      if r == 0 && last == -1 {
        Memcpy(base + (last + 1), buf, n);
        w := (w + n) % SIZE;
        return Returned(n);
      }
      if last < r {
        Memcpy(base + (last + 1), buf, n);
        w := w + n;
        return Returned(n);
      }
      if n < SIZE - last {
        Memcpy(base + (last + 1), buf, n);
        w := (w + n) % SIZE;
        return Returned(n);
      }
      // last is set to -1 between the two copies, and the length of the second, n - SIZE, wraps around
      Memcpy(base + (last + 1), buf, SIZE - last - 1);
      return NoReturn;
    }
  }

  // ---------- exactly when calls return ----------

  /** A write of bytes that fit returns exactly when none of them goes around the end of the buffer. */
  lemma WriteReturnsIff(c: Cursors, n: nat, c': Cursors, out: Outcome)
    requires CursorsOk(c) && 0 < n <= SIZE - Len(c) && WriteSpec(c, n, c', out)
    ensures out == Returned(n) <==> forall i :: c.w < i <= c.w + n ==> Slot(i) == i
    ensures out == Returned(n) || out == NoReturn
  {
    LenIs(c);
    if WriteCrosses(c, n) {
      assert Slot(c.w + n) != c.w + n;
    } else {
      WritePlace(c, n);
    }
  }

  /** A read of a pipe that is not empty takes the bytes asked for that are there. It does not return exactly when
      it leaves bytes behind in a pipe that was not full and takes some from both ends of the buffer; it returns
      another number than that of the bytes taken exactly when it empties such a pipe. */
  lemma ReadReturnsIff(c: Cursors, closed: bool, count: nat, c': Cursors, out: Outcome)
    requires CursorsOk(c) && Len(c) > 0 && ReadSpec(c, closed, count, c', out)
    ensures out == NoReturn <==>
      count < Len(c) < SIZE && exists i :: c.r <= i < c.r + count && Slot(i) != i
    ensures (forall i :: c.r <= i < c.r + count && i < c.r + Len(c) ==> Slot(i) == i) ==>
      out == Returned(if count < Len(c) then count else Len(c))
    ensures Len(c) == SIZE ==> out == Returned(if count < SIZE then count else SIZE)
    ensures count >= Len(c) && Len(c) < SIZE && (exists i :: c.r <= i < c.r + Len(c) && Slot(i) != i) ==>
      out == Returned(c.r + Len(c)) && out.n > Len(c)
  {
    LenIs(c);
    FullIs(c);
    CrossesIff(c, Min(count, Len(c)));
    hide Len, Taken, Full, Crosses, Slot;
  }

  /** A read of an empty pipe returns at once: nothing when the writers are gone, else a number of bytes that are
      not there. */
  lemma EmptyReadReturns(closed: bool, count: nat, c': Cursors, out: Outcome)
    requires ReadSpec(Cursors(0, -1), closed, count, c', out)
    ensures out == Returned(if closed then 0 else if count < SIZE then count else SIZE)
  {
  }

  // ---------- exactly when a read accounts for its bytes ----------

  /** The caller gets the number of bytes that left the pipe, and the pipe is in order. */
  ghost predicate Accounted(c: Cursors, c': Cursors, out: Outcome) {
    out.Returned? && 0 <= out.n <= Len(c) && Taken(c, out.n, c')
  }

  /** A read accounts for its bytes exactly when the pipe is not empty with an open writer, and the bytes
      taken from a pipe that is not full do not go around the end of the buffer. The bytes themselves may
      still be wrong: see ReadRightIff. */
  lemma ReadAccountedIff(c: Cursors, closed: bool, count: nat, c': Cursors, out: Outcome)
    requires CursorsOk(c) && ReadSpec(c, closed, count, c', out)
    ensures Accounted(c, c', out) <==>
      (Len(c) == 0 ==> closed || count == 0)
      && (0 < Len(c) < SIZE ==> forall i :: c.r <= i < c.r + count && i < c.r + Len(c) ==> Slot(i) == i)
  {
    LenIs(c);
    FullIs(c);
    CrossesIff(c, Min(count, Len(c)));
    hide Taken, Full, Crosses, Slot;
    TakenIs(c, c', 0);
    if out.Returned? && 0 <= out.n {
      TakenIs(c, c', out.n);
    }
  }

  /** The first n bytes go around the end of the buffer. */
  lemma CrossesIff(c: Cursors, n: nat)
    requires CursorsOk(c) && n <= Len(c)
    ensures Crosses(c, n) <==> exists i :: c.r <= i < c.r + n && Slot(i) != i
  {
    LenIs(c);
    if Crosses(c, n) {
      assert Slot(SIZE) != SIZE;
    }
  }

  lemma TakenIs(c: Cursors, c': Cursors, n: nat)
    requires CursorsOk(c)
    ensures Taken(c, n, c') ==> n <= Len(c) && CursorsOk(c')
    ensures c == c' && n == 0 ==> Taken(c, n, c')
  {
    LenIs(c);
  }

  /** Reading an empty pipe with an open writer leaves cursors that encode no state of a pipe. */
  lemma EmptyReadBreaksCursors(count: nat, c': Cursors, out: Outcome)
    requires 0 < count < SIZE && ReadSpec(EMPTY, false, count, c', out)
    ensures !CursorsOk(c') && out == Returned(count)
  {
  }

  // ---------- first in, first out ----------

  lemma QueueAt(m: seq<Byte>, base: nat, c: Cursors, k: nat)
    requires base + SIZE <= |m| && k < Len(c)
    ensures Queue(m, base, c)[k] == m[base + Slot(c.r + k)]
  {
  }

  /** What a read that does not cross copies is the front of the queue, and the rest stays. */
  lemma ReadTakesFront(m: seq<Byte>, m': seq<Byte>, base: nat, c: Cursors, c': Cursors, n: nat, buf: nat)
    requires CursorsOk(c) && c != EMPTY && base + SIZE <= |m| && buf + n <= |m|
    requires buf + n <= base || base + SIZE <= buf
    requires !Crosses(c, n) && Taken(c, n, c') && m' == Copied(m, buf, base + c.r, n)
    ensures m'[buf..buf + n] == Queue(m, base, c)[..n]
    ensures Queue(m', base, c') == Queue(m, base, c)[n..]
  {
    var q, q', front := Queue(m, base, c), Queue(m', base, c'), m'[buf..buf + n];
    forall k: nat | k < n ensures front[k] == q[k] {
      FrontByte(m, base, c, n, buf, k);
    }
    BufferKept(m, base, buf, base + c.r, n);
    LenIs(c');
    forall k: nat | k < Len(c') ensures q'[k] == q[n + k] {
      RestByte(m, m', base, c, c', n, buf, k);
    }
    hide *;
    assert front == q[..n];
    assert q' == q[n..];
  }

  lemma FrontByte(m: seq<Byte>, base: nat, c: Cursors, n: nat, buf: nat, k: nat)
    requires CursorsOk(c) && c != EMPTY && base + SIZE <= |m| && buf + n <= |m| && n <= Len(c)
    requires !Crosses(c, n) && k < n
    ensures Copied(m, buf, base + c.r, n)[buf + k] == Queue(m, base, c)[k]
  {
    hide Queue, Copied, Len;
    CopiedAt(m, buf, base + c.r, n, buf + k);
    QueueAt(m, base, c, k);
  }

  lemma RestByte(m: seq<Byte>, m': seq<Byte>, base: nat, c: Cursors, c': Cursors, n: nat, buf: nat, k: nat)
    requires base + SIZE <= |m| == |m'| && c'.r == Slot(c.r + n) && k < Len(c') && n + k < Len(c)
    requires forall a :: base <= a < base + SIZE ==> m'[a] == m[a]
    ensures Queue(m', base, c')[k] == Queue(m, base, c)[n + k]
  {
    hide Queue, Len, Slot;
    QueueAt(m', base, c', k);
    QueueAt(m, base, c, n + k);
    IndexShift(c.r, n, k);
  }

  /** A copy outside the buffer leaves it. */
  lemma BufferKept(m: seq<Byte>, base: nat, buf: nat, from: nat, n: nat)
    requires base + SIZE <= |m| && buf + n <= |m| && from + n <= |m| && (buf + n <= base || base + SIZE <= buf)
    ensures forall a :: base <= a < base + SIZE ==> Copied(m, buf, from, n)[a] == m[a]
  {
    forall a | base <= a < base + SIZE ensures Copied(m, buf, from, n)[a] == m[a] {
      CopiedAt(m, buf, from, n, a);
    }
  }


  // ---------- where every byte comes from ----------

  /** A read of an empty pipe with an open writer gives what the buffer starts with, else nothing. */
  lemma EmptyReadCopies(m: seq<Byte>, m': seq<Byte>, base: nat, closed: bool, count: nat, buf: nat, a: nat)
    requires ReadRoom(m, base, buf) && a < |m| && ReadCopies(m, m', base, Cursors(0, -1), closed, count, buf)
    ensures |m'| == |m|
    ensures m'[a] == if !closed && buf <= a < buf + count && a < buf + SIZE then m[base + (a - buf)] else m[a]
  {
    hide Copied;
    if !closed {
      CopiedAt(m, buf, base, Min(count, SIZE), a);
    }
  }

  /** Bytes that do not go around the end, and those of a full pipe even if they do, are copied from one place. */
  lemma StraightReadCopies(m: seq<Byte>, m': seq<Byte>, base: nat, c: Cursors, closed: bool, count: nat, buf: nat,
      a: nat)
    requires CursorsOk(c) && Len(c) > 0 && ReadRoom(m, base, buf) && a < |m|
    requires ReadCopies(m, m', base, c, closed, count, buf)
    requires Len(c) == SIZE || forall i :: c.r <= i < c.r + count && i < c.r + Len(c) ==> Slot(i) == i
    ensures var n := if count < Len(c) then count else Len(c);
      |m'| == |m| && m'[a] == if buf <= a < buf + n then m[base + c.r + (a - buf)] else m[a]
  {
    var n := Min(count, Len(c));
    LenIs(c);
    FullIs(c);
    CrossesIff(c, n);
    hide Len, Slot, Copied, Full, Crosses;
    CopiedAt(m, buf, base + c.r, n, a);
  }

  /** Of bytes that go around the end the first part is copied where it belongs; the second part lands SIZE bytes
      behind the start of the caller's buffer, however short the first was, and only when the pipe is emptied. */
  lemma WrappedReadCopies(m: seq<Byte>, m': seq<Byte>, base: nat, c: Cursors, closed: bool, count: nat, buf: nat,
      a: nat)
    requires CursorsOk(c) && 0 < Len(c) < SIZE && ReadRoom(m, base, buf) && a < |m|
    requires ReadCopies(m, m', base, c, closed, count, buf) && c.r + count > SIZE && c.r + Len(c) > SIZE
    ensures |m'| == |m| && m'[a] ==
      if buf <= a < buf + SIZE - c.r then m[base + c.r + (a - buf)]
      else if count >= Len(c) && buf + SIZE <= a <= buf + SIZE + c.w then m[base + (a - buf - SIZE)]
      else m[a]
  {
    hide Len, Slot, Copied, Full;
    LenIs(c);
    FullIs(c);
    var n := Min(count, Len(c));
    assert !CopiesExactly(c, n) && c.w < c.r;
    var n1, n2 := SIZE - c.r, c.w + 1;
    var first := Copied(m, buf, base + c.r, n1);
    assert m' == if n == Len(c) then Copied(first, buf + SIZE, base, n2) else first;
    hide ReadCopies;
    TwoCopies(m, buf, base, c.r, n1, n2, a);
  }

  lemma TwoCopies(m: seq<Byte>, buf: nat, base: nat, r: nat, n1: nat, n2: nat, a: nat)
    requires ReadRoom(m, base, buf) && a < |m| && r + n1 == SIZE && n2 <= SIZE
    ensures var first := Copied(m, buf, base + r, n1); var second := Copied(first, buf + SIZE, base, n2);
      && first[a] == (if buf <= a < buf + n1 then m[base + r + (a - buf)] else m[a])
      && second[a] == (if buf <= a < buf + n1 then m[base + r + (a - buf)]
                       else if buf + SIZE <= a < buf + SIZE + n2 then m[base + (a - buf - SIZE)] else m[a])
  {
    hide Copied;
    var first := Copied(m, buf, base + r, n1);
    CopiedAt(m, buf, base + r, n1, a);
    CopiedAt(first, buf + SIZE, base, n2, a);
    if buf + SIZE <= a < buf + SIZE + n2 {
      CopiedAt(m, buf, base + r, n1, base + (a - buf - SIZE));
    }
  }

  // ---------- exactly when a read is right ----------

  /** The pipe's buffer and the caller's, with what a read can touch behind them, are in memory and apart. */
  predicate ReadRoom(m: seq<Byte>, base: nat, buf: nat) {
    base + 2 * SIZE <= |m| && buf + 2 * SIZE <= |m| && (buf + 2 * SIZE <= base || base + 2 * SIZE <= buf)
  }

  /** What the caller finds in its buffer is the front of the queue, whatever memory holds. */
  ghost predicate Delivers(base: nat, c: Cursors, closed: bool, count: nat, n: nat)
    requires CursorsOk(c) && n <= Len(c)
  {
    forall m: seq<Byte>, m': seq<Byte>, buf: nat ::
      ReadRoom(m, base, buf) && ReadCopies(m, m', base, c, closed, count, buf) ==>
        buf + n <= |m'| && m'[buf..buf + n] == Queue(m, base, c)[..n]
  }

  /** A read is right, in its result and in its bytes, exactly when an empty pipe is closed or nothing is asked
      for, and the bytes taken do not go around the end of the buffer. */
  lemma ReadRightIff(base: nat, c: Cursors, closed: bool, count: nat, c': Cursors, out: Outcome)
    requires CursorsOk(c) && ReadSpec(c, closed, count, c', out)
    ensures var n := Min(count, Len(c));
      out == Returned(n) && Taken(c, n, c') && Delivers(base, c, closed, count, n) <==>
        (Len(c) == 0 ==> closed || count == 0)
        && forall i :: c.r <= i < c.r + count && i < c.r + Len(c) ==> Slot(i) == i
  {
    var n := Min(count, Len(c));
    LenIs(c);
    CrossesIff(c, n);
    if c == EMPTY {
      EmptyDelivers(base, closed, count);
      TakenNothing(c);
    } else if !Crosses(c, n) {
      StraightDelivers(base, c, closed, count);
    } else if Full(c) {
      FullMisses(base, c, closed, count);
    }
  }

  lemma EmptyDelivers(base: nat, closed: bool, count: nat)
    ensures closed || count == 0 ==> Delivers(base, EMPTY, closed, count, 0)
  {
    if closed || count == 0 {
      forall m: seq<Byte>, m': seq<Byte>, buf: nat |
        ReadRoom(m, base, buf) && ReadCopies(m, m', base, EMPTY, closed, count, buf)
        ensures buf + 0 <= |m'| && m'[buf..buf + 0] == Queue(m, base, EMPTY)[..0]
      {
        assert |m'| == |m|;
      }
    }
  }

  lemma StraightDelivers(base: nat, c: Cursors, closed: bool, count: nat)
    requires CursorsOk(c) && c != EMPTY && !Crosses(c, Min(count, Len(c)))
    ensures Delivers(base, c, closed, count, Min(count, Len(c)))
  {
    var n := Min(count, Len(c));
    forall m: seq<Byte>, m': seq<Byte>, buf: nat |
      ReadRoom(m, base, buf) && ReadCopies(m, m', base, c, closed, count, buf)
      ensures buf + n <= |m'| && m'[buf..buf + n] == Queue(m, base, c)[..n]
    {
      FrontDelivered(m, base, c, n, buf);
    }
  }

  lemma FrontDelivered(m: seq<Byte>, base: nat, c: Cursors, n: nat, buf: nat)
    requires CursorsOk(c) && c != EMPTY && base + SIZE <= |m| && buf + n <= |m| && n <= Len(c) && !Crosses(c, n)
    ensures Copied(m, buf, base + c.r, n)[buf..buf + n] == Queue(m, base, c)[..n]
  {
    var front, q := Copied(m, buf, base + c.r, n)[buf..buf + n], Queue(m, base, c);
    forall k: nat | k < n ensures front[k] == q[k] {
      FrontByte(m, base, c, n, buf, k);
    }
    hide *;
    assert front == q[..n];
  }

  /** A memory that shows it: the byte behind the buffer differs from its first one. */
  lemma FullMisses(base: nat, c: Cursors, closed: bool, count: nat)
    requires CursorsOk(c) && c != EMPTY && Full(c) && Crosses(c, Min(count, Len(c)))
    ensures !Delivers(base, c, closed, count, Min(count, Len(c)))
  {
    var n, buf := Min(count, Len(c)), base + 2 * SIZE;
    var m: seq<Byte> := seq(base + 4 * SIZE, i => if i == base + SIZE then 1 else 0);
    var m' := Copied(m, buf, base + c.r, n);
    LenIs(c);
    assert ReadCopies(m, m', base, c, closed, count, buf);
    var k := SIZE - c.r;
    CopiedAt(m, buf, base + c.r, n, buf + k);
    QueueAt(m, base, c, k);
    assert m'[buf + k] == 1 && Queue(m, base, c)[k] == m[base];
    assert m'[buf..buf + n][k] == m'[buf + k] && Queue(m, base, c)[..n][k] == Queue(m, base, c)[k];
  }

  lemma IndexShift(r: int, n: nat, k: nat)
    ensures Slot(Slot(r + n) + k) == Slot(r + (n + k))
  {
  }

  /** A write that does not cross puts its bytes behind the queue. */
  lemma WriteAppends(m: seq<Byte>, m': seq<Byte>, base: nat, c: Cursors, c': Cursors, n: nat, buf: nat)
    requires CursorsOk(c) && base + SIZE <= |m| && buf + n <= |m| && (buf + n <= base || base + SIZE <= buf)
    requires 0 < n <= SIZE - Len(c) && !WriteCrosses(c, n) && Put(c, n, c')
    requires m' == Copied(m, base + (c.w + 1) % SIZE, buf, n)
    ensures Queue(m', base, c') == Queue(m, base, c) + m[buf..buf + n]
  {
    var q, q', more := Queue(m, base, c), Queue(m', base, c'), m[buf..buf + n];
    WritePlace(c, n);
    forall k: nat | k < Len(c') ensures q'[k] == if k < Len(c) then q[k] else more[k - Len(c)] {
      WrittenByte(m, base, c, c', n, buf, k);
    }
    hide *;
    assert q' == q + more;
  }

  lemma WrittenByte(m: seq<Byte>, base: nat, c: Cursors, c': Cursors, n: nat, buf: nat, k: nat)
    requires CursorsOk(c) && base + SIZE <= |m| && buf + n <= |m| && 0 <= c.w + 1 && c.w + 1 + n <= SIZE
    requires 0 < n <= SIZE - Len(c) && !WriteCrosses(c, n) && Put(c, n, c') && k < Len(c')
    ensures Queue(Copied(m, base + (c.w + 1), buf, n), base, c')[k] ==
      if k < Len(c) then Queue(m, base, c)[k] else m[buf + (k - Len(c))]
  {
    hide Queue, Copied, Len, CursorsOk;
    QueueAt(Copied(m, base + (c.w + 1), buf, n), base, c', k);
    QueuePlace(c, n, k);
    CopiedAt(m, base + (c.w + 1), buf, n, base + Slot(c.r + k));
    if k < Len(c) {
      QueueAt(m, base, c, k);
    }
  }

  lemma WritePlace(c: Cursors, n: nat)
    requires CursorsOk(c) && 0 < n <= SIZE - Len(c) && !WriteCrosses(c, n)
    ensures (c.w + 1) % SIZE == c.w + 1 && c.w + 1 + n <= SIZE
  {
    LenIs(c);
  }

  /** Queue position `k` lies in the written range exactly when it is a new one. */
  lemma QueuePlace(c: Cursors, n: nat, k: nat)
    requires CursorsOk(c) && 0 < n <= SIZE - Len(c) && !WriteCrosses(c, n) && k < Len(c) + n
    ensures var p := Slot(c.r + k);
      if k < Len(c) then !(c.w + 1 <= p < c.w + 1 + n) else p == c.w + 1 + (k - Len(c))
  {
    LenIs(c);
    WritePlace(c, n);
  }

  // ---------- runs ----------

  /** A transfer: the bytes, and the cursors and buffer after it. */
  datatype Event = Wrote(data: seq<Byte>) | GotBytes(data: seq<Byte>)

  function Written(run: seq<Event>): seq<Byte> {
    if run == [] then []
    else Written(run[..|run| - 1]) + (match run[|run| - 1] case Wrote(d) => d case GotBytes(_) => [])
  }

  function Got(run: seq<Event>): seq<Byte> {
    if run == [] then []
    else Got(run[..|run| - 1]) + (match run[|run| - 1] case Wrote(_) => [] case GotBytes(d) => d)
  }

  /** The pipe between two transfers: its part of memory and its cursors. */
  datatype PipeState = PipeState(m: seq<Byte>, base: nat, c: Cursors)

  predicate StateOk(s: PipeState) { CursorsOk(s.c) && s.base + SIZE <= |s.m| }

  /** One transfer. Between transfers the rest of memory may change: the step starts from some memory
      with the same buffer. */
  ghost predicate Transfer(s: PipeState, e: Event, s': PipeState) {
    StateOk(s) && exists m: seq<Byte>, buf: nat :: TransferAt(s, m, buf, e, s')
  }

  ghost predicate TransferAt(s: PipeState, m: seq<Byte>, buf: nat, e: Event, s': PipeState)
    requires StateOk(s)
  {
    && |m| >= s.base + SIZE && m[s.base..s.base + SIZE] == s.m[s.base..s.base + SIZE]
    && buf + |e.data| <= |m| && (buf + |e.data| <= s.base || s.base + SIZE <= buf) && s'.base == s.base
    && (match e
        case Wrote(d) =>
          && 0 < |d| <= SIZE - Len(s.c) && !WriteCrosses(s.c, |d|) && d == m[buf..buf + |d|]
          && Put(s.c, |d|, s'.c) && s'.m == Copied(m, s.base + (s.c.w + 1) % SIZE, buf, |d|)
        case GotBytes(d) =>
          && s.c != EMPTY && !Crosses(s.c, |d|) && Taken(s.c, |d|, s'.c)
          && s'.m == Copied(m, buf, s.base + s.c.r, |d|) && d == s'.m[buf..buf + |d|])
  }

  lemma QueueSame(m: seq<Byte>, m': seq<Byte>, base: nat, c: Cursors)
    requires CursorsOk(c) && base + SIZE <= |m| && base + SIZE <= |m'| && m[base..base + SIZE] == m'[base..base + SIZE]
    ensures Queue(m, base, c) == Queue(m', base, c)
  {
    forall k: nat | k < Len(c) ensures Queue(m, base, c)[k] == Queue(m', base, c)[k] {
      var i := Slot(c.r + k);
      assert m[base..base + SIZE][i] == m'[base..base + SIZE][i];
    }
  }

  ghost predicate IsRun(states: seq<PipeState>, run: seq<Event>) {
    && |states| == |run| + 1 && StateOk(states[0]) && states[0].c == EMPTY
    && forall i :: 0 <= i < |run| ==> Transfer(states[i], run[i], states[i + 1])
  }

  /** What the methods promise is a transfer, when it does not cross. */
  lemma ReadIsTransfer(m: seq<Byte>, base: nat, c: Cursors, closed: bool, count: nat, buf: nat, c': Cursors,
      out: Outcome)
    requires CursorsOk(c) && c != EMPTY && base + SIZE <= |m| && buf + Min(count, Len(c)) <= |m|
    requires buf + Min(count, Len(c)) <= base || base + SIZE <= buf
    requires ReadSpec(c, closed, count, c', out) && !Crosses(c, Min(count, Len(c)))
    ensures var n := Min(count, Len(c)); var m' := Copied(m, buf, base + c.r, n);
      out == Returned(n) && Transfer(PipeState(m, base, c), GotBytes(m'[buf..buf + n]), PipeState(m', base, c'))
  {
    hide Len, Taken, Copied;
    var n := Min(count, Len(c));
    var m' := Copied(m, buf, base + c.r, n);
    assert TransferAt(PipeState(m, base, c), m, buf, GotBytes(m'[buf..buf + n]), PipeState(m', base, c'));
  }

  lemma WriteIsTransfer(m: seq<Byte>, base: nat, c: Cursors, n: nat, buf: nat, c': Cursors)
    requires CursorsOk(c) && base + SIZE <= |m| && buf + n <= |m| && (buf + n <= base || base + SIZE <= buf)
    requires 0 < n <= SIZE - Len(c) && !WriteCrosses(c, n) && Put(c, n, c')
    ensures base + (c.w + 1) % SIZE + n <= |m|
    ensures var m' := Copied(m, base + (c.w + 1) % SIZE, buf, n);
      Transfer(PipeState(m, base, c), Wrote(m[buf..buf + n]), PipeState(m', base, c'))
  {
    WritePlace(c, n);
    hide Len, Put, Copied, WriteCrosses, CursorsOk;
    var m' := Copied(m, base + (c.w + 1) % SIZE, buf, n);
    assert TransferAt(PipeState(m, base, c), m, buf, Wrote(m[buf..buf + n]), PipeState(m', base, c'));
  }

  lemma TransferMeans(s: PipeState, e: Event, s': PipeState)
    requires Transfer(s, e, s')
    ensures StateOk(s')
    ensures e.Wrote? ==> Queue(s'.m, s'.base, s'.c) == Queue(s.m, s.base, s.c) + e.data
    ensures e.GotBytes? ==> Queue(s.m, s.base, s.c) == e.data + Queue(s'.m, s'.base, s'.c)
  {
    var m, buf :| TransferAt(s, m, buf, e, s');
    NextStateOk(s, m, buf, e, s');
    QueueSame(s.m, m, s.base, s.c);
    match e
    case Wrote(d) =>
      WroteMeans(s, m, buf, d, s');
    case GotBytes(d) =>
      GotMeans(s, m, buf, d, s');
  }

  lemma WroteMeans(s: PipeState, m: seq<Byte>, buf: nat, d: seq<Byte>, s': PipeState)
    requires StateOk(s) && StateOk(s') && TransferAt(s, m, buf, Wrote(d), s')
    ensures Queue(s'.m, s'.base, s'.c) == Queue(m, s.base, s.c) + d
  {
    hide Queue, Len, Copied, CursorsOk, WriteCrosses;
    WriteAppends(m, s'.m, s.base, s.c, s'.c, |d|, buf);
  }

  lemma GotMeans(s: PipeState, m: seq<Byte>, buf: nat, d: seq<Byte>, s': PipeState)
    requires StateOk(s) && StateOk(s') && TransferAt(s, m, buf, GotBytes(d), s')
    ensures Queue(m, s.base, s.c) == d + Queue(s'.m, s'.base, s'.c)
  {
    hide Queue, Len, Copied, CursorsOk, Crosses;
    ReadTakesFront(m, s'.m, s.base, s.c, s'.c, |d|, buf);
    Halves(Queue(m, s.base, s.c), |d|);
  }

  lemma Halves(q: seq<Byte>, n: nat)
    requires n <= |q|
    ensures q == q[..n] + q[n..]
  {
  }

  lemma NextStateOk(s: PipeState, m: seq<Byte>, buf: nat, e: Event, s': PipeState)
    requires StateOk(s) && TransferAt(s, m, buf, e, s')
    ensures StateOk(s')
  {
    hide Queue, Len, Crosses, WriteCrosses;
  }

  /** Over any run of transfers that do not cross the buffer end, what was written is what was read
      followed by what the cursors say is still in the pipe. */
  lemma {:induction false} FirstInFirstOut(states: seq<PipeState>, run: seq<Event>)
    requires IsRun(states, run)
    ensures var s := states[|run|]; StateOk(s) && Written(run) == Got(run) + Queue(s.m, s.base, s.c)
  {
    hide Queue, Transfer, Len, CursorsOk, Written, Got;
    if run == [] {
      NothingYet(states[0]);
    } else {
      var n := |run| - 1;
      var states', run' := states[..n + 1], run[..n];
      FirstInFirstOut(states', run');
      assert Transfer(states[n], run[n], states[n + 1]);
      TransferMeans(states[n], run[n], states[n + 1]);
      var s, s' := states[n], states[n + 1];
      OneMore(run, Queue(s.m, s.base, s.c), Queue(s'.m, s'.base, s'.c));
    }
  }

  lemma NothingYet(s: PipeState)
    requires StateOk(s) && s.c == EMPTY
    ensures Written([]) == Got([]) + Queue(s.m, s.base, s.c)
  {
  }

  lemma OneMore(run: seq<Event>, q: seq<Byte>, q': seq<Byte>)
    requires run != []
    requires Written(run[..|run| - 1]) == Got(run[..|run| - 1]) + q
    requires run[|run| - 1].Wrote? ==> q' == q + run[|run| - 1].data
    requires run[|run| - 1].GotBytes? ==> q == run[|run| - 1].data + q'
    ensures Written(run) == Got(run) + q'
  {
    var e, w, g := run[|run| - 1], Written(run[..|run| - 1]), Got(run[..|run| - 1]);
    assert Written(run) == w + if e.Wrote? then e.data else [];
    assert Got(run) == g + if e.Wrote? then [] else e.data;
    hide *;
    if e.Wrote? {
      Associates(g, q, e.data);
    } else {
      Associates(g, e.data, q');
    }
  }

  lemma Associates(a: seq<Byte>, b: seq<Byte>, c: seq<Byte>)
    ensures (a + b) + c == a + (b + c) && a + [] == a
  {
  }

  // ---------- what the cursors count ----------

  /** Bytes going in or out, as the length of the pipe sees them. */
  datatype Move = In(n: nat) | Out(n: nat)

  function Balance(moves: seq<Move>): int {
    if moves == [] then 0
    else
      var last := moves[|moves| - 1];
      Balance(moves[..|moves| - 1]) + if last.In? then last.n else -(last.n as int)
  }

  ghost predicate Moved(c: Cursors, move: Move, c': Cursors) {
    match move
    case In(n) => 0 < n <= SIZE - Len(c) && Put(c, n, c')
    case Out(n) => Taken(c, n, c')
  }

  lemma {:induction false} CursorsCount(cs: seq<Cursors>, moves: seq<Move>)
    requires |cs| == |moves| + 1 && cs[0] == EMPTY
    requires forall i :: 0 <= i < |moves| ==> Moved(cs[i], moves[i], cs[i + 1])
    ensures CursorsOk(cs[|moves|]) && Len(cs[|moves|]) == Balance(moves) <= SIZE
  {
    if moves != [] {
      var n := |moves| - 1;
      CursorsCount(cs[..n + 1], moves[..n]);
      assert Moved(cs[n], moves[n], cs[n + 1]);
    }
  }

  /** A read that asks an empty pipe with an open writer for nothing, or for a whole buffer, leaves it as it was. */
  predicate Harmless(c: Cursors, closed: bool, count: nat) {
    c == EMPTY ==> closed || count == 0 || count >= SIZE
  }

  /** A read that returns leaves cursors that encode a state exactly when it is harmless, and then, and only
      then, the length goes down by the bytes that were there of those asked for. */
  lemma ReadMovesIff(c: Cursors, closed: bool, count: nat, c': Cursors, out: Outcome)
    requires CursorsOk(c) && ReadSpec(c, closed, count, c', out) && out != NoReturn
    ensures CursorsOk(c') <==> Harmless(c, closed, count)
    ensures Moved(c, Out(Min(count, Len(c))), c') <==> Harmless(c, closed, count)
    ensures (exists n: nat :: Moved(c, Out(n), c')) <==> Harmless(c, closed, count)
  {
    LenIs(c);
    TakenNothing(EMPTY);
    hide Len, Full, Crosses;
  }

  /** A write that returns puts its bytes in. */
  lemma WriteMoves(c: Cursors, n: nat, c': Cursors, out: Outcome)
    requires CursorsOk(c) && 0 < n <= SIZE - Len(c) && WriteSpec(c, n, c', out) && out != NoReturn
    ensures out == Returned(n) && Moved(c, In(n), c')
  {
    PutIn(c, n);
  }

  /** A call of sys_read or sys_write on the pipe. */
  datatype Call = ReadCall(closed: bool, count: nat) | WriteCall(n: nat)

  /** The call returned, and moved the cursors like this. */
  ghost predicate Called(c: Cursors, call: Call, c': Cursors) {
    match call
    case ReadCall(closed, count) => exists out :: ReadSpec(c, closed, count, c', out) && out != NoReturn
    case WriteCall(n) => 0 < n <= SIZE - Len(c) && exists out :: WriteSpec(c, n, c', out) && out != NoReturn
  }

  /** The bytes the call should move. */
  function MoveOf(c: Cursors, call: Call): Move {
    match call
    case ReadCall(_, count) => Out(Min(count, Len(c)))
    case WriteCall(n) => In(n)
  }

  function MovesOf(cs: seq<Cursors>, calls: seq<Call>): (moves: seq<Move>)
    requires |cs| == |calls| + 1
    ensures |moves| == |calls| && forall i :: 0 <= i < |calls| ==> moves[i] == MoveOf(cs[i], calls[i])
  {
    seq(|calls|, i requires 0 <= i < |calls| => MoveOf(cs[i], calls[i]))
  }

  predicate Orderly(c: Cursors, call: Call) { call.ReadCall? ==> Harmless(c, call.closed, call.count) }

  lemma CallMovesIff(c: Cursors, call: Call, c': Cursors)
    requires CursorsOk(c) && Called(c, call, c')
    ensures CursorsOk(c') <==> Orderly(c, call)
    ensures Moved(c, MoveOf(c, call), c') <==> Orderly(c, call)
  {
    hide ReadSpec, WriteSpec, Len;
    match call
    case ReadCall(closed, count) =>
      var out :| ReadSpec(c, closed, count, c', out) && out != NoReturn;
      ReadMovesIff(c, closed, count, c', out);
    case WriteCall(n) =>
      var out :| WriteSpec(c, n, c', out) && out != NoReturn;
      WriteMoves(c, n, c', out);
  }

  /** Over any calls from an empty pipe that all return, the cursors encode a state all the way exactly when
      every read was harmless where it was made; and then the length is the bytes written less the bytes taken. */
  lemma CallsCountIff(cs: seq<Cursors>, calls: seq<Call>)
    requires |cs| == |calls| + 1 && cs[0] == EMPTY
    requires forall i :: 0 <= i < |calls| && CursorsOk(cs[i]) ==> Called(cs[i], calls[i], cs[i + 1])
    ensures (forall i :: 0 <= i <= |calls| ==> CursorsOk(cs[i])) <==>
      forall i :: 0 <= i < |calls| ==> Orderly(cs[i], calls[i])
    ensures (forall i :: 0 <= i < |calls| ==> Orderly(cs[i], calls[i])) ==>
      Len(cs[|calls|]) == Balance(MovesOf(cs, calls)) <= SIZE
  {
    hide Called, Len, Orderly, CursorsOk, Moved, Balance;
    if forall i :: 0 <= i < |calls| ==> Orderly(cs[i], calls[i]) {
      AllInOrder(cs, calls, |calls|);
      forall i | 0 <= i < |calls| ensures Moved(cs[i], MovesOf(cs, calls)[i], cs[i + 1]) {
        AllInOrder(cs, calls, i);
        CallMovesIff(cs[i], calls[i], cs[i + 1]);
      }
      CursorsCount(cs, MovesOf(cs, calls));
      forall i | 0 <= i <= |calls| ensures CursorsOk(cs[i]) {
        AllInOrder(cs, calls, i);
      }
    } else if forall i :: 0 <= i <= |calls| ==> CursorsOk(cs[i]) {
      forall i | 0 <= i < |calls| ensures Orderly(cs[i], calls[i]) {
        assert CursorsOk(cs[i]) && CursorsOk(cs[i + 1]);
        CallMovesIff(cs[i], calls[i], cs[i + 1]);
      }
    }
  }

  lemma {:induction false} AllInOrder(cs: seq<Cursors>, calls: seq<Call>, k: nat)
    requires |cs| == |calls| + 1 && cs[0] == EMPTY && k <= |calls|
    requires forall i :: 0 <= i < |calls| && CursorsOk(cs[i]) ==> Called(cs[i], calls[i], cs[i + 1])
    requires forall i :: 0 <= i < k ==> Orderly(cs[i], calls[i])
    ensures CursorsOk(cs[k])
  {
    if k > 0 {
      hide Called, Len, Orderly, Moved;
      AllInOrder(cs, calls, k - 1);
      CallMovesIff(cs[k - 1], calls[k - 1], cs[k]);
    }
  }
}
