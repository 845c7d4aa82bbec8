/** Path strings: parseFileName of sys/tarfs.c and what splitting a path means. */
module Paths {

  const SLASH: char := '/'

  /** The pieces between slashes, at least one. */
  function Split(s: string): (r: seq<string>)
    ensures |r| >= 1
  {
    if s == [] then [[]]
    else
      Extend(Split(s[..|s| - 1]), s[|s| - 1])
  }

  /** The components of a non-empty path: a trailing slash adds none. */
  function Components(s: string): seq<string>
    requires s != []
  {
    var r := Split(s);
    if s[|s| - 1] == SLASH then r[..|r| - 1] else r
  }

  /** parseFileName. The empty string is excluded: the source then reads before its start. */
  method ParseFileName(s: string) returns (args: seq<string>, count: nat)
    requires s != []
    ensures count <= |args| && args[..count] == Components(s) && count >= 1
  {
    hide Split, Extend, Components;
    args, count := [[]], 0;
    var j, i := 0, 0;
    SplitNothing(s);
    while i < |s|
      invariant 0 <= i <= |s| && j == count && |args| == j + 1 && args == Split(s[..i])
    {
      SplitNext(s, i);
      if s[i] != SLASH {
        args := args[j := args[j] + [s[i]]];
      } else {
        j := j + 1;
        args := args + [[]];
        count := count + 1;
      }
      i := i + 1;
    }
    if s[i - 1] != SLASH {
      count := count + 1;
    }
    ComponentsCounted(s, count);
  }

  lemma SplitNothing(s: string)
    ensures Split(s[..0]) == [[]]
  {
  }

  lemma ComponentsCounted(s: string, count: nat)
    requires s != [] && count == |Split(s[..|s|])| - if s[|s| - 1] == SLASH then 1 else 0
    ensures count >= 1 && count <= |Split(s[..|s|])| && Split(s[..|s|])[..count] == Components(s)
  {
    assert s[..|s|] == s;
    if s[|s| - 1] == SLASH {
      SplitAfterSlash(s);
    }
  }

  lemma SplitNext(s: string, i: nat)
    requires i < |s|
    ensures s[i] == SLASH ==> Split(s[..i + 1]) == Split(s[..i]) + [[]]
    ensures s[i] != SLASH ==> var r := Split(s[..i]); Split(s[..i + 1]) == r[|r| - 1 := r[|r| - 1] + [s[i]]]
  {
    assert s[..i + 1] == s[..i] + [s[i]];
    SplitSnoc(s[..i], s[i]);
  }

  lemma SplitAfterSlash(s: string)
    requires s != [] && s[|s| - 1] == SLASH
    ensures |Split(s)| >= 2
  {
  }

  /** One more character: a new piece, or a longer last piece. */
  function Extend(r: seq<string>, c: char): seq<string>
    requires |r| >= 1
  {
    if c == SLASH then r + [[]] else r[..|r| - 1] + [r[|r| - 1] + [c]]
  }

  lemma SplitSnoc(s: string, c: char)
    ensures Split(s + [c]) == Extend(Split(s), c)
  {
    assert (s + [c])[..|s|] == s;
  }

  lemma ExtendJoin(a: seq<string>, b: seq<string>, c: char)
    requires |b| >= 1
    ensures Extend(a + b, c) == a + Extend(b, c)
  {
    assert (a + b)[..|a + b| - 1] == a + b[..|b| - 1];
  }

  lemma {:induction false} SplitJoin(a: string, b: string)
    ensures Split(a + [SLASH] + b) == Split(a) + Split(b)
  {
    if b == [] {
      SplitSlash(a);
    } else {
      hide Split, Extend;
      var b', c := b[..|b| - 1], b[|b| - 1];
      SplitJoin(a, b');
      LastOfJoin(a, b);
      SplitSnoc(a + [SLASH] + b', c);
      SplitSnoc(b', c);
      SplitSome(b');
      ExtendJoin(Split(a), Split(b'), c);
    }
  }

  lemma LastOfJoin(a: string, b: string)
    requires b != []
    ensures b == b[..|b| - 1] + [b[|b| - 1]]
    ensures a + [SLASH] + b == (a + [SLASH] + b[..|b| - 1]) + [b[|b| - 1]]
  {
  }

  lemma SplitSome(s: string)
    ensures |Split(s)| >= 1
  {
  }

  lemma SplitSlash(a: string)
    ensures Split(a + [SLASH] + []) == Split(a) + Split([])
  {
    SplitSnoc(a, SLASH);
    assert a + [SLASH] + [] == a + [SLASH];
  }

  /** cwd followed by a relative path. */
  function Join(cwd: string, path: string): string
    requires cwd != []
  {
    if cwd[|cwd| - 1] == SLASH then cwd + path else cwd + [SLASH] + path
  }

  /** Joining paths appends their components. */
  lemma ComponentsJoin(a: string, b: string)
    requires a != [] && b != []
    ensures Components(Join(a, b)) == Components(a) + Components(b)
  {
    var ab := Join(a, b);
    var before := if a[|a| - 1] == SLASH then a[..|a| - 1] else a;
    assert ab == before + [SLASH] + b;
    assert ab[|ab| - 1] == b[|b| - 1];
    SplitJoin(before, b);
    DirectoryComponents(a);
    hide Join;
    LastTrimmed(ab, b, Split(before));
  }

  lemma LastTrimmed(ab: string, b: string, front: seq<string>)
    requires ab != [] && b != [] && ab[|ab| - 1] == b[|b| - 1] && Split(ab) == front + Split(b)
    ensures Components(ab) == front + Components(b)
  {
    hide Split;
    var all, last := Split(ab), Split(b);
    assert all[..|all| - 1] == front + last[..|last| - 1];
  }

  lemma DirectoryComponents(a: string)
    requires a != []
    ensures Components(a) == Split(if a[|a| - 1] == SLASH then a[..|a| - 1] else a)
  {
    if a[|a| - 1] == SLASH {
      SplitSnoc(a[..|a| - 1], SLASH);
      assert a == a[..|a| - 1] + [SLASH];
    }
  }

  predicate NoSlash(s: string) { forall k :: 0 <= k < |s| ==> s[k] != SLASH }

  /** A plain name is its own only component. */
  lemma {:induction false} SplitName(s: string)
    requires NoSlash(s)
    ensures Split(s) == [s]
  {
    if s != [] {
      SplitName(s[..|s| - 1]);
      assert s[..|s| - 1] + [s[|s| - 1]] == s;
    }
  }

  lemma {:induction false} PiecesNoSlash(s: string, k: nat)
    requires k < |Split(s)|
    ensures NoSlash(Split(s)[k])
  {
    if s != [] {
      var r := Split(s[..|s| - 1]);
      if k < |r| {
        PiecesNoSlash(s[..|s| - 1], k);
      }
    }
  }
}
