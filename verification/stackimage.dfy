/** The argument page that execve_handler writes (sys/syscall.c) and _start reads (crt/crt1.c).
    The layout is that of section 3.4.1 of the System V AMD64 ABI, without the auxiliary vector. */
module StackImage {
  import opened Limits
  import opened Bytes
  import opened Processes

  /** The bytes of a C string, without its terminator. */
  type CString = s: seq<byte> | forall k :: 0 <= k < |s| ==> s[k] != 0

  const AMPERSAND: byte := 38

  /** Word `k` of a page. */
  function ReadWord(page: seq<byte>, k: nat): nat
    requires |page| == 4096 && k < 512
  {
    WordOf(page[8 * k..8 * k + 8])
  }

  predicate StringAt(page: seq<byte>, k: nat, s: CString) {
    8 * k + |s| < |page| && page[8 * k..8 * k + |s|] == s && page[8 * k + |s|] == 0
  }

  /** From `a` to `b` at most the words from `lo` to `hi` and from `lo'` to `hi'` changed. */
  ghost predicate Only(a: seq<byte>, b: seq<byte>, lo: int, hi: int, lo': int, hi': int) {
    && |a| == |b| == 4096
    && forall x :: 0 <= x < 4096 && !(8 * lo <= x < 8 * hi) && !(8 * lo' <= x < 8 * hi') ==> b[x] == a[x]
  }

  lemma WordKept(a: seq<byte>, b: seq<byte>, lo: int, hi: int, lo': int, hi': int, k: nat)
    requires Only(a, b, lo, hi, lo', hi') && k < 512 && !(lo <= k < hi) && !(lo' <= k < hi')
    ensures ReadWord(b, k) == ReadWord(a, k)
  {
    assert b[8 * k..8 * k + 8] == a[8 * k..8 * k + 8];
  }

  lemma StringKept(a: seq<byte>, b: seq<byte>, lo: int, hi: int, lo': int, hi': int, k: nat, s: CString)
    requires Only(a, b, lo, hi, lo', hi') && StringAt(a, k, s)
    requires (k + Words(s) <= lo || hi <= k) && (k + Words(s) <= lo' || hi' <= k)
    ensures StringAt(b, k, s)
  {
    assert b[8 * k..8 * k + |s|] == a[8 * k..8 * k + |s|];
  }

  /** *(uint64_t *) = n */
  method WriteWord(page: array<byte>, k: nat, n: nat)
    requires page.Length == 4096 && k < 512 && n < Pow256(8)
    modifies page
    ensures ReadWord(page[..], k) == n && page[..][8 * k..8 * k + 8] == WordBytes(n, 8)
    ensures Only(old(page[..]), page[..], k, k + 1, 0, 0)
  {
    var bs := WordBytes(n, 8);
    for j := 0 to 8
      invariant forall b :: 0 <= b < 4096 && (b < 8 * k || 8 * k + j <= b) ==> page[b] == old(page[b])
      invariant forall b :: 0 <= b < j ==> page[8 * k + b] == bs[b]
    {
      page[8 * k + j] := bs[j];
    }
    assert page[8 * k..8 * k + 8] == bs;
    assert page[..][8 * k..8 * k + 8] == page[8 * k..8 * k + 8];
    WordRoundTrip(n, 8);
  }

  /** strcpy to a word boundary. */
  method StrCpy(page: array<byte>, k: nat, s: CString)
    requires page.Length == 4096 && k + Words(s) <= 512
    modifies page
    ensures StringAt(page[..], k, s)
    ensures Only(old(page[..]), page[..], k, k + Words(s), 0, 0)
  {
    for j := 0 to |s|
      invariant forall b :: 0 <= b < 4096 && (b < 8 * k || 8 * k + j <= b) ==> page[b] == old(page[b])
      invariant forall b :: 0 <= b < j ==> page[8 * k + b] == s[b]
    {
      page[8 * k + j] := s[j];
    }
    page[8 * k + |s|] := 0;
    assert page[..][8 * k..8 * k + |s|] == s;
  }

  /** alignUpEight. */
  method AlignUpEight(temp: nat) returns (r: nat)
    ensures r == (temp + 7) / 8 * 8
  {
    r := temp;
    while r % 8 != 0
      invariant temp <= r <= (temp + 7) / 8 * 8
      decreases temp + 8 - r
    {
      r := r + 1;
    }
  }

  /** The words a string and its terminator take up. */
  function Words(s: seq<byte>): nat { (|s| + 8) / 8 }

  method StringWords(s: CString) returns (n: nat)
    ensures n == Words(s)
  {
    var bytes := AlignUpEight(|s| + 1);
    n := bytes / 8;
  }

  /** The words taken up by the strings from index `i` on. */
  function SumFrom(strings: seq<CString>, i: nat): nat
    requires i <= |strings|
    decreases |strings| - i
  {
    if i == |strings| then 0 else Words(strings[i]) + SumFrom(strings, i + 1)
  }

  lemma {:induction false} SumBounds(strings: seq<CString>, i: nat, j: nat)
    requires i <= j <= |strings|
    ensures SumFrom(strings, j) + (j - i) <= SumFrom(strings, i)
    decreases j - i
  {
    if i < j {
      SumBounds(strings, i + 1, j);
    }
  }

  // ---------- the writer ----------

  /** The value stored for a string at word `k` of the page at kernel address `kva`. */
  function UserAddress(kva: nat, k: nat): int {
    USTACKTOP - (AlignUp(kva + 8 * k) - (kva + 8 * k))
  }

  /** Word `k` of the page as seen at USTACKTOP - PAGE_SIZE, where page_insert maps it. */
  function MappedAddress(k: int): int {
    USTACKTOP - PAGE_SIZE + 8 * k
  }

  /** Any word but the first gets the address it is mapped at. */
  lemma UserAddressIsMapped(kva: nat, k: nat)
    requires kva % PAGE_SIZE == 0 && 0 < k < 512
    ensures UserAddress(kva, k) == MappedAddress(k)
    ensures USTACKTOP - PAGE_SIZE < UserAddress(kva, k) < USTACKTOP
  {
    assert (kva + 8 * k) % PAGE_SIZE == 8 * k;
  }

  /** The strings from index `from` on are stored below word `base`, and the table at word `table` points to them. */
  ghost predicate Pushed(page: seq<byte>, strings: seq<CString>, table: int, base: int, from: nat) {
    && |page| == 4096
    && forall j :: from <= j < |strings| ==> PushedAt(page, strings, table, base, j)
  }

  ghost predicate PushedAt(page: seq<byte>, strings: seq<CString>, table: int, base: int, j: nat)
    requires |page| == 4096 && j < |strings|
  {
    var k := base - SumFrom(strings, j);
    && 0 < k < 512 && 0 <= table + j < 512
    && ReadWord(page, table + j) == MappedAddress(k)
    && StringAt(page, k, strings[j])
  }

  lemma PushedKept(a: seq<byte>, b: seq<byte>, strings: seq<CString>, table: int, base: int, from: nat,
                   lo: int, hi: int, lo': int, hi': int)
    requires Pushed(a, strings, table, base, from) && from <= |strings|
    requires Only(a, b, lo, hi, lo', hi') && hi <= table + from && hi' <= base - SumFrom(strings, from)
    requires hi <= lo' <= hi' && table + |strings| <= lo'
    ensures Pushed(b, strings, table, base, from)
  {
    forall j | from <= j < |strings| ensures PushedAt(b, strings, table, base, j) {
      assert PushedAt(a, strings, table, base, j);
      SumBounds(strings, from, j);
      WordKept(a, b, lo, hi, lo', hi', table + j);
      StringKept(a, b, lo, hi, lo', hi', base - SumFrom(strings, j), strings[j]);
    }
  }

  /** The state of a string loop before string `i - 1`: what is written so far and what is untouched. */
  ghost predicate Loop(start: seq<byte>, page: seq<byte>, strings: seq<CString>, writeStart: int, userStack: int,
      i: nat) {
    && i <= |strings|
    && Pushed(page, strings, writeStart - |strings| + 1, userStack, i)
    && Only(start, page, writeStart - (|strings| - i) + 1, writeStart + 1, userStack - SumFrom(strings, i), userStack)
  }

  lemma OnlyTurn(a: seq<byte>, b: seq<byte>, c: seq<byte>, w: int, u: int, above: int)
    requires Only(a, b, u, above, 0, 0) && Only(b, c, w, w + 1, 0, 0)
    ensures Only(a, c, w, w + 1, u, above)
  {
  }

  lemma OnlyJoin(start: seq<byte>, a: seq<byte>, b: seq<byte>, c: seq<byte>, w: int, hi: int, u: int, above: int,
      hi': int)
    requires Only(start, a, w + 1, hi, above, hi') && Only(a, b, u, above, 0, 0) && Only(b, c, w, w + 1, 0, 0)
    requires w < hi && u <= above <= hi'
    ensures Only(start, c, w, hi, u, hi')
  {
  }

  /** One turn of a string loop: `a` before it, `b` after the string, `c` after the pointer. */
  lemma PushStep(start: seq<byte>, a: seq<byte>, b: seq<byte>, c: seq<byte>, strings: seq<CString>,
                 writeStart: int, userStack: int, i: nat, w: nat, u: nat)
    requires i < |strings| && userStack <= 511 && writeStart < userStack - SumFrom(strings, 0)
    requires w == writeStart - (|strings| - 1 - i) < 512 && u == userStack - SumFrom(strings, i) > 0
    requires Loop(start, a, strings, writeStart, userStack, i + 1)
    requires Only(a, b, u, u + Words(strings[i]), 0, 0) && StringAt(b, u, strings[i])
    requires Only(b, c, w, w + 1, 0, 0) && ReadWord(c, w) == MappedAddress(u)
    ensures Loop(start, c, strings, writeStart, userStack, i)
  {
    hide Only, StringAt, ReadWord, MappedAddress, Words;
    SumBounds(strings, 0, i);
    var above := u + Words(strings[i]);
    StringKept(b, c, w, w + 1, 0, 0, u, strings[i]);
    OnlyJoin(start, a, b, c, w, writeStart + 1, u, above, userStack);
    OnlyTurn(a, b, c, w, u, above);
    PushedKept(a, c, strings, writeStart - |strings| + 1, userStack, i + 1, w, w + 1, u, above);
  }

  /** The two string loops of execve_handler: last string first, strings and pointers growing downwards. */
  method PushStrings(page: array<byte>, strings: seq<CString>, writeStart: int, userStack: int, kva: nat)
    returns (w: int, u: int)
    requires page.Length == 4096 && kva % PAGE_SIZE == 0 && userStack <= 511
    requires 0 <= writeStart - |strings| && writeStart < userStack - SumFrom(strings, 0)
    modifies page
    ensures w == writeStart - |strings| && u == userStack - SumFrom(strings, 0)
    ensures Loop(old(page[..]), page[..], strings, writeStart, userStack, 0)
  {
    w, u := writeStart, userStack;
    var i := |strings|;
    while i > 0
      invariant 0 <= i <= |strings|
      invariant w == writeStart - (|strings| - i) && u == userStack - SumFrom(strings, i)
      invariant Loop(old(page[..]), page[..], strings, writeStart, userStack, i)
    {
      hide Loop, Only, StringAt, ReadWord, UserAddress, MappedAddress, Words;
      i := i - 1;
      ghost var a := page[..];
      var n := StringWords(strings[i]);
      SumBounds(strings, 0, i);
      u := u - n;
      StrCpy(page, u, strings[i]);
      ghost var b := page[..];
      UserAddressIsMapped(kva, u);
      WriteWord(page, w, UserAddress(kva, u));
      PushStep(old(page[..]), a, b, page[..], strings, writeStart, userStack, i, w, u);
      w := w - 1;
    }
  }

  predicate IsAmpersand(s: CString) { s != [] && s[0] == AMPERSAND }

  function Ampersands(argv: seq<CString>): (n: nat)
    ensures n <= |argv|
  {
    if argv == [] then 0 else Ampersands(argv[1..]) + if IsAmpersand(argv[0]) then 1 else 0
  }

  /** The arguments handed on: as many fewer as there are arguments starting with an ampersand. */
  function Kept(argv: seq<CString>): seq<CString> {
    argv[..|argv| - Ampersands(argv)]
  }

  /** The size computed before anything is written. */
  function Offset(argv: seq<CString>, envp: seq<CString>): nat {
    SumFrom(envp, 0) + 1 + SumFrom(argv, 0) + 1
  }

  /** Where the argument count ends up. */
  function ArgcWord(argv: seq<CString>, envp: seq<CString>): int {
    509 - Offset(argv, envp) - |envp| - |Kept(argv)|
  }

  lemma {:induction false} AmpersandsFrom(argv: seq<CString>, i: nat)
    requires i < |argv|
    ensures Ampersands(argv[i..]) == Ampersands(argv[i + 1..]) + if IsAmpersand(argv[i]) then 1 else 0
  {
    assert argv[i..][1..] == argv[i + 1..];
  }

  /** As many as there are arguments whose first character is an ampersand, code 38. */
  lemma {:induction false} AmpersandSet(argv: seq<CString>, i: nat)
    requires i <= |argv|
    ensures Ampersands(argv[i..]) == |set k | i <= k < |argv| && argv[k] != [] && argv[k][0] == 38|
    decreases |argv| - i
  {
    var marked := set k | i <= k < |argv| && argv[k] != [] && argv[k][0] == 38;
    if i < |argv| {
      AmpersandSet(argv, i + 1);
      AmpersandsFrom(argv, i);
      var rest := set k | i + 1 <= k < |argv| && argv[k] != [] && argv[k][0] == 38;
      assert marked == if argv[i] != [] && argv[i][0] == 38 then rest + {i} else rest;
    } else {
      assert marked == {};
    }
  }

  lemma KeptIs(argv: seq<CString>)
    ensures |Kept(argv)| == |argv| - Ampersands(argv) && Kept(argv) == argv[..|Kept(argv)|]
  {
  }

  /** The size in words: two, and for each string the words that it and its terminator touch. */
  lemma OffsetIs(argv: seq<CString>, envp: seq<CString>, s: CString, n: nat)
    requires 8 * (n - 1) <= |s| < 8 * n
    ensures Offset([], []) == 2
    ensures Offset(argv + [s], envp) == Offset(argv, envp + [s]) == Offset(argv, envp) + n
  {
    SumMore(argv, s);
    SumMore(envp, s);
  }

  lemma SumMore(strings: seq<CString>, s: CString)
    ensures SumFrom(strings + [s], 0) == SumFrom(strings, 0) + Words(s)
  {
    PrefixSum(strings + [s], |strings|, 0);
    assert (strings + [s])[..|strings|] == strings;
    assert SumFrom(strings + [s], |strings|) == Words(s) + SumFrom(strings + [s], |strings| + 1);
  }

  lemma {:induction false} PrefixSum(strings: seq<CString>, n: nat, i: nat)
    requires i <= n <= |strings|
    ensures SumFrom(strings[..n], i) + SumFrom(strings, n) == SumFrom(strings, i)
    decreases n - i
  {
    if i < n {
      PrefixSum(strings, n, i + 1);
    }
  }

  /** The finished page: the count at word `w`, then the argument pointers, NULL, the environment pointers, NULL. */
  ghost predicate Image(page: seq<byte>, w: int, args: seq<CString>, envp: seq<CString>) {
    && |page| == 4096 && 1 <= w && w + 2 + 2 * |args| + |envp| < 512
    && ReadWord(page, w) == |args|
    && Pushed(page, args, w + 1, 510 - SumFrom(envp, 0), 0)
    && ReadWord(page, w + 1 + |args|) == 0
    && Pushed(page, envp, w + 2 + |args|, 511, 0)
    && ReadWord(page, w + 2 + |args| + |envp|) == 0
    && ReadWord(page, 511) == 0
  }

  lemma ZeroWord(page: seq<byte>, k: nat)
    requires |page| == 4096 && k < 512 && forall b :: 0 <= b < 4096 ==> page[b] == 0
    ensures ReadWord(page, k) == 0
  {
    ZeroBytes(page[8 * k..8 * k + 8]);
  }

  lemma {:induction false} ZeroBytes(bs: seq<byte>)
    requires forall b :: 0 <= b < |bs| ==> bs[b] == 0
    ensures WordOf(bs) == 0
  {
    if bs != [] {
      ZeroBytes(bs[1..]);
    }
  }

  /** execve_handler's sizing loops. */
  method Measure(argv: seq<CString>, envp: seq<CString>) returns (offset: nat, argc: nat)
    ensures offset == Offset(argv, envp) && argc == |Kept(argv)|
  {
    offset, argc := 0, |argv|;
    var i := |envp|;
    while i > 0
      invariant 0 <= i <= |envp| && offset == SumFrom(envp, i)
    {
      i := i - 1;
      var n := StringWords(envp[i]);
      offset := offset + n;
    }
    offset := offset + 1;
    i := |argv|;
    while i > 0
      invariant 0 <= i <= |argv| && offset == SumFrom(envp, 0) + 1 + SumFrom(argv, i)
      invariant argc == |argv| - Ampersands(argv[i..])
    {
      i := i - 1;
      AmpersandsFrom(argv, i);
      if IsAmpersand(argv[i]) {
        argc := argc - 1;
      }
      var n := StringWords(argv[i]);
      offset := offset + n;
    }
    assert argv[0..] == argv;
    offset := offset + 1;
  }

  /** A block of strings with a single word on either side: `mark` just below the table, 0 just below the strings. */
  ghost predicate Block(start: seq<byte>, page: seq<byte>, strings: seq<CString>, mark: nat, table: nat, base: nat) {
    && SumFrom(strings, 0) < base < 512 && 1 <= table && table + |strings| < base - SumFrom(strings, 0)
    && Pushed(page, strings, table, base, 0)
    && |page| == 4096 && ReadWord(page, table - 1) == mark && ReadWord(page, base - SumFrom(strings, 0) - 1) == 0
    && Only(start, page, table - 1, table + |strings|, base - SumFrom(strings, 0) - 1, base)
  }

  lemma BlockFrom(start: seq<byte>, a: seq<byte>, b: seq<byte>, c: seq<byte>, strings: seq<CString>, mark: nat,
      table: nat, base: nat)
    requires SumFrom(strings, 0) < base < 512 && 1 <= table && table + |strings| < base - SumFrom(strings, 0)
    requires Loop(start, a, strings, table + |strings| - 1, base, 0)
    requires Only(a, b, table - 1, table, 0, 0) && ReadWord(b, table - 1) == mark
    requires var u := base - SumFrom(strings, 0); Only(b, c, u - 1, u, 0, 0) && ReadWord(c, u - 1) == 0
    ensures Block(start, c, strings, mark, table, base)
  {
    hide ReadWord, StringAt, Pushed, SumFrom;
    var u := base - SumFrom(strings, 0);
    WordKept(b, c, u - 1, u, 0, 0, table - 1);
    OnlyTurn2(a, b, c, table - 1, u);
    PushedKept(a, c, strings, table, base, 0, table - 1, table, u - 1, u);
  }

  /** One string loop of execve_handler with the words written below its pointers and below its strings. */
  method WriteBlock(page: array<byte>, strings: seq<CString>, mark: nat, writeStart: nat, userStack: nat, kva: nat)
    returns (w: nat, u: nat)
    requires page.Length == 4096 && kva % PAGE_SIZE == 0 && mark < Pow256(8)
    requires SumFrom(strings, 0) < userStack < 512 && |strings| <= writeStart < userStack - SumFrom(strings, 0) - 1
    modifies page
    ensures w == writeStart - |strings| && u == userStack - SumFrom(strings, 0) - 1
    ensures Block(old(page[..]), page[..], strings, mark, w + 1, userStack)
  {
    hide ReadWord, Loop, Only, Block;
    w, u := PushStrings(page, strings, writeStart, userStack, kva);
    ghost var a := page[..];
    WriteWord(page, w, mark);
    ghost var b := page[..];
    u := u - 1;
    WriteWord(page, u, 0);
    BlockFrom(old(page[..]), a, b, page[..], strings, mark, w + 1, userStack);
  }

  /** Two blocks on a zeroed page make the image. */
  lemma ImageFrom(zero: seq<byte>, a: seq<byte>, b: seq<byte>, args: seq<CString>, envp: seq<CString>, low: nat, w: nat)
    requires |zero| == 4096 && forall k :: 0 <= k < 4096 ==> zero[k] == 0
    requires low + SumFrom(envp, 0) + 1 + SumFrom(args, 0) + 1 <= 511 && 1 <= w == low - 2 - |args| - |envp|
    requires Block(zero, a, envp, 0, w + 2 + |args|, 511)
    requires Block(a, b, args, |args|, w + 1, 510 - SumFrom(envp, 0))
    ensures Image(b, w, args, envp)
  {
    hide ReadWord, StringAt, Pushed, Only, SumFrom, Block;
    SumBounds(envp, 0, |envp|);
    SumBounds(args, 0, |args|);
    var m, u1 := w + 1 + |args|, 511 - SumFrom(envp, 0);
    var u3 := u1 - 1 - SumFrom(args, 0);
    BlockParts(zero, a, envp, 0, m + 1, 511);
    BlockParts(a, b, args, |args|, w + 1, u1 - 1);
    WordKept(a, b, w, m, u3 - 1, u1 - 1, m);
    PushedKept(a, b, envp, m + 1, 511, 0, w, m, u3 - 1, u1 - 1);
    BlocksOnly(zero, a, b, w, m, low, u3 - 1, u1 - 1);
    EmptyWords(zero, b, w, low, u3 - 1);
  }

  lemma BlockParts(start: seq<byte>, page: seq<byte>, strings: seq<CString>, mark: nat, table: nat, base: nat)
    requires Block(start, page, strings, mark, table, base)
    ensures var u := base - SumFrom(strings, 0);
      && 1 <= u && Pushed(page, strings, table, base, 0) && |page| == 4096
      && ReadWord(page, table - 1) == mark && ReadWord(page, u - 1) == 0
      && Only(start, page, table - 1, table + |strings|, u - 1, base)
  {
    hide ReadWord, StringAt, Pushed, Only, SumFrom;
  }

  lemma BlocksOnly(zero: seq<byte>, a: seq<byte>, b: seq<byte>, w: nat, m: nat, low: nat, u: nat, u1: nat)
    requires Only(zero, a, m, low, u1, 511) && Only(a, b, w, m, u, u1) && w <= m <= low && u <= u1 <= 511
    ensures Only(zero, b, w, low, u, 511)
  {
  }

  lemma EmptyWords(zero: seq<byte>, page: seq<byte>, w: nat, low: nat, u: nat)
    requires |zero| == 4096 && forall b :: 0 <= b < 4096 ==> zero[b] == 0
    requires Only(zero, page, w, low, u, 511) && low <= u < 511
    ensures ReadWord(page, 511) == 0 && (low != u ==> ReadWord(page, low) == 0)
  {
    WordKept(zero, page, w, low, u, 511, 511);
    ZeroWord(zero, 511);
    ZeroWord(zero, low);
    if low != u { WordKept(zero, page, w, low, u, 511, low); }
  }

  lemma OnlyTurn2(a: seq<byte>, b: seq<byte>, c: seq<byte>, w: nat, u: nat)
    requires Only(a, b, w, w + 1, 0, 0) && Only(b, c, u - 1, u, 0, 0)
    ensures Only(a, c, w, w + 1, u - 1, u)
  {
  }

  /** The page-writing part of execve_handler on a zeroed page, for lists that leave its first word free. */
  method WriteImage(page: array<byte>, argv: seq<CString>, envp: seq<CString>, kva: nat) returns (w: nat)
    requires page.Length == 4096 && forall k :: 0 <= k < 4096 ==> page[k] == 0
    requires kva % PAGE_SIZE == 0 && 1 <= ArgcWord(argv, envp)
    modifies page
    ensures w == ArgcWord(argv, envp) && Image(page[..], w, Kept(argv), envp)
  {
    hide Block, Image, SumFrom, ReadWord, Pow256, Kept, Offset, ArgcWord;
    ghost var zero := page[..];
    var offset, argc := Measure(argv, envp);
    Room(argv, envp);
    SmallWord(argc);
    var userStack := 511;
    var writeStart := userStack - offset - 1;
    writeStart, userStack := WriteBlock(page, envp, 0, writeStart, userStack, kva);
    ghost var a := page[..];
    w, userStack := WriteBlock(page, argv[..argc], argc, writeStart - 1, userStack, kva);
    ImageFrom(zero, a, page[..], Kept(argv), envp, 511 - offset, w);
  }

  /** The page comes zeroed from page_alloc. */
  method ExecImage(argv: seq<CString>, envp: seq<CString>, kva: nat) returns (page: array<byte>, w: nat)
    requires kva % PAGE_SIZE == 0 && 1 <= ArgcWord(argv, envp)
    ensures fresh(page) && w == ArgcWord(argv, envp) && Image(page[..], w, Kept(argv), envp)
  {
    page := new byte[4096](_ => 0);
    w := WriteImage(page, argv, envp, kva);
  }

  /** Lists that leave the first word free leave room between pointers and strings. */
  lemma Room(argv: seq<CString>, envp: seq<CString>)
    requires 1 <= ArgcWord(argv, envp)
    ensures |Kept(argv)| <= |argv| && Kept(argv) == argv[..|Kept(argv)|]
    ensures SumFrom(Kept(argv), 0) <= SumFrom(argv, 0)
    ensures |envp| + |Kept(argv)| + 3 + Offset(argv, envp) <= 511
    ensures Offset(argv, envp) == SumFrom(envp, 0) + SumFrom(argv, 0) + 2
    ensures ArgcWord(argv, envp) == 509 - Offset(argv, envp) - |envp| - |Kept(argv)|
  {
    PrefixSum(argv, |Kept(argv)|, 0);
  }

  lemma SmallWord(n: nat)
    requires n < 512
    ensures n < Pow256(8)
  {
    assert Pow256(2) == 65536 <= Pow256(8);
  }

  /** The handler's stack pointer, `USTACKTOP - (alignUp(write_start) - write_start)`, is the address the
      count is mapped at exactly when the count is not pushed below the second word of the page. */
  lemma CapacityIsExact(kva: nat, argv: seq<CString>, envp: seq<CString>)
    requires kva % PAGE_SIZE == 0 && 0 <= kva + 8 * ArgcWord(argv, envp)
    ensures var at := kva + 8 * ArgcWord(argv, envp);
      USTACKTOP - (AlignUp(at) - at) == MappedAddress(ArgcWord(argv, envp)) <==> 1 <= ArgcWord(argv, envp)
    ensures 1 <= ArgcWord(argv, envp) <==> Offset(argv, envp) + |envp| + |Kept(argv)| <= 508
  {
    SumBounds(envp, 0, |envp|);
    SumBounds(argv, 0, |argv|);
  }

  // ---------- the reader ----------

  /** What _start needs of its page: the count leaves room, and a zero word stops its environment scan. */
  ghost predicate Readable(page: seq<byte>, r: nat) {
    && |page| == 4096 && r < 512 && r + 2 + 2 * ReadWord(page, r) < 512
    && exists k :: r + 2 + 2 * ReadWord(page, r) <= k < 512 && ReadWord(page, k) == 0
  }

  /** Storing a word over itself changes nothing. */
  method RewriteWord(page: array<byte>, k: nat)
    requires page.Length == 4096 && k < 512
    modifies page
    ensures page[..] == old(page[..])
  {
    ghost var start := page[..];
    BytesRoundTrip(page[..][8 * k..8 * k + 8]);
    WriteWord(page, k, ReadWord(page[..], k));
    assert start[8 * k..8 * k + 8] == page[..][8 * k..8 * k + 8];
    forall b | 0 <= b < 4096 ensures page[..][b] == start[b] {
      if 8 * k <= b < 8 * k + 8 {
        assert start[8 * k..8 * k + 8][b - 8 * k] == page[..][8 * k..8 * k + 8][b - 8 * k];
      }
    }
  }

  /** _start from the count at word `r` on: argc and the words its argv and envp point to. Its environment
      scan starts argc words late, but it only copies words onto themselves. */
  method Start(page: array<byte>, r: nat) returns (argc: nat, argv: nat, envp: nat)
    requires page.Length == 4096 && Readable(page[..], r)
    modifies page
    ensures page[..] == old(page[..])
    ensures argc == ReadWord(page[..], r)
    ensures argc != 0 ==> argv == r + 1 && envp == r + 2 + argc
  {
    ghost var start := page[..];
    var rsp := r;
    argc, argv, envp := ReadWord(page[..], rsp), 0, 0;
    if argc != 0 {
      rsp := rsp + 1;
      argv := rsp;
      var i := 0;
      while i < argc
        invariant 0 <= i <= argc && rsp == r + 1 + i && page[..] == start
      {
        RewriteWord(page, argv + i);
        rsp := rsp + 1;
        i := i + 1;
      }
      rsp := rsp + 1;
      var count := 0;
      ghost var stop :| r + 2 + 2 * argc <= stop < 512 && ReadWord(start, stop) == 0;
      while ReadWord(page[..], rsp + i) != 0
        invariant argc <= i && rsp + i <= stop && count == i - argc && page[..] == start
        decreases stop - i
      {
        count := count + 1;
        i := i + 1;
      }
      envp := rsp;
      i := 0;
      while i < count
        invariant 0 <= i <= count && page[..] == start
      {
        RewriteWord(page, envp + i);
        rsp := rsp + 1;
        i := i + 1;
      }
    }
  }

  // ---------- what main sees ----------

  /** The string at a byte offset of the page. */
  function StringFrom(page: seq<byte>, b: nat): seq<byte>
    decreases |page| - b
  {
    if b >= |page| || page[b] == 0 then [] else [page[b]] + StringFrom(page, b + 1)
  }

  /** The string at a user address in the stack page. */
  function Deref(page: seq<byte>, address: nat): seq<byte> {
    if USTACKTOP - PAGE_SIZE <= address < USTACKTOP then StringFrom(page, address - (USTACKTOP - PAGE_SIZE)) else []
  }

  /** `n` strings through the pointers at word `k`. */
  function Strings(page: seq<byte>, k: nat, n: nat): seq<seq<byte>>
    requires |page| == 4096 && k + n <= 512
    decreases n
  {
    if n == 0 then [] else [Deref(page, ReadWord(page, k))] + Strings(page, k + 1, n - 1)
  }

  /** The strings of a NULL-terminated list of pointers at word `k`. */
  function NullTerminated(page: seq<byte>, k: nat): seq<seq<byte>>
    requires |page| == 4096
    decreases 512 - k
  {
    if k >= 512 || ReadWord(page, k) == 0 then [] else [Deref(page, ReadWord(page, k))] + NullTerminated(page, k + 1)
  }

  lemma {:induction false} StringFromAt(page: seq<byte>, k: nat, s: CString, j: nat)
    requires StringAt(page, k, s) && j <= |s|
    ensures StringFrom(page, 8 * k + j) == s[j..]
    decreases |s| - j
  {
    if j < |s| {
      StringFromAt(page, k, s, j + 1);
      assert page[8 * k + j] == page[8 * k..8 * k + |s|][j] == s[j];
      assert s[j..] == [s[j]] + s[j + 1..];
    }
  }

  lemma DerefAt(page: seq<byte>, strings: seq<CString>, table: int, base: int, j: nat)
    requires |page| == 4096 && j < |strings| && PushedAt(page, strings, table, base, j)
    ensures ReadWord(page, table + j) != 0 && Deref(page, ReadWord(page, table + j)) == strings[j]
  {
    StringFromAt(page, base - SumFrom(strings, j), strings[j], 0);
  }

  lemma {:induction false} StringsRead(page: seq<byte>, strings: seq<CString>, table: nat, base: int, j: nat)
    requires Pushed(page, strings, table, base, 0) && j <= |strings| && table + |strings| <= 512
    ensures Strings(page, table + j, |strings| - j) == strings[j..]
    decreases |strings| - j
  {
    if j < |strings| {
      assert PushedAt(page, strings, table, base, j);
      DerefAt(page, strings, table, base, j);
      StringsRead(page, strings, table, base, j + 1);
    }
  }

  lemma {:induction false} ListRead(page: seq<byte>, strings: seq<CString>, table: nat, base: int, j: nat)
    requires Pushed(page, strings, table, base, 0) && j <= |strings| && table + |strings| < 512
    requires ReadWord(page, table + |strings|) == 0
    ensures NullTerminated(page, table + j) == strings[j..]
    decreases |strings| - j
  {
    if j < |strings| {
      assert PushedAt(page, strings, table, base, j);
      DerefAt(page, strings, table, base, j);
      ListRead(page, strings, table, base, j + 1);
    }
  }

  /** execve followed by _start hands main the argument and environment lists it was given. */
  method ExecThenStart(argv: seq<CString>, envp: seq<CString>, kva: nat)
    returns (argc: nat, args: seq<seq<byte>>, env: seq<seq<byte>>)
    requires kva % PAGE_SIZE == 0 && Offset(argv, envp) + |envp| + |Kept(argv)| <= 508
    ensures argc == |Kept(argv)| && args == Kept(argv)
    ensures argc != 0 ==> env == envp
    ensures args == argv[..argc]
    ensures argc == |argv| - |set k | 0 <= k < |argv| && argv[k] != [] && argv[k][0] == 38|
    ensures args == argv <==> forall k :: 0 <= k < |argv| ==> argv[k] == [] || argv[k][0] != 38
  {
    assert 1 <= ArgcWord(argv, envp);
    AmpersandSet(argv, 0);
    assert argv[0..] == argv;
    assert forall k :: 0 <= k < |argv| ==> (IsAmpersand(argv[k]) <==> argv[k] != [] && argv[k][0] == 38);
    KeptIs(argv);
    hide Image, Kept, Offset, IsAmpersand, ArgcWord;
    var page, w := ExecImage(argv, envp, kva);
    argc, args, env := StartMain(page, w, Kept(argv), envp);
    NoAmpersands(argv);
  }

  /** _start on an image, and the lists that main finds at its arguments. */
  method StartMain(page: array<byte>, w: nat, ghost argv: seq<CString>, ghost envp: seq<CString>)
    returns (argc: nat, args: seq<seq<byte>>, env: seq<seq<byte>>)
    requires 1 <= w && Image(page[..], w, argv, envp)
    modifies page
    ensures argc == |argv| && args == argv
    ensures argc != 0 ==> env == envp
  {
    ReadsBack(page[..], w, argv, envp);
    hide Image, Readable, ReadWord, Strings, NullTerminated;
    var argvAt, envpAt;
    argc, argvAt, envpAt := Start(page, w);
    args, env := [], [];
    if argc != 0 {
      args, env := Strings(page[..], argvAt, argc), NullTerminated(page[..], envpAt);
    }
  }

  lemma ReadsBack(page: seq<byte>, w: nat, args: seq<CString>, envp: seq<CString>)
    requires Image(page, w, args, envp)
    ensures Readable(page, w) && ReadWord(page, w) == |args| && w + 1 + |args| <= 512
    ensures Strings(page, w + 1, |args|) == args && NullTerminated(page, w + 2 + |args|) == envp
  {
    hide ReadWord, Pushed, Strings, NullTerminated, SumFrom;
    assert ReadWord(page, 511) == 0;
    assert args[0..] == args && envp[0..] == envp;
    StringsRead(page, args, w + 1, 510 - SumFrom(envp, 0), 0);
    ListRead(page, envp, w + 2 + |args|, 511, 0);
  }

  /** The arguments are all kept exactly when none starts with an ampersand. */
  lemma {:induction false} NoAmpersands(argv: seq<CString>)
    ensures (forall k :: 0 <= k < |argv| ==> !IsAmpersand(argv[k])) <==> Ampersands(argv) == 0
    ensures Kept(argv) == argv <==> Ampersands(argv) == 0
  {
    assert Kept(argv) == argv ==> |Kept(argv)| == |argv|;
    if argv != [] {
      NoAmpersands(argv[1..]);
      assert forall k :: 0 <= k < |argv[1..]| ==> argv[1..][k] == argv[k + 1];
      if Ampersands(argv) == 0 {
        forall k | 0 <= k < |argv| ensures !IsAmpersand(argv[k]) {
          assert k > 0 ==> argv[1..][k - 1] == argv[k];
        }
      }
    }
  }
}
