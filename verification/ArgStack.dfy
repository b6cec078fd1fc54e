/**
 Argument passing in user-programs/userprog/process.c: load splits the command line at spaces,
 setup_stack lays the words out on the new process's stack page, and a C program's startup code
 reads them back. The stack is one zeroed page just below PHYS_BASE; a store outside it faults.
 */
module ArgStack {
  import opened Machine

  const PHYS_BASE := 0xC000_0000
  const LOW := PHYS_BASE - PAGE_SIZE
  const INPUT_BUF_SIZE := 1025
  const SPACE: byte := 32

  // ---------------------------------------------------------------- splitting the command line

  datatype Span = Span(start: nat, end: nat)

  /** The end of the run of non-space bytes that begins at p. */
  function RunEnd(line: seq<byte>, p: nat): (e: nat)
    requires p <= |line|
    ensures p <= e <= |line|
    ensures forall i :: p <= i < e ==> line[i] != SPACE
    ensures e < |line| ==> line[e] == SPACE
    decreases |line| - p
  {
    if p == |line| || line[p] == SPACE then p else RunEnd(line, p + 1)
  }

  /** The words of the line from position p on, as strtok_r finds them. */
  function Spans(line: seq<byte>, p: nat): seq<Span>
    requires p <= |line|
    decreases |line| - p
  {
    if p == |line| then []
    else if line[p] == SPACE then Spans(line, p + 1)
    else [Span(p, RunEnd(line, p))] + Spans(line, RunEnd(line, p))
  }

  /** A maximal run of non-space bytes. */
  ghost predicate MaximalRun(line: seq<byte>, r: Span) {
    && r.start < r.end <= |line|
    && (forall i :: r.start <= i < r.end ==> line[i] != SPACE)
    && (r.start > 0 ==> line[r.start - 1] == SPACE)
    && (r.end < |line| ==> line[r.end] == SPACE)
  }

  lemma {:induction false} SpansAreRuns(line: seq<byte>, p: nat)
    requires p <= |line| && (0 < p < |line| ==> line[p - 1] == SPACE || line[p] == SPACE)
    ensures forall k :: 0 <= k < |Spans(line, p)| ==> MaximalRun(line, Spans(line, p)[k]) && p <= Spans(line, p)[k].start
    ensures forall k, l :: 0 <= k < l < |Spans(line, p)| ==> Spans(line, p)[k].end < Spans(line, p)[l].start
    decreases |line| - p
  {
    if p < |line| {
      if line[p] == SPACE {
        SpansAreRuns(line, p + 1);
      } else {
        var e := RunEnd(line, p);
        SpansAreRuns(line, e);
        var s, rest := Spans(line, p), Spans(line, e);
        assert forall k :: 0 < k < |s| ==> s[k] == rest[k - 1];
        assert forall k :: 0 <= k < |rest| ==> e < rest[k].start by {
          assert forall k :: 0 <= k < |rest| ==> MaximalRun(line, rest[k]) && e <= rest[k].start;
        }
      }
    }
  }

  lemma {:induction false} SpansCover(line: seq<byte>, p: nat, i: nat) returns (k: nat)
    requires p <= i < |line| && line[i] != SPACE
    ensures k < |Spans(line, p)| && Spans(line, p)[k].start <= i < Spans(line, p)[k].end
    decreases |line| - p
  {
    if line[p] == SPACE {
      k := SpansCover(line, p + 1, i);
    } else if i < RunEnd(line, p) {
      k := 0;
    } else {
      k := SpansCover(line, RunEnd(line, p), i);
      k := k + 1;
    }
  }

  /** The spans are the maximal runs of non-space bytes, in order, and leave no such byte out. */
  lemma SpansAreMaximalRuns(line: seq<byte>)
    ensures forall k :: 0 <= k < |Spans(line, 0)| ==> MaximalRun(line, Spans(line, 0)[k])
    ensures forall k, l :: 0 <= k < l < |Spans(line, 0)| ==> Spans(line, 0)[k].end < Spans(line, 0)[l].start
    ensures forall i :: 0 <= i < |line| && line[i] != SPACE ==>
              exists k :: 0 <= k < |Spans(line, 0)| && Spans(line, 0)[k].start <= i < Spans(line, 0)[k].end
  {
    SpansAreRuns(line, 0);
    forall i | 0 <= i < |line| && line[i] != SPACE
      ensures exists k :: 0 <= k < |Spans(line, 0)| && Spans(line, 0)[k].start <= i < Spans(line, 0)[k].end
    {
      var k := SpansCover(line, 0, i);
    }
  }

  function Words(line: seq<byte>, p: nat): seq<seq<byte>>
    requires p <= |line|
    decreases |line| - p
  {
    if p == |line| then []
    else if line[p] == SPACE then Words(line, p + 1)
    else [line[p..RunEnd(line, p)]] + Words(line, RunEnd(line, p))
  }

  lemma {:induction false} WordsAreSpans(line: seq<byte>, p: nat)
    requires p <= |line|
    ensures |Words(line, p)| == |Spans(line, p)|
    ensures forall k :: 0 <= k < |Spans(line, p)| ==>
              && Spans(line, p)[k].start <= Spans(line, p)[k].end <= |line|
              && Words(line, p)[k] == line[Spans(line, p)[k].start..Spans(line, p)[k].end]
    decreases |line| - p
  {
    if p < |line| {
      WordsAreSpans(line, if line[p] == SPACE then p + 1 else RunEnd(line, p));
    }
  }

  /** A C string: no byte is NUL. */
  ghost predicate CString(s: seq<byte>) {
    forall i :: 0 <= i < |s| ==> s[i] != 0
  }

  lemma {:induction false} WordsAreCStrings(line: seq<byte>, p: nat)
    requires p <= |line| && CString(line)
    ensures forall k :: 0 <= k < |Words(line, p)| ==> CString(Words(line, p)[k]) && Words(line, p)[k] != []
    decreases |line| - p
  {
    if p < |line| {
      WordsAreCStrings(line, if line[p] == SPACE then p + 1 else RunEnd(line, p));
    }
  }

  /** The tokenising loop of load: at most 1025 words. */
  method Tokenise(line: seq<byte>) returns (tokens: seq<seq<byte>>)
    ensures tokens == Words(line, 0)[..Min(|Words(line, 0)|, INPUT_BUF_SIZE)]
  {
    tokens := [];
    var p := 0;
    var more := true;
    while more && |tokens| < INPUT_BUF_SIZE
      invariant p <= |line| && |tokens| <= INPUT_BUF_SIZE
      invariant Words(line, 0) == tokens + Words(line, p)
      invariant !more ==> p == |line|
      decreases more, |line| - p
    {
      var start, end := NextToken(line, p);
      if start == |line| {
        more := false;
        p := start;
      } else {
        tokens := tokens + [line[start..end]];
        p := end;
      }
    }
    assert Words(line, 0)[..|tokens|] == tokens;
  }

  /** strtok_r(_, " "): skips spaces, then takes the run that follows. */
  method NextToken(line: seq<byte>, p: nat) returns (start: nat, end: nat)
    requires p <= |line|
    ensures p <= start <= end <= |line|
    ensures start == |line| ==> Words(line, p) == []
    ensures start < |line| ==> start < end && Words(line, p) == [line[start..end]] + Words(line, end)
  {
    start := p;
    while start < |line| && line[start] == SPACE
      invariant p <= start <= |line|
      invariant Words(line, p) == Words(line, start)
    {
      start := start + 1;
    }
    end := start;
    while end < |line| && line[end] != SPACE
      invariant start <= end <= |line|
      invariant RunEnd(line, start) == RunEnd(line, end)
    {
      end := end + 1;
    }
  }

  // ---------------------------------------------------------------- the stack image

  /** The words, each with its NUL, in order. */
  function Strings(tokens: seq<seq<byte>>): seq<byte> {
    if tokens == [] then [] else tokens[0] + [0] + Strings(tokens[1..])
  }

  /** The address of the first of these words when they end at PHYS_BASE. */
  function Address(tokens: seq<seq<byte>>): int { PHYS_BASE - |Strings(tokens)| }

  /** The pointers to the words, in order. */
  function Pointers(tokens: seq<seq<byte>>): (r: seq<byte>)
    requires |Strings(tokens)| <= PAGE_SIZE
    ensures |r| == 4 * |tokens|
  {
    if tokens == [] then []
    else
      assert Strings(tokens) == tokens[0] + [0] + Strings(tokens[1..]);
      Le32(Address(tokens)) + Pointers(tokens[1..])
  }

  /** The bytes that bring the stack pointer back to a multiple of 4. */
  function Padding(tokens: seq<seq<byte>>): int { Address(tokens) % 4 }

  function ImageSize(tokens: seq<seq<byte>>): int {
    |Strings(tokens)| + Padding(tokens) + 4 + 4 * |tokens| + 12
  }

  /** The bytes of the words themselves. */
  function TotalLength(tokens: seq<seq<byte>>): nat {
    if tokens == [] then 0 else |tokens[0]| + TotalLength(tokens[1..])
  }

  /** A byte of NUL and a pointer for each word, four more words, and at most three bytes of padding. */
  lemma ImageSizeIs(tokens: seq<seq<byte>>)
    ensures ImageSize(tokens) == (TotalLength(tokens) + |tokens| + 3) / 4 * 4 + 4 * |tokens| + 16
  {
    StringsTotal(tokens);
    hide Strings, TotalLength;
    PaddingIs(PHYS_BASE / 4, TotalLength(tokens) + |tokens|);
  }

  lemma PaddingIs(q: int, n: nat)
    ensures (4 * q - n) % 4 + n == (n + 3) / 4 * 4
  {
    var m, r := n / 4, n % 4;
    if r == 0 {
      assert 4 * q - n == 4 * (q - m);
    } else {
      assert 4 * q - n == 4 * (q - m - 1) + (4 - r);
    }
  }

  lemma {:induction false} StringsTotal(tokens: seq<seq<byte>>)
    ensures |Strings(tokens)| == TotalLength(tokens) + |tokens|
  {
    if tokens != [] {
      StringsTotal(tokens[1..]);
    }
  }

  function ArgvAddress(tokens: seq<seq<byte>>): int { PHYS_BASE - ImageSize(tokens) + 12 }

  /** The strings, padded to a multiple of 4, under a null pointer. */
  function Upper(tokens: seq<seq<byte>>): seq<byte> {
    Le32(0) + (Zeros(Padding(tokens)) + Strings(tokens))
  }

  /** From the stack pointer up: return address, argc, argv, the pointers, and then Upper. */
  function Image(tokens: seq<seq<byte>>): (r: seq<byte>)
    requires ImageSize(tokens) <= PAGE_SIZE
    ensures |r| == ImageSize(tokens)
  {
    Le32(0) + (Le32(|tokens|) + (Le32(ArgvAddress(tokens)) + (Pointers(tokens) + Upper(tokens))))
  }

  /** The stack page with its last bytes written. */
  function PageWith(image: seq<byte>): (r: seq<byte>)
    requires |image| <= PAGE_SIZE
    ensures |r| == PAGE_SIZE
  {
    Zeros(PAGE_SIZE - |image|) + image
  }

  // ---------------------------------------------------------------- building it

  /** A copy to user memory below the top pushed bytes so far; false is a page fault. */
  method Push(page: array<byte>, esp: int, data: seq<byte>, ghost top: seq<byte>) returns (ok: bool, esp': int)
    requires page.Length == PAGE_SIZE && |top| <= PAGE_SIZE && esp == PHYS_BASE - |top|
    requires page[..] == PageWith(top)
    modifies page
    ensures esp' == esp - |data|
    ensures ok <==> |data| == 0 || |data + top| <= PAGE_SIZE
    ensures ok ==> |data + top| <= PAGE_SIZE && page[..] == PageWith(data + top)
    ensures !ok ==> page[..] == old(page[..])
  {
    esp' := esp - |data|;
    if |data| > 0 && esp' < LOW {
      return false, esp';
    }
    var at := esp' - LOW;
    forall i | 0 <= i < |data| {
      page[at + i] := data[i];
    }
    assert page[..] == PageWith(data + top);
    ok := true;
  }

  lemma StringsSplit(tokens: seq<seq<byte>>, i: nat)
    requires i < |tokens|
    ensures Strings(tokens[i..]) == tokens[i] + [0] + Strings(tokens[i + 1..])
  {
    assert tokens[i..][1..] == tokens[i + 1..];
  }

  lemma {:induction false} StringsGrow(tokens: seq<seq<byte>>, i: nat)
    requires i <= |tokens|
    ensures |Strings(tokens[i..])| <= |Strings(tokens)|
    decreases i
  {
    if i == 0 {
      assert tokens[0..] == tokens;
    } else {
      StringsSplit(tokens, i - 1);
      StringsGrow(tokens, i - 1);
    }
  }

  lemma PointersSplit(tokens: seq<seq<byte>>, i: nat)
    requires i < |tokens| && |Strings(tokens[i..])| <= PAGE_SIZE
    ensures |Strings(tokens[i + 1..])| <= PAGE_SIZE
    ensures Pointers(tokens[i..]) == Le32(Address(tokens[i..])) + Pointers(tokens[i + 1..])
  {
    StringsSplit(tokens, i);
    assert tokens[i..][1..] == tokens[i + 1..];
  }

  /** The words, last one first; ghost result: what is on the page. */
  method PushStrings(page: array<byte>, tokens: seq<seq<byte>>) returns (ok: bool, esp: int, pointers: seq<int>)
    requires page.Length == PAGE_SIZE && page[..] == Zeros(PAGE_SIZE)
    modifies page
    ensures ok <==> |Strings(tokens)| <= PAGE_SIZE
    ensures ok ==> esp == Address(tokens) && page[..] == PageWith(Strings(tokens))
    ensures ok ==> |pointers| == |tokens| && forall k :: 0 <= k < |tokens| ==> pointers[k] == Address(tokens[k..])
  {
    esp := PHYS_BASE;
    pointers := seq(|tokens|, _ => 0);
    var i := |tokens|;
    assert tokens[i..] == [];
    while i > 0
      invariant 0 <= i <= |tokens| == |pointers|
      invariant |Strings(tokens[i..])| <= PAGE_SIZE && esp == Address(tokens[i..])
      invariant page[..] == PageWith(Strings(tokens[i..]))
      invariant forall k :: i <= k < |tokens| ==> pointers[k] == Address(tokens[k..])
    {
      i := i - 1;
      StringsSplit(tokens, i);
      ok, esp := Push(page, esp, tokens[i] + [0], Strings(tokens[i + 1..]));
      if !ok {
        StringsGrow(tokens, i);
        return;
      }
      pointers := pointers[i := esp];
    }
    assert tokens[0..] == tokens;
    ok := true;
  }

  /** The pointers, last one first. */
  method PushPointers(page: array<byte>, esp0: int, tokens: seq<seq<byte>>, pointers: seq<int>, ghost top: seq<byte>)
    returns (ok: bool, esp: int)
    requires page.Length == PAGE_SIZE && |top| <= PAGE_SIZE && esp0 == PHYS_BASE - |top| && page[..] == PageWith(top)
    requires |Strings(tokens)| <= PAGE_SIZE
    requires |pointers| == |tokens| && forall k :: 0 <= k < |tokens| ==> pointers[k] == Address(tokens[k..])
    modifies page
    ensures ok <==> |Pointers(tokens) + top| <= PAGE_SIZE
    ensures ok ==> esp == esp0 - 4 * |tokens| && page[..] == PageWith(Pointers(tokens) + top)
  {
    esp := esp0;
    var i := |tokens|;
    assert tokens[i..] == [] && Pointers(tokens[i..]) + top == top;
    while i > 0
      invariant 0 <= i <= |tokens|
      invariant |Strings(tokens[i..])| <= PAGE_SIZE && |Pointers(tokens[i..]) + top| <= PAGE_SIZE
      invariant esp == esp0 - 4 * (|tokens| - i)
      invariant page[..] == PageWith(Pointers(tokens[i..]) + top)
    {
      i := i - 1;
      StringsGrow(tokens, i);
      PointersSplit(tokens, i);
      ghost var below := Pointers(tokens[i + 1..]) + top;
      ok, esp := Push(page, esp, Le32(pointers[i]), below);
      assert Le32(pointers[i]) + below == Pointers(tokens[i..]) + top;
      if !ok {
        return;
      }
    }
    assert tokens[0..] == tokens;
    ok := true;
  }

  /** setup_stack on a freshly mapped zeroed page: the stack pointer, or None when a store would leave the page. */
  method SetupStack(page: array<byte>, tokens: seq<seq<byte>>) returns (esp: Option<int>)
    requires page.Length == PAGE_SIZE && page[..] == Zeros(PAGE_SIZE)
    modifies page
    ensures esp.Some? <==> ImageSize(tokens) <= PAGE_SIZE
    ensures esp.Some? <==> (TotalLength(tokens) + |tokens| + 3) / 4 * 4 + 4 * |tokens| + 16 <= PAGE_SIZE
    ensures esp.Some? ==> esp.value == PHYS_BASE - ImageSize(tokens) && page[..] == PageWith(Image(tokens))
    ensures esp.Some? && (forall k :: 0 <= k < |tokens| ==> CString(tokens[k])) ==> Decode(page[..], esp.value) == Some(tokens)
  {
    ImageSizeIs(tokens);
    if ImageSize(tokens) <= PAGE_SIZE && forall k :: 0 <= k < |tokens| ==> CString(tokens[k]) {
      StackRoundTrip(tokens);
    }
    hide ImageSize, Image, Decode, PageWith, CString, TotalLength;
    var ok, sp, pointers := PushStrings(page, tokens);
    if !ok { return None; }
    ok, sp := PushUpper(page, sp, tokens);
    if !ok { return None; }
    ok, sp := PushPointers(page, sp, tokens, pointers, Upper(tokens));
    if !ok { return None; }
    esp := PushHeader(page, sp, |tokens|, Pointers(tokens) + Upper(tokens));
  }

  method PushUpper(page: array<byte>, sp0: int, tokens: seq<seq<byte>>) returns (ok: bool, sp: int)
    requires page.Length == PAGE_SIZE && |Strings(tokens)| <= PAGE_SIZE && sp0 == Address(tokens)
    requires page[..] == PageWith(Strings(tokens))
    modifies page
    ensures ok <==> |Upper(tokens)| <= PAGE_SIZE
    ensures ok ==> sp == PHYS_BASE - |Upper(tokens)| && page[..] == PageWith(Upper(tokens))
  {
    var bytesAlign := (sp0 - 4) % 4;
    assert bytesAlign == Padding(tokens);
    ok, sp := Push(page, sp0, Zeros(bytesAlign), Strings(tokens));
    if !ok { return; }
    ok, sp := Push(page, sp, Le32(0), Zeros(bytesAlign) + Strings(tokens));
  }

  /** argv, argc and the return address. */
  method PushHeader(page: array<byte>, sp0: int, argc: nat, ghost top: seq<byte>) returns (esp: Option<int>)
    requires page.Length == PAGE_SIZE && |top| <= PAGE_SIZE && sp0 == PHYS_BASE - |top| && page[..] == PageWith(top)
    requires argc <= PAGE_SIZE
    modifies page
    ensures esp.Some? <==> |top| + 12 <= PAGE_SIZE
    ensures esp.Some? ==> esp.value == sp0 - 12 && page[..] == PageWith(Le32(0) + (Le32(argc) + (Le32(sp0) + top)))
  {
    var ok, sp := Push(page, sp0, Le32(sp0), top);
    if !ok { return None; }
    ok, sp := Push(page, sp, Le32(argc), Le32(sp0) + top);
    if !ok { return None; }
    ok, sp := Push(page, sp, Le32(0), Le32(argc) + (Le32(sp0) + top));
    if !ok { return None; }
    return Some(sp);
  }

  // ---------------------------------------------------------------- reading it back

  /** A little-endian word of the stack page. */
  function ReadWord(page: seq<byte>, addr: int): Option<uint32> {
    if LOW <= addr && addr + 4 <= LOW + |page| then Some(FromLe32(page[addr - LOW..addr - LOW + 4])) else None
  }

  /** The bytes from index i up to a NUL. */
  function StringAt(page: seq<byte>, i: nat): Option<seq<byte>>
    decreases |page| - i
  {
    if i >= |page| then None
    else if page[i] == 0 then Some([])
    else
      match StringAt(page, i + 1)
      case None => None
      case Some(s) => Some([page[i]] + s)
  }

  function ReadString(page: seq<byte>, addr: int): Option<seq<byte>> {
    if addr < LOW then None else StringAt(page, addr - LOW)
  }

  /** argv[0..n) for the array at argv. */
  function ReadArgs(page: seq<byte>, argv: int, n: nat): Option<seq<seq<byte>>>
    decreases n
  {
    if n == 0 then Some([])
    else
      match ReadWord(page, argv)
      case None => None
      case Some(p) =>
        match ReadString(page, p)
        case None => None
        case Some(s) =>
          match ReadArgs(page, argv + 4, n - 1)
          case None => None
          case Some(rest) => Some([s] + rest)
  }

  /** What a C program finds: argc above the return address, then argv, and argv[argc] null. */
  function Decode(page: seq<byte>, esp: int): Option<seq<seq<byte>>> {
    match (ReadWord(page, esp + 4), ReadWord(page, esp + 8))
    case (Some(argc), Some(argv)) =>
      if ReadWord(page, argv as int + 4 * argc as int) == Some(0) then ReadArgs(page, argv, argc) else None
    case _ => None
  }

  lemma {:induction false} StringAtReads(page: seq<byte>, i: nat, s: seq<byte>)
    requires CString(s) && i + |s| < |page| && page[i..i + |s|] == s && page[i + |s|] == 0
    ensures StringAt(page, i) == Some(s)
    decreases |s|
  {
    if s != [] {
      assert page[i] == s[0];
      assert page[i + 1..i + 1 + |s[1..]|] == s[1..];
      StringAtReads(page, i + 1, s[1..]);
      assert [page[i]] + s[1..] == s;
    }
  }

  lemma ToEnd(page: seq<byte>, at: nat)
    requires at <= |page| == PAGE_SIZE
    ensures page[at..PAGE_SIZE] == page[at..]
  {
    assert page[..PAGE_SIZE] == page;
  }

  lemma WordAt(page: seq<byte>, at: nat, w: uint32)
    requires at + 4 <= |page| && page[at..at + 4] == Le32(w)
    ensures ReadWord(page, LOW + at) == Some(w)
  {
    Le32RoundTrip(w);
  }

  /** The front part of a slice. */
  lemma Peel(page: seq<byte>, at: nat, end: nat, front: seq<byte>, rest: seq<byte>)
    requires at <= end <= |page| && page[at..end] == front + rest
    ensures at + |front| <= end && page[at..at + |front|] == front && page[at + |front|..end] == rest
  {
    var part := page[at..end];
    assert page[at..at + |front|] == part[..|front|];
    assert page[at + |front|..end] == part[|front|..];
  }

  /** The pointer array reads back as the words, from any word on. */
  lemma {:induction false} ArgsRead(page: seq<byte>, tokens: seq<seq<byte>>, i: nat, at: nat, end: nat)
    requires |page| == PAGE_SIZE && i <= |tokens| && |Strings(tokens)| <= PAGE_SIZE
    requires forall k :: 0 <= k < |tokens| ==> CString(tokens[k])
    requires |Strings(tokens[i..])| <= PAGE_SIZE && at <= end <= |page| && page[at..end] == Pointers(tokens[i..])
    requires page[PAGE_SIZE - |Strings(tokens)|..] == Strings(tokens)
    ensures ReadArgs(page, LOW + at, |tokens| - i) == Some(tokens[i..])
    decreases |tokens| - i
  {
    if i < |tokens| {
      StringsGrow(tokens, i);
      PointersSplit(tokens, i);
      var w := Address(tokens[i..]);
      Peel(page, at, end, Le32(w), Pointers(tokens[i + 1..]));
      WordAt(page, at, w);
      StringIsThere(page, tokens, i);
      ArgsRead(page, tokens, i + 1, at + 4, end);
      assert tokens[i..] == [tokens[i]] + tokens[i + 1..];
    }
  }

  lemma {:induction false} StringsSuffix(tokens: seq<seq<byte>>, i: nat)
    requires i <= |tokens|
    ensures |Strings(tokens[i..])| <= |Strings(tokens)|
    ensures Strings(tokens)[|Strings(tokens)| - |Strings(tokens[i..])|..] == Strings(tokens[i..])
    decreases i
  {
    if i == 0 {
      assert tokens[0..] == tokens;
    } else {
      StringsSuffix(tokens, i - 1);
      StringsSplit(tokens, i - 1);
      var s, t, u := Strings(tokens), Strings(tokens[i - 1..]), Strings(tokens[i..]);
      assert s[|s| - |u|..] == s[|s| - |t|..][|t| - |u|..];
      assert t[|t| - |u|..] == u;
    }
  }

  lemma SuffixOf(page: seq<byte>, s: seq<byte>, u: seq<byte>)
    requires |u| <= |s| <= |page| && page[|page| - |s|..] == s && s[|s| - |u|..] == u
    ensures page[|page| - |u|..] == u
  {
    assert page[|page| - |u|..] == page[|page| - |s|..][|s| - |u|..];
  }

  lemma StringIsThere(page: seq<byte>, tokens: seq<seq<byte>>, i: nat)
    requires |page| == PAGE_SIZE && i < |tokens| && |Strings(tokens)| <= PAGE_SIZE && CString(tokens[i])
    requires page[PAGE_SIZE - |Strings(tokens)|..] == Strings(tokens)
    ensures ReadString(page, Address(tokens[i..])) == Some(tokens[i])
  {
    StringsSuffix(tokens, i);
    StringsSplit(tokens, i);
    SuffixOf(page, Strings(tokens), Strings(tokens[i..]));
    var t, at := tokens[i], PAGE_SIZE - |Strings(tokens[i..])|;
    ToEnd(page, at);
    assert page[at..PAGE_SIZE] == t + ([0] + Strings(tokens[i + 1..]));
    Peel(page, at, PAGE_SIZE, t, [0] + Strings(tokens[i + 1..]));
    assert page[at + |t|] == page[at + |t|..PAGE_SIZE][0];
    StringAtReads(page, at, t);
  }

  lemma HeaderReads(page: seq<byte>, at: nat, argc: uint32, argv: uint32, rest: seq<byte>)
    requires |page| == PAGE_SIZE && at <= PAGE_SIZE
    requires page[at..PAGE_SIZE] == Le32(0) + (Le32(argc) + (Le32(argv) + rest))
    ensures at + 12 <= PAGE_SIZE && page[at + 12..PAGE_SIZE] == rest
    ensures ReadWord(page, LOW + at + 4) == Some(argc) && ReadWord(page, LOW + at + 8) == Some(argv)
  {
    Peel(page, at, PAGE_SIZE, Le32(0), Le32(argc) + (Le32(argv) + rest));
    Peel(page, at + 4, PAGE_SIZE, Le32(argc), Le32(argv) + rest);
    WordAt(page, at + 4, argc);
    Peel(page, at + 8, PAGE_SIZE, Le32(argv), rest);
    WordAt(page, at + 8, argv);
  }

  lemma UpperReads(page: seq<byte>, end: nat, pad: seq<byte>, strings: seq<byte>)
    requires |page| == PAGE_SIZE && end <= PAGE_SIZE
    requires page[end..PAGE_SIZE] == Le32(0) + (pad + strings)
    ensures |strings| <= PAGE_SIZE && page[PAGE_SIZE - |strings|..] == strings
    ensures ReadWord(page, LOW + end) == Some(0)
  {
    Peel(page, end, PAGE_SIZE, Le32(0), pad + strings);
    WordAt(page, end, 0);
    Peel(page, end + 4, PAGE_SIZE, pad, strings);
    ToEnd(page, PAGE_SIZE - |strings|);
  }

  lemma DecodeIs(page: seq<byte>, at: nat, end: int, argc: uint32, argv: uint32, tokens: seq<seq<byte>>)
    requires ReadWord(page, LOW + at + 4) == Some(argc) && ReadWord(page, LOW + at + 8) == Some(argv)
    requires argv == LOW + at + 12 && end == at + 12 + 4 * argc
    requires ReadWord(page, LOW + end) == Some(0) && ReadArgs(page, LOW + (at + 12), argc) == Some(tokens)
    ensures Decode(page, LOW + at) == Some(tokens)
  {
  }

  lemma AllArgsRead(page: seq<byte>, tokens: seq<seq<byte>>, at: nat, end: nat)
    requires |page| == PAGE_SIZE && |Strings(tokens)| <= PAGE_SIZE
    requires forall k :: 0 <= k < |tokens| ==> CString(tokens[k])
    requires at <= end <= |page| && page[at..end] == Pointers(tokens)
    requires page[PAGE_SIZE - |Strings(tokens)|..] == Strings(tokens)
    ensures ReadArgs(page, LOW + at, |tokens|) == Some(tokens)
  {
    assert tokens[0..] == tokens;
    ArgsRead(page, tokens, 0, at, end);
  }

  lemma Aligned(tokens: seq<seq<byte>>)
    ensures (PHYS_BASE - ImageSize(tokens)) % 4 == 0
  {
    var x, n := Address(tokens), |tokens|;
    assert PHYS_BASE - ImageSize(tokens) == 4 * (x / 4 - n - 4);
  }

  lemma LaidOutDecodes(page: seq<byte>, at: nat, argv: uint32, ps: seq<byte>, pad: seq<byte>, strings: seq<byte>,
                       tokens: seq<seq<byte>>)
    requires |page| == PAGE_SIZE && at <= PAGE_SIZE && |tokens| <= PAGE_SIZE && argv == LOW + at + 12
    requires |Strings(tokens)| <= PAGE_SIZE && ps == Pointers(tokens) && strings == Strings(tokens)
    requires forall k :: 0 <= k < |tokens| ==> CString(tokens[k])
    requires page[at..PAGE_SIZE] == Le32(0) + (Le32(|tokens|) + (Le32(argv) + (ps + (Le32(0) + (pad + strings)))))
    ensures Decode(page, LOW + at) == Some(tokens)
  {
    var up := Le32(0) + (pad + strings);
    HeaderReads(page, at, |tokens|, argv, ps + up);
    Peel(page, at + 12, PAGE_SIZE, ps, up);
    var end := at + 12 + |ps|;
    UpperReads(page, end, pad, strings);
    AllArgsRead(page, tokens, at + 12, end);
    DecodeIs(page, at, end, |tokens|, argv, tokens);
  }

  /** The stack pointer is 4-aligned and a C program reads back exactly the words, with argv[argc] null. */
  lemma StackRoundTrip(tokens: seq<seq<byte>>)
    requires ImageSize(tokens) <= PAGE_SIZE
    requires forall k :: 0 <= k < |tokens| ==> CString(tokens[k])
    ensures Decode(PageWith(Image(tokens)), PHYS_BASE - ImageSize(tokens)) == Some(tokens)
    ensures (PHYS_BASE - ImageSize(tokens)) % 4 == 0
  {
    var page, at := PageWith(Image(tokens)), PAGE_SIZE - ImageSize(tokens);
    ToEnd(page, at);
    assert page[at..PAGE_SIZE] == Image(tokens);
    LaidOutDecodes(page, at, ArgvAddress(tokens), Pointers(tokens), Zeros(Padding(tokens)), Strings(tokens), tokens);
    Aligned(tokens);
  }

  lemma {:induction false} StringsLength(tokens: seq<seq<byte>>)
    ensures |Strings(tokens)| >= |tokens|
  {
    if tokens != [] {
      StringsLength(tokens[1..]);
    }
  }

  /**
   For every command line whose image fits in the page, the new program gets exactly its words: the
   limit of 1025 tokens in load never matters, since that many would not fit.
   */
  lemma CommandLineRoundTrip(line: seq<byte>, tokens: seq<seq<byte>>)
    requires CString(line)
    requires tokens == Words(line, 0)[..Min(|Words(line, 0)|, INPUT_BUF_SIZE)] && ImageSize(tokens) <= PAGE_SIZE
    ensures tokens == Words(line, 0)
    ensures Decode(PageWith(Image(tokens)), PHYS_BASE - ImageSize(tokens)) == Some(Words(line, 0))
  {
    StringsLength(tokens);
    assert tokens == Words(line, 0);
    WordsAreCStrings(line, 0);
    StackRoundTrip(tokens);
  }
}
