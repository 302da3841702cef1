// _copy_trace of tools/alpha_runner.py: copy the complete records of a trace, drop a torn tail.
module TraceCopy {
  import opened Bytes

  const NEWLINE: Byte := 10
  const MAX_TRACE_LINE_BYTES := 0x10000

  // Everything up to and including the last newline.
  function Kept(source: seq<Byte>): seq<Byte> {
    if source == [] || source[|source| - 1] == NEWLINE then source else Kept(source[..|source| - 1])
  }

  // source[start..end] is one complete line, its newline included.
  predicate Line(source: seq<Byte>, start: int, end: int) {
    && 0 <= start < end <= |source|
    && (start == 0 || source[start - 1] == 0x0A)
    && source[end - 1] == 0x0A
    && 0x0A !in source[start..end - 1]
  }

  // `isObject` says that a line decodes and parses as a JSON object.
  ghost predicate Shareable(source: seq<Byte>, isObject: seq<Byte> -> bool) {
    && (forall i, j :: Line(source, i, j) ==> j - i <= 65536 && isObject(source[i..j]))
    && |source| - |Kept(source)| <= 65536
  }

  lemma {:induction false} KeptIsTheLinePrefix(source: seq<Byte>, n: nat)
    requires n <= |source| && (n == 0 || source[n - 1] == NEWLINE) && NEWLINE !in source[n..]
    ensures Kept(source) == source[..n]
  {
    if n < |source| {
      var shorter := source[..|source| - 1];
      assert shorter[n..] == source[n..][..|source| - 1 - n];
      assert source[|source| - 1] == source[n..][|source| - 1 - n];
      KeptIsTheLinePrefix(shorter, n);
      assert shorter[..n] == source[..n];
    } else {
      assert source[..n] == source;
    }
  }

  lemma {:induction false} KeptEndsALine(source: seq<Byte>)
    ensures Kept(source) <= source
    ensures Kept(source) == [] || Kept(source)[|Kept(source)| - 1] == 0x0A
    ensures 0x0A !in source[|Kept(source)|..]
  {
    if source != [] && source[|source| - 1] != NEWLINE {
      var shorter := source[..|source| - 1];
      KeptEndsALine(shorter);
      var n := |Kept(source)|;
      assert source[n..] == shorter[n..] + [source[|source| - 1]];
    }
  }

  // Binary readline: where a read of at most `limit` bytes from `start` stops.
  function ReadLine(source: seq<Byte>, start: nat, limit: nat): (end: nat)
    requires start <= |source|
    ensures start <= end <= |source| && end <= start + limit
    ensures forall k :: start <= k < end - 1 ==> source[k] != NEWLINE
    ensures end == |source| || end == start + limit || (start < end && source[end - 1] == NEWLINE)
    decreases limit
  {
    if start == |source| || limit == 0 then start
    else if source[start] == NEWLINE then start + 1
    else ReadLine(source, start + 1, limit - 1)
  }

  datatype Result = Copied(records: nat, torn: nat) | Oversized | InvalidRecord

  // Every line that ends by `position` is short enough and parses.
  ghost predicate GoodUpTo(source: seq<Byte>, isObject: seq<Byte> -> bool, position: int) {
    forall i, j :: Line(source, i, j) && j <= position ==> j - i <= 65536 && isObject(source[i..j])
  }

  // A line or a tail begins at `start` and has no newline within the cap.
  predicate OverCap(source: seq<Byte>, start: nat) {
    && (start == 0 || (start <= |source| && source[start - 1] == 0x0A))
    && start + 65536 < |source| && 0x0A !in source[start..start + 65536]
  }

  // A complete line within the cap begins at `start` and does not parse.
  ghost predicate BadLine(source: seq<Byte>, isObject: seq<Byte> -> bool, start: nat) {
    exists end :: Line(source, start, end) && end - start <= 65536 && !isObject(source[start..end])
  }

  // `records` lines have been copied to `target`, all of them good.
  ghost predicate Copying(source: seq<Byte>, isObject: seq<Byte> -> bool, records: nat, target: seq<Byte>) {
    && target <= source && (target == [] || target[|target| - 1] == NEWLINE) && |target| <= |Kept(source)|
    && GoodUpTo(source, isObject, |target|) && records == multiset(target)[NEWLINE]
  }

  method CopyTrace(source: seq<Byte>, isObject: seq<Byte> -> bool) returns (r: Result, target: seq<Byte>)
    ensures r.Copied? <==> Shareable(source, isObject)
    ensures r.Copied? ==> target == Kept(source)
    ensures r.Copied? ==> r.records == multiset(source)[0x0A]
    ensures r.Copied? ==> r.torn == if |target| < |source| then 1 else 0
    // The first line that is not good decides which error is raised, and nothing of it is copied.
    ensures target <= Kept(source) && GoodUpTo(source, isObject, |target|)
    ensures r.Oversized? ==> OverCap(source, |target|)
    ensures r.InvalidRecord? ==> BadLine(source, isObject, |target|)
  {
    hide Kept, ReadLine, Shareable, GoodUpTo, OverCap, BadLine, Copying, Line;
    var records := 0;
    target := [];
    KeptEndsALine(source);
    StartsCopying(source, isObject);
    while true
      invariant Copying(source, isObject, records, target)
      decreases |source| - |target|
    {
      CopiedSoFar(source, isObject, records, target);
      var position := |target|;
      var end := ReadLine(source, position, MAX_TRACE_LINE_BYTES + 1);
      if end == position {
        assert source[..position] == source;
        EndIsShareable(source, isObject, position);
        return Copied(records, 0), target;
      }
      var line := source[position..end];
      if |line| > MAX_TRACE_LINE_BYTES {
        OversizedIsNotShareable(source, isObject, position, end);
        return Oversized, target;
      }
      if line[|line| - 1] != NEWLINE {
        NoNewline(source, position, end);
        TornTail(source, position, end);
        EndIsShareable(source, isObject, position);
        return Copied(records, 1), target;
      }
      LineRead(source, position, end);
      if !isObject(line) {
        BadLineIsNotShareable(source, isObject, position, end);
        return InvalidRecord, target;
      }
      LineIsCopied(source, isObject, records, target, end);
      records, target := records + 1, target + line;
    }
  }

  lemma StartsCopying(source: seq<Byte>, isObject: seq<Byte> -> bool)
    ensures Copying(source, isObject, 0, [])
  {
    hide Kept;
  }

  lemma CopiedSoFar(source: seq<Byte>, isObject: seq<Byte> -> bool, records: nat, target: seq<Byte>)
    requires Copying(source, isObject, records, target)
    ensures target <= source && (target == [] || source[|target| - 1] == NEWLINE) && |target| <= |Kept(source)|
    ensures target <= Kept(source) && target == source[..|target|]
    ensures GoodUpTo(source, isObject, |target|) && records == multiset(target)[NEWLINE]
  {
    hide Kept, GoodUpTo;
    KeptEndsALine(source);
  }

  lemma NoNewline(source: seq<Byte>, start: nat, end: nat)
    requires start < end <= |source| && source[end - 1] != NEWLINE
    requires forall k :: start <= k < end - 1 ==> source[k] != NEWLINE
    ensures NEWLINE !in source[start..end]
  {
  }

  lemma LineRead(source: seq<Byte>, start: nat, end: nat)
    requires start < end <= |source| && source[end - 1] == NEWLINE && (start == 0 || source[start - 1] == NEWLINE)
    requires forall k :: start <= k < end - 1 ==> source[k] != NEWLINE
    ensures Line(source, start, end)
  {
  }

  // One more good line.
  lemma LineIsCopied(source: seq<Byte>, isObject: seq<Byte> -> bool, records: nat, target: seq<Byte>, end: nat)
    requires Copying(source, isObject, records, target) && Line(source, |target|, end)
    requires end - |target| <= MAX_TRACE_LINE_BYTES && isObject(source[|target|..end])
    ensures Copying(source, isObject, records + 1, target + source[|target|..end])
  {
    hide Kept, GoodUpTo;
    var line := source[|target|..end];
    assert target + line == source[..end] && line[|line| - 1] == NEWLINE;
    OneNewline(source, |target|, end);
    EndOfLineIsKept(source, end);
    LineIsGood(source, isObject, |target|, end);
  }

  lemma LineIsGood(source: seq<Byte>, isObject: seq<Byte> -> bool, start: int, end: int)
    requires Line(source, start, end) && end - start <= MAX_TRACE_LINE_BYTES && isObject(source[start..end])
    requires GoodUpTo(source, isObject, start)
    ensures GoodUpTo(source, isObject, end)
  {
    LinesUpTo(source, start, end);
  }

  lemma BadLineIsNotShareable(source: seq<Byte>, isObject: seq<Byte> -> bool, start: int, end: int)
    requires Line(source, start, end) && !isObject(source[start..end])
    ensures !Shareable(source, isObject)
    ensures end - start <= MAX_TRACE_LINE_BYTES ==> BadLine(source, isObject, start)
  {
  }

  // Good lines and a short enough tail are all that is asked.
  lemma EndIsShareable(source: seq<Byte>, isObject: seq<Byte> -> bool, position: nat)
    requires position <= |source| <= position + MAX_TRACE_LINE_BYTES && GoodUpTo(source, isObject, position)
    requires NEWLINE !in source[position..] && (position == 0 || source[position - 1] == NEWLINE)
    ensures Shareable(source, isObject) && Kept(source) == source[..position]
  {
    KeptIsTheLinePrefix(source, position);
    if position < |source| { TornTail(source, position, |source|); }
  }

  lemma OneNewline(source: seq<Byte>, start: int, end: int)
    requires Line(source, start, end)
    ensures multiset(source[start..end])[NEWLINE] == 1
  {
    assert source[start..end] == source[start..end - 1] + [NEWLINE];
  }

  lemma EndOfLineIsKept(source: seq<Byte>, end: nat)
    requires 0 < end <= |source| && source[end - 1] == NEWLINE
    ensures end <= |Kept(source)|
  {
  }

  // Between two line starts there is one line.
  lemma LinesUpTo(source: seq<Byte>, start: nat, end: nat)
    requires Line(source, start, end)
    ensures forall i, j :: Line(source, i, j) && start < j <= end ==> i == start && j == end
  {
  }

  lemma TornTail(source: seq<Byte>, start: nat, end: nat)
    requires start < end == |source| && (start == 0 || source[start - 1] == NEWLINE)
    requires NEWLINE !in source[start..end]
    ensures Kept(source) == source[..start]
    ensures forall i, j :: Line(source, i, j) ==> j <= start
    ensures multiset(source)[NEWLINE] == multiset(source[..start])[NEWLINE]
  {
    assert source == source[..start] + source[start..end];
    KeptIsTheLinePrefix(source, start);
  }

  // A read that fills up without a newline, or ends one byte past the cap, is in a line or a tail that
  // is itself over the cap.
  lemma OversizedIsNotShareable(source: seq<Byte>, isObject: seq<Byte> -> bool, start: nat, end: nat)
    requires start <= |source| && (start == 0 || source[start - 1] == NEWLINE)
    requires end == start + MAX_TRACE_LINE_BYTES + 1 <= |source|
    requires forall k :: start <= k < end - 1 ==> source[k] != NEWLINE
    ensures OverCap(source, start) && !Shareable(source, isObject)
  {
    KeptEndsALine(source);
    var n := |Kept(source)|;
    if end <= n {
      var j := end;
      while source[j - 1] != NEWLINE
        invariant end <= j <= n
        invariant forall k :: start <= k < j - 1 ==> source[k] != NEWLINE
        decreases n - j
      {
        j := j + 1;
      }
      assert Line(source, start, j);
    }
  }
}
