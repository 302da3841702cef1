// notification_event of tools/gen_stubs.py: EOS_<family>_AddNotify<event> becomes family and event merged
// at their largest overlap.
module NotificationNames {
  import opened Text

  const PREFIX := "EOS_"
  const MARK := "_AddNotify"

  // The name splits at `i` as the regular expression EOS_(.+)_AddNotify(.+)$ would split it.
  predicate SplitsAt(name: string, i: int) {
    PREFIX <= name && 5 <= i && i + 10 < |name| && name[i..i + 10] == MARK
  }

  function WithoutUnderscores(s: string): string {
    if s == "" then "" else (if s[0] == '_' then "" else [s[0]]) + WithoutUnderscores(s[1..])
  }

  // Underscores go and everything else stays, piece by piece.
  lemma {:induction false} UnderscoresGo(a: string, b: string)
    requires '_' !in a
    ensures WithoutUnderscores(a) == a && WithoutUnderscores(a + "_" + b) == a + WithoutUnderscores(b)
  {
    hide WithoutUnderscores;
    if a == "" {
      NoUnderscoreFirst("_" + b);
      NoUnderscoreFirst("");
      assert "" + "_" + b == "_" + b && ("_" + b)[1..] == b;
    } else {
      UnderscoresGo(a[1..], b);
      NoUnderscoreFirst(a);
      NoUnderscoreFirst(a + "_" + b);
      assert (a + "_" + b)[1..] == a[1..] + "_" + b && [a[0]] + a[1..] == a;
      assert a + WithoutUnderscores(b) == [a[0]] + (a[1..] + WithoutUnderscores(b));
    }
  }

  lemma NoUnderscoreFirst(s: string)
    ensures WithoutUnderscores(s) == if s == "" then "" else
                                       (if s[0] == '_' then "" else [s[0]]) + WithoutUnderscores(s[1..])
  {
  }

  // The two ends a merged name must show.
  predicate Shows(w: string, family: string, event: string) {
    family <= w && |event| <= |w| && w[|w| - |event|..] == event
  }

  // The only shortest text that starts with `family` and ends with `event`.
  ghost predicate ShortestMerge(w: string, family: string, event: string) {
    && Shows(w, family, event)
    && forall v :: Shows(v, family, event) ==> |w| < |v| || v == w
  }

  predicate Overlaps(family: string, event: string, size: int) {
    0 <= size <= |family| && size <= |event| && family[|family| - size..] == event[..size]
  }

  // A text that shows both ends is the family followed by the event minus some overlap, or leaves a gap.
  lemma ShownOverlap(w: string, family: string, event: string)
    requires Shows(w, family, event) && |w| <= |family| + |event|
    ensures var size := |family| + |event| - |w|;
            Overlaps(family, event, size) && w == family + event[size..]
  {
  }

  lemma MergeIsShortest(family: string, event: string, overlap: nat)
    requires Overlaps(family, event, overlap)
    requires forall size :: overlap < size <= |family| && size <= |event| ==> !Overlaps(family, event, size)
    ensures ShortestMerge(family + event[overlap..], family, event)
  {
    var w := family + event[overlap..];
    assert w[|w| - |event|..] == family[|family| - overlap..] + event[overlap..] == event;
    forall v | Shows(v, family, event) ensures |w| < |v| || v == w {
      if |v| <= |w| { ShownOverlap(v, family, event); }
    }
  }

  function LargestOverlap(family: string, event: string, limit: nat): (overlap: nat)
    requires limit <= |family| && limit <= |event|
    ensures overlap <= limit && Overlaps(family, event, overlap)
    ensures forall size :: overlap < size <= limit ==> !Overlaps(family, event, size)
  {
    if limit == 0 || Overlaps(family, event, limit) then limit else LargestOverlap(family, event, limit - 1)
  }

  function Merged(family: string, event: string): (merged: string)
    ensures ShortestMerge(merged, family, event)
  {
    var overlap := LargestOverlap(family, event, if |family| < |event| then |family| else |event|);
    MergeIsShortest(family, event, overlap);
    family + event[overlap..]
  }

  method Merge(family: string, event: string) returns (merged: string)
    ensures merged == Merged(family, event)
  {
    var overlap: nat := 0;
    var limit := if |family| < |event| then |family| else |event|;
    assert family[|family|..] == event[..0];
    for size := 1 to limit + 1
      invariant overlap < size && Overlaps(family, event, overlap)
      invariant forall k :: overlap < k < size ==> !Overlaps(family, event, k)
    {
      if family[|family| - size..] == event[..size] { overlap := size; }
    }
    merged := family + event[overlap..];
  }

  // The last split at or before `from`.
  function LastSplit(name: string, from: int): (i: int)
    ensures i <= from && (i < 5 || SplitsAt(name, i)) && forall j :: i < j <= from ==> !SplitsAt(name, j)
    decreases from
  {
    if from < 5 || SplitsAt(name, from) then from else LastSplit(name, from - 1)
  }

  function EventName(name: string): string {
    var i := LastSplit(name, |name| - 11);
    if i < 5 then (if PREFIX <= name then name[4..] else name)
    else Merged(WithoutUnderscores(name[4..i]), name[i + 10..])
  }

  lemma EventOfPlainName(name: string)
    requires forall i :: !SplitsAt(name, i)
    ensures EventName(name) == if PREFIX <= name then name[4..] else name
  {
    hide Merged;
  }

  // The family is as long as it can be: the last mark splits the name.
  lemma EventOfSplitName(name: string, i: int)
    requires SplitsAt(name, i) && forall j :: SplitsAt(name, j) ==> j <= i
    ensures ShortestMerge(EventName(name), WithoutUnderscores(name[4..i]), name[i + 10..])
  {
    hide Merged, WithoutUnderscores, ShortestMerge;
    assert LastSplit(name, |name| - 11) == i by { hide SplitsAt; LastSplitIs(name, |name| - 11, i); }
  }

  // EOS_<family>_AddNotify<event>, for an event that holds no further mark.
  lemma EventOfAddNotify(family: string, event: string)
    requires family != "" && event != "" && forall i :: !StandsAt(event, i, "_AddNotify")
    ensures ShortestMerge(EventName("EOS_" + family + "_AddNotify" + event), WithoutUnderscores(family), event)
  {
    hide ShortestMerge, WithoutUnderscores, EventName;
    var name, at := "EOS_" + family + "_AddNotify" + event, 4 + |family|;
    assert name[..4] == PREFIX && name[at..at + 10] == MARK && name[4..at] == family && name[at + 10..] == event;
    assert SplitsAt(name, at);
    forall j | SplitsAt(name, j) ensures j <= at { NoLaterMark(family, event, j); }
    EventOfSplitName(name, at);
  }

  lemma NoLaterMark(family: string, event: string, j: int)
    requires forall i :: !StandsAt(event, i, "_AddNotify")
    requires SplitsAt("EOS_" + family + "_AddNotify" + event, j)
    ensures j <= 4 + |family|
  {
    var name, at := "EOS_" + family + "_AddNotify" + event, 4 + |family|;
    assert name[j] == name[j..j + 10][0];
    assert forall k :: 0 <= k < 10 ==> name[at + k] == "_AddNotify"[k];
    if j >= at + 10 {
      MarkInEvent(name, event, j, at + 10);
    }
  }

  lemma MarkInEvent(name: string, event: string, j: int, at: int)
    requires SplitsAt(name, j) && 0 <= at <= j && name[at..] == event
    ensures StandsAt(event, j - at, "_AddNotify")
  {
    assert name[j..j + 10] == name[at..][j - at..j - at + 10];
  }

  lemma LastSplitIs(name: string, from: int, i: int)
    requires SplitsAt(name, i) && 5 <= i <= from && forall j :: SplitsAt(name, j) ==> j <= i
    ensures LastSplit(name, from) == i
  {
    hide SplitsAt;
  }

  // notification_event, for the newline-free names the header scan yields.
  method NotificationEvent(name: string) returns (event: string)
    requires '\n' !in name
    ensures event == EventName(name)
    ensures (forall i :: !SplitsAt(name, i)) ==> event == if PREFIX <= name then name[4..] else name
    ensures forall i :: SplitsAt(name, i) && (forall j :: SplitsAt(name, j) ==> j <= i) ==>
              ShortestMerge(event, WithoutUnderscores(name[4..i]), name[i + 10..])
  {
    hide WithoutUnderscores, Merged, ShortestMerge;
    forall i | SplitsAt(name, i) && (forall j :: SplitsAt(name, j) ==> j <= i)
      ensures ShortestMerge(EventName(name), WithoutUnderscores(name[4..i]), name[i + 10..]) {
      EventOfSplitName(name, i);
    }
    if forall i :: !SplitsAt(name, i) { EventOfPlainName(name); }
    var i := |name| - 11;
    while i >= 5 && !SplitsAt(name, i)
      invariant LastSplit(name, i) == LastSplit(name, |name| - 11)
    {
      i := i - 1;
    }
    if i < 5 {
      event := if PREFIX <= name then name[4..] else name;
    } else {
      event := Merge(WithoutUnderscores(name[4..i]), name[i + 10..]);
    }
  }
}
