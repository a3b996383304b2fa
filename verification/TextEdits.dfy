/** A list of text edits applied from the back of a text to its front (rex-lsp/src/queries.rs:1389-1405). */
module TextEdits {
  datatype Edit = Edit(start: nat, end: nat, replacement: string)

  datatype Outcome = Absent | OutOfRange | Edited(text: string)

  /** Later edits come first: by start, then by end, descending. */
  predicate Precedes(a: Edit, b: Edit) {
    a.start > b.start || (a.start == b.start && a.end >= b.end)
  }

  /** Stable: of edits that are level, the one listed first stays first. */
  function Place(e: Edit, sorted: seq<Edit>): seq<Edit> {
    if sorted == [] then [e]
    else if Precedes(e, sorted[0]) then [e] + sorted
    else [sorted[0]] + Place(e, sorted[1..])
  }

  function Sorted(edits: seq<Edit>): seq<Edit> {
    if edits == [] then [] else Place(edits[0], Sorted(edits[1..]))
  }

  function Replaced(text: string, e: Edit): string
    requires e.start <= e.end <= |text|
  {
    text[..e.start] + e.replacement + text[e.end..]
  }

  /** The edits one after another, each on the result of the one before. */
  function ReplaceAll(text: string, edits: seq<Edit>): Outcome
    decreases |edits|
  {
    if edits == [] then Edited(text)
    else if edits[0].start <= edits[0].end <= |text| then ReplaceAll(Replaced(text, edits[0]), edits[1..])
    else OutOfRange
  }

  predicate InRange(text: string, edits: seq<Edit>) {
    forall i :: 0 <= i < |edits| ==> edits[i].start <= edits[i].end <= |text|
  }

  /** `OutOfRange` is where replacing a range beyond the end of the text panics, as overlapping edits can make it. */
  method ApplyEdits(text: string, edits: seq<Edit>) returns (r: Outcome)
    ensures r == if !InRange(text, edits) then Absent else ReplaceAll(text, Sorted(edits))
  {
    if |edits| == 0 {
      return Edited(text);
    }
    for i := 0 to |edits|
      invariant InRange(text, edits[..i])
    {
      if edits[i].start > edits[i].end || edits[i].end > |text| {
        return Absent;
      }
    }
    var ordered := Sorted(edits);
    var out := text;
    for i := 0 to |ordered|
      invariant ReplaceAll(text, ordered) == ReplaceAll(out, ordered[i..])
    {
      assert ordered[i..][0] == ordered[i] && ordered[i..][1..] == ordered[i + 1..];
      if !(ordered[i].start <= ordered[i].end <= |out|) {
        return OutOfRange;
      }
      out := Replaced(out, ordered[i]);
    }
    return Edited(out);
  }

  // ---- the splice ---------------------------------------------------------------------------------------------

  /** Edits in the order of the text, between two offsets, none starting before the one before it has ended. */
  predicate Fits(from: nat, limit: nat, edits: seq<Edit>)
    decreases |edits|
  {
    if edits == [] then from <= limit
    else from <= edits[0].start <= edits[0].end && Fits(edits[0].end, limit, edits[1..])
  }

  /** From left to right: what lies between the edits untouched, and the replacements. */
  function Splice(text: string, from: nat, edits: seq<Edit>): string
    requires Fits(from, |text|, edits)
    decreases |edits|
  {
    if edits == [] then text[from..]
    else
      FitsWithin(edits[0].end, |text|, edits[1..]);
      text[from..edits[0].start] + edits[0].replacement + Splice(text, edits[0].end, edits[1..])
  }

  lemma {:induction false} FitsWithin(from: nat, limit: nat, edits: seq<Edit>)
    requires Fits(from, limit, edits)
    ensures from <= limit
    decreases |edits|
  {
    if edits != [] { FitsWithin(edits[0].end, limit, edits[1..]); }
  }

  function Reversed(edits: seq<Edit>): seq<Edit> {
    if edits == [] then [] else Reversed(edits[1..]) + [edits[0]]
  }

  lemma {:induction false} ReversedLast(edits: seq<Edit>, last: Edit)
    ensures Reversed(edits + [last]) == [last] + Reversed(edits)
    decreases |edits|
  {
    if edits == [] {
      assert ([] + [last])[1..] == [];
    } else {
      assert (edits + [last])[1..] == edits[1..] + [last];
      ReversedLast(edits[1..], last);
    }
  }

  lemma {:induction false} SliceOfPrefix(text: string, from: nat, to: nat, limit: nat)
    requires from <= to <= limit <= |text|
    ensures text[..limit][from..to] == text[from..to] && text[..limit][from..] == text[from..limit]
  {
  }

  /** The last edit of a splice is the first to be applied. */
  lemma {:induction false} SpliceLast(text: string, from: nat, edits: seq<Edit>, last: Edit)
    requires Fits(from, |text|, edits + [last])
    ensures from <= last.start <= last.end <= |text| && Fits(from, last.start, edits)
    ensures Splice(text, from, edits + [last]) == Splice(text[..last.start], from, edits) + (last.replacement + text[last.end..])
    decreases |edits|
  {
    var all := edits + [last];
    if edits == [] {
      assert all == [last] + [] && Fits(last.end, |text|, []) by { assert all[1..] == []; }
      SpliceFirst(text, from, last, []);
      assert Splice(text, last.end, []) == text[last.end..] && Splice(text[..last.start], from, []) == text[..last.start][from..];
      var p, q, r := text[from..last.start], last.replacement, text[last.end..];
      SliceOfPrefix(text, from, last.start, last.start);
      assert p + q + r == p + (q + r);
    } else {
      var e, rest := edits[0], edits[1..];
      assert all[0] == e && all[1..] == rest + [last];
      SpliceLast(text, e.end, rest, last);
      hide *;
      SpliceFirst(text, from, e, rest + [last]);
      FitsWithin(e.end, last.start, rest);
      SpliceFirst(text[..last.start], from, e, rest);
      assert [e] + (rest + [last]) == all && [e] + rest == edits;
      var a, b, c := text[from..e.start] + e.replacement, Splice(text[..last.start], e.end, rest), last.replacement + text[last.end..];
      SliceOfPrefix(text, from, e.start, last.start);
      assert a + (b + c) == (a + b) + c;
    }
  }

  lemma {:induction false} SpliceFirst(text: string, from: nat, e: Edit, rest: seq<Edit>)
    requires from <= e.start <= e.end && Fits(e.end, |text|, rest)
    ensures e.end <= |text| && Fits(from, |text|, [e] + rest)
    ensures Splice(text, from, [e] + rest) == text[from..e.start] + e.replacement + Splice(text, e.end, rest)
  {
    FitsWithin(e.end, |text|, rest);
    assert ([e] + rest)[1..] == rest;
  }

  /** Back to front, edits do not disturb what is still to be edited. */
  lemma {:induction false} BackToFront(text: string, tail: string, edits: seq<Edit>)
    requires Fits(0, |text|, edits)
    ensures ReplaceAll(text + tail, Reversed(edits)) == Edited(Splice(text, 0, edits) + tail)
    decreases |edits|
  {
    if edits == [] {
      assert text[0..] == text;
    } else {
      var front, last := edits[..|edits| - 1], edits[|edits| - 1];
      assert front + [last] == edits;
      SpliceLast(text, 0, front, last);
      ReversedLast(front, last);
      var done := last.replacement + text[last.end..] + tail;
      BackToFront(text[..last.start], done, front);
      assert Replaced(text + tail, last) == text[..last.start] + done;
      assert Reversed(edits)[1..] == Reversed(front);
      var s, r := Splice(text[..last.start], 0, front), last.replacement + text[last.end..];
      assert s + (r + tail) == (s + r) + tail;
    }
  }

  // ---- the order of application ---------------------------------------------------------------------------------

  /** One edit ends before the other starts. */
  predicate Apart(a: Edit, b: Edit) { a.end <= b.start || b.end <= a.start }

  predicate NonOverlapping(edits: seq<Edit>) {
    forall i, j :: 0 <= i < j < |edits| ==> Apart(edits[i], edits[j])
  }

  lemma {:induction false} PlacedElements(e: Edit, sorted: seq<Edit>)
    ensures multiset(Place(e, sorted)) == multiset{e} + multiset(sorted)
  {
    if sorted != [] {
      assert sorted == [sorted[0]] + sorted[1..];
      if !Precedes(e, sorted[0]) { PlacedElements(e, sorted[1..]); }
    }
  }

  lemma {:induction false} SortedElements(edits: seq<Edit>)
    ensures multiset(Sorted(edits)) == multiset(edits)
  {
    if edits != [] {
      SortedElements(edits[1..]);
      PlacedElements(edits[0], Sorted(edits[1..]));
      assert edits == [edits[0]] + edits[1..];
    }
  }

  lemma {:induction false} SameElements(a: seq<Edit>, b: seq<Edit>, e: Edit)
    requires multiset(a) == multiset(b)
    ensures e in a <==> e in b
  {
    assert e in a <==> e in multiset(a);
    assert e in b <==> e in multiset(b);
  }

  lemma {:induction false} ReversedElements(edits: seq<Edit>)
    ensures multiset(Reversed(edits)) == multiset(edits)
  {
    if edits != [] {
      ReversedElements(edits[1..]);
      assert edits == [edits[0]] + edits[1..];
    }
  }

  lemma {:induction false} FitsAscend(from: nat, limit: nat, edits: seq<Edit>, i: nat)
    requires Fits(from, limit, edits) && i < |edits|
    ensures from <= edits[i].start <= edits[i].end <= limit
    decreases |edits|
  {
    FitsWithin(edits[0].end, limit, edits[1..]);
    if i > 0 { FitsAscend(edits[0].end, limit, edits[1..], i - 1); }
  }

  /** Each edit ends before the one in front of it starts. */
  predicate Descends(limit: nat, edits: seq<Edit>)
    decreases |edits|
  {
    edits != [] ==> edits[0].start <= edits[0].end <= limit && Descends(edits[0].start, edits[1..])
  }

  lemma {:induction false} PlaceDescends(limit: nat, e: Edit, sorted: seq<Edit>)
    requires Descends(limit, sorted) && e.start <= e.end <= limit && forall i :: 0 <= i < |sorted| ==> Apart(e, sorted[i])
    ensures Descends(limit, Place(e, sorted))
    decreases |sorted|
  {
    if sorted != [] {
      if Precedes(e, sorted[0]) {
        assert ([e] + sorted)[1..] == sorted;
      } else {
        PlaceDescends(sorted[0].start, e, sorted[1..]);
        assert ([sorted[0]] + Place(e, sorted[1..]))[1..] == Place(e, sorted[1..]);
      }
    }
  }

  lemma {:induction false} SortedDescends(limit: nat, edits: seq<Edit>)
    requires NonOverlapping(edits) && forall i :: 0 <= i < |edits| ==> edits[i].start <= edits[i].end <= limit
    ensures Descends(limit, Sorted(edits))
  {
    if edits != [] {
      var sorted := Sorted(edits[1..]);
      SortedDescends(limit, edits[1..]);
      SortedElements(edits[1..]);
      forall i | 0 <= i < |sorted| ensures Apart(edits[0], sorted[i]) { SameElements(sorted, edits[1..], sorted[i]); }
      PlaceDescends(limit, edits[0], sorted);
    }
  }

  lemma {:induction false} FitsThen(from: nat, edits: seq<Edit>, last: Edit, limit: nat)
    requires Fits(from, last.start, edits) && last.start <= last.end <= limit
    ensures Fits(from, limit, edits + [last])
    decreases |edits|
  {
    if edits == [] {
      assert ([] + [last])[1..] == [];
    } else {
      assert (edits + [last])[1..] == edits[1..] + [last];
      FitsThen(edits[0].end, edits[1..], last, limit);
    }
  }

  lemma {:induction false} ReversedFits(limit: nat, edits: seq<Edit>)
    requires Descends(limit, edits)
    ensures Fits(0, limit, Reversed(edits))
    decreases |edits|
  {
    if edits != [] {
      ReversedFits(edits[0].start, edits[1..]);
      FitsThen(0, Reversed(edits[1..]), edits[0], limit);
    }
  }

  lemma {:induction false} ReversedTwice(edits: seq<Edit>)
    ensures Reversed(Reversed(edits)) == edits
  {
    if edits != [] {
      ReversedTwice(edits[1..]);
      ReversedLast(Reversed(edits[1..]), edits[0]);
      assert edits == [edits[0]] + edits[1..];
    }
  }

  /** Edits in range and apart: the result is the splice of the application order read backwards. */
  lemma {:induction false} AppliedIsSpliced(text: string, edits: seq<Edit>)
    requires InRange(text, edits) && NonOverlapping(edits)
    ensures Fits(0, |text|, Reversed(Sorted(edits)))
    ensures ReplaceAll(text, Sorted(edits)) == Edited(Splice(text, 0, Reversed(Sorted(edits))))
  {
    var arranged := Reversed(Sorted(edits));
    SortedDescends(|text|, edits);
    ReversedFits(|text|, Sorted(edits));
    ReversedTwice(Sorted(edits));
    BackToFront(text, [], arranged);
    assert text + [] == text && Splice(text, 0, arranged) + [] == Splice(text, 0, arranged);
  }

  /** Applicable edits, in the order of the text, are in range and apart. */
  lemma {:induction false} FitsApart(from: nat, limit: nat, edits: seq<Edit>)
    requires Fits(from, limit, edits)
    ensures NonOverlapping(edits) && forall i :: 0 <= i < |edits| ==> from <= edits[i].start <= edits[i].end <= limit
    decreases |edits|
  {
    if edits != [] {
      FitsWithin(edits[0].end, limit, edits[1..]);
      FitsApart(edits[0].end, limit, edits[1..]);
      assert forall i :: 0 < i < |edits| ==> edits[i] == edits[1..][i - 1];
    }
  }

  // ---- insertions at one place -----------------------------------------------------------------------------------

  predicate InsertsAt(e: Edit, p: nat) { e.start == p == e.end }

  /** What the edits insert at `p`, in the order of the list. */
  function Inserted(edits: seq<Edit>, p: nat): string {
    if edits == [] then []
    else (if InsertsAt(edits[0], p) then edits[0].replacement else []) + Inserted(edits[1..], p)
  }

  lemma {:induction false} InsertedSplits(a: seq<Edit>, b: seq<Edit>, p: nat)
    ensures Inserted(a + b, p) == Inserted(a, p) + Inserted(b, p)
    decreases |a|
  {
    if a == [] {
      assert a + b == b;
    } else {
      assert (a + b)[1..] == a[1..] + b;
      InsertedSplits(a[1..], b, p);
    }
  }

  lemma {:induction false} InsertedPlaced(e: Edit, sorted: seq<Edit>, p: nat)
    ensures Inserted(Reversed(Place(e, sorted)), p) == Inserted(Reversed(sorted), p) + Inserted([e], p)
  {
    if sorted == [] || Precedes(e, sorted[0]) {
      assert ([e] + sorted)[1..] == sorted;
      InsertedSplits(Reversed(sorted), [e], p);
    } else {
      var s, placed := [sorted[0]], Place(e, sorted[1..]);
      InsertedPlaced(e, sorted[1..], p);
      assert (s + placed)[1..] == placed;
      InsertedSplits(Reversed(placed), s, p);
      InsertedSplits(Reversed(sorted[1..]), s, p);
    }
  }

  /** Sorting is stable. */
  lemma {:induction false} InsertedSorted(edits: seq<Edit>, p: nat)
    ensures Inserted(Reversed(Sorted(edits)), p) == Inserted(Reversed(edits), p)
  {
    if edits != [] {
      InsertedSorted(edits[1..], p);
      InsertedPlaced(edits[0], Sorted(edits[1..]), p);
      InsertedSplits(Reversed(edits[1..]), [edits[0]], p);
    }
  }

  // ---- arrangements of the same edits ------------------------------------------------------------------------------

  /** Takes one edit out of a list of the same edits. */
  lemma {:induction false} TakeOut(a: seq<Edit>, b: seq<Edit>) returns (front: seq<Edit>, back: seq<Edit>)
    requires multiset(a) == multiset(b) && a != []
    ensures b == front + [a[0]] + back && multiset(a[1..]) == multiset(front + back)
  {
    SameElements(a, b, a[0]);
    var k :| 0 <= k < |b| && b[k] == a[0];
    front, back := b[..k], b[k + 1..];
    var e, rest := a[0], a[1..];
    assert a == [e] + rest && b == front + [e] + back;
    hide *;
    SameRest(e, rest, front, back);
  }

  lemma {:induction false} SameRest(e: Edit, rest: seq<Edit>, front: seq<Edit>, back: seq<Edit>)
    requires multiset([e] + rest) == multiset(front + [e] + back)
    ensures multiset(rest) == multiset(front + back)
  {
    var m, n := multiset(rest), multiset(front + back);
    assert multiset([e] + rest) == multiset{e} + m;
    assert multiset(front + [e] + back) == multiset(front) + multiset{e} + multiset(back);
    assert n == multiset(front) + multiset(back);
    assert m == multiset{e} + m - multiset{e};
  }

  lemma {:induction false} ApartStays(a: seq<Edit>, b: seq<Edit>)
    requires multiset(a) == multiset(b) && NonOverlapping(a)
    ensures NonOverlapping(b)
    decreases |a|
  {
    if a == [] {
      assert |b| == |multiset(b)| == 0;
    } else {
      var front, back := TakeOut(a, b);
      var e, rest := a[0], front + back;
      ApartStays(a[1..], rest);
      forall i | 0 <= i < |rest| ensures Apart(e, rest[i]) {
        SameElements(a[1..], rest, rest[i]);
        var k :| 0 <= k < |a[1..]| && a[1..][k] == rest[i];
        assert a[k + 1] == rest[i];
      }
      ApartAround(front, e, back);
    }
  }

  lemma {:induction false} ApartAround(front: seq<Edit>, e: Edit, back: seq<Edit>)
    requires NonOverlapping(front + back) && forall i :: 0 <= i < |front + back| ==> Apart(e, (front + back)[i])
    ensures NonOverlapping(front + [e] + back)
  {
    var all, rest, n := front + [e] + back, front + back, |front|;
    forall i, j | 0 <= i < j < |all| ensures Apart(all[i], all[j]) {
      var i', j' := if i < n then i else i - 1, if j < n then j else j - 1;
      assert i != n ==> all[i] == rest[i'];
      assert j != n ==> all[j] == rest[j'];
    }
  }

  lemma {:induction false} InsertedLength(a: seq<Edit>, b: seq<Edit>, p: nat)
    requires multiset(a) == multiset(b)
    ensures |Inserted(a, p)| == |Inserted(b, p)|
    decreases |a|
  {
    if a == [] {
      assert |b| == |multiset(b)| == 0;
    } else {
      var front, back := TakeOut(a, b);
      InsertedLength(a[1..], front + back, p);
      InsertedSplits([a[0]], a[1..], p);
      assert a == [a[0]] + a[1..];
      InsertedSplits(front + [a[0]], back, p);
      InsertedSplits(front, [a[0]], p);
      InsertedSplits(front, back, p);
    }
  }

  lemma {:induction false} ArrangedApplies(text: string, edits: seq<Edit>, arranged: seq<Edit>)
    requires multiset(arranged) == multiset(edits) && Fits(0, |text|, arranged)
    ensures InRange(text, edits) && NonOverlapping(edits)
  {
    hide Fits;
    FitsApart(0, |text|, arranged);
    ApartStays(arranged, edits);
    forall i | 0 <= i < |edits| ensures edits[i].start <= edits[i].end <= |text| {
      SameElements(edits, arranged, edits[i]);
      var k :| 0 <= k < |arranged| && arranged[k] == edits[i];
    }
  }

  ghost predicate Arranges(text: string, edits: seq<Edit>, arranged: seq<Edit>) {
    multiset(arranged) == multiset(edits) && Fits(0, |text|, arranged)
  }

  /** Edits are in range and apart exactly if they can be put into the order of the text, insertions and deletions included. */
  lemma {:induction false} ApplicableIff(text: string, edits: seq<Edit>)
    ensures InRange(text, edits) && NonOverlapping(edits) <==> exists arranged :: Arranges(text, edits, arranged)
  {
    hide Fits, InRange, NonOverlapping, Sorted, Reversed;
    if InRange(text, edits) && NonOverlapping(edits) {
      AppliedIsSpliced(text, edits);
      AppliedElements(edits);
      assert Arranges(text, edits, Reversed(Sorted(edits)));
    }
    if arranged :| Arranges(text, edits, arranged) { ArrangedApplies(text, edits, arranged); }
  }

  // ---- two arrangements splice alike exactly if they insert alike ----------------------------------------------------

  /** Place by place the same range, and the same edit unless it is an insertion. */
  predicate Alike(a: seq<Edit>, b: seq<Edit>) {
    |a| == |b| && forall i :: 0 <= i < |a| ==>
      a[i].start == b[i].start && a[i].end == b[i].end && (a[i].start < a[i].end ==> a[i] == b[i])
  }

  /** What stands at `p` when `x` has already been put in at `from`. */
  function Pending(x: string, from: nat, edits: seq<Edit>, p: nat): string {
    (if p == from then x else []) + Inserted(edits, p)
  }

  lemma {:induction false} NothingBefore(from: nat, limit: nat, edits: seq<Edit>, p: nat)
    requires Fits(from, limit, edits) && p < from
    ensures Inserted(edits, p) == []
    decreases |edits|
  {
    if edits != [] { NothingBefore(edits[0].end, limit, edits[1..], p); }
  }

  /** A list of edits in the order of the text, without one of them. */
  lemma {:induction false} FitsWithout(from: nat, limit: nat, front: seq<Edit>, e: Edit, back: seq<Edit>)
    requires Fits(from, limit, front + [e] + back)
    ensures Fits(from, limit, front + back)
    ensures forall i :: 0 <= i < |front| ==> front[i].start <= front[i].end <= e.start
    decreases |front|
  {
    var all := front + [e] + back;
    if front == [] {
      assert all[1..] == back && front + back == back;
      FitsEarlier(from, e.end, limit, back);
    } else {
      var rest := front[1..];
      assert all[0] == front[0] && all[1..] == rest + [e] + back;
      FitsWithout(front[0].end, limit, rest, e, back);
      assert (front + back)[1..] == rest + back;
      assert (rest + [e] + back)[|rest|] == e;
      FitsAscend(front[0].end, limit, rest + [e] + back, |rest|);
      forall i | 0 <= i < |front| ensures front[i].start <= front[i].end <= e.start {
        if i > 0 { assert front[i] == rest[i - 1]; }
      }
    }
  }

  lemma {:induction false} FitsEarlier(from: nat, later: nat, limit: nat, edits: seq<Edit>)
    requires from <= later && Fits(later, limit, edits)
    ensures Fits(from, limit, edits)
  {
  }

  /** Two arrangements of the same edits differ in the order of insertions at one place only. */
  lemma {:induction false} SameEditsAlike(from: nat, limit: nat, a: seq<Edit>, b: seq<Edit>)
    requires multiset(a) == multiset(b) && Fits(from, limit, a) && Fits(from, limit, b)
    ensures Alike(a, b)
    decreases |a|
  {
    if a == [] {
      assert |b| == |multiset(b)| == 0;
    } else {
      var front, back := TakeOut(a, b);
      var e := a[0];
      FitsWithout(from, limit, front, e, back);
      FitsWithin(e.end, limit, a[1..]);
      FitsEarlier(from, e.end, limit, a[1..]);
      SameEditsAlike(from, limit, a[1..], front + back);
      forall i | 0 <= i < |front| ensures InsertsAt(front[i], e.start) && InsertsAt(e, e.start) {
        SameElements(a, b, front[i]);
        assert b[i] == front[i];
        var k :| 0 <= k < |a| && a[k] == front[i];
        if k > 0 { FitsAscend(e.end, limit, a[1..], k - 1); }
      }
      AlikeAround(a, front, e, back);
    }
  }

  lemma {:induction false} AlikeAround(a: seq<Edit>, front: seq<Edit>, e: Edit, back: seq<Edit>)
    requires a != [] && a[0] == e && Alike(a[1..], front + back)
    requires forall i :: 0 <= i < |front| ==> InsertsAt(front[i], e.start) && InsertsAt(e, e.start)
    ensures Alike(a, front + [e] + back)
  {
    var b, rest, n := front + [e] + back, front + back, |front|;
    forall i | 0 <= i < |a|
      ensures a[i].start == b[i].start && a[i].end == b[i].end && (a[i].start < a[i].end ==> a[i] == b[i])
    {
      if i > 0 {
        assert a[1..][i - 1] == a[i];
        assert rest[i - 1] == if i <= n then front[i - 1] else b[i];
      }
    }
  }

  ghost predicate SamePending(x: string, y: string, from: nat, a: seq<Edit>, b: seq<Edit>) {
    forall p: nat :: Pending(x, from, a, p) == Pending(y, from, b, p)
  }

  ghost predicate SameLengths(x: string, y: string, from: nat, a: seq<Edit>, b: seq<Edit>) {
    forall p: nat :: |Pending(x, from, a, p)| == |Pending(y, from, b, p)|
  }

  /** An insertion right at `from` joins what has been put in there. */
  lemma {:induction false} PutInHere(x: string, from: nat, edits: seq<Edit>, p: nat)
    requires edits != [] && InsertsAt(edits[0], from)
    ensures Pending(x, from, edits, p) == Pending(x + edits[0].replacement, from, edits[1..], p)
  {
    if p == from {
      var inserted := Inserted(edits[1..], p);
      assert x + (edits[0].replacement + inserted) == x + edits[0].replacement + inserted;
    }
  }

  lemma {:induction false} InsertedStep(edits: seq<Edit>, p: nat)
    requires edits != []
    ensures Inserted(edits, p) == if InsertsAt(edits[0], p) then edits[0].replacement + Inserted(edits[1..], p) else Inserted(edits[1..], p)
  {
  }

  lemma {:induction false} PendingIs(x: string, from: nat, edits: seq<Edit>, p: nat)
    ensures var inserted := Inserted(edits, p);
            Pending(x, from, edits, p) == (if p != from then inserted else if inserted == [] then x else x + inserted)
  {
    hide Inserted;
    assert [] + Inserted(edits, p) == Inserted(edits, p) && x + [] == x;
  }

  /** Any other edit ends what is put in at `from`. */
  lemma {:induction false} PutInLater(x: string, from: nat, limit: nat, edits: seq<Edit>, p: nat)
    requires edits != [] && Fits(from, limit, edits) && !InsertsAt(edits[0], from)
    ensures var e, rest := edits[0], edits[1..];
            && Pending(x, from, edits, from) == x
            && (p != from && (p != e.end || e.start == e.end) ==>
                  Pending(x, from, edits, p) == Pending(e.replacement, e.end, rest, p))
            && (e.start < e.end ==> Pending(e.replacement, e.end, rest, e.end) == e.replacement + Pending(x, from, edits, e.end))
            && Pending(e.replacement, e.end, rest, from) == []
  {
    var e, rest := edits[0], edits[1..];
    NothingBefore(e.end, limit, rest, from);
    assert e.start <= e.end && from <= e.start;
    InsertedStep(edits, from);
    InsertedStep(edits, p);
    InsertedStep(edits, e.end);
    hide Fits, Inserted, Pending;
    PendingIs(x, from, edits, from);
    PendingIs(x, from, edits, p);
    PendingIs(x, from, edits, e.end);
    PendingIs(e.replacement, e.end, rest, from);
    PendingIs(e.replacement, e.end, rest, p);
    PendingIs(e.replacement, e.end, rest, e.end);
  }

  lemma {:induction false} PrefixesAgree(x: string, y: string, s: string, t: string)
    requires |x| == |y|
    ensures x + s == y + t <==> x == y && s == t
  {
    if x + s == y + t {
      assert x == (x + s)[..|x|] && y == (y + t)[..|x|];
      assert s == (x + s)[|x|..] && t == (y + t)[|x|..];
    }
  }

  lemma {:induction false} SameHere(x: string, y: string, from: nat, a: seq<Edit>, b: seq<Edit>)
    requires a != [] && b != [] && InsertsAt(a[0], from) && InsertsAt(b[0], from)
    ensures var x', y' := x + a[0].replacement, y + b[0].replacement;
            && (SamePending(x, y, from, a, b) <==> SamePending(x', y', from, a[1..], b[1..]))
            && (SameLengths(x, y, from, a, b) <==> SameLengths(x', y', from, a[1..], b[1..]))
  {
    forall p: nat
      ensures Pending(x, from, a, p) == Pending(x + a[0].replacement, from, a[1..], p)
      ensures Pending(y, from, b, p) == Pending(y + b[0].replacement, from, b[1..], p)
    {
      PutInHere(x, from, a, p);
      PutInHere(y, from, b, p);
    }
  }

  lemma {:induction false} SameLaterAt(x: string, y: string, from: nat, limit: nat, a: seq<Edit>, b: seq<Edit>, p: nat)
    requires a != [] && b != [] && Fits(from, limit, a) && Fits(from, limit, b) && !InsertsAt(a[0], from)
    requires a[0].start == b[0].start <= a[0].end == b[0].end && (a[0].start < a[0].end ==> a[0] == b[0])
    ensures var x', y', end := a[0].replacement, b[0].replacement, a[0].end;
            && (p != from ==>
                  (Pending(x, from, a, p) == Pending(y, from, b, p) <==> Pending(x', end, a[1..], p) == Pending(y', end, b[1..], p)))
            && (p != from && |Pending(x, from, a, p)| == |Pending(y, from, b, p)| ==>
                  |Pending(x', end, a[1..], p)| == |Pending(y', end, b[1..], p)|)
  {
    hide Pending, Fits;
    PutInLater(x, from, limit, a, p);
    PutInLater(y, from, limit, b, p);
    if p == a[0].end && a[0].start < p {
      PrefixesAgree(a[0].replacement, b[0].replacement, Pending(x, from, a, p), Pending(y, from, b, p));
    }
  }

  lemma {:induction false} SameLater(x: string, y: string, from: nat, limit: nat, a: seq<Edit>, b: seq<Edit>)
    requires a != [] && Fits(from, limit, a) && Fits(from, limit, b) && Alike(a, b) && !InsertsAt(a[0], from)
    ensures var x', y', end := a[0].replacement, b[0].replacement, a[0].end;
            && (SamePending(x, y, from, a, b) <==> x == y && SamePending(x', y', end, a[1..], b[1..]))
            && (SameLengths(x, y, from, a, b) ==> |x| == |y| && SameLengths(x', y', end, a[1..], b[1..]))
  {
    var x', y', end := a[0].replacement, b[0].replacement, a[0].end;
    var a', b' := a[1..], b[1..];
    assert b != [] && a[0].start == b[0].start && end == b[0].end && (a[0].start < end ==> x' == y') && a[0].start <= end;
    hide Pending, Fits, Alike;
    PutInLater(x, from, limit, a, from);
    PutInLater(y, from, limit, b, from);
    forall p: nat
      ensures p != from ==> (Pending(x, from, a, p) == Pending(y, from, b, p) <==> Pending(x', end, a', p) == Pending(y', end, b', p))
      ensures p != from && |Pending(x, from, a, p)| == |Pending(y, from, b, p)| ==>
                |Pending(x', end, a', p)| == |Pending(y', end, b', p)|
    {
      hide *;
      SameLaterAt(x, y, from, limit, a, b, p);
    }
  }

  lemma {:induction false} EqualSplices(text: string, from: nat, a: seq<Edit>, b: seq<Edit>, x: string, y: string)
    requires Fits(from, |text|, a) && Fits(from, |text|, b) && Alike(a, b) && SameLengths(x, y, from, a, b)
    ensures x + Splice(text, from, a) == y + Splice(text, from, b) <==> SamePending(x, y, from, a, b)
    decreases |a|
  {
    if a == [] {
      hide Splice, SamePending, SameLengths;
      NoneLeft(text, from, x, y);
    } else {
      var x', y', end := a[0].replacement, b[0].replacement, a[0].end;
      SpliceSplits(text, from, a);
      SpliceSplits(text, from, b);
      TailsAlike(a, b);
      var s, t, gap := Splice(text, end, a[1..]), Splice(text, end, b[1..]), text[from..a[0].start];
      if InsertsAt(a[0], from) {
        SameHere(x, y, from, a, b);
        hide *;
        EqualSplices(text, from, a[1..], b[1..], x + x', y + y');
        assert gap == [] && x + (gap + x' + s) == x + x' + s && y + (gap + y' + t) == y + y' + t;
      } else {
        SameLater(x, y, from, |text|, a, b);
        hide *;
        EqualSplices(text, end, a[1..], b[1..], x', y');
        GapsAgree(x, y, gap, x', y', s, t);
      }
    }
  }

  lemma {:induction false} NoneLeft(text: string, from: nat, x: string, y: string)
    requires from <= |text|
    ensures SameLengths(x, y, from, [], []) ==> (x + Splice(text, from, []) == y + Splice(text, from, []) <==> SamePending(x, y, from, [], []))
  {
    assert Pending(x, from, [], from) == x && Pending(y, from, [], from) == y;
    if |x| == |y| { PrefixesAgree(x, y, text[from..], text[from..]); }
  }

  lemma {:induction false} SpliceSplits(text: string, from: nat, edits: seq<Edit>)
    requires edits != [] && Fits(from, |text|, edits)
    ensures var e, rest := edits[0], edits[1..];
            && from <= e.start <= e.end <= |text| && Fits(e.end, |text|, rest)
            && Splice(text, from, edits) == text[from..e.start] + e.replacement + Splice(text, e.end, rest)
  {
    FitsWithin(edits[0].end, |text|, edits[1..]);
  }

  lemma {:induction false} TailsAlike(a: seq<Edit>, b: seq<Edit>)
    requires Alike(a, b) && a != []
    ensures Alike(a[1..], b[1..]) && b != [] && a[0].start == b[0].start && a[0].end == b[0].end
  {
    assert forall i :: 0 <= i < |a[1..]| ==> a[1..][i] == a[i + 1] && b[1..][i] == b[i + 1];
  }

  lemma {:induction false} GapsAgree(x: string, y: string, gap: string, x': string, y': string, s: string, t: string)
    requires |x| == |y|
    ensures x + (gap + x' + s) == y + (gap + y' + t) <==> x == y && x' + s == y' + t
  {
    PrefixesAgree(x, y, gap + x' + s, gap + y' + t);
    assert gap + x' + s == gap + (x' + s) && gap + y' + t == gap + (y' + t);
    PrefixesAgree(gap, gap, x' + s, y' + t);
  }

  /** At every place the two insert the same. */
  ghost predicate InsertAlike(a: seq<Edit>, b: seq<Edit>) {
    forall p: nat :: Inserted(a, p) == Inserted(b, p)
  }

  lemma {:induction false} NothingPending(a: seq<Edit>, b: seq<Edit>)
    ensures SamePending([], [], 0, a, b) <==> InsertAlike(a, b)
    ensures multiset(a) == multiset(b) ==> SameLengths([], [], 0, a, b)
  {
    forall p: nat ensures Pending([], 0, a, p) == Inserted(a, p) && Pending([], 0, b, p) == Inserted(b, p) {
      var i, j := Inserted(a, p), Inserted(b, p);
      assert Pending([], 0, a, p) == [] + i && Pending([], 0, b, p) == [] + j;
      assert [] + i == i && [] + j == j;
    }
    hide Pending, Inserted;
    if multiset(a) == multiset(b) {
      forall p: nat ensures |Pending([], 0, a, p)| == |Pending([], 0, b, p)| { InsertedLength(a, b, p); }
    }
  }

  /** Two arrangements of the same edits give the same text exactly if they insert the same at every place. */
  lemma {:induction false} ArrangementsAgree(text: string, a: seq<Edit>, b: seq<Edit>)
    requires multiset(a) == multiset(b) && Fits(0, |text|, a) && Fits(0, |text|, b)
    ensures Splice(text, 0, a) == Splice(text, 0, b) <==> InsertAlike(a, b)
  {
    hide SamePending, SameLengths, Fits, Splice, Alike, InsertAlike;
    SameEditsAlike(0, |text|, a, b);
    NothingPending(a, b);
    EqualSplices(text, 0, a, b, [], []);
    var s, t := Splice(text, 0, a), Splice(text, 0, b);
    assert [] + s == s && [] + t == t;
  }

  // ---- the order of the protocol -------------------------------------------------------------------------------------

  /** By start, then by end, ascending; of edits that are level, the one listed first stays first. */
  function PlaceInOrder(e: Edit, arranged: seq<Edit>): seq<Edit> {
    if arranged == [] then [e]
    else if Precedes(arranged[0], e) then [e] + arranged
    else [arranged[0]] + PlaceInOrder(e, arranged[1..])
  }

  /** The arrangement the Language Server Protocol asks for: insertions at one place stand in the order of the list. */
  function InOrder(edits: seq<Edit>): seq<Edit> {
    if edits == [] then [] else PlaceInOrder(edits[0], InOrder(edits[1..]))
  }

  lemma {:induction false} PlacedInOrderElements(e: Edit, arranged: seq<Edit>)
    ensures multiset(PlaceInOrder(e, arranged)) == multiset{e} + multiset(arranged)
  {
    if arranged != [] {
      assert arranged == [arranged[0]] + arranged[1..];
      if !Precedes(arranged[0], e) { PlacedInOrderElements(e, arranged[1..]); }
    }
  }

  lemma {:induction false} PlacedInOrder(e: Edit, arranged: seq<Edit>, from: nat, limit: nat)
    requires Fits(from, limit, arranged) && from <= e.start <= e.end <= limit
    requires forall i :: 0 <= i < |arranged| ==> Apart(e, arranged[i])
    ensures Fits(from, limit, PlaceInOrder(e, arranged))
    decreases |arranged|
  {
    if arranged != [] {
      var first, rest := arranged[0], arranged[1..];
      assert arranged == [first] + rest;
      assert Apart(e, first);
      if Precedes(first, e) {
        assert ([e] + arranged)[1..] == arranged;
      } else {
        PlacedInOrder(e, rest, first.end, limit);
        assert ([first] + PlaceInOrder(e, rest))[1..] == PlaceInOrder(e, rest);
      }
    }
  }

  lemma {:induction false} InOrderFits(text: string, edits: seq<Edit>)
    requires InRange(text, edits) && NonOverlapping(edits)
    ensures Fits(0, |text|, InOrder(edits)) && multiset(InOrder(edits)) == multiset(edits)
  {
    if edits != [] {
      var arranged := InOrder(edits[1..]);
      InOrderFits(text, edits[1..]);
      forall i | 0 <= i < |arranged| ensures Apart(edits[0], arranged[i]) { SameElements(arranged, edits[1..], arranged[i]); }
      PlacedInOrder(edits[0], arranged, 0, |text|);
      PlacedInOrderElements(edits[0], arranged);
      assert edits == [edits[0]] + edits[1..];
    }
  }

  lemma {:induction false} InsertedPlacedInOrder(e: Edit, arranged: seq<Edit>, p: nat)
    ensures Inserted(PlaceInOrder(e, arranged), p) == Inserted([e], p) + Inserted(arranged, p)
  {
    if arranged == [] || Precedes(arranged[0], e) {
      InsertedSplits([e], arranged, p);
    } else {
      InsertedPlacedInOrder(e, arranged[1..], p);
      InsertedSplits([arranged[0]], PlaceInOrder(e, arranged[1..]), p);
      InsertedSplits([arranged[0]], arranged[1..], p);
      assert arranged == [arranged[0]] + arranged[1..];
    }
  }

  lemma {:induction false} InsertedInOrder(edits: seq<Edit>, p: nat)
    ensures Inserted(InOrder(edits), p) == Inserted(edits, p)
  {
    if edits != [] {
      InsertedInOrder(edits[1..], p);
      InsertedPlacedInOrder(edits[0], InOrder(edits[1..]), p);
      InsertedSplits([edits[0]], edits[1..], p);
      assert edits == [edits[0]] + edits[1..];
    }
  }

  lemma {:induction false} AppliedElements(edits: seq<Edit>)
    ensures multiset(Reversed(Sorted(edits))) == multiset(edits)
  {
    SortedElements(edits);
    ReversedElements(Sorted(edits));
  }

  /**
    Edits in range and apart give the text the protocol asks for exactly if at every place the insertions
    read the same from the first to the last as from the last to the first.
   */
  lemma {:induction false} ProtocolOrder(text: string, edits: seq<Edit>)
    requires InRange(text, edits) && NonOverlapping(edits)
    ensures Fits(0, |text|, InOrder(edits))
    ensures ReplaceAll(text, Sorted(edits)) == Edited(Splice(text, 0, InOrder(edits)))
            <==> InsertAlike(edits, Reversed(edits))
  {
    hide Fits, Splice, ReplaceAll, InOrder, Sorted, Reversed, Inserted;
    var applied, arranged := Reversed(Sorted(edits)), InOrder(edits);
    AppliedIsSpliced(text, edits);
    InOrderFits(text, edits);
    AppliedElements(edits);
    ArrangementsAgree(text, applied, arranged);
    forall p: nat
      ensures Inserted(applied, p) == Inserted(Reversed(edits), p) && Inserted(arranged, p) == Inserted(edits, p)
    {
      InsertedSorted(edits, p);
      InsertedInOrder(edits, p);
    }
  }

  /** Two lists of the same edits give the same text exactly if, at every place, their insertions read the same from last to first. */
  lemma {:induction false} OrderOfEdits(text: string, a: seq<Edit>, b: seq<Edit>)
    requires InRange(text, a) && NonOverlapping(a) && multiset(a) == multiset(b)
    ensures InRange(text, b) && ReplaceAll(text, Sorted(a)).Edited? && ReplaceAll(text, Sorted(b)).Edited?
    ensures ReplaceAll(text, Sorted(a)) == ReplaceAll(text, Sorted(b))
            <==> InsertAlike(Reversed(a), Reversed(b))
  {
    hide Fits, Splice, ReplaceAll, Sorted, Reversed, Inserted;
    forall i | 0 <= i < |b| ensures b[i].start <= b[i].end <= |text| { SameElements(a, b, b[i]); }
    ApartStays(a, b);
    AppliedIsSpliced(text, a);
    AppliedIsSpliced(text, b);
    AppliedElements(a);
    AppliedElements(b);
    ArrangementsAgree(text, Reversed(Sorted(a)), Reversed(Sorted(b)));
    forall p: nat
      ensures Inserted(Reversed(Sorted(a)), p) == Inserted(Reversed(a), p)
      ensures Inserted(Reversed(Sorted(b)), p) == Inserted(Reversed(b), p)
    {
      InsertedSorted(a, p);
      InsertedSorted(b, p);
    }
  }

  lemma {:induction false} SwapIsSeen(front: string, x: string, y: string, back: string)
    ensures front + y + x + back == front + x + y + back <==> x + y == y + x
  {
    assert front + y + x + back == front + ((y + x) + back) && front + x + y + back == front + ((x + y) + back);
    PrefixesAgree(front, front, (y + x) + back, (x + y) + back);
    PrefixesAgree(y + x, x + y, back, back);
  }

  /** Of two insertions at one place the one listed first ends up second: harmless only if the two commute. */
  lemma {:induction false} InsertionsAtOnePlaceSwap(text: string, p: nat, x: string, y: string)
    requires p <= |text|
    ensures var edits := [Edit(p, p, x), Edit(p, p, y)];
            && ReplaceAll(text, Sorted(edits)) == Edited(text[..p] + y + x + text[p..])
            && (ReplaceAll(text, Sorted(edits)) == Edited(text[..p] + x + y + text[p..]) <==> x + y == y + x)
  {
    var first, second := Edit(p, p, x), Edit(p, p, y);
    var front, back := text[..p], text[p..];
    assert [first, second][1..] == [second] && [second][1..] == [];
    assert Sorted([second]) == Place(second, []) == [second];
    assert Sorted([first, second]) == Place(first, [second]) == [first] + [second];
    assert ([first] + [second])[1..] == [second];
    var mid, end := front + x + back, front + y + x + back;
    assert Replaced(text, first) == mid;
    assert mid[..p] == front && mid[p..] == x + back;
    assert Replaced(mid, second) == end by { assert front + y + (x + back) == end; }
    assert ReplaceAll(end, []) == Edited(end);
    assert ReplaceAll(mid, [second]) == Edited(end);
    hide *;
    SwapIsSeen(front, x, y, back);
  }
}
