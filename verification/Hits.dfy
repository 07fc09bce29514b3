/**
 Which of a recogniser's overlapping hits are taken: the longest first, the surer of two equally long, the earlier
 listed of two alike, and none that touches a span already taken.
 */
module Hits {
  datatype Span = Span(start: int, end: int)

  datatype Hit = Hit(entity: string, start: int, end: int, score: real)

  function SpanOf(h: Hit): Span {
    Span(h.start, h.end)
  }

  function Length(h: Hit): int {
    h.end - h.start
  }

  predicate Overlap(a: Span, b: Span) {
    a.start < b.end && b.start < a.end
  }

  predicate OverlapsAny(a: Span, spans: seq<Span>) {
    exists s | s in spans :: Overlap(a, s)
  }

  predicate Fits(h: Hit, size: nat) {
    0 <= h.start < h.end <= size
  }

  predicate LiesIn(k: int, start: int, end: int) {
    start <= k < end
  }

  // Some place lies in both.
  ghost predicate Share(a: Hit, start: int, end: int) {
    exists k :: LiesIn(k, a.start, a.end) && LiesIn(k, start, end)
  }

  lemma OverlapIsShared(a: Hit, s: Span)
    requires a.start < a.end && s.start < s.end
    ensures Overlap(SpanOf(a), s) <==> Share(a, s.start, s.end)
  {
    if Overlap(SpanOf(a), s) {
      var k := if a.start < s.start then s.start else a.start;
      assert LiesIn(k, a.start, a.end) && LiesIn(k, s.start, s.end);
    }
  }

  // ---------- The order they are tried in ----------

  predicate Wins(a: Hit, b: Hit) {
    Length(a) > Length(b) || (Length(a) == Length(b) && a.score > b.score)
  }

  // Behind the last one it does not beat.
  function Inserted(sorted: seq<Hit>, h: Hit): (r: seq<Hit>)
    ensures |r| == |sorted| + 1 && multiset(r) == multiset(sorted) + multiset{h}
  {
    if sorted == [] || !Wins(h, sorted[|sorted| - 1]) then sorted + [h]
    else
      var last := |sorted| - 1;
      assert sorted == sorted[..last] + [sorted[last]];
      Inserted(sorted[..last], h) + [sorted[last]]
  }

  function BestFirst(hits: seq<Hit>): (r: seq<Hit>)
    ensures multiset(r) == multiset(hits)
  {
    if hits == [] then []
    else
      var last := |hits| - 1;
      assert hits == hits[..last] + [hits[last]];
      Inserted(BestFirst(hits[..last]), hits[last])
  }

  predicate IsBestFirst(hits: seq<Hit>) {
    forall i, j :: 0 <= i < j < |hits| ==> !Wins(hits[j], hits[i])
  }

  lemma InsertedHolds(sorted: seq<Hit>, h: Hit, i: nat)
    requires i < |Inserted(sorted, h)|
    ensures Inserted(sorted, h)[i] == h || Inserted(sorted, h)[i] in sorted
  {
    var r := Inserted(sorted, h);
    assert r[i] in multiset(r);
    assert r[i] in multiset(sorted) + multiset{h};
  }

  // A hit no better than any of them may stand behind them.
  lemma LastInOrder(sorted: seq<Hit>, last: Hit)
    requires IsBestFirst(sorted) && forall i :: 0 <= i < |sorted| ==> !Wins(last, sorted[i])
    ensures IsBestFirst(sorted + [last])
  {
  }

  lemma {:induction false} InsertedIsSorted(sorted: seq<Hit>, h: Hit)
    requires IsBestFirst(sorted)
    ensures IsBestFirst(Inserted(sorted, h))
  {
    if sorted == [] {
      return;
    }
    var before, last := sorted[..|sorted| - 1], sorted[|sorted| - 1];
    if Wins(h, last) {
      var r := Inserted(before, h);
      InsertedIsSorted(before, h);
      forall i | 0 <= i < |r| ensures !Wins(last, r[i]) {
        InsertedHolds(before, h, i);
        assert forall j :: 0 <= j < |before| ==> before[j] == sorted[j] && !Wins(last, before[j]);
      }
      LastInOrder(r, last);
    } else {
      forall i | 0 <= i < |sorted| ensures !Wins(h, sorted[i]) {
        assert i < |before| ==> !Wins(last, sorted[i]);
      }
      LastInOrder(sorted, h);
    }
  }

  lemma {:induction false} SortedBestFirst(hits: seq<Hit>)
    ensures IsBestFirst(BestFirst(hits))
  {
    if hits != [] {
      SortedBestFirst(hits[..|hits| - 1]);
      InsertedIsSorted(BestFirst(hits[..|hits| - 1]), hits[|hits| - 1]);
    }
  }

  // The longer first; of two equally long, the one with the higher score.
  lemma BestFirstIsSorted(hits: seq<Hit>, i: nat, j: nat)
    requires i < j < |hits|
    ensures |BestFirst(hits)| == |hits|
    ensures var a, b := BestFirst(hits)[i], BestFirst(hits)[j];
            b.end - b.start <= a.end - a.start && (b.end - b.start == a.end - a.start ==> b.score <= a.score)
  {
    SortedBestFirst(hits);
    assert |multiset(BestFirst(hits))| == |multiset(hits)|;
    assert !Wins(BestFirst(hits)[j], BestFirst(hits)[i]);
  }

  function IfPeer(x: Hit, h: Hit): seq<Hit> {
    if Wins(x, h) || Wins(h, x) then [] else [x]
  }

  // The hits no better and no worse than h.
  function Peers(hits: seq<Hit>, h: Hit): seq<Hit> {
    if hits == [] then [] else Peers(hits[..|hits| - 1], h) + IfPeer(hits[|hits| - 1], h)
  }

  lemma PeersWith(hits: seq<Hit>, x: Hit, h: Hit)
    ensures Peers(hits + [x], h) == Peers(hits, h) + IfPeer(x, h)
  {
    assert (hits + [x])[..|hits|] == hits;
  }

  lemma {:induction false} InsertedIsStable(sorted: seq<Hit>, x: Hit, h: Hit)
    ensures Peers(Inserted(sorted, x), h) == Peers(sorted, h) + IfPeer(x, h)
  {
    if sorted == [] || !Wins(x, sorted[|sorted| - 1]) {
      PeersWith(sorted, x, h);
    } else {
      var before, last := sorted[..|sorted| - 1], sorted[|sorted| - 1];
      InsertedIsStable(before, x, h);
      PeersWith(Inserted(before, x), last, h);
      assert IfPeer(x, h) == [] || IfPeer(last, h) == [];
    }
  }

  // Sorting leaves alike hits in the order they came.
  lemma {:induction false} BestFirstIsStable(hits: seq<Hit>, h: Hit)
    ensures Peers(BestFirst(hits), h) == Peers(hits, h)
  {
    if hits != [] {
      var before := hits[..|hits| - 1];
      var last := hits[|hits| - 1];
      BestFirstIsStable(before, h);
      InsertedIsStable(BestFirst(before), last, h);
    }
  }

  // ---------- The greedy choice ----------

  function Chosen(hits: seq<Hit>, size: nat, taken: seq<Span>): seq<Hit> {
    if hits == [] then []
    else if !Fits(hits[0], size) || OverlapsAny(SpanOf(hits[0]), taken) then Chosen(hits[1..], size, taken)
    else [hits[0]] + Chosen(hits[1..], size, taken + [SpanOf(hits[0])])
  }

  predicate AreFree(hits: seq<Hit>, size: nat, taken: seq<Span>) {
    && (forall i :: 0 <= i < |hits| ==> Fits(hits[i], size) && !OverlapsAny(SpanOf(hits[i]), taken))
    && forall i, j :: 0 <= i < j < |hits| ==> !Overlap(SpanOf(hits[i]), SpanOf(hits[j]))
  }

  // What is taken lies in the text, misses what was taken before, and no two of it overlap.
  lemma {:induction false} ChosenAreFree(hits: seq<Hit>, size: nat, taken: seq<Span>)
    ensures AreFree(Chosen(hits, size, taken), size, taken)
  {
    if hits != [] {
      if !Fits(hits[0], size) || OverlapsAny(SpanOf(hits[0]), taken) {
        ChosenAreFree(hits[1..], size, taken);
      } else {
        var more := taken + [SpanOf(hits[0])];
        var rest := Chosen(hits[1..], size, more);
        ChosenAreFree(hits[1..], size, more);
        forall i | 0 <= i < |rest|
          ensures !OverlapsAny(SpanOf(rest[i]), taken) && !Overlap(SpanOf(hits[0]), SpanOf(rest[i]))
        {
          assert forall s :: s in taken ==> s in more;
          assert SpanOf(hits[0]) in more;
        }
      }
    }
  }

  predicate IsBeaten(h: Hit, chosen: seq<Hit>) {
    exists c | c in chosen :: Overlap(SpanOf(h), SpanOf(c)) && Length(c) >= Length(h)
  }

  // A hit that fits is left out only for a span taken before, or for a chosen one at least as long.
  lemma {:induction false} LeftOutForAReason(hits: seq<Hit>, size: nat, taken: seq<Span>, h: Hit)
    requires IsBestFirst(hits) && h in hits && Fits(h, size)
    ensures var chosen := Chosen(hits, size, taken);
            h in chosen || OverlapsAny(SpanOf(h), taken) || IsBeaten(h, chosen)
  {
    var first, rest := hits[0], hits[1..];
    var isTaken := Fits(first, size) && !OverlapsAny(SpanOf(first), taken);
    var more := if isTaken then taken + [SpanOf(first)] else taken;
    if h != first {
      assert h in rest;
      LeftOutForAReason(rest, size, more, h);
      var chosen := Chosen(hits, size, taken);
      assert forall c :: c in Chosen(rest, size, more) ==> c in chosen;
      if isTaken && OverlapsAny(SpanOf(h), more) && !OverlapsAny(SpanOf(h), taken) {
        assert Overlap(SpanOf(h), SpanOf(first)) && first in chosen;
        assert !Wins(h, first);
      }
    }
  }

  // ---------- Reading order ----------

  function Placed(ordered: seq<Hit>, h: Hit): (r: seq<Hit>)
    ensures multiset(r) == multiset(ordered) + multiset{h}
  {
    if ordered == [] || ordered[|ordered| - 1].start <= h.start then ordered + [h]
    else
      var last := |ordered| - 1;
      assert ordered == ordered[..last] + [ordered[last]];
      Placed(ordered[..last], h) + [ordered[last]]
  }

  function ByStart(hits: seq<Hit>): (r: seq<Hit>)
    ensures multiset(r) == multiset(hits)
  {
    if hits == [] then []
    else
      var last := |hits| - 1;
      assert hits == hits[..last] + [hits[last]];
      Placed(ByStart(hits[..last]), hits[last])
  }

  // One after the other, inside the text.
  predicate InReadingOrder(hits: seq<Hit>, size: nat) {
    && (forall i :: 0 <= i < |hits| ==> Fits(hits[i], size))
    && forall i, j :: 0 <= i < j < |hits| ==> hits[i].end <= hits[j].start
  }

  lemma {:induction false} PlacedInOrder(ordered: seq<Hit>, h: Hit, size: nat)
    requires InReadingOrder(ordered, size) && Fits(h, size)
    requires forall c | c in ordered :: !Overlap(SpanOf(c), SpanOf(h))
    ensures InReadingOrder(Placed(ordered, h), size)
  {
    if ordered == [] {
      return;
    }
    var last := |ordered| - 1;
    var c := ordered[last];
    assert c in ordered && !Overlap(SpanOf(c), SpanOf(h));
    if c.start > h.start {
      var r := Placed(ordered[..last], h);
      PlacedInOrder(ordered[..last], h, size);
      forall i | 0 <= i < |r| ensures r[i].end <= c.start {
        assert r[i] in multiset(r);
        assert r[i] in multiset(ordered[..last]) + multiset{h};
      }
    } else {
      EndsBehind(ordered, h, size);
    }
  }

  lemma EndsBehind(ordered: seq<Hit>, h: Hit, size: nat)
    requires InReadingOrder(ordered, size) && Fits(h, size) && ordered != [] && ordered[|ordered| - 1].end <= h.start
    ensures InReadingOrder(ordered + [h], size)
  {
    forall i | 0 <= i < |ordered| ensures ordered[i].end <= h.start {
      assert i < |ordered| - 1 ==> ordered[i].end <= ordered[|ordered| - 1].start;
    }
  }

  lemma {:induction false} FreeHitsInOrder(hits: seq<Hit>, size: nat, taken: seq<Span>)
    requires AreFree(hits, size, taken)
    ensures InReadingOrder(ByStart(hits), size)
  {
    if hits != [] {
      var before := hits[..|hits| - 1];
      var last := hits[|hits| - 1];
      FreeHitsInOrder(before, size, taken);
      forall c | c in ByStart(before) ensures !Overlap(SpanOf(c), SpanOf(last)) {
        assert c in multiset(ByStart(before));
        assert c in before;
      }
      PlacedInOrder(ByStart(before), last, size);
    }
  }

  function Picked(hits: seq<Hit>, size: nat, taken: seq<Span>): seq<Hit> {
    ByStart(Chosen(BestFirst(hits), size, taken))
  }

  /**
   The picked hits stand one after the other and miss every span taken before; a hit that fits and is not among them
   touches such a span, or a picked hit at least as long.
   */
  lemma PickedExactly(hits: seq<Hit>, size: nat, taken: seq<Span>)
    ensures var picked := Picked(hits, size, taken);
            && InReadingOrder(picked, size)
            && (forall c :: c in picked ==> c in hits && !OverlapsAny(SpanOf(c), taken))
            && (forall h :: h in hits && Fits(h, size) && h !in picked ==>
                  OverlapsAny(SpanOf(h), taken) || IsBeaten(h, picked))
  {
    var sorted := BestFirst(hits);
    var chosen := Chosen(sorted, size, taken);
    var picked := ByStart(chosen);
    SortedBestFirst(hits);
    ChosenAreFree(sorted, size, taken);
    FreeHitsInOrder(chosen, size, taken);
    SameMembers(sorted, hits);
    SameMembers(picked, chosen);
    forall c | c in chosen ensures c in sorted {
      ChosenAreSome(sorted, size, taken, c);
    }
    forall h | h in hits && Fits(h, size) && h !in picked ensures OverlapsAny(SpanOf(h), taken) || IsBeaten(h, picked) {
      LeftOutForAReason(sorted, size, taken, h);
    }
  }

  /**
   The same place by place: what is picked shares no place with a span taken before, and a hit of the text that is not
   picked shares one with such a span, or with a picked hit at least as long.
   */
  lemma PickedPlaceByPlace(hits: seq<Hit>, size: nat, taken: seq<Span>, h: Hit)
    requires forall s :: s in taken ==> s.start < s.end
    requires h in hits && 0 <= h.start < h.end <= size
    ensures var picked := Picked(hits, size, taken);
            && (h in picked ==> forall s :: s in taken ==> !Share(h, s.start, s.end))
            && (h !in picked ==>
                  || (exists s :: s in taken && Share(h, s.start, s.end))
                  || exists c :: c in picked && Share(h, c.start, c.end) && c.end - c.start >= h.end - h.start)
  {
    var picked := Picked(hits, size, taken);
    PickedExactly(hits, size, taken);
    assert Fits(h, size);
    forall s | s in taken ensures Overlap(SpanOf(h), s) <==> Share(h, s.start, s.end) {
      OverlapIsShared(h, s);
    }
    if h !in picked && IsBeaten(h, picked) {
      var c :| c in picked && Overlap(SpanOf(h), SpanOf(c)) && Length(c) >= Length(h);
      var i :| 0 <= i < |picked| && picked[i] == c;
      OverlapIsShared(h, SpanOf(c));
    }
  }

  lemma SameMembers(a: seq<Hit>, b: seq<Hit>)
    requires multiset(a) == multiset(b)
    ensures forall h :: h in a <==> h in b
  {
    assert forall h :: h in a <==> h in multiset(a);
    assert forall h :: h in b <==> h in multiset(b);
  }

  lemma {:induction false} ChosenAreSome(hits: seq<Hit>, size: nat, taken: seq<Span>, c: Hit)
    requires c in Chosen(hits, size, taken)
    ensures c in hits
  {
    if !Fits(hits[0], size) || OverlapsAny(SpanOf(hits[0]), taken) {
      ChosenAreSome(hits[1..], size, taken, c);
    } else if c != hits[0] {
      ChosenAreSome(hits[1..], size, taken + [SpanOf(hits[0])], c);
    }
  }
}
