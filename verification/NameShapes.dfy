/**
 Narrowing the recogniser's hits to what looks like a name: the words of a hit, and the runs of them that are
 name-shaped, a particle joining two. Which characters are spaces or punctuation, and which words are names or
 particles, are parameters.
 */
module NameShapes {
  import opened Collections
  import opened Hits

  datatype Shapes = Shapes(isSpace: char -> bool, isEdge: char -> bool, isName: string -> bool,
                           isParticle: string -> bool)

  // ---------- Words ----------

  // A longest stretch without a space, inside the hit.
  predicate IsToken(sh: Shapes, runes: string, start: nat, end: nat, a: nat, b: nat)
    requires end <= |runes|
  {
    && start <= a < b <= end && (forall i | a <= i < b :: !sh.isSpace(runes[i]))
    && (a == start || sh.isSpace(runes[a - 1])) && (b == end || sh.isSpace(runes[b]))
  }

  // What is left of a token without the punctuation at its ends.
  predicate IsTrimmed(sh: Shapes, runes: string, a: nat, b: nat, w: Span)
    requires b <= |runes|
  {
    && a <= w.start < w.end <= b && !sh.isEdge(runes[w.start]) && !sh.isEdge(runes[w.end - 1])
    && (forall i | a <= i < w.start :: sh.isEdge(runes[i])) && (forall i | w.end <= i < b :: sh.isEdge(runes[i]))
  }

  ghost predicate IsWord(sh: Shapes, runes: string, start: nat, end: nat, w: Span)
    requires end <= |runes|
  {
    exists a: nat, b: nat :: IsToken(sh, runes, start, end, a, b) && IsTrimmed(sh, runes, a, b, w)
  }

  predicate AreInOrder(spans: seq<Span>) {
    && (forall i | 0 <= i < |spans| :: spans[i].start < spans[i].end)
    && forall i, j | 0 <= i < j < |spans| :: spans[i].end <= spans[j].start
  }

  lemma OneTokenAt(sh: Shapes, runes: string, start: nat, end: nat, a: nat, b: nat, c: nat, d: nat)
    requires end <= |runes| && IsToken(sh, runes, start, end, a, b) && IsToken(sh, runes, start, end, c, d)
    requires a <= c < b
    ensures a == c && b == d
  {
  }

  // The words of a hit are exactly its tokens trimmed, in order; a token of punctuation alone is none.
  method Words(sh: Shapes, runes: string, start: nat, end: nat) returns (spans: seq<Span>)
    requires start <= end <= |runes|
    ensures forall w :: w in spans <==> IsWord(sh, runes, start, end, w)
    ensures AreInOrder(spans)
  {
    spans := [];
    var i := start;
    while i < end
      invariant start <= i <= end && (i == start || i == end || sh.isSpace(runes[i]))
      invariant AreInOrder(spans) && forall w :: w in spans ==> w.end <= i
      invariant forall w :: w in spans ==> IsWord(sh, runes, start, end, w)
      invariant forall w :: IsWord(sh, runes, start, end, w) && w.start < i ==> w in spans
    {
      ghost var before := i;
      while i < end && sh.isSpace(runes[i])
        invariant before <= i <= end && forall k | before <= k < i :: sh.isSpace(runes[k])
      {
        i := i + 1;
      }
      var j := i;
      while j < end && !sh.isSpace(runes[j])
        invariant i <= j <= end && forall k | i <= k < j :: !sh.isSpace(runes[k])
      {
        j := j + 1;
      }
      var s, e := TrimEdges(sh, runes, i, j);
      if s < e {
        assert IsToken(sh, runes, start, end, i, j) && IsTrimmed(sh, runes, i, j, Span(s, e));
        spans := spans + [Span(s, e)];
      }
      forall w | IsWord(sh, runes, start, end, w) && before <= w.start < j ensures s < e && w == Span(s, e) {
        WordsFromHere(sh, runes, start, end, before, i, j, s, e, w);
      }
      i := j;
    }
  }

  method TrimEdges(sh: Shapes, runes: string, i: nat, j: nat) returns (s: nat, e: nat)
    requires i <= j <= |runes|
    ensures i <= s <= e <= j
    ensures s < e ==> IsTrimmed(sh, runes, i, j, Span(s, e))
    ensures s == e ==> forall k | i <= k < j :: sh.isEdge(runes[k])
  {
    s, e := i, j;
    while s < e && sh.isEdge(runes[s])
      invariant i <= s <= e && forall k | i <= k < s :: sh.isEdge(runes[k])
    {
      s := s + 1;
    }
    while e > s && sh.isEdge(runes[e - 1])
      invariant s <= e <= j && forall k | e <= k < j :: sh.isEdge(runes[k])
    {
      e := e - 1;
    }
  }

  // A word that starts between two scans is the token found there, trimmed.
  lemma WordsFromHere(sh: Shapes, runes: string, start: nat, end: nat, before: nat, i: nat, j: nat, s: nat, e: nat,
                      w: Span)
    requires start <= before <= i <= j <= end <= |runes| && IsWord(sh, runes, start, end, w) && before <= w.start < j
    requires forall k | before <= k < i :: sh.isSpace(runes[k])
    requires forall k | i <= k < j :: !sh.isSpace(runes[k])
    requires (i == start || i == before || sh.isSpace(runes[i - 1])) && (j == end || sh.isSpace(runes[j]))
    requires before == start || before == end || sh.isSpace(runes[before])
    requires i <= s <= e <= j && (s < e ==> IsTrimmed(sh, runes, i, j, Span(s, e)))
    requires s == e ==> forall k | i <= k < j :: sh.isEdge(runes[k])
    ensures s < e && w == Span(s, e)
  {
    var a: nat, b: nat :| IsToken(sh, runes, start, end, a, b) && IsTrimmed(sh, runes, a, b, w);
    assert IsToken(sh, runes, start, end, i, j);
    if a <= i {
      OneTokenAt(sh, runes, start, end, a, b, i, j);
    } else {
      OneTokenAt(sh, runes, start, end, i, j, a, b);
    }
  }

  // ---------- Runs of name words ----------

  predicate AreWords(runes: string, words: seq<Span>) {
    AreInOrder(words) && forall i | 0 <= i < |words| :: 0 <= words[i].start < words[i].end <= |runes|
  }

  function Text(runes: string, words: seq<Span>, x: nat): string
    requires AreWords(runes, words) && x < |words|
  {
    runes[words[x].start..words[x].end]
  }

  predicate IsName(sh: Shapes, runes: string, words: seq<Span>, x: nat)
    requires AreWords(runes, words) && x < |words|
  {
    sh.isName(Text(runes, words, x))
  }

  predicate IsParticle(sh: Shapes, runes: string, words: seq<Span>, x: nat)
    requires AreWords(runes, words) && x < |words|
  {
    sh.isParticle(Text(runes, words, x))
  }

  predicate Joins(sh: Shapes, runes: string, words: seq<Span>, x: nat)
    requires AreWords(runes, words) && x < |words|
  {
    IsName(sh, runes, words, x) || IsParticle(sh, runes, words, x)
  }

  // The words a run is made of: the first is a name word, the last no particle, and all join.
  datatype Stretch = Stretch(first: nat, last: nat)

  predicate IsStretch(sh: Shapes, runes: string, words: seq<Span>, p: Stretch)
    requires AreWords(runes, words)
  {
    && p.first <= p.last < |words| && IsName(sh, runes, words, p.first) && !IsParticle(sh, runes, words, p.last)
    && forall x | p.first <= x <= p.last :: Joins(sh, runes, words, x)
  }

  // Some word between them belongs to no name.
  predicate AreApart(sh: Shapes, runes: string, words: seq<Span>, p: Stretch, q: Stretch)
    requires AreWords(runes, words) && q.first <= |words|
  {
    exists x | p.last < x < q.first :: !Joins(sh, runes, words, x)
  }

  predicate LieIn(sh: Shapes, runes: string, words: seq<Span>, n: nat, ps: seq<Stretch>)
    requires AreWords(runes, words)
  {
    forall k | 0 <= k < |ps| :: IsStretch(sh, runes, words, ps[k]) && ps[k].last < n
  }

  predicate AreAllApart(sh: Shapes, runes: string, words: seq<Span>, ps: seq<Stretch>)
    requires AreWords(runes, words) && LieIn(sh, runes, words, |words|, ps)
  {
    forall k, l | 0 <= k < l < |ps| :: AreApart(sh, runes, words, ps[k], ps[l])
  }

  ghost predicate CoverNames(sh: Shapes, runes: string, words: seq<Span>, n: nat, ps: seq<Stretch>)
    requires AreWords(runes, words) && n <= |words|
  {
    forall x: nat | x < n && IsName(sh, runes, words, x) && !IsParticle(sh, runes, words, x) :: IsCovered(ps, x)
  }

  // The stretches of the first n words: all of them, each as long as it can be.
  ghost predicate AreStretches(sh: Shapes, runes: string, words: seq<Span>, n: nat, ps: seq<Stretch>)
    requires AreWords(runes, words) && n <= |words|
  {
    LieIn(sh, runes, words, n, ps) && AreAllApart(sh, runes, words, ps) && CoverNames(sh, runes, words, n, ps)
  }

  ghost predicate IsCovered(ps: seq<Stretch>, x: nat) {
    exists k | 0 <= k < |ps| :: ps[k].first <= x <= ps[k].last
  }

  predicate AreRuns(words: seq<Span>, ps: seq<Stretch>, runs: seq<Span>) {
    |runs| == |ps| && forall k | 0 <= k < |ps| ::
      ps[k].first < |words| && ps[k].last < |words| && runs[k] == Span(words[ps[k].first].start, words[ps[k].last].end)
  }

  // The words gathered so far, from the from-th on: they join, and the first is a name word.
  predicate AreGathered(sh: Shapes, runes: string, words: seq<Span>, current: seq<Span>, from: nat)
    requires AreWords(runes, words)
  {
    && from + |current| <= |words| && current == words[from..from + |current|]
    && (forall x | from <= x < from + |current| :: Joins(sh, runes, words, x))
    && (current != [] ==> IsName(sh, runes, words, from))
  }

  // The one stretch, if any, that words gathered up to n amount to.
  ghost predicate IsLeft(sh: Shapes, runes: string, words: seq<Span>, from: nat, n: nat, stretch: seq<Stretch>)
    requires AreWords(runes, words) && from <= n <= |words|
  {
    && |stretch| <= 1
    && (stretch != [] ==> IsStretch(sh, runes, words, stretch[0]) && stretch[0].first == from && stretch[0].last < n)
    && forall x | from <= x < n && !IsParticle(sh, runes, words, x) :: stretch != [] && x <= stretch[0].last
  }

  // A run never ends on a particle; one left with nothing is dropped.
  method Trim(sh: Shapes, runes: string, words: seq<Span>, current: seq<Span>, ghost from: nat)
    returns (run: seq<Span>, ghost stretch: seq<Stretch>)
    requires AreWords(runes, words) && AreGathered(sh, runes, words, current, from)
    ensures AreRuns(words, stretch, run) && IsLeft(sh, runes, words, from, from + |current|, stretch)
  {
    var n: nat := |current|;
    while n > 0 && sh.isParticle(runes[current[n - 1].start..current[n - 1].end])
      invariant n <= |current|
      invariant forall x | from + n <= x < from + |current| :: IsParticle(sh, runes, words, x)
    {
      assert current[n - 1] == words[from + n - 1];
      n := n - 1;
    }
    if n > 0 {
      assert current[n - 1] == words[from + n - 1] && current[0] == words[from];
      stretch := [Stretch(from, from + n - 1)];
      run := [Span(current[0].start, current[n - 1].end)];
    } else {
      stretch, run := [], [];
    }
  }

  // The last stretch ends before a word that does not join.
  ghost predicate IsParted(sh: Shapes, runes: string, words: seq<Span>, ps: seq<Stretch>, from: nat)
    requires AreWords(runes, words) && from <= |words|
  {
    ps != [] ==> exists x | ps[|ps| - 1].last < x < from :: !Joins(sh, runes, words, x)
  }

  ghost predicate AreRunsUpTo(sh: Shapes, runes: string, words: seq<Span>, n: nat, runs: seq<Span>, ps: seq<Stretch>)
    requires AreWords(runes, words) && n <= |words|
  {
    AreStretches(sh, runes, words, n, ps) && AreRuns(words, ps, runs)
  }

  /**
   The name-shaped runs of a hit's words: each goes from a name word to a word that is no particle, over words that
   all join; two of them are parted by a word that does not; and every name word that is no particle is in one.
   */
  method NameRuns(sh: Shapes, runes: string, words: seq<Span>) returns (runs: seq<Span>)
    requires AreWords(runes, words)
    ensures exists ps :: AreRunsUpTo(sh, runes, words, |words|, runs, ps)
  {
    runs := [];
    ghost var ps: seq<Stretch> := [];
    var current: seq<Span> := [];
    ghost var from: nat := 0;
    for n := 0 to |words|
      invariant from + |current| == n && AreGathered(sh, runes, words, current, from)
      invariant AreRunsUpTo(sh, runes, words, from, runs, ps) && IsParted(sh, runes, words, ps, from)
    {
      var text := runes[words[n].start..words[n].end];
      if sh.isName(text) || (current != [] && sh.isParticle(text)) {
        OneMoreGathered(sh, runes, words, current, from);
        current := current + [words[n]];
      } else {
        runs, ps := Flush(sh, runes, words, runs, ps, current, from);
        NextWord(sh, runes, words, n, runs, ps);
        current, from := [], n + 1;
      }
    }
    runs, ps := Flush(sh, runes, words, runs, ps, current, from);
    assert AreRunsUpTo(sh, runes, words, |words|, runs, ps);
  }

  lemma OneMoreGathered(sh: Shapes, runes: string, words: seq<Span>, current: seq<Span>, from: nat)
    requires AreWords(runes, words) && AreGathered(sh, runes, words, current, from) && from + |current| < |words|
    requires var n := from + |current|;
             IsName(sh, runes, words, n) || (current != [] && IsParticle(sh, runes, words, n))
    ensures AreGathered(sh, runes, words, current + [words[from + |current|]], from)
  {
  }

  // A word that ends a run, or comes before any, leaves the runs as they are.
  lemma NextWord(sh: Shapes, runes: string, words: seq<Span>, n: nat, runs: seq<Span>, ps: seq<Stretch>)
    requires AreWords(runes, words) && n < |words| && AreRunsUpTo(sh, runes, words, n, runs, ps)
    requires !IsName(sh, runes, words, n)
    requires IsParted(sh, runes, words, ps, n) || !IsParticle(sh, runes, words, n)
    ensures AreRunsUpTo(sh, runes, words, n + 1, runs, ps) && IsParted(sh, runes, words, ps, n + 1)
  {
    if !IsParticle(sh, runes, words, n) && ps != [] {
      assert ps[|ps| - 1].last < n && !Joins(sh, runes, words, n);
    }
  }

  method Flush(sh: Shapes, runes: string, words: seq<Span>, before: seq<Span>, ghost earlier: seq<Stretch>,
               current: seq<Span>, ghost from: nat) returns (runs: seq<Span>, ghost ps: seq<Stretch>)
    requires AreWords(runes, words) && AreGathered(sh, runes, words, current, from)
    requires AreRunsUpTo(sh, runes, words, from, before, earlier) && IsParted(sh, runes, words, earlier, from)
    ensures AreRunsUpTo(sh, runes, words, from + |current|, runs, ps)
    ensures current == [] ==> ps == earlier
  {
    var run, stretch := Trim(sh, runes, words, current, from);
    FlushedApart(sh, runes, words, from, from + |current|, earlier, stretch);
    FlushedCovers(sh, runes, words, from, from + |current|, earlier, stretch);
    RunsTogether(words, earlier, before, stretch, run);
    runs, ps := before + run, earlier + stretch;
  }

  lemma RunsTogether(words: seq<Span>, ps: seq<Stretch>, runs: seq<Span>, more: seq<Stretch>, others: seq<Span>)
    requires AreRuns(words, ps, runs) && AreRuns(words, more, others)
    ensures AreRuns(words, ps + more, runs + others)
  {
  }

  lemma PartedFromAll(sh: Shapes, runes: string, words: seq<Span>, from: nat, ps: seq<Stretch>, p: Stretch, k: nat)
    requires AreWords(runes, words) && from <= |words| && AreStretches(sh, runes, words, from, ps)
    requires IsParted(sh, runes, words, ps, from) && p.first == from && k < |ps|
    ensures AreApart(sh, runes, words, ps[k], p)
  {
    if k < |ps| - 1 {
      assert AreApart(sh, runes, words, ps[k], ps[|ps| - 1]);
      assert IsStretch(sh, runes, words, ps[|ps| - 1]);
    }
  }

  lemma FlushedApart(sh: Shapes, runes: string, words: seq<Span>, from: nat, n: nat, ps: seq<Stretch>,
                     stretch: seq<Stretch>)
    requires AreWords(runes, words) && from <= n <= |words| && AreStretches(sh, runes, words, from, ps)
    requires IsParted(sh, runes, words, ps, from) && IsLeft(sh, runes, words, from, n, stretch)
    ensures LieIn(sh, runes, words, n, ps + stretch) && AreAllApart(sh, runes, words, ps + stretch)
  {
    var all := ps + stretch;
    forall k, l | 0 <= k < l < |all| ensures AreApart(sh, runes, words, all[k], all[l]) {
      if l == |ps| {
        PartedFromAll(sh, runes, words, from, ps, stretch[0], k);
      }
    }
  }

  lemma CoverageGrows(ps: seq<Stretch>, stretch: seq<Stretch>, x: nat)
    requires |stretch| <= 1
    ensures IsCovered(ps, x) ==> IsCovered(ps + stretch, x)
    ensures stretch != [] && stretch[0].first <= x <= stretch[0].last ==> IsCovered(ps + stretch, x)
  {
    if IsCovered(ps, x) {
      var k :| 0 <= k < |ps| && ps[k].first <= x <= ps[k].last;
      assert (ps + stretch)[k] == ps[k];
    }
    if stretch != [] && stretch[0].first <= x <= stretch[0].last {
      assert (ps + stretch)[|ps|] == stretch[0];
    }
  }

  lemma FlushedCovers(sh: Shapes, runes: string, words: seq<Span>, from: nat, n: nat, ps: seq<Stretch>,
                      stretch: seq<Stretch>)
    requires AreWords(runes, words) && from <= n <= |words| && AreStretches(sh, runes, words, from, ps)
    requires IsLeft(sh, runes, words, from, n, stretch)
    ensures CoverNames(sh, runes, words, n, ps + stretch)
  {
    forall x: nat | x < n && IsName(sh, runes, words, x) && !IsParticle(sh, runes, words, x)
      ensures IsCovered(ps + stretch, x)
    {
      CoverageGrows(ps, stretch, x);
    }
  }

  // ---------- Narrowing the hits ----------

  predicate IsNameEntity(entity: string) {
    entity == "PERSON" || entity == "ORGANIZATION" || entity == "LOCATION"
  }

  // The runs of the words of one hit.
  ghost predicate AreRunsOf(sh: Shapes, runes: string, start: nat, end: nat, runs: seq<Span>)
    requires end <= |runes|
  {
    exists words, ps ::
      && AreWords(runes, words) && (forall w :: w in words <==> IsWord(sh, runes, start, end, w))
      && AreRunsUpTo(sh, runes, words, |words|, runs, ps)
  }

  lemma WordsAreWords(sh: Shapes, runes: string, start: nat, end: nat, words: seq<Span>)
    requires start <= end <= |runes| && AreInOrder(words)
    requires forall w :: w in words <==> IsWord(sh, runes, start, end, w)
    ensures AreWords(runes, words) && forall w :: w in words ==> start <= w.start < w.end <= end
  {
    forall w | w in words ensures start <= w.start < w.end <= end {
      assert IsWord(sh, runes, start, end, w);
    }
  }

  // Runs stand one after the other, inside the hit they come from.
  lemma RunsStayInside(sh: Shapes, runes: string, start: nat, end: nat, runs: seq<Span>)
    requires start <= end <= |runes| && AreRunsOf(sh, runes, start, end, runs)
    ensures AreInOrder(runs) && forall r :: r in runs ==> start <= r.start < r.end <= end
  {
    var words: seq<Span>, ps: seq<Stretch> :|
      && AreWords(runes, words) && (forall w :: w in words <==> IsWord(sh, runes, start, end, w))
      && AreRunsUpTo(sh, runes, words, |words|, runs, ps);
    WordsAreWords(sh, runes, start, end, words);
    forall k | 0 <= k < |runs| ensures start <= runs[k].start < runs[k].end <= end {
      RunIsInside(sh, runes, words, ps[k], runs[k]);
    }
    RunsAreInOrder(sh, runes, words, runs, ps);
  }

  lemma RunsAreInOrder(sh: Shapes, runes: string, words: seq<Span>, runs: seq<Span>, ps: seq<Stretch>)
    requires AreWords(runes, words) && AreRunsUpTo(sh, runes, words, |words|, runs, ps)
    ensures AreInOrder(runs)
  {
    forall k | 0 <= k < |runs| ensures runs[k].start < runs[k].end {
      RunIsInside(sh, runes, words, ps[k], runs[k]);
    }
    forall k, l | 0 <= k < l < |runs| ensures runs[k].end <= runs[l].start {
      assert AreApart(sh, runes, words, ps[k], ps[l]);
    }
  }

  lemma RunIsInside(sh: Shapes, runes: string, words: seq<Span>, p: Stretch, run: Span)
    requires AreWords(runes, words) && IsStretch(sh, runes, words, p)
    requires run == Span(words[p.first].start, words[p.last].end)
    ensures words[p.first] in words && words[p.last] in words && run.start < run.end
  {
  }

  function AsHits(r: Hit, runs: seq<Span>): (hits: seq<Hit>)
    ensures |hits| == |runs|
    ensures forall k :: 0 <= k < |runs| ==> hits[k] == Hit(r.entity, runs[k].start, runs[k].end, r.score)
  {
    seq(|runs|, k requires 0 <= k < |runs| => Hit(r.entity, runs[k].start, runs[k].end, r.score))
  }

  // What one hit becomes: itself, or its name-shaped runs.
  ghost predicate IsNarrowed(sh: Shapes, runes: string, r: Hit, piece: seq<Hit>) {
    if IsNameEntity(r.entity) && Fits(r, |runes|) then
      exists runs :: AreRunsOf(sh, runes, r.start, r.end, runs) && piece == AsHits(r, runs)
    else piece == [r]
  }

  ghost predicate AreNarrowed(sh: Shapes, runes: string, results: seq<Hit>, pieces: seq<seq<Hit>>) {
    |pieces| == |results| && forall i :: 0 <= i < |results| ==> IsNarrowed(sh, runes, results[i], pieces[i])
  }

  // The hits in turn, each as its piece of the result.
  method NameShapedOnly(sh: Shapes, runes: string, results: seq<Hit>) returns (kept: seq<Hit>)
    ensures exists pieces :: AreNarrowed(sh, runes, results, pieces) && kept == Flat(pieces)
  {
    kept := [];
    ghost var pieces: seq<seq<Hit>> := [];
    for i := 0 to |results|
      invariant AreNarrowed(sh, runes, results[..i], pieces) && kept == Flat(pieces)
    {
      var r := results[i];
      var piece := [r];
      if IsNameEntity(r.entity) && Fits(r, |runes|) {
        piece := NarrowOne(sh, runes, r);
      }
      OneMorePiece(pieces, piece);
      kept, pieces := kept + piece, pieces + [piece];
    }
    assert results[..|results|] == results;
  }

  method NarrowOne(sh: Shapes, runes: string, r: Hit) returns (piece: seq<Hit>)
    requires IsNameEntity(r.entity) && Fits(r, |runes|)
    ensures IsNarrowed(sh, runes, r, piece)
  {
    var words := Words(sh, runes, r.start, r.end);
    WordsAreWords(sh, runes, r.start, r.end, words);
    var runs := NameRuns(sh, runes, words);
    assert AreRunsOf(sh, runes, r.start, r.end, runs);
    piece := AsHits(r, runs);
  }

  // Narrowing keeps a hit's entity and score, and stays inside it: nothing new is masked.
  lemma NarrowedStaysInside(sh: Shapes, runes: string, r: Hit, piece: seq<Hit>, h: Hit)
    requires IsNarrowed(sh, runes, r, piece) && h in piece
    ensures h.entity == r.entity && h.score == r.score && r.start <= h.start && h.end <= r.end
    ensures h == r || Fits(h, |runes|)
  {
    if IsNameEntity(r.entity) && Fits(r, |runes|) {
      var runs :| AreRunsOf(sh, runes, r.start, r.end, runs) && piece == AsHits(r, runs);
      RunsStayInside(sh, runes, r.start, r.end, runs);
      var k :| 0 <= k < |piece| && piece[k] == h;
      assert runs[k] in runs;
    }
  }

  // A hit on a person, an organisation or a place becomes hits that begin with a name and do not end with a particle;
  // every other hit stays as it is.
  lemma OnlyNamesAreKept(sh: Shapes, runes: string, r: Hit, piece: seq<Hit>, h: Hit)
    requires IsNarrowed(sh, runes, r, piece)
    ensures r.entity != "PERSON" && r.entity != "ORGANIZATION" && r.entity != "LOCATION" ==> piece == [r]
    ensures (r.entity == "PERSON" || r.entity == "ORGANIZATION" || r.entity == "LOCATION")
            && 0 <= r.start < r.end <= |runes| && h in piece ==>
              exists v, w :: BeginsAndEnds(sh, runes, r, h, v, w)
  {
    if IsNameEntity(r.entity) && Fits(r, |runes|) && h in piece {
      var runs :| AreRunsOf(sh, runes, r.start, r.end, runs) && piece == AsHits(r, runs);
      var k :| 0 <= k < |piece| && piece[k] == h;
      RunBeginsAndEnds(sh, runes, r, runs, k, h);
    }
  }

  lemma RunBeginsAndEnds(sh: Shapes, runes: string, r: Hit, runs: seq<Span>, k: nat, h: Hit)
    requires 0 <= r.start < r.end <= |runes| && AreRunsOf(sh, runes, r.start, r.end, runs) && k < |runs|
    requires h.start == runs[k].start && h.end == runs[k].end
    ensures exists v, w :: BeginsAndEnds(sh, runes, r, h, v, w)
  {
    var words: seq<Span>, ps: seq<Stretch> :|
      && AreWords(runes, words) && (forall v :: v in words <==> IsWord(sh, runes, r.start, r.end, v))
      && AreRunsUpTo(sh, runes, words, |words|, runs, ps);
    assert IsStretch(sh, runes, words, ps[k]);
    var v, w := words[ps[k].first], words[ps[k].last];
    assert v in words && w in words;
    assert BeginsAndEnds(sh, runes, r, h, v, w);
  }

  ghost predicate BeginsAndEnds(sh: Shapes, runes: string, r: Hit, h: Hit, v: Span, w: Span)
    requires 0 <= r.start < r.end <= |runes|
  {
    && IsWord(sh, runes, r.start, r.end, v) && IsWord(sh, runes, r.start, r.end, w)
    && 0 <= v.start <= v.end <= |runes| && 0 <= w.start <= w.end <= |runes|
    && h.start == v.start && sh.isName(runes[v.start..v.end])
    && h.end == w.end && !sh.isParticle(runes[w.start..w.end])
  }

  // No name is lost: a name word of the hit that is no particle lies whole in one of the hits it became.
  lemma NoNameIsDropped(sh: Shapes, runes: string, r: Hit, piece: seq<Hit>, w: Span) returns (h: Hit)
    requires IsNameEntity(r.entity) && Fits(r, |runes|) && IsNarrowed(sh, runes, r, piece)
    requires IsWord(sh, runes, r.start, r.end, w) && 0 <= w.start < w.end <= |runes|
    requires sh.isName(runes[w.start..w.end]) && !sh.isParticle(runes[w.start..w.end])
    ensures h in piece && h.start <= w.start && w.end <= h.end
  {
    var runs :| AreRunsOf(sh, runes, r.start, r.end, runs) && piece == AsHits(r, runs);
    var words: seq<Span>, ps: seq<Stretch> :|
      && AreWords(runes, words) && (forall v :: v in words <==> IsWord(sh, runes, r.start, r.end, v))
      && AreRunsUpTo(sh, runes, words, |words|, runs, ps);
    var x :| 0 <= x < |words| && words[x] == w;
    assert IsName(sh, runes, words, x) && !IsParticle(sh, runes, words, x) && IsCovered(ps, x);
    var k :| 0 <= k < |ps| && ps[k].first <= x <= ps[k].last;
    h := piece[k];
    RunHolds(words, ps[k].first, x, ps[k].last);
  }

  lemma RunHolds(words: seq<Span>, p: nat, x: nat, q: nat)
    requires AreInOrder(words) && p <= x <= q < |words|
    ensures words[p].start <= words[x].start && words[x].end <= words[q].end
  {
  }
}
