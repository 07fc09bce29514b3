/**
 How a detail is spelled: lowered, trimmed, cut into words or reduced to its letters and digits; and when two
 spellings come to the same. What Unicode calls a space, and how it lowers a letter, is a parameter (Letters).
 */
module Spellings {
  import opened Collections
  import opened Common
  import opened Scanning
  import opened Weaving

  datatype Letters = Letters(lower: char -> char, isSpace: char -> bool)

  predicate IsPlain(c: char) {
    'a' <= c <= 'z' || '0' <= c <= '9'
  }

  ghost predicate IsLetters(l: Letters) {
    && l.isSpace(' ')
    && (forall c :: l.isSpace(c) ==> l.isSpace(l.lower(c)))
    && (forall c :: l.isSpace(c) ==> !IsPlain(c))
  }

  function Lowered(l: Letters, s: string): (r: string)
    ensures |r| == |s| && forall i :: 0 <= i < |s| ==> r[i] == l.lower(s[i])
  {
    if s == [] then [] else [l.lower(s[0])] + Lowered(l, s[1..])
  }

  function Trimmed(l: Letters, s: string): string
    decreases |s|
  {
    if s == [] then s
    else if l.isSpace(s[0]) then Trimmed(l, s[1..])
    else if l.isSpace(s[|s| - 1]) then Trimmed(l, s[..|s| - 1])
    else s
  }

  // The words with one space between them: whether one is behind, and whether a space waits for the next.
  function Spaced(l: Letters, s: string, hasWord: bool, isApart: bool): string {
    if s == [] then []
    else if l.isSpace(s[0]) then Spaced(l, s[1..], hasWord, hasWord)
    else (if isApart then " " else "") + [s[0]] + Spaced(l, s[1..], true, false)
  }

  function Kept(s: string): string {
    if s == [] then [] else (if IsPlain(s[0]) then [s[0]] else []) + Kept(s[1..])
  }

  lemma {:induction false} SpacedBeforeSpace(l: Letters, s: string, c: char, hasWord: bool, isApart: bool)
    requires l.isSpace(c)
    ensures Spaced(l, s + [c], hasWord, isApart) == Spaced(l, s, hasWord, isApart)
  {
    if s != [] {
      assert (s + [c])[1..] == s[1..] + [c];
      SpacedBeforeSpace(l, s[1..], c, if l.isSpace(s[0]) then hasWord else true, l.isSpace(s[0]) && hasWord);
    } else {
      assert (s + [c])[1..] == [];
    }
  }

  lemma {:induction false} KeptBeforeOther(s: string, c: char)
    requires !IsPlain(c)
    ensures Kept(s + [c]) == Kept(s)
  {
    if s != [] {
      assert (s + [c])[1..] == s[1..] + [c];
      KeptBeforeOther(s[1..], c);
    }
  }

  predicate IsBlank(l: Letters, s: string) {
    forall i :: 0 <= i < |s| ==> l.isSpace(s[i])
  }

  lemma {:induction false} TrimmedIsEmptyExactly(l: Letters, s: string)
    ensures Trimmed(l, s) == [] <==> IsBlank(l, s)
    decreases |s|
  {
    if s != [] {
      if l.isSpace(s[0]) {
        TrimmedIsEmptyExactly(l, s[1..]);
        assert forall i :: 1 <= i < |s| ==> s[i] == s[1..][i - 1];
        assert IsBlank(l, s[1..]) ==> IsBlank(l, s);
      } else {
        assert !IsBlank(l, s);
        if l.isSpace(s[|s| - 1]) {
          TrimmedIsEmptyExactly(l, s[..|s| - 1]);
          assert s[..|s| - 1][0] == s[0];
        }
      }
    }
  }

  // What is left begins and ends with no space, and only spaces were taken off.
  ghost predicate IsMiddle(l: Letters, s: string, a: nat, b: nat) {
    && a <= b <= |s| && (forall i :: 0 <= i < a ==> l.isSpace(s[i])) && (forall i :: b <= i < |s| ==> l.isSpace(s[i]))
    && (a < b ==> !l.isSpace(s[a]) && !l.isSpace(s[b - 1]))
  }

  lemma {:induction false} TrimmedIsTheMiddle(l: Letters, s: string) returns (a: nat, b: nat)
    ensures IsMiddle(l, s, a, b) && Trimmed(l, s) == s[a..b]
    decreases |s|
  {
    if s == [] {
      return 0, 0;
    } else if l.isSpace(s[0]) {
      var x, y := TrimmedIsTheMiddle(l, s[1..]);
      MiddleBehind(l, s, x, y);
      return x + 1, y + 1;
    } else if l.isSpace(s[|s| - 1]) {
      a, b := TrimmedIsTheMiddle(l, s[..|s| - 1]);
      MiddleInFront(l, s, a, b);
    } else {
      assert s[0..|s|] == s;
      return 0, |s|;
    }
  }

  lemma MiddleInFront(l: Letters, s: string, x: nat, y: nat)
    requires s != [] && l.isSpace(s[|s| - 1]) && IsMiddle(l, s[..|s| - 1], x, y)
    ensures IsMiddle(l, s, x, y) && s[..|s| - 1][x..y] == s[x..y]
  {
    var front := s[..|s| - 1];
    assert forall i {:trigger s[i]} :: 0 <= i < |s| - 1 ==> s[i] == front[i];
    PartInFront(s, |s| - 1, x, y);
  }

  lemma MiddleBehind(l: Letters, s: string, x: nat, y: nat)
    requires s != [] && l.isSpace(s[0]) && IsMiddle(l, s[1..], x, y)
    ensures IsMiddle(l, s, x + 1, y + 1) && s[1..][x..y] == s[x + 1..y + 1]
  {
    assert forall i :: 1 <= i < |s| ==> s[i] == s[1..][i - 1];
  }

  // ---------- Words ----------

  // A longest stretch without a space.
  predicate IsStretch(l: Letters, s: string, a: int, b: int) {
    && 0 <= a < b <= |s| && (forall i :: a <= i < b ==> !l.isSpace(s[i]))
    && (a == 0 || l.isSpace(s[a - 1])) && (b == |s| || l.isSpace(s[b]))
  }

  // All of them, in order: where each begins and ends.
  ghost predicate AreStretches(l: Letters, s: string, ends: seq<(int, int)>) {
    && (forall i :: 0 <= i < |ends| ==> IsStretch(l, s, ends[i].0, ends[i].1))
    && (forall i, j :: 0 <= i < j < |ends| ==> ends[i].0 < ends[j].0)
    && (forall a, b {:trigger (a, b) in ends} :: IsStretch(l, s, a, b) ==> (a, b) in ends)
  }

  // The same words in the same order, whatever stands between them.
  ghost predicate SameWords(l: Letters, s: string, t: string) {
    exists p, q :: AreStretches(l, s, p) && AreStretches(l, t, q) && Cuts(s, p) == Cuts(t, q)
  }

  // ---------- Letters and digits ----------

  // The places of all plain characters, in order.
  ghost predicate ArePlaces(s: string, places: seq<int>) {
    && (forall i :: 0 <= i < |places| ==> 0 <= places[i] < |s| && IsPlain(s[places[i]]))
    && (forall i, j :: 0 <= i < j < |places| ==> places[i] < places[j])
    && (forall k {:trigger k in places} :: 0 <= k < |s| && IsPlain(s[k]) ==> k in places)
  }

  function At(s: string, places: seq<int>): (r: string)
    requires forall i :: 0 <= i < |places| ==> 0 <= places[i] < |s|
    ensures |r| == |places| && forall i :: 0 <= i < |places| ==> r[i] == s[places[i]]
  {
    seq(|places|, i requires 0 <= i < |places| => s[places[i]])
  }

  // The same letters and digits in the same order, whatever stands between them.
  ghost predicate SamePlain(s: string, t: string) {
    exists p, q :: ArePlaces(s, p) && ArePlaces(t, q) && At(s, p) == At(t, q)
  }

  // Two ordered lists of the same numbers are one list.
  lemma {:induction false} OneOrder(p: seq<int>, q: seq<int>)
    requires forall i, j :: 0 <= i < j < |p| ==> p[i] < p[j]
    requires forall i, j :: 0 <= i < j < |q| ==> q[i] < q[j]
    requires forall k :: k in p <==> k in q
    ensures p == q
  {
    assert p == [] ==> forall k :: k !in q;
    assert q != [] ==> q[0] in q;
    if p != [] {
      assert p[0] in p;
      assert p[0] in q && q[0] in p;
      assert p == [p[0]] + p[1..] && q == [q[0]] + q[1..];
      assert p[0] == q[0];
      forall k ensures k in p[1..] <==> k in q[1..] {
        assert k in p[1..] <==> k in p && k != p[0];
        assert k in q[1..] <==> k in q && k != q[0];
      }
      OneOrder(p[1..], q[1..]);
    }
  }

  function PlacesFrom(s: string, from: nat): (places: seq<int>)
    requires from <= |s|
    decreases |s| - from
  {
    if from == |s| then []
    else if IsPlain(s[from]) then [from] + PlacesFrom(s, from + 1)
    else PlacesFrom(s, from + 1)
  }

  ghost predicate ArePlacesFrom(s: string, from: nat, places: seq<int>) {
    && (forall i :: 0 <= i < |places| ==> from <= places[i] < |s| && IsPlain(s[places[i]]))
    && (forall i, j :: 0 <= i < j < |places| ==> places[i] < places[j])
    && (forall k {:trigger k in places} :: from <= k < |s| && IsPlain(s[k]) ==> k in places)
  }

  lemma PlaceHere(s: string, from: nat, rest: seq<int>)
    requires from < |s| && IsPlain(s[from]) && ArePlacesFrom(s, from + 1, rest)
    ensures ArePlacesFrom(s, from, [from] + rest)
  {
    var all := [from] + rest;
    assert forall k :: k in all <==> k == from || k in rest;
  }

  lemma NoPlaceHere(s: string, from: nat, rest: seq<int>)
    requires from < |s| && !IsPlain(s[from]) && ArePlacesFrom(s, from + 1, rest)
    ensures ArePlacesFrom(s, from, rest)
  {
  }

  lemma {:induction false} PlacesArePlaces(s: string, from: nat)
    requires from <= |s|
    ensures ArePlacesFrom(s, from, PlacesFrom(s, from))
    decreases |s| - from
  {
    if from < |s| {
      PlacesArePlaces(s, from + 1);
      if IsPlain(s[from]) {
        PlaceHere(s, from, PlacesFrom(s, from + 1));
      } else {
        NoPlaceHere(s, from, PlacesFrom(s, from + 1));
      }
    }
  }

  lemma {:induction false} KeptIsAt(s: string, from: nat)
    requires from <= |s|
    ensures forall i :: 0 <= i < |PlacesFrom(s, from)| ==> 0 <= PlacesFrom(s, from)[i] < |s|
    ensures Kept(s[from..]) == At(s, PlacesFrom(s, from))
    decreases |s| - from
  {
    PlacesArePlaces(s, from);
    if from < |s| {
      KeptIsAt(s, from + 1);
      assert s[from..][1..] == s[from + 1..] && s[from..][0] == s[from];
    }
  }

  lemma KeptIsAtPlaces(s: string, places: seq<int>)
    requires ArePlaces(s, places)
    ensures Kept(s) == At(s, places)
  {
    KeptIsAt(s, 0);
    PlacesArePlaces(s, 0);
    assert s[0..] == s;
    OneOrder(places, PlacesFrom(s, 0));
  }

  lemma SameKeptExactly(s: string, t: string)
    ensures Kept(s) == Kept(t) <==> SamePlain(s, t)
  {
    PlacesArePlaces(s, 0);
    PlacesArePlaces(t, 0);
    KeptIsAt(s, 0);
    KeptIsAt(t, 0);
    var p, q := PlacesFrom(s, 0), PlacesFrom(t, 0);
    assert ArePlaces(s, p) && ArePlaces(t, q) && s[0..] == s && t[0..] == t;
    if SamePlain(s, t) {
      var x, y :| ArePlaces(s, x) && ArePlaces(t, y) && At(s, x) == At(t, y);
      KeptIsAtPlaces(s, x);
      KeptIsAtPlaces(t, y);
    }
  }

  // ---------- Words with one space between them ----------

  function NoSpace(l: Letters): char -> bool {
    c => !l.isSpace(c)
  }

  // The stretches from a place on that no stretch runs across.
  function StretchesFrom(l: Letters, s: string, from: nat): (ends: seq<(int, int)>)
    requires from <= |s|
    decreases |s| - from
  {
    if from == |s| then []
    else if l.isSpace(s[from]) then StretchesFrom(l, s, from + 1)
    else
      var end := from + RunOf(NoSpace(l), s[from..]);
      assert s[from..][0] == s[from];
      [(from, end)] + StretchesFrom(l, s, end)
  }

  ghost predicate AreStretchesFrom(l: Letters, s: string, from: nat, ends: seq<(int, int)>) {
    && (forall i :: 0 <= i < |ends| ==> from <= ends[i].0 && IsStretch(l, s, ends[i].0, ends[i].1))
    && (forall i, j :: 0 <= i < j < |ends| ==> ends[i].0 < ends[j].0)
    && (forall a, b {:trigger (a, b) in ends} :: from <= a && IsStretch(l, s, a, b) ==> (a, b) in ends)
  }

  lemma StretchHere(l: Letters, s: string, from: nat, end: nat, rest: seq<(int, int)>)
    requires IsStretch(l, s, from, end) && AreStretchesFrom(l, s, end, rest)
    ensures AreStretchesFrom(l, s, from, [(from, end)] + rest)
  {
    var all := [(from, end)] + rest;
    forall a, b | from <= a && IsStretch(l, s, a, b) ensures (a, b) in all {
      if a < end {
        assert a == from && b == end;
        assert all[0] == (a, b);
      } else {
        assert (a, b) in rest;
      }
    }
  }

  lemma RunIsStretch(l: Letters, s: string, from: nat) returns (end: nat)
    requires from < |s| && !l.isSpace(s[from]) && (from == 0 || l.isSpace(s[from - 1]))
    ensures end == from + RunOf(NoSpace(l), s[from..]) && IsStretch(l, s, from, end)
  {
    var rest := s[from..];
    end := from + RunOf(NoSpace(l), rest);
    assert rest[0] == s[from];
    assert forall i :: from <= i < end ==> s[i] == rest[i - from] && NoSpace(l)(rest[i - from]);
    assert end < |s| ==> s[end] == rest[end - from];
  }

  lemma StretchesOnward(l: Letters, s: string, from: nat)
    requires from < |s|
    ensures l.isSpace(s[from]) ==> StretchesFrom(l, s, from) == StretchesFrom(l, s, from + 1)
    ensures !l.isSpace(s[from]) ==>
              var end := from + RunOf(NoSpace(l), s[from..]);
              from < end <= |s| && StretchesFrom(l, s, from) == [(from, end)] + StretchesFrom(l, s, end)
  {
    assert s[from..][0] == s[from];
  }

  ghost predicate AreFoundFrom(l: Letters, s: string, from: nat)
    requires from <= |s|
  {
    AreStretchesFrom(l, s, from, StretchesFrom(l, s, from))
  }

  lemma FoundAtSpace(l: Letters, s: string, from: nat)
    requires from < |s| && l.isSpace(s[from]) && AreFoundFrom(l, s, from + 1)
    ensures AreFoundFrom(l, s, from)
  {
    StretchesOnward(l, s, from);
    SpaceHere(l, s, from, StretchesFrom(l, s, from + 1));
  }

  lemma FoundAtWord(l: Letters, s: string, from: nat, end: nat)
    requires from < |s| && !l.isSpace(s[from]) && IsStretch(l, s, from, end)
    requires end == from + RunOf(NoSpace(l), s[from..]) && AreFoundFrom(l, s, end)
    ensures AreFoundFrom(l, s, from)
  {
    StretchesOnward(l, s, from);
    StretchHere(l, s, from, end, StretchesFrom(l, s, end));
  }

  lemma {:induction false} StretchesAreAll(l: Letters, s: string, from: nat)
    requires from <= |s| && (0 < from < |s| ==> l.isSpace(s[from - 1]) || l.isSpace(s[from]))
    ensures AreFoundFrom(l, s, from)
    decreases |s| - from
  {
    if from == |s| {
      NoneAtEnd(l, s);
    } else if l.isSpace(s[from]) {
      StretchesAreAll(l, s, from + 1);
      FoundAtSpace(l, s, from);
    } else {
      var end := RunIsStretch(l, s, from);
      StretchesAreAll(l, s, end);
      FoundAtWord(l, s, from, end);
    }
  }

  lemma NoneAtEnd(l: Letters, s: string)
    ensures AreStretchesFrom(l, s, |s|, StretchesFrom(l, s, |s|))
  {
  }

  lemma SpaceHere(l: Letters, s: string, from: nat, rest: seq<(int, int)>)
    requires from < |s| && l.isSpace(s[from]) && AreStretchesFrom(l, s, from + 1, rest)
    ensures AreStretchesFrom(l, s, from, rest)
  {
  }

  // Two ordered lists of all stretches are one list.
  lemma {:induction false} OneList(l: Letters, s: string, from: nat, p: seq<(int, int)>, q: seq<(int, int)>)
    requires AreStretchesFrom(l, s, from, p) && AreStretchesFrom(l, s, from, q)
    ensures p == q
    decreases |p|
  {
    assert p != [] ==> p[0] in p && p[0] in q;
    assert q != [] ==> q[0] in q && q[0] in p;
    if p != [] {
      assert p[0] == q[0] && p == [p[0]] + p[1..] && q == [q[0]] + q[1..];
      ListBehind(l, s, from, p);
      ListBehind(l, s, from, q);
      OneList(l, s, p[0].0 + 1, p[1..], q[1..]);
    }
  }

  lemma ListBehind(l: Letters, s: string, from: nat, p: seq<(int, int)>)
    requires AreStretchesFrom(l, s, from, p) && p != []
    ensures AreStretchesFrom(l, s, p[0].0 + 1, p[1..])
  {
    forall a, b | p[0].0 + 1 <= a && IsStretch(l, s, a, b) ensures (a, b) in p[1..] {
      assert (a, b) in p && (a, b) != p[0];
    }
  }

  function Words(l: Letters, s: string): seq<string> {
    StretchesAreAll(l, s, 0);
    Cuts(s, StretchesFrom(l, s, 0))
  }

  lemma SameWordsExactly(l: Letters, s: string, t: string)
    ensures SameWords(l, s, t) <==> Words(l, s) == Words(l, t)
  {
    StretchesAreAll(l, s, 0);
    StretchesAreAll(l, t, 0);
    assert AreStretches(l, s, StretchesFrom(l, s, 0)) && AreStretches(l, t, StretchesFrom(l, t, 0));
    if SameWords(l, s, t) {
      var p, q :| AreStretches(l, s, p) && AreStretches(l, t, q) && Cuts(s, p) == Cuts(t, q);
      OneList(l, s, 0, p, StretchesFrom(l, s, 0));
      OneList(l, t, 0, q, StretchesFrom(l, t, 0));
    }
  }

  // Each with a space in front.
  function Apart(words: seq<string>): string {
    if words == [] then [] else " " + (words[0] + Apart(words[1..]))
  }

  function WordsFrom(l: Letters, s: string, from: nat): (words: seq<string>)
    requires from <= |s|
    decreases |s| - from
  {
    if from == |s| then []
    else if l.isSpace(s[from]) then WordsFrom(l, s, from + 1)
    else
      var end := from + RunOf(NoSpace(l), s[from..]);
      assert s[from..][0] == s[from];
      [s[from..end]] + WordsFrom(l, s, end)
  }

  lemma {:induction false} WordsAreCuts(l: Letters, s: string, from: nat)
    requires from <= |s|
    ensures forall i :: 0 <= i < |StretchesFrom(l, s, from)| ==>
              0 <= StretchesFrom(l, s, from)[i].0 <= StretchesFrom(l, s, from)[i].1 <= |s|
    ensures WordsFrom(l, s, from) == Cuts(s, StretchesFrom(l, s, from))
    decreases |s| - from
  {
    if from < |s| {
      StretchesOnward(l, s, from);
      WordsAreCuts(l, s, if l.isSpace(s[from]) then from + 1 else from + RunOf(NoSpace(l), s[from..]));
    }
  }

  // Inside a word nothing is put in or left out.
  lemma {:induction false} SpacedOn(l: Letters, s: string, n: nat)
    requires n <= |s| && forall i :: 0 <= i < n ==> !l.isSpace(s[i])
    ensures Spaced(l, s, true, false) == s[..n] + Spaced(l, s[n..], true, false)
  {
    if n > 0 {
      SpacedOn(l, s[1..], n - 1);
      CutBehindFirst(s, n);
      Associates([s[0]], s[1..][..n - 1], Spaced(l, s[n..], true, false));
      assert "" + [s[0]] == [s[0]];
    } else {
      assert s[0..] == s;
    }
  }

  lemma CutBehindFirst(s: string, n: nat)
    requires 0 < n <= |s|
    ensures s[..n] == [s[0]] + s[1..][..n - 1] && s[1..][n - 1..] == s[n..]
  {
  }

  lemma SpacedWord(l: Letters, s: string, n: nat, hasWord: bool, isApart: bool)
    requires 0 < n <= |s| && forall i :: 0 <= i < n ==> !l.isSpace(s[i])
    ensures Spaced(l, s, hasWord, isApart)
            == (if isApart then " " else "") + (s[..n] + Spaced(l, s[n..], true, false))
  {
    var gap, rest := if isApart then " " else "", Spaced(l, s[n..], true, false);
    SpacedOn(l, s[1..], n - 1);
    CutBehindFirst(s, n);
    Associates(gap + [s[0]], s[1..][..n - 1], rest);
    Associates(gap, [s[0]], s[1..][..n - 1]);
    Associates(gap, s[..n], rest);
  }

  // Behind a word: the words to come, each with a space in front.
  lemma {:induction false} SpacedIsApart(l: Letters, s: string, from: nat, isApart: bool)
    requires from <= |s| && (isApart || from == |s| || l.isSpace(s[from]))
    ensures Spaced(l, s[from..], true, isApart) == Apart(WordsFrom(l, s, from))
    decreases |s| - from
  {
    if from < |s| {
      assert s[from..][0] == s[from] && s[from..][1..] == s[from + 1..];
      if l.isSpace(s[from]) {
        SpacedIsApart(l, s, from + 1, true);
      } else {
        var n := WordAt(l, s, from);
        var end := from + n;
        SpacedWord(l, s[from..], n, true, true);
        WordsAtWord(l, s, from);
        SpacedIsApart(l, s, end, false);
        assert ([s[from..end]] + WordsFrom(l, s, end))[1..] == WordsFrom(l, s, end);
      }
    }
  }

  // The word at a place, as a run of the rest of the text and as a piece of the whole.
  lemma WordAt(l: Letters, s: string, from: nat) returns (n: nat)
    requires from < |s| && !l.isSpace(s[from])
    ensures n == RunOf(NoSpace(l), s[from..]) && 0 < n && from + n <= |s|
    ensures forall i :: 0 <= i < n ==> !l.isSpace(s[from..][i])
    ensures from + n < |s| ==> l.isSpace(s[from + n])
    ensures s[from..][n..] == s[from + n..] && s[from..][..n] == s[from..from + n]
  {
    var rest := s[from..];
    n := RunOf(NoSpace(l), rest);
    assert rest[0] == s[from];
    forall i | 0 <= i < n ensures !l.isSpace(rest[i]) {
      assert NoSpace(l)(rest[i]);
    }
    assert n < |rest| ==> rest[n] == s[from + n];
  }

  lemma WordsAtWord(l: Letters, s: string, from: nat)
    requires from < |s| && !l.isSpace(s[from])
    ensures var end := from + RunOf(NoSpace(l), s[from..]);
            from < end <= |s| && WordsFrom(l, s, from) == [s[from..end]] + WordsFrom(l, s, end)
  {
    assert s[from..][0] == s[from];
  }

  // The first word bare, the others with a space in front.
  function Laid(words: seq<string>): string {
    if words == [] then [] else words[0] + Apart(words[1..])
  }

  lemma {:induction false} SpacedIsLaid(l: Letters, s: string, from: nat)
    requires from <= |s|
    ensures Spaced(l, s[from..], false, false) == Laid(WordsFrom(l, s, from))
    decreases |s| - from
  {
    if from < |s| {
      if l.isSpace(s[from]) {
        assert s[from..][0] == s[from] && s[from..][1..] == s[from + 1..];
        SpacedIsLaid(l, s, from + 1);
      } else {
        var n := WordAt(l, s, from);
        SpacedWord(l, s[from..], n, false, false);
        WordsAtWord(l, s, from);
        SpacedIsApart(l, s, from + n, false);
        LaidAtWord(s[from..from + n], WordsFrom(l, s, from + n));
      }
    }
  }

  lemma LaidAtWord(word: string, words: seq<string>)
    ensures Laid([word] + words) == "" + (word + Apart(words))
  {
    assert ([word] + words)[1..] == words && "" + (word + Apart(words)) == word + Apart(words);
  }

  predicate AreBare(words: seq<string>) {
    forall w | w in words :: w != [] && ' ' !in w
  }

  // Cut at the spaces, the words come back.
  lemma {:induction false} ApartIsInjective(p: seq<string>, q: seq<string>)
    requires AreBare(p) && AreBare(q) && Apart(p) == Apart(q)
    ensures p == q
  {
    if p != [] && q != [] {
      assert p[0] in p && q[0] in q;
      FirstWord(p[0], Apart(p[1..]), q[0], Apart(q[1..]));
      assert p == [p[0]] + p[1..] && q == [q[0]] + q[1..];
      assert forall w :: w in p[1..] ==> w in p;
      assert forall w :: w in q[1..] ==> w in q;
      ApartIsInjective(p[1..], q[1..]);
    }
  }

  lemma FirstWord(v: string, x: string, w: string, y: string)
    requires ' ' !in v && ' ' !in w && " " + (v + x) == " " + (w + y)
    requires (x == [] || x[0] == ' ') && (y == [] || y[0] == ' ')
    ensures v == w && x == y
  {
    assert (" " + (v + x))[1..] == v + x && (" " + (w + y))[1..] == w + y;
    if |v| < |w| {
      SpaceInside(v, x, w, y);
    } else if |w| < |v| {
      SpaceInside(w, y, v, x);
    }
    assert (v + x)[..|v|] == v && (w + y)[..|w|] == w && (v + x)[|v|..] == x && (w + y)[|w|..] == y;
  }

  lemma SpaceInside(v: string, x: string, w: string, y: string)
    requires v + x == w + y && |v| < |w| && (x == [] || x[0] == ' ')
    ensures ' ' in w
  {
    assert (v + x)[|v|] == (w + y)[|v|];
  }

  lemma {:induction false} WordsAreBare(l: Letters, s: string, from: nat)
    requires from <= |s| && l.isSpace(' ')
    ensures AreBare(WordsFrom(l, s, from))
    decreases |s| - from
  {
    if from < |s| {
      if l.isSpace(s[from]) {
        WordsAreBare(l, s, from + 1);
      } else {
        var n := RunOf(NoSpace(l), s[from..]);
        assert s[from..][0] == s[from];
        assert forall i :: 0 <= i < n ==> NoSpace(l)(s[from..][i]);
        assert forall i :: 0 <= i < n ==> s[from..from + n][i] == s[from..][i];
        WordsAreBare(l, s, from + n);
      }
    }
  }

  lemma SameSpacedExactly(l: Letters, s: string, t: string)
    requires l.isSpace(' ')
    ensures Spaced(l, s, false, false) == Spaced(l, t, false, false) <==> SameWords(l, s, t)
  {
    SpacedIsLaid(l, s, 0);
    SpacedIsLaid(l, t, 0);
    assert s[0..] == s && t[0..] == t;
    WordsAreCuts(l, s, 0);
    WordsAreCuts(l, t, 0);
    WordsAreBare(l, s, 0);
    WordsAreBare(l, t, 0);
    SameWordsExactly(l, s, t);
    var p, q := WordsFrom(l, s, 0), WordsFrom(l, t, 0);
    assert p == Words(l, s) && q == Words(l, t);
    if Spaced(l, s, false, false) == Spaced(l, t, false, false) {
      assert p != [] ==> Apart(p) == " " + (p[0] + Apart(p[1..])) && p[0] in p;
      assert q != [] ==> Apart(q) == " " + (q[0] + Apart(q[1..])) && q[0] in q;
      assert Apart(p) == Apart(q);
      ApartIsInjective(p, q);
    }
  }
}
