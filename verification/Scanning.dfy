// The longest run of accepted characters at the front of a text, as a pattern's star takes it; and words in a text.
module Scanning {
  function RunOf(accepts: char -> bool, s: string): (n: nat)
    ensures n <= |s| && (n < |s| ==> !accepts(s[n])) && forall i :: 0 <= i < n ==> accepts(s[i])
  {
    if s != [] && accepts(s[0]) then 1 + RunOf(accepts, s[1..]) else 0
  }

  lemma {:induction false} RunIs(accepts: char -> bool, s: string, n: nat)
    requires n <= |s| && (n < |s| ==> !accepts(s[n])) && forall i :: 0 <= i < n ==> accepts(s[i])
    ensures RunOf(accepts, s) == n
  {
    if n > 0 {
      RunIs(accepts, s[1..], n - 1);
    }
  }

  // ---------- Words inside a text ----------

  predicate Holds(s: string, words: string) {
    if s == [] then words == [] else words <= s || Holds(s[1..], words)
  }

  predicate IsAt(s: string, words: string, i: int) {
    0 <= i <= |s| - |words| && s[i..i + |words|] == words
  }

  lemma HoldsAt(s: string, words: string, i: int)
    requires IsAt(s, words, i)
    ensures Holds(s, words)
    decreases |s|
  {
    if i > 0 {
      assert s[1..][i - 1..i - 1 + |words|] == s[i..i + |words|];
      HoldsAt(s[1..], words, i - 1);
    }
  }

  lemma WhereItHolds(s: string, words: string) returns (i: int)
    requires Holds(s, words)
    ensures IsAt(s, words, i)
    decreases |s|
  {
    if words <= s {
      i := 0;
    } else {
      i := WhereItHolds(s[1..], words);
      assert s[1..][i..i + |words|] == s[i + 1..i + 1 + |words|];
      i := i + 1;
    }
  }

  // ---------- All pieces of one shape, left to right ----------

  // The pieces of a text between these ends.
  function Cuts(s: string, ends: seq<(int, int)>): (words: seq<string>)
    requires forall i :: 0 <= i < |ends| ==> 0 <= ends[i].0 <= ends[i].1 <= |s|
    ensures |words| == |ends| && forall i :: 0 <= i < |ends| ==> words[i] == s[ends[i].0..ends[i].1]
  {
    seq(|ends|, i requires 0 <= i < |ends| => s[ends[i].0..ends[i].1])
  }

  lemma CutsOnward(s: string, ends: seq<(int, int)>)
    requires ends != [] && forall i :: 0 <= i < |ends| ==> 0 <= ends[i].0 <= ends[i].1 <= |s|
    ensures Cuts(s, ends) == [s[ends[0].0..ends[0].1]] + Cuts(s, ends[1..])
  {
  }

  // What lies around them: before the first, between two, behind the last.
  function Gaps(s: string, from: nat, ends: seq<(int, int)>): (gaps: seq<string>)
    requires from <= |s| && AreApart(s, from, ends)
    ensures |gaps| == |ends| + 1
    decreases |ends|
  {
    if ends == [] then [s[from..]]
    else
      ApartBehind(s, from, ends);
      [s[from..ends[0].0]] + Gaps(s, ends[0].1, ends[1..])
  }

  ghost predicate AreApart(s: string, from: nat, ends: seq<(int, int)>) {
    && (forall i :: 0 <= i < |ends| ==> from <= ends[i].0 < ends[i].1 <= |s|)
    && (forall i, j :: 0 <= i < j < |ends| ==> ends[i].1 <= ends[j].0)
  }

  lemma ApartBehind(s: string, from: nat, ends: seq<(int, int)>)
    requires AreApart(s, from, ends) && ends != []
    ensures AreApart(s, ends[0].1, ends[1..])
  {
  }

  // Every piece of the shape that begins at `from` or later, and nothing else, in order.
  ghost predicate AreAllFrom(isPiece: string -> bool, s: string, from: nat, ends: seq<(int, int)>) {
    && AreApart(s, from, ends)
    && (forall i :: 0 <= i < |ends| ==> isPiece(s[ends[i].0..ends[i].1]))
    && (forall a, b {:trigger (a, b) in ends} :: from <= a < b <= |s| && isPiece(s[a..b]) ==> (a, b) in ends)
  }

  // The matcher finds a piece at the front of a text exactly when there is one, and no piece starts inside another.
  ghost predicate Finds(matchAt: string -> nat, isPiece: string -> bool) {
    && (forall s :: matchAt(s) <= |s|)
    && (forall s: string, n: int {:trigger s[..n]} :: 0 < n <= |s| ==> (matchAt(s) == n <==> isPiece(s[..n])))
    && (forall s: string, n: int, a: int, b: int {:trigger s[..n], s[a..b]} ::
          0 < n <= |s| && isPiece(s[..n]) && 0 < a < n && a < b <= |s| ==> !isPiece(s[a..b]))
  }

  // Where the pieces are, as a left-to-right scan finds them.
  function Ends(matchAt: string -> nat, s: string, from: nat): (ends: seq<(int, int)>)
    requires from <= |s|
    decreases |s| - from
  {
    if from == |s| then []
    else
      var n := matchAt(s[from..]);
      if 0 < n <= |s| - from then [(from, from + n)] + Ends(matchAt, s, from + n) else Ends(matchAt, s, from + 1)
  }

  lemma PieceHere(isPiece: string -> bool, s: string, from: nat, n: nat, rest: seq<(int, int)>)
    requires 0 < n <= |s| - from && isPiece(s[from..from + n]) && AreAllFrom(isPiece, s, from + n, rest)
    requires forall a, b {:trigger s[a..b]} :: from < a < from + n && a < b <= |s| ==> !isPiece(s[a..b])
    requires forall b {:trigger s[from..b]} :: from < b <= |s| && isPiece(s[from..b]) ==> b == from + n
    ensures AreAllFrom(isPiece, s, from, [(from, from + n)] + rest)
  {
    var all := [(from, from + n)] + rest;
    forall a, b {:trigger (a, b) in all} | from <= a < b <= |s| && isPiece(s[a..b]) ensures (a, b) in all {
      if a < from + n {
        assert a == from && b == from + n;
        assert all[0] == (a, b);
      } else {
        assert (a, b) in rest;
      }
    }
  }

  lemma OnePieceHere(matchAt: string -> nat, isPiece: string -> bool, s: string, from: nat, n: nat)
    requires Finds(matchAt, isPiece) && from < |s| && n == matchAt(s[from..]) && n > 0
    ensures n <= |s| - from && isPiece(s[from..from + n])
    ensures forall a, b {:trigger s[a..b]} :: from < a < from + n && a < b <= |s| ==> !isPiece(s[a..b])
    ensures forall b {:trigger s[from..b]} :: from < b <= |s| && isPiece(s[from..b]) ==> b == from + n
  {
    var rest := s[from..];
    assert rest[..n] == s[from..from + n];
    forall a, b {:trigger s[a..b]} | from < a < from + n && a < b <= |s| ensures !isPiece(s[a..b]) {
      assert rest[a - from..b - from] == s[a..b];
    }
    forall b {:trigger s[from..b]} | from < b <= |s| && isPiece(s[from..b]) ensures b == from + n {
      assert rest[..b - from] == s[from..b];
    }
  }

  lemma NoPieceHere(matchAt: string -> nat, isPiece: string -> bool, s: string, from: nat, rest: seq<(int, int)>)
    requires Finds(matchAt, isPiece) && from < |s| && matchAt(s[from..]) == 0
    requires AreAllFrom(isPiece, s, from + 1, rest)
    ensures AreAllFrom(isPiece, s, from, rest)
  {
    forall b {:trigger s[from..b]} | from < b <= |s| ensures !isPiece(s[from..b]) {
      assert s[from..][..b - from] == s[from..b];
    }
  }

  // The scan finds them all.
  lemma {:induction false} EndsAreAll(matchAt: string -> nat, isPiece: string -> bool, s: string, from: nat)
    requires Finds(matchAt, isPiece) && from <= |s|
    ensures AreAllFrom(isPiece, s, from, Ends(matchAt, s, from))
    decreases |s| - from
  {
    if from < |s| {
      var n := matchAt(s[from..]);
      if n > 0 {
        OnePieceHere(matchAt, isPiece, s, from, n);
        EndsAreAll(matchAt, isPiece, s, from + n);
        PieceHere(isPiece, s, from, n, Ends(matchAt, s, from + n));
      } else {
        EndsAreAll(matchAt, isPiece, s, from + 1);
        NoPieceHere(matchAt, isPiece, s, from, Ends(matchAt, s, from + 1));
      }
    }
  }

  ghost predicate HoldsPiece(isPiece: string -> bool, s: string) {
    exists a, b {:trigger s[a..b]} :: 0 <= a < b <= |s| && isPiece(s[a..b])
  }

  // Around all pieces there is none left.
  lemma {:induction false} NoneInGaps(isPiece: string -> bool, s: string, from: nat, ends: seq<(int, int)>, i: nat)
    requires from <= |s| && AreAllFrom(isPiece, s, from, ends) && i <= |ends|
    ensures !HoldsPiece(isPiece, Gaps(s, from, ends)[i])
    decreases |ends|
  {
    if i > 0 {
      AllBehind(isPiece, s, from, ends);
      NoneInGaps(isPiece, s, ends[0].1, ends[1..], i - 1);
    } else {
      var end := if ends == [] then |s| else ends[0].0;
      var gap := s[from..end];
      forall a, b {:trigger gap[a..b]} | 0 <= a < b <= |gap| ensures !isPiece(gap[a..b]) {
        assert gap[a..b] == s[from + a..from + b];
        NotInside(isPiece, s, from, ends, from + a, from + b);
      }
      assert Gaps(s, from, ends)[0] == gap;
    }
  }

  lemma NotInside(isPiece: string -> bool, s: string, from: nat, ends: seq<(int, int)>, a: int, b: int)
    requires AreAllFrom(isPiece, s, from, ends) && from <= a < b <= (if ends == [] then |s| else ends[0].0) <= |s|
    ensures !isPiece(s[a..b])
  {
    assert (a, b) !in ends by {
      assert forall i :: 0 <= i < |ends| ==> ends[0].0 <= ends[i].0;
    }
  }

  lemma AllBehind(isPiece: string -> bool, s: string, from: nat, ends: seq<(int, int)>)
    requires AreAllFrom(isPiece, s, from, ends) && ends != []
    ensures AreAllFrom(isPiece, s, ends[0].1, ends[1..])
  {
    forall a, b {:trigger (a, b) in ends[1..]} | ends[0].1 <= a < b <= |s| && isPiece(s[a..b])
      ensures (a, b) in ends[1..]
    {
      assert (a, b) in ends && (a, b) != ends[0];
    }
  }
}
