// Facts about sequences and sets the solver is told rather than left to find.
module Collections {
  lemma Associates<T>(a: seq<T>, b: seq<T>, c: seq<T>)
    ensures a + (b + c) == a + b + c
  {
  }

  lemma FromHere<T>(s: seq<T>, i: nat)
    requires i < |s|
    ensures s[i..] == [s[i]] + s[i + 1..] && s[i..][0] == s[i] && s[i..][1..] == s[i + 1..]
  {
  }

  // A sum cut inside its first part.
  lemma CutInFirst<T>(a: seq<T>, b: seq<T>, k: nat)
    requires k <= |a|
    ensures (a + b)[k..] == a[k..] + b && (a + b)[..k] == a[..k]
  {
  }

  // A part of what is in front of a cut.
  lemma PartInFront<T>(s: seq<T>, n: int, a: int, b: int)
    requires 0 <= a <= b <= n <= |s|
    ensures s[..n][a..b] == s[a..b]
  {
  }

  // A cut behind another one.
  lemma CutAgain<T>(s: seq<T>, n: nat, k: nat)
    requires n <= k <= |s|
    ensures s[n..][k - n..] == s[k..] && s[n..][..k - n] == s[n..k] && s[..k] == s[..n] + s[n..k]
  {
  }

  // ---------- Pieces, one after the other ----------

  function Flat<T>(pieces: seq<seq<T>>): seq<T> {
    if pieces == [] then [] else pieces[0] + Flat(pieces[1..])
  }

  lemma {:induction false} FlatConcat<T>(a: seq<seq<T>>, b: seq<seq<T>>)
    ensures Flat(a + b) == Flat(a) + Flat(b)
  {
    if a == [] {
      assert a + b == b;
    } else {
      FlatConcat(a[1..], b);
      CutInFirst(a, b, 1);
      assert (a + b)[0] == a[0];
      Associates(a[0], Flat(a[1..]), Flat(b));
    }
  }

  lemma FlatOne<T>(piece: seq<T>)
    ensures Flat([piece]) == piece
  {
    assert Flat([piece]) == piece + Flat([]);
  }

  lemma OneMorePiece<T>(pieces: seq<seq<T>>, piece: seq<T>)
    ensures Flat(pieces + [piece]) == Flat(pieces) + piece
  {
    FlatConcat(pieces, [piece]);
    FlatOne(piece);
  }

  // ---------- Sets ----------

  lemma SubsetIsSmaller<T>(a: set<T>, b: set<T>)
    requires a <= b
    ensures |a| <= |b|
  {
    if a != {} {
      var x :| x in a;
      SubsetIsSmaller(a - {x}, b - {x});
    }
  }

  lemma OneMoreMember<T>(s: set<T>, x: T)
    ensures |s + {x}| <= |s| + 1
  {
    if x in s {
      assert s + {x} == s;
    }
  }
}
