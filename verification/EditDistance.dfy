/**
 How much of a draft was rewritten: the word-level edit distance over the longer text. The two-row loop is proved
 against the recurrence, and the recurrence against its meaning, the fewest edits that turn one text into the other.
 */
module EditDistance {
  import opened Common

  type Words = seq<string>

  // ---------- Edit scripts ----------

  // One entry for each word kept, replaced, put in or taken out, in reading order.
  datatype Edit = Keep | Replace(with: string) | Insert(word: string) | Delete

  function Butlast<T>(s: seq<T>): seq<T>
    requires s != []
  {
    s[..|s| - 1]
  }

  function Last<T>(s: seq<T>): T
    requires s != []
  {
    s[|s| - 1]
  }

  // The text a script makes of `text`, or None when it does not fit it.
  function Edited(script: seq<Edit>, text: Words): Option<Words>
    decreases |script|
  {
    if script == [] then (if text == [] then Some([]) else None)
    else
      match Last(script)
      case Insert(word) => Then(Edited(Butlast(script), text), [word])
      case Keep => if text == [] then None else Then(Edited(Butlast(script), Butlast(text)), [Last(text)])
      case Replace(with) => if text == [] then None else Then(Edited(Butlast(script), Butlast(text)), [with])
      case Delete => if text == [] then None else Edited(Butlast(script), Butlast(text))
  }

  function Then(start: Option<Words>, end: Words): Option<Words> {
    if start.None? then None else Some(start.value + end)
  }

  function Cost(script: seq<Edit>): nat {
    if script == [] then 0 else Cost(Butlast(script)) + (if Last(script).Keep? then 0 else 1)
  }

  // ---------- The distance ----------

  function Min(a: nat, b: nat): nat {
    if a < b then a else b
  }

  function Differ(a: string, b: string): nat {
    if a == b then 0 else 1
  }

  function Distance(a: Words, b: Words): nat
    decreases |a| + |b|
  {
    if a == [] then |b|
    else if b == [] then |a|
    else Min(Min(Distance(Butlast(a), b) + 1, Distance(a, Butlast(b)) + 1),
             Distance(Butlast(a), Butlast(b)) + Differ(Last(a), Last(b)))
  }

  // Some script of exactly the distance's cost turns a into b ...
  lemma {:induction false} ScriptOfThatCost(a: Words, b: Words) returns (script: seq<Edit>)
    ensures Edited(script, a) == Some(b) && Cost(script) == Distance(a, b)
    decreases |a| + |b|
  {
    if a == [] && b == [] {
      return [];
    }
    var last: Edit;
    if b != [] && (a == [] || Distance(a, b) == Distance(a, Butlast(b)) + 1) {
      script := ScriptOfThatCost(a, Butlast(b));
      last := Insert(Last(b));
    } else if a != [] && (b == [] || Distance(a, b) == Distance(Butlast(a), b) + 1) {
      script := ScriptOfThatCost(Butlast(a), b);
      last := Delete;
    } else {
      script := ScriptOfThatCost(Butlast(a), Butlast(b));
      last := if Last(a) == Last(b) then Keep else Replace(Last(b));
    }
    assert Butlast(script + [last]) == script;
    assert b != [] ==> b == Butlast(b) + [Last(b)];
    script := script + [last];
  }

  // ... and none costs less.
  lemma {:induction false} NoScriptCostsLess(script: seq<Edit>, a: Words, b: Words)
    requires Edited(script, a) == Some(b)
    ensures Distance(a, b) <= Cost(script)
    decreases |script|
  {
    if script != [] {
      var rest := Butlast(script);
      match Last(script)
      case Insert(word) =>
        var before := Edited(rest, a).value;
        assert b == before + [word] && Butlast(b) == before;
        NoScriptCostsLess(rest, a, before);
      case Keep =>
        var before := Edited(rest, Butlast(a)).value;
        assert b == before + [Last(a)] && Butlast(b) == before;
        NoScriptCostsLess(rest, Butlast(a), before);
      case Replace(with) =>
        var before := Edited(rest, Butlast(a)).value;
        assert b == before + [with] && Butlast(b) == before;
        NoScriptCostsLess(rest, Butlast(a), before);
      case Delete =>
        NoScriptCostsLess(rest, Butlast(a), b);
        DroppingCostsOne(a, b);
    }
  }

  lemma DroppingCostsOne(a: Words, b: Words)
    requires a != []
    ensures Distance(a, b) <= Distance(Butlast(a), b) + 1
  {
  }

  // The distance is the cost of the cheapest script.
  lemma DistanceIsFewestEdits(a: Words, b: Words)
    ensures exists script :: Edited(script, a) == Some(b) && Cost(script) == Distance(a, b)
    ensures forall script :: Edited(script, a) == Some(b) ==> Distance(a, b) <= Cost(script)
  {
    var cheapest := ScriptOfThatCost(a, b);
    forall script | Edited(script, a) == Some(b) ensures Distance(a, b) <= Cost(script) {
      NoScriptCostsLess(script, a, b);
    }
  }

  // ---------- It is a metric, bounded by the longer text ----------

  lemma {:induction false} Symmetric(a: Words, b: Words)
    ensures Distance(a, b) == Distance(b, a)
    decreases |a| + |b|
  {
    if a != [] && b != [] {
      Symmetric(Butlast(a), b);
      Symmetric(a, Butlast(b));
      Symmetric(Butlast(a), Butlast(b));
    }
  }

  lemma {:induction false} Bounds(a: Words, b: Words)
    ensures Distance(a, b) <= Max(|a|, |b|)
    ensures |a| <= |b| + Distance(a, b) && |b| <= |a| + Distance(a, b)
    decreases |a| + |b|
  {
    if a != [] && b != [] {
      Bounds(Butlast(a), b);
      Bounds(a, Butlast(b));
      Bounds(Butlast(a), Butlast(b));
    }
  }

  lemma {:induction false} ZeroOnlyWhenEqual(a: Words, b: Words)
    ensures Distance(a, b) == 0 <==> a == b
    decreases |a| + |b|
  {
    if a != [] && b != [] {
      ZeroOnlyWhenEqual(Butlast(a), Butlast(b));
      assert a == Butlast(a) + [Last(a)] && b == Butlast(b) + [Last(b)];
    }
  }

  lemma {:induction false} Triangle(a: Words, b: Words, c: Words)
    ensures Distance(a, c) <= Distance(a, b) + Distance(b, c)
    decreases |a| + |b| + |c|
  {
    if a == [] || b == [] || c == [] {
      Bounds(a, b);
      Bounds(b, c);
      Bounds(a, c);
    } else if Distance(a, b) == Distance(Butlast(a), b) + 1 {
      Triangle(Butlast(a), b, c);
    } else if Distance(b, c) == Distance(b, Butlast(c)) + 1 {
      Triangle(a, b, Butlast(c));
    } else if Distance(a, b) == Distance(a, Butlast(b)) + 1 {
      if Distance(b, c) == Distance(Butlast(b), c) + 1 {
        Triangle(a, Butlast(b), c);
      } else {
        Triangle(a, Butlast(b), Butlast(c));
      }
    } else if Distance(b, c) == Distance(Butlast(b), c) + 1 {
      Triangle(Butlast(a), Butlast(b), c);
    } else {
      Triangle(Butlast(a), Butlast(b), Butlast(c));
    }
  }

  // ---------- The loop ----------

  lemma PrefixRow(words: Words, i: nat)
    requires i < |words|
    ensures Butlast(words[..i + 1]) == words[..i] && Last(words[..i + 1]) == words[i]
  {
  }

  // Each finished row holds the distances from one more word of `before` to every prefix of `after`.
  method LastCell(before: Words, after: Words) returns (distance: nat)
    ensures distance == Distance(before, after)
  {
    var previous := seq(|after| + 1, j => j);
    for i := 0 to |before|
      invariant |previous| == |after| + 1
      invariant forall j :: 0 <= j <= |after| ==> previous[j] == Distance(before[..i], after[..j])
    {
      var current := [i + 1];
      PrefixRow(before, i);
      for j := 0 to |after|
        invariant |current| == j + 1
        invariant forall k :: 0 <= k <= j ==> current[k] == Distance(before[..i + 1], after[..k])
      {
        PrefixRow(after, j);
        current := current + [Min(Min(previous[j + 1] + 1, current[j] + 1), previous[j] + Differ(before[i], after[j]))];
      }
      previous := current;
    }
    assert before[..|before|] == before && after[..|after|] == after;
    distance := previous[|after|];
  }

  // 0 when sent as shown, 1 when rewritten.
  method EditRatio(before: Words, after: Words) returns (ratio: real)
    ensures before == [] && after == [] ==> ratio == 0.0
    ensures Max(|before|, |after|) > 0 ==> ratio == Distance(before, after) as real / Max(|before|, |after|) as real
    ensures 0.0 <= ratio <= 1.0
    ensures ratio == 0.0 <==> before == after
  {
    if before == [] && after == [] {
      return 0.0;
    }
    var distance := LastCell(before, after);
    var longest := Max(|before|, |after|);
    ratio := distance as real / longest as real;
    Bounds(before, after);
    ZeroOnlyWhenEqual(before, after);
    RatioIsAFraction(distance, longest);
  }

  lemma RatioIsAFraction(n: nat, d: nat)
    requires n <= d && d > 0
    ensures 0.0 <= n as real / d as real <= 1.0
    ensures n as real / d as real == 0.0 <==> n == 0
  {
  }
}
